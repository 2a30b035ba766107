/** The expansion of a template is the product of its payloads. */
module TemplateProduct {
  import opened Wrappers
  import opened Bytes
  import opened Template
  import opened TemplateText

  // ---------------------------------------------------------------------------------------------
  // Choices: which value of each payload.
  // ---------------------------------------------------------------------------------------------

  /** For each key the index of the value chosen. */
  type Choice = map<string, nat>

  function ChooseEach(c: Choice, key: string, n: nat): (r: seq<Choice>)
    ensures |r| == n && forall j :: 0 <= j < n ==> r[j] == c[key := j]
  {
    seq(n, j requires 0 <= j < n => c[key := j])
  }

  function ChooseAll(cs: seq<Choice>, key: string, n: nat): seq<Choice> {
    if cs == [] then [] else ChooseEach(cs[0], key, n) + ChooseAll(cs[1..], key, n)
  }

  /** `c` is `b` with value `j` chosen for `key`. */
  predicate Adds(b: Choice, key: string, j: nat, c: Choice) {
    c == b[key := j]
  }

  /** All choices for the payloads in order, as the rounds produce them. */
  function Choices(ps: seq<Payload>): seq<Choice> {
    if ps == [] then [map[]]
    else var last := ps[|ps| - 1]; ChooseAll(Choices(ps[..|ps| - 1]), last.key, |last.values|)
  }

  predicate DistinctKeys(ps: seq<Payload>) {
    forall i, j :: 0 <= i < j < |ps| ==> ps[i].key != ps[j].key
  }

  /** `c` picks one value of each payload, and nothing else. */
  ghost predicate IsChoice(c: Choice, ps: seq<Payload>) {
    && (forall k :: k in c <==> exists i :: 0 <= i < |ps| && ps[i].key == k)
    && forall i :: 0 <= i < |ps| ==> ps[i].key in c && c[ps[i].key] < |ps[i].values|
  }

  predicate NoDuplicates<T(==)>(s: seq<T>) {
    forall i, j :: 0 <= i < j < |s| ==> s[i] != s[j]
  }

  lemma {:induction false} ChooseAllMembers(cs: seq<Choice>, key: string, n: nat, c: Choice)
    ensures c in ChooseAll(cs, key, n) <==> exists b, j: nat :: b in cs && j < n && Adds(b, key, j, c)
    decreases |cs|
  {
    if cs != [] {
      var row, rest := ChooseEach(cs[0], key, n), ChooseAll(cs[1..], key, n);
      ChooseAllMembers(cs[1..], key, n, c);
      if c in row {
        var j :| 0 <= j < n && row[j] == c;
        assert cs[0] in cs && Adds(cs[0], key, j, c);
      }
      if exists b, j: nat :: b in cs && j < n && Adds(b, key, j, c) {
        var b, j: nat :| b in cs && j < n && Adds(b, key, j, c);
        if b == cs[0] {
          assert row[j] == c;
        } else {
          assert b in cs[1..];
        }
      }
    }
  }

  lemma {:induction false} ChooseAllDistinct(cs: seq<Choice>, key: string, n: nat)
    requires NoDuplicates(cs) && forall c :: c in cs ==> key !in c
    ensures NoDuplicates(ChooseAll(cs, key, n))
    decreases |cs|
  {
    if cs != [] {
      var row, rest := ChooseEach(cs[0], key, n), ChooseAll(cs[1..], key, n);
      assert forall i :: 0 <= i < |cs[1..]| ==> cs[1..][i] == cs[i + 1];
      ChooseAllDistinct(cs[1..], key, n);
      var all: seq<Choice> := row + rest;
      forall i, j | 0 <= i < j < |all|
        ensures all[i] != all[j]
      {
        if j < |row| {
          assert row[i][key] == i && row[j][key] == j;
        } else if i < |row| {
          RowsDiffer(cs, key, n, i, rest[j - |row|]);
        }
      }
    }
  }

  lemma RowsDiffer(cs: seq<Choice>, key: string, n: nat, i: nat, c: Choice)
    requires cs != [] && NoDuplicates(cs) && (forall b :: b in cs ==> key !in b)
    requires i < n && c in ChooseAll(cs[1..], key, n)
    ensures cs[0][key := i] != c
  {
    ChooseAllMembers(cs[1..], key, n, c);
    var b, j: nat :| b in cs[1..] && j < n && Adds(b, key, j, c);
    assert b in cs;
    var k :| 0 <= k < |cs[1..]| && cs[1..][k] == b;
    assert cs[0] != cs[k + 1];
    assert cs[0][key := i] - {key} == cs[0] && c - {key} == b;
  }

  /** The rounds produce every choice, each once. */
  lemma {:induction false} ChoicesAreAll(ps: seq<Payload>)
    requires DistinctKeys(ps)
    ensures NoDuplicates(Choices(ps)) && forall c :: c in Choices(ps) <==> IsChoice(c, ps)
    decreases |ps|
  {
    if ps == [] {
      forall c
        ensures c in Choices(ps) <==> IsChoice(c, ps)
      {
        OnlyEmptyChoice(c);
      }
    } else {
      var init, last := ps[..|ps| - 1], ps[|ps| - 1];
      ChoicesAreAll(init);
      forall c | c in Choices(init)
        ensures last.key !in c
      {
        LastIsFresh(ps);
      }
      ChooseAllDistinct(Choices(init), last.key, |last.values|);
      forall c
        ensures c in Choices(ps) <==> IsChoice(c, ps)
      {
        ChooseAllMembers(Choices(init), last.key, |last.values|, c);
        ChoiceSplits(c, ps);
      }
    }
  }

  lemma LastIsFresh(ps: seq<Payload>)
    requires ps != [] && DistinctKeys(ps)
    ensures var init, last := ps[..|ps| - 1], ps[|ps| - 1]; forall i :: 0 <= i < |init| ==> init[i].key != last.key
  {
    var init := ps[..|ps| - 1];
    assert forall i :: 0 <= i < |init| ==> init[i] == ps[i];
  }

  lemma OnlyEmptyChoice(c: Choice)
    ensures IsChoice(c, []) <==> c == map[]
  {
  }

  /** A choice for all payloads is a choice for all but the last, with one for the last. */
  lemma ChoiceSplits(c: Choice, ps: seq<Payload>)
    requires ps != [] && DistinctKeys(ps)
    ensures var init, last := ps[..|ps| - 1], ps[|ps| - 1];
      IsChoice(c, ps) <==> exists b, j: nat :: IsChoice(b, init) && j < |last.values| && Adds(b, last.key, j, c)
  {
    var init, last := ps[..|ps| - 1], ps[|ps| - 1];
    if IsChoice(c, ps) {
      RestrictChoice(c, ps);
      var b := c - {last.key};
      assert Adds(b, last.key, c[last.key], c);
    }
    if exists b, j: nat :: IsChoice(b, init) && j < |last.values| && Adds(b, last.key, j, c) {
      var b, j: nat :| IsChoice(b, init) && j < |last.values| && Adds(b, last.key, j, c);
      ExtendChoice(b, ps, j);
    }
  }

  lemma RestrictChoice(c: Choice, ps: seq<Payload>)
    requires ps != [] && DistinctKeys(ps) && IsChoice(c, ps)
    ensures IsChoice(c - {ps[|ps| - 1].key}, ps[..|ps| - 1])
  {
    var init, key := ps[..|ps| - 1], ps[|ps| - 1].key;
    var b := c - {key};
    LastIsFresh(ps);
    assert forall i :: 0 <= i < |init| ==> init[i] == ps[i];
    forall k
      ensures k in b <==> exists i :: 0 <= i < |init| && init[i].key == k
    {
      if k in b {
        var i :| 0 <= i < |ps| && ps[i].key == k;
        assert init[i].key == k;
      }
    }
    forall i | 0 <= i < |init|
      ensures init[i].key in b && b[init[i].key] < |init[i].values|
    {
      assert ps[i] == init[i] && ps[i].key != key;
    }
  }

  lemma ExtendChoice(b: Choice, ps: seq<Payload>, j: nat)
    requires ps != [] && DistinctKeys(ps) && IsChoice(b, ps[..|ps| - 1]) && j < |ps[|ps| - 1].values|
    ensures IsChoice(b[ps[|ps| - 1].key := j], ps)
  {
    var init, last := ps[..|ps| - 1], ps[|ps| - 1];
    var c := b[last.key := j];
    forall k
      ensures k in c <==> exists i :: 0 <= i < |ps| && ps[i].key == k
    {
      if k == last.key {
        assert ps[|ps| - 1].key == k;
      } else if k in b {
        var i :| 0 <= i < |init| && init[i].key == k;
        assert ps[i].key == k;
      }
      if exists i :: 0 <= i < |ps| && ps[i].key == k {
        var i :| 0 <= i < |ps| && ps[i].key == k;
        if i < |init| {
          assert init[i].key == k;
        }
      }
    }
    forall i | 0 <= i < |ps|
      ensures ps[i].key in c && c[ps[i].key] < |ps[i].values|
    {
      if i < |init| {
        assert init[i] == ps[i] && ps[i].key != last.key;
      }
    }
  }

  // ---------------------------------------------------------------------------------------------
  // Expansion is filling, choice by choice.
  // ---------------------------------------------------------------------------------------------

  /** The values a choice picks. */
  function Picked(c: Choice, ps: seq<Payload>): Filling
    decreases |ps|
  {
    if ps == [] then map[]
    else
      var last := ps[|ps| - 1];
      var m := Picked(c, ps[..|ps| - 1]);
      if last.key in c && c[last.key] < |last.values| then m[last.key := last.values[c[last.key]]] else m
  }

  /** The request a choice denotes. */
  function Chosen(t: Shape, ps: seq<Payload>, c: Choice): Variant {
    RenderShape(FillShape(t, Picked(c, ps)))
  }

  function AllChosen(t: Shape, ps: seq<Payload>, cs: seq<Choice>): (r: seq<Variant>)
    ensures |r| == |cs| && forall i :: 0 <= i < |cs| ==> r[i] == Chosen(t, ps, cs[i])
  {
    seq(|cs|, i requires 0 <= i < |cs| => Chosen(t, ps, cs[i]))
  }

  predicate PlainPayloads(ps: seq<Payload>) {
    forall i :: 0 <= i < |ps| ==>
      NoBraces(ps[i].key) && forall j :: 0 <= j < |ps[i].values| ==> NoBraces(ps[i].values[j])
  }

  lemma {:induction false} PickedIsPlain(c: Choice, ps: seq<Payload>)
    requires PlainPayloads(ps)
    ensures forall k :: k in Picked(c, ps) ==> NoBraces(Picked(c, ps)[k])
    ensures forall k :: k in Picked(c, ps) ==> exists i :: 0 <= i < |ps| && ps[i].key == k
    decreases |ps|
  {
    if ps != [] {
      var init := ps[..|ps| - 1];
      PickedIsPlain(c, init);
      forall k | k in Picked(c, ps)
        ensures exists i :: 0 <= i < |ps| && ps[i].key == k
      {
        if k in Picked(c, init) {
          var i :| 0 <= i < |init| && init[i].key == k;
          assert ps[i].key == k;
        } else {
          assert ps[|ps| - 1].key == k;
        }
      }
    }
  }

  /** The choice of a later key does not change what earlier payloads pick. */
  lemma {:induction false} PickedIgnores(c: Choice, ps: seq<Payload>, key: string, j: nat)
    requires forall i :: 0 <= i < |ps| ==> ps[i].key != key
    ensures Picked(c[key := j], ps) == Picked(c, ps)
    decreases |ps|
  {
    if ps != [] {
      PickedIgnores(c, ps[..|ps| - 1], key, j);
    }
  }

  lemma PickedExtends(c: Choice, ps: seq<Payload>, j: nat)
    requires ps != [] && DistinctKeys(ps) && j < |ps[|ps| - 1].values|
    ensures var init, last := ps[..|ps| - 1], ps[|ps| - 1];
      Picked(c[last.key := j], ps) == Picked(c, init)[last.key := last.values[j]]
  {
    PickedIgnores(c, ps[..|ps| - 1], ps[|ps| - 1].key, j);
  }

  /** Substituting the last payload's value in an already chosen request is choosing it too. */
  lemma ChosenExtends(t: Shape, ps: seq<Payload>, c: Choice, j: nat)
    requires PlainShape(t) && PlainPayloads(ps) && ps != [] && DistinctKeys(ps) && j < |ps[|ps| - 1].values|
    ensures var init, last := ps[..|ps| - 1], ps[|ps| - 1];
      Substitute(Chosen(t, init, c), last.key, last.values[j]) == Chosen(t, ps, c[last.key := j])
  {
    hide PlainShape, Substitute, FillShape, RenderShape;
    var init, last := ps[..|ps| - 1], ps[|ps| - 1];
    PickedIsPlain(c, init);
    LastIsFresh(ps);
    SubstituteExtends(t, Picked(c, init), last.key, last.values[j]);
    PickedExtends(c, ps, j);
  }

  lemma {:induction false} RowAt(v: Variant, key: string, values: seq<string>, j: nat)
    requires j < |values|
    ensures Row(v, key, values)[j] == Substitute(v, key, values[j])
    decreases |values|
  {
    hide Substitute;
    if j > 0 {
      RowAt(v, key, values[1..], j - 1);
    }
  }

  lemma {:induction false} ProductIsChosen(t: Shape, ps: seq<Payload>, cs: seq<Choice>)
    requires PlainShape(t) && PlainPayloads(ps) && ps != [] && DistinctKeys(ps)
    ensures var init, last := ps[..|ps| - 1], ps[|ps| - 1];
      Product(AllChosen(t, init, cs), last) == AllChosen(t, ps, ChooseAll(cs, last.key, |last.values|))
    decreases |cs|
  {
    hide Chosen, Substitute, PlainShape, PlainPayloads, DistinctKeys, Row;
    var init, last := ps[..|ps| - 1], ps[|ps| - 1];
    if cs == [] {
      assert AllChosen(t, init, cs) == [];
    } else {
      ProductIsChosen(t, ps, cs[1..]);
      assert AllChosen(t, init, cs)[1..] == AllChosen(t, init, cs[1..]);
      var n := |last.values|;
      var row := Row(Chosen(t, init, cs[0]), last.key, last.values);
      assert row == AllChosen(t, ps, ChooseEach(cs[0], last.key, n)) by {
        forall j | 0 <= j < n
          ensures row[j] == Chosen(t, ps, cs[0][last.key := j])
        {
          RowAt(Chosen(t, init, cs[0]), last.key, last.values, j);
          ChosenExtends(t, ps, cs[0], j);
        }
      }
      AllChosenSplits(t, ps, ChooseEach(cs[0], last.key, n), ChooseAll(cs[1..], last.key, n));
    }
  }

  lemma AllChosenSplits(t: Shape, ps: seq<Payload>, a: seq<Choice>, b: seq<Choice>)
    ensures AllChosen(t, ps, a + b) == AllChosen(t, ps, a) + AllChosen(t, ps, b)
  {
    hide Chosen;
  }

  // ---------------------------------------------------------------------------------------------
  // Main results.
  // ---------------------------------------------------------------------------------------------

  /** The product of the sizes of the payload lists. */
  function Combinations(ps: seq<Payload>): nat {
    if ps == [] then 1 else Combinations(ps[..|ps| - 1]) * |ps[|ps| - 1].values|
  }

  lemma {:induction false} ChooseAllCount(cs: seq<Choice>, key: string, n: nat)
    ensures |ChooseAll(cs, key, n)| == |cs| * n
    decreases |cs|
  {
    if cs != [] {
      ChooseAllCount(cs[1..], key, n);
      assert |cs| * n == n + |cs[1..]| * n;
    }
  }

  lemma {:induction false} ChoicesCount(ps: seq<Payload>)
    ensures |Choices(ps)| == Combinations(ps)
    decreases |ps|
  {
    if ps != [] {
      var init, last := ps[..|ps| - 1], ps[|ps| - 1];
      ChoicesCount(init);
      ChooseAllCount(Choices(init), last.key, |last.values|);
    }
  }

  /** How many payloads are gone through: the rounds stop as soon as the cap is reached. */
  ghost predicate Rounds(ps: seq<Payload>, cap: nat, n: nat) {
    && n <= |ps|
    && (forall i :: 0 < i < n ==> Combinations(ps[..i]) < cap)
    && (n < |ps| ==> 0 < n && Combinations(ps[..n]) >= cap)
  }

  /** One round turns the choices for `i` payloads into those for one more. */
  lemma OneMore(t: Shape, ps: seq<Payload>, i: nat)
    requires PlainShape(t) && PlainPayloads(ps) && DistinctKeys(ps) && i < |ps|
    ensures Product(AllChosen(t, ps[..i], Choices(ps[..i])), ps[i]) == AllChosen(t, ps[..i + 1], Choices(ps[..i + 1]))
    ensures |AllChosen(t, ps[..i + 1], Choices(ps[..i + 1]))| == Combinations(ps[..i + 1])
  {
    hide Product, Choices, PlainShape, PlainPayloads, DistinctKeys;
    var now := ps[..i + 1];
    assert now[..|now| - 1] == ps[..i] && now[|now| - 1] == ps[i];
    PrefixIsPlain(ps, i + 1);
    ProductIsChosen(t, now, Choices(ps[..i]));
    ChoicesUnfold(now);
    ChoicesCount(now);
  }

  /** From the choices for the first `i` payloads on: all choices for the payloads gone through, cut at the cap. */
  lemma {:induction false} ExpansionFrom(t: Shape, ps: seq<Payload>, cap: nat, i: nat) returns (n: nat)
    requires PlainShape(t) && PlainPayloads(ps) && DistinctKeys(ps) && i <= |ps| && cap > 0
    requires forall k :: 0 < k <= i ==> Combinations(ps[..k]) < cap
    ensures Rounds(ps, cap, n) && i <= n
    ensures ExpandFrom(AllChosen(t, ps[..i], Choices(ps[..i])), ps[i..], cap)
            == if n == i then AllChosen(t, ps[..i], Choices(ps[..i]))
               else Take(AllChosen(t, ps[..n], Choices(ps[..n])), cap)
    decreases |ps| - i
  {
    hide Product, AllChosen, Choices, PlainShape, PlainPayloads, DistinctKeys, Combinations;
    if i == |ps| {
      n := i;
    } else {
      OneMore(t, ps, i);
      assert ps[i..][0] == ps[i] && ps[i..][1..] == ps[i + 1..];
      if Combinations(ps[..i + 1]) >= cap {
        n := i + 1;
      } else {
        n := ExpansionFrom(t, ps, cap, i + 1);
      }
    }
  }

  lemma PrefixIsPlain(ps: seq<Payload>, n: nat)
    requires n <= |ps| && PlainPayloads(ps) && DistinctKeys(ps)
    ensures PlainPayloads(ps[..n]) && DistinctKeys(ps[..n])
  {
  }

  lemma ChoicesUnfold(ps: seq<Payload>)
    requires ps != []
    ensures Choices(ps) == ChooseAll(Choices(ps[..|ps| - 1]), ps[|ps| - 1].key, |ps[|ps| - 1].values|)
  {
  }

  /** The payloads of `ps` whose placeholder the template mentions: those that are expanded. */
  function Used(t: Shape, ps: seq<Payload>): seq<Payload> {
    Referenced(RenderShape(t), ps)
  }

  lemma {:induction false} ReferencedIsFilter(v: Variant, ps: seq<Payload>)
    ensures forall p :: p in Referenced(v, ps) <==> p in ps && Contains(Haystack(v), Placeholder(p.key))
    ensures DistinctKeys(ps) ==> DistinctKeys(Referenced(v, ps))
    decreases |ps|
  {
    hide Contains, Haystack, Placeholder;
    if ps != [] {
      var rest := Referenced(v, ps[1..]);
      assert forall i :: 0 <= i < |ps[1..]| ==> ps[1..][i] == ps[i + 1];
      ReferencedIsFilter(v, ps[1..]);
      assert forall p :: p in ps <==> p == ps[0] || p in ps[1..];
    }
  }

  lemma UsedExactly(t: Shape, ps: seq<Payload>)
    requires PlainTemplate(t) && PlainPayloads(ps) && DistinctKeys(ps)
    ensures forall p :: p in Used(t, ps) <==> p in ps && Mentions(t, p.key)
    ensures PlainPayloads(Used(t, ps)) && DistinctKeys(Used(t, ps))
  {
    hide Contains, Haystack, Placeholder, PlainTemplate, Mentions, Referenced, RenderShape, NoBraces;
    ReferencedIsFilter(RenderShape(t), ps);
    forall p | p in ps
      ensures Contains(Haystack(RenderShape(t)), Placeholder(p.key)) <==> Mentions(t, p.key)
    {
      ReferencedExactly(t, p.key);
    }
    assert forall i :: 0 <= i < |Used(t, ps)| ==> Used(t, ps)[i] in ps;
  }

  /** Expanding a plain template gives exactly its fillings by the choices for the payloads gone through, in order and
      cut at the cap; the choices are all there are, each once. */
  lemma ExpansionIsProduct(t: Shape, ps: seq<Payload>, cap: nat) returns (n: nat)
    requires PlainTemplate(t) && PlainPayloads(ps) && DistinctKeys(ps) && cap > 0
    ensures Rounds(Used(t, ps), cap, n)
    ensures var gone := Used(t, ps)[..n];
      && Expand(RenderShape(t), ps, cap) == Take(AllChosen(t, gone, Choices(gone)), cap)
      && NoDuplicates(Choices(gone)) && forall c :: c in Choices(gone) <==> IsChoice(c, gone)
  {
    hide PlainPayloads, DistinctKeys, Referenced, Choices, AllChosen;
    var used := Used(t, ps);
    UsedExactly(t, ps);
    NothingChosen(t);
    assert used[..0] == [] && used[0..] == used;
    n := ExpansionFrom(t, used, cap, 0);
    PrefixIsPlain(used, n);
    ChoicesAreAll(used[..n]);
  }

  /** Which placeholders are left in the requests: those of the payloads not gone through, those in header names, and no
      others. */
  lemma LeftoverExactly(t: Shape, ps: seq<Payload>, cap: nat, i: nat) returns (n: nat)
    requires PlainTemplate(t) && PlainPayloads(ps) && DistinctKeys(ps) && cap > 0
    requires i < |Expand(RenderShape(t), ps, cap)|
    ensures Rounds(Used(t, ps), cap, n)
    ensures forall p :: p in ps ==>
      (Contains(Haystack(Expand(RenderShape(t), ps, cap)[i]), Placeholder(p.key))
       <==> p in Used(t, ps)[n..] || InNames(t, p.key))
  {
    hide Contains, Haystack, Placeholder, PlainTemplate, InText, InNames, Referenced, RenderShape, NoBraces, Expand,
      IsChoice;
    n := ExpansionIsProduct(t, ps, cap);
    var used := Used(t, ps);
    var gone := used[..n];
    UsedExactly(t, ps);
    PrefixIsPlain(used, n);
    var c := Choices(gone)[i];
    assert c in Choices(gone);
    var filled := FillShape(t, Picked(c, gone));
    PickedIsPlain(c, gone);
    ChoiceIsInside(c, gone);
    PickedExactly(c, gone);
    FillKeepsTemplate(t, Picked(c, gone));
    forall p | p in ps
      ensures Contains(Haystack(RenderShape(filled)), Placeholder(p.key)) <==> p in used[n..] || InNames(t, p.key)
    {
      ReferencedExactly(filled, p.key);
      FilledMentions(t, Picked(c, gone), p.key);
      UsedSplits(used, n, ps, p);
    }
  }

  /** No payload's placeholder occurs in a header name. */
  ghost predicate NamesAreFree(t: Shape, ps: seq<Payload>) {
    forall p :: p in ps ==> !InNames(t, p.key)
  }

  /** A request has no placeholder left exactly when no header name has one and the combinations reach the cap no
      earlier than with the last payload in use. Reaching it earlier is possible even when the whole product is no
      larger than the cap. */
  lemma NothingLeftExactly(t: Shape, ps: seq<Payload>, cap: nat, i: nat)
    requires PlainTemplate(t) && PlainPayloads(ps) && DistinctKeys(ps) && cap > 0
    requires i < |Expand(RenderShape(t), ps, cap)|
    ensures (forall p :: p in ps ==> !Contains(Haystack(Expand(RenderShape(t), ps, cap)[i]), Placeholder(p.key)))
            <==> NamesAreFree(t, ps) && forall k :: 0 < k < |Used(t, ps)| ==> Combinations(Used(t, ps)[..k]) < cap
  {
    hide Contains, Haystack, Placeholder, PlainTemplate, Mentions, Referenced, RenderShape, Expand, Combinations,
      InNames;
    var n := LeftoverExactly(t, ps, cap, i);
    var used := Used(t, ps);
    if n < |used| {
      UsedExactly(t, ps);
      assert used[n] in used && used[n..][0] == used[n];
    } else {
      assert used[n..] == [];
    }
  }

  /** A payload mentioned in header names only: every value gives the same request again. */
  lemma NameOnlyRepeats(t: Shape, ps: seq<Payload>, p: Payload, c: Choice, i: nat, j: nat)
    requires DistinctKeys(ps) && p in ps && !InText(t, p.key) && IsChoice(c, ps) && i < |p.values| && j < |p.values|
    ensures Chosen(t, ps, c[p.key := i]) == Chosen(t, ps, c[p.key := j])
  {
    hide FillShape, RenderShape, InText;
    var a, b := c[p.key := i], c[p.key := j];
    ChooseAgain(c, ps, p, i);
    ChooseAgain(c, ps, p, j);
    var m, o := Picked(a, ps), Picked(b, ps);
    SameBut(ps, p, c, i, j);
    assert m == m[p.key := p.values[i]] && o == o[p.key := p.values[j]] by {
      PickedValue(a, ps, p);
      PickedValue(b, ps, p);
    }
    FillIgnores(t, m, p.key, p.values[i]);
    FillIgnores(t, o, p.key, p.values[j]);
  }

  lemma ChooseAgain(c: Choice, ps: seq<Payload>, p: Payload, j: nat)
    requires DistinctKeys(ps) && p in ps && IsChoice(c, ps) && j < |p.values|
    ensures IsChoice(c[p.key := j], ps)
  {
    forall i | 0 <= i < |ps|
      ensures c[p.key := j][ps[i].key] < |ps[i].values|
    {
      var k :| 0 <= k < |ps| && ps[k] == p;
      assert ps[i].key == p.key ==> i == k;
    }
  }

  lemma SameBut(ps: seq<Payload>, p: Payload, c: Choice, i: nat, j: nat)
    requires DistinctKeys(ps) && p in ps && IsChoice(c, ps) && i < |p.values| && j < |p.values|
    ensures Picked(c[p.key := i], ps) - {p.key} == Picked(c[p.key := j], ps) - {p.key}
  {
    hide Picked, DistinctKeys;
    var a, b := c[p.key := i], c[p.key := j];
    ChooseAgain(c, ps, p, i);
    ChooseAgain(c, ps, p, j);
    PickedExactly(a, ps);
    PickedExactly(b, ps);
    forall k | k in Picked(a, ps) && k != p.key
      ensures Picked(a, ps)[k] == Picked(b, ps)[k]
    {
      var n :| 0 <= n < |ps| && ps[n].key == k;
      PickedValue(a, ps, ps[n]);
      PickedValue(b, ps, ps[n]);
    }
  }

  /** The failing side: with a cap of one, the two placeholders of `{{a}}{{b}}` and one value for each, the product is
      no larger than the cap, and still the second placeholder is left. */
  lemma CapCanLeavePlaceholders()
    ensures var t, a, b := Shape([Hole("a"), Hole("b")], [], None), Payload("a", ["x"]), Payload("b", ["y"]);
      && Combinations(Used(t, [a, b])) <= 1 && |Expand(RenderShape(t), [a, b], 1)| > 0
      && exists p :: p in [a, b] && Contains(Haystack(Expand(RenderShape(t), [a, b], 1)[0]), Placeholder(p.key))
  {
    hide Contains, Haystack, Placeholder, Expand, RenderShape, AllChosen, Choices, IsChoice, NoDuplicates;
    var t, a, b := Shape([Hole("a"), Hole("b")], [], None), Payload("a", ["x"]), Payload("b", ["y"]);
    assert "a"[0] != "b"[0];
    assert Hole("a") == t.url[0] && Hole("b") == t.url[1];
    UsedOfTwo(t, a, b);
    var n := ExpansionIsProduct(t, [a, b], 1);
    assert [a, b][..1] == [a] && [a][..0] == [];
    assert Combinations([a]) == 1;
    ChoicesCount([a, b][..n]);
    CombinationsOfTwo(a, b);
    assert [a, b][..2] == [a, b];
    NothingLeftExactly(t, [a, b], 1, 0);
  }

  lemma CombinationsOfTwo(a: Payload, b: Payload)
    ensures Combinations([a, b]) == |a.values| * |b.values| && Combinations([a]) == |a.values|
  {
    var one, two := [a], [a, b];
    assert one[..|one| - 1] == [] && two[..|two| - 1] == one;
    assert Combinations(one) == Combinations([]) * |a.values| == 1 * |a.values|;
    assert Combinations(two) == Combinations(one) * |b.values|;
  }

  lemma UsedOfTwo(t: Shape, a: Payload, b: Payload)
    requires PlainTemplate(t) && NoBraces(a.key) && NoBraces(b.key) && Mentions(t, a.key) && Mentions(t, b.key)
    ensures Used(t, [a, b]) == [a, b]
  {
    hide Contains, Haystack, Placeholder, RenderShape, PlainTemplate, Mentions;
    ReferencedExactly(t, a.key);
    ReferencedExactly(t, b.key);
    var v := RenderShape(t);
    assert [a, b][1..] == [b] && [b][1..] == [];
    assert Referenced(v, [b]) == [b] + Referenced(v, []) == [b];
    assert Referenced(v, [a, b]) == [a] + Referenced(v, [b]) == [a, b];
  }

  /** A payload in use is among the ones gone through exactly when its key is. */
  lemma UsedSplits(used: seq<Payload>, n: nat, ps: seq<Payload>, p: Payload)
    requires n <= |used| && DistinctKeys(used) && DistinctKeys(ps) && p in ps && forall q :: q in used ==> q in ps
    ensures p in used[n..] <==> p in used && !HasKey(used[..n], p.key)
  {
    if p in used {
      var i :| 0 <= i < |used| && used[i] == p;
      if i < n {
        assert used[..n][i].key == p.key;
      } else {
        assert used[n..][i - n] == p;
      }
    }
  }

  lemma ChoiceIsInside(c: Choice, ps: seq<Payload>)
    requires IsChoice(c, ps)
    ensures forall i :: 0 <= i < |ps| ==> ps[i].key in c && c[ps[i].key] < |ps[i].values|
  {
  }

  ghost predicate HasKey(ps: seq<Payload>, key: string) {
    exists i :: 0 <= i < |ps| && ps[i].key == key
  }

  lemma {:induction false} PickedExactly(c: Choice, ps: seq<Payload>)
    requires forall i :: 0 <= i < |ps| ==> ps[i].key in c && c[ps[i].key] < |ps[i].values|
    ensures forall k :: k in Picked(c, ps) <==> HasKey(ps, k)
    decreases |ps|
  {
    if ps != [] {
      var init, last := ps[..|ps| - 1], ps[|ps| - 1];
      PickedExactly(c, init);
      forall k
        ensures HasKey(ps, k) <==> HasKey(init, k) || last.key == k
      {
        assert last == ps[|ps| - 1];
        if HasKey(init, k) {
          var i :| 0 <= i < |init| && init[i].key == k;
          assert ps[i].key == k;
        }
        if HasKey(ps, k) {
          var i :| 0 <= i < |ps| && ps[i].key == k;
          assert i < |init| ==> init[i].key == k;
        }
      }
    }
  }

  lemma NothingChosen(t: Shape)
    ensures AllChosen(t, [], Choices([])) == [RenderShape(t)]
  {
    FillNothing(t);
    assert Choices([]) == [map[]] && Picked(map[], []) == map[];
  }

  lemma FillNothing(t: Shape)
    ensures FillShape(t, map[]) == t
  {
    assert Fill(t.url, map[]) == t.url;
    assert forall i :: 0 <= i < |t.headers| ==> Fill(t.headers[i].value, map[]) == t.headers[i].value;
    assert FillHeaders(t.headers, map[]) == t.headers;
    if t.body.Some? {
      assert Fill(t.body.value, map[]) == t.body.value;
    }
  }

  // ---------------------------------------------------------------------------------------------
  // Below the cap: the whole product, in whatever order the map yields the payloads.
  // ---------------------------------------------------------------------------------------------

  predicate NoEmptyList(ps: seq<Payload>) {
    forall i :: 0 <= i < |ps| ==> ps[i].values != []
  }

  lemma {:induction false} CombinationsGrow(ps: seq<Payload>, n: nat)
    requires NoEmptyList(ps) && n <= |ps|
    ensures 0 < Combinations(ps[..n]) <= Combinations(ps)
    decreases |ps|
  {
    if ps == [] || n == |ps| {
      CombinationsPositive(ps);
      assert ps[..|ps|] == ps;
    } else {
      var init := ps[..|ps| - 1];
      assert init[..n] == ps[..n];
      CombinationsGrow(init, n);
      GrowByFactor(Combinations(init), |ps[|ps| - 1].values|);
    }
  }

  lemma GrowByFactor(a: nat, b: nat)
    requires b > 0
    ensures a <= a * b
  {
  }

  lemma {:induction false} CombinationsPositive(ps: seq<Payload>)
    requires NoEmptyList(ps)
    ensures Combinations(ps) > 0
    decreases |ps|
  {
    if ps != [] {
      CombinationsPositive(ps[..|ps| - 1]);
    }
  }

  /** With no empty list and the product of the sizes below the cap, the result is the whole product, each combination
      once, and no placeholder of a payload is left in it but those in header names. */
  lemma WholeProduct(t: Shape, ps: seq<Payload>, cap: nat)
    requires PlainTemplate(t) && PlainPayloads(ps) && DistinctKeys(ps)
    requires NoEmptyList(Used(t, ps)) && Combinations(Used(t, ps)) < cap
    ensures var used, result := Used(t, ps), Expand(RenderShape(t), ps, cap);
      && result == AllChosen(t, used, Choices(used)) && |result| == Combinations(used)
      && NoDuplicates(Choices(used)) && (forall c :: c in Choices(used) <==> IsChoice(c, used))
      && forall i, p :: 0 <= i < |result| && p in ps ==>
        (Contains(Haystack(result[i]), Placeholder(p.key)) <==> InNames(t, p.key))
  {
    hide PlainTemplate, PlainPayloads, DistinctKeys, NoEmptyList, Used, Expand, AllChosen, Choices, Combinations,
      IsChoice, Contains, Haystack, NoDuplicates, InNames;
    var used, result := Used(t, ps), Expand(RenderShape(t), ps, cap);
    CombinationsGrow(used, |used|);
    forall n: nat | Rounds(used, cap, n)
      ensures n == |used|
    {
      CombinationsGrow(used, n);
    }
    var n := ExpansionIsProduct(t, ps, cap);
    assert used[..n] == used && used[n..] == [];
    ChoicesCount(used);
    forall i | 0 <= i < |result|
      ensures forall p :: p in ps ==> (Contains(Haystack(result[i]), Placeholder(p.key)) <==> InNames(t, p.key))
    {
      var m := LeftoverExactly(t, ps, cap, i);
      assert used[m..] == [];
    }
  }

  lemma {:induction false} ReferencedCount(v: Variant, ps: seq<Payload>, p: Payload)
    ensures multiset(Referenced(v, ps))[p]
            == if Contains(Haystack(v), Placeholder(p.key)) then multiset(ps)[p] else 0
    decreases |ps|
  {
    hide Contains, Haystack, Placeholder;
    if ps != [] {
      assert ps == [ps[0]] + ps[1..];
      ReferencedCount(v, ps[1..], p);
    }
  }

  lemma SamePayloads(t: Shape, ps: seq<Payload>, qs: seq<Payload>)
    requires multiset(ps) == multiset(qs)
    ensures multiset(Used(t, ps)) == multiset(Used(t, qs))
  {
    hide Referenced;
    forall p
      ensures multiset(Used(t, ps))[p] == multiset(Used(t, qs))[p]
    {
      ReferencedCount(RenderShape(t), ps, p);
      ReferencedCount(RenderShape(t), qs, p);
    }
  }

  lemma SameMembers(ps: seq<Payload>, qs: seq<Payload>)
    requires multiset(ps) == multiset(qs)
    ensures forall p :: p in ps <==> p in qs
  {
    assert forall p :: p in ps <==> p in multiset(ps);
    assert forall p :: p in qs <==> p in multiset(qs);
  }

  /** What a choice is does not depend on the order of the payloads. */
  lemma SameChoices(ps: seq<Payload>, qs: seq<Payload>, c: Choice)
    requires (forall p :: p in ps ==> p in qs) && (forall p :: p in qs ==> p in ps) && IsChoice(c, ps)
    ensures IsChoice(c, qs)
  {
    forall i | 0 <= i < |qs|
      ensures qs[i].key in c && c[qs[i].key] < |qs[i].values|
    {
      assert qs[i] in ps;
    }
    forall k
      ensures k in c <==> exists i :: 0 <= i < |qs| && qs[i].key == k
    {
      if k in c {
        var i :| 0 <= i < |ps| && ps[i].key == k;
        assert ps[i] in qs;
      }
    }
  }

  lemma {:induction false} PickedValue(c: Choice, ps: seq<Payload>, p: Payload)
    requires DistinctKeys(ps) && p in ps && IsChoice(c, ps)
    ensures p.key in c && c[p.key] < |p.values|
    ensures p.key in Picked(c, ps) && Picked(c, ps)[p.key] == p.values[c[p.key]]
  {
    ChoiceIsInside(c, ps);
    PickedValueFrom(c, ps, p);
  }

  lemma {:induction false} PickedValueFrom(c: Choice, ps: seq<Payload>, p: Payload)
    requires DistinctKeys(ps) && p in ps
    requires forall i :: 0 <= i < |ps| ==> ps[i].key in c && c[ps[i].key] < |ps[i].values|
    ensures p.key in Picked(c, ps) && Picked(c, ps)[p.key] == p.values[c[p.key]]
    decreases |ps|
  {
    var init, last := ps[..|ps| - 1], ps[|ps| - 1];
    assert ps == init + [last];
    if p != last {
      PickedValueFrom(c, init, p);
      LastIsFresh(ps);
    }
  }

  lemma {:induction false} SamePicked(ps: seq<Payload>, qs: seq<Payload>, c: Choice)
    requires DistinctKeys(ps) && DistinctKeys(qs) && IsChoice(c, ps) && IsChoice(c, qs)
    requires (forall p :: p in ps ==> p in qs) && (forall p :: p in qs ==> p in ps)
    ensures Picked(c, ps) == Picked(c, qs)
  {
    hide Picked, DistinctKeys, IsChoice;
    ChoiceIsInside(c, ps);
    ChoiceIsInside(c, qs);
    PickedExactly(c, ps);
    PickedExactly(c, qs);
    forall k
      ensures HasKey(ps, k) <==> HasKey(qs, k)
    {
      if HasKey(ps, k) {
        var i :| 0 <= i < |ps| && ps[i].key == k;
        assert ps[i] in qs;
      }
      if HasKey(qs, k) {
        var i :| 0 <= i < |qs| && qs[i].key == k;
        assert qs[i] in ps;
      }
    }
    forall k | k in Picked(c, ps)
      ensures Picked(c, ps)[k] == Picked(c, qs)[k]
    {
      assert HasKey(ps, k);
      var i :| 0 <= i < |ps| && ps[i].key == k;
      PickedValue(c, ps, ps[i]);
      PickedValue(c, qs, ps[i]);
    }
  }

  lemma TakeOneOut<T>(x: T, rest: seq<T>, before: seq<T>, after: seq<T>)
    requires multiset([x] + rest) == multiset(before + ([x] + after))
    ensures multiset(rest) == multiset(before + after)
  {
    forall y: T
      ensures multiset(rest)[y] == multiset(before + after)[y]
    {
      assert multiset([x] + rest)[y] == multiset([x])[y] + multiset(rest)[y];
      assert multiset(before + ([x] + after))[y] == multiset(before)[y] + (multiset([x])[y] + multiset(after)[y]);
    }
  }

  lemma PutOneIn<T>(x: T, rest: seq<T>, before: seq<T>, after: seq<T>)
    requires multiset(rest) == multiset(before + after)
    ensures multiset([x] + rest) == multiset(before + ([x] + after))
  {
  }

  lemma FirstIsInOther<T>(a: seq<T>, b: seq<T>) returns (j: nat)
    requires a != [] && multiset(a) == multiset(b)
    ensures j < |b| && b[j] == a[0] && multiset(a[1..]) == multiset(b[..j] + b[j + 1..])
  {
    assert a[0] in multiset(b);
    var k :| 0 <= k < |b| && b[k] == a[0];
    j := k;
    assert b == b[..j] + ([a[0]] + b[j + 1..]) && a == [a[0]] + a[1..];
    TakeOneOut(a[0], a[1..], b[..j], b[j + 1..]);
  }

  lemma ChosenWithOne(t: Shape, ps: seq<Payload>, b: seq<Choice>, j: nat)
    requires j < |b|
    ensures AllChosen(t, ps, b)
            == AllChosen(t, ps, b[..j]) + ([Chosen(t, ps, b[j])] + AllChosen(t, ps, b[j + 1..]))
  {
    hide Chosen;
  }

  /** The requests of a choice list depend on its contents only, up to order. */
  lemma {:induction false} AllChosenPermutes(t: Shape, ps: seq<Payload>, a: seq<Choice>, b: seq<Choice>)
    requires multiset(a) == multiset(b)
    ensures multiset(AllChosen(t, ps, a)) == multiset(AllChosen(t, ps, b))
    decreases |a|
  {
    hide Chosen, AllChosen;
    if a == [] {
      assert |multiset(b)| == 0;
    } else {
      var j := FirstIsInOther(a, b);
      AllChosenPermutes(t, ps, a[1..], b[..j] + b[j + 1..]);
      AllChosenSplits(t, ps, b[..j], b[j + 1..]);
      ChosenWithOne(t, ps, b, j);
      FirstChosen(t, ps, a);
      PutOneIn(Chosen(t, ps, a[0]), AllChosen(t, ps, a[1..]), AllChosen(t, ps, b[..j]), AllChosen(t, ps, b[j + 1..]));
    }
  }

  lemma FirstChosen(t: Shape, ps: seq<Payload>, a: seq<Choice>)
    requires a != []
    ensures AllChosen(t, ps, a) == [Chosen(t, ps, a[0])] + AllChosen(t, ps, a[1..])
  {
    hide Chosen;
  }

  lemma {:induction false} SameElements<T>(a: seq<T>, b: seq<T>)
    requires NoDuplicates(a) && NoDuplicates(b) && forall x :: x in a <==> x in b
    ensures multiset(a) == multiset(b)
  {
    forall x: T
      ensures multiset(a)[x] == multiset(b)[x]
    {
      CountAtMostOne(a, x);
      CountAtMostOne(b, x);
    }
  }

  lemma {:induction false} CountAtMostOne<T>(s: seq<T>, x: T)
    requires NoDuplicates(s)
    ensures multiset(s)[x] == if x in s then 1 else 0
    decreases |s|
  {
    if s != [] {
      var rest := s[1..];
      assert s == [s[0]] + rest;
      assert forall i :: 0 <= i < |rest| ==> rest[i] == s[i + 1];
      CountAtMostOne(rest, x);
    }
  }

  /** Below the cap the order in which the map yields the payloads does not matter: the same requests come out, each as
      often. */
  lemma OrderDoesNotMatter(t: Shape, ps: seq<Payload>, qs: seq<Payload>, cap: nat)
    requires PlainTemplate(t) && PlainPayloads(ps) && DistinctKeys(ps) && PlainPayloads(qs) && DistinctKeys(qs)
    requires multiset(ps) == multiset(qs) && NoEmptyList(Used(t, ps)) && Combinations(Used(t, ps)) < cap
    ensures multiset(Expand(RenderShape(t), ps, cap)) == multiset(Expand(RenderShape(t), qs, cap))
  {
    hide PlainTemplate, PlainPayloads, DistinctKeys, Used, Expand, AllChosen, Choices, Combinations, IsChoice,
      NoDuplicates;
    var up, uq := Used(t, ps), Used(t, qs);
    UsedExactly(t, ps);
    UsedExactly(t, qs);
    SamePayloads(t, ps, qs);
    SameMembers(up, uq);
    ChoicesAreAll(up);
    ChoicesAreAll(uq);
    forall c
      ensures c in Choices(up) <==> c in Choices(uq)
    {
      if IsChoice(c, up) {
        SameChoices(up, uq, c);
      }
      if IsChoice(c, uq) {
        SameChoices(uq, up, c);
      }
    }
    SameElements(Choices(up), Choices(uq));
    assert |multiset(Choices(up))| == |multiset(Choices(uq))|;
    ChoicesCount(up);
    ChoicesCount(uq);
    assert forall i :: 0 <= i < |uq| ==> uq[i] in up;
    WholeProduct(t, ps, cap);
    WholeProduct(t, qs, cap);
    SameRequests(t, up, uq);
    AllChosenPermutes(t, up, Choices(up), Choices(uq));
  }

  lemma SameRequests(t: Shape, ps: seq<Payload>, qs: seq<Payload>)
    requires DistinctKeys(ps) && DistinctKeys(qs)
    requires (forall p :: p in ps ==> p in qs) && (forall p :: p in qs ==> p in ps)
    requires forall c :: c in Choices(qs) ==> IsChoice(c, ps) && IsChoice(c, qs)
    ensures AllChosen(t, ps, Choices(qs)) == AllChosen(t, qs, Choices(qs))
  {
    hide Picked, DistinctKeys, IsChoice, Choices, FillShape, RenderShape;
    forall i | 0 <= i < |Choices(qs)|
      ensures Chosen(t, ps, Choices(qs)[i]) == Chosen(t, qs, Choices(qs)[i])
    {
      assert Choices(qs)[i] in Choices(qs);
      SamePicked(ps, qs, Choices(qs)[i]);
    }
  }

  // ---------------------------------------------------------------------------------------------
  // Values that hold placeholders themselves.
  // ---------------------------------------------------------------------------------------------

  function TwoHoles(x: Segment, y: Segment): Shape {
    Shape([x, y], [], None)
  }

  /** One value substituted, as a template again. */
  lemma FillTwo(x: Segment, y: Segment, key: string, value: string)
    requires Plain([x, y]) && NoBraces(key)
    ensures Substitute(RenderShape(TwoHoles(x, y)), key, value)
            == RenderShape(TwoHoles(FillSegment(x, map[key := value]), FillSegment(y, map[key := value])))
  {
    hide Replace, Render, Plain;
    var t := TwoHoles(x, y);
    SubstituteIsFill(t, key, value);
    assert Fill([x, y], map[key := value]) == [FillSegment(x, map[key := value]), FillSegment(y, map[key := value])];
  }

  lemma RenderTwo(x: Segment, y: Segment)
    ensures Render([x, y]) == SegmentText(x) + SegmentText(y)
  {
    assert [x, y][1..] == [y] && [y][1..] == [];
    assert Render([y]) == SegmentText(y) + [] == SegmentText(y);
  }

  /** With one value for each payload the rounds substitute one after the other. */
  lemma OneEach(v: Variant, a: string, x: string, b: string, y: string, cap: nat)
    requires cap > 1
    ensures ExpandFrom([v], [Payload(a, [x]), Payload(b, [y])], cap) == [Substitute(Substitute(v, a, x), b, y)]
  {
    hide Substitute;
    var p, q := Payload(a, [x]), Payload(b, [y]);
    var once := Substitute(v, a, x);
    OneRow(v, p, x);
    OneRow(once, q, y);
    assert [p, q][1..] == [q] && [q][1..] == [];
    assert ExpandFrom([v], [p, q], cap) == ExpandFrom([once], [q], cap);
    assert ExpandFrom([once], [q], cap) == ExpandFrom([Substitute(once, b, y)], [], cap);
  }

  lemma OneRow(v: Variant, p: Payload, x: string)
    requires p.values == [x]
    ensures Product([v], p) == [Substitute(v, p.key, x)]
  {
    hide Substitute;
    assert [v][1..] == [] && [x][1..] == [];
    assert Row(v, p.key, [x]) == [Substitute(v, p.key, x)] + Row(v, p.key, []);
    assert Product([v], p) == Row(v, p.key, [x]) + Product([], p);
  }

  /** A value that holds a placeholder is substituted again by a later round, but not by an earlier one: for
      `{{a}}{{b}}`, with `{{b}}` for `a` and `x` for `b`, the two orders of the payloads give different requests. */
  lemma ValuesCanCascade(cap: nat)
    requires cap > 1
    ensures var v := RenderShape(TwoHoles(Hole("a"), Hole("b")));
      var a, b := Payload("a", ["{{b}}"]), Payload("b", ["x"]);
      && v.url == "{{a}}{{b}}"
      && Expand(v, [a, b], cap) == [Variant("xx", [], None)]
      && Expand(v, [b, a], cap) == [Variant("{{b}}x", [], None)]
  {
    hide Substitute, Render, Placeholder, PlainTemplate, ExpandFrom, Contains, Haystack;
    var t, a, b := TwoHoles(Hole("a"), Hole("b")), Payload("a", ["{{b}}"]), Payload("b", ["x"]);
    var v := RenderShape(t);
    PlainLetters();
    assert t.url[0] == Hole("a") && t.url[1] == Hole("b");
    UsedOfTwo(t, a, b);
    UsedOfTwo(t, b, a);
    LetterTexts();
    OneEach(v, "a", "{{b}}", "b", "x", cap);
    FillTwo(Hole("a"), Hole("b"), "a", "{{b}}");
    RenderTwo(Literal("{{b}}"), Hole("b"));
    RenderTwo(Hole("b"), Hole("b"));
    FillTwo(Hole("b"), Hole("b"), "b", "x");
    RenderTwo(Literal("x"), Literal("x"));
    OneEach(v, "b", "x", "a", "{{b}}", cap);
    FillTwo(Hole("a"), Hole("b"), "b", "x");
    FillTwo(Hole("a"), Literal("x"), "a", "{{b}}");
    RenderTwo(Literal("{{b}}"), Literal("x"));
    RenderTwo(Hole("a"), Hole("b"));
  }

  lemma PlainLetters()
    ensures NoBraces("a") && NoBraces("b") && NoBraces("x") && "a" != "b"
    ensures Plain([Hole("a"), Hole("b")]) && Plain([Hole("b"), Hole("b")]) && Plain([Hole("a"), Literal("x")])
    ensures PlainTemplate(TwoHoles(Hole("a"), Hole("b")))
  {
    assert "a"[0] != "b"[0];
  }

  lemma LetterTexts()
    ensures SegmentText(Hole("a")) == "{{a}}" && SegmentText(Hole("b")) == "{{b}}"
    ensures "{{a}}" + "{{b}}" == "{{a}}{{b}}" && "x" + "x" == "xx" && "{{b}}" + "x" == "{{b}}x"
  {
  }
}
