/** Reading and replacing one query parameter of a URL, on the bytes of its text. */
module UrlParams {
  import opened Wrappers
  import opened Bytes
  import opened Utf8
  import PercentCoding

  const AMP: Byte := 38
  const EQUALS: Byte := 61
  const HASH: Byte := 35
  const QUESTION: Byte := 63

  // ---------------------------------------------------------------------------------------------
  // Splitting and joining.
  // ---------------------------------------------------------------------------------------------

  /** What is before the first `c`, or all of `s`. */
  function Before(s: seq<Byte>, c: Byte): (r: seq<Byte>)
    ensures |r| <= |s|
  {
    if s == [] || s[0] == c then [] else [s[0]] + Before(s[1..], c)
  }

  /** What is after the first `c`, or nothing at all. */
  function After(s: seq<Byte>, c: Byte): Option<seq<Byte>> {
    if s == [] then None else if s[0] == c then Some(s[1..]) else After(s[1..], c)
  }

  function Split(s: seq<Byte>, c: Byte): (r: seq<seq<Byte>>)
    ensures r != []
    decreases |s|
  {
    var rest := After(s, c);
    if rest.None? then [s]
    else
      AfterIsShorter(s, c);
      [Before(s, c)] + Split(rest.value, c)
  }

  lemma {:induction false} AfterIsShorter(s: seq<Byte>, c: Byte)
    ensures After(s, c).Some? ==> |After(s, c).value| < |s| && s == Before(s, c) + [c] + After(s, c).value
    ensures After(s, c).None? ==> Before(s, c) == s
    ensures c !in Before(s, c) && (After(s, c).None? <==> c !in s)
  {
    if s != [] && s[0] != c {
      AfterIsShorter(s[1..], c);
      assert s == [s[0]] + s[1..];
    }
  }

  lemma {:induction false} SplitOnceAt(a: seq<Byte>, c: Byte, b: seq<Byte>)
    requires c !in a
    ensures Before(a + [c] + b, c) == a && After(a + [c] + b, c) == Some(b)
  {
    var s := a + [c] + b;
    if a == [] {
      assert s[1..] == b;
    } else {
      assert s[1..] == a[1..] + [c] + b;
      SplitOnceAt(a[1..], c, b);
    }
  }

  function Join(parts: seq<seq<Byte>>, c: Byte): seq<Byte> {
    if parts == [] then [] else if |parts| == 1 then parts[0] else parts[0] + [c] + Join(parts[1..], c)
  }

  lemma {:induction false} SplitOfJoin(parts: seq<seq<Byte>>, c: Byte)
    requires parts != [] && forall i :: 0 <= i < |parts| ==> c !in parts[i]
    ensures Split(Join(parts, c), c) == parts
    decreases |parts|
  {
    if |parts| == 1 {
      AfterIsShorter(parts[0], c);
    } else {
      SplitOnceAt(parts[0], c, Join(parts[1..], c));
      SplitOfJoin(parts[1..], c);
      assert parts == [parts[0]] + parts[1..];
    }
  }

  lemma {:induction false} JoinAvoids(parts: seq<seq<Byte>>, c: Byte, x: Byte)
    requires x != c && forall i :: 0 <= i < |parts| ==> x !in parts[i]
    ensures x !in Join(parts, c)
    decreases |parts|
  {
    if |parts| > 1 {
      JoinAvoids(parts[1..], c, x);
    }
  }

  lemma {:induction false} SplitAvoids(s: seq<Byte>, c: Byte)
    ensures forall i :: 0 <= i < |Split(s, c)| ==> c !in Split(s, c)[i]
    ensures forall i, x :: 0 <= i < |Split(s, c)| && x in Split(s, c)[i] ==> x in s
    decreases |s|
  {
    AfterIsShorter(s, c);
    if After(s, c).Some? {
      SplitAvoids(After(s, c).value, c);
    }
  }

  // ---------------------------------------------------------------------------------------------
  // The two operations.
  // ---------------------------------------------------------------------------------------------

  /** The name of a `name=value` pair; a pair without `=` is all name. */
  function NameOf(pair: seq<Byte>): seq<Byte> {
    Before(pair, EQUALS)
  }

  /** The outcome of reading a parameter; percent-decoding its value can panic. */
  datatype Reading = Absent | Found(value: seq<Byte>) | Panics

  function ValueOf(pair: seq<Byte>): Reading {
    var v := After(pair, EQUALS);
    if v.None? then Found([])
    else
      var d := PercentCoding.Decode(v.value);
      if d.None? then Panics else Found(d.value)
  }

  /** The first pair named `name`. */
  function Lookup(pairs: seq<seq<Byte>>, name: seq<Byte>): Reading {
    if pairs == [] then Absent else if NameOf(pairs[0]) == name then ValueOf(pairs[0]) else Lookup(pairs[1..], name)
  }

  function CurrentValue(url: seq<Byte>, name: seq<Byte>): Reading {
    var q := After(url, QUESTION);
    if q.None? then Absent else Lookup(Split(Before(q.value, HASH), AMP), name)
  }

  /** The non-empty pairs, those named `name` replaced by `item`. */
  function Replaced(pairs: seq<seq<Byte>>, name: seq<Byte>, item: seq<Byte>): seq<seq<Byte>> {
    if pairs == [] then [] else ReplacedPair(pairs[0], name, item) + Replaced(pairs[1..], name, item)
  }

  function ReplacedPair(pair: seq<Byte>, name: seq<Byte>, item: seq<Byte>): seq<seq<Byte>> {
    if pair == [] then [] else if NameOf(pair) == name then [item] else [pair]
  }

  predicate Has(pairs: seq<seq<Byte>>, name: seq<Byte>) {
    exists i :: 0 <= i < |pairs| && pairs[i] != [] && NameOf(pairs[i]) == name
  }

  function Rewrite(pairs: seq<seq<Byte>>, name: seq<Byte>, item: seq<Byte>): seq<seq<Byte>> {
    Replaced(pairs, name, item) + if Has(pairs, name) then [] else [item]
  }

  function Item(name: seq<Byte>, value: seq<Byte>): seq<Byte> {
    name + [EQUALS] + PercentCoding.Encode(value)
  }

  /** A URL: the part before the query, the query and the fragment, as the rewriting takes them. */
  datatype Parts = Parts(path: seq<Byte>, query: seq<Byte>, fragment: Option<seq<Byte>>)

  function Cut(url: seq<Byte>): Parts {
    var base := Before(url, HASH);
    var query := After(base, QUESTION);
    Parts(Before(base, QUESTION), if query.None? then [] else query.value, After(url, HASH))
  }

  function Assemble(p: Parts): seq<Byte> {
    p.path + [QUESTION] + p.query + if p.fragment.None? then [] else [HASH] + p.fragment.value
  }

  function SetParam(url: seq<Byte>, name: seq<Byte>, value: seq<Byte>): seq<Byte> {
    var p := Cut(url);
    Assemble(p.(query := Join(Rewrite(Split(p.query, AMP), name, Item(name, value)), AMP)))
  }

  method Set(url: seq<Byte>, name: seq<Byte>, value: seq<Byte>) returns (out: seq<Byte>)
    ensures out == SetParam(url, name, value)
  {
    hide Join, Split, PercentCoding.Encode, Before, After, Replaced, Has;
    var base, fragment := Before(url, HASH), After(url, HASH);
    var path := Before(base, QUESTION);
    var query := if After(base, QUESTION).None? then [] else After(base, QUESTION).value;
    var enc := PercentCoding.PctEncode(value);
    var pairs := Split(query, AMP);
    var parts: seq<seq<Byte>> := [];
    var replaced := false;
    var i := 0;
    NothingReplaced(pairs, name, Item(name, value));
    while i < |pairs|
      invariant 0 <= i <= |pairs|
      invariant Replaced(pairs, name, Item(name, value)) == parts + Replaced(pairs[i..], name, Item(name, value))
      invariant replaced == Has(pairs[..i], name)
    {
      var pair := pairs[i];
      ReplacedOneMore(parts, pairs, i, name, Item(name, value));
      HasOneMore(pairs, i, name);
      if pair != [] {
        if NameOf(pair) == name {
          parts := parts + [name + [EQUALS] + enc];
          replaced := true;
        } else {
          parts := parts + [pair];
        }
      }
      i := i + 1;
    }
    assert pairs[..i] == pairs && pairs[i..] == [] && parts + [] == parts;
    assert Replaced(pairs, name, Item(name, value)) == parts;
    ghost var kept := parts;
    if !replaced {
      parts := parts + [name + [EQUALS] + enc];
    }
    out := path + [QUESTION] + Join(parts, AMP);
    if fragment.Some? {
      out := out + [HASH];
      out := out + fragment.value;
    }
    assert kept + [] == kept;
    assert parts == Rewrite(pairs, name, Item(name, value));
  }

  lemma NothingReplaced(pairs: seq<seq<Byte>>, name: seq<Byte>, item: seq<Byte>)
    ensures pairs[0..] == pairs && pairs[..0] == [] && !Has([], name)
    ensures [] + Replaced(pairs, name, item) == Replaced(pairs, name, item) && Replaced([], name, item) == []
  {
  }

  lemma ReplacedOneMore(parts: seq<seq<Byte>>, pairs: seq<seq<Byte>>, i: nat, name: seq<Byte>, item: seq<Byte>)
    requires i < |pairs|
    ensures parts + Replaced(pairs[i..], name, item)
            == parts + ReplacedPair(pairs[i], name, item) + Replaced(pairs[i + 1..], name, item)
  {
    hide ReplacedPair;
    assert pairs[i..][0] == pairs[i] && pairs[i..][1..] == pairs[i + 1..];
  }

  lemma HasOneMore(pairs: seq<seq<Byte>>, i: nat, name: seq<Byte>)
    requires i < |pairs|
    ensures Has(pairs[..i + 1], name) <==> Has(pairs[..i], name) || (pairs[i] != [] && NameOf(pairs[i]) == name)
  {
    hide Before;
    var a, b := pairs[..i], pairs[..i + 1];
    assert b == a + [pairs[i]];
    if Has(a, name) {
      var j :| 0 <= j < |a| && a[j] != [] && NameOf(a[j]) == name;
      assert b[j] == a[j];
    }
    if pairs[i] != [] && NameOf(pairs[i]) == name {
      assert b[i] == pairs[i];
    }
  }

  method Current(url: seq<Byte>, name: seq<Byte>) returns (r: Reading)
    ensures r == CurrentValue(url, name)
  {
    hide Split, Before, After;
    var q := After(url, QUESTION);
    if q.None? { return Absent; }
    var pairs := Split(Before(q.value, HASH), AMP);
    var i := 0;
    while i < |pairs|
      invariant 0 <= i <= |pairs| && Lookup(pairs, name) == Lookup(pairs[i..], name)
    {
      assert pairs[i..][0] == pairs[i] && pairs[i..][1..] == pairs[i + 1..];
      if NameOf(pairs[i]) == name {
        return ValueOf(pairs[i]);
      }
      i := i + 1;
    }
    r := Absent;
  }

  // ---------------------------------------------------------------------------------------------
  // What a rewritten URL is made of.
  // ---------------------------------------------------------------------------------------------

  /** A name without `&`, `=` and `#`, which end a pair, a name and a query. */
  predicate PlainName(name: seq<Byte>) {
    38 !in name && 61 !in name && 35 !in name
  }

  lemma ItemIsPlain(name: seq<Byte>, value: seq<Byte>)
    requires PlainName(name)
    ensures var item := Item(name, value);
      AMP !in item && HASH !in item && item != [] && NameOf(item) == name && ValueOf(item) == Found(Lossy(value))
  {
    hide PercentCoding.Decode;
    PercentCoding.EncodingIsPlain(value);
    PercentCoding.DecodeInvertsEncode(value);
    SplitOnceAt(name, EQUALS, PercentCoding.Encode(value));
    assert AMP !in PercentCoding.Encode(value) && HASH !in PercentCoding.Encode(value);
  }

  lemma CutIsClean(url: seq<Byte>)
    ensures var p := Cut(url); HASH !in p.path && QUESTION !in p.path && HASH !in p.query
  {
    hide Before, After;
    AfterIsShorter(url, HASH);
    AfterIsShorter(Before(url, HASH), QUESTION);
  }

  lemma {:induction false} ReplacedAvoids(pairs: seq<seq<Byte>>, name: seq<Byte>, item: seq<Byte>, c: Byte)
    requires c !in item && forall i :: 0 <= i < |pairs| ==> c !in pairs[i]
    ensures forall i :: 0 <= i < |Replaced(pairs, name, item)| ==> c !in Replaced(pairs, name, item)[i]
    decreases |pairs|
  {
    hide Before;
    if pairs != [] {
      assert forall i :: 0 <= i < |pairs[1..]| ==> pairs[1..][i] == pairs[i + 1];
      ReplacedAvoids(pairs[1..], name, item, c);
    }
  }

  lemma {:induction false} ReplacedHas(pairs: seq<seq<Byte>>, name: seq<Byte>, item: seq<Byte>)
    requires Has(pairs, name)
    ensures Replaced(pairs, name, item) != []
    decreases |pairs|
  {
    hide Before;
    var i :| 0 <= i < |pairs| && pairs[i] != [] && NameOf(pairs[i]) == name;
    if i > 0 {
      assert pairs[1..][i - 1] == pairs[i];
      ReplacedHas(pairs[1..], name, item);
    }
  }

  /** Cutting an assembled URL gives its parts back. */
  lemma CutOfAssemble(p: Parts)
    requires HASH !in p.path && QUESTION !in p.path && HASH !in p.query
    ensures Cut(Assemble(p)) == p
    ensures After(Assemble(p), QUESTION).Some? && Before(After(Assemble(p), QUESTION).value, HASH) == p.query
  {
    var base := p.path + [QUESTION] + p.query;
    SplitOnceAt(p.path, QUESTION, p.query);
    hide Before, After;
    if p.fragment.None? {
      assert Assemble(p) == base;
      AfterIsShorter(base, HASH);
      AfterIsShorter(p.query, HASH);
    } else {
      var rest := p.query + [HASH] + p.fragment.value;
      assert Assemble(p) == base + [HASH] + p.fragment.value == p.path + [QUESTION] + rest;
      SplitOnceAt(base, HASH, p.fragment.value);
      SplitOnceAt(p.path, QUESTION, rest);
      SplitOnceAt(p.query, HASH, p.fragment.value);
    }
  }

  /** The pairs of a rewritten URL are the rewritten pairs; its path and fragment are untouched. */
  lemma RewrittenPairs(url: seq<Byte>, name: seq<Byte>, value: seq<Byte>)
    requires PlainName(name)
    ensures var p, p' := Cut(url), Cut(SetParam(url, name, value));
      && p'.path == p.path && p'.fragment == p.fragment
      && Split(p'.query, AMP) == Rewrite(Split(p.query, AMP), name, Item(name, value))
    ensures var url' := SetParam(url, name, value);
      After(url', QUESTION).Some? && Before(After(url', QUESTION).value, HASH) == Cut(url').query
  {
    hide Before, After, Split, Join, Replaced;
    var p, item := Cut(url), Item(name, value);
    var pairs := Split(p.query, AMP);
    var parts := Rewrite(pairs, name, item);
    ItemIsPlain(name, value);
    CutIsClean(url);
    SplitAvoids(p.query, AMP);
    ReplacedAvoids(pairs, name, item, AMP);
    assert forall i :: 0 <= i < |pairs| ==> HASH !in pairs[i];
    ReplacedAvoids(pairs, name, item, HASH);
    if Has(pairs, name) {
      ReplacedHas(pairs, name, item);
    }
    SplitOfJoin(parts, AMP);
    JoinAvoids(parts, AMP, HASH);
    CutOfAssemble(p.(query := Join(parts, AMP)));
  }

  // ---------------------------------------------------------------------------------------------
  // The laws, on pairs.
  // ---------------------------------------------------------------------------------------------

  lemma {:induction false} LookupReplaced(pairs: seq<seq<Byte>>, name: seq<Byte>, item: seq<Byte>, more: seq<seq<Byte>>)
    requires item != [] && NameOf(item) == name
    ensures Lookup(Replaced(pairs, name, item) + more, name)
            == if Has(pairs, name) then ValueOf(item) else Lookup(more, name)
    decreases |pairs|
  {
    hide Before, ValueOf, NameOf;
    var out := Replaced(pairs, name, item) + more;
    if pairs == [] {
      assert out == more;
    } else {
      var tail := Replaced(pairs[1..], name, item) + more;
      LookupReplaced(pairs[1..], name, item, more);
      HasSplits(pairs, name);
      if pairs[0] == [] {
        assert out == tail;
      } else {
        assert out[1..] == tail;
      }
    }
  }

  lemma HasSplits(pairs: seq<seq<Byte>>, name: seq<Byte>)
    requires pairs != []
    ensures Has(pairs, name) <==> (pairs[0] != [] && NameOf(pairs[0]) == name) || Has(pairs[1..], name)
  {
    hide NameOf;
  }

  lemma {:induction false} ReplacedSplits(a: seq<seq<Byte>>, b: seq<seq<Byte>>, name: seq<Byte>, item: seq<Byte>)
    ensures Replaced(a + b, name, item) == Replaced(a, name, item) + Replaced(b, name, item)
    decreases |a|
  {
    hide ReplacedPair;
    if a == [] {
      assert a + b == b;
    } else {
      assert (a + b)[0] == a[0] && (a + b)[1..] == a[1..] + b;
      ReplacedSplits(a[1..], b, name, item);
    }
  }

  lemma ReplacedPairTwice(pair: seq<Byte>, name: seq<Byte>, item: seq<Byte>, item': seq<Byte>)
    requires item != [] && NameOf(item) == name
    ensures Replaced(ReplacedPair(pair, name, item), name, item') == ReplacedPair(pair, name, item')
  {
    hide Before;
    var once := ReplacedPair(pair, name, item);
    if once != [] {
      assert once[1..] == [] && Replaced(once[1..], name, item') == [];
    }
  }

  lemma {:induction false} ReplacedTwice(pairs: seq<seq<Byte>>, name: seq<Byte>, item: seq<Byte>, item': seq<Byte>)
    requires item != [] && NameOf(item) == name
    ensures Replaced(Replaced(pairs, name, item), name, item') == Replaced(pairs, name, item')
    decreases |pairs|
  {
    hide ReplacedPair, Before;
    if pairs != [] {
      ReplacedTwice(pairs[1..], name, item, item');
      ReplacedPairTwice(pairs[0], name, item, item');
      ReplacedSplits(ReplacedPair(pairs[0], name, item), Replaced(pairs[1..], name, item), name, item');
    }
  }

  // ---------------------------------------------------------------------------------------------
  // Main results.
  // ---------------------------------------------------------------------------------------------

  /** What was set is read back, through percent-coding, for every text; of bytes that are no text the ill-formed parts
      come back replaced. */
  lemma ReadBack(url: seq<Byte>, name: seq<Byte>, value: seq<Byte>)
    requires PlainName(name)
    ensures CurrentValue(SetParam(url, name, value), name) == Found(Lossy(value))
    ensures CurrentValue(SetParam(url, name, value), name) == Found(value) <==> ValidUtf8(value)
  {
    hide Before, After, Split, Replaced, Lookup, SetParam, Lossy, ValidUtf8;
    var pairs, item := Split(Cut(url).query, AMP), Item(name, value);
    RewrittenPairs(url, name, value);
    ItemIsPlain(name, value);
    LossyKeepsExactly(value);
    LookupReplaced(pairs, name, item, if Has(pairs, name) then [] else [item]);
    LookupFirst(item, name);
  }

  lemma LookupFirst(item: seq<Byte>, name: seq<Byte>)
    requires NameOf(item) == name
    ensures Lookup([item], name) == ValueOf(item)
  {
  }

  /** A name that is not plain is never found, whatever the URL. */
  lemma UnplainIsNeverFound(url: seq<Byte>, name: seq<Byte>)
    requires !PlainName(name)
    ensures CurrentValue(url, name) == Absent
  {
    hide Before, After, Split;
    var q := After(url, QUESTION);
    if q.Some? {
      var query := Before(q.value, HASH);
      AfterIsShorter(q.value, HASH);
      SplitAvoids(query, AMP);
      var pairs := Split(query, AMP);
      forall i | 0 <= i < |pairs|
        ensures NameOf(pairs[i]) != name
      {
        NameIsPlain(pairs[i]);
      }
      NotFound(pairs, name);
    }
  }

  lemma NameIsPlain(pair: seq<Byte>)
    requires AMP !in pair && HASH !in pair
    ensures PlainName(NameOf(pair))
  {
    AfterIsShorter(pair, EQUALS);
    BeforeIsPrefix(pair, EQUALS);
  }

  lemma {:induction false} BeforeIsPrefix(s: seq<Byte>, c: Byte)
    ensures forall x :: x in Before(s, c) ==> x in s
  {
    if s != [] && s[0] != c {
      BeforeIsPrefix(s[1..], c);
    }
  }

  lemma {:induction false} NotFound(pairs: seq<seq<Byte>>, name: seq<Byte>)
    requires forall i :: 0 <= i < |pairs| ==> NameOf(pairs[i]) != name
    ensures Lookup(pairs, name) == Absent
    decreases |pairs|
  {
    hide Before;
    if pairs != [] {
      assert forall i :: 0 <= i < |pairs[1..]| ==> pairs[1..][i] == pairs[i + 1];
      NotFound(pairs[1..], name);
    }
  }

  /** Reading back what was set works for all URLs and texts exactly when the name is free of `&`, `=` and `#`. */
  lemma ReadBackExactly(name: seq<Byte>)
    ensures PlainName(name) <==>
              forall url, value :: ValidUtf8(value) ==> CurrentValue(SetParam(url, name, value), name) == Found(value)
  {
    hide CurrentValue, SetParam, PlainName;
    if PlainName(name) {
      forall url, value | ValidUtf8(value)
        ensures CurrentValue(SetParam(url, name, value), name) == Found(value)
      {
        ReadBack(url, name, value);
      }
    } else {
      UnplainIsNeverFound(SetParam([], name, []), name);
      assert ValidUtf8([]) && CurrentValue(SetParam([], name, []), name) != Found([]);
    }
  }

  /** Setting twice is setting once. */
  lemma LastSetWins(url: seq<Byte>, name: seq<Byte>, first: seq<Byte>, second: seq<Byte>)
    requires PlainName(name)
    ensures SetParam(SetParam(url, name, first), name, second) == SetParam(url, name, second)
  {
    hide Before, After, Split, Join, Replaced;
    var pairs, item, item' := Split(Cut(url).query, AMP), Item(name, first), Item(name, second);
    RewrittenPairs(url, name, first);
    ItemIsPlain(name, first);
    var more := if Has(pairs, name) then [] else [item];
    ReplacedTwice(pairs, name, item, item');
    ReplacedSplits(Replaced(pairs, name, item), more, name, item');
    RewrittenHas(pairs, name, item);
    ReplacedOne(name, item, item');
    assert Rewrite(Rewrite(pairs, name, item), name, item') == Rewrite(pairs, name, item');
  }

  lemma ReplacedOne(name: seq<Byte>, item: seq<Byte>, item': seq<Byte>)
    requires item != [] && NameOf(item) == name
    ensures Replaced([item], name, item') == [item'] && Replaced([], name, item') == []
  {
  }

  lemma RewrittenHas(pairs: seq<seq<Byte>>, name: seq<Byte>, item: seq<Byte>)
    requires item != [] && NameOf(item) == name
    ensures Has(Rewrite(pairs, name, item), name)
  {
    hide Before;
    var out := Rewrite(pairs, name, item);
    if Has(pairs, name) {
      ItemIsPut(pairs, name, item);
      assert out == Replaced(pairs, name, item) + [] == Replaced(pairs, name, item);
      var i :| 0 <= i < |out| && out[i] == item;
      assert out[i] != [] && NameOf(out[i]) == name;
    } else {
      assert out[|out| - 1] == item;
    }
  }

  lemma {:induction false} ItemIsPut(pairs: seq<seq<Byte>>, name: seq<Byte>, item: seq<Byte>)
    requires Has(pairs, name)
    ensures item in Replaced(pairs, name, item)
    decreases |pairs|
  {
    hide Before;
    if pairs[0] == [] || NameOf(pairs[0]) != name {
      ItemIsPut(pairs[1..], name, item);
    }
  }

  /** The query read is the one rewritten: the URL has a query of its own, or no question mark at all. */
  predicate QueryIsReal(url: seq<Byte>) {
    QUESTION in Before(url, HASH) || QUESTION !in url
  }

  lemma RealQueryIsRead(url: seq<Byte>)
    requires QUESTION in Before(url, HASH)
    ensures After(url, QUESTION).Some? && Before(After(url, QUESTION).value, HASH) == Cut(url).query
  {
    hide Before, After;
    var base := Before(url, HASH);
    AfterIsShorter(url, HASH);
    AfterIsShorter(base, QUESTION);
    var path, query := Before(base, QUESTION), After(base, QUESTION).value;
    if After(url, HASH).None? {
      AfterIsShorter(query, HASH);
    } else {
      var fragment := After(url, HASH).value;
      assert url == path + [QUESTION] + (query + [HASH] + fragment);
      SplitOnceAt(path, QUESTION, query + [HASH] + fragment);
      assert path + [QUESTION] + (query + [HASH] + fragment) == path + [QUESTION] + query + [HASH] + fragment;
      SplitOnceAt(query, HASH, fragment);
    }
  }

  /** The pairs of the query that is rewritten, without the empty ones. */
  function Kept(url: seq<Byte>): seq<seq<Byte>> {
    NonEmpty(Split(Cut(url).query, AMP))
  }

  function NonEmpty(pairs: seq<seq<Byte>>): seq<seq<Byte>> {
    if pairs == [] then [] else (if pairs[0] == [] then [] else [pairs[0]]) + NonEmpty(pairs[1..])
  }

  /** What is read of the text put in for `name`: a delimiter in the name ends the name, the pair or the query early. */
  function Added(name: seq<Byte>, value: seq<Byte>): seq<seq<Byte>> {
    Split(Before(Item(name, value), HASH), AMP)
  }

  function OrElse(first: Reading, second: Reading): Reading {
    if first == Absent then second else first
  }

  lemma {:induction false} LookupSplits(a: seq<seq<Byte>>, b: seq<seq<Byte>>, name: seq<Byte>)
    ensures Lookup(a + b, name) == OrElse(Lookup(a, name), Lookup(b, name))
    decreases |a|
  {
    hide Before, ValueOf;
    if a == [] {
      assert a + b == b;
    } else {
      ValueIsSomething(a[0]);
      assert (a + b)[0] == a[0] && (a + b)[1..] == a[1..] + b;
      LookupSplits(a[1..], b, name);
    }
  }

  lemma ValueIsSomething(pair: seq<Byte>)
    ensures ValueOf(pair) != Absent
  {
  }

  /** A plain name put in leaves the others as they are. */
  lemma {:induction false} OthersKept(pairs: seq<seq<Byte>>, name: seq<Byte>, item: seq<Byte>, other: seq<Byte>)
    requires NameOf(item) == name && other != name
    ensures Lookup(Replaced(pairs, name, item), other) == Lookup(NonEmpty(pairs), other)
    decreases |pairs|
  {
    hide Before, ValueOf;
    if pairs != [] {
      OthersKept(pairs[1..], name, item, other);
      var first, rest := ReplacedPair(pairs[0], name, item), Replaced(pairs[1..], name, item);
      assert first == [] ==> first + rest == rest;
      assert first != [] ==> (first + rest)[1..] == rest;
      var kept := if pairs[0] == [] then [] else [pairs[0]];
      assert kept == [] ==> kept + NonEmpty(pairs[1..]) == NonEmpty(pairs[1..]);
      assert kept != [] ==> (kept + NonEmpty(pairs[1..]))[1..] == NonEmpty(pairs[1..]);
    }
  }

  /** A name that is not plain replaces nothing. */
  lemma {:induction false} UnplainReplacesNothing(pairs: seq<seq<Byte>>, name: seq<Byte>, item: seq<Byte>)
    requires !PlainName(name) && forall i :: 0 <= i < |pairs| ==> AMP !in pairs[i] && HASH !in pairs[i]
    ensures Replaced(pairs, name, item) == NonEmpty(pairs) && !Has(pairs, name)
    decreases |pairs|
  {
    hide Before;
    forall i | 0 <= i < |pairs|
      ensures NameOf(pairs[i]) != name
    {
      NameIsPlain(pairs[i]);
    }
    if pairs != [] {
      assert forall i :: 0 <= i < |pairs[1..]| ==> pairs[1..][i] == pairs[i + 1];
      UnplainReplacesNothing(pairs[1..], name, item);
    }
  }

  lemma {:induction false} NonEmptyAvoids(pairs: seq<seq<Byte>>, c: Byte)
    requires forall i :: 0 <= i < |pairs| ==> c !in pairs[i]
    ensures forall i :: 0 <= i < |NonEmpty(pairs)| ==> c !in NonEmpty(pairs)[i]
    decreases |pairs|
  {
    if pairs != [] {
      assert forall i :: 0 <= i < |pairs[1..]| ==> pairs[1..][i] == pairs[i + 1];
      NonEmptyAvoids(pairs[1..], c);
    }
  }

  /** The clean pairs of a text that ends in any text. */
  lemma {:induction false} SplitOfJoinThen(parts: seq<seq<Byte>>, last: seq<Byte>, c: Byte)
    requires forall i :: 0 <= i < |parts| ==> c !in parts[i]
    ensures Split(Join(parts + [last], c), c) == parts + Split(last, c)
    decreases |parts|
  {
    var all := parts + [last];
    if parts == [] {
      assert all == [last] && parts + Split(last, c) == Split(last, c);
    } else {
      assert all[1..] == parts[1..] + [last];
      assert forall i :: 0 <= i < |parts[1..]| ==> parts[1..][i] == parts[i + 1];
      SplitOnceAt(parts[0], c, Join(all[1..], c));
      SplitOfJoinThen(parts[1..], last, c);
      assert parts == [parts[0]] + parts[1..];
    }
  }

  /** Cutting a joined text at a character that only its last part has. */
  lemma {:induction false} BeforeOfJoin(parts: seq<seq<Byte>>, last: seq<Byte>, c: Byte, x: Byte)
    requires x != c && forall i :: 0 <= i < |parts| ==> x !in parts[i]
    ensures Before(Join(parts + [last], c), x) == Join(parts + [Before(last, x)], c)
    decreases |parts|
  {
    var all, cut := parts + [last], parts + [Before(last, x)];
    if parts == [] {
      assert all == [last] && cut == [Before(last, x)];
    } else {
      assert all[1..] == parts[1..] + [last] && cut[1..] == parts[1..] + [Before(last, x)];
      assert forall i :: 0 <= i < |parts[1..]| ==> parts[1..][i] == parts[i + 1];
      BeforeOfJoin(parts[1..], last, c, x);
      assert x !in parts[0] + [c];
      BeforeAfterClean(parts[0] + [c], Join(all[1..], c), x);
    }
  }

  lemma {:induction false} BeforeAfterClean(s: seq<Byte>, t: seq<Byte>, x: Byte)
    requires x !in s
    ensures Before(s + t, x) == s + Before(t, x)
    decreases |s|
  {
    if s == [] {
      assert s + t == t;
    } else {
      assert (s + t)[1..] == s[1..] + t;
      BeforeAfterClean(s[1..], t, x);
    }
  }

  /** The query read after setting a name that is not plain. */
  lemma UnplainPairs(url: seq<Byte>, name: seq<Byte>, value: seq<Byte>)
    requires !PlainName(name)
    ensures var q := After(SetParam(url, name, value), QUESTION);
      q.Some? && Split(Before(q.value, HASH), AMP) == Kept(url) + Added(name, value)
  {
    hide Before, After, Split, Join, Replaced, NonEmpty, PlainName;
    var p, item := Cut(url), Item(name, value);
    var pairs := Split(p.query, AMP);
    CutIsClean(url);
    SplitAvoids(p.query, AMP);
    UnplainReplacesNothing(pairs, name, item);
    NonEmptyAvoids(pairs, AMP);
    NonEmptyAvoids(pairs, HASH);
    var query := Join(Kept(url) + [item], AMP);
    var tail := if p.fragment.None? then [] else [HASH] + p.fragment.value;
    assert SetParam(url, name, value) == p.path + [QUESTION] + (query + tail);
    SplitOnceAt(p.path, QUESTION, query + tail);
    BeforeOfJoin(Kept(url), item, AMP, HASH);
    QueryEnds(query, tail);
    SplitOfJoinThen(Kept(url), Before(item, HASH), AMP);
  }

  /** A fragment behind a query does not change where the query ends. */
  lemma {:induction false} QueryEnds(query: seq<Byte>, tail: seq<Byte>)
    requires tail == [] || tail[0] == HASH
    ensures Before(query + tail, HASH) == Before(query, HASH)
    decreases |query|
  {
    if query == [] {
      assert query + tail == tail;
    } else {
      assert (query + tail)[1..] == query[1..] + tail;
      QueryEnds(query[1..], tail);
    }
  }

  lemma PlainIsAddedWhole(name: seq<Byte>, value: seq<Byte>)
    requires PlainName(name)
    ensures Added(name, value) == [Item(name, value)]
  {
    ItemIsPlain(name, value);
    AfterIsShorter(Item(name, value), HASH);
    AfterIsShorter(Item(name, value), AMP);
  }

  lemma OnlyOne(item: seq<Byte>, other: seq<Byte>)
    requires NameOf(item) != other
    ensures Lookup([item], other) == Absent
  {
  }

  /** What another parameter reads after setting one, for any names and any URL: the first non-empty pair of its name in
      the query the URL had, or else what the added text holds. */
  lemma OtherReading(url: seq<Byte>, name: seq<Byte>, value: seq<Byte>, other: seq<Byte>)
    requires other != name
    ensures CurrentValue(SetParam(url, name, value), other)
            == OrElse(Lookup(Kept(url), other), Lookup(Added(name, value), other))
  {
    hide Before, After, Split, Replaced, Lookup, SetParam, NonEmpty, Added;
    var pairs, item := Split(Cut(url).query, AMP), Item(name, value);
    if PlainName(name) {
      RewrittenPairs(url, name, value);
      ItemIsPlain(name, value);
      PlainIsAddedWhole(name, value);
      OnlyOne(item, other);
      OthersKept(pairs, name, item, other);
      LookupSplits(Replaced(pairs, name, item), if Has(pairs, name) then [] else [item], other);
      NoPairs(other);
    } else {
      UnplainPairs(url, name, value);
      LookupSplits(Kept(url), Added(name, value), other);
    }
  }

  lemma NoPairs(other: seq<Byte>)
    ensures Lookup([], other) == Absent
  {
  }

  lemma {:induction false} EmptyPairsDoNotMatter(pairs: seq<seq<Byte>>, other: seq<Byte>)
    requires other != []
    ensures Lookup(NonEmpty(pairs), other) == Lookup(pairs, other)
    decreases |pairs|
  {
    hide ValueOf;
    if pairs != [] {
      EmptyPairsDoNotMatter(pairs[1..], other);
      var kept := if pairs[0] == [] then [] else [pairs[0]];
      assert kept == [] ==> kept + NonEmpty(pairs[1..]) == NonEmpty(pairs[1..]);
      assert kept != [] ==> (kept + NonEmpty(pairs[1..]))[1..] == NonEmpty(pairs[1..]);
    }
  }

  lemma NoQueryNoPairs(url: seq<Byte>, other: seq<Byte>)
    requires QUESTION !in Before(url, HASH)
    ensures Kept(url) == [] && Lookup(Kept(url), other) == Absent
  {
    AfterIsShorter(Before(url, HASH), QUESTION);
    assert Cut(url).query == [];
    assert Split([], AMP) == [[]];
    assert NonEmpty([[]]) == NonEmpty([[]][1..]) == [];
  }

  /** Another parameter, of any non-empty name, reads as before exactly when it was found in a query of the URL's own,
      or reads the same in the text added. For a plain name the added text holds nothing of another name, so then:
      exactly when the query is real or the other parameter was not there to be read (out of the fragment) in the
      first place. */
  lemma OthersUnchangedExactly(url: seq<Byte>, name: seq<Byte>, value: seq<Byte>, other: seq<Byte>)
    requires other != name && other != []
    ensures CurrentValue(SetParam(url, name, value), other) == CurrentValue(url, other)
            <==> || (QueryIsReal(url) && CurrentValue(url, other) != Absent)
                 || CurrentValue(url, other) == Lookup(Added(name, value), other)
    ensures PlainName(name) ==> Lookup(Added(name, value), other) == Absent
  {
    hide Before, After, Split, Lookup, SetParam, NonEmpty, Added;
    OtherReading(url, name, value, other);
    if PlainName(name) {
      PlainIsAddedWhole(name, value);
      ItemIsPlain(name, value);
      OnlyOne(Item(name, value), other);
    }
    if QUESTION in Before(url, HASH) {
      RealQueryIsRead(url);
      EmptyPairsDoNotMatter(Split(Cut(url).query, AMP), other);
    } else {
      NoQueryNoPairs(url, other);
      AfterIsShorter(url, QUESTION);
    }
  }

  lemma FragmentReading()
    ensures CurrentValue([120, HASH, QUESTION, 97, EQUALS, 49], [97]) == Found([49])
  {
    hide Before, After, Split;
    var item := [97] + [EQUALS] + [49];
    assert [120, HASH, QUESTION, 97, EQUALS, 49] == [120, HASH] + [QUESTION] + item;
    SplitOnceAt([120, HASH], QUESTION, item);
    AfterIsShorter(item, HASH);
    SplitOfJoin([item], AMP);
    SplitOnceAt([97], EQUALS, [49]);
    assert PercentCoding.DecodeBytes([49]) == Some([49] + []);
    LossyKeepsExactly([49]);
    assert [49][1..] == [];
  }

  /** The failing side: `a` is read out of the fragment of `x#?a=1`, and no more once `b` is set. */
  lemma FragmentIsRead(value: seq<Byte>)
    ensures var url, a, b := [120, HASH, QUESTION, 97, EQUALS, 49], [97], [98];
      CurrentValue(url, a) == Found([49]) && CurrentValue(SetParam(url, b, value), a) == Absent
  {
    hide SetParam, CurrentValue, Before, After, Lookup, Added, Kept;
    var url, a, b := [120, HASH, QUESTION, 97, EQUALS, 49], [97], [98];
    FragmentReading();
    SplitOnceAt([120], HASH, [QUESTION, 97, EQUALS, 49]);
    assert url == [120] + [HASH] + [QUESTION, 97, EQUALS, 49];
    NoQueryNoPairs(url, a);
    OtherReading(url, b, value, a);
    OthersUnchangedExactly(url, b, value, a);
  }

  /** The empty name is an exception of its own: `?&a` has an empty pair, which reads as an empty value of the empty
      name, and setting anything drops it. */
  lemma EmptyPairIsDropped(value: seq<Byte>)
    ensures var url, a := [QUESTION, AMP, 97], [97];
      QueryIsReal(url) && CurrentValue(url, []) == Found([]) && CurrentValue(SetParam(url, a, value), []) == Absent
  {
    var url, a := [QUESTION, AMP, 97], [97];
    hide SetParam;
    AfterIsShorter(url, HASH);
    SplitOnceAt([], QUESTION, [AMP, 97]);
    assert url == [] + [QUESTION] + [AMP, 97];
    SplitOnceAt([], AMP, [97]);
    assert [AMP, 97] == [] + [AMP] + [97];
    AfterIsShorter([AMP, 97], HASH);
    AfterIsShorter([97], AMP);
    AfterIsShorter([97], EQUALS);
    assert Split([97], AMP) == [[97]];
    assert Split([AMP, 97], AMP) == [[]] + [[97]];
    OtherReading(url, a, value, []);
    PlainIsAddedWhole(a, value);
    ItemIsPlain(a, value);
    OnlyOne(Item(a, value), []);
    assert NonEmpty([[97]]) == [[97]] + [];
    assert NonEmpty([[], [97]]) == [] + NonEmpty([[97]]);
    assert Kept(url) == [[97]];
    OnlyOne([97], []);
  }

  // ---------------------------------------------------------------------------------------------
  // Reading a URL that is written out.
  // ---------------------------------------------------------------------------------------------

  /** A parameter as it stands in a URL: its name, and its value as it is encoded. */
  datatype Param = Param(name: seq<Byte>, value: seq<Byte>)

  function ParamTexts(ps: seq<Param>): (r: seq<seq<Byte>>)
    ensures |r| == |ps| && forall i :: 0 <= i < |ps| ==> r[i] == ps[i].name + [61] + ps[i].value
  {
    if ps == [] then [] else [ps[0].name + [61] + ps[0].value] + ParamTexts(ps[1..])
  }

  /** `path?name=value&..#fragment`. */
  function UrlText(path: seq<Byte>, ps: seq<Param>, fragment: Option<seq<Byte>>): seq<Byte> {
    path + [63] + Join(ParamTexts(ps), 38) + if fragment.None? then [] else [35] + fragment.value
  }

  predicate IsParam(p: Param) {
    PlainName(p.name) && 38 !in p.value && 35 !in p.value
  }

  /** Any name reads as the decoded value of its first parameter, whatever path and fragment; without one it is
      absent. */
  lemma CurrentReadsParams(path: seq<Byte>, ps: seq<Param>, fragment: Option<seq<Byte>>, name: seq<Byte>, k: nat)
    requires 63 !in path && ps != [] && forall i :: 0 <= i < |ps| ==> IsParam(ps[i])
    requires k <= |ps| && forall i :: 0 <= i < k ==> ps[i].name != name
    requires k < |ps| ==> ps[k].name == name
    ensures CurrentValue(UrlText(path, ps, fragment), name)
            == if k == |ps| then Absent
               else if PercentCoding.Decode(ps[k].value).None? then Panics
               else Found(PercentCoding.Decode(ps[k].value).value)
  {
    hide Before, After, Split, Join, Lookup, PercentCoding.Decode, ParamTexts;
    var texts := ParamTexts(ps);
    var query, tail := Join(texts, 38), if fragment.None? then [] else [35] + fragment.value;
    forall i | 0 <= i < |texts|
      ensures AMP !in texts[i] && HASH !in texts[i]
    {
      assert IsParam(ps[i]);
    }
    assert UrlText(path, ps, fragment) == path + [QUESTION] + (query + tail);
    SplitOnceAt(path, QUESTION, query + tail);
    JoinAvoids(texts, AMP, HASH);
    QueryEndsAt(query, fragment);
    SplitOfJoin(texts, AMP);
    LookupParams(ps, name, k);
  }

  lemma QueryEndsAt(query: seq<Byte>, fragment: Option<seq<Byte>>)
    requires HASH !in query
    ensures Before(query + if fragment.None? then [] else [35] + fragment.value, HASH) == query
  {
    if fragment.None? {
      assert query + [] == query;
      AfterIsShorter(query, HASH);
    } else {
      SplitOnceAt(query, HASH, fragment.value);
      assert query + ([35] + fragment.value) == query + [HASH] + fragment.value;
    }
  }

  lemma {:induction false} LookupParams(ps: seq<Param>, name: seq<Byte>, k: nat)
    requires forall i :: 0 <= i < |ps| ==> IsParam(ps[i])
    requires k <= |ps| && forall i :: 0 <= i < k ==> ps[i].name != name
    requires k < |ps| ==> ps[k].name == name
    ensures Lookup(ParamTexts(ps), name)
            == if k == |ps| then Absent
               else if PercentCoding.Decode(ps[k].value).None? then Panics
               else Found(PercentCoding.Decode(ps[k].value).value)
    decreases |ps|
  {
    hide Before, After, PercentCoding.Decode;
    if ps != [] {
      assert IsParam(ps[0]);
      SplitOnceAt(ps[0].name, EQUALS, ps[0].value);
      assert ParamTexts(ps)[1..] == ParamTexts(ps[1..]);
      if k > 0 {
        assert forall i :: 0 <= i < |ps[1..]| ==> ps[1..][i] == ps[i + 1];
        LookupParams(ps[1..], name, k - 1);
      }
    }
  }

  /** The parameters, those of this name with the new value, and one more at the end if there was none. */
  function SetParams(ps: seq<Param>, name: seq<Byte>, value: seq<Byte>): (r: seq<Param>)
    ensures |r| == |ps| + if exists i :: 0 <= i < |ps| && ps[i].name == name then 0 else 1
    ensures forall i :: 0 <= i < |ps| ==> r[i] == if ps[i].name == name then Param(name, value) else ps[i]
    ensures forall i :: |ps| <= i < |r| ==> r[i] == Param(name, value)
  {
    Revalued(ps, name, value) + if exists i :: 0 <= i < |ps| && ps[i].name == name then [] else [Param(name, value)]
  }

  function Revalued(ps: seq<Param>, name: seq<Byte>, value: seq<Byte>): (r: seq<Param>)
    ensures |r| == |ps|
    ensures forall i :: 0 <= i < |ps| ==> r[i] == if ps[i].name == name then Param(name, value) else ps[i]
  {
    if ps == [] then [] else [if ps[0].name == name then Param(name, value) else ps[0]] + Revalued(ps[1..], name, value)
  }

  /** Setting a parameter rewrites every one of its name where it stands, or adds one at the end, and leaves path, other
      parameters and fragment as they are. */
  lemma SetWritesParams(
      path: seq<Byte>, ps: seq<Param>, fragment: Option<seq<Byte>>, name: seq<Byte>, value: seq<Byte>)
    requires 63 !in path && 35 !in path && ps != [] && forall i :: 0 <= i < |ps| ==> IsParam(ps[i])
    requires PlainName(name)
    ensures SetParam(UrlText(path, ps, fragment), name, value)
            == UrlText(path, SetParams(ps, name, PercentCoding.Encode(value)), fragment)
  {
    hide Before, After, Split, Join, ParamTexts, Replaced, SetParams, Has;
    var texts := ParamTexts(ps);
    forall i | 0 <= i < |texts|
      ensures AMP !in texts[i] && HASH !in texts[i]
    {
      assert IsParam(ps[i]);
    }
    JoinAvoids(texts, AMP, HASH);
    SplitOfJoin(texts, AMP);
    assert UrlText(path, ps, fragment) == Assemble(Parts(path, Join(texts, AMP), fragment));
    CutOfAssemble(Parts(path, Join(texts, AMP), fragment));
    RewriteParams(ps, name, value);
    var texts' := ParamTexts(SetParams(ps, name, PercentCoding.Encode(value)));
    assert UrlText(path, SetParams(ps, name, PercentCoding.Encode(value)), fragment)
        == Assemble(Parts(path, Join(texts', AMP), fragment));
  }

  lemma RewriteParams(ps: seq<Param>, name: seq<Byte>, value: seq<Byte>)
    requires forall i :: 0 <= i < |ps| ==> IsParam(ps[i])
    ensures Rewrite(ParamTexts(ps), name, Item(name, value))
            == ParamTexts(SetParams(ps, name, PercentCoding.Encode(value)))
  {
    hide Before, After, PercentCoding.Encode, ParamTexts, Replaced, Has, Revalued, Item;
    var v := PercentCoding.Encode(value);
    ReplacedParams(ps, name, value);
    HasParam(ps, name);
    OneParam(name, value);
    ParamTextsJoin(Revalued(ps, name, v), [Param(name, v)]);
    var r, t := Revalued(ps, name, v), ParamTexts(Revalued(ps, name, v));
    assert r + [] == r && t + [] == t;
  }

  lemma OneParam(name: seq<Byte>, value: seq<Byte>)
    ensures ParamTexts([Param(name, PercentCoding.Encode(value))]) == [Item(name, value)]
  {
  }

  lemma ParamTextsJoin(a: seq<Param>, b: seq<Param>)
    ensures ParamTexts(a + b) == ParamTexts(a) + ParamTexts(b)
  {
  }

  lemma HasParam(ps: seq<Param>, name: seq<Byte>)
    requires forall i :: 0 <= i < |ps| ==> IsParam(ps[i])
    ensures Has(ParamTexts(ps), name) <==> exists i :: 0 <= i < |ps| && ps[i].name == name
  {
    hide NameOf;
    ParamNames(ps);
    if exists i :: 0 <= i < |ps| && ps[i].name == name {
      var i :| 0 <= i < |ps| && ps[i].name == name;
      assert NameOf(ParamTexts(ps)[i]) == name;
    }
  }

  lemma ParamNames(ps: seq<Param>)
    requires forall i :: 0 <= i < |ps| ==> IsParam(ps[i])
    ensures forall i :: 0 <= i < |ps| ==> ParamTexts(ps)[i] != [] && NameOf(ParamTexts(ps)[i]) == ps[i].name
  {
    hide Before;
    forall i | 0 <= i < |ps|
      ensures ParamTexts(ps)[i] != [] && NameOf(ParamTexts(ps)[i]) == ps[i].name
    {
      assert IsParam(ps[i]);
      SplitOnceAt(ps[i].name, EQUALS, ps[i].value);
    }
  }

  lemma {:induction false} ReplacedParams(ps: seq<Param>, name: seq<Byte>, value: seq<Byte>)
    requires forall i :: 0 <= i < |ps| ==> IsParam(ps[i])
    ensures Replaced(ParamTexts(ps), name, Item(name, value))
            == ParamTexts(Revalued(ps, name, PercentCoding.Encode(value)))
    decreases |ps|
  {
    hide Before, PercentCoding.Encode, NameOf;
    if ps != [] {
      ParamNames(ps);
      assert ParamTexts(ps)[1..] == ParamTexts(ps[1..]);
      assert forall i :: 0 <= i < |ps[1..]| ==> ps[1..][i] == ps[i + 1];
      ReplacedParams(ps[1..], name, value);
    }
  }
}
