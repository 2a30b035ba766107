/** Expansion of request templates: every combination of payload values, up to a cap. */
module Template {
  import opened Wrappers
  import opened Bytes

  datatype Variant = Variant(url: string, headers: seq<(string, string)>, body: Option<string>)

  datatype Payload = Payload(key: string, values: seq<string>)

  // ---------------------------------------------------------------------------------------------
  // Text substitution.
  // ---------------------------------------------------------------------------------------------

  function Placeholder(key: string): string {
    "{{" + key + "}}"
  }

  /** All occurrences of a non-empty `pattern`, left to right and not overlapping, replaced by `value`. */
  function Replace(s: string, pattern: string, value: string): string
    requires pattern != []
    decreases |s|
  {
    if s == [] then []
    else if pattern <= s then value + Replace(s[|pattern|..], pattern, value)
    else [s[0]] + Replace(s[1..], pattern, value)
  }

  function Contains(s: string, pattern: string): bool {
    Find(s, pattern).Some?
  }

  /** One value put in for one placeholder, in the URL, the body and the header values. */
  function Substitute(v: Variant, key: string, value: string): Variant {
    Variant(
      Replace(v.url, Placeholder(key), value),
      SubstituteHeaders(v.headers, key, value),
      if v.body.None? then None else Some(Replace(v.body.value, Placeholder(key), value)))
  }

  function SubstituteHeaders(hs: seq<(string, string)>, key: string, value: string): seq<(string, string)> {
    if hs == [] then []
    else [(hs[0].0, Replace(hs[0].1, Placeholder(key), value))] + SubstituteHeaders(hs[1..], key, value)
  }

  /** The text in which a placeholder must occur for its payload to matter. */
  function Haystack(v: Variant): string {
    v.url + (if v.body.None? then [] else " " + v.body.value) + HeaderText(v.headers)
  }

  function HeaderText(hs: seq<(string, string)>): string {
    if hs == [] then [] else " " + hs[0].0 + hs[0].1 + HeaderText(hs[1..])
  }

  function Referenced(v: Variant, payloads: seq<Payload>): seq<Payload> {
    if payloads == [] then []
    else
      (if Contains(Haystack(v), Placeholder(payloads[0].key)) then [payloads[0]] else [])
      + Referenced(v, payloads[1..])
  }

  // ---------------------------------------------------------------------------------------------
  // Expansion.
  // ---------------------------------------------------------------------------------------------

  function Take<T>(s: seq<T>, n: nat): seq<T> {
    if |s| <= n then s else s[..n]
  }

  /** One current variant with every value. */
  function Row(v: Variant, key: string, values: seq<string>): (r: seq<Variant>)
    ensures |r| == |values|
  {
    if values == [] then [] else [Substitute(v, key, values[0])] + Row(v, key, values[1..])
  }

  /** Every current variant with every value. */
  function Product(vs: seq<Variant>, p: Payload): seq<Variant> {
    if vs == [] then [] else Row(vs[0], p.key, p.values) + Product(vs[1..], p)
  }

  function ExpandFrom(results: seq<Variant>, payloads: seq<Payload>, cap: nat): seq<Variant>
    decreases |payloads|
  {
    if payloads == [] then results
    else
      var next := Take(Product(results, payloads[0]), cap);
      if |next| >= cap then next else ExpandFrom(next, payloads[1..], cap)
  }

  /** `payloads` in the order in which the map yields them. */
  function Expand(v: Variant, payloads: seq<Payload>, cap: nat): seq<Variant> {
    ExpandFrom([v], Referenced(v, payloads), cap)
  }

  method ExpandRequest(v: Variant, payloads: seq<Payload>, cap: nat) returns (results: seq<Variant>)
    ensures results == Expand(v, payloads, cap)
  {
    hide Product, Row, Substitute, Referenced;
    var referenced := Referenced(v, payloads);
    results := [v];
    var i := 0;
    while i < |referenced|
      invariant 0 <= i <= |referenced|
      invariant Expand(v, payloads, cap) == ExpandFrom(results, referenced[i..], cap)
    {
      assert referenced[i..][0] == referenced[i] && referenced[i..][1..] == referenced[i + 1..];
      var next := OneRound(results, referenced[i], cap);
      results := next;
      if |results| >= cap {
        return;
      }
      i := i + 1;
    }
  }

  /** One round: all combinations of the current variants with the values of `p`, stopping at the cap. */
  method OneRound(results: seq<Variant>, p: Payload, cap: nat) returns (next: seq<Variant>)
    ensures next == Take(Product(results, p), cap)
  {
    hide Product, Row, Substitute;
    next := [];
    var i := 0;
    label outer:
    while i < |results|
      invariant 0 <= i <= |results|
      invariant Product(results, p) == next + Product(results[i..], p)
      invariant next == [] || |next| < cap
    {
      ghost var row, rest := Row(results[i], p.key, p.values), Product(results[i + 1..], p);
      ProductUnfolds(results, i, p);
      var j := 0;
      while j < |p.values|
        invariant 0 <= j <= |p.values|
        invariant Product(results, p) == next + Row(results[i], p.key, p.values[j..]) + rest
        invariant next == [] || |next| < cap
      {
        RowUnfolds(results[i], p.key, p.values, j);
        ghost var more := Row(results[i], p.key, p.values[j + 1..]);
        ghost var was, one := next, [Substitute(results[i], p.key, p.values[j])];
        next := next + [Substitute(results[i], p.key, p.values[j])];
        assert was + (one + more) + rest == next + (more + rest);
        assert next + more + rest == next + (more + rest);
        if |next| >= cap {
          FullPrefix(next, more + rest, cap);
          next := next[..cap];
          return;
        }
        j := j + 1;
      }
      assert next + [] + rest == next + rest;
      i := i + 1;
    }
    EndRound(results, p);
    assert next + [] == next;
  }

  lemma EndRound(vs: seq<Variant>, p: Payload)
    ensures Product(vs[|vs|..], p) == []
  {
  }

  lemma RowUnfolds(v: Variant, key: string, values: seq<string>, j: nat)
    requires j < |values|
    ensures Row(v, key, values[j..]) == [Substitute(v, key, values[j])] + Row(v, key, values[j + 1..])
  {
    hide Substitute;
    assert values[j..][1..] == values[j + 1..];
  }

  lemma ProductUnfolds(vs: seq<Variant>, i: nat, p: Payload)
    requires i < |vs|
    ensures Product(vs[i..], p) == Row(vs[i], p.key, p.values) + Product(vs[i + 1..], p)
  {
    hide Row;
    assert vs[i..][1..] == vs[i + 1..];
  }

  lemma FullPrefix<T>(a: seq<T>, b: seq<T>, n: nat)
    requires |a| >= n
    ensures Take(a + b, n) == a[..n]
  {
  }

  lemma {:induction false} RoundsKeepCap(results: seq<Variant>, payloads: seq<Payload>, cap: nat)
    requires payloads != []
    ensures |ExpandFrom(results, payloads, cap)| <= cap
    decreases |payloads|
  {
    hide Product;
    if payloads[1..] != [] {
      RoundsKeepCap(Take(Product(results, payloads[0]), cap), payloads[1..], cap);
    }
  }

  /** At most `cap` requests come out, whatever the template and the payloads, unless no payload is referenced: then
      it is the request itself, alone, even for a cap of 0. */
  lemma CapHolds(v: Variant, payloads: seq<Payload>, cap: nat)
    ensures Referenced(v, payloads) != [] ==> |Expand(v, payloads, cap)| <= cap
    ensures Referenced(v, payloads) == [] ==> Expand(v, payloads, cap) == [v]
  {
    if Referenced(v, payloads) != [] {
      RoundsKeepCap([v], Referenced(v, payloads), cap);
    }
  }
}
