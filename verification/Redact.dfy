/** Redaction of captured URLs: no user info, no fragment, parameter names without their values. */
module Redact {
  import opened Wrappers
  import opened Bytes
  import opened UrlParams

  const SLASH: Byte := 47
  const AT: Byte := 64
  const COLON: Byte := 58
  const AUTHORITY_MARK: seq<Byte> := [COLON, SLASH, SLASH]

  /** What is after the last `c`, or all of `s`. */
  function AfterLast(s: seq<Byte>, c: Byte): (r: seq<Byte>)
    ensures c !in r && |r| <= |s|
    decreases |s|
  {
    var rest := After(s, c);
    if rest.None? then
      AfterIsShorter(s, c);
      s
    else
      AfterIsShorter(s, c);
      AfterLast(rest.value, c)
  }

  function StripUserinfo(base: seq<Byte>): seq<Byte> {
    var i := Find(base, AUTHORITY_MARK);
    if i.None? then base
    else
      var head, rest := base[..i.value + 3], base[i.value + 3..];
      var authority := Before(rest, SLASH);
      head + AfterLast(authority, AT) + rest[|authority|..]
  }

  /** A pair without its value. */
  function Blank(pair: seq<Byte>): seq<Byte> {
    if After(pair, EQUALS).None? then pair else Before(pair, EQUALS) + [EQUALS]
  }

  function BlankAll(pairs: seq<seq<Byte>>): seq<seq<Byte>> {
    if pairs == [] then [] else (if pairs[0] == [] then [] else [Blank(pairs[0])]) + BlankAll(pairs[1..])
  }

  function Url(raw: seq<Byte>): seq<Byte> {
    var noFragment := Before(raw, HASH);
    var base, query := StripUserinfo(Before(noFragment, QUESTION)), After(noFragment, QUESTION);
    if query.None? then base
    else
      var blanked := BlankAll(Split(query.value, AMP));
      if blanked == [] then base else base + [QUESTION] + Join(blanked, AMP)
  }

  // ---------------------------------------------------------------------------------------------
  // Idempotence.
  // ---------------------------------------------------------------------------------------------

  lemma BlankTwice(pair: seq<Byte>)
    ensures Blank(Blank(pair)) == Blank(pair) && (pair != [] ==> Blank(pair) != [])
    ensures forall x :: x in Blank(pair) ==> x in pair
  {
    AfterIsShorter(pair, EQUALS);
    if After(pair, EQUALS).Some? {
      SplitOnceAt(Before(pair, EQUALS), EQUALS, []);
      assert Before(pair, EQUALS) + [EQUALS] + [] == Blank(pair);
      BeforeIsPrefix(pair, EQUALS);
    }
  }

  lemma {:induction false} BlankAllTwice(pairs: seq<seq<Byte>>)
    ensures BlankAll(BlankAll(pairs)) == BlankAll(pairs)
    ensures forall i :: 0 <= i < |BlankAll(pairs)| ==> BlankAll(pairs)[i] != []
    decreases |pairs|
  {
    hide Blank;
    if pairs != [] {
      BlankAllTwice(pairs[1..]);
      BlankTwice(pairs[0]);
      if pairs[0] == [] {
        assert BlankAll(pairs) == BlankAll(pairs[1..]);
      } else {
        assert BlankAll(pairs)[1..] == BlankAll(pairs[1..]);
      }
    }
  }

  lemma {:induction false} BlankAllAvoids(pairs: seq<seq<Byte>>, c: Byte)
    requires forall i :: 0 <= i < |pairs| ==> c !in pairs[i]
    ensures forall i :: 0 <= i < |BlankAll(pairs)| ==> c !in BlankAll(pairs)[i]
    decreases |pairs|
  {
    hide Blank;
    if pairs != [] {
      BlankTwice(pairs[0]);
      assert forall i :: 0 <= i < |pairs[1..]| ==> pairs[1..][i] == pairs[i + 1];
      BlankAllAvoids(pairs[1..], c);
    }
  }

  lemma {:induction false} AfterLastAvoids(s: seq<Byte>, c: Byte)
    ensures forall x :: x in AfterLast(s, c) ==> x in s
    decreases |s|
  {
    AfterIsShorter(s, c);
    if After(s, c).Some? {
      AfterLastAvoids(After(s, c).value, c);
    }
  }

  lemma AfterLastOfNone(s: seq<Byte>, c: Byte)
    requires c !in s
    ensures AfterLast(s, c) == s
  {
    AfterIsShorter(s, c);
  }

  lemma BeforeWithout(a: seq<Byte>, c: Byte, b: seq<Byte>)
    requires c !in a && (b != [] ==> b[0] == c)
    ensures Before(a + b, c) == a
  {
    if b == [] {
      assert a + b == a;
      AfterIsShorter(a, c);
    } else {
      assert a + b == a + [c] + b[1..];
      SplitOnceAt(a, c, b[1..]);
    }
  }

  /** What follows the part before the first `c`. */
  lemma RestAfterBefore(s: seq<Byte>, c: Byte)
    ensures var a := Before(s, c); s == a + s[|a|..] && c !in a && (s[|a|..] != [] ==> s[|a|..][0] == c)
  {
    AfterIsShorter(s, c);
    if After(s, c).Some? {
      assert s[|Before(s, c)|..] == [c] + After(s, c).value;
    }
  }

  /** The first authority mark is found where the scheme ends. */
  lemma MarkIsFirst(scheme: seq<Byte>, rest: seq<Byte>, rest': seq<Byte>)
    requires Find(scheme + AUTHORITY_MARK + rest, AUTHORITY_MARK) == Some(|scheme|)
    ensures Find(scheme + AUTHORITY_MARK + rest', AUTHORITY_MARK) == Some(|scheme|)
  {
    var s, s' := scheme + AUTHORITY_MARK + rest, scheme + AUTHORITY_MARK + rest';
    assert OccursAt(s', AUTHORITY_MARK, |scheme|);
    forall i | 0 <= i < |scheme|
      ensures !OccursAt(s', AUTHORITY_MARK, i)
    {
      if OccursAt(s', AUTHORITY_MARK, i) {
        assert s'[i..i + 3] == s[i..i + 3];
        assert OccursAt(s, AUTHORITY_MARK, i);
      }
    }
  }

  /** A base with an authority: what is stripped, piece by piece. */
  lemma {:induction false} StripPieces(scheme: seq<Byte>, authority: seq<Byte>, path: seq<Byte>)
    requires Find(scheme + AUTHORITY_MARK + (authority + path), AUTHORITY_MARK) == Some(|scheme|)
    requires SLASH !in authority && (path != [] ==> path[0] == SLASH)
    ensures StripUserinfo(scheme + AUTHORITY_MARK + (authority + path))
            == scheme + AUTHORITY_MARK + (AfterLast(authority, AT) + path)
  {
    hide AfterLast, Find, Before;
    var base, rest := scheme + AUTHORITY_MARK + (authority + path), authority + path;
    assert base[..|scheme| + 3] == scheme + AUTHORITY_MARK && base[|scheme| + 3..] == rest;
    BeforeWithout(authority, SLASH, path);
    assert rest[|authority|..] == path;
  }

  lemma StripTwice(base: seq<Byte>)
    ensures StripUserinfo(StripUserinfo(base)) == StripUserinfo(base)
    ensures forall x :: x in StripUserinfo(base) ==> x in base
  {
    var i := Find(base, AUTHORITY_MARK);
    if i.Some? {
      hide AfterLast, Find, Before;
      var scheme, rest := base[..i.value], base[i.value + 3..];
      var authority := Before(rest, SLASH);
      RestAfterBefore(rest, SLASH);
      var path := rest[|authority|..];
      assert base == scheme + AUTHORITY_MARK + rest && rest == authority + path;
      StripPieces(scheme, authority, path);
      var host := AfterLast(authority, AT);
      AfterLastAvoids(authority, AT);
      MarkIsFirst(scheme, rest, host + path);
      assert SLASH !in host;
      StripPieces(scheme, host, path);
      AfterLastOfNone(host, AT);
    }
  }

  /** Redacting twice is redacting once, for any text at all. */
  lemma Idempotent(raw: seq<Byte>)
    ensures Url(Url(raw)) == Url(raw)
  {
    hide StripUserinfo, BlankAll, Split, Join, Before, After;
    var noFragment := Before(raw, HASH);
    var plain, query := Before(noFragment, QUESTION), After(noFragment, QUESTION);
    var base := StripUserinfo(plain);
    AfterIsShorter(raw, HASH);
    AfterIsShorter(noFragment, QUESTION);
    StripTwice(plain);
    assert HASH !in plain && QUESTION !in plain;
    assert HASH !in base && QUESTION !in base;
    var blanked := if query.None? then [] else BlankAll(Split(query.value, AMP));
    if blanked == [] {
      RedactedBase(base);
    } else {
      assert HASH !in query.value;
      SplitAvoids(query.value, AMP);
      BlankAllTwice(Split(query.value, AMP));
      BlankAllAvoids(Split(query.value, AMP), AMP);
      assert forall i :: 0 <= i < |Split(query.value, AMP)| ==> HASH !in Split(query.value, AMP)[i];
      BlankAllAvoids(Split(query.value, AMP), HASH);
      RedactedQuery(base, blanked);
    }
  }

  lemma RedactedBase(base: seq<Byte>)
    requires HASH !in base && QUESTION !in base && StripUserinfo(base) == base
    ensures Url(base) == base
  {
    AfterIsShorter(base, HASH);
    AfterIsShorter(base, QUESTION);
  }

  lemma {:induction false} RedactedQuery(base: seq<Byte>, blanked: seq<seq<Byte>>)
    requires HASH !in base && QUESTION !in base && StripUserinfo(base) == base
    requires blanked != [] && BlankAll(blanked) == blanked
    requires forall i :: 0 <= i < |blanked| ==> AMP !in blanked[i] && HASH !in blanked[i]
    ensures Url(base + [QUESTION] + Join(blanked, AMP)) == base + [QUESTION] + Join(blanked, AMP)
  {
    hide StripUserinfo, BlankAll, Split, Join, Before, After;
    var url := base + [QUESTION] + Join(blanked, AMP);
    JoinAvoids(blanked, AMP, HASH);
    AfterIsShorter(url, HASH);
    assert HASH !in url;
    SplitOnceAt(base, QUESTION, Join(blanked, AMP));
    SplitOfJoin(blanked, AMP);
  }

  // ---------------------------------------------------------------------------------------------
  // Non-interference.
  // ---------------------------------------------------------------------------------------------

  datatype Pair = Pair(key: seq<Byte>, value: Option<seq<Byte>>)

  /** A URL in its pieces. The user info, the values and the fragment are what must not matter. */
  datatype Pieces = Pieces(
    scheme: seq<Byte>, userinfo: Option<seq<Byte>>, host: seq<Byte>, path: seq<Byte>, pairs: seq<Pair>,
    fragment: Option<seq<Byte>>)

  function PairText(p: Pair): seq<Byte> {
    p.key + if p.value.None? then [] else [61] + p.value.value
  }

  function PairTexts(ps: seq<Pair>): (r: seq<seq<Byte>>)
    ensures |r| == |ps|
    ensures forall i :: 0 <= i < |ps| ==> r[i] == PairText(ps[i])
  {
    if ps == [] then [] else [PairText(ps[0])] + PairTexts(ps[1..])
  }

  function Authority(u: Pieces): seq<Byte> {
    (if u.userinfo.None? then [] else u.userinfo.value + [64]) + u.host
  }

  function Base(u: Pieces): seq<Byte> {
    u.scheme + [58, 47, 47] + (Authority(u) + u.path)
  }

  function Text(u: Pieces): seq<Byte> {
    Base(u)
    + (if u.pairs == [] then [] else [63] + Join(PairTexts(u.pairs), 38))
    + (if u.fragment.None? then [] else [35] + u.fragment.value)
  }

  ghost predicate WellFormed(u: Pieces) {
    && 47 !in u.scheme && 58 !in u.scheme && 35 !in u.scheme && 63 !in u.scheme
    && (u.userinfo.Some? ==> 47 !in u.userinfo.value && 35 !in u.userinfo.value && 63 !in u.userinfo.value)
    && 47 !in u.host && 64 !in u.host && 35 !in u.host && 63 !in u.host
    && (u.path != [] ==> u.path[0] == 47) && 35 !in u.path && 63 !in u.path
    && forall i :: 0 <= i < |u.pairs| ==> PlainPair(u.pairs[i])
  }

  /** Keys end at `=`; keys and values both at `&` and `#`. */
  predicate PlainPair(p: Pair) {
    && 38 !in p.key && 35 !in p.key && 61 !in p.key
    && (p.value.Some? ==> 38 !in p.value.value && 35 !in p.value.value)
  }

  /** The keys in order, each with or without its equals sign; empty pairs do not count. */
  function Keys(ps: seq<Pair>): seq<seq<Byte>> {
    if ps == [] then []
    else
      (if ps[0] == Pair([], None) then [] else [ps[0].key + if ps[0].value.None? then [] else [61]])
      + Keys(ps[1..])
  }

  lemma BlankOfPair(p: Pair)
    requires PlainPair(p)
    ensures Blank(PairText(p)) == p.key + if p.value.None? then [] else [EQUALS]
    ensures PairText(p) == [] <==> p == Pair([], None)
    ensures AMP !in PairText(p) && HASH !in PairText(p)
  {
    if p.value.None? {
      assert PairText(p) == p.key;
      AfterIsShorter(p.key, EQUALS);
    } else {
      assert PairText(p) == p.key + [EQUALS] + p.value.value;
      SplitOnceAt(p.key, EQUALS, p.value.value);
    }
  }

  lemma {:induction false} BlankOfPairs(ps: seq<Pair>)
    requires forall i :: 0 <= i < |ps| ==> PlainPair(ps[i])
    ensures BlankAll(PairTexts(ps)) == Keys(ps)
    ensures forall i :: 0 <= i < |ps| ==> AMP !in PairTexts(ps)[i] && HASH !in PairTexts(ps)[i]
    decreases |ps|
  {
    hide Blank, PlainPair;
    if ps != [] {
      BlankOfPair(ps[0]);
      assert PairTexts(ps)[1..] == PairTexts(ps[1..]);
      assert forall i :: 0 <= i < |ps[1..]| ==> ps[1..][i] == ps[i + 1];
      BlankOfPairs(ps[1..]);
    }
  }

  lemma HostIsLast(userinfo: seq<Byte>, host: seq<Byte>)
    requires AT !in host
    ensures AfterLast(userinfo + [AT] + host, AT) == host
    decreases |userinfo|
  {
    var s := userinfo + [AT] + host;
    AfterIsShorter(userinfo, AT);
    if After(userinfo, AT).None? {
      SplitOnceAt(userinfo, AT, host);
      AfterLastOfNone(host, AT);
    } else {
      var a, b := Before(userinfo, AT), After(userinfo, AT).value;
      assert s == a + [AT] + (b + [AT] + host);
      SplitOnceAt(a, AT, b + [AT] + host);
      HostIsLast(b, host);
    }
  }

  lemma BaseIsStripped(u: Pieces)
    requires WellFormed(u)
    ensures StripUserinfo(Base(u)) == u.scheme + AUTHORITY_MARK + (u.host + u.path)
    ensures HASH !in Base(u) && QUESTION !in Base(u)
  {
    hide Find, AfterLast, StripUserinfo;
    SchemeEnds(u.scheme, Authority(u) + u.path);
    if u.userinfo.None? {
      assert Authority(u) == u.host;
      AfterLastOfNone(u.host, AT);
    } else {
      HostIsLast(u.userinfo.value, u.host);
    }
    StripPieces(u.scheme, Authority(u), u.path);
  }

  lemma SchemeEnds(scheme: seq<Byte>, rest: seq<Byte>)
    requires COLON !in scheme
    ensures Find(scheme + AUTHORITY_MARK + rest, AUTHORITY_MARK) == Some(|scheme|)
  {
    var s := scheme + AUTHORITY_MARK + rest;
    assert OccursAt(s, AUTHORITY_MARK, |scheme|);
    forall i | 0 <= i < |scheme|
      ensures !OccursAt(s, AUTHORITY_MARK, i)
    {
      assert s[i..i + 3][0] == s[i] == scheme[i] && scheme[i] in scheme;
    }
  }

  /** What is left of a URL: scheme, host, path and the keys. */
  function Shape(scheme: seq<Byte>, host: seq<Byte>, path: seq<Byte>, keys: seq<seq<Byte>>): seq<Byte> {
    scheme + AUTHORITY_MARK + (host + path) + if keys == [] then [] else [QUESTION] + Join(keys, AMP)
  }

  lemma TextIsCut(base: seq<Byte>, query: Option<seq<Byte>>, fragment: Option<seq<Byte>>)
    requires HASH !in base && QUESTION !in base && (query.Some? ==> HASH !in query.value)
    ensures var noFragment := base + if query.None? then [] else [QUESTION] + query.value;
      && Before(noFragment + if fragment.None? then [] else [HASH] + fragment.value, HASH) == noFragment
      && Before(noFragment, QUESTION) == base && After(noFragment, QUESTION) == query
  {
    hide Before, After;
    var noFragment := base + if query.None? then [] else [QUESTION] + query.value;
    BeforeWithout(noFragment, HASH, if fragment.None? then [] else [HASH] + fragment.value);
    if query.None? {
      assert noFragment == base;
      AfterIsShorter(base, QUESTION);
    } else {
      assert noFragment == base + [QUESTION] + query.value;
      SplitOnceAt(base, QUESTION, query.value);
    }
  }

  /** A redacted URL is made of scheme, host, path and keys alone. */
  lemma RedactedIsShape(u: Pieces)
    requires WellFormed(u)
    ensures Url(Text(u)) == Shape(u.scheme, u.host, u.path, Keys(u.pairs))
  {
    hide StripUserinfo, BlankAll, Split, Join, Before, After, Base, PairTexts, Keys;
    BaseIsStripped(u);
    BlankOfPairs(u.pairs);
    var query := if u.pairs == [] then None else Some(Join(PairTexts(u.pairs), AMP));
    if u.pairs != [] {
      JoinAvoids(PairTexts(u.pairs), AMP, HASH);
      SplitOfJoin(PairTexts(u.pairs), AMP);
    }
    TextIsCut(Base(u), query, u.fragment);
    NoKeys();
    assert Base(u) + [] == Base(u);
  }

  lemma NoKeys()
    ensures Keys([]) == []
  {
  }

  lemma {:induction false} KeysAvoid(ps: seq<Pair>)
    requires forall i :: 0 <= i < |ps| ==> PlainPair(ps[i])
    ensures forall i :: 0 <= i < |Keys(ps)| ==> AMP !in Keys(ps)[i]
    decreases |ps|
  {
    if ps != [] {
      assert PlainPair(ps[0]);
      assert forall i :: 0 <= i < |ps[1..]| ==> ps[1..][i] == ps[i + 1];
      KeysAvoid(ps[1..]);
    }
  }

  /** Scheme, host, path and keys can be read off what is left of a URL. */
  lemma ShapeIsReadable(u: Pieces)
    requires WellFormed(u)
    ensures var shape := Shape(u.scheme, u.host, u.path, Keys(u.pairs));
      var base, keys := Before(shape, QUESTION), After(shape, QUESTION);
      && Find(base, AUTHORITY_MARK) == Some(|u.scheme|) && base[..|u.scheme|] == u.scheme
      && base[|u.scheme| + 3..] == u.host + u.path && Before(u.host + u.path, SLASH) == u.host
      && (if keys.None? then [] else Split(keys.value, AMP)) == Keys(u.pairs)
  {
    hide Find, Split, Join, Keys;
    var base, keys := u.scheme + AUTHORITY_MARK + (u.host + u.path), Keys(u.pairs);
    assert QUESTION !in base;
    SchemeEnds(u.scheme, u.host + u.path);
    BeforeWithout(u.host, SLASH, u.path);
    KeysAvoid(u.pairs);
    if keys == [] {
      assert base + [] == base;
      AfterIsShorter(base, QUESTION);
    } else {
      assert base + ([QUESTION] + Join(keys, AMP)) == base + [QUESTION] + Join(keys, AMP);
      SplitOnceAt(base, QUESTION, Join(keys, AMP));
      SplitOfJoin(keys, AMP);
    }
  }

  /** Two URLs redact to the same text exactly when they agree on scheme, host, path and ordered keys: user info,
      values and fragment cannot be learnt from the result, and nothing else is lost. */
  lemma NonInterference(u: Pieces, v: Pieces)
    requires WellFormed(u) && WellFormed(v)
    ensures Url(Text(u)) == Url(Text(v))
            <==> u.scheme == v.scheme && u.host == v.host && u.path == v.path && Keys(u.pairs) == Keys(v.pairs)
  {
    hide Find, Split, Before, After, Keys, Url, Text, Shape;
    RedactedIsShape(u);
    RedactedIsShape(v);
    ShapeIsReadable(u);
    ShapeIsReadable(v);
    if Url(Text(u)) == Url(Text(v)) {
      assert u.scheme == v.scheme && u.host == v.host;
      assert (u.host + u.path)[|u.host|..] == u.path && (v.host + v.path)[|v.host|..] == v.path;
    }
  }
}
