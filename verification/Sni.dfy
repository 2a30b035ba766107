/**
 Reading the host name out of a TLS ClientHello: the handshake message as in section 4.1.2 of RFC 8446,
 the server_name extension as in section 3 of RFC 6066.
 */
module Sni {
  import opened Wrappers
  import opened Bytes
  import opened Utf8

  // ---------------------------------------------------------------------------------------------
  // The reader.
  // ---------------------------------------------------------------------------------------------

  function Get(b: seq<Byte>, p: nat): Option<Byte> {
    if p < |b| then Some(b[p]) else None
  }

  /** A big-endian 16-bit number. */
  function Word(high: Byte, low: Byte): nat {
    high as int * 256 + low as int
  }

  function Get16(b: seq<Byte>, p: nat): Option<nat> {
    if p + 1 < |b| then Some(Word(b[p], b[p + 1])) else None
  }

  function Slice(b: seq<Byte>, from: nat, length: nat): Option<seq<Byte>> {
    if from + length <= |b| then Some(b[from..from + length]) else None
  }

  function LowerByte(b: Byte): Byte {
    if 65 <= b <= 90 then b + 32 else b
  }

  function LowerName(s: seq<Byte>): (r: seq<Byte>)
    ensures |r| == |s| && forall i :: 0 <= i < |s| ==> r[i] == LowerByte(s[i])
  {
    if s == [] then [] else [LowerByte(s[0])] + LowerName(s[1..])
  }

  /** The first name in the data of a server_name extension. */
  function NameIn(e: seq<Byte>): Option<seq<Byte>> {
    if |e| < 5 then None
    else
      var name := Slice(e, 5, Word(e[3], e[4]));
      if name.None? || !ValidUtf8(name.value) then None else Some(LowerName(name.value))
  }

  /** The extensions from offset `p` on. */
  function Scan(body: seq<Byte>, p: nat, end: nat): Option<seq<Byte>>
    requires end <= |body|
    decreases end - p
  {
    if p + 4 > end then None
    else
      var elen := Word(body[p + 2], body[p + 3]);
      if Word(body[p], body[p + 1]) == 0 then
        var e := Slice(body, p + 4, elen);
        if e.None? then None else NameIn(e.value)
      else Scan(body, p + 4 + elen, end)
  }

  /** The offset of the first extension and of the end of the last, skipping the session id, the cipher suites and the
      compression methods. */
  function Extensions(body: seq<Byte>): Option<(nat, nat)> {
    var sid := Get(body, 38);
    if sid.None? then None
    else
      var cs := Get16(body, 39 + sid.value);
      if cs.None? then None
      else
        var cm := Get(body, 41 + sid.value + cs.value);
        if cm.None? then None
        else
          var p := 42 + sid.value + cs.value + cm.value;
          var total := Get16(body, p);
          if total.None? then None
          else Some((p + 2, if p + 2 + total.value < |body| then p + 2 + total.value else |body|))
  }

  /** What is there of the first record. */
  function RecordBody(buf: seq<Byte>): Option<seq<Byte>> {
    if |buf| < 5 || buf[0] != 0x16 then None
    else
      var length := Word(buf[3], buf[4]);
      Some(buf[5..5 + if length < |buf| - 5 then length else |buf| - 5])
  }

  function NameInBody(body: seq<Byte>): Option<seq<Byte>> {
    if body == [] || body[0] != 1 then None
    else
      var x := Extensions(body);
      if x.None? then None else Scan(body, x.value.0, x.value.1)
  }

  function NameOf(buf: seq<Byte>): Option<seq<Byte>> {
    var body := RecordBody(buf);
    if body.None? then None else NameInBody(body.value)
  }

  method ServerName(buf: seq<Byte>) returns (r: Option<seq<Byte>>)
    ensures r == NameOf(buf)
  {
    hide Word, Scan, Extensions;
    if |buf| < 5 || buf[0] != 0x16 { return None; }
    var length := Word(buf[3], buf[4]);
    var body := buf[5..5 + if length < |buf| - 5 then length else |buf| - 5];
    assert NameOf(buf) == NameInBody(body);
    if body == [] || body[0] != 1 { return None; }
    var start := SkipToExtensions(body);
    if start.None? { return None; }
    var (p, end) := start.value;
    while p + 4 <= end
      invariant end <= |body| && NameOf(buf) == Scan(body, p, end)
      decreases end - p
    {
      ScanUnfolds(body, p, end);
      var etype, elen := Word(body[p], body[p + 1]), Word(body[p + 2], body[p + 3]);
      p := p + 4;
      if etype == 0 {
        var e := Slice(body, p, elen);
        return if e.None? then None else NameIn(e.value);
      }
      p := p + elen;
    }
    ScanUnfolds(body, p, end);
    r := None;
  }

  /** The walk over the fields in front of the extensions. */
  method SkipToExtensions(body: seq<Byte>) returns (r: Option<(nat, nat)>)
    ensures r == Extensions(body) && (r.Some? ==> r.value.1 <= |body|)
  {
    hide Word;
    var p: nat := 4 + 2 + 32;
    var sid := Get(body, p);
    if sid.None? { return None; }
    p := p + 1 + sid.value;
    var cs := Get16(body, p);
    if cs.None? { return None; }
    p := p + 2 + cs.value;
    var cm := Get(body, p);
    if cm.None? { return None; }
    p := p + 1 + cm.value;
    var total := Get16(body, p);
    if total.None? { return None; }
    p := p + 2;
    r := Some((p, if p + total.value < |body| then p + total.value else |body|));
  }

  lemma ScanUnfolds(body: seq<Byte>, p: nat, end: nat)
    requires end <= |body|
    ensures p + 4 > end ==> Scan(body, p, end) == None
    ensures p + 4 <= end ==>
      var elen := Word(body[p + 2], body[p + 3]);
      Scan(body, p, end) ==
        if Word(body[p], body[p + 1]) != 0 then Scan(body, p + 4 + elen, end)
        else var e := Slice(body, p + 4, elen); if e.None? then None else NameIn(e.value)
  {
    hide NameIn, Word;
  }

  // ---------------------------------------------------------------------------------------------
  // A shorter buffer never gives another name.
  // ---------------------------------------------------------------------------------------------

  lemma {:induction false} ScanOfPrefix(body: seq<Byte>, n: nat, p: nat, end: nat, end': nat)
    requires n <= |body| && end' <= end <= |body| && end' <= n
    ensures Scan(body[..n], p, end').Some? ==> Scan(body[..n], p, end') == Scan(body, p, end)
    decreases end - p
  {
    if p + 4 <= end' {
      var elen := Word(body[p + 2], body[p + 3]);
      if Word(body[p], body[p + 1]) == 0 {
        if p + 4 + elen <= n {
          assert body[..n][p + 4..p + 4 + elen] == body[p + 4..p + 4 + elen];
        }
      } else {
        ScanOfPrefix(body, n, p + 4 + elen, end, end');
      }
    }
  }

  lemma ExtensionsOfPrefix(body: seq<Byte>, n: nat)
    requires n <= |body| && Extensions(body[..n]).Some?
    ensures Extensions(body).Some?
    ensures var x', x := Extensions(body[..n]).value, Extensions(body).value;
      x'.0 == x.0 && x'.1 <= x.1 <= |body| && x'.1 <= n
  {
    hide Word;
  }

  lemma BodyOfPrefix(body: seq<Byte>, n: nat)
    requires n <= |body|
    ensures NameInBody(body[..n]).Some? ==> NameInBody(body[..n]) == NameInBody(body)
  {
    hide Extensions, Scan;
    var x', x := Extensions(body[..n]), Extensions(body);
    if n > 0 && x'.Some? {
      ExtensionsOfPrefix(body, n);
      ScanOfPrefix(body, n, x.value.0, x.value.1, x'.value.1);
    }
  }

  lemma RecordOfPrefix(buf: seq<Byte>, n: nat)
    requires n <= |buf| && RecordBody(buf[..n]).Some?
    ensures RecordBody(buf).Some?
    ensures var part, whole := RecordBody(buf[..n]).value, RecordBody(buf).value;
      |part| <= |whole| && part == whole[..|part|]
  {
    hide Word;
    var part, whole := RecordBody(buf[..n]).value, RecordBody(buf).value;
    assert part == buf[..n][5..5 + |part|] == buf[5..5 + |part|];
    assert whole == buf[5..5 + |whole|];
  }

  /** On any bytes at all, a truncated buffer yields no name or the very name the whole one yields. */
  lemma PrefixNeverLies(buf: seq<Byte>, n: nat)
    requires n <= |buf|
    ensures NameOf(buf[..n]) == None || NameOf(buf[..n]) == NameOf(buf)
  {
    hide RecordBody, NameInBody;
    var part, whole := RecordBody(buf[..n]), RecordBody(buf);
    if part.Some? {
      RecordOfPrefix(buf, n);
      BodyOfPrefix(whole.value, |part.value|);
    }
  }

  // ---------------------------------------------------------------------------------------------
  // The encoding.
  // ---------------------------------------------------------------------------------------------

  datatype Extension = Extension(kind: nat, data: seq<Byte>)

  datatype Hello = Hello(
    version: seq<Byte>,
    random: seq<Byte>,
    session: seq<Byte>,
    suites: seq<Byte>,
    compressions: seq<Byte>,
    extensions: Option<seq<Extension>>)

  function Put16(n: nat): (s: seq<Byte>)
    requires n < 0x1_0000
    ensures |s| == 2
  {
    [n / 256, n % 256]
  }

  function EncodeExtensions(es: seq<Extension>): seq<Byte>
    requires forall i :: 0 <= i < |es| ==> es[i].kind < 0x1_0000 && |es[i].data| < 0x1_0000
  {
    if es == [] then []
    else Put16(es[0].kind) + Put16(|es[0].data|) + es[0].data + EncodeExtensions(es[1..])
  }

  predicate WellFormed(h: Hello) {
    && |h.version| == 2 && |h.random| == 32 && |h.session| < 256 && |h.suites| < 0x1_0000 && |h.compressions| < 256
    && (h.extensions.Some? ==>
          && (forall i :: 0 <= i < |h.extensions.value| ==>
                h.extensions.value[i].kind < 0x1_0000 && |h.extensions.value[i].data| < 0x1_0000)
          && |EncodeExtensions(h.extensions.value)| < 0x1_0000)
  }

  /** The handshake header and everything before the extensions. */
  function EncodeFixed(h: Hello, length: seq<Byte>): seq<Byte>
    requires WellFormed(h)
  {
    [1] + length + h.version + h.random + [|h.session|] + h.session
    + Put16(|h.suites|) + h.suites + [|h.compressions|] + h.compressions
  }

  /** The handshake message; `length` is its three-byte length field. */
  function EncodeHello(h: Hello, length: seq<Byte>): seq<Byte>
    requires WellFormed(h)
  {
    EncodeFixed(h, length)
    + if h.extensions.None? then []
      else Put16(|EncodeExtensions(h.extensions.value)|) + EncodeExtensions(h.extensions.value)
  }

  /** One record carrying `message`. */
  function EncodeRecord(version: seq<Byte>, message: seq<Byte>): seq<Byte>
    requires |message| < 0x1_0000
  {
    [0x16] + version + Put16(|message|) + message
  }

  /** The data of a server_name extension whose first entry is `name`, with `more` entries after it. */
  function ServerNameData(name: seq<Byte>, more: seq<Byte>): seq<Byte>
    requires |name| + |more| + 3 < 0x1_0000
  {
    Put16(|name| + |more| + 3) + [0] + Put16(|name|) + name + more
  }

  /** What the first server_name extension says. */
  function FirstName(es: seq<Extension>): Option<seq<Byte>> {
    if es == [] then None else if es[0].kind == 0 then NameIn(es[0].data) else FirstName(es[1..])
  }

  lemma NameIsRead(name: seq<Byte>, more: seq<Byte>)
    requires |name| + |more| + 3 < 0x1_0000 && ValidUtf8(name)
    ensures NameIn(ServerNameData(name, more)) == Some(LowerName(name))
  {
    hide ValidUtf8;
    var e := ServerNameData(name, more);
    assert e[3] == |name| / 256 && e[4] == |name| % 256;
    assert e[5..5 + |name|] == name;
  }

  lemma WordOfPut(n: nat)
    requires n < 0x1_0000
    ensures Word(Put16(n)[0], Put16(n)[1]) == n
  {
  }

  lemma ScanStep(body: seq<Byte>, p: nat, end: nat, x: Extension)
    requires end <= |body| && p + 4 + |x.data| <= end
    requires Word(body[p], body[p + 1]) == x.kind && Word(body[p + 2], body[p + 3]) == |x.data|
    requires body[p + 4..p + 4 + |x.data|] == x.data
    ensures Scan(body, p, end) == if x.kind == 0 then NameIn(x.data) else Scan(body, p + 4 + |x.data|, end)
  {
    hide NameIn;
  }

  lemma Regroup(pre: seq<Byte>, a: seq<Byte>, b: seq<Byte>, c: seq<Byte>, more: seq<Byte>, tail: seq<Byte>)
    ensures pre + (a + b + c + more) + tail == pre + a + b + c + (more + tail) == pre + a + b + c + more + tail
  {
  }

  lemma {:induction false} ScanReads(pre: seq<Byte>, es: seq<Extension>, tail: seq<Byte>)
    requires forall i :: 0 <= i < |es| ==> es[i].kind < 0x1_0000 && |es[i].data| < 0x1_0000
    ensures Scan(pre + EncodeExtensions(es) + tail, |pre|, |pre| + |EncodeExtensions(es)|) == FirstName(es)
    decreases |es|
  {
    hide NameIn, Scan, Word, Put16;
    if es == [] {
      ScanUnfolds(pre + EncodeExtensions(es) + tail, |pre|, |pre|);
    } else {
      var x, more := es[0], EncodeExtensions(es[1..]);
      var kind, length := Put16(x.kind), Put16(|x.data|);
      var pre' := pre + kind + length + x.data;
      Regroup(pre, kind, length, x.data, more, tail);
      WordOfPut(x.kind);
      WordOfPut(|x.data|);
      ScanStep(pre' + more + tail, |pre|, |pre'| + |more|, x);
      ScanReads(pre', es[1..], tail);
    }
  }

  lemma WordAt(pre: seq<Byte>, x: nat, rest: seq<Byte>)
    requires x < 0x1_0000
    ensures Get16(pre + (Put16(x) + rest), |pre|) == Some(x)
  {
  }

  /** The fields before the extensions are skipped exactly. */
  lemma FixedIsSkipped(h: Hello, length: seq<Byte>, rest: seq<Byte>)
    requires WellFormed(h) && |length| == 3
    ensures var body := EncodeFixed(h, length) + rest;
      && body[0] == 1
      && Extensions(body) == var p := |EncodeFixed(h, length)|;
           var total := Get16(body, p);
           if total.None? then None
           else Some((p + 2, if p + 2 + total.value < |body| then p + 2 + total.value else |body|))
  {
    hide EncodeFixed, Get16, Get;
    SessionAt(h, length, rest);
    SuitesAt(h, length, rest);
    CompressionsAt(h, length, rest);
  }

  lemma SessionAt(h: Hello, length: seq<Byte>, rest: seq<Byte>)
    requires WellFormed(h) && |length| == 3
    ensures var body := EncodeFixed(h, length) + rest; body[0] == 1 && Get(body, 38) == Some(|h.session|)
  {
    var head := [1] + length + h.version + h.random;
    var after := h.session + Put16(|h.suites|) + h.suites + [|h.compressions|] + h.compressions + rest;
    assert EncodeFixed(h, length) + rest == head + ([|h.session|] + after);
  }

  lemma SuitesAt(h: Hello, length: seq<Byte>, rest: seq<Byte>)
    requires WellFormed(h) && |length| == 3
    ensures Get16(EncodeFixed(h, length) + rest, 39 + |h.session|) == Some(|h.suites|)
  {
    hide Get16;
    var pre := [1] + length + h.version + h.random + [|h.session|] + h.session;
    var after := h.suites + [|h.compressions|] + h.compressions + rest;
    assert EncodeFixed(h, length) + rest == pre + (Put16(|h.suites|) + after);
    WordAt(pre, |h.suites|, after);
  }

  lemma CompressionsAt(h: Hello, length: seq<Byte>, rest: seq<Byte>)
    requires WellFormed(h) && |length| == 3
    ensures Get(EncodeFixed(h, length) + rest, 41 + |h.session| + |h.suites|) == Some(|h.compressions|)
    ensures |EncodeFixed(h, length)| == 42 + |h.session| + |h.suites| + |h.compressions|
  {
    var pre := [1] + length + h.version + h.random + [|h.session|] + h.session + Put16(|h.suites|) + h.suites;
    assert EncodeFixed(h, length) + rest == pre + ([|h.compressions|] + (h.compressions + rest));
  }

  /** A well-formed ClientHello, in one record and whatever follows it, yields what its first server_name extension
      says. */
  lemma HelloIsRead(h: Hello, length: seq<Byte>, recordVersion: seq<Byte>, tail: seq<Byte>, next: seq<Byte>)
    requires WellFormed(h) && |length| == 3 && |recordVersion| == 2
    requires |EncodeHello(h, length) + tail| < 0x1_0000 && (h.extensions.None? ==> tail == [])
    ensures NameOf(EncodeRecord(recordVersion, EncodeHello(h, length) + tail) + next)
            == if h.extensions.None? then None else FirstName(h.extensions.value)
  {
    hide NameIn, Extensions, Scan, EncodeExtensions, EncodeFixed;
    var body := EncodeHello(h, length) + tail;
    var fixed := EncodeFixed(h, length);
    if h.extensions.None? {
      FixedIsSkipped(h, length, []);
      assert body == fixed + [];
      assert Extensions(body) == None;
    } else {
      var es := EncodeExtensions(h.extensions.value);
      var rest := Put16(|es|) + (es + tail);
      assert body == fixed + rest;
      FixedIsSkipped(h, length, rest);
      WordAt(fixed, |es|, es + tail);
      assert body == fixed + Put16(|es|) + es + tail;
      ScanReads(fixed + Put16(|es|), h.extensions.value, tail);
    }
  }

  lemma {:induction false} FirstNameAfter(before: seq<Extension>, x: Extension, after: seq<Extension>)
    requires x.kind == 0 && forall i :: 0 <= i < |before| ==> before[i].kind != 0
    ensures FirstName(before + [x] + after) == NameIn(x.data)
  {
    var es := before + [x] + after;
    if before == [] {
      assert es[0] == x;
    } else {
      assert es[0] == before[0] && es[1..] == before[1..] + [x] + after;
      FirstNameAfter(before[1..], x, after);
    }
  }

  /** Wherever the server_name extension stands among the others, its first name is returned, in lower case. */
  lemma {:induction false} NameIsFound(
      h: Hello, before: seq<Extension>, after: seq<Extension>, name: seq<Byte>, more: seq<Byte>,
      length: seq<Byte>, recordVersion: seq<Byte>, next: seq<Byte>)
    requires |name| + |more| + 3 < 0x1_0000 && ValidUtf8(name)
    requires forall i :: 0 <= i < |before| ==> before[i].kind != 0
    requires h.extensions == Some(before + [Extension(0, ServerNameData(name, more))] + after)
    requires WellFormed(h) && |length| == 3 && |recordVersion| == 2 && |EncodeHello(h, length)| < 0x1_0000
    ensures NameOf(EncodeRecord(recordVersion, EncodeHello(h, length)) + next) == Some(LowerName(name))
  {
    assert EncodeHello(h, length) + [] == EncodeHello(h, length);
    HelloIsRead(h, length, recordVersion, [], next);
    FirstNameAfter(before, Extension(0, ServerNameData(name, more)), after);
    NameIsRead(name, more);
  }

  // ---------------------------------------------------------------------------------------------
  // The bypass list.
  // ---------------------------------------------------------------------------------------------

  const DOT: Byte := 46

  predicate EndsWith(s: seq<Byte>, suffix: seq<Byte>) {
    |suffix| <= |s| && s[|s| - |suffix|..] == suffix
  }

  function TrimDotsEnd(s: seq<Byte>): seq<Byte> {
    if s != [] && s[|s| - 1] == DOT then TrimDotsEnd(s[..|s| - 1]) else s
  }

  function TrimDotsStart(s: seq<Byte>): seq<Byte> {
    if s != [] && s[0] == DOT then TrimDotsStart(s[1..]) else s
  }

  /** The domain `b` covers the host `h`. */
  predicate Matches(b: seq<Byte>, h: seq<Byte>) {
    b != [] && (h == b || EndsWith(h, [DOT] + b))
  }

  function EntryName(entry: seq<Byte>): seq<Byte> {
    LowerName(TrimDotsStart(Trim(entry)))
  }

  function HostName(host: seq<Byte>): seq<Byte> {
    LowerName(TrimDotsEnd(host))
  }

  /** A bypass entry covers a host. */
  predicate Covers(entry: seq<Byte>, host: seq<Byte>) {
    Matches(EntryName(entry), HostName(host))
  }

  /** The labels of a name, between its dots. */
  function Labels(s: seq<Byte>): (ls: seq<seq<Byte>>)
    ensures ls != []
  {
    if s == [] then [[]]
    else if s[0] == DOT then [[]] + Labels(s[1..])
    else var rest := Labels(s[1..]); [[s[0]] + rest[0]] + rest[1..]
  }

  lemma {:induction false} LabelsSplit(a: seq<Byte>, b: seq<Byte>)
    ensures Labels(a + [DOT] + b) == Labels(a) + Labels(b)
  {
    var s := a + [DOT] + b;
    if a == [] {
      assert s[1..] == b;
    } else {
      assert s[1..] == a[1..] + [DOT] + b;
      LabelsSplit(a[1..], b);
    }
  }

  lemma {:induction false} JoinOfLabels(s: seq<Byte>, t: seq<Byte>)
    requires Labels(s) == Labels(t)
    ensures s == t
    decreases |s| + |t|
  {
    LabelCount(s);
    LabelCount(t);
    if s != [] && t != [] {
      JoinStep(s, t);
      JoinOfLabels(s[1..], t[1..]);
      assert s == [s[0]] + s[1..] && t == [t[0]] + t[1..];
    }
  }

  lemma {:induction false} JoinStep(s: seq<Byte>, t: seq<Byte>)
    requires s != [] && t != [] && Labels(s) == Labels(t)
    ensures s[0] == t[0] && Labels(s[1..]) == Labels(t[1..])
  {
    var ls, lt := Labels(s[1..]), Labels(t[1..]);
    if s[0] == DOT && t[0] == DOT {
      assert ls == Labels(s)[1..] && lt == Labels(t)[1..];
    } else {
      assert Labels(s)[0] == Labels(t)[0];
      assert ls[0] == Labels(s)[0][1..] && lt[0] == Labels(t)[0][1..];
      assert ls[1..] == Labels(s)[1..] && lt[1..] == Labels(t)[1..];
      assert ls == [ls[0]] + ls[1..] && lt == [lt[0]] + lt[1..];
    }
  }

  lemma LabelCount(s: seq<Byte>)
    ensures s == [] <==> Labels(s) == [[]]
  {
    if s != [] && s[0] != DOT {
      assert Labels(s)[0] != [];
    }
  }

  /** A host is covered exactly when its labels end with all the labels of the domain: `notexample.com` is not covered
      by `example.com`, its subdomains are. */
  lemma {:induction false} MatchesByLabels(b: seq<Byte>, h: seq<Byte>)
    ensures var lb, lh := Labels(b), Labels(h);
      Matches(b, h) <==> b != [] && |lb| <= |lh| && lh[|lh| - |lb|..] == lb
  {
    hide Labels;
    var lh, lb := Labels(h), Labels(b);
    if EndsWith(h, [DOT] + b) {
      var a := h[..|h| - |b| - 1];
      assert h == a + [DOT] + b;
      LabelsSplit(a, b);
      assert lh[|lh| - |lb|..] == lb;
    }
    if |lb| <= |lh| && lh[|lh| - |lb|..] == lb {
      if |lb| == |lh| {
        assert lh == lb;
        JoinOfLabels(h, b);
      } else {
        var a, c := CutBeforeLabels(h, |lh| - |lb|);
        JoinOfLabels(c, b);
        assert h[|a|..] == [DOT] + b;
      }
    }
  }

  /** Cutting a name in front of its label number `k`. */
  lemma {:induction false} CutBeforeLabels(s: seq<Byte>, k: nat) returns (a: seq<Byte>, c: seq<Byte>)
    requires 0 < k < |Labels(s)|
    ensures s == a + [DOT] + c && Labels(c) == Labels(s)[k..]
  {
    if s[0] == DOT && k == 1 {
      a, c := [], s[1..];
    } else {
      a, c := CutBeforeLabels(s[1..], if s[0] == DOT then k - 1 else k);
      a := [s[0]] + a;
    }
  }

  /** Some entry of the bypass list covers the host. */
  predicate IsBypassed(host: seq<Byte>, bypass: seq<seq<Byte>>) {
    exists i :: 0 <= i < |bypass| && Covers(bypass[i], host)
  }

  lemma {:induction false} TrimDotsBehind(s: seq<Byte>, t: seq<Byte>)
    requires TrimDotsEnd(t) != []
    ensures TrimDotsEnd(s + t) == s + TrimDotsEnd(t)
    decreases |t|
  {
    if t[|t| - 1] == DOT {
      assert (s + t)[..|s + t| - 1] == s + t[..|t| - 1];
      TrimDotsBehind(s, t[..|t| - 1]);
    }
  }

  lemma SomethingIsLeft(b: seq<Byte>, host: seq<Byte>)
    requires Matches(b, HostName(host))
    ensures TrimDotsEnd(host) != []
  {
  }

  lemma {:induction false} HostOfSubdomain(sub: seq<Byte>, host: seq<Byte>)
    requires TrimDotsEnd(host) != []
    ensures HostName(sub + [DOT] + host) == LowerName(sub) + [DOT] + HostName(host)
  {
    hide LowerName;
    TrimDotsBehind(sub + [DOT], host);
  }

  /** Whatever is bypassed is bypassed with all its subdomains, at any depth. */
  lemma SubdomainsAreBypassed(sub: seq<Byte>, host: seq<Byte>, bypass: seq<seq<Byte>>)
    requires IsBypassed(host, bypass)
    ensures IsBypassed(sub + [DOT] + host, bypass)
  {
    hide Labels, EntryName, HostName, LowerName, Matches;
    var i :| 0 <= i < |bypass| && Covers(bypass[i], host);
    var b, h := EntryName(bypass[i]), HostName(host);
    MatchesByLabels(b, h);
    MatchesByLabels(b, HostName(sub + [DOT] + host));
    SomethingIsLeft(b, host);
    HostOfSubdomain(sub, host);
    LabelsSplit(LowerName(sub), h);
    var lh, ls := Labels(h), Labels(LowerName(sub));
    var n := |Labels(b)|;
    assert (ls + lh)[|ls + lh| - n..] == lh[|lh| - n..];
  }

  // ---------------------------------------------------------------------------------------------
  // What the names of entries and hosts are.
  // ---------------------------------------------------------------------------------------------

  /** Two bytes are the same but for the case of a letter. */
  predicate SameLetter(a: Byte, b: Byte) {
    a == b || (65 <= a <= 90 && b == a + 32) || (65 <= b <= 90 && a == b + 32)
  }

  predicate SameName(s: seq<Byte>, t: seq<Byte>) {
    |s| == |t| && forall i :: 0 <= i < |s| ==> SameLetter(s[i], t[i])
  }

  lemma LowerByteIdentifies(a: Byte, b: Byte)
    ensures LowerByte(a) == LowerByte(b) <==> SameLetter(a, b)
    ensures !(65 <= LowerByte(a) <= 90) && (!(65 <= a <= 90) ==> LowerByte(a) == a)
  {
  }

  /** Lower-casing identifies exactly the names that differ in the case of letters, and leaves no capital. */
  lemma LowerIdentifiesCase(s: seq<Byte>, t: seq<Byte>)
    ensures LowerName(s) == LowerName(t) <==> SameName(s, t)
    ensures forall i :: 0 <= i < |s| ==> !(65 <= LowerName(s)[i] <= 90)
    ensures forall i :: 0 <= i < |s| && !(65 <= s[i] <= 90) ==> LowerName(s)[i] == s[i]
  {
    hide LowerByte, SameLetter;
    forall i | 0 <= i < |s|
      ensures !(65 <= LowerName(s)[i] <= 90) && (!(65 <= s[i] <= 90) ==> LowerName(s)[i] == s[i])
    {
      LowerByteIdentifies(s[i], s[i]);
    }
    if |s| == |t| {
      forall i | 0 <= i < |s|
        ensures LowerName(s)[i] == LowerName(t)[i] <==> SameLetter(s[i], t[i])
      {
        LowerByteIdentifies(s[i], t[i]);
      }
    }
  }

  /** A visible ASCII byte. */
  predicate Visible(b: Byte) {
    33 <= b <= 126
  }

  predicate Plain(s: seq<Byte>) {
    s != [] && forall b :: b in s ==> Visible(b)
  }

  /** Blanks, tabs and line breaks. */
  predicate AllBlank(s: seq<Byte>) {
    forall b :: b in s ==> b == 32 || 9 <= b <= 13
  }

  predicate AllDots(s: seq<Byte>) {
    forall b :: b in s ==> b == 46
  }

  lemma {:induction false} BlanksBefore(pre: seq<Byte>, s: seq<Byte>)
    requires AllBlank(pre) && (s != [] ==> Visible(s[0]))
    ensures TrimStart(pre + s) == s
  {
    if pre == [] {
      assert pre + s == s;
      assert LeadingSpace(s) == 0;
    } else {
      assert (pre + s)[0] == pre[0] && (pre + s)[1..] == pre[1..] + s && pre[0] in pre;
      assert LeadingSpace(pre + s) == 1;
      assert forall b :: b in pre[1..] ==> b in pre;
      BlanksBefore(pre[1..], s);
    }
  }

  lemma {:induction false} BlanksBehind(s: seq<Byte>, post: seq<Byte>)
    requires AllBlank(post) && s != [] && Visible(s[|s| - 1])
    ensures TrimEnd(s + post) == s
    decreases |post|
  {
    if post == [] {
      assert s + post == s;
      assert TrailingSpace(s) == 0;
    } else {
      var whole, front := s + post, post[..|post| - 1];
      assert whole[|whole| - 1] == post[|post| - 1] && whole[..|whole| - 1] == s + front;
      assert post[|post| - 1] in post && forall b :: b in front ==> b in post;
      assert TrailingSpace(whole) == 1;
      BlanksBehind(s, front);
    }
  }

  lemma {:induction false} DotsBefore(dots: seq<Byte>, s: seq<Byte>)
    requires AllDots(dots) && s != [] && s[0] != 46
    ensures TrimDotsStart(dots + s) == s
  {
    if dots == [] {
      assert dots + s == s;
    } else {
      assert (dots + s)[0] == dots[0] && (dots + s)[1..] == dots[1..] + s && dots[0] in dots;
      assert forall b :: b in dots[1..] ==> b in dots;
      DotsBefore(dots[1..], s);
    }
  }

  lemma {:induction false} DotsBehind(s: seq<Byte>, dots: seq<Byte>)
    requires AllDots(dots) && s != [] && s[|s| - 1] != 46
    ensures TrimDotsEnd(s + dots) == s
    decreases |dots|
  {
    if dots == [] {
      assert s + dots == s;
    } else {
      var whole, front := s + dots, dots[..|dots| - 1];
      assert whole[|whole| - 1] == dots[|dots| - 1] && whole[..|whole| - 1] == s + front;
      assert dots[|dots| - 1] in dots && forall b :: b in front ==> b in dots;
      DotsBehind(s, front);
    }
  }

  /** An entry counts without the blanks around it and the dots before it, a host without the dots behind it. */
  lemma NamesAreTrimmed(pre: seq<Byte>, dots: seq<Byte>, name: seq<Byte>, post: seq<Byte>)
    requires AllBlank(pre) && AllDots(dots) && AllBlank(post) && Plain(name)
    ensures name[0] != 46 ==> EntryName(pre + dots + name + post) == LowerName(name)
    ensures name[|name| - 1] != 46 ==> HostName(name + dots) == LowerName(name)
  {
    hide LowerName, TrimStart, TrimEnd, TrimDotsStart, TrimDotsEnd;
    if name[0] != 46 {
      var inner := dots + name;
      assert inner[|inner| - 1] == name[|name| - 1] && name[|name| - 1] in name && name[0] in name;
      assert dots != [] ==> inner[0] == dots[0] && dots[0] in dots;
      assert dots == [] ==> inner == name;
      assert pre + dots + name + post == pre + (inner + post);
      assert (inner + post)[0] == inner[0];
      BlanksBefore(pre, inner + post);
      BlanksBehind(inner, post);
      DotsBefore(dots, name);
    }
    if name[|name| - 1] != 46 {
      DotsBehind(name, dots);
    }
  }

  /** A host is bypassed exactly if some entry of the list, whichever, names it or a domain above it. */
  lemma BypassedExactly(host: seq<Byte>, bypass: seq<seq<Byte>>)
    ensures IsBypassed(host, bypass) <==>
      exists entry :: entry in bypass && EntryName(entry) != []
                      && EndsLabels(Labels(HostName(host)), Labels(EntryName(entry)))
  {
    hide Labels, EntryName, HostName, Matches;
    forall entry
      ensures Covers(entry, host)
              <==> EntryName(entry) != [] && EndsLabels(Labels(HostName(host)), Labels(EntryName(entry)))
    {
      MatchesByLabels(EntryName(entry), HostName(host));
    }
  }

  predicate EndsLabels(ls: seq<seq<Byte>>, ends: seq<seq<Byte>>) {
    |ends| <= |ls| && ls[|ls| - |ends|..] == ends
  }
}
