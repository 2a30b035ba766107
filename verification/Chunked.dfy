/**
 Decoding of HTTP/1.1 chunked bodies (RFC 9112, section 7.1), as the raw client does it: by searching for
 line ends and reading sizes leniently.
 */
module Chunked {
  import opened Wrappers
  import opened Bytes

  const CR: Byte := 13
  const LF: Byte := 10
  const CRLF: seq<Byte> := [CR, LF]
  const SEMICOLON: Byte := 59
  const USIZE_LIMIT: nat := 0x1_0000_0000_0000_0000

  // ---------------------------------------------------------------------------------------------
  // Size lines.
  // ---------------------------------------------------------------------------------------------

  function BeforeSemicolon(s: seq<Byte>): seq<Byte> {
    if s == [] || s[0] == SEMICOLON then [] else [s[0]] + BeforeSemicolon(s[1..])
  }

  predicate AllHex(s: seq<Byte>) {
    forall i :: 0 <= i < |s| ==> IsHexDigit(s[i])
  }

  function HexValue(s: seq<Byte>): nat
    requires AllHex(s)
  {
    if s == [] then 0 else 16 * HexValue(s[..|s| - 1]) + HexDigit(s[|s| - 1])
  }

  /** The library's base-16 reading of a machine word: an optional `+`, at least one digit, no overflow. */
  function ParseWord(s: seq<Byte>): Option<nat> {
    var digits := if |s| > 1 && s[0] == 43 then s[1..] else s;
    if digits == [] || !AllHex(digits) || HexValue(digits) >= USIZE_LIMIT then None else Some(HexValue(digits))
  }

  /** The chunk size a line denotes; an unreadable one counts as zero. */
  function SizeOf(line: seq<Byte>): nat {
    var size := ParseWord(Trim(BeforeSemicolon(Trim(line))));
    if size.None? then 0 else size.value
  }

  // ---------------------------------------------------------------------------------------------
  // The decoder.
  // ---------------------------------------------------------------------------------------------

  function SkipLineEnd(s: seq<Byte>): seq<Byte> {
    if CRLF <= s then s[2..] else s
  }

  function Decode(data: seq<Byte>): seq<Byte>
    decreases |data|
  {
    var i := Find(data, CRLF);
    if i.None? then []
    else
      var size, rest := SizeOf(data[..i.value]), data[i.value + 2..];
      if size == 0 then [] else if |rest| < size then rest else rest[..size] + Decode(SkipLineEnd(rest[size..]))
  }

  method Dechunk(input: seq<Byte>) returns (out: seq<Byte>)
    ensures out == Decode(input)
  {
    hide SizeOf;
    var data := input;
    out := [];
    while true
      invariant Decode(input) == out + Decode(data)
      decreases |data|
    {
      var i := Find(data, CRLF);
      if i.None? {
        break;
      }
      var size := SizeOf(data[..i.value]);
      ghost var here := data;
      data := data[i.value + 2..];
      if size == 0 {
        assert Decode(here) == [];
        return;
      }
      if |data| < size {
        assert Decode(here) == data;
        out := out + data;
        return;
      }
      assert Decode(here) == data[..size] + Decode(SkipLineEnd(data[size..]));
      ghost var more := Decode(SkipLineEnd(data[size..]));
      assert out + (data[..size] + more) == out + data[..size] + more;
      out := out + data[..size];
      data := data[size..];
      if CRLF <= data {
        data := data[2..];
      }
    }
  }

  /** On any bytes the body is shorter than its encoding: every piece of it cost a size line. */
  lemma {:induction false} DecodeShrinks(data: seq<Byte>)
    ensures Decode(data) == [] || |Decode(data)| + 3 <= |data|
    decreases |data|
  {
    hide SizeOf, SkipLineEnd;
    var i := Find(data, CRLF);
    if i.Some? {
      var size, rest := SizeOf(data[..i.value]), data[i.value + 2..];
      if i.value == 0 {
        assert data[..0] == [];
        EmptyLineHasNoSize();
      } else if size != 0 && |rest| >= size {
        SkipIsShorter(rest[size..]);
        DecodeShrinks(SkipLineEnd(rest[size..]));
        assert Decode(data) == rest[..size] + Decode(SkipLineEnd(rest[size..]));
      }
    }
  }

  lemma SkipIsShorter(s: seq<Byte>)
    ensures |SkipLineEnd(s)| <= |s|
  {
  }

  lemma EmptyLineHasNoSize()
    ensures SizeOf([]) == 0
  {
  }

  // ---------------------------------------------------------------------------------------------
  // The encoding.
  // ---------------------------------------------------------------------------------------------

  /** A chunk and how its size line is written: digits, blanks, extension. */
  datatype Chunk = Chunk(data: seq<Byte>, digits: seq<Byte>, blanks: seq<Byte>, extension: seq<Byte>)

  function SizeLine(c: Chunk): seq<Byte> {
    c.digits + c.blanks + c.extension
  }

  /** Any hexadecimal spelling of the length, blanks, and any extension without a line end. */
  ghost predicate WellWritten(c: Chunk) {
    && c.digits != [] && AllHex(c.digits) && HexValue(c.digits) == |c.data| < 18446744073709551616
    && (forall i :: 0 <= i < |c.blanks| ==> c.blanks[i] == 32 || c.blanks[i] == 9)
    && (c.extension != [] ==> c.extension[0] == 59)
    && forall i :: !OccursAt(c.extension, [13, 10], i)
  }

  function HexFigure(d: nat, capital: bool): Byte
    requires d < 16
  {
    if d < 10 then 48 + d else if capital then 65 + (d - 10) else 97 + (d - 10)
  }

  /** `n` in base 16, with `zeros` zeros in front. */
  function HexText(n: nat, capital: bool, zeros: nat): seq<Byte> {
    if n >= 16 then HexText(n / 16, capital, zeros) + [HexFigure(n % 16, capital)]
    else seq(zeros, i => 48) + [HexFigure(n, capital)]
  }

  lemma {:induction false} HexTextIsWorth(n: nat, capital: bool, zeros: nat)
    ensures var s := HexText(n, capital, zeros); s != [] && AllHex(s) && HexValue(s) == n && s[0] != 43
    decreases n
  {
    var s := HexText(n, capital, zeros);
    var front := s[..|s| - 1];
    if n >= 16 {
      HexTextIsWorth(n / 16, capital, zeros);
      assert front == HexText(n / 16, capital, zeros);
    } else {
      assert front == seq(zeros, i => 48);
      ZerosAreWorthNothing(zeros);
    }
    assert HexDigit(s[|s| - 1]) == n % 16;
  }

  lemma {:induction false} ZerosAreWorthNothing(zeros: nat)
    ensures AllHex(seq(zeros, i => 48)) && HexValue(seq(zeros, i => 48)) == 0
  {
    if zeros > 0 {
      ZerosAreWorthNothing(zeros - 1);
      assert seq(zeros, i => 48 as Byte)[..zeros - 1] == seq(zeros - 1, i => 48 as Byte);
    }
  }

  /** A size is read from its hexadecimal figures, small or capital, zeros and a plus sign in front or not, as long as
      it is less than 2^64; anything else is no size. */
  lemma SizesAreRead(n: nat, capital: bool, zeros: nat, s: seq<Byte>)
    ensures var text := HexText(n, capital, zeros);
      ParseWord(text) == ParseWord([43] + text) == if n < 18446744073709551616 then Some(n) else None
    ensures s == [] || (exists i :: 0 < i < |s| && !IsHexDigit(s[i])) ==> ParseWord(s) == None
    ensures ParseWord([43]) == None
  {
    var text := HexText(n, capital, zeros);
    HexTextIsWorth(n, capital, zeros);
    assert ([43] + text)[1..] == text;
    if exists i :: 0 < i < |s| && !IsHexDigit(s[i]) {
      var i :| 0 < i < |s| && !IsHexDigit(s[i]);
      assert s[1..][i - 1] == s[i];
    }
  }

  function EncodeChunk(c: Chunk): seq<Byte> {
    SizeLine(c) + [13, 10] + c.data + [13, 10]
  }

  /** The chunks, then the last chunk (whose data is empty) and any trailer. */
  function Encode(chunks: seq<Chunk>, last: Chunk, trailer: seq<Byte>): seq<Byte> {
    if chunks == [] then SizeLine(last) + [13, 10] + trailer
    else EncodeChunk(chunks[0]) + Encode(chunks[1..], last, trailer)
  }

  function Message(chunks: seq<Chunk>): seq<Byte> {
    if chunks == [] then [] else chunks[0].data + Message(chunks[1..])
  }

  ghost predicate IsMessage(chunks: seq<Chunk>, last: Chunk) {
    && (forall i :: 0 <= i < |chunks| ==> WellWritten(chunks[i]) && chunks[i].data != [])
    && WellWritten(last) && last.data == []
  }

  // ---------------------------------------------------------------------------------------------
  // Reading back a size line.
  // ---------------------------------------------------------------------------------------------

  /** Trimming stops at an ASCII character that is not white space. */
  lemma {:induction false} TrimEndKeeps(kept: seq<Byte>, tail: seq<Byte>)
    requires kept != [] && TrailingSpace(kept) == 0 && kept[|kept| - 1] < 128
    ensures kept <= TrimEnd(kept + tail) <= kept + tail
    decreases |tail|
  {
    hide TrailingSpace;
    var s := kept + tail;
    var n := TrailingSpace(s);
    if tail == [] {
      assert s == kept;
    } else if n != 0 {
      assert s[|kept| - 1] == kept[|kept| - 1];
      assert s[..|s| - n] == kept + tail[..|tail| - n];
      TrimEndKeeps(kept, tail[..|tail| - n]);
    }
  }

  lemma {:induction false} TrimEndDrops(kept: seq<Byte>, blanks: seq<Byte>)
    requires TrailingSpace(kept) == 0 && forall i :: 0 <= i < |blanks| ==> blanks[i] == 32 || blanks[i] == 9
    ensures TrimEnd(kept + blanks) == kept
    decreases |blanks|
  {
    if blanks == [] {
      assert kept + blanks == kept;
    } else {
      assert (kept + blanks)[..|kept + blanks| - 1] == kept + blanks[..|blanks| - 1];
      TrimEndDrops(kept, blanks[..|blanks| - 1]);
    }
  }

  lemma {:induction false} CutAtSemicolon(before: seq<Byte>, after: seq<Byte>)
    requires forall i :: 0 <= i < |before| ==> before[i] != SEMICOLON
    requires after != [] ==> after[0] == SEMICOLON
    ensures BeforeSemicolon(before + after) == before
  {
    if before != [] {
      assert (before + after)[1..] == before[1..] + after;
      CutAtSemicolon(before[1..], after);
    }
  }

  lemma NoLeadingSpace(s: seq<Byte>)
    requires s != [] && IsHexDigit(s[0])
    ensures TrimStart(s) == s
  {
  }

  /** What is left of a size line after trimming and cutting at the semicolon: the digits and perhaps blanks. */
  lemma {:induction false} LineIsCut(c: Chunk)
    requires WellWritten(c)
    ensures var cut := BeforeSemicolon(Trim(SizeLine(c))); cut == c.digits || cut == c.digits + c.blanks
  {
    hide TrailingSpace, TrimEnd, TrimStart, BeforeSemicolon;
    NoLeadingSpace(SizeLine(c));
    if c.extension == [] {
      assert SizeLine(c) == c.digits + c.blanks;
      DigitsDoNotTrail(c.digits);
      TrimEndDrops(c.digits, c.blanks);
      CutAtSemicolon(c.digits, []);
      assert c.digits + [] == c.digits;
    } else {
      ExtensionIsCut(c.digits + c.blanks, c.extension[1..]);
      assert SizeLine(c) == c.digits + c.blanks + [SEMICOLON] + c.extension[1..];
    }
  }

  lemma ExtensionIsCut(plain: seq<Byte>, text: seq<Byte>)
    requires forall i :: 0 <= i < |plain| ==> plain[i] != SEMICOLON
    ensures BeforeSemicolon(TrimEnd(plain + [SEMICOLON] + text)) == plain
  {
    hide TrailingSpace, TrimEnd, BeforeSemicolon;
    var kept := plain + [SEMICOLON];
    SemicolonDoesNotTrail(plain);
    TrimEndKeeps(kept, text);
    var trimmed := TrimEnd(kept + text);
    assert trimmed[..|kept|] == kept;
    assert trimmed[|plain|] == kept[|plain|];
    assert trimmed == plain + trimmed[|plain|..];
    CutAtSemicolon(plain, trimmed[|plain|..]);
  }

  lemma DigitsDoNotTrail(s: seq<Byte>)
    requires s != [] && AllHex(s)
    ensures TrailingSpace(s) == 0
  {
  }

  lemma SemicolonDoesNotTrail(s: seq<Byte>)
    ensures TrailingSpace(s + [SEMICOLON]) == 0
  {
  }

  lemma SizeIsRead(c: Chunk)
    requires WellWritten(c)
    ensures SizeOf(SizeLine(c)) == |c.data|
  {
    hide TrailingSpace, TrimEnd, BeforeSemicolon;
    LineIsCut(c);
    DigitsDoNotTrail(c.digits);
    TrimEndDrops(c.digits, []);
    assert c.digits + [] == c.digits;
    TrimEndDrops(c.digits, c.blanks);
    NoLeadingSpace(c.digits);
    NoLeadingSpace(c.digits + c.blanks);
    assert ParseWord(c.digits) == Some(|c.data|);
  }

  /** The first line end of a chunk is the one after its size line. */
  lemma LineEndIsFound(c: Chunk, rest: seq<Byte>)
    requires WellWritten(c)
    ensures Find(SizeLine(c) + CRLF + rest, CRLF) == Some(|SizeLine(c)|)
  {
    var line := SizeLine(c);
    var s := line + CRLF + rest;
    assert OccursAt(s, CRLF, |line|);
    forall i | 0 <= i < |line|
      ensures !OccursAt(s, CRLF, i)
    {
      LineEndAt(s, i);
      if i + 1 < |line| {
        NoLineEndInside(c, i);
      }
    }
  }

  lemma LineEndAt(s: seq<Byte>, i: nat)
    ensures OccursAt(s, CRLF, i) <==> i + 1 < |s| && s[i] == CR && s[i + 1] == LF
  {
    if i + 1 < |s| {
      assert s[i..i + 2] == [s[i], s[i + 1]];
    }
  }

  lemma NoLineEndInside(c: Chunk, i: nat)
    requires WellWritten(c) && i + 1 < |SizeLine(c)|
    ensures !(SizeLine(c)[i] == CR && SizeLine(c)[i + 1] == LF)
  {
    var line, plain := SizeLine(c), c.digits + c.blanks;
    assert line == plain + c.extension;
    if i < |plain| {
      assert line[i] == plain[i] && plain[i] != CR;
    } else {
      var j := i - |plain|;
      assert !OccursAt(c.extension, CRLF, j);
      assert c.extension[j..j + 2] == [line[i], line[i + 1]];
    }
  }

  // ---------------------------------------------------------------------------------------------
  // Main results.
  // ---------------------------------------------------------------------------------------------

  lemma DecodeStep(data: seq<Byte>, i: nat, size: nat)
    requires Find(data, CRLF) == Some(i) && SizeOf(data[..i]) == size > 0 && i + 2 + size <= |data|
    ensures Decode(data) == data[i + 2..][..size] + Decode(SkipLineEnd(data[i + 2..][size..]))
  {
    hide SizeOf;
  }

  lemma ChunkParts(line: seq<Byte>, data: seq<Byte>, rest: seq<Byte>)
    ensures var s := line + CRLF + data + CRLF + rest;
      && s[..|line|] == line
      && s[|line| + 2..][..|data|] == data
      && SkipLineEnd(s[|line| + 2..][|data|..]) == rest
      && s == line + CRLF + (data + CRLF + rest)
  {
    var s := line + CRLF + data + CRLF + rest;
    assert s[|line| + 2..] == data + (CRLF + rest);
    assert (data + (CRLF + rest))[|data|..] == CRLF + rest;
    assert (CRLF + rest)[2..] == rest;
  }

  /** One chunk read off the front of what follows it. */
  lemma ChunkIsRead(c: Chunk, rest: seq<Byte>)
    requires WellWritten(c) && c.data != []
    ensures Decode(EncodeChunk(c) + rest) == c.data + Decode(rest)
  {
    hide SizeOf, WellWritten, Decode, SkipLineEnd;
    var line := SizeLine(c);
    ChunkParts(line, c.data, rest);
    LineEndIsFound(c, c.data + CRLF + rest);
    SizeIsRead(c);
    DecodeStep(EncodeChunk(c) + rest, |line|, |c.data|);
  }

  lemma {:induction false} LastChunkIsRead(last: Chunk, trailer: seq<Byte>)
    requires WellWritten(last) && last.data == []
    ensures Decode(SizeLine(last) + CRLF + trailer) == []
  {
    var line := SizeLine(last);
    LineEndIsFound(last, trailer);
    assert (line + CRLF + trailer)[..|line|] == line;
    SizeIsRead(last);
  }

  /** Decoding inverts encoding, whatever the data, the spelling of the sizes, the extensions and the trailer. */
  lemma {:induction false} DecodeInvertsEncode(chunks: seq<Chunk>, last: Chunk, trailer: seq<Byte>)
    requires IsMessage(chunks, last)
    ensures Decode(Encode(chunks, last, trailer)) == Message(chunks)
  {
    if chunks == [] {
      LastChunkIsRead(last, trailer);
    } else {
      ChunkIsRead(chunks[0], Encode(chunks[1..], last, trailer));
      DecodeInvertsEncode(chunks[1..], last, trailer);
    }
  }

  lemma FindInPrefix(data: seq<Byte>, n: nat)
    requires n <= |data|
    ensures Find(data[..n], CRLF)
            == if Find(data, CRLF).Some? && Find(data, CRLF).value + 2 <= n then Find(data, CRLF) else None
  {
    forall i
      ensures OccursAt(data[..n], CRLF, i) <==> OccursAt(data, CRLF, i) && i + 2 <= n
    {
      if 0 <= i && i + 2 <= n {
        assert data[..n][i..i + 2] == data[i..i + 2];
      }
    }
  }

  lemma TooShortForALine(s: seq<Byte>)
    requires |s| < 2
    ensures Decode(s) == []
  {
    assert forall i :: !OccursAt(s, CRLF, i);
  }

  /** What follows a chunk, cut short, decodes like some cut of what follows its line end. */
  lemma AfterChunk(tail: seq<Byte>, m: nat) returns (k: nat)
    requires m <= |tail|
    ensures k <= |SkipLineEnd(tail)| && Decode(SkipLineEnd(tail[..m])) == Decode(SkipLineEnd(tail)[..k])
  {
    hide Decode;
    var cut := tail[..m];
    if |tail| >= 2 && tail[..2] == CRLF {
      if m < 2 {
        TooShortForALine(cut);
        TooShortForALine([]);
        k := 0;
        assert !(CRLF <= cut);
      } else {
        assert cut[..2] == tail[..2];
        k := m - 2;
        assert cut[2..] == tail[2..][..k];
      }
    } else {
      k := m;
      if m >= 2 {
        assert cut[..2] == tail[..2];
      }
      assert SkipLineEnd(cut) == cut && SkipLineEnd(tail) == tail;
    }
  }

  /** The last chunk read: its size is zero, or more than there is. */
  lemma DecodeEnds(data: seq<Byte>, i: nat)
    requires Find(data, CRLF) == Some(i) && (SizeOf(data[..i]) == 0 || i + 2 + SizeOf(data[..i]) > |data|)
    ensures Decode(data) == if SizeOf(data[..i]) == 0 then [] else data[i + 2..]
  {
    hide SizeOf;
  }

  lemma NoLineNoData(data: seq<Byte>)
    requires Find(data, CRLF) == None
    ensures Decode(data) == []
  {
  }

  /** On any bytes at all, decoding a truncated input gives a prefix of what decoding the whole gives: nothing is made
      up, reordered or dropped inside. */
  lemma {:induction false} PrefixDecodes(data: seq<Byte>, n: nat)
    requires n <= |data|
    ensures Decode(data[..n]) <= Decode(data)
    decreases |data|
  {
    hide SizeOf, Decode, SkipLineEnd;
    FindInPrefix(data, n);
    var cut := data[..n];
    if Find(cut, CRLF).None? {
      NoLineNoData(cut);
    } else {
      var i := Find(cut, CRLF).value;
      assert cut[..i] == data[..i];
      var size, rest, m := SizeOf(data[..i]), data[i + 2..], n - i - 2;
      assert cut[i + 2..] == rest[..m];
      if size == 0 {
        DecodeEnds(cut, i);
      } else if m < size {
        DecodeEnds(cut, i);
        if |rest| < size {
          DecodeEnds(data, i);
        } else {
          DecodeStep(data, i, size);
          assert rest[..m] == rest[..size][..m];
        }
      } else {
        var k := AfterChunk(rest[size..], m - size);
        assert rest[..m][..size] == rest[..size] && rest[..m][size..] == rest[size..][..m - size];
        DecodeStep(cut, i, size);
        DecodeStep(data, i, size);
        SkipIsShorter(rest[size..]);
        PrefixDecodes(SkipLineEnd(rest[size..]), k);
      }
    }
  }

  /** In particular a truncated message decodes to a prefix of its data. */
  lemma TruncationIsSafe(chunks: seq<Chunk>, last: Chunk, trailer: seq<Byte>, n: nat)
    requires IsMessage(chunks, last) && n <= |Encode(chunks, last, trailer)|
    ensures Decode(Encode(chunks, last, trailer)[..n]) <= Message(chunks)
  {
    hide Decode, IsMessage;
    PrefixDecodes(Encode(chunks, last, trailer), n);
    DecodeInvertsEncode(chunks, last, trailer);
  }
}
