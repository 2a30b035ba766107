/** Percent-encoding of parameter values and its decoder, on the bytes of UTF-8 text. */
module PercentCoding {
  import opened Wrappers
  import opened Bytes
  import opened Utf8

  const PERCENT: Byte := 37
  const PLUS: Byte := 43
  const SPACE: Byte := 32

  predicate Unreserved(b: Byte) {
    65 <= b <= 90 || 97 <= b <= 122 || 48 <= b <= 57 || b == 45 || b == 95 || b == 46 || b == 126
  }

  function UpperHex(d: nat): (b: Byte)
    requires d < 16
  {
    if d < 10 then 48 + d else 55 + d
  }

  function EncodeByte(b: Byte): (r: seq<Byte>)
    ensures 1 <= |r| <= 3
  {
    if Unreserved(b) then [b] else [PERCENT, UpperHex(b / 16), UpperHex(b % 16)]
  }

  function Encode(s: seq<Byte>): seq<Byte> {
    if s == [] then [] else EncodeByte(s[0]) + Encode(s[1..])
  }

  /** The library's base-16 reading of two characters as a byte; it takes a leading plus sign. */
  function ParseByte(high: Byte, low: Byte): (r: Option<nat>)
    ensures r.Some? ==> r.value < 256
  {
    if !IsHexDigit(low) then None
    else if high == PLUS then Some(HexDigit(low))
    else if !IsHexDigit(high) then None
    else Some(16 * HexDigit(high) + HexDigit(low))
  }

  /** Decoding stops with a panic (`None`) when the two characters after a percent sign end inside a multi-byte
      character: text can be cut between characters only. */
  function DecodeBytes(s: seq<Byte>): Option<seq<Byte>>
    decreases |s|
  {
    if s == [] then Some([])
    else if s[0] == PERCENT && |s| > 3 && Continues(s[3]) then None
    else if s[0] == PERCENT && |s| > 2 && ParseByte(s[1], s[2]).Some? then
      Prepend([ParseByte(s[1], s[2]).value as Byte], DecodeBytes(s[3..]))
    else Prepend([if s[0] == PLUS then SPACE else s[0]], DecodeBytes(s[1..]))
  }

  /** The decoded bytes read as text, ill-formed parts replaced. */
  function Decode(s: seq<Byte>): Option<seq<Byte>> {
    var bytes := DecodeBytes(s);
    if bytes.None? then None else Some(Lossy(bytes.value))
  }

  function Prepend(out: seq<Byte>, tail: Option<seq<Byte>>): Option<seq<Byte>> {
    if tail.None? then None else Some(out + tail.value)
  }

  lemma EncodeStep(out: seq<Byte>, s: seq<Byte>, i: nat)
    requires i < |s|
    ensures out + Encode(s[i..]) == out + EncodeByte(s[i]) + Encode(s[i + 1..])
  {
    hide EncodeByte;
    assert s[i..][0] == s[i] && s[i..][1..] == s[i + 1..];
    assert out + (EncodeByte(s[i]) + Encode(s[i + 1..])) == out + EncodeByte(s[i]) + Encode(s[i + 1..]);
  }

  method PctEncode(s: seq<Byte>) returns (out: seq<Byte>)
    ensures out == Encode(s)
  {
    hide UpperHex, Unreserved, Encode;
    out := [];
    assert s[0..] == s && [] + Encode(s) == Encode(s);
    var i := 0;
    while i < |s|
      invariant 0 <= i <= |s| && Encode(s) == out + Encode(s[i..])
    {
      EncodeStep(out, s, i);
      out := out + if Unreserved(s[i]) then [s[i]] else [PERCENT, UpperHex(s[i] / 16), UpperHex(s[i] % 16)];
      i := i + 1;
    }
    NothingToEncode(s, i, out);
  }

  lemma NothingToEncode(s: seq<Byte>, i: nat, out: seq<Byte>)
    requires i == |s|
    ensures out + Encode(s[i..]) == out
  {
    assert s[i..] == [];
  }

  lemma {:induction false} DecodeStep(out: seq<Byte>, s: seq<Byte>)
    requires s != []
    ensures
      var cut := s[0] == PERCENT && |s| > 3 && Continues(s[3]);
      var escape := s[0] == PERCENT && |s| > 2 && ParseByte(s[1], s[2]).Some?;
      Prepend(out, DecodeBytes(s)) ==
        if cut then None
        else if escape then Prepend(out + [ParseByte(s[1], s[2]).value as Byte], DecodeBytes(s[3..]))
        else Prepend(out + [if s[0] == PLUS then SPACE else s[0]], DecodeBytes(s[1..]))
  {
    hide ParseByte, Continues;
    var cut := s[0] == PERCENT && |s| > 3 && Continues(s[3]);
    if !cut {
      if s[0] == PERCENT && |s| > 2 && ParseByte(s[1], s[2]).Some? {
        PrependOne(out, ParseByte(s[1], s[2]).value, DecodeBytes(s[3..]));
      } else {
        PrependOne(out, if s[0] == PLUS then SPACE else s[0], DecodeBytes(s[1..]));
      }
    }
  }

  lemma PrependOne(out: seq<Byte>, b: Byte, tail: Option<seq<Byte>>)
    ensures Prepend(out, Prepend([b], tail)) == Prepend(out + [b], tail)
  {
    if tail.Some? {
      assert out + ([b] + tail.value) == out + [b] + tail.value;
    }
  }

  method PctDecode(s: seq<Byte>) returns (r: Option<seq<Byte>>)
    ensures r == Decode(s)
  {
    hide ParseByte, Continues, DecodeBytes, Lossy;
    var out: seq<Byte> := [];
    var i := 0;
    assert s[0..] == s;
    EmptyPrepend(DecodeBytes(s));
    while i < |s|
      invariant 0 <= i <= |s| && DecodeBytes(s) == Prepend(out, DecodeBytes(s[i..]))
    {
      DecodeStep(out, s[i..]);
      if s[i] == PERCENT && i + 2 < |s| {
        if i + 3 < |s| && Continues(s[i + 3]) {
          assert s[i..][0] == s[i] && s[i..][3] == s[i + 3];
          return None;
        }
        var v := ParseByte(s[i + 1], s[i + 2]);
        if v.Some? {
          assert s[i..][3..] == s[i + 3..];
          out := out + [v.value as Byte];
          i := i + 3;
          continue;
        }
      }
      assert s[i..][1..] == s[i + 1..];
      out := out + [if s[i] == PLUS then SPACE else s[i]];
      i := i + 1;
    }
    assert s[i..] == [];
    NothingToDecodeBytes(out);
    r := Some(Lossy(out));
  }

  lemma EmptyPrepend(tail: Option<seq<Byte>>)
    ensures Prepend([], tail) == tail
  {
    assert tail.Some? ==> [] + tail.value == tail.value;
  }

  lemma NothingToDecodeBytes(out: seq<Byte>)
    ensures Prepend(out, DecodeBytes([])) == Some(out)
  {
    assert out + [] == out;
  }

  // ---------------------------------------------------------------------------------------------
  // Main results.
  // ---------------------------------------------------------------------------------------------

  /** What an encoding is made of: unreserved characters and percent signs, nothing that delimits a URL. */
  lemma {:induction false} EncodingIsPlain(s: seq<Byte>)
    ensures forall b :: b in Encode(s) ==> Unreserved(b) || b == PERCENT
  {
    if s != [] {
      EncodingIsPlain(s[1..]);
    }
  }

  lemma EncodedByteIsRead(b: Byte, tail: seq<Byte>)
    requires tail != [] ==> !Continues(tail[0])
    requires DecodeBytes(tail).Some?
    ensures DecodeBytes(EncodeByte(b) + tail) == Some([b] + DecodeBytes(tail).value)
  {
    var s := EncodeByte(b) + tail;
    assert s[|EncodeByte(b)|..] == tail;
    if !Unreserved(b) {
      assert ParseByte(UpperHex(b / 16), UpperHex(b % 16)) == Some(b);
      assert |s| > 3 ==> s[3] == tail[0];
    }
  }

  lemma {:induction false} EveryByteReturns(s: seq<Byte>)
    ensures DecodeBytes(Encode(s)) == Some(s)
  {
    if s != [] {
      EveryByteReturns(s[1..]);
      EncodingIsPlain(s[1..]);
      assert Encode(s[1..]) != [] ==> Encode(s[1..])[0] in Encode(s[1..]);
      EncodedByteIsRead(s[0], Encode(s[1..]));
      assert s == [s[0]] + s[1..];
    }
  }

  /** Decoding inverts encoding, for exactly the valid UTF-8 values; any other comes back with its ill-formed parts
      replaced. */
  lemma DecodeInvertsEncode(s: seq<Byte>)
    ensures Decode(Encode(s)) == Some(Lossy(s))
    ensures Decode(Encode(s)) == Some(s) <==> ValidUtf8(s)
  {
    hide Lossy, ValidUtf8, DecodeBytes;
    EveryByteReturns(s);
    LossyKeepsExactly(s);
  }

  /** Whatever is decoded, the result is valid UTF-8. */
  lemma DecodedIsText(s: seq<Byte>)
    ensures Decode(s).Some? ==> ValidUtf8(Decode(s).value)
  {
    if DecodeBytes(s).Some? {
      LossyIsValid(DecodeBytes(s).value);
    }
  }

  /** Encoding is injective, on all byte strings. */
  lemma EncodingIsInjective(s: seq<Byte>, t: seq<Byte>)
    requires Encode(s) == Encode(t)
    ensures s == t
  {
    EveryByteReturns(s);
    EveryByteReturns(t);
  }

  /** A percent sign whose two followers do not end at a character boundary. */
  predicate CutsCharacter(s: seq<Byte>, i: int) {
    0 <= i && i + 3 < |s| && s[i] == PERCENT && Continues(s[i + 3])
  }

  /** Decoding panics exactly when some percent sign of the text is followed, three bytes on, by the middle of a
      character. */
  lemma DecodePanicsExactly(s: seq<Byte>)
    ensures Decode(s) == None <==> exists i :: CutsCharacter(s, i)
  {
    hide DecodeBytes, Lossy;
    BytesPanicExactly(s);
  }

  lemma {:induction false} BytesPanicExactly(s: seq<Byte>)
    ensures DecodeBytes(s) == None <==> exists i :: CutsCharacter(s, i)
    decreases |s|
  {
    if s == [] {
    } else if CutsCharacter(s, 0) {
      assert DecodeBytes(s) == None;
    } else {
      var n := if s[0] == PERCENT && |s| > 2 && ParseByte(s[1], s[2]).Some? then 3 else 1;
      BytesPanicExactly(s[n..]);
      forall i
        ensures CutsCharacter(s, i + n) <==> CutsCharacter(s[n..], i) || (i < 0 && CutsCharacter(s, i + n))
      {
      }
      if exists i :: CutsCharacter(s, i) {
        var i :| CutsCharacter(s, i);
        assert i > 0;
        assert n == 3 ==> s[1] != PERCENT && s[2] != PERCENT;
        assert CutsCharacter(s[n..], i - n);
      }
      if exists i :: CutsCharacter(s[n..], i) {
        var i :| CutsCharacter(s[n..], i);
        assert CutsCharacter(s, i + n);
      }
    }
  }

  /** The panic is real: in the UTF-8 text of a percent sign, `a` and an accented `e`, the second character after the
      percent sign has two bytes, and the two characters taken would end between them. */
  lemma ValidTextCanPanic()
    ensures ValidUtf8([PERCENT, 97, 0xC3, 0xA9]) && Decode([PERCENT, 97, 0xC3, 0xA9]) == None
  {
    assert CutsCharacter([PERCENT, 97, 0xC3, 0xA9], 0);
    DecodePanicsExactly([PERCENT, 97, 0xC3, 0xA9]);
    OneMoreChar([0xC3, 0xA9], []);
    assert [0xC3, 0xA9] + [] == [0xC3, 0xA9];
    OneMoreChar([97], [0xC3, 0xA9]);
    OneMoreChar([PERCENT], [97, 0xC3, 0xA9]);
  }

  /** The unreserved characters of section 2.3 of RFC 3986. */
  predicate IsUnreserved(c: char) {
    || 'A' <= c <= 'Z' || 'a' <= c <= 'z' || '0' <= c <= '9'
    || c == '-' || c == '.' || c == '_' || c == '~'
  }

  /** Unreserved bytes stand for themselves; any other becomes a percent sign and two capital hexadecimal figures. */
  lemma BytesAreEncoded(b: Byte)
    ensures IsUnreserved(b as char) ==> Encode([b]) == [b]
    ensures !IsUnreserved(b as char) ==>
      Encode([b]) == [37, "0123456789ABCDEF"[b / 16] as Byte, "0123456789ABCDEF"[b % 16] as Byte]
  {
    assert [b][1..] == [] && Encode([b]) == EncodeByte(b) + Encode([]);
    FiguresAreCapital(b / 16);
    FiguresAreCapital(b % 16);
  }

  lemma FiguresAreCapital(d: nat)
    requires d < 16
    ensures UpperHex(d) as int == "0123456789ABCDEF"[d] as int
  {
  }

  /** Plus signs as blanks. */
  function Unplus(s: seq<Byte>): (r: seq<Byte>)
    ensures |r| == |s| && forall i :: 0 <= i < |s| ==> r[i] == if s[i] == 43 then 32 else s[i]
  {
    if s == [] then [] else [if s[0] == 43 then 32 else s[0]] + Unplus(s[1..])
  }

  /** Without percent signs, decoding turns plus signs into blanks and changes nothing else. */
  lemma {:induction false} PlainIsUnplussed(s: seq<Byte>)
    requires 37 !in s
    ensures DecodeBytes(s) == Some(Unplus(s))
  {
    if s != [] {
      assert s[0] in s && forall b :: b in s[1..] ==> b in s;
      PlainIsUnplussed(s[1..]);
    }
  }
}
