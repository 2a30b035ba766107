/** Byte strings and the search both wire parsers and URL helpers are built on. */
module Bytes {
  import opened Wrappers

  type Byte = b: int | 0 <= b < 256

  predicate IsHexDigit(b: Byte) {
    48 <= b <= 57 || 65 <= b <= 70 || 97 <= b <= 102
  }

  function HexDigit(b: Byte): (d: nat)
    requires IsHexDigit(b)
    ensures d < 16
  {
    if b <= 57 then b - 48 else if b <= 70 then b - 55 else b - 87
  }

  /** A byte that continues a multi-byte character. */
  predicate Continues(b: Byte) {
    0x80 <= b < 0xC0
  }

  predicate OccursAt<T(==)>(hay: seq<T>, needle: seq<T>, i: int) {
    0 <= i && i + |needle| <= |hay| && hay[i..i + |needle|] == needle
  }

  /** The first position of `needle`, from position `from` on. */
  function FindFrom<T(==)>(hay: seq<T>, needle: seq<T>, from: nat): (r: Option<nat>)
    requires from <= |hay|
    ensures r.Some? ==> from <= r.value && OccursAt(hay, needle, r.value)
    ensures forall i :: from <= i && OccursAt(hay, needle, i) ==> r.Some? && r.value <= i
    decreases |hay| - from
  {
    if from + |needle| > |hay| then None
    else if OccursAt(hay, needle, from) then Some(from)
    else if from == |hay| then None
    else FindFrom(hay, needle, from + 1)
  }

  /** The first position of a non-empty `needle`; an empty one is never found. */
  function Find<T(==)>(hay: seq<T>, needle: seq<T>): (r: Option<nat>)
    ensures r.Some? ==> needle != [] && OccursAt(hay, needle, r.value)
    ensures needle != [] ==> forall i :: OccursAt(hay, needle, i) ==> r.Some? && r.value <= i
  {
    if needle == [] then None else FindFrom(hay, needle, 0)
  }

  // ---------------------------------------------------------------------------------------------
  // Trimming.
  // ---------------------------------------------------------------------------------------------

  /** The length of the white-space character (Unicode White_Space, in UTF-8) at the front of `s`, or 0. */
  function LeadingSpace(s: seq<Byte>): (n: nat)
    ensures n <= |s|
  {
    if s == [] then 0
    else if 9 <= s[0] <= 13 || s[0] == 32 then 1
    else if |s| >= 2 && IsWideSpace(s[..2]) then 2
    else if |s| >= 3 && IsWideSpace(s[..3]) then 3
    else 0
  }

  /** The same at the end of `s`; a character of more than one byte has no ASCII byte. */
  function TrailingSpace(s: seq<Byte>): (n: nat)
    ensures n <= |s|
    ensures n <= 1 || forall i :: |s| - n <= i < |s| ==> s[i] >= 128
  {
    if s == [] then 0
    else if 9 <= s[|s| - 1] <= 13 || s[|s| - 1] == 32 then 1
    else if |s| >= 2 && IsWideSpace(s[|s| - 2..]) then NoAsciiAtEnd(s, 2); 2
    else if |s| >= 3 && IsWideSpace(s[|s| - 3..]) then NoAsciiAtEnd(s, 3); 3
    else 0
  }

  lemma NoAsciiAtEnd(s: seq<Byte>, n: nat)
    requires n <= |s| && IsWideSpace(s[|s| - n..])
    ensures forall i :: |s| - n <= i < |s| ==> s[i] >= 128
  {
    hide IsWideSpace;
    WideIsNotAscii(s[|s| - n..]);
    assert forall i :: |s| - n <= i < |s| ==> s[i] == s[|s| - n..][i - (|s| - n)];
  }

  lemma WideIsNotAscii(w: seq<Byte>)
    requires IsWideSpace(w)
    ensures forall i :: 0 <= i < |w| ==> w[i] >= 128
  {
  }

  /** The white-space characters beyond ASCII. */
  predicate IsWideSpace(s: seq<Byte>) {
    || s == [0xC2, 0x85] || s == [0xC2, 0xA0] || s == [0xE1, 0x9A, 0x80]
    || (|s| == 3 && s[0] == 0xE2 && s[1] == 0x80
        && (0x80 <= s[2] <= 0x8A || s[2] == 0xA8 || s[2] == 0xA9 || s[2] == 0xAF))
    || s == [0xE2, 0x81, 0x9F] || s == [0xE3, 0x80, 0x80]
  }

  function TrimStart(s: seq<Byte>): seq<Byte>
    decreases |s|
  {
    if LeadingSpace(s) == 0 then s else TrimStart(s[LeadingSpace(s)..])
  }

  function TrimEnd(s: seq<Byte>): seq<Byte>
    decreases |s|
  {
    if TrailingSpace(s) == 0 then s else TrimEnd(s[..|s| - TrailingSpace(s)])
  }

  function Trim(s: seq<Byte>): seq<Byte> {
    TrimEnd(TrimStart(s))
  }
}
