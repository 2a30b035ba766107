/** UTF-8 as byte strings, as in section 3 of RFC 3629, and the lossy reading that replaces what is not UTF-8. */
module Utf8 {
  import opened Bytes

  /** The length of the character a valid UTF-8 sequence starts with, or 0. */
  function CharLength(s: seq<Byte>): (n: nat)
    ensures n <= |s|
  {
    if s == [] then 0
    else if s[0] < 0x80 then 1
    else if 0xC2 <= s[0] < 0xE0 && |s| >= 2 && Continues(s[1]) then 2
    else if |s| >= 3 && OpensThree(s[0], s[1]) && Continues(s[2]) then 3
    else if |s| >= 4 && OpensFour(s[0], s[1]) && Continues(s[2]) && Continues(s[3]) then 4
    else 0
  }

  /** The first two bytes of a character of three, neither overlong nor a surrogate. */
  predicate OpensThree(a: Byte, b: Byte) {
    0xE0 <= a < 0xF0 && Continues(b) && (a == 0xE0 ==> b >= 0xA0) && (a == 0xED ==> b < 0xA0)
  }

  /** The first two bytes of a character of four, neither overlong nor beyond the last code point. */
  predicate OpensFour(a: Byte, b: Byte) {
    0xF0 <= a < 0xF5 && Continues(b) && (a == 0xF0 ==> b >= 0x90) && (a == 0xF4 ==> b < 0x90)
  }

  predicate ValidUtf8(s: seq<Byte>)
    decreases |s|
  {
    s == [] || (CharLength(s) > 0 && ValidUtf8(s[CharLength(s)..]))
  }

  const REPLACEMENT: seq<Byte> := [0xEF, 0xBF, 0xBD]

  /** How many bytes one replacement character stands for: the longest start of a character at the front, at least one
      byte. */
  function BadLength(s: seq<Byte>): (n: nat)
    requires s != [] && CharLength(s) == 0
    ensures 1 <= n <= |s|
  {
    if |s| >= 2 && OpensFour(s[0], s[1]) then if |s| >= 3 && Continues(s[2]) then 3 else 2
    else if |s| >= 2 && OpensThree(s[0], s[1]) then 2
    else 1
  }

  /** The text with every ill-formed part replaced. */
  function Lossy(s: seq<Byte>): seq<Byte>
    decreases |s|
  {
    if s == [] then []
    else if CharLength(s) > 0 then s[..CharLength(s)] + Lossy(s[CharLength(s)..])
    else REPLACEMENT + Lossy(s[BadLength(s)..])
  }

  lemma OneMoreChar(c: seq<Byte>, rest: seq<Byte>)
    requires c != [] && CharLength(c) == |c| && ValidUtf8(rest)
    ensures ValidUtf8(c + rest)
  {
    assert (c + rest)[|c|..] == rest;
    assert CharLength(c + rest) == |c|;
  }

  /** The lossy reading is valid UTF-8, whatever the bytes. */
  lemma {:induction false} LossyIsValid(s: seq<Byte>)
    ensures ValidUtf8(Lossy(s))
    decreases |s|
  {
    if s != [] {
      var n := CharLength(s);
      if n > 0 {
        LossyIsValid(s[n..]);
        OneMoreChar(s[..n], Lossy(s[n..]));
      } else {
        LossyIsValid(s[BadLength(s)..]);
        OneMoreChar(REPLACEMENT, Lossy(s[BadLength(s)..]));
      }
    }
  }

  /** It changes nothing exactly when the bytes are valid UTF-8. */
  lemma {:induction false} LossyKeepsExactly(s: seq<Byte>)
    ensures Lossy(s) == s <==> ValidUtf8(s)
    decreases |s|
  {
    LossyIsValid(s);
    if s != [] && CharLength(s) > 0 {
      LossyKeepsExactly(s[CharLength(s)..]);
      assert s == s[..CharLength(s)] + s[CharLength(s)..];
    }
  }

  // ---------------------------------------------------------------------------------------------
  // Code points.
  // ---------------------------------------------------------------------------------------------

  /** A code point that is a character: no surrogate, and not beyond U+10FFFF. */
  predicate IsScalar(n: nat) {
    n < 0xD800 || 0xE000 <= n < 0x110000
  }

  function Tail(n: nat): Byte {
    0x80 + n % 64
  }

  /** A character in UTF-8. */
  function CharBytes(n: nat): seq<Byte>
    requires IsScalar(n)
  {
    if n < 0x80 then [n]
    else if n < 0x800 then [0xC0 + n / 64, Tail(n)]
    else if n < 0x10000 then [0xE0 + n / 64 / 64, Tail(n / 64), Tail(n)]
    else [0xF0 + n / 64 / 64 / 64, Tail(n / 64 / 64), Tail(n / 64), Tail(n)]
  }

  lemma CharIsRead(n: nat, rest: seq<Byte>)
    requires IsScalar(n)
    ensures CharLength(CharBytes(n) + rest) == |CharBytes(n)|
  {
    var s := CharBytes(n) + rest;
    assert forall i :: 0 <= i < |CharBytes(n)| ==> s[i] == CharBytes(n)[i];
  }

  lemma Sextets(x: nat, y: nat)
    requires y < 64
    ensures (64 * x + y) / 64 == x && (64 * x + y) % 64 == y
  {
  }

  lemma TwoAreChar(a: int, b: int) returns (n: nat)
    requires 0xC2 <= a < 0xE0 && 0x80 <= b < 0xC0
    ensures IsScalar(n) && CharBytes(n) == [a, b]
  {
    n := 64 * (a - 0xC0) + (b - 0x80);
    Sextets(a - 0xC0, b - 0x80);
  }

  lemma ThreeAreChar(a: int, b: int, c: int) returns (n: nat)
    requires 0xE0 <= a < 0xF0 && 0x80 <= b < 0xC0 && 0x80 <= c < 0xC0
    requires (a == 0xE0 ==> b >= 0xA0) && (a == 0xED ==> b < 0xA0)
    ensures IsScalar(n) && CharBytes(n) == [a, b, c]
  {
    var m := 64 * (a - 0xE0) + (b - 0x80);
    n := 64 * m + (c - 0x80);
    Sextets(a - 0xE0, b - 0x80);
    Sextets(m, c - 0x80);
  }

  lemma FourAreChar(a: int, b: int, c: int, d: int) returns (n: nat)
    requires 0xF0 <= a < 0xF5 && 0x80 <= b < 0xC0 && 0x80 <= c < 0xC0 && 0x80 <= d < 0xC0
    requires (a == 0xF0 ==> b >= 0x90) && (a == 0xF4 ==> b < 0x90)
    ensures IsScalar(n) && CharBytes(n) == [a, b, c, d]
  {
    var l := 64 * (a - 0xF0) + (b - 0x80);
    var m := 64 * l + (c - 0x80);
    n := 64 * m + (d - 0x80);
    Sextets(a - 0xF0, b - 0x80);
    Sextets(l, c - 0x80);
    Sextets(m, d - 0x80);
  }

  lemma ReadIsChar(s: seq<Byte>) returns (n: nat)
    requires CharLength(s) > 0
    ensures IsScalar(n) && s[..CharLength(s)] == CharBytes(n)
  {
    hide CharBytes, IsScalar;
    var k := CharLength(s);
    if k == 1 {
      n := s[0];
      AsciiIsChar(n);
    } else if k == 2 {
      n := TwoAreChar(s[0], s[1]);
    } else if k == 3 {
      n := ThreeAreChar(s[0], s[1], s[2]);
    } else {
      n := FourAreChar(s[0], s[1], s[2], s[3]);
    }
  }

  lemma AsciiIsChar(n: Byte)
    requires n < 0x80
    ensures IsScalar(n) && CharBytes(n) == [n]
  {
  }

  /** `part` is the beginning of the character `n`. */
  predicate Begins(part: seq<Byte>, n: nat) {
    IsScalar(n) && part <= CharBytes(n)
  }

  lemma CharShape(n: nat)
    requires IsScalar(n)
    ensures var c := CharBytes(n);
      && 1 <= |c| <= 4 && (|c| == 1 ==> c[0] < 0x80)
      && (|c| == 2 ==> 0xC2 <= c[0] < 0xE0 && Continues(c[1]))
      && (|c| == 3 ==> OpensThree(c[0], c[1]) && Continues(c[2]))
      && (|c| == 4 ==> OpensFour(c[0], c[1]) && Continues(c[2]) && Continues(c[3]))
  {
  }

  lemma NoLonger(s: seq<Byte>, m: nat, n: nat)
    requires s != [] && CharLength(s) == 0 && BadLength(s) < m <= |s|
    ensures !Begins(s[..m], n)
  {
    hide CharBytes, IsScalar;
    if IsScalar(n) {
      CharShape(n);
      var c := CharBytes(n);
      if m <= |c| && s[..m] == c[..m] {
        assert forall i :: 0 <= i < m ==> s[i] == s[..m][i] == c[i];
      }
    }
  }

  /** One replacement character stands for the longest beginning of a character at the front, or for one byte. */
  lemma BadIsLongest(s: seq<Byte>)
    requires s != [] && CharLength(s) == 0
    ensures BadLength(s) == 1 || exists n :: Begins(s[..BadLength(s)], n)
    ensures forall m, n :: BadLength(s) < m <= |s| ==> !Begins(s[..m], n)
  {
    forall m, n | BadLength(s) < m <= |s|
      ensures !Begins(s[..m], n)
    {
      NoLonger(s, m, n);
    }
    hide CharBytes, IsScalar;
    if BadLength(s) > 1 {
      var n: nat;
      if OpensFour(s[0], s[1]) {
        n := FourAreChar(s[0], s[1], if BadLength(s) == 3 then s[2] else 0x80, 0x80);
      } else {
        n := ThreeAreChar(s[0], s[1], 0x80);
      }
      assert Begins(s[..BadLength(s)], n);
    }
  }

  function TextBytes(ns: seq<nat>): seq<Byte>
    requires forall i :: 0 <= i < |ns| ==> IsScalar(ns[i])
  {
    if ns == [] then [] else CharBytes(ns[0]) + TextBytes(ns[1..])
  }

  lemma {:induction false} TextIsValid(ns: seq<nat>)
    requires forall i :: 0 <= i < |ns| ==> IsScalar(ns[i])
    ensures ValidUtf8(TextBytes(ns))
  {
    hide CharBytes, CharLength;
    if ns != [] {
      TextIsValid(ns[1..]);
      CharIsRead(ns[0], TextBytes(ns[1..]));
      assert (CharBytes(ns[0]) + TextBytes(ns[1..]))[|CharBytes(ns[0])|..] == TextBytes(ns[1..]);
      CharIsSome(ns[0]);
    }
  }

  lemma CharIsSome(n: nat)
    requires IsScalar(n)
    ensures CharBytes(n) != []
  {
  }

  lemma {:induction false} ValidIsText(s: seq<Byte>) returns (ns: seq<nat>)
    requires ValidUtf8(s)
    ensures forall i :: 0 <= i < |ns| ==> IsScalar(ns[i])
    ensures TextBytes(ns) == s
    decreases |s|
  {
    hide CharBytes, CharLength;
    if s == [] {
      ns := [];
    } else {
      var n := ReadIsChar(s);
      var rest := ValidIsText(s[CharLength(s)..]);
      ns := [n] + rest;
      assert ns[1..] == rest && s == s[..CharLength(s)] + s[CharLength(s)..];
    }
  }

  /** Valid bytes are exactly the encodings of texts. */
  lemma ValidExactly(s: seq<Byte>)
    ensures ValidUtf8(s) <==> exists ns: seq<nat> :: IsTextOf(s, ns)
  {
    if ValidUtf8(s) {
      var ns := ValidIsText(s);
      assert IsTextOf(s, ns);
    }
    if exists ns: seq<nat> :: IsTextOf(s, ns) {
      var ns: seq<nat> :| IsTextOf(s, ns);
      TextIsValid(ns);
    }
  }

  ghost predicate IsTextOf(s: seq<Byte>, ns: seq<nat>) {
    (forall i :: 0 <= i < |ns| ==> IsScalar(ns[i])) && s == TextBytes(ns)
  }

  /** The characters with the Unicode property White_Space. */
  predicate IsWhiteSpace(n: nat) {
    || 0x09 <= n <= 0x0D || n == 0x20 || n == 0x85 || n == 0xA0 || n == 0x1680 || 0x2000 <= n <= 0x200A
    || n == 0x2028 || n == 0x2029 || n == 0x202F || n == 0x205F || n == 0x3000
  }

  /** Trimming takes a character off the front exactly if it is white space, and likewise off the end. */
  lemma SpacesAreTrimmed(n: nat, rest: seq<Byte>)
    requires IsScalar(n)
    ensures LeadingSpace(CharBytes(n) + rest) == if IsWhiteSpace(n) then |CharBytes(n)| else 0
    ensures TrailingSpace(rest + CharBytes(n)) == if IsWhiteSpace(n) then |CharBytes(n)| else 0
  {
    SpaceInFront(n, rest);
    SpaceAtEnd(rest, n);
  }

  lemma SpaceInFront(n: nat, rest: seq<Byte>)
    requires IsScalar(n)
    ensures LeadingSpace(CharBytes(n) + rest) == if IsWhiteSpace(n) then |CharBytes(n)| else 0
  {
    var c := CharBytes(n);
    var s := c + rest;
    assert forall i :: 0 <= i < |c| ==> s[i] == c[i];
    assert |s| >= 2 ==> s[..2] == [s[0], s[1]];
    assert |s| >= 3 ==> s[..3] == [s[0], s[1], s[2]];
  }

  lemma TrailingIs(s: seq<Byte>, last: Byte, two: bool, three: bool)
    requires s != [] && last == s[|s| - 1]
    requires two <==> |s| >= 2 && IsWideSpace(s[|s| - 2..])
    requires three <==> |s| >= 3 && IsWideSpace(s[|s| - 3..])
    ensures TrailingSpace(s) == if 9 <= last <= 13 || last == 32 then 1 else if two then 2 else if three then 3 else 0
  {
    hide IsWideSpace;
  }

  /** Only the bytes of the last character decide. */
  lemma SpaceAtEnd(rest: seq<Byte>, n: nat)
    requires IsScalar(n)
    ensures TrailingSpace(rest + CharBytes(n)) == if IsWhiteSpace(n) then |CharBytes(n)| else 0
  {
    hide IsWideSpace, CharBytes, IsScalar, IsWhiteSpace;
    var c := CharBytes(n);
    var s := rest + c;
    WideChars(n);
    assert s[|s| - 1] == c[|c| - 1] && s[|s| - |c|..] == c;
    if |s| >= 2 {
      WideEnds(s, c, 2);
    }
    if |s| >= 3 {
      WideEnds(s, c, 3);
    }
    var w := IsWideSpace(c);
    TrailingIs(s, c[|c| - 1], |c| == 2 && w, |c| == 3 && w);
  }

  lemma WideShape(w: seq<Byte>)
    requires IsWideSpace(w)
    ensures w[0] >= 0xC0 && forall i :: 0 < i < |w| ==> 0x80 <= w[i] < 0xC0
  {
  }

  /** A wide space at the end of a text is its last character. */
  lemma WideEnds(s: seq<Byte>, c: seq<Byte>, k: nat)
    requires c != [] && |c| <= |s| && s[|s| - |c|..] == c && (forall i :: 0 < i < |c| ==> 0x80 <= c[i] < 0xC0)
    requires (c[0] < 0x80 || c[0] >= 0xC0) && 0 < k <= |s|
    ensures IsWideSpace(s[|s| - k..]) <==> |c| == k && IsWideSpace(c)
  {
    hide IsWideSpace;
    var w := s[|s| - k..];
    if k < |c| {
      assert w[0] == c[|c| - k];
    } else if k > |c| {
      assert w[k - |c|] == c[0];
    }
    if IsWideSpace(w) {
      WideShape(w);
    }
  }

  lemma WideChars(n: nat)
    requires IsScalar(n)
    ensures var c := CharBytes(n);
      && (c[0] < 0x80 || c[0] >= 0xC0) && (forall i :: 0 < i < |c| ==> 0x80 <= c[i] < 0xC0)
      && 1 <= |c| <= 4
      && (|c| == 1 ==> (9 <= c[0] <= 13 || c[0] == 32 <==> IsWhiteSpace(n)))
      && (|c| == 2 || |c| == 3 ==> (IsWideSpace(c) <==> IsWhiteSpace(n)))
      && (|c| == 4 ==> !IsWhiteSpace(n))
  {
  }
}
