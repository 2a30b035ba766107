/** String literals beyond ASCII: the tokenizer turns each UTF-8 byte of a literal into a character of its own. */
module DslUnicode {
  import opened Wrappers
  import opened DslSyntax
  import opened DslLexer
  import opened DslLexis
  import opened DslPrinter

  function Byte(b: nat): char
    requires b < 256
  {
    b as char
  }

  /** The UTF-8 bytes of a character. */
  function Utf8(c: char): (bytes: string)
    ensures bytes == [c] <==> c < '\U{80}'
    ensures c >= '\U{80}' ==> |bytes| > 1 && forall i :: 0 <= i < |bytes| ==> bytes[i] >= '\U{80}'
  {
    var n := c as nat;
    if n < 0x80 then [c]
    else if n < 0x800 then [Byte(0xC0 + n / 0x40), Byte(0x80 + n % 0x40)]
    else if n < 0x10000 then [Byte(0xE0 + n / 0x1000), Byte(0x80 + n / 0x40 % 0x40), Byte(0x80 + n % 0x40)]
    else [Byte(0xF0 + n / 0x40000), Byte(0x80 + n / 0x1000 % 0x40), Byte(0x80 + n / 0x40 % 0x40), Byte(0x80 + n % 0x40)]
  }

  function Utf8All(s: string): (bytes: string)
    ensures |bytes| >= |s|
  {
    if s == [] then [] else Utf8(s[0]) + Utf8All(s[1..])
  }

  predicate IsAscii(s: string) {
    forall i :: 0 <= i < |s| ==> s[i] < '\U{80}'
  }

  lemma {:induction false} EncodingKeepsAsciiOnly(s: string)
    ensures Utf8All(s) == s <==> IsAscii(s)
    ensures !IsAscii(s) ==> |Utf8All(s)| > |s|
  {
    if s != [] {
      EncodingKeepsAsciiOnly(s[1..]);
      assert s == [s[0]] + s[1..];
      assert IsAscii(s) <==> s[0] < '\U{80}' && IsAscii(s[1..]) by {
        assert forall i :: 1 <= i < |s| ==> s[i] == s[1..][i - 1];
      }
      assert Utf8(s[0]) == [s[0]] ==> Utf8All(s)[1..] == Utf8All(s[1..]);
    }
  }

  lemma {:induction false} EscapeSplits(a: string, b: string)
    ensures Escape(a + b) == Escape(a) + Escape(b)
  {
    if a == [] {
      assert a + b == b;
    } else {
      assert (a + b)[0] == a[0] && (a + b)[1..] == a[1..] + b;
      EscapeSplits(a[1..], b);
    }
  }

  lemma {:induction false} EscapeKeeps(s: string)
    requires forall i :: 0 <= i < |s| ==> s[i] >= '\U{80}'
    ensures Escape(s) == s
  {
    if s != [] {
      EscapeKeeps(s[1..]);
      assert s == [s[0]] + s[1..];
    }
  }

  lemma {:induction false} EncodingSplits(a: string, b: string)
    ensures Utf8All(a + b) == Utf8All(a) + Utf8All(b)
  {
    if a == [] {
      assert a + b == b;
    } else {
      assert (a + b)[0] == a[0] && (a + b)[1..] == a[1..] + b;
      EncodingSplits(a[1..], b);
    }
  }

  /** Escaping and encoding commute, because only ASCII characters are escaped, by ASCII ones. */
  lemma {:induction false} EscapeThenEncode(s: string)
    ensures Utf8All(Escape(s)) == Escape(Utf8All(s))
  {
    if s != [] {
      EscapeThenEncode(s[1..]);
      EncodingSplits(EscapeChar(s[0]), Escape(s[1..]));
      EscapeSplits(Utf8(s[0]), Utf8All(s[1..]));
      EscapeThenEncodeChar(s[0]);
    }
  }

  lemma EscapeThenEncodeChar(c: char)
    ensures Utf8All(EscapeChar(c)) == Escape(Utf8(c))
  {
    assert Utf8All([c]) == Utf8(c) + Utf8All([]) == Utf8(c);
    if c >= '\U{80}' {
      EscapeKeeps(Utf8(c));
    } else {
      EncodingKeepsAsciiOnly(EscapeChar(c));
      assert Escape([c]) == EscapeChar(c) + Escape([]) == EscapeChar(c);
    }
  }

  /** The UTF-8 text of a quoted string tokenizes to that string exactly when the string is ASCII. */
  lemma {:induction false} QuotedTextRoundTrips(text: string)
    ensures Lex("\"" + Utf8All(Escape(text)) + "\"") == Some([Str(text)]) <==> IsAscii(text)
  {
    EscapeThenEncode(text);
    var bytes := Utf8All(text);
    var s := "\"" + Escape(bytes) + "\"";
    LiteralIsToken(bytes, []);
    assert s + [] == s && s[|s|..] == [];
    assert Lex(s[|s|..]) == Some([]);
    assert Lex(s) == Some([Str(bytes)] + []);
    assert [Str(bytes)] + [] == [Str(bytes)];
    EncodingKeepsAsciiOnly(text);
    assert [Str(bytes)][0] == Str(bytes) && [Str(text)][0] == Str(text);
  }
}
