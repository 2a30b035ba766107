/**
 The tokenizer. The text is a sequence of characters, each standing for one byte of the UTF-8 input,
 which is how the tokenizer itself reads it.
 */
module DslLexer {
  import opened Wrappers
  import opened DslSyntax
  import opened DslLexis

  predicate IsSpace(c: char) {
    c == ' ' || c == '\t' || c == '\n' || c == '\r' || c == '\U{0C}'
  }

  predicate IsNumChar(c: char) {
    IsDigit(c) || c == '.'
  }

  predicate IsIdentStart(c: char) {
    c == '_' || 'a' <= c <= 'z' || 'A' <= c <= 'Z'
  }

  predicate IsIdentChar(c: char) {
    IsIdentStart(c) || IsDigit(c)
  }

  // ---------------------------------------------------------------------------------------------
  // String literals.
  // ---------------------------------------------------------------------------------------------

  function Unescape(c: char): char {
    if c == 'n' then '\n' else if c == 't' then '\t' else if c == 'r' then '\r' else c
  }

  datatype Literal = Literal(text: string, length: nat)

  /** The body of a literal opened by `quote`, with the number of characters up to and including its closing quote. */
  function LexLiteral(s: string, quote: char): (r: Option<Literal>)
    ensures r.Some? ==> 0 < r.value.length <= |s|
  {
    if s == [] then None
    else if s[0] == quote then Some(Literal([], 1))
    else if s[0] == '\\' && |s| > 1 then Resume([Unescape(s[1])], 2, LexLiteral(s[2..], quote))
    else Resume([s[0]], 1, LexLiteral(s[1..], quote))
  }

  /** `lit` and the `used` characters already read for it, put in front of what `tail` yields. */
  function Resume(lit: string, used: nat, tail: Option<Literal>): Option<Literal> {
    if tail.None? then None else Some(Literal(lit + tail.value.text, used + tail.value.length))
  }

  // ---------------------------------------------------------------------------------------------
  // The tokenizer.
  // ---------------------------------------------------------------------------------------------

  datatype Lexed = Lexed(tok: Tok, length: nat)

  /** The operator or punctuation mark at the front of `s`. */
  function LexMark(s: string): (r: Option<Lexed>)
    requires s != []
    ensures r.Some? ==> 0 < r.value.length <= |s|
  {
    var c := s[0];
    var next := if |s| > 1 then s[1] else ' ';
    if c == '=' && next == '=' then Some(Lexed(EqEq, 2))
    else if c == '!' && next == '=' then Some(Lexed(NotEq, 2))
    else if c == '<' && next == '=' then Some(Lexed(Le, 2))
    else if c == '>' && next == '=' then Some(Lexed(Ge, 2))
    else if c == '&' && next == '&' then Some(Lexed(AndAnd, 2))
    else if c == '|' && next == '|' then Some(Lexed(OrOr, 2))
    else if c == '<' then Some(Lexed(Lt, 1))
    else if c == '>' then Some(Lexed(Gt, 1))
    else if c == '!' then Some(Lexed(Bang, 1))
    else if c == '+' then Some(Lexed(Plus, 1))
    else if c == '-' then Some(Lexed(Minus, 1))
    else if c == '*' then Some(Lexed(Star, 1))
    else if c == '/' then Some(Lexed(Slash, 1))
    else if c == '(' then Some(Lexed(LParen, 1))
    else if c == ')' then Some(Lexed(RParen, 1))
    else if c == ',' then Some(Lexed(Comma, 1))
    else None
  }

  /** The token at the front of `s`, which does not begin with white space. */
  function LexOne(s: string): (r: Option<Lexed>)
    requires s != []
    ensures r.Some? ==> 0 < r.value.length <= |s|
  {
    var c := s[0];
    if c == '"' || c == '\'' then
      var lit := LexLiteral(s[1..], c);
      if lit.None? then None else Some(Lexed(Str(lit.value.text), 1 + lit.value.length))
    else if IsDigit(c) then
      var n := Span(IsNumChar, s);
      var v := DecimalValue(s[..n]);
      if v.None? then None else Some(Lexed(Num(v.value), n))
    else if IsIdentStart(c) then
      var n := Span(IsIdentChar, s);
      Some(Lexed(Ident(s[..n]), n))
    else LexMark(s)
  }

  function Lex(s: string): Option<seq<Tok>> {
    if s == [] then Some([])
    else if IsSpace(s[0]) then Lex(s[1..])
    else
      var one := LexOne(s);
      if one.None? then None
      else
        var tail := Lex(s[one.value.length..]);
        if tail.None? then None else Some([one.value.tok] + tail.value)
  }

  // ---------------------------------------------------------------------------------------------
  // One token of the lexical grammar.
  // ---------------------------------------------------------------------------------------------

  lemma {:induction false} BodyIsRead(body: string, quote: char, text: string, rest: string)
    requires IsBody(body, quote, text) && quote != '\\'
    ensures LexLiteral(body + [quote] + rest, quote) == Some(Literal(text, |body| + 1))
    decreases |body|
  {
    var s := body + [quote] + rest;
    if body == [] {
      assert s[0] == quote;
    } else {
      var n := if body[0] == '\\' then 2 else 1;
      BodyIsRead(body[n..], quote, text[1..], rest);
      assert s[n..] == body[n..] + [quote] + rest;
      assert text == [text[0]] + text[1..];
    }
  }

  lemma {:induction false} ReadIsBody(s: string, quote: char)
    requires LexLiteral(s, quote).Some?
    ensures var lit := LexLiteral(s, quote).value;
      && lit.length > 0 && s[lit.length - 1] == quote && IsBody(s[..lit.length - 1], quote, lit.text)
    decreases |s|
  {
    var lit := LexLiteral(s, quote).value;
    if s[0] != quote {
      var n := if s[0] == '\\' && |s| > 1 then 2 else 1;
      ReadIsBody(s[n..], quote);
      var tail := LexLiteral(s[n..], quote).value;
      assert lit.length == n + tail.length && lit.text[1..] == tail.text;
      assert s[..lit.length - 1][n..] == s[n..][..tail.length - 1];
    }
  }

  lemma SpanOf(p: char -> bool, s: string, i: nat)
    requires i <= |s| && (forall c :: c in s[..i] ==> p(c)) && (i < |s| ==> !p(s[i]))
    ensures Span(p, s) == i
  {
    forall j | 0 <= j < i
      ensures p(s[j])
    {
      assert s[..i][j] in s[..i];
    }
  }

  /** A stretch of text that spells a token and ends where the token does is read as that token. */
  lemma SpelledIsRead(t: Tok, s: string, i: nat)
    requires 0 < i <= |s| && Spells(t, s[..i]) && !RunsOn(t, s[i..])
    ensures !White(s[0]) && LexOne(s) == Some(Lexed(t, i))
  {
    var a := s[..i];
    assert s[0] == a[0];
    assert forall j :: 0 <= j < i ==> s[j] == a[j];
    assert i < |s| ==> s[i..][0] == s[i];
    match t
    case Num(v) => SpanOf(IsNumChar, s, i);
    case Str(text) => QuotedIsRead(s, i, text);
    case Ident(name) => SpanOf(IsIdentChar, s, i);
    case _ =>
  }

  lemma QuotedIsRead(s: string, i: nat, text: string)
    requires 0 < i <= |s| && (IsQuoted(s[..i], '"', text) || IsQuoted(s[..i], '\'', text))
    ensures !White(s[0]) && LexOne(s) == Some(Lexed(Str(text), i))
  {
    var quote := s[0];
    var body := s[..i][1..i - 1];
    assert s[1..] == body + [quote] + s[i..];
    BodyIsRead(body, quote, text, s[i..]);
  }

  /** Whatever is read as a token spells it and ends where the token does. */
  lemma ReadIsSpelled(s: string)
    requires s != [] && LexOne(s).Some?
    ensures var one := LexOne(s).value; Spells(one.tok, s[..one.length]) && !RunsOn(one.tok, s[one.length..])
  {
    var c, one := s[0], LexOne(s).value;
    var a := s[..one.length];
    assert a[0] == c && forall j :: 0 <= j < one.length ==> a[j] == s[j];
    if c == '"' || c == '\'' {
      ReadIsBody(s[1..], c);
      assert a[1..|a| - 1] == s[1..][..one.length - 2];
    } else if IsDigit(c) {
      assert one.length < |s| ==> s[one.length..][0] == s[one.length];
    } else if IsIdentStart(c) {
      assert one.length < |s| ==> s[one.length..][0] == s[one.length];
    } else {
      MarkIsSpelled(s);
    }
  }

  lemma MarkIsSpelled(s: string)
    requires s != [] && LexMark(s).Some?
    ensures var one := LexMark(s).value;
      && s[..one.length] == MarkText(one.tok) && MarkText(one.tok) != "" && !RunsOn(one.tok, s[one.length..])
  {
    var one := LexMark(s).value;
    assert s[..1] == [s[0]];
    assert |s| > 1 ==> s[..2] == [s[0], s[1]];
    assert one.length < |s| ==> s[one.length..][0] == s[one.length];
  }

  // ---------------------------------------------------------------------------------------------
  // The tokenizer is the lexical grammar.
  // ---------------------------------------------------------------------------------------------

  lemma WhereItEnds(s: string, ts: seq<Tok>) returns (i: nat)
    requires s != [] && !White(s[0]) && Tokenizes(s, ts)
    ensures ts != [] && TokenEnds(s, ts, i)
  {
    i :| TokenEnds(s, ts, i);
  }

  /** The tokenizer yields exactly the tokens the text consists of, and fails exactly when there are none. */
  lemma {:induction false} LexerIsGrammar(s: string, ts: seq<Tok>)
    ensures Lex(s) == Some(ts) <==> Tokenizes(s, ts)
    decreases |s|
  {
    hide LexOne, Spells, RunsOn;
    if s != [] {
      assert White(s[0]) == IsSpace(s[0]);
      if White(s[0]) {
        LexerIsGrammar(s[1..], ts);
      } else {
        if Lex(s) == Some(ts) {
          var i := LexOne(s).value.length;
          ReadIsSpelled(s);
          assert ts[1..] == Lex(s[i..]).value;
          LexerIsGrammar(s[i..], ts[1..]);
          assert TokenEnds(s, ts, i);
        }
        if Tokenizes(s, ts) {
          var i := WhereItEnds(s, ts);
          SpelledIsRead(ts[0], s, i);
          LexerIsGrammar(s[i..], ts[1..]);
          assert ts == [ts[0]] + ts[1..];
        }
      }
    }
  }

  lemma LexedExactly(s: string)
    ensures forall ts :: Lex(s) == Some(ts) <==> Tokenizes(s, ts)
  {
    forall ts
      ensures Lex(s) == Some(ts) <==> Tokenizes(s, ts)
    {
      LexerIsGrammar(s, ts);
    }
  }

  // ---------------------------------------------------------------------------------------------
  // The loops.
  // ---------------------------------------------------------------------------------------------

  /** `toks` put in front of what `tail` yields. */
  function Prepend(toks: seq<Tok>, tail: Option<seq<Tok>>): Option<seq<Tok>> {
    if tail.None? then None else Some(toks + tail.value)
  }

  method TakeWhile(p: char -> bool, s: string, start: nat) returns (i: nat)
    requires start <= |s|
    ensures i == start + Span(p, s[start..])
  {
    i := start;
    while i < |s| && p(s[i])
      invariant start <= i <= |s|
      invariant start + Span(p, s[start..]) == i + Span(p, s[i..])
    {
      i := i + 1;
    }
  }

  lemma ResumeStep(lit: string, used: nat, s: string, quote: char)
    requires s != [] && s[0] != quote
    ensures s[0] == '\\' && |s| > 1 ==>
      Resume(lit, used, LexLiteral(s, quote)) == Resume(lit + [Unescape(s[1])], used + 2, LexLiteral(s[2..], quote))
    ensures !(s[0] == '\\' && |s| > 1) ==>
      Resume(lit, used, LexLiteral(s, quote)) == Resume(lit + [s[0]], used + 1, LexLiteral(s[1..], quote))
  {
    var escaped := s[0] == '\\' && |s| > 1;
    var c := if escaped then Unescape(s[1]) else s[0];
    var tail := if escaped then LexLiteral(s[2..], quote) else LexLiteral(s[1..], quote);
    if tail.Some? {
      assert lit + ([c] + tail.value.text) == lit + [c] + tail.value.text;
    }
  }

  method ReadLiteral(s: string, start: nat) returns (r: Option<string>, i: nat)
    requires start < |s|
    ensures match LexLiteral(s[start + 1..], s[start])
            case None => r.None?
            case Some(lit) => r == Some(lit.text) && i == start + 1 + lit.length
  {
    var quote := s[start];
    i := start + 1;
    ghost var whole := LexLiteral(s[i..], quote);
    var lit := "";
    assert whole.Some? ==> lit + whole.value.text == whole.value.text;
    while i < |s| && s[i] != quote
      invariant start < i <= |s|
      invariant whole == Resume(lit, i - start - 1, LexLiteral(s[i..], quote))
    {
      ResumeStep(lit, i - start - 1, s[i..], quote);
      var escaped := s[i] == '\\' && i + 1 < |s|;
      if escaped {
        assert s[i..][2..] == s[i + 2..];
        lit, i := lit + [Unescape(s[i + 1])], i + 2;
      } else {
        assert s[i..][1..] == s[i + 1..];
        lit, i := lit + [s[i]], i + 1;
      }
    }
    if i >= |s| {
      return None, i;
    }
    i := i + 1;
    r := Some(lit);
    assert lit + [] == lit;
  }

  lemma TokenizeStep(out: seq<Tok>, s: string)
    requires s != []
    ensures IsSpace(s[0]) ==> Lex(s) == Lex(s[1..])
    ensures !IsSpace(s[0]) && LexOne(s).None? ==> Lex(s).None?
    ensures !IsSpace(s[0]) && LexOne(s).Some? ==>
      var one := LexOne(s).value; Prepend(out, Lex(s)) == Prepend(out + [one.tok], Lex(s[one.length..]))
  {
    if !IsSpace(s[0]) && LexOne(s).Some? {
      var one := LexOne(s).value;
      var tail := Lex(s[one.length..]);
      if tail.Some? {
        assert out + ([one.tok] + tail.value) == out + [one.tok] + tail.value;
      }
    }
  }

  /** One token read at `from`, which does not begin with white space. */
  method ReadToken(s: string, from: nat) returns (r: Option<Tok>, i: nat)
    requires from < |s|
    ensures match LexOne(s[from..])
            case None => r.None?
            case Some(one) => r == Some(one.tok) && i == from + one.length
  {
    var c := s[from];
    i := from;
    if c == '"' || c == '\'' {
      assert s[from..][1..] == s[from + 1..];
      var lit, after := ReadLiteral(s, from);
      r, i := if lit.None? then None else Some(Str(lit.value)), after;
    } else if IsDigit(c) {
      var after := TakeWhile(IsNumChar, s, from);
      assert s[from..][..after - from] == s[from..after];
      var v := DecimalValue(s[from..after]);
      r, i := if v.None? then None else Some(Num(v.value)), after;
    } else if IsIdentStart(c) {
      var after := TakeWhile(IsIdentChar, s, from);
      assert s[from..][..after - from] == s[from..after];
      r, i := Some(Ident(s[from..after])), after;
    } else {
      var mark := LexMark(s[from..]);
      if mark.None? { return None, from; }
      r, i := Some(mark.value.tok), from + mark.value.length;
    }
  }

  method Tokenize(s: string) returns (r: Option<seq<Tok>>)
    ensures r == Lex(s)
    ensures forall ts :: r == Some(ts) <==> Tokenizes(s, ts)
  {
    var i: nat, out: seq<Tok> := 0, [];
    LexedExactly(s);
    assert s[0..] == s;
    assert Lex(s).Some? ==> out + Lex(s).value == Lex(s).value;
    while i < |s|
      invariant i <= |s|
      invariant Lex(s) == Prepend(out, Lex(s[i..]))
    {
      TokenizeStep(out, s[i..]);
      if IsSpace(s[i]) {
        assert s[i..][1..] == s[i + 1..];
        i := i + 1;
        continue;
      }
      var tok, after := ReadToken(s, i);
      if tok.None? { return None; }
      assert s[i..][after - i..] == s[after..];
      i, out := after, out + [tok.value];
    }
    assert out + [] == out;
    r := Some(out);
  }
}
