/**
 The lexical grammar of the expression language, as a relation between texts and token lists: which stretches of text
 spell which token, and where a token ends.
 */
module DslLexis {
  import opened Wrappers
  import opened DslSyntax

  /** How many leading characters satisfy `p`. */
  function Span(p: char -> bool, s: string): (n: nat)
    ensures n <= |s|
    ensures forall i :: 0 <= i < n ==> p(s[i])
    ensures n < |s| ==> !p(s[n])
  {
    if s == [] || !p(s[0]) then 0 else 1 + Span(p, s[1..])
  }

  // ---------------------------------------------------------------------------------------------
  // Numbers: decimal lexemes and the exact value they denote.
  // ---------------------------------------------------------------------------------------------

  predicate IsDigit(c: char) {
    '0' <= c <= '9'
  }

  function DigitValue(c: char): (d: nat)
    requires IsDigit(c)
    ensures d < 10
  {
    c as nat - '0' as nat
  }

  function Pow10(k: nat): (r: nat)
    ensures r > 0
  {
    if k == 0 then 1 else 10 * Pow10(k - 1)
  }

  predicate AllDigits(s: string) {
    forall c :: c in s ==> IsDigit(c)
  }

  function NatOf(s: string): nat
    requires AllDigits(s)
  {
    if s == [] then 0 else 10 * NatOf(s[..|s| - 1]) + DigitValue(s[|s| - 1])
  }

  /** The value of a run of digits and dots, if it has at most one dot. */
  function DecimalValue(s: string): Option<real>
    requires forall c :: c in s ==> IsDigit(c) || c == '.'
  {
    var i := Span(IsDigit, s);
    if i == |s| then Some(NatOf(s) as real)
    else if !AllDigits(s[i + 1..]) then None
    else Some(NatOf(s[..i] + s[i + 1..]) as real / Pow10(|s| - i - 1) as real)
  }

  // ---------------------------------------------------------------------------------------------
  // What spells a token, and where it ends.
  // ---------------------------------------------------------------------------------------------

  predicate White(c: char) {
    c == ' ' || c == '\t' || c == '\n' || c == '\r' || c == '\U{0C}'
  }

  predicate Letter(c: char) {
    'a' <= c <= 'z' || 'A' <= c <= 'Z' || c == '_'
  }

  predicate IsName(s: string) {
    s != [] && Letter(s[0]) && forall c :: c in s ==> Letter(c) || IsDigit(c)
  }

  /** Figures, and at most one point, not in front. */
  predicate IsNumeral(s: string, v: real) {
    && s != [] && IsDigit(s[0]) && (forall c :: c in s ==> IsDigit(c) || c == '.')
    && DecimalValue(s) == Some(v)
  }

  /** What the character behind a backslash stands for. */
  function Meant(c: char): char {
    match c
    case 'n' => '\n'
    case 't' => '\t'
    case 'r' => '\r'
    case _ => c
  }

  /** `body` is one way to write `text` between two quotes `quote`. */
  predicate IsBody(body: string, quote: char, text: string) {
    if body == [] then text == []
    else if text == [] then false
    else if body[0] == '\\' then |body| > 1 && text[0] == Meant(body[1]) && IsBody(body[2..], quote, text[1..])
    else body[0] != quote && text[0] == body[0] && IsBody(body[1..], quote, text[1..])
  }

  predicate IsQuoted(s: string, quote: char, text: string) {
    |s| >= 2 && s[0] == quote && s[|s| - 1] == quote && IsBody(s[1..|s| - 1], quote, text)
  }

  function MarkText(t: Tok): string {
    match t
    case EqEq => "==" case NotEq => "!=" case Lt => "<" case Le => "<=" case Gt => ">" case Ge => ">="
    case AndAnd => "&&" case OrOr => "||" case Bang => "!"
    case Plus => "+" case Minus => "-" case Star => "*" case Slash => "/"
    case LParen => "(" case RParen => ")" case Comma => ","
    case _ => ""
  }

  predicate Spells(t: Tok, s: string) {
    match t
    case Num(v) => IsNumeral(s, v)
    case Str(text) => IsQuoted(s, '"', text) || IsQuoted(s, '\'', text)
    case Ident(name) => s == name && IsName(name)
    case _ => s == MarkText(t)
  }

  /** The token would not end here: what follows would still be read as part of it. */
  predicate RunsOn(t: Tok, rest: string) {
    && rest != []
    && match t
       case Num(_) => IsDigit(rest[0]) || rest[0] == '.'
       case Ident(_) => Letter(rest[0]) || IsDigit(rest[0])
       case Bang | Lt | Gt => rest[0] == '='
       case _ => false
  }

  /** The text consists of the tokens, each ending where it cannot run on, with white space anywhere between them. */
  ghost predicate Tokenizes(s: string, ts: seq<Tok>)
    decreases |s|, 1
  {
    if s == [] then ts == []
    else if White(s[0]) then Tokenizes(s[1..], ts)
    else ts != [] && exists i :: TokenEnds(s, ts, i)
  }

  ghost predicate TokenEnds(s: string, ts: seq<Tok>, i: int)
    requires ts != []
    decreases |s|, 0
  {
    0 < i <= |s| && Spells(ts[0], s[..i]) && !RunsOn(ts[0], s[i..]) && Tokenizes(s[i..], ts[1..])
  }

  // ---------------------------------------------------------------------------------------------
  // What a numeral is worth.
  // ---------------------------------------------------------------------------------------------

  lemma {:induction false} SpanStops(p: char -> bool, a: string, b: string)
    requires forall c :: c in a ==> p(c)
    requires b != [] ==> !p(b[0])
    ensures Span(p, a + b) == |a|
  {
    if a == [] {
      assert a + b == b;
    } else {
      assert (a + b)[0] == a[0] && (a + b)[1..] == a[1..] + b;
      SpanStops(p, a[1..], b);
    }
  }

  lemma ValueAtPoint(whole: string, fraction: string)
    requires AllDigits(whole) && AllDigits(fraction)
    ensures DecimalValue(whole + "." + fraction) == Some(NatOf(whole + fraction) as real / Pow10(|fraction|) as real)
  {
    var s := whole + ("." + fraction);
    assert whole + "." + fraction == s;
    SpanStops(IsDigit, whole, "." + fraction);
    assert s[..|whole|] == whole && s[|whole| + 1..] == fraction;
  }

  /** Moving the point past a digit makes a numeral ten times as much. */
  lemma PointMoves(whole: string, d: char, fraction: string)
    requires AllDigits(whole) && IsDigit(d) && AllDigits(fraction)
    ensures DecimalValue(whole + [d] + "." + fraction)
            == Scaled(DecimalValue(whole + "." + ([d] + fraction)))
  {
    hide DecimalValue, NatOf;
    ValueAtPoint(whole, [d] + fraction);
    ValueAtPoint(whole + [d], fraction);
    assert whole + ([d] + fraction) == whole + [d] + fraction;
    ScaleDown(NatOf(whole + [d] + fraction) as real, Pow10(|fraction|) as real);
  }

  function Scaled(v: Option<real>): Option<real> {
    if v.None? then None else Some(10.0 * v.value)
  }

  lemma ScaleDown(m: real, p: real)
    requires p > 0.0
    ensures m / p == 10.0 * (m / (10.0 * p))
  {
  }

  /** Without a point, or with nothing behind it, a numeral is worth its digits, each ten times the next. */
  lemma WholeIsWorth(whole: string, d: char)
    requires AllDigits(whole) && IsDigit(d)
    ensures DecimalValue(whole + [d] + ".") == DecimalValue(whole + [d])
    ensures DecimalValue(whole + [d]) == Some(10.0 * DecimalValue(whole).value + (d as int - '0' as int) as real)
    ensures DecimalValue("") == Some(0.0)
  {
    hide NatOf;
    ValueAtPoint(whole + [d], "");
    assert whole + [d] + "." + "" == whole + [d] + "." && whole + [d] + "" == whole + [d];
    SpanStops(IsDigit, whole + [d], "");
    SpanStops(IsDigit, whole, "");
    assert whole + "" == whole;
    LastDigit(whole, d);
  }

  lemma LastDigit(whole: string, d: char)
    requires AllDigits(whole) && IsDigit(d)
    ensures AllDigits(whole + [d]) && NatOf(whole + [d]) == 10 * NatOf(whole) + (d as int - '0' as int)
    ensures NatOf("") == 0
  {
    assert (whole + [d])[..|whole|] == whole;
  }
}
