/**
 Rendering of trees as token lists with the fewest parentheses and of token lists as text, and the
 round trips through the parser and the tokenizer.
 */
module DslPrinter {
  import opened Wrappers
  import opened DslSyntax
  import opened DslGrammar
  import opened DslParser
  import opened DslLexer
  import opened DslLexis

  // ---------------------------------------------------------------------------------------------
  // The trees and tokens that have a spelling.
  // ---------------------------------------------------------------------------------------------

  /** The number `m` with the decimal point `k` places from its right end. */
  function Decimal(m: nat, k: nat): real {
    m as real / Pow10(k) as real
  }

  ghost predicate IsDecimal(v: real) {
    exists m: nat, k: nat :: v == Decimal(m, k)
  }

  ghost predicate Spellable(t: Tok) {
    match t
    case Num(v) => IsDecimal(v)
    case Ident(name) => IsName(name)
    case _ => true
  }

  ghost predicate AllSpellable(ts: seq<Tok>) {
    forall t :: t in ts ==> Spellable(t)
  }

  predicate IsOperator(op: Tok) {
    || op in {OrOr, AndAnd, EqEq, NotEq, Lt, Le, Gt, Ge}
    || op in {Plus, Minus, Star, Slash}
  }

  /** The trees that some text denotes (`WellFormedIsParsable`). */
  ghost predicate WellFormed(n: Node) {
    match n
    case NumLit(v) => IsDecimal(v)
    case StrLit(_) => true
    case BoolLit(_) => true
    case Var(name) => IsName(name) && name != "true" && name != "false"
    case Call(name, args) => IsName(name) && Lower(name) == name && forall i :: 0 <= i < |args| ==> WellFormed(args[i])
    case Unary(op, inner) => (op == Bang || op == Minus) && WellFormed(inner)
    case Binary(op, left, right) => IsOperator(op) && WellFormed(left) && WellFormed(right)
  }

  // ---------------------------------------------------------------------------------------------
  // Trees to tokens.
  // ---------------------------------------------------------------------------------------------

  function OperatorLevel(op: Tok): (lv: Level)
    ensures IsOperator(op) ==> lv != PrimaryLevel && IsInfix(lv, op)
  {
    match op
    case OrOr => OrLevel
    case AndAnd => AndLevel
    case EqEq | NotEq | Lt | Le | Gt | Ge => CmpLevel
    case Plus | Minus => AddLevel
    case Star | Slash => MulLevel
    case _ => PrimaryLevel
  }

  /** The level whose function builds a tree of this shape. */
  function LevelOf(n: Node): Level {
    match n
    case Binary(op, _, _) => OperatorLevel(op)
    case Unary(op, _) => if op == Bang then NotLevel else UnaryLevel
    case _ => PrimaryLevel
  }

  function Print(lv: Level, n: Node): seq<Tok>
    decreases n, 1
  {
    if Rank(LevelOf(n)) <= Rank(lv) then Bare(n) else [LParen] + Bare(n) + [RParen]
  }

  function Bare(n: Node): seq<Tok>
    decreases n, 0
  {
    match n
    case NumLit(v) => [Num(v)]
    case StrLit(s) => [Str(s)]
    case BoolLit(b) => [Ident(if b then "true" else "false")]
    case Var(name) => [Ident(name)]
    case Call(name, args) => [Ident(name), LParen] + PrintList(args) + [RParen]
    case Unary(op, inner) => [op] + Print(LevelOf(n), inner)
    case Binary(op, left, right) =>
      var lv := OperatorLevel(op);
      Print(if lv == CmpLevel then AddLevel else lv, left) + [op]
      + Print(if lv == PrimaryLevel then lv else Tighter(lv), right)
  }

  function PrintList(args: seq<Node>): seq<Tok>
    decreases args
  {
    if args == [] then []
    else if |args| == 1 then Print(OrLevel, args[0])
    else Print(OrLevel, args[0]) + [Comma] + PrintList(args[1..])
  }

  /** A derivation at one level is a derivation at every looser one. */
  lemma {:induction false} Loosen(lv: Level, looser: Level, ts: seq<Tok>, n: Node)
    requires Rank(lv) <= Rank(looser) && Derives(lv, ts, n)
    ensures Derives(looser, ts, n)
    decreases Rank(looser)
  {
    if lv != looser {
      Loosen(lv, Tighter(looser), ts, n);
      assert IsPrefix(looser) ==> DerivesPrefix(looser, ts, n);
      assert !IsPrefix(looser) ==> DerivesInfix(looser, if looser == CmpLevel then AddLevel else looser, ts, n);
    }
  }

  lemma {:induction false} PrintDerives(lv: Level, n: Node)
    requires WellFormed(n)
    ensures Derives(lv, Print(lv, n), n)
    decreases n, 1
  {
    BareDerives(n);
    if Rank(LevelOf(n)) <= Rank(lv) {
      Loosen(LevelOf(n), lv, Bare(n), n);
    } else {
      Loosen(LevelOf(n), OrLevel, Bare(n), n);
      var ts := [LParen] + Bare(n) + [RParen];
      assert ts[1..|ts| - 1] == Bare(n);
      assert Derives(PrimaryLevel, ts, n);
      Loosen(PrimaryLevel, lv, ts, n);
    }
  }

  lemma {:induction false} BareDerives(n: Node)
    requires WellFormed(n)
    ensures Derives(LevelOf(n), Bare(n), n)
    decreases n, 0
  {
    match n
    case Call(name, args) =>
      if args != [] {
        PrintListDerives(args);
      }
    case Unary(op, inner) =>
      PrintDerives(LevelOf(n), inner);
      assert Bare(n)[1..] == Print(LevelOf(n), inner);
      assert DerivesPrefix(LevelOf(n), Bare(n), n);
    case Binary(op, left, right) =>
      var lv := OperatorLevel(op);
      PrintDerives(if lv == CmpLevel then AddLevel else lv, left);
      PrintDerives(Tighter(lv), right);
      BinaryDerives(n);
    case _ =>
      assert DerivesPrimary(Bare(n), n);
  }

  lemma BinaryDerives(n: Node)
    requires n.Binary? && IsOperator(n.op)
    requires var lv := OperatorLevel(n.op); var leftLevel := if lv == CmpLevel then AddLevel else lv;
      Derives(leftLevel, Print(leftLevel, n.left), n.left) && Derives(Tighter(lv), Print(Tighter(lv), n.right), n.right)
    ensures Derives(OperatorLevel(n.op), Bare(n), n)
  {
    var lv := OperatorLevel(n.op);
    var leftLevel := if lv == CmpLevel then AddLevel else lv;
    var ts, i := Bare(n), |Print(leftLevel, n.left)|;
    assert ts == Print(leftLevel, n.left) + [n.op] + Print(Tighter(lv), n.right);
    assert ts[..i] == Print(leftLevel, n.left);
    assert ts[i + 1..] == Print(Tighter(lv), n.right);
    assert DerivesAround(lv, leftLevel, ts, n, i);
    assert DerivesInfix(lv, leftLevel, ts, n);
  }

  lemma {:induction false} PrintListDerives(args: seq<Node>)
    requires args != [] && forall i :: 0 <= i < |args| ==> WellFormed(args[i])
    ensures DerivesList(PrintList(args), args)
    decreases args
  {
    PrintDerives(OrLevel, args[0]);
    if |args| > 1 {
      PrintListDerives(args[1..]);
      var ts, i := PrintList(args), |Print(OrLevel, args[0])|;
      assert ts[..i] == Print(OrLevel, args[0]);
      assert ts[i + 1..] == PrintList(args[1..]);
      assert DerivesHead(ts, args, i);
    }
  }

  /** Parsing the rendering of a tree gives the tree, in any position the rendering is made for. */
  lemma PrintThenParse(lv: Level, n: Node)
    requires WellFormed(n)
    ensures Parse(lv, Print(lv, n)) == Some(Parsed(n, []))
  {
    PrintDerives(lv, n);
    ParserIsGrammar(lv, Print(lv, n), n);
  }

  /** How tightly an operator binds. */
  function Strength(op: Tok): nat {
    match op
    case OrOr => 1
    case AndAnd => 2
    case EqEq | NotEq | Lt | Le | Gt | Ge => 3
    case Plus | Minus => 4
    case Star | Slash => 5
    case _ => 0
  }

  /** Literals, names and calls: what needs no parentheses anywhere. */
  predicate IsOperand(n: Node) {
    !n.Unary? && !n.Binary?
  }

  function LeftLevel(op: Tok): Level {
    if OperatorLevel(op) == CmpLevel then AddLevel else OperatorLevel(op)
  }

  lemma BareBinary(op: Tok, l: Node, r: Node)
    requires IsOperator(op)
    requires Rank(LevelOf(l)) <= Rank(LeftLevel(op)) && Rank(LevelOf(r)) <= Rank(Tighter(OperatorLevel(op)))
    ensures Bare(Binary(op, l, r)) == Bare(l) + [op] + Bare(r)
    ensures Print(OrLevel, Binary(op, l, r)) == Bare(Binary(op, l, r))
  {
  }

  lemma BarePrefix(op: Tok, n: Node)
    requires Rank(LevelOf(n)) <= (if op == Bang then 5 else 1)
    ensures Bare(Unary(op, n)) == [op] + Bare(n) && Print(OrLevel, Unary(op, n)) == Bare(Unary(op, n))
  {
  }

  lemma LevelsByStrength(p: Tok, q: Tok)
    requires IsOperator(p) && IsOperator(q)
    ensures Rank(OperatorLevel(q)) <= Rank(Tighter(OperatorLevel(p))) <==> Strength(p) < Strength(q)
    ensures Rank(OperatorLevel(q)) <= Rank(LeftLevel(p))
            <==> Strength(p) <= Strength(q) && !(Strength(p) == Strength(q) == 3)
    ensures Rank(OperatorLevel(p)) <= 5 <==> p != AndAnd && p != OrOr
    ensures Rank(Tighter(OperatorLevel(p))) >= 1 && Rank(LeftLevel(p)) >= 1
    ensures p == AndAnd || p == OrOr <==> Rank(LeftLevel(p)) >= 5
  {
  }

  lemma OperandRanks(x: Node, y: Node, z: Node)
    requires IsOperand(x) && IsOperand(y) && IsOperand(z)
    ensures Rank(LevelOf(x)) == Rank(LevelOf(y)) == Rank(LevelOf(z)) == 0
    ensures Rank(LevelOf(Unary(Minus, x))) == 1 && Rank(LevelOf(Unary(Bang, x))) == 5
  {
  }

  lemma RightGroup(x: Node, p: Tok, y: Node, q: Tok, z: Node)
    requires IsOperand(x) && IsOperand(y) && IsOperand(z) && IsOperator(p) && IsOperator(q) && Strength(p) < Strength(q)
    ensures Print(OrLevel, Binary(p, x, Binary(q, y, z))) == Bare(x) + [p] + Bare(y) + [q] + Bare(z)
  {
    hide Bare, Print, Strength, OperatorLevel, IsOperator, Rank, Tighter, LeftLevel;
    LevelsByStrength(p, q);
    LevelsByStrength(q, p);
    OperandRanks(x, y, z);
    BareBinary(q, y, z);
    BareBinary(p, x, Binary(q, y, z));
  }

  lemma LeftGroup(x: Node, p: Tok, y: Node, q: Tok, z: Node)
    requires IsOperand(x) && IsOperand(y) && IsOperand(z) && IsOperator(p) && IsOperator(q)
    requires Strength(p) >= Strength(q) && !(Strength(p) == Strength(q) == 3)
    ensures Print(OrLevel, Binary(q, Binary(p, x, y), z)) == Bare(x) + [p] + Bare(y) + [q] + Bare(z)
  {
    hide Bare, Print, Strength, OperatorLevel, IsOperator, Rank, Tighter, LeftLevel;
    LevelsByStrength(p, q);
    LevelsByStrength(q, p);
    OperandRanks(x, y, z);
    BareBinary(p, x, y);
    BareBinary(q, Binary(p, x, y), z);
  }

  lemma PrefixGroup(op: Tok, x: Node, p: Tok, y: Node)
    requires IsOperand(x) && IsOperand(y) && IsOperator(p)
    requires op == Minus || (op == Bang && (p == AndAnd || p == OrOr))
    ensures Print(OrLevel, Binary(p, Unary(op, x), y)) == [op] + Bare(x) + [p] + Bare(y)
  {
    hide Bare, Print, Strength, OperatorLevel, IsOperator, Rank, Tighter, LeftLevel;
    LevelsByStrength(p, p);
    OperandRanks(x, y, y);
    BarePrefix(op, x);
    BareBinary(p, Unary(op, x), y);
  }

  lemma BangGroup(x: Node, p: Tok, y: Node)
    requires IsOperand(x) && IsOperand(y) && IsOperator(p) && p != AndAnd && p != OrOr
    ensures Print(OrLevel, Unary(Bang, Binary(p, x, y))) == [Bang] + Bare(x) + [p] + Bare(y)
  {
    hide Bare, Print, Strength, OperatorLevel, IsOperator, Rank, Tighter, LeftLevel;
    LevelsByStrength(p, p);
    OperandRanks(x, y, y);
    BareBinary(p, x, y);
    BarePrefix(Bang, Binary(p, x, y));
    assert [Bang] + (Bare(x) + [p] + Bare(y)) == [Bang] + Bare(x) + [p] + Bare(y);
  }

  /** Of two operators without parentheses the stronger takes its operands first, of equally strong ones the left; two
      comparisons do not group either way. */
  lemma OperatorsGroup(x: Node, p: Tok, y: Node, q: Tok, z: Node)
    requires WellFormed(x) && WellFormed(y) && WellFormed(z) && IsOperand(x) && IsOperand(y) && IsOperand(z)
    requires IsOperator(p) && IsOperator(q)
    ensures var ts := Bare(x) + [p] + Bare(y) + [q] + Bare(z);
      && (Strength(p) >= Strength(q) && !(Strength(p) == Strength(q) == 3) ==>
            Parse(OrLevel, ts) == Some(Parsed(Binary(q, Binary(p, x, y), z), [])))
      && (Strength(p) < Strength(q) ==> Parse(OrLevel, ts) == Some(Parsed(Binary(p, x, Binary(q, y, z)), [])))
  {
    hide Parse, Bare, Print, Strength, IsOperator;
    if Strength(p) < Strength(q) {
      RightGroup(x, p, y, q, z);
      PrintThenParse(OrLevel, Binary(p, x, Binary(q, y, z)));
    } else if !(Strength(p) == Strength(q) == 3) {
      LeftGroup(x, p, y, q, z);
      PrintThenParse(OrLevel, Binary(q, Binary(p, x, y), z));
    }
  }

  /** A minus sign binds tighter than any operator, `!` looser than all but `&&` and `||`. */
  lemma PrefixesGroup(x: Node, p: Tok, y: Node)
    requires WellFormed(x) && WellFormed(y) && IsOperand(x) && IsOperand(y) && IsOperator(p)
    ensures Parse(OrLevel, [Minus] + Bare(x) + [p] + Bare(y)) == Some(Parsed(Binary(p, Unary(Minus, x), y), []))
    ensures Parse(OrLevel, [Bang] + Bare(x) + [p] + Bare(y))
            == Some(Parsed(if p == AndAnd || p == OrOr then Binary(p, Unary(Bang, x), y)
                           else Unary(Bang, Binary(p, x, y)), []))
  {
    hide Parse, Bare, Print, IsOperator;
    PrefixGroup(Minus, x, p, y);
    PrintThenParse(OrLevel, Binary(p, Unary(Minus, x), y));
    if p == AndAnd || p == OrOr {
      PrefixGroup(Bang, x, p, y);
      PrintThenParse(OrLevel, Binary(p, Unary(Bang, x), y));
    } else {
      BangGroup(x, p, y);
      PrintThenParse(OrLevel, Unary(Bang, Binary(p, x, y)));
    }
  }

  /** No token list that denotes a tree is shorter than its rendering: no parenthesis is superfluous. */
  lemma {:induction false} PrintIsShortest(lv: Level, ts: seq<Tok>, n: Node)
    requires Derives(lv, ts, n)
    ensures |Print(lv, n)| <= |ts|
    decreases |ts|, Rank(lv), 2
  {
    if lv == PrimaryLevel {
      PrimaryIsShortest(ts, n);
    } else if Derives(Tighter(lv), ts, n) {
      PrintIsShortest(Tighter(lv), ts, n);
    } else if IsPrefix(lv) {
      assert DerivesPrefix(lv, ts, n);
      PrintIsShortest(lv, ts[1..], n.inner);
    } else {
      var leftLevel := if lv == CmpLevel then AddLevel else lv;
      assert DerivesInfix(lv, leftLevel, ts, n);
      var i :| DerivesAround(lv, leftLevel, ts, n, i);
      PrintIsShortest(leftLevel, ts[..i], n.left);
      PrintIsShortest(Tighter(lv), ts[i + 1..], n.right);
      assert OperatorLevel(n.op) == lv;
    }
  }

  lemma {:induction false} PrimaryIsShortest(ts: seq<Tok>, n: Node)
    requires DerivesPrimary(ts, n)
    ensures |Print(PrimaryLevel, n)| <= |ts|
    decreases |ts|, 0, 1
  {
    if DerivesAtom(ts, n) {
    } else if Enclosed(ts, 0) && Derives(OrLevel, ts[1..|ts| - 1], n) {
      PrintIsShortest(OrLevel, ts[1..|ts| - 1], n);
    } else {
      assert DerivesCall(ts[0].name, ts[2..|ts| - 1], n);
      assert |Bare(n)| == 3 + |PrintList(n.args)|;
      if n.args != [] {
        ListIsShortest(ts[2..|ts| - 1], n.args);
      }
    }
  }

  lemma {:induction false} ListIsShortest(ts: seq<Tok>, args: seq<Node>)
    requires args != [] && DerivesList(ts, args)
    ensures |PrintList(args)| <= |ts|
    decreases |ts|, 8
  {
    if |args| == 1 {
      PrintIsShortest(OrLevel, ts, args[0]);
    } else {
      var i :| DerivesHead(ts, args, i);
      PrintIsShortest(OrLevel, ts[..i], args[0]);
      ListIsShortest(ts[i + 1..], args[1..]);
    }
  }

  // ---------------------------------------------------------------------------------------------
  // Numbers and literals as text.
  // ---------------------------------------------------------------------------------------------

  function DigitChar(d: nat): (c: char)
    requires d < 10
    ensures IsDigit(c) && DigitValue(c) == d
  {
    ('0' as int + d) as char
  }

  /** The digits of `m`, padded with zeros to more than `k` places. */
  function Digits(m: nat, k: nat): (s: string)
    ensures |s| > k && AllDigits(s) && NatOf(s) == m
    decreases m + k
  {
    if m < 10 && k == 0 then [DigitChar(m)]
    else
      var s := Digits(m / 10, if k == 0 then 0 else k - 1) + [DigitChar(m % 10)];
      assert s[..|s| - 1] == Digits(m / 10, if k == 0 then 0 else k - 1);
      s
  }

  function DecimalText(m: nat, k: nat): string {
    var d := Digits(m, k);
    if k == 0 then d else d[..|d| - k] + "." + d[|d| - k..]
  }

  function EscapeChar(c: char): string {
    match c
    case '"' => "\\\""
    case '\\' => "\\\\"
    case '\n' => "\\n"
    case '\t' => "\\t"
    case '\r' => "\\r"
    case _ => [c]
  }

  function Escape(s: string): string {
    if s == [] then [] else EscapeChar(s[0]) + Escape(s[1..])
  }

  lemma DecimalTextValue(m: nat, k: nat)
    ensures forall c :: c in DecimalText(m, k) ==> IsNumChar(c)
    ensures IsDigit(DecimalText(m, k)[0])
    ensures DecimalValue(DecimalText(m, k)) == Some(Decimal(m, k))
  {
    var d := Digits(m, k);
    if k == 0 {
    } else {
      SplitDigits(d, k);
      PointIsRead(d[..|d| - k], d[|d| - k..]);
    }
  }

  lemma SplitDigits(d: string, k: nat)
    requires k < |d| && AllDigits(d)
    ensures var whole, fraction := d[..|d| - k], d[|d| - k..];
      && AllDigits(whole) && AllDigits(fraction) && whole != [] && |fraction| == k && whole + fraction == d
      && whole + "." + fraction == whole + ("." + fraction)
  {
  }

  lemma PointIsRead(whole: string, fraction: string)
    requires AllDigits(whole) && AllDigits(fraction) && whole != []
    ensures var s := whole + ("." + fraction);
      && (forall c :: c in s ==> IsNumChar(c))
      && IsDigit(s[0])
      && DecimalValue(s) == Some(Decimal(NatOf(whole + fraction), |fraction|))
  {
    var s := whole + ("." + fraction);
    SpanStops(IsDigit, whole, "." + fraction);
    assert s[..|whole|] == whole && s[|whole| + 1..] == fraction;
  }

  lemma {:induction false} EscapeIsBody(text: string)
    ensures IsBody(Escape(text), '"', text)
  {
    if text != [] {
      EscapeIsBody(text[1..]);
      var e := EscapeChar(text[0]);
      assert Escape(text)[|e|..] == Escape(text[1..]);
      assert Escape(text)[0] == e[0] && (|e| > 1 ==> Escape(text)[1] == e[1]);
    }
  }

  lemma LiteralRoundTrip(text: string, rest: string)
    ensures LexLiteral(Escape(text) + "\"" + rest, '"') == Some(Literal(text, |Escape(text)| + 1))
  {
    EscapeIsBody(text);
    BodyIsRead(Escape(text), '"', text, rest);
    assert "\"" == ['"'];
  }

  // ---------------------------------------------------------------------------------------------
  // Tokens to text.
  // ---------------------------------------------------------------------------------------------

  ghost function Spell(t: Tok): string
    requires Spellable(t)
  {
    match t
    case Num(v) => var m: nat, k: nat :| v == Decimal(m, k); DecimalText(m, k)
    case Str(text) => "\"" + Escape(text) + "\""
    case Ident(name) => name
    case _ => MarkText(t)
  }

  predicate AllWhite(s: string) {
    forall c :: c in s ==> White(c)
  }

  /** Written without white space between them the tokens would be read as something else. */
  predicate RunTogether(t: Tok, u: Tok) {
    match t
    case Ident(_) => u.Ident? || u.Num?
    case Num(_) => u.Num?
    case Bang | Lt | Gt => u == EqEq
    case _ => false
  }

  /** White space, which may be missing where no two tokens run together. */
  predicate KeepsApart(ts: seq<Tok>, gaps: seq<string>) {
    && |gaps| == |ts|
    && (forall i :: 0 <= i < |gaps| ==> AllWhite(gaps[i]))
    && (forall i :: 0 <= i < |ts| - 1 && gaps[i] == [] ==> !RunTogether(ts[i], ts[i + 1]))
  }

  /** The tokens spelled out, each followed by its own white space. */
  ghost function Text(ts: seq<Tok>, gaps: seq<string>): string
    requires AllSpellable(ts) && |gaps| == |ts|
  {
    if ts == [] then [] else Spell(ts[0]) + gaps[0] + Text(ts[1..], gaps[1..])
  }

  lemma NumberIsSpelled(m: nat, k: nat)
    ensures Spells(Num(Decimal(m, k)), DecimalText(m, k))
  {
    DecimalTextValue(m, k);
  }

  lemma LiteralIsSpelled(text: string)
    ensures Spells(Str(text), "\"" + Escape(text) + "\"")
  {
    var s := "\"" + Escape(text) + "\"";
    EscapeIsBody(text);
    assert s[1..|s| - 1] == Escape(text);
  }

  lemma SpellingSpells(t: Tok)
    requires Spellable(t)
    ensures Spells(t, Spell(t)) && Spell(t) != []
    ensures t.Ident? ==> Letter(Spell(t)[0])
    ensures t.Num? ==> IsDigit(Spell(t)[0])
    ensures !t.Ident? && !t.Num? ==> !Letter(Spell(t)[0]) && !IsDigit(Spell(t)[0]) && Spell(t)[0] != '.'
    ensures Spell(t)[0] == '=' <==> t == EqEq
  {
    match t
    case Num(v) =>
      var m: nat, k: nat :| v == Decimal(m, k) && Spell(t) == DecimalText(m, k);
      NumberIsSpelled(m, k);
    case Str(text) => LiteralIsSpelled(text);
    case _ =>
  }

  lemma SpellingIsToken(t: Tok, rest: string)
    requires Spellable(t) && !RunsOn(t, rest)
    ensures Spell(t) != [] && !IsSpace(Spell(t)[0])
    ensures LexOne(Spell(t) + rest) == Some(Lexed(t, |Spell(t)|))
  {
    hide Spells, RunsOn, LexOne;
    SpellingSpells(t);
    var s := Spell(t) + rest;
    assert s[..|Spell(t)|] == Spell(t) && s[|Spell(t)|..] == rest;
    SpelledIsRead(t, s, |Spell(t)|);
  }

  lemma LiteralIsToken(text: string, rest: string)
    ensures var s := "\"" + Escape(text) + "\""; LexOne(s + rest) == Some(Lexed(Str(text), |s|))
  {
    SpellingIsToken(Str(text), rest);
  }

  lemma {:induction false} BlanksAreSkipped(gap: string, s: string)
    requires AllWhite(gap)
    ensures Lex(gap + s) == Lex(s)
  {
    if gap == [] {
      assert gap + s == s;
    } else {
      assert (gap + s)[0] == gap[0] && (gap + s)[1..] == gap[1..] + s;
      assert gap[0] in gap && forall c :: c in gap[1..] ==> c in gap;
      BlanksAreSkipped(gap[1..], s);
    }
  }

  lemma WhiteStops(t: Tok, rest: string)
    requires rest != [] && White(rest[0])
    ensures !RunsOn(t, rest)
  {
  }

  lemma NextStops(t: Tok, u: Tok, rest: string)
    requires Spellable(u) && !RunTogether(t, u)
    ensures !RunsOn(t, Spell(u) + rest)
  {
    hide Spells, Spell;
    SpellingSpells(u);
    assert (Spell(u) + rest)[0] == Spell(u)[0];
  }

  /** In front of its gap and the next token a token does not run on. */
  lemma GapStops(ts: seq<Tok>, gaps: seq<string>)
    requires ts != [] && AllSpellable(ts) && KeepsApart(ts, gaps)
    ensures !RunsOn(ts[0], gaps[0] + Text(ts[1..], gaps[1..]))
  {
    hide Spell, Spellable, RunTogether, White;
    var tail := Text(ts[1..], gaps[1..]);
    if gaps[0] != [] {
      assert gaps[0][0] in gaps[0] && (gaps[0] + tail)[0] == gaps[0][0];
      WhiteStops(ts[0], gaps[0] + tail);
    } else if |ts| > 1 {
      assert ts[1] in ts && !RunTogether(ts[0], ts[1]);
      var rest := gaps[1] + Text(ts[2..], gaps[2..]);
      assert ts[1..][1..] == ts[2..] && gaps[1..][1..] == gaps[2..];
      assert gaps[0] + tail == Spell(ts[1]) + rest;
      NextStops(ts[0], ts[1], rest);
    }
  }

  /** Tokenizing spelled-out tokens gives them back, whatever white space is between them, or none where none is
      needed. */
  lemma {:induction false} TextThenLex(ts: seq<Tok>, gaps: seq<string>)
    requires AllSpellable(ts) && KeepsApart(ts, gaps)
    ensures Lex(Text(ts, gaps)) == Some(ts)
  {
    hide Spellable, Spell, RunsOn, LexOne, RunTogether, White;
    if ts != [] {
      var tail := Text(ts[1..], gaps[1..]);
      var rest := gaps[0] + tail;
      assert Text(ts, gaps) == Spell(ts[0]) + rest;
      GapStops(ts, gaps);
      SpellingIsToken(ts[0], rest);
      assert (Spell(ts[0]) + rest)[|Spell(ts[0])|..] == rest;
      BlanksAreSkipped(gaps[0], tail);
      TextThenLex(ts[1..], gaps[1..]);
      assert ts == [ts[0]] + ts[1..];
    }
  }

  /** White space is needed between two tokens exactly when they run together. */
  lemma RunTogetherExactly(t: Tok, u: Tok)
    requires Spellable(t) && Spellable(u)
    ensures Lex(Spell(t) + Spell(u)) == Some([t, u]) <==> !RunTogether(t, u)
  {
    hide Spell, Spellable, LexOne;
    if !RunTogether(t, u) {
      TextThenLex([t, u], ["", ""]);
      TwoTokens(t, u);
    } else {
      Merged(t, u);
    }
  }

  lemma TwoTokens(t: Tok, u: Tok)
    requires Spellable(t) && Spellable(u)
    ensures AllSpellable([t, u]) && Text([t, u], ["", ""]) == Spell(t) + Spell(u)
  {
    hide Spell, Spellable;
    assert [t, u][1..] == [u] && ["", ""][1..] == [""] && [u][1..] == [] && [""][1..] == [];
    assert Text([u], [""]) == Spell(u) + "" + Text([], []) == Spell(u);
    assert Text([t, u], ["", ""]) == Spell(t) + "" + Text([u], [""]);
  }

  lemma Merged(t: Tok, u: Tok)
    requires Spellable(t) && Spellable(u) && RunTogether(t, u)
    ensures Lex(Spell(t) + Spell(u)) != Some([t, u])
  {
    hide LexOne, Spellable, Spell;
    var s := Spell(t) + Spell(u);
    EndsLater(t, u);
    SpellingSpells(t);
    assert s[0] == Spell(t)[0] && !IsSpace(s[0]);
    assert s[|s|..] == [] && Lex([]) == Some([]);
    if LexOne(s).Some? && Lex(s).Some? {
      var one := LexOne(s).value;
      assert Lex(s).value == [one.tok] + Lex(s[one.length..]).value;
      assert [t, u][0] == t && |[t, u]| == 2 && (one.tok == t ==> |Lex(s).value| == 1);
    }
  }

  /** The first token read is another one, or takes the second one with it. */
  lemma EndsLater(t: Tok, u: Tok)
    requires Spellable(t) && Spellable(u) && RunTogether(t, u)
    ensures var s := Spell(t) + Spell(u);
      Spell(t) != [] && (LexOne(s).Some? && LexOne(s).value.tok == t ==> LexOne(s).value.length == |s|)
    ensures !IsSpace(Spell(t)[0])
  {
    hide LexOne;
    var s := Spell(t) + Spell(u);
    SpellingSpells(t);
    SpellingSpells(u);
    if LexOne(s).Some? {
      var n := LexOne(s).value.length;
      ReadIsSpelled(s);
      if t.Num? {
        assert forall c :: c in s ==> c in Spell(t) || c in Spell(u);
        assert n < |s| ==> s[n..][0] in s;
      } else {
        assert s[..|Spell(t)|] == Spell(t) && s[|Spell(t)|..] == Spell(u);
        assert RunsOn(t, Spell(u));
      }
    }
  }

  // ---------------------------------------------------------------------------------------------
  // Main results.
  // ---------------------------------------------------------------------------------------------

  /** What a text denotes: its tokens, parsed with nothing left over. */
  function ParseText(s: string): Option<Node> {
    var toks := Lex(s);
    if toks.None? then None
    else
      var p := Parse(OrLevel, toks.value);
      if p.Some? && p.value.rest == [] then Some(p.value.node) else None
  }

  lemma {:induction false} PrintIsSpellable(lv: Level, n: Node)
    requires WellFormed(n)
    ensures AllSpellable(Print(lv, n)) && AllSpellable(Bare(n))
    decreases n
  {
    match n
    case Call(name, args) => ListIsSpellable(args);
    case Unary(op, inner) => PrintIsSpellable(LevelOf(n), inner);
    case Binary(op, left, right) =>
      var lv := OperatorLevel(op);
      PrintIsSpellable(if lv == CmpLevel then AddLevel else lv, left);
      PrintIsSpellable(Tighter(lv), right);
    case _ =>
      assert IsName("true") && IsName("false");
  }

  lemma {:induction false} ListIsSpellable(args: seq<Node>)
    requires forall i :: 0 <= i < |args| ==> WellFormed(args[i])
    ensures AllSpellable(PrintList(args))
    decreases args
  {
    if args != [] {
      PrintIsSpellable(OrLevel, args[0]);
      ListIsSpellable(args[1..]);
    }
  }

  /** The text of a well-formed tree, with any white space between its tokens, denotes that tree. */
  lemma {:induction false} RenderThenParse(n: Node, gaps: seq<string>)
    requires WellFormed(n)
    requires |gaps| == |Print(OrLevel, n)| && KeepsApart(Print(OrLevel, n), gaps)
    ensures AllSpellable(Print(OrLevel, n))
    ensures ParseText(Text(Print(OrLevel, n), gaps)) == Some(n)
  {
    PrintIsSpellable(OrLevel, n);
    TextThenLex(Print(OrLevel, n), gaps);
    PrintThenParse(OrLevel, n);
  }

  lemma {:induction false} LexIsSpellable(s: string)
    requires Lex(s).Some?
    ensures AllSpellable(Lex(s).value)
  {
    if s != [] {
      if IsSpace(s[0]) {
        LexIsSpellable(s[1..]);
      } else {
        var one := LexOne(s).value;
        LexIsSpellable(s[one.length..]);
        if IsDigit(s[0]) {
          NumberIsDecimal(s[..one.length]);
        }
      }
    }
  }

  lemma NumberIsDecimal(s: string)
    requires forall c :: c in s ==> IsDigit(c) || c == '.'
    requires DecimalValue(s).Some?
    ensures IsDecimal(DecimalValue(s).value)
  {
    var i := Span(IsDigit, s);
    if i == |s| {
      assert DecimalValue(s).value == Decimal(NatOf(s), 0);
    } else {
      assert DecimalValue(s).value == Decimal(NatOf(s[..i] + s[i + 1..]), |s| - i - 1);
    }
  }

  lemma {:induction false} DerivedIsWellFormed(lv: Level, ts: seq<Tok>, n: Node)
    requires Derives(lv, ts, n) && AllSpellable(ts)
    ensures WellFormed(n)
    decreases |ts|, Rank(lv), 2
  {
    if lv == PrimaryLevel {
      assert ts != [] && Spellable(ts[0]) by {
        FirstToken(lv, ts, n);
      }
      if DerivesAtom(ts, n) {
      } else if Enclosed(ts, 0) && Derives(OrLevel, ts[1..|ts| - 1], n) {
        DerivedIsWellFormed(OrLevel, ts[1..|ts| - 1], n);
      } else {
        assert DerivesCall(ts[0].name, ts[2..|ts| - 1], n);
        LowerIsName(ts[0].name);
        if n.args != [] {
          DerivedListIsWellFormed(ts[2..|ts| - 1], n.args);
        }
      }
    } else if Derives(Tighter(lv), ts, n) {
      DerivedIsWellFormed(Tighter(lv), ts, n);
    } else if IsPrefix(lv) {
      assert DerivesPrefix(lv, ts, n);
      DerivedIsWellFormed(lv, ts[1..], n.inner);
    } else {
      var leftLevel := if lv == CmpLevel then AddLevel else lv;
      assert DerivesInfix(lv, leftLevel, ts, n);
      var i :| DerivesAround(lv, leftLevel, ts, n, i);
      DerivedIsWellFormed(leftLevel, ts[..i], n.left);
      DerivedIsWellFormed(Tighter(lv), ts[i + 1..], n.right);
    }
  }

  lemma {:induction false} DerivedListIsWellFormed(ts: seq<Tok>, args: seq<Node>)
    requires args != [] && DerivesList(ts, args) && AllSpellable(ts)
    ensures forall i :: 0 <= i < |args| ==> WellFormed(args[i])
    decreases |ts|, 8
  {
    if |args| == 1 {
      DerivedIsWellFormed(OrLevel, ts, args[0]);
    } else {
      var i :| DerivesHead(ts, args, i);
      DerivedIsWellFormed(OrLevel, ts[..i], args[0]);
      DerivedListIsWellFormed(ts[i + 1..], args[1..]);
      assert forall j :: 1 <= j < |args| ==> args[j] == args[1..][j - 1];
    }
  }

  lemma LowerIsName(name: string)
    requires IsName(name)
    ensures IsName(Lower(name)) && Lower(Lower(name)) == Lower(name)
  {
    forall i | 0 <= i < |name|
      ensures (Letter(Lower(name)[i]) || IsDigit(Lower(name)[i])) && LowerChar(Lower(name)[i]) == Lower(name)[i]
    {
      assert name[i] in name;
    }
    assert Letter(Lower(name)[0]);
  }

  /** Lower-casing leaves no capital, and changes nothing but the case of letters. */
  lemma LowerIsCase(name: string, i: nat)
    requires i < |name|
    ensures |Lower(name)| == |name| && !('A' <= Lower(name)[i] <= 'Z')
    ensures Lower(name)[i] == name[i] || ('A' <= name[i] <= 'Z' && Lower(name)[i] as int == name[i] as int + 32)
  {
    assert Lower(name)[i] == LowerChar(name[i]);
  }

  /** The well-formed trees are exactly those some text denotes. */
  lemma WellFormedIsParsable(n: Node)
    ensures WellFormed(n) <==> exists s :: ParseText(s) == Some(n)
  {
    if WellFormed(n) {
      var gaps := seq(|Print(OrLevel, n)|, i => " ");
      RenderThenParse(n, gaps);
    }
    if exists s :: ParseText(s) == Some(n) {
      var s :| ParseText(s) == Some(n);
      LexIsSpellable(s);
      ParserIsGrammar(OrLevel, Lex(s).value, n);
      DerivedIsWellFormed(OrLevel, Lex(s).value, n);
    }
  }
}
