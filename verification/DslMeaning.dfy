/** What expressions mean, told by their texts: which texts denote which trees, and what they are worth. */
module DslMeaning {
  import opened Wrappers
  import opened DslSyntax
  import opened DslGrammar
  import opened DslLexis
  import opened DslEval
  import DslLexer
  import DslParser
  import DslPrinter
  import DslUnicode

  // ---------------------------------------------------------------------------------------------
  // The language, by its two grammars alone.
  // ---------------------------------------------------------------------------------------------

  ghost predicate IsTextOf(s: string, ts: seq<Tok>, n: Node) {
    Tokenizes(s, ts) && Derives(OrLevel, ts, n)
  }

  /** A text denotes a tree exactly when it consists of tokens that the grammar derives the tree from. */
  lemma TextIsGrammar(s: string, n: Node)
    ensures DslPrinter.ParseText(s) == Some(n) <==> exists ts :: IsTextOf(s, ts, n)
  {
    hide Tokenizes, Derives;
    if exists ts :: IsTextOf(s, ts, n) {
      var ts :| IsTextOf(s, ts, n);
      DslLexer.LexerIsGrammar(s, ts);
      DslParser.ParserIsGrammar(OrLevel, ts, n);
    }
    if DslPrinter.ParseText(s) == Some(n) {
      var ts := DslLexer.Lex(s).value;
      DslLexer.LexerIsGrammar(s, ts);
      DslParser.ParserIsGrammar(OrLevel, ts, n);
      assert IsTextOf(s, ts, n);
    }
  }

  lemma TokensOf(s: string, n: Node) returns (ts: seq<Tok>)
    requires DslPrinter.ParseText(s) == Some(n)
    ensures Tokenizes(s, ts) && Derives(OrLevel, ts, n)
  {
    hide Tokenizes, Derives;
    TextIsGrammar(s, n);
    ts :| IsTextOf(s, ts, n);
  }

  lemma Denotes(s: string, ts: seq<Tok>, n: Node)
    requires Tokenizes(s, ts) && Derives(OrLevel, ts, n)
    ensures DslPrinter.ParseText(s) == Some(n)
  {
    hide Tokenizes, Derives;
    assert IsTextOf(s, ts, n);
    TextIsGrammar(s, n);
  }

  // ---------------------------------------------------------------------------------------------
  // Texts put together.
  // ---------------------------------------------------------------------------------------------

  /** No token runs on into a text that begins like this. */
  predicate Closes(rest: string) {
    rest == [] || rest[0] == ')' || rest[0] == ',' || rest[0] == '('
  }

  lemma {:induction false} TextsJoin(s: string, ts: seq<Tok>, rest: string, us: seq<Tok>)
    requires Tokenizes(s, ts) && Tokenizes(rest, us) && Closes(rest)
    ensures Tokenizes(s + rest, ts + us)
    decreases |s|
  {
    hide Spells, RunsOn, Closes;
    var whole := s + rest;
    if s == [] {
      assert whole == rest && ts + us == us;
    } else if White(s[0]) {
      assert whole[0] == s[0] && whole[1..] == s[1..] + rest;
      TextsJoin(s[1..], ts, rest, us);
    } else {
      var i := DslLexer.WhereItEnds(s, ts);
      assert whole[0] == s[0] && whole[..i] == s[..i] && whole[i..] == s[i..] + rest;
      assert (ts + us)[0] == ts[0] && (ts + us)[1..] == ts[1..] + us;
      StillStops(ts[0], s[i..], rest);
      TextsJoin(s[i..], ts[1..], rest, us);
      assert TokenEnds(whole, ts + us, i);
    }
  }

  lemma StillStops(t: Tok, s: string, rest: string)
    requires !RunsOn(t, s) && Closes(rest)
    ensures !RunsOn(t, s + rest)
  {
    assert s != [] ==> (s + rest)[0] == s[0];
    assert s == [] ==> s + rest == rest;
  }

  /** One token in front. */
  lemma TokenFirst(t: Tok, a: string, rest: string, us: seq<Tok>)
    requires a != [] && !White(a[0]) && Spells(t, a) && !RunsOn(t, rest) && Tokenizes(rest, us)
    ensures Tokenizes(a + rest, [t] + us)
  {
    hide Spells, RunsOn;
    var s, ts := a + rest, [t] + us;
    assert s[..|a|] == a && s[|a|..] == rest && ts[1..] == us;
    assert TokenEnds(s, ts, |a|);
  }

  function Parens(s: string): string {
    "(" + s + ")"
  }

  lemma ParensTokens(s: string, ts: seq<Tok>, rest: string, us: seq<Tok>)
    requires Tokenizes(s, ts) && Tokenizes(rest, us)
    ensures Tokenizes(Parens(s) + rest, [LParen] + (ts + ([RParen] + us)))
  {
    hide Tokenizes;
    TokenFirst(RParen, ")", rest, us);
    TextsJoin(s, ts, ")" + rest, [RParen] + us);
    TokenFirst(LParen, "(", s + (")" + rest), ts + ([RParen] + us));
    assert Parens(s) + rest == "(" + (s + (")" + rest));
  }

  lemma ParensDerive(ts: seq<Tok>, n: Node, lv: Level)
    requires Derives(OrLevel, ts, n)
    ensures Derives(lv, [LParen] + ts + [RParen], n)
  {
    var us := [LParen] + ts + [RParen];
    assert us[1..|us| - 1] == ts;
    assert Derives(PrimaryLevel, us, n);
    DslPrinter.Loosen(PrimaryLevel, lv, us, n);
  }

  /** The texts of the operands in parentheses, the operator between them, spelled as it is written. */
  function BinaryText(l: string, op: Tok, r: string): string {
    Parens(l) + MarkText(op) + Parens(r)
  }

  lemma BinaryDenotes(l: string, a: Node, op: Tok, r: string, b: Node)
    requires DslPrinter.ParseText(l) == Some(a) && DslPrinter.ParseText(r) == Some(b) && DslPrinter.IsOperator(op)
    ensures DslPrinter.ParseText(BinaryText(l, op, r)) == Some(Binary(op, a, b))
  {
    hide Tokenizes, Derives, DslPrinter.ParseText;
    var ls := TokensOf(l, a);
    var rs := TokensOf(r, b);
    assert Tokenizes("", []) by {
      NoTokens();
    }
    ParensTokens(r, rs, "", []);
    assert Parens(r) + "" == Parens(r);
    MarkInFront(op, Parens(r), [LParen] + (rs + ([RParen] + [])));
    ParensTokens(l, ls, MarkText(op) + Parens(r), [op] + ([LParen] + (rs + ([RParen] + []))));
    assert BinaryText(l, op, r) == Parens(l) + (MarkText(op) + Parens(r));
    var ts := ([LParen] + ls + [RParen]) + [op] + ([LParen] + rs + [RParen]);
    assert ts == [LParen] + (ls + ([RParen] + ([op] + ([LParen] + (rs + ([RParen] + []))))));
    OperatorDerives(op, ls, a, rs, b);
    Denotes(BinaryText(l, op, r), ts, Binary(op, a, b));
  }

  lemma NoTokens()
    ensures Tokenizes("", [])
  {
  }

  lemma MarkInFront(op: Tok, rest: string, us: seq<Tok>)
    requires DslPrinter.IsOperator(op) || op == Bang
    requires Tokenizes(rest, us) && rest != [] && rest[0] == '('
    ensures Tokenizes(MarkText(op) + rest, [op] + us)
  {
    TokenFirst(op, MarkText(op), rest, us);
  }

  lemma OperatorDerives(op: Tok, ls: seq<Tok>, a: Node, rs: seq<Tok>, b: Node)
    requires Derives(OrLevel, ls, a) && Derives(OrLevel, rs, b) && DslPrinter.IsOperator(op)
    ensures Derives(OrLevel, ([LParen] + ls + [RParen]) + [op] + ([LParen] + rs + [RParen]), Binary(op, a, b))
  {
    var lv := DslPrinter.OperatorLevel(op);
    var leftLevel := if lv == CmpLevel then AddLevel else lv;
    var x, y := [LParen] + ls + [RParen], [LParen] + rs + [RParen];
    var ts := x + [op] + y;
    ParensDerive(ls, a, leftLevel);
    ParensDerive(rs, b, Tighter(lv));
    assert ts[..|x|] == x && ts[|x| + 1..] == y;
    assert DerivesAround(lv, leftLevel, ts, Binary(op, a, b), |x|);
    assert DerivesInfix(lv, leftLevel, ts, Binary(op, a, b));
    DslPrinter.Loosen(lv, OrLevel, ts, Binary(op, a, b));
  }

  lemma PrefixDenotes(op: Tok, s: string, a: Node)
    requires DslPrinter.ParseText(s) == Some(a) && (op == Bang || op == Minus)
    ensures DslPrinter.ParseText(MarkText(op) + Parens(s)) == Some(Unary(op, a))
  {
    hide Tokenizes, Derives, DslPrinter.ParseText;
    var ts := TokensOf(s, a);
    NoTokens();
    ParensTokens(s, ts, "", []);
    assert Parens(s) + "" == Parens(s);
    MarkInFront(op, Parens(s), [LParen] + (ts + ([RParen] + [])));
    assert [LParen] + ts + [RParen] == [LParen] + (ts + ([RParen] + []));
    PrefixDerives(op, ts, a);
    Denotes(MarkText(op) + Parens(s), [op] + ([LParen] + ts + [RParen]), Unary(op, a));
  }

  lemma PrefixDerives(op: Tok, ts: seq<Tok>, a: Node)
    requires Derives(OrLevel, ts, a) && (op == Bang || op == Minus)
    ensures Derives(OrLevel, [op] + ([LParen] + ts + [RParen]), Unary(op, a))
  {
    var lv := if op == Bang then NotLevel else UnaryLevel;
    var us := [op] + ([LParen] + ts + [RParen]);
    ParensDerive(ts, a, lv);
    assert us[1..] == [LParen] + ts + [RParen];
    assert DerivesPrefix(lv, us, Unary(op, a));
    DslPrinter.Loosen(lv, OrLevel, us, Unary(op, a));
  }

  // Calls.

  function Commas(args: seq<string>): string
    requires args != []
  {
    if |args| == 1 then args[0] else args[0] + "," + Commas(args[1..])
  }

  function CallText(name: string, args: seq<string>): string {
    name + Parens(if args == [] then "" else Commas(args))
  }

  /** Each text denotes the node at its place. */
  ghost predicate AllDenote(args: seq<string>, nodes: seq<Node>) {
    |args| == |nodes| && forall i :: 0 <= i < |args| ==> DslPrinter.ParseText(args[i]) == Some(nodes[i])
  }

  lemma {:induction false} ListTokens(args: seq<string>, nodes: seq<Node>) returns (ts: seq<Tok>)
    requires AllDenote(args, nodes) && args != []
    ensures Tokenizes(Commas(args), ts) && DerivesList(ts, nodes)
    decreases |args|
  {
    hide Tokenizes, Derives, DslPrinter.ParseText;
    ts := TokensOf(args[0], nodes[0]);
    if |args| > 1 {
      assert forall i :: 0 <= i < |args[1..]| ==> args[1..][i] == args[i + 1] && nodes[1..][i] == nodes[i + 1];
      var us := ListTokens(args[1..], nodes[1..]);
      TokenFirst(Comma, ",", Commas(args[1..]), us);
      TextsJoin(args[0], ts, "," + Commas(args[1..]), [Comma] + us);
      assert Commas(args) == args[0] + ("," + Commas(args[1..]));
      HeadDerives(ts, us, nodes);
      ts := ts + ([Comma] + us);
    }
  }

  lemma HeadDerives(ts: seq<Tok>, us: seq<Tok>, nodes: seq<Node>)
    requires |nodes| > 1 && Derives(OrLevel, ts, nodes[0]) && DerivesList(us, nodes[1..])
    ensures DerivesList(ts + ([Comma] + us), nodes)
  {
    var whole := ts + ([Comma] + us);
    assert whole[..|ts|] == ts && whole[|ts| + 1..] == us;
    assert DerivesHead(whole, nodes, |ts|);
  }

  lemma CallDenotes(name: string, args: seq<string>, nodes: seq<Node>)
    requires IsName(name) && AllDenote(args, nodes)
    ensures DslPrinter.ParseText(CallText(name, args)) == Some(Call(Lower(name), nodes))
  {
    hide Tokenizes, Derives, DslPrinter.ParseText;
    var ts: seq<Tok> := [];
    var inner := if args == [] then "" else Commas(args);
    NoTokens();
    if args != [] {
      ts := ListTokens(args, nodes);
    }
    ParensTokens(inner, ts, "", []);
    assert Parens(inner) + "" == Parens(inner);
    assert [LParen] + (ts + ([RParen] + [])) == [LParen] + ts + [RParen];
    TokenFirst(Ident(name), name, Parens(inner), [LParen] + ts + [RParen]);
    CallDerives(name, ts, nodes);
    Denotes(CallText(name, args), [Ident(name)] + ([LParen] + ts + [RParen]), Call(Lower(name), nodes));
  }

  lemma CallDerives(name: string, ts: seq<Tok>, nodes: seq<Node>)
    requires if nodes == [] then ts == [] else DerivesList(ts, nodes)
    ensures Derives(OrLevel, [Ident(name)] + ([LParen] + ts + [RParen]), Call(Lower(name), nodes))
  {
    var us := [Ident(name)] + ([LParen] + ts + [RParen]);
    assert Enclosed(us, 1) && us[2..|us| - 1] == ts;
    assert DerivesCall(name, ts, Call(Lower(name), nodes));
    assert DerivesPrimary(us, Call(Lower(name), nodes));
    DslPrinter.Loosen(PrimaryLevel, OrLevel, us, Call(Lower(name), nodes));
  }

  // Single tokens.

  /** What one token denotes. */
  function AtomOf(t: Tok): Node
    requires t.Num? || t.Str? || t.Ident?
  {
    match t
    case Num(v) => NumLit(v)
    case Str(text) => StrLit(text)
    case Ident(name) => if name == "true" then BoolLit(true) else if name == "false" then BoolLit(false) else Var(name)
  }

  lemma AtomDenotes(t: Tok, s: string)
    requires (t.Num? || t.Str? || t.Ident?) && Spells(t, s)
    ensures DslPrinter.ParseText(s) == Some(AtomOf(t))
  {
    NoTokens();
    assert s != [] && !White(s[0]);
    TokenFirst(t, s, "", []);
    assert s + "" == s && [t] + [] == [t];
    assert DerivesPrimary([t], AtomOf(t));
    DslPrinter.Loosen(PrimaryLevel, OrLevel, [t], AtomOf(t));
    Denotes(s, [t], AtomOf(t));
  }
}
