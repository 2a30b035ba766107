/** The evaluator of the expression language, over exact reals. */
module DslEval {
  import opened Wrappers
  import opened Arithmetic
  import Bytes
  import opened DslSyntax
  import DslGrammar
  import DslLexer
  import DslParser
  import DslCursor
  import DslPrinter
  import DslUnicode

  datatype Val = StrVal(text: string) | NumVal(value: real) | BoolVal(truth: bool)

  datatype Ctx = Ctx(statusCode: nat, body: string, headers: string, contentLength: nat)

  /** The library functions the evaluator calls. */
  datatype Host = Host(
    parseNumber: string -> Option<real>,
    showFraction: real -> string,
    matches: (string, string) -> Option<bool>,
    lower: string -> string,
    upper: string -> string,
    trim: string -> string)

  /** The machine epsilon of a 64-bit float, 2^-52. */
  const EPSILON: real := 1.0 / 4503599627370496.0

  const I64_MAX: int := 0x7FFF_FFFF_FFFF_FFFF

  function ToBool(v: Val): bool {
    match v
    case BoolVal(b) => b
    case NumVal(n) => n != 0.0
    case StrVal(s) => s != "" && s != "false"
  }

  function ToNum(h: Host, v: Val): real {
    match v
    case NumVal(n) => n
    case BoolVal(b) => if b then 1.0 else 0.0
    case StrVal(s) => var n := h.parseNumber(h.trim(s)); if n.None? then 0.0 else n.value
  }

  function IntText(n: int): string
    decreases if n < 0 then 1 else 0
  {
    if n < 0 then "-" + IntText(-n) else DslPrinter.Digits(n, 0)
  }

  function ToStr(h: Host, v: Val): string {
    match v
    case StrVal(s) => s
    case BoolVal(b) => if b then "true" else "false"
    case NumVal(n) =>
      if n != n.Floor as real then h.showFraction(n)
      else IntText(if n.Floor > I64_MAX then I64_MAX else if n.Floor < -I64_MAX - 1 then -I64_MAX - 1 else n.Floor)
  }

  predicate ValuesEq(h: Host, l: Val, r: Val) {
    if l.NumVal? || r.NumVal? then Abs(ToNum(h, l) - ToNum(h, r)) < EPSILON
    else if l.BoolVal? || r.BoolVal? then ToBool(l) == ToBool(r)
    else ToStr(h, l) == ToStr(h, r)
  }

  predicate Contains(hay: string, needle: string) {
    exists i :: 0 <= i <= |hay| && Bytes.OccursAt(hay, needle, i)
  }

  function Eval(h: Host, c: Ctx, n: Node): Val
    decreases n
  {
    match n
    case NumLit(v) => NumVal(v)
    case StrLit(s) => StrVal(s)
    case BoolLit(b) => BoolVal(b)
    case Var(name) => Lookup(c, name)
    case Unary(op, inner) =>
      var v := Eval(h, c, inner);
      if op == Bang then BoolVal(!ToBool(v)) else if op == Minus then NumVal(-ToNum(h, v)) else BoolVal(false)
    case Binary(op, l, r) =>
      if op == AndAnd then BoolVal(ToBool(Eval(h, c, l)) && ToBool(Eval(h, c, r)))
      else if op == OrOr then BoolVal(ToBool(Eval(h, c, l)) || ToBool(Eval(h, c, r)))
      else EvalOperator(h, op, Eval(h, c, l), Eval(h, c, r))
    case Call(name, args) => EvalCall(h, c, name, EvalAll(h, c, args))
  }

  function EvalAll(h: Host, c: Ctx, args: seq<Node>): (vs: seq<Val>)
    ensures |vs| == |args|
    decreases args
  {
    if args == [] then [] else [Eval(h, c, args[0])] + EvalAll(h, c, args[1..])
  }

  function Lookup(c: Ctx, name: string): Val {
    if name == "status_code" || name == "status" then NumVal(c.statusCode as real)
    else if name == "body" then StrVal(c.body)
    else if name == "header" || name == "all_headers" || name == "headers" then StrVal(c.headers)
    else if name == "content_length" then NumVal(c.contentLength as real)
    else StrVal("")
  }

  function EvalOperator(h: Host, op: Tok, l: Val, r: Val): Val {
    match op
    case EqEq => BoolVal(ValuesEq(h, l, r))
    case NotEq => BoolVal(!ValuesEq(h, l, r))
    case Lt => BoolVal(ToNum(h, l) < ToNum(h, r))
    case Le => BoolVal(ToNum(h, l) <= ToNum(h, r))
    case Gt => BoolVal(ToNum(h, l) > ToNum(h, r))
    case Ge => BoolVal(ToNum(h, l) >= ToNum(h, r))
    case Plus => if l.NumVal? && r.NumVal? then NumVal(l.value + r.value) else StrVal(ToStr(h, l) + ToStr(h, r))
    case Minus => NumVal(ToNum(h, l) - ToNum(h, r))
    case Star => NumVal(ToNum(h, l) * ToNum(h, r))
    case Slash => NumVal(if ToNum(h, r) == 0.0 then 0.0 else ToNum(h, l) / ToNum(h, r))
    case _ => BoolVal(false)
  }

  function Arg(h: Host, vs: seq<Val>, i: nat): string {
    if i < |vs| then ToStr(h, vs[i]) else ""
  }

  function EvalCall(h: Host, c: Ctx, name: string, vs: seq<Val>): Val {
    var s0, s1 := Arg(h, vs, 0), Arg(h, vs, 1);
    if name == "contains" then BoolVal(Contains(s0, s1))
    else if name == "icontains" then BoolVal(Contains(h.lower(s0), h.lower(s1)))
    else if name == "startswith" then BoolVal(s1 <= s0)
    else if name == "endswith" then BoolVal(|s1| <= |s0| && s0[|s0| - |s1|..] == s1)
    else if name == "equals_any" || name == "contains_any" then
      BoolVal(exists i :: 1 <= i < |vs| && Contains(s0, Arg(h, vs, i)))
    else if name == "contains_all" then BoolVal(forall i :: 1 <= i < |vs| ==> Contains(s0, Arg(h, vs, i)))
    else if name == "len" then NumVal(|DslUnicode.Utf8All(s0)| as real)
    else if name == "tolower" then StrVal(h.lower(s0))
    else if name == "toupper" then StrVal(h.upper(s0))
    else if name == "trim" then StrVal(h.trim(s0))
    else if name == "regex" then BoolVal(h.matches(s0, s1) == Some(true))
    else if name == "status_code" then NumVal(c.statusCode as real)
    else StrVal("")
  }

  // ---------------------------------------------------------------------------------------------
  // From text to value.
  // ---------------------------------------------------------------------------------------------

  /** The value of a text, if it denotes a tree. */
  function ValueOf(h: Host, expr: string, c: Ctx): Option<Val> {
    var n := DslPrinter.ParseText(expr);
    if n.None? then None else Some(Eval(h, c, n.value))
  }

  method EvalValue(h: Host, expr: string, c: Ctx) returns (r: Option<Val>)
    ensures r == ValueOf(h, expr, c)
  {
    var toks := DslLexer.Tokenize(expr);
    if toks.None? { return None; }
    var node := DslCursor.ParseWhole(toks.value);
    ghost var p := DslParser.Parse(OrLevel, toks.value);
    if node.Some? {
      DslParser.ParserIsGrammar(OrLevel, toks.value, node.value);
    } else if p.Some? && p.value.rest == [] {
      DslParser.ParserIsGrammar(OrLevel, toks.value, p.value.node);
    }
    r := if node.None? then None else Some(Eval(h, c, node.value));
  }

  /** A number other than zero, or a text that is neither empty nor `false`, counts as true. */
  predicate IsTrue(v: Val) {
    v == BoolVal(true) || (v.NumVal? && v.value != 0.0) || (v.StrVal? && v.text != "" && v.text != "false")
  }

  /** A matcher expression holds exactly when it has a value and that counts as true. */
  method EvalBool(h: Host, expr: string, c: Ctx) returns (r: bool)
    ensures r <==> ValueOf(h, expr, c).Some? && IsTrue(ValueOf(h, expr, c).value)
  {
    var v := EvalValue(h, expr, c);
    r := v.Some? && ToBool(v.value);
  }

  // ---------------------------------------------------------------------------------------------
  // Evaluation depends only on the parts of the response an expression names.
  // ---------------------------------------------------------------------------------------------

  datatype Field = StatusField | BodyField | HeadersField | LengthField

  predicate Agree(f: Field, c: Ctx, c': Ctx) {
    match f
    case StatusField => c.statusCode == c'.statusCode
    case BodyField => c.body == c'.body
    case HeadersField => c.headers == c'.headers
    case LengthField => c.contentLength == c'.contentLength
  }

  function FieldOf(name: string): set<Field> {
    if name == "status_code" || name == "status" then {StatusField}
    else if name == "body" then {BodyField}
    else if name == "header" || name == "all_headers" || name == "headers" then {HeadersField}
    else if name == "content_length" then {LengthField}
    else {}
  }

  function Mentions(n: Node): set<Field>
    decreases n
  {
    match n
    case NumLit(_) | StrLit(_) | BoolLit(_) => {}
    case Var(name) => FieldOf(name)
    case Unary(_, inner) => Mentions(inner)
    case Binary(_, l, r) => Mentions(l) + Mentions(r)
    case Call(name, args) => MentionsAny(args) + if name == "status_code" then {StatusField} else {}
  }

  function MentionsAny(args: seq<Node>): set<Field>
    decreases args
  {
    if args == [] then {} else Mentions(args[0]) + MentionsAny(args[1..])
  }

  /** Responses that agree on every field an expression mentions give it the same value. */
  lemma {:induction false} EvalDependsOnMentioned(h: Host, c: Ctx, c': Ctx, n: Node)
    requires forall f :: f in Mentions(n) ==> Agree(f, c, c')
    ensures Eval(h, c, n) == Eval(h, c', n)
    decreases n
  {
    match n
    case Var(name) =>
      assert FieldOf(name) == Mentions(n);
      assert StatusField in Mentions(n) ==> Agree(StatusField, c, c');
      assert BodyField in Mentions(n) ==> Agree(BodyField, c, c');
      assert HeadersField in Mentions(n) ==> Agree(HeadersField, c, c');
      assert LengthField in Mentions(n) ==> Agree(LengthField, c, c');
    case Unary(_, inner) => EvalDependsOnMentioned(h, c, c', inner);
    case Binary(_, l, r) =>
      EvalDependsOnMentioned(h, c, c', l);
      EvalDependsOnMentioned(h, c, c', r);
    case Call(name, args) =>
      ArgsDependOnMentioned(h, c, c', args);
      assert name == "status_code" ==> StatusField in Mentions(n);
    case _ =>
  }

  lemma {:induction false} ArgsDependOnMentioned(h: Host, c: Ctx, c': Ctx, args: seq<Node>)
    requires forall f :: f in MentionsAny(args) ==> Agree(f, c, c')
    ensures EvalAll(h, c, args) == EvalAll(h, c', args)
    decreases args
  {
    if args != [] {
      EvalDependsOnMentioned(h, c, c', args[0]);
      ArgsDependOnMentioned(h, c, c', args[1..]);
    }
  }

  // ---------------------------------------------------------------------------------------------
  // Equality of values.
  // ---------------------------------------------------------------------------------------------

  lemma EqualityIsSymmetric(h: Host, l: Val, r: Val)
    ensures ValuesEq(h, l, r) <==> ValuesEq(h, r, l)
    ensures ValuesEq(h, l, l)
  {
    assert EPSILON > 0.0;
  }

  datatype Kind = Str | Num | Bool

  function KindOf(v: Val): Kind {
    match v
    case StrVal(_) => Kind.Str
    case NumVal(_) => Kind.Num
    case BoolVal(_) => Kind.Bool
  }

  /** The kinds of three values that, if equal in turn, are sure to be equal at the ends. */
  predicate Chainable(l: Kind, m: Kind, r: Kind) {
    if Kind.Num !in {l, m, r} then !(l == Kind.Str && m == Kind.Bool && r == Kind.Str)
    else
      || (l == Kind.Bool && r == Kind.Bool)
      || (l == Kind.Num && m == r && r != Kind.Num)
      || (r == Kind.Num && l == m && l != Kind.Num)
  }

  /** Values of chainable kinds that are equal in turn are equal at the ends, whatever the library functions do. */
  lemma EqualityIsTransitive(h: Host, l: Val, m: Val, r: Val)
    requires Chainable(KindOf(l), KindOf(m), KindOf(r))
    requires ValuesEq(h, l, m) && ValuesEq(h, m, r)
    ensures ValuesEq(h, l, r)
  {
    assert EPSILON < 0.5;
  }

  /** For every other three kinds there are values equal in turn but not at the ends: equality of values is not an
      equivalence. */
  lemma EqualityChainsBreak(kl: Kind, km: Kind, kr: Kind) returns (h: Host, l: Val, m: Val, r: Val)
    requires !Chainable(kl, km, kr)
    ensures KindOf(l) == kl && KindOf(m) == km && KindOf(r) == kr
    ensures ValuesEq(h, l, m) && ValuesEq(h, m, r) && !ValuesEq(h, l, r)
  {
    h := Host(s => None, x => "", (p, s) => None, s => s, s => s, s => s);
    var step := 0.6 * EPSILON;
    assert "a"[0] != "b"[0];
    if kl == Kind.Num && kr == Kind.Num {
      l, m, r := NumVal(-step), Zero(km), NumVal(step);
    } else if kl == Kind.Num && km == Kind.Num {
      l, m, r := NumVal(2.0 * step), NumVal(step), Zero(kr);
    } else if km == Kind.Num && kr == Kind.Num {
      l, m, r := Zero(kl), NumVal(step), NumVal(2.0 * step);
    } else if km == Kind.Num {
      l, m, r := Zero(kl), Zero(km), if kr == Kind.Str then StrVal("b") else Zero(kr);
    } else if kl == Kind.Num {
      if km == Kind.Bool {
        l, m, r := NumVal(1.0), BoolVal(true), StrVal("a");
      } else {
        l, m, r := NumVal(0.0), StrVal("a"), BoolVal(true);
      }
    } else if kr == Kind.Num {
      if km == Kind.Bool {
        l, m, r := StrVal("a"), BoolVal(true), NumVal(1.0);
      } else {
        l, m, r := BoolVal(true), StrVal("a"), NumVal(0.0);
      }
    } else {
      l, m, r := StrVal("a"), BoolVal(true), StrVal("b");
    }
  }

  /** A value of each kind that counts as the number zero when no string reads as a number. */
  function Zero(k: Kind): Val {
    match k
    case Str => StrVal("a")
    case Num => NumVal(0.0)
    case Bool => BoolVal(false)
  }
}
