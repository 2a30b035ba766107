/**
 The stratified grammar of the expression language, as a relation between token lists and trees:
 which tokens spell which tree at which precedence level, with no parsing order built in.
 */
module DslGrammar {
  import opened DslSyntax

  ghost predicate Derives(lv: Level, ts: seq<Tok>, n: Node)
    decreases |ts|, Rank(lv), 2
  {
    match lv
    case OrLevel | AndLevel | AddLevel | MulLevel => DerivesInfix(lv, lv, ts, n)
    case CmpLevel => DerivesInfix(lv, AddLevel, ts, n)
    case NotLevel | UnaryLevel => DerivesPrefix(lv, ts, n)
    case PrimaryLevel => DerivesPrimary(ts, n)
  }

  /** A tighter expression, or a binary tree whose left operand is of level `leftLevel`. */
  ghost predicate DerivesInfix(lv: Level, leftLevel: Level, ts: seq<Tok>, n: Node)
    requires lv != PrimaryLevel && Rank(leftLevel) <= Rank(lv)
    decreases |ts|, Rank(lv), 1
  {
    || Derives(Tighter(lv), ts, n)
    || (n.Binary? && IsInfix(lv, n.op) && exists i :: DerivesAround(lv, leftLevel, ts, n, i))
  }

  ghost predicate DerivesPrefix(lv: Level, ts: seq<Tok>, n: Node)
    requires IsPrefix(lv)
    decreases |ts|, Rank(lv), 1
  {
    || Derives(Tighter(lv), ts, n)
    || (n.Unary? && n.op == PrefixOp(lv) && ts != [] && ts[0] == n.op && Derives(lv, ts[1..], n.inner))
  }

  ghost predicate DerivesPrimary(ts: seq<Tok>, n: Node)
    decreases |ts|, 0, 1
  {
    || DerivesAtom(ts, n)
    || (Enclosed(ts, 0) && Derives(OrLevel, ts[1..|ts| - 1], n))
    || (Enclosed(ts, 1) && ts[0].Ident? && DerivesCall(ts[0].name, ts[2..|ts| - 1], n))
  }

  /** The operator of the binary tree `n` stands at position `i`, its operands on either side. */
  ghost predicate DerivesAround(lv: Level, leftLevel: Level, ts: seq<Tok>, n: Node, i: int)
    requires lv != PrimaryLevel && n.Binary?
    requires Rank(leftLevel) <= Rank(lv)
    decreases |ts|, Rank(lv), 0
  {
    && 0 <= i < |ts| && ts[i] == n.op
    && Derives(leftLevel, ts[..i], n.left)
    && Derives(Tighter(lv), ts[i + 1..], n.right)
  }

  predicate DerivesAtom(ts: seq<Tok>, n: Node) {
    && |ts| == 1
    && match ts[0]
       case Num(v) => n == NumLit(v)
       case Str(s) => n == StrLit(s)
       case Ident(name) =>
         n == (if name == "true" then BoolLit(true) else if name == "false" then BoolLit(false) else Var(name))
       case _ => false
  }

  /** `ts` opens a parenthesis at `i` and ends with a closing one. */
  predicate Enclosed(ts: seq<Tok>, i: nat) {
    i + 2 <= |ts| && ts[i] == LParen && ts[|ts| - 1] == RParen
  }

  /** `n` is the call of `name` whose argument list is spelled `ts`. */
  ghost predicate DerivesCall(name: string, ts: seq<Tok>, n: Node)
    decreases |ts|, 9
  {
    && n.Call? && n.name == Lower(name)
    && (if n.args == [] then ts == [] else DerivesList(ts, n.args))
  }

  /** A non-empty argument list: expressions separated by commas. */
  ghost predicate DerivesList(ts: seq<Tok>, args: seq<Node>)
    requires args != []
    decreases |ts|, 8
  {
    if |args| == 1 then Derives(OrLevel, ts, args[0])
    else exists i :: DerivesHead(ts, args, i)
  }

  ghost predicate DerivesHead(ts: seq<Tok>, args: seq<Node>, i: int)
    requires |args| > 1
    decreases |ts|, 8, 0
  {
    && 0 <= i < |ts| && ts[i] == Comma
    && Derives(OrLevel, ts[..i], args[0])
    && DerivesList(ts[i + 1..], args[1..])
  }
}
