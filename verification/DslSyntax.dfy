/** Tokens, syntax trees and precedence levels of the matcher expression language. */
module DslSyntax {
  datatype Tok =
    | Num(value: real)
    | Str(text: string)
    | Ident(name: string)
    | EqEq | NotEq | Lt | Le | Gt | Ge
    | AndAnd | OrOr | Bang
    | Plus | Minus | Star | Slash
    | LParen | RParen | Comma

  datatype Node =
    | NumLit(value: real)
    | StrLit(text: string)
    | BoolLit(truth: bool)
    | Var(name: string)
    | Call(name: string, args: seq<Node>)
    | Unary(op: Tok, inner: Node)
    | Binary(op: Tok, left: Node, right: Node)

  /** One level per parsing function, loosest first. */
  datatype Level = OrLevel | AndLevel | NotLevel | CmpLevel | AddLevel | MulLevel | UnaryLevel | PrimaryLevel

  function Rank(lv: Level): nat {
    match lv
    case OrLevel => 7
    case AndLevel => 6
    case NotLevel => 5
    case CmpLevel => 4
    case AddLevel => 3
    case MulLevel => 2
    case UnaryLevel => 1
    case PrimaryLevel => 0
  }

  /** The level whose function this level's function calls for its operands. */
  function Tighter(lv: Level): Level
    requires lv != PrimaryLevel
  {
    match lv
    case OrLevel => AndLevel
    case AndLevel => NotLevel
    case NotLevel => CmpLevel
    case CmpLevel => AddLevel
    case AddLevel => MulLevel
    case MulLevel => UnaryLevel
    case UnaryLevel => PrimaryLevel
  }

  /** Levels parsed by a loop that rebuilds its left operand. */
  predicate IsChain(lv: Level) {
    lv == OrLevel || lv == AndLevel || lv == AddLevel || lv == MulLevel
  }

  predicate IsPrefix(lv: Level) {
    lv == NotLevel || lv == UnaryLevel
  }

  function PrefixOp(lv: Level): Tok
    requires IsPrefix(lv)
  {
    if lv == NotLevel then Bang else Minus
  }

  /** `t` is an infix operator that the function of level `lv` itself consumes. */
  predicate IsInfix(lv: Level, t: Tok) {
    match lv
    case OrLevel => t == OrOr
    case AndLevel => t == AndAnd
    case CmpLevel => t == EqEq || t == NotEq || t == Lt || t == Le || t == Gt || t == Ge
    case AddLevel => t == Plus || t == Minus
    case MulLevel => t == Star || t == Slash
    case _ => false
  }

  function LowerChar(c: char): char {
    if 'A' <= c <= 'Z' then c + 32 as char else c
  }

  /** Lower-casing of identifiers, which are ASCII. */
  function Lower(s: string): (r: string)
    ensures |r| == |s|
    ensures forall i :: 0 <= i < |s| ==> r[i] == LowerChar(s[i])
  {
    if s == [] then [] else [LowerChar(s[0])] + Lower(s[1..])
  }
}
