/**
 The recursive-descent parser as functions over the remaining tokens, and the proof that it accepts exactly the
 grammar. The class that moves a cursor over the tokens, in `DslCursor`, is proved against these functions.
 */
module DslParser {
  import opened Wrappers
  import opened DslSyntax
  import opened DslGrammar

  datatype Parsed = Parsed(node: Node, rest: seq<Tok>)
  datatype ParsedList = ParsedList(args: seq<Node>, rest: seq<Tok>)

  /** `rest` is what is left of `ts` after taking at least one token from the front. */
  predicate ProperSuffix(rest: seq<Tok>, ts: seq<Tok>) {
    |rest| < |ts| && rest == ts[|ts| - |rest|..]
  }

  function Parse(lv: Level, ts: seq<Tok>): (r: Option<Parsed>)
    ensures r.Some? ==> ProperSuffix(r.value.rest, ts)
    decreases |ts|, Rank(lv), 2
  {
    match lv
    case OrLevel | AndLevel | AddLevel | MulLevel => ParseChain(lv, ts)
    case NotLevel | UnaryLevel => ParsePrefix(lv, ts)
    case CmpLevel => ParseCmp(ts)
    case PrimaryLevel => ParsePrimary(ts)
  }

  function ParseChain(lv: Level, ts: seq<Tok>): (r: Option<Parsed>)
    requires IsChain(lv)
    ensures r.Some? ==> ProperSuffix(r.value.rest, ts)
    decreases |ts|, Rank(lv), 1
  {
    var first := Parse(Tighter(lv), ts);
    if first.None? then None else Chain(lv, first.value.node, first.value.rest)
  }

  function ParsePrefix(lv: Level, ts: seq<Tok>): (r: Option<Parsed>)
    requires IsPrefix(lv)
    ensures r.Some? ==> ProperSuffix(r.value.rest, ts)
    decreases |ts|, Rank(lv), 1
  {
    if Expect(ts, PrefixOp(lv)) then
      var inner := Parse(lv, ts[1..]);
      if inner.None? then None else Some(Parsed(Unary(ts[0], inner.value.node), inner.value.rest))
    else Parse(Tighter(lv), ts)
  }

  function ParseCmp(ts: seq<Tok>): (r: Option<Parsed>)
    ensures r.Some? ==> ProperSuffix(r.value.rest, ts)
    decreases |ts|, Rank(CmpLevel), 1
  {
    var left := Parse(AddLevel, ts);
    if left.None? || left.value.rest == [] || !IsInfix(CmpLevel, left.value.rest[0]) then left
    else
      var right := Parse(AddLevel, left.value.rest[1..]);
      if right.None? then None
      else Some(Parsed(Binary(left.value.rest[0], left.value.node, right.value.node), right.value.rest))
  }

  /** The loop of a chain level, entered with the operand `left` already parsed. */
  function Chain(lv: Level, left: Node, ts: seq<Tok>): (r: Option<Parsed>)
    requires IsChain(lv)
    ensures r.Some? ==> r.value.rest == ts || ProperSuffix(r.value.rest, ts)
    decreases |ts|, Rank(lv)
  {
    if ts == [] || !IsInfix(lv, ts[0]) then Some(Parsed(left, ts))
    else
      var right := Parse(Tighter(lv), ts[1..]);
      if right.None? then None else Chain(lv, Binary(ts[0], left, right.value.node), right.value.rest)
  }

  function ParsePrimary(ts: seq<Tok>): (r: Option<Parsed>)
    ensures r.Some? ==> ProperSuffix(r.value.rest, ts)
    decreases |ts|, 0, 1
  {
    if ts == [] then None
    else
      match ts[0]
      case Num(v) => Some(Parsed(NumLit(v), ts[1..]))
      case Str(s) => Some(Parsed(StrLit(s), ts[1..]))
      case LParen =>
        var e := Parse(OrLevel, ts[1..]);
        if e.Some? && Expect(e.value.rest, RParen) then Some(Parsed(e.value.node, e.value.rest[1..])) else None
      case Ident(name) =>
        if Expect(ts[1..], LParen) then
          var args := if Expect(ts[2..], RParen) then Some(ParsedList([], ts[2..])) else ParseList(ts[2..]);
          if args.Some? && Expect(args.value.rest, RParen)
          then Some(Parsed(Call(Lower(name), args.value.args), args.value.rest[1..]))
          else None
        else Some(Parsed(
          if name == "true" then BoolLit(true) else if name == "false" then BoolLit(false) else Var(name), ts[1..]))
      case _ => None
  }

  /** The argument loop of a call. */
  function ParseList(ts: seq<Tok>): (r: Option<ParsedList>)
    ensures r.Some? ==> r.value.args != [] && ProperSuffix(r.value.rest, ts)
    decreases |ts|, 8
  {
    var head := Parse(OrLevel, ts);
    if head.None? then None
    else if !Expect(head.value.rest, Comma) then Some(ParsedList([head.value.node], head.value.rest))
    else
      var tail := ParseList(head.value.rest[1..]);
      if tail.None? then None else Some(ParsedList([head.value.node] + tail.value.args, tail.value.rest))
  }

  predicate Expect(ts: seq<Tok>, t: Tok) {
    ts != [] && ts[0] == t
  }

  // ---------------------------------------------------------------------------------------------
  // Soundness: what the parser takes off the front derives the tree it returns.
  // ---------------------------------------------------------------------------------------------

  /** The tokens taken when `rest` remains of `ts`. */
  function Taken(ts: seq<Tok>, rest: seq<Tok>): seq<Tok>
    requires |rest| <= |ts|
  {
    ts[..|ts| - |rest|]
  }

  lemma {:induction false} Sound(lv: Level, ts: seq<Tok>)
    requires Parse(lv, ts).Some?
    ensures Derives(lv, Taken(ts, Parse(lv, ts).value.rest), Parse(lv, ts).value.node)
    decreases |ts|, Rank(lv), 2
  {
    match lv
    case OrLevel | AndLevel | AddLevel | MulLevel =>
      var first := Parse(Tighter(lv), ts).value;
      Sound(Tighter(lv), ts);
      SoundChain(lv, ts, first.node, first.rest);
    case NotLevel | UnaryLevel => SoundPrefix(lv, ts);
    case CmpLevel => SoundCmp(ts);
    case PrimaryLevel => SoundPrimary(ts);
  }

  lemma {:induction false} SoundPrefix(lv: Level, ts: seq<Tok>)
    requires IsPrefix(lv) && ParsePrefix(lv, ts).Some?
    ensures var r := ParsePrefix(lv, ts).value; DerivesPrefix(lv, Taken(ts, r.rest), r.node)
    decreases |ts|, Rank(lv), 1
  {
    var r := ParsePrefix(lv, ts).value;
    if Expect(ts, PrefixOp(lv)) {
      Sound(lv, ts[1..]);
      assert Taken(ts, r.rest)[1..] == Taken(ts[1..], r.rest);
    } else {
      Sound(Tighter(lv), ts);
    }
  }

  lemma {:induction false} SoundCmp(ts: seq<Tok>)
    requires ParseCmp(ts).Some?
    ensures var r := ParseCmp(ts).value; DerivesInfix(CmpLevel, AddLevel, Taken(ts, r.rest), r.node)
    decreases |ts|, Rank(CmpLevel), 1
  {
    var r := ParseCmp(ts).value;
    var left := Parse(AddLevel, ts).value;
    Sound(AddLevel, ts);
    if left.rest != [] && IsInfix(CmpLevel, left.rest[0]) {
      Sound(AddLevel, left.rest[1..]);
      SoundStep(CmpLevel, AddLevel, ts, left.rest, left.node, Parse(AddLevel, left.rest[1..]).value);
    }
  }

  /** The loop, standing at the suffix `rest` of `all` with `left` derived from what is before it. */
  lemma {:induction false} SoundChain(lv: Level, all: seq<Tok>, left: Node, rest: seq<Tok>)
    requires IsChain(lv) && ProperSuffix(rest, all) && Chain(lv, left, rest).Some?
    requires Derives(lv, Taken(all, rest), left)
    ensures var r := Chain(lv, left, rest).value; ProperSuffix(r.rest, all) && Derives(lv, Taken(all, r.rest), r.node)
    decreases |rest|, Rank(lv)
  {
    if rest != [] && IsInfix(lv, rest[0]) {
      var right := Parse(Tighter(lv), rest[1..]).value;
      Sound(Tighter(lv), rest[1..]);
      SoundStep(lv, lv, all, rest, left, right);
      SoundChain(lv, all, Binary(rest[0], left, right.node), right.rest);
    }
  }

  /** One binary step: operator at the head of `rest`, right operand taken from `rest[1..]`. */
  lemma {:induction false} SoundStep(
      lv: Level, leftLevel: Level, all: seq<Tok>, rest: seq<Tok>, left: Node, right: Parsed)
    requires lv != PrimaryLevel && Rank(leftLevel) <= Rank(lv)
    requires ProperSuffix(rest, all) && rest != [] && IsInfix(lv, rest[0]) && ProperSuffix(right.rest, rest[1..])
    requires Derives(leftLevel, Taken(all, rest), left)
    requires Derives(Tighter(lv), Taken(rest[1..], right.rest), right.node)
    ensures DerivesInfix(lv, leftLevel, Taken(all, right.rest), Binary(rest[0], left, right.node))
    ensures ProperSuffix(right.rest, all)
  {
    var taken, i := Taken(all, right.rest), |all| - |rest|;
    assert taken[..i] == Taken(all, rest);
    assert taken[i + 1..] == Taken(rest[1..], right.rest);
    assert DerivesAround(lv, leftLevel, taken, Binary(rest[0], left, right.node), i);
  }

  lemma {:induction false} SoundPrimary(ts: seq<Tok>)
    requires ParsePrimary(ts).Some?
    ensures DerivesPrimary(Taken(ts, ParsePrimary(ts).value.rest), ParsePrimary(ts).value.node)
    decreases |ts|, 0, 1
  {
    var r := ParsePrimary(ts).value;
    var taken := Taken(ts, r.rest);
    if ts[0] == LParen {
      var e := Parse(OrLevel, ts[1..]).value;
      Sound(OrLevel, ts[1..]);
      assert taken[1..|taken| - 1] == Taken(ts[1..], e.rest);
      assert Enclosed(taken, 0);
    } else if ts[0].Ident? && Expect(ts[1..], LParen) {
      SoundCall(ts, r);
    } else {
      assert DerivesAtom(taken, r.node);
    }
  }

  lemma {:induction false} SoundCall(ts: seq<Tok>, r: Parsed)
    requires ts != [] && ts[0].Ident? && Expect(ts[1..], LParen) && ParsePrimary(ts) == Some(r)
    ensures DerivesPrimary(Taken(ts, r.rest), r.node)
    decreases |ts|, 0, 0
  {
    var taken := Taken(ts, r.rest);
    var inner := taken[2..|taken| - 1];
    if !Expect(ts[2..], RParen) {
      SoundList(ts[2..]);
      assert inner == Taken(ts[2..], ParseList(ts[2..]).value.rest);
    }
    assert Enclosed(taken, 1);
    assert DerivesCall(ts[0].name, inner, r.node);
  }

  lemma {:induction false} SoundList(ts: seq<Tok>)
    requires ParseList(ts).Some?
    ensures DerivesList(Taken(ts, ParseList(ts).value.rest), ParseList(ts).value.args)
    decreases |ts|, 8
  {
    var r := ParseList(ts).value;
    var head := Parse(OrLevel, ts).value;
    Sound(OrLevel, ts);
    if Expect(head.rest, Comma) {
      SoundList(head.rest[1..]);
      var taken := Taken(ts, r.rest);
      var i := |ts| - |head.rest|;
      assert taken[..i] == Taken(ts, head.rest);
      assert taken[i + 1..] == Taken(head.rest[1..], r.rest);
      assert DerivesHead(taken, r.args, i);
    }
  }

  // ---------------------------------------------------------------------------------------------
  // Completeness: a derivable list is taken whole, whatever follows that cannot extend it.
  // ---------------------------------------------------------------------------------------------

  /** An infix operator of level `lv` or of a tighter one. */
  predicate InfixWithin(lv: Level, t: Tok) {
    exists m: Level :: Rank(m) <= Rank(lv) && IsInfix(m, t)
  }

  /** `rest` does not begin with a token that would extend an expression of level `lv`. */
  predicate CanFollow(lv: Level, rest: seq<Tok>) {
    rest == [] || (rest[0] != LParen && !InfixWithin(lv, rest[0]))
  }

  /** Which tokens can start an expression: `!` only at the three loosest levels. */
  lemma {:induction false} FirstToken(lv: Level, ts: seq<Tok>, n: Node)
    requires Derives(lv, ts, n)
    ensures ts != []
    ensures Rank(lv) <= Rank(CmpLevel) ==> ts[0] != Bang
    ensures lv == PrimaryLevel ==> ts[0] != Minus
    ensures ts[0] != RParen
    decreases |ts|, Rank(lv)
  {
    if lv != PrimaryLevel {
      if Derives(Tighter(lv), ts, n) {
        FirstToken(Tighter(lv), ts, n);
      } else if !IsPrefix(lv) {
        var leftLevel := if lv == CmpLevel then AddLevel else lv;
        assert DerivesInfix(lv, leftLevel, ts, n);
        var i :| DerivesAround(lv, leftLevel, ts, n, i);
        FirstToken(leftLevel, ts[..i], n.left);
      }
    }
  }

  lemma PunctuationFollows(rest: seq<Tok>)
    requires Expect(rest, Comma) || Expect(rest, RParen)
    ensures CanFollow(OrLevel, rest)
  {
  }

  /** `ts` cut at position `i`, with `rest` behind it. */
  lemma CutAt(ts: seq<Tok>, i: nat, rest: seq<Tok>)
    requires i < |ts|
    ensures ts + rest == ts[..i] + (ts[i..] + rest)
    ensures (ts[i..] + rest)[0] == ts[i]
    ensures (ts[i..] + rest)[1..] == ts[i + 1..] + rest
  {
  }

  lemma {:induction false} Complete(lv: Level, ts: seq<Tok>, n: Node, rest: seq<Tok>)
    requires Derives(lv, ts, n) && CanFollow(lv, rest)
    ensures Parse(lv, ts + rest) == Some(Parsed(n, rest))
    decreases |ts|, Rank(lv), 2
  {
    match lv
    case OrLevel | AndLevel | AddLevel | MulLevel => CompleteChain(lv, ts, n, rest);
    case NotLevel | UnaryLevel => CompletePrefix(lv, ts, n, rest);
    case CmpLevel => CompleteCmp(ts, n, rest);
    case PrimaryLevel => CompletePrimary(ts, n, rest);
  }

  /** A chain level takes a derivable chain whole and then stands at its loop with the tree built. */
  lemma {:induction false} CompleteChain(lv: Level, ts: seq<Tok>, n: Node, rest: seq<Tok>)
    requires IsChain(lv) && DerivesInfix(lv, lv, ts, n) && CanFollow(Tighter(lv), rest)
    ensures ParseChain(lv, ts + rest) == Chain(lv, n, rest)
    decreases |ts|, Rank(lv), 1
  {
    if Derives(Tighter(lv), ts, n) {
      Complete(Tighter(lv), ts, n, rest);
    } else {
      var i :| DerivesAround(lv, lv, ts, n, i);
      var rest' := ts[i..] + rest;
      CutAt(ts, i, rest);
      assert Derives(lv, ts[..i], n.left);
      CompleteChain(lv, ts[..i], n.left, rest');
      Complete(Tighter(lv), ts[i + 1..], n.right, rest);
    }
  }

  lemma {:induction false} CompletePrefix(lv: Level, ts: seq<Tok>, n: Node, rest: seq<Tok>)
    requires IsPrefix(lv) && DerivesPrefix(lv, ts, n) && CanFollow(lv, rest)
    ensures ParsePrefix(lv, ts + rest) == Some(Parsed(n, rest))
    decreases |ts|, Rank(lv), 1
  {
    if Derives(Tighter(lv), ts, n) {
      FirstToken(Tighter(lv), ts, n);
      Complete(Tighter(lv), ts, n, rest);
    } else {
      CutAt(ts, 0, rest);
      Complete(lv, ts[1..], n.inner, rest);
    }
  }

  lemma {:induction false} CompleteCmp(ts: seq<Tok>, n: Node, rest: seq<Tok>)
    requires DerivesInfix(CmpLevel, AddLevel, ts, n) && CanFollow(CmpLevel, rest)
    ensures ParseCmp(ts + rest) == Some(Parsed(n, rest))
    decreases |ts|, Rank(CmpLevel), 1
  {
    if Derives(AddLevel, ts, n) {
      Complete(AddLevel, ts, n, rest);
    } else {
      var i :| DerivesAround(CmpLevel, AddLevel, ts, n, i);
      CutAt(ts, i, rest);
      Complete(AddLevel, ts[..i], n.left, ts[i..] + rest);
      Complete(AddLevel, ts[i + 1..], n.right, rest);
    }
  }

  lemma {:induction false} CompletePrimary(ts: seq<Tok>, n: Node, rest: seq<Tok>)
    requires DerivesPrimary(ts, n) && CanFollow(PrimaryLevel, rest)
    ensures ParsePrimary(ts + rest) == Some(Parsed(n, rest))
    decreases |ts|, 0, 1
  {
    var all, closing := ts + rest, [RParen] + rest;
    assert closing[1..] == rest;
    PunctuationFollows(closing);
    if DerivesAtom(ts, n) {
      assert all == [ts[0]] + rest;
    } else if Enclosed(ts, 0) && Derives(OrLevel, ts[1..|ts| - 1], n) {
      assert all[1..] == ts[1..|ts| - 1] + closing;
      Complete(OrLevel, ts[1..|ts| - 1], n, closing);
      ParenStep(all, n, closing);
    } else {
      var inner := ts[2..|ts| - 1];
      assert DerivesCall(ts[0].name, inner, n);
      assert all[2..] == inner + closing;
      CompleteCall(ts[0].name, inner, n, closing);
      CallStep(all, n, closing);
    }
  }

  lemma ParenStep(all: seq<Tok>, n: Node, closing: seq<Tok>)
    requires Expect(all, LParen) && Expect(closing, RParen) && Parse(OrLevel, all[1..]) == Some(Parsed(n, closing))
    ensures ParsePrimary(all) == Some(Parsed(n, closing[1..]))
  {
  }

  lemma CallStep(all: seq<Tok>, n: Node, closing: seq<Tok>)
    requires |all| >= 2 && all[0].Ident? && all[1] == LParen && n.Call? && n.name == Lower(all[0].name)
    requires Expect(closing, RParen)
    requires if n.args == [] then all[2..] == closing
             else !Expect(all[2..], RParen) && ParseList(all[2..]) == Some(ParsedList(n.args, closing))
    ensures ParsePrimary(all) == Some(Parsed(n, closing[1..]))
  {
    assert Expect(all[1..], LParen);
  }

  lemma {:induction false} CompleteCall(name: string, ts: seq<Tok>, n: Node, rest: seq<Tok>)
    requires DerivesCall(name, ts, n) && Expect(rest, RParen)
    ensures if n.args == [] then Expect(ts + rest, RParen) && ts + rest == rest
            else !Expect(ts + rest, RParen) && ParseList(ts + rest) == Some(ParsedList(n.args, rest))
    decreases |ts|, 9
  {
    if n.args == [] {
      assert ts + rest == rest;
    } else {
      ListStart(ts, n.args);
      CompleteList(ts, n.args, rest);
    }
  }

  lemma {:induction false} ListStart(ts: seq<Tok>, args: seq<Node>)
    requires args != [] && DerivesList(ts, args)
    ensures ts != [] && ts[0] != RParen
  {
    if |args| == 1 {
      FirstToken(OrLevel, ts, args[0]);
    } else {
      var i :| DerivesHead(ts, args, i);
      FirstToken(OrLevel, ts[..i], args[0]);
    }
  }

  lemma {:induction false} CompleteList(ts: seq<Tok>, args: seq<Node>, rest: seq<Tok>)
    requires args != [] && DerivesList(ts, args)
    requires Expect(rest, RParen)
    ensures ParseList(ts + rest) == Some(ParsedList(args, rest))
    decreases |ts|, 8
  {
    if |args| == 1 {
      PunctuationFollows(rest);
      Complete(OrLevel, ts, args[0], rest);
      assert args == [args[0]];
    } else {
      var i :| DerivesHead(ts, args, i);
      var rest' := ts[i..] + rest;
      CutAt(ts, i, rest);
      PunctuationFollows(rest');
      Complete(OrLevel, ts[..i], args[0], rest');
      CompleteList(ts[i + 1..], args[1..], rest);
      ListStep(ts + rest, args, rest', rest);
    }
  }

  lemma ListStep(all: seq<Tok>, args: seq<Node>, ts: seq<Tok>, rest: seq<Tok>)
    requires |args| > 1 && Expect(ts, Comma)
    requires Parse(OrLevel, all) == Some(Parsed(args[0], ts))
    requires ParseList(ts[1..]) == Some(ParsedList(args[1..], rest))
    ensures ParseList(all) == Some(ParsedList(args, rest))
  {
    assert args == [args[0]] + args[1..];
  }

  // ---------------------------------------------------------------------------------------------
  // Main results.
  // ---------------------------------------------------------------------------------------------

  /** The parser accepts a whole token list with tree `n` exactly when the grammar derives `n` from it. */
  lemma ParserIsGrammar(lv: Level, ts: seq<Tok>, n: Node)
    ensures Parse(lv, ts) == Some(Parsed(n, [])) <==> Derives(lv, ts, n)
  {
    if Parse(lv, ts) == Some(Parsed(n, [])) {
      Sound(lv, ts);
      assert Taken(ts, []) == ts;
    }
    if Derives(lv, ts, n) {
      Complete(lv, ts, n, []);
      assert ts + [] == ts;
    }
  }

  /** No token list has two trees. */
  lemma GrammarIsUnambiguous(lv: Level, ts: seq<Tok>, n: Node, n': Node)
    requires Derives(lv, ts, n) && Derives(lv, ts, n')
    ensures n == n'
  {
    ParserIsGrammar(lv, ts, n);
    ParserIsGrammar(lv, ts, n');
  }
}
