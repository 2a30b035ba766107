/** The parser object itself: a token vector, a cursor, and one method per precedence level. */
module DslCursor {
  import opened Wrappers
  import opened DslSyntax
  import opened DslGrammar
  import opened DslParser

  class Parser {
    const toks: seq<Tok>
    var pos: nat

    ghost predicate Valid()
      reads this
    {
      pos <= |toks|
    }

    constructor (toks: seq<Tok>)
      ensures Valid() && this.toks == toks && pos == 0
    {
      this.toks, pos := toks, 0;
    }

    function Rest(): seq<Tok>
      requires Valid()
      reads this
    {
      toks[pos..]
    }

    /** The outcome `r` of a method entered on the tokens `before`, of level `lv`. */
    ghost predicate Outcome(lv: Level, before: seq<Tok>, r: Option<Node>)
      requires Valid()
      reads this
    {
      match Parse(lv, before)
      case None => r.None?
      case Some(p) => r == Some(p.node) && Rest() == p.rest && |p.rest| < |before|
    }

    function Peek(): (t: Option<Tok>)
      requires Valid()
      reads this
      ensures t.None? <==> Rest() == []
      ensures t.Some? ==> t.value == Rest()[0]
    {
      if pos < |toks| then Some(toks[pos]) else None
    }

    method Eat() returns (t: Option<Tok>)
      requires Valid()
      modifies this
      ensures Valid() && old(pos) <= pos
      ensures t == old(Peek())
      ensures t.None? ==> pos == old(pos)
      ensures t.Some? ==> Rest() == old(Rest())[1..]
    {
      t := Peek();
      if t.Some? {
        pos := pos + 1;
      }
    }

    method ExpectTok(t: Tok) returns (ok: bool)
      requires Valid()
      modifies this
      ensures Valid() && old(pos) <= pos
      ensures ok == Expect(old(Rest()), t)
      ensures ok ==> Rest() == old(Rest())[1..]
      ensures !ok ==> pos == old(pos)
    {
      ok := Peek() == Some(t);
      if ok {
        pos := pos + 1;
      }
    }

    method ParseOr() returns (r: Option<Node>)
      requires Valid()
      modifies this
      ensures Valid() && old(pos) <= pos && Outcome(OrLevel, old(Rest()), r)
      decreases |toks| - pos, 7
    {
      r := ParseAnd();
      ghost var before := old(Rest());
      if r.None? { return; }
      var left := r.value;
      while Peek() == Some(OrOr)
        invariant Valid() && old(pos) < pos
        invariant Parse(OrLevel, before) == Chain(OrLevel, left, Rest())
        decreases |toks| - pos
      {
        var op := Eat();
        var right := ParseAnd();
        if right.None? { return None; }
        left := Binary(OrOr, left, right.value);
      }
      r := Some(left);
    }

    method ParseAnd() returns (r: Option<Node>)
      requires Valid()
      modifies this
      ensures Valid() && old(pos) <= pos && Outcome(AndLevel, old(Rest()), r)
      decreases |toks| - pos, 6
    {
      r := ParseNot();
      ghost var before := old(Rest());
      if r.None? { return; }
      var left := r.value;
      while Peek() == Some(AndAnd)
        invariant Valid() && old(pos) < pos
        invariant Parse(AndLevel, before) == Chain(AndLevel, left, Rest())
        decreases |toks| - pos
      {
        var op := Eat();
        var right := ParseNot();
        if right.None? { return None; }
        left := Binary(AndAnd, left, right.value);
      }
      r := Some(left);
    }

    method ParseNot() returns (r: Option<Node>)
      requires Valid()
      modifies this
      ensures Valid() && old(pos) <= pos && Outcome(NotLevel, old(Rest()), r)
      decreases |toks| - pos, 5
    {
      ghost var before := Rest();
      assert Parse(NotLevel, before) == ParsePrefix(NotLevel, before);
      if Peek() == Some(Bang) {
        var op := Eat();
        var inner := ParseNot();
        if inner.None? { return None; }
        return Some(Unary(Bang, inner.value));
      }
      r := ParseCompare();
    }

    method ParseCompare() returns (r: Option<Node>)
      requires Valid()
      modifies this
      ensures Valid() && old(pos) <= pos && Outcome(CmpLevel, old(Rest()), r)
      decreases |toks| - pos, 4
    {
      ghost var before := Rest();
      assert Parse(CmpLevel, before) == ParseCmp(before);
      r := ParseAdd();
      if r.None? { return; }
      var left := r.value;
      if Peek().Some? && IsInfix(CmpLevel, Peek().value) {
        var op := Eat();
        var right := ParseAdd();
        if right.None? { return None; }
        return Some(Binary(op.value, left, right.value));
      }
    }

    method ParseAdd() returns (r: Option<Node>)
      requires Valid()
      modifies this
      ensures Valid() && old(pos) <= pos && Outcome(AddLevel, old(Rest()), r)
      decreases |toks| - pos, 3
    {
      r := ParseMul();
      ghost var before := old(Rest());
      if r.None? { return; }
      var left := r.value;
      while Peek().Some? && (Peek().value == Plus || Peek().value == Minus)
        invariant Valid() && old(pos) < pos
        invariant Parse(AddLevel, before) == Chain(AddLevel, left, Rest())
        decreases |toks| - pos
      {
        var op := Eat();
        var right := ParseMul();
        if right.None? { return None; }
        left := Binary(op.value, left, right.value);
      }
      r := Some(left);
    }

    method ParseMul() returns (r: Option<Node>)
      requires Valid()
      modifies this
      ensures Valid() && old(pos) <= pos && Outcome(MulLevel, old(Rest()), r)
      decreases |toks| - pos, 2
    {
      r := ParseUnary();
      ghost var before := old(Rest());
      if r.None? { return; }
      var left := r.value;
      while Peek().Some? && (Peek().value == Star || Peek().value == Slash)
        invariant Valid() && old(pos) < pos
        invariant Parse(MulLevel, before) == Chain(MulLevel, left, Rest())
        decreases |toks| - pos
      {
        var op := Eat();
        var right := ParseUnary();
        if right.None? { return None; }
        left := Binary(op.value, left, right.value);
      }
      r := Some(left);
    }

    method ParseUnary() returns (r: Option<Node>)
      requires Valid()
      modifies this
      ensures Valid() && old(pos) <= pos && Outcome(UnaryLevel, old(Rest()), r)
      decreases |toks| - pos, 1
    {
      ghost var before := Rest();
      assert Parse(UnaryLevel, before) == ParsePrefix(UnaryLevel, before);
      if Peek() == Some(Minus) {
        var op := Eat();
        var inner := ParseUnary();
        if inner.None? { return None; }
        return Some(Unary(Minus, inner.value));
      }
      r := ParseAtom();
    }

    method ParseAtom() returns (r: Option<Node>)
      requires Valid()
      modifies this
      ensures Valid() && old(pos) <= pos && Outcome(PrimaryLevel, old(Rest()), r)
      decreases |toks| - pos, 0
    {
      ghost var before := Rest();
      assert Parse(PrimaryLevel, before) == ParsePrimary(before);
      var t := Eat();
      if t.None? { return None; }
      match t.value
      case Num(v) => r := Some(NumLit(v));
      case Str(s) => r := Some(StrLit(s));
      case LParen =>
        r := ParseOr();
        if r.None? { return; }
        var closed := ExpectTok(RParen);
        if !closed { return None; }
      case Ident(name) =>
        if Peek() == Some(LParen) {
          assert before == [Ident(name)] + Rest();
          r := ParseArgs(name);
        } else if name == "true" {
          r := Some(BoolLit(true));
        } else if name == "false" {
          r := Some(BoolLit(false));
        } else {
          r := Some(Var(name));
        }
      case _ => r := None;
    }

    /** The argument loop of a call, entered at the opening parenthesis. */
    method ParseArgs(name: string) returns (r: Option<Node>)
      requires Valid() && Peek() == Some(LParen)
      modifies this
      ensures Valid() && old(pos) <= pos
      ensures Outcome(PrimaryLevel, [Ident(name)] + old(Rest()), r)
      decreases |toks| - pos, 9
    {
      ghost var before := [Ident(name)] + old(Rest());
      assert Parse(PrimaryLevel, before) == ParsePrimary(before);
      var open := Eat();
      assert before[2..] == Rest() && before[1..] == old(Rest());
      var args: seq<Node> := [];
      if Peek() != Some(RParen) {
        var list := ParseArgLoop();
        if list.None? { return None; }
        args := list.value;
      }
      var closed := ExpectTok(RParen);
      if !closed { return None; }
      r := Some(Call(Lower(name), args));
    }

    method ParseArgLoop() returns (r: Option<seq<Node>>)
      requires Valid()
      modifies this
      ensures Valid() && old(pos) <= pos
      ensures match ParseList(old(Rest()))
              case None => r.None?
              case Some(list) => r == Some(list.args) && Rest() == list.rest
      decreases |toks| - pos, 8
    {
      ghost var start := Rest();
      var args: seq<Node> := [];
      var more := true;
      assert Prepend([], ParseList(start)) == ParseList(start) by {
        if ParseList(start).Some? {
          assert [] + ParseList(start).value.args == ParseList(start).value.args;
        }
      }
      while more
        invariant Valid() && old(pos) <= pos
        invariant more ==> ParseList(start) == Prepend(args, ParseList(Rest()))
        invariant !more ==> ParseList(start) == Some(ParsedList(args, Rest()))
        decreases |toks| - pos, more
      {
        ghost var here := Rest();
        var arg := ParseOr();
        if arg.None? { return None; }
        more := Peek() == Some(Comma);
        if more {
          var comma := Eat();
          PrependStep(args, here, arg.value);
        }
        args := args + [arg.value];
      }
      r := Some(args);
    }

    static lemma PrependStep(args: seq<Node>, here: seq<Tok>, arg: Node)
      requires var p := Parse(OrLevel, here); p.Some? && p.value.node == arg && Expect(p.value.rest, Comma)
      ensures Prepend(args, ParseList(here)) == Prepend(args + [arg], ParseList(Parse(OrLevel, here).value.rest[1..]))
    {
      var tail := ParseList(Parse(OrLevel, here).value.rest[1..]);
      if tail.Some? {
        assert args + ([arg] + tail.value.args) == args + [arg] + tail.value.args;
      }
    }

    static ghost function Prepend(args: seq<Node>, tail: Option<ParsedList>): Option<ParsedList> {
      if tail.None? then None else Some(ParsedList(args + tail.value.args, tail.value.rest))
    }
  }

  /** Parsing a whole expression: a tree exactly when the grammar derives one from all the tokens. */
  method ParseWhole(toks: seq<Tok>) returns (r: Option<Node>)
    ensures forall n :: r == Some(n) <==> Derives(OrLevel, toks, n)
  {
    var p := new Parser(toks);
    assert p.Rest() == toks;
    r := p.ParseOr();
    if r.Some? && p.pos != |p.toks| {
      r := None;
    }
    forall n
      ensures r == Some(n) <==> Derives(OrLevel, toks, n)
    {
      ParserIsGrammar(OrLevel, toks, n);
    }
  }
}
