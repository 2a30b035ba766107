/**
 What matcher texts are worth, operator by operator and function by function, in terms of what the texts of the
 operands are worth.
 */
module DslValues {
  import opened Wrappers
  import opened DslSyntax
  import opened DslLexis
  import opened DslEval
  import opened DslMeaning
  import Arithmetic
  import Bytes
  import DslPrinter
  import DslUnicode

  // ---------------------------------------------------------------------------------------------
  // Values as numbers and as texts.
  // ---------------------------------------------------------------------------------------------

  /** The number a value counts as: a truth value one or zero, a text what it reads as, or zero. */
  predicate CountsAs(h: Host, v: Val, x: real) {
    match v
    case NumVal(n) => x == n
    case BoolVal(b) => x == (if b then 1.0 else 0.0)
    case StrVal(s) =>
      h.parseNumber(h.trim(s)) == Some(x) || (h.parseNumber(h.trim(s)) == None && x == 0.0)
  }

  /** Digits without a superfluous zero in front. */
  predicate IsCount(s: string, n: nat) {
    s != [] && AllDigits(s) && NatOf(s) == n && (|s| > 1 ==> s[0] != '0')
  }

  predicate IsWhole(s: string, n: int) {
    if n >= 0 then IsCount(s, n) else s != [] && s[0] == '-' && IsCount(s[1..], -n)
  }

  /** The text a value reads as: whole numbers in digits, as far as 64 bits go. */
  predicate ReadsAs(h: Host, v: Val, s: string) {
    match v
    case StrVal(t) => s == t
    case BoolVal(b) => s == (if b then "true" else "false")
    case NumVal(n) =>
      if n.Floor as real != n then s == h.showFraction(n)
      else if n >= 9223372036854775807.0 then IsWhole(s, 9223372036854775807)
      else if n <= -9223372036854775808.0 then IsWhole(s, -9223372036854775808)
      else IsWhole(s, n.Floor)
  }

  lemma {:induction false} DigitsAreCount(m: nat)
    ensures IsCount(DslPrinter.Digits(m, 0), m)
  {
    if m >= 10 {
      DigitsAreCount(m / 10);
      assert DslPrinter.Digits(m, 0)[0] == DslPrinter.Digits(m / 10, 0)[0];
    }
  }

  /** There is one such text only. */
  lemma {:induction false} CountIsUnique(s: string, t: string, n: nat)
    requires IsCount(s, n) && IsCount(t, n)
    ensures s == t
    decreases n
  {
    LastOfCount(s, n);
    LastOfCount(t, n);
    if n >= 10 {
      CountIsUnique(s[..|s| - 1], t[..|t| - 1], n / 10);
      assert s == s[..|s| - 1] + [s[|s| - 1]] && t == t[..|t| - 1] + [t[|t| - 1]];
    }
  }

  lemma LastOfCount(s: string, n: nat)
    requires IsCount(s, n)
    ensures DigitValue(s[|s| - 1]) == n % 10
    ensures if n < 10 then |s| == 1 else |s| > 1 && IsCount(s[..|s| - 1], n / 10)
  {
    var front := s[..|s| - 1];
    assert s[|s| - 1] in s && forall c :: c in front ==> c in s;
    if |s| > 1 {
      LeadingCounts(front);
      assert front[0] == s[0];
    }
  }

  lemma {:induction false} LeadingCounts(s: string)
    requires s != [] && AllDigits(s) && s[0] != '0'
    ensures NatOf(s) > 0
  {
    var front := s[..|s| - 1];
    assert s[0] in s && s[|s| - 1] in s && forall c :: c in front ==> c in s;
    if |s| > 1 {
      LeadingCounts(front);
    }
  }

  lemma IntTextIsWhole(n: int, s: string)
    ensures IsWhole(s, n) <==> s == IntText(n)
  {
    hide DslPrinter.Digits;
    var m: nat := if n < 0 then -n else n;
    DigitsAreCount(m);
    if IsWhole(s, n) {
      CountIsUnique(if n < 0 then s[1..] else s, DslPrinter.Digits(m, 0), m);
      assert n < 0 ==> s == "-" + s[1..];
    }
    assert n < 0 ==> ("-" + DslPrinter.Digits(m, 0))[1..] == DslPrinter.Digits(m, 0);
  }

  lemma ReadsExactly(h: Host, v: Val, s: string)
    ensures ReadsAs(h, v, s) <==> s == ToStr(h, v)
  {
    hide IsWhole, IntText;
    if v.NumVal? && v.value.Floor as real == v.value {
      var n := v.value.Floor;
      IntTextIsWhole(if n > I64_MAX then I64_MAX else if n < -I64_MAX - 1 then -I64_MAX - 1 else n, s);
    }
  }

  lemma CountsExactly(h: Host, v: Val, x: real)
    ensures CountsAs(h, v, x) <==> x == ToNum(h, v)
  {
  }

  // ---------------------------------------------------------------------------------------------
  // Operators.
  // ---------------------------------------------------------------------------------------------

  /** `s` denotes the combination by `op` of what `l` and `r` denote, whose values are `v` and `w`; one such text is
      `BinaryText(l, op, r)`. */
  ghost predicate Combines(h: Host, c: Ctx, s: string, l: string, v: Val, op: Tok, r: string, w: Val) {
    && ValueOf(h, l, c) == Some(v) && ValueOf(h, r, c) == Some(w)
    && DslPrinter.ParseText(s)
       == Some(Binary(op, DslPrinter.ParseText(l).value, DslPrinter.ParseText(r).value))
  }

  lemma BinaryTextCombines(h: Host, c: Ctx, l: string, v: Val, op: Tok, r: string, w: Val)
    requires ValueOf(h, l, c) == Some(v) && ValueOf(h, r, c) == Some(w) && DslPrinter.IsOperator(op)
    ensures Combines(h, c, BinaryText(l, op, r), l, v, op, r, w)
  {
    hide DslPrinter.ParseText, Eval;
    BinaryDenotes(l, DslPrinter.ParseText(l).value, op, r, DslPrinter.ParseText(r).value);
  }

  lemma CombinedValue(h: Host, c: Ctx, s: string, l: string, v: Val, op: Tok, r: string, w: Val)
    requires Combines(h, c, s, l, v, op, r, w) && op != AndAnd && op != OrOr
    ensures ValueOf(h, s, c) == Some(EvalOperator(h, op, v, w))
  {
    hide DslPrinter.ParseText, EvalOperator;
  }

  /** Comparisons compare the numbers the operands count as. */
  lemma ComparisonsCompare(
      h: Host, c: Ctx, s: string, l: string, v: Val, op: Tok, r: string, w: Val, x: real, y: real)
    requires Combines(h, c, s, l, v, op, r, w) && CountsAs(h, v, x) && CountsAs(h, w, y)
    ensures op == Lt ==> ValueOf(h, s, c) == Some(BoolVal(x < y))
    ensures op == Le ==> ValueOf(h, s, c) == Some(BoolVal(x <= y))
    ensures op == Gt ==> ValueOf(h, s, c) == Some(BoolVal(x > y))
    ensures op == Ge ==> ValueOf(h, s, c) == Some(BoolVal(x >= y))
  {
    hide Combines, ValueOf, ToNum, CountsAs;
    CountsExactly(h, v, x);
    CountsExactly(h, w, y);
    if op != AndAnd && op != OrOr {
      CombinedValue(h, c, s, l, v, op, r, w);
    }
  }

  lemma OperatorOnNumbers(h: Host, op: Tok, v: Val, w: Val, x: real, y: real)
    requires x == ToNum(h, v) && y == ToNum(h, w)
    ensures op == Minus ==> EvalOperator(h, op, v, w) == NumVal(x - y)
    ensures op == Star ==> EvalOperator(h, op, v, w) == NumVal(x * y)
    ensures op == Slash && y == 0.0 ==> EvalOperator(h, op, v, w) == NumVal(0.0)
    ensures op == Slash && y != 0.0 ==> EvalOperator(h, op, v, w) == NumVal(x / y)
  {
  }

  lemma QuotientTimes(x: real, y: real)
    requires y != 0.0
    ensures x / y * y == x
  {
  }

  /** Arithmetic is that of the numbers; dividing by zero gives zero. */
  lemma ArithmeticIsExact(
      h: Host, c: Ctx, s: string, l: string, v: Val, op: Tok, r: string, w: Val, x: real, y: real)
    requires Combines(h, c, s, l, v, op, r, w) && CountsAs(h, v, x) && CountsAs(h, w, y)
    ensures op == Minus ==> ValueOf(h, s, c) == Some(NumVal(x - y))
    ensures op == Star ==> ValueOf(h, s, c) == Some(NumVal(x * y))
    ensures op == Slash && y == 0.0 ==> ValueOf(h, s, c) == Some(NumVal(0.0))
    ensures op == Slash && y != 0.0 ==>
      ValueOf(h, s, c).Some? && ValueOf(h, s, c).value.NumVal? && ValueOf(h, s, c).value.value * y == x
  {
    hide Combines, ValueOf, CountsAs, EvalOperator;
    CountsExactly(h, v, x);
    CountsExactly(h, w, y);
    if op == Minus || op == Star || op == Slash {
      OperatorOnNumbers(h, op, v, w, x, y);
      CombinedValue(h, c, s, l, v, op, r, w);
    }
    if y != 0.0 {
      QuotientTimes(x, y);
    }
  }

  /** A sum adds two numbers, and otherwise joins two texts. */
  lemma SumsAddOrJoin(
      h: Host, c: Ctx, s: string, l: string, v: Val, r: string, w: Val, a: string, b: string)
    requires Combines(h, c, s, l, v, Plus, r, w) && ReadsAs(h, v, a) && ReadsAs(h, w, b)
    ensures ValueOf(h, s, c)
            == Some(if v.NumVal? && w.NumVal? then NumVal(v.value + w.value) else StrVal(a + b))
  {
    hide Combines, ValueOf, ToStr, ReadsAs;
    ReadsExactly(h, v, a);
    ReadsExactly(h, w, b);
    CombinedValue(h, c, s, l, v, Plus, r, w);
  }

  /** Values are equal as numbers, to within 2^-52, if one of them is a number; else as truth values if one is; else as
      texts. */
  predicate SameValue(h: Host, v: Val, w: Val, x: real, y: real) {
    if v.NumVal? || w.NumVal? then -1.0 < 4503599627370496.0 * (x - y) < 1.0
    else if v.BoolVal? || w.BoolVal? then IsTrue(v) == IsTrue(w)
    else v == w
  }

  lemma EqualityCompares(
      h: Host, c: Ctx, s: string, l: string, v: Val, op: Tok, r: string, w: Val, x: real, y: real)
    requires Combines(h, c, s, l, v, op, r, w) && CountsAs(h, v, x) && CountsAs(h, w, y)
    ensures op == EqEq ==> ValueOf(h, s, c) == Some(BoolVal(SameValue(h, v, w, x, y)))
    ensures op == NotEq ==> ValueOf(h, s, c) == Some(BoolVal(!SameValue(h, v, w, x, y)))
  {
    hide Combines, ValueOf, ToNum, CountsAs;
    CountsExactly(h, v, x);
    CountsExactly(h, w, y);
    if op != AndAnd && op != OrOr {
      CombinedValue(h, c, s, l, v, op, r, w);
    }
  }

  /** Conjunction and disjunction, on what counts as true. */
  lemma ConnectivesConnect(h: Host, c: Ctx, s: string, l: string, v: Val, op: Tok, r: string, w: Val)
    requires Combines(h, c, s, l, v, op, r, w)
    ensures op == AndAnd ==> ValueOf(h, s, c) == Some(BoolVal(IsTrue(v) && IsTrue(w)))
    ensures op == OrOr ==> ValueOf(h, s, c) == Some(BoolVal(IsTrue(v) || IsTrue(w)))
  {
    hide DslPrinter.ParseText, EvalOperator;
  }

  /** Negation of truth and of numbers; `MarkText(op) + Parens(l)` is one such text. */
  lemma PrefixesNegate(h: Host, c: Ctx, s: string, op: Tok, l: string, v: Val, x: real)
    requires ValueOf(h, l, c) == Some(v) && CountsAs(h, v, x)
    requires DslPrinter.ParseText(s) == Some(Unary(op, DslPrinter.ParseText(l).value))
    ensures op == Bang ==> ValueOf(h, s, c) == Some(BoolVal(!IsTrue(v)))
    ensures op == Minus ==> ValueOf(h, s, c) == Some(NumVal(-x))
  {
    hide DslPrinter.ParseText, EvalOperator, CountsAs, ToNum;
    CountsExactly(h, v, x);
  }

  // ---------------------------------------------------------------------------------------------
  // Literals and variables.
  // ---------------------------------------------------------------------------------------------

  /** A numeral, a quoted text, `true` and `false` are worth what they say. */
  lemma LiteralsAreWorth(h: Host, c: Ctx, s: string, x: real, text: string)
    ensures Spells(Tok.Num(x), s) ==> ValueOf(h, s, c) == Some(NumVal(x))
    ensures Spells(Tok.Str(text), s) ==> ValueOf(h, s, c) == Some(StrVal(text))
    ensures ValueOf(h, "true", c) == Some(BoolVal(true)) && ValueOf(h, "false", c) == Some(BoolVal(false))
  {
    hide DslPrinter.ParseText, Spells;
    if Spells(Tok.Num(x), s) {
      AtomDenotes(Tok.Num(x), s);
    }
    if Spells(Tok.Str(text), s) {
      AtomDenotes(Tok.Str(text), s);
    }
    NamesSpell("true");
    NamesSpell("false");
    AtomDenotes(Ident("true"), "true");
    AtomDenotes(Ident("false"), "false");
  }

  lemma NamesSpell(name: string)
    ensures IsName(name) <==> Spells(Ident(name), name)
  {
  }

  /** The names of the parts of a response, under each of their spellings; any other name is the empty text. */
  lemma NamesAreParts(h: Host, c: Ctx, s: string)
    requires IsName(s) && s != "true" && s != "false"
    ensures s == "status_code" || s == "status" ==> ValueOf(h, s, c) == Some(NumVal(c.statusCode as real))
    ensures s == "body" ==> ValueOf(h, s, c) == Some(StrVal(c.body))
    ensures s == "header" || s == "headers" || s == "all_headers" ==> ValueOf(h, s, c) == Some(StrVal(c.headers))
    ensures s == "content_length" ==> ValueOf(h, s, c) == Some(NumVal(c.contentLength as real))
    ensures s !in {"status_code", "status", "body", "header", "headers", "all_headers", "content_length"} ==>
      ValueOf(h, s, c) == Some(StrVal(""))
  {
    hide DslPrinter.ParseText;
    AtomDenotes(Ident(s), s);
  }

  // ---------------------------------------------------------------------------------------------
  // Functions.
  // ---------------------------------------------------------------------------------------------

  /** `s` denotes the call of `name`, in lower case, on what the texts `args` denote, whose values read as `texts`; one
      such text is `CallText(name, args)`. */
  ghost predicate Calls(h: Host, c: Ctx, s: string, name: string, args: seq<string>, texts: seq<string>) {
    && |args| == |texts|
    && (forall i :: 0 <= i < |args| ==> ReadsValue(h, c, args[i], texts[i]))
    && DslPrinter.ParseText(s).Some? && DslPrinter.ParseText(s).value.Call?
    && DslPrinter.ParseText(s).value.name == name && AllDenote(args, DslPrinter.ParseText(s).value.args)
  }

  ghost predicate ReadsValue(h: Host, c: Ctx, arg: string, text: string) {
    ValueOf(h, arg, c).Some? && ReadsAs(h, ValueOf(h, arg, c).value, text)
  }

  lemma {:induction false} ArgsRead(h: Host, c: Ctx, args: seq<string>, nodes: seq<Node>, texts: seq<string>, i: nat)
    requires AllDenote(args, nodes) && |texts| == |args|
    requires forall j :: 0 <= j < |args| ==> ReadsValue(h, c, args[j], texts[j])
    ensures Arg(h, EvalAll(h, c, nodes), i) == if i < |texts| then texts[i] else ""
    decreases i
  {
    hide DslPrinter.ParseText, Eval, ToStr, ReadsAs;
    if nodes != [] {
      if i == 0 {
        assert ReadsValue(h, c, args[0], texts[0]);
        ReadsExactly(h, Eval(h, c, nodes[0]), texts[0]);
      } else {
        assert forall j :: 0 <= j < |args[1..]| ==> args[1..][j] == args[j + 1] && nodes[1..][j] == nodes[j + 1];
        assert forall j :: 0 <= j < |args[1..]| ==> texts[1..][j] == texts[j + 1];
        ArgsRead(h, c, args[1..], nodes[1..], texts[1..], i - 1);
      }
    }
  }

  lemma CalledValue(h: Host, c: Ctx, s: string, name: string, args: seq<string>, texts: seq<string>)
    returns (vs: seq<Val>)
    requires Calls(h, c, s, name, args, texts)
    ensures ValueOf(h, s, c) == Some(EvalCall(h, c, name, vs)) && |vs| == |texts|
    ensures forall i: nat :: Arg(h, vs, i) == if i < |texts| then texts[i] else ""
  {
    hide EvalCall, DslPrinter.ParseText, Arg, ReadsAs;
    var nodes := DslPrinter.ParseText(s).value.args;
    vs := EvalAll(h, c, nodes);
    forall i: nat
      ensures Arg(h, vs, i) == if i < |texts| then texts[i] else ""
    {
      ArgsRead(h, c, args, nodes, texts, i);
    }
  }

  /** `part` stands somewhere in `whole`. */
  ghost predicate Within(part: string, whole: string) {
    exists a, b :: whole == Around(a, part, b)
  }

  function Around(a: string, part: string, b: string): string {
    a + part + b
  }

  lemma ContainsIsWithin(hay: string, needle: string)
    ensures Contains(hay, needle) <==> Within(needle, hay)
  {
    if Contains(hay, needle) {
      var i :| 0 <= i <= |hay| && Bytes.OccursAt(hay, needle, i);
      assert hay == Around(hay[..i], needle, hay[i + |needle|..]);
    }
    if Within(needle, hay) {
      var a, b :| hay == Around(a, needle, b);
      assert Bytes.OccursAt(hay, needle, |a|);
    }
  }

  function TextAt(texts: seq<string>, i: nat): string {
    if i < |texts| then texts[i] else ""
  }

  /** The search functions say whether the texts stand in the first one: anywhere, in front, at the end, any, all. */
  lemma SearchesFind(h: Host, c: Ctx, s: string, name: string, args: seq<string>, texts: seq<string>)
    requires Calls(h, c, s, name, args, texts)
    ensures var first, second := TextAt(texts, 0), TextAt(texts, 1);
      && (name == "contains" ==> ValueOf(h, s, c) == Some(BoolVal(Within(second, first))))
      && (name == "icontains" ==> ValueOf(h, s, c) == Some(BoolVal(Within(h.lower(second), h.lower(first)))))
      && (name == "startswith" ==> ValueOf(h, s, c) == Some(BoolVal(exists b :: first == Around("", second, b))))
      && (name == "endswith" ==> ValueOf(h, s, c) == Some(BoolVal(exists a :: first == Around(a, second, ""))))
  {
    hide Calls, ValueOf, Arg, Contains, Within;
    var vs := CalledValue(h, c, s, name, args, texts);
    var first, second := TextAt(texts, 0), TextAt(texts, 1);
    ContainsIsWithin(first, second);
    ContainsIsWithin(h.lower(first), h.lower(second));
    if second <= first {
      assert first == Around("", second, first[|second|..]);
    }
    if |second| <= |first| && first[|first| - |second|..] == second {
      assert first == Around(first[..|first| - |second|], second, "");
    }
  }

  lemma AnyAndAllFind(h: Host, c: Ctx, s: string, name: string, args: seq<string>, texts: seq<string>)
    requires Calls(h, c, s, name, args, texts)
    ensures name == "contains_any" || name == "equals_any" ==>
      ValueOf(h, s, c) == Some(BoolVal(exists i :: 1 <= i < |texts| && Within(texts[i], texts[0])))
    ensures name == "contains_all" ==>
      ValueOf(h, s, c) == Some(BoolVal(forall i :: 1 <= i < |texts| ==> Within(texts[i], texts[0])))
  {
    hide Calls, ValueOf, Arg, Contains, Within;
    var vs := CalledValue(h, c, s, name, args, texts);
    forall i | 1 <= i < |texts|
      ensures Contains(texts[0], texts[i]) <==> Within(texts[i], texts[0])
      ensures Arg(h, vs, i) == texts[i] && Arg(h, vs, 0) == texts[0]
    {
      ContainsIsWithin(texts[0], texts[i]);
    }
  }

  /** The other functions: length in bytes, the library's case mapping, trimming and matching, and the status. */
  lemma FunctionsCompute(h: Host, c: Ctx, s: string, name: string, args: seq<string>, texts: seq<string>)
    requires Calls(h, c, s, name, args, texts)
    ensures var first, second := TextAt(texts, 0), TextAt(texts, 1);
      && (name == "len" ==> ValueOf(h, s, c).Some? && ValueOf(h, s, c).value.NumVal?
                            && ValueOf(h, s, c).value.value >= |first| as real
                            && (ValueOf(h, s, c).value.value == |first| as real <==> DslUnicode.IsAscii(first)))
      && (name == "tolower" ==> ValueOf(h, s, c) == Some(StrVal(h.lower(first))))
      && (name == "toupper" ==> ValueOf(h, s, c) == Some(StrVal(h.upper(first))))
      && (name == "trim" ==> ValueOf(h, s, c) == Some(StrVal(h.trim(first))))
      && (name == "regex" ==> ValueOf(h, s, c) == Some(BoolVal(h.matches(first, second) == Some(true))))
      && (name == "status_code" ==> ValueOf(h, s, c) == Some(NumVal(c.statusCode as real)))
    ensures name !in {"contains", "icontains", "startswith", "endswith", "equals_any", "contains_any", "contains_all"}
            && name !in {"len", "tolower", "toupper", "trim", "regex", "status_code"} ==>
              ValueOf(h, s, c) == Some(StrVal(""))
  {
    hide Calls, ValueOf, Arg, DslUnicode.Utf8All;
    var vs := CalledValue(h, c, s, name, args, texts);
    DslUnicode.EncodingKeepsAsciiOnly(TextAt(texts, 0));
  }
}
