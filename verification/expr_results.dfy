/** From the text of an expression to its value: tokeniser, conversion, bounded queue and evaluation together. */
module ExprResults {
  import opened Wrappers
  import opened ExprContainers
  import opened ExprMachine
  import opened ExprLanguage
  import opened ExprPrecedence

  // ----- evaluating the suffix form -----

  lemma {:induction false} CalConcat(stack: seq<int>, a: seq<Item>, b: seq<Item>)
    ensures CalFrom(stack, a + b)
            == match CalFrom(stack, a) case None => None case Some(stack') => CalFrom(stack', b)
    decreases |b|
  {
    if |b| == 0 {
      assert a + b == a;
    } else {
      assert (a + b)[..|a + b| - 1] == a + b[..|b| - 1];
      CalConcat(stack, a, b[..|b| - 1]);
    }
  }

  lemma CalOne(stack: seq<int>, v: Item)
    ensures CalFrom(stack, [v]) == CalStep(stack, v)
  {
    assert [v][..0] == [];
    assert CalFrom(stack, [v][..0]) == Some(stack);
  }

  ghost function Pushed(stack: seq<int>, v: Option<int>): Option<seq<int>> {
    match v
    case None => None
    case Some(n) => Some(stack + [n])
  }

  predicate TreeOk(t: Tree) {
    match t
    case Leaf(text) => IsNumber(text)
    case Node(op, l, r) => IsArithmetic(op) && TreeOk(l) && TreeOk(r)
  }

  lemma OperatorEvaluates(stack: seq<int>, a: int, b: int, op: char)
    requires IsArithmetic(op)
    ensures CalFrom(stack + [a] + [b], [Op(op)]) == Pushed(stack, Apply(op, a, b))
  {
    var both := stack + [a] + [b];
    CalOne(both, Op(op));
    assert both[..|both| - 2] == stack;
  }

  /** The suffix form of a tree pushes its meaning, and panics when it has none. */
  lemma {:induction false} PostfixEvaluates(stack: seq<int>, t: Tree)
    requires TreeOk(t)
    ensures CalFrom(stack, Postfix(t)) == Pushed(stack, Meaning(t))
    decreases t
  {
    match t
    case Leaf(text) =>
      CalOne(stack, Text(text));
    case Node(op, l, r) =>
      CalConcat(stack, Postfix(l) + Postfix(r), [Op(op)]);
      CalConcat(stack, Postfix(l), Postfix(r));
      PostfixEvaluates(stack, l);
      match Meaning(l)
      case None =>
      case Some(a) =>
        PostfixEvaluates(stack + [a], r);
        match Meaning(r)
        case None =>
        case Some(b) =>
          OperatorEvaluates(stack, a, b, op);
  }

  // ----- more items than the queue holds -----

  lemma {:induction false} PostfixLength(t: Tree)
    ensures |Postfix(t)| == 2 * Leaves(t) - 1
  {
    if t.Node? {
      PostfixLength(t.l);
      PostfixLength(t.r);
    }
  }

  predicate NoInts(items: seq<Item>) {
    forall i :: 0 <= i < |items| ==> !items[i].Int?
  }

  lemma {:induction false} PostfixNoInts(t: Tree)
    ensures NoInts(Postfix(t))
  {
    if t.Node? {
      PostfixNoInts(t.l);
      PostfixNoInts(t.r);
    }
  }

  ghost predicate Parity(r: Option<seq<int>>, n: nat) {
    r.Some? ==> |r.value| % 2 == n % 2 && (n > 0 ==> |r.value| >= 1)
  }

  lemma StepParity(stack: seq<int>, v: Item, n: nat)
    requires !v.Int? && Parity(Some(stack), n)
    ensures Parity(CalStep(stack, v), n + 1)
  {
  }

  /** Every item changes the height of the stack by one: its parity is the number of items. */
  lemma {:induction false} StackParity(items: seq<Item>)
    requires NoInts(items)
    ensures Parity(CalFrom([], items), |items|)
  {
    if |items| > 0 {
      var n := |items| - 1;
      StackParity(items[..n]);
      match CalFrom([], items[..n])
      case None =>
      case Some(stack) =>
        StepParity(stack, items[n], n);
    }
  }

  /** An even number of items never evaluates to a single result: a queue of even capacity that has dropped
      items makes the evaluator panic, never return a wrong value. */
  lemma DroppedItemsPanic(items: seq<Item>, cap: nat)
    requires NoInts(items) && |items| > cap && cap >= 2 && cap % 2 == 0
    ensures Evaluated(Kept(items, cap)) == None
  {
    StackParity(Kept(items, cap));
  }

  // ----- the tokens of a text -----

  predicate Blank(s: string) {
    forall i :: 0 <= i < |s| ==> !IsDigit(s[i]) && !IsOperator(s[i])
  }

  predicate IsToken(t: string) {
    IsNumber(t) || IsOperatorToken(t)
  }

  /** The text with tokens ts, preceded by the blanks gaps[0], gaps[1], ... and followed by the last blanks. */
  function Layout(gaps: seq<string>, ts: seq<string>): string
    requires |gaps| == |ts| + 1
  {
    if ts == [] then gaps[0] else gaps[0] + ts[0] + Layout(gaps[1..], ts[1..])
  }

  /** Two numbers in a row have a gap between them. */
  predicate Apart(gaps: seq<string>, ts: seq<string>, i: nat)
    requires |gaps| == |ts| + 1 && i + 1 < |ts|
  {
    IsNumber(ts[i]) && IsNumber(ts[i + 1]) ==> gaps[i + 1] != ""
  }

  /** The gaps are blank, and there is one wherever two numbers would run together. */
  ghost predicate Spaced(gaps: seq<string>, ts: seq<string>) {
    && |gaps| == |ts| + 1
    && (forall i :: 0 <= i < |gaps| ==> Blank(gaps[i]))
    && (forall i :: 0 <= i < |ts| ==> IsToken(ts[i]))
    && (forall i :: 0 <= i < |ts| - 1 ==> Apart(gaps, ts, i))
  }

  /** The number of digits at the front of s. */
  function Digits(s: string): nat {
    if s != "" && IsDigit(s[0]) then 1 + Digits(s[1..]) else 0
  }

  /** The tokeniser reading its text from the front. */
  function Tokens(s: string): seq<string>
    decreases |s|
  {
    if s == "" then []
    else if IsDigit(s[0]) then
      DigitsBound(s);
      [s[..Digits(s)]] + Tokens(s[Digits(s)..])
    else (if IsOperator(s[0]) then [[s[0]]] else []) + Tokens(s[1..])
  }

  lemma {:induction false} DigitsBound(s: string)
    ensures Digits(s) <= |s| && AllDigits(s[..Digits(s)]) && (Digits(s) < |s| ==> !IsDigit(s[Digits(s)]))
    ensures s != "" && IsDigit(s[0]) ==> Digits(s) >= 1
  {
    if s != "" && IsDigit(s[0]) {
      DigitsBound(s[1..]);
      assert s[..Digits(s)] == [s[0]] + s[1..][..Digits(s[1..])];
    }
  }

  lemma NumberFirst(num: string, rest: string)
    requires IsNumber(num) && (rest != "" ==> !IsDigit(rest[0]))
    ensures Tokens(num + rest) == [num] + Tokens(rest)
  {
    DigitsOfNumber(num, rest);
    assert (num + rest)[..|num|] == num && (num + rest)[|num|..] == rest;
  }

  lemma {:induction false} DigitsOfNumber(num: string, rest: string)
    requires AllDigits(num) && (rest != "" ==> !IsDigit(rest[0]))
    ensures Digits(num + rest) == |num|
  {
    if num == "" {
      assert num + rest == rest;
    } else {
      assert IsDigit(num[0]);
      assert (num + rest)[1..] == num[1..] + rest;
      DigitsOfNumber(num[1..], rest);
    }
  }

  lemma CharFirst(c: char, rest: string)
    requires !IsDigit(c)
    ensures Tokens([c] + rest) == OperatorOf(c) + Tokens(rest)
  {
    assert ([c] + rest)[1..] == rest;
  }

  lemma {:induction false} BlankFirst(blank: string, rest: string)
    requires Blank(blank)
    ensures Tokens(blank + rest) == Tokens(rest)
  {
    if blank == "" {
      assert blank + rest == rest;
    } else {
      assert blank + rest == [blank[0]] + (blank[1..] + rest);
      CharFirst(blank[0], blank[1..] + rest);
      BlankFirst(blank[1..], rest);
    }
  }

  lemma LastRun(s: string, i: nat)
    requires i < |s| && RunEnd(s, i) == |s|
    ensures Turn(s, i, |s|) == Tokens(s[i..])
  {
    var num := s[i..];
    assert AllDigits(s[i..|s|]) && s[i..|s|] == num;
    NumberFirst(num, "");
    assert num + "" == num && Tokens("") == [];
  }

  function OperatorOf(c: char): seq<string> {
    if IsOperator(c) then [[c]] else []
  }

  lemma Regrouped(turn: seq<string>, a: seq<string>, b: seq<string>, c: seq<string>, rest: seq<string>)
    requires turn == a + b && rest == b + c
    ensures turn + c == a + rest
  {
  }

  lemma InnerTurn(s: string, i: nat, j: nat)
    requires i <= j < |s|
    ensures Turn(s, i, j) == (if i == j then [] else [s[i..j]]) + OperatorOf(s[j])
  {
    assert s[j..j + 1] == [s[j]];
  }

  lemma EmptyRun(s: string, i: nat)
    requires i < |s| && RunEnd(s, i) == i
    ensures Turn(s, i, i) + Tokens(s[i + 1..]) == Tokens(s[i..])
  {
    InnerTurn(s, i, i);
    CharFirst(s[i], s[i + 1..]);
    assert s[i..] == [s[i]] + s[i + 1..];
    assert Turn(s, i, i) == OperatorOf(s[i]);
  }

  lemma NumberThenChar(num: string, c: char, rest: string)
    requires IsNumber(num) && !IsDigit(c)
    ensures [num] + OperatorOf(c) + Tokens(rest) == Tokens(num + ([c] + rest))
  {
    NumberFirst(num, [c] + rest);
    CharFirst(c, rest);
    Regrouped([num] + OperatorOf(c), [num], OperatorOf(c), Tokens(rest), Tokens([c] + rest));
  }

  lemma NumberRun(s: string, i: nat, j: nat)
    requires i < j < |s| && j == RunEnd(s, i)
    ensures Turn(s, i, j) + Tokens(s[j + 1..]) == Tokens(s[i..])
  {
    InnerTurn(s, i, j);
    SplitAt(s, i, j);
    NumberThenChar(s[i..j], s[j], s[j + 1..]);
  }

  lemma SplitAt(s: string, i: nat, j: nat)
    requires i <= j < |s|
    ensures s[i..] == s[i..j] + ([s[j]] + s[j + 1..])
  {
  }

  lemma LastTurn(s: string, i: nat)
    requires i < |s| && RunEnd(s, i) == |s|
    ensures TokensFrom(s, i) == Tokens(s[i..])
  {
    LastRun(s, i);
    assert TokensFrom(s, |s| + 1) == [];
  }

  lemma TurnTaken(s: string, i: nat, j: nat)
    requires i < |s| && j == RunEnd(s, i)
    ensures TokensFrom(s, i) == Turn(s, i, j) + TokensFrom(s, j + 1)
  {
  }

  lemma InnerTurnReads(s: string, i: nat, j: nat, rest: seq<string>)
    requires i < |s| && j == RunEnd(s, i) < |s|
    requires TokensFrom(s, j + 1) == rest == Tokens(s[j + 1..])
    ensures TokensFrom(s, i) == Tokens(s[i..])
  {
    TurnTaken(s, i, j);
    if j == i {
      EmptyRun(s, i);
    } else {
      NumberRun(s, i, j);
    }
  }

  /** A digit run and the character after it are read in one turn; reading one after the other gives the same. */
  lemma {:induction false} TokensFromIsTokens(s: string, i: nat)
    requires i <= |s|
    ensures TokensFrom(s, i) == Tokens(s[i..])
    decreases |s| - i
  {
    if i == |s| {
      assert s[i..] == "";
    } else {
      var j := RunEnd(s, i);
      if j == |s| {
        LastTurn(s, i);
      } else {
        TokensFromIsTokens(s, j + 1);
        InnerTurnReads(s, i, j, Tokens(s[j + 1..]));
      }
    }
  }

  lemma SpacedTail(gaps: seq<string>, ts: seq<string>)
    requires Spaced(gaps, ts) && ts != []
    ensures Spaced(gaps[1..], ts[1..])
    ensures var rest := Layout(gaps[1..], ts[1..]); IsNumber(ts[0]) && rest != "" ==> !IsDigit(rest[0])
  {
    var gs, us := gaps[1..], ts[1..];
    forall i | 0 <= i < |us| - 1
      ensures Apart(gs, us, i)
    {
      assert Apart(gaps, ts, i + 1);
    }
    var rest := Layout(gs, us);
    if gs[0] != "" {
      assert rest[0] == gs[0][0];
    } else if us != [] {
      assert Apart(gaps, ts, 0);
      assert IsToken(ts[1]);
      assert rest[0] == us[0][0];
    }
  }

  /** Tokens laid out with any blanks between them, but not numbers run together, are read back. */
  lemma {:induction false} LayoutReadBack(gaps: seq<string>, ts: seq<string>)
    requires Spaced(gaps, ts)
    ensures Tokens(Layout(gaps, ts)) == ts
    decreases |ts|
  {
    if ts == [] {
      BlankFirst(gaps[0], "");
      assert gaps[0] + "" == gaps[0];
    } else {
      SpacedTail(gaps, ts);
      var rest := Layout(gaps[1..], ts[1..]);
      LayoutReadBack(gaps[1..], ts[1..]);
      BlankFirst(gaps[0], ts[0] + rest);
      assert gaps[0] + ts[0] + rest == gaps[0] + (ts[0] + rest);
      FirstToken(ts[0], rest);
      assert ts == [ts[0]] + ts[1..];
    }
  }

  lemma FirstToken(t: string, rest: string)
    requires IsToken(t) && (IsNumber(t) && rest != "" ==> !IsDigit(rest[0]))
    ensures Tokens(t + rest) == [t] + Tokens(rest)
  {
    if IsNumber(t) {
      NumberFirst(t, rest);
    } else {
      CharFirst(t[0], rest);
      assert t == [t[0]];
    }
  }

  /** Every text is its tokens laid out with blanks: the tokeniser drops nothing else. */
  lemma {:induction false} EveryTextIsLaidOut(s: string) returns (gaps: seq<string>)
    ensures Spaced(gaps, Tokens(s)) && Layout(gaps, Tokens(s)) == s
    decreases |s|
  {
    if s == "" {
      gaps := [""];
    } else if IsDigit(s[0]) {
      DigitsBound(s);
      var num, rest := s[..Digits(s)], s[Digits(s)..];
      var gs := EveryTextIsLaidOut(rest);
      gaps := LayOutToken(num, rest, gs);
      assert s == num + rest;
    } else {
      var gs := EveryTextIsLaidOut(s[1..]);
      assert s == [s[0]] + s[1..];
      CharFirst(s[0], s[1..]);
      if IsOperator(s[0]) {
        gaps := LayOutToken([s[0]], s[1..], gs);
      } else {
        gaps := LayOutBlank(s[0], s[1..], gs);
        assert [] + Tokens(s[1..]) == Tokens(s[1..]);
      }
    }
  }

  lemma LayOutToken(t: string, rest: string, gs: seq<string>) returns (gaps: seq<string>)
    requires IsToken(t) && (IsNumber(t) && rest != "" ==> !IsDigit(rest[0]))
    requires Spaced(gs, Tokens(rest)) && Layout(gs, Tokens(rest)) == rest
    ensures Spaced(gaps, [t] + Tokens(rest)) && Layout(gaps, [t] + Tokens(rest)) == t + rest
  {
    gaps := [""] + gs;
    SpacedCons(t, gs, Tokens(rest));
    assert gaps[1..] == gs && ([t] + Tokens(rest))[1..] == Tokens(rest);
    assert "" + t + rest == t + rest;
  }

  lemma SpacedCons(t: string, gs: seq<string>, us: seq<string>)
    requires IsToken(t) && Spaced(gs, us)
    requires IsNumber(t) && Layout(gs, us) != "" ==> !IsDigit(Layout(gs, us)[0])
    ensures Spaced([""] + gs, [t] + us)
  {
    var gaps, ts := [""] + gs, [t] + us;
    forall i | 0 <= i < |ts| - 1
      ensures Apart(gaps, ts, i)
    {
      if i > 0 {
        assert Apart(gs, us, i - 1);
      } else if IsNumber(us[0]) && gs[0] == "" {
        assert Layout(gs, us)[0] == us[0][0];
      }
    }
  }

  lemma LayOutBlank(c: char, rest: string, gs: seq<string>) returns (gaps: seq<string>)
    requires Blank([c])
    requires Spaced(gs, Tokens(rest)) && Layout(gs, Tokens(rest)) == rest
    ensures Spaced(gaps, Tokens(rest)) && Layout(gaps, Tokens(rest)) == [c] + rest
  {
    var ts := Tokens(rest);
    gaps := gs[0 := [c] + gs[0]];
    assert Blank(gaps[0]);
    assert gaps[1..] == gs[1..];
    forall i | 0 <= i < |ts| - 1
      ensures Apart(gaps, ts, i)
    {
      assert Apart(gs, ts, i);
    }
    if ts != [] {
      assert [c] + gs[0] + ts[0] + Layout(gs[1..], ts[1..]) == [c] + (gs[0] + ts[0] + Layout(gs[1..], ts[1..]));
    }
  }

  // ----- the whole evaluator -----

  lemma {:induction false} CodeTreeOk(e: Infix)
    requires Ok(e)
    ensures TreeOk(CodeTree(e))
    decreases e, 0
  {
    CodeOperandOk(e.first);
    CodeTailOk(CodeOperand(e.first), e.tail);
  }

  lemma {:induction false} CodeOperandOk(x: Operand)
    requires OperandOk(x)
    ensures TreeOk(CodeOperand(x))
    decreases x, 0
  {
    if x.Group? {
      CodeTreeOk(x.e);
    }
  }

  lemma {:induction false} CodeTailOk(acc: Tree, t: Tail)
    requires TailOk(t) && TreeOk(acc)
    ensures TreeOk(CodeTail(acc, t))
    decreases t, 0
  {
    if t.Link? {
      CodeOperandOk(t.x);
      CodeTailOk(Node(t.op, acc, CodeOperand(t.x)), t.rest);
      CodeTailOk(CodeOperand(t.x), t.rest);
    }
  }

  /** At most OUTPUT_CAP items: 2 * literals - 1 <= 100. */
  predicate Fits(e: Infix) {
    2 * Literals(e) - 1 <= OUTPUT_CAP
  }

  lemma EvaluatedPostfix(t: Tree)
    requires TreeOk(t)
    ensures Evaluated(Postfix(t)) == Pushed([], Meaning(t))
  {
    PostfixEvaluates([], t);
    if Meaning(t).Some? {
      assert [] + [Meaning(t).value] == [Meaning(t).value];
    }
  }

  /** The result for every well-formed expression, however it is spaced: the meaning of CodeTree when the
      suffix form fits the queue and has a meaning, and otherwise a panic; never nil, never another value. */
  lemma NumComputesCodeTree(e: Infix, gaps: seq<string>)
    requires Ok(e) && Spaced(gaps, InfixTokens(e))
    ensures NumOf(Layout(gaps, InfixTokens(e)))
            == if Fits(e) && Meaning(CodeTree(e)).Some? then Value(Meaning(CodeTree(e)).value) else Panic
  {
    var text, code := Layout(gaps, InfixTokens(e)), Postfix(CodeTree(e));
    TokensFromIsTokens(text, 0);
    assert text[0..] == text;
    LayoutReadBack(gaps, InfixTokens(e));
    OutputIsPostfix(e);
    PostfixLength(CodeTree(e));
    CodeLeaves(e);
    PostfixNoInts(CodeTree(e));
    if Fits(e) {
      CodeTreeOk(e);
      EvaluatedPostfix(CodeTree(e));
    } else {
      DroppedItemsPanic(code, OUTPUT_CAP);
    }
  }

  /** Standard arithmetic, for expressions whose priorities never fall inside a bracket group. */
  lemma NumComputesStandard(e: Infix, gaps: seq<string>)
    requires Ok(e) && NonFalling(e) && Spaced(gaps, InfixTokens(e))
    ensures NumOf(Layout(gaps, InfixTokens(e)))
            == if Fits(e) && Meaning(StdTree(e)).Some? then Value(Meaning(StdTree(e)).value) else Panic
  {
    NonFallingAgrees(e);
    NumComputesCodeTree(e, gaps);
  }

  lemma DecimalDigit(c: char)
    requires IsDigit(c)
    ensures Atoi([c]) == Some(c as int - '0' as int)
  {
    assert [c][..0] == "" && Decimal("") == 0;
    assert Decimal([c]) == 10 * Decimal([c][..0]) + (c as int - '0' as int);
  }

  lemma LaidOutTight(op: char, digits: seq<string>)
    requires |digits| == 3
    ensures Layout(["", "", "", "", "", ""], [digits[0], "*", digits[1], [op], digits[2]])
            == digits[0] + "*" + digits[1] + [op] + digits[2]
  {
    var g, ts := [""], [digits[2]];
    assert Layout(["", ""], ts) == "" + digits[2] + Layout(g, []);
    assert Layout(["", "", ""], [[op], digits[2]]) == "" + [op] + Layout(["", ""], ts);
    assert Layout(["", "", "", ""], [digits[1], [op], digits[2]])
        == "" + digits[1] + Layout(["", "", ""], [[op], digits[2]]);
    assert Layout(["", "", "", "", ""], ["*", digits[1], [op], digits[2]])
        == "" + "*" + Layout(["", "", "", ""], [digits[1], [op], digits[2]]);
  }

  /** a*b+c. */
  function FallingExample(a: string, b: string, c: string): Infix {
    Infix(Lit(a), Link('*', Lit(b), Link('+', Lit(c), End)))
  }

  lemma ExampleTokens(a: string, b: string, c: string)
    ensures InfixTokens(FallingExample(a, b, c)) == [a, "*", b, "+", c]
  {
    assert TailTokens(Link('+', Lit(c), End)) == ["+", c];
    assert TailTokens(Link('*', Lit(b), Link('+', Lit(c), End))) == ["*", b] + ["+", c];
  }

  lemma ExampleSpaced(gaps: seq<string>, ts: seq<string>)
    requires gaps == ["", "", "", "", "", ""] && ts == ["2", "*", "3", "+", "1"]
    ensures Spaced(gaps, ts)
  {
    assert !IsDigit("*"[0]) && !IsDigit("+"[0]);
    assert IsDigit("2"[0]) && IsDigit("3"[0]) && IsDigit("1"[0]);
    forall i | 0 <= i < |ts| - 1
      ensures Apart(gaps, ts, i)
    {
      assert !(IsNumber(ts[i]) && IsNumber(ts[i + 1]));
    }
  }

  lemma ExampleMeaning()
    ensures var e := FallingExample("2", "3", "1");
            && Ok(e) && Fits(e) && !NonFalling(e)
            && Meaning(StdTree(e)) == Some(7) && Meaning(CodeTree(e)) == Some(8)
  {
    DecimalDigit('1');
    DecimalDigit('2');
    DecimalDigit('3');
  }

  lemma ExampleText(e: Infix, gaps: seq<string>, ts: seq<string>)
    requires e == FallingExample("2", "3", "1") && gaps == ["", "", "", "", "", ""] && ts == ["2", "*", "3", "+", "1"]
    ensures InfixTokens(e) == ts && Spaced(gaps, ts) && Layout(gaps, ts) == "2*3+1"
  {
    ExampleTokens("2", "3", "1");
    LaidOutTight('+', ["2", "3", "1"]);
    ExampleSpaced(gaps, ts);
  }

  /** 2*3+1 is read as 2*(3+1): the evaluator yields 8, not 7. */
  lemma FallingPriorityExample()
    ensures var e := FallingExample("2", "3", "1");
            && Ok(e) && !NonFalling(e) && Meaning(StdTree(e)) == Some(7)
            && Layout(["", "", "", "", "", ""], InfixTokens(e)) == "2*3+1"
    ensures NumOf("2*3+1") == Value(8)
  {
    var e, gaps := FallingExample("2", "3", "1"), ["", "", "", "", "", ""];
    ExampleMeaning();
    ExampleText(e, gaps, ["2", "*", "3", "+", "1"]);
    NumComputesCodeTree(e, gaps);
  }
}
