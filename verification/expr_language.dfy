/** The arithmetic expressions people write, what standard precedence makes of them, and what the
    evaluator makes of them. */
module ExprLanguage {
  import opened Wrappers
  import opened ExprContainers
  import opened ExprMachine

  datatype Operand = Lit(text: string) | Group(e: Infix)

  /** An expression: an operand, then operators and operands in the order they are written. */
  datatype Infix = Infix(first: Operand, tail: Tail)

  datatype Tail = End | Link(op: char, x: Operand, rest: Tail)

  predicate IsArithmetic(op: char) {
    op == '+' || op == '-' || op == '*' || op == '/' || op == '%'
  }

  predicate IsNumber(t: string) {
    t != "" && AllDigits(t)
  }

  predicate OperandOk(x: Operand) {
    match x
    case Lit(text) => IsNumber(text)
    case Group(e) => Ok(e)
  }

  predicate Ok(e: Infix) {
    OperandOk(e.first) && TailOk(e.tail)
  }

  predicate TailOk(t: Tail) {
    match t
    case End => true
    case Link(op, x, rest) => IsArithmetic(op) && OperandOk(x) && TailOk(rest)
  }

  // ----- tokens -----

  function OperandTokens(x: Operand): seq<string> {
    match x
    case Lit(text) => [text]
    case Group(e) => ["("] + InfixTokens(e) + [")"]
  }

  function InfixTokens(e: Infix): seq<string> {
    OperandTokens(e.first) + TailTokens(e.tail)
  }

  function TailTokens(t: Tail): seq<string> {
    match t
    case End => []
    case Link(op, x, rest) => [[op]] + OperandTokens(x) + TailTokens(rest)
  }

  // ----- trees -----

  datatype Tree = Leaf(text: string) | Node(op: char, l: Tree, r: Tree)

  function Postfix(t: Tree): (s: seq<Item>)
    ensures s != []
  {
    match t
    case Leaf(text) => [Text(text)]
    case Node(op, l, r) => Postfix(l) + Postfix(r) + [Op(op)]
  }

  /** What an expression tree is worth; None when a literal is out of range or a divisor is zero. */
  function Meaning(t: Tree): Option<int> {
    match t
    case Leaf(text) => Atoi(text)
    case Node(op, l, r) =>
      (match (Meaning(l), Meaning(r))
       case (Some(a), Some(b)) => Apply(op, a, b)
       case _ => None)
  }

  /** How the evaluator nests an expression: operators of equal priority group to the left,
      and every change of priority, up or down, groups to the right. */
  function CodeTree(e: Infix): Tree {
    CodeTail(CodeOperand(e.first), e.tail)
  }

  function CodeOperand(x: Operand): Tree {
    match x
    case Lit(text) => Leaf(text)
    case Group(e) => CodeTree(e)
  }

  function CodeTail(acc: Tree, t: Tail): Tree
    decreases t
  {
    match t
    case End => acc
    case Link(op, x, rest) =>
      if rest.End? then Node(op, acc, CodeOperand(x))
      else if Priority(rest.op) == Priority(op) then CodeTail(Node(op, acc, CodeOperand(x)), rest)
      else Node(op, acc, CodeTail(CodeOperand(x), rest))
  }

  // ----- the conversion computes the postfix form of CodeTree -----

  lemma {:induction false} SuffixConcat(st: Suffix, a: seq<string>, b: seq<string>)
    ensures SuffixAll(st, a + b) == SuffixAll(SuffixAll(st, a), b)
    decreases |b|
  {
    if |b| == 0 {
      assert a + b == a;
    } else {
      assert (a + b)[..|a + b| - 1] == a + b[..|b| - 1];
      SuffixConcat(st, a, b[..|b| - 1]);
    }
  }

  lemma SuffixOne(st: Suffix, t: string)
    ensures SuffixAll(st, [t]) == SuffixToken(st, t)
  {
    assert [t][..0] == [];
    assert SuffixAll(st, [t][..0]) == st;
  }

  /** The next operator op is pushed without popping anything. */
  predicate Pushes(ops: seq<char>, op: char) {
    ops == [] || Priority(ops[|ops| - 1]) != Priority(op)
  }

  predicate NoBrackets(ops: seq<char>) {
    forall i :: 0 <= i < |ops| ==> IsArithmetic(ops[i])
  }

  /** From operators base and output out, the machine has reached st: it has pushed arithmetic operators only,
      and popping them completes the output to out + code. */
  ghost predicate Reaches(base: seq<char>, out: seq<Item>, code: seq<Item>, st: Suffix) {
    && st.Suffix? && base <= st.ops && NoBrackets(st.ops[|base|..])
    && st.out + Popped(st.ops[|base|..]) == out + code
  }

  lemma {:induction false} PoppedConcat(a: seq<char>, b: seq<char>)
    ensures Popped(a + b) == Popped(b) + Popped(a)
    decreases |b|
  {
    if b == [] {
      assert a + b == a;
    } else {
      assert (a + b)[..|a + b| - 1] == a + b[..|b| - 1];
      PoppedConcat(a, b[..|b| - 1]);
    }
  }

  /** Closing a group pops what was pushed inside it, and the bracket. */
  lemma {:induction false} CloseGroupPops(base: seq<char>, inner: seq<char>, out: seq<Item>)
    requires NoBrackets(inner)
    ensures CloseGroup(base + ['('] + inner, out) == Suffix(base, out + Popped(inner))
    decreases |inner|
  {
    var ops := base + ['('] + inner;
    if inner == [] {
      assert ops[..|ops| - 1] == base;
      assert out + [] == out;
    } else {
      var top, below := inner[|inner| - 1], inner[..|inner| - 1];
      assert ops[..|ops| - 1] == base + ['('] + below;
      CloseGroupPops(base, below, out + [Op(top)]);
      assert out + [Op(top)] + Popped(below) == out + ([Op(top)] + Popped(below));
    }
  }

  lemma LitTokens(ops: seq<char>, out: seq<Item>, text: string)
    requires IsNumber(text)
    ensures SuffixAll(Suffix(ops, out), [text]) == Suffix(ops, out + [Text(text)])
  {
    SuffixOne(Suffix(ops, out), text);
    assert IsDigit(text[0]);
  }

  lemma OpenTokens(ops: seq<char>, out: seq<Item>)
    ensures SuffixAll(Suffix(ops, out), ["("]) == Suffix(ops + ['('], out)
  {
    SuffixOne(Suffix(ops, out), "(");
  }

  lemma CloseTokens(base: seq<char>, out: seq<Item>, code: seq<Item>, st: Suffix)
    requires Reaches(base + ['('], out, code, st)
    ensures SuffixAll(st, [")"]) == Suffix(base, out + code)
  {
    SuffixOne(st, ")");
    var inner := st.ops[|base| + 1..];
    assert st.ops == base + ['('] + inner;
    CloseGroupPops(base, inner, st.out);
  }

  /** An operand leaves the operators alone and appends its code to the output. */
  lemma {:induction false} OperandRuns(ops: seq<char>, out: seq<Item>, x: Operand)
    requires OperandOk(x)
    ensures SuffixAll(Suffix(ops, out), OperandTokens(x)) == Suffix(ops, out + Postfix(CodeOperand(x)))
    decreases x, 1
  {
    match x
    case Lit(text) =>
      LitTokens(ops, out, text);
    case Group(e) =>
      OpenTokens(ops, out);
      var inside := Suffix(ops + ['('], out);
      InfixRuns(ops + ['('], out, e);
      var st := SuffixAll(inside, InfixTokens(e));
      CloseTokens(ops, out, Postfix(CodeTree(e)), st);
      SuffixConcat(Suffix(ops, out), ["("], InfixTokens(e));
      SuffixConcat(Suffix(ops, out), ["("] + InfixTokens(e), [")"]);
  }

  /** An expression after "(" or at the start reaches its code. */
  lemma {:induction false} InfixRuns(base: seq<char>, out: seq<Item>, e: Infix)
    requires Ok(e) && (base == [] || base[|base| - 1] == '(')
    ensures Reaches(base, out, Postfix(CodeTree(e)), SuffixAll(Suffix(base, out), InfixTokens(e)))
    decreases e, 0
  {
    var acc := CodeOperand(e.first);
    OperandRuns(base, out, e.first);
    TailRuns(base, out, acc, e.tail);
    SuffixConcat(Suffix(base, out), OperandTokens(e.first), TailTokens(e.tail));
  }

  lemma OperatorPushes(base: seq<char>, out: seq<Item>, op: char)
    requires IsArithmetic(op) && Pushes(base, op)
    ensures SuffixAll(Suffix(base, out), [[op]]) == Suffix(base + [op], out)
  {
    SuffixOne(Suffix(base, out), [op]);
  }

  lemma OperatorPops(base: seq<char>, out: seq<Item>, top: char, op: char)
    requires IsArithmetic(op) && Priority(top) == Priority(op)
    ensures SuffixAll(Suffix(base + [top], out), [[op]]) == Suffix(base + [op], out + [Op(top)])
  {
    SuffixOne(Suffix(base + [top], out), [op]);
    assert (base + [top])[..|base|] == base;
  }

  lemma {:induction false} TailRuns(base: seq<char>, out: seq<Item>, acc: Tree, t: Tail)
    requires TailOk(t) && (t.Link? ==> Pushes(base, t.op))
    ensures Reaches(base, out, Postfix(CodeTail(acc, t)),
                    SuffixAll(Suffix(base, out + Postfix(acc)), TailTokens(t)))
    decreases t, 1
  {
    match t
    case End =>
      assert base[|base|..] == [];
      assert out + Postfix(acc) + [] == out + Postfix(acc);
    case Link(op, x, rest) =>
      LinkRuns(base, out, acc, t);
      var code := Postfix(acc) + Postfix(CodeOperand(x));
      var st := Suffix(base + [op], out + code);
      if rest.End? {
        LastLink(base, out, acc, t, st);
      } else if Priority(rest.op) == Priority(op) {
        TailRuns(base, out, Node(op, acc, CodeOperand(x)), rest);
        EqualLink(base, out, acc, t, st);
      } else {
        TailRuns(base + [op], out + Postfix(acc), CodeOperand(x), rest);
        OtherLink(base, out, acc, t, st);
      }
  }

  /** The operator and the operand of a link. */
  lemma LinkRuns(base: seq<char>, out: seq<Item>, acc: Tree, t: Tail)
    requires t.Link? && IsArithmetic(t.op) && OperandOk(t.x) && Pushes(base, t.op)
    ensures SuffixAll(Suffix(base, out + Postfix(acc)), TailTokens(t))
            == SuffixAll(Suffix(base + [t.op], out + (Postfix(acc) + Postfix(CodeOperand(t.x)))), TailTokens(t.rest))
    decreases t, 0
  {
    var st0 := Suffix(base, out + Postfix(acc));
    OperatorPushes(base, out + Postfix(acc), t.op);
    OperandRuns(base + [t.op], out + Postfix(acc), t.x);
    assert out + Postfix(acc) + Postfix(CodeOperand(t.x)) == out + (Postfix(acc) + Postfix(CodeOperand(t.x)));
    SuffixConcat(st0, [[t.op]], OperandTokens(t.x));
    SuffixConcat(st0, [[t.op]] + OperandTokens(t.x), TailTokens(t.rest));
  }

  lemma LastLink(base: seq<char>, out: seq<Item>, acc: Tree, t: Tail, st: Suffix)
    requires t.Link? && t.rest.End? && IsArithmetic(t.op)
    requires st == Suffix(base + [t.op], out + (Postfix(acc) + Postfix(CodeOperand(t.x))))
    ensures Reaches(base, out, Postfix(CodeTail(acc, t)), SuffixAll(st, TailTokens(t.rest)))
  {
    assert (base + [t.op])[|base|..] == [t.op];
    assert Popped([t.op]) == [Op(t.op)] + Popped([]);
  }

  /** An operator of the same priority first pops the pending one, as if it had come after a finished operand. */
  lemma EqualLink(base: seq<char>, out: seq<Item>, acc: Tree, t: Tail, st: Suffix)
    requires t.Link? && t.rest.Link? && Priority(t.rest.op) == Priority(t.op) && TailOk(t)
    requires st == Suffix(base + [t.op], out + (Postfix(acc) + Postfix(CodeOperand(t.x)))) && Pushes(base, t.op)
    requires var node := Node(t.op, acc, CodeOperand(t.x));
             Reaches(base, out, Postfix(CodeTail(node, t.rest)),
                     SuffixAll(Suffix(base, out + Postfix(node)), TailTokens(t.rest)))
    ensures Reaches(base, out, Postfix(CodeTail(acc, t)), SuffixAll(st, TailTokens(t.rest)))
  {
    var node := Node(t.op, acc, CodeOperand(t.x));
    OperatorPops(base, st.out, t.op, t.rest.op);
    OperatorPushes(base, out + Postfix(node), t.rest.op);
    assert st.out + [Op(t.op)] == out + Postfix(node);
    SameAfterOperator(st, Suffix(base, out + Postfix(node)), t.rest);
  }

  lemma SameAfterOperator(st: Suffix, st': Suffix, t: Tail)
    requires t.Link? && SuffixAll(st, [[t.op]]) == SuffixAll(st', [[t.op]])
    ensures SuffixAll(st, TailTokens(t)) == SuffixAll(st', TailTokens(t))
  {
    var later := OperandTokens(t.x) + TailTokens(t.rest);
    assert TailTokens(t) == [[t.op]] + later;
    SuffixConcat(st, [[t.op]], later);
    SuffixConcat(st', [[t.op]], later);
  }

  lemma PendingPopped(base: seq<char>, op: char, out: seq<Item>, acc: seq<Item>, code: seq<Item>, end: Suffix)
    requires Reaches(base + [op], out + acc, code, end) && IsArithmetic(op)
    ensures Reaches(base, out, acc + code + [Op(op)], end)
  {
    var inner := end.ops[|base| + 1..];
    assert end.ops[|base|..] == [op] + inner;
    PoppedConcat([op], inner);
    assert Popped([op]) == [Op(op)] + Popped([]);
    assert end.out + (Popped(inner) + [Op(op)]) == (end.out + Popped(inner)) + [Op(op)];
    assert (out + acc + code) + [Op(op)] == out + (acc + code + [Op(op)]);
  }

  /** An operator of another priority leaves the pending one on the stack until the group ends. */
  lemma OtherLink(base: seq<char>, out: seq<Item>, acc: Tree, t: Tail, st: Suffix)
    requires t.Link? && t.rest.Link? && Priority(t.rest.op) != Priority(t.op) && IsArithmetic(t.op)
    requires st == Suffix(base + [t.op], out + (Postfix(acc) + Postfix(CodeOperand(t.x))))
    requires Reaches(base + [t.op], out + Postfix(acc), Postfix(CodeTail(CodeOperand(t.x), t.rest)),
                     SuffixAll(Suffix(base + [t.op], out + Postfix(acc) + Postfix(CodeOperand(t.x))), TailTokens(t.rest)))
    ensures Reaches(base, out, Postfix(CodeTail(acc, t)), SuffixAll(st, TailTokens(t.rest)))
  {
    assert st.out == out + Postfix(acc) + Postfix(CodeOperand(t.x));
    PendingPopped(base, t.op, out, Postfix(acc), Postfix(CodeTail(CodeOperand(t.x), t.rest)),
                  SuffixAll(st, TailTokens(t.rest)));
  }

  /** The conversion puts out exactly the postfix form of CodeTree, for every well-formed expression. */
  lemma OutputIsPostfix(e: Infix)
    requires Ok(e)
    ensures Output(InfixTokens(e)) == Some(Postfix(CodeTree(e)))
  {
    InfixRuns([], [], e);
    var st := SuffixAll(Suffix([], []), InfixTokens(e));
    assert st.ops[0..] == st.ops;
    assert [] + Postfix(CodeTree(e)) == Postfix(CodeTree(e));
  }
}
