/** Standard operator precedence, and exactly when the evaluator follows it. */
module ExprPrecedence {
  import opened ExprMachine
  import opened ExprLanguage

  // ----- the standard reading: products before sums, both grouped to the left -----

  /** The sum to the left of the product being read, with the operator that joins them. */
  datatype Left = NoSum | Sum(l: Tree, op: char)

  function Close(p: Left, product: Tree): Tree {
    match p
    case NoSum => product
    case Sum(l, op) => Node(op, l, product)
  }

  function StdTree(e: Infix): Tree {
    StdTail(NoSum, StdOperand(e.first), e.tail)
  }

  function StdOperand(x: Operand): Tree {
    match x
    case Lit(text) => Leaf(text)
    case Group(e) => StdTree(e)
  }

  function StdTail(p: Left, product: Tree, t: Tail): Tree
    decreases t
  {
    match t
    case End => Close(p, product)
    case Link(op, x, rest) =>
      if Priority(op) == 2 then StdTail(p, Node(op, product, StdOperand(x)), rest)
      else StdTail(Sum(Close(p, product), op), StdOperand(x), rest)
  }

  /** Inside each bracket group the priorities never fall from left to right. */
  predicate NonFalling(e: Infix) {
    NonFallingOperand(e.first) && NonFallingTail(e.tail)
  }

  predicate NonFallingOperand(x: Operand) {
    match x
    case Lit(_) => true
    case Group(e) => NonFalling(e)
  }

  predicate NonFallingTail(t: Tail) {
    match t
    case End => true
    case Link(op, x, rest) =>
      NonFallingOperand(x) && NonFallingTail(rest) && (rest.Link? ==> Priority(op) <= Priority(rest.op))
  }

  predicate AllProducts(t: Tail) {
    t.Link? ==> Priority(t.op) == 2 && AllProducts(t.rest)
  }

  function Leaves(t: Tree): nat {
    match t
    case Leaf(_) => 1
    case Node(_, l, r) => Leaves(l) + Leaves(r)
  }

  lemma ArithmeticPriority(op: char)
    requires IsArithmetic(op)
    ensures Priority(op) == 1 || Priority(op) == 2
  {
  }

  lemma {:induction false} LeavesPositive(t: Tree)
    ensures Leaves(t) >= 1
  {
    if t.Node? {
      LeavesPositive(t.l);
      LeavesPositive(t.r);
    }
  }

  /** A tail of products stays to the right of the sum before it. */
  lemma {:induction false} ProductsStayRight(l: Tree, op: char, product: Tree, t: Tail)
    requires AllProducts(t)
    ensures StdTail(Sum(l, op), product, t) == Node(op, l, StdTail(NoSum, product, t))
    decreases t
  {
    if t.Link? {
      ProductsStayRight(l, op, Node(t.op, product, StdOperand(t.x)), t.rest);
    }
  }

  /** A later sum makes everything before it the left part of the root. */
  lemma {:induction false} SumSplitsLate(p: Left, product: Tree, t: Tail)
    requires TailOk(t) && !AllProducts(t)
    ensures StdTail(p, product, t).Node?
    ensures Leaves(StdTail(p, product, t).l) >= Leaves(Close(p, product))
    decreases t
  {
    ArithmeticPriority(t.op);
    if Priority(t.op) == 2 {
      SumSplitsLate(p, Node(t.op, product, StdOperand(t.x)), t.rest);
    } else {
      var closed := Close(p, product);
      if AllProducts(t.rest) {
        ProductsStayRight(closed, t.op, StdOperand(t.x), t.rest);
      } else {
        SumSplitsLate(Sum(closed, t.op), StdOperand(t.x), t.rest);
      }
    }
  }

  /** Both readings have one leaf for every literal. */
  function Literals(e: Infix): nat {
    OperandLiterals(e.first) + TailLiterals(e.tail)
  }

  function OperandLiterals(x: Operand): nat {
    match x
    case Lit(_) => 1
    case Group(e) => Literals(e)
  }

  function TailLiterals(t: Tail): nat {
    match t
    case End => 0
    case Link(_, x, rest) => OperandLiterals(x) + TailLiterals(rest)
  }

  lemma {:induction false} CodeLeaves(e: Infix)
    ensures Leaves(CodeTree(e)) == Literals(e)
  {
    CodeOperandLeaves(e.first);
    CodeTailLeaves(CodeOperand(e.first), e.tail);
  }

  lemma {:induction false} CodeOperandLeaves(x: Operand)
    ensures Leaves(CodeOperand(x)) == OperandLiterals(x)
  {
    if x.Group? {
      CodeLeaves(x.e);
    }
  }

  lemma {:induction false} CodeTailLeaves(acc: Tree, t: Tail)
    ensures Leaves(CodeTail(acc, t)) == Leaves(acc) + TailLiterals(t)
    decreases t
  {
    if t.Link? {
      CodeOperandLeaves(t.x);
      CodeTailLeaves(Node(t.op, acc, CodeOperand(t.x)), t.rest);
      CodeTailLeaves(CodeOperand(t.x), t.rest);
    }
  }

  lemma {:induction false} StdLeaves(e: Infix)
    ensures Leaves(StdTree(e)) == Literals(e)
  {
    StdOperandLeaves(e.first);
    StdTailLeaves(NoSum, StdOperand(e.first), e.tail);
  }

  lemma {:induction false} StdOperandLeaves(x: Operand)
    ensures Leaves(StdOperand(x)) == OperandLiterals(x)
  {
    if x.Group? {
      StdLeaves(x.e);
    }
  }

  lemma {:induction false} StdTailLeaves(p: Left, product: Tree, t: Tail)
    ensures Leaves(StdTail(p, product, t)) == Leaves(Close(p, product)) + TailLiterals(t)
    decreases t
  {
    if t.Link? {
      StdOperandLeaves(t.x);
      StdTailLeaves(p, Node(t.op, product, StdOperand(t.x)), t.rest);
      StdTailLeaves(Sum(Close(p, product), t.op), StdOperand(t.x), t.rest);
    }
  }

  // ----- the readings agree exactly on non-falling expressions -----

  lemma {:induction false} ProductsFromProduct(t: Tail)
    requires TailOk(t) && NonFallingTail(t) && t.Link? && Priority(t.op) == 2
    ensures AllProducts(t)
  {
    if t.rest.Link? {
      ArithmeticPriority(t.rest.op);
      ProductsFromProduct(t.rest);
    }
  }

  lemma {:induction false} NonFallingAgrees(e: Infix)
    requires Ok(e) && NonFalling(e)
    ensures CodeTree(e) == StdTree(e)
    decreases e, 0
  {
    NonFallingOperandAgrees(e.first);
    NonFallingTailAgrees(CodeOperand(e.first), e.tail);
  }

  lemma {:induction false} NonFallingOperandAgrees(x: Operand)
    requires OperandOk(x) && NonFallingOperand(x)
    ensures CodeOperand(x) == StdOperand(x)
    decreases x, 0
  {
    if x.Group? {
      NonFallingAgrees(x.e);
    }
  }

  lemma {:induction false} NonFallingTailAgrees(acc: Tree, t: Tail)
    requires TailOk(t) && NonFallingTail(t)
    ensures CodeTail(acc, t) == StdTail(NoSum, acc, t)
    decreases t, 0
  {
    if t.Link? {
      ArithmeticPriority(t.op);
      NonFallingOperandAgrees(t.x);
      var x := StdOperand(t.x);
      if t.rest.Link? {
        ArithmeticPriority(t.rest.op);
        if Priority(t.rest.op) == Priority(t.op) {
          NonFallingTailAgrees(Node(t.op, acc, x), t.rest);
        } else {
          ProductsFromProduct(t.rest);
          ProductsStayRight(acc, t.op, x, t.rest);
          NonFallingTailAgrees(x, t.rest);
        }
      }
    }
  }

  lemma {:induction false} AgreementNonFalling(e: Infix)
    requires Ok(e) && CodeTree(e) == StdTree(e)
    ensures NonFalling(e)
    decreases e, 0
  {
    CodeOperandLeaves(e.first);
    StdOperandLeaves(e.first);
    TailAgreement(CodeOperand(e.first), StdOperand(e.first), e.tail);
    OperandAgreement(e.first);
  }

  lemma {:induction false} OperandAgreement(x: Operand)
    requires OperandOk(x) && CodeOperand(x) == StdOperand(x)
    ensures NonFallingOperand(x)
    decreases x, 1
  {
    if x.Group? {
      AgreementNonFalling(x.e);
    }
  }

  /** If both readings give one tree, they had read the same tree before the tail, and the tail never falls. */
  lemma {:induction false} TailAgreement(acc: Tree, acc': Tree, t: Tail)
    requires TailOk(t) && Leaves(acc) == Leaves(acc')
    requires CodeTail(acc, t) == StdTail(NoSum, acc', t)
    ensures acc == acc' && NonFallingTail(t)
    decreases t, 1
  {
    if t.Link? {
      ArithmeticPriority(t.op);
      CodeOperandLeaves(t.x);
      StdOperandLeaves(t.x);
      if t.rest.End? {
        OperandAgreement(t.x);
      } else {
        ArithmeticPriority(t.rest.op);
        if Priority(t.rest.op) == Priority(t.op) {
          EqualAgreement(acc, acc', t);
        } else if Priority(t.op) == 1 {
          RiseAgreement(acc, acc', t);
        } else {
          FallDisagrees(acc, acc', t);
        }
      }
    }
  }

  lemma {:induction false} EqualAgreement(acc: Tree, acc': Tree, t: Tail)
    requires TailOk(t) && Leaves(acc) == Leaves(acc')
    requires t.Link? && t.rest.Link? && Priority(t.rest.op) == Priority(t.op)
    requires CodeTail(acc, t) == StdTail(NoSum, acc', t)
    ensures acc == acc' && NonFallingTail(t)
    decreases t, 0
  {
    CodeOperandLeaves(t.x);
    StdOperandLeaves(t.x);
    var node, node' := Node(t.op, acc, CodeOperand(t.x)), Node(t.op, acc', StdOperand(t.x));
    ArithmeticPriority(t.op);
    assert StdTail(NoSum, acc', t) == StdTail(NoSum, node', t.rest);
    TailAgreement(node, node', t.rest);
    OperandAgreement(t.x);
  }

  lemma {:induction false} RiseAgreement(acc: Tree, acc': Tree, t: Tail)
    requires TailOk(t) && Leaves(acc) == Leaves(acc')
    requires t.Link? && t.rest.Link? && Priority(t.op) == 1 && Priority(t.rest.op) == 2
    requires CodeTail(acc, t) == StdTail(NoSum, acc', t)
    ensures acc == acc' && NonFallingTail(t)
    decreases t, 0
  {
    CodeOperandLeaves(t.x);
    StdOperandLeaves(t.x);
    if AllProducts(t.rest) {
      ProductsStayRight(acc', t.op, StdOperand(t.x), t.rest);
      TailAgreement(CodeOperand(t.x), StdOperand(t.x), t.rest);
      OperandAgreement(t.x);
    } else {
      SumSplitsLate(Sum(acc', t.op), StdOperand(t.x), t.rest);
      LeavesPositive(StdOperand(t.x));
      assert false;
    }
  }

  /** A fall puts the split of the root at different places. */
  lemma FallDisagrees(acc: Tree, acc': Tree, t: Tail)
    requires TailOk(t) && Leaves(acc) == Leaves(acc')
    requires t.Link? && t.rest.Link? && Priority(t.op) == 2 && Priority(t.rest.op) == 1
    ensures CodeTail(acc, t) != StdTail(NoSum, acc', t)
  {
    var node := Node(t.op, acc', StdOperand(t.x));
    SumSplitsLate(NoSum, node, t.rest);
    LeavesPositive(StdOperand(t.x));
    assert Leaves(CodeTail(acc, t).l) == Leaves(acc');
  }

  /** The evaluator reads an expression as standard precedence does exactly when no priority falls in a group. */
  lemma StandardIffNonFalling(e: Infix)
    requires Ok(e)
    ensures CodeTree(e) == StdTree(e) <==> NonFalling(e)
  {
    if NonFalling(e) {
      NonFallingAgrees(e);
    } else if CodeTree(e) == StdTree(e) {
      AgreementNonFalling(e);
    }
  }
}
