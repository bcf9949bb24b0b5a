/** What the literals of an expression are does not matter to how it is read, but to whether one notices: whenever
    a priority falls, some literals make the evaluator's value differ from the standard one. */
module ExprValues {
  import opened Wrappers
  import opened ExprContainers
  import opened ExprMachine
  import opened ExprLanguage
  import opened ExprPrecedence
  import opened ExprResults

  // ----- the same expression with other literals -----

  predicate SameShape(e: Infix, e': Infix) {
    SameOperand(e.first, e'.first) && SameTail(e.tail, e'.tail)
  }

  predicate SameOperand(x: Operand, x': Operand) {
    match (x, x')
    case (Lit(_), Lit(_)) => true
    case (Group(e), Group(e')) => SameShape(e, e')
    case _ => false
  }

  predicate SameTail(t: Tail, t': Tail) {
    match (t, t')
    case (End, End) => true
    case (Link(op, x, rest), Link(op', x', rest')) => op == op' && SameOperand(x, x') && SameTail(rest, rest')
    case _ => false
  }

  /** The decimal digits of v. */
  function Show(v: nat): (s: string)
    ensures IsNumber(s) && Decimal(s) == v
  {
    var c := ('0' as int + v % 10) as char;
    if v < 10 then
      assert [c][..0] == "" && Decimal("") == 0;
      [c]
    else
      var s := Show(v / 10) + [c];
      assert s[..|s| - 1] == Show(v / 10);
      s
  }

  lemma ShownRead(v: nat)
    requires v <= MAX_INT
    ensures Atoi(Show(v)) == Some(v)
  {
    assert IsDigit(Show(v)[0]);
  }

  // ----- literals with which a tail changes nothing -----

  /** What on the right of op leaves numbers of at most m as they are. */
  function Unit(op: char, m: nat): nat {
    match op
    case '+' | '-' => 0
    case '*' | '/' => 1
    case _ => m + 1
  }

  /** The operand with the value v, whatever its shape. */
  function Valued(x: Operand, v: nat): Operand {
    match x
    case Lit(_) => Lit(Show(v))
    case Group(e) => Group(Infix(Valued(e.first, v), Idle(e.tail, v)))
  }

  /** The tail with literals that leave numbers of at most m as they are. */
  function Idle(t: Tail, m: nat): Tail {
    match t
    case End => End
    case Link(op, x, rest) => Link(op, Valued(x, Unit(op, m)), Idle(rest, m))
  }

  lemma {:induction false} ValuedShape(x: Operand, v: nat)
    requires OperandOk(x)
    ensures SameOperand(x, Valued(x, v)) && OperandOk(Valued(x, v))
    decreases x
  {
    if x.Group? {
      ValuedShape(x.e.first, v);
      IdleShape(x.e.tail, v);
    }
  }

  lemma {:induction false} IdleShape(t: Tail, m: nat)
    requires TailOk(t)
    ensures SameTail(t, Idle(t, m)) && TailOk(Idle(t, m))
    decreases t
  {
    if t.Link? {
      ValuedShape(t.x, Unit(t.op, m));
      IdleShape(t.rest, m);
    }
  }

  lemma {:induction false} LiteralsPositive(x: Operand)
    ensures OperandLiterals(x) >= 1
    decreases x
  {
    if x.Group? {
      LiteralsPositive(x.e.first);
    }
  }

  predicate Within(a: int, m: int) {
    -m <= a <= m
  }

  lemma Small(x: int)
    requires Within(x, MAX_INT)
    ensures Wrap(x) == x
  {
  }

  /** A divisor beyond the dividend. */
  lemma SmallDividend(a: int, n: int)
    requires n > 0 && -n < a < n
    ensures Quotient(a, n) == 0
    ensures a >= 0 ==> Quotient(a, -n) == 0
  {
  }

  lemma RemainderIsAll(a: int, n: int)
    requires n != 0 && Quotient(a, n) == 0
    ensures Apply('%', a, n) == Some(a)
  {
    assert n * 0 == 0;
  }

  lemma UnitRight(op: char, a: int, m: nat)
    requires IsArithmetic(op) && Within(a, MAX_INT) && (Priority(op) == 2 ==> Within(a, m))
    ensures Apply(op, a, Unit(op, m)) == Some(a)
  {
    Small(a);
    if op == '%' {
      SmallDividend(a, m + 1);
      RemainderIsAll(a, m + 1);
    }
  }

  /** Unevaluable on the left, unevaluable altogether. */
  lemma {:induction false} CodeNone(acc: Tree, t: Tail)
    requires Meaning(acc) == None
    ensures Meaning(CodeTail(acc, t)) == None
    decreases t
  {
    if t.Link? {
      CodeNone(Node(t.op, acc, CodeOperand(t.x)), t.rest);
    }
  }

  /** A tail that starts with a sum, or does not start. */
  predicate Low(t: Tail) {
    t.Link? ==> Priority(t.op) == 1
  }

  lemma {:induction false} CodeIdle(acc: Tree, t: Tail, m: nat, a: int)
    requires TailOk(t) && m + TailLiterals(t) < MAX_INT && Within(a, MAX_INT) && (Low(t) || Within(a, m))
    requires Meaning(acc) == Some(a)
    ensures Meaning(CodeTail(acc, Idle(t, m))) == Some(a)
    decreases t, 1
  {
    if t.Link? {
      var u := Unit(t.op, m);
      var x := CodeOperand(Valued(t.x, u));
      ArithmeticPriority(t.op);
      ValuedCode(t.x, u);
      UnitRight(t.op, a, m);
      if t.rest.Link? {
        ArithmeticPriority(t.rest.op);
        if Priority(t.rest.op) == Priority(t.op) {
          CodeIdle(Node(t.op, acc, x), t.rest, m, a);
        } else {
          CodeIdle(x, t.rest, m, u);
        }
      }
    }
  }

  lemma {:induction false} ValuedCode(x: Operand, v: nat)
    requires OperandOk(x) && v + OperandLiterals(x) <= MAX_INT
    ensures Meaning(CodeOperand(Valued(x, v))) == Some(v)
    decreases x, 2
  {
    if x.Lit? {
      ShownRead(v);
    } else {
      LiteralsPositive(x.e.first);
      ValuedCode(x.e.first, v);
      CodeIdle(CodeOperand(Valued(x.e.first, v)), x.e.tail, v, v);
    }
  }

  /** The value of what has been read: the sum so far, and the product that is being read. */
  function Sofar(p: Left, product: Tree): Option<int> {
    Meaning(Close(p, product))
  }

  lemma SofarProduct(p: Left, product: Tree, product': Tree)
    requires Meaning(product) == Meaning(product')
    ensures Sofar(p, product) == Sofar(p, product')
  {
  }

  lemma SofarSum(l: Tree, op: char, x: Tree)
    ensures Meaning(l).Some? && Meaning(x).Some? ==>
              Sofar(Sum(l, op), x) == Apply(op, Meaning(l).value, Meaning(x).value)
    ensures Meaning(l).None? || Meaning(x).None? ==> Sofar(Sum(l, op), x) == None
  {
  }

  lemma {:induction false} StdIdle(p: Left, product: Tree, t: Tail, m: nat, a: int, q: int)
    requires TailOk(t) && m + TailLiterals(t) < MAX_INT && (Low(t) || Within(q, m))
    requires Sofar(p, product) == Some(a) && Meaning(product) == Some(q) && Within(a, MAX_INT) && Within(q, MAX_INT)
    ensures Meaning(StdTail(p, product, Idle(t, m))) == Some(a)
    decreases t, 1
  {
    if t.Link? {
      ArithmeticPriority(t.op);
      ValuedStd(t.x, Unit(t.op, m));
      if Priority(t.op) == 2 {
        StdIdleProduct(p, product, t, m, a, q);
      } else {
        StdIdleSum(p, product, t, m, a);
      }
    }
  }

  lemma {:induction false} StdIdleProduct(p: Left, product: Tree, t: Tail, m: nat, a: int, q: int)
    requires t.Link? && TailOk(t) && m + TailLiterals(t) < MAX_INT && Priority(t.op) == 2 && Within(q, m)
    requires Sofar(p, product) == Some(a) && Meaning(product) == Some(q) && Within(a, MAX_INT)
    requires Meaning(StdOperand(Valued(t.x, Unit(t.op, m)))) == Some(Unit(t.op, m))
    ensures Meaning(StdTail(p, product, Idle(t, m))) == Some(a)
    decreases t, 0
  {
    var node := Node(t.op, product, StdOperand(Valued(t.x, Unit(t.op, m))));
    UnitRight(t.op, q, m);
    SofarProduct(p, product, node);
    StdIdle(p, node, t.rest, m, a, q);
  }

  lemma {:induction false} StdIdleSum(p: Left, product: Tree, t: Tail, m: nat, a: int)
    requires t.Link? && TailOk(t) && m + TailLiterals(t) < MAX_INT && Priority(t.op) == 1
    requires Sofar(p, product) == Some(a) && Within(a, MAX_INT)
    requires Meaning(StdOperand(Valued(t.x, Unit(t.op, m)))) == Some(Unit(t.op, m))
    ensures Meaning(StdTail(p, product, Idle(t, m))) == Some(a)
    decreases t, 0
  {
    var x := StdOperand(Valued(t.x, Unit(t.op, m)));
    UnitRight(t.op, a, m);
    SofarSum(Close(p, product), t.op, x);
    StdIdle(Sum(Close(p, product), t.op), x, t.rest, m, a, 0);
  }

  lemma {:induction false} ValuedStd(x: Operand, v: nat)
    requires OperandOk(x) && v + OperandLiterals(x) <= MAX_INT
    ensures Meaning(StdOperand(Valued(x, v))) == Some(v)
    decreases x, 2
  {
    if x.Lit? {
      ShownRead(v);
    } else {
      LiteralsPositive(x.e.first);
      ValuedStd(x.e.first, v);
      StdIdle(NoSum, StdOperand(Valued(x.e.first, v)), x.e.tail, v, v, v);
    }
  }

  // ----- literals that show a fall of priorities -----

  predicate FallsAt(t: Tail) {
    t.Link? && t.rest.Link? && Priority(t.op) == 2 && Priority(t.rest.op) == 1
  }

  /** Somewhere in the tail, outside of its bracket groups, a priority falls. */
  predicate TopFalls(t: Tail) {
    t.Link? && (FallsAt(t) || TopFalls(t.rest))
  }

  /** At the first fall the operand that is added or subtracted is k; all others leave the left as it is. */
  function Marked(t: Tail, k: nat, m: nat): (r: Tail)
    requires TopFalls(t)
    ensures r.Link? && r.op == t.op
  {
    var x := Valued(t.x, Unit(t.op, m));
    if FallsAt(t) then Link(t.op, x, Link(t.rest.op, Valued(t.rest.x, k), Idle(t.rest.rest, m)))
    else Link(t.op, x, Marked(t.rest, k, m))
  }

  lemma {:induction false} MarkedShape(t: Tail, k: nat, m: nat)
    requires TailOk(t) && TopFalls(t)
    ensures SameTail(t, Marked(t, k, m)) && TailOk(Marked(t, k, m))
    decreases t
  {
    ValuedShape(t.x, Unit(t.op, m));
    if FallsAt(t) {
      ValuedShape(t.rest.x, k);
      IdleShape(t.rest.rest, m);
    } else {
      MarkedShape(t.rest, k, m);
    }
  }

  /** All numbers stay far from the ends of the 64-bit integers. */
  predicate Room(k: nat, m: nat, literals: nat) {
    2 <= k <= m && 4 * m + 32 * literals <= MAX_INT
  }

  predicate Zero(code: Option<int>) {
    code == None || code == Some(0)
  }

  predicate Plus(std: Option<int>, k: int) {
    std == Some(k) || std == Some(-k)
  }

  lemma ZeroLeft(op: char, b: int)
    requires IsArithmetic(op) && (if Priority(op) == 1 then b == 0 else b != 0)
    ensures Apply(op, 0, b) == Some(0)
  {
    assert 0 * b == 0;
  }

  lemma AddedToZero(op: char, b: int, k: int)
    requires Priority(op) == 1 && (b == k || b == -k) && 0 <= k <= MAX_INT
    ensures Apply(op, 0, b) == Some(k) || Apply(op, 0, b) == Some(-k)
  {
    Small(k);
    Small(-k);
  }

  /** What the evaluator makes the right operand of the product before the fall is not 0. */
  lemma FallOperand(op: char, x: Tree, t: Tail, k: nat, m: nat) returns (b: int)
    requires Priority(op) == 2 && IsArithmetic(op) && Meaning(x) == Some(Unit(op, m))
    requires t.Link? && TailOk(t) && Priority(t.op) == 1 && Room(k, m, TailLiterals(t))
    ensures b != 0 && Meaning(CodeTail(x, Link(t.op, Valued(t.x, k), Idle(t.rest, m)))) == Some(b)
  {
    var n, kx := Unit(op, m), CodeOperand(Valued(t.x, k));
    b := if t.op == '+' then n + k else n - k;
    Small(b);
    ValuedCode(t.x, k);
    assert Apply(t.op, n, k) == Some(b);
    if t.rest.Link? {
      ArithmeticPriority(t.rest.op);
      if Priority(t.rest.op) == 1 {
        CodeIdle(Node(t.op, x, kx), t.rest, m, b);
      } else {
        CodeIdle(kx, t.rest, m, k);
      }
    }
  }

  lemma {:induction false} MarkedCode(acc: Tree, t: Tail, k: nat, m: nat)
    requires TailOk(t) && TopFalls(t) && Room(k, m, TailLiterals(t)) && Meaning(acc) == Some(0)
    ensures Meaning(CodeTail(acc, Marked(t, k, m))) == Some(0)
    decreases t
  {
    var u := Unit(t.op, m);
    var x := CodeOperand(Valued(t.x, u));
    ArithmeticPriority(t.op);
    ArithmeticPriority(t.rest.op);
    ValuedCode(t.x, u);
    if FallsAt(t) {
      var b := FallOperand(t.op, x, t.rest, k, m);
      ZeroLeft(t.op, b);
    } else {
      UnitRight(t.op, 0, m);
      if Priority(t.rest.op) == Priority(t.op) {
        MarkedCode(Node(t.op, acc, x), t.rest, k, m);
      } else {
        MarkedCode(x, t.rest, k, m);
      }
    }
  }

  lemma {:induction false} MarkedStd(p: Left, product: Tree, t: Tail, k: nat, m: nat)
    requires TailOk(t) && TopFalls(t) && Room(k, m, TailLiterals(t))
    requires Sofar(p, product) == Some(0) && Meaning(product) == Some(0)
    ensures Plus(Meaning(StdTail(p, product, Marked(t, k, m))), k)
    decreases t
  {
    var u := Unit(t.op, m);
    var x := StdOperand(Valued(t.x, u));
    var node := Node(t.op, product, x);
    ArithmeticPriority(t.op);
    ValuedStd(t.x, u);
    UnitRight(t.op, 0, m);
    if FallsAt(t) {
      SofarProduct(p, product, node);
      FallStd(p, node, t.rest, k, m);
    } else if Priority(t.op) == 2 {
      SofarProduct(p, product, node);
      MarkedStd(p, node, t.rest, k, m);
    } else {
      SofarSum(Close(p, product), t.op, x);
      MarkedStd(Sum(Close(p, product), t.op), x, t.rest, k, m);
    }
  }

  lemma FallStd(p: Left, product: Tree, t: Tail, k: nat, m: nat)
    requires t.Link? && TailOk(t) && Priority(t.op) == 1 && Room(k, m, TailLiterals(t))
    requires Sofar(p, product) == Some(0)
    ensures Plus(Meaning(StdTail(p, product, Link(t.op, Valued(t.x, k), Idle(t.rest, m)))), k)
  {
    var x := StdOperand(Valued(t.x, k));
    ValuedStd(t.x, k);
    AddedToZero(t.op, k, k);
    SofarSum(Close(p, product), t.op, x);
    StdIdle(Sum(Close(p, product), t.op), x, t.rest, m, Apply(t.op, 0, k).value, k);
  }

  // ----- carrying a difference out of bracket groups -----

  lemma ZeroIdle(acc: Tree, t: Tail, m: nat)
    requires TailOk(t) && m + TailLiterals(t) < MAX_INT && Zero(Meaning(acc))
    ensures Zero(Meaning(CodeTail(acc, Idle(t, m))))
  {
    if Meaning(acc).None? {
      CodeNone(acc, Idle(t, m));
    } else {
      CodeIdle(acc, t, m, 0);
    }
  }

  lemma PlusIdle(p: Left, product: Tree, t: Tail, k: nat, m: nat)
    requires TailOk(t) && Room(k, m, TailLiterals(t))
    requires Plus(Sofar(p, product), k) && Plus(Meaning(product), k)
    ensures Plus(Meaning(StdTail(p, product, Idle(t, m))), k)
  {
    StdIdle(p, product, t, m, Sofar(p, product).value, Meaning(product).value);
  }

  /** From zero on the left the evaluator gets to zero, or to a panic. */
  ghost predicate CodeTo(u: int, t: Tail) {
    forall acc :: Meaning(acc) == Some(u) ==> Zero(Meaning(CodeTail(acc, t)))
  }

  /** Where the standard reading gets to k or -k. */
  ghost predicate StdTo(u: int, t: Tail, k: nat) {
    forall product :: Meaning(product) == Some(u) ==> Plus(Meaning(StdTail(NoSum, product, t)), k)
  }

  ghost predicate SumTo(t: Tail, k: nat) {
    forall p, product :: Sofar(p, product) == Some(0) ==> Plus(Meaning(StdTail(p, product, t)), k)
  }

  /** The left side and the difference in the group with which a product becomes k or -k, or 0 or a panic. */
  function LeftFor(op: char, k: nat): nat {
    match op
    case '*' => 1
    case '/' => 2 * k
    case _ => k
  }

  function InnerFor(op: char, k: nat): nat {
    match op
    case '*' => k
    case '/' => 2
    case _ => k + 1
  }

  lemma TwiceHalved(k: int, c: int)
    requires 0 <= k <= MAX_INT && (c == 2 || c == -2)
    ensures Apply('/', 2 * k, c) == Some(k) || Apply('/', 2 * k, c) == Some(-k)
  {
    Small(k);
    Small(-k);
    assert Quotient(2 * k, c) == if c == 2 then k else -k;
  }

  lemma ProductMisread(op: char, k: nat, code: Option<int>, std: Option<int>)
    requires IsArithmetic(op) && Priority(op) == 2 && 2 <= k && 4 * k <= MAX_INT
    requires Zero(code) && Plus(std, InnerFor(op, k))
    ensures code.Some? ==> Zero(Apply(op, LeftFor(op, k), code.value))
    ensures Plus(Apply(op, LeftFor(op, k), std.value), k)
  {
    var c: int := k;
    if op == '*' {
      Small(c);
      Small(-c);
    } else if op == '/' {
      TwiceHalved(c, std.value);
    } else {
      SmallDividend(c, c + 1);
      RemainderIsAll(c, std.value);
    }
  }

  lemma {:induction false} HighProducts(t: Tail)
    requires TailOk(t) && !TopFalls(t) && t.Link? && Priority(t.op) == 2
    ensures AllProducts(t)
    decreases t
  {
    if t.rest.Link? {
      ArithmeticPriority(t.rest.op);
      HighProducts(t.rest);
    }
  }

  /** The literals of a group, or of an expression, that is read in the wrong way. */
  ghost predicate Misread(x: Operand, x': Operand, k: nat) {
    && SameOperand(x, x') && OperandOk(x')
    && Zero(Meaning(CodeOperand(x'))) && Plus(Meaning(StdOperand(x')), k)
  }

  lemma HighHere(t: Tail, x': Operand, k: nat, m: nat)
    requires t.Link? && TailOk(t) && AllProducts(t) && Room(k, m, 1 + TailLiterals(t)) && 2 * k <= m
    requires Misread(t.x, x', InnerFor(t.op, k))
    ensures CodeTo(LeftFor(t.op, k), Link(t.op, x', Idle(t.rest, m)))
    ensures StdTo(LeftFor(t.op, k), Link(t.op, x', Idle(t.rest, m)), k)
  {
    var u, t' := LeftFor(t.op, k), Link(t.op, x', Idle(t.rest, m));
    var code, std := CodeOperand(x'), StdOperand(x');
    ProductMisread(t.op, k, Meaning(code), Meaning(std));
    forall acc | Meaning(acc) == Some(u)
      ensures Zero(Meaning(CodeTail(acc, t')))
    {
      assert Zero(Meaning(Node(t.op, acc, code)));
      ZeroIdle(Node(t.op, acc, code), t.rest, m);
    }
    forall product | Meaning(product) == Some(u)
      ensures Plus(Meaning(StdTail(NoSum, product, t')), k)
    {
      PlusIdle(NoSum, Node(t.op, product, std), t.rest, k, m);
    }
  }

  lemma HighLater(t: Tail, u: nat, r: Tail, k: nat, m: nat)
    requires t.Link? && t.rest.Link? && TailOk(t) && AllProducts(t) && Room(k, m, 1 + TailLiterals(t)) && u <= m
    requires SameTail(t.rest, r) && CodeTo(u, r) && StdTo(u, r, k)
    ensures CodeTo(u, Link(t.op, Valued(t.x, Unit(t.op, m)), r))
    ensures StdTo(u, Link(t.op, Valued(t.x, Unit(t.op, m)), r), k)
  {
    var x := Valued(t.x, Unit(t.op, m));
    var t' := Link(t.op, x, r);
    ValuedCode(t.x, Unit(t.op, m));
    ValuedStd(t.x, Unit(t.op, m));
    UnitRight(t.op, u, m);
    forall acc | Meaning(acc) == Some(u)
      ensures Zero(Meaning(CodeTail(acc, t')))
    {
      assert Meaning(Node(t.op, acc, CodeOperand(x))) == Some(u);
    }
    forall product | Meaning(product) == Some(u)
      ensures Plus(Meaning(StdTail(NoSum, product, t')), k)
    {
      assert Meaning(Node(t.op, product, StdOperand(x))) == Some(u);
    }
  }

  lemma LowHere(t: Tail, x': Operand, k: nat, m: nat)
    requires t.Link? && TailOk(t) && Priority(t.op) == 1 && Room(k, m, TailLiterals(t)) && Misread(t.x, x', k)
    ensures CodeTo(0, Link(t.op, x', Idle(t.rest, m))) && SumTo(Link(t.op, x', Idle(t.rest, m)), k)
  {
    var t' := Link(t.op, x', Idle(t.rest, m));
    var code, std := CodeOperand(x'), StdOperand(x');
    ZeroLeft(t.op, 0);
    forall acc | Meaning(acc) == Some(0)
      ensures Zero(Meaning(CodeTail(acc, t')))
    {
      assert Zero(Meaning(Node(t.op, acc, code)));
      ZeroIdle(Node(t.op, acc, code), t.rest, m);
      ZeroIdle(code, t.rest, m);
    }
    AddedToZero(t.op, Meaning(std).value, k);
    forall p, product | Sofar(p, product) == Some(0)
      ensures Plus(Meaning(StdTail(p, product, t')), k)
    {
      SofarSum(Close(p, product), t.op, std);
      PlusIdle(Sum(Close(p, product), t.op), std, t.rest, k, m);
    }
  }

  lemma LowLater(t: Tail, r: Tail, k: nat, m: nat)
    requires t.Link? && t.rest.Link? && TailOk(t) && Priority(t.op) == 1 == Priority(t.rest.op)
    requires Room(k, m, TailLiterals(t)) && SameTail(t.rest, r) && CodeTo(0, r) && SumTo(r, k)
    ensures CodeTo(0, Link(t.op, Valued(t.x, 0), r)) && SumTo(Link(t.op, Valued(t.x, 0), r), k)
  {
    var x := Valued(t.x, 0);
    var t' := Link(t.op, x, r);
    ValuedCode(t.x, 0);
    ValuedStd(t.x, 0);
    ZeroLeft(t.op, 0);
    forall acc | Meaning(acc) == Some(0)
      ensures Zero(Meaning(CodeTail(acc, t')))
    {
      assert Meaning(Node(t.op, acc, CodeOperand(x))) == Some(0);
    }
    forall p, product | Sofar(p, product) == Some(0)
      ensures Plus(Meaning(StdTail(p, product, t')), k)
    {
      SofarSum(Close(p, product), t.op, StdOperand(x));
    }
  }

  lemma LowThenHigh(t: Tail, u: nat, r: Tail, k: nat, m: nat)
    requires t.Link? && t.rest.Link? && TailOk(t) && Priority(t.op) == 1 && AllProducts(t.rest)
    requires Room(k, m, TailLiterals(t)) && u <= m && SameTail(t.rest, r) && AllProducts(r)
    requires CodeTo(u, r) && StdTo(u, r, k)
    ensures CodeTo(0, Link(t.op, Valued(t.x, u), r)) && SumTo(Link(t.op, Valued(t.x, u), r), k)
  {
    var x := Valued(t.x, u);
    var t' := Link(t.op, x, r);
    ValuedCode(t.x, u);
    ValuedStd(t.x, u);
    ZeroLeft(t.op, 0);
    forall acc | Meaning(acc) == Some(0)
      ensures Zero(Meaning(CodeTail(acc, t')))
    {
      assert Zero(Meaning(CodeTail(CodeOperand(x), r)));
    }
    var product' := StdTail(NoSum, StdOperand(x), r);
    assert Plus(Meaning(product'), k);
    AddedToZero(t.op, Meaning(product').value, k);
    forall p, product | Sofar(p, product) == Some(0)
      ensures Plus(Meaning(StdTail(p, product, t')), k)
    {
      ProductsStayRight(Close(p, product), t.op, StdOperand(x), r);
    }
  }

  lemma {:induction false} SameProducts(t: Tail, t': Tail)
    requires SameTail(t, t') && AllProducts(t)
    ensures AllProducts(t')
    decreases t
  {
    if t.Link? {
      SameProducts(t.rest, t'.rest);
    }
  }

  // ----- every fall can be shown -----

  lemma {:induction false} Broken(e: Infix, k: nat) returns (e': Infix)
    requires Ok(e) && !NonFalling(e) && Room(k, 2 * k, Literals(e))
    ensures SameShape(e, e') && Ok(e')
    ensures Zero(Meaning(CodeTree(e'))) && Plus(Meaning(StdTree(e')), k)
    decreases e, 2
  {
    var m := 2 * k;
    LiteralsPositive(e.first);
    if TopFalls(e.tail) {
      e' := Infix(Valued(e.first, 0), Marked(e.tail, k, m));
      ValuedShape(e.first, 0);
      MarkedShape(e.tail, k, m);
      ValuedCode(e.first, 0);
      ValuedStd(e.first, 0);
      MarkedCode(CodeOperand(e'.first), e.tail, k, m);
      MarkedStd(NoSum, StdOperand(e'.first), e.tail, k, m);
    } else if !NonFallingOperand(e.first) {
      var x' := BrokenOperand(e.first, k);
      e' := Infix(x', Idle(e.tail, m));
      IdleShape(e.tail, m);
      ZeroIdle(CodeOperand(x'), e.tail, m);
      PlusIdle(NoSum, StdOperand(x'), e.tail, k, m);
    } else {
      e' := BrokenTail(e, k);
    }
  }

  lemma {:induction false} BrokenOperand(x: Operand, k: nat) returns (x': Operand)
    requires OperandOk(x) && !NonFallingOperand(x) && Room(k, 2 * k, OperandLiterals(x))
    ensures Misread(x, x', k)
    decreases x, 2
  {
    var e' := Broken(x.e, k);
    x' := Group(e');
  }

  lemma {:induction false} BrokenTail(e: Infix, k: nat) returns (e': Infix)
    requires Ok(e) && !NonFallingTail(e.tail) && !TopFalls(e.tail) && Room(k, 2 * k, Literals(e))
    ensures SameShape(e, e') && Ok(e')
    ensures Zero(Meaning(CodeTree(e'))) && Plus(Meaning(StdTree(e')), k)
    decreases e, 1
  {
    var u, t' := 0, e.tail;
    LiteralsPositive(e.first);
    ArithmeticPriority(e.tail.op);
    if Priority(e.tail.op) == 1 {
      t' := BrokenLow(e.tail, k, 2 * k);
    } else {
      HighProducts(e.tail);
      u, t' := BrokenHigh(e.tail, k, 2 * k);
    }
    e' := Infix(Valued(e.first, u), t');
    ValuedShape(e.first, u);
    ValuedCode(e.first, u);
    ValuedStd(e.first, u);
    assert Sofar(NoSum, StdOperand(e'.first)) == Some(u);
  }

  lemma {:induction false} BrokenHigh(t: Tail, k: nat, m: nat) returns (u: nat, t': Tail)
    requires TailOk(t) && AllProducts(t) && !NonFallingTail(t) && Room(k, m, 1 + TailLiterals(t)) && m == 2 * k
    ensures SameTail(t, t') && TailOk(t') && u <= m && CodeTo(u, t') && StdTo(u, t', k)
    decreases t, 0
  {
    if !NonFallingOperand(t.x) {
      var x' := BrokenOperand(t.x, InnerFor(t.op, k));
      u, t' := LeftFor(t.op, k), Link(t.op, x', Idle(t.rest, m));
      IdleShape(t.rest, m);
      HighHere(t, x', k, m);
    } else {
      var r;
      u, r := BrokenHigh(t.rest, k, m);
      t' := Link(t.op, Valued(t.x, Unit(t.op, m)), r);
      ValuedShape(t.x, Unit(t.op, m));
      HighLater(t, u, r, k, m);
    }
  }

  lemma {:induction false} BrokenLow(t: Tail, k: nat, m: nat) returns (t': Tail)
    requires TailOk(t) && !TopFalls(t) && !NonFallingTail(t) && Room(k, m, TailLiterals(t)) && m == 2 * k
    requires t.Link? && Priority(t.op) == 1
    ensures SameTail(t, t') && TailOk(t') && CodeTo(0, t') && SumTo(t', k)
    decreases t, 0
  {
    LiteralsPositive(t.x);
    if !NonFallingOperand(t.x) {
      var x' := BrokenOperand(t.x, k);
      t' := Link(t.op, x', Idle(t.rest, m));
      IdleShape(t.rest, m);
      LowHere(t, x', k, m);
    } else {
      ArithmeticPriority(t.rest.op);
      if Priority(t.rest.op) == 1 {
        var r := BrokenLow(t.rest, k, m);
        t' := Link(t.op, Valued(t.x, 0), r);
        ValuedShape(t.x, 0);
        LowLater(t, r, k, m);
      } else {
        HighProducts(t.rest);
        var u, r := BrokenHigh(t.rest, k, m);
        t' := Link(t.op, Valued(t.x, u), r);
        ValuedShape(t.x, u);
        SameProducts(t.rest, r);
        LowThenHigh(t, u, r, k, m);
      }
    }
  }

  lemma {:induction false} SameNonFalling(e: Infix, e': Infix)
    requires SameShape(e, e')
    ensures NonFalling(e) <==> NonFalling(e')
    decreases e
  {
    SameNonFallingOperand(e.first, e'.first);
    SameNonFallingTail(e.tail, e'.tail);
  }

  lemma {:induction false} SameNonFallingOperand(x: Operand, x': Operand)
    requires SameOperand(x, x')
    ensures NonFallingOperand(x) <==> NonFallingOperand(x')
    decreases x
  {
    if x.Group? {
      SameNonFalling(x.e, x'.e);
    }
  }

  lemma {:induction false} SameNonFallingTail(t: Tail, t': Tail)
    requires SameTail(t, t')
    ensures NonFallingTail(t) <==> NonFallingTail(t')
    decreases t
  {
    if t.Link? {
      SameNonFallingOperand(t.x, t'.x);
      SameNonFallingTail(t.rest, t'.rest);
    }
  }

  /** Whatever its literals are, the evaluator gives an expression its standard value, or panics with it, exactly when
      no priority falls inside a bracket group. */
  lemma StandardValuesIffNonFalling(e: Infix)
    requires Ok(e) && Fits(e)
    ensures (forall e' :: SameShape(e, e') && Ok(e') ==> Meaning(CodeTree(e')) == Meaning(StdTree(e')))
            <==> NonFalling(e)
  {
    if NonFalling(e) {
      forall e' | SameShape(e, e') && Ok(e')
        ensures Meaning(CodeTree(e')) == Meaning(StdTree(e'))
      {
        SameNonFalling(e, e');
        NonFallingAgrees(e');
      }
    } else {
      var e' := Broken(e, 2);
      assert Meaning(CodeTree(e')) != Meaning(StdTree(e'));
    }
  }

  lemma {:induction false} SameLiterals(e: Infix, e': Infix)
    requires SameShape(e, e')
    ensures Literals(e) == Literals(e')
    decreases e
  {
    SameOperandLiterals(e.first, e'.first);
    SameTailLiterals(e.tail, e'.tail);
  }

  lemma {:induction false} SameOperandLiterals(x: Operand, x': Operand)
    requires SameOperand(x, x')
    ensures OperandLiterals(x) == OperandLiterals(x')
    decreases x
  {
    if x.Group? {
      SameLiterals(x.e, x'.e);
    }
  }

  lemma {:induction false} SameTailLiterals(t: Tail, t': Tail)
    requires SameTail(t, t')
    ensures TailLiterals(t) == TailLiterals(t')
    decreases t
  {
    if t.Link? {
      SameOperandLiterals(t.x, t'.x);
      SameTailLiterals(t.rest, t'.rest);
    }
  }

  /** For every expression with a fall there are literals with which it has a standard value, but Num, however it is
      laid out, yields another one or panics. */
  lemma NumMisreads(e: Infix) returns (e': Infix)
    requires Ok(e) && Fits(e) && !NonFalling(e)
    ensures SameShape(e, e') && Ok(e') && Fits(e') && Meaning(StdTree(e')).Some?
    ensures forall gaps | Spaced(gaps, InfixTokens(e')) ::
              NumOf(Layout(gaps, InfixTokens(e'))) != Value(Meaning(StdTree(e')).value)
  {
    e' := Broken(e, 2);
    SameLiterals(e, e');
    forall gaps | Spaced(gaps, InfixTokens(e'))
      ensures NumOf(Layout(gaps, InfixTokens(e'))) != Value(Meaning(StdTree(e')).value)
    {
      NumComputesCodeTree(e', gaps);
    }
  }
}
