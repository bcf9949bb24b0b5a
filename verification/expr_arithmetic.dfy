/** What the evaluator computes, said of the numbers alone: two's-complement sums, differences and products, division
    that truncates toward zero, and remainders with the sign of the dividend. */
module ExprArithmetic {
  import opened Numbers
  import opened Wrappers
  import opened ExprContainers
  import opened ExprMachine
  import opened ExprLanguage
  import opened ExprPrecedence
  import opened ExprResults

  predicate InRange(n: int) {
    -0x8000_0000_0000_0000 <= n < 0x8000_0000_0000_0000
  }

  predicate SameModulo64(x: int, y: int) {
    (x - y) % 0x1_0000_0000_0000_0000 == 0
  }

  /** q times b and the remainder r make a, and r is smaller than b and does not point away from a. */
  predicate Divides(a: int, b: int, q: int, r: int) {
    && q * b + r == a
    && (if b > 0 then -b < r < b else b < r < -b)
    && (r == 0 || (r > 0 <==> a > 0))
  }

  /** What a op b has to be; None is a panic. */
  ghost predicate Computes(op: char, a: int, b: int, v: Option<int>) {
    match op
    case '+' => v.Some? && InRange(v.value) && SameModulo64(v.value, a + b)
    case '-' => v.Some? && InRange(v.value) && SameModulo64(v.value, a - b)
    case '*' => v.Some? && InRange(v.value) && SameModulo64(v.value, a * b)
    case '/' =>
      if b == 0 then v == None
      else if a == -0x8000_0000_0000_0000 && b == -1 then v == Some(a)
      else v.Some? && exists r :: Divides(a, b, v.value, r)
    case '%' => if b == 0 then v == None else v.Some? && exists q :: Divides(a, b, q, v.value)
    case _ => false
  }

  // ----- the operators -----

  lemma WrapIsSame(x: int)
    ensures InRange(Wrap(x)) && SameModulo64(Wrap(x), x)
    ensures InRange(x) ==> Wrap(x) == x
  {
  }

  lemma SameIsEqual(x: int, y: int, z: int)
    requires InRange(x) && InRange(y) && SameModulo64(x, z) && SameModulo64(y, z)
    ensures x == y
  {
    assert (x - y) % 0x1_0000_0000_0000_0000 == 0;
  }

  lemma NaturalDivision(a: int, b: int)
    requires a >= 0 && b != 0
    ensures a == (a / b) * b + a % b && 0 <= a % b < if b > 0 then b else -b
  {
  }

  lemma DividesFrom(a: int, b: int, q: int, r: int)
    requires q * b + r == a && (if b > 0 then -b < r < b else b < r < -b) && (r == 0 || (r > 0 <==> a > 0))
    ensures Divides(a, b, q, a - b * q)
  {
    assert b * q == q * b;
  }

  lemma Negated(q: int, b: int, r: int)
    ensures (-q) * b + (-r) == -(q * b + r)
  {
  }

  lemma QuotientDivides(a: int, b: int)
    requires b != 0
    ensures Divides(a, b, Quotient(a, b), a - b * Quotient(a, b))
  {
    var n := if a >= 0 then a else -a;
    var q, r := n / b, n % b;
    NaturalDivision(n, b);
    if a == 0 {
      assert 0 / b == 0;
    } else if a > 0 {
      DividesFrom(a, b, q, r);
    } else {
      Negated(q, b, r);
      DividesFrom(a, b, -q, -r);
    }
  }

  lemma MultipleBounds(d: int, b: int)
    ensures b >= 0 && d >= 1 ==> d * b >= b
    ensures b >= 0 && d <= -1 ==> d * b <= -b
    ensures b <= 0 && d >= 1 ==> d * b <= b
    ensures b <= 0 && d <= -1 ==> d * b >= -b
  {
    if d >= 1 {
      assert d * b == (d - 1) * b + b;
    } else if d <= -1 {
      assert d * b == (d + 1) * b - b;
    }
  }

  /** A multiple of b that is closer to 0 than b is 0. */
  lemma SmallMultiple(d: int, b: int)
    requires b != 0 && (if b > 0 then -b < d * b < b else b < d * b < -b)
    ensures d == 0
  {
    MultipleBounds(d, b);
  }

  lemma DivisionUnique(a: int, b: int, q: int, r: int, q': int, r': int)
    requires b != 0 && Divides(a, b, q, r) && Divides(a, b, q', r')
    ensures q == q' && r == r'
  {
    assert (q - q') * b == r' - r;
    SmallMultiple(q - q', b);
  }

  /** What divides a is not farther from 0 than a, and with a divisor beyond 1 at most half as far. */
  lemma DividesBounds(a: int, b: int, q: int, r: int)
    requires b != 0 && Divides(a, b, q, r)
    ensures b == 1 ==> q == a
    ensures b == -1 ==> q == -a
    ensures (b > 1 || b < -1) && a >= 0 ==> -a <= 2 * q <= a
    ensures (b > 1 || b < -1) && a <= 0 ==> a <= 2 * q <= -a
    ensures a >= 0 ==> 0 <= r <= a
    ensures a <= 0 ==> a <= r <= 0
  {
    assert q * b == a - r;
    if b > 1 || b < -1 {
      TwiceInside(q, b, a, r);
    } else {
      assert r == 0;
    }
  }

  lemma AtLeastTwice(q: int, b: int)
    requires b > 1 || b < -1
    ensures (q >= 0) == (b > 0) ==> q * b >= 2 * q && q * b >= -2 * q
    ensures (q >= 0) != (b > 0) ==> q * b <= 2 * q && q * b <= -2 * q
  {
    if b > 1 {
      assert q * b == q * (b - 2) + 2 * q;
      assert if q >= 0 then q * (b - 2) >= 0 else q * (b - 2) <= 0;
    } else {
      assert q * b == q * (b + 2) - 2 * q;
      assert if q >= 0 then q * (b + 2) <= 0 else q * (b + 2) >= 0;
    }
  }

  lemma TwiceInside(q: int, b: int, a: int, r: int)
    requires (b > 1 || b < -1) && Divides(a, b, q, r)
    ensures a >= 0 ==> -a <= 2 * q <= a && 0 <= r <= a
    ensures a <= 0 ==> a <= 2 * q <= -a && a <= r <= 0
  {
    AtLeastTwice(q, b);
    MultipleBounds(q, b);
    ProductInside(q, q * b, b, a, r);
  }

  lemma ProductInside(q: int, p: int, b: int, a: int, r: int)
    requires p + r == a && (if b > 0 then -b < r < b else b < r < -b) && (r == 0 || (r > 0 <==> a > 0))
    requires q == 0 ==> p == 0
    requires (q >= 0) == (b > 0) ==> p >= 2 * q && p >= -2 * q
    requires (q >= 0) != (b > 0) ==> p <= 2 * q && p <= -2 * q
    requires b >= 0 && q >= 1 ==> p >= b
    requires b >= 0 && q <= -1 ==> p <= -b
    requires b <= 0 && q >= 1 ==> p <= b
    requires b <= 0 && q <= -1 ==> p >= -b
    ensures a >= 0 ==> -a <= 2 * q <= a && 0 <= r <= a
    ensures a <= 0 ==> a <= 2 * q <= -a && a <= r <= 0
  {
  }

  lemma QuotientInRange(a: int, b: int)
    requires InRange(a) && InRange(b) && b != 0
    ensures InRange(Quotient(a, b)) <==> !(a == -0x8000_0000_0000_0000 && b == -1)
    ensures InRange(a - b * Quotient(a, b))
  {
    QuotientDivides(a, b);
    DividesBounds(a, b, Quotient(a, b), a - b * Quotient(a, b));
  }

  lemma ApplyComputes(op: char, a: int, b: int)
    requires IsArithmetic(op) && InRange(a) && InRange(b)
    ensures Computes(op, a, b, Apply(op, a, b))
    ensures Apply(op, a, b).Some? ==> InRange(Apply(op, a, b).value)
  {
    match op
    case '+' =>
      WrapIsSame(a + b);
    case '-' =>
      WrapIsSame(a - b);
    case '*' =>
      WrapIsSame(a * b);
    case _ =>
      if b != 0 {
        QuotientDivides(a, b);
        QuotientInRange(a, b);
        WrapIsSame(Quotient(a, b));
      }
  }

  /** An operator has one result. */
  lemma ComputesOne(op: char, a: int, b: int, v: Option<int>, w: Option<int>)
    requires Computes(op, a, b, v) && Computes(op, a, b, w)
    ensures v == w
  {
    match op
    case '+' =>
      SameIsEqual(v.value, w.value, a + b);
    case '-' =>
      SameIsEqual(v.value, w.value, a - b);
    case '*' =>
      SameIsEqual(v.value, w.value, a * b);
    case '/' =>
      if b != 0 && !(a == -0x8000_0000_0000_0000 && b == -1) {
        var r :| Divides(a, b, v.value, r);
        var r' :| Divides(a, b, w.value, r');
        DivisionUnique(a, b, v.value, r, w.value, r');
      }
    case '%' =>
      if b != 0 {
        var q :| Divides(a, b, q, v.value);
        var q' :| Divides(a, b, q', w.value);
        DivisionUnique(a, b, q, v.value, q', w.value);
      }
  }

  // ----- trees -----

  /** The number that a string of digits stands for: each digit times the power of ten of its place. */
  function Worth(s: string): nat
    requires AllDigits(s)
  {
    if s == "" then 0 else (s[0] as int - '0' as int) * Power10(|s| - 1) + Worth(s[1..])
  }

  lemma {:induction false} WorthSnoc(s: string, c: char)
    requires AllDigits(s) && IsDigit(c)
    ensures AllDigits(s + [c]) && Worth(s + [c]) == 10 * Worth(s) + (c as int - '0' as int)
    decreases |s|
  {
    var t := s + [c];
    if s == "" {
      assert t == [c] && t[1..] == "";
      assert Power10(0) == 1;
    } else {
      assert t[1..] == s[1..] + [c] && t[0] == s[0];
      WorthSnoc(s[1..], c);
      var d, p := s[0] as int - '0' as int, Power10(|s| - 1);
      assert Power10(|s|) == 10 * p;
      assert d * (10 * p) == 10 * (d * p);
    }
  }

  lemma {:induction false} DecimalIsWorth(s: string)
    requires AllDigits(s)
    ensures Decimal(s) == Worth(s)
    decreases |s|
  {
    if s != "" {
      var n := |s| - 1;
      DecimalIsWorth(s[..n]);
      WorthSnoc(s[..n], s[n]);
      assert s == s[..n] + [s[n]];
    }
  }

  /** The value of a tree, from the digits of its literals and what its operators have to compute. */
  ghost predicate Evaluates(t: Tree, v: Option<int>) {
    match t
    case Leaf(text) =>
      IsNumber(text) && v == if Worth(text) < 0x8000_0000_0000_0000 then Some(Worth(text)) else None
    case Node(op, l, r) =>
      exists a, b ::
        && Evaluates(l, a) && Evaluates(r, b)
        && if a.Some? && b.Some? then Computes(op, a.value, b.value, v) else v == None
  }

  lemma LeafEvaluates(text: string)
    requires IsNumber(text)
    ensures Meaning(Leaf(text)) == if Worth(text) < 0x8000_0000_0000_0000 then Some(Worth(text)) else None
  {
    assert IsDigit(text[0]);
    DecimalIsWorth(text);
  }

  /** Every tree has exactly one value, and that is its meaning. */
  lemma {:induction false} MeaningEvaluates(t: Tree)
    requires TreeOk(t)
    ensures forall v :: Evaluates(t, v) <==> v == Meaning(t)
    ensures Meaning(t).Some? ==> InRange(Meaning(t).value)
    decreases t
  {
    match t
    case Leaf(text) =>
      LeafEvaluates(text);
    case Node(op, l, r) =>
      MeaningEvaluates(l);
      MeaningEvaluates(r);
      var a, b := Meaning(l), Meaning(r);
      if a.Some? && b.Some? {
        ApplyComputes(op, a.value, b.value);
        forall v | Computes(op, a.value, b.value, v)
          ensures v == Meaning(t)
        {
          ComputesOne(op, a.value, b.value, v, Meaning(t));
        }
      }
      assert Evaluates(l, a) && Evaluates(r, b);
  }

  // ----- characters -----

  /** The characters of which tokens are made, and the two priorities. */
  lemma Characters(c: char)
    ensures IsDigit(c) <==> c in {'0', '1', '2', '3', '4', '5', '6', '7', '8', '9'}
    ensures IsOperator(c) <==> c in {'+', '-', '*', '/', '%', '(', ')'}
    ensures c in {'+', '-'} ==> Priority(c) == 1
    ensures c in {'*', '/', '%'} ==> Priority(c) == 2
  {
  }

  // ----- Num -----

  function ResultOf(v: Option<int>): NumResult {
    match v
    case None => Panic
    case Some(n) => Value(n)
  }

  /** Num yields v for an expression that fits exactly when the tree the evaluator reads evaluates to v. */
  lemma NumEvaluates(e: Infix, gaps: seq<string>, v: Option<int>)
    requires Ok(e) && Fits(e) && Spaced(gaps, InfixTokens(e))
    ensures NumOf(Layout(gaps, InfixTokens(e))) == ResultOf(v) <==> Evaluates(CodeTree(e), v)
  {
    CodeTreeOk(e);
    MeaningEvaluates(CodeTree(e));
    NumComputesCodeTree(e, gaps);
  }

  /** And for one whose priorities never fall inside a bracket group, when the standard tree does. */
  lemma NumEvaluatesStandard(e: Infix, gaps: seq<string>, v: Option<int>)
    requires Ok(e) && Fits(e) && NonFalling(e) && Spaced(gaps, InfixTokens(e))
    ensures NumOf(Layout(gaps, InfixTokens(e))) == ResultOf(v) <==> Evaluates(StdTree(e), v)
  {
    NonFallingAgrees(e);
    NumEvaluates(e, gaps, v);
  }

  function Alone(x: Operand): Infix {
    Infix(x, End)
  }

  function Two(op: char, x: Operand, y: Operand): Infix {
    Infix(x, Link(op, y, End))
  }

  /** What Num yields for the text of e with these gaps. */
  ghost predicate Yields(e: Infix, gaps: seq<string>, v: Option<int>) {
    Spaced(gaps, InfixTokens(e)) && NumOf(Layout(gaps, InfixTokens(e))) == ResultOf(v)
  }

  lemma YieldsMeaning(e: Infix, gaps: seq<string>, v: Option<int>)
    requires Ok(e) && Fits(e) && Yields(e, gaps, v)
    ensures v == Meaning(CodeTree(e))
  {
    NumComputesCodeTree(e, gaps);
  }

  lemma TwoTrees(op: char, x: Operand, y: Operand)
    requires Ok(Two(op, x, y)) && Fits(Two(op, x, y))
    ensures Ok(Alone(x)) && Fits(Alone(x)) && Ok(Alone(y)) && Fits(Alone(y))
    ensures CodeTree(Two(op, x, y)) == Node(op, CodeTree(Alone(x)), CodeTree(Alone(y)))
  {
    assert TailLiterals(Link(op, y, End)) == OperandLiterals(y) + TailLiterals(End);
  }

  lemma OtherOperator(op: char, other: char, x: Operand, y: Operand)
    requires Ok(Two(op, x, y)) && Fits(Two(op, x, y)) && IsArithmetic(other)
    ensures Ok(Two(other, x, y)) && Fits(Two(other, x, y))
  {
    assert TailLiterals(Link(op, y, End)) == TailLiterals(Link(other, y, End));
  }

  /** What Num yields for two operands with an operator between them, from what it yields for each of them. */
  lemma NumOfTwo(op: char, x: Operand, y: Operand, gaps: seq<string>, gapsX: seq<string>, gapsY: seq<string>,
                 v: Option<int>, a: Option<int>, b: Option<int>)
    requires Ok(Two(op, x, y)) && Fits(Two(op, x, y))
    requires Yields(Two(op, x, y), gaps, v) && Yields(Alone(x), gapsX, a) && Yields(Alone(y), gapsY, b)
    ensures if a.Some? && b.Some? then Computes(op, a.value, b.value, v) else v == None
    ensures a.Some? ==> InRange(a.value)
  {
    TwoTrees(op, x, y);
    YieldsMeaning(Two(op, x, y), gaps, v);
    YieldsMeaning(Alone(x), gapsX, a);
    YieldsMeaning(Alone(y), gapsY, b);
    var l, r := CodeTree(Alone(x)), CodeTree(Alone(y));
    CodeTreeOk(Alone(x));
    CodeTreeOk(Alone(y));
    MeaningEvaluates(l);
    MeaningEvaluates(r);
    if a.Some? && b.Some? {
      ApplyComputes(op, a.value, b.value);
    }
  }

  lemma QuotientAndRemainder(a: int, b: int, q: Option<int>, r: Option<int>)
    requires Computes('/', a, b, q) && Computes('%', a, b, r)
    ensures if b == 0 then q == None && r == None
            else if a == -0x8000_0000_0000_0000 && b == -1 then q == Some(a) && r == Some(0)
            else q.Some? && r.Some? && Divides(a, b, q.value, r.value)
  {
    if b != 0 {
      var k :| Divides(a, b, k, r.value);
      if a == -0x8000_0000_0000_0000 && b == -1 {
        DivisionUnique(a, b, k, r.value, 0x8000_0000_0000_0000, 0);
      } else {
        var m :| Divides(a, b, q.value, m);
        DivisionUnique(a, b, k, r.value, q.value, m);
      }
    }
  }

  lemma NumOfNumbers(op: char, x: Operand, y: Operand, gaps: seq<string>, gapsX: seq<string>, gapsY: seq<string>,
                     v: Option<int>, a: int, b: int)
    requires Ok(Two(op, x, y)) && Fits(Two(op, x, y)) && Yields(Two(op, x, y), gaps, v)
    requires Yields(Alone(x), gapsX, Some(a)) && Yields(Alone(y), gapsY, Some(b))
    ensures Computes(op, a, b, v)
  {
    NumOfTwo(op, x, y, gaps, gapsX, gapsY, v, Some(a), Some(b));
  }

  /** Num on a/b and on a%b, for any operands with the values a and b: the quotient times the divisor and the remainder
      make the dividend; the remainder is smaller than the divisor and has the sign of the dividend. */
  lemma NumDivides(x: Operand, y: Operand, gapsQ: seq<string>, gapsR: seq<string>,
                   gapsX: seq<string>, gapsY: seq<string>, a: int, b: int, q: Option<int>, r: Option<int>)
    requires Ok(Two('/', x, y)) && Fits(Two('/', x, y))
    requires Yields(Two('/', x, y), gapsQ, q) && Yields(Two('%', x, y), gapsR, r)
    requires Yields(Alone(x), gapsX, Some(a)) && Yields(Alone(y), gapsY, Some(b))
    ensures if b == 0 then q == None && r == None
            else if a == -0x8000_0000_0000_0000 && b == -1 then q == Some(a) && r == Some(0)
            else q.Some? && r.Some? && Divides(a, b, q.value, r.value)
  {
    assert Computes('/', a, b, q) by {
      NumOfNumbers('/', x, y, gapsQ, gapsX, gapsY, q, a, b);
    }
    assert Computes('%', a, b, r) by {
      OtherOperator('/', '%', x, y);
      NumOfNumbers('%', x, y, gapsR, gapsX, gapsY, r, a, b);
    }
    QuotientAndRemainder(a, b, q, r);
  }

  /** Division truncates toward zero. */
  lemma Truncates(q: int, r: int)
    ensures Divides(7, 3, q, r) <==> q == 2 && r == 1
    ensures Divides(-7, 2, q, r) <==> q == -3 && r == -1
    ensures Divides(7, -2, q, r) <==> q == -3 && r == 1
  {
    if Divides(7, 3, q, r) {
      DivisionUnique(7, 3, q, r, 2, 1);
    }
    if Divides(-7, 2, q, r) {
      DivisionUnique(-7, 2, q, r, -3, -1);
    }
    if Divides(7, -2, q, r) {
      DivisionUnique(7, -2, q, r, -3, 1);
    }
  }
}
