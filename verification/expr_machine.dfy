/** The stack and the ring queue of the expression evaluator. */
module ExprContainers {
  import opened Wrappers

  /** What the containers hold: an operator byte, a token text, or a number. */
  datatype Item = Op(op: char) | Text(text: string) | Int(n: int)

  class Stack {
    var items: seq<Item>

    constructor ()
      ensures items == []
    {
      items := [];
    }

    method Push(v: Item)
      modifies this
      ensures items == old(items) + [v]
    {
      items := items + [v];
    }

    /** None is the "empty stack" error. */
    method Pop() returns (v: Option<Item>)
      modifies this
      ensures old(items) == [] ==> v == None && items == []
      ensures old(items) != [] ==> && v == Some(old(items)[|old(items)| - 1])
                                   && items == old(items)[..|old(items)| - 1]
    {
      if |items| == 0 {
        return None;
      }
      v := Some(items[|items| - 1]);
      items := items[..|items| - 1];
    }

    method Top() returns (v: Option<Item>)
      ensures v == if items == [] then None else Some(items[|items| - 1])
    {
      v := if |items| == 0 then None else Some(items[|items| - 1]);
    }
  }

  /** A bounded queue over a ring; meet tells a full ring from an empty one when head and tail coincide. */
  class Queue {
    var head: nat
    var tail: nat
    var meet: bool
    const buf: array<Item>

    ghost predicate Valid()
      reads this, buf
    {
      && 1 <= buf.Length && head < buf.Length && tail < buf.Length
      && (head != tail ==> meet)
    }

    /** The queued items, oldest first. */
    ghost function Contents(): seq<Item>
      requires Valid()
      reads this, buf
    {
      if !meet then []
      else if tail < head then buf[tail..head]
      else buf[tail..] + buf[..head]
    }

    function Cap(): nat
      reads this
    {
      buf.Length
    }

    constructor (size: int)
      ensures Valid() && fresh(buf) && Contents() == []
      ensures Cap() == if size <= 0 then 1 else size
    {
      head, tail, meet := 0, 0, false;
      buf := new Item[if size <= 0 then 1 else size](_ => Int(0));
    }

    /** Appends v unless the queue is full; false is the "queue full" error. */
    method Put(v: Item) returns (ok: bool)
      requires Valid()
      modifies this, buf
      ensures Valid()
      ensures ok <==> |old(Contents())| < Cap()
      ensures Contents() == if ok then old(Contents()) + [v] else old(Contents())
    {
      if head == tail && meet {
        return false;
      }
      buf[head] := v;
      head := head + 1;
      if head == buf.Length {
        head := 0;
      }
      meet := true;
      return true;
    }

    /** Removes the oldest item; None is the "empty queue" error. */
    method Get() returns (v: Option<Item>)
      requires Valid()
      modifies this
      ensures Valid()
      ensures v.None? <==> old(Contents()) == []
      ensures v.None? ==> Contents() == []
      ensures v.Some? ==> old(Contents()) != [] && v.value == old(Contents())[0] && Contents() == old(Contents())[1..]
    {
      if head == tail && !meet {
        return None;
      }
      v := Some(buf[tail]);
      tail := tail + 1;
      if tail == buf.Length {
        tail := 0;
      }
      if head == tail {
        meet := false;
      }
    }
  }
}

/** Tokeniser, infix-to-suffix conversion and suffix evaluation of arithmetic expressions. */
module ExprMachine {
  import opened Wrappers
  import opened ExprContainers

  predicate IsOperator(b: char) {
    b == '+' || b == '-' || b == '*' || b == '/' || b == '%' || b == '(' || b == ')'
  }

  function Priority(b: char): nat {
    match b
    case '+' | '-' => 1
    case '*' | '/' | '%' => 2
    case '(' => 3
    case _ => 0
  }

  predicate IsDigit(c: char) {
    '0' <= c <= '9'
  }

  predicate AllDigits(s: string) {
    forall i :: 0 <= i < |s| ==> IsDigit(s[i])
  }

  // ----- tokens -----

  /** The first position from i on that holds no digit. */
  function RunEnd(s: string, i: nat): (j: nat)
    requires i <= |s|
    ensures i <= j <= |s| && AllDigits(s[i..j]) && (j < |s| ==> !IsDigit(s[j]))
    decreases |s| - i
  {
    if i < |s| && IsDigit(s[i]) then
      var j := RunEnd(s, i + 1);
      assert s[i..j] == [s[i]] + s[i + 1..j];
      j
    else i
  }

  /** What one turn of the outer loop appends: a run of digits s[n..i] and the operator right after it. */
  function Turn(s: string, n: nat, i: nat): seq<string>
    requires n <= i <= |s|
  {
    (if n != i then [s[n..i]] else []) + if i < |s| && IsOperator(s[i]) then [s[i..i + 1]] else []
  }

  /** The tokens of s from position i on. */
  function TokensFrom(s: string, i: nat): seq<string>
    decreases |s| + 1 - i
  {
    if i >= |s| then []
    else
      var j := RunEnd(s, i);
      Turn(s, i, j) + TokensFrom(s, j + 1)
  }

  function AfterTurn(s: string, rv: seq<string>, n: nat, i: nat): seq<string>
    requires n <= i <= |s|
  {
    var r := if n != i then rv + [s[n..i]] else rv;
    if i < |s| && IsOperator(s[i]) then r + [s[i..i + 1]] else r
  }

  lemma Regroup(done: seq<string>, rv: seq<string>, turn: seq<string>, rest: seq<string>, all: seq<string>)
    requires rv == done + turn && all == turn + rest
    ensures rv + rest == done + all
  {
  }

  lemma AfterTurnIs(s: string, rv: seq<string>, n: nat, i: nat)
    requires n <= i <= |s|
    ensures AfterTurn(s, rv, n, i) == rv + Turn(s, n, i)
  {
  }

  lemma TurnAppends(s: string, done: seq<string>, n: nat, i: nat, rv: seq<string>)
    requires n < |s| && i == RunEnd(s, n) && rv == AfterTurn(s, done, n, i)
    ensures rv + TokensFrom(s, i + 1) == done + TokensFrom(s, n)
  {
    AfterTurnIs(s, done, n, i);
    Regroup(done, rv, Turn(s, n, i), TokensFrom(s, i + 1), TokensFrom(s, n));
  }

  /** The inner loop: past the digits from position n on. */
  method SkipDigits(s: string, n: nat) returns (i: nat)
    requires n <= |s|
    ensures i == RunEnd(s, n)
  {
    i := n;
    while i < |s| && IsDigit(s[i])
      invariant n <= i <= |s|
      invariant RunEnd(s, n) == RunEnd(s, i)
    {
      i := i + 1;
    }
  }

  method ParseExpr(s: string) returns (rv: seq<string>)
    ensures rv == TokensFrom(s, 0)
  {
    rv := [];
    var i := 0;
    while i < |s|
      invariant rv + TokensFrom(s, i) == TokensFrom(s, 0)
      decreases |s| - i
    {
      ghost var done := rv;
      var n := i;
      i := SkipDigits(s, n);
      if n != i {
        rv := rv + [s[n..i]];
      }
      if i < |s| && IsOperator(s[i]) {
        rv := rv + [s[i..i + 1]];
      }
      TurnAppends(s, done, n, i, rv);
      i := i + 1;
    }
  }

  // ----- infix to suffix -----

  /** The operator stack and everything put into the output so far; Panicked is the panic "not found (". */
  datatype Suffix = Suffix(ops: seq<char>, out: seq<Item>) | Panicked

  /** Pops operators into the output down to the last "(". */
  function CloseGroup(ops: seq<char>, out: seq<Item>): Suffix {
    if ops == [] then Panicked
    else
      var top, below := ops[|ops| - 1], ops[..|ops| - 1];
      if top == '(' then Suffix(below, out) else CloseGroup(below, out + [Op(top)])
  }

  function SuffixOperator(st: Suffix, b: char): Suffix
    requires st.Suffix?
  {
    if st.ops == [] then Suffix([b], st.out)
    else if b == ')' then CloseGroup(st.ops, st.out)
    else
      var top := st.ops[|st.ops| - 1];
      if Priority(b) == Priority(top) && b != '('
      then Suffix(st.ops[..|st.ops| - 1] + [b], st.out + [Op(top)])
      else Suffix(st.ops + [b], st.out)
  }

  predicate IsOperatorToken(t: string) {
    |t| == 1 && IsOperator(t[0])
  }

  function SuffixToken(st: Suffix, t: string): Suffix {
    if st.Panicked? then Panicked
    else if IsOperatorToken(t) then SuffixOperator(st, t[0])
    else st.(out := st.out + [Text(t)])
  }

  /** The state after all tokens of ts. */
  function SuffixAll(st: Suffix, ts: seq<string>): Suffix {
    if |ts| == 0 then st else SuffixToken(SuffixAll(st, ts[..|ts| - 1]), ts[|ts| - 1])
  }

  function OpItems(ops: seq<char>): (s: seq<Item>)
    ensures |s| == |ops|
  {
    seq(|ops|, i requires 0 <= i < |ops| => Op(ops[i]))
  }

  /** The operators left on the stack, in the order they are popped. */
  function Popped(ops: seq<char>): (s: seq<Item>)
    ensures |s| == |ops|
  {
    if ops == [] then [] else [Op(ops[|ops| - 1])] + Popped(ops[..|ops| - 1])
  }

  /** Everything put into the output by the tokens ts. */
  function Output(ts: seq<string>): Option<seq<Item>> {
    match SuffixAll(Suffix([], []), ts)
    case Panicked => None
    case Suffix(ops, out) => Some(out + Popped(ops))
  }

  /** What a queue of capacity cap keeps of what is put into it: puts into a full queue are dropped. */
  function Kept(out: seq<Item>, cap: nat): (k: seq<Item>) {
    if |out| <= cap then out else out[..cap]
  }

  lemma OpItemsPopped(ops: seq<char>)
    requires ops != []
    ensures OpItems(ops)[..|ops| - 1] == OpItems(ops[..|ops| - 1])
    ensures OpItems(ops)[|ops| - 1] == Op(ops[|ops| - 1])
  {
  }

  lemma OpItemsPushed(ops: seq<char>, b: char)
    ensures OpItems(ops + [b]) == OpItems(ops) + [Op(b)]
  {
  }

  lemma PrefixStep(st: Suffix, ts: seq<string>, i: nat)
    requires i < |ts|
    ensures SuffixAll(st, ts[..i + 1]) == SuffixToken(SuffixAll(st, ts[..i]), ts[i])
  {
    assert ts[..i + 1][..i] == ts[..i];
  }

  class Expr {
    const operator: Stack
    const output: Queue

    constructor ()
      ensures fresh(operator) && fresh(output) && fresh(output.buf) && Valid()
      ensures operator.items == [] && output.Contents() == [] && output.Cap() == 100
    {
      operator := new Stack();
      output := new Queue(100);
    }

    ghost predicate Valid()
      reads output, output.buf
    {
      output.Valid()
    }

    /** The stack and the queue hold a conversion state; the queue has dropped what did not fit. */
    ghost predicate Holds(st: Suffix)
      reads operator, output, output.buf
    {
      && Valid() && st.Suffix?
      && operator.items == OpItems(st.ops) && output.Contents() == Kept(st.out, output.Cap())
    }

    /** Appends to the output, ignoring the "queue full" error. */
    method PutOut(v: Item, ghost st: Suffix)
      requires Holds(st)
      modifies output, output.buf
      ensures Holds(st.(out := st.out + [v]))
    {
      var ok := output.Put(v);
    }

    method PushOp(b: char, ghost st: Suffix)
      requires Holds(st)
      modifies operator
      ensures Holds(st.(ops := st.ops + [b]))
    {
      operator.Push(Op(b));
      OpItemsPushed(st.ops, b);
    }

    method PopOp(ghost st: Suffix) returns (v: Option<Item>)
      requires Holds(st)
      modifies operator
      ensures st.ops == [] ==> v == None && Holds(st)
      ensures st.ops != [] ==> v == Some(Op(st.ops[|st.ops| - 1])) && Holds(st.(ops := st.ops[..|st.ops| - 1]))
    {
      if st.ops != [] {
        OpItemsPopped(st.ops);
      }
      v := operator.Pop();
    }

    /** The loop that handles ")". */
    method CloseBracket(ghost st: Suffix) returns (panicked: bool)
      requires Holds(st)
      modifies operator, output, output.buf
      ensures Valid() && panicked == CloseGroup(st.ops, st.out).Panicked?
      ensures !panicked ==> Holds(CloseGroup(st.ops, st.out))
    {
      ghost var now := st;
      while true
        invariant Holds(now) && CloseGroup(now.ops, now.out) == CloseGroup(st.ops, st.out)
        decreases |now.ops|
      {
        var v := PopOp(now);
        if v.None? {
          return true;
        }
        now := now.(ops := now.ops[..|now.ops| - 1]);
        if v.value.op == '(' {
          return false;
        }
        PutOut(v.value, now);
        now := now.(out := now.out + [v.value]);
      }
    }

    method ToSuffixOperator(b: char, ghost st: Suffix) returns (panicked: bool)
      requires Holds(st)
      modifies operator, output, output.buf
      ensures Valid() && panicked == SuffixOperator(st, b).Panicked?
      ensures !panicked ==> Holds(SuffixOperator(st, b))
    {
      panicked := false;
      var v := operator.Top();
      if v.None? {
        PushOp(b, st);
        return;
      }
      OpItemsPopped(st.ops);
      if b == ')' {
        panicked := CloseBracket(st);
        return;
      }
      var stackVal, expVal := Priority(v.value.op), Priority(b);
      if expVal > stackVal {
        PushOp(b, st);
      } else if expVal == stackVal {
        if b != '(' {
          v := PopOp(st);
          ghost var below := st.(ops := st.ops[..|st.ops| - 1]);
          PutOut(v.value, below);
          PushOp(b, below.(out := below.out + [v.value]));
        } else {
          PushOp(b, st);
        }
      } else {
        PushOp(b, st);
      }
    }

    /** Leaves the output holding as much of the suffix form as fits, and the stack empty. */
    method ToSuffix(expr: seq<string>) returns (panicked: bool)
      requires Valid() && operator.items == [] && output.Contents() == []
      modifies operator, output, output.buf
      ensures Valid() && panicked == Output(expr).None?
      ensures !panicked ==> operator.items == [] && output.Contents() == Kept(Output(expr).value, output.Cap())
    {
      ghost var st := Suffix([], []);
      for i := 0 to |expr|
        invariant Holds(st) && st == SuffixAll(Suffix([], []), expr[..i])
      {
        PrefixStep(Suffix([], []), expr, i);
        var exp := expr[i];
        if |exp| == 1 && IsOperator(exp[0]) {
          panicked := ToSuffixOperator(exp[0], st);
          if panicked {
            PanicStays(expr, i + 1);
            return;
          }
        } else {
          PutOut(Text(exp), st);
        }
        st := SuffixToken(st, exp);
      }
      assert expr[..|expr|] == expr;
      ghost var all := st.out + Popped(st.ops);
      while |operator.items| > 0
        invariant Holds(st) && st.out + Popped(st.ops) == all
        decreases |operator.items|
      {
        var v := PopOp(st);
        ghost var below := st.(ops := st.ops[..|st.ops| - 1]);
        PutOut(v.value, below);
        DrainStep(st, v.value);
        st := below.(out := below.out + [v.value]);
      }
      assert st.out + [] == st.out;
      panicked := false;
    }

    /** Evaluates and empties the output, leaving the result on the stack. */
    method CalVal() returns (panicked: bool)
      requires Valid() && operator.items == []
      modifies operator, output
      ensures Valid() && panicked == Evaluated(old(output.Contents())).None?
      ensures !panicked ==> operator.items == Ints(Evaluated(old(output.Contents())).value)
    {
      ghost var all := output.Contents();
      ghost var n, stack := 0, [];
      while true
        invariant Valid() && n <= |all| && output.Contents() == all[n..]
        invariant CalAll(all[..n]) == Some(stack) && operator.items == Ints(stack)
        decreases |all| - n
      {
        var v := output.Get();
        if v.None? {
          break;
        }
        CalStepAt(all, n);
        panicked := CalItem(v.value, stack);
        if panicked {
          CalStuck(all, n + 1);
          return;
        }
        stack, n := CalStep(stack, v.value).value, n + 1;
      }
      assert all[..n] == all;
      panicked := |operator.items| > 1;
    }

    method CalItem(v: Item, ghost stack: seq<int>) returns (panicked: bool)
      requires operator.items == Ints(stack)
      modifies operator
      ensures panicked == CalStep(stack, v).None?
      ensures !panicked ==> operator.items == Ints(CalStep(stack, v).value)
    {
      match v
      case Op(b) =>
        if !(b == '+' || b == '-' || b == '*' || b == '/' || b == '%') {
          return true;
        }
        if |operator.items| < 2 {
          return true;
        }
        var n1 := operator.Pop();
        var n2 := operator.Pop();
        var rv := Apply(b, n2.value.n, n1.value.n);
        if rv.None? {
          return true;
        }
        operator.Push(Int(rv.value));
        return false;
      case Text(s) =>
        var n1 := Atoi(s);
        if n1.None? {
          return true;
        }
        operator.Push(Int(n1.value));
        return false;
      case Int(_) =>
        return false;
    }

    method Process(exp: seq<string>) returns (panicked: bool)
      requires Valid() && operator.items == [] && output.Contents() == []
      modifies operator, output, output.buf
      ensures Valid() && panicked == Processed(exp, output.Cap()).None?
      ensures !panicked ==> operator.items == Ints(Processed(exp, output.Cap()).value)
    {
      panicked := ToSuffix(exp);
      if !panicked {
        panicked := CalVal();
      }
    }
  }

  lemma DrainStep(st: Suffix, v: Item)
    requires st.Suffix? && st.ops != [] && v == Op(st.ops[|st.ops| - 1])
    ensures st.out + Popped(st.ops) == st.out + [v] + Popped(st.ops[..|st.ops| - 1])
  {
  }

  lemma {:induction false} PanicStays(ts: seq<string>, i: nat)
    requires i <= |ts| && SuffixAll(Suffix([], []), ts[..i]).Panicked?
    ensures SuffixAll(Suffix([], []), ts).Panicked?
    decreases |ts| - i
  {
    if i == |ts| {
      assert ts[..i] == ts;
    } else {
      PrefixStep(Suffix([], []), ts, i);
      PanicStays(ts, i + 1);
    }
  }

  // ----- evaluation -----

  const WORD := 0x1_0000_0000_0000_0000
  const MAX_INT := 0x7FFF_FFFF_FFFF_FFFF

  /** Two's-complement wrap-around of Go's int. */
  function Wrap(x: int): (w: int)
    ensures -MAX_INT - 1 <= w <= MAX_INT
  {
    (x + MAX_INT + 1) % WORD - MAX_INT - 1
  }

  /** Go's division truncates toward zero. */
  function Quotient(a: int, b: int): int
    requires b != 0
  {
    if a >= 0 then a / b else -(-a / b)
  }

  /** None is the run-time panic for a zero divisor. */
  function Apply(op: char, n2: int, n1: int): Option<int> {
    match op
    case '+' => Some(Wrap(n2 + n1))
    case '-' => Some(Wrap(n2 - n1))
    case '*' => Some(Wrap(n2 * n1))
    case '/' => if n1 == 0 then None else Some(Wrap(Quotient(n2, n1)))
    case '%' => if n1 == 0 then None else Some(n2 - n1 * Quotient(n2, n1))
    case _ => None
  }

  /** The value of a run of decimal digits. */
  function Decimal(s: string): nat
    requires AllDigits(s)
  {
    if |s| == 0 then 0 else 10 * Decimal(s[..|s| - 1]) + (s[|s| - 1] as int - '0' as int)
  }

  /** strconv.Atoi: an optional sign and at least one digit, within the range of int. */
  function Atoi(s: string): Option<int> {
    var signed := s != "" && (s[0] == '-' || s[0] == '+');
    var digits := if signed then s[1..] else s;
    if digits == "" || !AllDigits(digits) then None
    else
      var n := if signed && s[0] == '-' then -(Decimal(digits) as int) else Decimal(digits);
      if -MAX_INT - 1 <= n <= MAX_INT then Some(n) else None
  }

  function Ints(stack: seq<int>): (s: seq<Item>)
    ensures |s| == |stack|
  {
    seq(|stack|, i requires 0 <= i < |stack| => Int(stack[i]))
  }

  /** One item of the suffix form; None is a panic. */
  function CalStep(stack: seq<int>, v: Item): Option<seq<int>> {
    match v
    case Op(b) =>
      var n := |stack|;
      if !(b == '+' || b == '-' || b == '*' || b == '/' || b == '%') || n < 2 then None
      else
        (match Apply(b, stack[n - 2], stack[n - 1])
         case None => None
         case Some(r) => Some(stack[..n - 2] + [r]))
    case Text(s) =>
      (match Atoi(s)
       case None => None
       case Some(n) => Some(stack + [n]))
    case Int(_) => Some(stack)
  }

  function CalFrom(stack: seq<int>, items: seq<Item>): Option<seq<int>> {
    if |items| == 0 then Some(stack)
    else
      match CalFrom(stack, items[..|items| - 1])
      case None => None
      case Some(stack') => CalStep(stack', items[|items| - 1])
  }

  function CalAll(items: seq<Item>): Option<seq<int>> {
    CalFrom([], items)
  }

  /** The stack CalVal leaves; None is a panic, also for more than one result. */
  function Evaluated(items: seq<Item>): Option<seq<int>> {
    match CalAll(items)
    case None => None
    case Some(stack) => if |stack| > 1 then None else Some(stack)
  }

  function Processed(exp: seq<string>, cap: nat): Option<seq<int>> {
    match Output(exp)
    case None => None
    case Some(out) => Evaluated(Kept(out, cap))
  }

  lemma CalStepAt(items: seq<Item>, n: nat)
    requires n < |items|
    ensures items[n..][1..] == items[n + 1..] && items[n..][0] == items[n]
    ensures CalAll(items[..n + 1])
            == match CalAll(items[..n]) case None => None case Some(stack) => CalStep(stack, items[n])
  {
    assert items[..n + 1][..n] == items[..n];
  }

  lemma {:induction false} CalStuck(items: seq<Item>, n: nat)
    requires n <= |items| && CalAll(items[..n]).None?
    ensures CalAll(items).None?
    decreases |items| - n
  {
    if n == |items| {
      assert items[..n] == items;
    } else {
      CalStepAt(items, n);
      CalStuck(items, n + 1);
    }
  }

  /** What $$num() yields: a panic, nil for an expression without tokens, or a value. */
  datatype NumResult = Panic | Nil | Value(n: int)

  const OUTPUT_CAP := 100

  function NumOf(arg: string): NumResult {
    match Processed(TokensFrom(arg, 0), OUTPUT_CAP)
    case None => Panic
    case Some(stack) => if stack == [] then Nil else Value(stack[0])
  }

  method Num(arg: string) returns (r: NumResult)
    ensures r == NumOf(arg)
  {
    var expr := new Expr();
    var eslice := ParseExpr(arg);
    var panicked := expr.Process(eslice);
    if panicked {
      return Panic;
    }
    var rv := expr.operator.Pop();
    r := if rv.None? then Nil else Value(rv.value.n);
  }
}
