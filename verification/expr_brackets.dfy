/** Expressions whose brackets do not match: the conversion does not always notice, but the evaluation does. */
module ExprBrackets {
  import opened Wrappers
  import opened ExprContainers
  import opened ExprMachine
  import opened ExprResults

  /** How many brackets are open after the tokens; None once one has been closed that was not open. */
  function Depth(ts: seq<string>): Option<nat> {
    if |ts| == 0 then Some(0)
    else
      match Depth(ts[..|ts| - 1])
      case None => None
      case Some(d) =>
        var t := ts[|ts| - 1];
        if t == "(" then Some(d + 1) else if t == ")" then (if d == 0 then None else Some(d - 1)) else Some(d)
  }

  function Opens(ops: seq<char>): nat {
    if |ops| == 0 then 0 else Opens(ops[..|ops| - 1]) + if ops[|ops| - 1] == '(' then 1 else 0
  }

  /** Either a closing bracket has gone astray, or the open ones are those on the stack. */
  ghost predicate Tracked(st: Suffix, ts: seq<string>) {
    st.Suffix? ==> ')' in st.ops || Op(')') in st.out || Depth(ts) == Some(Opens(st.ops))
  }

  lemma OpensPush(ops: seq<char>, b: char)
    ensures Opens(ops + [b]) == Opens(ops) + if b == '(' then 1 else 0
  {
    assert (ops + [b])[..|ops|] == ops;
  }

  /** Closing a group takes one open bracket off the stack, and puts closing ones above it into the output. */
  lemma {:induction false} CloseTracked(ops: seq<char>, out: seq<Item>)
    ensures var st := CloseGroup(ops, out);
            st.Suffix? ==> && Opens(ops) == Opens(st.ops) + 1
                           && (')' in ops ==> ')' in st.ops || Op(')') in st.out)
                           && (forall x :: x in out ==> x in st.out)
    decreases |ops|
  {
    if ops != [] {
      var top, below := ops[|ops| - 1], ops[..|ops| - 1];
      assert ops == below + [top];
      if top != '(' {
        CloseTracked(below, out + [Op(top)]);
      }
    }
  }

  /** A push keeps what was there; without an operator on the stack it is what a closing bracket does, too. */
  lemma PushTracked(st: Suffix, b: char, ts: seq<string>)
    requires st.Suffix? && Tracked(st, ts) && (b == ')' ==> st.ops == [])
    ensures Tracked(Suffix(st.ops + [b], st.out), ts + [[b]])
  {
    assert (ts + [[b]])[..|ts|] == ts;
    OpensPush(st.ops, b);
    if b == ')' {
      assert (st.ops + [b])[|st.ops|] == ')';
    }
  }

  lemma SwapTracked(st: Suffix, b: char, ts: seq<string>)
    requires st.Suffix? && Tracked(st, ts) && st.ops != [] && b != '(' && b != ')'
    requires st.ops[|st.ops| - 1] != '('
    ensures Tracked(Suffix(st.ops[..|st.ops| - 1] + [b], st.out + [Op(st.ops[|st.ops| - 1])]), ts + [[b]])
  {
    var top, below := st.ops[|st.ops| - 1], st.ops[..|st.ops| - 1];
    assert (ts + [[b]])[..|ts|] == ts;
    assert st.ops == below + [top];
    OpensPush(below, top);
    OpensPush(below, b);
  }

  lemma CloseKeepsTrack(st: Suffix, ts: seq<string>)
    requires st.Suffix? && Tracked(st, ts)
    ensures Tracked(CloseGroup(st.ops, st.out), ts + [")"])
  {
    assert (ts + [")"])[..|ts|] == ts;
    CloseTracked(st.ops, st.out);
  }

  lemma OperatorTracked(st: Suffix, b: char, ts: seq<string>)
    requires st.Suffix? && IsOperator(b) && Tracked(st, ts)
    ensures Tracked(SuffixOperator(st, b), ts + [[b]])
  {
    if st.ops == [] {
      PushTracked(st, b, ts);
    } else if b == ')' {
      CloseKeepsTrack(st, ts);
    } else if Priority(b) == Priority(st.ops[|st.ops| - 1]) && b != '(' {
      SwapTracked(st, b, ts);
    } else {
      PushTracked(st, b, ts);
    }
  }

  lemma TokenTracked(st: Suffix, t: string, ts: seq<string>)
    requires Tracked(st, ts)
    ensures Tracked(SuffixToken(st, t), ts + [t])
  {
    if st.Suffix? {
      if IsOperatorToken(t) {
        assert t == [t[0]];
        OperatorTracked(st, t[0], ts);
      } else {
        assert (ts + [t])[..|ts|] == ts;
      }
    }
  }

  lemma {:induction false} AllTracked(ts: seq<string>)
    ensures Tracked(SuffixAll(Suffix([], []), ts), ts)
    decreases |ts|
  {
    if |ts| > 0 {
      var n := |ts| - 1;
      AllTracked(ts[..n]);
      TokenTracked(SuffixAll(Suffix([], []), ts[..n]), ts[n], ts[..n]);
      assert ts == ts[..n] + [ts[n]];
    }
  }

  predicate IsBracket(x: Item) {
    x == Op('(') || x == Op(')')
  }

  lemma {:induction false} OpensOnStack(ops: seq<char>)
    requires Opens(ops) > 0
    ensures '(' in ops
  {
    var n := |ops| - 1;
    if ops[n] != '(' {
      OpensOnStack(ops[..n]);
      assert ops == ops[..n] + [ops[n]];
    }
  }

  lemma {:induction false} StackIsPopped(ops: seq<char>, c: char)
    requires c in ops
    ensures Op(c) in Popped(ops)
  {
    var n := |ops| - 1;
    if ops[n] != c {
      assert ops == ops[..n] + [ops[n]];
      StackIsPopped(ops[..n], c);
    }
  }

  /** What does not match comes out among the operators. */
  lemma UnmatchedComesOut(ts: seq<string>, items: seq<Item>)
    requires Output(ts) == Some(items) && Depth(ts) != Some(0)
    ensures exists k :: 0 <= k < |items| && IsBracket(items[k])
  {
    var st := SuffixAll(Suffix([], []), ts);
    AllTracked(ts);
    if Op(')') in st.out {
      assert Op(')') in items;
    } else if ')' in st.ops {
      StackIsPopped(st.ops, ')');
      assert Op(')') in items;
    } else {
      OpensOnStack(st.ops);
      StackIsPopped(st.ops, '(');
      assert Op('(') in items;
    }
  }

  lemma {:induction false} BracketPanics(items: seq<Item>, k: nat)
    requires k < |items| && IsBracket(items[k])
    ensures CalFrom([], items) == None
    decreases |items|
  {
    var n := |items| - 1;
    if k < n {
      BracketPanics(items[..n], k);
    }
  }

  lemma {:induction false} CloseNoInts(ops: seq<char>, out: seq<Item>)
    requires NoInts(out)
    ensures CloseGroup(ops, out).Suffix? ==> NoInts(CloseGroup(ops, out).out)
    decreases |ops|
  {
    if ops != [] {
      CloseNoInts(ops[..|ops| - 1], out + [Op(ops[|ops| - 1])]);
    }
  }

  lemma {:induction false} SuffixNoInts(ts: seq<string>)
    ensures SuffixAll(Suffix([], []), ts).Suffix? ==> NoInts(SuffixAll(Suffix([], []), ts).out)
    decreases |ts|
  {
    if |ts| > 0 {
      SuffixNoInts(ts[..|ts| - 1]);
      var st := SuffixAll(Suffix([], []), ts[..|ts| - 1]);
      if st.Suffix? {
        CloseNoInts(st.ops, st.out);
      }
    }
  }

  lemma {:induction false} PoppedNoInts(ops: seq<char>)
    ensures NoInts(Popped(ops))
  {
    if ops != [] {
      PoppedNoInts(ops[..|ops| - 1]);
    }
  }

  lemma OutputNoInts(ts: seq<string>, items: seq<Item>)
    requires Output(ts) == Some(items)
    ensures NoInts(items)
  {
    SuffixNoInts(ts);
    PoppedNoInts(SuffixAll(Suffix([], []), ts).ops);
  }

  lemma KeptPanics(items: seq<Item>, k: nat)
    requires NoInts(items) && k < |items| && IsBracket(items[k])
    ensures Evaluated(Kept(items, OUTPUT_CAP)) == None
  {
    if k < OUTPUT_CAP || |items| <= OUTPUT_CAP {
      BracketPanics(Kept(items, OUTPUT_CAP), k);
    } else {
      DroppedItemsPanic(items, OUTPUT_CAP);
    }
  }

  /** A text whose brackets do not match makes the evaluator panic, wherever they stand and however long it is. */
  lemma UnmatchedPanics(text: string)
    requires Depth(TokensFrom(text, 0)) != Some(0)
    ensures NumOf(text) == Panic
  {
    var ts := TokensFrom(text, 0);
    if Output(ts).Some? {
      var items := Output(ts).value;
      UnmatchedComesOut(ts, items);
      var k :| 0 <= k < |items| && IsBracket(items[k]);
      OutputNoInts(ts, items);
      KeptPanics(items, k);
    }
  }
}
