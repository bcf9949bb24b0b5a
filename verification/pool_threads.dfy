/** What the two thread pools share: the threads, and the connections workers have in hand. */
module PoolThreads {
  import opened Wrappers

  datatype Thread = Acceptor | Pool(i: nat)

  function Load(hand: Option<int>): multiset<int> {
    match hand
    case None => multiset{}
    case Some(fd) => multiset{fd}
  }

  /** The connections in all hands: taken, and not yet processed. */
  function Held(hands: seq<Option<int>>): multiset<int> {
    if |hands| == 0 then multiset{} else Held(hands[..|hands| - 1]) + Load(hands[|hands| - 1])
  }

  lemma {:induction false} NothingHeld(hands: seq<Option<int>>)
    requires forall i :: 0 <= i < |hands| ==> hands[i] == None
    ensures Held(hands) == multiset{}
  {
    if |hands| > 0 {
      NothingHeld(hands[..|hands| - 1]);
    }
  }

  lemma {:induction false} HeldUpdate(hands: seq<Option<int>>, i: nat, h: Option<int>)
    requires i < |hands|
    ensures Load(hands[i]) <= Held(hands)
    ensures Held(hands[i := h]) == Held(hands) - Load(hands[i]) + Load(h)
    decreases |hands|
  {
    var n := |hands| - 1;
    var front, last := hands[..n], hands[n];
    assert hands == front + [last];
    if i == n {
      LastUpdate(hands, h);
    } else {
      HeldUpdate(front, i, h);
      FrontUpdate(hands, front, last, i, h);
      InnerUpdate(hands, hands[i := h], front, last, i, h);
    }
  }

  lemma LastUpdate(hands: seq<Option<int>>, h: Option<int>)
    requires |hands| > 0
    ensures Load(hands[|hands| - 1]) <= Held(hands)
    ensures Held(hands[|hands| - 1 := h]) == Held(hands) - Load(hands[|hands| - 1]) + Load(h)
  {
    var n := |hands| - 1;
    assert hands[n := h][..n] == hands[..n];
  }

  lemma HeldLast(hands: seq<Option<int>>, front: seq<Option<int>>, last: Option<int>)
    requires hands == front + [last]
    ensures Held(hands) == Held(front) + Load(last)
  {
    assert hands[..|hands| - 1] == front;
  }

  lemma FrontUpdate(hands: seq<Option<int>>, front: seq<Option<int>>, last: Option<int>, i: nat, h: Option<int>)
    requires hands == front + [last] && i < |front|
    ensures hands[i := h] == front[i := h] + [last]
  {
  }

  lemma InnerUpdate(hands: seq<Option<int>>, hands': seq<Option<int>>, front: seq<Option<int>>, last: Option<int>,
                    i: nat, h: Option<int>)
    requires i < |front| && hands == front + [last] && hands' == front[i := h] + [last]
    requires Load(front[i]) <= Held(front) && Held(front[i := h]) == Held(front) - Load(front[i]) + Load(h)
    ensures Load(front[i]) <= Held(hands)
    ensures Held(hands') == Held(hands) - Load(front[i]) + Load(h)
  {
    HeldLast(hands, front, last);
    HeldLast(hands', front[i := h], last);
    MoveLoad(Held(front), Held(front[i := h]), Held(hands), Held(hands'), Load(front[i]), Load(h), Load(last));
  }

  lemma MoveLoad(f: multiset<int>, f': multiset<int>, all: multiset<int>, all': multiset<int>,
                 was: multiset<int>, now: multiset<int>, rest: multiset<int>)
    requires all == f + rest && all' == f' + rest && was <= f && f' == f - was + now
    ensures was <= all && all' == all - was + now
  {
  }

  /** Everything taken has been processed once or is still in some worker's hand. */
  ghost predicate ProcessedOnce(taken: seq<int>, processed: seq<int>, hands: seq<Option<int>>) {
    multiset(taken) == multiset(processed) + Held(hands)
  }

  lemma TakeBalances(taken: seq<int>, processed: seq<int>, hands: seq<Option<int>>, i: nat, fd: int,
                     hands': seq<Option<int>>)
    requires ProcessedOnce(taken, processed, hands) && i < |hands| && hands[i] == None
    requires hands' == hands[i := Some(fd)]
    ensures ProcessedOnce(taken + [fd], processed, hands')
  {
    HeldUpdate(hands, i, Some(fd));
  }

  lemma ProcessBalances(taken: seq<int>, processed: seq<int>, hands: seq<Option<int>>, i: nat, fd: int,
                        hands': seq<Option<int>>)
    requires ProcessedOnce(taken, processed, hands) && i < |hands| && hands[i] == Some(fd)
    requires hands' == hands[i := None]
    ensures ProcessedOnce(taken, processed + [fd], hands')
  {
    HeldUpdate(hands, i, None);
    Rebalance(multiset(taken), multiset(processed), Held(hands), multiset{fd});
  }

  lemma Rebalance(taken: multiset<int>, processed: multiset<int>, held: multiset<int>, load: multiset<int>)
    requires taken == processed + held && load <= held
    ensures taken == processed + load + (held - load + multiset{})
  {
  }
}
