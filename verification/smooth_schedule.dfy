/** The arithmetic core of smooth weighted round robin: what the choice loop of upstreamGetPeer
    does to the currentWeight column while the eligible peers and their weights stay the same. */
module SmoothSchedule {
  import opened Wrappers
  import opened Sums

  /** The choice made by one left-to-right scan of the first n peers. */
  function BestFirst(vals: seq<int>, el: seq<bool>, n: nat): (b: Option<nat>)
    requires n <= |vals| == |el|
    ensures b.Some? ==> b.value < n && el[b.value]
  {
    if n == 0 then None
    else
      var b := BestFirst(vals, el, n - 1);
      if el[n - 1] && (b.None? || vals[n - 1] > vals[b.value]) then Some(n - 1) else b
  }

  /** b is the first index among the eligible ones below n that holds the largest value. */
  ghost predicate IsFirstMaximum(vals: seq<int>, el: seq<bool>, n: nat, b: Option<nat>)
    requires n <= |vals| == |el|
  {
    match b
    case None => forall i :: 0 <= i < n ==> !el[i]
    case Some(k) =>
      && k < n && el[k]
      && (forall i :: 0 <= i < n && el[i] ==> vals[i] <= vals[k])
      && (forall i :: 0 <= i < k && el[i] ==> vals[i] < vals[k])
  }

  lemma {:induction false} BestIsFirstMaximum(vals: seq<int>, el: seq<bool>, n: nat, b: Option<nat>)
    requires n <= |vals| == |el|
    ensures b == BestFirst(vals, el, n) <==> IsFirstMaximum(vals, el, n, b)
  {
    ScanFindsMaximum(vals, el, n);
    var c := BestFirst(vals, el, n);
    if IsFirstMaximum(vals, el, n, b) && b.Some? && c.Some? {
      assert vals[b.value] == vals[c.value];
    }
  }

  lemma {:induction false} ScanFindsMaximum(vals: seq<int>, el: seq<bool>, n: nat)
    requires n <= |vals| == |el|
    ensures IsFirstMaximum(vals, el, n, BestFirst(vals, el, n))
  {
    if n > 0 {
      ScanFindsMaximum(vals, el, n - 1);
    }
  }

  /** A peer's share is its weight if it is eligible and 0 otherwise; somebody has a share. */
  ghost predicate Shares(el: seq<bool>, sh: seq<int>) {
    && |el| == |sh|
    && (forall i :: 0 <= i < |sh| ==> sh[i] >= 0 && (!el[i] ==> sh[i] == 0))
    && Sum(sh) >= 1
  }

  function Raised(cw: seq<int>, sh: seq<int>): (r: seq<int>)
    requires |cw| == |sh|
  {
    seq(|cw|, i requires 0 <= i < |cw| => cw[i] + sh[i])
  }

  function Chosen(el: seq<bool>, sh: seq<int>, cw: seq<int>): Option<nat>
    requires |cw| == |sh| == |el|
  {
    BestFirst(Raised(cw, sh), el, |el|)
  }

  /** One pick: every share is added, then the chosen peer pays the total. */
  function Spin(el: seq<bool>, sh: seq<int>, cw: seq<int>): (r: seq<int>)
    requires |cw| == |sh| == |el|
    ensures |r| == |cw|
  {
    match Chosen(el, sh, cw)
    case None => cw
    case Some(b) => Raised(cw, sh)[b := Raised(cw, sh)[b] - Sum(sh)]
  }

  function Zeros(n: nat): (z: seq<int>) {
    seq(n, i => 0)
  }

  /** The currentWeight column after k picks from all zeros. */
  function Spins(el: seq<bool>, sh: seq<int>, k: nat): (cw: seq<int>)
    requires |sh| == |el|
    ensures |cw| == |sh|
  {
    if k == 0 then Zeros(|sh|) else Spin(el, sh, Spins(el, sh, k - 1))
  }

  /** The peers picked by the first k picks. */
  function Picks(el: seq<bool>, sh: seq<int>, k: nat): seq<nat>
    requires |sh| == |el|
  {
    if k == 0 then []
    else
      var c := Chosen(el, sh, Spins(el, sh, k - 1));
      Picks(el, sh, k - 1) + (if c.Some? then [c.value] else [])
  }

  lemma ChargeConserves(up: seq<int>, cw: seq<int>, sh: seq<int>, b: nat)
    requires |cw| == |sh| == |up| && b < |up|
    requires forall i :: 0 <= i < |up| ==> up[i] == cw[i] + sh[i]
    ensures Sum(up[b := up[b] - Sum(sh)]) == Sum(cw)
  {
    SumAdd(cw, sh, up);
    SumUpdate(up, b, up[b] - Sum(sh));
  }

  lemma SpinIs(el: seq<bool>, sh: seq<int>, cw: seq<int>, b: nat, up: seq<int>)
    requires |cw| == |sh| == |el| && Chosen(el, sh, cw) == Some(b) && up == Raised(cw, sh)
    ensures Spin(el, sh, cw) == up[b := up[b] - Sum(sh)]
  {
  }

  lemma PickConserves(el: seq<bool>, sh: seq<int>, cw: seq<int>, b: nat)
    requires |cw| == |sh| == |el| && Chosen(el, sh, cw) == Some(b)
    ensures Sum(Spin(el, sh, cw)) == Sum(cw)
  {
    var up := Raised(cw, sh);
    ChargeConserves(up, cw, sh, b);
    SpinIs(el, sh, cw, b, up);
  }

  /** What the peers gain the chosen one pays: a pick never changes the column sum. */
  lemma SpinConserves(el: seq<bool>, sh: seq<int>, cw: seq<int>)
    requires |cw| == |sh| == |el|
    ensures Sum(Spin(el, sh, cw)) == Sum(cw)
  {
    if Chosen(el, sh, cw).Some? {
      PickConserves(el, sh, cw, Chosen(el, sh, cw).value);
    } else {
      assert Spin(el, sh, cw) == cw;
    }
  }

  /** A pick keeps the column sum at zero and every entry above -W. */
  lemma SpinKeeps(el: seq<bool>, sh: seq<int>, cw: seq<int>)
    requires Shares(el, sh) && |cw| == |sh|
    requires Sum(cw) == 0
    requires forall i :: 0 <= i < |cw| ==> cw[i] > -Sum(sh) && (!el[i] ==> cw[i] == 0)
    ensures Chosen(el, sh, cw).Some?
    ensures Sum(Spin(el, sh, cw)) == 0
    ensures forall i :: 0 <= i < |cw| ==>
                          Spin(el, sh, cw)[i] > -Sum(sh) && (!el[i] ==> Spin(el, sh, cw)[i] == 0)
  {
    var up := Raised(cw, sh);
    SumAdd(cw, sh, up);
    var p := SumPositive(up);
    ScanFindsMaximum(up, el, |el|);
    SpinConserves(el, sh, cw);
  }

  /** What the account of peer i must read after k picks of which c were i. */
  function Account(k: int, share: int, W: int, c: int): int {
    k * share - W * c
  }

  lemma AccountStep(k: int, share: int, W: int, c: int)
    ensures Account(0, share, W, 0) == 0
    ensures Account(k + 1, share, W, c) == Account(k, share, W, c) + share
    ensures Account(k + 1, share, W, c + 1) == Account(k, share, W, c) + share - W
  {
  }

  /** The column after a schedule `picked`: cw[i] = k * share[i] - W * picks[i], above -W, summing to 0. */
  ghost predicate Exact(el: seq<bool>, sh: seq<int>, k: nat, picked: seq<nat>, cw: seq<int>) {
    && |picked| == k && |cw| == |sh| == |el| && Sum(cw) == 0
    && (forall i: nat :: i < |sh| ==>
          && cw[i] == Account(k, sh[i], Sum(sh), Count(picked, i))
          && cw[i] > -Sum(sh) && (!el[i] ==> cw[i] == 0))
  }

  lemma ExactStart(el: seq<bool>, sh: seq<int>)
    requires Shares(el, sh)
    ensures Exact(el, sh, 0, [], Zeros(|sh|))
  {
    SumZeros(Zeros(|sh|));
    forall i: nat | i < |sh|
      ensures Account(0, sh[i], Sum(sh), Count([], i)) == 0
    {
      AccountStep(0, sh[i], Sum(sh), 0);
    }
  }

  lemma ExactStep(el: seq<bool>, sh: seq<int>, k: nat, picked: seq<nat>, cw: seq<int>, b: nat)
    requires Shares(el, sh) && Exact(el, sh, k, picked, cw) && Chosen(el, sh, cw) == Some(b)
    ensures Exact(el, sh, k + 1, picked + [b], Spin(el, sh, cw))
  {
    SpinKeeps(el, sh, cw);
    assert (picked + [b])[..k] == picked;
    forall i: nat | i < |sh|
      ensures Spin(el, sh, cw)[i] == Account(k + 1, sh[i], Sum(sh), Count(picked + [b], i))
    {
      AccountStep(k, sh[i], Sum(sh), Count(picked, i));
    }
  }

  lemma ExactNext(el: seq<bool>, sh: seq<int>, k: nat, picked: seq<nat>, cw: seq<int>, picked': seq<nat>)
    requires Shares(el, sh) && Exact(el, sh, k, picked, cw)
    requires picked' == picked + (if Chosen(el, sh, cw).Some? then [Chosen(el, sh, cw).value] else [])
    ensures Exact(el, sh, k + 1, picked', Spin(el, sh, cw))
  {
    SpinKeeps(el, sh, cw);
    ExactStep(el, sh, k, picked, cw, Chosen(el, sh, cw).value);
  }

  lemma {:induction false} SpinsExact(el: seq<bool>, sh: seq<int>, k: nat)
    requires Shares(el, sh)
    ensures Exact(el, sh, k, Picks(el, sh, k), Spins(el, sh, k))
  {
    if k == 0 {
      ExactStart(el, sh);
    } else {
      SpinsExact(el, sh, k - 1);
      ExactNext(el, sh, k - 1, Picks(el, sh, k - 1), Spins(el, sh, k - 1), Picks(el, sh, k));
    }
  }

  /** No prefix of the schedule gives a peer more than its share rounded up. */
  lemma PrefixSmooth(el: seq<bool>, sh: seq<int>, k: nat, i: nat)
    requires Shares(el, sh) && i < |sh|
    ensures Sum(sh) * Count(Picks(el, sh, k), i) < k * sh[i] + Sum(sh)
  {
    SpinsExact(el, sh, k);
  }

  lemma WholeRounds(t: int, share: int, W: int, c: int)
    requires W >= 1
    ensures Account(t * W, share, W, c) > -W ==> Account(t * W, share, W, c) >= 0
    ensures Account(t * W, share, W, c) == 0 ==> c == t * share
  {
    var x := t * share - c;
    assert Account(t * W, share, W, c) == W * x by {
      assert t * W * share == W * (t * share);
    }
    if x <= -1 {
      assert W * x <= W * -1;
    }
    if x >= 1 {
      assert W * x >= W * 1;
    }
  }

  /** Exact fairness: t * W picks choose every peer exactly t * share times and clear the column. */
  lemma FairRounds(el: seq<bool>, sh: seq<int>, t: nat, k: nat)
    requires Shares(el, sh) && k == t * Sum(sh)
    ensures Spins(el, sh, k) == Zeros(|sh|)
    ensures forall i: nat :: i < |sh| ==> Count(Picks(el, sh, k), i) == t * sh[i]
  {
    SpinsExact(el, sh, k);
    var cw := Spins(el, sh, k);
    forall i: nat | i < |sh|
      ensures cw[i] >= 0 && (cw[i] == 0 ==> Count(Picks(el, sh, k), i) == t * sh[i])
    {
      WholeRounds(t, sh[i], Sum(sh), Count(Picks(el, sh, k), i));
    }
    SumNonNegative(cw);
  }

  /** The one peer, if any, that the next pick chooses. */
  function PickOf(el: seq<bool>, sh: seq<int>, cw: seq<int>): seq<nat>
    requires |sh| == |el| == |cw|
  {
    var c := Chosen(el, sh, cw);
    if c.Some? then [c.value] else []
  }

  lemma NextSpin(el: seq<bool>, sh: seq<int>, k: nat)
    requires |sh| == |el| && k > 0
    ensures Spins(el, sh, k) == Spin(el, sh, Spins(el, sh, k - 1))
    ensures Picks(el, sh, k) == Picks(el, sh, k - 1) + PickOf(el, sh, Spins(el, sh, k - 1))
  {
  }

  lemma SameNext(el: seq<bool>, sh: seq<int>, k: nat, m: nat, done: seq<nat>)
    requires |sh| == |el| && k > 0 && m > 0 && Spins(el, sh, m - 1) == Spins(el, sh, k - 1)
    requires Picks(el, sh, m - 1) == done + Picks(el, sh, k - 1)
    ensures Spins(el, sh, m) == Spins(el, sh, k) && Picks(el, sh, m) == done + Picks(el, sh, k)
  {
    NextSpin(el, sh, k);
    NextSpin(el, sh, m);
    Regroup(done, Picks(el, sh, k - 1), PickOf(el, sh, Spins(el, sh, k - 1)));
  }

  lemma Regroup(a: seq<nat>, b: seq<nat>, c: seq<nat>)
    ensures (a + b) + c == a + (b + c)
    ensures a + [] == a
  {
  }

  lemma OneRound(el: seq<bool>, sh: seq<int>)
    requires Shares(el, sh)
    ensures Sum(sh) >= 0 && Spins(el, sh, Sum(sh)) == Spins(el, sh, 0)
    ensures Picks(el, sh, Sum(sh)) + Picks(el, sh, 0) == Picks(el, sh, Sum(sh))
  {
    SumNonNegative(sh);
    FairRounds(el, sh, 1, Sum(sh));
    Regroup(Picks(el, sh, Sum(sh)), [], []);
  }

  /** The schedule repeats itself: from pick W on it is the schedule from pick 0 on. */
  lemma {:induction false} Periodic(el: seq<bool>, sh: seq<int>, k: nat, m: nat)
    requires Shares(el, sh) && m == Sum(sh) + k
    ensures Spins(el, sh, m) == Spins(el, sh, k)
    ensures Picks(el, sh, m) == Picks(el, sh, Sum(sh)) + Picks(el, sh, k)
  {
    OneRound(el, sh);
    if k > 0 {
      Periodic(el, sh, k - 1, m - 1);
      SameNext(el, sh, k, m, Picks(el, sh, Sum(sh)));
    }
  }
}
