/** Fairness and recovery of the round-robin balancer, over whole runs of a multi-peer list. */
module RoundRobinFairness {
  import opened Numbers
  import opened Wrappers
  import opened Sums
  import opened SmoothSchedule
  import opened RoundRobin
  import opened RoundRobinRuns

  ghost predicate SteadyStep(s: System, e: Event, el: seq<bool>) {
    && (e.Get? ==> && e.r in s.clients && |s.ps| <= 64 * |s.clients[e.r].rq.tried|
                   && Eligible(s.ps, s.clients[e.r].rq.tried, e.now) == el)
    && (e.Free? ==> !e.failed)
  }

  /** The first n events: every Get sees the same eligible peers, no connection is reported as failed. */
  ghost predicate Steady(ss: seq<System>, es: seq<Event>, el: seq<bool>, n: nat)
    requires n <= |es| < |ss|
  {
    if n == 0 then !ss[0].single && |el| == |ss[0].ps|
    else Steady(ss, es, el, n - 1) && SteadyStep(ss[n - 1], es[n - 1], el)
  }

  ghost predicate FullWeight(ps: seq<Peer>) {
    forall i :: 0 <= i < |ps| ==> ps[i].effectiveWeight == ps[i].weight
  }

  /** Peers as the set-up, or any whole number of rounds, leaves them. */
  ghost predicate AtRoundStart(ps: seq<Peer>) {
    FullWeight(ps) && forall i :: 0 <= i < |ps| ==> ps[i].currentWeight == 0
  }

  function SharesOf(ps: seq<Peer>, el: seq<bool>): (sh: seq<int>)
    requires |ps| == |el|
    ensures |sh| == |ps|
  {
    seq(|ps|, i requires 0 <= i < |ps| => if el[i] then ps[i].weight else 0)
  }

  lemma SharesAreShares(s: System, el: seq<bool>)
    requires Shape(s) && |s.ps| == |el| && Sum(SharesOf(s.ps, el)) >= 1
    ensures Shares(el, SharesOf(s.ps, el))
  {
  }

  /** The peers are at full weight and k picks into the schedule of the shares sh. */
  ghost predicate At(ps: seq<Peer>, el: seq<bool>, sh: seq<int>, k: nat) {
    && |ps| == |el| && FullWeight(ps)
    && SharesOf(ps, el) == sh && CurrentWeights(ps) == Spins(el, sh, k)
  }

  lemma SameColumns(ps: seq<Peer>, qs: seq<Peer>, el: seq<bool>, sh: seq<int>, k: nat)
    requires At(ps, el, sh, k) && |qs| == |ps|
    requires forall i :: 0 <= i < |ps| ==>
                           && qs[i].weight == ps[i].weight && qs[i].effectiveWeight == ps[i].effectiveWeight
                           && qs[i].currentWeight == ps[i].currentWeight
    ensures At(qs, el, sh, k)
  {
    assert SharesOf(qs, el) == sh;
    assert CurrentWeights(qs) == CurrentWeights(ps);
  }

  lemma PickAdvances(ps: seq<Peer>, el: seq<bool>, sh: seq<int>, k: nat, now: int)
    requires At(ps, el, sh, k) && Choice(ps, el).Some?
    ensures At(AfterPick(ps, el, now), el, sh, k + 1)
    ensures Picks(el, sh, k + 1) == Picks(el, sh, k) + [Choice(ps, el).value]
  {
    assert Gains(ps, el) == sh;
    PickIsSpin(ps, el, now);
    assert SharesOf(AfterPick(ps, el, now), el) == sh;
  }

  lemma SteadyIdle(s: System, e: Event, el: seq<bool>, sh: seq<int>, k: nat)
    requires Shape(s) && Enabled(s, e) && !s.single && At(s.ps, el, sh, k) && SteadyStep(s, e, el)
    requires Picked(s, e) == []
    ensures At(Next(s, e).ps, el, sh, k)
  {
    var qs := Next(s, e).ps;
    assert forall i :: 0 <= i < |qs| ==>
                         && qs[i].weight == s.ps[i].weight && qs[i].effectiveWeight == s.ps[i].effectiveWeight
                         && qs[i].currentWeight == s.ps[i].currentWeight;
    SameColumns(s.ps, qs, el, sh, k);
  }

  lemma SteadyPick(s: System, e: Event, el: seq<bool>, sh: seq<int>, k: nat)
    requires Shape(s) && Enabled(s, e) && !s.single && At(s.ps, el, sh, k) && SteadyStep(s, e, el)
    requires Picked(s, e) != []
    ensures At(Next(s, e).ps, el, sh, k + 1)
    ensures Picks(el, sh, k + 1) == Picks(el, sh, k) + Picked(s, e)
  {
    PickAdvances(s.ps, el, sh, k, e.now);
    ConnectedStays(AfterPick(s.ps, el, e.now), Choice(s.ps, el).value, el, sh, k + 1);
  }

  lemma ConnectedStays(ps: seq<Peer>, b: nat, el: seq<bool>, sh: seq<int>, k: nat)
    requires At(ps, el, sh, k) && b < |ps|
    ensures At(Connected(ps, b), el, sh, k)
  {
    SameColumns(ps, Connected(ps, b), el, sh, k);
  }

  ghost predicate OnSchedule(ps: seq<Peer>, el: seq<bool>, sh: seq<int>, picked: seq<nat>) {
    At(ps, el, sh, |picked|) && picked == Picks(el, sh, |picked|)
  }

  lemma IdleExtend(s: System, e: Event, el: seq<bool>, sh: seq<int>, before: seq<nat>)
    requires Shape(s) && Enabled(s, e) && !s.single && SteadyStep(s, e, el) && OnSchedule(s.ps, el, sh, before)
    requires Picked(s, e) == []
    ensures OnSchedule(Next(s, e).ps, el, sh, before + Picked(s, e))
  {
    SteadyIdle(s, e, el, sh, |before|);
    assert before + Picked(s, e) == before;
  }

  lemma PickExtend(s: System, e: Event, el: seq<bool>, sh: seq<int>, before: seq<nat>)
    requires Shape(s) && Enabled(s, e) && !s.single && SteadyStep(s, e, el) && OnSchedule(s.ps, el, sh, before)
    requires |Picked(s, e)| == 1
    ensures OnSchedule(Next(s, e).ps, el, sh, before + Picked(s, e))
  {
    SteadyPick(s, e, el, sh, |before|);
    assert |before + Picked(s, e)| == |before| + 1;
  }

  /** A steady run from a round start: n events of it, and at the end a position in the schedule. */
  ghost predicate SteadyFrom(ss: seq<System>, es: seq<Event>, el: seq<bool>, n: nat) {
    && n <= |es| < |ss| && Run(ss, es, n) && Steady(ss, es, el, n)
    && AtRoundStart(ss[0].ps) && |el| == |ss[0].ps| && !ss[0].single
  }

  /** A steady run from a round start follows the schedule of the shares, whoever makes the picks. */
  lemma {:induction false} SteadyRun(ss: seq<System>, es: seq<Event>, el: seq<bool>, n: nat)
    requires SteadyFrom(ss, es, el, n)
    ensures OnSchedule(ss[n].ps, el, SharesOf(ss[0].ps, el), PickedIn(ss, es, n))
  {
    if n == 0 {
      assert CurrentWeights(ss[0].ps) == Zeros(|ss[0].ps|);
    } else {
      SteadyRun(ss, es, el, n - 1);
      RunShape(ss, es, n - 1);
      if Picked(ss[n - 1], es[n - 1]) == [] {
        IdleExtend(ss[n - 1], es[n - 1], el, SharesOf(ss[0].ps, el), PickedIn(ss, es, n - 1));
      } else {
        PickExtend(ss[n - 1], es[n - 1], el, SharesOf(ss[0].ps, el), PickedIn(ss, es, n - 1));
      }
    }
  }

  /** Exact fairness for any constant set of eligible peers, under any interleaving of requests. */
  lemma FairRun(ss: seq<System>, es: seq<Event>, el: seq<bool>, n: nat, t: nat)
    requires SteadyFrom(ss, es, el, n) && Sum(SharesOf(ss[0].ps, el)) >= 1
    requires |PickedIn(ss, es, n)| == t * Sum(SharesOf(ss[0].ps, el))
    ensures forall i: nat :: i < |el| ==> Count(PickedIn(ss, es, n), i) == t * SharesOf(ss[0].ps, el)[i]
    ensures |ss[n].ps| == |el| && AtRoundStart(ss[n].ps)
  {
    var sh, k := SharesOf(ss[0].ps, el), |PickedIn(ss, es, n)|;
    RunShape(ss, es, n);
    SharesAreShares(ss[0], el);
    SteadyRun(ss, es, el, n);
    FairRounds(el, sh, t, k);
    RoundStartAt(ss[n].ps, el, sh, k);
  }

  lemma RoundStartAt(ps: seq<Peer>, el: seq<bool>, sh: seq<int>, k: nat)
    requires At(ps, el, sh, k) && Spins(el, sh, k) == Zeros(|sh|)
    ensures AtRoundStart(ps)
  {
    forall i | 0 <= i < |ps|
      ensures ps[i].currentWeight == 0
    {
      assert CurrentWeights(ps)[i] == 0;
    }
  }

  /** After any number k of picks no peer has had more than k * share / W of them, rounded up. */
  lemma SmoothRun(ss: seq<System>, es: seq<Event>, el: seq<bool>, n: nat, i: nat)
    requires SteadyFrom(ss, es, el, n) && Sum(SharesOf(ss[0].ps, el)) >= 1 && i < |el|
    ensures var sh, k := SharesOf(ss[0].ps, el), |PickedIn(ss, es, n)|;
            Sum(sh) * Count(PickedIn(ss, es, n), i) < k * sh[i] + Sum(sh)
  {
    RunShape(ss, es, n);
    SharesAreShares(ss[0], el);
    SteadyRun(ss, es, el, n);
    PrefixSmooth(el, SharesOf(ss[0].ps, el), |PickedIn(ss, es, n)|, i);
  }

  /** The schedule is periodic: pick W + j of any steady run is its pick j. */
  lemma PeriodicRun(ss: seq<System>, es: seq<Event>, el: seq<bool>, n: nat, W: nat, j: nat)
    requires SteadyFrom(ss, es, el, n) && W == Sum(SharesOf(ss[0].ps, el)) >= 1
    requires W + j < |PickedIn(ss, es, n)|
    ensures PickedIn(ss, es, n)[W + j] == PickedIn(ss, es, n)[j]
  {
    RunShape(ss, es, n);
    SharesAreShares(ss[0], el);
    SteadyRun(ss, es, el, n);
    ShiftedPick(el, SharesOf(ss[0].ps, el), W, PickedIn(ss, es, n), j);
  }

  lemma ShiftedPick(el: seq<bool>, sh: seq<int>, W: nat, picked: seq<nat>, j: nat)
    requires Shares(el, sh) && W == Sum(sh) && picked == Picks(el, sh, |picked|) && W + j < |picked|
    ensures picked[W + j] == picked[j]
  {
    var k := |picked| - W;
    SpinsExact(el, sh, k);
    SpinsExact(el, sh, W);
    Periodic(el, sh, k, |picked|);
    PicksPrefix(el, sh, k, |picked|);
    AtOffset(picked, Picks(el, sh, W), Picks(el, sh, k), W, j);
  }

  lemma AtOffset(all: seq<nat>, first: seq<nat>, rest: seq<nat>, W: nat, j: nat)
    requires all == first + rest && rest <= all && |first| == W && j < |rest|
    ensures all[W + j] == all[j]
  {
  }

  /** Longer schedules extend shorter ones. */
  lemma {:induction false} PicksPrefix(el: seq<bool>, sh: seq<int>, k: nat, m: nat)
    requires Shares(el, sh) && k <= m
    ensures Picks(el, sh, k) <= Picks(el, sh, m)
    decreases m - k
  {
    if k < m {
      PicksPrefix(el, sh, k + 1, m);
      assert Picks(el, sh, k) <= Picks(el, sh, k + 1);
    }
  }

  // ----- fairness to all peers -----

  ghost predicate FreshStep(s: System, e: Event) {
    && (e.Get? ==> && e.r in s.clients && s.clients[e.r].rq.tried == FreshTried(|s.ps|)
                   && forall i :: 0 <= i < |s.ps| ==> Usable(s.ps[i], e.now))
    && (e.Free? ==> !e.failed)
  }

  /** Every pick is the first of its request, finds every peer usable, and no connection fails. */
  ghost predicate FreshPicks(ss: seq<System>, es: seq<Event>, n: nat)
    requires n <= |es| < |ss|
  {
    if n == 0 then !ss[0].single else FreshPicks(ss, es, n - 1) && FreshStep(ss[n - 1], es[n - 1])
  }

  function FirstSix(n: nat): (el: seq<bool>) {
    seq(n, i => i < 6)
  }

  lemma FreshStepIsSteady(s: System, e: Event)
    requires Shape(s) && FreshStep(s, e)
    ensures SteadyStep(s, e, FirstSix(|s.ps|))
  {
    if e.Get? {
      var el := Eligible(s.ps, s.clients[e.r].rq.tried, e.now);
      forall i: nat | i < |s.ps|
        ensures el[i] <==> i < 6
      {
        FreshTriedExactly(|s.ps|, i);
      }
      assert el == FirstSix(|s.ps|);
    }
  }

  lemma {:induction false} FreshIsSteady(ss: seq<System>, es: seq<Event>, n: nat)
    requires n <= |es| < |ss| && Run(ss, es, n) && FreshPicks(ss, es, n)
    ensures Steady(ss, es, FirstSix(|ss[0].ps|), n) && !ss[0].single
  {
    if n > 0 {
      FreshIsSteady(ss, es, n - 1);
      RunShape(ss, es, n - 1);
      FreshStepIsSteady(ss[n - 1], es[n - 1]);
    }
  }

  lemma {:induction false} CountAbsent(s: seq<nat>, x: nat)
    requires x !in s
    ensures Count(s, x) == 0
  {
    if |s| > 0 {
      CountAbsent(s[..|s| - 1], x);
    }
  }

  /** n events whose picks make t whole rounds over all peers, each of weight at least 1. */
  ghost predicate WholeRoundsOfAll(ss: seq<System>, es: seq<Event>, n: nat, t: nat) {
    && n <= |es| < |ss| && Run(ss, es, n) && FreshPicks(ss, es, n) && AtRoundStart(ss[0].ps)
    && (forall i :: 0 <= i < |ss[0].ps| ==> ss[0].ps[i].weight >= 1)
    && t >= 1 && |PickedIn(ss, es, n)| == t * Sum(Weights(ss[0].ps))
  }

  lemma SeventhPeerStarves(ss: seq<System>, es: seq<Event>, n: nat, t: nat)
    requires WholeRoundsOfAll(ss, es, n, t) && |ss[0].ps| > 6
    ensures Count(PickedIn(ss, es, n), 6) == 0 < t * ss[0].ps[6].weight
  {
    FreshIsSteady(ss, es, n);
    HighPeersNeverPicked(ss, es, n);
    CountAbsent(PickedIn(ss, es, n), 6);
    assert t * ss[0].ps[6].weight >= t * 1;
  }

  lemma SixPeersServed(ss: seq<System>, es: seq<Event>, n: nat, t: nat)
    requires WholeRoundsOfAll(ss, es, n, t) && |ss[0].ps| <= 6
    ensures forall i: nat :: i < |ss[0].ps| ==> Count(PickedIn(ss, es, n), i) == t * ss[0].ps[i].weight
  {
    var ps := ss[0].ps;
    if |ps| > 0 {
      FreshIsSteady(ss, es, n);
      assert SharesOf(ps, FirstSix(|ps|)) == Weights(ps);
      SumNonNegative(Weights(ps));
      assert Weights(ps)[0] >= 1;
      FairRun(ss, es, FirstSix(|ps|), n, t);
    }
  }

  /** Whole rounds in which every peer is usable are fair to every peer exactly when there are at most six. */
  lemma FairToAllIffAtMostSix(ss: seq<System>, es: seq<Event>, n: nat, t: nat)
    requires WholeRoundsOfAll(ss, es, n, t)
    ensures (forall i: nat :: i < |ss[0].ps| ==> Count(PickedIn(ss, es, n), i) == t * ss[0].ps[i].weight)
            <==> |ss[0].ps| <= 6
  {
    if |ss[0].ps| > 6 {
      SeventhPeerStarves(ss, es, n, t);
    } else {
      SixPeersServed(ss, es, n, t);
    }
  }

  /** Peers that nothing ever makes unusable. */
  ghost predicate Unlimited(ps: seq<Peer>) {
    forall p :: p in ps ==> !p.down && p.maxFails == 0 && p.maxConns == 0
  }

  lemma UnlimitedUsable(ps: seq<Peer>)
    requires Unlimited(ps)
    ensures forall i :: 0 <= i < |ps| ==> Usable(ps[i], 0)
  {
    forall i | 0 <= i < |ps|
      ensures Usable(ps[i], 0)
    {
      assert ps[i] in ps;
    }
  }

  lemma FreshChoice(ps: seq<Peer>)
    requires Unlimited(ps) && ps != []
    ensures Choice(ps, Eligible(ps, FreshTried(|ps|), 0)).Some?
  {
    var el := Eligible(ps, FreshTried(|ps|), 0);
    UnlimitedUsable(ps);
    FreshTriedExactly(|ps|, 0);
    assert el[0];
    ScanFindsMaximum(Raised(CurrentWeights(ps), Gains(ps, el)), el, |el|);
  }

  lemma NextKeepsUnlimited(s: System, r: nat)
    requires Shape(s) && !s.single && Enabled(s, Get(r, 0)) && Unlimited(s.ps)
    ensures Unlimited(Next(s, Get(r, 0)).ps)
  {
    var qs := Next(s, Get(r, 0)).ps;
    forall i | 0 <= i < |qs|
      ensures !qs[i].down && qs[i].maxFails == 0 && qs[i].maxConns == 0
    {
      assert s.ps[i] in s.ps;
    }
  }

  /** A new request of unlimited peers picks one. */
  lemma FreshGet(s: System, r: nat)
    requires Shape(s) && !s.single && Unlimited(s.ps) && s.ps != [] && r !in s.clients
    ensures var s1, e := Next(s, Open(r)), Get(r, 0);
            && Enabled(s1, e) && FreshStep(s1, e) && |Picked(s1, e)| == 1
            && Unlimited(Next(s1, e).ps)
            && (forall c :: c in Next(s1, e).clients ==> c in s.clients || c == r)
  {
    UnlimitedUsable(s.ps);
    FreshChoice(s.ps);
    NextKeepsUnlimited(Next(s, Open(r)), r);
  }

  /** What a run does depends only on the events so far. */
  lemma {:induction false} RunPrefix(ss: seq<System>, es: seq<Event>, ss': seq<System>, es': seq<Event>, n: nat)
    requires n <= |es| <= |es'| && |es| < |ss| && |es'| < |ss'| && es <= es' && ss <= ss'
    requires Run(ss, es, n) && FreshPicks(ss, es, n)
    ensures Run(ss', es', n) && FreshPicks(ss', es', n) && PickedIn(ss', es', n) == PickedIn(ss, es, n)
  {
    if n > 0 {
      RunPrefix(ss, es, ss', es', n - 1);
    }
  }

  /** A run goes on with any fresh step. */
  lemma ExtendFresh(ss: seq<System>, es: seq<Event>, e: Event) returns (ss': seq<System>, es': seq<Event>)
    requires |ss| == |es| + 1 && Run(ss, es, |es|) && FreshPicks(ss, es, |es|)
    requires Shape(ss[|es|]) && Enabled(ss[|es|], e) && FreshStep(ss[|es|], e)
    ensures |ss'| == |es'| + 1 && |es'| == |es| + 1 && Run(ss', es', |es'|) && FreshPicks(ss', es', |es'|)
    ensures ss'[0] == ss[0] && ss'[|es'|] == Next(ss[|es|], e)
    ensures |PickedIn(ss', es', |es'|)| == |PickedIn(ss, es, |es|)| + |Picked(ss[|es|], e)|
  {
    ss', es' := ss + [Next(ss[|es|], e)], es + [e];
    RunPrefix(ss, es, ss', es', |es|);
  }

  /** Such runs exist for every list of unlimited peers and every number k of picks. */
  lemma {:induction false} FreshRunsExist(s: System, k: nat) returns (ss: seq<System>, es: seq<Event>)
    requires Shape(s) && !s.single && Unlimited(s.ps) && s.ps != [] && s.clients == map[]
    ensures |ss| == |es| + 1 && Run(ss, es, |es|) && ss[0] == s && FreshPicks(ss, es, |es|)
    ensures |PickedIn(ss, es, |es|)| == k
    ensures Unlimited(ss[|es|].ps) && forall c :: c in ss[|es|].clients ==> c < k
  {
    if k == 0 {
      ss, es := [s], [];
    } else {
      ss, es := FreshRunsExist(s, k - 1);
      RunShape(ss, es, |es|);
      FreshGet(ss[|es|], k - 1);
      ss, es := ExtendFresh(ss, es, Open(k - 1));
      ss, es := ExtendFresh(ss, es, Get(k - 1, 0));
    }
  }

  // ----- recovery -----

  ghost predicate EligibleNow(s: System, e: Event, i: nat) {
    && e.Get? && e.r in s.clients && i < |s.ps| <= 64 * |s.clients[e.r].rq.tried|
    && Eligible(s.ps, s.clients[e.r].rq.tried, e.now)[i]
  }

  /** The number of Gets among the first n events that find peer i eligible. */
  ghost function EligibleRounds(ss: seq<System>, es: seq<Event>, n: nat, i: nat): nat
    requires n <= |es| < |ss|
  {
    if n == 0 then 0
    else EligibleRounds(ss, es, n - 1, i) + if EligibleNow(ss[n - 1], es[n - 1], i) then 1 else 0
  }

  ghost predicate FailsNow(s: System, e: Event, i: nat) {
    e.Free? && e.failed && e.r in s.clients && s.clients[e.r].rq.current == Some(i)
  }

  lemma MinMin(w: int, start: int, a: nat, b: nat)
    ensures Min(w, Min(w, start + a) + b) == Min(w, start + (a + b))
  {
  }

  lemma NextWeight(s: System, e: Event, i: nat)
    requires Shape(s) && Enabled(s, e) && !s.single && i < |s.ps| && PeersInRange(s.ps)
    requires !FailsNow(s, e, i)
    ensures Next(s, e).ps[i].weight == s.ps[i].weight
    ensures Next(s, e).ps[i].effectiveWeight
            == Min(s.ps[i].weight, s.ps[i].effectiveWeight + if EligibleNow(s, e, i) then 1 else 0)
  {
    if e.Get? {
      var el := Eligible(s.ps, s.clients[e.r].rq.tried, e.now);
      ScanFindsMaximum(Raised(CurrentWeights(s.ps), Gains(s.ps, el)), el, |el|);
    }
  }

  ghost predicate NeverFails(ss: seq<System>, es: seq<Event>, n: nat, i: nat)
    requires n <= |es| < |ss|
  {
    n == 0 || (NeverFails(ss, es, n - 1, i) && !FailsNow(ss[n - 1], es[n - 1], i))
  }

  ghost predicate Regained(ps: seq<Peer>, i: nat, weight: int, start: int, rounds: nat) {
    && PeersInRange(ps) && i < |ps|
    && ps[i].weight == weight && ps[i].effectiveWeight == Min(weight, start + rounds)
  }

  lemma RegainStep(s: System, e: Event, i: nat, weight: int, start: int, rounds: nat)
    requires Shape(s) && Enabled(s, e) && !s.single && !FailsNow(s, e, i)
    requires Regained(s.ps, i, weight, start, rounds)
    ensures Regained(Next(s, e).ps, i, weight, start, rounds + if EligibleNow(s, e, i) then 1 else 0)
  {
    NextWeight(s, e, i);
    NextKeepsRange(s, e);
    MinMin(weight, start, rounds, if EligibleNow(s, e, i) then 1 else 0);
  }

  /** Without failures a peer regains one unit per round it is eligible in, up to its weight:
      after `weight` such rounds it is back at full weight, wherever it started. */
  lemma {:induction false} Recovery(ss: seq<System>, es: seq<Event>, n: nat, i: nat)
    requires n <= |es| < |ss| && Run(ss, es, n) && !ss[0].single && i < |ss[0].ps| && PeersInRange(ss[0].ps)
    requires NeverFails(ss, es, n, i)
    ensures Regained(ss[n].ps, i, ss[0].ps[i].weight, ss[0].ps[i].effectiveWeight, EligibleRounds(ss, es, n, i))
  {
    if n > 0 {
      Recovery(ss, es, n - 1, i);
      RunShape(ss, es, n - 1);
      RegainStep(ss[n - 1], es[n - 1], i, ss[0].ps[i].weight, ss[0].ps[i].effectiveWeight,
                 EligibleRounds(ss, es, n - 1, i));
    }
  }
}
