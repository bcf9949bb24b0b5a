/** Which peers a list of several hands out and which it keeps back: in any run, said of the peers' own fields and of
    what has happened to them. */
module RoundRobinHealth {
  import opened Wrappers
  import opened SmoothSchedule
  import opened RoundRobin
  import opened RoundRobinRuns

  /** Failed too often, and not long enough ago. */
  predicate InWindow(p: Peer, now: int) {
    p.maxFails > 0 && p.fails >= p.maxFails && now - p.checked <= p.failTimeout
  }

  predicate AtLimit(p: Peer) {
    p.maxConns > 0 && p.conns >= p.maxConns
  }

  // ----- one call -----

  lemma ChosenIff(el: seq<bool>, sh: seq<int>, cw: seq<int>)
    requires |el| == |sh| == |cw|
    ensures Chosen(el, sh, cw).None? <==> forall i :: 0 <= i < |el| ==> !el[i]
    ensures Chosen(el, sh, cw).Some? ==> Chosen(el, sh, cw).value < |el| && el[Chosen(el, sh, cw).value]
  {
    ScanFindsMaximum(Raised(cw, sh), el, |el|);
  }

  /** Who is picked is up, not shut out by its failures, and has room for the connection. */
  lemma PickedIsHealthy(s: System, r: nat, now: int)
    requires Shape(s) && Enabled(s, Get(r, now)) && !s.single && Picked(s, Get(r, now)) != []
    ensures var b := Picked(s, Get(r, now))[0];
            b < |s.ps| && !s.ps[b].down && !InWindow(s.ps[b], now) && !AtLimit(s.ps[b])
  {
    var el := Eligible(s.ps, s.clients[r].rq.tried, now);
    ChosenIff(el, Gains(s.ps, el), CurrentWeights(s.ps));
  }

  /** A request counts as tried what it has got, and the peers from the seventh on. */
  ghost predicate TriedIsGot(s: System)
    requires Shape(s)
  {
    !s.single ==>
      forall r :: r in s.clients ==>
                    forall j: nat {:trigger Tried(s.clients[r].rq.tried, j)} :: j < 64 * |s.clients[r].rq.tried| ==>
                      (Tried(s.clients[r].rq.tried, j) <==> j >= 6 || j in s.clients[r].got)
  }

  lemma GetTriedIsGot(s: System, r: nat, now: int)
    requires Shape(s) && Enabled(s, Get(r, now)) && TriedIsGot(s) && !s.single
    ensures TriedIsGot(Next(s, Get(r, now)))
  {
    var e := Get(r, now);
    if Picked(s, e) != [] {
      PickedWasUntried(s, e);
      var b, c := Picked(s, e)[0], s.clients[r];
      forall j: nat | j < 64 * |c.rq.tried|
        ensures Tried(Mark(c.rq.tried, b), j) <==> j >= 6 || j in c.got + [b]
      {
        MarkAddsOne(c.rq.tried, b, j);
      }
    }
  }

  lemma NextTriedIsGot(s: System, e: Event)
    requires Shape(s) && Enabled(s, e) && TriedIsGot(s)
    ensures TriedIsGot(Next(s, e))
  {
    if !s.single {
      match e
      case Open(r) =>
        forall j: nat | j < 64 * |FreshTried(|s.ps|)|
          ensures Tried(FreshTried(|s.ps|), j) <==> j >= 6
        {
          FreshTriedExactly(|s.ps|, j);
        }
      case Get(r, now) =>
        GetTriedIsGot(s, r, now);
      case _ =>
    }
  }

  lemma {:induction false} ReachableTriedIsGot(ss: seq<System>, es: seq<Event>, n: nat)
    requires n <= |es| < |ss| && Run(ss, es, n) && ss[0].clients == map[]
    ensures Shape(ss[n]) && TriedIsGot(ss[n])
  {
    if n > 0 {
      ReachableTriedIsGot(ss, es, n - 1);
      NextTriedIsGot(ss[n - 1], es[n - 1]);
    }
  }

  /** Why a request does not get peer i. */
  predicate KeptBack(s: System, r: nat, i: nat, now: int)
    requires r in s.clients && i < |s.ps|
  {
    i >= 6 || i in s.clients[r].got || s.ps[i].down || AtLimit(s.ps[i]) || InWindow(s.ps[i], now)
  }

  /** In any run on a list of several peers, eligible is who is not kept back. */
  lemma EligibleIffNotKeptBack(ss: seq<System>, es: seq<Event>, n: nat, r: nat, now: int)
    requires n <= |es| < |ss| && Run(ss, es, n) && ss[0].clients == map[] && !ss[0].single
    requires Shape(ss[n]) && Enabled(ss[n], Get(r, now))
    ensures forall i: nat :: i < |ss[n].ps| ==>
              (Eligible(ss[n].ps, ss[n].clients[r].rq.tried, now)[i] <==> !KeptBack(ss[n], r, i, now))
  {
    var s := ss[n];
    RunShape(ss, es, n);
    ReachableTriedIsGot(ss, es, n);
    forall i: nat | i < |s.ps|
      ensures Eligible(s.ps, s.clients[r].rq.tried, now)[i] <==> !KeptBack(s, r, i, now)
    {
      assert Tried(s.clients[r].rq.tried, i) <==> i >= 6 || i in s.clients[r].got;
    }
  }

  /** A request is told BUSY exactly when every peer is kept back from it. */
  lemma BusyIffAllKeptBack(ss: seq<System>, es: seq<Event>, n: nat, r: nat, now: int)
    requires n <= |es| < |ss| && Run(ss, es, n) && ss[0].clients == map[] && !ss[0].single
    requires Shape(ss[n]) && Enabled(ss[n], Get(r, now))
    ensures Picked(ss[n], Get(r, now)) == [] <==> forall i: nat :: i < |ss[n].ps| ==> KeptBack(ss[n], r, i, now)
  {
    var s := ss[n];
    RunShape(ss, es, n);
    EligibleIffNotKeptBack(ss, es, n, r, now);
    var el := Eligible(s.ps, s.clients[r].rq.tried, now);
    ChosenIff(el, Gains(s.ps, el), CurrentWeights(s.ps));
  }

  /** Of the peers that are not kept back, who is picked has the largest current weight once each has gained its
      effective weight, and is the first such peer. */
  lemma PickedIsBest(ss: seq<System>, es: seq<Event>, n: nat, r: nat, now: int, i: nat)
    requires n <= |es| < |ss| && Run(ss, es, n) && ss[0].clients == map[] && !ss[0].single
    requires Shape(ss[n]) && Enabled(ss[n], Get(r, now)) && Picked(ss[n], Get(r, now)) != []
    requires i < |ss[n].ps| && !KeptBack(ss[n], r, i, now)
    ensures var ps, b := ss[n].ps, Picked(ss[n], Get(r, now))[0];
            && b < |ps| && ps[i].currentWeight + ps[i].effectiveWeight <= ps[b].currentWeight + ps[b].effectiveWeight
            && (i < b ==> ps[i].currentWeight + ps[i].effectiveWeight < ps[b].currentWeight + ps[b].effectiveWeight)
  {
    var s := ss[n];
    RunShape(ss, es, n);
    ReachableTriedIsGot(ss, es, n);
    var tried := s.clients[r].rq.tried;
    var el := Eligible(s.ps, tried, now);
    ScanFindsMaximum(Raised(CurrentWeights(s.ps), Gains(s.ps, el)), el, |el|);
    assert Tried(tried, i) <==> i >= 6 || i in s.clients[r].got;
  }

  /** A list of one peer refuses exactly when that peer is down or has no room; it keeps no window. */
  lemma SingleBusyIff(s: System, r: nat, now: int)
    requires Shape(s) && Enabled(s, Get(r, now)) && s.single
    ensures Picked(s, Get(r, now)) == if s.ps[0].down || AtLimit(s.ps[0]) then [] else [0]
  {
  }

  // ----- whole runs -----

  predicate SameSettings(p: Peer, q: Peer) {
    && q.name == p.name && q.weight == p.weight && q.down == p.down && q.maxConns == p.maxConns
    && q.maxFails == p.maxFails && q.failTimeout == p.failTimeout
  }

  lemma GetKeepsSettings(single: bool, ps: seq<Peer>, rq: Request, now: int, i: nat)
    requires Sized(single, ps, rq) && i < |ps|
    ensures SameSettings(ps[i], GetResult(single, ps, rq, now).0[i])
  {
  }

  /** What no step changes. */
  lemma NextKeepsSettings(s: System, e: Event, i: nat)
    requires Shape(s) && Enabled(s, e) && i < |s.ps|
    ensures SameSettings(s.ps[i], Next(s, e).ps[i])
  {
    if e.Get? {
      GetKeepsSettings(s.single, s.ps, s.clients[e.r].rq, e.now, i);
    }
  }

  lemma {:induction false} RunKeepsSettings(ss: seq<System>, es: seq<Event>, n: nat, i: nat)
    requires n <= |es| < |ss| && Run(ss, es, n) && i < |ss[0].ps|
    ensures |ss[n].ps| == |ss[0].ps| && SameSettings(ss[0].ps[i], ss[n].ps[i])
  {
    RunShape(ss, es, n);
    if n > 0 {
      RunShape(ss, es, n - 1);
      RunKeepsSettings(ss, es, n - 1, i);
      NextKeepsSettings(ss[n - 1], es[n - 1], i);
    }
  }

  lemma PickedIsUp(s: System, e: Event)
    requires Shape(s) && Enabled(s, e) && Picked(s, e) != []
    ensures Picked(s, e)[0] < |s.ps| && !s.ps[Picked(s, e)[0]].down
  {
    if !s.single {
      PickedIsHealthy(s, e.r, e.now);
    }
  }

  /** No run ever picks a peer that is marked down, from one peer or from several. */
  lemma {:induction false} DownNeverPicked(ss: seq<System>, es: seq<Event>, n: nat, i: nat)
    requires n <= |es| < |ss| && Run(ss, es, n) && i < |ss[0].ps| && ss[0].ps[i].down
    ensures i !in PickedIn(ss, es, n)
  {
    if n > 0 {
      DownNeverPicked(ss, es, n - 1, i);
      RunShape(ss, es, n - 1);
      RunKeepsSettings(ss, es, n - 1, i);
      if Picked(ss[n - 1], es[n - 1]) != [] {
        PickedIsUp(ss[n - 1], es[n - 1]);
      }
    }
  }

  // ----- failures -----

  /** The event frees peer i after a failure. */
  predicate FailsPeer(s: System, e: Event, i: nat) {
    e.Free? && e.failed && e.r in s.clients && s.clients[e.r].rq.current == Some(i)
  }

  /** The event is a success of peer i, or of its connecting, and the peer has been checked since it last failed. */
  predicate ClearsPeer(s: System, e: Event, i: nat) {
    && ((e.Free? && !e.failed) || (e.Notify? && e.event == 1))
    && e.r in s.clients && s.clients[e.r].rq.current == Some(i)
    && i < |s.ps| && s.ps[i].accessed < s.ps[i].checked
  }

  /** Failures are counted one by one, and only a success after a check clears them. */
  lemma NextFails(s: System, e: Event, i: nat)
    requires Shape(s) && Enabled(s, e) && !s.single && i < |s.ps|
    ensures Next(s, e).ps[i].fails
            == if FailsPeer(s, e, i) then s.ps[i].fails + 1 else if ClearsPeer(s, e, i) then 0 else s.ps[i].fails
    ensures FailsPeer(s, e, i) ==> Next(s, e).ps[i].accessed == e.now == Next(s, e).ps[i].checked
    ensures !FailsPeer(s, e, i) ==> Next(s, e).ps[i].accessed == s.ps[i].accessed
  {
  }

  /** A failure costs the whole part of weight over maxFails, but no more than there is. */
  lemma FailureCosts(s: System, e: Event, i: nat)
    requires Shape(s) && Enabled(s, e) && !s.single && i < |s.ps| && FailsPeer(s, e, i) && s.ps[i].effectiveWeight >= 0
    ensures var p, q := s.ps[i], Next(s, e).ps[i];
            var cost := p.effectiveWeight - q.effectiveWeight;
            && q.effectiveWeight >= 0
            && (p.maxFails <= 0 ==> cost == 0)
            && (p.maxFails > 0 ==> && 0 <= cost && cost * p.maxFails <= p.weight
                                   && (q.effectiveWeight > 0 ==> p.weight < (cost + 1) * p.maxFails))
  {
    var p, q := s.ps[i], Next(s, e).ps[i];
    if p.maxFails > 0 {
      var share := p.weight / p.maxFails;
      assert share * p.maxFails <= p.weight < (share + 1) * p.maxFails;
      if p.effectiveWeight < share {
        assert p.effectiveWeight * p.maxFails <= share * p.maxFails;
      }
    }
  }

  /** The time of the last check moves with a failure, and with a pick after failTimeout, and at no other time. */
  lemma NextChecked(s: System, e: Event, i: nat)
    requires Shape(s) && Enabled(s, e) && !s.single && i < |s.ps|
    ensures Next(s, e).ps[i].checked
            == if FailsPeer(s, e, i) || (e.Get? && Picked(s, e) == [i] && e.now - s.ps[i].checked > s.ps[i].failTimeout)
               then e.now else s.ps[i].checked
  {
    if e.Get? && Picked(s, e) != [] {
      assert Picked(s, e) == [Picked(s, e)[0]];
    }
  }

  ghost function FailedFrees(ss: seq<System>, es: seq<Event>, n: nat, i: nat): nat
    requires n <= |es| < |ss|
  {
    if n == 0 then 0 else FailedFrees(ss, es, n - 1, i) + if FailsPeer(ss[n - 1], es[n - 1], i) then 1 else 0
  }

  ghost predicate NothingClears(ss: seq<System>, es: seq<Event>, n: nat, i: nat)
    requires n <= |es| < |ss|
  {
    forall k :: 0 <= k < n ==> !ClearsPeer(ss[k], es[k], i)
  }

  lemma {:induction false} FailsCounted(ss: seq<System>, es: seq<Event>, n: nat, i: nat)
    requires n <= |es| < |ss| && Run(ss, es, n) && !ss[0].single && i < |ss[0].ps| && NothingClears(ss, es, n, i)
    ensures |ss[n].ps| == |ss[0].ps| && ss[n].ps[i].fails == ss[0].ps[i].fails + FailedFrees(ss, es, n, i)
  {
    if n > 0 {
      FailsCounted(ss, es, n - 1, i);
      RunShape(ss, es, n - 1);
      NextFails(ss[n - 1], es[n - 1], i);
    }
  }

  /** Failed too often, and not checked before time t. */
  predicate Shut(s: System, i: nat, t: int) {
    i < |s.ps| && s.ps[i].maxFails > 0 && s.ps[i].fails >= s.ps[i].maxFails && s.ps[i].checked >= t
  }

  lemma GetChecked(ps: seq<Peer>, rq: Request, now: int, i: nat)
    requires Sized(false, ps, rq) && i < |ps| && ps[i].failTimeout >= 0
    ensures var (qs, rq', rc) := GetResult(false, ps, rq, now);
            && qs[i].checked >= ps[i].checked
            && (rc.Ok? && rq'.current == Some(i) && now - ps[i].checked > ps[i].failTimeout ==> qs[i].checked == now)
  {
  }

  lemma ShutStays(s: System, e: Event, i: nat, t: int)
    requires Shape(s) && Enabled(s, e) && !s.single && Shut(s, i, t) && s.ps[i].failTimeout >= 0
    requires !FailsPeer(s, e, i) && !ClearsPeer(s, e, i)
    ensures Shut(Next(s, e), i, t)
  {
    NextFails(s, e, i);
    NextKeepsSettings(s, e, i);
    if e.Get? {
      GetChecked(s.ps, s.clients[e.r].rq, e.now, i);
    }
  }

  /** From step a to step n nothing fails the peer or clears its failures. */
  ghost predicate Untouched(ss: seq<System>, es: seq<Event>, a: nat, n: nat, i: nat)
    requires n <= |es| < |ss|
  {
    forall k {:trigger FailsPeer(ss[k], es[k], i)} ::
      a <= k < n ==> !FailsPeer(ss[k], es[k], i) && !ClearsPeer(ss[k], es[k], i)
  }

  lemma {:induction false} ShutThrough(ss: seq<System>, es: seq<Event>, a: nat, n: nat, i: nat, t: int)
    requires a <= n <= |es| < |ss| && Run(ss, es, n) && !ss[0].single && Shut(ss[a], i, t)
    requires i < |ss[0].ps| && ss[0].ps[i].failTimeout >= 0 && Untouched(ss, es, a, n, i)
    ensures Shape(ss[n]) && Shut(ss[n], i, t) && !ss[n].single && ss[n].ps[i].failTimeout == ss[0].ps[i].failTimeout
    decreases n
  {
    RunShape(ss, es, n);
    RunKeepsSettings(ss, es, n, i);
    if a < n {
      ShutThrough(ss, es, a, n - 1, i, t);
      ShutStays(ss[n - 1], es[n - 1], i, t);
    }
  }

  /** If request r asks now, it does not get peer i. */
  ghost predicate NotGiven(s: System, r: nat, now: int, i: nat) {
    Shape(s) && Enabled(s, Get(r, now)) ==> i !in Picked(s, Get(r, now))
  }

  lemma ShutIsNotPicked(s: System, r: nat, now: int, i: nat, t: int)
    requires !s.single && Shut(s, i, t) && now - t <= s.ps[i].failTimeout
    ensures NotGiven(s, r, now, i)
  {
    if Shape(s) && Enabled(s, Get(r, now)) && Picked(s, Get(r, now)) != [] {
      PickedIsHealthy(s, r, now);
    }
  }

  lemma {:induction false} RunPart(ss: seq<System>, es: seq<Event>, m: nat, n: nat)
    requires m < n <= |es| < |ss| && Run(ss, es, n)
    ensures Run(ss, es, m) && StepTo(ss[m], es[m], ss[m + 1])
    decreases n
  {
    if m + 1 < n {
      RunPart(ss, es, m, n - 1);
    }
  }

  lemma FailureShuts(s: System, e: Event, t: System, i: nat)
    requires StepTo(s, e, t) && !s.single && i < |s.ps| && FailsPeer(s, e, i)
    requires s.ps[i].fails + 1 >= s.ps[i].maxFails > 0
    ensures Shut(t, i, e.now)
  {
    NextFails(s, e, i);
    NextKeepsSettings(s, e, i);
  }

  lemma ProbeShuts(s: System, e: Event, t: System, i: nat)
    requires StepTo(s, e, t) && !s.single && i < |s.ps| && e.Get? && Picked(s, e) == [i]
    requires s.ps[i].fails >= s.ps[i].maxFails > 0 && s.ps[i].failTimeout >= 0
    ensures Shut(t, i, e.now)
  {
    PickedIsHealthy(s, e.r, e.now);
    GetChecked(s.ps, s.clients[e.r].rq, e.now, i);
    NextFails(s, e, i);
    NextKeepsSettings(s, e, i);
  }

  /** Once shut at step a, and untouched since, the peer is not picked for failTimeout. */
  lemma ShutRun(ss: seq<System>, es: seq<Event>, a: nat, n: nat, i: nat, t: int, r: nat, now: int)
    requires a <= n <= |es| < |ss| && Run(ss, es, n) && !ss[0].single && i < |ss[0].ps|
    requires ss[0].ps[i].failTimeout >= 0 && Shut(ss[a], i, t) && Untouched(ss, es, a, n, i)
    requires now - t <= ss[0].ps[i].failTimeout
    ensures NotGiven(ss[n], r, now, i)
  {
    ShutThrough(ss, es, a, n, i, t);
    ShutIsNotPicked(ss[n], r, now, i, t);
  }

  /** What the run has kept and counted up to step m. */
  lemma FailsAt(ss: seq<System>, es: seq<Event>, m: nat, n: nat, i: nat)
    requires m < n <= |es| < |ss| && Run(ss, es, n) && !ss[0].single && i < |ss[0].ps|
    ensures StepTo(ss[m], es[m], ss[m + 1]) && !ss[m].single
    ensures |ss[m].ps| == |ss[0].ps| && SameSettings(ss[0].ps[i], ss[m].ps[i])
    ensures NothingClears(ss, es, n, i) ==> ss[m].ps[i].fails == ss[0].ps[i].fails + FailedFrees(ss, es, m, i)
  {
    RunPart(ss, es, m, n);
    RunShape(ss, es, m);
    RunKeepsSettings(ss, es, m, i);
    if NothingClears(ss, es, n, i) {
      FailsCounted(ss, es, m, i);
    }
  }

  lemma ShutAfterFailure(ss: seq<System>, es: seq<Event>, m: nat, n: nat, i: nat)
    requires m < n <= |es| < |ss| && Run(ss, es, n) && !ss[0].single && i < |ss[0].ps|
    requires ss[0].ps[i].fails >= 0 && NothingClears(ss, es, n, i) && FailsPeer(ss[m], es[m], i)
    requires FailedFrees(ss, es, m, i) + 1 >= ss[0].ps[i].maxFails > 0
    ensures Shut(ss[m + 1], i, es[m].now)
  {
    FailsAt(ss, es, m, n, i);
    FailureShuts(ss[m], es[m], ss[m + 1], i);
  }

  /** With this event a request picks a peer that has failed too often. */
  ghost predicate Probes(s: System, e: Event, i: nat) {
    && e.Get? && Shape(s) && Enabled(s, e)
    && i < |s.ps| && s.ps[i].fails >= s.ps[i].maxFails > 0 && Picked(s, e) == [i]
  }

  lemma ShutAfterProbe(ss: seq<System>, es: seq<Event>, m: nat, n: nat, i: nat)
    requires m < n <= |es| < |ss| && Run(ss, es, n) && !ss[0].single && i < |ss[0].ps|
    requires ss[0].ps[i].failTimeout >= 0 && Probes(ss[m], es[m], i)
    ensures Shut(ss[m + 1], i, es[m].now)
  {
    FailsAt(ss, es, m, n, i);
    ProbeShuts(ss[m], es[m], ss[m + 1], i);
  }

  /** A peer that has failed maxFails times, with nothing clearing its failures, is not picked before failTimeout has
      passed since the last failure, at step m. */
  lemma FailedStaysOut(ss: seq<System>, es: seq<Event>, m: nat, n: nat, i: nat, r: nat, now: int)
    requires m < n <= |es| < |ss| && Run(ss, es, n) && !ss[0].single && i < |ss[0].ps|
    requires ss[0].ps[i].fails >= 0 && ss[0].ps[i].failTimeout >= 0
    requires NothingClears(ss, es, n, i) && FailedFrees(ss, es, m, i) + 1 >= ss[0].ps[i].maxFails > 0
    requires FailsPeer(ss[m], es[m], i) && Untouched(ss, es, m + 1, n, i)
    requires now - es[m].now <= ss[0].ps[i].failTimeout
    ensures NotGiven(ss[n], r, now, i)
  {
    ShutAfterFailure(ss, es, m, n, i);
    ShutRun(ss, es, m + 1, n, i, es[m].now, r, now);
  }

  /** Then one request may try the peer, at step m; until that one frees it there is no other for failTimeout. */
  lemma OneProbeAtATime(ss: seq<System>, es: seq<Event>, m: nat, n: nat, i: nat, r: nat, now: int)
    requires m < n <= |es| < |ss| && Run(ss, es, n) && !ss[0].single && i < |ss[0].ps|
    requires ss[0].ps[i].failTimeout >= 0 && Probes(ss[m], es[m], i) && Untouched(ss, es, m + 1, n, i)
    requires now - es[m].now <= ss[0].ps[i].failTimeout
    ensures NotGiven(ss[n], r, now, i)
  {
    ShutAfterProbe(ss, es, m, n, i);
    ShutRun(ss, es, m + 1, n, i, es[m].now, r, now);
  }
}
