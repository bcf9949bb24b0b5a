/** Whole runs of the round-robin balancer: any number of requests, interleaved in any order. */
module RoundRobinRuns {
  import opened Wrappers
  import opened Sums
  import opened SmoothSchedule
  import opened RoundRobin

  /** A request, whether it holds a connection it must still free, and the peers it has been given. */
  datatype Client = Client(rq: Request, holding: bool, got: seq<nat>)

  datatype System = System(single: bool, ps: seq<Peer>, clients: map<nat, Client>)

  datatype Event =
    | Open(r: nat)
    | Get(r: nat, now: int)
    | Free(r: nat, failed: bool, now: int)
    | Notify(r: nat, event: nat)

  ghost predicate Shape(s: System) {
    && (s.single ==> |s.ps| == 1)
    && (forall i :: 0 <= i < |s.ps| ==> s.ps[i].weight >= 0)
    && (forall r :: r in s.clients ==>
          && Sized(s.single, s.ps, s.clients[r].rq)
          && (s.clients[r].holding ==>
                s.clients[r].rq.current.Some? && s.clients[r].rq.current.value < |s.ps|))
  }

  /** A request frees and notifies only what it holds, and asks again only after freeing. */
  ghost predicate Enabled(s: System, e: Event) {
    match e
    case Open(r) => r !in s.clients
    case Get(r, _) => r in s.clients && !s.clients[r].holding
    case Free(r, _, _) => r in s.clients && s.clients[r].holding
    case Notify(r, _) => r in s.clients && s.clients[r].holding
  }

  /** The state after a step and the peer it picked, if any. */
  ghost function Next(s: System, e: Event): (t: System)
    requires Shape(s) && Enabled(s, e)
    ensures Shape(t) && t.single == s.single && |t.ps| == |s.ps|
  {
    match e
    case Open(r) =>
      s.(clients := s.clients[r := Client(Request(None, FreshTried(|s.ps|)), false, [])])
    case Get(r, now) =>
      var c := s.clients[r];
      var (ps, rq, rc) := GetResult(s.single, s.ps, c.rq, now);
      if rc.Busy? then s.(ps := ps)
      else s.(ps := ps, clients := s.clients[r := Client(rq, true, c.got + [rq.current.value])])
    case Free(r, failed, now) =>
      var c := s.clients[r];
      var i := c.rq.current.value;
      s.(ps := s.ps[i := Released(s.single, s.ps[i], failed, now)],
         clients := s.clients[r := c.(holding := false)])
    case Notify(r, event) =>
      var i := s.clients[r].rq.current.value;
      if event == UPSTREAM_NOTIFY_CONNECT then s.(ps := s.ps[i := Checked(s.ps[i])]) else s
  }

  ghost function Picked(s: System, e: Event): seq<nat>
    requires Shape(s) && Enabled(s, e)
  {
    if e.Get? && GetResult(s.single, s.ps, s.clients[e.r].rq, e.now).2.Ok?
    then [GetResult(s.single, s.ps, s.clients[e.r].rq, e.now).1.current.value]
    else []
  }

  ghost predicate StepTo(s: System, e: Event, t: System) {
    Shape(s) && Enabled(s, e) && t == Next(s, e)
  }

  /** The first n of the events es lead through the states ss. */
  ghost predicate Run(ss: seq<System>, es: seq<Event>, n: nat)
    requires n <= |es| < |ss|
  {
    if n == 0 then Shape(ss[0]) else Run(ss, es, n - 1) && StepTo(ss[n - 1], es[n - 1], ss[n])
  }

  /** A run stays with the list it started with. */
  lemma {:induction false} RunShape(ss: seq<System>, es: seq<Event>, n: nat)
    requires n <= |es| < |ss| && Run(ss, es, n)
    ensures Shape(ss[0]) && Shape(ss[n]) && ss[n].single == ss[0].single && |ss[n].ps| == |ss[0].ps|
  {
    if n > 0 {
      RunShape(ss, es, n - 1);
    }
  }

  /** The peers picked by the first n events, in order. */
  ghost function PickedIn(ss: seq<System>, es: seq<Event>, n: nat): seq<nat>
    requires n <= |es| < |ss| && Run(ss, es, n)
  {
    if n == 0 then [] else PickedIn(ss, es, n - 1) + Picked(ss[n - 1], es[n - 1])
  }

  // ----- accounting -----

  ghost function Holders(s: System, i: nat): set<nat> {
    set r | r in s.clients && s.clients[r].holding && s.clients[r].rq.current == Some(i)
  }

  ghost predicate PeersInRange(ps: seq<Peer>) {
    forall i :: 0 <= i < |ps| ==> 0 <= ps[i].effectiveWeight <= ps[i].weight
  }

  /** conns counts the requests that hold the peer, and never exceeds a positive maxConns. */
  ghost predicate ConnsCounted(s: System) {
    forall i: nat :: i < |s.ps| ==>
                       && s.ps[i].conns == |Holders(s, i)|
                       && (s.ps[i].maxConns > 0 ==> s.ps[i].conns <= s.ps[i].maxConns)
  }

  ghost predicate Distinct(got: seq<nat>) {
    forall i, j :: 0 <= i < j < |got| ==> got[i] != got[j]
  }

  /** What a request got from a multi-peer list is marked as tried and was got once. */
  ghost predicate GotOnce(s: System)
    requires Shape(s)
  {
    !s.single ==>
      forall r :: r in s.clients ==>
                    && Distinct(s.clients[r].got)
                    && (forall j :: j in s.clients[r].got ==>
                                      j < 6 && j < |s.ps| && Tried(s.clients[r].rq.tried, j))
  }

  ghost predicate Accounted(s: System)
    requires Shape(s)
  {
    && Sum(CurrentWeights(s.ps)) == 0
    && PeersInRange(s.ps)
    && ConnsCounted(s)
    && GotOnce(s)
  }

  /** A system of unused peers and no requests. */
  ghost predicate Initial(s: System) {
    (s.single ==> |s.ps| == 1) && (forall i :: 0 <= i < |s.ps| ==> Unused(s.ps[i])) && s.clients == map[]
  }

  lemma InitialAccounted(s: System)
    requires Initial(s)
    ensures Shape(s) && Accounted(s)
  {
    assert forall i: nat :: Holders(s, i) == {};
    SumZeros(CurrentWeights(s.ps));
  }

  /** One scan is one spin of the currentWeight column. */
  lemma PickIsSpin(ps: seq<Peer>, el: seq<bool>, now: int)
    requires |ps| == |el|
    ensures CurrentWeights(AfterPick(ps, el, now)) == Spin(el, Gains(ps, el), CurrentWeights(ps))
  {
  }

  lemma ConnectedKeepsWeights(ps: seq<Peer>, i: nat)
    requires i < |ps|
    ensures CurrentWeights(Connected(ps, i)) == CurrentWeights(ps)
  {
  }

  lemma GetKeepsSum(single: bool, ps: seq<Peer>, rq: Request, now: int)
    requires Sized(single, ps, rq)
    ensures Sum(CurrentWeights(GetResult(single, ps, rq, now).0)) == Sum(CurrentWeights(ps))
  {
    if GetResult(single, ps, rq, now).2.Ok? {
      if single {
        ConnectedKeepsWeights(ps, 0);
      } else {
        var el := Eligible(ps, rq.tried, now);
        PickIsSpin(ps, el, now);
        SpinConserves(el, Gains(ps, el), CurrentWeights(ps));
        ConnectedKeepsWeights(AfterPick(ps, el, now), Choice(ps, el).value);
      }
    }
  }

  lemma NextKeepsSum(s: System, e: Event)
    requires Shape(s) && Enabled(s, e)
    ensures Sum(CurrentWeights(Next(s, e).ps)) == Sum(CurrentWeights(s.ps))
  {
    match e
    case Get(r, now) =>
      GetKeepsSum(s.single, s.ps, s.clients[r].rq, now);
    case _ =>
      assert CurrentWeights(Next(s, e).ps) == CurrentWeights(s.ps);
  }

  lemma ReleasedInRange(single: bool, p: Peer, failed: bool, now: int)
    requires 0 <= p.effectiveWeight <= p.weight
    ensures 0 <= Released(single, p, failed, now).effectiveWeight <= p.weight
    ensures Released(single, p, failed, now).weight == p.weight
  {
    if p.maxFails > 0 {
      assert p.weight / p.maxFails >= 0;
    }
  }

  lemma GetKeepsRange(single: bool, ps: seq<Peer>, rq: Request, now: int)
    requires Sized(single, ps, rq) && PeersInRange(ps)
    ensures PeersInRange(GetResult(single, ps, rq, now).0)
  {
    if !single {
      assert PeersInRange(AfterPick(ps, Eligible(ps, rq.tried, now), now));
    }
  }

  lemma NextKeepsRange(s: System, e: Event)
    requires Shape(s) && Enabled(s, e) && PeersInRange(s.ps)
    ensures PeersInRange(Next(s, e).ps)
  {
    match e
    case Get(r, now) =>
      GetKeepsRange(s.single, s.ps, s.clients[r].rq, now);
    case Free(r, failed, now) =>
      ReleasedInRange(s.single, s.ps[s.clients[r].rq.current.value], failed, now);
    case Open(r) =>
    case Notify(r, event) =>
  }

  lemma GetConns(single: bool, ps: seq<Peer>, rq: Request, now: int, i: nat)
    requires Sized(single, ps, rq) && i < |ps|
    ensures var (qs, rq', rc) := GetResult(single, ps, rq, now);
            && qs[i].maxConns == ps[i].maxConns
            && qs[i].conns == ps[i].conns + (if rc.Ok? && rq'.current.value == i then 1 else 0)
            && (rc.Ok? && rq'.current.value == i ==> !Full(ps[i]))
  {
  }

  /** conns and maxConns of peer i after a step. */
  lemma NextConns(s: System, e: Event, i: nat)
    requires Shape(s) && Enabled(s, e) && i < |s.ps|
    ensures Next(s, e).ps[i].maxConns == s.ps[i].maxConns
    ensures Next(s, e).ps[i].conns
            == s.ps[i].conns
               + (if Picked(s, e) == [i] then 1 else 0)
               - (if e.Free? && s.clients[e.r].rq.current == Some(i) then 1 else 0)
    ensures Picked(s, e) == [i] ==> !Full(s.ps[i])
  {
    match e
    case Get(r, now) =>
      GetConns(s.single, s.ps, s.clients[r].rq, now, i);
      assert Picked(s, e) != [] ==> (Picked(s, e)[0] == i <==> Picked(s, e) == [i]);
    case _ =>
  }

  lemma NextHolders(s: System, e: Event, i: nat)
    requires Shape(s) && Enabled(s, e) && i < |s.ps|
    ensures |Holders(Next(s, e), i)|
            == |Holders(s, i)|
               + (if Picked(s, e) == [i] then 1 else 0)
               - (if e.Free? && s.clients[e.r].rq.current == Some(i) then 1 else 0)
  {
    match e
    case Get(r, now) =>
      var (ps, rq, rc) := GetResult(s.single, s.ps, s.clients[r].rq, now);
      if rc.Ok? {
        var got := Picked(s, e);
        assert got[0] == i ==> got == [i];
        HoldersUpdate(s, ps, r, Client(rq, true, s.clients[r].got + [rq.current.value]), i);
      }
    case Free(r, failed, now) =>
      HoldersUpdate(s, Next(s, e).ps, r, s.clients[r].(holding := false), i);
    case Open(r) =>
      HoldersUpdate(s, s.ps, r, Client(Request(None, FreshTried(|s.ps|)), false, []), i);
    case Notify(r, event) =>
  }

  lemma SwitchedMember(before: set<nat>, after: set<nat>, r: nat, holds: bool)
    requires after == (before - {r}) + if holds then {r} else {}
    ensures |after| == |before| - (if r in before then 1 else 0) + (if holds then 1 else 0)
  {
  }

  lemma HoldersChange(s: System, ps: seq<Peer>, r: nat, c: Client, i: nat)
    ensures Holders(s.(ps := ps, clients := s.clients[r := c]), i)
            == (Holders(s, i) - {r}) + if c.holding && c.rq.current == Some(i) then {r} else {}
  {
  }

  lemma HoldersUpdate(s: System, ps: seq<Peer>, r: nat, c: Client, i: nat)
    ensures var t := s.(ps := ps, clients := s.clients[r := c]);
            |Holders(t, i)| == |Holders(s, i)|
                               - (if r in Holders(s, i) then 1 else 0)
                               + (if c.holding && c.rq.current == Some(i) then 1 else 0)
  {
    var t := s.(ps := ps, clients := s.clients[r := c]);
    HoldersChange(s, ps, r, c, i);
    SwitchedMember(Holders(s, i), Holders(t, i), r, c.holding && c.rq.current == Some(i));
  }

  lemma NextKeepsConns(s: System, e: Event)
    requires Shape(s) && Enabled(s, e) && ConnsCounted(s)
    ensures ConnsCounted(Next(s, e))
  {
    forall i: nat | i < |s.ps|
      ensures var p := Next(s, e).ps[i];
              p.conns == |Holders(Next(s, e), i)| && (p.maxConns > 0 ==> p.conns <= p.maxConns)
    {
      NextConns(s, e, i);
      NextHolders(s, e, i);
    }
  }

  /** A peer picked from a multi-peer list is one of the first six and was not tried before. */
  lemma PickedWasUntried(s: System, e: Event)
    requires Shape(s) && Enabled(s, e) && !s.single && Picked(s, e) != []
    ensures Picked(s, e)[0] < 6 && Picked(s, e)[0] < |s.ps|
    ensures !Tried(s.clients[e.r].rq.tried, Picked(s, e)[0])
    ensures Next(s, e).clients[e.r].rq.tried == Mark(s.clients[e.r].rq.tried, Picked(s, e)[0])
  {
    var b := Picked(s, e)[0];
    if b >= 6 {
      HighPeersAlwaysTried(s.clients[e.r].rq.tried, b);
    }
  }

  lemma NextKeepsGotOnce(s: System, e: Event)
    requires Shape(s) && Enabled(s, e) && GotOnce(s)
    ensures GotOnce(Next(s, e))
  {
    if !s.single && Picked(s, e) != [] {
      PickedWasUntried(s, e);
      var b := Picked(s, e)[0];
      var c := s.clients[e.r];
      forall j | j in c.got + [b]
        ensures j < 6 && j < |s.ps| && Tried(Mark(c.rq.tried, b), j)
      {
        MarkAddsOne(c.rq.tried, b, j);
      }
    }
  }

  /** Every step keeps the accounts. */
  lemma NextAccounted(s: System, e: Event)
    requires Shape(s) && Enabled(s, e) && Accounted(s)
    ensures Accounted(Next(s, e))
  {
    NextKeepsSum(s, e);
    NextKeepsRange(s, e);
    NextKeepsConns(s, e);
    NextKeepsGotOnce(s, e);
  }

  /** In every reachable state the currentWeights sum to zero and the accounts are right. */
  lemma {:induction false} ReachableAccounted(ss: seq<System>, es: seq<Event>, n: nat)
    requires n <= |es| < |ss| && Run(ss, es, n) && Initial(ss[0])
    ensures Shape(ss[n]) && Accounted(ss[n])
  {
    if n == 0 {
      InitialAccounted(ss[0]);
    } else {
      ReachableAccounted(ss, es, n - 1);
      NextAccounted(ss[n - 1], es[n - 1]);
    }
  }

  /** Peers from the seventh on are never picked from a multi-peer list, in any run from any state. */
  lemma {:induction false} HighPeersNeverPicked(ss: seq<System>, es: seq<Event>, n: nat)
    requires n <= |es| < |ss| && Run(ss, es, n) && !ss[0].single
    ensures forall b :: b in PickedIn(ss, es, n) ==> b < 6
  {
    if n > 0 {
      HighPeersNeverPicked(ss, es, n - 1);
      RunShape(ss, es, n - 1);
      if Picked(ss[n - 1], es[n - 1]) != [] {
        PickedWasUntried(ss[n - 1], es[n - 1]);
      }
    }
  }
}
