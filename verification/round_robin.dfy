/** Smooth weighted round robin over upstream peers: choosing, freeing and notifying.
    The backup list is never linked by the set-up code, so a peer list has no successor here. */
module RoundRobin {
  import opened Wrappers
  import opened Sums
  import opened SmoothSchedule

  datatype Peer = Peer(
    name: string,
    currentWeight: int,
    effectiveWeight: int,
    weight: int,
    conns: int,
    maxConns: int,
    fails: int,
    accessed: int,
    checked: int,
    maxFails: int,
    failTimeout: int,
    down: bool)

  class PeerList {
    const number: nat
    const totalWeight: nat
    const single: bool
    const weighted: bool
    const name: string
    var peer: seq<Peer>

    constructor (number: nat, totalWeight: nat, single: bool, weighted: bool, name: string, peer: seq<Peer>)
      ensures this.number == number && this.totalWeight == totalWeight && this.single == single
      ensures this.weighted == weighted && this.name == name && this.peer == peer
    {
      this.number, this.totalWeight, this.single := number, totalWeight, single;
      this.weighted, this.name, this.peer := weighted, name, peer;
    }
  }

  /** What one request remembers between its calls. */
  class PeerData {
    const peers: PeerList
    var current: Option<nat>
    var tried: seq<bv64>

    constructor (peers: PeerList)
      ensures this.peers == peers && current == None && tried == FreshTried(|peers.peer|)
    {
      this.peers := peers;
      current := None;
      tried := FreshTried(|peers.peer|);
    }

    /** There is a `tried` word for every peer. */
    ghost predicate Fits()
      reads this, peers
    {
      |peers.peer| <= 64 * |tried| && (peers.single ==> |peers.peer| == 1)
    }
  }

  class Connection {
    var name: string
    var tries: nat

    constructor (tries: nat)
      ensures this.tries == tries
    {
      this.name, this.tries := "", tries;
    }
  }

  datatype Status = Ok | Busy

  // ----- the set of peers a request has tried -----

  /** uint64(1) << i: bits shifted out are lost. */
  function ShiftedOne(i: nat): bv64 {
    if i == 0 then 1 else ShiftedOne(i - 1) << 1
  }

  /** The mask of peer i. In Go `<<` and `%` bind equally and to the left, so 1 << i % 64 is (1 << i) % 64. */
  function Mask(i: nat): bv64 {
    ShiftedOne(i) % 64
  }

  function FreshTried(n: nat): seq<bv64> {
    seq(if n <= 64 then 1 else (n + 63) / 64, i => 0)
  }

  predicate Tried(tried: seq<bv64>, i: nat)
    requires i < 64 * |tried|
  {
    tried[i / 64] & Mask(i) == Mask(i)
  }

  function Mark(tried: seq<bv64>, i: nat): (t: seq<bv64>)
    requires i < 64 * |tried|
    ensures |t| == |tried|
  {
    tried[i / 64 := tried[i / 64] | Mask(i)]
  }

  lemma DoubleKeepsLowBitsClear(x: bv64)
    requires x % 64 == 0
    ensures (x << 1) % 64 == 0
  {
  }

  lemma {:induction false} ShiftedOneHigh(i: nat)
    requires i >= 6
    ensures ShiftedOne(i) % 64 == 0
  {
    if i == 6 {
      ShiftedOneLow();
    } else {
      ShiftedOneHigh(i - 1);
      DoubleKeepsLowBitsClear(ShiftedOne(i - 1));
    }
  }

  lemma ShiftedOneLow()
    ensures ShiftedOne(0) == 1 && ShiftedOne(1) == 2 && ShiftedOne(2) == 4 && ShiftedOne(3) == 8
    ensures ShiftedOne(4) == 16 && ShiftedOne(5) == 32 && ShiftedOne(6) == 64
  {
    assert ShiftedOne(3) == 8;
  }

  /** The masks the code computes: one bit for each of the first six peers, nothing for the others. */
  lemma MaskValue(i: nat)
    ensures i >= 6 ==> Mask(i) == 0
    ensures i < 6 ==> Mask(i) == [1 as bv64, 2, 4, 8, 16, 32][i]
  {
    if i >= 6 {
      ShiftedOneHigh(i);
    } else {
      ShiftedOneLow();
    }
  }

  /** From index 6 on every peer counts as tried before it has been. */
  lemma HighPeersAlwaysTried(tried: seq<bv64>, i: nat)
    requires 6 <= i < 64 * |tried|
    ensures Tried(tried, i)
  {
    MaskValue(i);
    assert tried[i / 64] & 0 == 0;
  }

  lemma FreshTriedExactly(n: nat, i: nat)
    requires i < 64 * |FreshTried(n)|
    ensures Tried(FreshTried(n), i) <==> i >= 6
  {
    MaskValue(i);
    assert 0 & Mask(i) == 0;
  }

  lemma TriedWord(w: bv64, p: nat, i: nat)
    requires p < 6 && i < 6
    ensures ((w | Mask(p)) & Mask(i) == Mask(i)) <==> (i == p || w & Mask(i) == Mask(i))
  {
    MaskValue(p);
    MaskValue(i);
  }

  lemma LowPeerMarked(tried: seq<bv64>, p: nat, i: nat)
    requires p < 6 && i < 6 && tried != []
    ensures Tried(Mark(tried, p), i) <==> (tried[0] | Mask(p)) & Mask(i) == Mask(i)
  {
    assert p / 64 == 0 && i / 64 == 0;
  }

  lemma LowMarkAddsOne(tried: seq<bv64>, p: nat, i: nat)
    requires p < 6 && i < 6 && tried != []
    ensures Tried(Mark(tried, p), i) <==> (i == p || Tried(tried, i))
  {
    LowPeerMarked(tried, p, i);
    TriedWord(tried[0], p, i);
    assert i / 64 == 0;
  }

  /** Marking one of the first six peers adds exactly that peer. */
  lemma MarkAddsOne(tried: seq<bv64>, p: nat, i: nat)
    requires p < 6 && p < 64 * |tried| && i < 64 * |tried|
    ensures Tried(Mark(tried, p), i) <==> (i == p || Tried(tried, i))
  {
    if i < 6 {
      LowMarkAddsOne(tried, p, i);
    } else {
      HighPeersAlwaysTried(tried, i);
      HighPeersAlwaysTried(Mark(tried, p), i);
    }
  }

  // ----- choosing a peer -----

  predicate Full(p: Peer) {
    p.maxConns > 0 && p.conns >= p.maxConns
  }

  predicate Usable(p: Peer, now: int) {
    && !p.down
    && !(p.maxFails > 0 && p.fails >= p.maxFails && now - p.checked <= p.failTimeout)
    && !Full(p)
  }

  function Eligible(ps: seq<Peer>, tried: seq<bv64>, now: int): (el: seq<bool>)
    requires |ps| <= 64 * |tried|
    ensures |el| == |ps|
  {
    seq(|ps|, i requires 0 <= i < |ps| => !Tried(tried, i) && Usable(ps[i], now))
  }

  function CurrentWeights(ps: seq<Peer>): (cw: seq<int>)
    ensures |cw| == |ps|
  {
    seq(|ps|, i requires 0 <= i < |ps| => ps[i].currentWeight)
  }

  /** What every peer gains in one scan. */
  function Gains(ps: seq<Peer>, el: seq<bool>): (g: seq<int>)
    requires |ps| == |el|
    ensures |g| == |ps|
  {
    seq(|ps|, i requires 0 <= i < |ps| => if el[i] then ps[i].effectiveWeight else 0)
  }

  function Accrue(p: Peer): Peer {
    p.(currentWeight := p.currentWeight + p.effectiveWeight,
       effectiveWeight := if p.effectiveWeight < p.weight then p.effectiveWeight + 1 else p.effectiveWeight)
  }

  function Charge(p: Peer, total: int, now: int): Peer {
    p.(currentWeight := p.currentWeight - total,
       checked := if now - p.checked > p.failTimeout then now else p.checked)
  }

  function AccrueFirst(ps: seq<Peer>, el: seq<bool>, n: nat): (r: seq<Peer>)
    requires n <= |ps| == |el|
    ensures |r| == |ps|
  {
    seq(|ps|, i requires 0 <= i < |ps| => if i < n && el[i] then Accrue(ps[i]) else ps[i])
  }

  function Choice(ps: seq<Peer>, el: seq<bool>): Option<nat>
    requires |ps| == |el|
  {
    Chosen(el, Gains(ps, el), CurrentWeights(ps))
  }

  /** The peers after one call of upstreamGetPeer. */
  function AfterPick(ps: seq<Peer>, el: seq<bool>, now: int): (r: seq<Peer>)
    requires |ps| == |el|
    ensures |r| == |ps|
    ensures forall i :: 0 <= i < |r| ==> r[i].weight == ps[i].weight
  {
    match Choice(ps, el)
    case None => ps
    case Some(b) =>
      var up := AccrueFirst(ps, el, |ps|);
      up[b := Charge(up[b], Sum(Gains(ps, el)), now)]
  }

  method UpstreamGetPeer(rrp: PeerData, now: int) returns (best: Option<nat>)
    requires rrp.Fits()
    modifies rrp, rrp.peers
    ensures var ps, el := old(rrp.peers.peer), old(Eligible(rrp.peers.peer, rrp.tried, now));
            && IsFirstMaximum(Raised(CurrentWeights(ps), Gains(ps, el)), el, |el|, best)
            && best == Choice(ps, el)
            && rrp.peers.peer == AfterPick(ps, el, now)
    ensures best.Some? ==> rrp.current == best && rrp.tried == Mark(old(rrp.tried), best.value)
    ensures best.None? ==> rrp.current == old(rrp.current) && rrp.tried == old(rrp.tried)
  {
    var peers := rrp.peers;
    ghost var ps, el := peers.peer, Eligible(peers.peer, rrp.tried, now);
    ghost var gains := Gains(ps, el);
    ghost var vals := Raised(CurrentWeights(ps), gains);
    var total := 0;
    best := None;
    for i := 0 to |peers.peer|
      invariant |peers.peer| == |ps|
      invariant peers.peer == AccrueFirst(ps, el, i)
      invariant rrp.tried == old(rrp.tried) && rrp.current == old(rrp.current)
      invariant total == Sum(gains[..i])
      invariant best == BestFirst(vals, el, i)
    {
      ScanStep(ps, el, i);
      var peer := peers.peer[i];
      if Tried(rrp.tried, i) || !Usable(peer, now) {
        continue;
      }
      total := total + peer.effectiveWeight;
      peer := Accrue(peer);
      peers.peer := peers.peer[i := peer];
      if best.None? || peer.currentWeight > peers.peer[best.value].currentWeight {
        best := Some(i);
      }
    }
    assert gains[..|ps|] == gains;
    ScanFindsMaximum(vals, el, |el|);
    if best.None? {
      return;
    }
    var p := best.value;
    rrp.current := best;
    rrp.tried := Mark(rrp.tried, p);
    peers.peer := peers.peer[p := Charge(peers.peer[p], total, now)];
  }

  lemma ScanStep(ps: seq<Peer>, el: seq<bool>, i: nat)
    requires i < |ps| == |el|
    ensures el[i] ==> AccrueFirst(ps, el, i + 1) == AccrueFirst(ps, el, i)[i := Accrue(ps[i])]
    ensures !el[i] ==> AccrueFirst(ps, el, i + 1) == AccrueFirst(ps, el, i)
    ensures Sum(Gains(ps, el)[..i + 1]) == Sum(Gains(ps, el)[..i]) + Gains(ps, el)[i]
  {
    assert Gains(ps, el)[..i + 1][..i] == Gains(ps, el)[..i];
  }

  // ----- getting, freeing and notifying -----

  /** The value a PeerData object holds. */
  datatype Request = Request(current: Option<nat>, tried: seq<bv64>)

  predicate Sized(single: bool, ps: seq<Peer>, rq: Request) {
    |ps| <= 64 * |rq.tried| && (single ==> |ps| == 1)
  }

  function Connected(ps: seq<Peer>, i: nat): (r: seq<Peer>)
    requires i < |ps|
    ensures |r| == |ps|
    ensures forall j :: 0 <= j < |r| ==> r[j].weight == ps[j].weight
  {
    ps[i := ps[i].(conns := ps[i].conns + 1)]
  }

  /** The peers, the request and the status after upstreamGetRoundRobinPeer. */
  function GetResult(single: bool, ps: seq<Peer>, rq: Request, now: int): (r: (seq<Peer>, Request, Status))
    requires Sized(single, ps, rq)
    ensures |r.0| == |ps| && |r.1.tried| == |rq.tried|
    ensures forall i :: 0 <= i < |ps| ==> r.0[i].weight == ps[i].weight
    ensures r.2.Ok? ==> r.1.current.Some? && r.1.current.value < |ps|
  {
    if single then
      if ps[0].down || Full(ps[0]) then (ps, rq, Busy) else (Connected(ps, 0), rq.(current := Some(0)), Ok)
    else
      var el := Eligible(ps, rq.tried, now);
      match Choice(ps, el)
      case None => (ps, rq, Busy)
      case Some(b) => (Connected(AfterPick(ps, el, now), b), Request(Some(b), Mark(rq.tried, b)), Ok)
  }

  method UpstreamGetRoundRobinPeer(pc: Connection, rrp: PeerData, now: int) returns (rc: Status)
    requires rrp.Fits()
    modifies pc, rrp, rrp.peers
    ensures (rrp.peers.peer, Request(rrp.current, rrp.tried), rc)
            == GetResult(rrp.peers.single, old(rrp.peers.peer), old(Request(rrp.current, rrp.tried)), now)
    ensures pc.tries == old(pc.tries)
    ensures rc.Busy? ==> pc.name == rrp.peers.name
    ensures rc.Ok? ==> && rrp.current.Some? && rrp.current.value < |rrp.peers.peer|
                       && pc.name == rrp.peers.peer[rrp.current.value].name
  {
    var peers := rrp.peers;
    var chosen := Some(0);
    if peers.single {
      if peers.peer[0].down || Full(peers.peer[0]) {
        pc.name := peers.name;
        return Busy;
      }
      rrp.current := chosen;
    } else {
      chosen := UpstreamGetPeer(rrp, now);
      if chosen.None? {
        pc.name := peers.name;
        return Busy;
      }
    }
    pc.name := peers.peer[chosen.value].name;
    peers.peer := Connected(peers.peer, chosen.value);
    return Ok;
  }

  /** One peer after upstreamFreeRoundRobinPeer. */
  function Released(single: bool, p: Peer, failed: bool, now: int): Peer {
    if single then p.(conns := p.conns - 1)
    else if failed then
      var ew := if p.maxFails > 0 then p.effectiveWeight - p.weight / p.maxFails else p.effectiveWeight;
      p.(fails := p.fails + 1, accessed := now, checked := now,
         effectiveWeight := if ew < 0 then 0 else ew, conns := p.conns - 1)
    else Checked(p).(conns := p.conns - 1)
  }

  /** A peer whose check has passed is live again. */
  function Checked(p: Peer): Peer {
    if p.accessed < p.checked then p.(fails := 0) else p
  }

  method UpstreamFreeRoundRobinPeer(pc: Connection, rrp: PeerData, failed: bool, now: int)
    requires rrp.current.Some? && rrp.current.value < |rrp.peers.peer|
    requires rrp.peers.peer[rrp.current.value].weight >= 0
    modifies pc, rrp.peers
    ensures var i := rrp.current.value;
            rrp.peers.peer == old(rrp.peers.peer)[i := Released(rrp.peers.single, old(rrp.peers.peer)[i], failed, now)]
    ensures pc.tries == if rrp.peers.single || old(pc.tries) == 0 then 0 else old(pc.tries) - 1
    ensures pc.name == old(pc.name)
  {
    var peers, i := rrp.peers, rrp.current.value;
    var peer := peers.peer[i];
    if peers.single {
      peers.peer := peers.peer[i := peer.(conns := peer.conns - 1)];
      pc.tries := 0;
      return;
    }
    if failed {
      peer := peer.(fails := peer.fails + 1, accessed := now, checked := now);
      if peer.maxFails > 0 {
        peer := peer.(effectiveWeight := peer.effectiveWeight - peer.weight / peer.maxFails);
      }
      if peer.effectiveWeight < 0 {
        peer := peer.(effectiveWeight := 0);
      }
    } else if peer.accessed < peer.checked {
      peer := peer.(fails := 0);
    }
    peers.peer := peers.peer[i := peer.(conns := peer.conns - 1)];
    if pc.tries > 0 {
      pc.tries := pc.tries - 1;
    }
  }

  const UPSTREAM_NOTIFY_CONNECT := 0x1

  method UpstreamNotifyRoundRobinPeer(rrp: PeerData, event: nat)
    requires rrp.current.Some? && rrp.current.value < |rrp.peers.peer|
    modifies rrp.peers
    ensures var i := rrp.current.value;
            rrp.peers.peer == if event == UPSTREAM_NOTIFY_CONNECT
                              then old(rrp.peers.peer)[i := Checked(old(rrp.peers.peer)[i])]
                              else old(rrp.peers.peer)
  {
    if event == UPSTREAM_NOTIFY_CONNECT {
      var peers, i := rrp.peers, rrp.current.value;
      if peers.peer[i].accessed < peers.peer[i].checked {
        peers.peer := peers.peer[i := peers.peer[i].(fails := 0)];
      }
    }
  }

  // ----- setting up the peers -----

  datatype Server = Server(name: string, addrs: seq<string>, weight: nat, maxConns: nat, maxFails: nat,
                           failTimeout: nat, down: bool, backup: bool)

  /** A peer as the set-up leaves it. */
  predicate Unused(p: Peer) {
    && p.weight >= 0 && p.currentWeight == 0 && p.effectiveWeight == p.weight
    && p.conns == 0 && p.fails == 0 && p.accessed == 0 && p.checked == 0
  }

  function NewPeer(s: Server, addr: string): Peer {
    Peer(addr, 0, s.weight, s.weight, 0, s.maxConns, 0, 0, 0, s.maxFails, s.failTimeout, s.down)
  }

  function PeersOf(s: Server): (ps: seq<Peer>)
    ensures |ps| == |s.addrs|
  {
    seq(|s.addrs|, j requires 0 <= j < |s.addrs| => NewPeer(s, s.addrs[j]))
  }

  /** One peer for every address of every server that is not a backup, in order. */
  function Primaries(servers: seq<Server>): seq<Peer> {
    if |servers| == 0 then []
    else
      var s := servers[|servers| - 1];
      Primaries(servers[..|servers| - 1]) + if s.backup then [] else PeersOf(s)
  }

  function Weights(ps: seq<Peer>): (w: seq<int>)
    ensures |w| == |ps|
  {
    seq(|ps|, i requires 0 <= i < |ps| => ps[i].weight)
  }

  lemma {:induction false} PrimariesUnused(servers: seq<Server>)
    ensures forall p :: p in Primaries(servers) ==> Unused(p)
  {
    if |servers| > 0 {
      PrimariesUnused(servers[..|servers| - 1]);
    }
  }

  /** How many peers the first n servers have. */
  function PeersBefore(servers: seq<Server>, n: nat): nat
    requires n <= |servers|
  {
    if n == 0 then 0 else PeersBefore(servers, n - 1) + if servers[n - 1].backup then 0 else |servers[n - 1].addrs|
  }

  /** Peer number `at` stands for an address of the server, with its settings. */
  predicate StandsFor(ps: seq<Peer>, at: nat, s: Server, addr: string) {
    && at < |ps| && ps[at].name == addr && ps[at].weight == s.weight && ps[at].maxConns == s.maxConns
    && ps[at].maxFails == s.maxFails && ps[at].failTimeout == s.failTimeout && ps[at].down == s.down
  }

  lemma LastServer(servers: seq<Server>, j: nat)
    requires |servers| > 0 && !servers[|servers| - 1].backup && j < |servers[|servers| - 1].addrs|
    ensures var s := servers[|servers| - 1];
            StandsFor(Primaries(servers), |Primaries(servers[..|servers| - 1])| + j, s, s.addrs[j])
  {
    var s, before := servers[|servers| - 1], Primaries(servers[..|servers| - 1]);
    assert Primaries(servers) == before + PeersOf(s);
    assert PeersOf(s)[j] == NewPeer(s, s.addrs[j]);
  }

  lemma EarlierServer(servers: seq<Server>, at: nat, s: Server, addr: string)
    requires |servers| > 0 && StandsFor(Primaries(servers[..|servers| - 1]), at, s, addr)
    ensures StandsFor(Primaries(servers), at, s, addr)
  {
  }

  /** The j-th address of a server that is no backup has its peer after those of the servers before, with the address
      for a name and the settings of the server. */
  lemma {:induction false} PeerOfAddress(servers: seq<Server>, k: nat, j: nat)
    requires k < |servers| && !servers[k].backup && j < |servers[k].addrs|
    ensures StandsFor(Primaries(servers), PeersBefore(servers, k) + j, servers[k], servers[k].addrs[j])
    decreases |servers|
  {
    var n := |servers| - 1;
    SameBefore(servers, n, k);
    if k < n {
      PeerOfAddress(servers[..n], k, j);
      EarlierServer(servers, PeersBefore(servers, k) + j, servers[k], servers[k].addrs[j]);
    } else {
      PeersCounted(servers[..n]);
      LastServer(servers, j);
    }
  }

  lemma {:induction false} SameBefore(servers: seq<Server>, n: nat, k: nat)
    requires k <= n <= |servers|
    ensures PeersBefore(servers[..n], k) == PeersBefore(servers, k)
    decreases k
  {
    if k > 0 {
      SameBefore(servers, n, k - 1);
    }
  }

  lemma {:induction false} PeersCounted(servers: seq<Server>)
    ensures |Primaries(servers)| == PeersBefore(servers, |servers|)
    decreases |servers|
  {
    if |servers| > 0 {
      var n := |servers| - 1;
      PeersCounted(servers[..n]);
      SameBefore(servers, n, n);
    }
  }

  lemma {:induction false} WeightsAppend(ps: seq<Peer>, qs: seq<Peer>, w: int)
    requires forall q :: q in qs ==> q.weight == w
    ensures Sum(Weights(ps + qs)) == Sum(Weights(ps)) + |qs| * w
  {
    if |qs| == 0 {
      assert ps + qs == ps;
    } else {
      var n := |qs| - 1;
      WeightsAppend(ps, qs[..n], w);
      assert ps + qs == (ps + qs[..n]) + [qs[n]];
      assert Weights(ps + qs)[..|ps| + n] == Weights(ps + qs[..n]);
      assert (n + 1) * w == n * w + w;
    }
  }

  /** The explicitly configured servers; null is the ERROR return for an upstream without primaries. */
  method UpstreamInitRoundRobin(host: string, servers: seq<Server>) returns (peers: PeerList?)
    requires servers != []
    ensures peers == null <==> Primaries(servers) == []
    ensures peers != null ==>
              && fresh(peers) && peers.name == host
              && peers.peer == Primaries(servers) && peers.number == |peers.peer|
              && peers.totalWeight == Sum(Weights(peers.peer))
              && (peers.weighted <==> Sum(Weights(peers.peer)) != |peers.peer|)
              && (peers.single <==> && |peers.peer| == 1
                                    && forall k :: 0 <= k < |servers| && servers[k].addrs != [] ==> !servers[k].backup)
  {
    var n, w := CountPrimaries(servers);
    if n == 0 {
      return null;
    }
    var peer := BuildPrimaries(servers);
    var backups: nat := 0;
    for i := 0 to |servers|
      invariant backups == 0 <==> forall k :: 0 <= k < i && servers[k].addrs != [] ==> !servers[k].backup
    {
      if servers[i].backup {
        backups := backups + |servers[i].addrs|;
      }
    }
    peers := new PeerList(n, w, n == 1 && backups == 0, w != n, host, peer);
  }

  /** n and w are the number and the total weight of the peers of the first i servers. */
  ghost predicate Counted(servers: seq<Server>, i: nat, n: nat, w: int)
    requires i <= |servers|
  {
    n == |Primaries(servers[..i])| && w == Sum(Weights(Primaries(servers[..i])))
  }

  lemma CountStep(servers: seq<Server>, i: nat, n: nat, w: int)
    requires i < |servers| && Counted(servers, i, n, w)
    ensures var s := servers[i];
            if s.backup then Counted(servers, i + 1, n, w)
            else Counted(servers, i + 1, n + |s.addrs|, w + |s.addrs| * s.weight)
  {
    PrimariesStep(servers, i);
  }

  lemma ProductOfNats(m: nat, n: nat)
    ensures m * n >= 0
  {
  }

  method CountPrimaries(servers: seq<Server>) returns (n: nat, w: nat)
    ensures n == |Primaries(servers)| && w == Sum(Weights(Primaries(servers)))
  {
    n, w := 0, 0;
    for i := 0 to |servers|
      invariant Counted(servers, i, n, w)
    {
      CountStep(servers, i, n, w);
      if servers[i].backup {
        continue;
      }
      ProductOfNats(|servers[i].addrs|, servers[i].weight);
      n := n + |servers[i].addrs|;
      w := w + |servers[i].addrs| * servers[i].weight;
    }
    assert servers[..|servers|] == servers;
  }

  method AppendPeers(peer0: seq<Peer>, server: Server) returns (peer: seq<Peer>)
    ensures peer == peer0 + PeersOf(server)
  {
    peer := peer0;
    for j := 0 to |server.addrs|
      invariant peer == peer0 + PeersOf(server)[..j]
    {
      assert PeersOf(server)[..j + 1] == PeersOf(server)[..j] + [PeersOf(server)[j]];
      peer := peer + [NewPeer(server, server.addrs[j])];
    }
    assert PeersOf(server)[..|server.addrs|] == PeersOf(server);
  }

  method BuildPrimaries(servers: seq<Server>) returns (peer: seq<Peer>)
    ensures peer == Primaries(servers)
  {
    peer := [];
    for i := 0 to |servers|
      invariant peer == Primaries(servers[..i])
    {
      PrimariesStep(servers, i);
      if servers[i].backup {
        continue;
      }
      peer := AppendPeers(peer, servers[i]);
    }
    assert servers[..|servers|] == servers;
  }

  lemma PrimariesStep(servers: seq<Server>, i: nat)
    requires i < |servers|
    ensures var s, before, after := servers[i], Primaries(servers[..i]), Primaries(servers[..i + 1]);
            if s.backup then after == before
            else && after == before + PeersOf(s) && |after| == |before| + |s.addrs|
                 && Sum(Weights(after)) == Sum(Weights(before)) + |s.addrs| * s.weight
  {
    var s := servers[i];
    assert servers[..i + 1][..i] == servers[..i];
    if !s.backup {
      WeightsAppend(Primaries(servers[..i]), PeersOf(s), s.weight);
    }
  }
}
