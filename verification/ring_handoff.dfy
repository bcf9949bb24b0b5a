/** The ring-buffer thread pool: an acceptor puts connections into a ring of MAX_THREADS slots under one
    mutex and signals; workers wait while the ring looks empty. */
module FdRing {

  const MAX_THREADS := 128

  /** The indices wrap lazily: MAX_THREADS is reset to 0 only when the index is used next. */
  datatype Ring = Ring(fds: seq<int>, iget: nat, iput: nat)

  /** The put index stands at 0 only before the first put. */
  predicate Valid(r: Ring) {
    && |r.fds| == MAX_THREADS && r.iget <= MAX_THREADS && r.iput <= MAX_THREADS
    && (r.iput == 0 ==> r.iget == 0)
  }

  /** The connections in the ring, oldest first. */
  function Contents(r: Ring): seq<int>
    requires Valid(r)
  {
    if r.iget <= r.iput then r.fds[r.iget..r.iput] else r.fds[r.iget..] + r.fds[..r.iput]
  }

  function Wrap(i: nat): nat {
    if i == MAX_THREADS then 0 else i
  }

  function Put(r: Ring, fd: int): (t: Ring)
    requires Valid(r)
    ensures Valid(t)
  {
    Ring(r.fds[Wrap(r.iput) := fd], r.iget, Wrap(r.iput) + 1)
  }

  function Get(r: Ring): (t: (Ring, int))
    requires Valid(r) && r.iput != r.iget
    ensures Valid(t.0)
  {
    (r.(iget := Wrap(r.iget) + 1), r.fds[Wrap(r.iget)])
  }

  /** The ring can take one more connection: the put index does not run into the get index. */
  predicate Room(r: Ring) {
    Wrap(r.iput) + 1 != r.iget && !(r.iget == 0 && r.iput == MAX_THREADS)
  }

  lemma EmptyIffIndicesMeet(r: Ring)
    requires Valid(r)
    ensures Contents(r) == [] <==> r.iput == r.iget
  {
    if r.iget > r.iput {
      assert |Contents(r)| == MAX_THREADS - r.iget + r.iput;
    }
  }

  /** What Room means: fewer than 127 pending, or 127 before the first get ever. */
  lemma RoomMeans(r: Ring)
    requires Valid(r)
    ensures Room(r) <==> (|Contents(r)| < MAX_THREADS - 1 || (r.iget == 0 && |Contents(r)| == MAX_THREADS - 1))
  {
  }

  /** A put appends exactly when there is room; without room every pending connection is lost. */
  lemma PutAppendsIffRoom(r: Ring, fd: int)
    requires Valid(r)
    ensures Contents(Put(r, fd)) == Contents(r) + [fd] <==> Room(r)
    ensures !Room(r) ==> Contents(Put(r, fd)) == if r.iget == 0 then [fd] else []
  {
    var t := Put(r, fd);
    if Room(r) {
      if r.iput == MAX_THREADS {
        assert Contents(t) == Contents(r) + [fd];
      } else if r.iget <= r.iput {
        assert r.fds[r.iget..r.iput] == t.fds[r.iget..r.iput];
        assert Contents(t) == Contents(r) + [fd];
      } else {
        assert t.fds[r.iget..] == r.fds[r.iget..];
        assert t.fds[..r.iput + 1] == r.fds[..r.iput] + [fd];
        assert Contents(t) == Contents(r) + [fd];
      }
    } else {
      assert |Contents(r)| >= 1;
      assert |Contents(t)| <= 1;
    }
  }

  lemma GetTakesOldest(r: Ring)
    requires Valid(r) && r.iput != r.iget
    ensures Contents(r) != [] && Contents(r)[0] == Get(r).1 && Contents(Get(r).0) == Contents(r)[1..]
  {
  }

  class Fds {
    const fds: array<int>
    var iget: nat
    var iput: nat

    constructor ()
      ensures fds.Length == MAX_THREADS && fresh(fds) && Model() == Ring(seq(MAX_THREADS, i => 0), 0, 0)
    {
      fds := new int[MAX_THREADS](i => 0);
      iget, iput := 0, 0;
      new;
      assert fds[..] == seq(MAX_THREADS, i => 0);
    }

    ghost function Model(): Ring
      reads this, fds
    {
      Ring(fds[..], iget, iput)
    }

    /** The acceptor's critical section. */
    method PutSock(connfd: int)
      requires Valid(Model())
      modifies this, fds
      ensures Model() == Put(old(Model()), connfd)
    {
      if iput == MAX_THREADS {
        iput := 0;
      }
      fds[iput] := connfd;
      iput := iput + 1;
    }

    /** The worker's critical section, once the ring no longer looks empty. */
    method GetSock() returns (connfd: int)
      requires Valid(Model()) && iput != iget
      modifies this
      ensures (Model(), connfd) == Get(old(Model()))
    {
      if iget == MAX_THREADS {
        iget := 0;
      }
      connfd := fds[iget];
      iget := iget + 1;
    }
  }
}

/** The threads around the ring. One step is one statement of one thread; a blocked worker may also
    wake up without having been signalled. */
module RingHandoff {
  import opened Numbers
  import opened Wrappers
  import opened Sums
  import opened PoolThreads
  import opened FdRing

  datatype WorkerPc = WLock | WTest | WAsleep | WWoken | WGet | WUnlock | WProcess

  datatype MainPc = MAccept | MLock | MPut | MSignal | MUnlock | MStopped

  datatype Worker = Worker(pc: WorkerPc, connfd: int)

  datatype State = State(
    owner: Option<Thread>,
    ring: Ring,
    workers: seq<Worker>,
    main: MainPc,
    mainFd: int,
    accepted: seq<int>,
    taken: seq<int>,
    processed: seq<int>)

  datatype Event =
    | Accept(fd: int)                 // accept() returns; -1 ends the acceptor
    | MainRuns
    | MainSignals(woken: Option<nat>) // pthread_cond_signal unblocks one blocked worker, if there is one
    | WorkerRuns(i: nat)
    | WorkerSpurious(i: nat)

  function Threads(requested: int): nat {
    if requested <= 0 || requested > MAX_THREADS then MAX_THREADS else requested
  }

  function Init(requested: int): State {
    State(None, Ring(seq(MAX_THREADS, i => 0), 0, 0), seq(Threads(requested), i => Worker(WLock, -1)),
          MAccept, -1, [], [], [])
  }

  ghost predicate SomeAsleep(s: State) {
    exists i :: 0 <= i < |s.workers| && s.workers[i].pc.WAsleep?
  }

  ghost predicate Enabled(s: State, e: Event) {
    match e
    case Accept(_) => s.main.MAccept?
    case MainRuns =>
      && (match s.main
          case MLock => s.owner == None
          case MPut | MUnlock => true
          case _ => false)
    case MainSignals(w) =>
      && s.main.MSignal?
      && (match w
          case Some(i) => i < |s.workers| && s.workers[i].pc.WAsleep?
          case None => !SomeAsleep(s))
    case WorkerRuns(i) =>
      && i < |s.workers|
      && (match s.workers[i].pc
          case WLock | WWoken => s.owner == None
          case WAsleep => false
          case _ => true)
    case WorkerSpurious(i) => i < |s.workers| && s.workers[i].pc.WAsleep?
  }

  ghost predicate Ready(s: State) {
    Valid(s.ring) && forall i :: 0 <= i < |s.workers| && s.workers[i].pc.WGet? ==> s.ring.iput != s.ring.iget
  }

  function At(s: State, i: nat, pc: WorkerPc): (t: State)
    requires i < |s.workers|
  {
    s.(workers := s.workers[i := s.workers[i].(pc := pc)])
  }

  ghost function WorkerNext(s: State, i: nat): (t: State)
    requires i < |s.workers| && Ready(s)
  {
    match s.workers[i].pc
    case WLock | WWoken => At(s, i, WTest).(owner := Some(Pool(i)))
    case WTest => if s.ring.iput == s.ring.iget then At(s, i, WAsleep).(owner := None) else At(s, i, WGet)
    case WGet =>
      var (ring, fd) := Get(s.ring);
      s.(ring := ring, workers := s.workers[i := Worker(WUnlock, fd)], taken := s.taken + [fd])
    case WUnlock => At(s, i, WProcess).(owner := None)
    case WProcess => At(s, i, WLock).(processed := s.processed + [s.workers[i].connfd])
    case WAsleep => s
  }

  ghost function MainNext(s: State): State
    requires Ready(s)
  {
    match s.main
    case MLock => s.(main := MPut, owner := Some(Acceptor))
    case MPut => s.(main := MSignal, ring := Put(s.ring, s.mainFd))
    case MUnlock => s.(main := MAccept, owner := None)
    case _ => s
  }

  ghost function Next(s: State, e: Event): State
    requires Enabled(s, e) && Ready(s)
  {
    match e
    case Accept(fd) =>
      if fd == -1 then s.(main := MStopped)
      else s.(main := MLock, mainFd := fd, accepted := s.accepted + [fd])
    case MainRuns => MainNext(s)
    case MainSignals(w) =>
      var t := s.(main := MUnlock);
      if w.Some? then At(t, w.value, WWoken) else t
    case WorkerRuns(i) => WorkerNext(s, i)
    case WorkerSpurious(i) => At(s, i, WWoken)
  }

  /** The acceptor never puts into a full ring; the code does not check this. */
  ghost predicate RoomIfPut(s: State, e: Event) {
    e.MainRuns? && s.main.MPut? ==> Room(s.ring)
  }

  /** The first n of the events es lead through the states ss, and every put finds room. */
  ghost predicate Run(ss: seq<State>, es: seq<Event>, n: nat)
    requires n <= |es| < |ss|
  {
    n == 0 || (&& Run(ss, es, n - 1) && Enabled(ss[n - 1], es[n - 1]) && RoomIfPut(ss[n - 1], es[n - 1])
               && Ready(ss[n - 1]) && ss[n] == Next(ss[n - 1], es[n - 1]))
  }

  // ----- what every step keeps -----

  predicate Inside(pc: WorkerPc) {
    pc.WTest? || pc.WGet? || pc.WUnlock?
  }

  predicate MainInside(pc: MainPc) {
    pc.MPut? || pc.MSignal? || pc.MUnlock?
  }

  /** The owner of the mutex, and nobody else, is between its lock and its unlock. */
  ghost predicate Mutex(s: State) {
    && (s.owner == Some(Acceptor) <==> MainInside(s.main))
    && (forall i: nat :: i < |s.workers| ==> (s.owner == Some(Pool(i)) <==> Inside(s.workers[i].pc)))
    && (s.owner.Some? && s.owner.value.Pool? ==> s.owner.value.i < |s.workers|)
  }

  /** The accepted connection that the acceptor has not put into the ring yet. */
  function InMain(s: State): seq<int> {
    match s.main
    case MLock | MPut => [s.mainFd]
    case _ => []
  }

  /** Connections leave in the order they arrived: none is lost, duplicated, overwritten or reordered. */
  ghost predicate Fifo(s: State) {
    Valid(s.ring) && s.accepted == s.taken + Contents(s.ring) + InMain(s)
  }

  function AwakeFlag(w: Worker): int {
    if w.pc.WAsleep? then 0 else 1
  }

  function AwakeFlags(ws: seq<Worker>): (f: seq<int>)
    ensures |f| == |ws|
  {
    seq(|ws|, i requires 0 <= i < |ws| => AwakeFlag(ws[i]))
  }

  /** Pending connections whose signal has gone out. */
  function Announced(s: State): int
    requires Valid(s.ring)
  {
    |Contents(s.ring)| - if s.main.MSignal? then 1 else 0
  }

  /** At least as many workers are awake as there are announced connections, or all of them. */
  ghost predicate EnoughAwake(s: State) {
    && Valid(s.ring)
    && Sum(AwakeFlags(s.workers)) >= Min(Announced(s), |s.workers|)
  }

  /** The connection a worker has taken and not yet processed. */
  function Hand(w: Worker): Option<int> {
    match w.pc
    case WUnlock | WProcess => Some(w.connfd)
    case _ => None
  }

  function Hands(ws: seq<Worker>): (h: seq<Option<int>>)
    ensures |h| == |ws|
  {
    seq(|ws|, i requires 0 <= i < |ws| => Hand(ws[i]))
  }

  ghost predicate Processed(s: State) {
    ProcessedOnce(s.taken, s.processed, Hands(s.workers))
  }

  ghost predicate Inv(s: State) {
    && |s.workers| >= 1
    && Mutex(s) && Ready(s) && Fifo(s) && EnoughAwake(s) && Processed(s)
  }

  lemma AwakeUpdate(ws: seq<Worker>, i: nat, w: Worker)
    requires i < |ws|
    ensures Sum(AwakeFlags(ws[i := w])) == Sum(AwakeFlags(ws)) - AwakeFlag(ws[i]) + AwakeFlag(w)
  {
    SumUpdate(AwakeFlags(ws), i, AwakeFlag(w));
    assert AwakeFlags(ws[i := w]) == AwakeFlags(ws)[i := AwakeFlag(w)];
  }

  lemma {:induction false} AwakeBounds(ws: seq<Worker>)
    ensures 0 <= Sum(AwakeFlags(ws)) <= |ws|
    ensures (forall i :: 0 <= i < |ws| ==> !ws[i].pc.WAsleep?) ==> Sum(AwakeFlags(ws)) == |ws|
    ensures (forall i :: 0 <= i < |ws| ==> ws[i].pc.WAsleep?) ==> Sum(AwakeFlags(ws)) == 0
  {
    if |ws| > 0 {
      AwakeBounds(ws[..|ws| - 1]);
      assert AwakeFlags(ws)[..|ws| - 1] == AwakeFlags(ws[..|ws| - 1]);
    }
  }

  lemma InitInv(requested: int)
    ensures Inv(Init(requested))
    ensures |Init(requested).workers| == if requested <= 0 || requested > 128 then 128 else requested
  {
    var s := Init(requested);
    NothingHeld(Hands(s.workers));
    AwakeBounds(s.workers);
  }

  lemma NextMutex(s: State, e: Event)
    requires Mutex(s) && Ready(s) && Enabled(s, e)
    ensures Mutex(Next(s, e))
  {
    match e
    case WorkerRuns(i) =>
      WorkerMutex(s, i);
    case _ =>
  }

  lemma WorkerMutex(s: State, i: nat)
    requires Mutex(s) && Ready(s) && Enabled(s, WorkerRuns(i))
    ensures Mutex(WorkerNext(s, i))
  {
  }

  lemma NextReady(s: State, e: Event)
    requires Mutex(s) && Ready(s) && Enabled(s, e)
    ensures Ready(Next(s, e))
  {
  }

  lemma MainFifo(s: State)
    requires Mutex(s) && Ready(s) && Fifo(s) && RoomIfPut(s, MainRuns)
    ensures Fifo(MainNext(s))
    ensures s.main.MPut? ==> Contents(MainNext(s).ring) == Contents(s.ring) + [s.mainFd]
  {
    if s.main.MPut? {
      PutAppendsIffRoom(s.ring, s.mainFd);
      assert s.taken + Contents(s.ring) + [s.mainFd] == s.taken + (Contents(s.ring) + [s.mainFd]) + [];
    }
  }

  lemma GetFifo(s: State, i: nat)
    requires Ready(s) && Fifo(s) && i < |s.workers| && s.workers[i].pc.WGet?
    ensures Fifo(WorkerNext(s, i))
    ensures |Contents(WorkerNext(s, i).ring)| == |Contents(s.ring)| - 1
  {
    GetTakesOldest(s.ring);
    MoveHead(s.taken, Contents(s.ring), InMain(s));
  }

  lemma MoveHead(taken: seq<int>, c: seq<int>, rest: seq<int>)
    requires c != []
    ensures taken + c + rest == (taken + [c[0]]) + c[1..] + rest
  {
    assert c == [c[0]] + c[1..];
  }

  lemma WorkerFifo(s: State, i: nat)
    requires Ready(s) && Fifo(s) && Enabled(s, WorkerRuns(i))
    ensures Fifo(WorkerNext(s, i))
    ensures s.workers[i].pc.WGet? ==> |Contents(WorkerNext(s, i).ring)| == |Contents(s.ring)| - 1
    ensures !s.workers[i].pc.WGet? ==> WorkerNext(s, i).ring == s.ring
  {
    if s.workers[i].pc.WGet? {
      GetFifo(s, i);
    }
  }

  lemma NextFifo(s: State, e: Event)
    requires Mutex(s) && Ready(s) && Fifo(s) && Enabled(s, e) && RoomIfPut(s, e)
    ensures Fifo(Next(s, e))
  {
    match e
    case Accept(fd) =>
      if fd != -1 {
        assert Next(s, e).accepted == s.taken + Contents(s.ring) + [fd];
      }
    case WorkerRuns(i) =>
      WorkerFifo(s, i);
    case MainRuns =>
      MainFifo(s);
    case _ =>
  }

  lemma WorkerAwake(s: State, i: nat)
    requires Mutex(s) && Ready(s) && Fifo(s) && EnoughAwake(s) && Enabled(s, WorkerRuns(i))
    ensures EnoughAwake(WorkerNext(s, i))
  {
    var t := WorkerNext(s, i);
    WorkerFifo(s, i);
    AwakeUpdate(s.workers, i, t.workers[i]);
    assert t.workers == s.workers[i := t.workers[i]];
    EmptyIffIndicesMeet(s.ring);
    AwakeBounds(t.workers);
  }

  lemma SignalAwake(s: State, w: Option<nat>)
    requires Ready(s) && EnoughAwake(s) && Enabled(s, MainSignals(w))
    ensures EnoughAwake(Next(s, MainSignals(w)))
  {
    if w.Some? {
      AwakeUpdate(s.workers, w.value, s.workers[w.value].(pc := WWoken));
    } else {
      AwakeBounds(s.workers);
    }
  }

  lemma NextAwake(s: State, e: Event)
    requires Mutex(s) && Ready(s) && Fifo(s) && EnoughAwake(s) && Enabled(s, e) && RoomIfPut(s, e)
    ensures EnoughAwake(Next(s, e))
  {
    match e
    case WorkerRuns(i) =>
      WorkerAwake(s, i);
    case MainSignals(w) =>
      SignalAwake(s, w);
    case WorkerSpurious(i) =>
      AwakeUpdate(s.workers, i, s.workers[i].(pc := WWoken));
    case MainRuns =>
      MainFifo(s);
    case Accept(_) =>
  }

  lemma HandsUpdate(ws: seq<Worker>, i: nat, w: Worker)
    requires i < |ws|
    ensures Hands(ws[i := w]) == Hands(ws)[i := Hand(w)]
  {
  }

  lemma SameHand(ws: seq<Worker>, i: nat, w: Worker)
    requires i < |ws| && Hand(w) == Hand(ws[i])
    ensures Hands(ws[i := w]) == Hands(ws)
  {
  }

  lemma GetProcessed(s: State, i: nat)
    requires Processed(s) && Ready(s) && i < |s.workers| && s.workers[i].pc.WGet?
    ensures Processed(WorkerNext(s, i))
  {
    var fd := Get(s.ring).1;
    var ws := s.workers[i := Worker(WUnlock, fd)];
    HandsUpdate(s.workers, i, ws[i]);
    TakeBalances(s.taken, s.processed, Hands(s.workers), i, fd, Hands(ws));
  }

  lemma ProcessProcessed(s: State, i: nat)
    requires Processed(s) && Ready(s) && i < |s.workers| && s.workers[i].pc.WProcess?
    ensures Processed(WorkerNext(s, i))
  {
    var ws := s.workers[i := s.workers[i].(pc := WLock)];
    HandsUpdate(s.workers, i, ws[i]);
    ProcessBalances(s.taken, s.processed, Hands(s.workers), i, s.workers[i].connfd, Hands(ws));
  }

  lemma WorkerProcessed(s: State, i: nat)
    requires Processed(s) && Ready(s) && i < |s.workers|
    ensures Processed(WorkerNext(s, i))
  {
    match s.workers[i].pc
    case WGet =>
      GetProcessed(s, i);
    case WProcess =>
      ProcessProcessed(s, i);
    case _ =>
      var t := WorkerNext(s, i);
      SameHand(s.workers, i, t.workers[i]);
      assert t.workers == s.workers[i := t.workers[i]];
  }

  lemma NextProcessed(s: State, e: Event)
    requires Processed(s) && Ready(s) && Enabled(s, e)
    ensures Processed(Next(s, e))
  {
    match e
    case WorkerRuns(i) =>
      WorkerProcessed(s, i);
    case MainSignals(w) =>
      if w.Some? {
        SameHand(s.workers, w.value, s.workers[w.value].(pc := WWoken));
      }
    case WorkerSpurious(i) =>
      SameHand(s.workers, i, s.workers[i].(pc := WWoken));
    case _ =>
  }

  lemma NextControl(s: State, e: Event)
    requires |s.workers| >= 1 && Mutex(s) && Ready(s) && Fifo(s) && EnoughAwake(s)
    requires Enabled(s, e) && RoomIfPut(s, e)
    ensures var t := Next(s, e); |t.workers| == |s.workers| && Mutex(t) && Ready(t) && EnoughAwake(t)
  {
    NextMutex(s, e);
    NextReady(s, e);
    NextAwake(s, e);
  }

  lemma NextInv(s: State, e: Event)
    requires Inv(s) && Enabled(s, e) && RoomIfPut(s, e)
    ensures Inv(Next(s, e))
  {
    NextControl(s, e);
    NextFifo(s, e);
    NextProcessed(s, e);
  }

  /** Every state reachable while the puts find room: mutual exclusion, FIFO, enough workers awake,
      processing exactly once. */
  lemma {:induction false} ReachableInv(requested: int, ss: seq<State>, es: seq<Event>, n: nat)
    requires n <= |es| < |ss| && Run(ss, es, n) && ss[0] == Init(requested)
    ensures Inv(ss[n])
  {
    if n == 0 {
      InitInv(requested);
    } else {
      ReachableInv(requested, ss, es, n - 1);
      NextInv(ss[n - 1], es[n - 1]);
    }
  }

  /** A put into a ring without room loses every pending connection, in any reachable state. */
  lemma OverrunLoses(s: State)
    requires Inv(s) && s.main.MPut? && !Room(s.ring)
    ensures !Fifo(MainNext(s)) && |Contents(s.ring)| >= MAX_THREADS - 1
    ensures Contents(MainNext(s).ring) == [] || Contents(MainNext(s).ring) == [s.mainFd]
  {
    PutAppendsIffRoom(s.ring, s.mainFd);
    RoomMeans(s.ring);
    assert |s.accepted| == |s.taken| + |Contents(s.ring)| + 1;
  }

  /** The acceptor does not look for room: a step keeps the order of connections exactly when a put finds room. */
  lemma FifoIffRoom(s: State, e: Event)
    requires Inv(s) && Enabled(s, e)
    ensures Fifo(Next(s, e)) <==> RoomIfPut(s, e)
  {
    if RoomIfPut(s, e) {
      NextFifo(s, e);
    } else {
      OverrunLoses(s);
    }
  }

  // ----- the ring can fill up -----

  lemma {:induction false} RunPrefix(ss: seq<State>, es: seq<Event>, s: State, e: Event, n: nat)
    requires n <= |es| < |ss| && Run(ss, es, n)
    ensures Run(ss + [s], es + [e], n)
  {
    if n > 0 {
      RunPrefix(ss, es, s, e, n - 1);
    }
  }

  /** A run goes on with any enabled event. */
  lemma Extend(ss: seq<State>, es: seq<Event>, e: Event) returns (ss': seq<State>, es': seq<Event>)
    requires |ss| == |es| + 1 && Run(ss, es, |es|)
    requires Ready(ss[|es|]) && Enabled(ss[|es|], e) && RoomIfPut(ss[|es|], e)
    ensures |es'| == |es| + 1 && |ss'| == |es'| + 1 && Run(ss', es', |es'|)
    ensures ss'[0] == ss[0] && ss'[|es'|] == Next(ss[|es|], e)
  {
    var s := Next(ss[|es|], e);
    ss', es' := ss + [s], es + [e];
    RunPrefix(ss, es, s, e, |es|);
  }

  /** The acceptor has put k connections into the ring, and no worker has been scheduled. */
  ghost predicate Loaded(s: State, k: nat) {
    && |s.ring.fds| == MAX_THREADS && s.ring.iget == 0 && s.ring.iput == k <= MAX_THREADS
    && s.owner == None && s.main.MAccept? && (forall i :: 0 <= i < |s.workers| ==> s.workers[i].pc.WLock?)
  }

  lemma LoadOne(ss: seq<State>, es: seq<Event>, k: nat, fd: int) returns (ss': seq<State>, es': seq<Event>)
    requires |ss| == |es| + 1 && Run(ss, es, |es|) && Loaded(ss[|es|], k) && k < MAX_THREADS && fd != -1
    ensures |ss'| == |es'| + 1 && Run(ss', es', |es'|) && Loaded(ss'[|es'|], k + 1) && ss'[0] == ss[0]
  {
    ss', es' := Extend(ss, es, Accept(fd));
    ss', es' := Extend(ss', es', MainRuns);
    ss', es' := Extend(ss', es', MainRuns);
    ss', es' := Extend(ss', es', MainSignals(None));
    ss', es' := Extend(ss', es', MainRuns);
  }

  lemma {:induction false} Load(requested: int, k: nat) returns (ss: seq<State>, es: seq<Event>)
    requires k <= MAX_THREADS
    ensures |ss| == |es| + 1 && Run(ss, es, |es|) && Loaded(ss[|es|], k) && ss[0] == Init(requested)
  {
    if k == 0 {
      ss, es := [Init(requested)], [];
    } else {
      ss, es := Load(requested, k - 1);
      ss, es := LoadOne(ss, es, k - 1, k);
    }
  }

  /** With any number of workers there is a run, all its puts with room, after which the acceptor is about to put
      into a full ring. */
  lemma OverrunReachable(requested: int) returns (ss: seq<State>, es: seq<Event>, n: nat)
    ensures n <= |es| < |ss| && Run(ss, es, n) && ss[0] == Init(requested)
    ensures Inv(ss[n]) && ss[n].main.MPut? && !Room(ss[n].ring) && Enabled(ss[n], MainRuns)
    ensures !Fifo(Next(ss[n], MainRuns))
  {
    ss, es := Load(requested, MAX_THREADS);
    ss, es := Extend(ss, es, Accept(0));
    ss, es := Extend(ss, es, MainRuns);
    n := |es|;
    ReachableInv(requested, ss, es, n);
    FifoIffRoom(ss[n], MainRuns);
  }

  // ----- progress -----

  /** The steps that threads take on their own: nothing new arrives and nobody wakes up unsignalled. */
  predicate Quiet(e: Event) {
    e.MainRuns? || e.MainSignals? || e.WorkerRuns?
  }

  ghost predicate Stuck(s: State) {
    forall e :: Enabled(s, e) ==> !Quiet(e)
  }

  /** Nothing is left to do: every thread waits, every accepted connection has been taken, in order, and processed
      once. */
  ghost predicate Idle(s: State) {
    && (forall i :: 0 <= i < |s.workers| ==> s.workers[i].pc.WAsleep?)
    && (s.main.MAccept? || s.main.MStopped?)
    && s.taken == s.accepted && multiset(s.processed) == multiset(s.accepted)
  }

  lemma SignalEnabled(s: State) returns (w: Option<nat>)
    requires s.main.MSignal?
    ensures Enabled(s, MainSignals(w))
  {
    if i: nat :| i < |s.workers| && s.workers[i].pc.WAsleep? {
      w := Some(i);
    } else {
      w := None;
    }
  }

  lemma StuckOutside(s: State)
    requires Inv(s) && Stuck(s)
    ensures s.owner == None
    ensures s.main.MAccept? || s.main.MStopped?
    ensures forall i :: 0 <= i < |s.workers| ==> s.workers[i].pc.WAsleep?
  {
    assert !Enabled(s, MainRuns);
    if s.main.MSignal? {
      var w := SignalEnabled(s);
      assert false;
    }
    var holder: nat := if s.owner.Some? && s.owner.value.Pool? then s.owner.value.i else 0;
    forall i: nat | i < |s.workers|
      ensures !Enabled(s, WorkerRuns(i)) && !Inside(s.workers[i].pc)
    {
      assert Quiet(WorkerRuns(i));
    }
    assert !MainInside(s.main) && !Inside(s.workers[holder].pc);
    assert s.owner == None;
    forall i: nat | i < |s.workers|
      ensures s.workers[i].pc.WAsleep?
    {
      assert !Enabled(s, WorkerRuns(i));
    }
  }

  /** If no thread can move by itself, all work is done: no connection is left in the ring with all asleep. */
  lemma StuckIsIdle(s: State)
    requires Inv(s) && Stuck(s)
    ensures Idle(s)
  {
    StuckOutside(s);
    NothingHeld(Hands(s.workers));
    AwakeBounds(s.workers);
    assert Contents(s.ring) == [];
    assert s.taken + [] + [] == s.taken;
  }

  function WorkerRank(pc: WorkerPc): nat {
    match pc
    case WAsleep | WGet => 0
    case WTest => 1
    case WLock | WWoken => 2
    case WProcess => 3
    case WUnlock => 4
  }

  function MainRank(pc: MainPc): nat {
    match pc
    case MAccept | MStopped => 0
    case MUnlock => 1
    case MSignal => 4
    case MPut => 10
    case MLock => 11
  }

  function Ranks(ws: seq<Worker>): (r: seq<int>)
    ensures |r| == |ws|
  {
    seq(|ws|, i requires 0 <= i < |ws| => WorkerRank(ws[i].pc))
  }

  /** The work left before the pool is idle. */
  function Work(s: State): int
    requires Valid(s.ring)
  {
    Sum(Ranks(s.workers)) + MainRank(s.main) + 5 * |Contents(s.ring)|
  }

  lemma RankUpdate(ws: seq<Worker>, i: nat, w: Worker)
    requires i < |ws|
    ensures Sum(Ranks(ws[i := w])) == Sum(Ranks(ws)) - WorkerRank(ws[i].pc) + WorkerRank(w.pc)
  {
    SumUpdate(Ranks(ws), i, WorkerRank(w.pc));
    assert Ranks(ws[i := w]) == Ranks(ws)[i := WorkerRank(w.pc)];
  }

  lemma WorkNonNegative(s: State)
    requires Valid(s.ring)
    ensures Work(s) >= 0
  {
    SumNonNegative(Ranks(s.workers));
  }

  /** What the worker itself gives up, and what it takes out of the ring. */
  lemma WorkerRankFalls(s: State, i: nat)
    requires Ready(s) && Enabled(s, WorkerRuns(i))
    ensures var t := WorkerNext(s, i);
            && t.workers == s.workers[i := t.workers[i]] && t.main == s.main
            && WorkerRank(t.workers[i].pc) < WorkerRank(s.workers[i].pc) + if s.workers[i].pc.WGet? then 5 else 0
  {
  }

  lemma WorkerWorks(s: State, i: nat)
    requires Ready(s) && Fifo(s) && Enabled(s, WorkerRuns(i))
    ensures Valid(WorkerNext(s, i).ring) && Work(WorkerNext(s, i)) < Work(s)
  {
    var t := WorkerNext(s, i);
    WorkerFifo(s, i);
    WorkerRankFalls(s, i);
    RankUpdate(s.workers, i, t.workers[i]);
  }

  /** Every quiet step of every thread leaves less work. */
  lemma QuietStepWorks(s: State, e: Event)
    requires Inv(s) && Enabled(s, e) && RoomIfPut(s, e) && Quiet(e)
    ensures Valid(Next(s, e).ring) && Work(Next(s, e)) < Work(s)
  {
    match e
    case WorkerRuns(i) =>
      WorkerWorks(s, i);
    case MainSignals(w) =>
      if w.Some? {
        RankUpdate(s.workers, w.value, s.workers[w.value].(pc := WWoken));
      }
    case MainRuns =>
      MainFifo(s);
  }

  lemma QuietNext(s: State, e: Event, t: State)
    requires Inv(s) && Enabled(s, e) && RoomIfPut(s, e) && Quiet(e) && t == Next(s, e)
    ensures Inv(t) && Work(t) < Work(s)
  {
    NextInv(s, e);
    QuietStepWorks(s, e);
  }

  lemma {:induction false} QuietRunWorks(ss: seq<State>, es: seq<Event>, n: nat)
    requires n <= |es| < |ss| && Run(ss, es, n) && Inv(ss[0])
    requires forall i :: 0 <= i < n ==> Quiet(es[i])
    ensures Inv(ss[n]) && Work(ss[n]) <= Work(ss[0]) - n
  {
    if n > 0 {
      QuietRunWorks(ss, es, n - 1);
      QuietNext(ss[n - 1], es[n - 1], ss[n]);
    }
  }

  /** Under any scheduler, a run of quiet steps from a reachable state is at most Work long;
      when it cannot go on, everything accepted has been processed. */
  lemma QuietRunsDrain(ss: seq<State>, es: seq<Event>, n: nat)
    requires n <= |es| < |ss| && Run(ss, es, n) && Inv(ss[0])
    requires forall i :: 0 <= i < n ==> Quiet(es[i])
    ensures n <= Work(ss[0])
    ensures Stuck(ss[n]) ==> Idle(ss[n])
  {
    QuietRunWorks(ss, es, n);
    WorkNonNegative(ss[n]);
    if Stuck(ss[n]) {
      StuckIsIdle(ss[n]);
    }
  }
}
