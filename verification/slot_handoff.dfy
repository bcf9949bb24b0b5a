/** The one-slot thread pool: an acceptor publishes a connection in a slot guarded by one mutex and
    two condition variables, and the workers take it. One step is one statement of one thread;
    a thread blocked in pthread_cond_wait may also wake up without having been signalled. */
module SlotHandoff {
  import opened Wrappers
  import opened Sums
  import opened PoolThreads

  /** Where a worker is: the statement it executes next, or blocked on `cond`. */
  datatype WorkerPc = WLock | WTest | WAsleep | WWoken | WTake | WClear | WSignal | WUnlock | WProcess

  /** Where the acceptor is: the statement it executes next, or blocked on `main_cond`. */
  datatype MainPc = MAccept | MLock | MTest | MAsleep | MWoken | MStore | MReady | MSignal | MUnlock | MStopped

  datatype Worker = Worker(pc: WorkerPc, connfd: int)

  /** The pool, both kinds of thread, and what has happened so far: the connections accepted, those taken
      out of the slot in mutex order, and those handed to `process`. */
  datatype State = State(
    owner: Option<Thread>,
    connfd: int,
    ready: bool,
    workers: seq<Worker>,
    main: MainPc,
    mainFd: int,
    accepted: seq<int>,
    taken: seq<int>,
    processed: seq<int>)

  datatype Event =
    | Accept(fd: int)                 // accept() returns; -1 ends the acceptor
    | MainRuns                        // the acceptor executes its next statement
    | MainSignals(woken: Option<nat>) // pthread_cond_signal(&cond) unblocks one blocked worker, if there is one
    | WorkerRuns(i: nat)              // worker i executes its next statement
    | MainSpurious
    | WorkerSpurious(i: nat)

  const MAX_THREADS := 4

  function Threads(requested: int): nat {
    if requested <= 0 then MAX_THREADS else requested
  }

  function Init(requested: int): State {
    State(None, 0, false, seq(Threads(requested), i => Worker(WLock, -1)), MAccept, -1, [], [], [])
  }

  predicate Free(s: State) {
    s.owner == None
  }

  ghost predicate SomeAsleep(s: State) {
    exists i :: 0 <= i < |s.workers| && s.workers[i].pc.WAsleep?
  }

  ghost predicate Enabled(s: State, e: Event) {
    match e
    case Accept(_) => s.main.MAccept?
    case MainRuns =>
      && (match s.main
          case MLock | MWoken => Free(s)
          case MTest | MStore | MReady | MUnlock => true
          case _ => false)
    case MainSignals(w) =>
      && s.main.MSignal?
      && (match w
          case Some(i) => i < |s.workers| && s.workers[i].pc.WAsleep?
          case None => !SomeAsleep(s))
    case WorkerRuns(i) =>
      && i < |s.workers|
      && (match s.workers[i].pc
          case WLock | WWoken => Free(s)
          case WAsleep => false
          case _ => true)
    case MainSpurious => s.main.MAsleep?
    case WorkerSpurious(i) => i < |s.workers| && s.workers[i].pc.WAsleep?
  }

  function At(s: State, i: nat, pc: WorkerPc): (t: State)
    requires i < |s.workers|
  {
    s.(workers := s.workers[i := s.workers[i].(pc := pc)])
  }

  function WorkerNext(s: State, i: nat): (t: State)
    requires i < |s.workers|
  {
    match s.workers[i].pc
    case WLock | WWoken => At(s, i, WTest).(owner := Some(Pool(i)))
    case WTest => if s.ready then At(s, i, WTake) else At(s, i, WAsleep).(owner := None)
    case WTake =>
      s.(workers := s.workers[i := Worker(WClear, s.connfd)], taken := s.taken + [s.connfd])
    case WClear => At(s, i, WSignal).(ready := false)
    case WSignal => At(s, i, WUnlock).(main := if s.main.MAsleep? then MWoken else s.main)
    case WUnlock => At(s, i, WProcess).(owner := None)
    case WProcess => At(s, i, WLock).(processed := s.processed + [s.workers[i].connfd])
    case WAsleep => s
  }

  function MainNext(s: State): State {
    match s.main
    case MLock | MWoken => s.(main := MTest, owner := Some(Acceptor))
    case MTest => if s.ready then s.(main := MAsleep, owner := None) else s.(main := MStore)
    case MStore => s.(main := MReady, connfd := s.mainFd)
    case MReady => s.(main := MSignal, ready := true)
    case MUnlock => s.(main := MAccept, owner := None)
    case _ => s
  }

  ghost function Next(s: State, e: Event): State
    requires Enabled(s, e)
  {
    match e
    case Accept(fd) =>
      if fd == -1 then s.(main := MStopped)
      else s.(main := MLock, mainFd := fd, accepted := s.accepted + [fd])
    case MainRuns => MainNext(s)
    case MainSignals(w) =>
      var t := s.(main := MUnlock);
      if w.Some? then At(t, w.value, WWoken) else t
    case WorkerRuns(i) => WorkerNext(s, i)
    case MainSpurious => s.(main := MWoken)
    case WorkerSpurious(i) => At(s, i, WWoken)
  }

  /** The first n of the events es lead through the states ss. */
  ghost predicate Run(ss: seq<State>, es: seq<Event>, n: nat)
    requires n <= |es| < |ss|
  {
    n == 0 || (Run(ss, es, n - 1) && Enabled(ss[n - 1], es[n - 1]) && ss[n] == Next(ss[n - 1], es[n - 1]))
  }

  // ----- what every step keeps -----

  predicate Inside(pc: WorkerPc) {
    pc.WTest? || pc.WTake? || pc.WClear? || pc.WSignal? || pc.WUnlock?
  }

  predicate MainInside(pc: MainPc) {
    pc.MTest? || pc.MStore? || pc.MReady? || pc.MSignal? || pc.MUnlock?
  }

  /** The owner of the mutex, and nobody else, is between its lock and its unlock. */
  ghost predicate Mutex(s: State) {
    && (s.owner == Some(Acceptor) <==> MainInside(s.main))
    && (forall i: nat :: i < |s.workers| ==> (s.owner == Some(Pool(i)) <==> Inside(s.workers[i].pc)))
    && (s.owner.Some? && s.owner.value.Pool? ==> s.owner.value.i < |s.workers|)
  }

  /** What the statements between lock and unlock rely on. */
  ghost predicate Guards(s: State) {
    && (s.main.MStore? || s.main.MReady? ==> !s.ready)
    && (s.main.MSignal? ==> s.ready)
    && (forall i :: 0 <= i < |s.workers| ==>
          && (s.workers[i].pc.WTake? || s.workers[i].pc.WClear? ==> s.ready)
          && (s.workers[i].pc.WSignal? ==> !s.ready))
    && (s.main.MReady? ==> s.connfd == s.mainFd)
  }

  ghost predicate SomeAwake(s: State) {
    exists i :: 0 <= i < |s.workers| && !s.workers[i].pc.WAsleep?
  }

  /** The mutex is held by a worker that executes statement pc next. */
  predicate HolderAt(s: State, pc: WorkerPc) {
    && s.owner.Some? && s.owner.value.Pool?
    && s.owner.value.i < |s.workers| && s.workers[s.owner.value.i].pc == pc
  }

  /** No lost wakeup: while the slot is full some worker is awake, unless the acceptor is about to signal;
      and the acceptor sleeps only while the slot is full, unless a worker is about to signal it. */
  ghost predicate NoLostWakeup(s: State) {
    && (s.ready && !s.main.MSignal? ==> SomeAwake(s))
    && (s.main.MAsleep? && !s.ready ==> HolderAt(s, WSignal))
  }

  /** The published connection that nobody has taken yet. */
  function InSlot(s: State): seq<int> {
    if s.ready && !HolderAt(s, WClear) then [s.connfd] else []
  }

  /** The accepted connection that the acceptor has not published yet. */
  function InMain(s: State): seq<int> {
    match s.main
    case MLock | MTest | MAsleep | MWoken | MStore | MReady => [s.mainFd]
    case _ => []
  }

  /** Connections leave in the order they arrived: none is lost, duplicated, overwritten or reordered. */
  ghost predicate Fifo(s: State) {
    s.accepted == s.taken + InSlot(s) + InMain(s)
  }

  /** The connection a worker has taken and not yet processed. */
  function Hand(w: Worker): Option<int> {
    match w.pc
    case WClear | WSignal | WUnlock | WProcess => Some(w.connfd)
    case _ => None
  }

  function Hands(ws: seq<Worker>): (h: seq<Option<int>>)
    ensures |h| == |ws|
  {
    seq(|ws|, i requires 0 <= i < |ws| => Hand(ws[i]))
  }

  ghost predicate Processed(s: State) {
    ProcessedOnce(s.taken, s.processed, Hands(s.workers))
  }

  ghost predicate Inv(s: State) {
    && |s.workers| >= 1
    && Mutex(s) && Guards(s) && NoLostWakeup(s) && Fifo(s)
    && Processed(s)
  }

  lemma HandsUpdate(ws: seq<Worker>, i: nat, w: Worker)
    requires i < |ws|
    ensures Hands(ws[i := w]) == Hands(ws)[i := Hand(w)]
  {
  }

  lemma SameHand(ws: seq<Worker>, i: nat, w: Worker)
    requires i < |ws| && Hand(w) == Hand(ws[i])
    ensures Hands(ws[i := w]) == Hands(ws)
  {
  }

  lemma InitInv(requested: int)
    ensures Inv(Init(requested))
    ensures |Init(requested).workers| == if requested <= 0 then 4 else requested
  {
    NothingHeld(Hands(Init(requested).workers));
  }

  lemma WorkerMutex(s: State, i: nat)
    requires Mutex(s) && Enabled(s, WorkerRuns(i))
    ensures Mutex(WorkerNext(s, i))
  {
  }

  lemma NextMutex(s: State, e: Event)
    requires Mutex(s) && Enabled(s, e)
    ensures Mutex(Next(s, e))
  {
    match e
    case WorkerRuns(i) =>
      WorkerMutex(s, i);
    case _ =>
  }

  lemma WorkerGuards(s: State, i: nat)
    requires Mutex(s) && Guards(s) && Enabled(s, WorkerRuns(i))
    ensures Guards(WorkerNext(s, i))
  {
  }

  lemma NextGuards(s: State, e: Event)
    requires Mutex(s) && Guards(s) && Enabled(s, e)
    ensures Guards(Next(s, e))
  {
    match e
    case WorkerRuns(i) =>
      WorkerGuards(s, i);
    case _ =>
  }

  lemma WorkerFifo(s: State, i: nat)
    requires Mutex(s) && Guards(s) && Fifo(s) && Enabled(s, WorkerRuns(i))
    ensures Fifo(WorkerNext(s, i))
  {
    var t := WorkerNext(s, i);
    if s.workers[i].pc.WTake? {
      assert InSlot(s) == [s.connfd] && InSlot(t) == [];
      assert s.taken + [s.connfd] + InMain(s) == t.taken + [] + InMain(s);
    } else {
      assert InSlot(t) == InSlot(s);
    }
  }

  lemma MainFifo(s: State)
    requires Mutex(s) && Guards(s) && Fifo(s) && Enabled(s, MainRuns)
    ensures Fifo(MainNext(s))
  {
    var t := MainNext(s);
    if s.main.MReady? {
      assert InSlot(s) == [] && InSlot(t) == [s.mainFd];
      assert s.taken + [] + [s.mainFd] == s.taken + [s.mainFd] + [];
    } else {
      assert InSlot(t) == InSlot(s);
    }
  }

  lemma NextFifo(s: State, e: Event)
    requires Mutex(s) && Guards(s) && Fifo(s) && Enabled(s, e)
    ensures Fifo(Next(s, e))
  {
    match e
    case Accept(fd) =>
      if fd != -1 {
        assert Next(s, e).accepted == s.taken + InSlot(s) + [fd];
      }
    case WorkerRuns(i) =>
      WorkerFifo(s, i);
    case MainRuns =>
      MainFifo(s);
    case _ =>
  }

  lemma TakeProcessed(s: State, i: nat)
    requires Processed(s) && i < |s.workers| && s.workers[i].pc.WTake?
    ensures Processed(WorkerNext(s, i))
  {
    var ws := s.workers[i := Worker(WClear, s.connfd)];
    HandsUpdate(s.workers, i, ws[i]);
    TakeBalances(s.taken, s.processed, Hands(s.workers), i, s.connfd, Hands(ws));
  }

  lemma ProcessProcessed(s: State, i: nat)
    requires Processed(s) && i < |s.workers| && s.workers[i].pc.WProcess?
    ensures Processed(WorkerNext(s, i))
  {
    var ws := s.workers[i := s.workers[i].(pc := WLock)];
    HandsUpdate(s.workers, i, ws[i]);
    ProcessBalances(s.taken, s.processed, Hands(s.workers), i, s.workers[i].connfd, Hands(ws));
  }

  lemma WorkerProcessed(s: State, i: nat)
    requires Processed(s) && i < |s.workers|
    ensures Processed(WorkerNext(s, i))
  {
    match s.workers[i].pc
    case WTake =>
      TakeProcessed(s, i);
    case WProcess =>
      ProcessProcessed(s, i);
    case _ =>
      var t := WorkerNext(s, i);
      SameHand(s.workers, i, t.workers[i]);
      assert t.workers == s.workers[i := t.workers[i]];
  }

  lemma NextProcessed(s: State, e: Event)
    requires Processed(s) && Enabled(s, e)
    ensures Processed(Next(s, e))
  {
    match e
    case WorkerRuns(i) =>
      WorkerProcessed(s, i);
    case MainSignals(w) =>
      if w.Some? {
        SameHand(s.workers, w.value, s.workers[w.value].(pc := WWoken));
      }
    case WorkerSpurious(i) =>
      SameHand(s.workers, i, s.workers[i].(pc := WWoken));
    case _ =>
  }

  lemma WorkerNoLostWakeup(s: State, i: nat)
    requires Mutex(s) && Guards(s) && NoLostWakeup(s) && |s.workers| >= 1 && Enabled(s, WorkerRuns(i))
    ensures NoLostWakeup(WorkerNext(s, i))
  {
    var t := WorkerNext(s, i);
    assert t.ready ==> !t.workers[i].pc.WAsleep?;
    assert s.workers[i].pc.WClear? ==> HolderAt(t, WSignal);
  }

  lemma NextNoLostWakeup(s: State, e: Event)
    requires Mutex(s) && Guards(s) && NoLostWakeup(s) && |s.workers| >= 1 && Enabled(s, e)
    ensures NoLostWakeup(Next(s, e))
  {
    var t := Next(s, e);
    match e
    case MainSignals(w) =>
      var i := if w.Some? then w.value else 0;
      assert !t.workers[i].pc.WAsleep?;
    case WorkerRuns(i) =>
      WorkerNoLostWakeup(s, i);
    case WorkerSpurious(i) =>
      assert !t.workers[i].pc.WAsleep?;
    case _ =>
      assert t.workers == s.workers;
      assert SomeAwake(s) ==> SomeAwake(t);
  }

  lemma NextControl(s: State, e: Event)
    requires Enabled(s, e) && |s.workers| >= 1 && Mutex(s) && Guards(s) && NoLostWakeup(s)
    ensures var t := Next(s, e); |t.workers| == |s.workers| && Mutex(t) && Guards(t) && NoLostWakeup(t)
  {
    NextMutex(s, e);
    NextGuards(s, e);
    NextNoLostWakeup(s, e);
  }

  lemma NextInv(s: State, e: Event)
    requires Inv(s) && Enabled(s, e)
    ensures Inv(Next(s, e))
  {
    NextControl(s, e);
    NextFifo(s, e);
    NextProcessed(s, e);
  }

  /** Every reachable state: mutual exclusion, no lost wakeup, FIFO handoff, processing exactly once. */
  lemma {:induction false} ReachableInv(requested: int, ss: seq<State>, es: seq<Event>, n: nat)
    requires n <= |es| < |ss| && Run(ss, es, n) && ss[0] == Init(requested)
    ensures Inv(ss[n])
  {
    if n == 0 {
      InitInv(requested);
    } else {
      ReachableInv(requested, ss, es, n - 1);
      NextInv(ss[n - 1], es[n - 1]);
    }
  }

  /** Acceptor and workers are never all asleep while a connection is published or held. */
  lemma NeverAllAsleep(s: State)
    requires Inv(s) && InSlot(s) + InMain(s) != []
    ensures !(s.main.MAsleep? && forall i :: 0 <= i < |s.workers| ==> s.workers[i].pc.WAsleep?)
  {
    if s.main.MAsleep? && s.ready {
      assert SomeAwake(s);
    }
  }

  // ----- progress -----

  /** The steps that threads take on their own: nothing new arrives and nobody wakes up unsignalled. */
  predicate Quiet(e: Event) {
    e.MainRuns? || e.MainSignals? || e.WorkerRuns?
  }

  /** Nothing is left to do: every thread waits, every accepted connection has been taken, in order, and processed
      once. */
  ghost predicate Idle(s: State) {
    && (forall i :: 0 <= i < |s.workers| ==> s.workers[i].pc.WAsleep?)
    && (s.main.MAccept? || s.main.MStopped?)
    && s.taken == s.accepted && multiset(s.processed) == multiset(s.accepted)
  }

  ghost predicate Stuck(s: State) {
    forall e :: Enabled(s, e) ==> !Quiet(e)
  }

  /** The acceptor's signal always goes out. */
  lemma SignalEnabled(s: State) returns (w: Option<nat>)
    requires s.main.MSignal?
    ensures Enabled(s, MainSignals(w))
  {
    if i: nat :| i < |s.workers| && s.workers[i].pc.WAsleep? {
      w := Some(i);
    } else {
      w := None;
    }
  }

  lemma StuckOutside(s: State)
    requires Inv(s) && Stuck(s)
    ensures s.owner == None
    ensures s.main.MAccept? || s.main.MStopped? || s.main.MAsleep?
    ensures forall i :: 0 <= i < |s.workers| ==> s.workers[i].pc.WAsleep?
  {
    assert !Enabled(s, MainRuns);
    if s.main.MSignal? {
      var w := SignalEnabled(s);
      assert false;
    }
    var holder: nat := if s.owner.Some? && s.owner.value.Pool? then s.owner.value.i else 0;
    forall i: nat | i < |s.workers|
      ensures !Enabled(s, WorkerRuns(i)) && !Inside(s.workers[i].pc)
    {
      assert Quiet(WorkerRuns(i));
    }
    assert !MainInside(s.main) && !Inside(s.workers[holder].pc);
    assert s.owner == None;
    forall i: nat | i < |s.workers|
      ensures s.workers[i].pc.WAsleep?
    {
      assert !Enabled(s, WorkerRuns(i));
    }
  }

  /** If no thread can move by itself, all work is done: the pool never deadlocks on a connection. */
  lemma StuckIsIdle(s: State)
    requires Inv(s) && Stuck(s)
    ensures Idle(s)
  {
    StuckOutside(s);
    NothingHeld(Hands(s.workers));
    assert s.taken + [] + [] == s.taken;
  }

  function WorkerRank(pc: WorkerPc): nat {
    match pc
    case WAsleep | WClear => 0
    case WTake => 1
    case WTest => 2
    case WLock | WWoken => 3
    case WProcess => 4
    case WUnlock => 5
    case WSignal => 8
  }

  function MainRank(pc: MainPc): nat {
    match pc
    case MAccept | MStopped => 0
    case MUnlock => 1
    case MSignal => 5
    case MReady => 15
    case MStore | MAsleep => 16
    case MTest => 17
    case MLock | MWoken => 18
  }

  function Ranks(ws: seq<Worker>): (r: seq<int>)
    ensures |r| == |ws|
  {
    seq(|ws|, i requires 0 <= i < |ws| => WorkerRank(ws[i].pc))
  }

  /** The work left before the pool is idle. */
  function Work(s: State): int {
    Sum(Ranks(s.workers)) + MainRank(s.main) + if s.ready then 9 else 0
  }

  lemma RankUpdate(ws: seq<Worker>, i: nat, w: Worker)
    requires i < |ws|
    ensures Sum(Ranks(ws[i := w])) == Sum(Ranks(ws)) - WorkerRank(ws[i].pc) + WorkerRank(w.pc)
  {
    SumUpdate(Ranks(ws), i, WorkerRank(w.pc));
    assert Ranks(ws[i := w]) == Ranks(ws)[i := WorkerRank(w.pc)];
  }

  lemma WorkNonNegative(s: State)
    ensures Work(s) >= 0
  {
    SumNonNegative(Ranks(s.workers));
  }

  lemma WorkerWorks(s: State, i: nat)
    requires Guards(s) && Enabled(s, WorkerRuns(i))
    ensures Work(WorkerNext(s, i)) < Work(s)
  {
    var t := WorkerNext(s, i);
    RankUpdate(s.workers, i, t.workers[i]);
    assert t.workers == s.workers[i := t.workers[i]];
  }

  /** Every quiet step of every thread leaves less work. */
  lemma QuietStepWorks(s: State, e: Event)
    requires Guards(s) && Enabled(s, e) && Quiet(e)
    ensures Work(Next(s, e)) < Work(s)
  {
    match e
    case WorkerRuns(i) =>
      WorkerWorks(s, i);
    case MainSignals(w) =>
      if w.Some? {
        RankUpdate(s.workers, w.value, s.workers[w.value].(pc := WWoken));
      }
    case MainRuns =>
      assert MainNext(s).workers == s.workers;
  }

  lemma {:induction false} QuietRunWorks(ss: seq<State>, es: seq<Event>, n: nat)
    requires n <= |es| < |ss| && Run(ss, es, n) && Inv(ss[0])
    requires forall i :: 0 <= i < n ==> Quiet(es[i])
    ensures Inv(ss[n]) && Work(ss[n]) <= Work(ss[0]) - n
  {
    if n > 0 {
      QuietRunWorks(ss, es, n - 1);
      NextInv(ss[n - 1], es[n - 1]);
      QuietStepWorks(ss[n - 1], es[n - 1]);
    }
  }

  /** Under any scheduler, a run of quiet steps from a reachable state is at most Work long;
      when it cannot go on, everything accepted has been processed. */
  lemma QuietRunsDrain(ss: seq<State>, es: seq<Event>, n: nat)
    requires n <= |es| < |ss| && Run(ss, es, n) && Inv(ss[0])
    requires forall i :: 0 <= i < n ==> Quiet(es[i])
    ensures n <= Work(ss[0])
    ensures Stuck(ss[n]) ==> Idle(ss[n])
  {
    QuietRunWorks(ss, es, n);
    WorkNonNegative(ss[n]);
    if Stuck(ss[n]) {
      StuckIsIdle(ss[n]);
    }
  }
}
