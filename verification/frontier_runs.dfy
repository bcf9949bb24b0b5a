/** Runs of the frontier in single steps: the crawling thread adds and takes URLs, the resolver thread takes domains
    and answers, and the steps of the two interleave. */
module FrontierRuns {
  import opened Wrappers
  import opened Frontier

  /** Where the crawling thread is in url_add. */
  datatype Adder = Idle | Adding(url: Url, saw: Saw) | Announcing(domain: string)

  /** Where the resolver thread is in process_cache_dns. While it splices it holds the lock on the cache. */
  datatype Resolver = Listening | Splicing(host: string)

  datatype Event =
    | TestDomain(url: Url)                // url_add looks its domain up
    | AppendUrl                           // and does what it found out it has to
    | PutDomain                           // and announces a new domain
    | Receive(host: string, flags: int)   // process_cache_dns tests a response and sets the flag
    | JoinQueues                          // and splices the queues
    | TakeUrl
    | TakeDomain

  /** A frontier with its history: every URL added and taken, every domain taken for lookup, in order. lost is a URL
      whose waiting queue was gone; the process does not get past that. */
  datatype History = History(s: State, adder: Adder, resolver: Resolver, lost: Option<Url>,
                             added: seq<Url>, taken: seq<Url>, looked: seq<string>)

  const START := History(State(map[], [], []), Idle, Listening, None, [], [], [])

  /** Each thread is at its step, and a new entry waits for the lock on the cache. */
  predicate Enabled(h: History, e: Event) {
    && h.lost.None?
    && match e
       case TestDomain(_) | TakeUrl => h.adder.Idle?
       case AppendUrl => h.adder.Adding? && (h.adder.saw.SawNothing? ==> h.resolver.Listening?)
       case PutDomain => h.adder.Announcing?
       case Receive(_, _) | TakeDomain => h.resolver.Listening?
       case JoinQueues => h.resolver.Splicing?
  }

  function Append(h: History, url: Url, saw: Saw): History {
    match saw
    case SawNothing => h.(s := Enter(h.s, url), adder := Announcing(url.domain))
    case SawKnown => h.(s := Queue(h.s, url), adder := Idle)
    case SawWaiting =>
      if HasQueue(h.s, url.domain) then h.(s := Park(h.s, url), adder := Idle)
      else h.(lost := Some(url), adder := Idle)
  }

  function Join(s: State, host: string): State {
    if host in s.cache && s.cache[host].Marked? then Splice(s, host) else s
  }

  function Next(h: History, e: Event): History
    requires Enabled(h, e)
  {
    match e
    case TestDomain(url) => h.(adder := Adding(url, Look(h.s, url.domain)), added := h.added + [url])
    case AppendUrl => Append(h, h.adder.url, h.adder.saw)
    case PutDomain => h.(s := Announce(h.s, h.adder.domain), adder := Idle)
    case Receive(host, flags) =>
      if Answers(h.s, host, flags) then h.(s := Mark(h.s, host), resolver := Splicing(host)) else h
    case JoinQueues => h.(s := Join(h.s, h.resolver.host), resolver := Listening)
    case TakeUrl =>
      if h.s.down == [] then h
      else h.(s := h.s.(down := h.s.down[1..]), taken := h.taken + [h.s.down[0]])
    case TakeDomain =>
      if h.s.dns == [] then h
      else h.(s := h.s.(dns := h.s.dns[1..]), looked := h.looked + [h.s.dns[0]])
  }

  /** The events can happen one after the other. */
  predicate Feasible(es: seq<Event>)
    decreases |es|, 0
  {
    |es| == 0 || (Feasible(es[..|es| - 1]) && Enabled(After(es[..|es| - 1]), es[|es| - 1]))
  }

  function After(es: seq<Event>): History
    requires Feasible(es)
    decreases |es|, 1
  {
    if |es| == 0 then START else Next(After(es[..|es| - 1]), es[|es| - 1])
  }

  // ----- what every step keeps -----

  /** The URLs of domain d, in order. */
  function OfDomain(us: seq<Url>, d: string): seq<Url> {
    if |us| == 0 then []
    else OfDomain(us[..|us| - 1], d) + if us[|us| - 1].domain == d then [us[|us| - 1]] else []
  }

  /** The URLs that wait under d. */
  function Parked(s: State, d: string): seq<Url> {
    if HasQueue(s, d) then s.cache[d].urls else []
  }

  ghost predicate Sorted(s: State) {
    forall d :: d in s.cache ==> forall u :: u in Parked(s, d) ==> u.domain == d
  }

  /** The URL that url_add is about to put somewhere, and the one that it could not put anywhere. */
  function Pending(h: History): seq<Url> {
    (if h.adder.Adding? then [h.adder.url] else []) + if h.lost.Some? then [h.lost.value] else []
  }

  /** What the crawling thread has seen of a domain is still so, except that its address may have become known. */
  ghost predicate AdderOk(h: History) {
    match h.adder
    case Idle => true
    case Announcing(d) => d in h.s.cache
    case Adding(url, saw) =>
      && (saw.SawNothing? <==> url.domain !in h.s.cache)
      && (saw.SawKnown? ==> !h.s.cache[url.domain].Waiting?)
      && h.lost.None?
  }

  /** The flag of an entry is set while its queue is still there exactly when the resolver is about to splice it. */
  ghost predicate ResolverOk(h: History) {
    && (h.resolver.Splicing? ==> h.resolver.host in h.s.cache)
    && (forall d :: d in h.s.cache ==> (h.s.cache[d].Marked? <==> h.resolver == Splicing(d)))
  }

  ghost predicate Distinct(s: seq<string>) {
    forall i, j :: 0 <= i < j < |s| ==> s[i] != s[j]
  }

  /** The domains taken for lookup, queued for it, and about to be. */
  function Announced(h: History): seq<string> {
    h.looked + h.s.dns + if h.adder.Announcing? then [h.adder.domain] else []
  }

  /** The domains known are exactly those ever announced for lookup, each once. */
  ghost predicate AnnouncedOnce(h: History) {
    Distinct(Announced(h)) && (forall d :: d in h.s.cache <==> d in Announced(h))
  }

  /** The URLs of domain d from the first taken to the last added. */
  function Line(h: History, d: string): seq<Url> {
    OfDomain(h.taken + h.s.down, d) + Parked(h.s, d) + OfDomain(Pending(h), d)
  }

  ghost predicate Balanced(h: History, d: string) {
    multiset(OfDomain(h.added, d)) == multiset(Line(h, d))
  }

  ghost predicate Control(h: History) {
    Sorted(h.s) && AdderOk(h) && ResolverOk(h)
  }

  ghost predicate Inv(h: History) {
    Control(h) && AnnouncedOnce(h) && (forall d :: Balanced(h, d))
  }

  lemma {:induction false} OfDomainConcat(a: seq<Url>, b: seq<Url>, d: string)
    ensures OfDomain(a + b, d) == OfDomain(a, d) + OfDomain(b, d)
    decreases |b|
  {
    if |b| == 0 {
      assert a + b == a;
    } else {
      assert (a + b)[..|a + b| - 1] == a + b[..|b| - 1];
      OfDomainConcat(a, b[..|b| - 1], d);
    }
  }

  lemma OfDomainOne(u: Url, d: string)
    ensures OfDomain([u], d) == if u.domain == d then [u] else []
  {
    assert [u][..0] == [];
  }

  lemma {:induction false} OfDomainUniform(us: seq<Url>, e: string, d: string)
    requires forall u :: u in us ==> u.domain == e
    ensures OfDomain(us, d) == if e == d then us else []
  {
    if |us| > 0 {
      OfDomainUniform(us[..|us| - 1], e, d);
      assert us == us[..|us| - 1] + [us[|us| - 1]];
    }
  }

  lemma AppendSorted(h: History, url: Url, saw: Saw)
    requires Sorted(h.s)
    ensures Sorted(Append(h, url, saw).s)
  {
    var t := Append(h, url, saw).s;
    forall d | d in t.cache
      ensures forall u :: u in Parked(t, d) ==> u.domain == d
    {
      assert Parked(t, d) == Parked(h.s, d) || Parked(t, d) == Parked(h.s, d) + [url] || Parked(t, d) == [url];
    }
  }

  lemma NextSorted(h: History, e: Event)
    requires Sorted(h.s) && Enabled(h, e)
    ensures Sorted(Next(h, e).s)
  {
    if e.AppendUrl? {
      AppendSorted(h, h.adder.url, h.adder.saw);
    } else {
      var t := Next(h, e).s;
      forall d | d in t.cache
        ensures forall u :: u in Parked(t, d) ==> u.domain == d
      {
        assert Parked(t, d) == Parked(h.s, d) || Parked(t, d) == [];
      }
    }
  }

  lemma NextControl(h: History, e: Event)
    requires Control(h) && Enabled(h, e)
    ensures Control(Next(h, e))
  {
    NextSorted(h, e);
  }

  lemma AnnouncedSame(h: History, t: History)
    requires AnnouncedOnce(h) && Announced(t) == Announced(h) && t.s.cache.Keys == h.s.cache.Keys
    ensures AnnouncedOnce(t)
  {
  }

  lemma AnnouncedMore(h: History, t: History, d: string)
    requires AnnouncedOnce(h) && d !in h.s.cache
    requires Announced(t) == Announced(h) + [d] && t.s.cache.Keys == h.s.cache.Keys + {d}
    ensures AnnouncedOnce(t)
  {
  }

  lemma EnterAnnounced(h: History)
    requires Control(h) && AnnouncedOnce(h) && Enabled(h, AppendUrl) && h.adder.saw.SawNothing?
    ensures AnnouncedOnce(Next(h, AppendUrl))
  {
    AnnouncedMore(h, Next(h, AppendUrl), h.adder.url.domain);
  }

  lemma OtherKeys(h: History, e: Event)
    requires Control(h) && Enabled(h, e) && !(e.AppendUrl? && h.adder.saw.SawNothing?)
    ensures Next(h, e).s.cache.Keys == h.s.cache.Keys
  {
  }

  lemma OtherAnnounced(h: History, e: Event)
    requires Enabled(h, e) && !(e.AppendUrl? && h.adder.saw.SawNothing?)
    ensures Announced(Next(h, e)) == Announced(h)
  {
    if e.TakeDomain? && h.s.dns != [] {
      assert h.looked + h.s.dns == (h.looked + [h.s.dns[0]]) + h.s.dns[1..];
    }
  }

  lemma NextAnnounced(h: History, e: Event)
    requires Control(h) && AnnouncedOnce(h) && Enabled(h, e)
    ensures AnnouncedOnce(Next(h, e))
  {
    if e.AppendUrl? && h.adder.saw.SawNothing? {
      EnterAnnounced(h);
    } else {
      OtherKeys(h, e);
      OtherAnnounced(h, e);
      AnnouncedSame(h, Next(h, e));
    }
  }

  // ----- the line of a domain -----

  /** The URL that the event adds, if it is one of d. */
  function New(e: Event, d: string): seq<Url> {
    if e.TestDomain? && e.url.domain == d then [e.url] else []
  }

  /** The address is known, but the URLs that waited for it are not in the download queue yet. */
  predicate Overtakes(h: History, e: Event) {
    e.AppendUrl? && h.adder.Adding? && h.adder.saw.SawKnown? && HasQueue(h.s, h.adder.url.domain)
  }

  lemma Regroup(a: seq<Url>, b: seq<Url>, c: seq<Url>)
    ensures a + (b + c) == (a + b) + c
    ensures a + [] == a && [] + a == a
  {
  }

  lemma PendingLine(h: History, d: string)
    requires h.lost.None?
    ensures OfDomain(Pending(h), d) == if h.adder.Adding? && h.adder.url.domain == d then [h.adder.url] else []
  {
    if h.adder.Adding? {
      assert Pending(h) == [h.adder.url];
      OfDomainOne(h.adder.url, d);
    }
  }

  lemma TestLine(h: History, url: Url, d: string)
    requires Enabled(h, TestDomain(url))
    ensures Line(Next(h, TestDomain(url)), d) == Line(h, d) + New(TestDomain(url), d)
  {
    PendingLine(h, d);
    PendingLine(Next(h, TestDomain(url)), d);
    Regroup(OfDomain(h.taken + h.s.down, d) + Parked(h.s, d), [], New(TestDomain(url), d));
  }

  /** The download queue gets URLs at its end. */
  lemma QueuedLine(h: History, urls: seq<Url>, d: string)
    ensures OfDomain(h.taken + (h.s.down + urls), d) == OfDomain(h.taken + h.s.down, d) + OfDomain(urls, d)
  {
    Regroup(h.taken, h.s.down, urls);
    OfDomainConcat(h.taken + h.s.down, urls, d);
  }

  lemma Swap(a: seq<Url>, b: seq<Url>, c: seq<Url>)
    ensures multiset(a + b + c) == multiset(a + c + b)
    ensures b == [] || c == [] ==> a + b + c == a + c + b
    ensures a + [] == a
  {
    assert multiset(a + b + c) == multiset(a) + multiset(b) + multiset(c);
  }

  lemma QueueParked(h: History, d: string)
    requires Enabled(h, AppendUrl) && h.adder.saw.SawKnown?
    ensures Parked(Next(h, AppendUrl).s, d) == Parked(h.s, d)
  {
  }

  /** An append to the download queue puts the URL in front of those that wait. */
  lemma QueueLine(h: History, d: string)
    requires Enabled(h, AppendUrl) && h.adder.saw.SawKnown?
    ensures Line(h, d) == OfDomain(h.taken + h.s.down, d) + Parked(h.s, d) + OfDomain([h.adder.url], d)
    ensures Line(Next(h, AppendUrl), d)
            == OfDomain(h.taken + h.s.down, d) + OfDomain([h.adder.url], d) + Parked(h.s, d)
  {
    var url, t := h.adder.url, Next(h, AppendUrl);
    QueueParked(h, d);
    assert Pending(h) == [url] && Pending(t) == [];
    QueuedLine(h, [url], d);
    Swap(OfDomain(t.taken + t.s.down, d) + Parked(t.s, d), [], []);
  }

  lemma QueuePermutes(h: History, d: string)
    requires Control(h) && Enabled(h, AppendUrl) && h.adder.saw.SawKnown?
    ensures !Overtakes(h, AppendUrl) ==> Line(Next(h, AppendUrl), d) == Line(h, d)
    ensures multiset(Line(Next(h, AppendUrl), d)) == multiset(Line(h, d))
  {
    QueueLine(h, d);
    OfDomainOne(h.adder.url, d);
    Swap(OfDomain(h.taken + h.s.down, d), Parked(h.s, d), OfDomain([h.adder.url], d));
  }

  lemma EnterLine(h: History, d: string)
    requires Control(h) && Enabled(h, AppendUrl) && !h.adder.saw.SawKnown?
    ensures Line(Next(h, AppendUrl), d) == Line(h, d)
  {
    var url, t := h.adder.url, Next(h, AppendUrl);
    PendingLine(h, d);
    OfDomainOne(url, d);
    var front := OfDomain(h.taken + h.s.down, d);
    if t.lost.Some? {
      assert Pending(t) == [url];
    } else {
      PendingLine(t, d);
      assert Parked(t.s, d) == Parked(h.s, d) + OfDomain([url], d);
      Regroup(front, Parked(h.s, d), OfDomain([url], d));
    }
  }

  lemma JoinParked(h: History, host: string, d: string)
    requires Control(h) && HasQueue(h.s, host) && h.s.cache[host].Marked?
    ensures Parked(h.s, d) == OfDomain(h.s.cache[host].urls, d) + Parked(Splice(h.s, host), d)
  {
    assert Parked(h.s, host) == h.s.cache[host].urls;
    OfDomainUniform(h.s.cache[host].urls, host, d);
  }

  lemma JoinLine(h: History, d: string)
    requires Control(h) && Enabled(h, JoinQueues)
    ensures Line(Next(h, JoinQueues), d) == Line(h, d)
  {
    var host, t := h.resolver.host, Next(h, JoinQueues);
    var urls := h.s.cache[host].urls;
    assert t.s == Splice(h.s, host) && Pending(t) == Pending(h);
    QueuedLine(h, urls, d);
    JoinParked(h, host, d);
    Regroup(OfDomain(h.taken + h.s.down, d), OfDomain(urls, d), Parked(t.s, d));
  }

  lemma TakeLine(h: History, d: string)
    requires Enabled(h, TakeUrl)
    ensures Line(Next(h, TakeUrl), d) == Line(h, d)
  {
    if h.s.down != [] {
      assert h.taken + h.s.down == (h.taken + [h.s.down[0]]) + h.s.down[1..];
    }
  }

  lemma OtherLine(h: History, e: Event, d: string)
    requires Control(h) && Enabled(h, e) && (e.PutDomain? || e.Receive? || e.TakeDomain?)
    ensures Line(Next(h, e), d) == Line(h, d)
  {
    var t := Next(h, e);
    assert Parked(t.s, d) == Parked(h.s, d);
    PendingLine(h, d);
    PendingLine(t, d);
  }

  /** No step but the appends that overtake changes the order of the URLs of a domain, and none changes which they
      are. */
  lemma NextLine(h: History, e: Event, d: string)
    requires Control(h) && Enabled(h, e)
    ensures !Overtakes(h, e) ==> Line(Next(h, e), d) == Line(h, d) + New(e, d)
    ensures multiset(Line(Next(h, e), d)) == multiset(Line(h, d) + New(e, d))
  {
    Regroup(Line(h, d), [], []);
    match e
    case TestDomain(url) =>
      TestLine(h, url, d);
    case AppendUrl =>
      if h.adder.saw.SawKnown? {
        QueuePermutes(h, d);
      } else {
        EnterLine(h, d);
      }
    case JoinQueues =>
      JoinLine(h, d);
    case TakeUrl =>
      TakeLine(h, d);
    case _ =>
      OtherLine(h, e, d);
  }

  lemma NextAdded(h: History, e: Event, d: string)
    requires Enabled(h, e)
    ensures OfDomain(Next(h, e).added, d) == OfDomain(h.added, d) + New(e, d)
  {
    Regroup(OfDomain(h.added, d), [], []);
    if e.TestDomain? {
      OfDomainConcat(h.added, [e.url], d);
      OfDomainOne(e.url, d);
    }
  }

  lemma NextBalanced(h: History, e: Event, d: string)
    requires Control(h) && Balanced(h, d) && Enabled(h, e)
    ensures Balanced(Next(h, e), d)
  {
    NextLine(h, e, d);
    NextAdded(h, e, d);
  }

  lemma NextInv(h: History, e: Event)
    requires Inv(h) && Enabled(h, e)
    ensures Inv(Next(h, e))
  {
    NextControl(h, e);
    NextAnnounced(h, e);
    forall d
      ensures Balanced(Next(h, e), d)
    {
      assert Balanced(h, d);
      NextBalanced(h, e, d);
    }
  }

  /** After any run, however the steps of the two threads interleave: per domain nothing appears or disappears, each
      domain is announced once, and a flag is ahead of its queue only while the resolver splices. */
  lemma {:induction false} ReachableInv(es: seq<Event>)
    requires Feasible(es)
    ensures Inv(After(es))
    decreases |es|
  {
    if |es| > 0 {
      ReachableInv(es[..|es| - 1]);
      NextInv(After(es[..|es| - 1]), es[|es| - 1]);
    }
  }

  // ----- conservation -----

  lemma {:induction false} OfDomainCount(us: seq<Url>, u: Url)
    ensures multiset(OfDomain(us, u.domain))[u] == multiset(us)[u]
  {
    if |us| > 0 {
      var n := |us| - 1;
      OfDomainCount(us[..n], u);
      assert us == us[..n] + [us[n]];
      assert multiset(us) == multiset(us[..n]) + multiset{us[n]};
    }
  }

  /** u was added as often as it was taken, is queued, waits, and is about to be put somewhere, together. */
  ghost predicate Conserved(h: History, u: Url) {
    multiset(h.added)[u]
    == multiset(h.taken)[u] + multiset(h.s.down)[u] + multiset(Parked(h.s, u.domain))[u]
       + if h.adder.Adding? && h.adder.url == u then 1 else 0
  }

  lemma LineCount(h: History, u: Url)
    ensures multiset(Line(h, u.domain))[u]
            == multiset(h.taken)[u] + multiset(h.s.down)[u] + multiset(Parked(h.s, u.domain))[u]
               + multiset(Pending(h))[u]
  {
    OfDomainCount(h.taken + h.s.down, u);
    OfDomainCount(Pending(h), u);
    assert multiset(h.taken + h.s.down) == multiset(h.taken) + multiset(h.s.down);
  }

  lemma PendingCount(h: History, u: Url)
    ensures multiset(Pending(h))[u] == (if h.adder.Adding? && h.adder.url == u then 1 else 0)
                                       + if h.lost == Some(u) then 1 else 0
  {
  }

  /** In every run just the lost URL is missing, once. */
  lemma ConservedUnlessLost(es: seq<Event>, u: Url)
    requires Feasible(es)
    ensures Conserved(After(es), u) <==> After(es).lost != Some(u)
  {
    var h := After(es);
    ReachableInv(es);
    assert Balanced(h, u.domain);
    OfDomainCount(h.added, u);
    LineCount(h, u);
    PendingCount(h, u);
  }

  /** At step i url_add finds that the domain of url waits. */
  predicate TestsWaiting(es: seq<Event>, i: nat, url: Url)
    requires i < |es| && Feasible(es[..i])
  {
    es[i] == TestDomain(url) && Look(After(es[..i]).s, url.domain).SawWaiting?
  }

  /** At step j the resolver, after a good response for d, takes the waiting queue of d away. */
  predicate JoinsAt(es: seq<Event>, j: nat, d: string)
    requires j < |es| && Feasible(es[..j])
  {
    es[j].JoinQueues? && After(es[..j]).resolver == Splicing(d)
  }

  /** The append of step k belongs to the test of step i. */
  predicate NoAppend(es: seq<Event>, i: nat, k: nat)
    requires k <= |es|
  {
    forall m :: i < m < k ==> !es[m].AppendUrl?
  }

  lemma {:induction false} FeasiblePrefix(es: seq<Event>, n: nat)
    requires Feasible(es) && n <= |es|
    ensures Feasible(es[..n])
    decreases |es|
  {
    if n == |es| {
      assert es[..n] == es;
    } else {
      FeasiblePrefix(es[..|es| - 1], n);
      assert es[..|es| - 1][..n] == es[..n];
    }
  }

  /** A waiting queue is taken away between the test that saw it and the append that belongs to the test. */
  ghost predicate Straddled(es: seq<Event>, i: nat, j: nat, k: nat, url: Url)
    requires Feasible(es)
  {
    && i < j < k < |es| && es[k].AppendUrl? && NoAppend(es, i, k)
    && Feasible(es[..i]) && Feasible(es[..j])
    && TestsWaiting(es, i, url) && JoinsAt(es, j, url.domain)
  }

  ghost predicate SomeStraddled(es: seq<Event>)
    requires Feasible(es)
  {
    exists i, j, k, url :: Straddled(es, i, j, k, url)
  }

  lemma StepsBack(es: seq<Event>, n: nat, i: nat)
    requires i <= n <= |es|
    ensures es[..n][..i] == es[..i]
  {
  }

  /** i is the test that an append, due after es, belongs to; j is where its queue was taken away, if it was. */
  ghost predicate Since(es: seq<Event>, url: Url, i: nat, j: nat)
    requires Feasible(es)
  {
    && i < |es| && Feasible(es[..i]) && TestsWaiting(es, i, url) && NoAppend(es, i, |es|)
    && (!HasQueue(After(es).s, url.domain) ==> i < j < |es| && Feasible(es[..j]) && JoinsAt(es, j, url.domain))
  }

  lemma AdderStep(h: History, e: Event, url: Url)
    requires Enabled(h, e) && Next(h, e).adder == Adding(url, SawWaiting)
    ensures !e.AppendUrl?
    ensures e.TestDomain? ==> e == TestDomain(url) && HasQueue(Next(h, e).s, url.domain)
                              && Look(h.s, url.domain).SawWaiting?
    ensures !e.TestDomain? ==> h.adder == Adding(url, SawWaiting)
  {
  }

  lemma QueueStep(h: History, e: Event, d: string)
    requires Control(h) && Enabled(h, e) && HasQueue(h.s, d) && !HasQueue(Next(h, e).s, d)
    ensures e.JoinQueues? && h.resolver == Splicing(d)
  {
  }

  lemma TestCarried(es: seq<Event>, k: nat, url: Url, i: nat)
    requires i < k <= |es| && Feasible(es[..k][..i]) && TestsWaiting(es[..k], i, url)
    ensures Feasible(es[..i]) && TestsWaiting(es, i, url)
  {
    StepsBack(es, k, i);
  }

  lemma JoinCarried(es: seq<Event>, k: nat, d: string, j: nat)
    requires j < k <= |es| && Feasible(es[..k][..j]) && JoinsAt(es[..k], j, d)
    ensures Feasible(es[..j]) && JoinsAt(es, j, d)
  {
    StepsBack(es, k, j);
  }

  lemma NoAppendCarried(es: seq<Event>, k: nat, i: nat)
    requires k <= |es| && NoAppend(es[..k], i, k)
    ensures NoAppend(es, i, k)
    ensures k + 1 == |es| && !es[k].AppendUrl? ==> NoAppend(es, i, k + 1)
  {
    forall m | i < m < k
      ensures !es[m].AppendUrl?
    {
      assert es[m] == es[..k][m];
    }
  }

  lemma SinceLater(es: seq<Event>, n: nat, url: Url, i: nat, j: nat)
    requires n + 1 == |es| && Feasible(es) && Feasible(es[..n]) && Since(es[..n], url, i, j) && !es[n].AppendUrl?
    requires HasQueue(After(es).s, url.domain) || !HasQueue(After(es[..n]).s, url.domain)
    ensures Since(es, url, i, j)
  {
    TestCarried(es, n, url, i);
    NoAppendCarried(es, n, i);
    if !HasQueue(After(es).s, url.domain) {
      JoinCarried(es, n, url.domain, j);
    }
  }

  lemma SinceNow(es: seq<Event>, n: nat, url: Url, i: nat, j: nat)
    requires n + 1 == |es| && Feasible(es) && Feasible(es[..n]) && Since(es[..n], url, i, j) && !es[n].AppendUrl?
    requires JoinsAt(es, n, url.domain)
    ensures Since(es, url, i, n)
  {
    TestCarried(es, n, url, i);
    NoAppendCarried(es, n, i);
  }

  /** An append that is due goes back to a test; if its queue is gone, it was taken away in between. */
  lemma {:induction false} PendingSince(es: seq<Event>, url: Url) returns (i: nat, j: nat)
    requires Feasible(es) && After(es).adder == Adding(url, SawWaiting)
    ensures Since(es, url, i, j)
    decreases |es|
  {
    var n := |es| - 1;
    var h := After(es[..n]);
    AdderStep(h, es[n], url);
    if es[n].TestDomain? {
      i, j := n, n;
    } else {
      i, j := PendingSince(es[..n], url);
      if HasQueue(h.s, url.domain) && !HasQueue(After(es).s, url.domain) {
        ReachableInv(es[..n]);
        QueueStep(h, es[n], url.domain);
        SinceNow(es, n, url, i, j);
        j := n;
      } else {
        SinceLater(es, n, url, i, j);
      }
    }
  }

  lemma {:induction false} StaysPending(es: seq<Event>, i: nat, k: nat, url: Url)
    requires Feasible(es) && i < k <= |es| && Feasible(es[..i]) && TestsWaiting(es, i, url) && NoAppend(es, i, k)
    ensures Feasible(es[..k]) && After(es[..k]).adder == Adding(url, SawWaiting)
    decreases k
  {
    FeasiblePrefix(es, k);
    StepsBack(es, k, k - 1);
    if k > i + 1 {
      StaysPending(es, i, k - 1, url);
    }
  }

  predicate ResolvedIn(s: State, d: string) {
    d in s.cache && s.cache[d].Resolved?
  }

  lemma NextResolved(h: History, e: Event, d: string)
    requires AdderOk(h) && Enabled(h, e) && ResolvedIn(h.s, d)
    ensures ResolvedIn(Next(h, e).s, d)
  {
  }

  lemma ResolvedStep(es: seq<Event>, m: nat, d: string)
    requires 0 < m <= |es| && Feasible(es[..m])
    ensures Feasible(es[..m - 1])
    ensures ResolvedIn(After(es[..m - 1]).s, d) ==> ResolvedIn(After(es[..m]).s, d)
  {
    StepsBack(es, m, m - 1);
    var h, e := After(es[..m - 1]), es[m - 1];
    ReachableInv(es[..m - 1]);
    if ResolvedIn(h.s, d) {
      NextResolved(h, e, d);
    }
  }

  lemma {:induction false} StaysResolved(es: seq<Event>, n: nat, m: nat, d: string)
    requires n <= m <= |es| && Feasible(es[..n]) && Feasible(es[..m])
    requires ResolvedIn(After(es[..n]).s, d)
    ensures ResolvedIn(After(es[..m]).s, d)
    decreases m
  {
    if n < m {
      ResolvedStep(es, m, d);
      StaysResolved(es, n, m - 1, d);
    }
  }

  lemma JoinStep(h: History, d: string)
    requires Control(h) && Enabled(h, JoinQueues) && h.resolver == Splicing(d)
    ensures ResolvedIn(Next(h, JoinQueues).s, d)
  {
  }

  lemma JoinResolves(es: seq<Event>, j: nat, d: string)
    requires j < |es| && Feasible(es) && Feasible(es[..j]) && JoinsAt(es, j, d)
    ensures Feasible(es[..j + 1]) && ResolvedIn(After(es[..j + 1]).s, d)
  {
    FeasiblePrefix(es, j + 1);
    StepsBack(es, j + 1, j);
    ReachableInv(es[..j]);
    JoinStep(After(es[..j]), d);
  }

  /** Nothing happens after a URL is lost. */
  lemma LostIsLast(es: seq<Event>, k: nat)
    requires k <= |es| && Feasible(es) && Feasible(es[..k]) && After(es[..k]).lost.Some?
    ensures k == |es|
  {
    if k < |es| {
      FeasiblePrefix(es, k + 1);
      StepsBack(es, k + 1, k);
    }
  }

  lemma LosesNow(es: seq<Event>, k: nat, url: Url)
    requires k < |es| && Feasible(es) && es[k].AppendUrl? && Feasible(es[..k])
    requires After(es[..k]).adder == Adding(url, SawWaiting) && ResolvedIn(After(es[..k]).s, url.domain)
    ensures After(es).lost == Some(url)
  {
    FeasiblePrefix(es, k + 1);
    StepsBack(es, k + 1, k);
    assert After(es[..k + 1]).lost == Some(url);
    LostIsLast(es, k + 1);
    assert es[..k + 1] == es;
  }

  lemma StraddledLoses(es: seq<Event>, i: nat, j: nat, k: nat, url: Url)
    requires Feasible(es) && Straddled(es, i, j, k, url)
    ensures After(es).lost == Some(url)
  {
    StaysPending(es, i, k, url);
    JoinResolves(es, j, url.domain);
    StaysResolved(es, j + 1, k, url.domain);
    LosesNow(es, k, url);
  }

  lemma LosingStep(h: History, e: Event)
    requires Enabled(h, e) && Next(h, e).lost.Some?
    ensures e.AppendUrl? && h.adder == Adding(h.adder.url, SawWaiting) && !HasQueue(h.s, h.adder.url.domain)
  {
  }

  lemma SinceStraddled(es: seq<Event>, k: nat, url: Url, i: nat, j: nat)
    requires k < |es| && Feasible(es) && Feasible(es[..k]) && es[k].AppendUrl?
    requires Since(es[..k], url, i, j) && !HasQueue(After(es[..k]).s, url.domain)
    ensures Straddled(es, i, j, k, url)
  {
    TestCarried(es, k, url, i);
    NoAppendCarried(es, k, i);
    JoinCarried(es, k, url.domain, j);
  }

  lemma LostIsStraddled(es: seq<Event>)
    requires Feasible(es) && After(es).lost.Some?
    ensures SomeStraddled(es)
  {
    var k := |es| - 1;
    var h := After(es[..k]);
    LosingStep(h, es[k]);
    var i, j := PendingSince(es[..k], h.adder.url);
    SinceStraddled(es, k, h.adder.url, i, j);
  }

  /** Every append finds its queue, and every URL added is taken, queued, waiting or about to be put somewhere, exactly
      when no good response takes a waiting queue away between a test that saw it and the append that belongs to the
      test. */
  lemma ConservedIffNotStraddled(es: seq<Event>)
    requires Feasible(es)
    ensures After(es).lost.None? <==> !SomeStraddled(es)
    ensures (forall u :: Conserved(After(es), u)) <==> !SomeStraddled(es)
  {
    forall u
      ensures Conserved(After(es), u) <==> After(es).lost != Some(u)
    {
      ConservedUnlessLost(es, u);
    }
    if After(es).lost.Some? {
      LostIsStraddled(es);
      assert !Conserved(After(es), After(es).lost.value);
    } else if SomeStraddled(es) {
      var i, j, k, url :| Straddled(es, i, j, k, url);
      StraddledLoses(es, i, j, k, url);
    }
  }

  // ----- order -----

  /** The URLs of a domain are taken, queued and waiting in the order in which they were added. */
  ghost predicate Ordered(h: History, d: string) {
    OfDomain(h.added, d) == Line(h, d)
  }

  predicate AllAre(us: seq<Url>, u: Url) {
    forall i :: 0 <= i < |us| ==> us[i] == u
  }

  lemma {:induction false} Rotated(us: seq<Url>, u: Url, i: nat)
    requires us + [u] == [u] + us && i < |us|
    ensures us[i] == u
  {
    assert us[i] == (us + [u])[i] == ([u] + us)[i];
    if i > 0 {
      Rotated(us, u, i - 1);
    }
  }

  lemma RotatedIff(front: seq<Url>, us: seq<Url>, u: Url)
    ensures front + us + [u] == front + [u] + us <==> AllAre(us, u)
  {
    if front + us + [u] == front + [u] + us {
      assert us + [u] == (front + us + [u])[|front|..];
      assert [u] + us == (front + [u] + us)[|front|..];
      forall i | 0 <= i < |us|
        ensures us[i] == u
      {
        Rotated(us, u, i);
      }
    } else if AllAre(us, u) {
      assert us + [u] == [u] + us;
      Regroup(front, us, [u]);
      Regroup(front, [u], us);
    }
  }

  /** The step puts a URL into the download queue in front of other ones that waited before it. */
  predicate Reorders(h: History, e: Event) {
    Overtakes(h, e) && !AllAre(Parked(h.s, h.adder.url.domain), h.adder.url)
  }

  lemma OrderIffNotReordered(h: History, e: Event)
    requires Control(h) && Enabled(h, e) && forall d :: Ordered(h, d)
    ensures (forall d :: Ordered(Next(h, e), d)) <==> !Reorders(h, e)
  {
    forall d
      ensures Ordered(Next(h, e), d) <==> !(Reorders(h, e) && h.adder.url.domain == d)
    {
      assert Ordered(h, d);
      NextLine(h, e, d);
      NextAdded(h, e, d);
      if Overtakes(h, e) {
        OvertakenLine(h, d);
      }
    }
    assert Reorders(h, e) ==> !Ordered(Next(h, e), h.adder.url.domain);
  }

  lemma OvertakenLine(h: History, d: string)
    requires Control(h) && Enabled(h, AppendUrl) && Overtakes(h, AppendUrl)
    ensures Line(Next(h, AppendUrl), d) == Line(h, d)
            <==> (h.adder.url.domain == d ==> AllAre(Parked(h.s, d), h.adder.url))
  {
    QueueLine(h, d);
    OfDomainOne(h.adder.url, d);
    var front := OfDomain(h.taken + h.s.down, d);
    if h.adder.url.domain == d {
      RotatedIff(front, Parked(h.s, d), h.adder.url);
    } else {
      Swap(front, Parked(h.s, d), []);
    }
  }

  /** No step of the run reorders. */
  predicate Orderly(es: seq<Event>)
    requires Feasible(es)
  {
    |es| == 0 || (Orderly(es[..|es| - 1]) && !Reorders(After(es[..|es| - 1]), es[|es| - 1]))
  }

  /** First come, first served in every domain, as long as no URL gets into the download queue between the flag of its
      domain and the splice. */
  lemma {:induction false} OrderlyRunsKeepOrder(es: seq<Event>)
    requires Feasible(es) && Orderly(es)
    ensures forall d :: Ordered(After(es), d)
    decreases |es|
  {
    if |es| > 0 {
      var h := After(es[..|es| - 1]);
      OrderlyRunsKeepOrder(es[..|es| - 1]);
      ReachableInv(es[..|es| - 1]);
      OrderIffNotReordered(h, es[|es| - 1]);
    }
  }

  /** Once the address of a domain is known and its queue is gone, that stays so, and everything ever added for the
      domain has been queued or taken, but for the URL that url_add has in hand or has lost. */
  lemma ResolvedForGood(es: seq<Event>, n: nat, d: string)
    requires n <= |es| && Feasible(es) && Feasible(es[..n])
    requires ResolvedIn(After(es[..n]).s, d)
    ensures var h := After(es);
            && ResolvedIn(h.s, d)
            && multiset(OfDomain(h.added, d)) == multiset(OfDomain(h.taken + h.s.down, d) + OfDomain(Pending(h), d))
  {
    assert es[..|es|] == es;
    StaysResolved(es, n, |es|, d);
    ReachableInv(es);
    var h := After(es);
    assert Balanced(h, d);
    Swap(OfDomain(h.taken + h.s.down, d), [], OfDomain(Pending(h), d));
  }

  // ----- why an address is known -----

  /** The address of d is known, whether or not its URLs have moved. */
  predicate KnownIn(s: State, d: string) {
    d in s.cache && !s.cache[d].Waiting?
  }

  /** A response with other flags than 0x8180 changes nothing, and neither does one for a domain that does not wait. */
  lemma OtherResponseIgnored(h: History, host: string, flags: int)
    requires Enabled(h, Receive(host, flags))
    requires flags != 0x8180 || host !in h.s.cache || KnownIn(h.s, host)
    ensures Next(h, Receive(host, flags)) == h
  {
  }

  /** A response with the flags 0x8180 to a waiting domain marks it, with the URLs that wait, and changes nothing else. */
  lemma GoodResponseMarks(h: History, d: string)
    requires Enabled(h, Receive(d, 0x8180)) && d in h.s.cache && h.s.cache[d].Waiting?
    ensures Next(h, Receive(d, 0x8180))
            == h.(s := h.s.(cache := h.s.cache[d := Marked(h.s.cache[d].urls)]), resolver := Splicing(d))
  {
  }

  /** At step j a response with the flags 0x8180 comes for d, and d has its entry. */
  predicate AnsweredAt(es: seq<Event>, j: nat, d: string)
    requires j < |es| && Feasible(es[..j])
  {
    es[j] == Receive(d, 0x8180) && d in After(es[..j]).s.cache
  }

  /** Only such a response makes an address known. */
  lemma KnownStep(h: History, e: Event, d: string)
    requires Control(h) && Enabled(h, e)
    ensures KnownIn(Next(h, e).s, d) <==> KnownIn(h.s, d) || (e == Receive(d, 0x8180) && d in h.s.cache)
  {
  }

  lemma {:induction false} KnownWasAnswered(es: seq<Event>, d: string) returns (j: nat)
    requires Feasible(es) && KnownIn(After(es).s, d)
    ensures j < |es| && Feasible(es[..j]) && AnsweredAt(es, j, d)
    decreases |es|
  {
    var n := |es| - 1;
    ReachableInv(es[..n]);
    KnownStep(After(es[..n]), es[n], d);
    if KnownIn(After(es[..n]).s, d) {
      j := KnownWasAnswered(es[..n], d);
      StepsBack(es, n, j);
    } else {
      j := n;
    }
  }

  lemma {:induction false} AnsweredIsKnown(es: seq<Event>, j: nat, d: string)
    requires Feasible(es) && j < |es| && Feasible(es[..j]) && AnsweredAt(es, j, d)
    ensures KnownIn(After(es).s, d)
    decreases |es|
  {
    var n := |es| - 1;
    ReachableInv(es[..n]);
    KnownStep(After(es[..n]), es[n], d);
    if j < n {
      StepsBack(es, n, j);
      AnsweredIsKnown(es[..n], j, d);
    }
  }

  /** In every run the address of a domain is known exactly if a response with the flags 0x8180 has come for it since
      its entry was made. */
  lemma KnownIffAnswered(es: seq<Event>, d: string)
    requires Feasible(es)
    ensures KnownIn(After(es).s, d) <==> exists j :: 0 <= j < |es| && Feasible(es[..j]) && AnsweredAt(es, j, d)
  {
    if KnownIn(After(es).s, d) {
      var j := KnownWasAnswered(es, d);
    } else if j :| 0 <= j < |es| && Feasible(es[..j]) && AnsweredAt(es, j, d) {
      AnsweredIsKnown(es, j, d);
    }
  }

  // ----- some runs -----

  lemma Goes(es: seq<Event>, e: Event)
    requires Feasible(es) && Enabled(After(es), e)
    ensures Feasible(es + [e]) && After(es + [e]) == Next(After(es), e)
  {
    assert (es + [e])[..|es|] == es;
  }

  /** Without steps of the resolver in between, the steps of url_add come to the whole function. */
  lemma UninterruptedAdd(es: seq<Event>, url: Url) returns (es': seq<Event>)
    requires Feasible(es) && After(es).adder.Idle? && After(es).resolver.Listening? && After(es).lost.None?
    ensures es <= es' && Feasible(es')
    ensures var h, h' := After(es), After(es');
            h' == h.(s := Add(h.s, url), added := h.added + [url])
  {
    Goes(es, TestDomain(url));
    es' := es + [TestDomain(url)];
    Goes(es', AppendUrl);
    es' := es' + [AppendUrl];
    if Look(After(es).s, url.domain).SawNothing? {
      Goes(es', PutDomain);
      es' := es' + [PutDomain];
    }
  }

  lemma UninterruptedAnswer(es: seq<Event>, host: string, flags: int) returns (es': seq<Event>)
    requires Feasible(es) && After(es).resolver.Listening? && After(es).lost.None?
    ensures es <= es' && Feasible(es')
    ensures var h, h' := After(es), After(es');
            h' == h.(s := Answer(h.s, host, flags))
  {
    Goes(es, Receive(host, flags));
    es' := es + [Receive(host, flags)];
    if Answers(After(es).s, host, flags) {
      Goes(es', JoinQueues);
      es' := es' + [JoinQueues];
    }
  }

  /** A URL is lost when the answer to the lookup of its domain comes while it is being added. */
  lemma LosingRun(a: Url, b: Url) returns (es: seq<Event>)
    requires a.domain == b.domain
    ensures Feasible(es) && After(es).added == [a, b] && After(es).lost == Some(b) && After(es).s.down == [a]
  {
    es := UninterruptedAdd([], a);
    Goes(es, TestDomain(b));
    es := es + [TestDomain(b)];
    es := UninterruptedAnswer(es, a.domain, GOOD_RESPONSE);
    Goes(es, AppendUrl);
    es := es + [AppendUrl];
  }

  /** A URL overtakes an earlier one of its domain when it is added between the flag and the splice. */
  lemma OvertakingRun(a: Url, b: Url) returns (es: seq<Event>)
    requires a.domain == b.domain
    ensures Feasible(es) && After(es).added == [a, b] && After(es).s.down == [b, a]
  {
    es := UninterruptedAdd([], a);
    Goes(es, Receive(a.domain, GOOD_RESPONSE));
    es := es + [Receive(a.domain, GOOD_RESPONSE)];
    Goes(es, TestDomain(b));
    es := es + [TestDomain(b)];
    Goes(es, AppendUrl);
    es := es + [AppendUrl];
    Goes(es, JoinQueues);
    es := es + [JoinQueues];
  }
}
