/** The crawler's frontier: URLs wait under their domain until its address is known, then join the
    download queue. Each critical section, and each test outside of one, is a step of its own; a URL is its domain
    and its normalised text. */
module Frontier {
  import opened Wrappers
  import opened LinkedQueue

  datatype Url = Url(domain: string, text: string)

  /** What is known of a domain: the URLs that wait for its address; that the address is known and those URLs are
      about to move; or that they have moved and the waiting queue is gone. */
  datatype Entry = Waiting(urls: seq<Url>) | Marked(urls: seq<Url>) | Resolved

  /** dns: domains still to be looked up; down: URLs ready for download. */
  datatype State = State(cache: map<string, Entry>, dns: seq<string>, down: seq<Url>)

  const GOOD_RESPONSE := 0x8180

  // ----- single steps -----

  /** What url_add finds out about a domain before it takes any lock. */
  datatype Saw = SawNothing | SawWaiting | SawKnown

  function Look(s: State, domain: string): Saw {
    if domain !in s.cache then SawNothing else if s.cache[domain].Waiting? then SawWaiting else SawKnown
  }

  function Enter(s: State, url: Url): State {
    s.(cache := s.cache[url.domain := Waiting([url])])
  }

  function Announce(s: State, domain: string): State {
    s.(dns := s.dns + [domain])
  }

  function Queue(s: State, url: Url): State {
    s.(down := s.down + [url])
  }

  predicate HasQueue(s: State, domain: string) {
    domain in s.cache && !s.cache[domain].Resolved?
  }

  function Park(s: State, url: Url): State
    requires HasQueue(s, url.domain)
  {
    var e := s.cache[url.domain];
    s.(cache := s.cache[url.domain := e.(urls := e.urls + [url])])
  }

  /** The response is good and its host waits for it. */
  predicate Answers(s: State, host: string, flags: int) {
    host in s.cache && s.cache[host].Waiting? && flags == GOOD_RESPONSE
  }

  function Mark(s: State, host: string): State
    requires host in s.cache && s.cache[host].Waiting?
  {
    s.(cache := s.cache[host := Marked(s.cache[host].urls)])
  }

  function Splice(s: State, host: string): State
    requires host in s.cache && s.cache[host].Marked?
  {
    s.(cache := s.cache[host := Resolved], down := s.down + s.cache[host].urls)
  }

  // ----- whole functions, when nothing comes between their steps -----

  function Add(s: State, url: Url): State {
    match Look(s, url.domain)
    case SawNothing => Announce(Enter(s, url), url.domain)
    case SawWaiting => Park(s, url)
    case SawKnown => Queue(s, url)
  }

  /** A DNS response for a host; only a good one for a waiting domain changes anything. */
  function Answer(s: State, host: string, flags: int): State {
    if Answers(s, host, flags) then Splice(Mark(s, host), host) else s
  }

  class CacheVal {
    var flags: int
    var down: QueueHead?<Url>
    ghost var Repr: set<object>

    constructor (down: QueueHead<Url>)
      requires down.Valid()
      ensures Valid() && fresh(Repr - down.Repr) && Entry() == Waiting(down.Contents())
    {
      this.flags, this.down := 0, down;
      Repr := {this} + down.Repr;
    }

    /** flags == 1 means the address is known; until then there is a waiting queue. */
    ghost predicate Valid()
      reads this, Repr
      ensures Valid() ==> this in Repr
    {
      && this in Repr
      && (flags == 0 || flags == 1)
      && (flags == 0 ==> down != null)
      && (down != null ==> down in Repr && down.Repr <= Repr && this !in down.Repr && down.Valid())
    }

    ghost function Entry(): Entry
      requires Valid()
      reads this, Repr
    {
      if down == null then Resolved
      else if flags == 1 then Marked(down.Contents()) else Waiting(down.Contents())
    }

    /** down_add to the waiting queue. */
    method Park(url: Url)
      requires Valid() && down != null
      modifies Repr
      ensures Valid() && fresh(Repr - old(Repr))
      ensures !old(Entry()).Resolved? && Entry() == old(Entry()).(urls := old(Entry()).urls + [url])
    {
      down.Put(url);
      Repr := Repr + down.Repr;
    }

    /** The address is known. */
    method Mark()
      requires Valid() && flags == 0
      modifies this
      ensures Valid() && Repr == old(Repr) && Entry() == Marked(old(Entry()).urls)
    {
      flags := 1;
    }

    /** The waiting URLs move to the download queue, and the waiting queue goes. */
    method Release(queue: QueueHead<Url>)
      requires Valid() && flags == 1 && down != null && queue.Valid() && queue.Repr !! Repr
      modifies Repr, queue.Repr
      ensures Valid() && queue.Valid() && queue.Repr !! Repr
      ensures fresh(queue.Repr - old(queue.Repr) - old(Repr)) && fresh(Repr - old(Repr))
      ensures Entry() == Resolved && queue.Contents() == old(queue.Contents()) + old(Entry()).urls
    {
      queue.JoinInit(down);
      down := null;
      Repr := {this};
    }
  }

  /** calloc of a cache entry with the URL as the first to wait. */
  method NewEntry(url: Url) returns (val: CacheVal)
    ensures val.Valid() && fresh(val.Repr) && val.Entry() == Waiting([url])
  {
    var q := new QueueHead<Url>();
    q.Put(url);
    assert q.Contents() == [url];
    val := new CacheVal(q);
  }

  class TotalContext {
    var cacheDns: map<string, CacheVal>
    const queueDns: QueueHead<string>
    const down: QueueHead<Url>
    ghost var Repr: set<object>

    ghost predicate Valid()
      reads this, Repr
      ensures Valid() ==> this in Repr
    {
      && this in Repr
      && queueDns in Repr && queueDns.Repr <= Repr && queueDns.Valid()
      && down in Repr && down.Repr <= Repr && down.Valid()
      && this !in queueDns.Repr && this !in down.Repr && queueDns.Repr !! down.Repr
      && (forall d :: d in cacheDns ==> Owned(d))
      && (forall d, e :: d in cacheDns && e in cacheDns && d != e ==> cacheDns[d].Repr !! cacheDns[e].Repr)
    }

    /** The entry of d is valid and shares nothing with the queues. */
    ghost predicate Owned(d: string)
      requires d in cacheDns && queueDns in Repr && down in Repr
      reads this, Repr
    {
      && cacheDns[d] in Repr && cacheDns[d].Repr <= Repr && cacheDns[d].Valid()
      && this !in cacheDns[d].Repr && cacheDns[d].Repr !! queueDns.Repr && cacheDns[d].Repr !! down.Repr
    }

    ghost function Entries(): map<string, Entry>
      requires Valid()
      reads this, Repr
    {
      map d | d in cacheDns :: cacheDns[d].Entry()
    }

    /** The entries are those of m, except for d. */
    ghost predicate Changed(d: string, m: map<string, Entry>)
      requires Valid()
      reads this, Repr
    {
      m.Keys == cacheDns.Keys && forall e :: e in cacheDns && e != d ==> cacheDns[e].Entry() == m[e]
    }

    lemma ChangedEntries(d: string, m: map<string, Entry>)
      requires Valid() && d in cacheDns && Changed(d, m)
      ensures Entries() == m[d := cacheDns[d].Entry()]
    {
    }

    ghost function Model(): State
      requires Valid()
      reads this, Repr
    {
      State(Entries(), queueDns.Contents(), down.Contents())
    }

    constructor ()
      ensures Valid() && fresh(Repr) && Model() == State(map[], [], [])
    {
      cacheDns := map[];
      queueDns := new QueueHead<string>();
      down := new QueueHead<Url>();
      new;
      Repr := {this} + queueDns.Repr + down.Repr;
    }

    /** ant_hash_put of a new entry. */
    method PutEntry(domain: string, val: CacheVal)
      requires Valid() && domain !in cacheDns && val.Valid() && val.Repr !! Repr
      modifies this
      ensures Valid() && Repr == old(Repr) + val.Repr && cacheDns == old(cacheDns)[domain := val]
    {
      cacheDns := cacheDns[domain := val];
      Repr := Repr + val.Repr;
    }

    method PutDns(domain: string)
      requires Valid()
      modifies this, queueDns.Repr
      ensures Valid() && fresh(Repr - old(Repr)) && cacheDns == old(cacheDns)
      ensures queueDns.Contents() == old(queueDns.Contents()) + [domain]
    {
      queueDns.Put(domain);
      Repr := Repr + queueDns.Repr;
    }

    method PutDown(url: Url)
      requires Valid()
      modifies this, down.Repr
      ensures Valid() && fresh(Repr - old(Repr)) && cacheDns == old(cacheDns)
      ensures down.Contents() == old(down.Contents()) + [url]
    {
      down.Put(url);
      Repr := Repr + down.Repr;
    }

    method ParkAt(d: string, url: Url)
      requires Valid() && d in cacheDns && cacheDns[d].down != null
      modifies this, cacheDns[d].Repr
      ensures Valid() && fresh(Repr - old(Repr)) && cacheDns == old(cacheDns)
      ensures !old(cacheDns[d].Entry()).Resolved?
      ensures cacheDns[d].Entry() == old(cacheDns[d].Entry()).(urls := old(cacheDns[d].Entry()).urls + [url])
      ensures Changed(d, old(Entries()))
    {
      var val := cacheDns[d];
      val.Park(url);
      Repr := Repr + val.Repr;
      forall e | e in cacheDns && e != d
        ensures Owned(e) && cacheDns[e].Entry() == old(cacheDns[e].Entry())
      {
        assert old(Owned(e));
        assert cacheDns[e].Repr !! val.Repr;
      }
      assert Owned(d);
    }

    method ReleaseAt(d: string)
      requires Valid() && d in cacheDns && cacheDns[d].flags == 1 && cacheDns[d].down != null
      modifies this, cacheDns[d].Repr, down.Repr
      ensures Valid() && fresh(Repr - old(Repr)) && cacheDns == old(cacheDns)
      ensures cacheDns[d].Entry() == Resolved
      ensures down.Contents() == old(down.Contents()) + old(cacheDns[d].Entry()).urls
      ensures Changed(d, old(Entries()))
    {
      var val := cacheDns[d];
      val.Release(down);
      Repr := Repr + val.Repr + down.Repr;
      forall e | e in cacheDns && e != d
        ensures Owned(e) && cacheDns[e].Entry() == old(cacheDns[e].Entry())
      {
        assert old(Owned(e));
        assert cacheDns[e].Repr !! val.Repr;
      }
      assert Owned(d);
    }

    // ----- url_add -----

    /** The tests at the start of url_add, which take no lock. */
    method LookUp(domain: string) returns (saw: Saw)
      requires Valid()
      ensures saw == Look(Model(), domain)
    {
      if domain !in cacheDns {
        return SawNothing;
      }
      saw := if cacheDns[domain].flags == 1 then SawKnown else SawWaiting;
    }

    method EnterWaiting(url: Url, val: CacheVal)
      requires Valid() && url.domain !in cacheDns && val.Valid() && val.Repr !! Repr && val.Entry() == Waiting([url])
      modifies this
      ensures Valid() && Repr == old(Repr) + val.Repr
      ensures Model() == Enter(old(Model()), url)
    {
      PutEntry(url.domain, val);
    }

    method EnterUrl(url: Url)
      requires Valid() && url.domain !in cacheDns
      modifies this
      ensures Valid() && fresh(Repr - old(Repr))
      ensures Model() == Enter(old(Model()), url)
    {
      var val := NewEntry(url);
      EnterWaiting(url, val);
    }

    method AnnounceDomain(domain: string)
      requires Valid()
      modifies Repr
      ensures Valid() && fresh(Repr - old(Repr))
      ensures Model() == Announce(old(Model()), domain)
    {
      PutDns(domain);
      assert Entries() == old(Entries());
    }

    method QueueUrl(url: Url)
      requires Valid()
      modifies Repr
      ensures Valid() && fresh(Repr - old(Repr))
      ensures Model() == Queue(old(Model()), url)
    {
      PutDown(url);
      assert Entries() == old(Entries());
    }

    /** Append to the waiting queue of a known domain. When the queue is gone the code goes on through a null
        pointer; here that is reported. */
    method ParkUrl(url: Url) returns (ok: bool)
      requires Valid() && url.domain in cacheDns
      modifies Repr
      ensures Valid() && fresh(Repr - old(Repr))
      ensures ok <==> HasQueue(old(Model()), url.domain)
      ensures Model() == if ok then Park(old(Model()), url) else old(Model())
    {
      if cacheDns[url.domain].down == null {
        return false;
      }
      ParkAt(url.domain, url);
      ChangedEntries(url.domain, old(Entries()));
      ok := true;
    }

    /** The whole of url_add when nothing comes between its steps: then the queue is there. */
    method UrlAdd(url: Url)
      requires Valid()
      modifies Repr
      ensures Valid() && fresh(Repr - old(Repr))
      ensures Model() == Add(old(Model()), url)
    {
      var saw := LookUp(url.domain);
      match saw
      case SawNothing =>
        EnterUrl(url);
        AnnounceDomain(url.domain);
      case SawKnown =>
        QueueUrl(url);
      case SawWaiting =>
        var ok := ParkUrl(url);
        assert ok;
    }

    // ----- process_cache_dns -----

    method MarkAt(d: string)
      requires Valid() && d in cacheDns && cacheDns[d].flags == 0
      modifies cacheDns[d]
      ensures Valid() && Repr == old(Repr) && cacheDns == old(cacheDns)
      ensures cacheDns[d].Entry() == Marked(old(cacheDns[d].Entry()).urls)
      ensures Changed(d, old(Entries()))
    {
      assert Owned(d);
      cacheDns[d].Mark();
      assert Owned(d);
    }

    method MarkWaiting(d: string)
      requires Valid() && d in cacheDns && cacheDns[d].flags == 0
      modifies Repr
      ensures Valid() && Repr == old(Repr)
      ensures old(Entries())[d].Waiting? && Model() == Mark(old(Model()), d)
    {
      MarkAt(d);
      ChangedEntries(d, old(Entries()));
    }

    /** The tests on a response, and setting the flag. */
    method MarkHost(host: string, flags: int) returns (marked: bool)
      requires Valid()
      modifies Repr
      ensures Valid() && Repr == old(Repr)
      ensures marked <==> Answers(old(Model()), host, flags)
      ensures marked ==> flags == 0x8180 && host in old(Model()).cache && old(Model()).cache[host].Waiting?
      ensures Model() == if marked then Mark(old(Model()), host) else old(Model())
    {
      marked := host in cacheDns && cacheDns[host].flags != 1 && flags == GOOD_RESPONSE;
      if marked {
        MarkWaiting(host);
      }
    }

    method SpliceHost(host: string)
      requires Valid() && host in cacheDns && cacheDns[host].Entry().Marked?
      modifies Repr
      ensures Valid() && fresh(Repr - old(Repr))
      ensures Model() == Splice(old(Model()), host)
    {
      ReleaseAt(host);
      ChangedEntries(host, old(Entries()));
    }

    /** The whole of process_cache_dns when nothing comes between its steps. */
    method ProcessCacheDns(host: string, flags: int)
      requires Valid()
      modifies Repr
      ensures Valid() && fresh(Repr - old(Repr))
      ensures Model() == Answer(old(Model()), host, flags)
      ensures flags != 0x8180 ==> Model() == old(Model())
    {
      var marked := MarkHost(host, flags);
      if marked {
        assert host in Entries() && Entries()[host].Marked?;
        SpliceHost(host);
      }
    }

    /** The download thread's dequeue; None when the queue is empty. */
    method TakeUrl() returns (url: Option<Url>)
      requires Valid()
      modifies Repr
      ensures Valid() && fresh(Repr - old(Repr))
      ensures old(Model()).down == [] ==> url == None && Model() == old(Model())
      ensures old(Model()).down != [] ==> && url == Some(old(Model()).down[0])
                                          && Model() == old(Model()).(down := old(Model()).down[1..])
    {
      if down.size == 0 {
        return None;
      }
      var d := down.Get();
      url := Some(d);
      assert Entries() == old(Entries());
    }

    /** The resolver thread's dequeue. */
    method TakeDomain() returns (domain: Option<string>)
      requires Valid()
      modifies Repr
      ensures Valid() && fresh(Repr - old(Repr))
      ensures old(Model()).dns == [] ==> domain == None && Model() == old(Model())
      ensures old(Model()).dns != [] ==> && domain == Some(old(Model()).dns[0])
                                         && Model() == old(Model()).(dns := old(Model()).dns[1..])
    {
      if queueDns.size == 0 {
        return None;
      }
      var d := queueDns.Get();
      domain := Some(d);
      assert Entries() == old(Entries());
    }
  }
}
