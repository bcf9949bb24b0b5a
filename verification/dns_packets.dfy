/** Whole DNS packets: the query that is sent and the response that is read. */
module DnsPackets {
  import opened Wrappers
  import opened Octets
  import opened DnsCodec

  // ----- the query -----

  /** Identifier, flags (recursion desired), one question, no records. */
  function QueryHeader(id: nat): (h: seq<Octet>)
    ensures |h| == 12
  {
    Be16(id % 65536) + Be16(0x0100) + Be16(1) + Be16(0) + Be16(0) + Be16(0)
  }

  /** A query for the address of a name: type 1, class 1. */
  function Query(name: seq<Octet>, id: nat): (q: seq<Octet>)
    ensures |q| == |name| + 18
  {
    QueryHeader(id) + Qname(name, 0) + Be16(1) + Be16(1)
  }

  /** set_dns_packets; the packet must have room, as the source never checks. */
  method SetDnsPackets(name: seq<Octet>, packet: array<Octet>, id: nat) returns (n: nat)
    requires packet.Length >= |name| + 18
    modifies packet
    ensures n == |name| + 18 && packet[..n] == Query(name, id)
  {
    var qnbuf := new Octet[|name| + 2];
    SetQname(name, qnbuf);
    PutOctets(packet, 0, QueryHeader(id), []);
    assert [] + QueryHeader(id) == QueryHeader(id);
    PutOctets(packet, 12, qnbuf[..], QueryHeader(id));
    PutOctets(packet, |name| + 14, Be16(1), QueryHeader(id) + Qname(name, 0));
    PutOctets(packet, |name| + 16, Be16(1), QueryHeader(id) + Qname(name, 0) + Be16(1));
    n := |name| + 18;
  }

  // ----- the response -----

  /** The addresses the answer loop stores, when num are stored already and count records are left in s.
      None is a read past the end. */
  function Addresses(s: seq<Octet>, count: nat, num: nat): Option<seq<seq<Octet>>>
    decreases count
  {
    if count == 0 then Some([])
    else if |s| < 12 then None
    else
      var ipl := U16(s, 10);
      if U16(s, 2) == 1 && ipl == 4 then
        if num >= IP_LEN then Some([])
        else if |s| < 16 then None
        else Before(s[12..16], Addresses(s[16..], count - 1, num + 1))
      else Addresses(if |s| < 12 + ipl then [] else s[12 + ipl..], count - 1, num)
  }

  function Before(a: seq<Octet>, r: Option<seq<seq<Octet>>>): Option<seq<seq<Octet>>> {
    match r
    case None => None
    case Some(more) => Some([a] + more)
  }

  /** What reading a packet comes to: an access outside the packet or the host name, or the flags, the host
      name, and the addresses if the flags are those of a good response. */
  datatype Reading = Outside | Read(flags: nat, host: seq<Octet>, ips: seq<seq<Octet>>)

  function AfterName(flags: nat, count: nat, text: seq<Octet>, rest: seq<Octet>): Reading {
    match HostName(text)
    case None => Outside
    case Some(host) =>
      if flags != GOOD_RESPONSE then Read(flags, host, [])
      else
        match Addresses(if |rest| < 5 then [] else rest[5..], count, 0)
        case None => Outside
        case Some(ips) => Read(flags, host, ips)
  }

  function Parse(s: seq<Octet>): Reading {
    if |s| < 12 then Outside
    else
      match ReadText(s[12..])
      case None => Outside
      case Some((text, rest)) => AfterName(U16(s, 2), U16(s, 6), text, rest)
  }

  class DnsResponse {
    var hostName: seq<Octet>
    var ip: seq<seq<Octet>>
    var flags: nat

    constructor ()
      ensures hostName == [] && |ip| == IP_LEN
    {
      hostName, ip, flags := [], seq(IP_LEN, i => [0, 0, 0, 0]), 0;
    }
  }

  datatype Outcome = Accepted | Rejected | Overrun

  /** The first entries of ip are replaced by ips. */
  function Stored(ip: seq<seq<Octet>>, ips: seq<seq<Octet>>): seq<seq<Octet>>
    requires |ips| <= |ip|
  {
    ips + ip[|ips|..]
  }

  /** The records from bp on are those of s, count of them, and storing goes on at num: together they give all. */
  ghost predicate Storing(buf: seq<Octet>, bp: nat, count: nat, num: nat, stored: seq<seq<Octet>>,
                          all: Option<seq<seq<Octet>>>) {
    && num == |stored| <= IP_LEN
    && all == After(stored, Addresses(if bp <= |buf| then buf[bp..] else [], count, num))
  }

  function After(a: seq<seq<Octet>>, r: Option<seq<seq<Octet>>>): Option<seq<seq<Octet>>> {
    match r
    case None => None
    case Some(more) => Some(a + more)
  }

  lemma AfterBefore(stored: seq<seq<Octet>>, a: seq<Octet>, r: Option<seq<seq<Octet>>>)
    ensures After(stored, Before(a, r)) == After(stored + [a], r)
  {
    if r.Some? {
      assert stored + ([a] + r.value) == stored + [a] + r.value;
    }
  }

  /** A record that is stored. */
  lemma StoreOne(buf: seq<Octet>, bp: nat, count: nat, stored: seq<seq<Octet>>, all: Option<seq<seq<Octet>>>)
    requires count > 0 && Storing(buf, bp, count, |stored|, stored, all) && bp + 12 <= |buf|
    requires U16(buf, bp + 2) == 1 && U16(buf, bp + 10) == 4 && |stored| < IP_LEN
    ensures bp + 16 > |buf| ==> all == None
    ensures bp + 16 <= |buf| ==>
              Storing(buf, bp + 16, count - 1, |stored| + 1, stored + [buf[bp + 12..bp + 16]], all)
  {
    var s := buf[bp..];
    if bp + 16 <= |buf| {
      assert s[16..] == buf[bp + 16..] && s[12..16] == buf[bp + 12..bp + 16];
      AfterBefore(stored, s[12..16], Addresses(s[16..], count - 1, |stored| + 1));
    }
  }

  lemma StoringEnds(buf: seq<Octet>, bp: nat, count: nat, stored: seq<seq<Octet>>, all: Option<seq<seq<Octet>>>)
    requires Storing(buf, bp, count, |stored|, stored, all)
    ensures count == 0 ==> all == Some(stored)
    ensures count > 0 && bp + 12 > |buf| ==> all == None
    ensures count > 0 && bp + 12 <= |buf| && U16(buf, bp + 2) == 1 && U16(buf, bp + 10) == 4 && |stored| >= IP_LEN
            ==> all == Some(stored)
  {
    assert stored + [] == stored;
    if count > 0 && bp + 12 <= |buf| {
      var s := buf[bp..];
      assert U16(s, 2) == U16(buf, bp + 2) && U16(s, 10) == U16(buf, bp + 10);
    }
  }

  datatype Step = Next | Full | PastEnd

  /** One turn of the answer loop. */
  method ReadRecord(buf: seq<Octet>, bp0: nat, stored0: seq<seq<Octet>>, ghost count: nat,
                    ghost all: Option<seq<seq<Octet>>>)
    returns (step: Step, bp: nat, stored: seq<seq<Octet>>)
    requires count > 0 && Storing(buf, bp0, count, |stored0|, stored0, all)
    ensures step.Next? ==> Storing(buf, bp, count - 1, |stored|, stored, all)
    ensures step.Full? ==> all == Some(stored) && |stored| <= IP_LEN
    ensures step.PastEnd? ==> all == None
  {
    bp, stored := bp0, stored0;
    StoringEnds(buf, bp, count, stored, all);
    if bp + 12 > |buf| {
      return PastEnd, bp, stored;
    }
    var kind, ipl := U16(buf, bp + 2), U16(buf, bp + 10);
    if kind == 1 && ipl == 4 {
      if |stored| < IP_LEN {
        StoreOne(buf, bp, count, stored, all);
        if bp + 16 > |buf| {
          return PastEnd, bp, stored;
        }
        stored := stored + [buf[bp + 12..bp + 16]];
      } else {
        return Full, bp, stored;
      }
    }
    bp := bp + 12 + ipl;
    step := Next;
  }

  lemma NothingStored(all: Option<seq<seq<Octet>>>)
    ensures After([], all) == all
  {
    if all.Some? {
      assert [] + all.value == all.value;
    }
  }

  /** The answer loop: the addresses stored, in order. */
  method ReadAddresses(buf: seq<Octet>, bp0: nat, len: nat) returns (ok: bool, stored: seq<seq<Octet>>)
    ensures var all := Addresses(if bp0 <= |buf| then buf[bp0..] else [], len, 0);
            (ok <==> all.Some?) && (ok ==> all == Some(stored) && |stored| <= IP_LEN)
  {
    ghost var all := Addresses(if bp0 <= |buf| then buf[bp0..] else [], len, 0);
    NothingStored(all);
    var i, bp := 0, bp0;
    stored := [];
    while i < len
      invariant i <= len && Storing(buf, bp, len - i, |stored|, stored, all)
    {
      var step;
      step, bp, stored := ReadRecord(buf, bp, stored, len - i, all);
      if step.Full? || step.PastEnd? {
        return step.Full?, stored;
      }
      i := i + 1;
    }
    StoringEnds(buf, bp, 0, stored, all);
    ok := true;
  }

  /** parse_dns_packets; what the C code leaves undefined is an overrun. */
  method ParseDnsPackets(buf: seq<Octet>, data: DnsResponse) returns (rc: Outcome)
    requires |data.ip| == IP_LEN
    modifies data
    ensures rc == (match Parse(buf)
                   case Outside => Overrun
                   case Read(flags, _, _) => if flags == GOOD_RESPONSE then Accepted else Rejected)
    ensures rc.Overrun? || (&& data.flags == Parse(buf).flags && data.hostName == Parse(buf).host
                            && |Parse(buf).ips| <= IP_LEN && data.ip == Stored(old(data.ip), Parse(buf).ips))
  {
    if |buf| < 12 {
      return Overrun;
    }
    var flags, answers := U16(buf, 2), U16(buf, 6);
    data.flags := flags;
    var ok, text, bp := ReadHostText(buf, 12);
    if !ok || text == [] {
      return Overrun;
    }
    data.hostName := text[..|text| - 1];
    if flags != GOOD_RESPONSE {
      assert Stored(data.ip, []) == data.ip;
      return Rejected;
    }
    var stored;
    ok, stored := ReadAddresses(buf, bp + 5, answers);
    assert (if |buf[bp..]| < 5 then [] else buf[bp..][5..]) == if bp + 5 <= |buf| then buf[bp + 5..] else [];
    if !ok {
      return Overrun;
    }
    data.ip := stored + data.ip[|stored|..];
    return Accepted;
  }

  // ----- what the reader recovers -----

  /** A resource record whose owner name is a compression pointer of two octets; meta is its class and TTL. */
  datatype AnyRecord = Record(owner: seq<Octet>, kind: nat, meta: seq<Octet>, data: seq<Octet>)

  predicate RecordOk(r: AnyRecord) {
    |r.owner| == 2 && r.kind < 65536 && |r.meta| == 6 && |r.data| < 65536
  }

  /** A record whose fields have their sizes. */
  type Record = r: AnyRecord | RecordOk(r) witness AnyRecord.Record([0, 0], 0, [0, 0, 0, 0, 0, 0], [])

  function Encode(r: Record): (s: seq<Octet>)
    ensures |s| == 12 + |r.data|
  {
    r.owner + Be16(r.kind) + r.meta + Be16(|r.data|) + r.data
  }

  function EncodeAll(rs: seq<Record>): seq<Octet>
  {
    if rs == [] then [] else Encode(rs[0]) + EncodeAll(rs[1..])
  }

  predicate IsAddress(r: Record) {
    r.kind == 1 && |r.data| == 4
  }

  /** The addresses in the records, in order. */
  function AddressesIn(rs: seq<Record>): seq<seq<Octet>> {
    if rs == [] then []
    else (if IsAddress(rs[0]) then [rs[0].data] else []) + AddressesIn(rs[1..])
  }

  function First<T>(n: nat, s: seq<T>): seq<T> {
    if |s| <= n then s else s[..n]
  }

  lemma FirstCons<T>(n: nat, x: T, xs: seq<T>)
    requires n >= 1
    ensures First(n, [x] + xs) == [x] + First(n - 1, xs)
  {
  }

  /** The first addresses are found, in order, and every other record is skipped, whatever follows. */
  ghost predicate Found(rs: seq<Record>, rest: seq<Octet>, num: nat)
    requires num <= IP_LEN
  {
    Addresses(EncodeAll(rs) + rest, |rs|, num) == Some(First(IP_LEN - num, AddressesIn(rs)))
  }

  lemma EncodeFirst(rs: seq<Record>, rest: seq<Octet>)
    requires rs != []
    ensures EncodeAll(rs) + rest == Encode(rs[0]) + (EncodeAll(rs[1..]) + rest)
  {
  }

  lemma FoundOther(rs: seq<Record>, rest: seq<Octet>, num: nat)
    requires num <= IP_LEN && rs != [] && !IsAddress(rs[0]) && Found(rs[1..], rest, num)
    ensures Found(rs, rest, num)
  {
    EncodeFirst(rs, rest);
    assert [] + AddressesIn(rs[1..]) == AddressesIn(rs[1..]);
  }

  lemma FoundAddress(rs: seq<Record>, rest: seq<Octet>, num: nat)
    requires num < IP_LEN && rs != [] && IsAddress(rs[0]) && Found(rs[1..], rest, num + 1)
    ensures Found(rs, rest, num)
  {
    EncodeFirst(rs, rest);
    FirstCons(IP_LEN - num, rs[0].data, AddressesIn(rs[1..]));
  }

  lemma {:induction false} AddressesFound(rs: seq<Record>, rest: seq<Octet>, num: nat)
    requires num <= IP_LEN
    ensures Found(rs, rest, num)
    decreases |rs|
  {
    if rs != [] {
      if !IsAddress(rs[0]) {
        AddressesFound(rs[1..], rest, num);
        FoundOther(rs, rest, num);
      } else if num < IP_LEN {
        AddressesFound(rs[1..], rest, num + 1);
        FoundAddress(rs, rest, num);
      }
    }
  }

  /** A header: identifier, flags, question count, record count, and the two counts that are not read. */
  function Header(id: nat, flags: nat, questions: nat, records: nat, counts: seq<Octet>): (h: seq<Octet>)
    requires id < 65536 && flags < 65536 && questions < 65536 && records < 65536 && |counts| == 4
    ensures |h| == 12
  {
    Be16(id) + Be16(flags) + Be16(questions) + Be16(records) + counts
  }

  /** A packet is read by its header and what follows the name. */
  lemma PacketRead(h: seq<Octet>, name: seq<Octet>, flags: nat, count: nat, rest: seq<Octet>)
    requires GoodLabels(name, 0) && |h| == 12
    requires var s := h + (Qname(name, 0) + rest); U16(s, 2) == flags && U16(s, 6) == count
    ensures Parse(h + (Qname(name, 0) + rest)) == AfterName(flags, count, name + [DOT], [0] + rest)
  {
    var s := h + (Qname(name, 0) + rest);
    assert s[12..] == Qname(name, 0) + rest;
    GoodLabelsRead(name, 0, rest);
    assert name[0..] == name;
  }

  lemma QuestionSkipped(question: seq<Octet>, tail: seq<Octet>)
    requires |question| == 4
    ensures |[0] + (question + tail)| >= 5 && ([0] + (question + tail))[5..] == tail
  {
  }

  lemma RecordsRead(flags: nat, name: seq<Octet>, question: seq<Octet>, rs: seq<Record>, rest: seq<Octet>)
    requires |question| == 4
    ensures AfterName(flags, |rs|, name + [DOT], [0] + (question + (EncodeAll(rs) + rest)))
            == Read(flags, name, if flags == GOOD_RESPONSE then First(IP_LEN, AddressesIn(rs)) else [])
  {
    QuestionSkipped(question, EncodeAll(rs) + rest);
    AddressesFound(rs, rest, 0);
  }

  /** A response to a question about any name with good labels, with any records and anything after them: the
      reader recovers the name and the flags and, when the flags are good, the first four addresses in order. */
  lemma ResponseRead(id: nat, flags: nat, questions: nat, counts: seq<Octet>, name: seq<Octet>,
                     question: seq<Octet>, rs: seq<Record>, rest: seq<Octet>)
    requires id < 65536 && flags < 65536 && questions < 65536 && |rs| < 65536 && |counts| == 4 && |question| == 4
    requires GoodLabels(name, 0)
    ensures Parse(Header(id, flags, questions, |rs|, counts)
                  + (Qname(name, 0) + (question + (EncodeAll(rs) + rest))))
            == Read(flags, name, if flags == 0x8180 then First(4, AddressesIn(rs)) else [])
  {
    var tail := question + (EncodeAll(rs) + rest);
    PacketRead(Header(id, flags, questions, |rs|, counts), name, flags, |rs|, tail);
    RecordsRead(flags, name, question, rs, rest);
  }

  /** The octets of a query: the identifier; the flags of a standard query with recursion desired; one question and no
      records; the name; and the type and class of an Internet address. */
  lemma QueryOctets(name: seq<Octet>, id: nat)
    ensures var q := Query(name, id);
            && |q| == |name| + 18
            && q[0] as int * 256 + q[1] as int == id % 65536
            && q[2..12] == [1, 0, 0, 1, 0, 0, 0, 0, 0, 0]
            && q[12..|name| + 14] == Qname(name, 0)
            && q[|name| + 14..] == [0, 1, 0, 1]
  {
    Be16Order(id % 65536);
    assert Query(name, id) == QueryHeader(id) + (Qname(name, 0) + (Be16(1) + Be16(1)));
  }

  /** A query read back gives the name it asks about; its flags are not those of a response. */
  lemma QueryRead(name: seq<Octet>, id: nat)
    requires GoodLabels(name, 0)
    ensures Parse(Query(name, id)) == Read(0x0100, name, [])
  {
    var rest := Be16(1) + Be16(1);
    assert Query(name, id) == QueryHeader(id) + (Qname(name, 0) + rest);
    var s := Query(name, id);
    assert s[2..4] == Be16(0x0100) && s[6..8] == Be16(0);
    Be16Read(0x0100, s, 2);
    Be16Read(0, s, 6);
    PacketRead(QueryHeader(id), name, 0x0100, 0, rest);
  }
}
