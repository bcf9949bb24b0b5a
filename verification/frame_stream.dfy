/** Reading length-prefixed frames from a socket whose reads come in pieces. */
module FrameStream {
  import opened Numbers
  import opened Wrappers
  import opened Octets
  import opened Framing

  /** How the next read behaves: it delivers at most k + 1 octets, is interrupted, or fails. After the script is
      used up reads deliver all they are asked for. */
  datatype Event = Chunk(k: nat) | Interrupted | Failed

  datatype ReadResult = Got(data: seq<Octet>) | Eintr | Error

  ghost predicate NeverFails(script: seq<Event>) {
    forall e :: e in script ==> !e.Failed?
  }

  /** A connection: what the peer has sent and not yet been read, before it closes. */
  class Socket {
    var input: seq<Octet>
    var script: seq<Event>

    constructor (input: seq<Octet>, script: seq<Event>)
      ensures this.input == input && this.script == script
    {
      this.input, this.script := input, script;
    }

    /** read(); no octets means the end of the stream. */
    method Read(len: nat) returns (r: ReadResult)
      requires len > 0
      modifies this
      ensures r.Got? ==> && old(input) == r.data + input && |r.data| <= len
                         && (r.data == [] ==> input == [])
      ensures !r.Got? ==> input == old(input) && |script| < |old(script)|
      ensures old(NeverFails(script)) ==> NeverFails(script) && !r.Error?
    {
      var k := Min(len, |input|);
      if script != [] {
        var e := script[0];
        assert e in script;
        script := script[1..];
        if e.Interrupted? {
          return Eintr;
        }
        if e.Failed? {
          return Error;
        }
        k := Min(k, e.k + 1);
      }
      r := Got(input[..k]);
      input := input[k..];
    }
  }

  /** readn: the number of octets read; fewer than count only at the end of the stream or after a failure. */
  method Readn(s: Socket, p: array<Octet>, count: nat) returns (rv: nat)
    requires count <= p.Length
    modifies s, p
    ensures rv <= count && rv <= |old(s.input)| && Holds(p, old(s.input)[..rv]) && s.input == old(s.input)[rv..]
    ensures old(NeverFails(s.script)) ==> NeverFails(s.script) && rv == Min(count, |old(s.input)|)
  {
    ghost var got := [];
    var len := count;
    while len > 0
      invariant 0 <= len <= count && |got| == count - len && Holds(p, got) && old(s.input) == got + s.input
      invariant old(NeverFails(s.script)) ==> NeverFails(s.script)
      decreases len, |s.script|
    {
      var r := s.Read(len);
      if r.Eintr? {
        continue;
      }
      if r.Error? {
        break;
      }
      if r.data == [] {
        rv := count - len;
        return;
      }
      PutOctets(p, count - len, r.data, got);
      got := got + r.data;
      len := len - |r.data|;
    }
    rv := count - len;
  }

  /** The caller's buffer and its size, which readvrec allocates and grows. */
  class Record {
    var p: array?<Octet>
    var n: nat

    constructor ()
      ensures Valid() && p == null
    {
      p, n := null, 0;
    }

    predicate Valid()
      reads this
    {
      p != null ==> p.Length == n
    }
  }

  /** The length in front of a frame. */
  method ReadHead(s: Socket) returns (ok: bool, headlen: nat)
    modifies s
    ensures ok ==> && |old(s.input)| >= 4 && headlen == U32(old(s.input), 0) && s.input == old(s.input)[4..]
    ensures old(NeverFails(s.script)) ==> NeverFails(s.script) && (ok <==> |old(s.input)| >= 4)
    ensures old(NeverFails(s.script)) && !ok ==> s.input == []
  {
    var head := new Octet[4](_ => 0);
    var rv := Readn(s, head, 4);
    if rv != 4 {
      return false, 0;
    }
    assert head[..4] == old(s.input)[..4];
    ok, headlen := true, U32(head[..], 0);
  }

  /** Allocates the buffer, or makes room in it for headlen octets. */
  method MakeRoom(b: Record, headlen: nat)
    requires b.Valid() && b.p != null
    modifies b
    ensures b.Valid() && b.p != null && b.p.Length >= headlen && (b.p == old(b.p) || fresh(b.p))
  {
    if headlen > b.n {
      var needed := headlen;
      if headlen < 2 * b.n {
        needed := 2 * b.n;
      }
      b.p := new Octet[needed](_ => 0);
      b.n := needed;
    }
  }

  /** The stream begins with a frame. */
  predicate Complete(input: seq<Octet>) {
    |input| >= 4 && |input| >= 4 + U32(input, 0)
  }

  function PayloadOf(input: seq<Octet>): seq<Octet>
    requires Complete(input)
  {
    input[4..4 + U32(input, 0)]
  }

  function RestOf(input: seq<Octet>): seq<Octet>
    requires Complete(input)
  {
    input[4 + U32(input, 0)..]
  }

  /** What one call does to the stream when no read fails: the payload of the next frame, if it is complete. A cut-off
      frame is used up. */
  ghost predicate Received(input: seq<Octet>, rv: nat, payload: seq<Octet>, rest: seq<Octet>) {
    if Complete(input) then rv == U32(input, 0) && payload == PayloadOf(input) && rest == RestOf(input)
    else rv == 0 && rest == []
  }

  /** readvrec: 0 is also what a short read and a frame without payload return. */
  method Readvrec(s: Socket, b: Record) returns (rv: nat)
    requires b.Valid()
    modifies s, b, b.p
    ensures b.Valid() && b.p != null && (b.p == old(b.p) || fresh(b.p))
    ensures rv <= b.p.Length
    ensures old(NeverFails(s.script)) ==> NeverFails(s.script) && Received(old(s.input), rv, b.p[..rv], s.input)
  {
    if b.p == null || b.n == 0 {
      b.n := 500;
      b.p := new Octet[500](_ => 0);
    }
    ghost var input := s.input;
    var ok, headlen := ReadHead(s);
    if !ok {
      return 0;
    }
    MakeRoom(b, headlen);
    rv := Readn(s, b.p, headlen);
    if rv != headlen {
      return 0;
    }
  }

  /** The payloads repeated calls yield, up to the first that yields none. */
  function Payloads(input: seq<Octet>): seq<seq<Octet>>
    decreases |input|
  {
    if Complete(input) && U32(input, 0) > 0 then [PayloadOf(input)] + Payloads(RestOf(input)) else []
  }

  lemma PayloadStep(input: seq<Octet>, rv: nat, payload: seq<Octet>, rest: seq<Octet>)
    requires Received(input, rv, payload, rest)
    ensures rv == 0 ==> Payloads(input) == []
    ensures rv > 0 ==> |rest| < |input| && Payloads(input) == [payload] + Payloads(rest)
  {
  }

  /** What has been read, and what is still to come, are all the payloads. */
  ghost predicate Reading(done: seq<seq<Octet>>, input: seq<Octet>, all: seq<seq<Octet>>) {
    done + Payloads(input) == all
  }

  lemma ReadOne(done: seq<seq<Octet>>, input: seq<Octet>, all: seq<seq<Octet>>, rv: nat, payload: seq<Octet>,
                rest: seq<Octet>)
    requires Reading(done, input, all) && Received(input, rv, payload, rest)
    ensures rv == 0 ==> done == all
    ensures rv > 0 ==> |rest| < |input| && Reading(done + [payload], rest, all)
  {
    PayloadStep(input, rv, payload, rest);
    if rv > 0 {
      assert done + ([payload] + Payloads(rest)) == done + [payload] + Payloads(rest);
    }
  }

  /** A client that calls readvrec until it returns 0. */
  method ReadAll(s: Socket) returns (payloads: seq<seq<Octet>>)
    requires NeverFails(s.script)
    modifies s
    ensures payloads == Payloads(old(s.input))
  {
    var b := new Record();
    payloads := [];
    ghost var all := Payloads(s.input);
    while true
      invariant b.Valid() && fresh(b) && (b.p != null ==> fresh(b.p))
      invariant NeverFails(s.script) && Reading(payloads, s.input, all)
      decreases |s.input|
    {
      ghost var input := s.input;
      var rv := Readvrec(s, b);
      var payload := b.p[..rv];
      ReadOne(payloads, input, all, rv, payload, s.input);
      if rv == 0 {
        break;
      }
      payloads := payloads + [payload];
    }
  }

  // ----- streams of frames -----

  function Frames(ps: seq<Data>): seq<Octet>
  {
    if ps == [] then [] else Frame(ps[0]) + Frames(ps[1..])
  }

  /** The payloads before the first empty one. */
  function UpToEmpty(ps: seq<seq<Octet>>): (r: seq<seq<Octet>>)
    ensures r == ps <==> [] !in ps
  {
    if ps == [] || ps[0] == [] then []
    else
      var rest := UpToEmpty(ps[1..]);
      assert [] in ps <==> [] in ps[1..];
      [ps[0]] + rest
  }

  lemma FrameFirst(p: Data, rest: seq<Octet>)
    ensures var s := Frame(p) + rest;
            Complete(s) && U32(s, 0) == |p| && PayloadOf(s) == p && RestOf(s) == rest
  {
    var s := Frame(p) + rest;
    assert s[0..4] == Be32(|p|);
    Be32Read(|p|, s, 0);
  }

  lemma {:induction false} FramesRead(ps: seq<Data>)
    ensures Payloads(Frames(ps)) == UpToEmpty(ps)
    decreases |ps|
  {
    if ps != [] {
      FrameFirst(ps[0], Frames(ps[1..]));
      FramesRead(ps[1..]);
    }
  }

  /** Reading a concatenation of frames yields exactly the payloads sent, however the reads are split or
      interrupted, if and only if no payload is empty: an empty one looks like the end of the stream. */
  lemma SameSequenceIff(ps: seq<Data>)
    ensures Payloads(Frames(ps)) == ps <==> [] !in ps
  {
    FramesRead(ps);
  }

  /** Messages sent as frames come out as the fields that were pushed. */
  lemma FieldsArrive(fs: seq<Field>, rest: seq<Octet>)
    requires fs != [] && |Message(fs)| < LIMIT
    ensures var ps := Payloads(Frame(Message(fs)) + rest);
            ps != [] && PoppedAll(ps[0], 0, |ps[0]|, Wants(fs)) == Some((fs, |ps[0]|))
  {
    var m := Message(fs);
    FrameFirst(m, rest);
    assert m[0..|m|] == m;
    PushedIsPopped(m, 0, |m|, |m|, fs);
  }
}
