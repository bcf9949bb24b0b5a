/** The RPC message format: fields of bytes and integers, each after a header with its length. */
module Framing {
  import opened Wrappers
  import opened Octets

  const LIMIT := 0x1_0000_0000

  /** What a 32-bit length can count. */
  type Data = d: seq<Octet> | |d| < LIMIT

  /** A payload after its length. */
  function Frame(data: Data): (f: seq<Octet>)
    ensures |f| == 4 + |data|
  {
    Be32(|data|) + data
  }

  // ----- writing -----

  /** Refused is the -1 return; Overrun is an access past the end of the memory behind a buffer. */
  datatype Outcome = Done | Refused | Overrun

  /** proto_encode with an offset. Its check against outlen leaves out the 4 octets of the header. */
  method ProtoEncode(outbuf: array<Octet>, offset: nat, outlen: nat, inbuf: Data, ghost done: seq<Octet>)
    returns (rc: Outcome, offset': nat)
    requires Holds(outbuf, done) && offset == |done|
    modifies outbuf
    ensures rc.Refused? <==> outlen < offset + |inbuf|
    ensures rc.Overrun? <==> offset + |inbuf| <= outlen && outbuf.Length < offset + 4 + |inbuf|
    ensures rc.Done? ==> Holds(outbuf, done + Frame(inbuf)) && offset' == offset + 4 + |inbuf|
    ensures !rc.Done? ==> offset' == offset && Holds(outbuf, done)
  {
    offset' := offset;
    if outlen < |inbuf| {
      return Refused, offset;
    }
    if outlen < offset + |inbuf| {
      return Refused, offset;
    }
    if outbuf.Length < offset + 4 + |inbuf| {
      return Overrun, offset;
    }
    PutOctets(outbuf, offset, Be32(|inbuf|), done);
    PutOctets(outbuf, offset + 4, inbuf, done + Be32(|inbuf|));
    assert done + Be32(|inbuf|) + inbuf == done + Frame(inbuf);
    offset' := offset + |inbuf| + 4;
    rc := Done;
  }

  /** A field of a message: bytes, or an unsigned integer of 2, 4 or 8 octets. */
  datatype AnyField = Bytes(data: seq<Octet>) | Num(width: nat, value: nat)

  predicate FieldOk(f: AnyField) {
    match f
    case Bytes(data) => |data| < LIMIT
    case Num(width, value) =>
      || (width == 2 && value < 0x1_0000)
      || (width == 4 && value < 0x1_0000_0000)
      || (width == 8 && value < 0x1_0000_0000_0000_0000)
  }

  /** A field that fits its header and its width. */
  type Field = f: AnyField | FieldOk(f) witness Bytes([])

  function Payload(f: Field): (p: Data)
    ensures f.Num? ==> |p| == f.width
  {
    match f
    case Bytes(data) => data
    case Num(width, value) => if width == 2 then Be16(value) else if width == 4 then Be32(value) else Be64(value)
  }

  /** All fields, one after the other. */
  function Message(fs: seq<Field>): seq<Octet>
  {
    if fs == [] then [] else Frame(Payload(fs[0])) + Message(fs[1..])
  }

  /** One of PUSH_STR, PUSH_BUF, PUSH_FUN and, through proto_encode_int, PUSH_INT. */
  method Push(buf: array<Octet>, offset: nat, n: nat, f: Field, ghost done: seq<Octet>)
    returns (rc: Outcome, offset': nat)
    requires Holds(buf, done) && offset == |done|
    modifies buf
    ensures rc.Done? <==> offset + |Payload(f)| <= n && offset + 4 + |Payload(f)| <= buf.Length
    ensures rc.Done? ==> Holds(buf, done + Frame(Payload(f))) && offset' == offset + 4 + |Payload(f)|
    ensures !rc.Done? ==> offset' == offset && Holds(buf, done)
  {
    match f
    case Bytes(data) =>
      rc, offset' := ProtoEncode(buf, offset, n, data, done);
    case Num(width, value) =>
      if width == 2 {
        rc, offset' := ProtoEncode(buf, offset, n, Be16(value), done);
      } else if width == 4 {
        rc, offset' := ProtoEncode(buf, offset, n, Be32(value), done);
      } else {
        rc, offset' := ProtoEncode(buf, offset, n, Be64(value), done);
      }
  }

  lemma MessagePrefix(fs: seq<Field>, i: nat)
    requires i < |fs|
    ensures Message(fs[..i + 1]) == Message(fs[..i]) + Frame(Payload(fs[i]))
  {
    MessageAppend(fs[..i], fs[i]);
    assert fs[..i + 1] == fs[..i] + [fs[i]];
  }

  lemma MessageCons(f: Field, fs: seq<Field>)
    ensures Message([f] + fs) == Frame(Payload(f)) + Message(fs)
  {
    assert ([f] + fs)[1..] == fs;
  }

  lemma Regrouped(a: seq<Octet>, b: seq<Octet>, c: seq<Octet>)
    ensures a + (b + c) == (a + b) + c
    ensures a + [] == a && [] + a == a
  {
  }

  lemma {:induction false} MessageAppend(fs: seq<Field>, f: Field)
    ensures Message(fs + [f]) == Message(fs) + Frame(Payload(f))
  {
    if fs == [] {
      MessageCons(f, []);
      assert [] + [f] == [f] + [];
    } else {
      MessageAppend(fs[1..], f);
      MessageCons(fs[0], fs[1..] + [f]);
      MessageCons(fs[0], fs[1..]);
      assert fs + [f] == [fs[0]] + (fs[1..] + [f]) && fs == [fs[0]] + fs[1..];
      Regrouped(Frame(Payload(fs[0])), Message(fs[1..]), Frame(Payload(f)));
    }
  }

  /** Pushing a list of fields that fits, headers included, writes the message and moves the offset to its end. */
  method PushAll(buf: array<Octet>, n: nat, fs: seq<Field>) returns (offset: nat)
    requires |Message(fs)| <= n && |Message(fs)| <= buf.Length
    modifies buf
    ensures offset == |Message(fs)| && buf[..offset] == Message(fs)
  {
    offset := 0;
    for i := 0 to |fs|
      invariant offset == |Message(fs[..i])| && Holds(buf, Message(fs[..i]))
    {
      MessagePrefix(fs, i);
      PrefixFits(fs, i + 1);
      var rc;
      rc, offset := Push(buf, offset, n, fs[i], Message(fs[..i]));
    }
    assert fs[..|fs|] == fs;
  }

  /** PUSH_HEAD, which is proto_encode without an offset: the offset goes before the message, in network byte order. */
  method PushHead(buf: array<Octet>, offset: nat, n: nat) returns (rc: Outcome)
    requires offset < LIMIT
    modifies buf
    ensures rc.Refused? <==> n < 4
    ensures rc.Overrun? <==> n >= 4 && buf.Length < 4
    ensures rc.Done? ==> buf[..4] == Be32(offset) && buf[4..] == old(buf[4..])
    ensures !rc.Done? ==> buf[..] == old(buf[..])
  {
    if n < 4 {
      return Refused;
    }
    if buf.Length < 4 {
      return Overrun;
    }
    var head := Be32(offset);
    buf[0], buf[1], buf[2], buf[3] := head[0], head[1], head[2], head[3];
    rc := Done;
  }

  lemma {:induction false} PrefixFits(fs: seq<Field>, i: nat)
    requires i <= |fs|
    ensures |Message(fs[..i])| <= |Message(fs)|
    decreases |fs| - i
  {
    if i == |fs| {
      assert fs[..i] == fs;
    } else {
      MessagePrefix(fs, i);
      PrefixFits(fs, i + 1);
    }
  }

  // ----- reading -----

  /** proto_decode: the payload at offset. It is not checked against the length of inbuf. */
  method ProtoDecode(inbuf: seq<Octet>, offset: nat, inlen: nat, outlen: nat)
    returns (rc: Outcome, data: seq<Octet>, offset': nat)
    ensures (rc, data, offset') == Decoded(inbuf, offset, inlen, outlen)
  {
    data, offset' := [], offset;
    if offset >= inlen {
      return Refused, data, offset;
    }
    if offset + 4 > |inbuf| {
      return Overrun, data, offset;
    }
    var len := U32(inbuf, offset);
    if len > outlen {
      return Refused, data, offset;
    }
    offset' := offset + 4;
    if offset' + len > |inbuf| {
      return Overrun, data, offset;
    }
    data := inbuf[offset'..offset' + len];
    offset' := offset' + len;
    rc := Done;
  }

  function Decoded(s: seq<Octet>, offset: nat, inlen: nat, outlen: nat): (Outcome, seq<Octet>, nat) {
    if offset >= inlen then (Refused, [], offset)
    else if offset + 4 > |s| then (Overrun, [], offset)
    else if U32(s, offset) > outlen then (Refused, [], offset)
    else if offset + 4 + U32(s, offset) > |s| then (Overrun, [], offset)
    else (Done, s[offset + 4..offset + 4 + U32(s, offset)], offset + 4 + U32(s, offset))
  }

  /** What decoding comes to: a refusal at or past the end of the message and for a payload longer than there is room
      for; else the octets after the header, as many as it says, if they are there, and the offset after them. */
  lemma DecodedMeans(s: seq<Octet>, offset: nat, inlen: nat, outlen: nat)
    ensures var (rc, data, next) := Decoded(s, offset, inlen, outlen);
            if offset >= inlen then rc == Refused && next == offset
            else if |s| < offset + 4 then rc == Overrun
            else
              var n := ((s[offset] as int * 256 + s[offset + 1] as int) * 256 + s[offset + 2] as int) * 256
                       + s[offset + 3] as int;
              if n > outlen then rc == Refused && next == offset
              else if |s| < offset + 4 + n then rc == Overrun
              else rc == Done && next == offset + 4 + n && data == s[offset + 4..next]
  {
  }

  /** What a POP macro is asked for. */
  datatype Want = WantBytes | WantNum(width: nat)

  function WantOf(f: AnyField): Want {
    if f.Bytes? then WantBytes else WantNum(f.width)
  }

  /** The integer read from the octets of a field of its width. */
  function NumOf(width: nat, data: seq<Octet>): (v: nat)
    requires |data| == width && (width == 2 || width == 4 || width == 8)
  {
    if width == 2 then U16(data, 0) else if width == 4 then U32(data, 0) else U64(data, 0)
  }

  /** One POP: the field and the offset after it, or None when there is none of the kind asked for. */
  function Popped(s: seq<Octet>, offset: nat, n: nat, want: Want): Option<(AnyField, nat)> {
    match want
    case WantBytes =>
      if offset + 4 > |s| then None
      else
        var (rc, data, next) := Decoded(s, offset, n, U32(s, offset));
        if rc.Done? then Some((Bytes(data), next)) else None
    case WantNum(width) =>
      var (rc, data, next) := Decoded(s, offset, n, width);
      if rc.Done? && |data| == width && (width == 2 || width == 4 || width == 8)
      then Some((Num(width, NumOf(width, data)), next)) else None
  }

  function Wants(fs: seq<AnyField>): seq<Want> {
    if fs == [] then [] else [WantOf(fs[0])] + Wants(fs[1..])
  }

  /** A list of POPs, each at the offset the one before it left. */
  function PoppedAll(s: seq<Octet>, offset: nat, n: nat, wants: seq<Want>): Option<(seq<AnyField>, nat)>
    decreases |wants|
  {
    if wants == [] then Some(([], offset))
    else
      match Popped(s, offset, n, wants[0])
      case None => None
      case Some((f, next)) =>
        match PoppedAll(s, next, n, wants[1..])
        case None => None
        case Some((fs, end)) => Some(([f] + fs, end))
  }

  method Pop(s: seq<Octet>, offset: nat, n: nat, want: Want) returns (r: Option<(AnyField, nat)>)
    ensures r == Popped(s, offset, n, want)
  {
    match want
    case WantBytes =>
      if offset + 4 > |s| {
        return None;
      }
      var len := U32(s, offset);
      var rc, p, next := ProtoDecode(s, offset, n, len);
      r := if rc.Done? then Some((Bytes(p), next)) else None;
    case WantNum(width) =>
      var rc, data, next := ProtoDecode(s, offset, n, width);
      if !rc.Done? || |data| != width {
        return None;
      }
      if width == 2 {
        r := Some((Num(2, U16(data, 0)), next));
      } else if width == 4 {
        r := Some((Num(4, U32(data, 0)), next));
      } else if width == 8 {
        r := Some((Num(8, U64(data, 0)), next));
      } else {
        r := None;
      }
  }

  // ----- round trip -----

  lemma NumRead(width: nat, value: nat)
    requires FieldOk(Num(width, value))
    ensures NumOf(width, Payload(Num(width, value))) == value
  {
    var p := Payload(Num(width, value));
    if width == 2 {
      assert p[0..2] == p;
      Be16Read(value, p, 0);
    } else if width == 4 {
      assert p[0..4] == p;
      Be32Read(value, p, 0);
    } else {
      assert p[0..8] == p;
      Be64Read(value, p, 0);
    }
  }

  /** The frame of data lies at offset. */
  ghost predicate FrameAt(s: seq<Octet>, offset: nat, data: Data) {
    && offset + 4 + |data| <= |s|
    && s[offset..offset + 4 + |data|] == Frame(data)
  }

  lemma FrameRead(s: seq<Octet>, offset: nat, data: Data)
    requires FrameAt(s, offset, data)
    ensures U32(s, offset) == |data| && s[offset + 4..offset + 4 + |data|] == data
  {
    var f := s[offset..offset + 4 + |data|];
    assert s[offset..offset + 4] == f[..4];
    assert s[offset + 4..offset + 4 + |data|] == f[4..];
    Be32Read(|data|, s, offset);
  }

  lemma FieldPopped(s: seq<Octet>, offset: nat, n: nat, f: Field)
    requires FrameAt(s, offset, Payload(f)) && offset < n
    ensures Popped(s, offset, n, WantOf(f)) == Some((f, offset + 4 + |Payload(f)|))
  {
    FrameRead(s, offset, Payload(f));
    if f.Num? {
      NumRead(f.width, f.value);
    }
  }

  /** The message of fs lies between offset and end. */
  ghost predicate MessageAt(s: seq<Octet>, offset: nat, end: nat, fs: seq<Field>) {
    offset <= end <= |s| && s[offset..end] == Message(fs)
  }

  lemma MessageAtFirst(s: seq<Octet>, offset: nat, end: nat, f: Field, fs: seq<Field>)
    requires MessageAt(s, offset, end, [f] + fs)
    ensures FrameAt(s, offset, Payload(f)) && MessageAt(s, offset + 4 + |Payload(f)|, end, fs)
  {
    MessageCons(f, fs);
    Split(s, offset, end, Frame(Payload(f)), Message(fs));
  }

  lemma Split(s: seq<Octet>, offset: nat, end: nat, a: seq<Octet>, b: seq<Octet>)
    requires offset <= end <= |s| && s[offset..end] == a + b
    ensures offset + |a| <= end && s[offset..offset + |a|] == a && s[offset + |a|..end] == b
  {
    assert |s[offset..end]| == |a| + |b|;
    assert s[offset..offset + |a|] == s[offset..end][..|a|];
    assert s[offset + |a|..end] == s[offset..end][|a|..];
  }

  lemma PopFirst(s: seq<Octet>, offset: nat, n: nat, want: Want, f: AnyField, next: nat,
                 later: seq<Want>, rest: seq<AnyField>, end: nat)
    requires Popped(s, offset, n, want) == Some((f, next)) && PoppedAll(s, next, n, later) == Some((rest, end))
    ensures PoppedAll(s, offset, n, [want] + later) == Some(([f] + rest, end))
  {
    assert ([want] + later)[1..] == later;
  }

  /** Popping from offset on gives the fields fs back, and the offset ends at end. */
  ghost predicate GivenBack(s: seq<Octet>, offset: nat, n: nat, wants: seq<Want>, fs: seq<AnyField>, end: nat) {
    PoppedAll(s, offset, n, wants) == Some((fs, end))
  }

  /** Whatever was pushed is popped again in the same order, and the offset ends where the message does; the
      message may lie anywhere in a buffer whose length covers it. */
  lemma {:induction false} PushedIsPopped(s: seq<Octet>, offset: nat, end: nat, n: nat, fs: seq<Field>)
    requires MessageAt(s, offset, end, fs) && end <= n
    ensures GivenBack(s, offset, n, Wants(fs), fs, end)
    decreases |fs|
  {
    if fs == [] {
      assert |s[offset..end]| == 0;
    } else {
      var next := offset + 4 + |Payload(fs[0])|;
      assert fs == [fs[0]] + fs[1..];
      MessageAtFirst(s, offset, end, fs[0], fs[1..]);
      PushedIsPopped(s, next, end, n, fs[1..]);
      FirstGivenBack(s, offset, n, fs[0], fs[1..], Wants(fs[1..]), next, end);
    }
  }

  lemma FirstGivenBack(s: seq<Octet>, offset: nat, n: nat, f: Field, rest: seq<AnyField>, later: seq<Want>,
                       next: nat, end: nat)
    requires FrameAt(s, offset, Payload(f)) && offset < n
    requires next == offset + 4 + |Payload(f)| && GivenBack(s, next, n, later, rest, end)
    ensures GivenBack(s, offset, n, [WantOf(f)] + later, [f] + rest, end)
  {
    FieldPopped(s, offset, n, f);
    PopFirst(s, offset, n, WantOf(f), f, next, later, rest, end);
  }

  /** A list of POPs. The message of any fields, wherever it lies, is popped into these fields when they are asked
      for. */
  method PopAll(s: seq<Octet>, offset0: nat, n: nat, wants: seq<Want>) returns (r: Option<(seq<AnyField>, nat)>)
    ensures r == PoppedAll(s, offset0, n, wants)
    ensures forall fs: seq<Field>, end: nat | MessageAt(s, offset0, end, fs) && end <= n && wants == Wants(fs) ::
              r == Some((fs, end))
    decreases |wants|
  {
    forall fs: seq<Field>, end: nat | MessageAt(s, offset0, end, fs) && end <= n && wants == Wants(fs)
      ensures PoppedAll(s, offset0, n, wants) == Some((fs, end))
    {
      PushedIsPopped(s, offset0, end, n, fs);
    }
    if wants == [] {
      return Some(([], offset0));
    }
    var first := Pop(s, offset0, n, wants[0]);
    if first.None? {
      return None;
    }
    var rest := PopAll(s, first.value.1, n, wants[1..]);
    r := if rest.None? then None else Some(([first.value.0] + rest.value.0, rest.value.1));
  }
}
