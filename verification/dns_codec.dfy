/** Building DNS queries and reading DNS responses: sections 3.1, 4.1.1 to 4.1.3 and 4.1.4 of RFC 1035. */
module DnsCodec {
  import opened Wrappers
  import opened Octets

  const DOT: Octet := 46
  const IP_LEN := 4
  const GOOD_RESPONSE := 0x8180

  // ----- names -----

  /** The position of the first dot from i on, or the length. */
  function DotFrom(s: seq<Octet>, i: nat): (k: nat)
    requires i <= |s|
    ensures i <= k <= |s|
    decreases |s| - i
  {
    if i == |s| || s[i] == DOT then i else DotFrom(s, i + 1)
  }

  /** A label after its length, truncated to an octet, and what follows. */
  function Labelled(lbl: seq<Octet>, rest: seq<Octet>): (q: seq<Octet>)
    ensures |q| == 1 + |lbl| + |rest|
  {
    [Low(|lbl|)] + lbl + rest
  }

  /** What set_qname writes from the label at i on: every label after its length, and a final 0. */
  function Qname(s: seq<Octet>, i: nat): (q: seq<Octet>)
    requires i <= |s|
    ensures |q| == |s| - i + 2
    decreases |s| - i, 1
  {
    var k := DotFrom(s, i);
    Labelled(s[i..k], QnameRest(s, k))
  }

  /** What follows the label that ends at k. */
  function QnameRest(s: seq<Octet>, k: nat): (q: seq<Octet>)
    requires k <= |s|
    ensures |q| == |s| - k + 1
    decreases |s| - k, 0
  {
    if k == |s| then [0] else Qname(s, k + 1)
  }

  /** One label after its length. */
  method PutLabel(buf: array<Octet>, at: nat, lbl: seq<Octet>, ghost done: seq<Octet>)
    requires Holds(buf, done) && at == |done| && at + 1 + |lbl| <= buf.Length
    modifies buf
    ensures Holds(buf, done + [Low(|lbl|)] + lbl)
  {
    PutOctet(buf, at, Low(|lbl|), done);
    PutOctets(buf, at + 1, lbl, done + [Low(|lbl|)]);
  }

  /** What is written and what is still to write. */
  ghost function Whole(done: seq<Octet>, s: seq<Octet>, prev: nat): seq<Octet>
    requires prev <= |s|
  {
    done + Qname(s, prev)
  }

  lemma MoveLabel(done: seq<Octet>, lbl: seq<Octet>, rest: seq<Octet>, name: seq<Octet>, done': seq<Octet>)
    requires name == Labelled(lbl, rest) && done' == done + [Low(|lbl|)] + lbl
    ensures done' + rest == done + name
  {
  }

  lemma InnerLabel(s: seq<Octet>, prev: nat, curr: nat, done: seq<Octet>, done': seq<Octet>)
    requires prev <= curr < |s| && DotFrom(s, prev) == curr
    requires done' == done + [Low(curr - prev)] + s[prev..curr]
    ensures Whole(done', s, curr + 1) == Whole(done, s, prev)
  {
    MoveLabel(done, s[prev..curr], QnameRest(s, curr), Qname(s, prev), done');
  }

  /** The labels before prev are written, and there is no dot from there up to curr. */
  ghost predicate Written(s: seq<Octet>, prev: nat, curr: nat, done: seq<Octet>, name: seq<Octet>) {
    && prev <= curr <= |s| && |done| == prev && DotFrom(s, prev) == DotFrom(s, curr)
    && Whole(done, s, prev) == name
  }

  lemma NothingWritten(s: seq<Octet>) returns (name: seq<Octet>)
    ensures name == Qname(s, 0) && Written(s, 0, 0, [], name)
  {
    name := Qname(s, 0);
    assert [] + name == name;
  }

  /** A character that is no dot. */
  lemma NextCharacter(s: seq<Octet>, prev: nat, curr: nat, done: seq<Octet>, name: seq<Octet>)
    requires curr < |s| && s[curr] != DOT && Written(s, prev, curr, done, name)
    ensures Written(s, prev, curr + 1, done, name)
  {
  }

  /** The label that ends at a dot. */
  method InnerStep(buf: array<Octet>, s: seq<Octet>, prev: nat, curr: nat, ghost done: seq<Octet>,
                   ghost name: seq<Octet>) returns (ghost done': seq<Octet>)
    requires curr < |s| && s[curr] == DOT && curr + 1 <= buf.Length
    requires Holds(buf, done) && Written(s, prev, curr, done, name)
    modifies buf
    ensures Holds(buf, done') && Written(s, curr + 1, curr + 1, done', name)
  {
    PutLabel(buf, prev, s[prev..curr], done);
    done' := done + [Low(curr - prev)] + s[prev..curr];
    InnerLabel(s, prev, curr, done, done');
  }

  lemma LastLabel(s: seq<Octet>, prev: nat, done: seq<Octet>, done': seq<Octet>)
    requires prev <= |s| && DotFrom(s, prev) == |s| && done' == done + [Low(|s| - prev)] + s[prev..]
    ensures done' + [0] == Whole(done, s, prev)
  {
    assert s[prev..|s|] == s[prev..];
    MoveLabel(done, s[prev..], QnameRest(s, |s|), Qname(s, prev), done');
  }

  /** The last label and the final 0. */
  method LastStep(buf: array<Octet>, s: seq<Octet>, prev: nat, ghost done: seq<Octet>, ghost name: seq<Octet>)
    requires buf.Length == |s| + 2 && Holds(buf, done) && Written(s, prev, |s|, done, name)
    modifies buf
    ensures buf[..] == name
  {
    PutLabel(buf, prev, s[prev..], done);
    ghost var done' := done + [Low(|s| - prev)] + s[prev..];
    PutOctet(buf, |s| + 1, 0, done');
    LastLabel(s, prev, done, done');
  }

  /** set_qname, into a buffer of exactly the size the caller allocates. */
  method SetQname(s: seq<Octet>, buf: array<Octet>)
    requires buf.Length == |s| + 2
    modifies buf
    ensures buf[..] == Qname(s, 0)
  {
    var curr, prev, bp := 0, 0, 0;
    ghost var done: seq<Octet> := [];
    ghost var name := NothingWritten(s);
    while curr < |s|
      invariant curr <= |s| && bp == prev && Holds(buf, done)
      invariant Written(s, prev, curr, done, name)
    {
      if s[curr] == DOT {
        var cnt := curr - prev;
        done := InnerStep(buf, s, bp, curr, done, name);
        bp := bp + 1 + cnt;
        prev := curr + 1;
      } else {
        NextCharacter(s, prev, curr, done, name);
      }
      curr := curr + 1;
    }
    LastStep(buf, s, bp, done, name);
  }

  // ----- reading a name -----

  /** The length of a label as the loop sees it: the octet is a signed char, and a negative count copies nothing. */
  function LabelLength(b: Octet): nat {
    if b < 128 then b else 0
  }

  /** The labels up to the final 0, a dot after each, and what is left from the 0 on. None is a read past the end. */
  function ReadText(s: seq<Octet>): Option<(seq<Octet>, seq<Octet>)>
    decreases |s|
  {
    if s == [] then None
    else if s[0] == 0 then Some(([], s))
    else
      var n := LabelLength(s[0]);
      if |s| < 1 + n then None else Prepend(s[1..1 + n] + [DOT], ReadText(s[1 + n..]))
  }

  function Prepend(text: seq<Octet>, r: Option<(seq<Octet>, seq<Octet>)>): Option<(seq<Octet>, seq<Octet>)> {
    match r
    case None => None
    case Some((more, rest)) => Some((text + more, rest))
  }

  lemma PrependTwice(a: seq<Octet>, b: seq<Octet>, r: Option<(seq<Octet>, seq<Octet>)>)
    ensures Prepend(a, Prepend(b, r)) == Prepend(a + b, r)
  {
    if r.Some? {
      assert a + (b + r.value.0) == a + b + r.value.0;
    }
  }

  /** The dot after the last label becomes the terminator; without one, the write is before the host name: None. */
  function HostName(text: seq<Octet>): Option<seq<Octet>> {
    if text == [] then None else Some(text[..|text| - 1])
  }

  /** Copies num octets. */
  method CopyLabel(buf: seq<Octet>, bp0: nat, num0: int) returns (ok: bool, lbl: seq<Octet>, bp: nat)
    requires bp0 <= |buf|
    ensures var n := if num0 > 0 then num0 else 0;
            && (ok <==> bp0 + n <= |buf|)
            && (ok ==> bp == bp0 + n && lbl == buf[bp0..bp])
  {
    var num := num0;
    bp, lbl := bp0, [];
    while num > 0
      invariant bp0 <= bp <= |buf| && lbl == buf[bp0..bp]
      invariant if num0 > 0 then num >= 0 && num + (bp - bp0) == num0 else bp == bp0 && num == num0
      decreases num
    {
      if bp >= |buf| {
        return false, lbl, bp;
      }
      num, lbl, bp := num - 1, lbl + [buf[bp]], bp + 1;
    }
    ok := true;
  }

  /** What has been read of a name, and what is still to be read. */
  ghost predicate Reading(buf: seq<Octet>, bp: nat, text: seq<Octet>, all: Option<(seq<Octet>, seq<Octet>)>) {
    bp <= |buf| && Prepend(text, ReadText(buf[bp..])) == all
  }

  lemma ReadLabel(buf: seq<Octet>, bp: nat, text: seq<Octet>, all: Option<(seq<Octet>, seq<Octet>)>)
    requires Reading(buf, bp, text, all) && bp < |buf| && buf[bp] != 0
    ensures bp + 1 + LabelLength(buf[bp]) > |buf| ==> all == None
    ensures var next := bp + 1 + LabelLength(buf[bp]);
            next <= |buf| ==> Reading(buf, next, text + (buf[bp + 1..next] + [DOT]), all)
  {
    var s, n := buf[bp..], LabelLength(buf[bp]);
    if bp + 1 + n <= |buf| {
      assert s[1 + n..] == buf[bp + 1 + n..] && s[1..1 + n] == buf[bp + 1..bp + 1 + n];
      PrependTwice(text, s[1..1 + n] + [DOT], ReadText(s[1 + n..]));
    }
  }

  lemma ReadingStarts(buf: seq<Octet>, bp: nat)
    requires bp <= |buf|
    ensures Reading(buf, bp, [], ReadText(buf[bp..]))
  {
    var r := ReadText(buf[bp..]);
    if r.Some? {
      assert [] + r.value.0 == r.value.0;
    }
  }

  lemma ReadingEnds(buf: seq<Octet>, bp: nat, text: seq<Octet>, all: Option<(seq<Octet>, seq<Octet>)>)
    requires Reading(buf, bp, text, all)
    ensures bp == |buf| ==> all == None
    ensures bp < |buf| && buf[bp] == 0 ==> all == Some((text, buf[bp..]))
  {
    assert text + [] == text;
  }

  /** The loop that extracts the host name, before its last dot is taken off. */
  method ReadHostText(buf: seq<Octet>, bp0: nat) returns (ok: bool, text: seq<Octet>, bp: nat)
    requires bp0 <= |buf|
    ensures ok ==> bp < |buf| && ReadText(buf[bp0..]) == Some((text, buf[bp..]))
    ensures !ok ==> ReadText(buf[bp0..]) == None
  {
    ghost var all := ReadText(buf[bp0..]);
    ReadingStarts(buf, bp0);
    bp, text := bp0, [];
    while true
      invariant Reading(buf, bp, text, all)
      decreases |buf| - bp
    {
      ReadingEnds(buf, bp, text, all);
      if bp >= |buf| {
        return false, text, bp;
      }
      if buf[bp] == 0 {
        break;
      }
      ReadLabel(buf, bp, text, all);
      var num: int := if buf[bp] < 128 then buf[bp] else buf[bp] as int - 256;
      var copied, lbl, next := CopyLabel(buf, bp + 1, num);
      if !copied {
        return false, text, bp;
      }
      bp, text := next, text + (lbl + [DOT]);
    }
    ok := true;
  }

  // ----- names survive the round trip exactly when their labels do -----

  /** Every label from i on has between 1 and 127 octets. */
  predicate GoodLabels(s: seq<Octet>, i: nat)
    requires i <= |s|
    decreases |s| - i
  {
    var k := DotFrom(s, i);
    1 <= k - i <= 127 && (k < |s| ==> GoodLabels(s, k + 1))
  }

  lemma {:induction false} NoDotBefore(s: seq<Octet>, i: nat, j: nat)
    requires i <= |s| && i <= j < DotFrom(s, i)
    ensures s[j] != DOT
    decreases j - i
  {
    if i < j {
      NoDotBefore(s, i + 1, j);
    }
  }

  lemma Pieces(lbl: seq<Octet>, tail: seq<Octet>, rest: seq<Octet>)
    ensures var q := Labelled(lbl, tail) + rest;
            q[0] == Low(|lbl|) && q[1..1 + |lbl|] == lbl && q[1 + |lbl|..] == tail + rest
  {
  }

  /** The first label in the encoding, and what follows it. */
  lemma QnameReads(s: seq<Octet>, i: nat, k: nat, rest: seq<Octet>, q: seq<Octet>)
    requires i <= |s| && k == DotFrom(s, i) && q == Qname(s, i) + rest
    ensures |q| >= 1 + (k - i) && q[0] == Low(k - i)
    ensures q[1..1 + (k - i)] == s[i..k] && q[1 + (k - i)..] == QnameRest(s, k) + rest
  {
    var lbl, tail := s[i..k], QnameRest(s, k);
    Pieces(lbl, tail, rest);
  }

  lemma ReadStep(q: seq<Octet>, n: nat, lbl: seq<Octet>, tail: seq<Octet>)
    requires |q| >= 1 + n && q[0] != 0 && LabelLength(q[0]) == n && q[1..1 + n] == lbl && q[1 + n..] == tail
    ensures ReadText(q) == Prepend(lbl + [DOT], ReadText(tail))
  {
  }

  lemma GoodLabelRead(s: seq<Octet>, i: nat, k: nat, rest: seq<Octet>, q: seq<Octet>)
    requires i <= |s| && k == DotFrom(s, i) && 1 <= k - i <= 127 && q == Qname(s, i) + rest
    ensures ReadText(q) == Prepend(s[i..k] + [DOT], ReadText(QnameRest(s, k) + rest))
  {
    QnameReads(s, i, k, rest, q);
    ReadStep(q, k - i, s[i..k], QnameRest(s, k) + rest);
  }

  lemma DotAt(s: seq<Octet>, i: nat, k: nat)
    requires i <= k < |s| && DotFrom(s, i) == k
    ensures s[i..] + [DOT] == (s[i..k] + [DOT]) + (s[k + 1..] + [DOT])
  {
    DotIsDot(s, i);
    assert s[i..] == s[i..k] + [s[k]] + s[k + 1..];
  }

  lemma {:induction false} DotIsDot(s: seq<Octet>, i: nat)
    requires i <= |s| && DotFrom(s, i) < |s|
    ensures s[DotFrom(s, i)] == DOT
    decreases |s| - i
  {
    if s[i] != DOT {
      DotIsDot(s, i + 1);
    }
  }

  /** Reading the encoding of the labels from i on gives them back, and stops at the final 0. */
  ghost predicate Kept(s: seq<Octet>, i: nat, rest: seq<Octet>)
    requires i <= |s|
  {
    ReadText(Qname(s, i) + rest) == Some((s[i..] + [DOT], [0] + rest))
  }

  lemma LastLabelRead(s: seq<Octet>, i: nat, rest: seq<Octet>)
    requires i <= |s| && DotFrom(s, i) == |s| && 1 <= |s| - i <= 127
    ensures Kept(s, i, rest)
  {
    GoodLabelRead(s, i, |s|, rest, Qname(s, i) + rest);
    assert s[i..|s|] + [DOT] + [] == s[i..] + [DOT];
  }

  lemma InnerLabelRead(s: seq<Octet>, i: nat, k: nat, rest: seq<Octet>)
    requires i <= k < |s| && DotFrom(s, i) == k && 1 <= k - i <= 127
    requires Kept(s, k + 1, rest)
    ensures Kept(s, i, rest)
  {
    GoodLabelRead(s, i, k, rest, Qname(s, i) + rest);
    DotAt(s, i, k);
  }

  lemma {:induction false} GoodLabelsRead(s: seq<Octet>, i: nat, rest: seq<Octet>)
    requires i <= |s|
    requires GoodLabels(s, i)
    ensures Kept(s, i, rest)
    decreases |s| - i
  {
    var k := DotFrom(s, i);
    if k < |s| {
      GoodLabelsRead(s, k + 1, rest);
      InnerLabelRead(s, i, k, rest);
    } else {
      LastLabelRead(s, i, rest);
    }
  }

  lemma AppendDiffers(a: seq<Octet>, b: seq<Octet>, c: seq<Octet>)
    requires b != c
    ensures a + b != a + c
  {
    assert (a + b)[|a|..] == b && (a + c)[|a|..] == c;
  }

  lemma LaterDiffers(a: seq<Octet>, r: Option<(seq<Octet>, seq<Octet>)>, c: seq<Octet>,
                     all: Option<(seq<Octet>, seq<Octet>)>, whole: seq<Octet>)
    requires r.Some? ==> r.value.0 != c
    requires all == Prepend(a, r) && whole == a + c
    ensures all.Some? ==> all.value.0 != whole
  {
    if r.Some? {
      AppendDiffers(a, r.value.0, c);
    }
  }

  /** Reading the encoding of the labels from i on does not give them back. */
  ghost predicate Lost(s: seq<Octet>, i: nat, rest: seq<Octet>)
    requires i <= |s|
  {
    var r := ReadText(Qname(s, i) + rest);
    r.Some? ==> r.value.0 != s[i..] + [DOT]
  }

  /** After n octets the text has a dot. */
  lemma DotRead(q: seq<Octet>, n: nat, lbl: seq<Octet>, tail: seq<Octet>)
    requires |q| >= 1 + n && q[0] != 0 && LabelLength(q[0]) == n && q[1..1 + n] == lbl && q[1 + n..] == tail
    ensures var r := ReadText(q); r.Some? ==> |r.value.0| > n && r.value.0[n] == DOT
  {
    ReadStep(q, n, lbl, tail);
    var more := ReadText(tail);
    if more.Some? {
      assert (lbl + [DOT] + more.value.0)[n] == DOT;
    }
  }

  /** A label cut short puts a dot where the name has none. */
  lemma CutLabelLost(s: seq<Octet>, i: nat, rest: seq<Octet>)
    requires i <= |s| && DotFrom(s, i) - i >= 128 && Low(DotFrom(s, i) - i) != 0
    ensures Lost(s, i, rest)
  {
    var n, q := LabelLength(Low(DotFrom(s, i) - i)), Qname(s, i) + rest;
    QnameReads(s, i, DotFrom(s, i), rest, q);
    DotRead(q, n, q[1..1 + n], q[1 + n..]);
    NoDotBefore(s, i, i + n);
    assert (s[i..] + [DOT])[n] == s[i + n];
  }

  lemma LaterLost(s: seq<Octet>, i: nat, k: nat, rest: seq<Octet>)
    requires i <= k < |s| && DotFrom(s, i) == k && 1 <= k - i <= 127 && Lost(s, k + 1, rest)
    ensures Lost(s, i, rest)
  {
    GoodLabelRead(s, i, k, rest, Qname(s, i) + rest);
    DotAt(s, i, k);
    LaterDiffers(s[i..k] + [DOT], ReadText(QnameRest(s, k) + rest), s[k + 1..] + [DOT],
                 ReadText(Qname(s, i) + rest), s[i..] + [DOT]);
  }

  lemma ZeroRead(q: seq<Octet>)
    requires q != [] && q[0] == 0
    ensures ReadText(q) == Some(([], q))
  {
  }

  lemma EmptyLabelLost(s: seq<Octet>, i: nat, rest: seq<Octet>)
    requires i <= |s| && Low(DotFrom(s, i) - i) == 0
    ensures Lost(s, i, rest)
  {
    var q := Qname(s, i) + rest;
    QnameReads(s, i, DotFrom(s, i), rest, q);
    ZeroRead(q);
    assert |s[i..] + [DOT]| > 0;
  }

  lemma {:induction false} BadLabelsLost(s: seq<Octet>, i: nat, rest: seq<Octet>)
    requires i <= |s| && !GoodLabels(s, i)
    ensures Lost(s, i, rest)
    decreases |s| - i
  {
    var k := DotFrom(s, i);
    if 1 <= k - i <= 127 {
      BadLabelsLost(s, k + 1, rest);
      LaterLost(s, i, k, rest);
    } else if Low(k - i) == 0 {
      EmptyLabelLost(s, i, rest);
    } else {
      CutLabelLost(s, i, rest);
    }
  }

  function ReadName(s: seq<Octet>): Option<seq<Octet>> {
    match ReadText(s)
    case None => None
    case Some((text, _)) => HostName(text)
  }

  lemma GoodNameRead(s: seq<Octet>, rest: seq<Octet>)
    requires GoodLabels(s, 0)
    ensures ReadName(Qname(s, 0) + rest) == Some(s)
  {
    GoodLabelsRead(s, 0, rest);
    assert s[0..] == s;
  }

  lemma OtherText(q: seq<Octet>, s: seq<Octet>)
    requires var r := ReadText(q); r.Some? ==> r.value.0 != s + [DOT]
    ensures ReadName(q) != Some(s)
  {
    EndsWithDot(q);
    var r := ReadText(q);
    if r.Some? && r.value.0 != [] {
      assert r.value.0 == r.value.0[..|r.value.0| - 1] + [DOT];
    }
  }

  lemma BadNameLost(s: seq<Octet>, rest: seq<Octet>)
    requires !GoodLabels(s, 0)
    ensures ReadName(Qname(s, 0) + rest) != Some(s)
  {
    BadLabelsLost(s, 0, rest);
    assert s[0..] == s;
    OtherText(Qname(s, 0) + rest, s);
  }

  /** A name survives encoding and decoding, whatever follows it in the packet, exactly when each of its labels has
      between 1 and 127 octets; the labels of section 3.1 of RFC 1035 have at most 63. */
  lemma NameRoundTrip(s: seq<Octet>, rest: seq<Octet>)
    ensures ReadName(Qname(s, 0) + rest) == Some(s) <==> GoodLabels(s, 0)
  {
    if GoodLabels(s, 0) {
      GoodNameRead(s, rest);
    } else {
      BadNameLost(s, rest);
    }
  }

  lemma {:induction false} EndsWithDot(q: seq<Octet>)
    ensures var r := ReadText(q); r.Some? && r.value.0 != [] ==> r.value.0[|r.value.0| - 1] == DOT
    decreases |q|
  {
    if q != [] && q[0] != 0 {
      var n := LabelLength(q[0]);
      if |q| >= 1 + n {
        EndsWithDot(q[1 + n..]);
      }
    }
  }

  // ----- the form of an encoded name -----

  /** Labels with dots between them. */
  function Dotted(labels: seq<seq<Octet>>): seq<Octet>
    requires labels != []
  {
    if |labels| == 1 then labels[0] else labels[0] + [46] + Dotted(labels[1..])
  }

  predicate LabelsOk(labels: seq<seq<Octet>>) {
    labels == [] || (|labels[0]| < 256 && (forall j :: 0 <= j < |labels[0]| ==> labels[0][j] != 46)
                     && LabelsOk(labels[1..]))
  }

  /** Each label after an octet with its length, and a final 0. */
  function LengthsAndLabels(labels: seq<seq<Octet>>): seq<Octet>
    requires LabelsOk(labels)
  {
    if labels == [] then [0]
    else
      var length: Octet := |labels[0]|;
      [length] + labels[0] + LengthsAndLabels(labels[1..])
  }

  lemma LengthsCons(labels: seq<seq<Octet>>)
    requires LabelsOk(labels) && labels != []
    ensures LengthsAndLabels(labels) == Labelled(labels[0], LengthsAndLabels(labels[1..]))
  {
  }

  lemma {:induction false} DotAfterLabel(s: seq<Octet>, i: nat, k: nat)
    requires i <= k <= |s| && (forall j :: i <= j < k ==> s[j] != 46) && (k < |s| ==> s[k] == 46)
    ensures DotFrom(s, i) == k
    decreases k - i
  {
    if i < k {
      DotAfterLabel(s, i + 1, k);
    }
  }

  lemma LastEncoded(s: seq<Octet>, i: nat, lbl: seq<Octet>)
    requires i <= |s| && s[i..] == lbl && (forall j :: 0 <= j < |lbl| ==> lbl[j] != 46)
    ensures Qname(s, i) == Labelled(lbl, [0])
  {
    forall j | i <= j < |s|
      ensures s[j] != 46
    {
      assert s[j] == lbl[j - i];
    }
    DotAfterLabel(s, i, |s|);
    assert s[i..|s|] == s[i..];
    assert QnameRest(s, |s|) == [0];
  }

  lemma InnerEncoded(s: seq<Octet>, i: nat, lbl: seq<Octet>, later: seq<Octet>)
    requires i <= |s| && s[i..] == lbl + [46] + later && (forall j :: 0 <= j < |lbl| ==> lbl[j] != 46)
    ensures i + |lbl| + 1 <= |s| && s[i + |lbl| + 1..] == later
    ensures Qname(s, i) == Labelled(lbl, Qname(s, i + |lbl| + 1))
  {
    var k := i + |lbl|;
    assert |s[i..]| == |lbl| + 1 + |later|;
    assert s[k] == s[i..][|lbl|];
    forall j | i <= j < k
      ensures s[j] != 46
    {
      assert s[j] == s[i..][j - i] == lbl[j - i];
    }
    DotAfterLabel(s, i, k);
    assert s[i..k] == s[i..][..|lbl|] == lbl;
    assert s[k + 1..] == s[i..][|lbl| + 1..] == later;
    assert QnameRest(s, k) == Qname(s, k + 1);
  }

  /** A name of labels is encoded as section 3.1 of RFC 1035 says, for labels of up to 255 octets. */
  lemma {:induction false} QnameOfLabels(s: seq<Octet>, i: nat, labels: seq<seq<Octet>>)
    requires i <= |s| && labels != [] && LabelsOk(labels) && s[i..] == Dotted(labels)
    ensures Qname(s, i) == LengthsAndLabels(labels)
    decreases |labels|
  {
    LengthsCons(labels);
    if |labels| == 1 {
      LastEncoded(s, i, labels[0]);
      assert LengthsAndLabels(labels[1..]) == [0];
    } else {
      InnerEncoded(s, i, labels[0], Dotted(labels[1..]));
      QnameOfLabels(s, i + |labels[0]| + 1, labels[1..]);
    }
  }
}
