/** The UTF-8 classifier, against the grammar of section 2 of RFC 2279 (forms of up to six octets). */
module LooksUtf8 {
  import opened Wrappers

  type Octet = bv8

  /** ASCII octets that occur in plain text: BEL BS HT LF FF CR ESC and the printable ones. */
  predicate PlainText(b: Octet) {
    (7 <= b <= 13 && b != 11) || b == 27 || 32 <= b <= 126
  }

  /** The table of the ASCII octets: T for those that occur in plain text. */
  const TEXT_CHARS :=
    "FFFFFFFTTTTFTTFF" + "FFFFFFFFFFFTFFFF" + "TTTTTTTTTTTTTTTT" + "TTTTTTTTTTTTTTTT" +
    "TTTTTTTTTTTTTTTT" + "TTTTTTTTTTTTTTTT" + "TTTTTTTTTTTTTTTT" + "TTTTTTTTTTTTTTTF"

  lemma TableIsPlainText(b: Octet)
    requires b <= 0x7F
    ensures TEXT_CHARS[b] == 'T' <==> PlainText(b)
  {
  }

  // ----- the grammar -----

  predicate IsAscii(b: Octet) {
    b <= 0x7F
  }

  predicate Continues(b: Octet) {
    0x80 <= b <= 0xBF
  }

  /** How many octets follow the first octet of a multi-octet form. */
  function Following(b: Octet): Option<nat> {
    if 0xC0 <= b <= 0xDF then Some(1)
    else if 0xE0 <= b <= 0xEF then Some(2)
    else if 0xF0 <= b <= 0xF7 then Some(3)
    else if 0xF8 <= b <= 0xFB then Some(4)
    else if 0xFC <= b <= 0xFD then Some(5)
    else None
  }

  predicate AllContinue(s: seq<Octet>) {
    forall i :: 0 <= i < |s| ==> Continues(s[i])
  }

  /** One encoded character. */
  predicate WellFormed(s: seq<Octet>) {
    && s != []
    && if IsAscii(s[0]) then |s| == 1 else Following(s[0]) == Some(|s| - 1) && AllContinue(s[1..])
  }

  /** A character cut off before its end, or nothing. */
  predicate Partial(s: seq<Octet>) {
    s != [] ==> Following(s[0]).Some? && |s| <= Following(s[0]).value && AllContinue(s[1..])
  }

  predicate AllWellFormed(cs: seq<seq<Octet>>) {
    forall c :: c in cs ==> WellFormed(c)
  }

  function Flatten(cs: seq<seq<Octet>>): seq<Octet> {
    if cs == [] then [] else cs[0] + Flatten(cs[1..])
  }

  /** s is the complete characters cs followed by a cut-off one. */
  ghost predicate Reads(s: seq<Octet>, cs: seq<seq<Octet>>, tail: seq<Octet>) {
    AllWellFormed(cs) && Partial(tail) && s == Flatten(cs) + tail
  }

  /** s begins a concatenation of encoded characters. */
  ghost predicate BeginsText(s: seq<Octet>) {
    exists cs :: AllWellFormed(cs) && s <= Flatten(cs)
  }

  ghost predicate OddControl(s: seq<Octet>) {
    exists i :: 0 <= i < |s| && IsAscii(s[i]) && !PlainText(s[i])
  }

  /** Some multi-octet character of s is complete. */
  ghost predicate HoldsMultiOctet(s: seq<Octet>) {
    exists cs, tail :: Reads(s, cs, tail) && exists c :: c in cs && |c| > 1
  }

  // ----- what the scan finds -----

  datatype Finding = Invalid | Valid(ctrl: bool, gotone: bool)

  function Also(f: Finding, ctrl: bool, gotone: bool): Finding {
    if f.Invalid? then Invalid else Valid(f.ctrl || ctrl, f.gotone || gotone)
  }

  function Scan(s: seq<Octet>): Finding
    decreases |s|
  {
    if s == [] then Valid(false, false)
    else if IsAscii(s[0]) then Also(Scan(s[1..]), !PlainText(s[0]), false)
    else
      match Following(s[0])
      case None => Invalid
      case Some(n) =>
        if |s| <= n then (if AllContinue(s[1..]) then Valid(false, false) else Invalid)
        else if AllContinue(s[1..n + 1]) then Also(Scan(s[n + 1..]), false, true)
        else Invalid
  }

  function Verdict(f: Finding): int {
    match f
    case Invalid => -1
    case Valid(ctrl, gotone) => if ctrl then 0 else if gotone then 2 else 1
  }

  lemma ScanTail(buf: seq<Octet>, i: nat, n: nat)
    requires i < |buf| && !IsAscii(buf[i]) && Following(buf[i]) == Some(n)
    ensures Scan(buf[i..])
            == if i + n >= |buf| then (if AllContinue(buf[i + 1..]) then Valid(false, false) else Invalid)
               else if AllContinue(buf[i + 1..i + n + 1]) then Also(Scan(buf[i + n + 1..]), false, true)
               else Invalid
  {
    var s := buf[i..];
    assert s[1..] == buf[i + 1..];
    if i + n < |buf| {
      assert s[1..n + 1] == buf[i + 1..i + n + 1];
      assert s[n + 1..] == buf[i + n + 1..];
    }
  }

  /** The tests on the first octet of a character. */
  method FollowingOctets(b: Octet) returns (following: int)
    requires !IsAscii(b)
    ensures following == match Following(b) case None => -1 case Some(n) => n
  {
    if b & 0x40 == 0 {
      following := -1;
    } else if b & 0x20 == 0 {
      following := 1;
    } else if b & 0x10 == 0 {
      following := 2;
    } else if b & 0x08 == 0 {
      following := 3;
    } else if b & 0x04 == 0 {
      following := 4;
    } else if b & 0x02 == 0 {
      following := 5;
    } else {
      following := -1;
    }
  }

  method HighBitClear(b: Octet) returns (clear: bool)
    ensures clear == IsAscii(b)
  {
    clear := b & 0x80 == 0;
  }

  method NotContinuing(b: Octet) returns (not: bool)
    ensures not == !Continues(b)
  {
    not := b & 0x80 == 0 || b & 0x40 != 0;
  }

  /** The octets after the first: invalid, or the position of the last one read, which is the end of the
      buffer when the character is cut off. */
  method SkipFollowing(buf: seq<Octet>, i0: nat, following: nat) returns (i: nat, valid: bool)
    requires i0 < |buf|
    ensures valid ==> i == if i0 + following < |buf| then i0 + following else |buf|
    ensures valid <==> AllContinue(if i0 + following < |buf| then buf[i0 + 1..i0 + following + 1] else buf[i0 + 1..])
  {
    i := i0;
    for n := 0 to following
      invariant i == i0 + n < |buf|
      invariant forall k :: i0 < k <= i ==> Continues(buf[k])
    {
      i := i + 1;
      if i >= |buf| {
        return i, true;
      }
      var not := NotContinuing(buf[i]);
      if not {
        var seen := if i0 + following < |buf| then buf[i0 + 1..i0 + following + 1] else buf[i0 + 1..];
        assert !Continues(seen[n]);
        return i, false;
      }
    }
    valid := true;
  }

  /** A character of more than one octet, to its last octet or the end of the buffer. */
  method SkipCharacter(buf: seq<Octet>, i0: nat) returns (i: nat, valid: bool)
    requires i0 < |buf| && !IsAscii(buf[i0])
    ensures !valid ==> Scan(buf[i0..]) == Invalid
    ensures valid ==> i > i0
    ensures valid && i >= |buf| ==> Scan(buf[i0..]) == Valid(false, false)
    ensures valid && i < |buf| ==> Scan(buf[i0..]) == Also(Scan(buf[i + 1..]), false, true)
  {
    var following := FollowingOctets(buf[i0]);
    if following == -1 {
      return i0, false;
    }
    ScanTail(buf, i0, following);
    i, valid := SkipFollowing(buf, i0, following);
  }

  method FileLooksUtf8(buf: seq<Octet>) returns (r: int)
    ensures r == Verdict(Scan(buf))
  {
    var i, gotone, ctrl := 0, false, false;
    while i < |buf|
      invariant i <= |buf| && Scan(buf) == Also(Scan(buf[i..]), ctrl, gotone)
      decreases |buf| - i
    {
      var ascii := HighBitClear(buf[i]);
      if ascii {
        TableIsPlainText(buf[i]);
        if TEXT_CHARS[buf[i]] != 'T' {
          ctrl := true;
        }
      } else {
        var valid;
        i, valid := SkipCharacter(buf, i);
        if !valid {
          return -1;
        }
        if i >= |buf| {
          break;
        }
        gotone := true;
      }
      i := i + 1;
    }
    r := if ctrl then 0 else if gotone then 2 else 1;
  }

  // ----- what the verdict means -----

  lemma ReadsCons(s: seq<Octet>, n: nat, cs: seq<seq<Octet>>, tail: seq<Octet>)
    requires n <= |s| && WellFormed(s[..n]) && Reads(s[n..], cs, tail)
    ensures Reads(s, [s[..n]] + cs, tail)
  {
    assert s == s[..n] + s[n..];
    assert s[..n] + (Flatten(cs) + tail) == (s[..n] + Flatten(cs)) + tail;
  }

  /** What the scan does not reject is read as characters and a cut-off one. */
  lemma {:induction false} ScanReads(s: seq<Octet>) returns (cs: seq<seq<Octet>>, tail: seq<Octet>)
    requires Scan(s).Valid?
    ensures Reads(s, cs, tail)
    decreases |s|
  {
    if s == [] {
      cs, tail := [], [];
    } else if IsAscii(s[0]) {
      cs, tail := ScanReads(s[1..]);
      ReadsCons(s, 1, cs, tail);
      cs := [s[..1]] + cs;
    } else {
      var n := Following(s[0]).value;
      if |s| <= n {
        cs, tail := [], s;
      } else {
        cs, tail := ScanReads(s[n + 1..]);
        assert s[..n + 1][1..] == s[1..n + 1];
        ReadsCons(s, n + 1, cs, tail);
        cs := [s[..n + 1]] + cs;
      }
    }
  }

  ghost predicate SomeMultiOctet(cs: seq<seq<Octet>>) {
    exists c :: c in cs && |c| > 1
  }

  lemma OddControlConcat(a: seq<Octet>, b: seq<Octet>)
    ensures OddControl(a + b) <==> OddControl(a) || OddControl(b)
  {
    if OddControl(a) {
      var i :| 0 <= i < |a| && IsAscii(a[i]) && !PlainText(a[i]);
      assert (a + b)[i] == a[i];
    }
    if OddControl(b) {
      var i :| 0 <= i < |b| && IsAscii(b[i]) && !PlainText(b[i]);
      assert (a + b)[|a| + i] == b[i];
    }
  }

  lemma NoControlInMultiOctet(c: seq<Octet>)
    requires c != [] && Following(c[0]).Some? && AllContinue(c[1..])
    ensures !OddControl(c)
  {
    forall i | 0 <= i < |c|
      ensures !IsAscii(c[i])
    {
      if i > 0 {
        assert c[i] == c[1..][i - 1];
      }
    }
  }

  lemma ScanCharacter(c: seq<Octet>, rest: seq<Octet>)
    requires WellFormed(c)
    ensures Scan(c + rest) == Also(Scan(rest), OddControl(c), |c| > 1)
  {
    var s := c + rest;
    assert s[|c|..] == rest;
    if IsAscii(c[0]) {
      assert s[1..] == rest;
    } else {
      NoControlInMultiOctet(c);
      assert s[1..|c|] == c[1..];
    }
  }

  /** Whatever way s is read, the scan accepts it and finds its controls and its multi-octet characters. */
  lemma {:induction false} ReadsScan(s: seq<Octet>, cs: seq<seq<Octet>>, tail: seq<Octet>)
    requires Reads(s, cs, tail)
    ensures Scan(s) == Valid(OddControl(s), SomeMultiOctet(cs))
    decreases |cs|
  {
    if cs == [] {
      assert s == tail;
    } else {
      var rest := Flatten(cs[1..]) + tail;
      ReadsScan(rest, cs[1..], tail);
      assert s == cs[0] + rest;
      ScanCharacter(cs[0], rest);
      OddControlConcat(cs[0], rest);
      assert cs == [cs[0]] + cs[1..];
    }
  }

  function Padding(n: nat): (p: seq<Octet>)
    ensures |p| == n && AllContinue(p)
  {
    seq(n, i => 0x80)
  }

  /** What is read so begins a text: the cut-off character can be completed. */
  lemma ReadsBeginsText(s: seq<Octet>, cs: seq<seq<Octet>>, tail: seq<Octet>)
    requires Reads(s, cs, tail)
    ensures BeginsText(s)
  {
    if tail == [] {
      assert s <= Flatten(cs);
    } else {
      var c := tail + Padding(Following(tail[0]).value + 1 - |tail|);
      assert c[1..] == tail[1..] + c[|tail|..];
      assert WellFormed(c);
      FlattenAppend(cs, c);
      assert s <= Flatten(cs + [c]);
    }
  }

  lemma {:induction false} FlattenAppend(cs: seq<seq<Octet>>, c: seq<Octet>)
    ensures Flatten(cs + [c]) == Flatten(cs) + c
  {
    if cs == [] {
      assert [c][1..] == [];
      assert Flatten([c]) == c + Flatten([c][1..]);
    } else {
      FlattenAppend(cs[1..], c);
      assert (cs + [c])[1..] == cs[1..] + [c];
      assert cs[0] + (Flatten(cs[1..]) + c) == (cs[0] + Flatten(cs[1..])) + c;
    }
  }

  /** Every beginning of a text is read as characters and a cut-off one. */
  lemma {:induction false} BeginningReads(s: seq<Octet>, text: seq<seq<Octet>>)
      returns (cs: seq<seq<Octet>>, tail: seq<Octet>)
    requires AllWellFormed(text) && s <= Flatten(text)
    ensures Reads(s, cs, tail)
    decreases |text|
  {
    if text == [] {
      cs, tail := [], [];
    } else if |s| < |text[0]| {
      cs, tail := [], s;
      assert WellFormed(text[0]);
      assert s == text[0][..|s|];
      assert s != [] ==> s[1..] == text[0][1..][..|s| - 1];
    } else {
      var n := |text[0]|;
      assert s[..n] == text[0];
      cs, tail := BeginningReads(s[n..], text[1..]);
      ReadsCons(s, n, cs, tail);
      cs := [s[..n]] + cs;
    }
  }

  /** The classifier: -1 exactly for what begins no text, 0 exactly for what holds an odd control character,
      2 exactly for what holds a complete multi-octet character, and 1 for the rest. */
  lemma VerdictMeans(buf: seq<Octet>)
    ensures var r := Verdict(Scan(buf));
            && (r == -1 <==> !BeginsText(buf))
            && (r == 0 <==> BeginsText(buf) && OddControl(buf))
            && (r == 2 <==> BeginsText(buf) && !OddControl(buf) && HoldsMultiOctet(buf))
            && (r == 1 <==> BeginsText(buf) && !OddControl(buf) && !HoldsMultiOctet(buf))
  {
    if Scan(buf).Valid? {
      var cs, tail := ScanReads(buf);
      ReadsBeginsText(buf, cs, tail);
      ReadsScan(buf, cs, tail);
      MultiOctetInAll(buf, cs, tail);
    } else if BeginsText(buf) {
      var text :| AllWellFormed(text) && buf <= Flatten(text);
      var cs, tail := BeginningReads(buf, text);
      ReadsScan(buf, cs, tail);
    }
  }

  /** All readings of s agree on whether there is a complete multi-octet character. */
  lemma MultiOctetInAll(s: seq<Octet>, cs: seq<seq<Octet>>, tail: seq<Octet>)
    requires Reads(s, cs, tail)
    ensures HoldsMultiOctet(s) <==> SomeMultiOctet(cs)
  {
    ReadsScan(s, cs, tail);
    if HoldsMultiOctet(s) {
      var ds, end :| Reads(s, ds, end) && exists c :: c in ds && |c| > 1;
      ReadsScan(s, ds, end);
    }
  }
}
