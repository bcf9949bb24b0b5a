/** Matching a string against a format, one directive at a time and without backtracking. Strings end where
    the C string does, and hold characters with codes from 1 to 255. */
module CharMatch {
  import opened CharBits

  /** Hangs: a loop that makes no progress. Overruns: reading on past the terminator of the format. */
  datatype Outcome = Yes | No | Hangs | Overruns

  predicate IsDigit(c: char) {
    '0' <= c <= '9'
  }

  function AllDecimal(): set<char> {
    set c: char | IsDigit(c)
  }

  predicate IsBytes(s: string) {
    forall i :: 0 <= i < |s| ==> 0 < s[i] as int < 256
  }

  /** The first character, or NUL. */
  function Head(s: string): char {
    if s == "" then '\0' else s[0]
  }

  function At(s: string, i: nat): char {
    if i < |s| then s[i] else '\0'
  }

  // ----- runs of characters -----

  /** How many of the first n characters, from the front on, are in cs. */
  function RunLength(s: string, cs: set<char>, n: nat): (k: nat)
    ensures k <= |s| && k <= n
    ensures forall i :: 0 <= i < k ==> s[i] in cs
    ensures k < n && k < |s| ==> s[k] !in cs
  {
    if n > 0 && s != "" && s[0] in cs then
      var k := RunLength(s[1..], cs, n - 1);
      assert forall i :: 0 < i < k + 1 ==> s[i] == s[1..][i - 1];
      k + 1
    else 0
  }

  /** A width of 0 is no limit. */
  function Limit(width: nat, s: string): nat {
    if width == 0 then |s| else width
  }

  /** Past the decimal digits, a point, and decimal digits, within n characters. */
  function FloatLength(s: string, n: nat): (k: nat)
    ensures k <= |s| && k <= n
  {
    var whole := RunLength(s, AllDecimal(), n);
    if At(s, whole) == '.' && whole < n then
      whole + 1 + RunLength(s[whole + 1..], AllDecimal(), n - whole - 1)
    else whole
  }

  // ----- bracket expressions -----

  /** A char is signed. */
  function Signed(c: char): int {
    if 128 <= c as int < 256 then c as int - 256 else c as int
  }

  /** What `for (c = lo; c < hi; c++)` adds: the upper end is not part of it. */
  function Below(lo: char, hi: char): set<char> {
    set c: char | c as int < 256 && Signed(lo) <= Signed(c) < Signed(hi)
  }

  /** The characters listed up to the closing bracket, and the format from there on; None is a range whose ends
      are the wrong way round, on which the loop makes no progress. */
  datatype Listed = Listed(cs: set<char>, rest: string) | Stuck

  function ReadList(f: string, cs: set<char>): (r: Listed)
    ensures r.Listed? ==> |r.rest| <= |f|
    decreases |f|
  {
    if f == "" || f[0] == ']' then Listed(cs, f)
    else if At(f, 1) == '-' then
      if Signed(f[0]) > Signed(At(f, 2)) then Stuck
      else ReadList(f[2..], cs + Below(f[0], At(f, 2)))
    else ReadList(f[1..], cs + {f[0]})
  }

  function Negated(cs: set<char>): set<char> {
    set c: char | c as int < 256 && c !in cs
  }

  /** A bracket expression after its opening bracket: a caret negates it. */
  function ReadBracket(f: string): (r: Listed)
    ensures r.Listed? ==> |r.rest| <= |f|
  {
    if Head(f) == '^' then
      match ReadList(f[1..], {})
      case Stuck => Stuck
      case Listed(cs, rest) => Listed(Negated(cs), rest)
    else ReadList(f, {})
  }

  // ----- groups of alternatives -----

  predicate IsBar(c: char) {
    c == '|' || c == '}'
  }

  /** How many characters of the format, up to a bar, the string begins with. */
  function Common(s: string, f: string): (k: nat)
    ensures k <= |s| && k <= |f|
  {
    if f != "" && !IsBar(f[0]) && s != "" && s[0] == f[0] then Common(s[1..], f[1..]) + 1 else 0
  }

  /** How far the next bar is. */
  function ToBar(f: string): (k: nat)
    ensures k <= |f|
  {
    if f == "" || IsBar(f[0]) then 0 else ToBar(f[1..]) + 1
  }

  /** The format after the next closing brace. */
  function AfterBrace(f: string): (r: string)
    ensures |r| <= |f|
  {
    if f == "" then f else if f[0] == '}' then f[1..] else AfterBrace(f[1..])
  }

  datatype Chosen = Chosen(s: string, f: string) | NoneFits

  /** The first alternative the string begins with. A closing brace does not end the search: what follows it, up to
      the next bar, is tried as one more alternative. */
  function Choose(s: string, f: string): (r: Chosen)
    ensures r.Chosen? ==> |r.s| <= |s| && |r.f| <= |f|
    decreases |f|
  {
    if f == "" || IsBar(f[0]) then NoneFits
    else
      var k := Common(s, f);
      if IsBar(Head(f[k..])) then Chosen(s[k..], AfterBrace(f[k..]))
      else
        var bar := ToBar(f);
        Choose(s, if bar < |f| then f[bar + 1..] else "")
  }

  // ----- the whole match -----

  function WidthLength(f: string): (k: nat)
    ensures k <= |f| && (k < |f| ==> !IsDigit(f[k]))
  {
    if f != "" && IsDigit(f[0]) then WidthLength(f[1..]) + 1 else 0
  }

  function Value(digits: string): nat {
    if digits == "" then 0
    else Value(digits[..|digits| - 1]) * 10 +
         if IsDigit(digits[|digits| - 1]) then digits[|digits| - 1] as int - '0' as int else 0
  }

  /** What str_match makes of the string s from the directive at the front of f on. */
  function Match(s: string, f: string): Outcome
    decreases |f|, 1
  {
    if f == "" then (if s == "" then Yes else No)
    else if f[0] == '%' then
      var k := WidthLength(f[1..]);
      MatchDirective(s, Value(f[1..1 + k]), f[1 + k..])
    else if s != "" && f[0] == s[0] then Match(s[1..], f[1..])
    else if At(f, 1) == '%' && At(f, 2) == '?' then Match(s, f[1..])
    else No
  }

  /** After the percent sign and the width. */
  function MatchDirective(s: string, width: nat, f: string): Outcome
    decreases |f|, 2
  {
    if f == "" then Overruns
    else
      match f[0]
      case 'd' => Match(s[RunLength(s, AllDecimal(), Limit(width, s))..], f[1..])
      case 'f' => Match(s[FloatLength(s, Limit(width, s))..], f[1..])
      case '[' => MatchList(s, width, f[1..])
      case '{' => MatchGroup(s, f[1..])
      case _ => Match(s, f[1..])
  }

  function MatchList(s: string, width: nat, f: string): Outcome
    decreases |f|, 3
  {
    match ReadBracket(f)
    case Stuck => Hangs
    case Listed(cs, rest) =>
      Match(s[RunLength(s, cs, Limit(width, s))..], if rest == "" then "" else rest[1..])
  }

  function MatchGroup(s: string, f: string): Outcome
    decreases |f|, 3
  {
    match Choose(s, f)
    case NoneFits => No
    case Chosen(s', f') => Match(s', f')
  }

  // ----- the code -----

  lemma RunEnds(s: string, i: nat, cs: set<char>, n: nat)
    requires i <= |s| && (i == |s| || s[i] !in cs || n == 0)
    ensures RunLength(s[i..], cs, n) == 0
  {
  }

  /** Of a run of at most n characters from i0 on, those up to i have been passed. */
  ghost predicate Passing(s: string, i0: nat, i: nat, cs: set<char>, n: nat, end: nat) {
    && i0 <= i <= |s| && i - i0 <= n
    && i + RunLength(s[i..], cs, n - (i - i0)) == end
  }

  /** Digits within what is left of a width. */
  method SkipWithin(str: string, s0: nat, width0: nat) returns (s: nat, width: nat)
    requires s0 <= |str|
    ensures s == s0 + RunLength(str[s0..], AllDecimal(), width0) <= |str| && width == width0 - (s - s0)
  {
    s, width := s0, width0;
    ghost var end := s0 + RunLength(str[s0..], AllDecimal(), width0);
    while s < |str| && IsDigit(str[s]) && width > 0
      invariant Passing(str, s0, s, AllDecimal(), width0, end) && width == width0 - (s - s0)
    {
      s, width := s + 1, width - 1;
    }
  }

  method SkipDigits(str: string, s0: nat, width: nat) returns (s: nat)
    requires s0 <= |str|
    ensures s == s0 + RunLength(str[s0..], AllDecimal(), Limit(width, str[s0..]))
  {
    if width != 0 {
      var left;
      s, left := SkipWithin(str, s0, width);
    } else {
      s := s0;
      ghost var n := |str[s0..]|;
      ghost var end := s0 + RunLength(str[s0..], AllDecimal(), n);
      while s < |str| && IsDigit(str[s])
        invariant Passing(str, s0, s, AllDecimal(), n, end)
      {
        s := s + 1;
      }
    }
  }

  method SkipMembersWithin(str: string, s0: nat, bit: BitSet, width0: nat) returns (s: nat)
    requires s0 <= |str| && IsBytes(str) && bit.Valid()
    ensures s == s0 + RunLength(str[s0..], bit.Members(), width0)
  {
    var width := width0;
    s := s0;
    ghost var cs, end := bit.Members(), s0 + RunLength(str[s0..], bit.Members(), width0);
    while s < |str| && bit.Has(str[s]) && width > 0
      invariant Passing(str, s0, s, cs, width0, end) && width == width0 - (s - s0)
    {
      s, width := s + 1, width - 1;
    }
  }

  method SkipMembers(str: string, s0: nat, bit: BitSet, width: nat) returns (s: nat)
    requires s0 <= |str| && IsBytes(str) && bit.Valid()
    ensures s == s0 + RunLength(str[s0..], bit.Members(), Limit(width, str[s0..]))
  {
    if width != 0 {
      s := SkipMembersWithin(str, s0, bit, width);
    } else {
      s := s0;
      ghost var cs, n := bit.Members(), |str[s0..]|;
      ghost var end := s0 + RunLength(str[s0..], cs, n);
      while s < |str| && bit.Has(str[s])
        invariant Passing(str, s0, s, cs, n, end)
      {
        s := s + 1;
      }
    }
  }

  lemma FloatParts(str: string, s0: nat, n: nat, whole: nat)
    requires s0 <= |str| && whole == RunLength(str[s0..], AllDecimal(), n)
    ensures FloatLength(str[s0..], n)
            == if s0 + whole < |str| && str[s0 + whole] == '.' && whole < n
               then whole + 1 + RunLength(str[s0 + whole + 1..], AllDecimal(), n - whole - 1) else whole
  {
    if s0 + whole < |str| {
      assert str[s0..][whole + 1..] == str[s0 + whole + 1..];
    }
  }

  method SkipFloatWithin(str: string, s0: nat, width0: nat) returns (s: nat)
    requires s0 <= |str|
    ensures s == s0 + FloatLength(str[s0..], width0)
  {
    var width;
    s, width := SkipWithin(str, s0, width0);
    FloatParts(str, s0, width0, s - s0);
    if s < |str| && str[s] == '.' && width > 0 {
      s, width := s + 1, width - 1;
    } else {
      RunEnds(str, s, AllDecimal(), width);
    }
    s, width := SkipWithin(str, s, width);
  }

  method SkipFloat(str: string, s0: nat, width0: nat) returns (s: nat)
    requires s0 <= |str|
    ensures s == s0 + FloatLength(str[s0..], Limit(width0, str[s0..]))
  {
    if width0 != 0 {
      s := SkipFloatWithin(str, s0, width0);
    } else {
      s := SkipDigits(str, s0, 0);
      FloatParts(str, s0, |str[s0..]|, s - s0);
      if s < |str| && str[s] == '.' {
        s := s + 1;
      } else {
        RunEnds(str, s, AllDecimal(), |str[s..]|);
      }
      s := SkipDigits(str, s, 0);
    }
  }

  lemma ValueStep(f: string, j0: nat, j: nat)
    requires j0 <= j < |f| && IsDigit(f[j])
    ensures Value(f[j0..j + 1]) == Value(f[j0..j]) * 10 + (f[j] as int - '0' as int)
  {
    assert f[j0..j + 1][..j - j0] == f[j0..j];
  }

  method ReadWidth(format: string, j0: nat) returns (fmt: nat, width: nat)
    requires j0 <= |format|
    ensures fmt == j0 + WidthLength(format[j0..]) && width == Value(format[j0..fmt])
  {
    fmt, width := j0, 0;
    while fmt < |format| && IsDigit(format[fmt])
      invariant j0 <= fmt <= |format| && fmt + WidthLength(format[fmt..]) == j0 + WidthLength(format[j0..])
      invariant width == Value(format[j0..fmt])
    {
      assert format[fmt..][1..] == format[fmt + 1..];
      ValueStep(format, j0, fmt);
      width := width * 10 + (format[fmt] as int - '0' as int);
      fmt := fmt + 1;
    }
  }

  function FromSigned(v: int): (c: char)
    requires -128 <= v < 128
    ensures c as int < 256 && Signed(c) == v
  {
    (if v < 0 then v + 256 else v) as char
  }

  lemma SignedInjective(c: char, d: char)
    requires c as int < 256 && d as int < 256 && Signed(c) == Signed(d)
    ensures c == d
  {
  }

  /** The loop over a range; it ends at the upper end unless the lower end is beyond it. */
  method SetRange(bit: BitSet, lo: char, hi: char) returns (c: int)
    requires bit.Valid() && lo as int < 256 && hi as int < 256
    modifies bit.bit
    ensures bit.Members() == old(bit.Members()) + Below(lo, hi)
    ensures c == Signed(hi) <==> Signed(lo) <= Signed(hi)
  {
    c := Signed(lo);
    while c < Signed(hi)
      invariant Signed(lo) <= c && (c <= Signed(hi) || c == Signed(lo))
      invariant bit.Members() == old(bit.Members()) + set d: char | d as int < 256 && Signed(lo) <= Signed(d) < c
    {
      var d := FromSigned(c);
      forall e: char | e as int < 256 && Signed(e) == c
        ensures e == d
      {
        SignedInjective(e, d);
      }
      bit.Set(d);
      c := c + 1;
    }
  }

  /** What has been read of a list, and what it comes to. */
  ghost predicate Listing(f: string, j: nat, cs: set<char>, all: Listed) {
    j <= |f| && ReadList(f[j..], cs) == all
  }

  lemma ListOne(f: string, j: nat, cs: set<char>, all: Listed)
    requires Listing(f, j, cs, all) && j < |f| && f[j] != ']' && At(f, j + 1) != '-'
    ensures Listing(f, j + 1, cs + {f[j]}, all)
  {
    assert f[j..][1..] == f[j + 1..];
  }

  lemma ListRange(f: string, j: nat, cs: set<char>, all: Listed)
    requires Listing(f, j, cs, all) && j < |f| && f[j] != ']' && At(f, j + 1) == '-'
    ensures Signed(f[j]) > Signed(At(f, j + 2)) ==> all == Stuck
    ensures Signed(f[j]) <= Signed(At(f, j + 2)) ==> Listing(f, j + 2, cs + Below(f[j], At(f, j + 2)), all)
  {
    assert f[j..][2..] == f[j + 2..];
  }

  method AddRange(format: string, fmt: nat, bit: BitSet, ghost all: Listed) returns (ok: bool)
    requires IsBytes(format) && bit.Valid() && Listing(format, fmt, bit.Members(), all)
    requires fmt < |format| && format[fmt] != ']' && At(format, fmt + 1) == '-'
    modifies bit.bit
    ensures ok ==> Listing(format, fmt + 2, bit.Members(), all)
    ensures !ok ==> all == Stuck
  {
    ListRange(format, fmt, bit.Members(), all);
    var c := SetRange(bit, format[fmt], At(format, fmt + 2));
    ok := c == Signed(At(format, fmt + 2));
  }

  method AddOne(format: string, fmt: nat, bit: BitSet, ghost all: Listed)
    requires IsBytes(format) && bit.Valid() && Listing(format, fmt, bit.Members(), all)
    requires fmt < |format| && format[fmt] != ']' && At(format, fmt + 1) != '-'
    modifies bit.bit
    ensures Listing(format, fmt + 1, bit.Members(), all)
  {
    ListOne(format, fmt, bit.Members(), all);
    bit.Set(format[fmt]);
  }

  /** One character, or one range up to its upper end. */
  method ReadItem(format: string, fmt: nat, bit: BitSet, ghost all: Listed) returns (ok: bool, next: nat)
    requires IsBytes(format) && bit.Valid() && Listing(format, fmt, bit.Members(), all)
    requires fmt < |format| && format[fmt] != ']'
    modifies bit.bit
    ensures ok ==> next > fmt && Listing(format, next, bit.Members(), all)
    ensures !ok ==> all == Stuck
  {
    if At(format, fmt + 1) == '-' {
      ok := AddRange(format, fmt, bit, all);
      next := fmt + 2;
    } else {
      AddOne(format, fmt, bit, all);
      ok, next := true, fmt + 1;
    }
  }

  /** The loop over a bracket expression; where no progress is made it is stuck for ever. */
  method ReadSet(format: string, j0: nat, bit: BitSet) returns (stuck: bool, fmt: nat)
    requires j0 <= |format| && IsBytes(format) && bit.Valid() && bit.Members() == {}
    modifies bit.bit
    ensures stuck ==> ReadList(format[j0..], {}) == Stuck
    ensures !stuck ==> j0 <= fmt <= |format| && ReadList(format[j0..], {}) == Listed(bit.Members(), format[fmt..])
  {
    ghost var all := ReadList(format[j0..], {});
    fmt := j0;
    while fmt < |format| && format[fmt] != ']'
      invariant j0 <= fmt && Listing(format, fmt, bit.Members(), all)
      decreases |format| - fmt
    {
      var ok, next := ReadItem(format, fmt, bit, all);
      if !ok {
        return true, fmt;
      }
      fmt := next;
    }
    stuck := false;
  }

  // ----- groups -----

  method MatchWord(str: string, i0: nat, format: string, j0: nat) returns (s: nat, fmt: nat)
    requires i0 <= |str| && j0 <= |format|
    ensures s == i0 + Common(str[i0..], format[j0..]) && fmt == j0 + Common(str[i0..], format[j0..])
  {
    s, fmt := i0, j0;
    while fmt < |format| && !IsBar(format[fmt]) && s < |str| && str[s] == format[fmt]
      invariant i0 <= s <= |str| && j0 <= fmt <= |format| && s - i0 == fmt - j0
      invariant fmt + Common(str[s..], format[fmt..]) == j0 + Common(str[i0..], format[j0..])
    {
      assert str[s..][1..] == str[s + 1..] && format[fmt..][1..] == format[fmt + 1..];
      s, fmt := s + 1, fmt + 1;
    }
  }

  method SkipToBar(format: string, j0: nat) returns (fmt: nat)
    requires j0 <= |format|
    ensures fmt == j0 + ToBar(format[j0..])
  {
    fmt := j0;
    while fmt < |format| && !IsBar(format[fmt])
      invariant j0 <= fmt <= |format| && fmt + ToBar(format[fmt..]) == j0 + ToBar(format[j0..])
    {
      assert format[fmt..][1..] == format[fmt + 1..];
      fmt := fmt + 1;
    }
  }

  /** To the closing brace and, after the loop over alternatives, past it. */
  method SkipBrace(format: string, j0: nat) returns (fmt: nat)
    requires j0 <= |format|
    ensures j0 <= fmt <= |format| && format[fmt..] == AfterBrace(format[j0..])
  {
    fmt := j0;
    while fmt < |format| && format[fmt] != '}'
      invariant j0 <= fmt <= |format| && AfterBrace(format[fmt..]) == AfterBrace(format[j0..])
    {
      assert format[fmt..][1..] == format[fmt + 1..];
      fmt := fmt + 1;
    }
    if fmt < |format| {
      assert format[fmt..][1..] == format[fmt + 1..];
      fmt := fmt + 1;
    }
  }

  lemma {:induction false} BarAfterCommon(s: string, f: string, k: nat)
    requires k <= Common(s, f)
    ensures ToBar(f) == k + ToBar(f[k..])
    decreases k
  {
    if k == 0 {
      assert f[0..] == f;
    } else {
      BarAfterCommon(s[1..], f[1..], k - 1);
      assert f[1..][k - 1..] == f[k..];
    }
  }

  /** The choice comes to all, and the alternatives before fmt do not fit. */
  ghost predicate Choosing(str: string, i: nat, format: string, fmt: nat, all: Chosen) {
    i <= |str| && fmt <= |format| && Choose(str[i..], format[fmt..]) == all
  }

  lemma FittingWord(s: string, f: string, k: nat)
    requires f != "" && !IsBar(f[0]) && k == Common(s, f) && k < |f| && IsBar(f[k])
    ensures Choose(s, f) == Chosen(s[k..], AfterBrace(f[k..]))
  {
  }

  lemma OtherWord(s: string, f: string, k: nat, bar: nat)
    requires f != "" && !IsBar(f[0]) && k == Common(s, f) && !(k < |f| && IsBar(f[k])) && bar == ToBar(f)
    ensures Choose(s, f) == Choose(s, if bar < |f| then f[bar + 1..] else "")
  {
  }

  lemma WordFits(str: string, i: nat, format: string, at: nat, k: nat, all: Chosen)
    requires Choosing(str, i, format, at, all) && at < |format| && !IsBar(format[at])
    requires k == Common(str[i..], format[at..]) && at + k < |format| && IsBar(format[at + k])
    ensures all == Chosen(str[i + k..], AfterBrace(format[at + k..]))
  {
    FittingWord(str[i..], format[at..], k);
    assert str[i..][k..] == str[i + k..];
    assert format[at..][k..] == format[at + k..];
  }

  lemma OtherWordSkipped(s: string, f: string, k: nat, bar: nat, g: string)
    requires f != "" && !IsBar(f[0]) && k == Common(s, f) && !(k < |f| && IsBar(f[k])) && bar == k + ToBar(f[k..])
    requires g == AfterBar(f, bar)
    ensures 0 < bar <= |f| && Choose(s, f) == Choose(s, g)
  {
    BarAfterCommon(s, f, k);
    OtherWord(s, f, k, bar);
  }

  /** The format after the bar, if there is one. */
  function AfterBar(f: string, bar: nat): string {
    if bar < |f| then f[bar + 1..] else ""
  }

  lemma DropDrop(f: string, a: nat, b: nat)
    requires a <= b <= |f|
    ensures f[a..][b - a..] == f[b..]
  {
  }

  lemma WordDiffers(s: string, format: string, at: nat, j: nat, bar: nat, g: string, all: Chosen)
    requires at < |format| && !IsBar(format[at]) && Choose(s, format[at..]) == all
    requires j == at + Common(s, format[at..]) && !(j < |format| && IsBar(format[j]))
    requires bar == j + ToBar(format[j..]) && g == AfterBar(format, bar)
    ensures at < bar <= |format| && all == Choose(s, g)
  {
    var f := format[at..];
    DropDrop(format, at, j);
    if bar < |format| {
      DropDrop(format, at, bar + 1);
    }
    OtherWordSkipped(s, f, j - at, bar - at, g);
  }

  /** Past an alternative that differs at j, and past the bar after it. */
  method SkipWord(str: string, i: nat, format: string, ghost at: nat, j: nat, ghost all: Chosen) returns (fmt: nat)
    requires Choosing(str, i, format, at, all) && at < |format| && !IsBar(format[at])
    requires j == at + Common(str[i..], format[at..]) && !(j < |format| && IsBar(format[j]))
    ensures at < fmt <= |format| && Choosing(str, i, format, fmt, all)
  {
    fmt := SkipToBar(format, j);
    ghost var g := AfterBar(format, fmt);
    WordDiffers(str[i..], format, at, j, fmt, g, all);
    if fmt < |format| {
      fmt := fmt + 1;
    }
    assert format[fmt..] == g;
  }

  /** One alternative: it fits, or the search goes on after the next bar. */
  method TryWord(str: string, i: nat, format: string, at: nat, ghost all: Chosen)
    returns (ok: bool, s: nat, fmt: nat)
    requires Choosing(str, i, format, at, all) && at < |format| && !IsBar(format[at])
    ensures at <= fmt <= |format| && s <= |str|
    ensures ok ==> all == Chosen(str[s..], format[fmt..])
    ensures !ok ==> fmt > at && Choosing(str, i, format, fmt, all)
  {
    s, fmt := MatchWord(str, i, format, at);
    ghost var k := fmt - at;
    if fmt < |format| && IsBar(format[fmt]) {
      WordFits(str, i, format, at, k, all);
      fmt := SkipBrace(format, fmt);
      return true, s, fmt;
    }
    fmt := SkipWord(str, i, format, at, fmt, all);
    ok := false;
  }

  method TryGroup(str: string, i: nat, format: string, j0: nat) returns (ok: bool, s: nat, fmt: nat)
    requires i <= |str| && j0 <= |format|
    ensures j0 <= fmt <= |format|
    ensures ok ==> s <= |str| && Choose(str[i..], format[j0..]) == Chosen(str[s..], format[fmt..])
    ensures !ok ==> Choose(str[i..], format[j0..]) == NoneFits
  {
    ghost var all := Choose(str[i..], format[j0..]);
    ok, s, fmt := false, i, j0;
    while fmt < |format| && !IsBar(format[fmt])
      invariant j0 <= fmt && Choosing(str, i, format, fmt, all)
      decreases |format| - fmt
    {
      ok, s, fmt := TryWord(str, i, format, fmt, all);
      if ok {
        return;
      }
    }
    ok := false;
  }

  // ----- str_match -----

  /** From here on the match comes to all. */
  ghost predicate Matching(str: string, s: nat, format: string, fmt: nat, all: Outcome) {
    s <= |str| && fmt <= |format| && Match(str[s..], format[fmt..]) == all
  }

  ghost predicate AtDirective(str: string, s: nat, width: nat, format: string, fmt: nat, all: Outcome) {
    s <= |str| && fmt <= |format| && MatchDirective(str[s..], width, format[fmt..]) == all
  }

  lemma PercentSeen(str: string, s: nat, format: string, fmt: nat, all: Outcome)
    requires Matching(str, s, format, fmt, all) && fmt < |format| && format[fmt] == '%'
    ensures var j := fmt + 1 + WidthLength(format[fmt + 1..]);
            AtDirective(str, s, Value(format[fmt + 1..j]), format, j, all)
  {
    var f, k := format[fmt..], WidthLength(format[fmt + 1..]);
    assert f[1..] == format[fmt + 1..];
    assert f[1 + k..] == format[fmt + 1 + k..];
    assert f[1..1 + k] == format[fmt + 1..fmt + 1 + k];
  }

  /** What a directive leaves to do. */
  lemma DirectiveSeen(str: string, s: nat, width: nat, format: string, fmt: nat, all: Outcome)
    requires AtDirective(str, s, width, format, fmt, all) && fmt < |format|
    ensures format[fmt] == 'd' ==>
              Matching(str, s + RunLength(str[s..], AllDecimal(), Limit(width, str[s..])), format, fmt + 1, all)
    ensures format[fmt] == 'f' ==>
              Matching(str, s + FloatLength(str[s..], Limit(width, str[s..])), format, fmt + 1, all)
    ensures format[fmt] != 'd' && format[fmt] != 'f' && format[fmt] != '[' && format[fmt] != '{' ==>
              Matching(str, s, format, fmt + 1, all)
    ensures format[fmt] == '{' ==> all == MatchGroup(str[s..], format[fmt + 1..])
    ensures format[fmt] == '[' ==> all == MatchList(str[s..], width, format[fmt + 1..])
  {
    var d, e := RunLength(str[s..], AllDecimal(), Limit(width, str[s..])), FloatLength(str[s..], Limit(width, str[s..]));
    assert format[fmt..][1..] == format[fmt + 1..];
    assert str[s..][d..] == str[s + d..];
    assert str[s..][e..] == str[s + e..];
  }

  /** The match after a bracket expression that has been read. */
  lemma ListRead(str: string, s: nat, width: nat, format: string, j: nat, k: nat, cs: set<char>)
    requires s <= |str| && j <= |format| && k <= |format| && ReadBracket(format[j..]) == Listed(cs, format[k..])
    ensures Matching(str, s + RunLength(str[s..], cs, Limit(width, str[s..])), format, if k < |format| then k + 1 else k,
                     MatchList(str[s..], width, format[j..]))
  {
    var run := RunLength(str[s..], cs, Limit(width, str[s..]));
    assert str[s..][run..] == str[s + run..];
    assert k < |format| ==> format[k..][1..] == format[k + 1..];
    assert k == |format| ==> format[k..] == "";
  }

  method ReadBits(format: string, j: nat) returns (stuck: bool, bit: BitSet, fmt: nat)
    requires IsBytes(format) && j <= |format|
    ensures bit.Valid() && fresh(bit) && fresh(bit.bit)
    ensures stuck ==> ReadBracket(format[j..]) == Stuck
    ensures !stuck ==> j <= fmt <= |format| && ReadBracket(format[j..]) == Listed(bit.Members(), format[fmt..])
  {
    bit := new BitSet();
    bit.Zero();
    fmt := j;
    var caret := At(format, fmt) == '^';
    if caret {
      fmt := fmt + 1;
      assert format[j..][1..] == format[fmt..];
    }
    assert Head(format[j..]) == At(format, j);
    stuck, fmt := ReadSet(format, fmt, bit);
    if !stuck && caret {
      bit.Rev();
    }
  }

  /** Either the match goes on from s and fmt, or it has ended. */
  datatype Progress = Going | Ended(r: Outcome)

  ghost predicate Goes(p: Progress, str: string, s: nat, format: string, fmt: nat, all: Outcome) {
    match p
    case Going => Matching(str, s, format, fmt, all)
    case Ended(r) => r == all
  }

  /** The string after a bracket expression whose set has been read. */
  method PassMembers(str: string, s0: nat, width: nat, bit: BitSet, format: string, j: nat, k: nat, ghost all: Outcome)
    returns (s: nat, fmt: nat)
    requires IsBytes(str) && bit.Valid() && s0 <= |str| && j <= k <= |format|
    requires all == MatchList(str[s0..], width, format[j..])
    requires ReadBracket(format[j..]) == Listed(bit.Members(), format[k..])
    ensures Matching(str, s, format, fmt, all) && fmt >= j
  {
    ListRead(str, s0, width, format, j, k, bit.Members());
    s := SkipMembers(str, s0, bit, width);
    fmt := if k < |format| then k + 1 else k;
  }

  method DoList(str: string, s0: nat, width: nat, format: string, j: nat, ghost all: Outcome)
    returns (p: Progress, s: nat, fmt: nat)
    requires IsBytes(str) && IsBytes(format) && s0 <= |str| && j <= |format|
    requires all == MatchList(str[s0..], width, format[j..])
    ensures Goes(p, str, s, format, fmt, all) && (p.Going? ==> fmt >= j)
  {
    var stuck, bit, k := ReadBits(format, j);
    if stuck {
      return Ended(Hangs), s0, j;
    }
    s, fmt := PassMembers(str, s0, width, bit, format, j, k, all);
    p := Going;
  }

  method DoGroup(str: string, s0: nat, format: string, j: nat, ghost all: Outcome)
    returns (p: Progress, s: nat, fmt: nat)
    requires s0 <= |str| && j <= |format| && all == MatchGroup(str[s0..], format[j..])
    ensures Goes(p, str, s, format, fmt, all) && (p.Going? ==> fmt >= j)
  {
    var ok;
    ok, s, fmt := TryGroup(str, s0, format, j);
    p := if ok then Going else Ended(No);
  }

  method DoDirective(str: string, s0: nat, width: nat, format: string, j: nat, ghost all: Outcome)
    returns (p: Progress, s: nat, fmt: nat)
    requires IsBytes(str) && IsBytes(format) && AtDirective(str, s0, width, format, j, all)
    ensures Goes(p, str, s, format, fmt, all) && (p.Going? ==> fmt > j)
  {
    s, fmt := s0, j;
    if fmt == |format| {
      return Ended(Overruns), s, fmt;
    }
    p := Going;
    DirectiveSeen(str, s, width, format, fmt, all);
    match format[fmt]
    case 'd' =>
      s := SkipDigits(str, s, width);
      fmt := fmt + 1;
    case 'f' =>
      s := SkipFloat(str, s, width);
      fmt := fmt + 1;
    case '[' =>
      p, s, fmt := DoList(str, s, width, format, fmt + 1, all);
    case '{' =>
      p, s, fmt := DoGroup(str, s, format, fmt + 1, all);
    case _ =>
      fmt := fmt + 1;
  }

  lemma CharSeen(str: string, s: nat, format: string, fmt: nat, all: Outcome)
    requires Matching(str, s, format, fmt, all) && fmt < |format| && format[fmt] != '%'
    ensures s < |str| && str[s] == format[fmt] ==> Matching(str, s + 1, format, fmt + 1, all)
    ensures !(s < |str| && str[s] == format[fmt]) ==>
              if At(format, fmt + 1) == '%' && At(format, fmt + 2) == '?' then Matching(str, s, format, fmt + 1, all)
              else all == No
  {
    assert format[fmt..][1..] == format[fmt + 1..];
    assert s < |str| ==> str[s..][1..] == str[s + 1..];
  }

  method DoChar(str: string, s0: nat, format: string, j: nat, ghost all: Outcome)
    returns (p: Progress, s: nat, fmt: nat)
    requires Matching(str, s0, format, j, all) && j < |format| && format[j] != '%'
    requires IsBytes(format)
    ensures Goes(p, str, s, format, fmt, all) && (p.Going? ==> fmt > j)
  {
    CharSeen(str, s0, format, j, all);
    s, fmt := s0, j;
    if At(str, s) != format[fmt] {
      if At(format, fmt + 1) == '%' && At(format, fmt + 2) == '?' {
        return Going, s, fmt + 1;
      }
      return Ended(No), s, fmt;
    }
    p, s, fmt := Going, s + 1, fmt + 1;
  }

  method StrMatch(str: string, format: string) returns (r: Outcome)
    requires IsBytes(str) && IsBytes(format)
    ensures r == Match(str, format)
  {
    ghost var all := Match(str, format);
    var s, fmt := 0, 0;
    assert str[0..] == str && format[0..] == format;
    while fmt < |format|
      invariant Matching(str, s, format, fmt, all)
      decreases |format| - fmt
    {
      var p;
      if format[fmt] == '%' {
        PercentSeen(str, s, format, fmt, all);
        var width;
        fmt, width := ReadWidth(format, fmt + 1);
        p, s, fmt := DoDirective(str, s, width, format, fmt, all);
      } else {
        p, s, fmt := DoChar(str, s, format, fmt, all);
      }
      if p.Ended? {
        return p.r;
      }
    }
    r := if fmt == |format| && s == |str| then Yes else No;
  }
}
