/** What the string matcher promises: it accepts no string outside the language of its format; which formats it is
    complete for, and on which it ends. */
module MatchResults {
  import opened Wrappers
  import opened CharMatch
  import opened MatchLanguage

  // ----- the language of a format -----

  function Concat(ps: seq<string>): string {
    if ps == [] then "" else ps[0] + Concat(ps[1..])
  }

  /** The pieces make up s, and each is in the language of its directive. */
  ghost predicate Splits(ds: seq<Directive>, s: string, ps: seq<string>) {
    && |ps| == |ds| && Concat(ps) == s
    && forall i :: 0 <= i < |ds| ==> InLanguage(ds[i], ps[i])
  }

  ghost predicate Denotes(ds: seq<Directive>, s: string) {
    exists ps :: Splits(ds, s, ps)
  }

  lemma SplitCons(ds: seq<Directive>, p: string, ps: seq<string>, s: string)
    requires ds != [] && InLanguage(ds[0], p) && Splits(ds[1..], s, ps)
    ensures Splits(ds, p + s, [p] + ps)
  {
    assert ([p] + ps)[1..] == ps;
    forall i | 0 <= i < |ds|
      ensures InLanguage(ds[i], ([p] + ps)[i])
    {
      if i > 0 {
        assert ds[i] == ds[1..][i - 1];
      }
    }
  }

  lemma SplitTail(ds: seq<Directive>, s: string, ps: seq<string>)
    requires ds != [] && Splits(ds, s, ps)
    ensures InLanguage(ds[0], ps[0]) && s == ps[0] + Concat(ps[1..])
    ensures Splits(ds[1..], Concat(ps[1..]), ps[1..])
  {
  }

  // ----- soundness -----

  lemma FloatIsFloat(s: string, n: nat)
    ensures IsFloat(s[..FloatLength(s, n)])
  {
    var whole, all := RunLength(s, AllDecimal(), n), FloatLength(s, n);
    var p := s[..all];
    DecimalSet();
    assert p[..whole] == s[..whole];
    assert AllDecimals(p[..whole]);
    if whole < all {
      var tail := s[whole + 1..];
      assert forall i :: 0 <= i < all - whole - 1 ==> p[whole + 1..][i] == tail[i];
      assert AllDecimals(p[whole + 1..]);
    }
  }

  lemma TakenInLanguage(d: Directive, s: string)
    requires Starts(d, s)
    ensures InLanguage(d, s[..Taken(d, s)])
  {
    var p := s[..Taken(d, s)];
    match d
    case Char(c) =>
      assert p == [s[0]];
    case Optional(c) =>
    case Digits(width) =>
      DecimalSet();
      WidthIsNumber(width);
    case Float(width) =>
      WidthIsNumber(width);
      FloatIsFloat(s, Limit(Value(width), s));
    case Bracket(width, negated, items) =>
      WidthIsNumber(width);
    case OneOf(_, alts) =>
      assert p == FirstFit(alts, s).value;
    case Ignored(_, _) =>
  }

  /** Greedy matching is sound: the whole string splits into pieces, one in the language of each directive. */
  lemma {:induction false} GreedySplits(ds: seq<Directive>, s: string) returns (ps: seq<string>)
    requires Greedy(ds, s)
    ensures Splits(ds, s, ps)
    decreases |ds|
  {
    if ds == [] {
      ps := [];
    } else {
      var k := Taken(ds[0], s);
      TakenInLanguage(ds[0], s);
      var later := GreedySplits(ds[1..], s[k..]);
      SplitCons(ds, s[..k], later, s[k..]);
      ps := [s[..k]] + later;
      assert s == s[..k] + s[k..];
    }
  }

  /** The matcher is sound: it returns 1 only for strings that split into pieces in the languages of the directives. */
  lemma MatchIsSound(ds: seq<Directive>, s: string)
    requires WellFormed(ds) && Match(s, Format(ds)) == Yes
    ensures Denotes(ds, s)
  {
    MatchIsGreedy(ds, s);
    var ps := GreedySplits(ds, s);
  }

  // ----- completeness -----

  function Initials(alts: seq<string>): set<char> {
    set a | a in alts && a != "" :: a[0]
  }

  /** What a string of the language can begin with. */
  function FirstOf(ds: seq<Directive>): set<char> {
    if ds == [] then {}
    else
      match ds[0]
      case Char(c) => {c}
      case Optional(c) => {c} + FirstOf(ds[1..])
      case Digits(_) => DECIMAL + FirstOf(ds[1..])
      case Float(_) => DECIMAL + {'.'} + FirstOf(ds[1..])
      case Bracket(_, negated, items) => ClassOf(negated, items) + FirstOf(ds[1..])
      case OneOf(_, alts) => Initials(alts)
      case Ignored(_, _) => FirstOf(ds[1..])
  }

  /** With what the directive, which could also stop, goes on. */
  function GoesOnWith(d: Directive): set<char> {
    match d
    case Optional(c) => {c}
    case Digits(_) => DECIMAL
    case Float(_) => DECIMAL + {'.'}
    case Bracket(_, negated, items) => ClassOf(negated, items)
    case _ => {}
  }

  /** No alternative begins with another one. */
  predicate PrefixFree(alts: seq<string>) {
    forall a, b :: a in alts && b in alts && a <= b ==> a == b
  }

  /** What follows the directive never looks like more of it. */
  predicate Settled(d: Directive, later: seq<Directive>) {
    && GoesOnWith(d) !! FirstOf(later)
    && (d.OneOf? ==> PrefixFree(d.alts))
  }

  predicate Deterministic(ds: seq<Directive>) {
    ds == [] || (Settled(ds[0], ds[1..]) && Deterministic(ds[1..]))
  }

  lemma FirstOfPiece(d: Directive, later: seq<Directive>, p: string, q: string, rest: string)
    requires Fits(d, rest) && InLanguage(d, p) && p + q != ""
    requires q != "" ==> q[0] in FirstOf(later)
    ensures (p + q)[0] in FirstOf([d] + later)
  {
    assert ([d] + later)[1..] == later;
    if p == "" {
      assert p + q == q;
      assert !d.Char? && !d.OneOf?;
    } else {
      assert (p + q)[0] == p[0];
      if d.Float? {
        FloatFirst(p);
      }
    }
  }

  lemma FloatFirst(p: string)
    requires IsFloat(p) && p != ""
    ensures IsDigit(p[0]) || p[0] == '.'
  {
    var k :| 0 <= k <= |p| && AllDecimals(p[..k]) && (k < |p| ==> p[k] == '.' && AllDecimals(p[k + 1..]));
    assert k > 0 ==> p[..k][0] == p[0];
  }

  lemma {:induction false} FirstOfWord(ds: seq<Directive>, s: string, ps: seq<string>)
    requires WellFormed(ds) && Splits(ds, s, ps) && s != ""
    ensures s[0] in FirstOf(ds)
    decreases |ds|
  {
    SplitTail(ds, s, ps);
    var q := Concat(ps[1..]);
    if q != "" {
      FirstOfWord(ds[1..], q, ps[1..]);
    }
    FirstOfPiece(ds[0], ds[1..], ps[0], q, Format(ds[1..]));
    assert [ds[0]] + ds[1..] == ds;
  }

  /** A run that a character outside the class, or the end, follows. */
  lemma {:induction false} RunStops(p: string, q: string, cs: set<char>, n: nat)
    requires (forall i :: 0 <= i < |p| ==> p[i] in cs) && |p| <= n && (q != "" ==> q[0] !in cs)
    ensures RunLength(p + q, cs, n) == |p|
    decreases |p|
  {
    if p == "" {
      assert p + q == q;
    } else {
      assert (p + q)[1..] == p[1..] + q;
      RunStops(p[1..], q, cs, n - 1);
    }
  }

  /** The digits of a number, with its point and the digits after it, if it has them. */
  predicate FloatParts(p: string, whole: string, frac: string) {
    AllDecimals(whole) && (if frac == "" then p == whole else p == whole + frac && frac[0] == '.' && AllDecimals(frac[1..]))
  }

  lemma FloatSplit(p: string) returns (whole: string, frac: string)
    requires IsFloat(p)
    ensures FloatParts(p, whole, frac)
  {
    var k :| 0 <= k <= |p| && AllDecimals(p[..k]) && (k < |p| ==> p[k] == '.' && AllDecimals(p[k + 1..]));
    whole, frac := p[..k], p[k..];
    assert p == whole + frac;
    assert k < |p| ==> frac[1..] == p[k + 1..];
  }

  lemma FracStops(whole: string, frac: string, q: string, n: nat)
    requires AllDecimals(whole) && frac != "" && frac[0] == '.' && AllDecimals(frac[1..]) && |whole| + |frac| <= n
    requires q != "" ==> !IsDigit(q[0])
    ensures FloatLength(whole + (frac + q), n) == |whole| + |frac|
  {
    var s := whole + (frac + q);
    RunStops(whole, frac + q, AllDecimal(), n);
    RunStops(frac[1..], q, AllDecimal(), n - |whole| - 1);
    assert s[|whole| + 1..] == frac[1..] + q;
    assert s[|whole|] == '.';
  }

  lemma WholeStops(whole: string, q: string, n: nat)
    requires AllDecimals(whole) && |whole| <= n && (q != "" ==> !IsDigit(q[0]) && q[0] != '.')
    ensures FloatLength(whole + q, n) == |whole|
  {
    RunStops(whole, q, AllDecimal(), n);
    assert q != "" ==> (whole + q)[|whole|] == q[0];
  }

  lemma FloatStops(p: string, q: string, n: nat)
    requires IsFloat(p) && |p| <= n && (q != "" ==> !IsDigit(q[0]) && q[0] != '.')
    ensures FloatLength(p + q, n) == |p|
  {
    var whole, frac := FloatSplit(p);
    if frac == "" {
      WholeStops(whole, q, n);
    } else {
      FracStops(whole, frac, q, n);
      assert p + q == whole + (frac + q);
    }
  }

  lemma OnlyFit(alts: seq<string>, p: string, q: string)
    requires PrefixFree(alts) && p in alts
    ensures FirstFit(alts, p + q) == Some(p)
  {
    FitsIffPrefix(alts, p + q);
    assert p <= p + q;
    var a := FirstFit(alts, p + q).value;
    assert a == (p + q)[..|a|] && p == (p + q)[..|p|];
    assert a <= p || p <= a;
  }

  /** Where what follows is settled, the directive takes exactly the piece it stands for. */
  lemma TakesPiece(d: Directive, later: seq<Directive>, p: string, q: string)
    requires InLanguage(d, p) && Settled(d, later) && (q != "" ==> q[0] in FirstOf(later))
    ensures Starts(d, p + q) && Taken(d, p + q) == |p|
  {
    match d
    case Char(c) =>
    case Optional(c) =>
    case Digits(width) =>
      DecimalSet();
      WidthIsNumber(width);
      RunStops(p, q, AllDecimal(), Limit(Value(width), p + q));
    case Float(width) =>
      WidthIsNumber(width);
      if q != "" {
        DecimalDigits(q[0]);
      }
      FloatStops(p, q, Limit(Value(width), p + q));
    case Bracket(width, negated, items) =>
      WidthIsNumber(width);
      RunStops(p, q, ClassOf(negated, items), Limit(Value(width), p + q));
    case OneOf(_, alts) =>
      OnlyFit(alts, p, q);
    case Ignored(_, _) =>
  }

  lemma {:induction false} SplitIsGreedy(ds: seq<Directive>, s: string, ps: seq<string>)
    requires WellFormed(ds) && Deterministic(ds) && Splits(ds, s, ps)
    ensures Greedy(ds, s)
    decreases |ds|
  {
    if ds != [] {
      SplitTail(ds, s, ps);
      var p, q := ps[0], Concat(ps[1..]);
      if q != "" {
        FirstOfWord(ds[1..], q, ps[1..]);
      }
      TakesPiece(ds[0], ds[1..], p, q);
      SplitIsGreedy(ds[1..], q, ps[1..]);
      assert s[|p|..] == q;
    }
  }

  /** Free of descending ranges. */
  predicate Ascending(ds: seq<Directive>) {
    ds == [] || (Ends(ds[0]) && Ascending(ds[1..]))
  }

  lemma {:induction false} AscendingNeverStalls(ds: seq<Directive>, s: string)
    requires Ascending(ds)
    ensures !Stalls(ds, s)
    decreases |ds|
  {
    if ds != [] {
      AscendingNeverStalls(ds[1..], s[Taken(ds[0], s)..]);
    }
  }

  /** On a deterministic format the matcher accepts exactly the language of the format. */
  lemma MatchIsComplete(ds: seq<Directive>, s: string)
    requires WellFormed(ds) && Ascending(ds) && Deterministic(ds)
    ensures Match(s, Format(ds)) == Yes <==> Denotes(ds, s)
  {
    MatchIsGreedy(ds, s);
    AscendingNeverStalls(ds, s);
    if Denotes(ds, s) {
      var ps :| Splits(ds, s, ps);
      SplitIsGreedy(ds, s, ps);
    } else if Greedy(ds, s) {
      var ps := GreedySplits(ds, s);
    }
  }

  // ----- where it is not complete -----

  /** A shortest alternative. */
  function Shortest(alts: seq<string>): (r: string)
    requires alts != []
    ensures r in alts && forall a :: a in alts ==> |r| <= |a|
  {
    if |alts| == 1 then alts[0]
    else
      var r := Shortest(alts[1..]);
      assert forall a :: a in alts ==> a == alts[0] || a in alts[1..];
      if |alts[0]| <= |r| then alts[0] else r
  }

  /** A shortest string of the directive. */
  function LeastOf(d: Directive): string {
    match d
    case Char(c) => [c]
    case OneOf(_, alts) => if alts == [] then "" else Shortest(alts)
    case _ => ""
  }

  /** A shortest string of the language. */
  function Least(ds: seq<Directive>): string {
    if ds == [] then "" else LeastOf(ds[0]) + Least(ds[1..])
  }

  lemma LeastInLanguage(d: Directive, rest: string)
    requires Fits(d, rest)
    ensures InLanguage(d, LeastOf(d))
  {
    if d.Float? {
      var p := "";
      assert AllDecimals(p[..0]);
    }
  }

  lemma {:induction false} LeastDenoted(ds: seq<Directive>) returns (ps: seq<string>)
    requires WellFormed(ds)
    ensures Splits(ds, Least(ds), ps)
    decreases |ds|
  {
    if ds == [] {
      ps := [];
    } else {
      var later := LeastDenoted(ds[1..]);
      LeastInLanguage(ds[0], Format(ds[1..]));
      SplitCons(ds, LeastOf(ds[0]), later, Least(ds[1..]));
      ps := [LeastOf(ds[0])] + later;
    }
  }

  lemma {:induction false} LeastIsLeast(ds: seq<Directive>, s: string, ps: seq<string>)
    requires Splits(ds, s, ps)
    ensures |Least(ds)| <= |s|
    decreases |ds|
  {
    if ds != [] {
      SplitTail(ds, s, ps);
      LeastIsLeast(ds[1..], Concat(ps[1..]), ps[1..]);
    }
  }

  lemma {:induction false} AltsAreBytes(alts: seq<string>)
    requires IsBytes(RenderAlts(alts))
    ensures forall a :: a in alts ==> IsBytes(a)
    decreases |alts|
  {
    if alts != [] {
      var s := RenderAlts(alts);
      assert forall i :: 0 <= i < |alts[0]| ==> s[i] == alts[0][i];
      if |alts| > 1 {
        var later := RenderAlts(alts[1..]);
        assert forall i :: 0 <= i < |later| ==> later[i] == s[|alts[0]| + 1 + i];
        AltsAreBytes(alts[1..]);
        assert forall a :: a in alts ==> a == alts[0] || a in alts[1..];
      }
    }
  }

  lemma LeastOfBytes(d: Directive)
    requires IsBytes(Render(d))
    ensures IsBytes(LeastOf(d))
  {
    if d.OneOf? && d.alts != [] {
      var body := RenderAlts(d.alts);
      assert forall i :: 0 <= i < |body| ==> body[i] == Render(d)[2 + |d.width| + i];
      AltsAreBytes(d.alts);
    }
  }

  /** It is a C string if the format is. */
  lemma {:induction false} LeastIsBytes(ds: seq<Directive>)
    requires IsBytes(Format(ds))
    ensures IsBytes(Least(ds))
    decreases |ds|
  {
    if ds != [] {
      var f, later := Render(ds[0]), Format(ds[1..]);
      assert forall i :: 0 <= i < |f| ==> f[i] == Format(ds)[i];
      assert forall i :: 0 <= i < |later| ==> later[i] == Format(ds)[|f| + i];
      LeastOfBytes(ds[0]);
      LeastIsBytes(ds[1..]);
    }
  }

  predicate Varies(d: Directive) {
    d.Optional? || d.Digits? || d.Float? || d.Bracket?
  }

  /** What can stop in several places is followed by a literal character or by nothing, and no alternative of a group
      begins with another. */
  predicate Separated(ds: seq<Directive>) {
    ds == [] || (&& (Varies(ds[0]) && |ds| > 1 ==> ds[1].Char?)
                 && (ds[0].OneOf? ==> PrefixFree(ds[0].alts))
                 && Separated(ds[1..]))
  }

  lemma TakesMember(d: Directive, s: string)
    requires Varies(d) && s != "" && s[0] in GoesOnWith(d)
    ensures Taken(d, s) > 0
  {
  }

  /** A directive that goes on into the character after it leaves too little for the rest. */
  lemma UnsettledMisses(ds: seq<Directive>)
    requires WellFormed(ds) && |ds| > 1 && Varies(ds[0]) && ds[1].Char? && ds[1].c in GoesOnWith(ds[0])
    ensures !Greedy(ds, Least(ds))
  {
    var s := Least(ds);
    assert s == Least(ds[1..]);
    assert s[0] == ds[1].c;
    TakesMember(ds[0], s);
    if Greedy(ds, s) {
      var q := s[Taken(ds[0], s)..];
      var ps := GreedySplits(ds[1..], q);
      LeastIsLeast(ds[1..], q, ps);
    }
  }

  lemma SettledSplitOff(ds: seq<Directive>)
    requires WellFormed(ds) && ds != [] && Settled(ds[0], ds[1..])
    ensures Starts(ds[0], Least(ds)) && Least(ds)[Taken(ds[0], Least(ds))..] == Least(ds[1..])
  {
    var p, q := LeastOf(ds[0]), Least(ds[1..]);
    LeastInLanguage(ds[0], Format(ds[1..]));
    var ps := LeastDenoted(ds[1..]);
    if q != "" {
      FirstOfWord(ds[1..], q, ps);
    }
    TakesPiece(ds[0], ds[1..], p, q);
    assert (p + q)[|p|..] == q;
  }

  lemma UnsettledSeparated(ds: seq<Directive>)
    requires ds != [] && Separated(ds) && !Settled(ds[0], ds[1..])
    ensures |ds| > 1 && Varies(ds[0]) && ds[1].Char? && ds[1].c in GoesOnWith(ds[0])
  {
    assert |ds| > 1 ==> ds[1..][0] == ds[1];
  }

  lemma {:induction false} NotDeterministicMisses(ds: seq<Directive>)
    requires WellFormed(ds) && Separated(ds) && !Deterministic(ds)
    ensures !Greedy(ds, Least(ds))
    decreases |ds|
  {
    if Settled(ds[0], ds[1..]) {
      NotDeterministicMisses(ds[1..]);
      SettledSplitOff(ds);
    } else {
      UnsettledSeparated(ds);
      UnsettledMisses(ds);
    }
  }

  /** Where literals separate what varies, the matcher accepts the whole language exactly when the format is
      deterministic, and otherwise it misses a shortest string of the language. */
  lemma CompleteIffDeterministic(ds: seq<Directive>)
    requires WellFormed(ds) && Ascending(ds) && Separated(ds)
    ensures (forall s :: Match(s, Format(ds)) == Yes <==> Denotes(ds, s)) <==> Deterministic(ds)
    ensures Match(Least(ds), Format(ds)) == Yes <==> Deterministic(ds)
  {
    var ps := LeastDenoted(ds);
    if Deterministic(ds) {
      forall s
        ensures Match(s, Format(ds)) == Yes <==> Denotes(ds, s)
      {
        MatchIsComplete(ds, s);
      }
    } else {
      NotDeterministicMisses(ds);
      MatchIsGreedy(ds, Least(ds));
    }
    assert Denotes(ds, Least(ds));
  }

  lemma LeastCons(d: Directive, ds: seq<Directive>)
    ensures Least([d] + ds) == LeastOf(d) + Least(ds)
  {
    assert ([d] + ds)[1..] == ds;
  }

  lemma MissedFormat(c: char, ds: seq<Directive>)
    requires IsDigit(c) && ds == [Digits("")] + [Char(c)]
    ensures WellFormed(ds) && Ascending(ds) && Least(ds) == [c]
  {
    var later := [Char(c)];
    assert ds[1..] == later && later[1..] == [];
    LeastCons(Digits(""), later);
    LeastCons(Char(c), []);
    assert later == [Char(c)] + [];
  }

  /** "%d1" does not even match "1". */
  lemma GreedyMisses(ds: seq<Directive>)
    requires ds == [Digits(""), Char('1')]
    ensures WellFormed(ds) && Denotes(ds, "1") && Match("1", Format(ds)) == No
  {
    MissedFormat('1', ds);
    var ps := LeastDenoted(ds);
    UnsettledMisses(ds);
    MatchIsGreedy(ds, "1");
    AscendingNeverStalls(ds, "1");
  }

  lemma RunTaken(s: string, ds: seq<Directive>)
    requires forall i :: 0 <= i < |s| ==> s[i] in AllDecimal()
    requires ds != [] && ds[0] == Digits("")
    ensures Greedy(ds, s) <==> Greedy(ds[1..], "")
  {
    RunStops(s, "", AllDecimal(), |s|);
    assert s + "" == s && s[|s|..] == "";
  }

  lemma AllDigitsTaken(s: string, ds: seq<Directive>)
    requires (forall i :: 0 <= i < |s| ==> s[i] in AllDecimal()) && ds == [Digits(""), Digits("")]
    ensures Greedy(ds, s)
  {
    RunTaken(s, ds);
    RunTaken("", ds[1..]);
    assert ds[1..][1..] == [];
  }

  lemma TwoPieces(ds: seq<Directive>, s: string, ps: seq<string>)
    requires |ds| == 2 && Splits(ds, s, ps)
    ensures s == ps[0] + ps[1] && InLanguage(ds[0], ps[0]) && InLanguage(ds[1], ps[1])
  {
    assert ps[1..] == [ps[1]] && [ps[1]][1..] == [];
    assert Concat([ps[1]]) == ps[1] + Concat([]);
    assert ps[1] + "" == ps[1];
  }

  /** Determinism is not needed where nothing has to follow: "%d%d" is complete without it. */
  lemma TwoRunsComplete(ds: seq<Directive>, s: string)
    requires ds == [Digits(""), Digits("")]
    ensures WellFormed(ds) && !Deterministic(ds)
    ensures Match(s, Format(ds)) == Yes <==> Denotes(ds, s)
  {
    assert ds[1..] == [Digits("")] && ds[1..][1..] == [];
    assert '0' in GoesOnWith(ds[0]) && '0' in FirstOf(ds[1..]);
    assert Match(s, Format(ds)) == Yes <==> Greedy(ds, s) by {
      MatchIsGreedy(ds, s);
      AscendingNeverStalls(ds, s);
    }
    if Denotes(ds, s) {
      var ps :| Splits(ds, s, ps);
      TwoPieces(ds, s, ps);
      AllDigitsTaken(s, ds);
    } else if Greedy(ds, s) {
      var ps := GreedySplits(ds, s);
    }
  }

  // ----- termination -----

  lemma {:induction false} DescendingStalls(ds: seq<Directive>)
    requires WellFormed(ds) && Deterministic(ds) && !Ascending(ds)
    ensures Stalls(ds, Least(ds))
    decreases |ds|
  {
    if Ends(ds[0]) {
      DescendingStalls(ds[1..]);
      SettledSplitOff(ds);
    }
  }

  /** On a deterministic format the matcher ends on every string exactly when no range of a bracket expression
      descends. */
  lemma EndsIffAscending(ds: seq<Directive>)
    requires WellFormed(ds) && Deterministic(ds)
    ensures (forall s :: Match(s, Format(ds)) != Hangs) <==> Ascending(ds)
  {
    if Ascending(ds) {
      forall s
        ensures Match(s, Format(ds)) != Hangs
      {
        AscendingNeverStalls(ds, s);
        MatchIsGreedy(ds, s);
      }
    } else {
      DescendingStalls(ds);
      MatchIsGreedy(ds, Least(ds));
    }
  }

  // ----- stray alternatives -----

  /** Without the condition on bars it is not sound: where a group is followed by more of the format and a bar, that
      is tried as an alternative, so "%{a}x}" matches "x". */
  lemma StrayAlternative()
    ensures var ds := [OneOf("", ["a"]), Char('x'), Char('}')];
            Format(ds) == "%{a}x}" && !WellFormed(ds) && Match("x", Format(ds)) == Yes && !Denotes(ds, "x")
  {
    var ds := [OneOf("", ["a"]), Char('x'), Char('}')];
    StrayFormat();
    StrayMatch();
    forall ps
      ensures !Splits(ds, "x", ps)
    {
      StrayNotSplit(ps);
    }
  }

  lemma StrayListed(rest: string)
    requires rest == "x}"
    ensures "x" in Strays(rest)
  {
    assert rest[1..][0] == '}';
    assert ToBar(rest) == 1 && rest[..1] == "x";
  }

  lemma StrayFormat()
    ensures var ds := [OneOf("", ["a"]), Char('x'), Char('}')];
            Format(ds) == "%{a}x}" && !WellFormed(ds)
  {
    var ds := [OneOf("", ["a"]), Char('x'), Char('}')];
    assert ds[1..] == [Char('x'), Char('}')] && ds[1..][1..] == [Char('}')] && ds[1..][1..][1..] == [];
    assert Format([Char('}')]) == "}";
    assert Format(ds[1..]) == "x}";
    StrayListed("x}");
    assert !("a" <= "x") by {
      assert "a"[0] != "x"[0];
    }
  }

  lemma StrayChosen(s: string, f: string)
    requires s == "x" && f == "a" + "}x}"
    ensures Choose(s, f) == Chosen("", "")
  {
    assert s[0] != "a"[0];
    WordPassed(s, "a", "}x}");
    assert "}x}"[1..] == "x" + "}";
    WordChosen(s, "x", "}");
    assert AfterBrace("}") == "}"[1..];
  }

  lemma StrayMatch()
    ensures Match("x", "%{a}x}") == Yes
  {
    var f := "a" + "}x}";
    assert "%{a}x}" == "%" + "" + ("{" + f);
    GroupOpened("x", "", f);
    StrayChosen("x", f);
  }

  lemma StrayNotSplit(ps: seq<string>)
    ensures !Splits([OneOf("", ["a"]), Char('x'), Char('}')], "x", ps)
  {
    var ds := [OneOf("", ["a"]), Char('x'), Char('}')];
    if |ps| == 3 && InLanguage(ds[0], ps[0]) && InLanguage(ds[1], ps[1]) {
      assert |ps[0]| == 1 && |ps[1]| == 1;
      assert |Concat(ps)| >= |ps[0]| + |ps[1..][0]|;
    }
  }

  // ----- formats that break off -----

  /** A percent sign and perhaps a width, and then nothing. */
  predicate BreaksOff(f: string) {
    f != "" && f[0] == '%' && forall i :: 1 <= i < |f| ==> IsDigit(f[i])
  }

  predicate EndsBroken(f: string) {
    f != "" && (BreaksOff(f) || EndsBroken(f[1..]))
  }

  lemma {:induction false} BrokenLater(f: string, k: nat)
    requires k <= |f| && EndsBroken(f[k..])
    ensures EndsBroken(f)
  {
    if k > 0 {
      assert f[1..][k - 1..] == f[k..];
      BrokenLater(f[1..], k - 1);
    }
  }

  lemma {:induction false} OnlyDigits(f: string)
    ensures WidthLength(f) == |f| <==> forall i :: 0 <= i < |f| ==> IsDigit(f[i])
  {
    if f != "" {
      OnlyDigits(f[1..]);
      assert forall i :: 1 <= i < |f| ==> f[i] == f[1..][i - 1];
    }
  }

  lemma BrokenOverruns(s: string, f: string)
    requires BreaksOff(f)
    ensures Match(s, f) == Overruns
  {
    OnlyDigits(f[1..]);
  }

  lemma {:induction false} AfterListBroken(f: string, cs: set<char>)
    requires ReadList(f, cs).Listed? && EndsBroken(ReadList(f, cs).rest)
    ensures EndsBroken(f)
    decreases |f|
  {
    if f != "" && f[0] != ']' {
      if At(f, 1) == '-' {
        AfterListBroken(f[2..], cs + Below(f[0], At(f, 2)));
        BrokenLater(f, 2);
      } else {
        AfterListBroken(f[1..], cs + {f[0]});
      }
    }
  }

  lemma {:induction false} AfterBraceBroken(f: string)
    requires EndsBroken(AfterBrace(f))
    ensures EndsBroken(f)
  {
    if f != "" && f[0] != '}' {
      AfterBraceBroken(f[1..]);
    }
  }

  lemma FitLeaves(s: string, f: string, left: string)
    requires f != "" && !IsBar(f[0]) && left == f[Common(s, f)..] && IsBar(Head(left))
    ensures Choose(s, f).Chosen? && Choose(s, f).f == AfterBrace(left)
  {
  }

  lemma NextTried(s: string, f: string, next: string)
    requires f != "" && !IsBar(f[0]) && !IsBar(Head(f[Common(s, f)..]))
    requires next == if ToBar(f) < |f| then f[ToBar(f) + 1..] else ""
    ensures Choose(s, f) == Choose(s, next)
  {
  }

  lemma {:induction false} AfterChoiceBroken(s: string, f: string, r: Chosen)
    requires r == Choose(s, f) && r.Chosen? && EndsBroken(r.f)
    ensures EndsBroken(f)
    decreases |f|
  {
    var k := Common(s, f);
    if IsBar(Head(f[k..])) {
      FitLeaves(s, f, f[k..]);
      AfterBraceBroken(f[k..]);
      BrokenLater(f, k);
    } else if ToBar(f) < |f| {
      NextTried(s, f, f[ToBar(f) + 1..]);
      AfterChoiceBroken(s, f[ToBar(f) + 1..], r);
      BrokenLater(f, ToBar(f) + 1);
    } else {
      NextTried(s, f, "");
    }
  }

  lemma {:induction false} OverrunsBroken(s: string, f: string)
    requires Match(s, f) == Overruns
    ensures EndsBroken(f)
    decreases |f|, 1
  {
    if f[0] == '%' {
      var k := WidthLength(f[1..]);
      if f[1 + k..] == "" {
        OnlyDigits(f[1..]);
        assert forall i :: 1 <= i < |f| ==> f[i] == f[1..][i - 1];
      } else {
        DirectiveBroken(s, Value(f[1..1 + k]), f[1 + k..]);
        BrokenLater(f, 1 + k);
      }
    } else if s != "" && f[0] == s[0] {
      OverrunsBroken(s[1..], f[1..]);
    } else {
      OverrunsBroken(s, f[1..]);
    }
  }

  lemma {:induction false} DirectiveBroken(s: string, width: nat, f: string)
    requires f != "" && MatchDirective(s, width, f) == Overruns
    ensures EndsBroken(f)
    decreases |f|, 2
  {
    match f[0]
    case 'd' => OverrunsBroken(s[RunLength(s, AllDecimal(), Limit(width, s))..], f[1..]);
    case 'f' => OverrunsBroken(s[FloatLength(s, Limit(width, s))..], f[1..]);
    case '[' => ListBroken(s, width, f[1..]);
    case '{' => GroupBroken(s, f[1..]);
    case _ => OverrunsBroken(s, f[1..]);
  }

  lemma {:induction false} ListBroken(s: string, width: nat, f: string)
    requires MatchList(s, width, f) == Overruns
    ensures EndsBroken(f)
    decreases |f|, 3
  {
    var r := ReadBracket(f);
    OverrunsBroken(s[RunLength(s, r.cs, Limit(width, s))..], if r.rest == "" then "" else r.rest[1..]);
    if Head(f) == '^' {
      AfterListBroken(f[1..], {});
    } else {
      AfterListBroken(f, {});
    }
  }

  lemma {:induction false} GroupBroken(s: string, f: string)
    requires MatchGroup(s, f) == Overruns
    ensures EndsBroken(f)
    decreases |f|, 3
  {
    var r := Choose(s, f);
    OverrunsBroken(r.s, r.f);
    AfterChoiceBroken(s, f, r);
  }
}
