/** The formats people write for the string matcher, the strings they stand for, and what the matcher makes of them. */
module MatchLanguage {
  import opened Numbers
  import opened Wrappers
  import opened CharMatch

  /** A character or a range of characters in a bracket expression. */
  datatype Item = One(c: char) | Range(lo: char, hi: char)

  predicate AllDigits(w: string) {
    forall i :: 0 <= i < |w| ==> IsDigit(w[i])
  }

  /** Digits, or nothing. */
  type Width = w: string | AllDigits(w)

  /** One directive of a format. */
  datatype Directive =
    | Char(c: char)                                             // c
    | Optional(c: char)                                         // c%?
    | Digits(width: Width)                                      // %d
    | Float(width: Width)                                       // %f
    | Bracket(width: Width, negated: bool, items: seq<Item>)    // %[..] and %[^..]
    | OneOf(width: Width, alts: seq<string>)                    // %{a|b}
    | Ignored(width: Width, c: char)                            // % and any other character

  // ----- writing formats -----

  function RenderItem(item: Item): string {
    match item
    case One(c) => [c]
    case Range(lo, hi) => [lo, '-', hi]
  }

  function RenderItems(items: seq<Item>): string {
    if items == [] then "" else RenderItem(items[0]) + RenderItems(items[1..])
  }

  function RenderAlts(alts: seq<string>): string {
    if alts == [] then "}"
    else alts[0] + if |alts| == 1 then "}" else "|" + RenderAlts(alts[1..])
  }

  function Render(d: Directive): string {
    match d
    case Char(c) => [c]
    case Optional(c) => [c] + "%?"
    case Digits(width) => "%" + width + "d"
    case Float(width) => "%" + width + "f"
    case Bracket(width, negated, items) =>
      "%" + width + "[" + ((if negated then "^" else "") + RenderItems(items) + "]")
    case OneOf(width, alts) => "%" + width + "{" + RenderAlts(alts)
    case Ignored(width, c) => "%" + width + [c]
  }

  function Format(ds: seq<Directive>): string {
    if ds == [] then "" else Render(ds[0]) + Format(ds[1..])
  }

  // ----- well-formed formats -----

  function First(item: Item): char {
    match item
    case One(c) => c
    case Range(lo, _) => lo
  }

  predicate ItemOk(item: Item) {
    match item
    case One(c) => c as int < 256 && c != ']'
    case Range(lo, hi) => lo as int < 256 && hi as int < 256 && lo != ']' && hi != ']'
  }

  predicate Ascends(item: Item) {
    item.Range? ==> Signed(item.lo) <= Signed(item.hi)
  }

  predicate ItemsAscend(items: seq<Item>) {
    forall i :: 0 <= i < |items| ==> Ascends(items[i])
  }

  /** A hyphen stands for itself only in front. */
  predicate ItemsOk(items: seq<Item>) {
    items == [] || (ItemOk(items[0]) && ItemsOk(items[1..]) && (|items| > 1 ==> First(items[1]) != '-'))
  }

  predicate NoBars(s: string) {
    forall i :: 0 <= i < |s| ==> !IsBar(s[i])
  }

  predicate AltsOk(alts: seq<string>) {
    forall a :: a in alts ==> a != "" && NoBars(a)
  }

  /** What the matcher also tries as alternatives of a group that rest follows: it does not stop at the closing brace
      of the group, but at the first empty alternative, and an alternative ends at a bar. */
  function Strays(rest: string): seq<string>
    decreases |rest|
  {
    if rest == "" || IsBar(rest[0]) then []
    else
      var bar := ToBar(rest);
      if bar == |rest| then [] else [rest[..bar]] + Strays(rest[bar + 1..])
  }

  predicate SomeFits(xs: seq<string>, s: string) {
    exists x :: x in xs && x <= s
  }

  /** Every stray alternative begins with a proper one, so it is never the first to fit. */
  predicate Covered(alts: seq<string>, rest: string) {
    forall x :: x in Strays(rest) ==> SomeFits(alts, x)
  }

  /** The directive is well formed where rest follows. */
  predicate Fits(d: Directive, rest: string) {
    match d
    case Char(c) => c != '%' && !(At(rest, 0) == '%' && At(rest, 1) == '?')
    case Optional(c) => c != '%'
    case Digits(_) => true
    case Float(_) => true
    case Bracket(_, negated, items) =>
      ItemsOk(items) && (!negated && items != [] ==> First(items[0]) != '^')
    case OneOf(_, alts) =>
      alts != [] && AltsOk(alts) && Covered(alts, rest)
    case Ignored(_, c) => !IsDigit(c) && c != 'd' && c != 'f' && c != '[' && c != '{'
  }

  predicate WellFormed(ds: seq<Directive>) {
    ds == [] || (Fits(ds[0], Format(ds[1..])) && WellFormed(ds[1..]))
  }

  // ----- the strings a directive stands for -----

  function Within(lo: char, hi: char): set<char> {
    set c: char | c as int < 256 && Signed(lo) <= Signed(c) <= Signed(hi)
  }

  function SetOfItem(item: Item): set<char> {
    match item
    case One(c) => {c}
    case Range(lo, hi) => Within(lo, hi)
  }

  function SetOf(items: seq<Item>): set<char> {
    if items == [] then {} else SetOfItem(items[0]) + SetOf(items[1..])
  }

  /** The place of a character among the signed ones: from 128 to 255, then from 0 to 127. */
  function Rank(c: char): int {
    (c as int + 128) % 256
  }

  predicate Holds(item: Item, c: char) {
    match item
    case One(d) => c == d
    case Range(lo, hi) => Rank(lo) <= Rank(c) <= Rank(hi)
  }

  predicate SomeHolds(items: seq<Item>, c: char) {
    exists i :: 0 <= i < |items| && Holds(items[i], c)
  }

  /** The characters that some item holds; after a caret, those that none does. */
  function ClassOf(negated: bool, items: seq<Item>): set<char> {
    set c: char | c as int < 256 && (if negated then !SomeHolds(items, c) else SomeHolds(items, c))
  }

  /** Characters of a class, within the width if there is one. */
  predicate IsRun(p: string, cs: set<char>, width: int) {
    (forall i :: 0 <= i < |p| ==> p[i] in cs) && (width > 0 ==> |p| <= width)
  }

  /** Digits, and perhaps a point with more digits. */
  predicate IsFloat(p: string) {
    exists k :: 0 <= k <= |p| && AllDecimals(p[..k]) && (k < |p| ==> p[k] == '.' && AllDecimals(p[k + 1..]))
  }

  predicate AllDecimals(s: string) {
    forall i :: 0 <= i < |s| ==> s[i] in DECIMAL
  }

  const DECIMAL: set<char> := {'0', '1', '2', '3', '4', '5', '6', '7', '8', '9'}

  /** The number that a width stands for: each digit times the power of ten of its place. */
  function Number(w: string): int {
    if w == "" then 0 else (w[0] as int - '0' as int) * Power10(|w| - 1) + Number(w[1..])
  }

  predicate InLanguage(d: Directive, p: string) {
    match d
    case Char(c) => p == [c]
    case Optional(c) => p == "" || p == [c]
    case Digits(width) => IsRun(p, DECIMAL, Number(width))
    case Float(width) => IsFloat(p) && (Number(width) > 0 ==> |p| <= Number(width))
    case Bracket(width, negated, items) => IsRun(p, ClassOf(negated, items), Number(width))
    case OneOf(_, alts) => p in alts
    case Ignored(_, _) => p == ""
  }

  lemma DecimalDigits(c: char)
    ensures IsDigit(c) <==> c in DECIMAL
  {
  }

  lemma DecimalSet()
    ensures AllDecimal() == DECIMAL
  {
    forall c: char
      ensures c in AllDecimal() <==> c in DECIMAL
    {
      DecimalDigits(c);
    }
  }

  lemma DecimalsAreDigits(s: string)
    ensures AllDecimals(s) <==> AllDigits(s)
  {
    forall i | 0 <= i < |s|
      ensures IsDigit(s[i]) <==> s[i] in DECIMAL
    {
      DecimalDigits(s[i]);
    }
  }

  lemma {:induction false} NumberSnoc(w: string, c: char)
    ensures Number(w + [c]) == 10 * Number(w) + (c as int - '0' as int)
    decreases |w|
  {
    var t := w + [c];
    if w == "" {
      assert t == [c] && t[1..] == "";
      assert Power10(0) == 1;
    } else {
      assert t[1..] == w[1..] + [c] && t[0] == w[0];
      NumberSnoc(w[1..], c);
      var d, p := w[0] as int - '0' as int, Power10(|w| - 1);
      assert Power10(|w|) == 10 * p;
      assert d * (10 * p) == 10 * (d * p);
    }
  }

  /** The matcher reads a width as the number that it stands for. */
  lemma {:induction false} WidthIsNumber(w: Width)
    ensures Value(w) == Number(w)
    decreases |w|
  {
    if w != "" {
      var n := |w| - 1;
      WidthIsNumber(w[..n]);
      NumberSnoc(w[..n], w[n]);
      assert w == w[..n] + [w[n]];
    }
  }

  // ----- greedy matching -----

  /** The first alternative that s begins with. */
  function FirstFit(alts: seq<string>, s: string): (r: Option<string>)
    ensures r.Some? ==> r.value in alts && r.value <= s
  {
    if alts == [] then None else if alts[0] <= s then Some(alts[0]) else FirstFit(alts[1..], s)
  }

  /** The directive can take something, be it nothing, from the front of s. */
  predicate Starts(d: Directive, s: string) {
    match d
    case Char(c) => s != "" && s[0] == c
    case OneOf(_, alts) => FirstFit(alts, s).Some?
    case _ => true
  }

  /** How much the directive takes from the front of s: as much as it can. */
  function Taken(d: Directive, s: string): (k: nat)
    ensures k <= |s|
  {
    match d
    case Char(c) => if s == "" then 0 else 1
    case Optional(c) => if s != "" && s[0] == c then 1 else 0
    case Digits(width) => RunLength(s, AllDecimal(), Limit(Value(width), s))
    case Float(width) => FloatLength(s, Limit(Value(width), s))
    case Bracket(width, negated, items) => RunLength(s, ClassOf(negated, items), Limit(Value(width), s))
    case OneOf(_, alts) => if FirstFit(alts, s).Some? then |FirstFit(alts, s).value| else 0
    case Ignored(_, _) => 0
  }

  /** Every directive takes as much as it can, and nothing is left over. */
  predicate Greedy(ds: seq<Directive>, s: string)
    decreases |ds|
  {
    if ds == [] then s == "" else Starts(ds[0], s) && Greedy(ds[1..], s[Taken(ds[0], s)..])
  }

  /** The directive is free of descending ranges. */
  predicate Ends(d: Directive) {
    d.Bracket? ==> ItemsAscend(d.items)
  }

  /** Taking as much as they can, the directives before it lead to one with a descending range. */
  predicate Stalls(ds: seq<Directive>, s: string)
    decreases |ds|
  {
    ds != [] && (!Ends(ds[0]) || (Starts(ds[0], s) && Stalls(ds[1..], s[Taken(ds[0], s)..])))
  }

  // ----- the matcher is greedy matching -----

  lemma {:induction false} WidthRead(w: Width, tail: string)
    requires tail != "" && !IsDigit(tail[0])
    ensures WidthLength(w + tail) == |w|
  {
    if w == "" {
      assert w + tail == tail;
    } else {
      assert (w + tail)[1..] == w[1..] + tail;
      WidthRead(w[1..], tail);
    }
  }

  /** A percent sign, a width, and what follows it. */
  lemma PercentRead(s: string, w: Width, tail: string)
    requires tail != "" && !IsDigit(tail[0])
    ensures Match(s, "%" + w + tail) == MatchDirective(s, Value(w), tail)
  {
    var f := "%" + w + tail;
    assert f[1..] == w + tail;
    WidthRead(w, tail);
    assert f[1..1 + |w|] == w && f[1 + |w|..] == tail;
  }

  lemma DigitsRead(s: string, w: Width, rest: string)
    ensures Match(s, "%" + w + "d" + rest) == Match(s[RunLength(s, AllDecimal(), Limit(Value(w), s))..], rest)
  {
    assert "%" + w + "d" + rest == "%" + w + ("d" + rest);
    PercentRead(s, w, "d" + rest);
    assert ("d" + rest)[1..] == rest;
  }

  lemma FloatRead(s: string, w: Width, rest: string)
    ensures Match(s, "%" + w + "f" + rest) == Match(s[FloatLength(s, Limit(Value(w), s))..], rest)
  {
    assert "%" + w + "f" + rest == "%" + w + ("f" + rest);
    PercentRead(s, w, "f" + rest);
    assert ("f" + rest)[1..] == rest;
  }

  lemma IgnoredRead(s: string, w: Width, c: char, rest: string)
    requires Fits(Ignored(w, c), rest)
    ensures Match(s, "%" + w + [c] + rest) == Match(s, rest)
  {
    assert "%" + w + [c] + rest == "%" + w + ([c] + rest);
    PercentRead(s, w, [c] + rest);
    assert ([c] + rest)[1..] == rest;
  }

  lemma CharRead(s: string, c: char, rest: string)
    requires Fits(Char(c), rest)
    ensures Match(s, [c] + rest) == if s != "" && s[0] == c then Match(s[1..], rest) else No
  {
    var f := [c] + rest;
    assert f[1..] == rest && At(f, 1) == At(rest, 0) && At(f, 2) == At(rest, 1);
  }

  lemma OptionalRead(s: string, c: char, rest: string)
    requires c != '%'
    ensures Match(s, [c] + "%?" + rest) == Match(if s != "" && s[0] == c then s[1..] else s, rest)
  {
    var f := [c] + "%?" + rest;
    assert f[1..] == "%" + "" + ['?'] + rest;
    IgnoredRead(s, "", '?', rest);
    if s != "" && s[0] == c {
      IgnoredRead(s[1..], "", '?', rest);
    } else {
      assert At(f, 1) == '%' && At(f, 2) == '?';
    }
  }

  // ----- bracket expressions -----

  lemma BelowAndEnd(lo: char, hi: char)
    requires ItemOk(Range(lo, hi)) && Ascends(Range(lo, hi))
    ensures Below(lo, hi) + {hi} == Within(lo, hi)
  {
    forall c: char | c as int < 256 && Signed(c) == Signed(hi)
      ensures c == hi
    {
      SignedInjective(c, hi);
    }
  }

  lemma RangeListed(lo: char, hi: char, tail: string, cs: set<char>)
    requires ItemOk(Range(lo, hi)) && At(tail, 0) != '-'
    ensures ReadList([lo, '-', hi] + tail, cs)
            == if Ascends(Range(lo, hi)) then ReadList(tail, cs + Within(lo, hi)) else Stuck
  {
    var f := [lo, '-', hi] + tail;
    assert f[2..] == [hi] + tail;
    if Ascends(Range(lo, hi)) {
      BelowAndEnd(lo, hi);
      assert cs + Below(lo, hi) + {hi} == cs + (Below(lo, hi) + {hi});
    }
  }

  lemma AscendCons(items: seq<Item>)
    requires items != []
    ensures ItemsAscend(items) <==> Ascends(items[0]) && ItemsAscend(items[1..])
  {
    assert items == [items[0]] + items[1..];
  }

  lemma OneListed(c: char, tail: string, cs: set<char>)
    requires ItemOk(One(c)) && At(tail, 0) != '-'
    ensures ReadList([c] + tail, cs) == ReadList(tail, cs + {c})
  {
    assert ([c] + tail)[1..] == tail;
  }

  lemma ItemListed(item: Item, tail: string, cs: set<char>)
    requires ItemOk(item) && At(tail, 0) != '-'
    ensures ReadList(RenderItem(item) + tail, cs)
            == if Ascends(item) then ReadList(tail, cs + SetOfItem(item)) else Stuck
  {
    match item
    case One(c) =>
      OneListed(c, tail, cs);
    case Range(lo, hi) =>
      RangeListed(lo, hi, tail, cs);
  }

  lemma ItemsCons(items: seq<Item>, rest: string)
    requires items != []
    ensures RenderItems(items) + rest == RenderItem(items[0]) + (RenderItems(items[1..]) + rest)
  {
  }

  lemma SetCons(items: seq<Item>, cs: set<char>)
    requires items != []
    ensures cs + SetOf(items) == (cs + SetOfItem(items[0])) + SetOf(items[1..])
  {
  }

  /** The list is read to its closing bracket, and its set is that of its items, ends of ranges included; but on a
      descending range, wherever it stands, the matcher gets stuck. */
  lemma {:induction false} ItemsListed(items: seq<Item>, rest: string, cs: set<char>)
    requires ItemsOk(items)
    ensures ReadList(RenderItems(items) + ("]" + rest), cs)
            == if ItemsAscend(items) then Listed(cs + SetOf(items), "]" + rest) else Stuck
    decreases |items|
  {
    if items == [] {
      assert "" + ("]" + rest) == "]" + rest;
      assert cs + {} == cs;
    } else {
      FirstRendered(items[1..], rest);
      AscendCons(items);
      ItemsCons(items, "]" + rest);
      SetCons(items, cs);
      ItemListed(items[0], RenderItems(items[1..]) + ("]" + rest), cs);
      ItemsListed(items[1..], rest, cs + SetOfItem(items[0]));
    }
  }

  lemma FirstRendered(items: seq<Item>, rest: string)
    ensures At(RenderItems(items) + ("]" + rest), 0) == if items == [] then ']' else First(items[0])
  {
  }

  lemma HoldsIsMember(item: Item, c: char)
    requires ItemOk(item) && c as int < 256
    ensures Holds(item, c) <==> c in SetOfItem(item)
  {
  }

  lemma {:induction false} SomeHoldsIsMember(items: seq<Item>, c: char)
    requires ItemsOk(items) && c as int < 256
    ensures SomeHolds(items, c) <==> c in SetOf(items)
    decreases |items|
  {
    if items != [] {
      HoldsIsMember(items[0], c);
      SomeHoldsIsMember(items[1..], c);
      assert items == [items[0]] + items[1..];
      if SomeHolds(items[1..], c) {
        var i :| 0 <= i < |items[1..]| && Holds(items[1..][i], c);
        assert Holds(items[i + 1], c);
      }
    }
  }

  lemma {:induction false} MembersAreBytes(items: seq<Item>)
    requires ItemsOk(items)
    ensures forall c :: c in SetOf(items) ==> c as int < 256
    decreases |items|
  {
    if items != [] {
      MembersAreBytes(items[1..]);
    }
  }

  /** The set that is built bit by bit, and complemented after a caret, is the class. */
  lemma ClassRead(negated: bool, items: seq<Item>)
    requires ItemsOk(items)
    ensures ClassOf(negated, items) == if negated then Negated(SetOf(items)) else SetOf(items)
  {
    MembersAreBytes(items);
    forall c: char | c as int < 256
      ensures SomeHolds(items, c) <==> c in SetOf(items)
    {
      SomeHoldsIsMember(items, c);
    }
  }

  lemma CaretRead(f: string)
    ensures ReadBracket("^" + f) == match ReadList(f, {})
                                    case Stuck => Stuck
                                    case Listed(cs, rest) => Listed(Negated(cs), rest)
  {
    assert ("^" + f)[1..] == f;
  }

  lemma BracketListed(negated: bool, items: seq<Item>, rest: string)
    requires Fits(Bracket("", negated, items), rest)
    ensures ReadBracket((if negated then "^" else "") + (RenderItems(items) + ("]" + rest)))
            == if ItemsAscend(items) then Listed(ClassOf(negated, items), "]" + rest) else Stuck
  {
    var inner := RenderItems(items) + ("]" + rest);
    ItemsListed(items, rest, {});
    assert {} + SetOf(items) == SetOf(items);
    ClassRead(negated, items);
    FirstRendered(items, rest);
    if negated {
      CaretRead(inner);
    } else {
      assert "" + inner == inner;
    }
  }

  lemma BracketWritten(w: Width, negated: bool, items: seq<Item>, rest: string)
    ensures Render(Bracket(w, negated, items)) + rest
            == "%" + w + ("[" + ((if negated then "^" else "") + (RenderItems(items) + ("]" + rest))))
  {
  }

  /** A bracket expression, negated or not, takes the longest run of its class within its width; on a descending
      range the matcher never ends. */
  lemma BracketRead(s: string, w: Width, negated: bool, items: seq<Item>, rest: string)
    requires Fits(Bracket(w, negated, items), rest)
    ensures Match(s, Render(Bracket(w, negated, items)) + rest)
            == if ItemsAscend(items) then Match(s[RunLength(s, ClassOf(negated, items), Limit(Value(w), s))..], rest)
               else Hangs
  {
    var body := (if negated then "^" else "") + (RenderItems(items) + ("]" + rest));
    BracketWritten(w, negated, items, rest);
    PercentRead(s, w, "[" + body);
    assert ("[" + body)[1..] == body;
    BracketListed(negated, items, rest);
    assert ("]" + rest)[1..] == rest;
  }

  // ----- groups -----

  lemma {:induction false} CommonWord(s: string, a: string, tail: string)
    requires NoBars(a) && IsBar(Head(tail))
    ensures a <= s ==> Common(s, a + tail) == |a|
    ensures !(a <= s) ==> Common(s, a + tail) < |a|
    decreases |a|
  {
    if a == "" {
      assert a + tail == tail;
    } else {
      var f := a + tail;
      assert f[0] == a[0] && f[1..] == a[1..] + tail;
      assert !IsBar(a[0]);
      if s != "" && s[0] == a[0] {
        CommonWord(s[1..], a[1..], tail);
      }
    }
  }

  lemma {:induction false} WordToBar(a: string, tail: string)
    requires NoBars(a) && IsBar(Head(tail))
    ensures ToBar(a + tail) == |a|
    decreases |a|
  {
    if a == "" {
      assert a + tail == tail;
    } else {
      assert (a + tail)[1..] == a[1..] + tail;
      WordToBar(a[1..], tail);
    }
  }

  lemma {:induction false} WordBeforeBrace(a: string, tail: string)
    requires NoBars(a)
    ensures AfterBrace(a + tail) == AfterBrace(tail)
    decreases |a|
  {
    if a == "" {
      assert a + tail == tail;
    } else {
      assert (a + tail)[1..] == a[1..] + tail;
      WordBeforeBrace(a[1..], tail);
    }
  }

  /** What follows the first alternative. */
  function RestOfAlts(alts: seq<string>): (r: string)
    requires alts != []
    ensures IsBar(Head(r))
  {
    if |alts| == 1 then "}" else "|" + RenderAlts(alts[1..])
  }

  /** The brace that ends a group is the next one, wherever in the group the search starts. */
  lemma {:induction false} BraceEndsGroup(alts: seq<string>, rest: string)
    requires alts != [] && AltsOk(alts)
    ensures AfterBrace(RestOfAlts(alts) + rest) == rest
    decreases |alts|
  {
    var f := RestOfAlts(alts) + rest;
    if |alts| == 1 {
      assert f[1..] == rest;
    } else {
      var later := alts[1..];
      assert AltsOk(later);
      assert f[1..] == later[0] + (RestOfAlts(later) + rest);
      WordBeforeBrace(later[0], RestOfAlts(later) + rest);
      BraceEndsGroup(later, rest);
    }
  }

  lemma WordChosen(s: string, a: string, tail: string)
    requires a != "" && NoBars(a) && IsBar(Head(tail)) && a <= s
    ensures Choose(s, a + tail) == Chosen(s[|a|..], AfterBrace(tail))
  {
    CommonWord(s, a, tail);
    FittingWord(s, a + tail, |a|);
    assert (a + tail)[|a|..] == tail;
  }

  lemma WordPassed(s: string, a: string, tail: string)
    requires a != "" && NoBars(a) && IsBar(Head(tail)) && !(a <= s)
    ensures Choose(s, a + tail) == Choose(s, tail[1..])
  {
    var k := Common(s, a + tail);
    CommonWord(s, a, tail);
    WordToBar(a, tail);
    assert !IsBar(a[k]);
    OtherWord(s, a + tail, k, |a|);
    assert (a + tail)[|a| + 1..] == tail[1..];
  }

  /** The first alternative that fits is taken, and the format goes on after the group. */
  ghost predicate TakesFirst(s: string, alts: seq<string>, rest: string) {
    Choose(s, RenderAlts(alts) + rest)
    == match FirstFit(alts, s) case None => NoneFits case Some(a) => Chosen(s[|a|..], rest)
  }

  lemma AltsRendered(alts: seq<string>, rest: string)
    requires alts != [] && AltsOk(alts)
    ensures alts[0] != "" && NoBars(alts[0]) && RenderAlts(alts) + rest == alts[0] + (RestOfAlts(alts) + rest)
  {
    assert alts[0] in alts;
  }

  lemma TailOfAlts(alts: seq<string>, rest: string)
    requires alts != []
    ensures IsBar(Head(RestOfAlts(alts) + rest))
    ensures (RestOfAlts(alts) + rest)[1..] == if |alts| == 1 then rest else RenderAlts(alts[1..]) + rest
  {
  }

  /** An alternative that does not fit leads on to what follows it. */
  lemma PassedTo(s: string, alts: seq<string>, rest: string, next: string)
    requires alts != [] && AltsOk(alts) && !(alts[0] <= s)
    requires next == if |alts| == 1 then rest else RenderAlts(alts[1..]) + rest
    ensures Choose(s, RenderAlts(alts) + rest) == Choose(s, next)
  {
    AltsRendered(alts, rest);
    TailOfAlts(alts, rest);
    WordPassed(s, alts[0], RestOfAlts(alts) + rest);
  }

  lemma FirstTaken(s: string, alts: seq<string>, rest: string)
    requires alts != [] && AltsOk(alts) && alts[0] <= s
    ensures TakesFirst(s, alts, rest)
  {
    AltsRendered(alts, rest);
    WordChosen(s, alts[0], RestOfAlts(alts) + rest);
    BraceEndsGroup(alts, rest);
  }

  lemma LaterTaken(s: string, alts: seq<string>, rest: string)
    requires |alts| > 1 && AltsOk(alts) && !(alts[0] <= s) && TakesFirst(s, alts[1..], rest)
    ensures TakesFirst(s, alts, rest)
  {
    PassedTo(s, alts, rest, RenderAlts(alts[1..]) + rest);
  }

  lemma {:induction false} SomeTaken(s: string, alts: seq<string>, rest: string)
    requires alts != [] && AltsOk(alts) && FirstFit(alts, s).Some?
    ensures TakesFirst(s, alts, rest)
    decreases |alts|
  {
    if alts[0] <= s {
      FirstTaken(s, alts, rest);
    } else {
      assert forall a :: a in alts[1..] ==> a in alts;
      SomeTaken(s, alts[1..], rest);
      LaterTaken(s, alts, rest);
    }
  }

  /** When no alternative fits, the search goes on after the group. */
  lemma {:induction false} AllPassed(s: string, alts: seq<string>, rest: string)
    requires alts != [] && AltsOk(alts) && FirstFit(alts, s).None?
    ensures Choose(s, RenderAlts(alts) + rest) == Choose(s, rest)
    decreases |alts|
  {
    if |alts| == 1 {
      PassedTo(s, alts, rest, rest);
    } else {
      assert forall a :: a in alts[1..] ==> a in alts;
      PassedTo(s, alts, rest, RenderAlts(alts[1..]) + rest);
      AllPassed(s, alts[1..], rest);
    }
  }

  lemma {:induction false} ToBarParts(rest: string)
    ensures NoBars(rest[..ToBar(rest)]) && (ToBar(rest) < |rest| ==> IsBar(rest[ToBar(rest)]))
    decreases |rest|
  {
    if rest != "" && !IsBar(rest[0]) {
      ToBarParts(rest[1..]);
      assert rest[..ToBar(rest)] == [rest[0]] + rest[1..][..ToBar(rest[1..])];
    }
  }

  /** One stray alternative. */
  lemma StrayFirst(s: string, rest: string, bar: nat)
    requires rest != "" && !IsBar(rest[0]) && bar == ToBar(rest) < |rest|
    ensures rest[..bar] <= s ==> Choose(s, rest).Chosen?
    ensures !(rest[..bar] <= s) ==> Choose(s, rest) == Choose(s, rest[bar + 1..])
  {
    ToBarParts(rest);
    var x, tail := rest[..bar], rest[bar..];
    assert rest == x + tail && tail[1..] == rest[bar + 1..];
    if x <= s {
      WordChosen(s, x, tail);
    } else {
      WordPassed(s, x, tail);
    }
  }

  lemma SomeFitsCons(x: string, xs: seq<string>, s: string)
    ensures SomeFits([x] + xs, s) <==> x <= s || SomeFits(xs, s)
  {
    var all := [x] + xs;
    assert all[0] == x;
    if SomeFits(xs, s) {
      var y :| y in xs && y <= s;
      assert y in all;
    }
    if SomeFits(all, s) {
      var y :| y in all && y <= s;
      assert y == x || y in xs;
    }
    assert x in all;
    assert x <= s ==> SomeFits(all, s);
  }

  lemma NoBarLeft(s: string, rest: string)
    requires rest != "" && ToBar(rest) == |rest|
    ensures Choose(s, rest) == NoneFits
  {
    ToBarParts(rest);
    assert rest[..|rest|] == rest;
    OtherWord(s, rest, Common(s, rest), |rest|);
  }

  lemma StrayFitsFirst(s: string, rest: string, bar: nat)
    requires rest != "" && !IsBar(rest[0]) && bar == ToBar(rest) < |rest|
    requires Choose(s, rest[bar + 1..]).Chosen? <==> SomeFits(Strays(rest[bar + 1..]), s)
    ensures Choose(s, rest).Chosen? <==> SomeFits(Strays(rest), s)
  {
    StrayFirst(s, rest, bar);
    SomeFitsCons(rest[..bar], Strays(rest[bar + 1..]), s);
  }

  /** After the group something is chosen exactly when a stray alternative fits. */
  lemma {:induction false} StrayFits(s: string, rest: string)
    ensures Choose(s, rest).Chosen? <==> SomeFits(Strays(rest), s)
    decreases |rest|
  {
    if rest != "" && !IsBar(rest[0]) {
      var bar := ToBar(rest);
      if bar == |rest| {
        NoBarLeft(s, rest);
      } else {
        StrayFits(s, rest[bar + 1..]);
        StrayFitsFirst(s, rest, bar);
      }
    }
  }

  lemma {:induction false} FitsIffPrefix(alts: seq<string>, s: string)
    ensures FirstFit(alts, s).Some? <==> SomeFits(alts, s)
    decreases |alts|
  {
    if alts != [] && !(alts[0] <= s) {
      FitsIffPrefix(alts[1..], s);
      SomeFitsCons(alts[0], alts[1..], s);
      assert alts == [alts[0]] + alts[1..];
    }
  }

  lemma GroupChosen(s: string, alts: seq<string>, rest: string)
    requires alts != [] && AltsOk(alts) && Covered(alts, rest)
    ensures TakesFirst(s, alts, rest)
  {
    if FirstFit(alts, s).Some? {
      SomeTaken(s, alts, rest);
    } else {
      AllPassed(s, alts, rest);
      StrayFits(s, rest);
      FitsIffPrefix(alts, s);
    }
  }

  lemma StrayTaken(x: string, alts: seq<string>, rest: string)
    requires alts != [] && AltsOk(alts) && x in Strays(rest) && !SomeFits(alts, x)
    ensures !TakesFirst(x, alts, rest)
  {
    FitsIffPrefix(alts, x);
    AllPassed(x, alts, rest);
    StrayFits(x, rest);
  }

  /** A group stands for its first fitting alternative, and for nothing else, on every string exactly when every
      stray alternative begins with one of its own. */
  lemma GroupIffCovered(alts: seq<string>, rest: string)
    requires alts != [] && AltsOk(alts)
    ensures (forall s :: TakesFirst(s, alts, rest)) <==> Covered(alts, rest)
  {
    if Covered(alts, rest) {
      forall s
        ensures TakesFirst(s, alts, rest)
      {
        GroupChosen(s, alts, rest);
      }
    } else {
      var x :| x in Strays(rest) && !SomeFits(alts, x);
      StrayTaken(x, alts, rest);
    }
  }

  lemma GroupOpened(s: string, w: Width, f: string)
    ensures Match(s, "%" + w + ("{" + f)) == MatchGroup(s, f)
  {
    PercentRead(s, w, "{" + f);
    assert ("{" + f)[1..] == f;
  }

  lemma GroupRead(s: string, w: Width, alts: seq<string>, rest: string)
    requires Fits(OneOf(w, alts), rest)
    ensures Match(s, Render(OneOf(w, alts)) + rest)
            == match FirstFit(alts, s) case None => No case Some(a) => Match(s[|a|..], rest)
  {
    var body := RenderAlts(alts) + rest;
    assert Render(OneOf(w, alts)) + rest == "%" + w + ("{" + body);
    GroupOpened(s, w, body);
    GroupChosen(s, alts, rest);
  }

  // ----- all directives -----

  /** One directive at the front of the format. */
  lemma DirectiveRead(d: Directive, s: string, rest: string)
    requires Fits(d, rest)
    ensures Match(s, Render(d) + rest)
            == if !Ends(d) then Hangs else if Starts(d, s) then Match(s[Taken(d, s)..], rest) else No
  {
    match d
    case Char(c) =>
      CharRead(s, c, rest);
    case Optional(c) =>
      OptionalRead(s, c, rest);
    case Digits(w) =>
      DigitsRead(s, w, rest);
    case Float(w) =>
      FloatRead(s, w, rest);
    case Bracket(w, negated, items) =>
      BracketRead(s, w, negated, items, rest);
    case OneOf(w, alts) =>
      GroupRead(s, w, alts, rest);
    case Ignored(w, c) =>
      IgnoredRead(s, w, c, rest);
  }

  function Verdict(b: bool): Outcome {
    if b then Yes else No
  }

  /** On every well-formed format the matcher ends exactly when the greedy reading of the directives meets no
      descending range, and then it matches exactly as that reading does. */
  lemma {:induction false} MatchIsGreedy(ds: seq<Directive>, s: string)
    requires WellFormed(ds)
    ensures Match(s, Format(ds)) == if Stalls(ds, s) then Hangs else Verdict(Greedy(ds, s))
    decreases |ds|
  {
    if ds != [] {
      DirectiveRead(ds[0], s, Format(ds[1..]));
      MatchIsGreedy(ds[1..], s[Taken(ds[0], s)..]);
    }
  }
}
