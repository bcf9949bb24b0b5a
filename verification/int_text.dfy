/** Printing 32-bit integers in a base and parsing them back. Strings end where the C string does. */
module IntText {
  import opened Numbers
  import opened Wrappers

  const TWO31 := 0x8000_0000
  const TWO32 := 0x1_0000_0000

  predicate IsInt(n: int) {
    -TWO31 <= n < TWO31
  }

  /** The unsigned value of a 32-bit integer. */
  function Unsigned(n: int): (u: nat)
    ensures u < TWO32
  {
    n % TWO32
  }

  /** Two's-complement wrap-around to 32 bits. */
  function Wrap(n: int): (w: int)
    ensures IsInt(w)
  {
    (n + TWO31) % TWO32 - TWO31
  }

  /** The bases the digit table covers. */
  type Base = b: int | 2 <= b <= 36 witness 10

  const TAB := "0123456789abcdefghijklmnopqrstuvwxyz"

  /** Quotient by repeated subtraction; DivMod ties it, and Rem, to division. */
  function Quot(u: nat, base: Base): (q: nat)
    ensures u >= base ==> 1 <= q < u
    ensures u < base ==> q == 0
  {
    if u < base then 0 else Quot(u - base, base) + 1
  }

  function Rem(u: nat, base: Base): (d: nat)
    ensures d < base && (u < base ==> d == u)
  {
    if u < base then u else Rem(u - base, base)
  }

  lemma {:induction false} QuotRem(u: nat, base: Base)
    ensures Quot(u, base) * base + Rem(u, base) == u
  {
    if u >= base {
      QuotRem(u - base, base);
      assert Quot(u, base) * base == Quot(u - base, base) * base + base;
    }
  }

  lemma MulMonotone(a: int, b: int, c: int)
    requires a <= b && c >= 0
    ensures c * a <= c * b
  {
  }

  lemma SmallMultiple(e: int, base: int)
    requires -base < e * base < base
    ensures e == 0
  {
    if e >= 1 {
      MulMonotone(1, e, base);
    } else if e <= -1 {
      MulMonotone(1, -e, base);
    }
  }

  lemma DivModUnique(u: nat, base: Base, q: nat, d: nat)
    requires d < base && q * base + d == u
    ensures u / base == q && u % base == d
  {
    assert u / base * base + u % base == u;
    assert (u / base - q) * base == u / base * base - q * base;
    SmallMultiple(u / base - q, base);
  }

  lemma DivMod(u: nat, base: Base)
    ensures u / base == Quot(u, base) && u % base == Rem(u, base)
  {
    QuotRem(u, base);
    DivModUnique(u, base, Quot(u, base), Rem(u, base));
  }

  /** One step of the digit loops: the digit and what is left. */
  method Divide(u: nat, base: Base) returns (rest: nat, digit: nat)
    ensures rest == Quot(u, base) && digit == Rem(u, base)
  {
    DivMod(u, base);
    rest, digit := u / base, u % base;
  }

  /** The digits of u in the base, most significant first, at least one. */
  function Digits(u: nat, base: Base): (s: string)
    ensures s != ""
  {
    if u < base then [TAB[u]] else Digits(Quot(u, base), base) + [TAB[Rem(u, base)]]
  }

  predicate Signed(n: int, base: int) {
    n < 0 && base == 10
  }

  /** The number whose digits are printed: only base 10 prints a sign. */
  function Magnitude(n: int, base: int): (m: nat)
    requires IsInt(n)
    ensures m < TWO32 && (Signed(n, base) ==> m <= TWO31)
  {
    if Signed(n, base) then -n else Unsigned(n)
  }

  /** What int2str writes before the terminator. */
  function Printed(n: int, base: int): string
    requires IsInt(n)
  {
    if base < 2 || base > 36 then ""
    else (if Signed(n, base) then "-" else "") + Digits(Magnitude(n, base), base)
  }

  /** Negating the least integer wraps to itself, which is right once it is read as unsigned. */
  lemma NegationIsMagnitude(n: int)
    requires IsInt(n) && n < 0
    ensures Unsigned(Wrap(-n)) == -n
    ensures n == -TWO31 ==> Unsigned(n) == -n
  {
  }

  lemma Pow2At32()
    ensures Pow2(32) == TWO32
  {
    assert Pow2(8) == 256;
    assert Pow2(16) == 65536;
    assert Pow2(24) == 16777216;
  }

  lemma HalvesBits(u: nat, base: Base, k: nat)
    requires 1 <= u < Pow2(k)
    ensures k >= 1 && Quot(u, base) < Pow2(k - 1)
  {
    QuotRem(u, base);
    if k >= 1 {
      HalfBound(Quot(u, base), base, u, Pow2(k - 1));
    }
  }

  lemma HalfBound(q: nat, base: Base, u: nat, half: nat)
    requires q * base <= u < 2 * half
    ensures q < half
  {
    MulMonotone(2, base, q);
  }

  function Reverse(s: string): (r: string)
    ensures |r| == |s|
  {
    if s == "" then "" else [s[|s| - 1]] + Reverse(s[..|s| - 1])
  }

  /** The digits of u while there are more to produce. */
  function Todo(u: nat, base: Base, more: bool): string
  {
    if more then Digits(u, base) else ""
  }

  lemma Regroup(a: string, c: char, b: string)
    ensures (a + [c]) + b == a + ([c] + b)
  {
  }

  /** The digits to come and, reversed, those already in the buffer. */
  function Whole(u: nat, base: Base, more: bool, done: string): string
  {
    Todo(u, base, more) + Reverse(done)
  }

  lemma WholeEnds(u: nat, base: Base, rest: nat, done: string)
    ensures Whole(u, base, true, []) == Digits(u, base) && Whole(rest, base, false, done) == Reverse(done)
  {
  }

  lemma {:induction false} ReverseAt(s: string, i: nat)
    requires i < |s|
    ensures Reverse(s)[i] == s[|s| - 1 - i]
  {
    if i > 0 {
      ReverseAt(s[..|s| - 1], i - 1);
    }
  }

  /** What one turn of the digit loop relies on. */
  lemma TurnFacts(u: nat, base: Base, bits: nat)
    requires bits >= 1 && u < Pow2(bits)
    ensures Quot(u, base) != 0 ==> bits >= 2 && Quot(u, base) < Pow2(bits - 1)
  {
    if u > 0 {
      HalvesBits(u, base, bits);
    }
    assert bits == 1 ==> Pow2(bits - 1) == 1;
  }

  /** One turn: a digit is done, and there is less to do. */
  lemma MoreDigits(u: nat, base: Base, done: string, all: string) returns (done': string)
    requires Whole(u, base, true, done) == all
    ensures done' == done + [TAB[Rem(u, base)]] && Whole(Quot(u, base), base, Quot(u, base) != 0, done') == all
    ensures |Todo(Quot(u, base), base, Quot(u, base) != 0)| < |Todo(u, base, true)|
    ensures |done'| <= |all|
  {
    done' := done + [TAB[Rem(u, base)]];
  }

  /** Fills buf from the front with the digits of u, least significant first. */
  method FillDigits(u: nat, base: Base, buf: array<char>) returns (p: nat)
    requires |Digits(u, base)| <= buf.Length
    modifies buf
    ensures p == |Digits(u, base)| && Reverse(buf[..p]) == Digits(u, base)
  {
    var uval: nat, more := u, true;
    ghost var done := "";
    p := 0;
    WholeEnds(u, base, uval, done);
    while more
      invariant p <= buf.Length && buf[..p] == done
      invariant Whole(uval, base, more, done) == Digits(u, base)
      decreases |Todo(uval, base, more)|
    {
      var rest, digit := Divide(uval, base);
      done := MoreDigits(uval, base, done, Digits(u, base));
      buf[p] := TAB[digit];
      p, uval, more := p + 1, rest, rest != 0;
    }
    WholeEnds(u, base, uval, done);
  }

  lemma {:induction false} DigitsLength(u: nat, base: Base, bits: nat)
    requires bits >= 1 && u < Pow2(bits)
    ensures |Digits(u, base)| <= bits
    decreases bits
  {
    TurnFacts(u, base, bits);
    if Quot(u, base) != 0 {
      DigitsLength(Quot(u, base), base, bits - 1);
    }
  }

  predicate NoNul(s: string) {
    forall i :: 0 <= i < |s| ==> s[i] != '\0'
  }

  lemma {:induction false} DigitsHaveNoNul(u: nat, base: Base)
    ensures NoNul(Digits(u, base))
  {
    if u >= base {
      DigitsHaveNoNul(Quot(u, base), base);
    }
  }

  /** The copying loop: it would stop early at a NUL, but there is none. */
  method CopyReversed(buf: array<char>, n: nat, str: array<char>)
    requires n <= buf.Length && n < str.Length && buf != str && '\0' !in buf[..n]
    modifies str
    ensures str[..n] == Reverse(buf[..n]) && str[n] == '\0' && str[n + 1..] == old(str[n + 1..])
  {
    var k, p2 := n - 1, 0;
    while k >= 0
      invariant -1 <= k < n && p2 == n - 1 - k
      invariant forall j :: 0 <= j < p2 ==> str[j] == buf[n - 1 - j]
      invariant str[n + 1..] == old(str[n + 1..])
      decreases k
    {
      str[p2] := buf[k];
      p2 := p2 + 1;
      if buf[k] == '\0' {
        break;
      }
      k := k - 1;
    }
    str[p2] := '\0';
    forall j | 0 <= j < n
      ensures Reverse(buf[..n])[j] == str[j]
    {
      ReverseAt(buf[..n], j);
    }
  }

  /** No printed string holds a NUL. */
  lemma PrintedHasNoNul(n: int, base: int)
    requires IsInt(n)
    ensures '\0' !in Printed(n, base)
  {
    if 2 <= base <= 36 {
      DigitsHaveNoNul(Magnitude(n, base), base);
    }
  }

  lemma {:induction false} ReverseHasSame(s: string, c: char)
    ensures c in Reverse(s) <==> c in s
  {
    if s != "" {
      ReverseHasSame(s[..|s| - 1], c);
      assert s == s[..|s| - 1] + [s[|s| - 1]];
    }
  }

  /** The scratch buffer filled with the string to print, reversed: 33 characters are enough. */
  method FillPrinted(val: int, base: Base, buf: array<char>) returns (p: nat)
    requires IsInt(val) && buf.Length == 33
    modifies buf
    ensures p <= 33 && Reverse(buf[..p]) == Printed(val, base)
  {
    var uval := Unsigned(val);
    if val < 0 && base == 10 {
      NegationIsMagnitude(val);
      uval := Unsigned(Wrap(-val));
    }
    Pow2At32();
    DigitsLength(uval, base, 32);
    p := FillDigits(uval, base, buf);
    if val < 0 && base == 10 {
      ghost var digits := buf[..p];
      buf[p] := '-';
      p := p + 1;
      assert buf[..p] == digits + ['-'];
    }
  }

  /** int2str, into a buffer the caller made large enough for the string and its terminator. */
  method Int2Str(val: int, str: array<char>, base: int)
    requires IsInt(val) && str.Length >= |Printed(val, base)| + 1
    modifies str
    ensures var s := Printed(val, base);
            str[..|s|] == s && str[|s|] == '\0' && str[|s| + 1..] == old(str[|s| + 1..])
  {
    if base < 2 || base > 36 {
      str[0] := '\0';
      return;
    }
    var buf := new char[33];
    var p := FillPrinted(val, base, buf);
    PrintedHasNoNul(val, base);
    ReverseHasSame(buf[..p], '\0');
    CopyReversed(buf, p, str);
  }

  // ----- ant_itoa: the same string, filled from the back -----

  const HEX := "0123456789abcdef"

  /** A 32-bit magnitude needs at most 31 decimal digits, so a sign fits in front. */
  lemma DecimalLength(u: nat)
    requires u <= TWO31
    ensures |Digits(u, 10)| <= 31
  {
    if u >= 10 {
      assert Pow2(30) == 0x4000_0000 by {
        assert Pow2(10) == 1024 && Pow2(20) == 1048576;
      }
      QuotRem(u, 10);
      DigitsLength(Quot(u, 10), 10, 30);
    }
  }

  /** Producing one digit in front of those produced keeps the number's digits. */
  lemma ProduceFront(u: nat, base: Base, done: string, all: string)
    requires 2 <= base <= 16 && Digits(u, base) + done == all
    ensures Todo(Quot(u, base), base, Quot(u, base) != 0) + ([HEX[Rem(u, base)]] + done) == all
  {
    assert HEX[Rem(u, base)] == TAB[Rem(u, base)];
    Regroup(Todo(Quot(u, base), base, Quot(u, base) != 0), HEX[Rem(u, base)], done);
  }

  /** Fills str backwards from position end with the digits of u. */
  method FillBackwards(u: nat, base: Base, str: array<char>, end: nat) returns (p: nat)
    requires 2 <= base <= 16 && |Digits(u, base)| <= end <= str.Length
    modifies str
    ensures p == end - |Digits(u, base)| && str[p..end] == Digits(u, base) && str[end..] == old(str[end..])
  {
    var m: nat, more := u, true;
    ghost var done := "";
    p := end;
    while more
      invariant p <= end && str[p..end] == done && str[end..] == old(str[end..])
      invariant Todo(m, base, more) + done == Digits(u, base)
      decreases |Todo(m, base, more)|
    {
      var rest, digit := Divide(m, base);
      ProduceFront(m, base, done, Digits(u, base));
      p := p - 1;
      str[p] := HEX[digit];
      m, more, done := rest, rest != 0, [HEX[digit]] + done;
    }
  }

  method MagnitudeOf(n: int, base: Base) returns (m: nat)
    requires IsInt(n)
    ensures m == Magnitude(n, base)
  {
    m := Unsigned(n);
    if n != -TWO31 && n < 0 && base == 10 {
      m := -n;
    }
    if n < 0 {
      NegationIsMagnitude(n);
    }
  }

  /** ant_itoa for the bases its digit table covers. */
  method AntItoa(n: int, dst: array<char>, base: Base)
    requires IsInt(n) && 2 <= base <= 16 && dst.Length >= |Printed(n, base)| + 1
    modifies dst
    ensures var s := Printed(n, base);
            dst[..|s|] == s && dst[|s|] == '\0' && dst[|s| + 1..] == old(dst[|s| + 1..])
  {
    var str := new char[33];
    str[32] := '\0';
    var m := MagnitudeOf(n, base);
    var p := FillPrintedBackwards(n, m, base, str);
    CopyOut(str, p, dst);
  }

  method FillPrintedBackwards(n: int, m: nat, base: Base, str: array<char>) returns (p: nat)
    requires IsInt(n) && 2 <= base <= 16 && str.Length == 33 && str[32] == '\0'
    requires m == Magnitude(n, base)
    modifies str
    ensures p <= 32 && str[p..32] == Printed(n, base) && str[32] == '\0'
    ensures p == 32 - |Printed(n, base)| && '\0' !in str[p..32]
  {
    Pow2At32();
    DigitsLength(m, base, 32);
    if n < 0 && base == 10 {
      DecimalLength(m);
    }
    assert str[32..][0] == '\0';
    p := FillBackwards(m, base, str, 32);
    assert str[32..][0] == '\0';
    if n < 0 && base == 10 {
      ghost var digits := str[p..32];
      p := p - 1;
      str[p] := '-';
      assert str[p..32] == ['-'] + digits;
    }
    PrintedHasNoNul(n, base);
  }

  /** Copies the string at p, terminator included. */
  method CopyOut(str: array<char>, p: nat, dst: array<char>)
    requires str.Length == 33 && p <= 32 && str[32] == '\0' && '\0' !in str[p..32]
    requires str != dst && dst.Length >= 33 - p
    modifies dst
    ensures dst[..32 - p] == str[p..32] && dst[32 - p] == '\0' && dst[33 - p..] == old(dst[33 - p..])
  {
    var q, d := p, 0;
    while str[q] != '\0'
      invariant p <= q <= 32 && d == q - p
      invariant dst[..d] == str[p..q] && dst[33 - p..] == old(dst[33 - p..])
      decreases 32 - q
    {
      dst[d] := str[q];
      q, d := q + 1, d + 1;
    }
    assert q == 32;
    dst[d] := '\0';
  }

  // ----- parsing -----

  /** The character at i; a C string ends with NUL. */
  function At(s: string, i: nat): char {
    if i < |s| then s[i] else '\0'
  }

  predicate IsSpace(c: char) {
    c == ' ' || c == '\t' || c == '\n' || c == '\r' || c as int == 11 || c as int == 12
  }

  /** The value of a digit after `c | 0x20`, for letters and decimal digits whatever the base; bytes from 128 on
      are negative chars and never digits. */
  function DigitValue(c: char): Option<nat> {
    var code := c as int;
    var low := if code / 32 % 2 == 0 then code + 32 else code;
    if code >= 128 then None
    else if 97 <= low <= 122 then Some(low - 97 + 10)
    else if 48 <= low <= 57 then Some(low - 48)
    else None
  }

  /** The digit loop: stops at the end or at the first character that is no digit. */
  function ParseDigits(s: string, i: nat, rv: int, base: nat): int
    decreases |s| - i
  {
    if At(s, i) == '\0' || i >= |s| then rv
    else
      match DigitValue(s[i])
      case None => rv
      case Some(d) => ParseDigits(s, i + 1, Wrap(rv * base + d), base)
  }

  function SkipSpaces(s: string, i: nat): nat
    decreases |s| - i
  {
    if i < |s| && IsSpace(s[i]) then SkipSpaces(s, i + 1) else i
  }

  /** Past a prefix 0, 0x or 0b, with the base it stands for. */
  function Prefix(s: string, i: nat): (nat, Option<nat>) {
    if At(s, i) != '0' then (i, None)
    else if At(s, i + 1) == 'x' || At(s, i + 1) == 'X' then (i + 2, Some(16))
    else if At(s, i + 1) == 'b' || At(s, i + 1) == 'B' then (i + 2, Some(2))
    else (i + 1, Some(8))
  }

  function Parsed(s: string, base: int): int {
    if (base < 2 && base != 0) || base > 36 then 0
    else
      var i := SkipSpaces(s, 0);
      var signed := At(s, i) == '-' || At(s, i) == '+';
      var (j, guess) := Prefix(s, if signed then i + 1 else i);
      var b := if base != 0 then base else if guess.Some? then guess.value else 10;
      var rv := ParseDigits(s, j, 0, b);
      if At(s, i) == '-' then Wrap(-rv) else rv
  }

  method ScanPrefix(str: string, p0: nat) returns (p: nat, newbase: int)
    ensures (p, if newbase == -1 then None else Some(newbase)) == Prefix(str, p0) && newbase >= -1
  {
    p, newbase := p0, -1;
    if At(str, p) == '0' {
      p := p + 1;
      if At(str, p) == 'x' || At(str, p) == 'X' {
        p := p + 1;
        newbase := 16;
      } else if At(str, p) == 'b' || At(str, p) == 'B' {
        p := p + 1;
        newbase := 2;
      } else {
        newbase := 8;
      }
    }
  }

  method ScanDigits(str: string, start: nat, base: nat) returns (rv: int)
    ensures rv == ParseDigits(str, start, 0, base)
  {
    rv := 0;
    var p := start;
    while At(str, p) != '\0'
      invariant ParseDigits(str, p, rv, base) == ParseDigits(str, start, 0, base)
      decreases |str| - p
    {
      var d := DigitValue(str[p]);
      if d.None? {
        break;
      }
      rv := Wrap(rv * base + d.value);
      p := p + 1;
    }
  }

  method Str2Int(str: string, base0: int) returns (r: int)
    ensures r == Parsed(str, base0)
  {
    var base := base0;
    if (base < 2 && base != 0) || base > 36 {
      return 0;
    }
    var p := 0;
    while At(str, p) != '\0' && IsSpace(At(str, p))
      invariant p <= |str| && SkipSpaces(str, p) == SkipSpaces(str, 0)
      decreases |str| - p
    {
      p := p + 1;
    }
    var sign := '+';
    if At(str, p) == '-' || At(str, p) == '+' {
      sign := At(str, p);
      p := p + 1;
    }
    var newbase;
    p, newbase := ScanPrefix(str, p);
    if base == 0 {
      base := if newbase == -1 then 10 else newbase;
    }
    var rv := ScanDigits(str, p, base);
    r := if sign == '-' then Wrap(-rv) else rv;
  }

  // ----- parsing is the Horner value, and undoes printing -----

  predicate AllDigitValues(s: string) {
    forall i :: 0 <= i < |s| ==> s[i] != '\0' && DigitValue(s[i]).Some?
  }

  /** The value of a string of digits in the base, without any bound. */
  function Horner(s: string, base: nat): nat
    requires AllDigitValues(s)
  {
    if |s| == 0 then 0 else Horner(s[..|s| - 1], base) * base + DigitValue(s[|s| - 1]).value
  }

  /** Wrapping early or late makes no difference. */
  lemma WrapStep(x: int, base: nat, d: int)
    ensures Wrap(Wrap(x) * base + d) == Wrap(x * base + d)
  {
    var k := (x + TWO31) / TWO32;
    assert Wrap(x) == x - k * TWO32;
    assert Wrap(x) * base == x * base - (k * base) * TWO32;
  }

  /** The digit loop computes the Horner value modulo 2^32, in two's complement, however long the string is. */
  lemma {:induction false} ParseIsHorner(s: string, i: nat, base: nat)
    requires AllDigitValues(s) && i <= |s|
    ensures ParseDigits(s, i, Wrap(Horner(s[..i], base)), base) == Wrap(Horner(s, base))
    decreases |s| - i
  {
    if i == |s| {
      assert s[..i] == s;
    } else {
      assert s[..i + 1][..i] == s[..i];
      WrapStep(Horner(s[..i], base), base, DigitValue(s[i]).value);
      ParseIsHorner(s, i + 1, base);
    }
  }

  lemma TabValue(d: nat)
    requires d < 36
    ensures TAB[d] != '\0' && DigitValue(TAB[d]) == Some(d) && (TAB[d] == '0' ==> d == 0)
  {
    assert TAB[d] as int == if d < 10 then 48 + d else 87 + d;
  }

  ghost predicate Denotes(s: string, base: Base, u: nat) {
    AllDigitValues(s) && Horner(s, base) == u && s != "" && (s[0] == '0' ==> u == 0)
  }

  lemma DenotesStep(s: string, base: Base, q: nat, d: nat)
    requires d < base && q >= 1 && Denotes(s, base, q)
    ensures Denotes(s + [TAB[d]], base, q * base + d)
  {
    TabValue(d);
    HornerLast(s, TAB[d], base);
  }

  lemma DenotesDigit(base: Base, d: nat)
    requires d < base
    ensures Denotes([TAB[d]], base, d)
  {
    TabValue(d);
    HornerLast("", TAB[d], base);
    assert "" + [TAB[d]] == [TAB[d]];
  }

  /** The digits of u have the value u, and start with '0' only for 0. */
  lemma {:induction false} HornerOfDigits(u: nat, base: Base)
    ensures Denotes(Digits(u, base), base, u)
    decreases u
  {
    if u < base {
      DenotesDigit(base, u);
    } else {
      var q, d := Quot(u, base), Rem(u, base);
      QuotRem(u, base);
      HornerOfDigits(q, base);
      DenotesStep(Digits(q, base), base, q, d);
    }
  }

  lemma HornerLast(s: string, c: char, base: nat)
    requires AllDigitValues(s) && c != '\0' && DigitValue(c).Some?
    ensures AllDigitValues(s + [c]) && Horner(s + [c], base) == Horner(s, base) * base + DigitValue(c).value
  {
    assert (s + [c])[..|s|] == s;
  }

  /** A string of digits without a leading zero parses to its Horner value modulo 2^32, in two's complement;
      base 0 then means ten. */
  lemma ParsedIsHorner(s: string, base: int)
    requires s != "" && AllDigitValues(s) && s[0] != '0' && (base == 0 || 2 <= base <= 36)
    ensures Parsed(s, base) == Wrap(Horner(s, if base == 0 then 10 else base))
  {
    ParseIsHorner(s, 0, if base == 0 then 10 else base);
    assert s[..0] == "";
  }

  /** A sign before such a string: the result is negated. */
  lemma ParsedNegative(s: string, base: Base)
    requires s != "" && AllDigitValues(s) && s[0] != '0'
    ensures Parsed("-" + s, base) == Wrap(-Wrap(Horner(s, base)))
  {
    var t := "-" + s;
    ParseShift(t, s, 0, 0, base);
    ParseIsHorner(s, 0, base);
    assert s[..0] == "";
  }

  lemma {:induction false} ParseShift(t: string, s: string, i: nat, rv: int, base: nat)
    requires t == "-" + s && i <= |s|
    ensures ParseDigits(t, i + 1, rv, base) == ParseDigits(s, i, rv, base)
    decreases |s| - i
  {
    if i < |s| {
      match DigitValue(s[i])
      case None =>
      case Some(d) =>
        ParseShift(t, s, i + 1, Wrap(rv * base + d), base);
    }
  }

  lemma UnsignedWraps(n: int)
    requires IsInt(n)
    ensures Wrap(Unsigned(n)) == n && Wrap(-Wrap(-n)) == n
  {
  }

  lemma RoundTripSigned(n: int, base: Base)
    requires IsInt(n) && Signed(n, base)
    ensures Parsed("-" + Digits(-n, base), base) == n
  {
    HornerOfDigits(-n, base);
    SignedValue(n, Digits(-n, base), base);
  }

  lemma SignedValue(n: int, s: string, base: Base)
    requires IsInt(n) && n < 0 && Denotes(s, base, -n)
    ensures Parsed("-" + s, base) == n
  {
    ParsedNegative(s, base);
    UnsignedWraps(n);
  }

  lemma RoundTripUnsigned(u: nat, base: Base)
    requires u < TWO32
    ensures Parsed(Digits(u, base), base) == Wrap(u)
  {
    if u == 0 {
      assert Digits(0, base) == "0";
    } else {
      HornerOfDigits(u, base);
      ParsedIsHorner(Digits(u, base), base);
    }
  }

  /** Printing and parsing back in the same base is the identity on 32-bit integers, the least one included. */
  lemma RoundTrip(n: int, base: Base)
    requires IsInt(n)
    ensures Parsed(Printed(n, base), base) == n
  {
    if Signed(n, base) {
      RoundTripSigned(n, base);
    } else {
      RoundTripUnsigned(Unsigned(n), base);
      UnsignedWraps(n);
      assert Printed(n, base) == Digits(Unsigned(n), base);
    }
  }
}
