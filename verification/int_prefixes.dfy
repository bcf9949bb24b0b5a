/** What is printed and parsed, character by character: the digits that are written, and texts with white space, a sign,
    a prefix and digits in front of anything else. */
module IntPrefixes {
  import opened IntText
  import opened Wrappers

  // ----- printing -----

  /** The digit that is written as c: 0 to 9, then the small letters. */
  function WrittenDigit(c: char): int {
    if '0' <= c <= '9' then c as int - '0' as int
    else if 'a' <= c <= 'z' then c as int - 'a' as int + 10
    else -1
  }

  predicate DigitsBelow(s: string, base: int) {
    forall i :: 0 <= i < |s| ==> 0 <= WrittenDigit(s[i]) < base
  }

  function Denoted(s: string, base: int): int {
    if s == "" then 0 else Denoted(s[..|s| - 1], base) * base + WrittenDigit(s[|s| - 1])
  }

  /** s is u in the base, without leading zeros. */
  predicate Writes(s: string, base: int, u: int) {
    s != "" && DigitsBelow(s, base) && Denoted(s, base) == u && (s[0] == '0' ==> |s| == 1)
  }

  lemma TabWrites(d: nat)
    requires d < 36
    ensures WrittenDigit(TAB[d]) == d && (TAB[d] == '0' <==> d == 0)
  {
    assert TAB[d] as int == if d < 10 then 48 + d else 87 + d;
  }

  lemma WritesOne(base: Base, d: nat)
    requires d < base
    ensures Writes([TAB[d]], base, d)
  {
    TabWrites(d);
    assert [TAB[d]][..0] == "";
    assert Denoted("", base) == 0;
  }

  lemma DenotedOne(s: string, base: int)
    requires |s| == 1
    ensures Denoted(s, base) == WrittenDigit(s[0])
  {
    assert s[..0] == "";
    assert Denoted("", base) == 0;
  }

  lemma WritesMore(s: string, base: Base, q: nat, d: nat)
    requires d < base && q > 0 && Writes(s, base, q)
    ensures Writes(s + [TAB[d]], base, q * base + d)
  {
    TabWrites(d);
    assert (s + [TAB[d]])[..|s|] == s;
    if |s| == 1 {
      DenotedOne(s, base);
    }
  }

  lemma {:induction false} DigitsWrite(u: nat, base: Base)
    ensures Writes(Digits(u, base), base, u)
    decreases u
  {
    if u < base {
      WritesOne(base, u);
    } else {
      var q, d := Quot(u, base), Rem(u, base);
      QuotRem(u, base);
      DigitsWrite(q, base);
      WritesMore(Digits(q, base), base, q, d);
    }
  }

  lemma PrintedNegative(n: int)
    requires -0x8000_0000 <= n < 0
    ensures Printed(n, 10) != "" && Printed(n, 10)[0] == '-' && Writes(Printed(n, 10)[1..], 10, -n)
  {
    DigitsWrite(-n, 10);
    assert ("-" + Digits(-n, 10))[1..] == Digits(-n, 10);
  }

  lemma PrintedMagnitude(n: int, base: Base)
    requires -0x8000_0000 <= n < 0x8000_0000 && !(base == 10 && n < 0)
    ensures Magnitude(n, base) == if n < 0 then n + 0x1_0000_0000 else n
    ensures Printed(n, base) == Digits(Magnitude(n, base), base)
  {
  }

  lemma PrintedUnsigned(n: int, base: Base)
    requires -0x8000_0000 <= n < 0x8000_0000 && !(base == 10 && n < 0)
    ensures Writes(Printed(n, base), base, if n < 0 then n + 0x1_0000_0000 else n)
  {
    PrintedMagnitude(n, base);
    DigitsWrite(Magnitude(n, base), base);
  }

  /** What is printed: in base 10 a minus sign and the digits of -n for a negative n, and else the digits of the 32 bits
      of n read as an unsigned number; nothing in a base outside 2 to 36. */
  lemma PrintedWrites(n: int, base: int)
    requires -0x8000_0000 <= n < 0x8000_0000
    ensures base < 2 || base > 36 ==> Printed(n, base) == ""
    ensures base == 10 && n < 0 ==> Printed(n, base) != "" && Printed(n, base)[0] == '-'
                                    && Writes(Printed(n, base)[1..], 10, -n)
    ensures 2 <= base <= 36 && !(base == 10 && n < 0) ==>
              Writes(Printed(n, base), base, if n < 0 then n + 0x1_0000_0000 else n)
  {
    if 2 <= base <= 36 {
      if base == 10 && n < 0 {
        PrintedNegative(n);
      } else {
        PrintedUnsigned(n, base);
      }
    }
  }

  // ----- parsing -----

  /** What counts as a digit: decimal digits and letters of either case, whatever the base; and the control characters
      16 to 25, which the case conversion takes for decimal digits. */
  predicate ReadsDigit(c: char, d: int) {
    || ('0' <= c <= '9' && d == c as int - '0' as int)
    || ('a' <= c <= 'z' && d == c as int - 'a' as int + 10)
    || ('A' <= c <= 'Z' && d == c as int - 'A' as int + 10)
    || (16 <= c as int <= 25 && d == c as int - 16)
  }

  lemma DigitValueReads(c: char, d: nat)
    ensures DigitValue(c) == Some(d) <==> ReadsDigit(c, d)
    ensures DigitValue(c).None? <==> forall e :: !ReadsDigit(c, e)
  {
    if DigitValue(c).Some? {
      assert ReadsDigit(c, DigitValue(c).value);
    }
  }

  predicate WhiteSpace(s: string) {
    forall i :: 0 <= i < |s| ==> s[i] == ' ' || 9 <= s[i] as int <= 13
  }

  predicate DigitsOnly(s: string) {
    forall i :: 0 <= i < |s| ==> ('0' <= s[i] <= '9' || 'a' <= s[i] <= 'z' || 'A' <= s[i] <= 'Z')
  }

  /** Begins with a character that is no digit, if with any. */
  ghost predicate NoDigitFirst(s: string) {
    s != "" ==> s[0] == '\0' || forall e :: !ReadsDigit(s[0], e)
  }

  /** The base that a prefix stands for. */
  function BaseOf(prefix: string): int {
    if prefix == "0x" || prefix == "0X" then 16
    else if prefix == "0b" || prefix == "0B" then 2
    else if prefix == "0" then 8
    else 10
  }

  /** The prefix is the one that is read in front of the digits. */
  predicate IsPrefix(prefix: string, rest: string) {
    || (prefix == "" && (rest != "" ==> rest[0] != '0'))
    || prefix == "0x" || prefix == "0X" || prefix == "0b" || prefix == "0B"
    || (prefix == "0" && (rest != "" ==> rest[0] != 'x' && rest[0] != 'X' && rest[0] != 'b' && rest[0] != 'B'))
  }

  lemma {:induction false} SpacesSkipped(s: string, i: nat, j: nat)
    requires i <= j <= |s| && WhiteSpace(s[i..j]) && (j < |s| ==> !IsSpace(s[j]))
    ensures SkipSpaces(s, i) == j
    decreases j - i
  {
    if i < j {
      assert s[i] == s[i..j][0];
      assert s[i + 1..j] == s[i..j][1..];
      SpacesSkipped(s, i + 1, j);
    }
  }

  lemma {:induction false} DigitsParsed(s: string, i: nat, j: nat, rv: int, base: nat)
    requires i <= j <= |s| && AllDigitValues(s[i..j]) && NoDigitFirst(s[j..])
    ensures ParseDigits(s, i, rv, base) == ParseDigits(s[i..j], 0, rv, base)
    decreases j - i
  {
    if i == j {
      if j < |s| && s[j] != '\0' {
        assert s[j..][0] == s[j];
        DigitValueReads(s[j], 0);
      }
    } else {
      var t := s[i..j];
      assert s[i] == t[0];
      DigitsParsed(s, i + 1, j, Wrap(rv * base + DigitValue(t[0]).value), base);
      assert s[i + 1..j] == t[1..];
      DropFirst(t, 0, Wrap(rv * base + DigitValue(t[0]).value), base);
    }
  }

  lemma {:induction false} DropFirst(t: string, i: nat, rv: int, base: nat)
    requires t != "" && i <= |t[1..]|
    ensures ParseDigits(t[1..], i, rv, base) == ParseDigits(t, i + 1, rv, base)
    decreases |t| - i
  {
    if i < |t[1..]| {
      assert t[1..][i] == t[i + 1];
      match DigitValue(t[i + 1])
      case None =>
      case Some(d) =>
        DropFirst(t, i + 1, Wrap(rv * base + d), base);
    }
  }

  lemma DigitsHaveValues(s: string)
    requires DigitsOnly(s)
    ensures AllDigitValues(s)
  {
    forall i | 0 <= i < |s|
      ensures s[i] != '\0' && DigitValue(s[i]).Some?
    {
      DigitValueReads(s[i], 0);
    }
  }

  lemma PrefixRead(s: string, i: nat, prefix: string, rest: string)
    requires i <= |s| && s[i..] == prefix + rest && IsPrefix(prefix, rest)
    ensures Prefix(s, i) == (i + |prefix|, if prefix == "" then None else Some(BaseOf(prefix)))
  {
    var t := prefix + rest;
    assert i < |s| ==> s[i] == t[0];
    assert i + 1 < |s| ==> s[i + 1] == t[1];
    assert |s| - i == |t|;
  }

  /** white, sign, prefix and digits, in front of what is no digit. */
  function Text(white: string, sign: string, prefix: string, digits: string, tail: string): string {
    white + (sign + (prefix + (digits + tail)))
  }

  /** A sign, or nothing that could be taken for one or for white space in front of what is no digit. */
  predicate SignOk(sign: string, prefix: string, digits: string, tail: string) {
    || sign == "+" || sign == "-"
    || (sign == "" && (prefix == "" && digits == "" && tail != "" ==>
                         !WhiteSpace(tail[..1]) && tail[0] != '-' && tail[0] != '+'))
  }

  lemma TextParts(s: string, i: nat, j: nat, k: nat, l: nat, white: string, sign: string, prefix: string,
                  digits: string, tail: string)
    requires s == Text(white, sign, prefix, digits, tail)
    requires i == |white| && j == i + |sign| && k == j + |prefix| && l == k + |digits|
    ensures i <= j <= k <= l <= |s| && s[0..i] == white && s[i..] == sign + (prefix + (digits + tail))
    ensures s[j..] == prefix + (digits + tail) && s[k..l] == digits && s[l..] == tail
  {
  }

  /** The function, step by step. */
  lemma ParsedSteps(s: string, base: int, i: nat, j: nat, k: nat, guess: Option<nat>, b: nat)
    requires base == 0 || 2 <= base <= 36
    requires SkipSpaces(s, 0) == i && j == if At(s, i) == '-' || At(s, i) == '+' then i + 1 else i
    requires Prefix(s, j) == (k, guess) && b == if base != 0 then base else if guess.Some? then guess.value else 10
    ensures var rv := ParseDigits(s, k, 0, b);
            Parsed(s, base) == if At(s, i) == '-' then Wrap(-rv) else rv
  {
  }

  /** What is read of such a text: the digits, in the base, and the sign. */
  lemma TextRead(white: string, sign: string, prefix: string, digits: string, tail: string, base: int, b: nat)
    requires WhiteSpace(white) && SignOk(sign, prefix, digits, tail) && IsPrefix(prefix, digits + tail)
    requires DigitsOnly(digits) && NoDigitFirst(tail)
    requires (base == 0 && b == BaseOf(prefix)) || 2 <= base == b <= 36
    ensures var rv := ParseDigits(digits, 0, 0, b);
            Parsed(Text(white, sign, prefix, digits, tail), base) == if sign == "-" then Wrap(-rv) else rv
  {
    var s := Text(white, sign, prefix, digits, tail);
    var i, j := |white|, |white| + |sign|;
    var k := j + |prefix|;
    var l := k + |digits|;
    TextParts(s, i, j, k, l, white, sign, prefix, digits, tail);
    FirstAfterWhite(s, i, sign, prefix, digits, tail);
    assert SkipSpaces(s, 0) == i by {
      SpacesSkipped(s, 0, i);
    }
    assert Prefix(s, j) == (k, if prefix == "" then None else Some(BaseOf(prefix))) by {
      PrefixRead(s, j, prefix, digits + tail);
    }
    assert ParseDigits(s, k, 0, b) == ParseDigits(digits, 0, 0, b) by {
      DigitsHaveValues(digits);
      DigitsParsed(s, k, l, 0, b);
    }
    ParsedSteps(s, base, i, j, k, if prefix == "" then None else Some(BaseOf(prefix)), b);
  }

  /** After the white space there is none, and no other sign than the one there. */
  lemma FirstAfterWhite(s: string, i: nat, sign: string, prefix: string, digits: string, tail: string)
    requires i <= |s| && s[i..] == sign + (prefix + (digits + tail))
    requires SignOk(sign, prefix, digits, tail) && DigitsOnly(digits) && IsPrefix(prefix, digits + tail)
    ensures i < |s| ==> !IsSpace(s[i])
    ensures At(s, i) == '-' <==> sign == "-"
    ensures At(s, i) == '+' <==> sign == "+"
  {
    if i < |s| {
      assert s[i] == s[i..][0];
      if sign == "" && prefix == "" && digits != "" {
        assert s[i] == digits[0];
      }
    }
  }

  lemma WrapTwice(u: int)
    ensures (Wrap(u) - u) % 0x1_0000_0000 == 0 && (Wrap(-Wrap(u)) + u) % 0x1_0000_0000 == 0
  {
  }

  /** The digits alone. */
  lemma DigitsRead(digits: string, b: nat) returns (u: nat)
    requires DigitsOnly(digits)
    ensures AllDigitValues(digits) && u == Horner(digits, b) && ParseDigits(digits, 0, 0, b) == Wrap(u)
  {
    DigitsHaveValues(digits);
    u := Horner(digits, b);
    ParseIsHorner(digits, 0, b);
    assert digits[..0] == "";
  }

  /** For every text of white space, a sign, a prefix and digits, whatever follows them: the result is the number u that
      the digits denote in the base, or in the one that the prefix stands for when the base is 0, with the sign, modulo
      2^32 and in range. */
  lemma TextParsed(white: string, sign: string, prefix: string, digits: string, tail: string, base: int, b: nat)
    returns (r: int, u: nat)
    requires WhiteSpace(white) && SignOk(sign, prefix, digits, tail) && IsPrefix(prefix, digits + tail)
    requires DigitsOnly(digits) && NoDigitFirst(tail)
    requires (base == 0 && b == BaseOf(prefix)) || 2 <= base == b <= 36
    ensures r == Parsed(Text(white, sign, prefix, digits, tail), base)
    ensures AllDigitValues(digits) && u == Horner(digits, b)
    ensures -0x8000_0000 <= r < 0x8000_0000 && (if sign == "-" then r + u else r - u) % 0x1_0000_0000 == 0
  {
    u := DigitsRead(digits, b);
    WrapTwice(u);
    r := if sign == "-" then Wrap(-Wrap(u)) else Wrap(u);
    TextRead(white, sign, prefix, digits, tail, base, b);
  }

  /** A base outside 2 to 36, other than 0, gives 0. */
  lemma OtherBases(s: string, base: int)
    requires base < 0 || base == 1 || base > 36
    ensures Parsed(s, base) == 0
  {
  }
}
