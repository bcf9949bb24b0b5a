/** Where the jumps of the consistent hash land: in exact arithmetic, in any rounding, and how many of the possible keys
    carry a jump how far. */
module JumpBalance {
  import opened JumpHash

  /** Arithmetic without rounding. */
  const EXACT: Rounding := x => x

  // ----- one jump -----

  lemma FloorBelow(x: real, n: int)
    ensures x.Floor < n <==> x < n as real
  {
  }

  lemma QuotientBelow(a: real, t: real, d: real, n: real)
    requires d > 0.0
    ensures a * (t / d) < n <==> a * t < n * d
  {
    var q := t / d;
    assert q * d == t;
    assert a * t == (a * q) * d;
    if a * q < n {
      assert (n - a * q) * d > 0.0;
    } else {
      assert (a * q - n) * d >= 0.0;
    }
  }

  lemma ProductsAsReals(a: int, b: int)
    ensures (a * b) as real == a as real * b as real
  {
  }

  /** Without rounding, the jump from b goes below n exactly when b + 1 over n is less than d over 2^31, where d is one
      more than the top 31 bits of the key. */
  lemma NextBelowIff(key: nat, b: nat, n: int)
    requires key < 0x1_0000_0000_0000_0000
    ensures NextJump(EXACT, key, b) < n <==> (b + 1) * 0x8000_0000 < n * (key / 0x2_0000_0000 + 1)
  {
    var d: int := key / 0x2_0000_0000 + 1;
    var q := 2147483648.0 / d as real;
    FloorBelow((b + 1) as real * q, n);
    QuotientBelow((b + 1) as real, 2147483648.0, d as real, n as real);
    ProductsAsReals(b + 1, 0x8000_0000);
    ProductsAsReals(n, d);
  }

  /** The same of the i-th jump of a key. */
  lemma JumpBelowIff(key: nat, i: nat, n: int)
    requires JumpAt(EXACT, key, i) < TWO31
    ensures JumpAt(EXACT, key, i + 1) < n
            <==> (JumpAt(EXACT, key, i) + 1) * 0x8000_0000 < n * (KeyAt(key, i + 1) / 0x2_0000_0000 + 1)
  {
    JumpAtStep(EXACT, key, i);
    NextBelowIff(KeyAt(key, i + 1), JumpAt(EXACT, key, i), n);
  }

  lemma Rounded(rnd: Rounding, y: real)
    requires -9007199254740991.0 <= y <= 9007199254740991.0
    ensures y.Floor <= rnd(y).Floor <= y.Floor + (if y == y.Floor as real then 0 else 1)
  {
    assert ExactAt(rnd, y.Floor) && ExactAt(rnd, y.Floor + 1);
    assert y.Floor as real <= y <= (y.Floor + 1) as real;
  }

  /** The quotient of 2^31 by d, one more than the top 31 bits of the key, rounded. */
  function RoundedQuotient(rnd: Rounding, key: nat): real {
    var d: int := key / 0x2_0000_0000 + 1;
    rnd(2147483648.0 / d as real)
  }

  /** z is y rounded up or down to a whole number. */
  predicate Neighbour(z: int, y: real) {
    y.Floor <= z <= y.Floor + if y == y.Floor as real then 0 else 1
  }

  lemma NextNearProduct(rnd: Rounding, key: nat, b: nat, y: real)
    requires key < WORD && b < TWO31 && y == (b + 1) as real * RoundedQuotient(rnd, key) <= 9007199254740991.0
    ensures Neighbour(NextJump(rnd, key, b), y)
  {
    var d: int := key / 0x2_0000_0000 + 1;
    var q := TWO31 as real / d as real;
    QuotientTimes(TWO31 as real, d as real);
    QuotientRange(TWO31 as real, d as real, q);
    RoundedRange(rnd, q, 1, TWO31);
    assert y >= 0.0;
    Rounded(rnd, y);
  }

  /** With any rounding the jump lands on the product of b + 1 and the rounded quotient, up or down to a whole number,
      as long as doubles represent these. */
  lemma JumpNearProduct(rnd: Rounding, key: nat, i: nat, k: nat, b: nat, y: real)
    requires b == JumpAt(rnd, key, i) < TWO31 && k == KeyAt(key, i + 1)
    requires y == (b + 1) as real * RoundedQuotient(rnd, k) <= 9007199254740991.0
    ensures Neighbour(JumpAt(rnd, key, i + 1), y)
  {
    assert Neighbour(NextJump(rnd, k, b), y) by {
      NextNearProduct(rnd, k, b, y);
    }
    assert JumpAt(rnd, key, i + 1) == NextJump(rnd, k, b) by {
      JumpAtStep(rnd, key, i);
    }
  }

  // ----- how many keys jump how far -----

  /** Of the 2^31 values that the top bits of a key can have, those with which a jump from b goes to n or beyond. */
  function Share(b: nat, n: nat): nat
    requires n > 0
  {
    (b + 1) * 0x8000_0000 / n
  }

  lemma NatProduct(m: nat, n: nat)
    ensures m * n >= 0
  {
  }

  lemma BelowFactor(x: nat, y: nat, n: nat, q: nat, r: nat)
    requires y == q * n + r && r < n
    ensures x < q <==> n * (x + 1) <= y
  {
    if x < q {
      NatProduct(q - (x + 1), n);
    } else {
      NatProduct(x - q, n);
    }
  }

  lemma BelowQuotient(x: nat, y: nat, n: nat)
    requires n > 0
    ensures x < y / n <==> n * (x + 1) <= y
  {
    BelowFactor(x, y, n, y / n, y % n);
  }

  /** A jump from b goes to n or beyond exactly with the smallest Share(b, n) values of the top bits. */
  lemma NextBeyondIff(key: nat, b: nat, n: nat)
    requires key < 0x1_0000_0000_0000_0000 && n > 0
    ensures NextJump(EXACT, key, b) >= n <==> key / 0x2_0000_0000 < Share(b, n)
  {
    NextBelowIff(key, b, n);
    BelowQuotient(key / 0x2_0000_0000, (b + 1) * 0x8000_0000, n);
  }

  /** The values of the top bits with which a jump from b goes to n or beyond, whatever the low bits are. */
  ghost function TopBitsBeyond(b: nat, n: nat): set<nat> {
    set t: nat | t < 0x8000_0000 && NextJump(EXACT, t * 0x2_0000_0000, b) >= n
  }

  lemma {:induction false} SmallestCount(s: set<nat>, q: nat)
    requires forall t: nat :: t in s <==> t < q
    ensures |s| == q
    decreases q
  {
    if q == 0 {
      assert s == {};
    } else {
      SmallestCount(s - {q - 1}, q - 1);
      assert s == (s - {q - 1}) + {q - 1};
    }
  }

  lemma ShareOfAll(b: nat, n: nat)
    requires b < n
    ensures Share(b, n) <= 0x8000_0000
    ensures Share(b, n) * n <= (b + 1) * 0x8000_0000 < (Share(b, n) + 1) * n
  {
    var y := (b + 1) * 0x8000_0000;
    assert y == (y / n) * n + y % n;
    BelowQuotient(0x8000_0000, y, n);
    assert (b + 1) * 0x8000_0000 <= n * 0x8000_0000;
  }

  /** From bucket b a share of (b + 1)/n of all values of the top bits, up to less than one value, goes to n or beyond:
      the others move on inside the first n buckets. */
  lemma BeyondCounted(b: nat, n: nat)
    requires b < n
    ensures |TopBitsBeyond(b, n)| * n <= (b + 1) * 0x8000_0000 < (|TopBitsBeyond(b, n)| + 1) * n
  {
    ShareOfAll(b, n);
    forall t: nat
      ensures t in TopBitsBeyond(b, n) <==> t < Share(b, n)
    {
      if t < 0x8000_0000 {
        NextBeyondIff(t * 0x2_0000_0000, b, n);
        assert t * 0x2_0000_0000 / 0x2_0000_0000 == t;
      }
    }
    SmallestCount(TopBitsBeyond(b, n), Share(b, n));
  }

  /** The low bits do not matter. */
  lemma OnlyTopBits(key: nat, b: nat, n: nat)
    requires key < 0x1_0000_0000_0000_0000 && n > 0
    ensures NextJump(EXACT, key, b) >= n <==> key / 0x2_0000_0000 in TopBitsBeyond(b, n)
  {
    var t := key / 0x2_0000_0000;
    NextBeyondIff(key, b, n);
    NextBeyondIff(t * 0x2_0000_0000, b, n);
    assert t * 0x2_0000_0000 / 0x2_0000_0000 == t;
  }

  // ----- why that balances the buckets -----

  /** The part of all keys that ever land in bucket b, when from each bucket a the share (a + 1)/n goes to n or
      beyond, for every n. */
  function Landing(b: nat): real
    decreases b, 1
  {
    if b == 0 then 1.0 else LandingFrom(b, b)
  }

  /** Those of them that come from one of the first c buckets. */
  function LandingFrom(b: nat, c: nat): real
    requires c <= b && b > 0
    decreases b, 0, c
  {
    if c == 0 then 0.0
    else LandingFrom(b, c - 1) + Landing(c - 1) * (c as real / b as real - c as real / (b + 1) as real)
  }

  lemma ShareDifference(c: real, b: real, x: real)
    requires c > 0.0 && b > 0.0 && x == 1.0 / c
    ensures x * (c / b - c / (b + 1.0)) == 1.0 / b - 1.0 / (b + 1.0)
  {
    assert x * (c / b) == 1.0 / b;
    assert x * (c / (b + 1.0)) == 1.0 / (b + 1.0);
  }

  lemma {:induction false} LandingFromIs(b: nat, c: nat)
    requires c <= b && b > 0
    ensures LandingFrom(b, c) == c as real * (1.0 / b as real - 1.0 / (b + 1) as real)
    decreases b, 0, c
  {
    if c > 0 {
      LandingFromIs(b, c - 1);
      LandingIs(c - 1);
      ShareDifference(c as real, b as real, Landing(c - 1));
    }
  }

  lemma Telescoped(b: real)
    requires b > 0.0
    ensures b * (1.0 / b - 1.0 / (b + 1.0)) == 1.0 / (b + 1.0)
  {
    assert b * (1.0 / b) == 1.0;
    assert b * (1.0 / (b + 1.0)) == b / (b + 1.0);
  }

  /** One key in b + 1 lands in bucket b at some time. */
  lemma {:induction false} LandingIs(b: nat)
    ensures Landing(b) == 1.0 / (b + 1) as real
    decreases b, 1
  {
    if b > 0 {
      LandingFromIs(b, b);
      Telescoped(b as real);
    }
  }

  /** With these shares the hash is balanced: of n buckets each is the last landing of one key in n. */
  lemma SharesBalance(b: nat, n: nat)
    requires b < n
    ensures Landing(b) * ((b + 1) as real / n as real) == 1.0 / n as real
  {
    LandingIs(b);
    var x, c := Landing(b), (b + 1) as real;
    assert x * c == 1.0;
    assert x * (c / n as real) == (x * c) / n as real;
  }

  // ----- the keys -----

  function Power(i: nat): nat {
    if i == 0 then 1 else 2862933555777941757 * Power(i - 1)
  }

  lemma MultiplyModulo(x: int, y: int, m: int)
    requires m > 0 && (x - y) % m == 0
    ensures (2862933555777941757 * x + 1) % m == (2862933555777941757 * y + 1) % m
  {
    var k := (x - y) / m;
    assert x - y == k * m;
    var j := 2862933555777941757 * k;
    assert 2862933555777941757 * x + 1 == 2862933555777941757 * y + 1 + j * m;
    AddMultiple(2862933555777941757 * y + 1, j, m);
  }

  lemma AddMultiple(x: int, j: int, m: int)
    requires m > 0
    ensures (x + j * m) % m == x % m
  {
    var q, r := x / m, x % m;
    assert x + j * m == (q + j) * m + r;
    RemainderIs(x + j * m, q + j, r, m);
  }

  lemma RemainderIs(x: int, q: int, r: int, m: int)
    requires m > 0 && x == q * m + r && 0 <= r < m
    ensures x % m == r
  {
    var q', r' := x / m, x % m;
    assert (q - q') * m == r' - r;
    assert q - q' >= 1 ==> (q - q') * m >= m;
    assert q - q' <= -1 ==> (q - q') * m <= -m;
  }

  lemma ClosedStep(a: int, p: int, key: int, sum: int)
    requires (a - 1) * sum == p - 1
    ensures (a - 1) * (a * sum + 1) == a * p - 1
    ensures a * (p * key + sum) + 1 == (a * p) * key + (a * sum + 1)
  {
    assert (a - 1) * (a * sum + 1) == a * ((a - 1) * sum) + (a - 1);
    assert a * (p * key + sum) == (a * p) * key + a * sum;
  }

  lemma NextKeyOf(k: nat, y: nat)
    requires k == y % 0x1_0000_0000_0000_0000
    ensures NextKey(k) == (2862933555777941757 * y + 1) % 0x1_0000_0000_0000_0000
  {
    var q := y / 0x1_0000_0000_0000_0000;
    assert k - y == -q * 0x1_0000_0000_0000_0000;
    MultiplyModulo(k, y, 0x1_0000_0000_0000_0000);
  }

  /** k is p times the key and the geometric sum of the powers before p, modulo 2^64. */
  ghost predicate Closed(k: nat, key: nat, p: nat, sum: nat) {
    && (2862933555777941757 - 1) * sum == p - 1
    && k == (p * key + sum) % 0x1_0000_0000_0000_0000
  }

  lemma NextKeyClosed(k: nat, key: nat, p: nat, sum: nat)
    requires Closed(k, key, p, sum)
    ensures Closed(NextKey(k), key, 2862933555777941757 * p, 2862933555777941757 * sum + 1)
  {
    var y := p * key + sum;
    NextKeyOf(k, y);
    ClosedStep(2862933555777941757, p, key, sum);
  }

  lemma {:induction false} KeyIsClosed(key: nat, i: nat) returns (sum: nat)
    requires key < 0x1_0000_0000_0000_0000
    ensures Closed(KeyAt(key, i), key, Power(i), sum)
  {
    if i == 0 {
      sum := 0;
    } else {
      var before := KeyIsClosed(key, i - 1);
      sum := 2862933555777941757 * before + 1;
      NextKeyClosed(KeyAt(key, i - 1), key, Power(i - 1), before);
    }
  }

  /** The i-th key in closed form: the power of the multiplier times the key, and the geometric sum of the powers
      before it, modulo 2^64. */
  lemma KeyClosed(key: nat, i: nat) returns (sum: nat)
    requires key < 0x1_0000_0000_0000_0000
    ensures (2862933555777941757 - 1) * sum == Power(i) - 1
    ensures KeyAt(key, i) == (Power(i) * key + sum) % 0x1_0000_0000_0000_0000
  {
    sum := KeyIsClosed(key, i);
  }
}
