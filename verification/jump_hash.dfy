/** Jump consistent hash. The double arithmetic is real arithmetic followed by a rounding; everything
    here holds for every rounding that is monotone and exact on the integers a double represents. */
module JumpHash {

  const WORD := 0x1_0000_0000_0000_0000
  const TWO31 := 0x8000_0000
  const TWO33 := 0x2_0000_0000
  const TWO53 := 0x20_0000_0000_0000
  const TWO62 := 0x4000_0000_0000_0000

  ghost predicate Monotone(rnd: real -> real) {
    forall x, y :: x <= y ==> rnd(x) <= rnd(y)
  }

  ghost predicate ExactAt(rnd: real -> real, i: int) {
    rnd(i as real) == i as real
  }

  ghost predicate ExactOnIntegers(rnd: real -> real) {
    (forall i :: -TWO53 <= i <= TWO53 ==> ExactAt(rnd, i)) && ExactAt(rnd, TWO62)
  }

  ghost predicate Rounds(rnd: real -> real) {
    Monotone(rnd) && ExactOnIntegers(rnd)
  }

  /** Exact real arithmetic is one such rounding. */
  type Rounding = rnd: real -> real | Rounds(rnd) witness x => x

  /** One step of the linear congruential generator on 64-bit words. */
  function NextKey(key: nat): (k: nat)
    ensures k < WORD
  {
    (key * 2862933555777941757 + 1) % WORD
  }

  /** One more than the top 31 bits of a 64-bit key. */
  function Divisor(key: nat): (d: nat)
    requires key < WORD
    ensures 1 <= d <= TWO31
  {
    key / TWO33 + 1
  }

  /** The next jump from b: b + 1 times the quotient of 2^31 by the divisor of the key, both rounded as doubles are,
      without its fraction. */
  function NextJump(rnd: Rounding, key: nat, b: nat): int
    requires key < WORD
  {
    rnd((b + 1) as real * rnd(TWO31 as real / Divisor(key) as real)).Floor
  }

  lemma ProductRange(a: real, x: real, y: real, bound: real)
    requires 1.0 <= a <= bound && 1.0 <= x <= bound && y == a * x
    ensures a <= y <= bound * bound
  {
    assert a * (x - 1.0) >= 0.0;
    assert a * x <= bound * x;
    assert bound * x <= bound * bound;
  }

  lemma QuotientRange(t: real, d: real, q: real)
    requires 1.0 <= d <= t && q * d == t
    ensures 1.0 <= q <= t
  {
    if q < 1.0 {
      assert false;
    }
    assert q * (d - 1.0) >= 0.0;
  }

  lemma QuotientTimes(t: real, d: real)
    requires d >= 1.0
    ensures t / d * d == t
  {
  }

  lemma RoundedRange(rnd: Rounding, x: real, lo: int, hi: int)
    requires lo as real <= x <= hi as real && ExactAt(rnd, lo) && ExactAt(rnd, hi)
    ensures lo as real <= rnd(x) <= hi as real
  {
  }

  lemma RoundedProduct(rnd: Rounding, a: nat, x: real, y: real)
    requires 1 <= a <= TWO31 && 1.0 <= x <= TWO31 as real && y == a as real * x
    ensures a <= rnd(y).Floor <= TWO62
  {
    ProductRange(a as real, x, y, 2147483648.0);
    assert ExactAt(rnd, a);
    RoundedRange(rnd, y, a, TWO62);
  }

  /** Every jump goes forward, and stays within 64-bit integers. */
  lemma JumpGoesForward(rnd: Rounding, key: nat, b: nat)
    requires key < WORD && b < TWO31
    ensures b < NextJump(rnd, key, b) <= TWO62
  {
    var d := Divisor(key);
    var q := TWO31 as real / d as real;
    QuotientTimes(TWO31 as real, d as real);
    QuotientRange(TWO31 as real, d as real, q);
    RoundedRange(rnd, q, 1, TWO31);
    RoundedProduct(rnd, b + 1, rnd(q), (b + 1) as real * rnd(q));
  }

  /** The bucket found from bucket j on, for n buckets. */
  ghost function BucketFrom(rnd: Rounding, key: nat, j: nat, n: nat): nat
    requires j < n < TWO31
    decreases n - j
  {
    var k := NextKey(key);
    var next := NextJump(rnd, k, j);
    JumpGoesForward(rnd, k, j);
    if next >= n then j else BucketFrom(rnd, k, next, n)
  }

  ghost function Jump(rnd: Rounding, key: nat, n: int): int
    requires n < TWO31
  {
    if n <= 0 then -1 else BucketFrom(rnd, key, 0, n)
  }

  method JumpConsistentHash(rnd: Rounding, key0: nat, numBuckets: int) returns (b: int)
    requires key0 < WORD && -TWO31 <= numBuckets < TWO31
    ensures b == Jump(rnd, key0, numBuckets)
  {
    var key := key0;
    var j := 0;
    b := -1;
    while j < numBuckets
      invariant 0 <= j <= TWO62
      invariant j < numBuckets ==> Jump(rnd, key0, numBuckets) == BucketFrom(rnd, key, j, numBuckets)
      invariant j >= numBuckets ==> b == Jump(rnd, key0, numBuckets)
      decreases numBuckets - j
    {
      JumpGoesForward(rnd, NextKey(key), j);
      b := j;
      key := NextKey(key);
      j := NextJump(rnd, key, b);
    }
  }

  // ----- what the hash is for -----

  lemma {:induction false} BucketRange(rnd: Rounding, key: nat, j: nat, n: nat)
    requires j < n < TWO31
    ensures j <= BucketFrom(rnd, key, j, n) < n
    decreases n - j
  {
    var k := NextKey(key);
    JumpGoesForward(rnd, k, j);
    if NextJump(rnd, k, j) < n {
      BucketRange(rnd, k, NextJump(rnd, k, j), n);
    }
  }

  lemma JumpInRange(rnd: Rounding, key: nat, n: int)
    requires 1 <= n < TWO31
    ensures 0 <= Jump(rnd, key, n) < n
  {
    BucketRange(rnd, key, 0, n);
  }

  lemma {:induction false} BucketsGrow(rnd: Rounding, key: nat, j: nat, n: nat, m: nat)
    requires j < n <= m < TWO31
    ensures BucketFrom(rnd, key, j, m) == BucketFrom(rnd, key, j, n) || BucketFrom(rnd, key, j, m) >= n
    decreases n - j
  {
    var k := NextKey(key);
    JumpGoesForward(rnd, k, j);
    var next := NextJump(rnd, k, j);
    if next < n {
      BucketsGrow(rnd, k, next, n, m);
    } else if next < m {
      BucketRange(rnd, k, next, m);
    }
  }

  /** Minimal movement: with more buckets a key stays where it was or moves to a new bucket. */
  lemma MinimalMovement(rnd: Rounding, key: nat, n: int, m: int)
    requires 1 <= n <= m < TWO31
    ensures Jump(rnd, key, m) == Jump(rnd, key, n) || n <= Jump(rnd, key, m) < m
    ensures Jump(rnd, key, m) < n ==> Jump(rnd, key, n) == Jump(rnd, key, m)
    ensures m == n + 1 ==> Jump(rnd, key, m) == Jump(rnd, key, n) || Jump(rnd, key, m) == n
  {
    BucketsGrow(rnd, key, 0, n, m);
    JumpInRange(rnd, key, n);
    JumpInRange(rnd, key, m);
  }

  // ----- the buckets a key ever jumps to -----

  function KeyAt(key: nat, i: nat): (k: nat)
    ensures i > 0 ==> k < WORD
  {
    if i == 0 then key else NextKey(KeyAt(key, i - 1))
  }

  /** Where the i-th jump lands; no bucket number reaches 2^31, so landings from there on are all alike. */
  ghost function JumpAt(rnd: Rounding, key: nat, i: nat): nat
  {
    if i == 0 then 0
    else if JumpAt(rnd, key, i - 1) >= TWO31 then TWO31
    else
      JumpGoesForward(rnd, KeyAt(key, i), JumpAt(rnd, key, i - 1));
      NextJump(rnd, KeyAt(key, i), JumpAt(rnd, key, i - 1))
  }

  lemma JumpAtStep(rnd: Rounding, key: nat, i: nat)
    requires JumpAt(rnd, key, i) < TWO31
    ensures KeyAt(key, i + 1) == NextKey(KeyAt(key, i))
    ensures JumpAt(rnd, key, i + 1) == NextJump(rnd, KeyAt(key, i + 1), JumpAt(rnd, key, i)) > JumpAt(rnd, key, i)
  {
    JumpGoesForward(rnd, KeyAt(key, i + 1), JumpAt(rnd, key, i));
  }

  /** One turn of the loop, seen from the jump sequence. */
  lemma JumpTurn(rnd: Rounding, key: nat, i: nat, n: nat) returns (next: nat)
    requires JumpAt(rnd, key, i) < n < TWO31
    ensures next == JumpAt(rnd, key, i + 1) > JumpAt(rnd, key, i)
    ensures BucketFrom(rnd, KeyAt(key, i), JumpAt(rnd, key, i), n)
            == if next >= n then JumpAt(rnd, key, i) else BucketFrom(rnd, KeyAt(key, i + 1), next, n)
  {
    JumpAtStep(rnd, key, i);
    next := JumpAt(rnd, key, i + 1);
  }

  lemma {:induction false} BucketIsAJump(rnd: Rounding, key: nat, i: nat, n: nat) returns (last: nat)
    requires JumpAt(rnd, key, i) < n < TWO31
    ensures BucketFrom(rnd, KeyAt(key, i), JumpAt(rnd, key, i), n) == JumpAt(rnd, key, last)
    ensures JumpAt(rnd, key, last) < n <= JumpAt(rnd, key, last + 1)
    decreases n - JumpAt(rnd, key, i)
  {
    var next := JumpTurn(rnd, key, i, n);
    if next < n {
      last := BucketIsAJump(rnd, key, i + 1, n);
    } else {
      last := i;
    }
  }

  /** The bucket for n is the last landing below n of one jump sequence that does not depend on n. */
  lemma JumpIsLastLanding(rnd: Rounding, key: nat, n: int) returns (last: nat)
    requires 1 <= n < TWO31
    ensures Jump(rnd, key, n) == JumpAt(rnd, key, last) < n <= JumpAt(rnd, key, last + 1)
  {
    last := BucketIsAJump(rnd, key, 0, n);
  }
}
