/** Machine words, options and bit masks shared by the other modules. */
module Words {

  const TWO64: nat := 0x1_0000_0000_0000_0000
  const TWO32: nat := 0x1_0000_0000

  type U64 = n: nat | n < TWO64
  type U32 = n: nat | n < TWO32
  type Byte = n: nat | n < 256

  datatype Option<+T> = None | Some(value: T)

  /** Unsigned 64-bit addition and subtraction, which wrap. */
  function Add64(a: U64, b: nat): U64 { (a + b) % TWO64 }

  function Sub64(a: U64, b: U64): U64 { if b <= a then a - b else a - b + TWO64 }

  /** Adding the wrapped distance to an unwrapped position lands on the wrapped target. */
  lemma UnwrapLands(base: nat, target: U64)
    ensures (base + Sub64(target, base % TWO64)) % TWO64 == target
  {
    var q, m := base / TWO64, base % TWO64;
    assert base == q * TWO64 + m;
    var d := Sub64(target, m);
    if m <= target {
      assert base + d == q * TWO64 + target;
    } else {
      assert base + d == (q + 1) * TWO64 + target;
    }
  }

  /** Moving an unwrapped position forward by k < 2^64 moves its wrapped image a distance of k. */
  lemma AdvanceDistance(base: nat, k: U64)
    ensures Add64(base % TWO64, k) == (base + k) % TWO64
    ensures Sub64((base + k) % TWO64, base % TWO64) == k
  {
    var q, m := base / TWO64, base % TWO64;
    assert base == q * TWO64 + m;
    if m + k < TWO64 {
      assert base + k == q * TWO64 + (m + k);
    } else {
      assert base + k == (q + 1) * TWO64 + (m + k - TWO64);
    }
  }

  lemma AddAdd64(a: U64, b: nat, c: nat)
    ensures Add64(Add64(a, b), c) == Add64(a, b + c) && Add64(a, 0) == a
  {
    var q := (a + b) / TWO64;
    assert a + b == q * TWO64 + (a + b) % TWO64;
    assert a + b + c == q * TWO64 + ((a + b) % TWO64 + c);
  }

  lemma AddMod32(a: nat, b: nat)
    ensures (a % TWO32 + b) % TWO32 == (a + b) % TWO32
  {
    var q := a / TWO32;
    assert a + b == q * TWO32 + (a % TWO32 + b);
  }

  function Reals(xs: seq<nat>): (rs: seq<real>)
    ensures |rs| == |xs|
  {
    seq(|xs|, i requires 0 <= i < |xs| => xs[i] as real)
  }

  /** The `&` of two unsigned numbers. */
  function BitAnd(x: nat, m: nat): (r: nat)
    ensures r <= m && r <= x
  {
    if x == 0 || m == 0 then 0
    else 2 * BitAnd(x / 2, m / 2) + (if x % 2 == 1 && m % 2 == 1 then 1 else 0)
  }

  predicate PowerOfTwo(n: nat) {
    n == 1 || (n > 1 && n % 2 == 0 && PowerOfTwo(n / 2))
  }

  /** Masking with size - 1 wraps once around a ring whose size is a power of two. */
  lemma {:induction false} MaskWraps(x: nat, size: nat)
    requires PowerOfTwo(size) && x < 2 * size
    ensures BitAnd(x, size - 1) == if x < size then x else x - size
  {
    if size == 1 {
    } else if x == 0 {
    } else {
      MaskWraps(x / 2, size / 2);
      assert (size - 1) / 2 == size / 2 - 1;
    }
  }

  /** The lowest bit that is clear in m. */
  function LowestClear(m: nat): (p: nat)
    ensures p >= 1
  {
    if m % 2 == 0 then 1 else 2 * LowestClear(m / 2)
  }

  lemma {:induction false} LowestClearBound(m: nat)
    ensures LowestClear(m) <= m + 1
    ensures PowerOfTwo(m + 1) ==> LowestClear(m) == m + 1
  {
    if m % 2 == 1 {
      LowestClearBound(m / 2);
      assert (m + 1) / 2 == m / 2 + 1;
    }
  }

  lemma {:induction false} LowestClearIsPower(m: nat)
    ensures PowerOfTwo(LowestClear(m))
  {
    if m % 2 == 1 {
      LowestClearIsPower(m / 2);
    }
  }

  /** Below the lowest clear bit nothing is masked out. */
  lemma {:induction false} MaskKeepsBelow(x: nat, m: nat)
    requires x < LowestClear(m)
    ensures BitAnd(x, m) == x
  {
    if m % 2 == 1 {
      MaskKeepsBelow(x / 2, m / 2);
    }
  }

  lemma {:induction false} MaskTwice(x: nat, m: nat)
    ensures BitAnd(BitAnd(x, m), m) == BitAnd(x, m)
  {
    if x != 0 && m != 0 {
      MaskTwice(x / 2, m / 2);
    }
  }

  lemma {:induction false} LowestClearMasksOut(m: nat)
    ensures BitAnd(LowestClear(m), m) == 0
  {
    if m % 2 == 0 {
    } else {
      LowestClearMasksOut(m / 2);
      assert LowestClear(m) / 2 == LowestClear(m / 2);
    }
  }

  /** Only a mask of the form 2^k - 1 has no clear bit below its own magnitude. */
  lemma {:induction false} LowestClearInside(m: nat)
    requires !PowerOfTwo(m + 1)
    ensures LowestClear(m) < m
  {
    if m % 2 == 0 {
    } else {
      assert (m + 1) / 2 == m / 2 + 1;
      LowestClearInside(m / 2);
    }
  }
}
