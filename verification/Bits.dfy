/** Options, powers of two and the bit operations on unsigned words that the
    kernel applies to frame indices: `>>`, `next_power_of_two`, `lowest_one`
    and `highest_one`. */
module Bits {

  datatype Option<+T> = None | Some(value: T)

  predicate Between(lo: int, x: int, hi: int)
  {
    lo <= x < hi
  }

  /** The numbers lo, lo + 1, ..., hi - 1. */
  function Interval(lo: nat, hi: nat): (r: set<nat>)
    ensures forall x: nat :: x in r <==> lo <= x < hi
  {
    set x: nat | lo <= x < hi && Between(lo, x, hi)
  }

  lemma {:induction false} IntervalSize(lo: nat, hi: nat)
    requires lo <= hi
    ensures |Interval(lo, hi)| == hi - lo
    decreases hi
  {
    if lo < hi {
      IntervalSize(lo, hi - 1);
      assert Interval(lo, hi) == Interval(lo, hi - 1) + {hi - 1};
    }
  }

  function Pow2(n: nat): (r: nat)
    ensures r >= 1
  {
    if n == 0 then 1 else 2 * Pow2(n - 1)
  }

  /** `x << n` */
  function Shl(x: nat, n: nat): (r: nat)
    ensures r >= x
  {
    if n == 0 then x else 2 * Shl(x, n - 1)
  }

  /** `x >> n` */
  function Shr(x: nat, n: nat): nat
  {
    if n == 0 then x else Shr(x, n - 1) / 2
  }

  /** `usize::next_power_of_two`: 0 and 1 both give 1. */
  function NextPowerOfTwo(n: nat): (r: nat)
    ensures r >= 1
  {
    if n <= 1 then 1 else 2 * NextPowerOfTwo((n + 1) / 2)
  }

  /** Position of the lowest set bit. */
  function LowestOne(x: nat): (r: nat)
    requires x > 0
  {
    if x % 2 == 1 then 0 else 1 + LowestOne(x / 2)
  }

  /** Position of the highest set bit. */
  function HighestOne(x: nat): (r: nat)
    requires x > 0
    ensures Pow2(r) <= x < 2 * Pow2(r)
  {
    if x == 1 then 0 else 1 + HighestOne(x / 2)
  }

  /** The level of the smallest chunk with at least `n` pages. */
  function CeilLog2(n: nat): (r: nat)
  {
    LowestOne(NextPowerOfTwo(n))
  }

  lemma {:induction false} Pow2Monotone(a: nat, b: nat)
    requires a <= b
    ensures Pow2(a) <= Pow2(b)
    ensures a < b ==> 2 * Pow2(a) <= Pow2(b)
  {
    if a < b {
      Pow2Monotone(a, b - 1);
    }
  }

  lemma {:induction false} ShrAdd(x: nat, a: nat, b: nat)
    ensures Shr(x, a + b) == Shr(Shr(x, a), b)
  {
    if b > 0 {
      ShrAdd(x, a, b - 1);
    }
  }

  lemma {:induction false} ShlSum(x: nat, y: nat, n: nat)
    ensures Shl(x + y, n) == Shl(x, n) + Shl(y, n)
  {
    if n > 0 {
      ShlSum(x, y, n - 1);
    }
  }

  lemma {:induction false} ShlAdd(x: nat, a: nat, b: nat)
    ensures Shl(x, a + b) == Shl(Shl(x, a), b)
  {
    if b > 0 {
      ShlAdd(x, a, b - 1);
    }
  }

  lemma {:induction false} ShlOne(n: nat)
    ensures Shl(1, n) == Pow2(n)
    ensures Shl(0, n) == 0
  {
    if n > 0 {
      ShlOne(n - 1);
    }
  }

  lemma ShlNext(x: nat, n: nat)
    ensures Shl(x + 1, n) == Shl(x, n) + Pow2(n)
  {
    ShlSum(x, 1, n);
    ShlOne(n);
  }

  lemma ShlMonotone(x: nat, y: nat, n: nat)
    requires x <= y
    ensures Shl(x, n) <= Shl(y, n)
    ensures x < y ==> Shl(x, n) + Pow2(n) <= Shl(y, n)
  {
  }

  /** `x >> n` is the quotient by 2^n. */
  lemma {:induction false} ShrBounds(x: nat, n: nat)
    ensures Shl(Shr(x, n), n) <= x < Shl(Shr(x, n), n) + Pow2(n)
  {
    if n > 0 {
      ShrBounds(x, n - 1);
      var s, t := Shr(x, n - 1), Shr(x, n);
      ShlSum(t, t, n - 1);
      ShlNext(t + t, n - 1);
    }
  }

  /** The quotient is the only index whose 2^n-aligned block holds `x`. */
  lemma ShrUnique(x: nat, n: nat, i: nat)
    requires Shl(i, n) <= x < Shl(i, n) + Pow2(n)
    ensures Shr(x, n) == i
  {
    ShrBounds(x, n);
    if Shr(x, n) < i {
      ShlMonotone(Shr(x, n), i, n);
    } else {
      ShlMonotone(i, Shr(x, n), n);
    }
  }

  /** Shifting back what was shifted out of zeros. */
  lemma ShrShl(i: nat, n: nat)
    ensures Shr(Shl(i, n), n) == i
  {
    ShrUnique(Shl(i, n), n, i);
  }

  /** The level `pick_off_contiguous` computes: the next power of two is
      2^level, and level is the least with at least `n` pages. */
  lemma {:induction false} CeilLog2Spec(n: nat)
    ensures NextPowerOfTwo(n) == Pow2(CeilLog2(n)) >= n
    ensures n >= 2 ==> CeilLog2(n) >= 1 && Pow2(CeilLog2(n) - 1) < n
    ensures n <= 1 ==> CeilLog2(n) == 0
  {
    if n > 1 {
      var h := (n + 1) / 2;
      CeilLog2Spec(h);
    }
  }

  lemma {:induction false} CeilLog2Pow2(k: nat)
    ensures CeilLog2(Pow2(k)) == k
  {
    CeilLog2Least(Pow2(k), k);
    CeilLog2Spec(Pow2(k));
    if CeilLog2(Pow2(k)) < k {
      Pow2Monotone(CeilLog2(Pow2(k)), k);
    }
  }

  lemma CeilLog2Least(n: nat, k: nat)
    ensures CeilLog2(n) <= k <==> n <= Pow2(k)
  {
    CeilLog2Spec(n);
    if CeilLog2(n) <= k {
      Pow2Monotone(CeilLog2(n), k);
    } else {
      Pow2Monotone(k, CeilLog2(n) - 1);
    }
  }

  /** Two ranges of addresses have no byte in common. */
  predicate Apart(low: int, top: int, low': int, top': int)
  {
    top <= low' || top' <= low
  }

  /** `first_one` on the bits from `from` on. */
  method FirstOne(bits: array<bool>, from: nat) returns (r: Option<nat>)
    requires from <= bits.Length
    ensures r.None? ==> forall i :: from <= i < bits.Length ==> !bits[i]
    ensures r.Some? ==> from <= r.value < bits.Length && bits[r.value]
                        && forall i :: from <= i < r.value ==> !bits[i]
  {
    for i := from to bits.Length
      invariant forall j :: from <= j < i ==> !bits[j]
    {
      if bits[i] {
        return Some(i);
      }
    }
    return None;
  }

  /** `x` is a multiple of 2^n. */
  predicate Aligned(x: nat, n: nat)
  {
    x == Shl(Shr(x, n), n)
  }

  lemma ShlIsAligned(i: nat, n: nat)
    ensures Aligned(Shl(i, n), n)
  {
    ShrShl(i, n);
  }

  /** A multiple of 2^n is a multiple of every smaller power, an even one. */
  lemma AlignedSmaller(x: nat, n: nat, k: nat)
    requires Aligned(x, n) && k <= n
    ensures Aligned(x, k)
    ensures k < n ==> Shr(x, k) % 2 == 0
  {
    var i := Shl(Shr(x, n), n - k);
    ShlAdd(Shr(x, n), n - k, k);
    ShrShl(i, k);
  }

  lemma AlignedBelow(x: nat, n: nat)
    requires Aligned(x, n) && Pow2(n) <= x
    ensures Shr(x, n) >= 1 && Shr(x - Pow2(n), n) == Shr(x, n) - 1 && Aligned(x - Pow2(n), n)
  {
    ShlOne(n);
    ShlNext(Shr(x, n) - 1, n);
    ShrShl(Shr(x, n) - 1, n);
  }

  lemma HighestOneWithin(x: nat, k: nat)
    requires 0 < x < 2 * Pow2(k)
    ensures HighestOne(x) <= k
  {
  }
}
