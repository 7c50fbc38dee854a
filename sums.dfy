/** Finite sums over integer ranges, the arithmetic behind the convolution
    (`Iterator::sum` over a window of products) and behind the counting of
    dice outcomes. */
module Sums {

  /** The sum of f(x) for lo <= x < hi (zero for an empty range). */
  ghost function Sum(lo: int, hi: int, f: int -> int): int
    decreases hi - lo
  {
    if hi <= lo then 0 else Sum(lo, hi - 1, f) + f(hi - 1)
  }

  lemma {:induction false} SumExt(lo: int, hi: int, f: int -> int, g: int -> int)
    requires forall x :: lo <= x < hi ==> f(x) == g(x)
    ensures Sum(lo, hi, f) == Sum(lo, hi, g)
    decreases hi - lo
  {
    if lo < hi {
      SumExt(lo, hi - 1, f, g);
    }
  }

  lemma {:induction false} SumZero(lo: int, hi: int, f: int -> int)
    requires forall x :: lo <= x < hi ==> f(x) == 0
    ensures Sum(lo, hi, f) == 0
    decreases hi - lo
  {
    if lo < hi {
      SumZero(lo, hi - 1, f);
    }
  }

  lemma {:induction false} SumNonneg(lo: int, hi: int, f: int -> int)
    requires forall x :: lo <= x < hi ==> f(x) >= 0
    ensures Sum(lo, hi, f) >= 0
    decreases hi - lo
  {
    if lo < hi {
      SumNonneg(lo, hi - 1, f);
    }
  }

  lemma {:induction false} SumSplit(lo: int, mid: int, hi: int, f: int -> int)
    requires lo <= mid <= hi
    ensures Sum(lo, hi, f) == Sum(lo, mid, f) + Sum(mid, hi, f)
    decreases hi - mid
  {
    if mid < hi {
      SumSplit(lo, mid, hi - 1, f);
    }
  }

  /** Terms outside [a, b) that are zero can be dropped. */
  lemma SumTrim(lo: int, hi: int, a: int, b: int, f: int -> int)
    requires lo <= a <= b <= hi
    requires forall x :: lo <= x < a ==> f(x) == 0
    requires forall x :: b <= x < hi ==> f(x) == 0
    ensures Sum(lo, hi, f) == Sum(a, b, f)
  {
    SumSplit(lo, a, hi, f);
    SumSplit(a, b, hi, f);
    SumZero(lo, a, f);
    SumZero(b, hi, f);
  }

  /** Two ranges give the same sum when the terms they do not share are zero. */
  lemma SumSameSupport(lo: int, hi1: int, hi2: int, f: int -> int)
    requires lo <= hi1 && lo <= hi2
    requires forall x :: hi1 <= x < hi2 ==> f(x) == 0
    requires forall x :: hi2 <= x < hi1 ==> f(x) == 0
    ensures Sum(lo, hi1, f) == Sum(lo, hi2, f)
  {
    if hi1 <= hi2 {
      SumTrim(lo, hi2, lo, hi1, f);
    } else {
      SumTrim(lo, hi1, lo, hi2, f);
    }
  }

  lemma SumSingle(lo: int, hi: int, c: int, f: int -> int)
    requires lo <= c < hi
    requires forall x :: lo <= x < hi && x != c ==> f(x) == 0
    ensures Sum(lo, hi, f) == f(c)
  {
    SumTrim(lo, hi, c, c + 1, f);
  }

  /** The pointwise sum of f and g. */
  ghost function Plus(f: int -> int, g: int -> int): int -> int {
    x => f(x) + g(x)
  }

  /** f scaled by the constant c. */
  ghost function Scaled(c: int, f: int -> int): int -> int {
    x => c * f(x)
  }

  /** The constant function c. */
  ghost function Const(c: int): int -> int {
    x => c
  }

  /** f with its argument moved by c. */
  ghost function Shift(f: int -> int, c: int): int -> int {
    x => f(x + c)
  }

  /** Equal factors give equal products (stated once so that proofs about
      sums need not rediscover it). */
  lemma MulCongruence(a: int, a': int, b: int, b': int)
    requires a == a' && b == b'
    ensures a * b == a' * b' && a * b == b' * a'
  {
  }

  lemma {:induction false} SumPlus(lo: int, hi: int, f: int -> int, g: int -> int)
    ensures Sum(lo, hi, Plus(f, g)) == Sum(lo, hi, f) + Sum(lo, hi, g)
    decreases hi - lo
  {
    if lo < hi {
      SumPlus(lo, hi - 1, f, g);
    }
  }

  lemma {:induction false} SumScale(lo: int, hi: int, c: int, f: int -> int)
    ensures Sum(lo, hi, Scaled(c, f)) == c * Sum(lo, hi, f)
    decreases hi - lo
  {
    if lo < hi {
      SumScale(lo, hi - 1, c, f);
      assert c * (Sum(lo, hi - 1, f) + f(hi - 1)) == c * Sum(lo, hi - 1, f) + c * f(hi - 1);
    }
  }

  lemma {:induction false} SumConst(lo: int, hi: int, c: int)
    requires lo <= hi
    ensures Sum(lo, hi, Const(c)) == c * (hi - lo)
    decreases hi - lo
  {
    if lo < hi {
      SumConst(lo, hi - 1, c);
    }
  }

  lemma {:induction false} SumShift(lo: int, hi: int, c: int, f: int -> int)
    ensures Sum(lo, hi, Shift(f, c)) == Sum(lo + c, hi + c, f)
    decreases hi - lo
  {
    if lo < hi {
      SumShift(lo, hi - 1, c, f);
    }
  }

  /** f read backwards over [lo, hi). */
  ghost function Reversed(lo: int, hi: int, f: int -> int): int -> int {
    x => f(lo + hi - 1 - x)
  }

  /** Summing in reverse order gives the same total. */
  lemma {:induction false} SumReflect(lo: int, hi: int, f: int -> int)
    ensures Sum(lo, hi, f) == Sum(lo, hi, Reversed(lo, hi, f))
    decreases hi - lo
  {
    if lo < hi {
      var g := Reversed(lo, hi, f);
      var h := Reversed(lo + 1, hi, f);
      // Sum(lo, hi, g) == Sum(lo, hi - 1, g) + f(lo)
      SumExt(lo, hi - 1, g, Shift(h, 1));
      SumShift(lo, hi - 1, 1, h);
      SumReflect(lo + 1, hi, f);
      SumSplit(lo, lo + 1, hi, f);
    }
  }

  /** Row x of a table f: y => f(x, y). */
  ghost function Row(f: (int, int) -> int, x: int): int -> int {
    y => f(x, y)
  }

  /** Column y of a table f: x => f(x, y). */
  ghost function Column(f: (int, int) -> int, y: int): int -> int {
    x => f(x, y)
  }

  /** The row sums of f over columns [lo, hi). */
  ghost function RowSums(lo: int, hi: int, f: (int, int) -> int): int -> int {
    x => Sum(lo, hi, Row(f, x))
  }

  /** The column sums of f over rows [lo, hi). */
  ghost function ColumnSums(lo: int, hi: int, f: (int, int) -> int): int -> int {
    y => Sum(lo, hi, Column(f, y))
  }

  /** Finite sums can be taken in either order. */
  lemma {:induction false} SumSwap(lo1: int, hi1: int, lo2: int, hi2: int, f: (int, int) -> int)
    ensures Sum(lo1, hi1, RowSums(lo2, hi2, f)) == Sum(lo2, hi2, ColumnSums(lo1, hi1, f))
    decreases hi1 - lo1
  {
    if hi1 <= lo1 {
      SumZero(lo2, hi2, ColumnSums(lo1, hi1, f));
    } else {
      SumSwap(lo1, hi1 - 1, lo2, hi2, f);
      var inner := ColumnSums(lo1, hi1 - 1, f);
      var last := Row(f, hi1 - 1);
      SumPlus(lo2, hi2, inner, last);
      SumExt(lo2, hi2, Plus(inner, last), ColumnSums(lo1, hi1, f));
    }
  }
}
