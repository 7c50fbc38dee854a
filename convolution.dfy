/** The convolution of two count functions, as `Add for Distribution` in
    src/probability.rs uses it: a key missing from a map counts 0, the sum at
    s adds count_a[x] * count_b[s - x] over all x, and the source evaluates
    that sum only over a window of x, and only for the lower half of the
    sums, relying on symmetry for the upper half.

    The theory is stated for count functions `int -> int`; a map becomes
    one through `Counts`. */
module Convolution {
  import opened Sums

  /** `get(k).unwrap_or(0)`: the count at key k, 0 when k is not a key. */
  function Count(m: map<nat, int>, k: int): int {
    if k >= 0 && k in m then m[k] else 0
  }

  /** The counts of m as a function of the key. */
  ghost function Counts(m: map<nat, int>): int -> int {
    k => Count(m, k)
  }

  /** Every key of m lies in [lo, hi]. */
  ghost predicate Within(m: map<nat, int>, lo: int, hi: int) {
    forall k :: k in m ==> lo <= k <= hi
  }

  /** f is zero outside [lo, hi]. */
  ghost predicate Support(f: int -> int, lo: int, hi: int) {
    forall x :: x < lo || hi < x ==> f(x) == 0
  }

  /** The value of f at x equals its value at the mirror image of x in [lo, hi]. */
  ghost predicate Mirrored(f: int -> int, lo: int, hi: int, x: int) {
    f(x) == f(lo + hi - x)
  }

  /** f reads the same from both ends of [lo, hi]: f(lo + t) == f(hi - t). */
  ghost predicate Symmetric(f: int -> int, lo: int, hi: int) {
    forall x :: Mirrored(f, lo, hi, x)
  }

  /** The terms of the convolution at s, indexed by the first part's sum. */
  ghost function Terms(f: int -> int, g: int -> int, s: int): int -> int {
    x => f(x) * g(s - x)
  }

  /** The full convolution at s: the sum of f(x) * g(s - x) over every split
      0 <= x <= s of s into two non-negative parts. */
  ghost function ConvAt(f: int -> int, g: int -> int, s: int): int {
    Sum(0, s + 1, Terms(f, g, s))
  }

  /** The convolution of f and g as a function of the sum. */
  ghost function Convolved(f: int -> int, g: int -> int): int -> int {
    s => ConvAt(f, g, s)
  }

  /** The sum of f over [lo, hi]. */
  ghost function Total(f: int -> int, lo: int, hi: int): int {
    Sum(lo, hi + 1, f)
  }

  /** A map whose keys lie in [lo, hi] has its counts supported there. */
  lemma WithinSupport(m: map<nat, int>, lo: int, hi: int)
    requires Within(m, lo, hi)
    ensures Support(Counts(m), lo, hi)
  {
    forall x | x < lo || hi < x
      ensures Counts(m)(x) == 0
    {
      assert x !in m;
    }
  }

  /** A term vanishes where either factor does. */
  lemma TermZero(f: int -> int, g: int -> int, s: int, x: int)
    requires f(x) == 0 || g(s - x) == 0
    ensures Terms(f, g, s)(x) == 0
  {
  }

  /** The terms whose first part lies outside f's range are zero. */
  lemma VanishFirst(f: int -> int, alo: int, ahi: int, g: int -> int, s: int, lo: int, hi: int)
    requires Support(f, alo, ahi) && (hi <= alo || ahi < lo)
    ensures forall x :: lo <= x < hi ==> Terms(f, g, s)(x) == 0
  {
    forall x | lo <= x < hi
      ensures Terms(f, g, s)(x) == 0
    {
      assert f(x) == 0;
    }
  }

  /** The terms whose second part falls below g's range are zero. */
  lemma VanishSecond(f: int -> int, g: int -> int, blo: int, bhi: int, s: int, lo: int, hi: int)
    requires Support(g, blo, bhi) && s - lo < blo
    ensures forall x :: lo <= x < hi ==> Terms(f, g, s)(x) == 0
  {
    forall x | lo <= x < hi
      ensures Terms(f, g, s)(x) == 0
    {
      assert g(s - x) == 0;
    }
  }

  /** Below zero the convolution is the empty sum, and so is every term
      over f's range. */
  lemma ConvRangeNegative(f: int -> int, alo: nat, ahi: nat, g: int -> int, blo: nat, bhi: int, s: int)
    requires Support(g, blo, bhi) && s < 0
    ensures ConvAt(f, g, s) == Sum(alo, ahi + 1, Terms(f, g, s))
  {
    VanishSecond(f, g, blo, bhi, s, alo, ahi + 1);
    SumZero(alo, ahi + 1, Terms(f, g, s));
  }

  /** A sum s below f's top: the terms past s vanish in g, those below
      alo in f. */
  lemma ConvRangeShort(f: int -> int, alo: nat, ahi: nat, g: int -> int, blo: nat, bhi: int, s: int)
    requires alo <= ahi && Support(f, alo, ahi) && Support(g, blo, bhi) && 0 <= s < ahi
    ensures ConvAt(f, g, s) == Sum(alo, ahi + 1, Terms(f, g, s))
  {
    var t := Terms(f, g, s);
    var top := ahi + 1;
    assert Sum(s + 1, top, t) == 0 by {
      VanishSecond(f, g, blo, bhi, s, s + 1, top);
      SumZero(s + 1, top, t);
    }
    SumSplit(0, s + 1, top, t);
    assert Sum(0, top, t) == Sum(alo, top, t) by {
      VanishFirst(f, alo, ahi, g, s, 0, alo);
      VanishFirst(f, alo, ahi, g, s, top, top);
      SumTrim(0, top, alo, top, t);
    }
  }

  /** A sum s at or above f's top: the terms outside [alo, ahi] vanish in f. */
  lemma ConvRangeLong(f: int -> int, alo: nat, ahi: nat, g: int -> int, s: int)
    requires alo <= ahi <= s && Support(f, alo, ahi)
    ensures ConvAt(f, g, s) == Sum(alo, ahi + 1, Terms(f, g, s))
  {
    var t := Terms(f, g, s);
    VanishFirst(f, alo, ahi, g, s, 0, alo);
    VanishFirst(f, alo, ahi, g, s, ahi + 1, s + 1);
    SumTrim(0, s + 1, alo, ahi + 1, t);
  }

  /** Only the support of f matters: the convolution is the same sum
      restricted to f's range, when g vanishes below 0. */
  lemma ConvRange(f: int -> int, alo: nat, ahi: nat, g: int -> int, blo: nat, bhi: int, s: int)
    requires alo <= ahi && Support(f, alo, ahi)
    requires Support(g, blo, bhi)
    ensures ConvAt(f, g, s) == Sum(alo, ahi + 1, Terms(f, g, s))
  {
    if s < 0 {
      ConvRangeNegative(f, alo, ahi, g, blo, bhi, s);
    } else if s < ahi {
      ConvRangeShort(f, alo, ahi, g, blo, bhi, s);
    } else {
      ConvRangeLong(f, alo, ahi, g, s);
    }
  }

  /** Read backwards, the terms of f * g are the terms of g * f. */
  lemma ReversedTermsCommute(f: int -> int, g: int -> int, s: int, x: int)
    ensures Reversed(0, s + 1, Terms(f, g, s))(x) == Terms(g, f, s)(x)
  {
    var y := 0 + (s + 1) - 1 - x;
    assert y == s - x && s - y == x;
  }

  /** The convolution is commutative. */
  lemma ConvCommutes(f: int -> int, g: int -> int, s: int)
    ensures ConvAt(f, g, s) == ConvAt(g, f, s)
  {
    var t := Terms(f, g, s);
    SumReflect(0, s + 1, t);
    forall x | 0 <= x < s + 1
      ensures Reversed(0, s + 1, t)(x) == Terms(g, f, s)(x)
    {
      ReversedTermsCommute(f, g, s, x);
    }
    SumExt(0, s + 1, Reversed(0, s + 1, t), Terms(g, f, s));
  }

  /** The convolution is 0 outside [alo + blo, ahi + bhi]. */
  lemma ConvSupport(f: int -> int, alo: nat, ahi: nat, g: int -> int, blo: nat, bhi: nat)
    requires alo <= ahi && Support(f, alo, ahi)
    requires blo <= bhi && Support(g, blo, bhi)
    ensures Support(Convolved(f, g), alo + blo, ahi + bhi)
  {
    forall s | s < alo + blo || ahi + bhi < s
      ensures Convolved(f, g)(s) == 0
    {
      var t := Terms(f, g, s);
      forall x | 0 <= x < s + 1 ensures t(x) == 0 {
        TermZero(f, g, s, x);
      }
      SumZero(0, s + 1, t);
    }
  }

  /** At mirror images s1 and s2, the terms read backwards over f's range
      are the terms read forwards. */
  lemma ReflectedTerm(f: int -> int, alo: nat, ahi: nat, g: int -> int, blo: nat, bhi: nat, s1: int, s2: int, x: int)
    requires Symmetric(f, alo, ahi) && Symmetric(g, blo, bhi)
    requires s1 + s2 == alo + blo + ahi + bhi
    ensures Reversed(alo, ahi + 1, Terms(f, g, s1))(x) == Terms(f, g, s2)(x)
  {
    var y := alo + (ahi + 1) - 1 - x;
    assert Mirrored(f, alo, ahi, x);
    assert Mirrored(g, blo, bhi, s2 - x);
    assert alo + ahi - x == y && blo + bhi - (s2 - x) == s1 - y;
  }

  /** If both count functions are symmetric, the convolution takes the same
      value at mirror images s1 and s2 of [alo + blo, ahi + bhi]. */
  lemma ConvSymmetricAt(f: int -> int, alo: nat, ahi: nat, g: int -> int, blo: nat, bhi: nat, s1: int, s2: int)
    requires alo <= ahi && Support(f, alo, ahi) && Symmetric(f, alo, ahi)
    requires blo <= bhi && Support(g, blo, bhi) && Symmetric(g, blo, bhi)
    requires s1 + s2 == alo + blo + ahi + bhi
    ensures ConvAt(f, g, s1) == ConvAt(f, g, s2)
  {
    var t1 := Terms(f, g, s1);
    ConvRange(f, alo, ahi, g, blo, bhi, s1);
    ConvRange(f, alo, ahi, g, blo, bhi, s2);
    SumReflect(alo, ahi + 1, t1);
    forall x | alo <= x < ahi + 1
      ensures Reversed(alo, ahi + 1, t1)(x) == Terms(f, g, s2)(x)
    {
      ReflectedTerm(f, alo, ahi, g, blo, bhi, s1, s2, x);
    }
    SumExt(alo, ahi + 1, Reversed(alo, ahi + 1, t1), Terms(f, g, s2));
  }

  /** If both count functions are symmetric, so is their convolution, about
      the middle of [lo, hi] = [alo + blo, ahi + bhi]. */
  lemma ConvSymmetric(f: int -> int, alo: nat, ahi: nat, g: int -> int, blo: nat, bhi: nat, lo: int, hi: int)
    requires alo <= ahi && Support(f, alo, ahi) && Symmetric(f, alo, ahi)
    requires blo <= bhi && Support(g, blo, bhi) && Symmetric(g, blo, bhi)
    requires lo == alo + blo && hi == ahi + bhi
    ensures Symmetric(Convolved(f, g), lo, hi)
  {
    forall s
      ensures Mirrored(Convolved(f, g), lo, hi, s)
    {
      ConvSymmetricAt(f, alo, ahi, g, blo, bhi, s, lo + hi - s);
    }
  }

  /** All the products f(x) * g(s - x), by sum s and first part x. */
  ghost function TermTable(f: int -> int, g: int -> int): (int, int) -> int {
    (s, x) => f(x) * g(s - x)
  }

  lemma ColumnTerm(f: int -> int, g: int -> int, x: int, s: int)
    ensures Column(TermTable(f, g), x)(s) == Scaled(f(x), Shift(g, -x))(s)
  {
  }

  /** Shifting g by c over a range that covers g's shifted range keeps its
      total. */
  lemma ShiftedTotal(g: int -> int, blo: int, bhi: int, lo: int, hi: int, c: int)
    requires blo <= bhi && Support(g, blo, bhi)
    requires lo + c <= blo && bhi <= hi + c
    ensures Sum(lo, hi + 1, Shift(g, c)) == Total(g, blo, bhi)
  {
    SumShift(lo, hi + 1, c, g);
    SumTrim(lo + c, hi + 1 + c, blo, bhi + 1, g);
  }

  /** For a fixed first part x, the products over a range of sums wide
      enough to cover g's range add up to f(x) times g's total. */
  lemma ColumnTotal(f: int -> int, g: int -> int, blo: int, bhi: int, lo: int, hi: int, x: int)
    requires blo <= bhi && Support(g, blo, bhi)
    requires lo - x <= blo && bhi <= hi - x
    ensures Sum(lo, hi + 1, Column(TermTable(f, g), x)) == Scaled(Total(g, blo, bhi), f)(x)
  {
    var c := -x;
    var shifted := Shift(g, c);
    forall s | lo <= s < hi + 1
      ensures Column(TermTable(f, g), x)(s) == Scaled(f(x), shifted)(s)
    {
      ColumnTerm(f, g, x, s);
    }
    assert Sum(lo, hi + 1, Column(TermTable(f, g), x)) == f(x) * Sum(lo, hi + 1, shifted) by {
      SumExt(lo, hi + 1, Column(TermTable(f, g), x), Scaled(f(x), shifted));
      SumScale(lo, hi + 1, f(x), shifted);
    }
    ShiftedTotal(g, blo, bhi, lo, hi, c);
    MulCongruence(f(x), f(x), Sum(lo, hi + 1, shifted), Total(g, blo, bhi));
  }

  /** Row s of the table lists the terms of the convolution at s. */
  lemma RowTerm(f: int -> int, g: int -> int, s: int, x: int)
    ensures Row(TermTable(f, g), s)(x) == Terms(f, g, s)(x)
  {
  }

  /** The convolution over [lo, hi] is the sum of the same table of
      products, taken row by row. */
  lemma ConvolvedRows(f: int -> int, alo: nat, ahi: nat, g: int -> int, blo: nat, bhi: nat, lo: int, hi: int)
    requires alo <= ahi && Support(f, alo, ahi)
    requires Support(g, blo, bhi)
    ensures Sum(lo, hi + 1, Convolved(f, g)) == Sum(lo, hi + 1, RowSums(alo, ahi + 1, TermTable(f, g)))
  {
    forall s | lo <= s < hi + 1
      ensures Convolved(f, g)(s) == RowSums(alo, ahi + 1, TermTable(f, g))(s)
    {
      ConvRange(f, alo, ahi, g, blo, bhi, s);
      forall x | alo <= x < ahi + 1
        ensures Row(TermTable(f, g), s)(x) == Terms(f, g, s)(x)
      {
        RowTerm(f, g, s, x);
      }
      SumExt(alo, ahi + 1, Row(TermTable(f, g), s), Terms(f, g, s));
    }
    SumExt(lo, hi + 1, Convolved(f, g), RowSums(alo, ahi + 1, TermTable(f, g)));
  }

  /** Each column of the table adds up to f(x) times g's total. */
  lemma ColumnsTotal(f: int -> int, alo: int, ahi: int, g: int -> int, blo: int, bhi: int, lo: int, hi: int)
    requires alo <= ahi && blo <= bhi && Support(g, blo, bhi)
    requires lo == alo + blo && hi == ahi + bhi
    ensures Sum(alo, ahi + 1, ColumnSums(lo, hi + 1, TermTable(f, g))) == Total(g, blo, bhi) * Total(f, alo, ahi)
  {
    var tg := Total(g, blo, bhi);
    forall x | alo <= x < ahi + 1
      ensures ColumnSums(lo, hi + 1, TermTable(f, g))(x) == Scaled(tg, f)(x)
    {
      ColumnTotal(f, g, blo, bhi, lo, hi, x);
    }
    SumExt(alo, ahi + 1, ColumnSums(lo, hi + 1, TermTable(f, g)), Scaled(tg, f));
    SumScale(alo, ahi + 1, tg, f);
    MulCongruence(tg, Total(g, blo, bhi), Sum(alo, ahi + 1, f), Total(f, alo, ahi));
  }

  /** The convolution conserves the total: over [lo, hi] = [alo + blo,
      ahi + bhi] it adds up to the product of the totals of f and g. */
  lemma ConvTotal(f: int -> int, alo: nat, ahi: nat, g: int -> int, blo: nat, bhi: nat, lo: int, hi: int)
    requires alo <= ahi && Support(f, alo, ahi)
    requires blo <= bhi && Support(g, blo, bhi)
    requires lo == alo + blo && hi == ahi + bhi
    ensures Sum(lo, hi + 1, Convolved(f, g)) == Total(g, blo, bhi) * Total(f, alo, ahi)
  {
    ConvolvedRows(f, alo, ahi, g, blo, bhi, lo, hi);
    SumSwap(lo, hi + 1, alo, ahi + 1, TermTable(f, g));
    ColumnsTotal(f, alo, ahi, g, blo, bhi, lo, hi);
  }

  /** The sum `Add` computes for offset i of the result: over j < r, the
      count of `small` at smin + j times the count of `large` at
      lo + i - smin - j. The key is a `usize` in the source; it is a nat
      here, so the definition itself shows the subtraction never
      underflows when smin <= lo and j <= i. */
  function WindowSum(small: map<nat, int>, smin: nat, large: map<nat, int>, lo: nat, i: nat, r: nat): int
    requires smin <= lo && r <= i + 1
    decreases r
  {
    if r == 0 then 0
    else
      var j: nat := r - 1;
      var key: nat := (lo + i - smin) - j;
      WindowSum(small, smin, large, lo, i, r - 1) + Count(small, smin + j) * Count(large, key)
  }

  lemma {:induction false} WindowSumIsSum(small: map<nat, int>, smin: nat, large: map<nat, int>, lo: nat, i: nat, r: nat, s: int)
    requires smin <= lo && r <= i + 1 && s == lo + i
    ensures WindowSum(small, smin, large, lo, i, r) == Sum(smin, smin + r, Terms(Counts(small), Counts(large), s))
    decreases r
  {
    if r > 0 {
      WindowSumIsSum(small, smin, large, lo, i, r - 1, s);
    }
  }

  /** A window reaching past the top of f's range loses only zero terms. */
  lemma WindowCoversWide(f: int -> int, smin: nat, smax: nat, g: int -> int, lmin: nat, lmax: nat, s: int, end: int)
    requires smin <= smax < end && Support(f, smin, smax)
    requires Support(g, lmin, lmax)
    ensures Sum(smin, end, Terms(f, g, s)) == ConvAt(f, g, s)
  {
    var t := Terms(f, g, s);
    var top := smax + 1;
    assert ConvAt(f, g, s) == Sum(smin, top, t) by {
      ConvRange(f, smin, smax, g, lmin, lmax, s);
    }
    assert Sum(top, end, t) == 0 by {
      VanishFirst(f, smin, smax, g, s, top, end);
      SumZero(top, end, t);
    }
    SumSplit(smin, top, end, t);
  }

  /** A window ending where s - x drops below g's range loses only zero
      terms. */
  lemma WindowCoversNarrow(f: int -> int, smin: nat, smax: nat, g: int -> int, lmin: nat, lmax: nat, s: int, end: int)
    requires smin <= end <= smax && Support(f, smin, smax)
    requires Support(g, lmin, lmax) && end == s - lmin + 1
    ensures Sum(smin, end, Terms(f, g, s)) == ConvAt(f, g, s)
  {
    var t := Terms(f, g, s);
    var top := smax + 1;
    assert ConvAt(f, g, s) == Sum(smin, top, t) by {
      ConvRange(f, smin, smax, g, lmin, lmax, s);
    }
    assert Sum(end, top, t) == 0 by {
      VanishSecond(f, g, lmin, lmax, s, end, top);
      SumZero(end, top, t);
    }
    SumSplit(smin, end, top, t);
  }

  /** The terms of the convolution at s that a window of r terms starting
      at smin leaves out are all zero, provided the window reaches either
      the end of f's range or the last x with s - x inside g's range. */
  lemma WindowCovers(f: int -> int, smin: nat, smax: nat, g: int -> int, lmin: nat, lmax: nat, s: int, r: nat)
    requires smin <= smax && Support(f, smin, smax)
    requires Support(g, lmin, lmax)
    requires r == s - smin - lmin + 1 || r >= smax - smin + 1
    ensures Sum(smin, smin + r, Terms(f, g, s)) == ConvAt(f, g, s)
  {
    var end := smin + r;
    if smax < end {
      WindowCoversWide(f, smin, smax, g, lmin, lmax, s, end);
    } else {
      WindowCoversNarrow(f, smin, smax, g, lmin, lmax, s, end);
    }
  }

  /** The window covers every non-zero term: with lo = smin + lmin, the
      window sum over r terms, r = i + 1 or r at least small's size, equals
      the full convolution at s = lo + i. */
  lemma WindowIsConv(small: map<nat, int>, smin: nat, smax: nat, large: map<nat, int>, lmin: nat, lmax: nat, lo: nat, i: nat, r: nat, s: int)
    requires smin <= smax && Within(small, smin, smax)
    requires lmin <= lmax && Within(large, lmin, lmax)
    requires lo == smin + lmin && s == lo + i
    requires r <= i + 1 && (r == i + 1 || r >= smax - smin + 1)
    ensures WindowSum(small, smin, large, lo, i, r) == ConvAt(Counts(small), Counts(large), s)
  {
    WindowSumIsSum(small, smin, large, lo, i, r, s);
    WithinSupport(small, smin, smax);
    WithinSupport(large, lmin, lmax);
    WindowCovers(Counts(small), smin, smax, Counts(large), lmin, lmax, s, r);
  }

  /** The convolution at s reads its arguments only at 0..s. */
  lemma ConvExt(f1: int -> int, f2: int -> int, g1: int -> int, g2: int -> int, s: int)
    requires forall x :: 0 <= x <= s ==> f1(x) == f2(x)
    requires forall x :: 0 <= x <= s ==> g1(x) == g2(x)
    ensures ConvAt(f1, g1, s) == ConvAt(f2, g2, s)
  {
    forall x | 0 <= x < s + 1
      ensures Terms(f1, g1, s)(x) == Terms(f2, g2, s)(x)
    {
      assert f1(x) == f2(x) && g1(s - x) == g2(s - x);
    }
    SumExt(0, s + 1, Terms(f1, g1, s), Terms(f2, g2, s));
  }

  /** One way to make 0 and none to make anything else. */
  ghost function Unit(): int -> int {
    x => if x == 0 then 1 else 0
  }

  /** Unit is neutral for convolution at every non-negative sum. */
  lemma ConvUnit(f: int -> int, s: int)
    requires 0 <= s
    ensures ConvAt(f, Unit(), s) == f(s)
  {
    var t := Terms(f, Unit(), s);
    forall x | 0 <= x < s + 1 && x != s
      ensures t(x) == 0
    {
      assert Unit()(s - x) == 0;
    }
    SumSingle(0, s + 1, s, t);
    assert t(s) == f(s) * 1;
  }

  /** The products h(s - y) * (f(x) * g(y - x)), by the sum y of the first
      two parts and the first part x. */
  ghost function AssocGrid(f: int -> int, g: int -> int, h: int -> int, s: int): (int, int) -> int {
    (y, x) => h(s - y) * (f(x) * g(y - x))
  }

  lemma AssocRowTerm(f: int -> int, g: int -> int, h: int -> int, s: int, y: int, x: int)
    ensures Row(AssocGrid(f, g, h, s), y)(x) == Scaled(h(s - y), Terms(f, g, y))(x)
  {
  }

  /** Summing the terms at y over a range past y adds only zeros, when g
      vanishes below 0. */
  lemma ConvAtWider(f: int -> int, g: int -> int, gmax: int, y: int, top: int)
    requires Support(g, 0, gmax) && 0 <= y && y + 1 <= top
    ensures Sum(0, top, Terms(f, g, y)) == ConvAt(f, g, y)
  {
    var t := Terms(f, g, y);
    var mid := y + 1;
    assert Sum(mid, top, t) == 0 by {
      VanishSecond(f, g, 0, gmax, y, mid, top);
      SumZero(mid, top, t);
    }
    SumSplit(0, mid, top, t);
  }

  /** Row y of the grid adds up to the term of (f * g) * h at y. */
  lemma AssocRow(f: int -> int, g: int -> int, gmax: int, h: int -> int, s: int, y: int, top: int)
    requires Support(g, 0, gmax) && 0 <= y < top && top == s + 1
    ensures RowSums(0, top, AssocGrid(f, g, h, s))(y) == Terms(Convolved(f, g), h, s)(y)
  {
    var c := h(s - y);
    var t := Terms(f, g, y);
    var row := Row(AssocGrid(f, g, h, s), y);
    assert Sum(0, top, row) == c * Sum(0, top, t) by {
      forall x | 0 <= x < top
        ensures row(x) == Scaled(c, t)(x)
      {
        AssocRowTerm(f, g, h, s, y, x);
      }
      SumExt(0, top, row, Scaled(c, t));
      SumScale(0, top, c, t);
    }
    assert Sum(0, top, t) == ConvAt(f, g, y) by {
      ConvAtWider(f, g, gmax, y, top);
    }
    assert RowSums(0, top, AssocGrid(f, g, h, s))(y) == Sum(0, top, row);
    assert Terms(Convolved(f, g), h, s)(y) == ConvAt(f, g, y) * h(s - y);
    MulCongruence(c, h(s - y), Sum(0, top, t), ConvAt(f, g, y));
  }

  /** (f * g) * h at s, as the grid summed row by row and then column by
      column. */
  lemma AssocLeft(f: int -> int, g: int -> int, gmax: int, h: int -> int, s: int, top: int)
    requires Support(g, 0, gmax) && top == s + 1
    ensures ConvAt(Convolved(f, g), h, s) == Sum(0, top, ColumnSums(0, top, AssocGrid(f, g, h, s)))
  {
    forall y | 0 <= y < top
      ensures Terms(Convolved(f, g), h, s)(y) == RowSums(0, top, AssocGrid(f, g, h, s))(y)
    {
      AssocRow(f, g, gmax, h, s, y, top);
    }
    SumExt(0, top, Terms(Convolved(f, g), h, s), RowSums(0, top, AssocGrid(f, g, h, s)));
    SumSwap(0, top, 0, top, AssocGrid(f, g, h, s));
  }

  lemma AssocColumnTerm(f: int -> int, g: int -> int, h: int -> int, s: int, x: int, t: int, z: int)
    requires t == s - x
    ensures Shift(Column(AssocGrid(f, g, h, s), x), x)(z) == Scaled(f(x), Terms(g, h, t))(z)
  {
    assert z + x - x == z && s - (z + x) == t - z;
  }

  /** Column x of the grid, shifted so that it runs over the second part
      z = y - x. */
  lemma AssocColumnShifted(f: int -> int, g: int -> int, h: int -> int, s: int, x: int, t: int, lo: int, hi: int, top: int)
    requires t == s - x && lo == -x && hi == t + 1 && top == s + 1
    ensures Sum(0, top, Column(AssocGrid(f, g, h, s), x)) == Sum(lo, hi, Scaled(f(x), Terms(g, h, t)))
  {
    var col := Column(AssocGrid(f, g, h, s), x);
    var p := Scaled(f(x), Terms(g, h, t));
    assert Sum(lo, hi, Shift(col, x)) == Sum(0, top, col) by {
      SumShift(lo, hi, x, col);
      assert lo + x == 0 && hi + x == top;
    }
    forall z | lo <= z < hi
      ensures Shift(col, x)(z) == p(z)
    {
      AssocColumnTerm(f, g, h, s, x, t, z);
    }
    SumExt(lo, hi, Shift(col, x), p);
  }

  /** Column x of the grid adds up to the term of f * (g * h) at x. */
  lemma AssocColumn(f: int -> int, g: int -> int, gmax: int, h: int -> int, s: int, x: int, t: int, top: int)
    requires Support(g, 0, gmax) && top == s + 1 && 0 <= x < top && t == s - x
    ensures ColumnSums(0, top, AssocGrid(f, g, h, s))(x) == Terms(f, Convolved(g, h), s)(x)
  {
    var lo := -x;
    var hi := t + 1;
    var p := Scaled(f(x), Terms(g, h, t));
    AssocColumnShifted(f, g, h, s, x, t, lo, hi, top);
    assert Sum(lo, hi, p) == Sum(0, hi, p) by {
      forall z | lo <= z < 0
        ensures p(z) == 0
      {
        assert g(z) == 0;
      }
      SumTrim(lo, hi, 0, hi, p);
    }
    SumScale(0, hi, f(x), Terms(g, h, t));
  }

  /** f * (g * h) at s, as the grid summed column by column. */
  lemma AssocRight(f: int -> int, g: int -> int, gmax: int, h: int -> int, s: int, top: int)
    requires Support(g, 0, gmax) && top == s + 1
    ensures Sum(0, top, ColumnSums(0, top, AssocGrid(f, g, h, s))) == ConvAt(f, Convolved(g, h), s)
  {
    forall x | 0 <= x < top
      ensures ColumnSums(0, top, AssocGrid(f, g, h, s))(x) == Terms(f, Convolved(g, h), s)(x)
    {
      AssocColumn(f, g, gmax, h, s, x, s - x, top);
    }
    SumExt(0, top, ColumnSums(0, top, AssocGrid(f, g, h, s)), Terms(f, Convolved(g, h), s));
  }

  /** Convolution is associative when the middle operand vanishes below 0:
      which pair is combined first does not change the counts. */
  lemma ConvAssociative(f: int -> int, g: int -> int, gmax: int, h: int -> int, s: int)
    requires Support(g, 0, gmax)
    ensures ConvAt(Convolved(f, g), h, s) == ConvAt(f, Convolved(g, h), s)
  {
    if 0 <= s {
      var top := s + 1;
      AssocLeft(f, g, gmax, h, s, top);
      AssocRight(f, g, gmax, h, s, top);
    }
  }
}
