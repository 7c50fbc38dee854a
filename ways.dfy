/** The reference count behind `TryFrom<DiceSet> for Distribution` in
    src/probability.rs: the number of ways a sequence of dice can show faces
    that add up to s, counted one die at a time (the last die shows some
    face v, the others add up to s - v). Everything the source computes by
    splitting, convolving and mirroring is compared against this count. */
module Ways {
  import opened Sums
  import opened Convolution
  import opened Dice

  /** The counts of a single die with k sides: one way for each face 1..k. */
  ghost function Faces(k: nat): int -> int {
    v => if 1 <= v <= k then 1 else 0
  }

  /** The number of face tuples of `dice` whose faces add up to s. */
  ghost function Ways(dice: seq<Die>, s: int): int
    decreases |dice|, 0
  {
    if |dice| == 0 then (if s == 0 then 1 else 0)
    else Sum(1, dice[|dice| - 1].n + 1, Rest(dice[..|dice| - 1], s))
  }

  /** The ways for the other dice once the last one shows v. */
  ghost function Rest(init: seq<Die>, s: int): int -> int
    decreases |init|, 1
  {
    v => Ways(init, s - v)
  }

  /** The counts of `dice` as a function of the sum. */
  ghost function WaysOf(dice: seq<Die>): int -> int {
    s => Ways(dice, s)
  }

  /** The largest sum: every die on its top face. */
  function MaxSum(dice: seq<Die>): nat {
    if |dice| == 0 then 0 else MaxSum(dice[..|dice| - 1]) + dice[|dice| - 1].n
  }

  /** The number of face tuples: the product of the numbers of sides. */
  function Product(dice: seq<Die>): nat {
    if |dice| == 0 then 1 else Product(dice[..|dice| - 1]) * dice[|dice| - 1].n
  }

  /** Every die has at least one face. */
  predicate Rollable(dice: seq<Die>) {
    forall k :: 0 <= k < |dice| ==> dice[k].n >= 1
  }

  lemma RollableParts(l: seq<Die>, r: seq<Die>)
    requires Rollable(l + r)
    ensures Rollable(l) && Rollable(r)
  {
    forall k | 0 <= k < |r|
      ensures r[k].n >= 1
    {
      assert r[k] == (l + r)[|l| + k];
    }
    forall k | 0 <= k < |l|
      ensures l[k].n >= 1
    {
      assert l[k] == (l + r)[k];
    }
  }

  /** The largest sum of two sets together is the sum of their largest sums. */
  lemma {:induction false} MaxSumConcat(l: seq<Die>, r: seq<Die>)
    ensures MaxSum(l + r) == MaxSum(l) + MaxSum(r)
    decreases |r|
  {
    if |r| > 0 {
      var init := r[..|r| - 1];
      assert (l + r)[..|l + r| - 1] == l + init;
      assert (l + r)[|l + r| - 1] == r[|r| - 1];
      MaxSumConcat(l, init);
    } else {
      assert l + r == l;
    }
  }

  /** At least one way per die is needed to reach a sum: rollable dice have
      their smallest sum, one per die, at most their largest. */
  lemma {:induction false} MinAtMostMax(dice: seq<Die>)
    requires Rollable(dice)
    ensures |dice| <= MaxSum(dice)
    decreases |dice|
  {
    if |dice| > 0 {
      var init := dice[..|dice| - 1];
      RollableParts(init, [dice[|dice| - 1]]);
      assert init + [dice[|dice| - 1]] == dice;
      MinAtMostMax(init);
    }
  }

  /** The sums the dice can reach lie between one per die and MaxSum; every
      other sum has no way. */
  lemma {:induction false} WaysSupport(dice: seq<Die>)
    ensures Support(WaysOf(dice), |dice|, MaxSum(dice))
    decreases |dice|
  {
    if |dice| > 0 {
      var init := dice[..|dice| - 1];
      var k: nat := dice[|dice| - 1].n;
      WaysSupport(init);
      forall s | s < |dice| || MaxSum(dice) < s
        ensures WaysOf(dice)(s) == 0
      {
        forall v | 1 <= v < k + 1
          ensures Rest(init, s)(v) == 0
        {
          assert WaysOf(init)(s - v) == 0;
        }
        SumZero(1, k + 1, Rest(init, s));
      }
    }
  }

  lemma SupportFromZero(dice: seq<Die>)
    ensures Support(WaysOf(dice), 0, MaxSum(dice))
  {
    WaysSupport(dice);
  }

  lemma RestAt(init: seq<Die>, s: int, v: int)
    ensures Rest(init, s)(v) == Ways(init, s - v)
  {
  }

  /** The convolution with a die's faces keeps only the faces 1..k. */
  lemma FacesWindow(init: seq<Die>, k: nat, s: int)
    requires k >= 1
    ensures ConvAt(WaysOf(init), Faces(k), s) == Sum(1, k + 1, Terms(Faces(k), WaysOf(init), s))
  {
    var w := WaysOf(init);
    var f := Faces(k);
    assert ConvAt(w, f, s) == ConvAt(f, w, s) by {
      ConvCommutes(w, f, s);
    }
    SupportFromZero(init);
    ConvRange(f, 1, k, w, 0, MaxSum(init), s);
  }

  lemma FaceTerm(init: seq<Die>, k: nat, s: int, v: int)
    requires 1 <= v <= k
    ensures Terms(Faces(k), WaysOf(init), s)(v) == Rest(init, s)(v)
  {
    assert Faces(k)(v) == 1;
    RestAt(init, s, v);
  }

  /** Each face v of the last die contributes the ways of the others to
      reach s - v. */
  lemma FacesTerms(init: seq<Die>, k: nat, s: int)
    ensures Sum(1, k + 1, Terms(Faces(k), WaysOf(init), s)) == Sum(1, k + 1, Rest(init, s))
  {
    forall v | 1 <= v < k + 1
      ensures Terms(Faces(k), WaysOf(init), s)(v) == Rest(init, s)(v)
    {
      FaceTerm(init, k, s, v);
    }
    SumExt(1, k + 1, Terms(Faces(k), WaysOf(init), s), Rest(init, s));
  }

  /** Adding a die convolves the counts with the die's faces. */
  lemma WaysStep(dice: seq<Die>, init: seq<Die>, d: Die, k: nat, s: int)
    requires dice == init + [d] && k == d.n && k >= 1
    ensures Ways(dice, s) == ConvAt(WaysOf(init), Faces(k), s)
  {
    assert dice[..|dice| - 1] == init && dice[|dice| - 1] == d;
    assert Ways(dice, s) == Sum(1, k + 1, Rest(init, s));
    FacesWindow(init, k, s);
    FacesTerms(init, k, s);
  }

  /** The die's faces are symmetric about the middle face. */
  lemma FacesSymmetric(k: nat)
    requires k >= 1
    ensures Support(Faces(k), 1, k) && Symmetric(Faces(k), 1, k)
  {
    forall x
      ensures Mirrored(Faces(k), 1, k, x)
    {
    }
  }

  /** A die with k faces has k ways in all. */
  lemma FacesTotal(k: nat)
    ensures Total(Faces(k), 1, k) == k
  {
    SumExt(1, k + 1, Faces(k), Const(1));
    SumConst(1, k + 1, 1);
  }

  /** The number of ways to reach s is symmetric: s and |dice| + MaxSum - s
      have the same count (turn every die upside down). */
  lemma {:induction false} WaysSymmetric(dice: seq<Die>)
    requires Rollable(dice)
    ensures Symmetric(WaysOf(dice), |dice|, MaxSum(dice))
    decreases |dice|
  {
    if |dice| == 0 {
      forall x
        ensures Mirrored(WaysOf(dice), 0, 0, x)
      {
      }
    } else {
      var init := dice[..|dice| - 1];
      var d := dice[|dice| - 1];
      var k: nat := d.n;
      assert dice == init + [d];
      RollableParts(init, [d]);
      WaysSymmetric(init);
      SymmetricStep(dice, init, d, k, |dice|, MaxSum(dice));
    }
  }

  /** Adding a die to symmetric counts keeps them symmetric. */
  lemma SymmetricStep(dice: seq<Die>, init: seq<Die>, d: Die, k: nat, lo: int, hi: int)
    requires dice == init + [d] && k == d.n && k >= 1 && Rollable(init)
    requires Symmetric(WaysOf(init), |init|, MaxSum(init))
    requires lo == |init| + 1 && hi == MaxSum(init) + k
    ensures Symmetric(WaysOf(dice), lo, hi)
  {
    WaysSupport(init);
    MinAtMostMax(init);
    FacesSymmetric(k);
    ConvSymmetric(WaysOf(init), |init|, MaxSum(init), Faces(k), 1, k, lo, hi);
    forall x
      ensures Mirrored(WaysOf(dice), lo, hi, x)
    {
      var y := lo + hi - x;
      WaysStep(dice, init, d, k, x);
      WaysStep(dice, init, d, k, y);
      assert Mirrored(Convolved(WaysOf(init), Faces(k)), lo, hi, x);
    }
  }

  /** Adding a die gives, sum by sum, the convolution with its faces. */
  lemma StepSum(dice: seq<Die>, init: seq<Die>, d: Die, k: nat, lo: int, hi: int)
    requires dice == init + [d] && k == d.n && k >= 1
    ensures Sum(lo, hi + 1, WaysOf(dice)) == Sum(lo, hi + 1, Convolved(WaysOf(init), Faces(k)))
  {
    forall x | lo <= x < hi + 1
      ensures WaysOf(dice)(x) == Convolved(WaysOf(init), Faces(k))(x)
    {
      WaysStep(dice, init, d, k, x);
    }
    SumExt(lo, hi + 1, WaysOf(dice), Convolved(WaysOf(init), Faces(k)));
  }

  /** Convolving with the faces of a k-sided die multiplies the total by k. */
  lemma FacesConvTotal(init: seq<Die>, k: nat, lo: int, hi: int)
    requires k >= 1 && Rollable(init)
    requires lo == |init| + 1 && hi == MaxSum(init) + k
    ensures Sum(lo, hi + 1, Convolved(WaysOf(init), Faces(k))) == Total(WaysOf(init), |init|, MaxSum(init)) * k
  {
    WaysSupport(init);
    MinAtMostMax(init);
    FacesSymmetric(k);
    ConvTotal(WaysOf(init), |init|, MaxSum(init), Faces(k), 1, k, lo, hi);
    FacesTotal(k);
    MulCongruence(Total(Faces(k), 1, k), k, Total(WaysOf(init), |init|, MaxSum(init)), Total(WaysOf(init), |init|, MaxSum(init)));
  }

  /** All the ways together number the product of the sides. */
  lemma {:induction false} WaysTotal(dice: seq<Die>)
    requires Rollable(dice)
    ensures Total(WaysOf(dice), |dice|, MaxSum(dice)) == Product(dice)
    decreases |dice|
  {
    if |dice| == 0 {
      assert Sum(0, 1, WaysOf(dice)) == Sum(0, 0, WaysOf(dice)) + WaysOf(dice)(0);
    } else {
      var init := dice[..|dice| - 1];
      var d := dice[|dice| - 1];
      var k: nat := d.n;
      assert dice == init + [d];
      RollableParts(init, [d]);
      WaysTotal(init);
      StepSum(dice, init, d, k, |dice|, MaxSum(dice));
      FacesConvTotal(init, k, |dice|, MaxSum(dice));
      MulCongruence(Total(WaysOf(init), |init|, MaxSum(init)), Product(init), k, k);
    }
  }

  /** No dice: the empty sum 0 is the only reachable sum. */
  lemma NoDiceIsUnit(s: int)
    ensures WaysOf([])(s) == Unit()(s)
  {
  }

  /** The convolution theorem: the ways of two sets of dice together are the
      convolution of their ways, whichever way the dice are split. */
  lemma {:induction false} ConvolutionTheorem(l: seq<Die>, r: seq<Die>, s: int)
    requires Rollable(l + r)
    ensures Ways(l + r, s) == ConvAt(WaysOf(l), WaysOf(r), s)
    decreases |r|
  {
    RollableParts(l, r);
    if |r| == 0 {
      assert l + r == l;
      if s < 0 {
        WaysSupport(l);
        assert WaysOf(l)(s) == 0;
      } else {
        forall x | 0 <= x <= s
          ensures WaysOf(r)(x) == Unit()(x)
        {
          NoDiceIsUnit(x);
        }
        ConvExt(WaysOf(l), WaysOf(l), WaysOf(r), Unit(), s);
        ConvUnit(WaysOf(l), s);
      }
    } else {
      var init := r[..|r| - 1];
      var d := r[|r| - 1];
      var k: nat := d.n;
      var w := WaysOf(l);
      var f := Faces(k);
      assert r == init + [d];
      assert l + r == (l + init) + [d];
      RollableParts(init, [d]);
      RollableParts(l, init);
      forall x | 0 <= x <= s
        ensures WaysOf(l + init)(x) == Convolved(w, WaysOf(init))(x)
      {
        ConvolutionTheorem(l, init, x);
      }
      assert Ways(l + r, s) == ConvAt(Convolved(w, WaysOf(init)), f, s) by {
        WaysStep(l + r, l + init, d, k, s);
        ConvExt(WaysOf(l + init), Convolved(w, WaysOf(init)), f, f, s);
      }
      assert ConvAt(Convolved(w, WaysOf(init)), f, s) == ConvAt(w, Convolved(WaysOf(init), f), s) by {
        SupportFromZero(init);
        ConvAssociative(w, WaysOf(init), MaxSum(init), f, s);
      }
      forall x | 0 <= x <= s
        ensures Convolved(WaysOf(init), f)(x) == WaysOf(r)(x)
      {
        WaysStep(r, init, d, k, x);
      }
      ConvExt(w, w, Convolved(WaysOf(init), f), WaysOf(r), s);
    }
  }

  /** One die with k faces: one way for each face. */
  lemma SingleDie(d: Die, s: int)
    ensures Ways([d], s) == (if 1 <= s <= d.n then 1 else 0)
  {
    var rest := Rest([], s);
    assert [d][..0] == [];
    assert Ways([d], s) == Sum(1, d.n + 1, rest);
    if 1 <= s <= d.n {
      forall v | 1 <= v < d.n + 1 && v != s
        ensures rest(v) == 0
      {
        RestAt([], s, v);
      }
      SumSingle(1, d.n + 1, s, rest);
      RestAt([], s, s);
    } else {
      forall v | 1 <= v < d.n + 1
        ensures rest(v) == 0
      {
        RestAt([], s, v);
      }
      SumZero(1, d.n + 1, rest);
    }
  }
  /** With the second die on v, the first must show s - v. */
  lemma TwoDiceTerm(d: Die, s: int, v: int, a: int, b: int)
    requires 1 <= v <= d.n
    requires a == (if s - d.n > 1 then s - d.n else 1) && b == (if s - 1 < d.n then s - 1 else d.n)
    ensures Rest([d], s)(v) == (if a <= v <= b then 1 else 0)
  {
    RestAt([d], s, v);
    SingleDie(d, s - v);
  }

  /** Two dice with k faces each: k - |s - (k + 1)| ways for every sum from
      2 to 2k, the triangle that "2d6" shows. */
  lemma TwoDice(d: Die, s: int)
    requires d.n >= 1
    ensures Ways([d, d], s) == (if 2 <= s <= 2 * d.n then d.n - (if s <= d.n + 1 then d.n + 1 - s else s - d.n - 1) else 0)
  {
    var k: nat := d.n;
    var rest := Rest([d], s);
    assert Ways([d, d], s) == Sum(1, k + 1, rest) by {
      assert [d, d][..1] == [d];
    }
    var a := if s - k > 1 then s - k else 1;
    var b := if s - 1 < k then s - 1 else k;
    TwoDiceSum(d, s, a, b);
  }

  /** With the second die on v, the first die can make up the rest exactly
      for v in [a, b]. */
  lemma TwoDiceSum(d: Die, s: int, a: int, b: int)
    requires a == (if s - d.n > 1 then s - d.n else 1) && b == (if s - 1 < d.n then s - 1 else d.n)
    ensures Sum(1, d.n + 1, Rest([d], s)) == if a <= b then b + 1 - a else 0
  {
    var k: nat := d.n;
    var rest := Rest([d], s);
    forall v | 1 <= v < k + 1
      ensures rest(v) == (if a <= v <= b then 1 else 0)
    {
      TwoDiceTerm(d, s, v, a, b);
    }
    if a <= b {
      assert Sum(1, k + 1, rest) == b + 1 - a by {
        SumTrim(1, k + 1, a, b + 1, rest);
        SumExt(a, b + 1, rest, Const(1));
        SumConst(a, b + 1, 1);
      }
    } else {
      SumZero(1, k + 1, rest);
    }
  }

  /** Two six-sided dice: 1, 2, 3, 4, 5, 6, 5, 4, 3, 2, 1 ways for the sums
      2 to 12. */
  lemma TwoD6(s: int)
    requires 2 <= s <= 12
    ensures Ways([Die(6), Die(6)], s) == [1, 2, 3, 4, 5, 6, 5, 4, 3, 2, 1][s - 2]
  {
    TwoDice(Die(6), s);
  }
}
