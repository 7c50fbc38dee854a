/** src/probability.rs: the exact distribution of the sum of a dice set, a
    map from each reachable sum to the number of ways of rolling it. A set
    with no dice has the empty map, one die has one way per face, and a
    larger set is split in two at the largest power of two below its size,
    each half built recursively, and the halves combined by `Add`. */
module Probability {
  import opened Wrappers
  import opened Text
  import opened Sums
  import opened Convolution
  import opened Dice
  import opened Ways

  /** `std::cmp::Ordering`. */
  datatype Ordering = Less | Equal | Greater

  /** m holds exactly the keys lo..=hi. */
  ghost predicate Keys(m: map<nat, int>, lo: nat, hi: nat) {
    forall k: nat :: k in m <==> lo <= k <= hi
  }

  /** `size / 2 + size % 2`: the number of sums `Add` computes directly. */
  function Halfway(size: nat): (h: nat)
    ensures size <= 2 * h <= size + 1
  {
    size / 2 + size % 2
  }

  /** The range of j in the window sum for offset i: `0..(i+1)` while
      `i <= smaller.size`, `0..smaller.size` after. */
  function Window(i: nat, ssize: nat): (r: nat)
    ensures r <= i + 1
    ensures r == i + 1 || r == ssize
  {
    if i <= ssize then i + 1 else ssize
  }

  predicate IsPowerOfTwo(p: nat)
    decreases p
  {
    p == 1 || (p >= 2 && p % 2 == 0 && IsPowerOfTwo(p / 2))
  }

  /** `int_log`: the largest power of two strictly below m (1 when m <= 2).
      The doubling `next *= 2` is a `usize` in the source; m is a length,
      far below the point where it could overflow. */
  method IntLog(m: nat) returns (p: nat)
    ensures IsPowerOfTwo(p)
    ensures m <= 2 ==> p == 1
    ensures m >= 2 ==> p < m <= 2 * p
  {
    var current: nat := 1;
    var next: nat := 2;
    while next < m
      invariant IsPowerOfTwo(current) && next == 2 * current
      invariant current == 1 || current < m
      decreases m - next
    {
      current := next;
      next := next * 2;
    }
    p := current;
  }

  /** `Distribution`: the counts by sum, the smallest and largest sum, the
      number of sums, the number of dice, and the iteration position. Only
      the position ever changes. */
  class Distribution {
    const dist: map<nat, int>
    const min: nat
    const max: nat
    const size: nat
    const n: nat
    var pos: nat

    /** `Distribution::new`: iteration starts at the smallest sum. */
    constructor (dist: map<nat, int>, min: nat, max: nat, size: nat, n: nat)
      ensures this.dist == dist && this.min == min && this.max == max
      ensures this.size == size && this.n == n && pos == min
    {
      this.dist := dist;
      this.min := min;
      this.max := max;
      this.size := size;
      this.n := n;
      pos := min;
    }

    /** The bookkeeping of a distribution of at least one die: the keys lie
        in min..=max and size counts the sums in that range. */
    ghost predicate Spans() {
      min <= max && size == max - min + 1 && Within(dist, min, max)
    }

    /** What every distribution of a non-empty set of rollable dice
        satisfies: every sum min..=max is a key, and the counts read the
        same from both ends. */
    ghost predicate Valid() {
      Spans() && n >= 1 && Keys(dist, min, max) && Symmetric(Counts(dist), min, max)
    }

    /** `len`: the number of sums. */
    function Len(): (r: nat)
      ensures r == size
    {
      size
    }

    /** `get`: the count for a sum, `None` when the sum is not a key. */
    function Get(ind: nat): (r: Option<int>)
      ensures r.Some? <==> ind in dist
      ensures r.Some? ==> r.value == dist[ind]
    {
      if ind in dist then Some(dist[ind]) else None
    }

    /** `Ord for Distribution`: distributions compare by their number of sums. */
    function Cmp(other: Distribution): (r: Ordering)
      ensures r == Less <==> size < other.size
      ensures r == Equal <==> size == other.size
      ensures r == Greater <==> size > other.size
    {
      if size < other.size then Less else if size == other.size then Equal else Greater
    }

    /** `Iterator::next`: the count at the current position, which advances
        whether or not there is one. */
    method Next() returns (r: Option<int>)
      modifies this
      ensures pos == old(pos) + 1
      ensures r == Get(old(pos))
    {
      r := Get(pos);
      pos := pos + 1;
    }

    /** The first line of `into_string`. */
    function Header(): (s: string)
      ensures '\n' !in s
    {
      "min: " + NatToString(min) + ", max: " + NatToString(max) + ", size: " + NatToString(size) + ", n: " + NatToString(n)
    }

    /** `into_string`: the header, then the counts the iterator yields from
        the current position, zipped with the sums min..=max, one line
        "\n{sum}: {count}" per pair, until either side runs out. */
    method IntoString() returns (s: string)
      modifies this
      ensures s == Header() + Lines(dist, old(pos), min, max)
    {
      s := Header();
      var sum := min;
      while true
        invariant s + Lines(dist, pos, sum, max) == Header() + Lines(dist, old(pos), min, max)
        decreases max + 1 - sum
      {
        ghost var p := pos;
        var count := Next();
        if count.None? || sum > max {
          break;
        }
        var line := "\n" + Line(sum, count.value);
        ConcatAssoc(s, line, Lines(dist, pos, sum + 1, max));
        s := s + line;
        sum := sum + 1;
      }
    }

    /** `Add for Distribution`: the distribution of the two sets of dice
        together. The operands are ordered by size (on a tie `self` comes
        first). The lower `Halfway(size)` sums are window sums of products
        of the two operands' counts; every later sum copies the count of its
        mirror image, which was inserted before it. */
    method Add(other: Distribution) returns (c: Distribution)
      requires min + other.min <= max + other.max
      ensures fresh(c)
      ensures c.min == min + other.min && c.max == max + other.max
      ensures c.size == c.max - c.min + 1 && c.n == n + other.n && c.pos == c.min
      ensures Keys(c.dist, c.min, c.max)
      ensures MirrorsUpper(c.dist, c.min, c.max, Halfway(c.size))
      ensures Spans() && other.Spans() ==>
                LowerMatches(c.dist, c.min, Halfway(c.size), Counts(dist), Counts(other.dist))
      ensures Valid() && other.Valid() ==>
                c.Valid() && IsConvolution(c.dist, Counts(dist), Counts(other.dist))
      ensures Valid() && other.Valid() ==>
                Total(Counts(c.dist), c.min, c.max) == Total(Counts(other.dist), other.min, other.max) * Total(Counts(dist), min, max)
    {
      var cmin := min + other.min;
      var cmax := max + other.max;
      var csize: nat := cmax - cmin + 1;
      var cn := n + other.n;
      var halfway := Halfway(csize);
      var smaller, larger := this, other;
      if other.Cmp(this) == Less {
        smaller, larger := other, this;
      }
      var sdist, smin, ssize, ldist := smaller.dist, smaller.min, smaller.size, larger.dist;
      var m: map<nat, int> := map[];
      for i := 0 to csize
        invariant Filled(m, cmin, cmax, halfway, i, sdist, smin, ldist, ssize)
      {
        if i >= halfway {
          FillMirror(m, cmin, cmax, halfway, i, sdist, smin, ldist, ssize);
          m := m[i + cmin := m[cmax - i]];
        } else {
          var r := Window(i, ssize);
          FillLower(m, cmin, cmax, halfway, i, sdist, smin, ldist, ssize);
          m := m[cmin + i := WindowSum(sdist, smin, ldist, cmin, i, r)];
        }
      }
      FilledAll(m, cmin, cmax, halfway, sdist, smin, ldist, ssize);
      c := new Distribution(m, cmin, cmax, csize, cn);
      if Spans() && other.Spans() {
        LowerHalf(sdist, smin, smaller.max, ssize, ldist, larger.min, larger.max, m, cmin, cmax, halfway);
        if smaller != this {
          LowerSwapped(m, cmin, halfway, Counts(other.dist), Counts(dist));
        }
        if Valid() && other.Valid() {
          AddValid(dist, min, max, other.dist, other.min, other.max, m, cmin, cmax, halfway);
        }
      }
    }
    /** `TryFrom<DiceSet> for Distribution`: no dice give the empty map
        with every field 0; one die gives one way for each face; more dice
        are split at `IntLog(len)`, each part converted recursively, and the
        two distributions added. The source converts the second part on
        another thread and receives it over a channel; here the two parts
        are converted one after the other. */
    static method TryFrom(ds: DiceSet) returns (d: Distribution)
      requires ds.Valid()
      requires |ds.dice| >= 2 ==> Rollable(ds.dice)
      ensures fresh(d) && d.pos == d.min
      ensures |ds.dice| == 0 ==> d.dist == map[] && d.min == 0 && d.max == 0 && d.size == 0 && d.n == 0
      ensures |ds.dice| == 1 ==>
                d.dist == OneWayEach(ds.dice[0].n) && d.min == 1 && d.max == ds.dice[0].n && d.size == ds.dice[0].n && d.n == 1
      ensures |ds.dice| >= 1 && Rollable(ds.dice) ==> Describes(d, ds.dice)
      decreases |ds.dice|
    {
      if ds.Len() == 0 {
        d := new Distribution(map[], 0, 0, 0, 0);
      } else if ds.Len() == 1 {
        var size: nat := ds.dice[0].Len();
        var m: map<nat, int> := map[];
        for k := 1 to size + 1
          invariant m == OneWayEach(k - 1)
        {
          m := m[k := 1];
        }
        d := new Distribution(m, 1, size, size, 1);
        if Rollable(ds.dice) {
          assert [ds.dice[0]] == ds.dice;
          OneDescribes(d, ds.dice[0]);
        }
      } else {
        var partition := IntLog(ds.Len());
        var set1, set2 := Partition(ds, partition);
        RollableParts(set1.dice, set2.dice);
        var dist1 := TryFrom(set1);
        var dist2 := TryFrom(set2);
        d := dist1.Add(dist2);
        AddDescribes(dist1, dist2, d, set1.dice, set2.dice);
      }
    }
  }

  /** The counts of a die with k sides: one way for each face 1..=k. */
  function OneWayEach(k: nat): (m: map<nat, int>)
    ensures forall j: nat :: j in m <==> 1 <= j <= k
    ensures forall j: nat :: j in m ==> m[j] == 1
  {
    if k == 0 then map[] else OneWayEach(k - 1)[k := 1]
  }

  /** m counts, for every sum, the ways the dice can add up to it. */
  ghost predicate CountsWays(m: map<nat, int>, dice: seq<Die>) {
    forall k :: Count(m, k) == Ways.Ways(dice, k)
  }

  /** d is the distribution of the sum of `dice`: well formed, from the
      smallest sum (every die on 1) to the largest, counting for each sum the
      ways the dice can add up to it, and so the number of face tuples in
      all. */
  ghost predicate Describes(d: Distribution, dice: seq<Die>) {
    && d.Valid() && d.min == |dice| && d.max == MaxSum(dice) && d.n == |dice|
    && CountsWays(d.dist, dice)
    && Total(Counts(d.dist), d.min, d.max) == Product(dice)
  }

  /** The one-die branch of `TryFrom` describes that die. */
  lemma OneDescribes(d: Distribution, die: Die)
    requires die.n >= 1 && d.dist == OneWayEach(die.n)
    requires d.min == 1 && d.max == die.n && d.size == die.n && d.n == 1
    ensures Describes(d, [die])
  {
    OneDie(d.dist, die);
    assert MaxSum([die]) == die.n by {
      assert [die][..0] == [];
    }
    TotalIsProduct(d.dist, [die]);
  }

  /** The sum of the distributions of two parts describes the whole set. */
  lemma AddDescribes(d1: Distribution, d2: Distribution, d: Distribution, l: seq<Die>, r: seq<Die>)
    requires Describes(d1, l) && Describes(d2, r) && Rollable(l + r)
    requires d.min == d1.min + d2.min && d.max == d1.max + d2.max && d.n == d1.n + d2.n
    requires d.Valid() && IsConvolution(d.dist, Counts(d1.dist), Counts(d2.dist))
    ensures Describes(d, l + r)
  {
    assert d.max == MaxSum(l + r) by {
      MaxSumConcat(l, r);
    }
    assert CountsWays(d.dist, l + r) by {
      Combined(d.dist, d1.dist, d2.dist, l, r);
    }
    TotalIsProduct(d.dist, l + r);
  }

  /** The one-die map is well formed and counts the ways of that die. */
  lemma OneDie(m: map<nat, int>, d: Die)
    requires d.n >= 1 && m == OneWayEach(d.n)
    ensures Keys(m, 1, d.n) && Within(m, 1, d.n) && Symmetric(Counts(m), 1, d.n)
    ensures CountsWays(m, [d])
  {
    forall k
      ensures Count(m, k) == Ways.Ways([d], k)
    {
      SingleDie(d, k);
    }
    forall x
      ensures Mirrored(Counts(m), 1, d.n, x)
    {
    }
  }

  /** Adding the distributions of two parts gives the distribution of the
      whole set. */
  lemma Combined(m: map<nat, int>, m1: map<nat, int>, m2: map<nat, int>, l: seq<Die>, r: seq<Die>)
    requires Rollable(l + r)
    requires CountsWays(m1, l) && CountsWays(m2, r)
    requires IsConvolution(m, Counts(m1), Counts(m2))
    ensures CountsWays(m, l + r)
  {
    forall k
      ensures Count(m, k) == Ways.Ways(l + r, k)
    {
      forall x | 0 <= x <= k
        ensures Counts(m1)(x) == WaysOf(l)(x) && Counts(m2)(x) == WaysOf(r)(x)
      {
      }
      ConvExt(Counts(m1), WaysOf(l), Counts(m2), WaysOf(r), k);
      ConvolutionTheorem(l, r, k);
    }
  }

  /** The counts of a distribution add up to the number of face tuples. */
  lemma TotalIsProduct(m: map<nat, int>, dice: seq<Die>)
    requires Rollable(dice) && CountsWays(m, dice)
    ensures Total(Counts(m), |dice|, MaxSum(dice)) == Product(dice)
  {
    forall k | |dice| <= k < MaxSum(dice) + 1
      ensures Counts(m)(k) == WaysOf(dice)(k)
    {
    }
    SumExt(|dice|, MaxSum(dice) + 1, Counts(m), WaysOf(dice));
    WaysTotal(dice);
  }

  /** The distribution of "2d6": 1, 2, 3, 4, 5, 6, 5, 4, 3, 2, 1 ways for
      the sums 2 to 12. */
  lemma TwoD6Counts(m: map<nat, int>)
    requires CountsWays(m, [Die(6), Die(6)])
    ensures forall s :: 2 <= s <= 12 ==> Count(m, s) == [1, 2, 3, 4, 5, 6, 5, 4, 3, 2, 1][s - 2]
  {
    forall s | 2 <= s <= 12
      ensures Count(m, s) == [1, 2, 3, 4, 5, 6, 5, 4, 3, 2, 1][s - 2]
    {
      TwoD6(s);
    }
  }


  /** Every sum in the upper half of lo..=hi (from lo + hw on) counts the
      same as its mirror image. */
  ghost predicate MirrorsUpper(m: map<nat, int>, lo: nat, hi: nat, hw: nat) {
    forall k: nat :: lo + hw <= k <= hi ==> Count(m, k) == Count(m, lo + hi - k)
  }

  /** The first hw sums from lo count as the convolution of f and g. */
  ghost predicate LowerMatches(m: map<nat, int>, lo: nat, hw: nat, f: int -> int, g: int -> int) {
    forall k: nat :: lo <= k < lo + hw ==> Count(m, k) == ConvAt(f, g, k)
  }

  /** Every sum counts as the convolution of f and g. */
  ghost predicate IsConvolution(m: map<nat, int>, f: int -> int, g: int -> int) {
    forall k :: Count(m, k) == ConvAt(f, g, k)
  }

  lemma ConcatAssoc(a: string, b: string, c: string)
    ensures (a + b) + c == a + (b + c)
  {
  }

  /** One line of `into_string` without its leading line break. */
  function Line(sum: nat, count: int): (s: string)
    ensures '\n' !in s
  {
    NatToString(sum) + ": " + IntToString(count)
  }

  /** The lines `into_string` appends: the iterator at position p paired
      with the sums sum..=max. */
  function Lines(dist: map<nat, int>, p: nat, sum: nat, max: nat): (s: string)
    ensures s == "" <==> p !in dist || sum > max
    ensures s != "" ==> s[0] == '\n'
    decreases max + 1 - sum
  {
    if p !in dist || sum > max then ""
    else ("\n" + Line(sum, dist[p])) + Lines(dist, p + 1, sum + 1, max)
  }

  /** The lines for every sum from sum to max, in ascending order. */
  function LineSeq(dist: map<nat, int>, sum: nat, max: nat): (lines: seq<string>)
    requires forall k: nat :: sum <= k <= max ==> k in dist
    ensures |lines| == if sum <= max then max + 1 - sum else 0
    decreases max + 1 - sum
  {
    if sum > max then [] else [Line(sum, dist[sum])] + LineSeq(dist, sum + 1, max)
  }

  /** Line j of LineSeq is the line of sum + j. */
  lemma {:induction false} LineSeqAt(dist: map<nat, int>, sum: nat, max: nat, j: nat, k: nat)
    requires forall x: nat :: sum <= x <= max ==> x in dist
    requires k == sum + j && k <= max
    ensures LineSeq(dist, sum, max)[j] == Line(k, dist[k])
    decreases j
  {
    var rest := LineSeq(dist, sum + 1, max);
    var first := Line(sum, dist[sum]);
    assert LineSeq(dist, sum, max) == [first] + rest;
    if j == 0 {
      assert LineSeq(dist, sum, max)[0] == first;
    } else {
      assert LineSeq(dist, sum, max)[j] == rest[j - 1];
      LineSeqAt(dist, sum + 1, max, j - 1, k);
    }
  }

  /** Split at line breaks, the text of a line p followed by the lines from
      sum (iterator and sums in step) is p and then one line per sum. */
  lemma {:induction false} LinesSplit(p: string, dist: map<nat, int>, sum: nat, max: nat)
    requires '\n' !in p
    requires forall k: nat :: sum <= k <= max ==> k in dist
    ensures Split(p + Lines(dist, sum, sum, max), '\n') == [p] + LineSeq(dist, sum, max)
    decreases max + 1 - sum
  {
    if sum > max {
      assert p + Lines(dist, sum, sum, max) == p;
      SplitSingle(p, '\n');
    } else {
      var line := Line(sum, dist[sum]);
      var rest := Lines(dist, sum + 1, sum + 1, max);
      assert p + Lines(dist, sum, sum, max) == p + ['\n'] + (line + rest) by {
        ConcatAssoc(['\n'], line, rest);
        ConcatAssoc(p, ['\n'], line + rest);
      }
      SplitPrefix(p, '\n', line + rest);
      LinesSplit(line, dist, sum + 1, max);
      assert LineSeq(dist, sum, max) == [line] + LineSeq(dist, sum + 1, max);
    }
  }

  /** `into_string` of a distribution whose iterator has not been advanced:
      the header line, then one "{sum}: {count}" line for each sum
      min..=max in ascending order. */
  lemma IntoStringLines(d: Distribution)
    requires Keys(d.dist, d.min, d.max)
    ensures Split(d.Header() + Lines(d.dist, d.min, d.min, d.max), '\n') == [d.Header()] + LineSeq(d.dist, d.min, d.max)
  {
    LinesSplit(d.Header(), d.dist, d.min, d.max);
  }

  /** The empty distribution renders as its header alone. */
  lemma IntoStringEmpty(d: Distribution)
    requires d.dist == map[]
    ensures d.Header() + Lines(d.dist, d.pos, d.min, d.max) == d.Header()
  {
  }

  /** For a well-formed distribution the iterator yields a count exactly at
      the sums min..=max, so from pos = min it yields them in ascending
      order and then `None`. */
  lemma GetInRange(d: Distribution, p: nat)
    requires d.Valid()
    ensures d.Get(p).Some? <==> d.min <= p <= d.max
  {
  }

  /** A map whose keys are exactly lo..=hi has hi - lo + 1 entries. */
  lemma {:induction false} KeyCount(m: map<nat, int>, lo: nat, hi: nat)
    requires lo <= hi + 1 && Keys(m, lo, hi)
    ensures |m| == hi + 1 - lo
    decreases hi + 1 - lo
  {
    if lo == hi + 1 {
      assert m.Keys == {};
    } else {
      var rest := m - {lo};
      assert Keys(rest, lo + 1, hi);
      KeyCount(rest, lo + 1, hi);
      assert m.Keys == rest.Keys + {lo};
    }
  }

  /** For a well-formed distribution, `len` is the number of entries of the
      map. */
  lemma LenCountsEntries(d: Distribution)
    requires d.Valid()
    ensures d.Len() == |d.dist|
  {
    KeyCount(d.dist, d.min, d.max);
  }

  /** Comparison by size is antisymmetric. */
  lemma CmpFlips(a: Distribution, b: Distribution)
    ensures a.Cmp(b) == Less <==> b.Cmp(a) == Greater
    ensures a.Cmp(b) == Equal <==> b.Cmp(a) == Equal
  {
  }

  /** The state of `Add`'s loop after i sums: exactly the sums lo..lo+i
      are keys, those in the lower half hold their window sums, and those
      in the upper half the count of their mirror image. */
  ghost predicate Filled(m: map<nat, int>, lo: nat, hi: nat, hw: nat, i: nat,
                         sm: map<nat, int>, smin: nat, lg: map<nat, int>, ssize: nat)
    requires smin <= lo
  {
    && (forall k: nat :: k in m <==> lo <= k < lo + i)
    && (forall k: nat :: lo <= k < lo + i && k < lo + hw ==>
          Count(m, k) == WindowSum(sm, smin, lg, lo, k - lo, Window(k - lo, ssize)))
    && (forall k: nat :: lo + hw <= k < lo + i ==> Count(m, k) == Count(m, lo + hi - k))
  }

  /** Inserting the window sum of a lower-half sum. */
  lemma FillLower(m: map<nat, int>, lo: nat, hi: nat, hw: nat, i: nat,
                  sm: map<nat, int>, smin: nat, lg: map<nat, int>, ssize: nat)
    requires smin <= lo && i < hw && Filled(m, lo, hi, hw, i, sm, smin, lg, ssize)
    ensures Filled(m[lo + i := WindowSum(sm, smin, lg, lo, i, Window(i, ssize))], lo, hi, hw, i + 1, sm, smin, lg, ssize)
  {
    var w := WindowSum(sm, smin, lg, lo, i, Window(i, ssize));
    var m' := m[lo + i := w];
    assert forall k: nat :: k in m' <==> lo <= k < lo + i + 1;
    forall k: nat | lo <= k < lo + i + 1 && k < lo + hw
      ensures Count(m', k) == WindowSum(sm, smin, lg, lo, k - lo, Window(k - lo, ssize))
    {
      if k < lo + i {
        assert Count(m', k) == Count(m, k);
      } else {
        assert Count(m', k) == w;
      }
    }
  }

  /** Copying into an upper-half sum the count of its mirror image, which
      is already a key. */
  lemma FillMirror(m: map<nat, int>, lo: nat, hi: nat, hw: nat, i: nat,
                   sm: map<nat, int>, smin: nat, lg: map<nat, int>, ssize: nat)
    requires smin <= lo <= hi && hw == Halfway(hi - lo + 1) && hw <= i <= hi - lo
    requires Filled(m, lo, hi, hw, i, sm, smin, lg, ssize)
    ensures hi - i in m
    ensures Filled(m[i + lo := m[hi - i]], lo, hi, hw, i + 1, sm, smin, lg, ssize)
  {
    var j: nat := hi - i;
    assert lo <= j < lo + hw;
    var m' := m[i + lo := m[j]];
    forall k: nat | lo <= k < lo + i + 1 && k < lo + hw
      ensures Count(m', k) == WindowSum(sm, smin, lg, lo, k - lo, Window(k - lo, ssize))
    {
      assert Count(m', k) == Count(m, k);
    }
    forall k: nat | lo + hw <= k < lo + i + 1
      ensures Count(m', k) == Count(m', lo + hi - k)
    {
      if k < lo + i {
        assert Count(m, k) == Count(m, lo + hi - k);
      }
    }
  }

  /** After the last sum: the keys are exactly lo..=hi and the upper half
      mirrors the lower. */
  lemma FilledAll(m: map<nat, int>, lo: nat, hi: nat, hw: nat,
                  sm: map<nat, int>, smin: nat, lg: map<nat, int>, ssize: nat)
    requires smin <= lo <= hi && hw == Halfway(hi - lo + 1)
    requires Filled(m, lo, hi, hw, hi - lo + 1, sm, smin, lg, ssize)
    ensures Keys(m, lo, hi) && MirrorsUpper(m, lo, hi, hw)
  {
  }

  /** The window sums of the lower half are the convolution of the two
      operands' counts. */
  lemma LowerHalf(sm: map<nat, int>, smin: nat, smax: nat, ssize: nat, lg: map<nat, int>, lmin: nat, lmax: nat,
                  m: map<nat, int>, lo: nat, hi: nat, hw: nat)
    requires smin <= smax && ssize == smax - smin + 1 && Within(sm, smin, smax)
    requires lmin <= lmax && Within(lg, lmin, lmax)
    requires lo == smin + lmin && lo <= hi && hw == Halfway(hi - lo + 1)
    requires Filled(m, lo, hi, hw, hi - lo + 1, sm, smin, lg, ssize)
    ensures LowerMatches(m, lo, hw, Counts(sm), Counts(lg))
  {
    forall k: nat | lo <= k < lo + hw
      ensures Count(m, k) == ConvAt(Counts(sm), Counts(lg), k)
    {
      var i: nat := k - lo;
      var r := Window(i, ssize);
      assert Count(m, k) == WindowSum(sm, smin, lg, lo, i, r) by {
        assert k < lo + (hi - lo + 1);
      }
      assert WindowSum(sm, smin, lg, lo, i, r) == ConvAt(Counts(sm), Counts(lg), k) by {
        WindowIsConv(sm, smin, smax, lg, lmin, lmax, lo, i, r, k);
      }
    }
  }

  /** The order of the operands does not matter to the lower half. */
  lemma LowerSwapped(m: map<nat, int>, lo: nat, hw: nat, f: int -> int, g: int -> int)
    requires LowerMatches(m, lo, hw, f, g)
    ensures LowerMatches(m, lo, hw, g, f)
  {
    forall k: nat | lo <= k < lo + hw
      ensures Count(m, k) == ConvAt(g, f, k)
    {
      ConvCommutes(f, g, k);
    }
  }

  /** A sum in the upper half has its mirror image in the lower half. */
  lemma MirrorInLowerHalf(lo: nat, hi: nat, hw: nat, k: nat)
    requires lo <= hi && hw == Halfway(hi - lo + 1)
    requires lo + hw <= k <= hi
    ensures lo <= lo + hi - k < lo + hw
  {
  }

  /** Half plus mirror is the whole convolution at one sum. */
  lemma HalfMirrorAt(f: int -> int, g: int -> int, m: map<nat, int>, lo: nat, hi: nat, hw: nat, k: nat)
    requires lo <= hi && hw == Halfway(hi - lo + 1)
    requires Symmetric(Convolved(f, g), lo, hi)
    requires LowerMatches(m, lo, hw, f, g) && MirrorsUpper(m, lo, hi, hw)
    requires lo <= k <= hi
    ensures Count(m, k) == ConvAt(f, g, k)
  {
    if lo + hw <= k {
      MirrorInLowerHalf(lo, hi, hw, k);
      var j: nat := lo + hi - k;
      assert Count(m, k) == Count(m, j);
      assert Mirrored(Convolved(f, g), lo, hi, k);
    }
  }

  /** If both operands are symmetric, computing the lower half and copying
      the upper half from its mirror image gives the full convolution at
      every sum. */
  lemma HalfMirrorIsConv(f: int -> int, alo: nat, ahi: nat, g: int -> int, blo: nat, bhi: nat,
                         m: map<nat, int>, lo: nat, hi: nat, hw: nat)
    requires alo <= ahi && Support(f, alo, ahi) && Symmetric(f, alo, ahi)
    requires blo <= bhi && Support(g, blo, bhi) && Symmetric(g, blo, bhi)
    requires lo == alo + blo && hi == ahi + bhi && hw == Halfway(hi - lo + 1)
    requires Within(m, lo, hi)
    requires LowerMatches(m, lo, hw, f, g) && MirrorsUpper(m, lo, hi, hw)
    ensures IsConvolution(m, f, g)
  {
    ConvSymmetric(f, alo, ahi, g, blo, bhi, lo, hi);
    ConvSupport(f, alo, ahi, g, blo, bhi);
    forall k
      ensures Count(m, k) == ConvAt(f, g, k)
    {
      if lo <= k <= hi {
        HalfMirrorAt(f, g, m, lo, hi, hw, k);
      } else {
        assert Convolved(f, g)(k) == 0;
      }
    }
  }

  /** Counts equal to a symmetric function are symmetric. */
  lemma SymmetricCounts(m: map<nat, int>, h: int -> int, lo: nat, hi: nat)
    requires forall k :: Count(m, k) == h(k)
    requires Symmetric(h, lo, hi)
    ensures Symmetric(Counts(m), lo, hi)
  {
    forall x
      ensures Mirrored(Counts(m), lo, hi, x)
    {
      assert Mirrored(h, lo, hi, x);
      assert Count(m, x) == h(x) && Count(m, lo + hi - x) == h(lo + hi - x);
    }
  }

  /** The total of the combined counts is the product of the totals. */
  lemma CombinedTotal(f: int -> int, alo: nat, ahi: nat, g: int -> int, blo: nat, bhi: nat,
                      m: map<nat, int>, lo: nat, hi: nat)
    requires alo <= ahi && Support(f, alo, ahi)
    requires blo <= bhi && Support(g, blo, bhi)
    requires lo == alo + blo && hi == ahi + bhi
    requires IsConvolution(m, f, g)
    ensures Total(Counts(m), lo, hi) == Total(g, blo, bhi) * Total(f, alo, ahi)
  {
    forall k | lo <= k < hi + 1
      ensures Counts(m)(k) == Convolved(f, g)(k)
    {
    }
    SumExt(lo, hi + 1, Counts(m), Convolved(f, g));
    ConvTotal(f, alo, ahi, g, blo, bhi, lo, hi);
  }

  /** What `Add` promises for two well-formed operands: the convolution at
      every sum, symmetric, with the product of the operands' totals. */
  lemma AddValid(a: map<nat, int>, amin: nat, amax: nat, b: map<nat, int>, bmin: nat, bmax: nat,
                 m: map<nat, int>, lo: nat, hi: nat, hw: nat)
    requires amin <= amax && Within(a, amin, amax) && Symmetric(Counts(a), amin, amax)
    requires bmin <= bmax && Within(b, bmin, bmax) && Symmetric(Counts(b), bmin, bmax)
    requires lo == amin + bmin && hi == amax + bmax && hw == Halfway(hi - lo + 1)
    requires Within(m, lo, hi)
    requires LowerMatches(m, lo, hw, Counts(a), Counts(b)) && MirrorsUpper(m, lo, hi, hw)
    ensures IsConvolution(m, Counts(a), Counts(b))
    ensures Symmetric(Counts(m), lo, hi)
    ensures Total(Counts(m), lo, hi) == Total(Counts(b), bmin, bmax) * Total(Counts(a), amin, amax)
  {
    var f, g := Counts(a), Counts(b);
    assert Support(f, amin, amax) && Support(g, bmin, bmax) by {
      WithinSupport(a, amin, amax);
      WithinSupport(b, bmin, bmax);
    }
    HalfMirrorIsConv(f, amin, amax, g, bmin, bmax, m, lo, hi, hw);
    assert Symmetric(Counts(m), lo, hi) by {
      ConvSymmetric(f, amin, amax, g, bmin, bmax, lo, hi);
      SymmetricCounts(m, Convolved(f, g), lo, hi);
    }
    CombinedTotal(f, amin, amax, g, bmin, bmax, m, lo, hi);
  }
}
