/** src/dice.rs: a die is its number of sides, a dice set is a sequence of
    dice kept sorted by sides; the text notation is "MdN" tokens separated
    by single spaces, each token standing for M dice with N sides. */
module Dice {
  import opened Wrappers
  import opened Text

  /** Rust's `u8`. */
  type u8 = x: int | 0 <= x < 0x100

  const U8_MAX: nat := 0xFF
  /** Rust's `usize::MAX` on a 64-bit target. */
  const USIZE_MAX: nat := 0xFFFF_FFFF_FFFF_FFFF

  /** `std::io::ErrorKind`: the dice parser only reports invalid data. */
  datatype ErrorKind = InvalidData

  /** `std::io::Error` as built by `Error::new(kind, message)`. */
  datatype IoError = IoError(kind: ErrorKind, message: string)

  const SIDES_ERROR := IoError(InvalidData, "Number of sides must be an integer")
  const COUNT_ERROR := IoError(InvalidData, "Number of dice must be an integer")
  const FORMAT_ERROR := IoError(InvalidData, "Incorrect string format")

  /** A die with `n` sides (`Die { n: u8 }`); equality and order are those of `n`. */
  datatype Die = Die(n: u8) {

    /** `Die::len`: the number of sides as a `usize`. */
    function Len(): (r: nat)
      ensures r <= U8_MAX && r == n
    {
      n
    }

    /** `ToString for Die`: "d" followed by the number of sides. */
    function ToString(): (s: string)
      ensures |s| >= 2 && s[0] == 'd' && AllDigits(s[1..])
    {
      "d" + NatToString(n)
    }

    /** `FromStr for Die`: one leading 'd' is dropped, the rest must parse as a `u8`. */
    static function FromStr(s: string): (r: Result<Die, IoError>)
      ensures r.Failure? ==> r.error == SIDES_ERROR
      ensures r.Success? ==> var digits := if |s| > 0 && s[0] == 'd' then s[1..] else s;
                             ParseUnsigned(digits, U8_MAX) == Some(r.value.n as nat)
      ensures var digits := if |s| > 0 && s[0] == 'd' then s[1..] else s;
              r.Success? <==> ParseUnsigned(digits, U8_MAX).Some?
    {
      var digits := if |s| > 0 && s[0] == 'd' then s[1..] else s;
      match ParseUnsigned(digits, U8_MAX)
      case Some(v) => Success(Die(v))
      case None => Failure(SIDES_ERROR)
    }

    /** `Default for Die`: a six-sided die. */
    static function Default(): (d: Die)
      ensures d.n == 6
    {
      Die(6)
    }
  }

  /** Round trip: parsing the rendering of a die gives the die back. */
  lemma DieRoundTrip(d: Die)
    ensures Die.FromStr(d.ToString()) == Success(d)
  {
    ParseNatToString(d.n, U8_MAX);
    assert d.ToString()[1..] == NatToString(d.n);
  }

  /** The leading 'd' is optional, and a side count that does not fit a
      `u8` is rejected; "0" is accepted. */
  lemma DieFromNumber(k: nat)
    ensures Die.FromStr(NatToString(k)) == if k <= U8_MAX then Success(Die(k)) else Failure(SIDES_ERROR)
    ensures Die.FromStr("d" + NatToString(k)) == Die.FromStr(NatToString(k))
  {
    ParseNatToString(k, U8_MAX);
    assert ("d" + NatToString(k))[1..] == NatToString(k);
  }

  /** At most one 'd' is dropped: a second one is not a digit. */
  lemma DieTwoLeadingDs(t: string)
    ensures Die.FromStr("dd" + t) == Failure(SIDES_ERROR)
  {
    var s := "dd" + t;
    assert s[1..][0] == 'd';
  }

  /** Dice in non-decreasing order of sides (`Vec::sort` on the derived `Ord`). */
  predicate Sorted(dice: seq<Die>) {
    forall i, j :: 0 <= i < j < |dice| ==> dice[i].n <= dice[j].n
  }

  /** Two sorted sequences holding the same dice are equal, so sorting has
      exactly one possible result. */
  lemma {:induction false} SortedUnique(a: seq<Die>, b: seq<Die>)
    requires Sorted(a) && Sorted(b) && multiset(a) == multiset(b)
    ensures a == b
    decreases |a|
  {
    assert |a| == |multiset(a)| == |multiset(b)| == |b|;
    if |a| > 0 {
      LeastFirst(a, b[0]);
      LeastFirst(b, a[0]);
      TailsAgree(a, b);
      SortedUnique(a[1..], b[1..]);
      assert a == [a[0]] + a[1..] && b == [b[0]] + b[1..];
    }
  }

  /** Removing equal first elements keeps the multisets equal and the
      sequences sorted. */
  lemma TailsAgree(a: seq<Die>, b: seq<Die>)
    requires Sorted(a) && Sorted(b) && multiset(a) == multiset(b)
    requires |a| > 0 && |b| > 0 && a[0].n == b[0].n
    ensures multiset(a[1..]) == multiset(b[1..])
    ensures Sorted(a[1..]) && Sorted(b[1..])
  {
    assert a[0] == b[0];
    MultisetTail(a);
    MultisetTail(b);
  }

  lemma MultisetTail(a: seq<Die>)
    requires |a| > 0
    ensures multiset(a[1..]) == multiset(a) - multiset{a[0]}
  {
    assert a == [a[0]] + a[1..];
  }

  /** The first die of a sorted sequence has the fewest sides. */
  lemma LeastFirst(a: seq<Die>, d: Die)
    requires Sorted(a) && |a| > 0 && d in multiset(a)
    ensures a[0].n <= d.n
  {
    assert d in a;
  }

  /** Swap two cells of an array. */
  method Swap(a: array<Die>, i: nat, j: nat)
    requires i < a.Length && j < a.Length
    modifies a
    ensures a[..] == old(a[..])[i := old(a[j])][j := old(a[i])]
    ensures multiset(a[..]) == old(multiset(a[..]))
  {
    a[i], a[j] := a[j], a[i];
  }

  /** `slice::sort` on the dice, in place: the result is sorted and holds the same dice. */
  method SortDice(a: array<Die>)
    modifies a
    ensures Sorted(a[..])
    ensures multiset(a[..]) == old(multiset(a[..]))
  {
    if a.Length == 0 {
      return;
    }
    var i := 1;
    while i < a.Length
      invariant 1 <= i <= a.Length
      invariant Sorted(a[..i])
      invariant multiset(a[..]) == old(multiset(a[..]))
    {
      Insert(a, i);
      i := i + 1;
    }
    assert a[..i] == a[..];
  }

  /** Moves a[i] down into the sorted prefix a[..i]. */
  method Insert(a: array<Die>, i: nat)
    requires i < a.Length && Sorted(a[..i])
    modifies a
    ensures Sorted(a[..i + 1])
    ensures a[i + 1..] == old(a[i + 1..])
    ensures multiset(a[..]) == old(multiset(a[..]))
  {
    var j := i;
    while j > 0 && a[j - 1].n > a[j].n
      invariant 0 <= j <= i
      invariant a[i + 1..] == old(a[i + 1..])
      invariant forall x, y :: 0 <= x < y <= i && x != j && y != j ==> a[x].n <= a[y].n
      invariant forall y :: j < y <= i ==> a[j].n <= a[y].n
      invariant multiset(a[..]) == old(multiset(a[..]))
    {
      Swap(a, j - 1, j);
      j := j - 1;
    }
  }

  /** `DiceSet`: the dice of a set, sorted by sides (every constructor sorts). */
  datatype DiceSet = DiceSet(dice: seq<Die>) {

    predicate Valid() {
      Sorted(dice)
    }

    /** `DiceSet::len`: the number of dice. */
    function Len(): (r: nat)
      ensures r == |dice|
    {
      |dice|
    }

    /** `DiceSet::get`: the die at an index, `None` past the end. */
    function Get(ind: nat): (r: Option<Die>)
      ensures r.Some? <==> ind < |dice|
      ensures r.Some? ==> r.value == dice[ind]
    {
      if ind < |dice| then Some(dice[ind]) else None
    }

    /** `ToString for DiceSet`: the dice's renderings separated by one space. */
    function ToString(): (s: string)
      ensures |dice| == 0 ==> s == ""
      ensures |dice| > 0 ==> |s| >= 2 && s[0] == 'd'
    {
      Join(DieStrings(dice), " ")
    }
  }

  /** The rendering of a non-empty dice set splits at spaces into the
      renderings of its dice. */
  lemma ToStringSplits(ds: DiceSet)
    requires |ds.dice| > 0
    ensures Split(ds.ToString(), ' ') == DieStrings(ds.dice)
  {
    SplitJoin(DieStrings(ds.dice), ' ');
  }

  function DieStrings(dice: seq<Die>): (parts: seq<string>)
    ensures |parts| == |dice|
    ensures forall k :: 0 <= k < |dice| ==> parts[k] == dice[k].ToString() && ' ' !in parts[k]
  {
    seq(|dice|, k requires 0 <= k < |dice| => dice[k].ToString())
  }

  /** `DiceSet::new`: sorts the dice; the result is a sorted permutation of the input. */
  method New(dice: seq<Die>) returns (ds: DiceSet)
    ensures ds.Valid()
    ensures multiset(ds.dice) == multiset(dice)
  {
    var a := new Die[|dice|](k requires 0 <= k < |dice| => dice[k]);
    assert a[..] == dice;
    SortDice(a);
    ds := DiceSet(a[..]);
  }

  /** `DiceSet::from_die`: the set holding one die. */
  method FromDie(d: Die) returns (ds: DiceSet)
    ensures ds.Valid() && ds.dice == [d]
  {
    ds := New([d]);
    SortedUnique(ds.dice, [d]);
  }

  /** `DiceSet::from_u8`: the set holding one die with `n` sides. */
  method FromU8(n: u8) returns (ds: DiceSet)
    ensures ds.Valid() && ds.dice == [Die(n)]
  {
    ds := FromDie(Die(n));
  }

  /** `Default for DiceSet`: one six-sided die. */
  method Default() returns (ds: DiceSet)
    ensures ds.Valid() && ds.dice == [Die(6)]
  {
    ds := FromDie(Die.Default());
  }

  /** `DiceSet::partition`: the first `ind` dice and the rest, each a sorted
      set, concatenating back to the original. An index past the end is an
      out-of-bounds panic in the source, hence the precondition. */
  method Partition(ds: DiceSet, ind: nat) returns (left: DiceSet, right: DiceSet)
    requires ds.Valid()
    requires ind <= ds.Len()
    ensures left.Valid() && right.Valid()
    ensures left.dice == ds.dice[..ind] && right.dice == ds.dice[ind..]
    ensures left.dice + right.dice == ds.dice
  {
    var rest := ds.dice;
    var drained := rest[..ind];
    rest := rest[ind..];
    left := New(drained);
    right := New(rest);
    SortedUnique(left.dice, ds.dice[..ind]);
    SortedUnique(right.dice, ds.dice[ind..]);
    assert ds.dice[..ind] + ds.dice[ind..] == ds.dice;
  }

  /** The dice one token "MdN" stands for: only the first two pieces of the
      token split at 'd' are used; the die N is parsed before the count M,
      so a bad N is reported even when M is bad too. */
  function ParseToken(tok: string): (r: Result<seq<Die>, IoError>)
    ensures r.Failure? ==> r.error in {SIDES_ERROR, COUNT_ERROR, FORMAT_ERROR}
    ensures r == Failure(FORMAT_ERROR) <==> 'd' !in tok
  {
    var pieces := Split(tok, 'd');
    SplitDCount(tok);
    if |pieces| < 2 then Failure(FORMAT_ERROR)
    else
      match Die.FromStr(pieces[1])
      case Failure(e) => Failure(e)
      case Success(die) =>
        match ParseUnsigned(pieces[0], USIZE_MAX)
        case None => Failure(COUNT_ERROR)
        case Some(m) => Success(seq(m, _ => die))
  }

  /** A string holding the separator splits into at least two pieces. */
  lemma {:induction false} SplitDCount(s: string)
    ensures 'd' in s <==> |Split(s, 'd')| >= 2
    decreases |s|
  {
    if |s| > 0 {
      SplitDCount(s[1..]);
      assert 'd' in s <==> s[0] == 'd' || 'd' in s[1..];
    }
  }

  /** Sequencing of two parse results: the first error wins, otherwise the
      dice are concatenated (what `?` inside `try_for_each` does). */
  function Then(x: Result<seq<Die>, IoError>, y: Result<seq<Die>, IoError>): (r: Result<seq<Die>, IoError>)
    ensures r.Success? <==> x.Success? && y.Success?
    ensures r.Failure? ==> r.error == if x.Failure? then x.error else y.error
    ensures r.Success? ==> r.value == x.value + y.value
  {
    match x
    case Failure(e) => Failure(e)
    case Success(a) =>
      match y
      case Failure(e) => Failure(e)
      case Success(b) => Success(a + b)
  }

  /** The dice the tokens stand for, in order; the first failing token's
      error aborts the whole parse. */
  function ParseTokens(toks: seq<string>): (r: Result<seq<Die>, IoError>)
    ensures r.Success? <==> forall i :: 0 <= i < |toks| ==> ParseToken(toks[i]).Success?
    ensures r.Failure? ==> exists i: nat :: FirstFailure(toks, i) && r.error == ParseToken(toks[i]).error
    decreases |toks|
  {
    if |toks| == 0 then Success([]) else Then(ParseToken(toks[0]), ParseTokens(toks[1..]))
  }

  /** Token i is the first one that fails to parse. */
  predicate FirstFailure(toks: seq<string>, i: nat) {
    i < |toks| && ParseToken(toks[i]).Failure? &&
    forall j :: 0 <= j < i ==> ParseToken(toks[j]).Success?
  }

  lemma ThenAssociative(x: Result<seq<Die>, IoError>, y: Result<seq<Die>, IoError>, z: Result<seq<Die>, IoError>)
    ensures Then(x, Then(y, z)) == Then(Then(x, y), z)
  {
    if x.Success? && y.Success? && z.Success? {
      assert x.value + (y.value + z.value) == (x.value + y.value) + z.value;
    }
  }

  /** Parsing a concatenation of token lists: the first error wins, otherwise
      the dice are concatenated in order. */
  lemma {:induction false} ParseTokensConcat(a: seq<string>, b: seq<string>)
    ensures ParseTokens(a + b) == Then(ParseTokens(a), ParseTokens(b))
    decreases |a|
  {
    if |a| == 0 {
      assert a + b == b;
      if ParseTokens(b).Success? {
        assert [] + ParseTokens(b).value == ParseTokens(b).value;
      }
    } else {
      assert (a + b)[0] == a[0];
      assert (a + b)[1..] == a[1..] + b;
      ParseTokensConcat(a[1..], b);
      ThenAssociative(ParseToken(a[0]), ParseTokens(a[1..]), ParseTokens(b));
    }
  }

  /** One step of the left-to-right parse: a failing token ends the parse
      with its error, a good one appends its dice. */
  lemma ParseTokensStep(toks: seq<string>, k: nat, dice: seq<Die>)
    requires k < |toks| && ParseTokens(toks[..k]) == Success(dice)
    ensures ParseToken(toks[k]).Failure? ==> ParseTokens(toks) == Failure(ParseToken(toks[k]).error)
    ensures ParseToken(toks[k]).Success? ==> ParseTokens(toks[..k + 1]) == Success(dice + ParseToken(toks[k]).value)
  {
    SliceFacts(toks, k);
    var t := ParseToken(toks[k]);
    assert ParseTokens([toks[k]]) == Then(t, ParseTokens([])) by {
      assert [toks[k]][1..] == [];
    }
    assert Then(t, Success([])) == t by {
      if t.Success? { assert t.value + [] == t.value; }
    }
    ParseTokensConcat(toks[..k], [toks[k]]);
    ParseTokensConcat(toks[..k + 1], toks[k + 1..]);
  }

  lemma SliceFacts(toks: seq<string>, k: nat)
    requires k < |toks|
    ensures toks[..k] + [toks[k]] == toks[..k + 1]
    ensures toks[..k + 1] + toks[k + 1..] == toks
  {
  }

  /** `FromStr for DiceSet`: the string is split at every single space, each
      token's dice are appended in turn, the first failing token aborts with
      its error, and the collected dice are sorted. */
  method FromStr(s: string) returns (r: Result<DiceSet, IoError>)
    ensures r.Failure? <==> ParseTokens(Split(s, ' ')).Failure?
    ensures r.Failure? ==> r.error == ParseTokens(Split(s, ' ')).error
    ensures r.Success? ==> r.value.Valid()
    ensures r.Success? ==> multiset(r.value.dice) == multiset(ParseTokens(Split(s, ' ')).value)
  {
    var tokens := Split(s, ' ');
    var dice: seq<Die> := [];
    var k := 0;
    while k < |tokens|
      invariant 0 <= k <= |tokens|
      invariant ParseTokens(tokens[..k]) == Success(dice)
    {
      ParseTokensStep(tokens, k, dice);
      var pieces := Split(tokens[k], 'd');
      if |pieces| < 2 {
        return Failure(FORMAT_ERROR);
      }
      var die := Die.FromStr(pieces[1]);
      if die.Failure? {
        return Failure(die.error);
      }
      var m := ParseUnsigned(pieces[0], USIZE_MAX);
      if m.None? {
        return Failure(COUNT_ERROR);
      }
      dice := dice + seq(m.value, _ => die.value);
      k := k + 1;
    }
    assert tokens[..k] == tokens;
    var ds := New(dice);
    return Success(ds);
  }

  /** Each token "MdN" written with decimal M and N stands for M dice with N
      sides, as long as both fit their types. */
  lemma TokenRoundTrip(m: nat, k: nat)
    requires m <= USIZE_MAX && k <= U8_MAX
    ensures ParseToken(NatToString(m) + "d" + NatToString(k)) == Success(seq(m, _ => Die(k)))
  {
    var tok := NatToString(m) + "d" + NatToString(k);
    assert 'd' !in NatToString(m) && 'd' !in NatToString(k);
    SplitPrefix(NatToString(m), 'd', NatToString(k));
    SplitSingle(NatToString(k), 'd');
    DieFromNumber(k);
    ParseNatToString(m, USIZE_MAX);
  }

  /** The errors of a token "MdN": the die N is parsed first, so a bad N
      gives the sides error whatever M is; with a good N, an M that is not
      a `usize` gives the count error; with both good, M copies of the die. */
  lemma TokenErrors(m: string, k: string)
    requires 'd' !in m && 'd' !in k
    ensures Die.FromStr(k).Failure? ==> ParseToken(m + "d" + k) == Failure(SIDES_ERROR)
    ensures Die.FromStr(k).Success? && ParseUnsigned(m, USIZE_MAX).None? ==>
              ParseToken(m + "d" + k) == Failure(COUNT_ERROR)
    ensures Die.FromStr(k).Success? && ParseUnsigned(m, USIZE_MAX).Some? ==>
              ParseToken(m + "d" + k) == Success(seq(ParseUnsigned(m, USIZE_MAX).value, _ => Die.FromStr(k).value))
  {
    SplitPrefix(m, 'd', k);
    SplitSingle(k, 'd');
    assert m + "d" + k == m + ['d'] + k;
  }

  /** Only the first two 'd'-separated pieces of a token are read: whatever
      follows a second 'd' is ignored. */
  lemma TokenIgnoresTail(m: string, k: string, tail: string)
    requires 'd' !in m && 'd' !in k
    ensures ParseToken(m + "d" + k + "d" + tail) == ParseToken(m + "d" + k)
  {
    SplitPrefix(m, 'd', k + "d" + tail);
    SplitPrefix(k, 'd', tail);
    assert m + "d" + k + "d" + tail == m + ['d'] + (k + ['d'] + tail);
    SplitPrefix(m, 'd', k);
    SplitSingle(k, 'd');
    assert m + "d" + k == m + ['d'] + k;
  }

  /** The rendering of a dice set ("d6 d8") does not parse back: every
      token lacks its count, and the empty set renders as "". */
  lemma ToStringDoesNotParse(ds: DiceSet)
    ensures ParseTokens(Split(ds.ToString(), ' ')).Failure?
  {
    var toks := Split(ds.ToString(), ' ');
    if |ds.dice| == 0 {
      assert toks == [""];
    } else {
      var t := ds.dice[0].ToString();
      ToStringSplits(ds);
      assert toks[0] == t;
      SplitPrefix("", 'd', NatToString(ds.dice[0].n));
      assert "" + ['d'] + NatToString(ds.dice[0].n) == t;
      assert Split(t, 'd')[0] == "";
      assert ParseToken(t).Failure?;
    }
  }
}
