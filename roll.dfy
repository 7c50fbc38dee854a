/** src/roll.rs: the outcome of rolling a set of dice, an iterator over the
    dice paired with the faces they show, and its text rendering. */
module Roll {
  import opened Wrappers
  import opened Text
  import opened Dice

  /** The item the iterator yields at index k: the k-th die and the face it
      shows, `None` once k is past the last die. The face is read only
      while there is a die, so only then must it exist. */
  function PairAt(dice: seq<Die>, outcomes: seq<u8>, k: nat): (r: Option<(Die, u8)>)
    requires k < |dice| ==> k < |outcomes|
    ensures r.Some? <==> k < |dice|
    ensures r.Some? ==> r.value.0 == dice[k] && r.value.1 == outcomes[k]
  {
    if k < |dice| then Some((dice[k], outcomes[k])) else None
  }

  /** One line of `into_string`: the die, a colon, the face. */
  function RollLine(d: Die, v: u8): (s: string)
    ensures '\n' !in s
  {
    var name := d.ToString();
    assert '\n' !in name by {
      assert name == [name[0]] + name[1..];
    }
    name + ": " + NatToString(v)
  }

  /** The lines for the dice from index k on, in order. */
  function RollLines(dice: seq<Die>, outcomes: seq<u8>, k: nat): (lines: seq<string>)
    requires k < |dice| ==> |dice| <= |outcomes|
    ensures |lines| == if k < |dice| then |dice| - k else 0
    ensures forall j :: k <= j < |dice| ==> lines[j - k] == RollLine(dice[j], outcomes[j])
    decreases |dice| - k
  {
    if k >= |dice| then [] else [RollLine(dice[k], outcomes[k])] + RollLines(dice, outcomes, k + 1)
  }

  /** `Outcome`: the dice, the faces rolled, and the iteration position,
      the only field that changes. */
  class Outcome {
    const dice: seq<Die>
    const outcomes: seq<u8>
    var pos: nat

    /** `Outcome::new`: iteration starts at the first die. */
    constructor (dice: seq<Die>, outcomes: seq<u8>)
      ensures this.dice == dice && this.outcomes == outcomes && pos == 0
    {
      this.dice := dice;
      this.outcomes := outcomes;
      pos := 0;
    }

    /** `Iterator::next`: the die at the current position with its face, or
        `None` past the last die; the position advances either way. Reading
        the face of a die beyond the faces rolled panics in the source. */
    method Next() returns (r: Option<(Die, u8)>)
      requires pos < |dice| ==> pos < |outcomes|
      modifies this
      ensures pos == old(pos) + 1
      ensures r == PairAt(dice, outcomes, old(pos))
    {
      pos := pos + 1;
      if pos - 1 >= |dice| {
        return None;
      }
      r := Some((dice[pos - 1], outcomes[pos - 1]));
    }

    /** `into_string`: one line per remaining die, joined by line breaks. */
    method IntoString() returns (s: string)
      requires pos < |dice| ==> |dice| <= |outcomes|
      modifies this
      ensures s == Join(RollLines(dice, outcomes, old(pos)), "\n")
    {
      var lines: seq<string> := [];
      while true
        invariant pos < |dice| ==> |dice| <= |outcomes|
        invariant lines + RollLines(dice, outcomes, pos) == RollLines(dice, outcomes, old(pos))
        decreases |dice| - pos
      {
        ghost var p := pos;
        var item := Next();
        if item.None? {
          assert lines + [] == lines;
          break;
        }
        var (d, v) := item.value;
        var line := RollLine(d, v);
        ghost var rest := RollLines(dice, outcomes, pos);
        RollLinesStep(dice, outcomes, p, pos);
        LinesAssoc(lines, line, rest);
        lines := lines + [line];
      }
      s := Join(lines, "\n");
    }
  }

  lemma RollLinesStep(dice: seq<Die>, outcomes: seq<u8>, k: nat, next: nat)
    requires k < |dice| <= |outcomes| && next == k + 1
    ensures RollLines(dice, outcomes, k) == [RollLine(dice[k], outcomes[k])] + RollLines(dice, outcomes, next)
  {
  }

  lemma LinesAssoc(lines: seq<string>, line: string, rest: seq<string>)
    ensures (lines + [line]) + rest == lines + ([line] + rest)
  {
  }

  /** Splitting the rendering of an outcome with at least one die left at
      its line breaks gives back one line per die, in order. */
  lemma IntoStringSplits(dice: seq<Die>, outcomes: seq<u8>, k: nat)
    requires k < |dice| <= |outcomes|
    ensures Split(Join(RollLines(dice, outcomes, k), "\n"), '\n') == RollLines(dice, outcomes, k)
  {
    var lines := RollLines(dice, outcomes, k);
    forall j | 0 <= j < |lines|
      ensures '\n' !in lines[j]
    {
      assert lines[j] == RollLine(dice[k + j], outcomes[k + j]);
    }
    SplitJoin(lines, '\n');
  }

  /** Each line reads back as the die and the face: split at its one
      space, it is the die's rendering with a colon, then the face's digits. */
  lemma RollLineParts(d: Die, v: u8)
    ensures Split(RollLine(d, v), ' ') == [d.ToString() + ":", NatToString(v)]
  {
    var name := d.ToString();
    var digits := NatToString(v);
    assert ' ' !in name + ":" by {
      assert name == [name[0]] + name[1..];
    }
    assert RollLine(d, v) == (name + ":") + [' '] + digits;
    SplitPrefix(name + ":", ' ', digits);
    SplitSingle(digits, ' ');
  }
}
