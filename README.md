# rustydice in Dafny

A model of the core of rustydice, a dice calculator. It parses dice
notation such as "2d6 3d8" into a sorted dice set. It computes the exact
distribution of the sum of the dice: for each reachable sum, the number of
ways to roll it. It also renders a roll of the dice as text.

The model follows the source file by file:

- `dice.dfy` models src/dice.rs.
  - `Die` is a datatype over a `u8` number of sides.
  - `DiceSet` is a datatype over a sorted sequence of dice. `DiceSet::new` sorts in place on an array.
  - The dice notation and the renderings are functions, and `FromStr for DiceSet` is a method with a loop.
- `probability.dfy` models src/probability.rs.
  - `Distribution` is a class. Its count map, bounds, size and number of dice are constants. Its iteration position is the only field that changes.
  - `int_log`, `Add`, `TryFrom` and `into_string` are methods with loops.
  - `Add` is proved against the convolution of the two operands' counts. It computes only the lower half of the sums and copies the upper half from their mirror images. The proof shows this equals the full convolution when both operands are symmetric, and that the result is symmetric again.
  - `TryFrom` is proved against an independent count of face tuples. For every sum, its map holds the number of ways the dice can add up to that sum.
- `roll.dfy` models src/roll.rs. `Outcome` is a class whose iterator position advances on every `next`.
- Supporting modules:
  - `wrappers.dfy`: `Option` and `Result`.
  - `text.dfy`: Rust's `split`, `join`, and integer `Display`/`FromStr` on strings.
  - `sums.dfy`: finite sums.
  - `convolution.dfy`: convolution of count functions, with its window, symmetry, total and associativity.
  - `ways.dfy`: the reference count of face tuples and the convolution theorem for dice sequences.

Counts (`rug::Integer`) are unbounded `int`s. Sizes and keys (`usize`) are
`nat`s. Where a `usize` subtraction in the source would underflow, the model
states the condition that rules it out as a precondition.

## Model

| member | source | states |
|---|---|---|
| Dice.Die.Len | src/dice.rs:16-18 | the number of sides, at most 255 |
| Dice.Die.ToString | src/dice.rs:41-45 | the rendering is 'd' followed by decimal digits |
| Dice.Die.FromStr | src/dice.rs:47-54 | at most one leading 'd' is dropped; the result is a die exactly when the rest parses as a `u8`, and then its sides are that value; otherwise the error is "Number of sides must be an integer" |
| Dice.Die.Default | src/dice.rs:97-101 | the default die has six sides |
| Dice.DieRoundTrip | src/dice.rs:41-54 | parsing the rendering of any die gives the die back |
| Dice.DieFromNumber | src/dice.rs:47-54 | a bare number parses exactly when it is at most 255; the leading 'd' is optional |
| Dice.DieTwoLeadingDs | src/dice.rs:50 | only one 'd' is dropped: "dd…" is always an error |
| Dice.SortedUnique | src/dice.rs:63-66 | two sorted sequences of the same dice are equal, so sorting is deterministic |
| Dice.Swap | src/dice.rs:64 | swapping two cells exchanges them and keeps the multiset |
| Dice.SortDice | src/dice.rs:64 | in-place sort: the array ends sorted and holds the same dice |
| Dice.Insert | src/dice.rs:64 | one insertion step extends the sorted prefix, leaves the cells after it unchanged and keeps the multiset |
| Dice.New | src/dice.rs:63-66 | `DiceSet::new` returns a sorted permutation of its input |
| Dice.FromDie | src/dice.rs:68-70 | the set holding exactly that one die |
| Dice.FromU8 | src/dice.rs:72-74 | the set holding exactly one die with n sides |
| Dice.Default | src/dice.rs:103-107 | the default set is one six-sided die |
| Dice.DiceSet.Len | src/dice.rs:76-78 | the number of dice |
| Dice.DiceSet.Get | src/dice.rs:87-90 | `Some` exactly for an index below the length, holding that die |
| Dice.DiceSet.ToString | src/dice.rs:140-148 | empty for no dice, otherwise starts with a die's 'd' |
| Dice.DieStrings | src/dice.rs:142-145 | one rendering per die, in order, none with a space |
| Dice.ToStringSplits | src/dice.rs:140-148 | splitting the rendering at spaces gives back each die's rendering |
| Dice.Partition | src/dice.rs:92-94 | for an index at most the length: the first `ind` dice and the rest, both sorted, concatenating to the original |
| Dice.ParseToken | src/dice.rs:117-131 | a token without 'd' fails with "Incorrect string format" and only such a token does; every error is one of the three messages |
| Dice.TokenErrors | src/dice.rs:123-129 | for "MdN": a bad N gives "Number of sides must be an integer" whatever M is (N is parsed first); a good N with an M that is not a `usize` gives "Number of dice must be an integer"; both good give M copies of die N |
| Dice.SplitDCount | src/dice.rs:118-119 | a token has a second 'd'-piece exactly when it contains 'd' |
| Dice.Then | src/dice.rs:121-133 | `?` in `try_for_each`: succeeds exactly when both results do, the first error wins, and the dice are appended in order |
| Dice.ParseTokens | src/dice.rs:115-133 | succeeds exactly when every token parses; a failure carries the error of the first token that fails |
| Dice.ThenAssociative | src/dice.rs:121-133 | chaining token results with first-error-wins is associative |
| Dice.ParseTokensConcat | src/dice.rs:121-133 | parsing two token lists in turn is parsing their concatenation |
| Dice.ParseTokensStep | src/dice.rs:121-133 | a failing token ends the parse with its error; a good one appends its dice |
| Dice.FromStr | src/dice.rs:109-136 | fails exactly when a token fails, with the first token's error; on success the set is sorted and holds the tokens' dice |
| Dice.TokenRoundTrip | src/dice.rs:123-129 | "MdN" with decimal M and N stands for M dice with N sides |
| Dice.TokenIgnoresTail | src/dice.rs:118-119 | anything after a second 'd' in a token is ignored |
| Dice.ToStringDoesNotParse | src/dice.rs:109-148 | the rendering of a non-empty set ("d6 d8") does not parse back, because each token lacks its count |
| Text.Split | src/dice.rs:115 | `split` yields at least one piece, and no piece contains the separator |
| Text.Join | src/dice.rs:146 | `join` of no parts is empty, and the result starts with the first part (JoinSplit and SplitJoin make it the inverse of `split`) |
| Text.JoinSplit | src/dice.rs:146 | joining the pieces of a split with the separator restores the string |
| Text.SplitJoin | src/roll.rs:33 | splitting a join of separator-free parts gives the parts back |
| Text.NatToString | src/dice.rs:43 | decimal digits with no leading zero |
| Text.DigitsValueOfNatToString | src/dice.rs:43 | the digits of n read back as n |
| Text.IntToString | src/probability.rs:44 | a count renders without line breaks or spaces |
| Text.ParseUnsigned | src/dice.rs:50 | after one optional leading '+', the text parses exactly when it is one or more ASCII digits whose value is within the type's bound, and the result is that value; the empty string fails |
| Text.ParseNatToString | src/dice.rs:50 | a rendered number, with or without '+', parses back exactly when it fits the bound |
| Probability.IntLog | src/probability.rs:98-106 | a power of two; 1 for m <= 2; for m >= 2 it is below m and at least half of m, so both parts of the split are non-empty |
| Probability.Distribution.constructor | src/probability.rs:24-26 | the fields as given, with iteration starting at `min` |
| Probability.Distribution.Len | src/probability.rs:28-30 | the number of sums |
| Probability.LenCountsEntries | src/probability.rs:28-30 | for a well-formed distribution, `len` is the number of entries of the map |
| Probability.KeyCount | src/probability.rs:134-157 | a map whose keys are exactly lo..=hi has hi - lo + 1 entries |
| Probability.Distribution.Get | src/probability.rs:37-39 | `Some` exactly for a key of the map, holding its count |
| Probability.Distribution.Cmp | src/probability.rs:108-118 | Less, Equal or Greater exactly as the sizes compare |
| Probability.CmpFlips | src/probability.rs:108-118 | comparison by size is antisymmetric |
| Probability.Distribution.Next | src/probability.rs:162-168 | the count at the current position, `None` when it is not a key; the position advances either way |
| Probability.GetInRange | src/probability.rs:162-168 | for a well-formed distribution, the iterator yields a count exactly at the sums min..=max |
| Probability.Distribution.Header | src/probability.rs:42 | the header line has no line break |
| Probability.Line | src/probability.rs:44 | a "sum: count" line has no line break |
| Probability.Distribution.IntoString | src/probability.rs:41-47 | the header, then one "\n{sum}: {count}" per pair of iterator count and sum label, until either runs out |
| Probability.Lines | src/probability.rs:43-44 | the zip of the iterator with min..=max: empty exactly when the iterator is exhausted or the labels are, and otherwise each line starts with a line break |
| Probability.LineSeq | src/probability.rs:43-44 | one line for each sum of sum..=max |
| Probability.LineSeqAt | src/probability.rs:43-44 | line j is the "sum: count" line of sum + j, so the lines come in ascending order of sums |
| Probability.LinesSplit | src/probability.rs:41-47 | split at line breaks, a header and the lines give back the header and one line per sum |
| Probability.IntoStringLines | src/probability.rs:41-47 | a fresh distribution renders as its header followed by one line for each sum min..=max in order |
| Probability.IntoStringEmpty | src/probability.rs:41-47 | the empty distribution renders as its header alone |
| Probability.Halfway | src/probability.rs:128 | `size / 2 + size % 2` is the smallest h with size <= 2h |
| Probability.Window | src/probability.rs:142-146 | the window has i + 1 terms while i <= smaller.size, and smaller.size terms after that |
| Probability.Distribution.Add | src/probability.rs:120-159 | bounds, size and n add up; the keys are exactly min..=max; the upper half mirrors the lower; the lower half is the convolution of the operands' counts in either order; for well-formed operands the result is well formed, the convolution at every sum, with the product of the totals |
| Probability.FillLower | src/probability.rs:141-156 | inserting a window sum below `halfway` keeps the loop state |
| Probability.FillMirror | src/probability.rs:136-140 | above `halfway`, the key `max - i` already exists, so the `unwrap` cannot fail, and copying it keeps the loop state |
| Probability.FilledAll | src/probability.rs:134-157 | after the loop, the keys are exactly min..=max and the upper half mirrors the lower |
| Probability.LowerHalf | src/probability.rs:142-155 | each lower-half window sum equals the full convolution at that sum |
| Probability.LowerSwapped | src/probability.rs:130-132 | ordering the operands by size does not change the lower half |
| Probability.MirrorInLowerHalf | src/probability.rs:135-140 | the mirror image of an upper-half sum lies in the lower half |
| Probability.HalfMirrorAt | src/probability.rs:128-157 | lower half plus mirror gives the convolution at each sum of the range |
| Probability.HalfMirrorIsConv | src/probability.rs:128-157 | for symmetric operands, half plus mirror is the convolution at every sum |
| Probability.SymmetricCounts | src/probability.rs:135-140 | counts equal to a symmetric function are symmetric |
| Probability.CombinedTotal | src/probability.rs:120-159 | the total of the combined counts is the product of the operands' totals |
| Probability.AddValid | src/probability.rs:120-159 | for well-formed operands: the convolution at every sum, symmetric, with the product of the totals |
| Probability.Distribution.TryFrom | src/probability.rs:50-78 | no dice: the empty map with every field 0; one die: count 1 for each face, min 1, max = size = sides, n 1; a non-empty set of dice with at least one side each: well formed, min = number of dice, max = sum of sides, counts = ways, total = product of sides; iteration starts at min |
| Probability.OneWayEach | src/probability.rs:56-60 | the keys are exactly 1..=k, each with count 1 |
| Probability.OneDie | src/probability.rs:56-61 | the one-die map is well formed and symmetric, and counts the ways of that die |
| Probability.OneDescribes | src/probability.rs:56-61 | the one-die branch gives the distribution of that die |
| Probability.AddDescribes | src/probability.rs:62-75 | adding the distributions of the two parts gives the distribution of the whole set |
| Probability.Combined | src/probability.rs:74 | the convolution of the parts' counts is the count of face tuples of the whole set |
| Probability.TotalIsProduct | src/probability.rs:50-78 | the counts add up to the number of face tuples |
| Probability.TwoD6Counts | src/probability.rs:184-188 | for "2d6", the counts 1, 2, 3, 4, 5, 6, 5, 4, 3, 2, 1 for the sums 2 to 12 |
| Convolution.Count | src/probability.rs:150-153 | `get(..).unwrap_or(0)`: a missing key counts 0 (no contract; Counts and every lemma read the maps through it) |
| Convolution.WindowSum | src/probability.rs:142-155 | the windowed sum of products of `Add` (no contract of its own; WindowSumIsSum and WindowIsConv state its value) |
| Convolution.WindowSumIsSum | src/probability.rs:149-154 | the window sum is the sum of the products over j < r |
| Convolution.WindowCovers | src/probability.rs:142-146 | either window bound covers every non-zero term of the convolution |
| Convolution.WindowIsConv | src/probability.rs:142-155 | the windowed sum of `Add` equals the full convolution at min + i |
| Convolution.ConvCommutes | src/probability.rs:130-132 | the convolution does not depend on the order of the operands |
| Convolution.ConvSupport | src/probability.rs:124-125 | the convolution vanishes outside min1 + min2 ..= max1 + max2 |
| Convolution.ConvSymmetric | src/probability.rs:135-140 | the convolution of symmetric counts is symmetric about the new bounds |
| Convolution.ConvTotal | src/probability.rs:120-159 | the total of the convolution is the product of the totals |
| Convolution.ConvExt | src/probability.rs:74 | the convolution depends only on the counts at 0..=s |
| Convolution.ConvUnit | src/probability.rs:62-75 | convolving with the unit (all weight at sum 0, which is the reference count for an empty sequence of dice) changes nothing; the convolution theorem behind the split starts from it |
| Convolution.ConvAssociative | src/probability.rs:62-75 | the convolution is associative, so the split point does not change the result |
| Ways.RollableParts | src/probability.rs:65 | both parts of a set of dice with at least one side each are such sets too |
| Ways.MaxSumConcat | src/probability.rs:124-125 | the largest sum of a concatenation is the sum of the largest sums |
| Ways.MinAtMostMax | src/probability.rs:124-126 | for dice with at least one side, min <= max, so `max - min + 1` cannot underflow |
| Ways.WaysSupport | src/probability.rs:50-78 | no ways below the number of dice or above the sum of sides |
| Ways.WaysStep | src/probability.rs:50-78 | adding a die convolves the counts with one way per face |
| Ways.SingleDie | src/probability.rs:56-60 | one die has one way for each face and none elsewhere |
| Ways.WaysSymmetric | src/probability.rs:135-140 | the ways of any dice read the same from both ends, as `Add`'s mirroring needs |
| Ways.WaysTotal | src/probability.rs:50-78 | the ways add up to the product of the numbers of sides |
| Ways.ConvolutionTheorem | src/probability.rs:62-75 | the ways of two parts together are the convolution of the ways of each part |
| Ways.TwoDice | src/probability.rs:184-188 | two dice with k sides: k - \|s - k - 1\| ways for each sum from 2 to 2k |
| Ways.TwoD6 | src/probability.rs:184-188 | two six-sided dice: 1, 2, 3, 4, 5, 6, 5, 4, 3, 2, 1 ways |
| Roll.Outcome.constructor | src/roll.rs:15-17 | the dice and faces as given, with iteration starting at the first die |
| Roll.PairAt | src/roll.rs:22-25 | `Some((dice[k], outcomes[k]))` exactly while k is below the number of dice |
| Roll.Outcome.Next | src/roll.rs:22-25 | the current die with its face, or `None` past the last die; the position advances on every call; a face must exist for every die read |
| Roll.RollLine | src/roll.rs:31 | a "d{n}: {v}" line has no line break |
| Roll.RollLines | src/roll.rs:31-32 | one line per remaining die, in order |
| Roll.RollLinesStep | src/roll.rs:31-32 | the lines from a die on are its line followed by the rest |
| Roll.Outcome.IntoString | src/roll.rs:29-35 | the lines of the remaining dice joined by "\n", with no trailing line break |
| Roll.IntoStringSplits | src/roll.rs:29-35 | split at line breaks, the rendering gives back one line per remaining die |
| Roll.RollLineParts | src/roll.rs:31 | split at its space, a line is the die's rendering with a colon and then the face's digits |

## Left out

- src/server.rs is not part of this model. It is HTTP routing and I/O.
- `TryFrom` converts the second part on a spawned thread and receives it over a channel. Here the parts are converted one after the other, so the `BrokenPipe` errors of the channel and of `join` cannot arise. The method returns a `Distribution` rather than a `Result`.
- Probability.Distribution.TryFrom: with two or more dice, every die must have at least one side. The source's `max - min + 1` underflows in `Add` whenever the combined max of the two parts is below their combined min, for example with two 0-sided dice or with "1d0 1d1". Other mixes, such as "1d0 1d6", do not panic and give all-zero counts; the model excludes them too.
- Probability.Distribution.Add: adding the empty distribution of no dice (an empty map) does not act as a unit in the source. Every count of the result is 0, because the empty operand is the smaller one and every window term reads a missing key. The model's contract covers only the bounds and keys in that case, since the empty distribution is not `Valid`.
- Probability.Distribution.Add: requires `min + other.min <= max + other.max`. Without it, `max - min + 1` underflows a `usize`.
- `Distribution::probs` is left out because it uses floating-point `rug::Float` arithmetic.
- `DiceSet::roll` is left out because it draws from a random number generator. An `Outcome` is built from given faces instead.
- `DiceSet::into_inner` and the `From` conversions between `Die` and `u8` are left out. They are field accessors.
- The commented-out `ncr` and `factorial` are left out.
- `usize` is taken to be 64 bits wide: `USIZE_MAX` bounds the number of dice in a token at 2^64 - 1.
- `usize` overflow is not modelled. This covers the sums of bounds and counts of dice, the doubling in `int_log`, and the position counters. Keys and sizes are unbounded `nat`s.
- Allocation failure is not modelled.
- Probability.Distribution.IntoString: labels are counted from `min` even when the iterator was advanced beforehand. Both the method and `Lines` reproduce this; `IntoStringLines` states the rendering only for a fresh distribution.
- The empty distribution of no dice has `size` 0, while `max - min + 1` would be 1. Such a distribution is not `Valid`; the recursion never adds one.
