# Monsterhearts character sheet: dice and trackers

A Dafny model of the rules at the heart of the mtnlark/monsters character
sheet for the Monsterhearts role-playing game:

- the free-form dice formula evaluator of `script.js` (`roll`, `rollDice`):
  a formula such as `2d6 - 1d4 + 3` is rewritten, split on `+`, matched
  piece by piece against the term pattern, and expanded into the signed
  value of every die and constant plus the die size behind each value;
- the 2d6 roller of `DiceRoller.tsx`: rolling a pair, applying one of the
  four stats to it, clearing it, and what goes out through `onRoll` and
  `onNewRoll`;
- the Harm (0-4) and Experience (0-5) trackers of
  `HarmExperienceTracker.tsx`: clamped updates, box presses, Clear, the
  filled-box rule, and syncing from props;
- the stat block of `StatTracker.tsx`: the four stats Hot, Cold, Dark and
  Volatile, the ▲ step capped at 3 and the ▼ step floored at -3, typed input read through
  `parseInt(text) || 0`, the colour of a value, and syncing from props.

Modules:

- `Wrappers`: `Option`.
- `Decimal`: digit strings and their values.
- `FormulaSyntax`: the two rewrites, the split, and the term pattern of `roll`.
- `DiceFormula`: the evaluation itself, as functions. It also holds the
  methods `Roll`, `RollDice` and `SumUp`, which carry `roll`'s and
  `rollDice`'s loops and are proved equal to those functions.
- `DiceScenarios`: what concrete formulas evaluate to.
- `StatRecord`: the stats record.
- `DiceRolling`, `HarmExperience`, `StatTracking`: the three components,
  each a class whose fields are the component's state.

`Math.random()` becomes a parameter. In `roll` it is `rand: nat -> real`,
where `rand(k)` is the sample returned by the k-th call during one
evaluation. In the 2d6 roller it is the two samples `r1` and `r2`. The
source's guarantee that a sample lies in [0, 1) is the predicate
`DiceFormula.Source`, and a precondition on `r1` and `r2`. Callbacks become
return values: each updating method returns what it passes to
`onHarmChange`, `onExperienceChange`, `onStatChange` or `onRoll`, and `Roll`
and `ClearRoll` return whether `onNewRoll` fired.

What the formula evaluator does, in the code as written (the model follows
the code):

- Only the first `-` is rewritten to `+ -`, and only the first `D` is
  lowered (`script.js:2-3`). A second upper-case `D` makes its piece fail
  the pattern, so the whole formula gives the error. A later `-` is
  accepted only as the first non-blank character of its piece, that is when
  only spaces or tabs separate it from the `+` before it; there it is the
  sign of its piece (`1 - 2 + -3` gives `[1, -2, -3]`). Anywhere else its
  piece fails (`2d6 - 1d4 - 1`).
- A leading minus produces an empty first piece, and an empty piece matches
  the pattern as the constant 1. So `-2` evaluates to `[1, -2]`, a total
  of -1 rather than -2.
- `2d6 + -1d4` typed directly gains a constant 1: its `-` is rewritten
  again into `+ + -`, which leaves an empty piece between the two `+`.
- `roll("")` gives `[1]`, while `rollDice("")` returns nothing, because it
  checks for the empty string first.
- `0d6` expands to nothing at all, so it is an error.
- `1d0` gives one value 0 whose size is recorded as 0, the same as a
  constant's.

## Model

| member | source | states |
|---|---|---|
| DiceFormula.Roll | script.js:1-29 | the loop over the pieces returns exactly `Evaluate(dice, rand)`: null when a piece fails the pattern or nothing was produced, else the values and die sizes of every piece in order |
| DiceFormula.RollTerm | script.js:10-23 | handling one matched piece appends exactly what `Step` appends for the term the captures denote: one signed constant with size 0, or `num` dice of size `max` |
| DiceFormula.RollGroup | script.js:15-18 | the inner loop appends `num` signed dice drawn from consecutive samples of the stream, each with size `max`, and consumes `num` samples |
| DiceFormula.SumUp | script.js:35-45 | the loop's total is the sum of all values, and its display string is the breakdown (separator by sign, `d<size>` label for dice) |
| DiceFormula.RollDice | script.js:31-51 | an empty formula shows nothing; a formula that evaluates to null shows the error string "Error in roll formula"; otherwise it shows the sum of the values |
| DiceFormula.DrawRange | script.js:16 | `Math.ceil(max * r)` for `r` in [0, 1) lies in [0, max], and is 0 exactly when the die has no faces or the sample is 0 |
| DiceFormula.ParseAll | script.js:8-26 | a successful parse has one term per piece, each with sign 1 or -1 |
| DiceFormula.ParseAllPieces | script.js:8-26 | the parse fails if and only if some piece does not match the pattern, and on success term `i` is the match of piece `i` |
| DiceFormula.ParseAllMatches | script.js:9-13 | on success, term `i` is the match of piece `i` |
| DiceFormula.ParseAllFailing | script.js:25 | a failed parse names a piece that does not match the pattern |
| DiceFormula.Evaluate | script.js:1-29 | (no contract of its own) the value of `roll(dice)`: the pieces are parsed, null if one fails; otherwise the expansion, null if it is empty; its meaning is stated by `EvaluateNone`, `EvaluateShape`, `EvaluateBounds`, `ConstantFormula` and `EvaluateSamples` |
| DiceFormula.Ceil | script.js:16 | `Math.ceil(x)`: the least integer not below `x` |
| DiceFormula.Draw | script.js:16 | (no contract of its own) `Math.ceil(max * Math.random())`; its range is `DrawRange` |
| DiceFormula.Step | script.js:14-23 | (no contract of its own) one matched piece: a constant appends `sign * num` with size 0; a die group appends `num` draws with size `max` and uses `num` samples |
| DiceFormula.Expand | script.js:8-23 | (no contract of its own) the pieces' contributions in order, starting from empty lists; its meaning is `ExpandShape`, `ExpandBounds`, `ExpandConstants`, `ExpandSamples` and `ExpandSizes` |
| DiceFormula.Rolls | script.js:15-16 | a die group gives exactly `n` values |
| DiceFormula.Repeat | script.js:17 | a die group records exactly `n` sizes |
| DiceFormula.RollsAt | script.js:15-16 | die `i` of a group shows its sign times the draw of its own sample, the `i`-th one after the samples already used |
| DiceFormula.RepeatAt | script.js:17 | each recorded size of a die group is its `max` |
| DiceFormula.Sum | script.js:37-38 | (no contract of its own) `total = total + data.res[i]` over all values; its step is `SumStep` |
| DiceFormula.Breakdown | script.js:39-43 | (no contract of its own) the display string: each value's separator, then its size label; its step is `BreakdownStep` |
| DiceFormula.Label | script.js:41-43 | (no contract of its own) `<span class='type'>d<size></span>` for a die, nothing for a constant |
| DiceFormula.Separator | script.js:40 | (no contract of its own) nothing before the first value, then ` + ` or ` - ` by the sign of the value |
| DiceFormula.PieceFails | script.js:25 | one piece that fails the pattern makes the whole parse fail |
| DiceFormula.BadPieceFails | script.js:25 | one piece that fails the pattern makes the whole formula evaluate to null, whatever comes before or after it |
| DiceFormula.ParseAllStops | script.js:25 | a parse failure in a prefix of the pieces is a failure of the whole list |
| DiceFormula.ExpandShape | script.js:15-23 | the value list and the size list have the same length, the number of constants plus the number of dice |
| DiceFormula.EvaluateShape | script.js:27-28 | a successful evaluation has parallel, non-empty value and size lists |
| DiceFormula.NoEntries | script.js:15-22 | a term list produces no entries exactly when every term is a die group with count 0 |
| DiceFormula.EvaluateNone | script.js:25-27 | a formula evaluates to null if and only if some piece fails the pattern or every piece is a die group rolling zero dice |
| DiceFormula.ExpandBounds | script.js:16-17 | every die value lies between minus its size and its size |
| DiceFormula.RollsBounds | script.js:16 | each of `n` signed draws of a `max`-sided die lies in [-max, max] |
| DiceFormula.EvaluateBounds | script.js:16-17 | in a successful evaluation every die value lies between minus its recorded size and that size |
| DiceFormula.ExpandConstants | script.js:20-22 | a formula of constants draws no samples, does not depend on the random stream, and yields each constant's signed value with size 0 |
| DiceFormula.SumConstants | script.js:37-38 | the total of a formula of constants is the signed sum of the constants |
| DiceFormula.ConstantFormula | script.js:20-22 | a formula whose pieces all parse as constants always succeeds, gives the same outcome for every random stream, totals the signed sum of the constants, and records only size 0 |
| DiceFormula.ExpandSamples | script.js:15-16 | expansion draws exactly one sample per die, and two streams that agree on those samples give the same expansion |
| DiceFormula.RollsSamples | script.js:15-16 | a die group's values depend only on the samples it consumes |
| DiceFormula.EvaluateSamples | script.js:15-16 | two random streams that agree on the first samples (one per die of the formula) give the same outcome |
| DiceFormula.ExpandSizes | script.js:17 | every non-zero recorded size is the face count of some die group of the formula |
| DiceFormula.ExpandSnoc | script.js:8-23 | expanding one more term extends the running lists by exactly that term's contribution |
| DiceFormula.ParseAllSnoc | script.js:8-24 | parsing one more matched piece appends its term to the parsed list |
| DiceFormula.SumStep | script.js:37-38 | the running total over one more value adds that value |
| DiceFormula.BreakdownStep | script.js:39-43 | the breakdown over one more value appends its separator and its size label |
| FormulaSyntax.ReplaceFirstMinus | script.js:2 | (no contract of its own) `dice.replace(/- */, '+ -')`; its meaning is `ReplaceFirstMinusAt` and `ReplaceMinusAbsent` |
| FormulaSyntax.Normalize | script.js:2-3 | (no contract of its own) both rewrites in order, minus first; its meaning is `NormalizeMinusAt`, `NormalizeDAt` and `NormalizePlain` |
| FormulaSyntax.ReplaceFirstMinusAt | script.js:2 | the first `-` and the spaces after it become `+ -`; the text before it and everything after the spaces is kept |
| FormulaSyntax.ReplaceMinusAbsent | script.js:2 | a formula without `-` is unchanged by the minus rewrite |
| FormulaSyntax.DropSpacesOf | script.js:2 | dropping the leading spaces of a run of spaces followed by a non-space removes exactly that run |
| FormulaSyntax.ReplaceFirstDAt | script.js:3 | the first `D` becomes `d`; everything else is kept, including any later `D` |
| FormulaSyntax.ReplaceDAbsent | script.js:3 | a formula without `D` is unchanged by the `D` rewrite |
| FormulaSyntax.ReplaceFirstD | script.js:3 | the `D` rewrite keeps the length |
| FormulaSyntax.NormalizeMinusAt | script.js:2-3 | with no `D` anywhere, both rewrites together turn the first `-` and its trailing spaces into `+ -` |
| FormulaSyntax.NormalizeFirstD | script.js:2-3 | lowering the first `D` after the minus rewrite gives the minus rewrite of the lower-case spelling, whatever `-` the formula holds |
| FormulaSyntax.NormalizeDAt | script.js:2-3 | with no `-` anywhere, both rewrites together lower only the first `D` |
| FormulaSyntax.NormalizePlain | script.js:2-3 | a formula with no `-` and no `D` passes through both rewrites unchanged |
| FormulaSyntax.Split | script.js:4-5 | the split yields at least one piece, and no piece holds a `+` |
| FormulaSyntax.SplitCount | script.js:4-5 | the split yields one more piece than the formula has `+` signs |
| FormulaSyntax.SplitAt | script.js:4-5 | a `+` with any spaces around it ends the piece before it, and its spaces belong to neither piece |
| FormulaSyntax.SplitNone | script.js:5 | a formula without `+` is a single piece, spaces included |
| FormulaSyntax.SplitJoin | script.js:4-5 | joining pieces with ` + ` and splitting again gives back the pieces, empty ones included (pieces with no `+` and no outer spaces); so does splitting the join without its leading spaces |
| FormulaSyntax.SplitHead | script.js:4-5 | the first `+` and the spaces before it end the first piece, and splitting resumes after the spaces behind it |
| FormulaSyntax.SplitJoinStep | script.js:4-5 | one more piece, empty or not, in front of a join keeps the round trip |
| FormulaSyntax.CountAppend | script.js:5 | the number of `+` in a concatenation is the sum of the two counts |
| FormulaSyntax.CountDropSpaces | script.js:4-5 | dropping leading spaces keeps every `+` |
| FormulaSyntax.IndexOfFirst | script.js:4-5 | the split point is the first `+`: a `+` with none before it is at the found index |
| FormulaSyntax.TrimOf | script.js:4 | trimming the spaces before a `+` removes exactly those spaces |
| FormulaSyntax.Lex | script.js:9 | the captures of an accepted piece are well formed: a count and a size, when present, are non-empty runs of digits |
| FormulaSyntax.LexCore | script.js:9 | the same, for the pattern between the blank runs, `(-)?(\d+)?(?:(d)(\d+))?` |
| FormulaSyntax.LexBody | script.js:9 | the same, for the pattern after the optional `-` |
| FormulaSyntax.MatchTerm | script.js:9-13 | (no contract of its own) `items[i].match(...)` followed by reading the sign, count and size; null when the pattern fails |
| FormulaSyntax.LexSound | script.js:9 | a piece the pattern accepts is blanks, then the text of its captures (sign, count, `d` and size), then blanks |
| FormulaSyntax.LexComplete | script.js:9 | any optional sign, optional digits and optional `d`+digits, wrapped in spaces or tabs, is accepted with exactly those captures |
| FormulaSyntax.LexCoreSound | script.js:9 | captures found in an unpadded piece spell out that piece |
| FormulaSyntax.LexCoreComplete | script.js:9 | the unpadded text of any well-formed captures is accepted with those captures |
| FormulaSyntax.LexBodySound | script.js:9 | captures found after the optional sign spell out the rest of the piece |
| FormulaSyntax.LexBodyComplete | script.js:9 | the text after the sign of any well-formed captures is accepted with those captures |
| FormulaSyntax.LexUnpadded | script.js:9 | a piece with no outer blanks is matched as it stands |
| FormulaSyntax.LexCoreMinus | script.js:9 | a leading `-` is taken as the sign capture |
| FormulaSyntax.LexBodyBadStart | script.js:9 | a piece whose first character after the sign is neither a digit nor `d` is rejected |
| FormulaSyntax.LexBodyBadFaces | script.js:9 | after the count digits, if any, a `d` not followed by digits alone to the end is rejected (`d`, `dx`, `2d`, `1d4 - 1`) |
| FormulaSyntax.LexBodyBadTail | script.js:9 | a count followed by anything other than `d` is rejected |
| FormulaSyntax.Interpret | script.js:11-13 | the sign is -1 exactly when the minus was captured; a missing count means 1; the term is a die group exactly when `d` was captured, with the captured size |
| FormulaSyntax.Items | script.js:2-5 | the normalised formula always splits into at least one piece |
| Decimal.DigitsValue | script.js:12-13 | (no contract of its own) `parseInt(digits, 10)` on a run of decimal digits, most significant first |
| Decimal.LeadingDigits | script.js:9 | the length of the maximal run of digits at the start, the run `\d+` consumes |
| Decimal.NatToString | script.js:42 | the text of a die size in `"d" + data.type[i]`: non-empty, all digits, with no leading zero unless the size is 0; `NatToStringRoundTrip` reads it back |
| Decimal.NatToStringRoundTrip | script.js:42 | the decimal text of a die size reads back as that size |
| Decimal.LeadingDigitsOf | script.js:12-13 | the digit run at the start of a piece is exactly its digits, up to the first non-digit |
| DiceScenarios.PlainNumber | script.js:20-22 | any unsigned digit string evaluates to that number, as a single constant |
| DiceScenarios.ItemsLeadingMinus | script.js:2-5 | a formula `-<digits>` splits into an empty piece and `-<digits>` |
| DiceScenarios.LeadingMinus | script.js:2-22 | `-<digits>` evaluates to the constants 1 and minus the number, because the empty first piece counts as 1 |
| DiceScenarios.EmptyFormula | script.js:9-22 | the empty formula evaluates to the single constant 1 |
| DiceScenarios.TwoD6MinusOneD4 | script.js:2-22 | `2d6 - 1d4` and `2d6-1d4` split into `2d6` and `-1d4`, and with every sample 0.5 give [3, 3, -2] with sizes [6, 6, 4] |
| DiceScenarios.DirectPlusMinus | script.js:2-22 | `2d6 + -1d4` typed directly splits into three pieces with an empty middle one, giving an extra constant 1 |
| DiceScenarios.ItemsSecondMinus | script.js:2-5 | `2d6 - 1d4 - 1` splits into `2d6` and `-1d4 - 1`: the second minus stays inside the last piece |
| DiceScenarios.SecondMinus | script.js:2-25 | `2d6 - 1d4 - 1` is an error, because only the first minus is rewritten |
| DiceScenarios.ItemsSecondD | script.js:3-5 | `1D6+1D4` splits into `1d6` and `1D4`: the second `D` is kept |
| DiceScenarios.SecondD | script.js:3-25 | `1D6+1D4` is an error, because only the first `D` is lowered |
| DiceScenarios.UpperCaseD | script.js:2-3 | in a formula with a single `D`, that `D` reads as `d`: the formula evaluates exactly as its lower-case spelling (`1D6` as `1d6`, `2D6 - 1d4` as `2d6 - 1d4`) |
| DiceScenarios.SplitEmptyMiddle | script.js:4-5 | two `+` with only spaces between them leave an empty piece between the pieces around them |
| DiceScenarios.SplitLeadingPlus | script.js:4-5 | a formula that starts with `+` has an empty first piece |
| DiceScenarios.ZeroDice | script.js:15-27 | `0d6` rolls no dice and is an error |
| DiceScenarios.NoFaces | script.js:13-17 | `1d0` gives one value 0 with size 0 |
| DiceScenarios.MissingSize | script.js:9 | `2d` is an error |
| DiceScenarios.NotAFormula | script.js:9 | `abc` is an error |
| DiceRolling.Face | src/components/common/DiceRoller.tsx:67-70 | a die of the pair shows a face from 1 to 6 |
| DiceRolling.FaceOnto | src/components/common/DiceRoller.tsx:68-69 | every face from 1 to 6 comes up for the samples in its sixth of [0, 1) |
| DiceRolling.Outcome | src/components/common/DiceRoller.tsx:80-82 | the emitted record carries the pair, the chosen stat and its name, and a total that exceeds the stat by the sum of the dice |
| DiceRolling.DiceRoller.constructor | src/components/common/DiceRoller.tsx:56-57 | a new roller has no pair on the table |
| DiceRolling.DiceRoller.Roll | src/components/common/DiceRoller.tsx:62-72 | `onNewRoll` fires exactly when given; the pair on the table becomes the two faces of the samples |
| DiceRolling.DiceRoller.ApplyStat | src/components/common/DiceRoller.tsx:78-83 | without a pair nothing is emitted; with one, the emitted record is the pair plus the chosen stat, its total between stat + 2 and stat + 12; the pair stays |
| DiceRolling.DiceRoller.ClearRoll | src/components/common/DiceRoller.tsx:88-93 | the pair is removed, and `onNewRoll` fires exactly when given |
| DiceRolling.Session | src/components/common/DiceRoller.tsx:62-93 | two stats applied to one pair share the dice and differ only by the stat; after clearing nothing is emitted |
| HarmExperience.Clamp | src/components/common/HarmExperienceTracker.tsx:55 | the clamped value lies in [0, max]; values inside are kept, values below become 0 and values above become max |
| HarmExperience.ClampLaws | src/components/common/HarmExperienceTracker.tsx:55-65 | clamping twice is clamping once, and clamping keeps order |
| HarmExperience.Boxes | src/components/common/HarmExperienceTracker.tsx:80-83 | the row has one box per point of the maximum |
| HarmExperience.Filled | src/components/common/HarmExperienceTracker.tsx:83 | (no contract of its own) `index < value`, the test that draws a box filled (line 112 for Experience); its consequences are `BoxesAt` and `BoxesShowValue` |
| HarmExperience.BoxesAt | src/components/common/HarmExperienceTracker.tsx:83 | box `i` is filled exactly when `i` is below the value |
| HarmExperience.BoxesShowValue | src/components/common/HarmExperienceTracker.tsx:80-91 | the filled boxes are a prefix of the row, and their number is the value clamped to the row, so an out-of-range value shows as an empty or full row |
| HarmExperience.HarmExperienceTracker.HarmBoxes | src/components/common/HarmExperienceTracker.tsx:80-91 | the Harm row has four boxes, lit from the left, as many as harm clamped to [0, 4] |
| HarmExperience.HarmExperienceTracker.ExperienceBoxes | src/components/common/HarmExperienceTracker.tsx:109-120 | the Experience row has five boxes, lit from the left, as many as experience clamped to [0, 5] |
| HarmExperience.HarmExperienceTracker.constructor | src/components/common/HarmExperienceTracker.tsx:32-39 | state starts at the given initial values, 0 when absent, without clamping |
| HarmExperience.HarmExperienceTracker.SyncHarm | src/components/common/HarmExperienceTracker.tsx:42-44 | a new `initialHarm` prop replaces harm as given, unclamped; experience is untouched |
| HarmExperience.HarmExperienceTracker.SyncExperience | src/components/common/HarmExperienceTracker.tsx:46-48 | a new `initialExperience` prop replaces experience as given, unclamped; harm is untouched |
| HarmExperience.HarmExperienceTracker.UpdateHarm | src/components/common/HarmExperienceTracker.tsx:54-58 | harm becomes the request clamped to [0, 4], and that value is what is reported; experience is untouched |
| HarmExperience.HarmExperienceTracker.UpdateExperience | src/components/common/HarmExperienceTracker.tsx:64-68 | experience becomes the request clamped to [0, 5], and that value is what is reported; harm is untouched |
| HarmExperience.HarmExperienceTracker.PressHarmBox | src/components/common/HarmExperienceTracker.tsx:87 | pressing harm box `index` sets and reports harm `index + 1` |
| HarmExperience.HarmExperienceTracker.ClearHarm | src/components/common/HarmExperienceTracker.tsx:95 | Clear sets and reports harm 0 |
| HarmExperience.HarmExperienceTracker.PressExperienceBox | src/components/common/HarmExperienceTracker.tsx:116 | pressing experience box `index` sets and reports experience `index + 1` |
| HarmExperience.HarmExperienceTracker.ClearExperience | src/components/common/HarmExperienceTracker.tsx:124 | Clear sets and reports experience 0 |
| HarmExperience.Session | src/components/common/HarmExperienceTracker.tsx:42-87 | a synced harm of 7 is kept and shows four filled boxes; pressing box 2 gives harm 2 with two boxes shown; an experience of 9 is clamped to 5 |
| StatRecord.Get | src/components/common/DiceRoller.tsx:80 | (no contract of its own) `stats[statName]`, the field of the record that a name selects |
| StatRecord.With | src/components/common/StatTracker.tsx:63 | the spread sets the named stat to the new value and keeps the other three |
| StatRecord.WithLaws | src/components/common/StatTracker.tsx:63 | writing a stat's own value changes nothing, and a second write to one stat overrides the first |
| StatRecord.StatsExtensional | src/types/stats.ts:9-14 | two records that agree on all four stats are equal |
| StatTracking.StatColor | src/components/common/StatTracker.tsx:73-77 | red exactly for negative values, green exactly for positive ones, white exactly for 0 |
| StatTracking.Increment | src/components/common/StatTracker.tsx:99 | ▲ adds one below 3 and gives 3 from 3 or above, so never more than 3 |
| StatTracking.Decrement | src/components/common/StatTracker.tsx:105 | ▼ takes one away above -3 and gives -3 from -3 or below, so never less than -3 |
| StatTracking.StepsInverse | src/components/common/StatTracker.tsx:99-105 | inside [-3, 3] one ▲ and one ▼ undo each other where neither hits a bound, and both keep the value in range |
| StatTracking.ParseInt | src/components/common/StatTracker.tsx:92 | `parseInt` gives NaN exactly when no digit follows the leading white space and an optional sign |
| StatTracking.TypedValue | src/components/common/StatTracker.tsx:92 | (no contract of its own) the typed value: `ParseInt` of the text, or 0 when that is NaN; its meaning is `ParseInt` and `TypedRoundTrip` |
| StatTracking.TypedRoundTrip | src/components/common/StatTracker.tsx:92 | typing the decimal form of any integer stores that integer, in range or not |
| StatTracking.StatTracker.constructor | src/components/common/StatTracker.tsx:32-48 | the stats start as the given record, or all zero when none is given |
| StatTracking.StatTracker.Sync | src/components/common/StatTracker.tsx:51-55 | a given `initialStats` replaces the stats; an absent one leaves them as they are |
| StatTracking.StatTracker.UpdateStat | src/components/common/StatTracker.tsx:62-66 | the named stat becomes the value, the others are kept, and the new record is what is reported |
| StatTracking.StatTracker.StepUp | src/components/common/StatTracker.tsx:99 | ▲ stores `min(value + 1, 3)` in the named stat and reports the new record |
| StatTracking.StatTracker.StepDown | src/components/common/StatTracker.tsx:105 | ▼ stores `max(value - 1, -3)` in the named stat and reports the new record |
| StatTracking.StatTracker.Type | src/components/common/StatTracker.tsx:92 | typing stores the parsed number (0 when it is NaN) in the named stat, unclamped, and reports the new record |
| StatTracking.Session | src/components/common/StatTracker.tsx:92-105 | four ▲ on Hot stop at 3; a typed 7 is kept, and one ▲ from 7 brings it down to 3 |

## Left out

- The jQuery click handler that reads the input field and writes the result into the page (`script.js:53-56`) is page I/O. It is not modelled.
- The breakdown string that `rollDice` builds is never shown. The model computes it and proves it, but nothing in the model displays it.
- The random source is given as samples. It is not a generator, so uniformity and independence of `Math.random()` are not stated.
- JavaScript numbers are floating point, and the model uses exact reals and unbounded integers. It omits rounding in `max * Math.random()`, the loss of precision on digit strings longer than 2^53, and the `-0` that `-1 * 0` gives.
- DiceFormula.Draw follows `Math.ceil(max * r)` with exact real arithmetic. A floating-point product that rounds up to an integer is not modelled.
- The `undefined` or `null` formula that `if (!dice)` also guards against is not modelled. A formula is always a string.
- `parseInt`'s `0x` prefix and its non-ASCII white space are not modelled. The field is `type="number"`, and the model reads the ASCII prefix of digits (so `2.7` reads as 2, as in JavaScript).
- StatTracking.TypedValue does not recover a `-0` typed by the user, which `|| 0` turns into 0. Integers have no negative zero.
- The regular expressions run in a regex engine in the source. The model states each of them character by character, as `FormulaSyntax.Lex` for the term pattern, `FormulaSyntax.Split` for `/ *\+ */`, and the two rewrite functions for `/- */` and `/D/`.
- The stats in the components are integers. A non-integer stat passed in via props is not modelled.
- React's rendering, hooks, JSX, the `DieVisual` drawing and CSS classes other than the stat colour are not modelled.
- DiceRolling.DiceRoller: the `disabled` prop is not modelled. The Roll button and the stat buttons carry `disabled={disabled}` (`DiceRoller.tsx:100`, `DiceRoller.tsx:139`), so while it is set `roll` and `applyStat` cannot run, whereas the Clear button (`DiceRoller.tsx:107-112`) still works. The model lets `Roll` and `ApplyStat` run at any time.
- The order in which React schedules a state update and a callback is not modelled. Each method performs both, and returns the callback's argument.
- `src/App.tsx` (persistence and page layout) and `TextTracker.tsx` are not modelled. They are outside the modelled components.
