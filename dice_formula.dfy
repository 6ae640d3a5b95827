/**
 * The evaluator of script.js: `roll` (lines 1-29) turns a formula into two
 * parallel lists, the signed value of every rolled unit (`res`) and the die
 * size that produced it (`type`, 0 for a constant); `rollDice` (lines 31-51)
 * adds the values up or reports the error string.
 *
 * `Math.random()` is a parameter: `rand(k)` is the sample returned by its
 * k-th call during one `roll`, and the samples a real source can give are
 * those in [0, 1) (`Source`).
 */
module DiceFormula {
  import opened Wrappers
  import opened Decimal
  import opened FormulaSyntax

  /** What a `Math.random()` stream may return. */
  ghost predicate Source(rand: nat -> real) {
    forall k: nat :: 0.0 <= rand(k) < 1.0
  }

  /** `Math.ceil(x)`. */
  function Ceil(x: real): (c: int)
    ensures c as real >= x && (c - 1) as real < x
  {
    -((-x).Floor)
  }

  /** `Math.ceil(max * r)`: the value of one die with `max` faces for sample `r` (script.js:16). */
  function Draw(max: nat, r: real): int {
    Ceil(max as real * r)
  }

  /** A die shows a value in [0, max], and 0 only when it has no faces or the sample is exactly 0. */
  lemma DrawRange(max: nat, r: real)
    requires 0.0 <= r < 1.0
    ensures 0 <= Draw(max, r) <= max
    ensures Draw(max, r) == 0 <==> (max == 0 || r == 0.0)
  {
    var x := max as real * r;
    assert 0.0 <= x <= max as real by {
      assert max as real * (1.0 - r) >= 0.0;
    }
    if max > 0 && r > 0.0 {
      assert x > 0.0;
    }
  }

  /** What `res` and `type` hold after some terms, and how many samples were used. */
  datatype Tally = Tally(res: seq<int>, types: seq<nat>, draws: nat)

  /** The values of `n` dice of a group, from the samples starting at `k` (script.js:15-16). */
  function Rolls(sign: int, max: nat, n: nat, rand: nat -> real, k: nat): (r: seq<int>)
    ensures |r| == n
  {
    if n == 0 then [] else Rolls(sign, max, n - 1, rand, k) + [sign * Draw(max, rand(k + n - 1))]
  }

  /** Die `i` of a group shows its sign times the draw of its own sample, the `i`-th from `k`. */
  lemma {:induction false} RollsAt(sign: int, max: nat, n: nat, rand: nat -> real, k: nat, i: nat)
    requires i < n
    ensures Rolls(sign, max, n, rand, k)[i] == sign * Draw(max, rand(k + i))
  {
    if i < n - 1 {
      RollsAt(sign, max, n - 1, rand, k, i);
    }
  }

  /** `n` copies of `v`: the die sizes a group of `n` dice appends (script.js:17). */
  function Repeat(v: nat, n: nat): (r: seq<nat>)
    ensures |r| == n
  {
    if n == 0 then [] else Repeat(v, n - 1) + [v]
  }

  lemma {:induction false} RepeatAt(v: nat, n: nat, i: nat)
    requires i < n
    ensures Repeat(v, n)[i] == v
  {
    if i < n - 1 {
      RepeatAt(v, n - 1, i);
    }
  }

  /** The entries of one term appended to what is there (script.js:14-23). */
  function Step(acc: Tally, t: Term, rand: nat -> real): Tally {
    match t
    case Constant(sign, num) => Tally(acc.res + [sign * num], acc.types + [0], acc.draws)
    case DieGroup(sign, num, max) =>
      Tally(acc.res + Rolls(sign, max, num, rand, acc.draws), acc.types + Repeat(max, num), acc.draws + num)
  }

  /** All terms evaluated left to right. */
  function Expand(ts: seq<Term>, rand: nat -> real): Tally {
    if ts == [] then Tally([], [], 0) else Step(Expand(ts[..|ts| - 1], rand), ts[|ts| - 1], rand)
  }

  /** Every term carries the sign -1 or 1. */
  predicate Signed(ts: seq<Term>) {
    forall i :: 0 <= i < |ts| ==> ts[i].sign == -1 || ts[i].sign == 1
  }

  /** Every piece matched, in order, or `None` as soon as one does not match. */
  function ParseAll(items: seq<string>): (r: Option<seq<Term>>)
    ensures r.Some? ==> |r.value| == |items| && Signed(r.value)
  {
    if items == [] then Some([])
    else
      match ParseAll(items[..|items| - 1])
      case None => None
      case Some(ts) =>
        match MatchTerm(items[|items| - 1])
        case None => None
        case Some(t) => Some(ts + [t])
  }

  /** What `roll` returns on success. */
  datatype Outcome = Outcome(res: seq<int>, types: seq<nat>)

  /** The result of `roll(dice)` for the samples `rand`; `None` is `null`. */
  function Evaluate(dice: string, rand: nat -> real): Option<Outcome> {
    match ParseAll(Items(dice))
    case None => None
    case Some(ts) =>
      var t := Expand(ts, rand);
      if |t.res| == 0 then None else Some(Outcome(t.res, t.types))
  }

  /** How many entries a term appends: one for a constant, one per die for a group. */
  function Entries(t: Term): nat {
    if t.Constant? then 1 else t.num
  }

  function TotalEntries(ts: seq<Term>): nat {
    if ts == [] then 0 else TotalEntries(ts[..|ts| - 1]) + Entries(ts[|ts| - 1])
  }

  // ---------------------------------------------------------------------------
  // The loops of script.js
  // ---------------------------------------------------------------------------

  /** `roll(dice)` (script.js:1-29). */
  method Roll(dice: string, rand: nat -> real) returns (result: Option<Outcome>)
    ensures result == Evaluate(dice, rand)
  {
    var d := ReplaceFirstMinus(dice);
    d := ReplaceFirstD(d);
    var items := Split(d);
    var res: seq<int> := [];
    var types: seq<nat> := [];
    var draws: nat := 0;
    ghost var ts: seq<Term> := [];
    var i := 0;
    while i < |items|
      invariant 0 <= i <= |items|
      invariant ParseAll(items[..i]) == Some(ts)
      invariant Expand(ts, rand) == Tally(res, types, draws)
    {
      var m := Lex(items[i]);
      if m.None? {
        PieceFails(items, i);
        return None;
      }
      var c := m.value;
      res, types, draws := RollTerm(c, res, types, draws, rand);
      ParseAllSnoc(items, i, ts, Interpret(c));
      ExpandSnoc(ts, Interpret(c), rand);
      ts := ts + [Interpret(c)];
      i := i + 1;
    }
    assert items[..i] == items;
    EvaluateParsed(dice, ts, rand);
    if |res| == 0 {
      return None;
    }
    return Some(Outcome(res, types));
  }

  /** One matched piece evaluated onto `res` and `type` (script.js:11-23). */
  method RollTerm(c: Captures, res0: seq<int>, types0: seq<nat>, draws0: nat, rand: nat -> real)
    returns (res: seq<int>, types: seq<nat>, draws: nat)
    requires WellFormed(c)
    ensures Tally(res, types, draws) == Step(Tally(res0, types0, draws0), Interpret(c), rand)
  {
    var sign: int := if c.minus then -1 else 1;
    var num := DigitsValue(c.count.GetOr("1"));
    var max := DigitsValue(c.faces.GetOr("0"));
    if c.faces.Some? {
      res, types, draws := RollGroup(res0, types0, draws0, sign, num, max, rand);
    } else {
      res, types, draws := res0 + [sign * num], types0 + [0], draws0;
    }
  }

  /** The inner loop of script.js:15-18: `num` dice of `max` faces, one sample each. */
  method RollGroup(res0: seq<int>, types0: seq<nat>, draws0: nat, sign: int, num: nat, max: nat, rand: nat -> real)
    returns (res: seq<int>, types: seq<nat>, draws: nat)
    ensures res == res0 + Rolls(sign, max, num, rand, draws0)
    ensures types == types0 + Repeat(max, num)
    ensures draws == draws0 + num
  {
    res, types, draws := res0, types0, draws0;
    var j := 1;
    while j <= num
      invariant 1 <= j <= num + 1
      invariant draws == draws0 + (j - 1)
      invariant res == res0 + Rolls(sign, max, j - 1, rand, draws0)
      invariant types == types0 + Repeat(max, j - 1)
    {
      res := res + [sign * Draw(max, rand(draws))];
      types := types + [max];
      draws := draws + 1;
      j := j + 1;
    }
  }

  /** One more matching piece extends the parsed terms by its term. */
  lemma ParseAllSnoc(items: seq<string>, i: nat, ts: seq<Term>, t: Term)
    requires i < |items| && ParseAll(items[..i]) == Some(ts) && MatchTerm(items[i]) == Some(t)
    ensures ParseAll(items[..i + 1]) == Some(ts + [t])
  {
    assert items[..i + 1][..i] == items[..i];
  }

  /** A piece that does not match fails the whole list of pieces. */
  lemma PieceFails(items: seq<string>, i: nat)
    requires i < |items| && MatchTerm(items[i]).None?
    ensures ParseAll(items) == None
  {
    assert items[..i + 1][..i] == items[..i];
    assert ParseAll(items[..i + 1]) == None;
    ParseAllStops(items, i + 1);
  }

  /** Once every piece has matched, `roll` returns the expansion unless it is empty. */
  lemma EvaluateParsed(dice: string, ts: seq<Term>, rand: nat -> real)
    requires ParseAll(Items(dice)) == Some(ts)
    ensures var t := Expand(ts, rand);
            Evaluate(dice, rand) == if |t.res| == 0 then None else Some(Outcome(t.res, t.types))
  {
  }

  /** Evaluating one more term is one more `Step`. */
  lemma ExpandSnoc(ts: seq<Term>, t: Term, rand: nat -> real)
    ensures Expand(ts + [t], rand) == Step(Expand(ts, rand), t, rand)
  {
    assert (ts + [t])[..|ts|] == ts;
  }

  /** Once a prefix of the pieces fails to match, the whole list fails. */
  lemma {:induction false} ParseAllStops(items: seq<string>, n: nat)
    requires n <= |items|
    requires ParseAll(items[..n]) == None
    ensures ParseAll(items) == None
    decreases |items| - n
  {
    if n < |items| {
      assert items[..n + 1][..n] == items[..n];
      ParseAllStops(items, n + 1);
    } else {
      assert items[..n] == items;
    }
  }

  /** On success, term `i` is the match of piece `i`. */
  lemma {:induction false} ParseAllMatches(items: seq<string>)
    ensures ParseAll(items).Some? ==>
              forall i :: 0 <= i < |items| ==> MatchTerm(items[i]) == Some(ParseAll(items).value[i])
    decreases |items|
  {
    if items != [] && ParseAll(items).Some? {
      var n := |items| - 1;
      var init := items[..n];
      ParseAllMatches(init);
      var ts := ParseAll(init).value;
      var t := MatchTerm(items[n]).value;
      assert ParseAll(items).value == ts + [t];
      forall i | 0 <= i < |items|
        ensures MatchTerm(items[i]) == Some((ts + [t])[i])
      {
        if i < n {
          assert items[i] == init[i];
        }
      }
    }
  }

  /** A failed parse has a piece that does not match the pattern. */
  lemma {:induction false} ParseAllFailing(items: seq<string>) returns (i: nat)
    requires ParseAll(items).None?
    ensures i < |items| && MatchTerm(items[i]).None?
    decreases |items|
  {
    var n := |items| - 1;
    var init := items[..n];
    if ParseAll(init).None? {
      i := ParseAllFailing(init);
      assert items[i] == init[i];
    } else {
      i := n;
    }
  }

  /**
   * What `ParseAll` means piece by piece: it fails exactly when some piece
   * does not match the pattern, and on success term `i` is the match of piece `i`.
   */
  lemma ParseAllPieces(items: seq<string>)
    ensures ParseAll(items).None? <==> exists i :: 0 <= i < |items| && MatchTerm(items[i]).None?
    ensures ParseAll(items).Some? ==>
              forall i :: 0 <= i < |items| ==> MatchTerm(items[i]) == Some(ParseAll(items).value[i])
  {
    ParseAllMatches(items);
    if ParseAll(items).None? {
      var i := ParseAllFailing(items);
    }
  }

  /** The message `rollDice` shows for a formula `roll` rejects (script.js:49). */
  const RollError := "Error in roll formula"

  /** What `rollDice` returns: nothing (`undefined`), the total, or the error string. */
  datatype Display = Nothing | Total(value: int) | Message(text: string)

  function Sum(s: seq<int>): int {
    if s == [] then 0 else Sum(s[..|s| - 1]) + s[|s| - 1]
  }

  /** The label a rolled unit gets in the breakdown string (script.js:41-43). */
  function Label(size: nat): string {
    if size != 0 then "<span class='type'>d" + NatToString(size) + "</span>" else ""
  }

  /** The separator before entry `i` (script.js:40): none for the first, then by sign. */
  function Separator(i: nat, value: int): string {
    if i != 0 then (if value >= 0 then " + " else " - ") else ""
  }

  lemma SumStep(res: seq<int>, i: nat)
    requires i < |res|
    ensures Sum(res[..i + 1]) == Sum(res[..i]) + res[i]
  {
    assert res[..i + 1][..i] == res[..i];
  }

  lemma BreakdownStep(res: seq<int>, types: seq<nat>, i: nat)
    requires |res| == |types| && i < |res|
    ensures Breakdown(res[..i + 1], types[..i + 1]) ==
            Breakdown(res[..i], types[..i]) + Separator(i, res[i]) + Label(types[i])
  {
    assert res[..i + 1][..i] == res[..i] && types[..i + 1][..i] == types[..i];
  }

  /** The breakdown `str` that `rollDice` builds and then drops (script.js:35-45). */
  function Breakdown(res: seq<int>, types: seq<nat>): string
    requires |res| == |types|
  {
    if res == [] then ""
    else
      var n := |res| - 1;
      Breakdown(res[..n], types[..n]) + Separator(n, res[n]) + Label(types[n])
  }

  /** The loop of `rollDice` (script.js:35-46): the total and the breakdown string. */
  method SumUp(res: seq<int>, types: seq<nat>) returns (total: int, str: string)
    requires |res| == |types|
    ensures total == Sum(res)
    ensures str == Breakdown(res, types)
  {
    str, total := "", 0;
    var i := 0;
    while i < |res|
      invariant 0 <= i <= |res|
      invariant total == Sum(res[..i])
      invariant str == Breakdown(res[..i], types[..i])
    {
      SumStep(res, i);
      BreakdownStep(res, types, i);
      total := total + res[i];
      if |res| > 0 {
        str := str + Separator(i, res[i]) + Label(types[i]);
      }
      i := i + 1;
    }
    assert res[..i] == res && types[..i] == types;
  }

  /** `rollDice(dice)` (script.js:31-51). */
  method RollDice(dice: string, rand: nat -> real) returns (out: Display)
    ensures dice == [] ==> out == Nothing
    ensures dice != [] && Evaluate(dice, rand).None? ==> out == Message(RollError)
    ensures dice != [] && Evaluate(dice, rand).Some? ==> out == Total(Sum(Evaluate(dice, rand).value.res))
  {
    if dice == [] {
      return Nothing;
    }
    var data := Roll(dice, rand);
    if data.Some? {
      EvaluateShape(dice, rand);
      var total, str := SumUp(data.value.res, data.value.types);
      return Total(total);
    } else {
      return Message(RollError);
    }
  }

  // ---------------------------------------------------------------------------
  // Properties
  // ---------------------------------------------------------------------------

  /** `res` and `type` grow together, by the entries of each term. */
  lemma {:induction false} ExpandShape(ts: seq<Term>, rand: nat -> real)
    ensures |Expand(ts, rand).res| == |Expand(ts, rand).types| == TotalEntries(ts)
  {
    if ts != [] {
      ExpandShape(ts[..|ts| - 1], rand);
    }
  }

  /** On success `res` and `type` have the same, non-zero, length. */
  lemma EvaluateShape(dice: string, rand: nat -> real)
    requires Evaluate(dice, rand).Some?
    ensures |Evaluate(dice, rand).value.res| == |Evaluate(dice, rand).value.types| > 0
  {
    ExpandShape(ParseAll(Items(dice)).value, rand);
  }

  /** The entries of a list of terms are none exactly when every term is a group of zero dice. */
  lemma {:induction false} NoEntries(ts: seq<Term>)
    ensures TotalEntries(ts) == 0 <==> forall i :: 0 <= i < |ts| ==> ts[i].DieGroup? && ts[i].num == 0
  {
    if ts != [] {
      var init := ts[..|ts| - 1];
      NoEntries(init);
      assert forall i :: 0 <= i < |init| ==> init[i] == ts[i];
    }
  }

  /**
   * `roll` returns `null` exactly when some piece does not match the term
   * pattern, or when every piece is a group of zero dice (`0dM`).
   */
  lemma EvaluateNone(dice: string, rand: nat -> real)
    ensures Evaluate(dice, rand).None? <==>
              ParseAll(Items(dice)).None? ||
              forall i :: 0 <= i < |Items(dice)| ==>
                 ParseAll(Items(dice)).value[i].DieGroup? && ParseAll(Items(dice)).value[i].num == 0
  {
    var p := ParseAll(Items(dice));
    if p.Some? {
      ExpandShape(p.value, rand);
      NoEntries(p.value);
    }
  }

  /** A piece that does not match makes the whole formula fail, whatever the other pieces are. */
  lemma BadPieceFails(dice: string, rand: nat -> real, i: nat)
    requires i < |Items(dice)| && MatchTerm(Items(dice)[i]).None?
    ensures Evaluate(dice, rand) == None
  {
    PieceFails(Items(dice), i);
  }

  /** The value a unit of `res` can have: a die shows at most its size, a constant is its signed value. */
  lemma {:induction false} ExpandBounds(ts: seq<Term>, rand: nat -> real)
    requires Source(rand)
    requires Signed(ts)
    ensures var t := Expand(ts, rand);
            |t.res| == |t.types| &&
            forall i :: 0 <= i < |t.res| && t.types[i] > 0 ==> -(t.types[i] as int) <= t.res[i] <= t.types[i]
  {
    ExpandShape(ts, rand);
    if ts != [] {
      var acc := Expand(ts[..|ts| - 1], rand);
      ExpandBounds(ts[..|ts| - 1], rand);
      ExpandShape(ts[..|ts| - 1], rand);
      var last := ts[|ts| - 1];
      assert last.sign == -1 || last.sign == 1;
      if last.DieGroup? {
        RollsBounds(last.sign, last.max, last.num, rand, acc.draws);
        var t := Expand(ts, rand);
        forall i | |acc.res| <= i < |t.res|
          ensures t.types[i] == last.max
          ensures -(last.max as int) <= t.res[i] <= last.max
        {
          RepeatAt(last.max, last.num, i - |acc.res|);
        }
      }
    }
  }

  /** Each die of a group shows a signed value of size at most `max`. */
  lemma {:induction false} RollsBounds(sign: int, max: nat, n: nat, rand: nat -> real, k: nat)
    requires Source(rand) && (sign == 1 || sign == -1)
    ensures forall i :: 0 <= i < n ==> -(max as int) <= Rolls(sign, max, n, rand, k)[i] <= max
  {
    if n > 0 {
      RollsBounds(sign, max, n - 1, rand, k);
      DrawRange(max, rand(k + n - 1));
    }
  }

  /** On success, a unit with a die size shows at most that size, up to its sign. */
  lemma EvaluateBounds(dice: string, rand: nat -> real)
    requires Source(rand)
    requires Evaluate(dice, rand).Some?
    ensures var o := Evaluate(dice, rand).value;
            |o.res| == |o.types| &&
            forall i :: 0 <= i < |o.res| && o.types[i] > 0 ==> -(o.types[i] as int) <= o.res[i] <= o.types[i]
  {
    ExpandBounds(ParseAll(Items(dice)).value, rand);
  }

  /** Only the constants: a formula without dice does not depend on the samples and lists each constant, size 0. */
  lemma {:induction false} ExpandConstants(ts: seq<Term>, rand: nat -> real, other: nat -> real)
    requires forall i :: 0 <= i < |ts| ==> ts[i].Constant?
    ensures Expand(ts, rand) == Expand(ts, other)
    ensures var t := Expand(ts, rand);
            t.draws == 0 && |t.res| == |t.types| == |ts| &&
            forall i :: 0 <= i < |ts| ==> t.res[i] == ts[i].sign * ts[i].num && t.types[i] == 0
  {
    if ts != [] {
      var init := ts[..|ts| - 1];
      assert forall i :: 0 <= i < |init| ==> init[i] == ts[i];
      ExpandConstants(init, rand, other);
    }
  }

  /** The number of samples the terms use: one per die. */
  function DiceCount(ts: seq<Term>): nat {
    if ts == [] then 0
    else DiceCount(ts[..|ts| - 1]) + (if ts[|ts| - 1].DieGroup? then ts[|ts| - 1].num else 0)
  }

  /**
   * The dice take the samples in order, one each: evaluation uses exactly
   * `DiceCount(ts)` samples, and two sources that agree on those give the
   * same result.
   */
  lemma {:induction false} ExpandSamples(ts: seq<Term>, rand: nat -> real, other: nat -> real)
    requires forall k: nat :: k < DiceCount(ts) ==> rand(k) == other(k)
    ensures Expand(ts, rand).draws == DiceCount(ts)
    ensures Expand(ts, rand) == Expand(ts, other)
  {
    if ts != [] {
      var init := ts[..|ts| - 1];
      ExpandSamples(init, rand, other);
      var last := ts[|ts| - 1];
      if last.DieGroup? {
        RollsSamples(last.sign, last.max, last.num, rand, other, DiceCount(init));
      }
    }
  }

  lemma {:induction false} RollsSamples(sign: int, max: nat, n: nat, rand: nat -> real, other: nat -> real, k: nat)
    requires forall j: nat :: k <= j < k + n ==> rand(j) == other(j)
    ensures Rolls(sign, max, n, rand, k) == Rolls(sign, max, n, other, k)
  {
    if n > 0 {
      RollsSamples(sign, max, n - 1, rand, other, k);
      assert rand(k + n - 1) == other(k + n - 1);
    }
  }

  /** The die sizes of a group are recorded as its size, one per die. */
  lemma {:induction false} ExpandSizes(ts: seq<Term>, rand: nat -> real)
    ensures var t := Expand(ts, rand);
            |t.types| == TotalEntries(ts) &&
            forall i :: 0 <= i < |t.types| && t.types[i] != 0 ==> exists j :: 0 <= j < |ts| && ts[j].DieGroup? && ts[j].max == t.types[i]
  {
    ExpandShape(ts, rand);
    if ts != [] {
      var init := ts[..|ts| - 1];
      ExpandSizes(init, rand);
      ExpandShape(init, rand);
      var acc := Expand(init, rand);
      var t := Expand(ts, rand);
      var last := ts[|ts| - 1];
      forall i | 0 <= i < |t.types| && t.types[i] != 0
        ensures exists j :: 0 <= j < |ts| && ts[j].DieGroup? && ts[j].max == t.types[i]
      {
        if i < |acc.types| {
          assert t.types[i] == acc.types[i];
          var j :| 0 <= j < |init| && init[j].DieGroup? && init[j].max == acc.types[i];
          assert ts[j] == init[j];
        } else {
          assert last.DieGroup?;
          RepeatAt(last.max, last.num, i - |acc.types|);
          assert ts[|ts| - 1].max == t.types[i];
        }
      }
    }
  }

  /** The signed sum of a list of constants. */
  function ConstantSum(ts: seq<Term>): int {
    if ts == [] then 0 else ConstantSum(ts[..|ts| - 1]) + ts[|ts| - 1].sign * ts[|ts| - 1].num
  }

  lemma {:induction false} SumConstants(ts: seq<Term>, rand: nat -> real)
    requires forall i :: 0 <= i < |ts| ==> ts[i].Constant?
    ensures Sum(Expand(ts, rand).res) == ConstantSum(ts)
  {
    if ts != [] {
      var init := ts[..|ts| - 1];
      var last := ts[|ts| - 1];
      assert forall i :: 0 <= i < |init| ==> init[i] == ts[i];
      SumConstants(init, rand);
      var prev := Expand(init, rand).res;
      var r := Expand(ts, rand).res;
      assert r == prev + [last.sign * last.num];
      assert r[..|r| - 1] == prev;
    }
  }

  /**
   * A formula whose pieces are all constants always succeeds, gives the same
   * result for every source of samples, and `rollDice` shows the signed sum of
   * the constants.
   */
  lemma ConstantFormula(dice: string, rand: nat -> real, other: nat -> real)
    requires ParseAll(Items(dice)).Some?
    requires forall i :: 0 <= i < |Items(dice)| ==> ParseAll(Items(dice)).value[i].Constant?
    ensures Evaluate(dice, rand).Some? && Evaluate(dice, rand) == Evaluate(dice, other)
    ensures Sum(Evaluate(dice, rand).value.res) == ConstantSum(ParseAll(Items(dice)).value)
    ensures forall i :: 0 <= i < |Evaluate(dice, rand).value.types| ==> Evaluate(dice, rand).value.types[i] == 0
  {
    var ts := ParseAll(Items(dice)).value;
    ExpandConstants(ts, rand, other);
    SumConstants(ts, rand);
  }

  /** `roll` reads `Math.random()` once per die and nothing else: sources that agree on those samples agree on the result. */
  lemma EvaluateSamples(dice: string, rand: nat -> real, other: nat -> real)
    requires ParseAll(Items(dice)).Some? ==> forall k: nat :: k < DiceCount(ParseAll(Items(dice)).value) ==> rand(k) == other(k)
    ensures Evaluate(dice, rand) == Evaluate(dice, other)
  {
    if ParseAll(Items(dice)).Some? {
      ExpandSamples(ParseAll(Items(dice)).value, rand, other);
    }
  }
}
