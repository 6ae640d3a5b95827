/**
 * The stat editor of src/components/common/StatTracker.tsx: a record of four
 * stats, each changed through a step-up button, a step-down button or a
 * typed number. `onStatChange` is the record the update methods return.
 */
module StatTracking {
  import opened Wrappers
  import opened Decimal
  import opened StatRecord

  /** StatTracker.tsx:32-37. */
  const DEFAULT_STATS := Stats(0, 0, 0, 0)

  /** The range the step buttons keep to (StatTracker.tsx:94-95, 99, 105). */
  const STAT_MIN := -3
  const STAT_MAX := 3

  /** `getStatColor` (StatTracker.tsx:73-77): one class per sign. */
  function StatColor(v: int): (c: string)
    ensures c == "text-red-400" <==> v < 0
    ensures c == "text-green-400" <==> v > 0
    ensures c == "text-white" <==> v == 0
  {
    if v < 0 then "text-red-400" else if v > 0 then "text-green-400" else "text-white"
  }

  /** `Math.min(value + 1, 3)`: the step-up button (StatTracker.tsx:99). */
  function Increment(v: int): (r: int)
    ensures r <= STAT_MAX
    ensures v < STAT_MAX ==> r == v + 1
    ensures v >= STAT_MAX ==> r == STAT_MAX
  {
    if v + 1 < STAT_MAX then v + 1 else STAT_MAX
  }

  /** `Math.max(value - 1, -3)`: the step-down button (StatTracker.tsx:105). */
  function Decrement(v: int): (r: int)
    ensures r >= STAT_MIN
    ensures v > STAT_MIN ==> r == v - 1
    ensures v <= STAT_MIN ==> r == STAT_MIN
  {
    if v - 1 > STAT_MIN then v - 1 else STAT_MIN
  }

  /**
   * The buttons undo each other inside the range, and keep an in-range value
   * in range.
   */
  lemma StepsInverse(v: int)
    ensures STAT_MIN <= v < STAT_MAX ==> Decrement(Increment(v)) == v
    ensures STAT_MIN < v <= STAT_MAX ==> Increment(Decrement(v)) == v
    ensures STAT_MIN <= v <= STAT_MAX ==> STAT_MIN <= Increment(v) <= STAT_MAX && STAT_MIN <= Decrement(v) <= STAT_MAX
  {
  }

  // ---------------------------------------------------------------------------
  // `parseInt(text) || 0` (StatTracker.tsx:92)
  // ---------------------------------------------------------------------------

  /** The white space `parseInt` skips before the number (the ASCII part of it). */
  predicate IsSpace(c: char) {
    c == ' ' || c == '\t' || c == '\n' || c == '\r' || c == '\U{B}' || c == '\U{C}'
  }

  function LeadingWhiteSpaceCount(s: string): (k: nat)
    ensures k <= |s|
    ensures k < |s| ==> !IsSpace(s[k])
  {
    if s != [] && IsSpace(s[0]) then 1 + LeadingWhiteSpaceCount(s[1..]) else 0
  }

  /**
   * `parseInt(text)` in base 10: white space, an optional sign, then the
   * longest run of digits; `None` (NaN) when there are no digits.
   */
  function ParseInt(text: string): (r: Option<int>)
    ensures r.None? <==>
              var t := text[LeadingWhiteSpaceCount(text)..];
              var body := if t != [] && (t[0] == '-' || t[0] == '+') then t[1..] else t;
              body == [] || !IsDigit(body[0])
  {
    var t := text[LeadingWhiteSpaceCount(text)..];
    var negative := t != [] && t[0] == '-';
    var body := if t != [] && (t[0] == '-' || t[0] == '+') then t[1..] else t;
    var n := LeadingDigits(body);
    if n == 0 then None
    else
      var magnitude: int := DigitsValue(body[..n]);
      Some(if negative then -magnitude else magnitude)
  }

  /** `parseInt(text) || 0`: NaN falls back to 0 (and so does 0 itself, `-0` included). */
  function TypedValue(text: string): int {
    ParseInt(text).GetOr(0)
  }

  /** The decimal form of an integer, as a number input holds it. */
  function IntToString(v: int): (s: string)
    ensures s != []
  {
    if v < 0 then "-" + NatToString(-v) else NatToString(v)
  }

  /** Typing an integer's decimal form stores that integer, in range or not. */
  lemma TypedRoundTrip(v: int)
    ensures TypedValue(IntToString(v)) == v
  {
    var m: nat := if v < 0 then -v else v;
    var digits := NatToString(m);
    NatToStringRoundTrip(m);
    LeadingDigitsOf(digits, []);
    assert digits + [] == digits;
    var s := IntToString(v);
    assert s[0] != ' ' && !IsSpace(s[0]) by {
      if v >= 0 {
        assert IsDigit(digits[0]);
      }
    }
    assert LeadingWhiteSpaceCount(s) == 0;
    if v < 0 {
      assert s[1..] == digits;
    }
    assert digits[..|digits|] == digits;
  }

  class StatTracker {
    var stats: Stats

    /** `useState(initialStats || DEFAULT_STATS)` (StatTracker.tsx:48). */
    constructor(initialStats: Option<Stats>)
      ensures stats == initialStats.GetOr(DEFAULT_STATS)
    {
      stats := initialStats.GetOr(DEFAULT_STATS);
    }

    /** The effect of a new `initialStats` prop (StatTracker.tsx:51-55): taken when given, ignored when absent. */
    method Sync(initialStats: Option<Stats>)
      modifies this
      ensures stats == initialStats.GetOr(old(stats))
    {
      if initialStats.Some? {
        stats := initialStats.value;
      }
    }

    /**
     * `updateStat` (StatTracker.tsx:62-66): field `name` becomes `value`, the
     * other three stay, and the stored record is the one reported.
     */
    method UpdateStat(name: StatName, value: int) returns (reported: Stats)
      modifies this
      ensures stats == With(old(stats), name, value)
      ensures reported == stats
    {
      var newStats := With(stats, name, value);
      stats := newStats;
      reported := newStats;
    }

    /** The step-up button of stat `name` (StatTracker.tsx:99). */
    method StepUp(name: StatName) returns (reported: Stats)
      modifies this
      ensures stats == With(old(stats), name, Increment(Get(old(stats), name)))
      ensures reported == stats
    {
      reported := UpdateStat(name, Increment(Get(stats, name)));
    }

    /** The step-down button of stat `name` (StatTracker.tsx:105). */
    method StepDown(name: StatName) returns (reported: Stats)
      modifies this
      ensures stats == With(old(stats), name, Decrement(Get(old(stats), name)))
      ensures reported == stats
    {
      reported := UpdateStat(name, Decrement(Get(stats, name)));
    }

    /** Typing `text` into the input of stat `name` (StatTracker.tsx:92): no range check. */
    method Type(name: StatName, text: string) returns (reported: Stats)
      modifies this
      ensures stats == With(old(stats), name, TypedValue(text))
      ensures reported == stats
    {
      reported := UpdateStat(name, TypedValue(text));
    }
  }

  /**
   * A session: start from the defaults, step Hot up four times (it stops at
   * 3), type 7 into Dark (kept, out of range), then step Dark up, which
   * brings it down to 3.
   */
  method Session() returns (colors: seq<string>, stats: Stats)
    ensures stats == Stats(3, 0, 3, 0)
    ensures colors == ["text-green-400", "text-white", "text-green-400", "text-white"]
  {
    var t := new StatTracker(None);
    var r := t.StepUp(Hot);
    r := t.StepUp(Hot);
    r := t.StepUp(Hot);
    r := t.StepUp(Hot);
    TypedRoundTrip(7);
    assert IntToString(7) == "7";
    r := t.Type(Dark, "7");
    assert t.stats.dark == 7;
    r := t.StepUp(Dark);
    stats := t.stats;
    colors := [StatColor(stats.hot), StatColor(stats.cold), StatColor(stats.dark), StatColor(stats.volatile)];
  }
}
