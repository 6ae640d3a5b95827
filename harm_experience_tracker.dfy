/**
 * The Harm and Experience boxes of src/components/common/HarmExperienceTracker.tsx:
 * two counters, each set by pressing one of its boxes or its Clear button and
 * clamped to [0, HARM_MAX] and [0, EXPERIENCE_MAX]. The callbacks
 * `onHarmChange` and `onExperienceChange` are the values the update methods
 * return.
 */
module HarmExperience {
  import opened Wrappers

  /** HarmExperienceTracker.tsx:21-22. */
  const HARM_MAX: nat := 4
  const EXPERIENCE_MAX: nat := 5

  /** `Math.min(Math.max(x, 0), hi)` (HarmExperienceTracker.tsx:55, 65). */
  function Clamp(x: int, hi: nat): (r: int)
    ensures 0 <= r <= hi
    ensures 0 <= x <= hi ==> r == x
    ensures x < 0 ==> r == 0
    ensures x > hi ==> r == hi
  {
    var low := if x > 0 then x else 0;
    if low < hi then low else hi
  }

  /** Clamping twice is clamping once; a larger input never clamps lower. */
  lemma ClampLaws(x: int, y: int, hi: nat)
    ensures Clamp(Clamp(x, hi), hi) == Clamp(x, hi)
    ensures x <= y ==> Clamp(x, hi) <= Clamp(y, hi)
  {
  }

  /** Whether box `index` (0-based) is drawn filled for the value `value` (HarmExperienceTracker.tsx:83, 112). */
  predicate Filled(index: nat, value: int) {
    index < value
  }

  /** The filled flags of the first `n` boxes. */
  function Boxes(value: int, n: nat): (b: seq<bool>)
    ensures |b| == n
  {
    if n == 0 then [] else Boxes(value, n - 1) + [Filled(n - 1, value)]
  }

  function CountFilled(b: seq<bool>): nat {
    if b == [] then 0 else CountFilled(b[..|b| - 1]) + (if b[|b| - 1] then 1 else 0)
  }

  /** Box `i` of the row is drawn by the rule of its index. */
  lemma {:induction false} BoxesAt(value: int, n: nat, i: nat)
    requires i < n
    ensures Boxes(value, n)[i] == Filled(i, value)
  {
    if i < n - 1 {
      BoxesAt(value, n - 1, i);
    }
  }

  /**
   * The row shows the value: as many boxes are filled as the value clamped
   * to the row, and the filled boxes are the first ones.
   */
  lemma {:induction false} BoxesShowValue(value: int, n: nat)
    ensures CountFilled(Boxes(value, n)) == Clamp(value, n)
    ensures forall i, j :: 0 <= i < j < n && Boxes(value, n)[j] ==> Boxes(value, n)[i]
  {
    if n > 0 {
      BoxesShowValue(value, n - 1);
      assert Boxes(value, n)[..n - 1] == Boxes(value, n - 1);
    }
    forall i, j | 0 <= i < j < n && Boxes(value, n)[j]
      ensures Boxes(value, n)[i]
    {
      BoxesAt(value, n, i);
      BoxesAt(value, n, j);
    }
  }

  class HarmExperienceTracker {
    var harm: int
    var experience: int

    /**
     * `useState(initialHarm)` and `useState(initialExperience)`: an absent
     * prop is 0, a given one is taken as it is, not clamped.
     */
    constructor(initialHarm: Option<int>, initialExperience: Option<int>)
      ensures harm == initialHarm.GetOr(0) && experience == initialExperience.GetOr(0)
    {
      harm := initialHarm.GetOr(0);
      experience := initialExperience.GetOr(0);
    }

    /** The effect of a new `initialHarm` prop (HarmExperienceTracker.tsx:42-44): copied as it is, not clamped. */
    method SyncHarm(initialHarm: Option<int>)
      modifies this
      ensures harm == initialHarm.GetOr(0) && experience == old(experience)
    {
      harm := initialHarm.GetOr(0);
    }

    /** The effect of a new `initialExperience` prop (HarmExperienceTracker.tsx:46-48). */
    method SyncExperience(initialExperience: Option<int>)
      modifies this
      ensures experience == initialExperience.GetOr(0) && harm == old(harm)
    {
      experience := initialExperience.GetOr(0);
    }

    /** `updateHarm` (HarmExperienceTracker.tsx:54-58): stores the clamped value and reports that same value. */
    method UpdateHarm(newHarm: int) returns (reported: int)
      modifies this
      ensures harm == Clamp(newHarm, HARM_MAX) && experience == old(experience)
      ensures reported == harm
    {
      var clamped := Clamp(newHarm, HARM_MAX);
      harm := clamped;
      reported := clamped;
    }

    /** `updateExperience` (HarmExperienceTracker.tsx:64-68). */
    method UpdateExperience(newExperience: int) returns (reported: int)
      modifies this
      ensures experience == Clamp(newExperience, EXPERIENCE_MAX) && harm == old(harm)
      ensures reported == experience
    {
      var clamped := Clamp(newExperience, EXPERIENCE_MAX);
      experience := clamped;
      reported := clamped;
    }

    /** Pressing Harm box `index` (0-based, labelled `index + 1`) sets harm to `index + 1` (HarmExperienceTracker.tsx:87). */
    method PressHarmBox(index: nat) returns (reported: int)
      requires index < HARM_MAX
      modifies this
      ensures harm == index + 1 && reported == harm && experience == old(experience)
    {
      reported := UpdateHarm(index + 1);
    }

    /** Harm's Clear button (HarmExperienceTracker.tsx:95). */
    method ClearHarm() returns (reported: int)
      modifies this
      ensures harm == 0 && reported == 0 && experience == old(experience)
    {
      reported := UpdateHarm(0);
    }

    /** Pressing Experience box `index` sets experience to `index + 1` (HarmExperienceTracker.tsx:116). */
    method PressExperienceBox(index: nat) returns (reported: int)
      requires index < EXPERIENCE_MAX
      modifies this
      ensures experience == index + 1 && reported == experience && harm == old(harm)
    {
      reported := UpdateExperience(index + 1);
    }

    /** Experience's Clear button (HarmExperienceTracker.tsx:124). */
    method ClearExperience() returns (reported: int)
      modifies this
      ensures experience == 0 && reported == 0 && harm == old(harm)
    {
      reported := UpdateExperience(0);
    }

    /** The Harm row as drawn: as many boxes lit, from the left, as harm clamped to the row. */
    function HarmBoxes(): (b: seq<bool>)
      reads this
      ensures |b| == HARM_MAX && CountFilled(b) == Clamp(harm, HARM_MAX)
      ensures forall i, j :: 0 <= i < j < |b| && b[j] ==> b[i]
    {
      BoxesShowValue(harm, HARM_MAX);
      Boxes(harm, HARM_MAX)
    }

    /** The Experience row as drawn: as many boxes lit, from the left, as experience clamped to the row. */
    function ExperienceBoxes(): (b: seq<bool>)
      reads this
      ensures |b| == EXPERIENCE_MAX && CountFilled(b) == Clamp(experience, EXPERIENCE_MAX)
      ensures forall i, j :: 0 <= i < j < |b| && b[j] ==> b[i]
    {
      BoxesShowValue(experience, EXPERIENCE_MAX);
      Boxes(experience, EXPERIENCE_MAX)
    }
  }

  /**
   * A session: props bring in an out-of-range harm of 7, which is kept and
   * drawn as four filled boxes; pressing box 2 sets harm to 2 (two filled);
   * an experience update of 9 is clamped to 5.
   */
  method Session() returns (synced: int, shownAfterSync: nat, pressed: int, shownAfterPress: nat, experience: int)
    ensures synced == 7 && shownAfterSync == 4
    ensures pressed == 2 && shownAfterPress == 2
    ensures experience == 5
  {
    var t := new HarmExperienceTracker(None, None);
    t.SyncHarm(Some(7));
    synced := t.harm;
    BoxesShowValue(t.harm, HARM_MAX);
    shownAfterSync := CountFilled(t.HarmBoxes());
    pressed := t.PressHarmBox(1);
    BoxesShowValue(t.harm, HARM_MAX);
    shownAfterPress := CountFilled(t.HarmBoxes());
    experience := t.UpdateExperience(9);
  }
}
