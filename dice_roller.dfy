/**
 * The state logic of the 2d6 roller, src/components/common/DiceRoller.tsx:
 * the last pair of dice (`lastRoll`), rolling, applying a stat to the pair,
 * and clearing it.
 *
 * The callbacks are results: `Roll` and `ClearRoll` return whether
 * `onNewRoll` fired (it is optional, so it fires only when the component was
 * given one), and `ApplyStat` returns the record passed to `onRoll`, or
 * `None` when it emits nothing. `Math.random()` becomes the sample `r`, a
 * real in [0, 1).
 */
module DiceRolling {
  import opened Wrappers
  import opened StatRecord

  /** `Math.floor(r * 6) + 1`: one six-sided die (DiceRoller.tsx:68-69). */
  function Face(r: real): (d: int)
    requires 0.0 <= r < 1.0
    ensures 1 <= d <= 6
  {
    (r * 6.0).Floor + 1
  }

  /** Every face can come up: the samples in [(d - 1) / 6, d / 6) show `d`. */
  lemma FaceOnto(d: int, r: real)
    requires 1 <= d <= 6
    requires (d - 1) as real / 6.0 <= r < d as real / 6.0
    ensures Face(r) == d
  {
    assert (d - 1) as real <= r * 6.0 < d as real;
  }

  /** What `applyStat` passes to `onRoll` (DiceRoller.tsx:41-46). */
  datatype RollResult = RollResult(dice: (int, int), total: int, stat: int, statName: StatName)

  /** The result of applying stat `name` to the pair `pair` (DiceRoller.tsx:80-82). */
  function Outcome(pair: (int, int), stats: Stats, name: StatName): (r: RollResult)
    ensures r.dice == pair && r.stat == Get(stats, name) && r.statName == name
    ensures r.total - r.stat == pair.0 + pair.1
  {
    RollResult(pair, pair.0 + pair.1 + Get(stats, name), Get(stats, name), name)
  }

  class DiceRoller {
    /** Whether the component was given the optional `onNewRoll` callback. */
    const hasOnNewRoll: bool
    /** `lastRoll`: the pair on the table, or `null`. */
    var lastRoll: Option<(int, int)>

    /** A pair on the table shows two faces of six-sided dice. */
    ghost predicate Valid()
      reads this
    {
      lastRoll.Some? ==> 1 <= lastRoll.value.0 <= 6 && 1 <= lastRoll.value.1 <= 6
    }

    /** `useState(null)` (DiceRoller.tsx:57): nothing rolled yet. */
    constructor(hasOnNewRoll: bool)
      ensures this.hasOnNewRoll == hasOnNewRoll && lastRoll == None && Valid()
    {
      this.hasOnNewRoll := hasOnNewRoll;
      lastRoll := None;
    }

    /** `roll` (DiceRoller.tsx:62-72): fires `onNewRoll` if there is one, then replaces the pair. */
    method Roll(r1: real, r2: real) returns (newRollFired: bool)
      requires 0.0 <= r1 < 1.0 && 0.0 <= r2 < 1.0
      modifies this
      ensures newRollFired == hasOnNewRoll
      ensures lastRoll == Some((Face(r1), Face(r2)))
      ensures Valid()
    {
      newRollFired := hasOnNewRoll;
      var dice := (Face(r1), Face(r2));
      lastRoll := Some(dice);
    }

    /**
     * `applyStat` (DiceRoller.tsx:78-83): with no pair it emits nothing;
     * otherwise it emits the pair, the stat, and their total. It changes no
     * state, so every stat applied to one pair sees the same dice.
     */
    method ApplyStat(stats: Stats, name: StatName) returns (emitted: Option<RollResult>)
      ensures lastRoll.None? <==> emitted.None?
      ensures lastRoll.Some? ==> emitted == Some(Outcome(lastRoll.value, stats, name))
      ensures Valid() && emitted.Some? ==> Get(stats, name) + 2 <= emitted.value.total <= Get(stats, name) + 12
    {
      if lastRoll.None? {
        return None;
      }
      var pair := lastRoll.value;
      var stat := Get(stats, name);
      var total := pair.0 + pair.1 + stat;
      emitted := Some(RollResult(pair, total, stat, name));
    }

    /** `clearRoll` (DiceRoller.tsx:88-93): takes the pair away, then fires `onNewRoll` if there is one. */
    method ClearRoll() returns (newRollFired: bool)
      modifies this
      ensures lastRoll == None && Valid()
      ensures newRollFired == hasOnNewRoll
    {
      lastRoll := None;
      newRollFired := hasOnNewRoll;
    }
  }

  /**
   * A session: roll a 3 and a 4, apply Hot 2 and then Cold -1 to the same
   * pair, clear. The two emissions share the dice and differ by the stats.
   */
  method Session() returns (first: Option<RollResult>, second: Option<RollResult>, after: Option<RollResult>)
    ensures first == Some(RollResult((3, 4), 9, 2, Hot))
    ensures second == Some(RollResult((3, 4), 6, -1, Cold))
    ensures after == None
  {
    var roller := new DiceRoller(true);
    var stats := Stats(2, -1, 0, 1);
    var fired := roller.Roll(0.4, 0.5);
    assert Face(0.4) == 3 && Face(0.5) == 4;
    first := roller.ApplyStat(stats, Hot);
    second := roller.ApplyStat(stats, Cold);
    fired := roller.ClearRoll();
    after := roller.ApplyStat(stats, Hot);
  }
}
