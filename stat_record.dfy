/**
 * The four-stat record of a Monsterhearts character (`Stats` in
 * src/components/common/StatTracker.tsx:11-16 and
 * src/components/common/DiceRoller.tsx:11-16): Hot, Cold, Dark and Volatile.
 */
module StatRecord {
  datatype Stats = Stats(hot: int, cold: int, dark: int, volatile: int)

  /** A key of the record (`keyof Stats`). */
  datatype StatName = Hot | Cold | Dark | Volatile

  /** `stats[name]`. */
  function Get(s: Stats, name: StatName): int {
    match name
    case Hot => s.hot
    case Cold => s.cold
    case Dark => s.dark
    case Volatile => s.volatile
  }

  /** `{ ...s, [name]: v }`: the record with one field replaced. */
  function With(s: Stats, name: StatName, v: int): (r: Stats)
    ensures Get(r, name) == v
    ensures forall other :: other != name ==> Get(r, other) == Get(s, other)
  {
    match name
    case Hot => s.(hot := v)
    case Cold => s.(cold := v)
    case Dark => s.(dark := v)
    case Volatile => s.(volatile := v)
  }

  /** A record is determined by its four fields. */
  lemma {:induction false} StatsExtensional(s: Stats, t: Stats)
    requires forall n :: Get(s, n) == Get(t, n)
    ensures s == t
  {
    assert Get(s, Hot) == Get(t, Hot) && Get(s, Cold) == Get(t, Cold);
    assert Get(s, Dark) == Get(t, Dark) && Get(s, Volatile) == Get(t, Volatile);
  }

  /** Setting a field to the value it has changes nothing; setting it twice keeps the last value. */
  lemma WithLaws(s: Stats, name: StatName, v: int, w: int)
    ensures With(s, name, Get(s, name)) == s
    ensures With(With(s, name, v), name, w) == With(s, name, w)
  {
    StatsExtensional(With(s, name, Get(s, name)), s);
    StatsExtensional(With(With(s, name, v), name, w), With(s, name, w));
  }
}
