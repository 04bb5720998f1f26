/** The four named qualities of the QC framework and their integer levels.

    `core::Quality` is not part of this model: its level constants are
    unknown, so they are carried as a `LevelScale` parameter. The only fact
    any property relies on is that the four levels are distinct.
 */
module Qualities {

  datatype Quality = Good | Medium | Bad | Null

  /** The levels `Quality::getLevel()` reports for each named quality. */
  datatype LevelScale = LevelScale(good: int, medium: int, bad: int, nul: int) {

    /** Different qualities have different levels. */
    predicate Distinct() {
      && good != medium && good != bad && good != nul
      && medium != bad && medium != nul
      && bad != nul
    }

    function Level(q: Quality): int {
      match q
      case Good => good
      case Medium => medium
      case Bad => bad
      case Null => nul
    }
  }

  /** On a scale with distinct levels, equal levels mean equal qualities. */
  lemma LevelInjective(scale: LevelScale, p: Quality, q: Quality)
    requires scale.Distinct()
    ensures scale.Level(p) == scale.Level(q) <==> p == q
  {
  }

  /** The spelling that starts with a capital letter, as in `"Good"`. */
  function CapitalName(q: Quality): string {
    match q
    case Good => "Good"
    case Medium => "Medium"
    case Bad => "Bad"
    case Null => "Null"
  }

  /** The all-lowercase spelling, as in `"good"`. */
  function LowerName(q: Quality): string {
    match q
    case Good => "good"
    case Medium => "medium"
    case Bad => "bad"
    case Null => "null"
  }
}
