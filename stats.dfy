/** The counters above the map (src/components/Stats.jsx). */
module Stats {

  /** `totalCount > 0 ? totalCount - visitedCount : 0`. */
  function RemainingCount(visitedCount: int, totalCount: int): (r: int)
    ensures totalCount <= 0 ==> r == 0
    ensures totalCount > 0 ==> r + visitedCount == totalCount
    ensures visitedCount <= totalCount ==> r >= 0
  {
    if totalCount > 0 then totalCount - visitedCount else 0
  }

  /** With cities on the map, visited and remaining add up to the total, and
      visiting one more city leaves one fewer to explore. */
  lemma RemainingSpec(visitedCount: int, totalCount: int)
    ensures totalCount > 0 ==> visitedCount + RemainingCount(visitedCount, totalCount) == totalCount
    ensures totalCount > 0 ==> RemainingCount(visitedCount + 1, totalCount) == RemainingCount(visitedCount, totalCount) - 1
    ensures 0 <= visitedCount <= totalCount ==> RemainingCount(visitedCount, totalCount) <= totalCount
  {
  }
}
