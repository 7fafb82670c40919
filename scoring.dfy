/** The points a correct match earns, chosen by the streak after it was increased. */
module Scoring {

  /** 9 from a streak of 10, 7 from a streak of 5, 5 below that; only one tier applies. */
  function Points(streak: int): (p: nat)
    ensures 5 <= p <= 9 && p % 2 == 1
  {
    if streak >= 10 then 9
    else if streak >= 5 then 7
    else 5
  }

  /** The tiers read as a base of 5 plus 2 for every completed block of five consecutive
      correct matches, counting at most two blocks. */
  lemma PointsByBlocks(streak: nat)
    ensures Points(streak) == 5 + 2 * ((if streak < 10 then streak else 10) / 5)
  {
  }

  /** A longer streak never earns fewer points. */
  lemma PointsMonotone(a: int, b: int)
    requires a <= b
    ensures Points(a) <= Points(b)
  {
  }
}
