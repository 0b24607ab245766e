/** Counters that grow, and may be reset between two readings. */
module Counters {
  /** How far a counter went between two readings; one that went back counts as not having moved. */
  function Growth(before: int, now: int): (g: nat)
    ensures now >= before ==> before + g == now
    ensures now < before ==> g == 0
  {
    if now < before then 0 else now - before
  }
}
