/**
  The shared best index `foundIndex`: its initial sentinel and the one rule
  by which a worker may change it, applied while holding the mutex.
 */
module SharedBest {

  /** `LONG_LONG_MAX`, the initial "nothing found yet" value (2^63 - 1). */
  const LongLongMax: int := 0x7FFF_FFFF_FFFF_FFFF

  /** The shared value after a worker reports a match at `i`: lowered to `i` only when `i` is strictly smaller. */
  function Update(found: int, i: int): (r: int)
    ensures r <= found && r <= i
    ensures r == found || r == i
  {
    if found > i then i else found
  }

  /** Two reports give the same value in either order, and repeating a report changes nothing. */
  lemma UpdateCommutes(found: int, i: int, j: int)
    ensures Update(Update(found, i), j) == Update(Update(found, j), i)
    ensures Update(Update(found, i), i) == Update(found, i)
  {
  }
}
