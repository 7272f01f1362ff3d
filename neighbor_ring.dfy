/**
 * Going round the eight neighbours of a pixel, in the order of
 * `Point.Neighbors` (clockwise from the one directly above), as
 * `find_nonzero_neighbor` in `src/geometry.rs` does.
 */
module NeighborRing {
  datatype Direction = Clockwise | CounterClockwise

  /** The index after `idx` going round the eight neighbours in direction `dir`. */
  function NextNeighbor(idx: nat, dir: Direction): (r: nat)
    requires idx < 8
    ensures r < 8
  {
    match dir
    case Clockwise => (idx + 1) % 8
    case CounterClockwise => if idx == 0 then 7 else idx - 1
  }

  /** The index `k` steps from `s` going round in direction `dir`. */
  function Around(s: nat, k: nat, dir: Direction): (r: nat)
    requires s < 8 && k <= 8
    ensures r < 8
  {
    match dir
    case Clockwise => if s + k < 8 then s + k else s + k - 8
    case CounterClockwise => if k <= s then s - k else s - k + 8
  }

  /** The number of steps from `s` round to `i` in direction `dir`. */
  function StepsTo(s: nat, i: nat, dir: Direction): (k: nat)
    requires s < 8 && i < 8
    ensures k < 8
  {
    match dir
    case Clockwise => if s <= i then i - s else i - s + 8
    case CounterClockwise => if i <= s then s - i else s - i + 8
  }

  /** Going round visits the eight indexes once each, and is back at the start after eight steps. */
  lemma AroundRing(s: nat, dir: Direction)
    requires s < 8
    ensures Around(s, 0, dir) == s && Around(s, 8, dir) == s
    ensures forall k: nat :: k < 8 ==> Around(s, k + 1, dir) == NextNeighbor(Around(s, k, dir), dir)
    ensures forall i: nat :: i < 8 ==> Around(s, StepsTo(s, i, dir), dir) == i
  {
    forall k: nat | k < 8
      ensures Around(s, k + 1, dir) == NextNeighbor(Around(s, k, dir), dir)
    {
      if dir == Clockwise {
        var a := Around(s, k, dir);
        assert (a + 1) % 8 == if a == 7 then 0 else a + 1;
      }
    }
  }

  /** The walk round comes back to where it started only after all eight steps. */
  lemma AroundReturns(s: nat, k: nat, dir: Direction)
    requires s < 8 && 1 <= k <= 8 && Around(s, k, dir) == s
    ensures k == 8
  {
  }
}
