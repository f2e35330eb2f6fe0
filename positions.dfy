/**
 * Signed board coordinates (`GridPosition` in src/game_objects/grid.rs) and
 * their edge neighbourhoods (`get_adjacent`).
 * Rows grow upwards, columns grow to the right; nothing is clamped.
 */
module Positions {

  /** A (row, column) pair. The source stores both as `isize`; here they are unbounded. */
  datatype GridPosition = GridPosition(row: int, col: int)
  {
    /** The position shifted by `dr` rows and `dc` columns. */
    function Translate(dr: int, dc: int): (p: GridPosition)
      ensures p.row - row == dr && p.col - col == dc
    {
      GridPosition(row + dr, col + dc)
    }
  }

  /** Translations compose and the null translation is the identity. */
  lemma TranslateCompose(p: GridPosition, a: int, b: int, c: int, d: int)
    ensures p.Translate(a, b).Translate(c, d) == p.Translate(a + c, b + d)
    ensures p.Translate(0, 0) == p
  {
  }

  /** Edge adjacency: exactly one coordinate differs, and by one. */
  predicate IsAdjacent(p: GridPosition, q: GridPosition)
  {
    (p.row == q.row && (q.col == p.col + 1 || q.col == p.col - 1)) ||
    (p.col == q.col && (q.row == p.row + 1 || q.row == p.row - 1))
  }

  /** No element occurs twice. */
  predicate Distinct<X(==)>(s: seq<X>)
  {
    forall i, j :: 0 <= i < j < |s| ==> s[i] != s[j]
  }

  /** The four edge neighbours, in the order up, down, right, left. */
  function GetAdjacent(p: GridPosition): (ns: seq<GridPosition>)
    ensures |ns| == 4 && Distinct(ns)
    ensures forall q :: q in ns <==> IsAdjacent(p, q)
  {
    [p.Translate(1, 0), p.Translate(-1, 0), p.Translate(0, 1), p.Translate(0, -1)]
  }
}
