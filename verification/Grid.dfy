/**
 * The fixed battle grid: 27 columns by 21 rows, with the eight king moves of
 * chess as its adjacency.
 */
module Grid {
  const Width: int := 27
  const Height: int := 21

  /** A grid cell (the game library calls a path entry an `Edge`). */
  datatype Coord = Coord(x: int, y: int)

  /** Every cell of the grid. */
  ghost function AllCells(): set<Coord> {
    set x, y | 0 <= x < Width && 0 <= y < Height :: Coord(x, y)
  }

  /** `isValid`: the cell is one of the grid's cells. */
  predicate InBounds(c: Coord)
    ensures InBounds(c) <==> c in AllCells()
  {
    0 <= c.x < Width && 0 <= c.y < Height
  }

  /** The eight moves, in the order in which the path finder expands them. */
  const Directions: seq<(int, int)> :=
    [(-1, -1), (-1, 0), (-1, 1),
     (0, -1),           (0, 1),
     (1, -1),  (1, 0),  (1, 1)]

  /** Chebyshev distance exactly one. */
  predicate Adjacent(a: Coord, b: Coord) {
    a != b && -1 <= a.x - b.x <= 1 && -1 <= a.y - b.y <= 1
  }

  /** The neighbour of `c` in direction `k`: each of the eight steps reaches
      an adjacent cell (`AdjacentIsStep` is the converse). */
  function Step(c: Coord, k: nat): (r: Coord)
    requires k < |Directions|
    ensures Adjacent(c, r)
  {
    Coord(c.x + Directions[k].0, c.y + Directions[k].1)
  }

  /** Every adjacent cell is reached by one of the eight steps. */
  lemma AdjacentIsStep(c: Coord, n: Coord) returns (k: nat)
    requires Adjacent(c, n)
    ensures k < |Directions| && Step(c, k) == n
  {
    var dx, dy := n.x - c.x, n.y - c.y;
    k := if dx == -1 then (if dy == -1 then 0 else if dy == 0 then 1 else 2)
         else if dx == 0 then (if dy == -1 then 3 else 4)
         else (if dy == -1 then 5 else if dy == 0 then 6 else 7);
  }
}
