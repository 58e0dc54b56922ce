/**
 * Data model of the cog match-3 grid engine: pieces, cells, positions,
 * gear connections (edges), match entries, the configuration, and the
 * piece factory.
 */
module Pieces {

  datatype Option<T> = None | Some(value: T)

  /** Spin direction of a gear; `NoDirection` stands for the `null` a fresh piece carries. */
  datatype Direction = NoDirection | Clockwise | CounterClockwise

  /**
   * One piece record. `spinStartTime` (a `performance.now()` timestamp) is
   * not modelled; everything else is.
   */
  datatype Piece = Piece(
    color: string,
    isGear: bool,
    rotating: bool,
    spinning: bool,
    direction: Direction,
    spinDuration: int)

  /** A grid cell: a piece, or `None` for the `null` an empty cell holds. */
  type Cell = Option<Piece>

  datatype Pos = Pos(x: int, y: int)

  datatype Orientation = Horizontal | Vertical

  /** A recorded connection line between two adjacent gears. */
  datatype Edge = Edge(x1: int, y1: int, x2: int, y2: int, direction: Orientation)

  /** One entry of the flattened match list: a cell and the piece found there. */
  datatype Match = Match(x: int, y: int, piece: Piece)

  /** The configuration the engine reads (colours are their names). */
  datatype Config = Config(
    gridSize: int,
    colors: seq<string>,
    gearPercentage: int,
    matchLength: int,
    baseScore: int)

  /**
   * What the engine needs of a configuration: a non-empty grid, at least
   * one colour, a percentage in 0..100 (otherwise the gear rebalancing loop
   * never ends) and a match length of at least 1 (otherwise the run scan
   * reads past the end of a row).
   */
  predicate ValidConfig(c: Config) {
    && c.gridSize >= 1
    && |c.colors| >= 1
    && 0 <= c.gearPercentage <= 100
    && c.matchLength >= 1
  }

  /** How long a gear spins after a match, in milliseconds. */
  const GearSpinDuration: int := 2000

  /** A value `Math.random()` can return. */
  type Unit = r: real | 0.0 <= r < 1.0

  /** `Math.floor(u * k)` for a random `u`: always a valid index below `k`. */
  function PickIndex(u: Unit, k: nat): (i: nat)
    requires k > 0
    ensures i < k
  {
    assert 0.0 <= u * (k as real) < k as real;
    (u * (k as real)).Floor
  }

  /** `Math.round`: rounds half-way values up. */
  function Round(r: real): int {
    (r + 0.5).Floor
  }

  /** A piece exactly as the factory leaves it, apart from its colour and gear flag. */
  predicate IsFresh(p: Piece) {
    !p.rotating && !p.spinning && p.direction == NoDirection && p.spinDuration == 0
  }

  /**
   * The piece factory, with the two random draws it makes passed in:
   * `colorRoll` picks the colour, `gearRoll` decides the gear flag.
   */
  function CreatePiece(colors: seq<string>, gearPercentage: int, colorRoll: Unit, gearRoll: Unit): (p: Piece)
    requires |colors| > 0
    ensures p.color in colors
    ensures p.isGear <==> gearRoll * 100.0 < gearPercentage as real
    ensures IsFresh(p)
  {
    Piece(colors[PickIndex(colorRoll, |colors|)], gearRoll * 100.0 < gearPercentage as real,
          false, false, NoDirection, 0)
  }

  /** A piece of the colours on offer that the factory could have produced. */
  predicate IsNewPiece(p: Piece, colors: seq<string>) {
    p.color in colors && IsFresh(p)
  }

  /** With percentage 0 no gear is ever made; with 100 every piece is a gear. */
  lemma GearPercentageBounds(colors: seq<string>, pct: int, u: Unit, v: Unit)
    requires |colors| > 0
    ensures pct <= 0 ==> !CreatePiece(colors, pct, u, v).isGear
    ensures pct >= 100 ==> CreatePiece(colors, pct, u, v).isGear
  {
  }

  /** Checkerboard direction of the gear standing at (x, y). */
  function DirectionAt(x: int, y: int): (d: Direction)
    ensures d != NoDirection
    ensures d == Clockwise <==> (x + y) % 2 == 0
  {
    if (x + y) % 2 == 0 then Clockwise else CounterClockwise
  }

  /** Adjacent cells get opposite directions, so meshed gears turn against each other. */
  lemma {:induction false} NeighboursTurnOpposite(x: int, y: int)
    ensures DirectionAt(x, y) != DirectionAt(x + 1, y)
    ensures DirectionAt(x, y) != DirectionAt(x, y + 1)
  {
    assert (x + y + 1) % 2 != (x + y) % 2;
  }

  /** A list without repeated elements. */
  predicate Distinct<T(==)>(s: seq<T>) {
    forall i, j :: 0 <= i < j < |s| ==> s[i] != s[j]
  }

}
