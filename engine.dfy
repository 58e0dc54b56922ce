/**
 * The game object: the grid and the counters the engine keeps in
 * `gameState`, and the operations that rewrite them — the drag release and
 * the line move, the connection pass over the gears, one round of match
 * processing with its refill, the new game and the gear rebalancing.
 * `Math.random()` is the oracle `rand`, read at the draw counter `draws`.
 */
module Engine {
  import opened Pieces
  import opened Lines
  import opened Board
  import opened Matches
  import opened Gears
  import opened Moves
  import opened Refill
  import opened Scoring
  import opened Rebalance

  /** A gear that is spinning. */
  predicate SpinningGear(c: Cell) {
    c.Some? && c.value.isGear && c.value.spinning
  }

  /** Some gear on the grid is spinning. */
  predicate AnySpinning(b: Board) {
    exists y, x :: 0 <= y < |b| && 0 <= x < |b[y]| && SpinningGear(b[y][x])
  }

  /** The lines recorded for the gears of `done`: each line whose first end is one of them, once. */
  ghost predicate LinesFor(gs: set<Pos>, edges: seq<Edge>, done: set<Pos>) {
    && (forall e :: e in edges <==> GearEdge(gs, e) && Pos(e.x1, e.y1) in done)
    && Distinct(edges)
  }

  /** The turning list for the gears of `done`: those of them with a gear next to them, once. */
  ghost predicate TurningFor(gs: set<Pos>, turning: seq<Pos>, done: set<Pos>) {
    && (forall p :: p in turning <==> p in done && HasGearNeighbour(gs, p))
    && Distinct(turning)
  }

  /**
   * What the connection pass records for grid b: every line between two
   * adjacent gears, once, and every gear that has a gear next to it, once.
   */
  ghost predicate Connections(b: Board, edges: seq<Edge>, turning: seq<Pos>) {
    LinesFor(GearsOf(b), edges, GearsOf(b)) && TurningFor(GearsOf(b), turning, GearsOf(b))
  }

  /** The elements of a list, as a set. */
  function Elems(s: seq<Pos>): set<Pos> {
    set p | p in s
  }

  /** A gear with its checkerboard direction set and its group not yet known. */
  function Directed(c: Cell, p: Pos): Cell {
    if IsGearCell(c) then Some(c.value.(direction := DirectionAt(p.x, p.y))) else c
  }

  /**
   * Grid b part way through the connection pass over b0: the gears of
   * `done` are finished, those of `pending` have their direction, and every
   * other cell is as in b0.
   */
  predicate Progress(b0: Board, b: Board, done: set<Pos>, pending: seq<Pos>) {
    && Square(b0) && IsGrid(b, |b0|)
    && forall y, x :: 0 <= y < |b0| && 0 <= x < |b0| ==>
      b[y][x] == (if Pos(x, y) in done then GearCell(b0[y][x], Pos(x, y), GearsOf(b0))
                  else if Pos(x, y) in pending then Directed(b0[y][x], Pos(x, y))
                  else b0[y][x])
  }

  /** The connection pass never changes which cells are gears. */
  lemma {:induction false} ProgressKeepsGears(b0: Board, b: Board, done: set<Pos>, pending: seq<Pos>)
    requires Progress(b0, b, done, pending)
    ensures GearsOf(b) == GearsOf(b0)
  {
    SameGears(b, b0);
  }

  /** The elements of a list with one more element. */
  lemma {:induction false} ElemsSnoc(s: seq<Pos>, c: Pos)
    ensures Elems(s + [c]) == Elems(s) + {c}
  {
    assert forall p :: p in s + [c] <==> p in s || p == c;
  }

  /**
   * The flood of one group from s, part way: `group` lists the gears taken
   * so far, `queue` holds gears that are next to one of them, and every gear
   * next to a member is visited or queued.
   */
  ghost predicate FloodInv(gs: set<Pos>, visited0: set<Pos>, s: Pos, visited: set<Pos>,
                           members: set<Pos>, group: seq<Pos>, queue: seq<Pos>) {
    && visited0 <= gs && Closed(gs, visited0) && s in gs && s !in visited0
    && visited == visited0 + members && members == Elems(group)
    && Distinct(group) && (forall p :: p in group ==> p in gs && p !in visited0)
    && (group == [] ==> queue == [s])
    && (group != [] ==> group[0] == s)
    && (forall q :: q in queue ==> q in gs && (group != [] ==> HasGearNeighbour(members, q)))
    && (forall p, q :: p in group && q in Neighbours(p) && q in gs ==> q in visited || q in queue)
    && (|group| > 1 ==> forall p :: p in group ==> HasGearNeighbour(gs, p))
  }

  /** Dropping a queued gear that is already visited keeps the flood's invariant. */
  lemma {:induction false} FloodSkip(gs: set<Pos>, visited0: set<Pos>, s: Pos, visited: set<Pos>,
                                     members: set<Pos>, group: seq<Pos>, queue: seq<Pos>)
    requires FloodInv(gs, visited0, s, visited, members, group, queue)
    requires |queue| > 0 && queue[0] in visited
    ensures FloodInv(gs, visited0, s, visited, members, group, queue[1..])
  {
    var c, rest := queue[0], queue[1..];
    assert group != [];
    assert forall q :: q in queue ==> q == c || q in rest;
  }

  /** Taking an unvisited queued gear into the group and queueing its new gear neighbours keeps the invariant. */
  lemma {:induction false} FloodVisit(gs: set<Pos>, visited0: set<Pos>, s: Pos, visited: set<Pos>,
                                      members: set<Pos>, group: seq<Pos>, queue: seq<Pos>, queue': seq<Pos>)
    requires FloodInv(gs, visited0, s, visited, members, group, queue)
    requires |queue| > 0 && queue[0] !in visited
    requires forall q :: q in queue' <==>
      (q in queue[1..] || (q in Neighbours(queue[0]) && q in gs && q !in visited + {queue[0]}))
    ensures FloodInv(gs, visited0, s, visited + {queue[0]}, members + {queue[0]}, group + [queue[0]], queue')
  {
    var c, rest := queue[0], queue[1..];
    var visited', members', group' := visited + {c}, members + {c}, group + [c];
    ElemsSnoc(group, c);
    assert forall q :: q in queue ==> q == c || q in rest;
    assert group == [] ==> c == s;
    forall q | q in queue'
      ensures q in gs && HasGearNeighbour(members', q)
    {
      if q in rest {
        assert group != [];
      } else {
        NeighbourSymmetric(c, q);
        HasGearNeighbourWitness(members', q, c);
      }
    }
    forall p, q | p in group' && q in Neighbours(p) && q in gs
      ensures q in visited' || q in queue'
    {
      if p != c {
        assert p in group;
      }
    }
    if |group'| > 1 {
      forall p | p in group'
        ensures HasGearNeighbour(gs, p)
      {
        if |group| > 1 {
          assert p == c ==> HasGearNeighbour(members, c);
        } else {
          assert group == [s] && HasGearNeighbour({s}, c);
          NeighbourSymmetric(c, s);
          assert c in Neighbours(s) && s in Neighbours(c);
          HasGearNeighbourWitness(gs, s, c);
          HasGearNeighbourWitness(gs, c, s);
          assert p == s || p == c;
        }
      }
    }
  }

  /**
   * A flood whose queue ran empty has taken s and every gear 4-connected to
   * it outside the earlier groups, and a member has a gear next to it
   * exactly when the group has two gears or more.
   */
  lemma {:induction false} FloodDone(gs: set<Pos>, visited0: set<Pos>, s: Pos, visited: set<Pos>,
                                     members: set<Pos>, group: seq<Pos>)
    requires FloodInv(gs, visited0, s, visited, members, group, [])
    ensures |group| >= 1 && group[0] == s
    ensures forall p, q :: p in group && q in Neighbours(p) && q in gs ==> q in group
    ensures forall p :: p in group ==> (HasGearNeighbour(gs, p) <==> |group| > 1)
  {
    forall p, q | p in group && q in Neighbours(p) && q in gs
      ensures q in group
    {
      NeighbourSymmetric(p, q);
      assert q !in visited0;
    }
    if |group| == 1 {
      forall p | p in group
        ensures !HasGearNeighbour(gs, p)
      {
        NeighbourSymmetric(p, p);
        assert p == s;
        assert forall q :: q in Neighbours(p) && q in gs ==> q in group;
        assert Pos(p.x + 1, p.y) in Neighbours(p) && Pos(p.x - 1, p.y) in Neighbours(p);
        assert Pos(p.x, p.y + 1) in Neighbours(p) && Pos(p.x, p.y - 1) in Neighbours(p);
      }
    }
  }

  /** Giving a gear outside `done` its direction adds it to the pending ones. */
  lemma {:induction false} DirectStep(b0: Board, b: Board, done: set<Pos>, pending: seq<Pos>, p: Pos)
    requires Progress(b0, b, done, pending)
    requires InBounds(b0, p) && p !in done && IsGearCell(b0[p.y][p.x])
    ensures IsGearCell(b[p.y][p.x])
    ensures Progress(b0, Put(b, p.x, p.y, Some(b[p.y][p.x].value.(direction := DirectionAt(p.x, p.y)))), done, pending + [p])
    ensures GearsOf(b) == GearsOf(b0)
    ensures GearsOf(Put(b, p.x, p.y, Some(b[p.y][p.x].value.(direction := DirectionAt(p.x, p.y))))) == GearsOf(b0)
  {
    ProgressKeepsGears(b0, b, done, pending);
    GearsOfPut(b, p.x, p.y, Some(b[p.y][p.x].value.(direction := DirectionAt(p.x, p.y))));
    assert forall q :: q in pending + [p] <==> q in pending || q == p;
  }

  /** The lines a gear g can start: to its right neighbour and to the cell below, when those are gears. */
  function LinesFrom(g: Pos, right: bool, down: bool): seq<Edge> {
    (if right then [Edge(g.x, g.y, g.x + 1, g.y, Horizontal)] else []) +
    (if down then [Edge(g.x, g.y, g.x, g.y + 1, Vertical)] else [])
  }

  /** Recording the lines of one more gear g, for the neighbours that are gears, keeps the record exact. */
  lemma {:induction false} LinkStep(gs: set<Pos>, edges: seq<Edge>, done: set<Pos>, g: Pos, right: bool, down: bool)
    requires LinesFor(gs, edges, done) && g in gs && g !in done
    requires right <==> Pos(g.x + 1, g.y) in gs
    requires down <==> Pos(g.x, g.y + 1) in gs
    ensures LinesFor(gs, edges + LinesFrom(g, right, down), done + {g})
  {
    var h, v := Edge(g.x, g.y, g.x + 1, g.y, Horizontal), Edge(g.x, g.y, g.x, g.y + 1, Vertical);
    var add := LinesFrom(g, right, down);
    var edges' := edges + add;
    assert forall e :: e in add <==> (right && e == h) || (down && e == v);
    assert h !in edges && v !in edges;
    forall e | GearEdge(gs, e) && Pos(e.x1, e.y1) in done + {g}
      ensures e in edges'
    {
      if Pos(e.x1, e.y1) == g {
        assert e == h || e == v;
      }
    }
    forall i, j | 0 <= i < j < |edges'|
      ensures edges'[i] != edges'[j]
    {
      if j >= |edges| {
        assert edges'[j] in add;
        if i >= |edges| {
          assert |add| == 2 ==> add[0] == h && add[1] == v;
        } else {
          assert edges'[i] in edges;
        }
      }
    }
  }

  /** A group that takes every gear next to its members extends a closed set to a closed set. */
  lemma {:induction false} ClosedUnion(gs: set<Pos>, visited0: set<Pos>, group: seq<Pos>)
    requires Closed(gs, visited0)
    requires forall p, q :: p in group && q in Neighbours(p) && q in gs ==> q in group
    ensures Closed(gs, visited0 + Elems(group))
  {
  }

  /** A gear with no gear next to it is finished once it stops turning. */
  lemma {:induction false} LoneProgress(b0: Board, b: Board, done: set<Pos>, s: Pos)
    requires Progress(b0, b, done, [s])
    requires InBounds(b0, s) && s !in done && IsGearCell(b0[s.y][s.x]) && !HasGearNeighbour(GearsOf(b0), s)
    ensures IsGearCell(b[s.y][s.x])
    ensures Progress(b0, Put(b, s.x, s.y, Some(b[s.y][s.x].value.(rotating := false))), done + {s}, [])
  {
  }

  /** A gear with no gear next to it starts no line and does not turn. */
  lemma {:induction false} LoneRecords(gs: set<Pos>, edges: seq<Edge>, turning: seq<Pos>, done: set<Pos>, s: Pos)
    requires LinesFor(gs, edges, done) && TurningFor(gs, turning, done) && !HasGearNeighbour(gs, s)
    ensures LinesFor(gs, edges, done + {s}) && TurningFor(gs, turning, done + {s})
  {
  }

  /** Marking the next pending gear, which has a gear next to it, as turning finishes it. */
  lemma {:induction false} TurnOnStep(b0: Board, b: Board, done: set<Pos>, pending: seq<Pos>)
    requires Progress(b0, b, done, pending) && |pending| > 0
    requires pending[0] !in pending[1..] && pending[0] !in done
    requires InBounds(b0, pending[0]) && IsGearCell(b0[pending[0].y][pending[0].x])
    requires HasGearNeighbour(GearsOf(b0), pending[0])
    ensures IsGearCell(b[pending[0].y][pending[0].x])
    ensures var g := pending[0];
      Progress(b0, Put(b, g.x, g.y, Some(b[g.y][g.x].value.(rotating := true))), done + {g}, pending[1..])
  {
    var g := pending[0];
    assert forall p :: p in pending && p != g ==> p in pending[1..];
  }

  /** Listing one more gear with a gear next to it keeps the turning list exact. */
  lemma {:induction false} TurnStep(gs: set<Pos>, turning: seq<Pos>, done: set<Pos>, g: Pos)
    requires TurningFor(gs, turning, done) && g !in done && HasGearNeighbour(gs, g)
    ensures TurningFor(gs, turning + [g], done + {g})
  {
    assert forall p :: p in turning + [g] <==> p in turning || p == g;
  }

  /** The grid a clear leaves: the gears a match reaches are set spinning, then the matched cells emptied. */
  ghost function AfterClear(b: Board, edges: seq<Edge>, ms: seq<Match>): (r: Board)
    requires Square(b)
    ensures IsGrid(r, |b|)
  {
    Cleared(SpinFrom(b, edges, GearStarts(ms)), ms)
  }

  /** The grid one round of matches leaves: cleared, refilled, then reconnected. */
  ghost function AfterRound(b: Board, edges: seq<Edge>, ms: seq<Match>, make: nat -> Piece, d: nat): (r: Board)
    requires Square(b)
    ensures IsGrid(r, |b|) && Full(r)
  {
    RefilledIsFull(AfterClear(b, edges, ms), make, d);
    GearStateKeepsMatches(Refilled(AfterClear(b, edges, ms), make, d), 0);
    GearStateOf(Refilled(AfterClear(b, edges, ms), make, d))
  }

  /** A grid of new pieces has no spinning gear, and the connection pass sets none spinning. */
  lemma {:induction false} NewGridStill(n: nat, make: nat -> Piece, d: nat)
    requires forall e :: IsFresh(make(e))
    ensures !AnySpinning(GearStateOf(RandomGrid(n, make, d)))
  {
    var b := RandomGrid(n, make, d);
    forall y, x | 0 <= y < n && 0 <= x < n
      ensures !SpinningGear(GearStateOf(b)[y][x])
    {
      RandomCell(n, make, d, x, y);
      var e := d + 2 * (y * n + x);
      assert IsFresh(make(e));
      StillCell(b, x, y);
    }
  }

  /** A cell holding a piece that does not spin does not spin after the connection pass. */
  lemma StillCell(b: Board, x: int, y: int)
    requires 0 <= y < |b| && 0 <= x < |b[y]| && b[y][x].Some? && !b[y][x].value.spinning
    ensures !SpinningGear(GearStateOf(b)[y][x])
  {
    GearStateCell(b, x, y);
  }

  /** The connection pass keeps the number of gears. */
  lemma {:induction false} GearStateKeepsCount(b: Board)
    ensures CountGears(GearStateOf(b)) == CountGears(b)
  {
    forall y, x | 0 <= y < |b| && 0 <= x < |b[y]|
      ensures IsGearCell(GearStateOf(b)[y][x]) == IsGearCell(b[y][x])
    {
      GearStateCell(b, x, y);
    }
    CountGearsSame(GearStateOf(b), b);
  }

  /** Each of the first a grids a new game draws holds a match. */
  predicate AllMatched(n: nat, make: nat -> Piece, d: nat, m: int, a: nat) {
    forall k :: 0 <= k < a ==> HasMatch(Trial(n, make, d, k), m)
  }

  lemma {:induction false} AllMatchedNext(n: nat, make: nat -> Piece, d: nat, m: int, a: nat)
    requires AllMatched(n, make, d, m, a) && HasMatch(Trial(n, make, d, a), m)
    ensures AllMatched(n, make, d, m, a + 1)
  {
  }

  class Game {
    /** The settings in force. */
    const config: Config
    /** `Math.random()`: draw number d returns rand(d). */
    const rand: nat -> Unit
    /** The number of the next draw. */
    var draws: nat

    var grid: Board
    var score: int
    var moves: int
    var multiplier: real
    var dragging: bool
    var dragType: Option<Axis>
    var dragIndex: int
    var animating: bool
    var gearConnections: seq<Edge>
    var spinning: seq<Pos>

    /** A usable configuration and a grid of its size. */
    predicate Valid()
      reads this`grid
    {
      ValidConfig(config) && IsGrid(grid, config.gridSize)
    }

    /** `createPiece()`: the piece of the next two draws. */
    method DrawPiece() returns (p: Piece)
      requires ValidConfig(config)
      modifies this`draws
      ensures p == Fresh(config, rand, old(draws)) && draws == old(draws) + 2
    {
      var colorRoll := rand(draws);
      var gearRoll := rand(draws + 1);
      draws := draws + 2;
      p := CreatePiece(config.colors, config.gearPercentage, colorRoll, gearRoll);
    }

    /** The board accepts a new drag exactly when nothing moves on it and no gear spins. */
    method IsBoardIdle() returns (idle: bool)
      requires Valid()
      ensures idle <==> !animating && !dragging && !AnySpinning(grid)
    {
      if animating || dragging {
        return false;
      }
      var n := config.gridSize;
      for y := 0 to n
        invariant forall yy, xx :: 0 <= yy < y && 0 <= xx < n ==> !SpinningGear(grid[yy][xx])
      {
        for x := 0 to n
          invariant forall yy, xx :: 0 <= yy < n && 0 <= xx < n && (yy < y || (yy == y && xx < x)) ==>
            !SpinningGear(grid[yy][xx])
        {
          var piece := grid[y][x];
          if piece.Some? && piece.value.isGear && piece.value.spinning {
            return false;
          }
        }
      }
      return true;
    }

    // -------------------------------------------------------------------
    // Moving a line
    // -------------------------------------------------------------------

    /**
     * The rebuild loop of a move: the cell at index x goes to index
     * (x + amount + n) mod n of a new line, which is the shifted line.
     */
    static method Rotated(line: seq<Cell>, amount: int) returns (r: seq<Cell>)
      requires |line| > 0 && amount >= -|line|
      ensures r == Shift(line, amount)
    {
      var n := |line|;
      r := line;
      for x := 0 to n
        invariant ShiftedBelow(line, r, amount, x)
      {
        var newX := (x + amount + n) % n;
        assert newX == Dst(n, amount, x);
        ShiftedStep(line, r, amount, x);
        r := r[newX := line[x]];
      }
      ShiftedAll(line, r, amount);
    }

    /**
     * `moveRowOrColumn`: for a valid index the row or column is rotated by
     * `amount` and the board is marked as animating; for any other index the
     * grid is left alone and the board is not animating.
     */
    method MoveRowOrColumn(axis: Axis, index: int, amount: int)
      requires Valid() && amount >= -config.gridSize
      modifies this`grid, this`animating
      ensures Valid()
      ensures 0 <= index < config.gridSize ==> grid == Moved(old(grid), axis, index, amount) && animating
      ensures !(0 <= index < config.gridSize) ==> grid == old(grid) && !animating
    {
      var n := config.gridSize;
      animating := true;
      if axis == AlongRow && 0 <= index < n {
        var newRow := Rotated(grid[index], amount);
        grid := grid[index := newRow];
      } else if axis == AlongColumn && 0 <= index < n {
        var newCol := Rotated(Column(grid, index), amount);
        ghost var b0 := grid;
        for y := 0 to n
          invariant IsGrid(grid, n) && animating
          invariant forall yy, xx :: 0 <= yy < n && 0 <= xx < n ==>
            grid[yy][xx] == (if xx == index && yy < y then newCol[yy] else b0[yy][xx])
        {
          grid := Put(grid, index, y, newCol[y]);
        }
        BoardEq(grid, SetColumn(b0, index, newCol));
        assert grid == Moved(b0, axis, index, amount);
      } else {
        animating := false;
        return;
      }
    }

    /**
     * `endDrag`, given the drag delta in whole cells. A release with no drag
     * does nothing; otherwise the drag ends. A locked drag whose clamped
     * delta is not zero moves its line by the delta (the clamp changes
     * where nothing lands) and counts one move, even when the index turns
     * out to be off the grid.
     */
    method EndDrag(cellsToMove: int) returns (moved: bool)
      requires Valid()
      modifies this`grid, this`animating, this`moves, this`dragging, this`dragType, this`dragIndex
      ensures Valid()
      ensures moved <==> old(dragging) && old(dragType).Some? && old(dragIndex) >= 0
                         && ClampDelta(cellsToMove, config.gridSize) != 0
      ensures old(dragging) ==> !dragging && dragType == None && dragIndex == -1
      ensures !old(dragging) ==> !dragging && dragType == old(dragType) && dragIndex == old(dragIndex)
      ensures moves == old(moves) + (if moved then 1 else 0)
      ensures moved && old(dragIndex) < config.gridSize ==>
        grid == Moved(old(grid), old(dragType).value, old(dragIndex), cellsToMove) && animating
      ensures moved && old(dragIndex) >= config.gridSize ==> grid == old(grid) && !animating
      ensures !moved ==> grid == old(grid) && animating == old(animating)
    {
      moved := false;
      if !dragging {
        return;
      }
      if dragType.None? || dragIndex < 0 {
        dragging, dragType, dragIndex := false, None, -1;
        return;
      }
      var n := config.gridSize;
      var cells := cellsToMove;
      if cells > n {
        cells := JsRem(cells, n);
      }
      if cells < -n {
        cells := JsRem(cells, n);
      }
      assert cells == ClampDelta(cellsToMove, n);
      if dragType.Some? && dragIndex >= 0 && cells != 0 {
        ClampDeltaSound(cellsToMove, n);
        if dragIndex < n {
          MovedByClampedDelta(grid, dragType.value, dragIndex, cellsToMove);
        }
        MoveRowOrColumn(dragType.value, dragIndex, cells);
        moves := moves + 1;
        moved := true;
      }
      dragging, dragType, dragIndex := false, None, -1;
    }

    /** The end of the move animation: the board is released and the gears reconnected. */
    method FinishMoveAnimation()
      requires Valid()
      modifies this`animating, this`grid, this`gearConnections, this`spinning
      ensures Valid() && !animating
      ensures grid == GearStateOf(old(grid)) && Connections(old(grid), gearConnections, spinning)
    {
      animating := false;
      UpdateGearConnections();
    }

    // -------------------------------------------------------------------
    // The connection pass
    // -------------------------------------------------------------------

    /** The state between two groups: the gears of `visited` are finished and recorded. */
    ghost predicate PassState(b0: Board, visited: set<Pos>)
      reads this`grid, this`gearConnections, this`spinning
    {
      && Valid() && IsGrid(b0, config.gridSize)
      && visited <= GearsOf(b0) && Closed(GearsOf(b0), visited)
      && Progress(b0, grid, visited, [])
      && LinesFor(GearsOf(b0), gearConnections, visited)
      && TurningFor(GearsOf(b0), spinning, visited)
    }

    /**
     * `updateGearConnections`: every gear gets its checkerboard direction
     * and turns exactly when a gear is next to it; the lines and the turning
     * list are rebuilt from scratch, group by group.
     */
    method UpdateGearConnections()
      requires Valid()
      modifies this`grid, this`gearConnections, this`spinning
      ensures Valid()
      ensures grid == GearStateOf(old(grid))
      ensures Connections(old(grid), gearConnections, spinning)
    {
      ghost var b0 := grid;
      ghost var gs := GearsOf(b0);
      gearConnections := [];
      spinning := [];
      var n := config.gridSize;
      var visited: set<Pos> := {};
      BoardEq(grid, b0);
      for y := 0 to n
        invariant PassState(b0, visited)
        invariant forall yy, xx :: 0 <= yy < y && 0 <= xx < n && IsGearCell(b0[yy][xx]) ==> Pos(xx, yy) in visited
      {
        visited := ConnectRow(y, visited, b0);
      }
      forall p | p in gs
        ensures p in visited
      {
        GearsOfMember(b0, p);
      }
      forall y, x | 0 <= y < n && 0 <= x < n
        ensures grid[y][x] == GearStateOf(b0)[y][x]
      {
        GearsOfMember(b0, Pos(x, y));
      }
      BoardEq(grid, GearStateOf(b0));
    }

    /** One row of the pass: each gear of row y that no earlier group took starts a new group. */
    method ConnectRow(y: int, visited0: set<Pos>, ghost b0: Board) returns (visited: set<Pos>)
      requires PassState(b0, visited0) && 0 <= y < config.gridSize
      modifies this`grid, this`gearConnections, this`spinning
      ensures PassState(b0, visited) && visited0 <= visited
      ensures forall xx :: 0 <= xx < config.gridSize && IsGearCell(b0[y][xx]) ==> Pos(xx, y) in visited
    {
      var n := config.gridSize;
      visited := visited0;
      for x := 0 to n
        invariant PassState(b0, visited) && visited0 <= visited
        invariant forall xx :: 0 <= xx < x && IsGearCell(b0[y][xx]) ==> Pos(xx, y) in visited
      {
        assert Pos(x, y) !in visited ==> grid[y][x] == b0[y][x];
        if Pos(x, y) !in visited {
          var piece := grid[y][x];
          if piece.Some? && piece.value.isGear {
            visited := ConnectGroup(x, y, visited, b0);
          }
        }
      }
    }

    /** One group of the pass: flood it from (x, y), then mark and link it when it has two gears or more. */
    method ConnectGroup(x: int, y: int, visited0: set<Pos>, ghost b0: Board) returns (visited: set<Pos>)
      requires PassState(b0, visited0)
      requires 0 <= x < config.gridSize && 0 <= y < config.gridSize
      requires IsGearCell(b0[y][x]) && Pos(x, y) !in visited0
      modifies this`grid, this`gearConnections, this`spinning
      ensures PassState(b0, visited) && visited0 + {Pos(x, y)} <= visited
    {
      ghost var gs := GearsOf(b0);
      var s := Pos(x, y);
      DirectStep(b0, grid, visited0, [], s);
      var piece := grid[y][x];
      grid := Put(grid, x, y, Some(piece.value.(direction := DirectionAt(x, y))));
      assert [] + [s] == [s];
      var group;
      visited, group := FloodGroup(s, visited0, b0);
      FinishGroup(group, visited0, b0);
    }

    /**
     * The end of one group: a group of two gears or more is marked and
     * linked, a lone gear stops turning.
     */
    method FinishGroup(group: seq<Pos>, visited0: set<Pos>, ghost b0: Board)
      requires Valid() && IsGrid(b0, config.gridSize)
      requires visited0 <= GearsOf(b0) && Closed(GearsOf(b0), visited0)
      requires |group| >= 1 && Distinct(group)
      requires forall p :: p in group ==> p in GearsOf(b0) && p !in visited0
      requires forall p, q :: p in group && q in Neighbours(p) && q in GearsOf(b0) ==> q in group
      requires forall p :: p in group ==> (HasGearNeighbour(GearsOf(b0), p) <==> |group| > 1)
      requires Progress(b0, grid, visited0, group)
      requires LinesFor(GearsOf(b0), gearConnections, visited0) && TurningFor(GearsOf(b0), spinning, visited0)
      modifies this`grid, this`gearConnections, this`spinning
      ensures PassState(b0, visited0 + Elems(group))
    {
      ghost var gs := GearsOf(b0);
      ClosedUnion(gs, visited0, group);
      if |group| > 1 {
        MarkGroup(group, visited0, b0);
        LinkGroup(group, visited0, b0);
      } else {
        var s := group[0];
        assert group == [s] && Elems(group) == {s};
        GearsOfMember(b0, s);
        LoneProgress(b0, grid, visited0, s);
        LoneRecords(gs, gearConnections, spinning, visited0, s);
        var p := grid[s.y][s.x];
        grid := Put(grid, s.x, s.y, Some(p.value.(rotating := false)));
      }
    }

    /**
     * The breadth-first flood of one group from gear s: the group lists, once
     * each, the gears 4-connected to s that the earlier groups did not take;
     * each of them gets its direction, and a gear of the group has a gear
     * next to it exactly when the group has two gears or more.
     */
    method FloodGroup(s: Pos, visited0: set<Pos>, ghost b0: Board) returns (visited: set<Pos>, group: seq<Pos>)
      requires Valid() && IsGrid(b0, config.gridSize) && Progress(b0, grid, visited0, [s])
      requires visited0 <= GearsOf(b0) && Closed(GearsOf(b0), visited0)
      requires s in GearsOf(b0) && s !in visited0
      modifies this`grid
      ensures Valid()
      ensures |group| >= 1 && group[0] == s && Distinct(group)
      ensures forall p :: p in group ==> p in GearsOf(b0) && p !in visited0
      ensures visited == visited0 + Elems(group)
      ensures forall p, q :: p in group && q in Neighbours(p) && q in GearsOf(b0) ==> q in group
      ensures forall p :: p in group ==> (HasGearNeighbour(GearsOf(b0), p) <==> |group| > 1)
      ensures Progress(b0, grid, visited0, group)
    {
      ghost var gs := GearsOf(b0);
      var queue := [s];
      group := [];
      visited := visited0;
      ghost var members: set<Pos> := {};
      while |queue| > 0
        invariant Valid() && Progress(b0, grid, visited0, [s] + group)
        invariant FloodInv(gs, visited0, s, visited, members, group, queue)
        decreases gs - visited, |queue|
      {
        var c := queue[0];
        if c in visited {
          FloodSkip(gs, visited0, s, visited, members, group, queue);
          queue := queue[1..];
        } else {
          ghost var queue0 := queue;
          GearsOfMember(b0, c);
          DirectStep(b0, grid, visited0, [s] + group, c);
          var cp := grid[c.y][c.x];
          grid := Put(grid, c.x, c.y, Some(cp.value.(direction := DirectionAt(c.x, c.y))));
          assert [s] + group + [c] == [s] + (group + [c]);
          queue := QueueGearNeighbours(grid, c, visited + {c}, queue[1..]);
          FloodVisit(gs, visited0, s, visited, members, group, queue0, queue);
          visited := visited + {c};
          group := group + [c];
          members := members + {c};
        }
      }
      FloodDone(gs, visited0, s, visited, members, group);
    }

    /**
     * The neighbour step of the flood: the queue gets, in the order right,
     * left, down, up, every neighbour of c that is a gear and not visited.
     */
    static method QueueGearNeighbours(b: Board, c: Pos, visited: set<Pos>, queue0: seq<Pos>) returns (queue: seq<Pos>)
      requires Square(b)
      ensures |queue| >= |queue0| && queue[..|queue0|] == queue0
      ensures forall q :: q in queue <==> q in queue0 || (q in Neighbours(c) && q in GearsOf(b) && q !in visited)
    {
      var dirs := [(1, 0), (-1, 0), (0, 1), (0, -1)];
      queue := queue0;
      for i := 0 to 4
        invariant |queue| >= |queue0| && queue[..|queue0|] == queue0
        invariant forall q :: q in queue ==> q in queue0 || (q in Neighbours(c) && q in GearsOf(b) && q !in visited)
        invariant forall j :: 0 <= j < i ==>
          (Pos(c.x + dirs[j].0, c.y + dirs[j].1) in GearsOf(b) && Pos(c.x + dirs[j].0, c.y + dirs[j].1) !in visited ==>
            Pos(c.x + dirs[j].0, c.y + dirs[j].1) in queue)
      {
        var nx, ny := c.x + dirs[i].0, c.y + dirs[i].1;
        GearsOfMember(b, Pos(nx, ny));
        if 0 <= nx < |b| && 0 <= ny < |b| {
          var np := b[ny][nx];
          if np.Some? && np.value.isGear && Pos(nx, ny) !in visited {
            queue := queue + [Pos(nx, ny)];
          }
        }
      }
      assert dirs[0] == (1, 0) && dirs[1] == (-1, 0) && dirs[2] == (0, 1) && dirs[3] == (0, -1);
    }

    /** A group of two gears or more: every member turns and joins the turning list. */
    method MarkGroup(group: seq<Pos>, visited0: set<Pos>, ghost b0: Board)
      requires Valid() && IsGrid(b0, config.gridSize)
      requires |group| > 1 && Distinct(group)
      requires forall p :: p in group ==> p in GearsOf(b0) && p !in visited0 && HasGearNeighbour(GearsOf(b0), p)
      requires Progress(b0, grid, visited0, group)
      requires TurningFor(GearsOf(b0), spinning, visited0)
      modifies this`grid, this`spinning
      ensures Valid()
      ensures Progress(b0, grid, visited0 + Elems(group), [])
      ensures TurningFor(GearsOf(b0), spinning, visited0 + Elems(group))
    {
      ghost var gs := GearsOf(b0);
      ghost var done := visited0;
      for i := 0 to |group|
        invariant Valid()
        invariant done == visited0 + Elems(group[..i])
        invariant Progress(b0, grid, done, group[i..])
        invariant TurningFor(gs, spinning, done)
      {
        var g := group[i];
        GearsOfMember(b0, g);
        ElemsSnoc(group[..i], g);
        assert group[..i + 1] == group[..i] + [g];
        assert g !in group[i + 1..] && g !in Elems(group[..i]);
        TurnOnStep(b0, grid, done, group[i..]);
        TurnStep(gs, spinning, done, g);
        assert group[i..][1..] == group[i + 1..];
        var gp := grid[g.y][g.x];
        grid := Put(grid, g.x, g.y, Some(gp.value.(rotating := true)));
        spinning := spinning + [g];
        done := done + {g};
      }
      assert group[..|group|] == group;
    }

    /**
     * The lines of a finished group: from each member, a horizontal line to
     * its right neighbour and a vertical one to the cell below, when that
     * cell is in the group.
     */
    method LinkGroup(group: seq<Pos>, visited0: set<Pos>, ghost b0: Board)
      requires IsGrid(b0, config.gridSize) && Distinct(group)
      requires forall p :: p in group ==> p in GearsOf(b0) && p !in visited0
      requires forall p, q :: p in group && q in Neighbours(p) && q in GearsOf(b0) ==> q in group
      requires LinesFor(GearsOf(b0), gearConnections, visited0)
      modifies this`gearConnections
      ensures LinesFor(GearsOf(b0), gearConnections, visited0 + Elems(group))
    {
      ghost var gs := GearsOf(b0);
      var n := config.gridSize;
      for i := 0 to |group|
        invariant LinesFor(gs, gearConnections, visited0 + Elems(group[..i]))
      {
        var g := group[i];
        ghost var edges0 := gearConnections;
        ghost var done := visited0 + Elems(group[..i]);
        assert group[..i + 1] == group[..i] + [g];
        ElemsSnoc(group[..i], g);
        assert g !in Elems(group[..i]);
        GearsOfMember(b0, Pos(g.x + 1, g.y));
        GearsOfMember(b0, Pos(g.x, g.y + 1));
        assert Pos(g.x + 1, g.y) in Neighbours(g) && Pos(g.x, g.y + 1) in Neighbours(g);
        ghost var right := Pos(g.x + 1, g.y) in gs;
        ghost var down := Pos(g.x, g.y + 1) in gs;
        if g.x + 1 < n && Pos(g.x + 1, g.y) in group {
          gearConnections := gearConnections + [Edge(g.x, g.y, g.x + 1, g.y, Horizontal)];
        }
        if g.y + 1 < n && Pos(g.x, g.y + 1) in group {
          gearConnections := gearConnections + [Edge(g.x, g.y, g.x, g.y + 1, Vertical)];
        }
        assert gearConnections == edges0 + LinesFrom(g, right, down);
        LinkStep(gs, edges0, done, g, right, down);
      }
      assert group[..|group|] == group;
    }

    // -------------------------------------------------------------------
    // One round of matches
    // -------------------------------------------------------------------

    /**
     * `triggerGearSpin`: every gear reachable from (x, y) along the recorded
     * lines starts spinning for `GearSpinDuration`; no other cell changes.
     */
    method TriggerGearSpin(x: int, y: int)
      requires Valid()
      modifies this`grid
      ensures Valid()
      ensures grid == SpinFrom(old(grid), gearConnections, {Pos(x, y)})
    {
      ghost var b0 := grid;
      ghost var gs := GearsOf(b0);
      var n := config.gridSize;
      var connected := FindConnectedGearsByLines(grid, gearConnections, Pos(x, y));
      for i := 0 to |connected|
        invariant IsGrid(grid, n)
        invariant forall yy, xx :: 0 <= yy < n && 0 <= xx < n ==>
          grid[yy][xx] == (if Pos(xx, yy) in connected[..i] then Spun(b0[yy][xx]) else b0[yy][xx])
      {
        var g := connected[i];
        GearsOfMember(b0, g);
        assert g !in connected[..i];
        assert forall p :: p in connected[..i + 1] <==> p in connected[..i] || p == g;
        var piece := grid[g.y][g.x];
        if piece.Some? && piece.value.isGear {
          grid := Put(grid, g.x, g.y, Spun(piece));
        }
      }
      assert connected[..|connected|] == connected;
      forall yy, xx | 0 <= yy < n && 0 <= xx < n
        ensures grid[yy][xx] == SpinFrom(b0, gearConnections, {Pos(x, y)})[yy][xx]
      {
        var p := Pos(xx, yy);
        assert ReachedFrom(gs, gearConnections, {Pos(x, y)}, p) <==> Reachable(gs, gearConnections, Pos(x, y), p);
      }
      BoardEq(grid, SpinFrom(b0, gearConnections, {Pos(x, y)}));
    }

    /**
     * `processMatches`: the gears among the entries set off spins and raise
     * the multiplier by the bonus each; the score grows by the rounded
     * product of the base score, the number of entries and the multiplier;
     * the particles of the entries take their random draws; then every
     * matched cell is emptied.
     */
    method ProcessMatches(ms: seq<Match>) returns (gearCount: nat, matchScore: int)
      requires Valid()
      requires forall i :: 0 <= i < |ms| ==> InBounds(grid, Pos(ms[i].x, ms[i].y))
      modifies this`grid, this`draws, this`multiplier, this`score
      ensures Valid()
      ensures gearCount == GearCount(ms) && multiplier == Multiplier(gearCount)
      ensures draws == old(draws) + ParticleDraws(ms)
      ensures matchScore == MatchScore(config.baseScore, |ms|, gearCount) && score == old(score) + matchScore
      ensures grid == Cleared(SpinFrom(old(grid), gearConnections, GearStarts(ms)), ms)
    {
      ghost var b0 := grid;
      var n := config.gridSize;
      gearCount := 0;
      SpinFromNone(b0, gearConnections);
      assert GearStarts(ms[..0]) == {};
      for i := 0 to |ms|
        modifies this`grid
        invariant Valid()
        invariant gearCount == GearCount(ms[..i])
        invariant grid == SpinFrom(b0, gearConnections, GearStarts(ms[..i]))
      {
        ghost var starts := GearStarts(ms[..i]);
        var m := ms[i];
        GearCountSnoc(ms, i);
        GearStartsSnoc(ms, i);
        if m.piece.isGear {
          gearCount := gearCount + 1;
          TriggerGearSpin(m.x, m.y);
          SpinFromMore(b0, gearConnections, starts, Pos(m.x, m.y));
          assert GearStarts(ms[..i + 1]) == starts + {Pos(m.x, m.y)};
        } else {
          assert GearStarts(ms[..i + 1]) == starts;
        }
      }
      assert ms[..|ms|] == ms;
      var mult;
      mult, matchScore := ScoreFor(|ms|, gearCount);
      multiplier := mult;
      score := score + matchScore;
      CreateMatchParticles(ms);
      ClearMatched(ms);
    }

    /**
     * `createMatchParticles`: ten particles for each gear entry and five for
     * each other entry, each taking its four draws in turn.
     */
    method CreateMatchParticles(ms: seq<Match>)
      modifies this`draws
      ensures draws == old(draws) + ParticleDraws(ms)
    {
      for i := 0 to |ms|
        invariant draws == old(draws) + ParticleDraws(ms[..i])
      {
        GearCountSnoc(ms, i);
        var count := if ms[i].piece.isGear then 10 else 5;
        for j := 0 to count
          invariant draws == old(draws) + ParticleDraws(ms[..i]) + 4 * j
        {
          var size, turn, speed, duration := CreateParticle();
        }
      }
      assert ms[..|ms|] == ms;
    }

    /**
     * `createParticle`: the four random values of one particle, in the order
     * the page draws them. The size lies between 3 and 8 pixels, the speed
     * between 50 and 150, the duration between 500 and 1500 milliseconds;
     * the direction is the fraction `turn` of a full circle.
     */
    method CreateParticle() returns (size: real, turn: Unit, speed: real, duration: real)
      modifies this`draws
      ensures draws == old(draws) + 4
      ensures 3.0 <= size < 8.0 && 50.0 <= speed < 150.0 && 500.0 <= duration < 1500.0
    {
      size := rand(draws) * 5.0 + 3.0;
      turn := rand(draws + 1);
      speed := rand(draws + 2) * 100.0 + 50.0;
      duration := rand(draws + 3) * 1000.0 + 500.0;
      draws := draws + 4;
    }

    /**
     * The arithmetic of `processMatches`: the multiplier for the gears
     * cleared, and the rounded score for clearing `count` cells at it. The
     * floating-point product rounds to an exact integer: half of
     * base * count * (2 + gearCount), rounded half up.
     */
    method ScoreFor(count: int, gearCount: int) returns (mult: real, points: int)
      ensures mult == Multiplier(gearCount) && points == MatchScore(config.baseScore, count, gearCount)
      ensures points == (config.baseScore * count * (2 + gearCount) + 1) / 2
    {
      mult := BaseMultiplier + gearCount as real * GearMultiplierBonus;
      points := Round(config.baseScore as real * count as real * mult);
      MatchScoreExact(config.baseScore, count, gearCount);
    }

    /** The clearing loop of `processMatches`: every matched cell is emptied and no other cell changes. */
    method ClearMatched(ms: seq<Match>)
      requires Valid()
      requires forall i :: 0 <= i < |ms| ==> InBounds(grid, Pos(ms[i].x, ms[i].y))
      modifies this`grid
      ensures Valid() && grid == Cleared(old(grid), ms)
    {
      ghost var b0 := grid;
      var n := config.gridSize;
      for i := 0 to |ms|
        invariant IsGrid(grid, n)
        invariant forall yy, xx :: 0 <= yy < n && 0 <= xx < n ==>
          grid[yy][xx] == (if Pos(xx, yy) in Cells(ms[..i]) then None else b0[yy][xx])
      {
        assert ms[..i + 1] == ms[..i] + [ms[i]];
        CellsSnoc(ms[..i], ms[i]);
        grid := Put(grid, ms[i].x, ms[i].y, None);
      }
      assert ms[..|ms|] == ms;
      BoardEq(grid, Cleared(b0, ms));
    }

    // -------------------------------------------------------------------
    // The refill
    // -------------------------------------------------------------------

    /**
     * The search above the hole at (x, y): the nearest piece above it moves
     * down into it; with no piece above, nothing changes.
     */
    method PullDown(x: int, y: int) returns (above: int)
      requires Valid() && 0 <= x < config.gridSize && 0 < y < config.gridSize && grid[y][x] == None
      modifies this`grid
      ensures Valid() && -1 <= above < y
      ensures above < 0 ==> grid == old(grid) && forall j :: 0 <= j < y ==> old(grid)[j][x] == None
      ensures above >= 0 ==>
        && old(grid)[above][x].Some? && (forall k :: above < k < y ==> old(grid)[k][x] == None)
        && grid == Put(Put(old(grid), x, y, old(grid)[above][x]), x, above, None)
    {
      above := y - 1;
      while above >= 0
        invariant -1 <= above < y && grid == old(grid)
        invariant forall k :: above < k < y ==> grid[k][x] == None
      {
        if grid[above][x] != None {
          grid := Put(grid, x, y, grid[above][x]);
          grid := Put(grid, x, above, None);
          return;
        }
        above := above - 1;
      }
    }

    /**
     * The bottom-up pull loop over column x: afterwards the column is
     * settled (its pieces at the bottom in their order, its holes on top)
     * and no other column has changed. A pull happens only in a column with
     * a hole.
     */
    method SettleColumn(x: int) returns (pulled: bool)
      requires Valid() && 0 <= x < config.gridSize
      modifies this`grid
      ensures Valid()
      ensures grid == SetColumn(old(grid), x, Settled(Column(old(grid), x)))
      ensures pulled ==> Holes(Column(old(grid), x)) > 0
    {
      ghost var b0 := grid;
      ghost var c0 := Column(b0, x);
      ghost var col := c0;
      var n := config.gridSize;
      SetColumnTwice(b0, x, c0, c0);
      pulled := false;
      for y := n downto 1
        invariant |col| == n && grid == SetColumn(b0, x, col)
        invariant Survivors(col) == Survivors(c0)
        invariant HolesOnTopFrom(col, y)
        invariant pulled ==> Holes(c0) > 0
      {
        var moved;
        moved, col := SettleRow(x, y, b0, c0, col);
        pulled := pulled || moved;
      }
      assert HolesOnTopFrom(col, 0);
      SettledFromSurvivors(c0, col);
    }

    /** One row of the settle loop: a hole at row y takes the nearest piece above it, if there is one. */
    method SettleRow(x: int, y: int, ghost b0: Board, ghost c0: seq<Cell>, ghost col: seq<Cell>)
      returns (moved: bool, ghost next: seq<Cell>)
      requires Valid() && IsGrid(b0, config.gridSize) && 0 <= x < config.gridSize && 0 < y < config.gridSize
      requires |col| == config.gridSize && |c0| == config.gridSize && grid == SetColumn(b0, x, col)
      requires Survivors(col) == Survivors(c0) && HolesOnTopFrom(col, y + 1)
      modifies this`grid
      ensures Valid() && |next| == config.gridSize && grid == SetColumn(b0, x, next)
      ensures Survivors(next) == Survivors(c0) && HolesOnTopFrom(next, y)
      ensures moved ==> Holes(c0) > 0
    {
      var n := config.gridSize;
      var above := -1;
      moved := false;
      if grid[y][x] == None {
        NoHolesIffFull(col);
        SetColumnSound(b0, x, col);
        assert forall k :: 0 <= k < n ==> grid[k][x] == Column(grid, x)[k];
        above := PullDown(x, y);
        if above >= 0 {
          PutSetColumn(b0, x, col, y, col[above]);
          PutSetColumn(b0, x, col[y := col[above]], above, None);
          moved := true;
        }
      }
      PullStep(col, y, above);
      next := if above < 0 then col else col[y := col[above]][above := None];
    }

    /** One cell of the fill: a hole gets the next piece, a piece stays. */
    method FillCell(x: int, y: int, ghost make: nat -> Piece) returns (wasHole: bool)
      requires Valid() && 0 <= x < config.gridSize && 0 <= y < config.gridSize
      requires make == PieceSource(config, rand)
      modifies this`grid, this`draws
      ensures Valid()
      ensures wasHole <==> old(grid)[y][x] == None
      ensures grid == if wasHole then Put(old(grid), x, y, Some(make(old(draws)))) else old(grid)
      ensures draws == old(draws) + if wasHole then 2 else 0
    {
      wasHole := grid[y][x] == None;
      if wasHole {
        var p := DrawPiece();
        grid := Put(grid, x, y, Some(p));
      }
    }

    /**
     * The top-down fill loop over column x: each hole gets the piece of the
     * next two draws, top to bottom; no other column changes.
     */
    method FillColumn(x: int) returns (filled: bool)
      requires Valid() && 0 <= x < config.gridSize
      modifies this`grid, this`draws
      ensures Valid()
      ensures grid == SetColumn(old(grid), x, FilledColumn(Column(old(grid), x), PieceSource(config, rand), old(draws)))
      ensures draws == old(draws) + 2 * Holes(Column(old(grid), x))
      ensures filled <==> Holes(Column(old(grid), x)) > 0
    {
      ghost var b0 := grid;
      ghost var c0 := Column(b0, x);
      ghost var make := PieceSource(config, rand);
      ghost var d0 := draws;
      var n := config.gridSize;
      filled := false;
      SetColumnTwice(b0, x, c0, c0);
      FilledPrefixEnds(c0, make, d0);
      for y := 0 to n
        invariant grid == SetColumn(b0, x, FilledPrefix(c0, make, d0, y))
        invariant draws == d0 + 2 * Holes(c0[..y])
        invariant filled <==> Holes(c0[..y]) > 0
      {
        FillStep(b0, x, c0, make, d0, y, grid, draws);
        var hole := FillCell(x, y, make);
        filled := filled || hole;
      }
      assert c0[..n] == c0;
    }

    /**
     * The work of `refillBoard` on column x: the pull loop settles it, then
     * the fill loop gives its holes new pieces. Something moves exactly when
     * the column had a hole.
     */
    method RefillColumn(x: int) returns (moved: bool)
      requires Valid() && 0 <= x < config.gridSize
      modifies this`grid, this`draws
      ensures Valid()
      ensures grid == SetColumn(old(grid), x, FilledColumn(Settled(Column(old(grid), x)), PieceSource(config, rand), old(draws)))
      ensures draws == old(draws) + 2 * Holes(Column(old(grid), x))
      ensures moved <==> Holes(Column(old(grid), x)) > 0
    {
      ghost var b0 := grid;
      ghost var c := Column(b0, x);
      var pulled := SettleColumn(x);
      ghost var b1 := grid;
      SetColumnSound(b0, x, Settled(c));
      HolesOfSettled(c);
      var filled := FillColumn(x);
      SetColumnTwice(b0, x, Settled(c), FilledColumn(Settled(c), PieceSource(config, rand), old(draws)));
      moved := pulled || filled;
    }

    /**
     * The column loop of `refillBoard`: every column refilled in turn from
     * the left, each taking its draws after those of the columns before it.
     * Something moves exactly when some column had a hole.
     */
    /** Column x of the column loop: the grid refilled up to x becomes the grid refilled up to x + 1. */
    method RefillNext(x: int, ghost b0: Board, ghost make: nat -> Piece, ghost d0: nat, ghost h: nat) returns (moved: bool)
      requires Valid() && 0 <= x < config.gridSize && IsGrid(b0, config.gridSize)
      requires make == PieceSource(config, rand)
      requires grid == RefilledUpTo(b0, make, d0, x) && h == HolesBefore(b0, x) && draws == d0 + 2 * h
      modifies this`grid, this`draws
      ensures Valid()
      ensures grid == RefilledUpTo(b0, make, d0, x + 1)
      ensures draws == d0 + 2 * HolesBefore(b0, x + 1)
      ensures moved <==> HolesBefore(b0, x + 1) > h
    {
      RefillStep(b0, make, d0, x, grid, h, draws);
      moved := RefillColumn(x);
    }

    /**
     * The column loop of `refillBoard`: every column refilled in turn from
     * the left, each taking its draws after those of the columns before it.
     * Something moves exactly when some column had a hole.
     */
    method RefillColumns() returns (hasMoved: bool)
      requires Valid()
      modifies this`grid, this`draws
      ensures Valid()
      ensures grid == RefilledUpTo(old(grid), PieceSource(config, rand), old(draws), config.gridSize)
      ensures draws == old(draws) + 2 * HolesBefore(old(grid), config.gridSize)
      ensures hasMoved <==> HolesBefore(old(grid), config.gridSize) > 0
    {
      ghost var b0 := grid;
      ghost var make := PieceSource(config, rand);
      ghost var d0 := draws;
      var n := config.gridSize;
      hasMoved := false;
      RefilledUpToNone(b0, make, d0);
      for x := 0 to n
        invariant grid == RefilledUpTo(b0, make, d0, x)
        invariant draws == d0 + 2 * HolesBefore(b0, x)
        invariant hasMoved <==> HolesBefore(b0, x) > 0
      {
        var moved := RefillNext(x, b0, make, d0, HolesBefore(b0, x));
        hasMoved := hasMoved || moved;
      }
    }

    /**
     * `refillBoard`: column by column from the left, the pieces drop into
     * the holes below them and the holes left on top get new pieces; when
     * anything moved, the connection pass runs. Afterwards no cell is
     * empty. Something moves exactly when the grid had a hole.
     */
    method RefillBoard() returns (hasMoved: bool)
      requires Valid()
      modifies this`grid, this`draws, this`gearConnections, this`spinning
      ensures Valid() && Full(grid)
      ensures hasMoved <==> !Full(old(grid))
      ensures draws == DrawsAfterRefill(old(grid), old(draws))
      ensures hasMoved ==>
        && grid == GearStateOf(Refilled(old(grid), PieceSource(config, rand), old(draws)))
        && Connections(Refilled(old(grid), PieceSource(config, rand), old(draws)), gearConnections, spinning)
      ensures !hasMoved ==>
        grid == old(grid) && gearConnections == old(gearConnections) && spinning == old(spinning)
    {
      RefilledIsFull(grid, PieceSource(config, rand), draws);
      RefilledUpToAll(grid, PieceSource(config, rand), draws);
      HolesBeforeZero(grid, config.gridSize);
      hasMoved := RefillColumns();
      if hasMoved {
        ghost var r := grid;
        UpdateGearConnections();
        GearStateKeepsMatches(r, config.matchLength);
      }
    }

    // -------------------------------------------------------------------
    // A round of matching
    // -------------------------------------------------------------------

    /**
     * One round of `checkForMatches` on a full grid: the scan reports
     * exactly the matched cells; with a match they are scored and cleared,
     * the grid is refilled and reconnected, and the turn stays animating
     * for the next round; without one the turn ends and nothing else
     * changes. The refill takes its pieces from draw `d` on, the draws
     * before it having gone to the particles of the clear. The timers that
     * start the next round are not modelled.
     */
    method CheckForMatches() returns (ms: seq<Match>, ghost d: nat)
      requires Valid() && Full(grid)
      modifies this`grid, this`draws, this`multiplier, this`score, this`gearConnections, this`spinning, this`animating
      ensures Valid() && Full(grid)
      ensures Recorded(old(grid), ms) && Distinct(Cells(ms))
      ensures forall x, y :: 0 <= x < config.gridSize && 0 <= y < config.gridSize ==>
        (Pos(x, y) in Cells(ms) <==> Matched(old(grid), config.matchLength, x, y))
      ensures |ms| > 0 <==> HasMatch(old(grid), config.matchLength)
      ensures d == old(draws) + ParticleDraws(ms)
      ensures |ms| == 0 ==>
        && !animating && grid == old(grid) && draws == old(draws) && score == old(score)
        && multiplier == old(multiplier) && gearConnections == old(gearConnections) && spinning == old(spinning)
      ensures |ms| > 0 ==>
        && animating == old(animating)
        && multiplier == Multiplier(GearCount(ms))
        && score == old(score) + MatchScore(config.baseScore, |ms|, GearCount(ms))
        && grid == AfterRound(old(grid), old(gearConnections), ms, PieceSource(config, rand), d)
        && draws == DrawsAfterRefill(AfterClear(old(grid), old(gearConnections), ms), d)
        && Connections(Refilled(AfterClear(old(grid), old(gearConnections), ms), PieceSource(config, rand), d),
                       gearConnections, spinning)
    {
      ms := FindMatches(grid, config.matchLength);
      assert grid == old(grid) && draws == old(draws) && gearConnections == old(gearConnections);
      if |ms| > 0 {
        d := ClearRound(ms);
      } else {
        d := draws;
        animating := false;
      }
    }

    /**
     * The work of a round with matches: score and clear them, then refill
     * from draw `d`, the first one the particles leave, and reconnect.
     */
    method ClearRound(ms: seq<Match>) returns (ghost d: nat)
      requires Valid() && Recorded(grid, ms) && |ms| > 0
      modifies this`grid, this`draws, this`multiplier, this`score, this`gearConnections, this`spinning
      ensures Valid() && Full(grid)
      ensures multiplier == Multiplier(GearCount(ms))
      ensures score == old(score) + MatchScore(config.baseScore, |ms|, GearCount(ms))
      ensures d == old(draws) + ParticleDraws(ms)
      ensures
        && grid == AfterRound(old(grid), old(gearConnections), ms, PieceSource(config, rand), d)
        && draws == DrawsAfterRefill(AfterClear(old(grid), old(gearConnections), ms), d)
        && Connections(Refilled(AfterClear(old(grid), old(gearConnections), ms), PieceSource(config, rand), d),
                       gearConnections, spinning)
    {
      ghost var b0 := grid;
      var gears, points := ProcessMatches(ms);
      ghost var b1 := grid;
      d := draws;
      assert b1 == AfterClear(b0, gearConnections, ms);
      ClearedHasHole(SpinFrom(b0, gearConnections, GearStarts(ms)), ms);
      var moved := RefillBoard();
    }

    // -------------------------------------------------------------------
    // A new game
    // -------------------------------------------------------------------

    /** The game state a page load starts with; the page then calls `ResetGame`. */
    constructor (cfg: Config, random: nat -> Unit)
      ensures config == cfg && rand == random && draws == 0
      ensures grid == [] && score == 0 && moves == 0 && multiplier == BaseMultiplier
      ensures !dragging && dragType == None && dragIndex == -1 && !animating
      ensures gearConnections == [] && spinning == []
    {
      config := cfg;
      rand := random;
      draws := 0;
      grid := [];
      score := 0;
      moves := 0;
      multiplier := BaseMultiplier;
      dragging := false;
      dragType := None;
      dragIndex := -1;
      animating := false;
      gearConnections := [];
      spinning := [];
    }

    /** One row of new pieces, left to right, each taking the next two draws. */
    method DrawRow(ghost make: nat -> Piece) returns (row: seq<Cell>)
      requires ValidConfig(config) && make == PieceSource(config, rand)
      modifies this`draws
      ensures |row| == config.gridSize && draws == old(draws) + 2 * config.gridSize
      ensures forall x :: 0 <= x < |row| ==> row[x] == Some(make(old(draws) + 2 * x))
    {
      row := [];
      for x := 0 to config.gridSize
        invariant |row| == x && draws == old(draws) + 2 * x
        invariant forall k :: 0 <= k < x ==> row[k] == Some(make(old(draws) + 2 * k))
      {
        var p := DrawPiece();
        row := row + [Some(p)];
      }
    }

    /** The first fill loop of `resetGame`: a new grid, row by row from the top, of new pieces. */
    method NewGrid()
      requires ValidConfig(config)
      modifies this`grid, this`draws
      ensures Valid()
      ensures grid == RandomGrid(config.gridSize, PieceSource(config, rand), old(draws))
      ensures draws == old(draws) + BoardDraws(config.gridSize)
    {
      ghost var make := PieceSource(config, rand);
      ghost var d0 := draws;
      var n := config.gridSize;
      grid := [];
      for y := 0 to n
        invariant grid == RandomGrid(n, make, d0)[..y] && draws == d0 + 2 * (y * n)
      {
        AddRow(y, make, d0);
      }
      assert grid == RandomGrid(n, make, d0);
    }

    /** One pass of the first fill loop: row y of the new grid is drawn and appended. */
    method AddRow(y: int, ghost make: nat -> Piece, ghost d0: nat)
      requires ValidConfig(config) && make == PieceSource(config, rand) && 0 <= y < config.gridSize
      requires grid == RandomGrid(config.gridSize, make, d0)[..y] && draws == d0 + 2 * (y * config.gridSize)
      modifies this`grid, this`draws
      ensures grid == RandomGrid(config.gridSize, make, d0)[..y + 1]
      ensures draws == d0 + 2 * ((y + 1) * config.gridSize)
    {
      var n := config.gridSize;
      var row := DrawRow(make);
      RandomRow(n, make, d0, y, row);
      assert (y + 1) * n == y * n + n;
      grid := grid + [row];
    }

    /** One row of the re-randomising loop: each cell of row y, left to right, gets a new piece. */
    method RerollRow(y: int, ghost make: nat -> Piece)
      requires Valid() && 0 <= y < config.gridSize && make == PieceSource(config, rand)
      modifies this`grid, this`draws
      ensures Valid() && draws == old(draws) + 2 * config.gridSize
      ensures forall yy :: 0 <= yy < config.gridSize && yy != y ==> grid[yy] == old(grid)[yy]
      ensures forall x :: 0 <= x < config.gridSize ==> grid[y][x] == Some(make(old(draws) + 2 * x))
    {
      for x := 0 to config.gridSize
        invariant Valid() && draws == old(draws) + 2 * x
        invariant forall yy :: 0 <= yy < config.gridSize && yy != y ==> grid[yy] == old(grid)[yy]
        invariant forall k :: 0 <= k < x ==> grid[y][k] == Some(make(old(draws) + 2 * k))
      {
        var p := DrawPiece();
        grid := Put(grid, x, y, Some(p));
      }
    }

    /** The re-randomising loop of `resetGame`: every cell, row by row from the top, gets a new piece. */
    method RerollGrid()
      requires Valid()
      modifies this`grid, this`draws
      ensures Valid()
      ensures grid == RandomGrid(config.gridSize, PieceSource(config, rand), old(draws))
      ensures draws == old(draws) + BoardDraws(config.gridSize)
    {
      ghost var make := PieceSource(config, rand);
      ghost var d0 := draws;
      var n := config.gridSize;
      for y := 0 to n
        invariant Valid() && draws == d0 + 2 * (y * n)
        invariant forall yy :: 0 <= yy < y ==> grid[yy] == RandomGrid(n, make, d0)[yy]
      {
        RerollRow(y, make);
        RandomRow(n, make, d0, y, grid[y]);
        assert (y + 1) * n == y * n + n;
      }
      assert grid == RandomGrid(n, make, d0);
    }

    /**
     * The grids `resetGame` draws: a first one, then new ones while the
     * last holds a match, at most 100 times.
     */
    method DrawStartGrid() returns (attempts: nat)
      requires ValidConfig(config)
      modifies this`grid, this`draws
      ensures Valid() && attempts <= 100
      ensures forall k :: 0 <= k < attempts ==>
        HasMatch(Trial(config.gridSize, PieceSource(config, rand), old(draws), k), config.matchLength)
      ensures attempts < 100 ==>
        !HasMatch(Trial(config.gridSize, PieceSource(config, rand), old(draws), attempts), config.matchLength)
      ensures grid == Trial(config.gridSize, PieceSource(config, rand), old(draws), attempts)
      ensures draws == TrialStart(config.gridSize, old(draws), attempts + 1)
    {
      ghost var make := PieceSource(config, rand);
      ghost var d0 := draws;
      var n := config.gridSize;
      NewGrid();
      attempts := 0;
      ghost var g, e := grid, draws;
      var ms := FindMatches(grid, config.matchLength);
      assert grid == g && draws == e;
      while |ms| > 0 && attempts < 100
        invariant Valid() && attempts <= 100
        invariant grid == Trial(n, make, d0, attempts) && draws == TrialStart(n, d0, attempts + 1)
        invariant |ms| > 0 <==> HasMatch(grid, config.matchLength)
        invariant AllMatched(n, make, d0, config.matchLength, attempts)
        decreases 100 - attempts
      {
        AllMatchedNext(n, make, d0, config.matchLength, attempts);
        ms := Retry(make, d0, attempts);
        attempts := attempts + 1;
      }
    }

    /** One pass of the retry loop: the grid after the a-th retry is drawn and scanned. */
    method Retry(ghost make: nat -> Piece, ghost d0: nat, a: nat) returns (ms: seq<Match>)
      requires Valid() && make == PieceSource(config, rand)
      requires grid == Trial(config.gridSize, make, d0, a) && draws == TrialStart(config.gridSize, d0, a + 1)
      modifies this`grid, this`draws
      ensures Valid()
      ensures grid == Trial(config.gridSize, make, d0, a + 1) && draws == TrialStart(config.gridSize, d0, a + 2)
      ensures |ms| > 0 <==> HasMatch(grid, config.matchLength)
    {
      ghost var e0 := draws;
      RerollGrid();
      TrialStep(config.gridSize, make, d0, a, grid, e0);
      ghost var g, e := grid, draws;
      ms := FindMatches(grid, config.matchLength);
      assert grid == g && draws == e;
    }

    /**
     * `resetGame`: score, moves, multiplier and flags back to their start
     * values, a grid of new pieces, drawn again while it holds a match, at
     * most 100 times; then the connection pass. The grid the game starts
     * on is the first of the grids drawn without a match, or the one drawn
     * on the 100th retry.
     */
    method ResetGame() returns (attempts: nat)
      requires ValidConfig(config)
      modifies this`grid, this`draws, this`score, this`moves, this`multiplier, this`dragging,
        this`animating, this`gearConnections, this`spinning
      ensures Valid()
      ensures score == 0 && moves == 0 && multiplier == BaseMultiplier && !dragging && !animating
      ensures attempts <= 100
      ensures forall k :: 0 <= k < attempts ==>
        HasMatch(Trial(config.gridSize, PieceSource(config, rand), old(draws), k), config.matchLength)
      ensures attempts < 100 ==>
        !HasMatch(Trial(config.gridSize, PieceSource(config, rand), old(draws), attempts), config.matchLength)
      ensures grid == GearStateOf(Trial(config.gridSize, PieceSource(config, rand), old(draws), attempts))
      ensures Connections(Trial(config.gridSize, PieceSource(config, rand), old(draws), attempts), gearConnections, spinning)
      ensures draws == TrialStart(config.gridSize, old(draws), attempts + 1)
      ensures !AnySpinning(grid)
    {
      score := 0;
      moves := 0;
      multiplier := BaseMultiplier;
      dragging := false;
      animating := false;
      gearConnections := [];
      spinning := [];
      attempts := DrawStartGrid();
      assert score == 0 && moves == 0 && multiplier == BaseMultiplier && !dragging && !animating;
      ghost var start := grid;
      UpdateGearConnections();
      NewGridStill(config.gridSize, PieceSource(config, rand), TrialStart(config.gridSize, old(draws), attempts));
    }

    // -------------------------------------------------------------------
    // Rebalancing the gears
    // -------------------------------------------------------------------

    /** The counting loop of `regenerateGears`: the gears on the grid, row by row. */
    method CountGearCells() returns (count: nat)
      requires Valid() && Full(grid)
      ensures count == CountGears(grid)
    {
      var n := config.gridSize;
      count := 0;
      for y := 0 to n
        invariant count == CountGears(grid[..y])
      {
        CountGearsSnoc(grid, y);
        for x := 0 to n
          invariant count == CountGears(grid[..y]) + CountRow(grid[y][..x])
        {
          CountRowSnoc(grid[y], x);
          if grid[y][x].value.isGear {
            count := count + 1;
          }
        }
        assert grid[y][..n] == grid[y];
      }
      assert grid[..n] == grid;
    }

    /**
     * The first loop of `regenerateGears`: plain pieces are turned into gears
     * until the target is met. The source picks cells at random until it
     * hits a plain one; here the cell is chosen among the plain ones.
     */
    method AddGears(count0: nat, target: int) returns (count: nat)
      requires Valid() && Full(grid) && count0 == CountGears(grid) && target <= config.gridSize * config.gridSize
      modifies this`grid
      ensures Valid() && Full(grid) && count == CountGears(grid) && Adjusted(old(grid), grid, true)
      ensures count == if count0 < target then target else count0
      ensures count0 >= target ==> grid == old(grid)
    {
      ghost var b0 := grid;
      var n := config.gridSize;
      count := count0;
      AdjustedSame(b0, true);
      while count < target
        invariant Valid() && Full(grid) && count == CountGears(grid) && Adjusted(b0, grid, true)
        invariant count0 <= count && (count0 < target ==> count <= target) && (count0 >= target ==> count == count0 && grid == b0)
        decreases target - count
      {
        count := MakeGear(b0, count);
      }
    }

    /** One hit of the first loop: a plain piece becomes a gear, and the count goes up by one. */
    method MakeGear(ghost b0: Board, count0: nat) returns (count: nat)
      requires Valid() && Full(grid) && count0 == CountGears(grid) && Adjusted(b0, grid, true)
      requires count0 < config.gridSize * config.gridSize
      modifies this`grid
      ensures Valid() && Full(grid) && count == count0 + 1 && count == CountGears(grid) && Adjusted(b0, grid, true)
    {
      var n := config.gridSize;
      SomeCellToChange(grid, n);
      var x, y :| 0 <= x < n && 0 <= y < n && !IsGearCell(grid[y][x]);
      CountGearsUpdate(grid, x, y, Some(MadeGear(grid[y][x].value)));
      AdjustedUp(b0, grid, x, y);
      grid := Put(grid, x, y, Some(MadeGear(grid[y][x].value)));
      count := count0 + 1;
    }

    /**
     * The second loop of `regenerateGears`: gears are turned into stopped
     * plain pieces until the target is met, the cells chosen as in `AddGears`.
     */
    method RemoveGears(count0: nat, target: int) returns (count: nat)
      requires Valid() && Full(grid) && count0 == CountGears(grid) && target >= 0
      modifies this`grid
      ensures Valid() && Full(grid) && count == CountGears(grid) && Adjusted(old(grid), grid, false)
      ensures count == if count0 > target then target else count0
      ensures count0 <= target ==> grid == old(grid)
    {
      ghost var b0 := grid;
      var n := config.gridSize;
      count := count0;
      AdjustedSame(b0, false);
      while count > target
        invariant Valid() && Full(grid) && count == CountGears(grid) && Adjusted(b0, grid, false)
        invariant count <= count0 && (count0 > target ==> count >= target) && (count0 <= target ==> count == count0 && grid == b0)
        decreases count - target
      {
        count := MakePlain(b0, count);
      }
    }

    /** One hit of the second loop: a gear becomes a stopped plain piece, and the count goes down by one. */
    method MakePlain(ghost b0: Board, count0: nat) returns (count: nat)
      requires Valid() && Full(grid) && count0 == CountGears(grid) && Adjusted(b0, grid, false) && count0 > 0
      modifies this`grid
      ensures Valid() && Full(grid) && count0 == count + 1 && count == CountGears(grid) && Adjusted(b0, grid, false)
    {
      var n := config.gridSize;
      SomeCellToChange(grid, n);
      var x, y :| 0 <= x < n && 0 <= y < n && IsGearCell(grid[y][x]);
      CountGearsUpdate(grid, x, y, Some(MadePlain(grid[y][x].value)));
      AdjustedDown(b0, grid, x, y);
      grid := Put(grid, x, y, Some(MadePlain(grid[y][x].value)));
      count := count0 - 1;
    }

    /**
     * `regenerateGears`: on a full grid the number of gears becomes exactly
     * `floor(n * n * gearPercentage / 100)`, by turning plain pieces into
     * gears when there are too few and gears into stopped plain pieces when
     * there are too many, and nothing else; then the connection pass runs.
     * `flipped` is the grid just before the connection pass.
     */
    method RegenerateGears() returns (ghost flipped: Board)
      requires Valid() && Full(grid)
      modifies this`grid, this`gearConnections, this`spinning
      ensures Valid() && Full(grid)
      ensures CountGears(flipped) == TargetGears(config.gridSize, config.gearPercentage)
      ensures CountGears(grid) == TargetGears(config.gridSize, config.gearPercentage)
      ensures Adjusted(old(grid), flipped, CountGears(old(grid)) < TargetGears(config.gridSize, config.gearPercentage))
      ensures grid == GearStateOf(flipped) && Connections(flipped, gearConnections, spinning)
    {
      var n := config.gridSize;
      var target := n * n * config.gearPercentage / 100;
      TargetInRange(n, config.gearPercentage);
      var count := CountGearCells();
      ghost var up := count < target;
      count := AddGears(count, target);
      ghost var b1 := grid;
      count := RemoveGears(count, target);
      flipped := grid;
      UpdateGearConnections();
      GearStateKeepsCount(flipped);
      GearStateKeepsMatches(flipped, config.matchLength);
    }
  }
}
