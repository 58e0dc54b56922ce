/**
 * Gear connectivity: the state the connection pass gives every gear, the
 * connection lines it records, the walk along recorded lines that decides
 * which gears a match sets spinning, and the spin itself.
 */
module Gears {
  import opened Pieces
  import opened Lines
  import opened Board
  import opened Matches

  // ---------------------------------------------------------------------
  // Adjacency
  // ---------------------------------------------------------------------

  /** The four orthogonal neighbours of a cell. */
  function Neighbours(p: Pos): set<Pos> {
    {Pos(p.x + 1, p.y), Pos(p.x - 1, p.y), Pos(p.x, p.y + 1), Pos(p.x, p.y - 1)}
  }

  /** Some orthogonal neighbour of p is a gear. */
  predicate HasGearNeighbour(gs: set<Pos>, p: Pos) {
    Pos(p.x + 1, p.y) in gs || Pos(p.x - 1, p.y) in gs || Pos(p.x, p.y + 1) in gs || Pos(p.x, p.y - 1) in gs
  }

  /** Adjacency is symmetric and no cell is its own neighbour. */
  lemma {:induction false} NeighbourSymmetric(p: Pos, q: Pos)
    ensures q in Neighbours(p) <==> p in Neighbours(q)
    ensures p !in Neighbours(p)
  {
  }

  /** p has a gear next to it exactly when some neighbour of it is in gs. */
  lemma {:induction false} HasGearNeighbourWitness(gs: set<Pos>, p: Pos, q: Pos)
    requires q in gs && q in Neighbours(p)
    ensures HasGearNeighbour(gs, p)
  {
  }

  /** s contains every gear next to one of its members. */
  predicate Closed(gs: set<Pos>, s: set<Pos>) {
    forall p, q :: p in s && q in Neighbours(p) && q in gs ==> q in s
  }

  // ---------------------------------------------------------------------
  // Connection lines and the state of each gear
  // ---------------------------------------------------------------------

  /** A line from a cell to its right neighbour (horizontal) or the one below (vertical). */
  predicate Spans(e: Edge) {
    match e.direction
    case Horizontal => e.x2 == e.x1 + 1 && e.y2 == e.y1
    case Vertical => e.x2 == e.x1 && e.y2 == e.y1 + 1
  }

  /** A line the connection pass records: it spans two gears, left or upper end first. */
  predicate GearEdge(gs: set<Pos>, e: Edge) {
    Spans(e) && Pos(e.x1, e.y1) in gs && Pos(e.x2, e.y2) in gs
  }

  /** A cell after the connection pass: a gear gets its checkerboard direction and turns when meshed. */
  function GearCell(c: Cell, p: Pos, gs: set<Pos>): Cell {
    if IsGearCell(c) then Some(c.value.(direction := DirectionAt(p.x, p.y), rotating := HasGearNeighbour(gs, p)))
    else c
  }

  /** The grid after the connection pass. */
  function GearStateOf(b: Board): (r: Board)
    ensures |r| == |b| && forall y :: 0 <= y < |b| ==> |r[y]| == |b[y]|
  {
    var gs := GearsOf(b);
    seq(|b|, y requires 0 <= y < |b| =>
      seq(|b[y]|, x requires 0 <= x < |b[y]| => GearCell(b[y][x], Pos(x, y), gs)))
  }

  /**
   * What the connection pass does to one cell: a gear gets direction
   * clockwise exactly on even x + y and counter-clockwise otherwise, and is
   * rotating exactly when a neighbour is a gear; nothing else about the
   * piece changes, and a cell that is not a gear is left alone.
   */
  lemma {:induction false} GearStateCell(b: Board, x: int, y: int)
    requires 0 <= y < |b| && 0 <= x < |b[y]|
    ensures var c, r := b[y][x], GearStateOf(b)[y][x];
      if IsGearCell(c) then
        && r.Some?
        && (r.value.direction == Clockwise <==> (x + y) % 2 == 0)
        && r.value.direction != NoDirection
        && (r.value.rotating <==> HasGearNeighbour(GearsOf(b), Pos(x, y)))
        && r.value.(direction := c.value.direction, rotating := c.value.rotating) == c.value
      else r == c
  {
  }

  /** The connection pass never turns a gear into a plain piece or back. */
  lemma {:induction false} GearStateKeepsGears(b: Board)
    ensures GearsOf(GearStateOf(b)) == GearsOf(b)
  {
    SameGears(GearStateOf(b), b);
  }

  /** Running the connection pass a second time changes nothing. */
  lemma {:induction false} GearStateIdempotent(b: Board)
    ensures GearStateOf(GearStateOf(b)) == GearStateOf(b)
  {
    GearStateKeepsGears(b);
    BoardEq(GearStateOf(GearStateOf(b)), GearStateOf(b));
  }

  /** The connection pass changes no colour, so it neither makes nor breaks a match. */
  lemma {:induction false} GearStateKeepsMatches(b: Board, m: int)
    requires Square(b) && Full(b)
    ensures Square(GearStateOf(b)) && Full(GearStateOf(b))
    ensures forall x, y :: 0 <= x < |b| && 0 <= y < |b| ==>
      (Matched(GearStateOf(b), m, x, y) <==> Matched(b, m, x, y))
    ensures HasMatch(GearStateOf(b), m) <==> HasMatch(b, m)
  {
    var r := GearStateOf(b);
    forall k | 0 <= k < |b|
      ensures Row(r, k) == Row(b, k) && Col(r, k) == Col(b, k)
    {
    }
  }

  /** The two gears at the ends of a recorded line turn in opposite directions, and both turn. */
  lemma {:induction false} MeshedGearsTurnOpposite(b: Board, e: Edge)
    requires GearEdge(GearsOf(b), e)
    ensures InBounds(b, Pos(e.x1, e.y1)) && InBounds(b, Pos(e.x2, e.y2))
    ensures var r := GearStateOf(b);
      && r[e.y1][e.x1].Some? && r[e.y2][e.x2].Some?
      && r[e.y1][e.x1].value.direction != r[e.y2][e.x2].value.direction
      && r[e.y1][e.x1].value.rotating && r[e.y2][e.x2].value.rotating
  {
    GearsOfMember(b, Pos(e.x1, e.y1));
    GearsOfMember(b, Pos(e.x2, e.y2));
    NeighboursTurnOpposite(e.x1, e.y1);
  }

  /** The line between two cells, named the way the connection pass names it. */
  predicate Joins(e: Edge, p: Pos, q: Pos) {
    (Pos(e.x1, e.y1) == p && Pos(e.x2, e.y2) == q) || (Pos(e.x1, e.y1) == q && Pos(e.x2, e.y2) == p)
  }

  /**
   * Exactly one line is recorded for each pair of adjacent gears, and a
   * recorded line always joins two adjacent gears.
   */
  lemma {:induction false} OneEdgePerPair(gs: set<Pos>, p: Pos, q: Pos)
    ensures p in gs && q in gs && q in Neighbours(p) ==> exists e :: GearEdge(gs, e) && Joins(e, p, q)
    ensures forall e1, e2 :: GearEdge(gs, e1) && GearEdge(gs, e2) && Joins(e1, p, q) && Joins(e2, p, q) ==> e1 == e2
    ensures forall e :: GearEdge(gs, e) && Joins(e, p, q) ==> p in gs && q in gs && q in Neighbours(p)
  {
    if p in gs && q in gs && q in Neighbours(p) {
      if q == Pos(p.x + 1, p.y) {
        assert GearEdge(gs, Edge(p.x, p.y, q.x, q.y, Horizontal));
      } else if q == Pos(p.x - 1, p.y) {
        assert GearEdge(gs, Edge(q.x, q.y, p.x, p.y, Horizontal));
      } else if q == Pos(p.x, p.y + 1) {
        assert GearEdge(gs, Edge(p.x, p.y, q.x, q.y, Vertical));
      } else {
        assert GearEdge(gs, Edge(q.x, q.y, p.x, p.y, Vertical));
      }
    }
  }

  /** A list without repeats is exactly as long as the set of its elements is large. */
  lemma {:induction false} DistinctEdgesCount(es: seq<Edge>)
    requires Distinct(es)
    ensures |set e | e in es| == |es|
  {
    if es != [] {
      var last := es[|es| - 1];
      var init := es[..|es| - 1];
      assert Distinct(init);
      DistinctEdgesCount(init);
      assert (set e | e in es) == (set e | e in init) + {last};
      assert last !in (set e | e in init);
    }
  }

  /** Three gears in an L: (0,0), its right neighbour (1,0) and the one below (0,1). */
  function LShape(): set<Pos> {
    {Pos(0, 0), Pos(1, 0), Pos(0, 1)}
  }

  /** A line between gears of the L starts at the corner and runs right or down by one cell. */
  lemma {:induction false} LShapeEdgeEnds(e: Edge)
    requires GearEdge(LShape(), e)
    ensures e.x1 == 0 && e.y1 == 0
    ensures (e.direction == Horizontal && e.x2 == 1 && e.y2 == 0) || (e.direction == Vertical && e.x2 == 0 && e.y2 == 1)
  {
    assert (e.x1 == 0 && e.y1 == 0) || (e.x1 == 1 && e.y1 == 0) || (e.x1 == 0 && e.y1 == 1);
    assert (e.x2 == 0 && e.y2 == 0) || (e.x2 == 1 && e.y2 == 0) || (e.x2 == 0 && e.y2 == 1);
  }

  /** The lines recorded for the L are its two arms. */
  lemma {:induction false} LShapeEdgeSet(es: seq<Edge>)
    requires forall e :: e in es <==> GearEdge(LShape(), e)
    ensures (set e | e in es) == {Edge(0, 0, 1, 0, Horizontal), Edge(0, 0, 0, 1, Vertical)}
  {
    var h, v := Edge(0, 0, 1, 0, Horizontal), Edge(0, 0, 0, 1, Vertical);
    forall e | e in es
      ensures e == h || e == v
    {
      LShapeEdgeEnds(e);
    }
    assert GearEdge(LShape(), h) && GearEdge(LShape(), v);
  }

  /** A list of connection lines without repeats for the L of three gears has exactly two lines. */
  lemma {:induction false} LShapeHasTwoEdges(es: seq<Edge>)
    requires Distinct(es)
    requires forall e :: e in es <==> GearEdge(LShape(), e)
    ensures |es| == 2
  {
    LShapeEdgeSet(es);
    DistinctEdgesCount(es);
    assert |{Edge(0, 0, 1, 0, Horizontal), Edge(0, 0, 0, 1, Vertical)}| == 2;
  }

  // ---------------------------------------------------------------------
  // Walking the recorded lines
  // ---------------------------------------------------------------------

  /** The far end of a line seen from p, if p is one of its ends (the first end is tried first). */
  function Other(e: Edge, p: Pos): (r: Option<Pos>)
    ensures r.Some? ==> Joins(e, p, r.value)
  {
    if e.x1 == p.x && e.y1 == p.y then Some(Pos(e.x2, e.y2))
    else if e.x2 == p.x && e.y2 == p.y then Some(Pos(e.x1, e.y1))
    else None
  }

  /** Some recorded line leads from a to b. */
  predicate Linked(edges: seq<Edge>, a: Pos, b: Pos) {
    exists i :: 0 <= i < |edges| && Other(edges[i], a) == Some(b)
  }

  /** A walk from start along recorded lines, stepping only out of gears. */
  predicate IsTrail(gs: set<Pos>, edges: seq<Edge>, start: Pos, w: seq<Pos>) {
    |w| >= 1 && w[0] == start &&
    forall i :: 0 <= i < |w| - 1 ==> w[i] in gs && Linked(edges, w[i], w[i + 1])
  }

  /** p is a gear that a walk along recorded lines through gears reaches from start. */
  ghost predicate Reachable(gs: set<Pos>, edges: seq<Edge>, start: Pos, p: Pos) {
    p in gs && exists w :: IsTrail(gs, edges, start, w) && w[|w| - 1] == p
  }

  /** s contains every gear at the far end of a recorded line out of one of its members. */
  predicate EdgeClosed(gs: set<Pos>, edges: seq<Edge>, s: set<Pos>) {
    forall p, i :: p in s && 0 <= i < |edges| && Other(edges[i], p).Some? && Other(edges[i], p).value in gs ==>
      Other(edges[i], p).value in s
  }

  /** A walk never leaves a set that holds the start and is closed along the lines. */
  lemma {:induction false} TrailStaysInClosed(gs: set<Pos>, edges: seq<Edge>, start: Pos, s: set<Pos>, w: seq<Pos>)
    requires IsTrail(gs, edges, start, w)
    requires start in gs ==> start in s
    requires EdgeClosed(gs, edges, s)
    ensures w[|w| - 1] in gs ==> w[|w| - 1] in s
    decreases |w|
  {
    if |w| > 1 {
      var w' := w[..|w| - 1];
      assert IsTrail(gs, edges, start, w');
      TrailStaysInClosed(gs, edges, start, s, w');
      var i :| 0 <= i < |edges| && Other(edges[i], w[|w| - 2]) == Some(w[|w| - 1]);
      assert w[|w| - 2] in s;
    }
  }

  /** All ends of the recorded lines. */
  ghost function Ends(edges: seq<Edge>): set<Pos> {
    (set i | 0 <= i < |edges| :: Pos(edges[i].x1, edges[i].y1)) + (set i | 0 <= i < |edges| :: Pos(edges[i].x2, edges[i].y2))
  }

  lemma {:induction false} OtherIsEnd(edges: seq<Edge>, i: int, p: Pos)
    requires 0 <= i < |edges| && Other(edges[i], p).Some?
    ensures Other(edges[i], p).value in Ends(edges)
  {
    if edges[i].x1 == p.x && edges[i].y1 == p.y {
      assert Pos(edges[i].x2, edges[i].y2) in (set k | 0 <= k < |edges| :: Pos(edges[k].x2, edges[k].y2));
    } else {
      assert Pos(edges[i].x1, edges[i].y1) in (set k | 0 <= k < |edges| :: Pos(edges[k].x1, edges[k].y1));
    }
  }

  /** Every queued cell has a walk from the start that ends at it. */
  ghost predicate QueueTrails(gs: set<Pos>, edges: seq<Edge>, start: Pos, queue: seq<Pos>, qpaths: seq<seq<Pos>>) {
    |qpaths| == |queue| &&
    forall k :: 0 <= k < |queue| ==> IsTrail(gs, edges, start, qpaths[k]) && qpaths[k][|qpaths[k]| - 1] == queue[k]
  }

  /** Taking the head off the queue keeps the walks of the rest, and the head has one too. */
  lemma {:induction false} QueueTrailsTail(gs: set<Pos>, edges: seq<Edge>, start: Pos, queue: seq<Pos>, qpaths: seq<seq<Pos>>)
    requires QueueTrails(gs, edges, start, queue, qpaths) && |queue| > 0
    ensures QueueTrails(gs, edges, start, queue[1..], qpaths[1..])
    ensures IsTrail(gs, edges, start, qpaths[0]) && qpaths[0][|qpaths[0]| - 1] == queue[0]
  {
    forall k | 0 <= k < |queue| - 1
      ensures IsTrail(gs, edges, start, qpaths[1..][k]) && qpaths[1..][k][|qpaths[1..][k]| - 1] == queue[1..][k]
    {
      assert qpaths[1..][k] == qpaths[k + 1];
    }
  }

  /**
   * The inner loop over the recorded lines: queues the far end of every line
   * out of `key` that has not been visited, keeping what was queued before.
   */
  method QueueLinked(edges: seq<Edge>, key: Pos, visited: set<Pos>, queue0: seq<Pos>,
                     ghost gs: set<Pos>, ghost start: Pos, ghost qpaths0: seq<seq<Pos>>, ghost kpath: seq<Pos>)
    returns (queue: seq<Pos>, ghost qpaths: seq<seq<Pos>>)
    requires key in gs && IsTrail(gs, edges, start, kpath) && kpath[|kpath| - 1] == key
    requires QueueTrails(gs, edges, start, queue0, qpaths0)
    ensures QueueTrails(gs, edges, start, queue, qpaths)
    ensures |queue| >= |queue0| && queue[..|queue0|] == queue0
    ensures forall k :: |queue0| <= k < |queue| ==> queue[k] in Ends(edges)
    ensures forall j :: 0 <= j < |edges| && Other(edges[j], key).Some? ==>
      Other(edges[j], key).value in visited || Other(edges[j], key).value in queue
  {
    queue, qpaths := queue0, qpaths0;
    for i := 0 to |edges|
      invariant QueueTrails(gs, edges, start, queue, qpaths)
      invariant |queue| >= |queue0| && queue[..|queue0|] == queue0
      invariant forall k :: |queue0| <= k < |queue| ==> queue[k] in Ends(edges)
      invariant forall j :: 0 <= j < i && Other(edges[j], key).Some? ==>
        Other(edges[j], key).value in visited || Other(edges[j], key).value in queue
    {
      var next := Other(edges[i], key);
      if next.Some? && next.value !in visited {
        OtherIsEnd(edges, i, key);
        assert Linked(edges, key, next.value);
        assert IsTrail(gs, edges, start, kpath + [next.value]);
        queue, qpaths := queue + [next.value], qpaths + [kpath + [next.value]];
      }
    }
  }

  /** Queued far ends of lines out of the found gears are visited or still queued. */
  predicate Frontier(edges: seq<Edge>, result: seq<Pos>, visited: set<Pos>, queue: seq<Pos>) {
    forall p, i :: p in result && 0 <= i < |edges| && Other(edges[i], p).Some? ==>
      Other(edges[i], p).value in visited || Other(edges[i], p).value in queue
  }

  /** Visiting `key` and queueing its unvisited far ends keeps the frontier property. */
  lemma {:induction false} FrontierStep(edges: seq<Edge>, result: seq<Pos>, key: Pos, visited: set<Pos>,
                                        before: seq<Pos>, queue: seq<Pos>)
    requires |before| > 0 && before[0] == key && |queue| >= |before| - 1 && queue[..|before| - 1] == before[1..]
    requires Frontier(edges, result, visited, before)
    requires forall j :: 0 <= j < |edges| && Other(edges[j], key).Some? ==>
      Other(edges[j], key).value in visited + {key} || Other(edges[j], key).value in queue
    ensures Frontier(edges, result + [key], visited + {key}, queue)
  {
    forall p, i | p in result + [key] && 0 <= i < |edges| && Other(edges[i], p).Some?
      ensures Other(edges[i], p).value in visited + {key} || Other(edges[i], p).value in queue
    {
      if p != key {
        var o := Other(edges[i], p).value;
        assert o in before ==> o == key || o in before[1..];
        assert o in before[1..] ==> o in queue[..|before| - 1];
      }
    }
  }

  /** A closed list of gears, each with a walk from the start, is exactly the reachable set. */
  lemma {:induction false} FoundIsReachable(gs: set<Pos>, edges: seq<Edge>, start: Pos, result: seq<Pos>, paths: seq<seq<Pos>>)
    requires QueueTrails(gs, edges, start, result, paths)
    requires forall p :: p in result ==> p in gs
    requires start in gs ==> start in result
    requires EdgeClosed(gs, edges, set p | p in result)
    ensures forall p :: p in result <==> Reachable(gs, edges, start, p)
  {
    forall p | p in result
      ensures Reachable(gs, edges, start, p)
    {
      var k :| 0 <= k < |result| && result[k] == p;
      assert IsTrail(gs, edges, start, paths[k]);
    }
    forall p | Reachable(gs, edges, start, p)
      ensures p in result
    {
      var w :| IsTrail(gs, edges, start, w) && w[|w| - 1] == p;
      TrailStaysInClosed(gs, edges, start, (set q | q in result), w);
    }
  }

  /** What the search keeps true between two steps. */
  ghost predicate SearchState(b: Board, edges: seq<Edge>, start: Pos, univ: set<Pos>, visited: set<Pos>,
                              queue: seq<Pos>, qpaths: seq<seq<Pos>>, result: seq<Pos>, paths: seq<seq<Pos>>) {
    var gs := GearsOf(b);
    && QueueTrails(gs, edges, start, queue, qpaths)
    && QueueTrails(gs, edges, start, result, paths)
    && (forall k :: 0 <= k < |queue| ==> queue[k] in univ)
    && visited <= univ
    && (forall p :: p in result ==> p in gs && p in visited)
    && (forall p :: p in visited && p in gs ==> p in result)
    && Distinct(result)
    && (start in visited || start in queue)
    && Frontier(edges, result, visited, queue)
  }

  /**
   * One step of the search: take the head of the queue; skip it if it was
   * visited; otherwise mark it visited, and if it is a gear, report it and
   * queue the unvisited far ends of its lines.
   */
  method SearchStep(b: Board, edges: seq<Edge>, start: Pos, ghost univ: set<Pos>, visited0: set<Pos>,
                    queue0: seq<Pos>, result0: seq<Pos>, ghost qpaths0: seq<seq<Pos>>, ghost paths0: seq<seq<Pos>>)
    returns (visited: set<Pos>, queue: seq<Pos>, result: seq<Pos>, ghost qpaths: seq<seq<Pos>>, ghost paths: seq<seq<Pos>>)
    requires |queue0| > 0 && Ends(edges) <= univ
    requires SearchState(b, edges, start, univ, visited0, queue0, qpaths0, result0, paths0)
    ensures SearchState(b, edges, start, univ, visited, queue, qpaths, result, paths)
    ensures (univ - visited < univ - visited0) || (visited == visited0 && |queue| < |queue0|)
  {
    ghost var gs := GearsOf(b);
    var key := queue0[0];
    QueueTrailsTail(gs, edges, start, queue0, qpaths0);
    ghost var kpath := qpaths0[0];
    visited, queue, result, qpaths, paths := visited0, queue0[1..], result0, qpaths0[1..], paths0;
    if key in visited {
      return;
    }
    visited := visited + {key};
    var piece := if 0 <= key.y < |b| && 0 <= key.x < |b[key.y]| then b[key.y][key.x] else None;
    GearsOfMember(b, key);
    if !IsGearCell(piece) {
      return;
    }
    queue, qpaths := QueueLinked(edges, key, visited, queue, gs, start, qpaths, kpath);
    FrontierStep(edges, result, key, visited0, queue0, queue);
    result, paths := result + [key], paths + [kpath];
  }

  /**
   * The walk along the recorded lines from a start cell: a breadth-first
   * search over cells that skips, without expanding, anything that is not a
   * gear. The result lists each gear it reaches once, holds the start exactly
   * when the start is a gear, is closed along the lines, and is exactly the
   * set of gears reachable from the start.
   */
  method FindConnectedGearsByLines(b: Board, edges: seq<Edge>, start: Pos) returns (result: seq<Pos>)
    ensures Distinct(result)
    ensures forall p :: p in result ==> p in GearsOf(b)
    ensures start in result <==> start in GearsOf(b)
    ensures EdgeClosed(GearsOf(b), edges, set p | p in result)
    ensures forall p :: p in result <==> Reachable(GearsOf(b), edges, start, p)
  {
    ghost var univ := {start} + Ends(edges);
    var visited: set<Pos> := {};
    var queue := [start];
    ghost var qpaths: seq<seq<Pos>> := [[start]];
    ghost var paths: seq<seq<Pos>> := [];
    result := [];
    while |queue| > 0
      invariant SearchState(b, edges, start, univ, visited, queue, qpaths, result, paths)
      decreases univ - visited, |queue|
    {
      visited, queue, result, qpaths, paths := SearchStep(b, edges, start, univ, visited, queue, result, qpaths, paths);
    }
    assert EdgeClosed(GearsOf(b), edges, set p | p in result);
    FoundIsReachable(GearsOf(b), edges, start, result, paths);
  }

  // ---------------------------------------------------------------------
  // Spinning
  // ---------------------------------------------------------------------

  /** A piece set spinning by a match: the flag on and the fixed spin duration. */
  function Spun(c: Cell): (r: Cell)
    ensures IsGearCell(r) == IsGearCell(c)
  {
    if c.Some? then Some(c.value.(spinning := true, spinDuration := GearSpinDuration)) else c
  }

  /** Some start in the set reaches p. */
  ghost predicate ReachedFrom(gs: set<Pos>, edges: seq<Edge>, starts: set<Pos>, p: Pos) {
    exists s :: s in starts && Reachable(gs, edges, s, p)
  }

  /** The grid after spinning every gear reachable from one of the starts; nothing else changes. */
  ghost function SpinFrom(b: Board, edges: seq<Edge>, starts: set<Pos>): (r: Board)
    ensures |r| == |b| && forall y :: 0 <= y < |b| ==> |r[y]| == |b[y]|
  {
    var gs := GearsOf(b);
    seq(|b|, y requires 0 <= y < |b| =>
      seq(|b[y]|, x requires 0 <= x < |b[y]| =>
        if ReachedFrom(gs, edges, starts, Pos(x, y)) then Spun(b[y][x]) else b[y][x]))
  }

  /** Spinning keeps the gear positions. */
  lemma {:induction false} SpinKeepsGears(b: Board, edges: seq<Edge>, starts: set<Pos>)
    ensures GearsOf(SpinFrom(b, edges, starts)) == GearsOf(b)
  {
    SameGears(SpinFrom(b, edges, starts), b);
  }

  /** Spinning from one more start adds that start's reach; a gear spun twice stays as spun once. */
  lemma {:induction false} SpinFromMore(b: Board, edges: seq<Edge>, starts: set<Pos>, s: Pos)
    ensures SpinFrom(SpinFrom(b, edges, starts), edges, {s}) == SpinFrom(b, edges, starts + {s})
  {
    var mid := SpinFrom(b, edges, starts);
    SpinKeepsGears(b, edges, starts);
    var gs := GearsOf(b);
    forall y, x | 0 <= y < |b| && 0 <= x < |b[y]|
      ensures SpinFrom(mid, edges, {s})[y][x] == SpinFrom(b, edges, starts + {s})[y][x]
    {
      var p := Pos(x, y);
      if Reachable(gs, edges, s, p) {
        assert ReachedFrom(gs, edges, {s}, p);
        assert ReachedFrom(gs, edges, starts + {s}, p);
      } else if ReachedFrom(gs, edges, starts, p) {
        var t :| t in starts && Reachable(gs, edges, t, p);
        assert ReachedFrom(gs, edges, starts + {s}, p);
      }
    }
    BoardEq(SpinFrom(mid, edges, {s}), SpinFrom(b, edges, starts + {s}));
  }

  /** Spinning from no start changes nothing. */
  lemma {:induction false} SpinFromNone(b: Board, edges: seq<Edge>)
    ensures SpinFrom(b, edges, {}) == b
  {
    BoardEq(SpinFrom(b, edges, {}), b);
  }
}
