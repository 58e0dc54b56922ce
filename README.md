# Cog match-3: a verified model of the grid engine

This project models the grid engine of a browser match-3 game in Dafny. In this game some pieces are gears. The engine lives in `app.js` and keeps an n by n grid of piece records in `gameState.grid[y][x]`. The model covers:

- **Moving a line.** The player drags a row or a column, which is rotated cyclically (`moveRowOrColumn`). The drag release (`endDrag`) clamps the delta in whole cells and counts the move.
- **Match detection** (`findMatches`). A horizontal pass and a vertical pass share one visited mask, so each cell is reported at most once.
- **Match processing** (`processMatches`). It counts the matched gears, sets the multiplier, adds the rounded score, spins the gears linked to each matched gear, and clears the matched cells.
- **The connection pass** (`updateGearConnections`). A flood fill over orthogonally adjacent gears gives each gear its checkerboard direction and marks every gear with a gear next to it as rotating. It records one line per adjacent pair and rebuilds the `spinning` list.
- **The line search and spin marking** (`findConnectedGearsByLines`, `triggerGearSpin`). A breadth-first search runs along the recorded lines, and every gear it reaches starts spinning.
- **Gravity refill** (`refillBoard`). Each column is compacted downwards and its holes are filled with new pieces. The connection pass then re-runs.
- **One round of `checkForMatches`.** Detection, then processing, then a refill.
- **Board rules.** `isBoardIdle`, the grid set-up and retry loop of `resetGame`, and the gear rebalancing of `regenerateGears`.

The grid is a `seq<seq<Cell>>` field of the class `Engine.Game`, which the methods reassign. `Cell` is `Option<Piece>`, and `None` stands for the `null` of an empty cell. Each method is proved against a pure function of the old grid. Those functions live in the modules below, with lemmas stating what they mean:

- **Lines** (`lines.dfy`): the cyclic shift, the clamp of the drag delta, runs of equal colours, and gravity on one column.
- **Board** (`board.dfy`): reading and writing the grid cell by cell and column by column.
- **Moves** (`moves.dfy`): a move of one row or column.
- **Matches** (`matches.dfy`): what a matched cell is, and the scan.
- **Gears** (`gears.dfy`): the state of the gears after the connection pass, the line search, and spinning.
- **Refill** (`refill.dfy`): the settled and refilled board.
- **Scoring** (`scoring.dfy`): the multiplier, the score, and the cleared board.
- **Rebalance** (`rebalance.dfy`): counting gears and the allowed flips.

`Math.random()` is an oracle. The game object is given a function `rand: nat -> Unit` and a draw counter `draws`. Each piece consumes two draws, one for its colour and one for the gear roll, in the order `createPiece` makes them. Each particle of a clear consumes four draws (size, angle, speed, duration). `processMatches` makes these particles before the refill, ten per gear entry and five per other entry, so the refill starts after their 20 draws per entry and 20 more per gear. Except for the gear rebalancing (see "## Left out"), every grid the engine builds is a function of the oracle and the starting counter, and the contracts state it exactly.

Where app.js behaves differently from what a reader might expect, the model follows the code:

- **Detection.** The two passes of `findMatches` share ONE visited mask (app.js:535). A cell in both a horizontal and a vertical run is therefore reported once, not once per direction.
- **Starting grid.** `resetGame` stops re-rolling after 100 attempts whether or not the grid still holds a match (app.js:1157). The model proves "no match" only when fewer than 100 attempts were used.
- **Configuration.** The code accepts any configuration. The model asks only for what keeps the code from crashing or looping: a grid size of at least 1, at least one colour, a gear percentage in 0..100 and a match length of at least 1.
- **Off-grid drags.** A drag whose index is off the grid still counts a move (app.js:424-426), but `moveRowOrColumn` leaves the grid alone and clears `animating`.

## Model

| member | source | states |
|---|---|---|
| Pieces.PickIndex | app.js:916 | the floored product of a random unit and the number of colours is a valid colour index |
| Pieces.CreatePiece | app.js:915-928 | a new piece has a colour on offer, is a gear exactly when the gear roll times 100 is below the percentage, and is not rotating, not spinning, undirected, with spin duration 0 |
| Pieces.GearPercentageBounds | app.js:917 | percentage 0 never makes a gear; percentage 100 always does |
| Pieces.DirectionAt | app.js:646 | the checkerboard direction is clockwise exactly when x + y is even, and never missing |
| Pieces.NeighboursTurnOpposite | app.js:646 | horizontally or vertically adjacent cells get opposite directions |
| Lines.ShiftMoves | app.js:448-451 | the rebuilt line has the element from index x at index (x + amount) mod n |
| Lines.Shift | app.js:448-451 | the reference line of the shift loop: index j receives what stood at (j - amount) mod n; the contract states the length is kept |
| Lines.WrapInverse | app.js:449 | the write index (x + amount + n) mod n and the read index (j - amount) mod n undo each other |
| Lines.ShiftedStep | app.js:448-451 | writing element x at its destination extends the part of the line already shifted |
| Lines.ShiftedAll | app.js:448-452 | once every element is written, the new line is the shifted line |
| Lines.ShiftInverse | app.js:445-467 | shifting back by the negated amount restores the line |
| Lines.ShiftPeriodic | app.js:449 | amounts that differ by whole periods give the same line |
| Lines.ShiftZero | app.js:449 | a zero shift changes nothing |
| Lines.ShiftByPeriods | app.js:449 | a shift by a multiple of the line length changes nothing |
| Lines.ShiftIsRotation | app.js:448-451 | a shift moves the last amount mod n elements to the front and keeps the rest in order |
| Lines.ShiftPermutes | app.js:445-467 | a shift keeps the multiset of the line's pieces |
| Lines.JsRem | app.js:421-422 | JavaScript's remainder lies strictly between -n and n and agrees with the Euclidean one on non-negative dividends |
| Lines.ClampDeltaSound | app.js:420-423 | the clamped delta lies in [-n, n] and differs from the raw delta by whole periods; it is zero exactly for a zero delta or a whole number of turns beyond n |
| Lines.ClampedShiftIsShift | app.js:420-425 | shifting by the clamped delta is shifting by the raw delta |
| Lines.RunEndIs | app.js:543-549 | the run end is the same from any cell of a maximal run |
| Lines.RunStartIs | app.js:539-549 | the run start is the same from any cell of a maximal run |
| Lines.RunIsMaximal | app.js:543-549 | the run found around a cell is a maximal run of one colour containing that cell |
| Lines.RunEndSame | app.js:543-549 | every cell up to the run end has the colour of the start, and the cell after the end differs or is past the edge |
| Lines.RunStartSame | app.js:539-549 | every cell from the run start has the colour of the cell, and the cell before the start differs or is past the edge |
| Lines.RunOf | app.js:551-558 | all cells of a run share its start and end |
| Lines.InLongRunIffWindow | app.js:539-561 | a cell lies in a maximal run of at least m equal colours exactly when it lies in some window of at least m equal colours (both directions) |
| Lines.WindowInsideRun | app.js:543-549 | every window of equal colours around a cell lies inside that cell's maximal run |
| Lines.RunStartAfter | app.js:539-560 | the cells after a run start their run no earlier than its end |
| Lines.MarkStep | app.js:551-558 | after the scan reaches start x, the cells marked are those in long runs starting before x, plus the tail of x's run when that tail is at least m long |
| Lines.RunStartBound | app.js:539 | a run of at least m starts no later than n - m, so the scan's start bound n - (m - 1) reaches every such run |
| Lines.SurvivorsAppend | app.js:883-898 | the pieces and holes of a joined column are those of its parts |
| Lines.NoHolesIffFull | app.js:886 | a column has no hole exactly when every cell holds a piece |
| Lines.SettledWhenHolesOnTop | app.js:885-898 | a column whose holes all sit above its pieces is already settled |
| Lines.SettledSound | app.js:883-898 | a settled column keeps the pieces in order, has all its holes on top and pieces below them |
| Lines.Settled | app.js:885-898 | the reference column of the gravity loop: its holes on top, its pieces in order below; the contract states the length is kept |
| Lines.SlideKeepsSurvivors | app.js:888-895 | sliding a piece down past holes keeps the pieces and their order |
| Lines.PullKeepsSurvivors | app.js:888-895 | moving the nearest piece above into the hole at y keeps the column's pieces in order |
| Lines.PullStep | app.js:885-898 | one row of the pull loop keeps the pieces and extends the region from y down where no hole has a piece above |
| Lines.HolesOfSettled | app.js:883-898 | settling keeps the number of holes |
| Lines.SettledFromSurvivors | app.js:885-898 | a column with the pieces of c in order and every hole on top is the settled column of c |
| Moves.MovedDestinations | app.js:445-467 | a row move sends column x of that row to (x + amount) mod n and leaves the other rows alone; a column move does the same along the column and leaves the other columns alone |
| Moves.MovedPermutes | app.js:445-467 | the moved row or column keeps its multiset of pieces |
| Moves.MovedInverse | app.js:445-467 | moving back by the negated amount restores the grid |
| Moves.MovedByClampedDelta | app.js:420-425 | moving by the clamped delta is moving by the raw delta |
| Matches.RowRunLength | app.js:540-549 | the counted length is the distance from x to the end of its run in the row |
| Matches.ColRunLength | app.js:567-576 | the counted length is the distance from y to the end of its run in the column |
| Matches.MarkRow | app.js:551-559 | only unvisited cells of the run are added, and the mask is set exactly on the reported cells; entries stay grid cells, each once |
| Matches.MarkColumn | app.js:578-586 | as for MarkRow, along a column |
| Matches.ScanRow | app.js:539-561 | after row y the mask gains exactly the cells of row y in runs of at least m; entries stay grid cells, each once |
| Matches.ScanColumn | app.js:566-588 | after column x the mask gains exactly the cells of column x in runs of at least m; entries stay grid cells, each once |
| Matches.FindMatches | app.js:533-593 | every entry is a grid cell with the piece standing there; no cell appears twice; a cell is reported exactly when it lies in a horizontal or vertical run of at least matchLength; the list is non-empty exactly when the grid has a match; the grid is never changed |
| Matches.Matched | app.js:533-593 | the reference for detection: a cell is matched when it lies in a horizontal or vertical run of at least m equal colours (a predicate without a contract; Matches.FindMatches is proved against it) |
| Gears.NeighbourSymmetric | app.js:660-675 | adjacency is symmetric and no cell is its own neighbour |
| Gears.GearStateCell | app.js:644-710 | after the pass a gear is clockwise exactly on even x + y and rotating exactly when a gear is next to it; nothing else about it changes, and cells that are not gears are left alone |
| Gears.GearStateKeepsGears | app.js:644-710 | the connection pass never changes which cells are gears |
| Gears.GearStateIdempotent | app.js:633-726 | running the connection pass a second time changes nothing |
| Gears.GearStateKeepsMatches | app.js:644-710 | the connection pass changes no colour, so a cell is matched afterwards exactly when it was before |
| Gears.GearStateOf | app.js:633-726 | the reference grid after the connection pass, cell by cell; the contract states the shape is kept |
| Gears.MeshedGearsTurnOpposite | app.js:678-706 | the two gears at the ends of a recorded line both rotate and turn in opposite directions |
| Gears.OneEdgePerPair | app.js:686-706 | two adjacent gears are joined by exactly one recorded line, and every line joins two adjacent gears |
| Gears.DistinctEdgesCount | app.js:686-706 | a list of distinct lines has as many lines as its set |
| Gears.LShapeEdgeEnds | app.js:686-706 | on the three-gear L at (0,0), (1,0), (0,1) every line starts at (0,0) and goes right or down |
| Gears.LShapeEdgeSet | app.js:686-706 | the L's lines are exactly the horizontal (0,0)-(1,0) and the vertical (0,0)-(0,1) |
| Gears.LShapeHasTwoEdges | app.js:686-706 | the L records exactly two lines |
| Gears.Other | app.js:743-748 | the far end of a line from a cell, when there is one, is joined to that cell by the line |
| Gears.TrailStaysInClosed | app.js:742-753 | a trail along the lines from a set closed under them, and ending on a gear, ends in that set |
| Gears.OtherIsEnd | app.js:743-748 | the far end of a line is an end of some line |
| Gears.QueueTrailsTail | app.js:733-734 | taking the head of the queue leaves a queue of cells each reached by a trail from the start |
| Gears.QueueLinked | app.js:742-753 | after the loop over the lines the queue is the old queue followed by far ends of lines from the key, and every unvisited far end has been queued |
| Gears.FrontierStep | app.js:735-753 | visiting a gear keeps every line from a found gear leading to a found, visited or queued cell |
| Gears.FoundIsReachable | app.js:733-755 | when the queue is empty the found cells are exactly the gears reachable from the start |
| Gears.SearchStep | app.js:734-753 | one turn of the search keeps the search invariant and either visits a new cell or shortens the queue |
| Gears.FindConnectedGearsByLines | app.js:729-756 | the result has distinct cells, all gears; it holds the start exactly when the start is a gear; it is closed along the lines and is exactly the set of gears reachable from the start |
| Gears.Spun | app.js:764-766 | spinning a cell never changes whether it is a gear |
| Gears.SpinKeepsGears | app.js:761-770 | spinning keeps the gear positions |
| Gears.SpinFromMore | app.js:598-604 | spinning from one more matched gear adds that gear's reach, so the spins of a clear compose one gear at a time |
| Gears.SpinFromNone | app.js:598-604 | a clear with no gear spins nothing |
| Gears.SpinFrom | app.js:758-784 | the reference grid after spinning every gear reachable from the starts along the lines; the contract states the shape is kept |
| Refill.Fresh | app.js:915-928 | the piece of two draws is a new piece of a colour on offer |
| Refill.RandomGrid | app.js:1148-1153 | a newly drawn grid is n by n with no empty cell |
| Refill.RandomRow | app.js:1149-1152 | the row of n pieces drawn after y full rows is row y of the new grid |
| Refill.TrialStartIs | app.js:1155-1165 | attempt k starts its draws k whole boards after the first |
| Refill.Trial | app.js:1155-1165 | the grid of attempt k is n by n with no empty cell |
| Refill.FilledAppend | app.js:901-906 | filling a joined column fills the lower part with the draws that follow the upper part's holes |
| Refill.FilledSnoc | app.js:901-906 | filling one more row of the column gives a hole the next piece and keeps a piece |
| Refill.FillStep | app.js:901-906 | one iteration of the fill loop extends the filled prefix of the column |
| Refill.FilledPrefixEnds | app.js:901-906 | the fill loop starts from the column and ends with the filled column |
| Refill.FilledFull | app.js:901-906 | filling a column with no hole changes nothing |
| Refill.FilledHoles | app.js:901-906 | the k holes on top of a settled column get the next k pieces, top to bottom |
| Refill.FilledBelowHoles | app.js:901-906 | the pieces below the holes are left alone |
| Refill.RefilledColumn | app.js:883-906 | after a column is refilled, its top Holes(c) cells are new pieces in draw order and the cells below are the surviving pieces in their old order |
| Refill.HolesBeforeZero | app.js:881-909 | no hole in the earlier columns exactly when every one of their cells holds a piece |
| Refill.RefilledCells | app.js:879-907 | after refilling, column x's holes get the draws after the earlier columns' holes; its other cells are its surviving pieces in order, and no other column affects column x |
| Refill.RefilledIsFull | app.js:879-907 | after the refill no cell is empty; a full grid is left alone and uses no draw |
| Refill.Refilled | app.js:879-907 | the reference grid after the refill, column by column from draw d; the contract states it is an n by n grid |
| Refill.FullUnchanged | app.js:879-909 | a refill of a full grid changes nothing and uses no draw |
| Refill.FullGridUnchanged | app.js:883-906 | every column of a full grid is refilled to itself |
| Refill.FullColumnUnchanged | app.js:883-906 | a column with no hole is refilled to itself |
| Refill.NoHolesBefore | app.js:881-909 | a full grid has no hole in any prefix of columns |
| Refill.RefilledUpToNone | app.js:883 | before the column loop nothing is refilled |
| Refill.RefilledUpToAll | app.js:883-907 | after the last column the whole grid is refilled |
| Refill.RefillStep | app.js:883-907 | one column of the loop extends the refilled prefix and the count of holes used |
| Refill.RefilledUpToNext | app.js:883-907 | the refilled prefix up to x + 1 is the prefix up to x with column x refilled |
| Scoring.GearCount | app.js:597-604 | the gear count never exceeds the number of entries |
| Scoring.Multiplier | app.js:610 | the reference multiplier: 1.0 plus 0.5 per gear (no contract; Scoring.MatchScoreExact and Engine.Game.ScoreFor state its use) |
| Scoring.MatchScore | app.js:615 | the reference score: `Math.round` of base * entries * multiplier (no contract; Scoring.MatchScoreExact gives its exact integer value) |
| Scoring.ParticleDraws | app.js:795-809 | the reference count of particle draws: four per particle, ten particles per gear entry and five per other (no contract; Engine.Game.CreateMatchParticles is proved against it) |
| Scoring.GearCountExtremes | app.js:597-604 | the count is 0 exactly when no entry is a gear, and the full length exactly when every entry is one |
| Scoring.RoundHalf | app.js:615 | rounding half a whole number is integer division of its successor by 2 |
| Scoring.MatchScoreExact | app.js:610-615 | the score is exactly (base * k * (2 + g) + 1) / 2, and base * k without gears |
| Scoring.MoreGearsScoreMore | app.js:610-615 | with a non-negative base, one more gear in the same match never lowers the score |
| Scoring.ThreeWithOneGear | app.js:610-615 | three cells with one gear at base 100 give multiplier 1.5 and 450 points |
| Scoring.ClearedHasHole | app.js:625-627 | clearing at least one grid cell leaves a hole, so the refill after a clear always moves |
| Scoring.Cleared | app.js:625-627 | the reference grid after the clear: every cell named by an entry emptied; the contract states the shape is kept |
| Rebalance.TargetInRange | app.js:1217-1218 | the target floor(n * n * pct / 100) lies between 0 and n * n for a percentage in 0..100 |
| Rebalance.CountRowUpdate | app.js:1234-1249 | changing one cell changes the row's count by the change in that cell's gear flag |
| Rebalance.CountGearsUpdate | app.js:1234-1249 | changing one cell changes the grid's count by the change in that cell's gear flag |
| Rebalance.CountRowSame | app.js:1221-1227 | rows that agree on which cells are gears hold as many gears |
| Rebalance.CountGearsSame | app.js:1221-1227 | grids that agree on which cells are gears hold as many gears |
| Rebalance.RowHasPlain | app.js:1230-1234 | a row with fewer gears than cells has a plain cell |
| Rebalance.RowHasGear | app.js:1241-1245 | a row with a gear has a gear cell |
| Rebalance.SomeCellToChange | app.js:1230-1251 | below n * n gears some cell is plain, and above zero some cell is a gear, so each rebalancing loop always has a cell to flip |
| Rebalance.PlainRowExists | app.js:1230-1234 | fewer gears than cells means some cell is plain |
| Rebalance.GearRowExists | app.js:1241-1245 | a positive count means some cell is a gear |
| Rebalance.AdjustedUp | app.js:1234-1236 | turning one more plain piece into a gear keeps the grid an upward adjustment of the start |
| Rebalance.AdjustedDown | app.js:1245-1249 | turning one more gear into a stopped plain piece keeps the grid a downward adjustment of the start |
| Engine.ProgressKeepsGears | app.js:644-710 | part way through the connection pass the gear positions are those of the start |
| Engine.FloodSkip | app.js:651-652 | skipping a visited cell taken from the queue keeps the flood invariant |
| Engine.FloodVisit | app.js:653-675 | visiting a gear and queueing its unvisited gear neighbours keeps the flood invariant |
| Engine.FloodDone | app.js:650-676 | when the queue empties, the group starts at the seed and is closed under gear adjacency; each member has a gear neighbour exactly when the group has more than one gear |
| Engine.DirectStep | app.js:657 | giving a visited gear its checkerboard direction keeps the pass's progress and the gear positions |
| Engine.LinkStep | app.js:687-706 | the lines added for one gear of a group are its lines right and down to gears, so the recorded lines stay exactly the lines of the finished gears, each once |
| Engine.ClosedUnion | app.js:640-713 | adding a group closed under adjacency to a closed visited set keeps it closed |
| Engine.LoneProgress | app.js:708-710 | a lone gear with rotating set false is finished |
| Engine.LoneRecords | app.js:708-710 | a lone gear adds no line and is not put on the turning list |
| Engine.TurnOnStep | app.js:680-684 | setting rotating on a member of a larger group finishes it |
| Engine.TurnStep | app.js:683 | putting a member of a larger group on the turning list keeps that list exactly the meshed finished gears, each once |
| Engine.NewGridStill | app.js:1148-1168 | no gear of a new grid spins after the connection pass |
| Engine.StillCell | app.js:644-710 | the connection pass never starts a gear spinning |
| Engine.GearStateKeepsCount | app.js:1254 | the connection pass after rebalancing keeps the gear count |
| Engine.AllMatchedNext | app.js:1157-1165 | one more attempt whose grid had a match extends "every earlier attempt had a match" |
| Engine.AfterRound | app.js:513-531 | the grid after a round with matches is n by n with no empty cell |
| Engine.Game.DrawPiece | app.js:915-928 | the piece is the factory's piece for the next two draws, and two draws are used |
| Engine.Game.IsBoardIdle | app.js:276-286 | idle exactly when nothing animates, no drag is on and no gear on the grid spins |
| Engine.Game.Rotated | app.js:448-452 | the rebuilt line is the line shifted by the amount |
| Engine.Game.MoveRowOrColumn | app.js:445-474 | a valid index rotates that row or column and marks the board animating; an invalid index leaves the grid and clears animating |
| Engine.Game.EndDrag | app.js:406-443 | a move happens exactly when a drag is on, a line is locked and the clamped delta is non-zero; it then moves the line by the raw delta and counts one move; the drag always ends, and without a drag nothing changes |
| Engine.Game.FinishMoveAnimation | app.js:497-500 | at the end of the animation the board is released and the gear state and connections are those of the moved grid |
| Engine.Game.UpdateGearConnections | app.js:633-726 | the grid becomes the gear state of the old grid; the lines are exactly one per adjacent gear pair and the turning list is exactly the gears with a gear neighbour, each once |
| Engine.Game.ConnectRow | app.js:641-712 | after row y every gear of that row is finished and recorded, and earlier work is kept |
| Engine.Game.ConnectGroup | app.js:642-711 | a cell of the row either was visited already or becomes finished, with its group recorded |
| Engine.Game.FinishGroup | app.js:677-710 | after the flood, a group's rotating flags, turning-list entries and lines are recorded for all its members |
| Engine.Game.FloodGroup | app.js:645-676 | the flood returns the seed's whole gear group, distinct and not yet visited, closed under adjacency; each member has a gear neighbour exactly when the group has two or more; every member has its direction |
| Engine.Game.QueueGearNeighbours | app.js:660-675 | the queue keeps its old entries in front and gains exactly the unvisited gear neighbours of the cell |
| Engine.Game.MarkGroup | app.js:678-684 | every member of a group of two or more rotates and is on the turning list once |
| Engine.Game.LinkGroup | app.js:685-707 | the lines of the group are added: right and down from each member to a member, each once |
| Engine.Game.TriggerGearSpin | app.js:758-784 | exactly the gears reachable from (x, y) along the recorded lines spin with the fixed duration; nothing else changes |
| Engine.Game.ProcessMatches | app.js:595-630 | gearCount counts the gear entries; multiplier = 1.0 + 0.5 * gearCount; the score grows by round(base * entries * multiplier); the particles advance the draw counter by their draws; the grid is the old grid with every gear linked to a matched gear spinning and every matched cell emptied |
| Engine.Game.CreateMatchParticles | app.js:795-809 | the draw counter advances by four draws for each of ten particles per gear entry and five per other entry |
| Engine.Game.CreateParticle | app.js:811-841 | a particle takes the next four draws; its size lies in [3, 8), its speed in [50, 150) and its duration in [500, 1500) |
| Engine.Game.ScoreFor | app.js:610-615 | the multiplier is 1.0 + 0.5 per gear; the points are exactly (base * count * (2 + gears) + 1) / 2 in integers, i.e. half of base * count * (2 + gears), rounded half up |
| Engine.Game.ClearMatched | app.js:625-627 | exactly the cells named by the entries become empty |
| Engine.Game.PullDown | app.js:888-895 | the nearest piece above the hole moves into it and leaves a hole; with nothing above, the grid is unchanged and every cell above is empty |
| Engine.Game.SettleColumn | app.js:885-898 | the column becomes its settled column (the pieces in order at the bottom, the holes on top) and no other column changes; a pull means the column had a hole |
| Engine.Game.SettleRow | app.js:886-897 | one row of the pull loop keeps the pieces and extends the region from y down where no hole has a piece above |
| Engine.Game.FillCell | app.js:902-905 | a hole gets the next new piece and uses two draws; a piece stays |
| Engine.Game.FillColumn | app.js:901-906 | the column's holes get the next pieces top to bottom; one draw pair per hole; the result reports whether the column had a hole |
| Engine.Game.RefillColumn | app.js:884-906 | the column becomes its settled column filled from the next draws; it reports a move exactly when the column had a hole |
| Engine.Game.RefillNext | app.js:883-907 | one column of the loop extends the refilled prefix of the grid and the draws used |
| Engine.Game.RefillColumns | app.js:881-907 | every column is settled and filled from the draws in column order; it reports a move exactly when the grid had a hole |
| Engine.Game.RefillBoard | app.js:879-913 | no cell is empty afterwards; a move is reported exactly when a cell was empty, and then the gear state and connections are those of the refilled grid; otherwise nothing changes |
| Engine.Game.CheckForMatches | app.js:513-531 | the entries are exactly the matched cells of the old grid, each once; without a match the turn ends and nothing else changes; with one, the multiplier and score are set and the grid is the cleared, refilled and reconnected grid with no empty cell, refilled from the draw d that follows the particles' draws |
| Engine.Game.ClearRound | app.js:516-527 | processing then refilling sets the multiplier and score, clears the grid, refills it from the draw d after the particles' draws, uses the draws of its holes and reconnects the gears |
| Engine.Game.DrawRow | app.js:1149-1152 | a row of n new pieces from the next 2n draws, in order |
| Engine.Game.NewGrid | app.js:1147-1153 | the grid is the new grid drawn from the next n * n pieces |
| Engine.Game.AddRow | app.js:1149-1152 | one more row extends the prefix of the new grid |
| Engine.Game.RerollRow | app.js:1160-1162 | row y is redrawn in order from the next draws; the other rows are unchanged |
| Engine.Game.RerollGrid | app.js:1159-1163 | the re-roll gives the grid drawn from the next n * n pieces |
| Engine.Game.DrawStartGrid | app.js:1147-1165 | after at most 100 re-rolls every earlier attempt had a match; the last has none unless 100 were used; the grid is that attempt's |
| Engine.Game.Retry | app.js:1157-1164 | one re-roll moves from attempt a to attempt a + 1 and rescans it |
| Engine.Game.ResetGame | app.js:1128-1171 | score, moves and multiplier are reset and nothing animates; the grid is the gear state of the last attempt, which has no match unless all 100 re-rolls were used; the connections are recorded and no gear spins |
| Engine.Game.CountGearCells | app.js:1221-1227 | the count is the number of gears on the grid |
| Engine.Game.AddGears | app.js:1230-1238 | the count rises to the target (or stays when already there) only by turning plain pieces into gears |
| Engine.Game.MakeGear | app.js:1234-1236 | one plain piece becomes a gear and the count goes up by one |
| Engine.Game.RemoveGears | app.js:1241-1251 | the count falls to the target (or stays) only by turning gears into stopped plain pieces |
| Engine.Game.MakePlain | app.js:1245-1249 | one gear becomes a stopped plain piece and the count goes down by one |
| Engine.Game.RegenerateGears | app.js:1214-1255 | the gear count becomes floor(n * n * pct / 100) by flips in one direction only; the grid is the reconnected gear state of the flipped grid and the connections are recorded |

## Left out

- Rendering, animation easing, the screen shake, the score pop-ups and everything on the DOM are not modelled. Of the particles, only their random draws and values are modelled (Engine.Game.CreateParticle). Their elements, positions and animation frames are left out, since they draw nothing further and change no engine state.
- Timers are not modelled. The cascade `checkForMatches` schedules with `setTimeout` is modelled one round at a time (Engine.Game.CheckForMatches). The model does not claim that the cascade ends: each refill draws fresh random pieces.
- `startDrag` and `dragMove` are not modelled. They turn pointer pixels into a locked line and a delta. Engine.Game.EndDrag takes the rounded delta in whole cells as a parameter.
- `performance.now()` and the `spinStartTime` stamp are not modelled. The spin's expiry when a gear is drawn (app.js:1016-1026) is not modelled either, so nothing in the model stops a gear spinning.
- `logError`, the `try`/`catch` recovery, and branches that cannot be reached on a full grid are not modelled. These are the re-check of `isGear` inside the flood (app.js:655), the error and retry passes of `triggerGearSpin` (app.js:767-780) and the logging pass of `updateGearConnections` (app.js:714-720).
- Engine.Game.MoveRowOrColumn: requires amount >= -n, which is what the clamp in `endDrag` guarantees. For amounts below -n the source writes to negative array indices, and that case is not modelled.
- Engine.Game.RegenerateGears: the random pick loop is modelled as a choice of a cell of the needed kind, and it consumes no draws. Misses only consume random numbers, and with them the loop's termination is not provable.
- Floating point is not modelled. The multiplier is an exact real and `Math.round` is floor(x + 1/2). The displayed `toFixed(1)` text is left out.
- `updateSettings`, `resizeGameBoard` and changing the configuration during a game are not modelled. The configuration is a constant of the game object.
- Engine.Game.constructor: sets the fields to their initial values but builds no grid. The page calls `resetGame` at start-up (app.js:140), which Engine.Game.ResetGame models.
