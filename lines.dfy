/**
 * Functions on one line of the grid (a row or a column read as a
 * sequence): the cyclic shift a drag performs, the clamp of the drag delta,
 * runs of equal colours, and the gravity compaction of a column.
 */
module Lines {
  import opened Pieces

  // ---------------------------------------------------------------------
  // Cyclic shift
  // ---------------------------------------------------------------------

  /**
   * The line the shift loop rebuilds: the element at index x moves to index
   * (x + amount) mod n, so index j receives what stood at (j - amount) mod n.
   */
  function Shift<T>(s: seq<T>, amount: int): (r: seq<T>)
    ensures |r| == |s|
  {
    seq(|s|, j requires 0 <= j < |s| => s[(j - amount) % |s|])
  }

  /** Euclidean remainder is unchanged by adding whole periods. */
  lemma {:induction false} ModPeriod(a: int, k: int, n: int)
    requires n > 0
    ensures (a + k * n) % n == a % n
  {
    var q := (a + k * n) / n;
    var r := (a + k * n) % n;
    assert a + k * n == q * n + r;
    assert a == (q - k) * n + r;
    ModUnique(a, q - k, r, n);
  }

  /** The quotient/remainder pair of Euclidean division is unique. */
  lemma {:induction false} ModUnique(a: int, q: int, r: int, n: int)
    requires n > 0 && 0 <= r < n && a == q * n + r
    ensures a % n == r && a / n == q
  {
    var q', r' := a / n, a % n;
    assert a == q' * n + r';
    assert (q - q') * n == r' - r;
    assert q - q' >= 1 ==> (q - q') * n >= n;
    assert q - q' <= -1 ==> (q - q') * n <= -n;
  }

  /**
   * The destination index (i + amount + n) mod n of the shift loop and the
   * source index (j - amount) mod n of `Shift` undo each other.
   */
  lemma {:induction false} WrapInverse(n: int, amount: int, i: int)
    requires n > 0 && 0 <= i < n
    ensures ((i + amount + n) % n - amount) % n == i
    ensures ((i - amount) % n + amount + n) % n == i
  {
    var j, q := (i + amount + n) % n, (i + amount + n) / n;
    assert i + amount + n == q * n + j;
    assert j - amount == (1 - q) * n + i;
    ModUnique(j - amount, 1 - q, i, n);
    var k, p := (i - amount) % n, (i - amount) / n;
    assert i - amount == p * n + k;
    assert k + amount + n == (1 - p) * n + i;
    ModUnique(k + amount + n, 1 - p, i, n);
  }

  /** Where the shift loop writes the element at index x. */
  function Dst(n: int, amount: int, x: int): int
    requires n > 0
  {
    (x + amount + n) % n
  }

  /** Where `Shift` reads the element for index j. */
  function Src(n: int, amount: int, j: int): int
    requires n > 0
  {
    (j - amount) % n
  }

  /** The indices of a line whose source index is below x already hold their shifted element. */
  ghost predicate ShiftedBelow<T>(line: seq<T>, r: seq<T>, amount: int, x: int)
    requires |line| > 0
  {
    |r| == |line| &&
    forall j :: 0 <= j < |line| && Src(|line|, amount, j) < x ==> r[j] == line[Src(|line|, amount, j)]
  }

  /** One step of the shift loop: writing element x at its destination extends the shifted part. */
  lemma {:induction false} ShiftedStep<T>(line: seq<T>, r: seq<T>, amount: int, x: int)
    requires |line| > 0 && 0 <= x < |line| && ShiftedBelow(line, r, amount, x)
    ensures ShiftedBelow(line, r[Dst(|line|, amount, x) := line[x]], amount, x + 1)
  {
    var n := |line|;
    var d := Dst(n, amount, x);
    var r' := r[d := line[x]];
    forall j | 0 <= j < n && Src(n, amount, j) < x + 1
      ensures r'[j] == line[Src(n, amount, j)]
    {
      WrapInverse(n, amount, x);
      WrapInverse(n, amount, j);
      if j == d {
        assert Src(n, amount, j) == x;
      } else {
        assert Src(n, amount, j) != x;
      }
    }
  }

  /** Once every source index is below n the line is the shifted line. */
  lemma {:induction false} ShiftedAll<T>(line: seq<T>, r: seq<T>, amount: int)
    requires |line| > 0 && ShiftedBelow(line, r, amount, |line|)
    ensures r == Shift(line, amount)
  {
    var n := |line|;
    forall j | 0 <= j < n
      ensures r[j] == Shift(line, amount)[j]
    {
      assert 0 <= Src(n, amount, j) < n;
    }
  }

  /** The piece at index x lands at (x + amount) mod n. */
  lemma {:induction false} ShiftMoves<T>(s: seq<T>, amount: int, x: int)
    requires 0 <= x < |s|
    ensures Shift(s, amount)[(x + amount) % |s|] == s[x]
  {
    var n := |s|;
    var j := (x + amount) % n;
    var q := (x + amount) / n;
    assert x + amount == q * n + j;
    assert j - amount == x + (-q) * n;
    ModPeriod(x, -q, n);
    ModUnique(x, 0, x, n);
  }

  /** Shifting back by the negated amount restores the line. */
  lemma {:induction false} ShiftInverse<T>(s: seq<T>, amount: int)
    ensures Shift(Shift(s, amount), -amount) == s
  {
    var n := |s|;
    var r := Shift(Shift(s, amount), -amount);
    forall j | 0 <= j < n
      ensures r[j] == s[j]
    {
      ShiftMoves(s, amount, j);
    }
  }

  /** Shifts whose amounts differ by whole periods give the same line. */
  lemma {:induction false} ShiftPeriodic<T>(s: seq<T>, amount: int, k: int)
    ensures Shift(s, amount + k * |s|) == Shift(s, amount)
  {
    var n := |s|;
    forall j | 0 <= j < n
      ensures Shift(s, amount + k * n)[j] == Shift(s, amount)[j]
    {
      assert j - (amount + k * n) == (j - amount) + (-k) * n;
      ModPeriod(j - amount, -k, n);
    }
  }

  /** Shifting by zero changes nothing. */
  lemma {:induction false} ShiftZero<T>(s: seq<T>)
    ensures Shift(s, 0) == s
  {
    var n := |s|;
    forall j | 0 <= j < n
      ensures Shift(s, 0)[j] == s[j]
    {
      ModUnique(j, 0, j, n);
    }
  }

  /** Shifting by any multiple of the line length changes nothing. */
  lemma {:induction false} ShiftByPeriods<T>(s: seq<T>, k: int)
    ensures Shift(s, k * |s|) == s
  {
    var n := |s|;
    forall j | 0 <= j < n
      ensures Shift(s, k * n)[j] == s[j]
    {
      assert j - k * n == j + (-k) * n;
      ModPeriod(j, -k, n);
      ModUnique(j, 0, j, n);
    }
  }

  /** A shift is a rotation: the last `amount mod n` elements move to the front. */
  lemma {:induction false} ShiftIsRotation<T>(s: seq<T>, amount: int)
    requires |s| > 0
    ensures var k := amount % |s|; Shift(s, amount) == s[|s| - k..] + s[..|s| - k]
  {
    var n := |s|;
    var k := amount % n;
    var rot := s[n - k..] + s[..n - k];
    forall j | 0 <= j < n
      ensures Shift(s, amount)[j] == rot[j]
    {
      var q := amount / n;
      assert amount == q * n + k;
      assert j - amount == (j - k) + (-q) * n;
      ModPeriod(j - k, -q, n);
      if j < k {
        assert j - k == (j - k + n) + (-1) * n;
        ModPeriod(j - k + n, -1, n);
        ModUnique(j - k + n, 0, j - k + n, n);
      } else {
        ModUnique(j - k, 0, j - k, n);
      }
    }
  }

  /** A shift keeps every piece of the line, each exactly as often. */
  lemma {:induction false} ShiftPermutes<T>(s: seq<T>, amount: int)
    ensures multiset(Shift(s, amount)) == multiset(s)
  {
    if |s| > 0 {
      var n := |s|;
      var k := amount % n;
      ShiftIsRotation(s, amount);
      assert s == s[..n - k] + s[n - k..];
      assert multiset(s) == multiset(s[..n - k]) + multiset(s[n - k..]);
    }
  }

  // ---------------------------------------------------------------------
  // The drag-delta clamp
  // ---------------------------------------------------------------------

  /** JavaScript's `%`: the remainder takes the sign of the dividend. */
  function JsRem(a: int, b: int): (r: int)
    requires b > 0
    ensures -b < r < b
    ensures a >= 0 ==> r == a % b
  {
    if a >= 0 then a % b else -((-a) % b)
  }

  /** The two clamping statements of the drag release, one after the other. */
  function ClampDelta(cells: int, n: int): int
    requires n > 0
  {
    var c := if cells > n then JsRem(cells, n) else cells;
    if c < -n then JsRem(c, n) else c
  }

  /**
   * The clamped delta lies in [-n, n] (so x + delta + n is never negative),
   * it shifts the line exactly as the raw delta would, and it is zero only
   * for a zero delta or a whole number of turns beyond n.
   */
  lemma {:induction false} ClampDeltaSound(cells: int, n: int)
    requires n > 0
    ensures -n <= ClampDelta(cells, n) <= n
    ensures (ClampDelta(cells, n) - cells) % n == 0
    ensures ClampDelta(cells, n) == 0 <==> cells == 0 || ((cells > n || cells < -n) && cells % n == 0)
  {
    var r := ClampDelta(cells, n);
    if cells > n {
      var q := cells / n;
      assert cells == q * n + cells % n;
      assert r - cells == (-q) * n;
      ModUnique(r - cells, -q, 0, n);
    } else if cells < -n {
      var a := -cells;
      var q := a / n;
      assert a == q * n + a % n;
      assert r == -(a % n);
      assert r - cells == q * n;
      ModUnique(r - cells, q, 0, n);
      if a % n == 0 {
        assert cells == (-q) * n + 0;
        ModUnique(cells, -q, 0, n);
      } else {
        assert cells == (-q - 1) * n + (n - a % n);
        ModUnique(cells, -q - 1, n - a % n, n);
      }
    } else {
      ModUnique(0, 0, 0, n);
    }
  }

  /** Shifting a line by the clamped delta is shifting it by the raw delta. */
  lemma {:induction false} ClampedShiftIsShift<T>(s: seq<T>, cells: int)
    requires |s| > 0
    ensures Shift(s, ClampDelta(cells, |s|)) == Shift(s, cells)
  {
    var n := |s|;
    var r := ClampDelta(cells, n);
    ClampDeltaSound(cells, n);
    var k := (r - cells) / n;
    assert r - cells == k * n + (r - cells) % n;
    assert r == cells + k * n;
    ShiftPeriodic(s, cells, k);
  }

  // ---------------------------------------------------------------------
  // Runs of equal colours
  // ---------------------------------------------------------------------

  /** One past the last index of the run of equal colours that contains i. */
  function RunEnd(s: seq<string>, i: int): (e: int)
    requires 0 <= i < |s|
    ensures i < e <= |s|
    decreases |s| - i
  {
    if i + 1 < |s| && s[i + 1] == s[i] then RunEnd(s, i + 1) else i + 1
  }

  /** The first index of the run of equal colours that contains i. */
  function RunStart(s: seq<string>, i: int): (b: int)
    requires 0 <= i < |s|
    ensures 0 <= b <= i
  {
    if i > 0 && s[i - 1] == s[i] then RunStart(s, i - 1) else i
  }

  /** Every index in [lo, hi) holds the colour at lo. */
  predicate SameColor(s: seq<string>, lo: int, hi: int)
    requires 0 <= lo <= hi <= |s|
  {
    forall k :: lo <= k < hi ==> s[k] == s[lo]
  }

  /** [lo, hi) is a maximal run: one colour, and a different colour (or the edge) on each side. */
  predicate MaximalRun(s: seq<string>, lo: int, hi: int)
    requires 0 <= lo < hi <= |s|
  {
    && SameColor(s, lo, hi)
    && (lo == 0 || s[lo - 1] != s[lo])
    && (hi == |s| || s[hi] != s[lo])
  }

  /** RunEnd finds the end of the run from any of its members. */
  lemma {:induction false} RunEndIs(s: seq<string>, i: int, hi: int)
    requires 0 <= i < hi <= |s|
    requires SameColor(s, i, hi) && (hi == |s| || s[hi] != s[i])
    ensures RunEnd(s, i) == hi
    decreases hi - i
  {
    if i + 1 < hi {
      assert s[i + 1] == s[i];
      RunEndIs(s, i + 1, hi);
    }
  }

  /** RunStart finds the start of the run from any of its members. */
  lemma {:induction false} RunStartIs(s: seq<string>, lo: int, i: int)
    requires 0 <= lo <= i < |s|
    requires SameColor(s, lo, i + 1) && (lo == 0 || s[lo - 1] != s[lo])
    ensures RunStart(s, i) == lo
  {
    if lo < i {
      assert s[i - 1] == s[lo] && s[i] == s[lo];
      RunStartIs(s, lo, i - 1);
    }
  }

  /** RunStart and RunEnd bound the maximal run that contains i. */
  lemma {:induction false} RunIsMaximal(s: seq<string>, i: int)
    requires 0 <= i < |s|
    ensures MaximalRun(s, RunStart(s, i), RunEnd(s, i))
    ensures s[RunStart(s, i)] == s[i]
    decreases |s| - i
  {
    RunEndSame(s, i);
    RunStartSame(s, i);
  }

  lemma {:induction false} RunEndSame(s: seq<string>, i: int)
    requires 0 <= i < |s|
    ensures forall k :: i <= k < RunEnd(s, i) ==> s[k] == s[i]
    ensures RunEnd(s, i) == |s| || s[RunEnd(s, i)] != s[i]
    decreases |s| - i
  {
    if i + 1 < |s| && s[i + 1] == s[i] {
      RunEndSame(s, i + 1);
    }
  }

  lemma {:induction false} RunStartSame(s: seq<string>, i: int)
    requires 0 <= i < |s|
    ensures forall k :: RunStart(s, i) <= k <= i ==> s[k] == s[i]
    ensures RunStart(s, i) == 0 || s[RunStart(s, i) - 1] != s[i]
  {
    if i > 0 && s[i - 1] == s[i] {
      RunStartSame(s, i - 1);
    }
  }

  /** All members of one run report the same run. */
  lemma {:induction false} RunOf(s: seq<string>, i: int, c: int)
    requires 0 <= i < |s|
    requires RunStart(s, i) <= c < RunEnd(s, i)
    ensures RunStart(s, c) == RunStart(s, i) && RunEnd(s, c) == RunEnd(s, i)
  {
    var lo, hi := RunStart(s, i), RunEnd(s, i);
    RunIsMaximal(s, i);
    RunEndIs(s, c, hi);
    RunStartIs(s, lo, c);
  }

  /** Index i lies in a maximal run of at least m equal colours. */
  predicate InLongRun(s: seq<string>, i: int, m: int)
    requires 0 <= i < |s|
  {
    RunEnd(s, i) - RunStart(s, i) >= m
  }

  /**
   * Reference reading of InLongRun: i lies inside SOME window of at least m
   * equal colours. Both directions hold.
   */
  lemma {:induction false} InLongRunIffWindow(s: seq<string>, i: int, m: int)
    requires 0 <= i < |s|
    ensures InLongRun(s, i, m) <==>
      exists lo, hi :: 0 <= lo <= i < hi <= |s| && hi - lo >= m && SameColor(s, lo, hi)
  {
    var b, e := RunStart(s, i), RunEnd(s, i);
    RunIsMaximal(s, i);
    if InLongRun(s, i, m) {
      assert 0 <= b <= i < e <= |s| && e - b >= m && SameColor(s, b, e);
    }
    if exists lo, hi :: 0 <= lo <= i < hi <= |s| && hi - lo >= m && SameColor(s, lo, hi) {
      var lo, hi :| 0 <= lo <= i < hi <= |s| && hi - lo >= m && SameColor(s, lo, hi);
      WindowInsideRun(s, i, lo, hi);
    }
  }

  /** A window of one colour around i lies inside the maximal run of i. */
  lemma {:induction false} WindowInsideRun(s: seq<string>, i: int, lo: int, hi: int)
    requires 0 <= lo <= i < hi <= |s| && SameColor(s, lo, hi)
    ensures RunStart(s, i) <= lo && hi <= RunEnd(s, i)
  {
    RunIsMaximal(s, i);
  }

  /** A run that begins after the run of x ends starts no earlier than that end. */
  lemma {:induction false} RunStartAfter(s: seq<string>, x: int, c: int)
    requires 0 <= x < |s| && RunEnd(s, x) <= c < |s|
    ensures RunStart(s, c) >= RunEnd(s, x)
  {
    var e := RunEnd(s, x);
    RunEndSame(s, x);
    RunStartSame(s, c);
    assert s[e - 1] == s[x] && s[e] != s[x];
  }

  /**
   * What the left-to-right scan has marked after looking at start x: a cell
   * is marked once the start of its long run has been passed, and the scan
   * at x marks the tail [x, RunEnd) exactly when that tail is long enough.
   */
  lemma {:induction false} MarkStep(s: seq<string>, m: int, x: int, c: int)
    requires 0 <= x < |s| && 0 <= c < |s|
    ensures (InLongRun(s, c, m) && RunStart(s, c) < x + 1)
        <==> (InLongRun(s, c, m) && RunStart(s, c) < x) || (x <= c < RunEnd(s, x) && RunEnd(s, x) - x >= m)
  {
    if x <= c < RunEnd(s, x) {
      RunOf(s, x, c);
    } else if c >= RunEnd(s, x) {
      RunStartAfter(s, x, c);
    }
  }

  /** A run of at least m starts no later than |s| - m. */
  lemma RunStartBound(s: seq<string>, i: int, m: int)
    requires 0 <= i < |s| && InLongRun(s, i, m)
    ensures RunStart(s, i) <= |s| - m
  {
  }

  // ---------------------------------------------------------------------
  // Gravity compaction of one column (top to bottom)
  // ---------------------------------------------------------------------

  /** The pieces of a column, top to bottom, without the empty cells. */
  function Survivors(c: seq<Cell>): (r: seq<Cell>)
    ensures |r| <= |c|
    ensures forall k :: 0 <= k < |r| ==> r[k].Some?
  {
    if c == [] then []
    else if c[|c| - 1].Some? then Survivors(c[..|c| - 1]) + [c[|c| - 1]]
    else Survivors(c[..|c| - 1])
  }

  /** The number of empty cells in a column. */
  function Holes(c: seq<Cell>): (h: nat)
    ensures h + |Survivors(c)| == |c|
  {
    if c == [] then 0
    else if c[|c| - 1].Some? then Holes(c[..|c| - 1])
    else Holes(c[..|c| - 1]) + 1
  }

  /** `k` empty cells. */
  function Empties(k: nat): (r: seq<Cell>)
    ensures |r| == k && forall j :: 0 <= j < k ==> r[j] == None
  {
    seq(k, _ => None)
  }

  /** The column after gravity: its holes on top, its pieces in order at the bottom. */
  function Settled(c: seq<Cell>): (r: seq<Cell>)
    ensures |r| == |c|
  {
    Empties(Holes(c)) + Survivors(c)
  }

  lemma {:induction false} SurvivorsAppend(a: seq<Cell>, b: seq<Cell>)
    ensures Survivors(a + b) == Survivors(a) + Survivors(b)
    ensures Holes(a + b) == Holes(a) + Holes(b)
    decreases |b|
  {
    if b == [] {
      assert a + b == a;
    } else {
      var b' := b[..|b| - 1];
      assert (a + b)[..|a + b| - 1] == a + b';
      SurvivorsAppend(a, b');
    }
  }

  lemma {:induction false} SurvivorsOfEmpties(k: nat)
    ensures Survivors(Empties(k)) == [] && Holes(Empties(k)) == k
  {
    if k > 0 {
      assert Empties(k)[..k - 1] == Empties(k - 1);
      SurvivorsOfEmpties(k - 1);
    }
  }

  lemma {:induction false} SurvivorsOfFull(c: seq<Cell>)
    requires forall k :: 0 <= k < |c| ==> c[k].Some?
    ensures Survivors(c) == c && Holes(c) == 0
  {
    if c != [] {
      SurvivorsOfFull(c[..|c| - 1]);
      assert c[..|c| - 1] + [c[|c| - 1]] == c;
    }
  }

  /** A column has no hole exactly when every cell holds a piece. */
  lemma {:induction false} NoHolesIffFull(c: seq<Cell>)
    ensures Holes(c) == 0 <==> forall k :: 0 <= k < |c| ==> c[k].Some?
  {
    if c != [] {
      var init := c[..|c| - 1];
      NoHolesIffFull(init);
      assert forall k :: 0 <= k < |init| ==> init[k] == c[k];
    }
  }

  /**
   * A column whose every hole has only holes above it is already settled.
   * This is what the bottom-up pull loop ends with.
   */
  lemma {:induction false} SettledWhenHolesOnTop(c: seq<Cell>)
    requires forall i, j :: 0 <= j < i < |c| && c[i] == None ==> c[j] == None
    ensures c == Settled(c)
  {
    if c != [] {
      var init, last := c[..|c| - 1], c[|c| - 1];
      if last == None {
        assert c == Empties(|c|);
        SurvivorsOfEmpties(|c|);
      } else {
        SettledWhenHolesOnTop(init);
        assert c == init + [last];
      }
    }
  }

  /** Settling keeps the pieces and their order, and puts the holes on top. */
  lemma {:induction false} SettledSound(c: seq<Cell>)
    ensures Survivors(Settled(c)) == Survivors(c)
    ensures forall i :: 0 <= i < Holes(c) ==> Settled(c)[i] == None
    ensures forall i :: Holes(c) <= i < |c| ==> Settled(c)[i].Some?
  {
    SurvivorsOfEmpties(Holes(c));
    SurvivorsOfFull(Survivors(c));
    SurvivorsAppend(Empties(Holes(c)), Survivors(c));
  }

  /** Sliding one piece down past a block of holes keeps the pieces and their order. */
  lemma {:induction false} SlideKeepsSurvivors(a: seq<Cell>, p: Cell, holes: seq<Cell>, b: seq<Cell>)
    requires p.Some? && forall k :: 0 <= k < |holes| ==> holes[k] == None
    ensures Survivors(a + [p] + holes + b) == Survivors(a + holes + [p] + b)
  {
    assert holes == Empties(|holes|);
    SurvivorsOfEmpties(|holes|);
    assert Survivors([p]) == [p] by {
      assert [p][..0] == [];
    }
    var x1 := a + [p];
    var x2 := x1 + holes;
    SurvivorsAppend(a, [p]);
    SurvivorsAppend(x1, holes);
    SurvivorsAppend(x2, b);
    var y1 := a + holes;
    var y2 := y1 + [p];
    SurvivorsAppend(a, holes);
    SurvivorsAppend(y1, [p]);
    SurvivorsAppend(y2, b);
    assert Survivors(x1) + [] == Survivors(x1);
    assert Survivors(a) + [] == Survivors(a);
    assert Survivors(x2) == Survivors(a) + [p];
    assert Survivors(y2) == Survivors(a) + [p];
  }

  /** Moving the nearest piece above a hole down into it does not change the pieces or their order. */
  lemma {:induction false} PullKeepsSurvivors(c: seq<Cell>, above: int, y: int)
    requires 0 <= above < y < |c|
    requires c[above].Some? && forall k :: above < k <= y ==> c[k] == None
    ensures Survivors(c[y := c[above]][above := None]) == Survivors(c)
  {
    var d := c[y := c[above]][above := None];
    var a, p, holes, b := c[..above], c[above], c[above + 1..y + 1], c[y + 1..];
    assert c == a + [p] + holes + b;
    forall k | 0 <= k < |holes|
      ensures holes[k] == None
    {
      assert holes[k] == c[above + 1 + k];
    }
    var e := a + holes + [p] + b;
    forall i | 0 <= i < |d|
      ensures d[i] == e[i]
    {
      if above <= i < y {
        assert e[i] == holes[i - above] == c[i + 1];
      }
    }
    assert d == e;
    SlideKeepsSurvivors(a, p, holes, b);
  }

  /** From index y down, every hole has only holes above it. */
  ghost predicate HolesOnTopFrom(c: seq<Cell>, y: int) {
    forall i, j :: y <= i < |c| && 0 <= j < i && c[i] == None ==> c[j] == None
  }

  /**
   * One step of the bottom-up pull loop at index y: a piece stays, a hole
   * with only holes above stays, and a hole gets the nearest piece above it.
   * Each keeps the pieces and their order and extends the settled part to y.
   */
  lemma {:induction false} PullStep(c: seq<Cell>, y: int, above: int)
    requires 0 <= y < |c| && HolesOnTopFrom(c, y + 1)
    requires -1 <= above < y
    requires above < 0 ==> c[y].Some? || forall j :: 0 <= j < y ==> c[j] == None
    requires above >= 0 ==> c[y] == None && c[above].Some? && forall k :: above < k < y ==> c[k] == None
    ensures var d := if above < 0 then c else c[y := c[above]][above := None];
      Survivors(d) == Survivors(c) && |d| == |c| && HolesOnTopFrom(d, y)
  {
    if above >= 0 {
      PullKeepsSurvivors(c, above, y);
      var d := c[y := c[above]][above := None];
      assert forall i :: y < i < |d| ==> d[i] == c[i];
      assert forall i :: y < i < |c| ==> c[i].Some?;
    }
  }

  /** Settling keeps the number of holes. */
  lemma {:induction false} HolesOfSettled(c: seq<Cell>)
    ensures Holes(Settled(c)) == Holes(c)
  {
    SurvivorsOfEmpties(Holes(c));
    SurvivorsOfFull(Survivors(c));
    SurvivorsAppend(Empties(Holes(c)), Survivors(c));
  }

  /** A column of settled shape with the pieces of c is the settled c. */
  lemma {:induction false} SettledFromSurvivors(c: seq<Cell>, d: seq<Cell>)
    requires |d| == |c| && Survivors(d) == Survivors(c) && HolesOnTopFrom(d, 0)
    ensures d == Settled(c)
  {
    SettledWhenHolesOnTop(d);
  }
}
