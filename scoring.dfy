/**
 * Clearing a match: how the list of matched cells becomes a multiplier, a
 * score and a grid with those cells emptied.
 */
module Scoring {
  import opened Pieces
  import opened Board
  import opened Matches

  /** The multiplier with no gears cleared. */
  const BaseMultiplier: real := 1.0

  /** What each cleared gear adds to the multiplier. */
  const GearMultiplierBonus: real := 0.5

  /** The number of entries whose piece is a gear. */
  function GearCount(ms: seq<Match>): (k: nat)
    ensures k <= |ms|
  {
    if ms == [] then 0
    else GearCount(ms[..|ms| - 1]) + (if ms[|ms| - 1].piece.isGear then 1 else 0)
  }

  /** No gear among the entries gives count 0; nothing but gears gives the full length. */
  lemma {:induction false} GearCountExtremes(ms: seq<Match>)
    ensures GearCount(ms) == 0 <==> forall i :: 0 <= i < |ms| ==> !ms[i].piece.isGear
    ensures GearCount(ms) == |ms| <==> forall i :: 0 <= i < |ms| ==> ms[i].piece.isGear
  {
    if ms != [] {
      var init := ms[..|ms| - 1];
      GearCountExtremes(init);
      assert forall i :: 0 <= i < |init| ==> init[i] == ms[i];
    }
  }

  /** The count over a list is the count over its front plus that over its back. */
  lemma {:induction false} GearCountSnoc(ms: seq<Match>, i: int)
    requires 0 <= i < |ms|
    ensures GearCount(ms[..i + 1]) == GearCount(ms[..i]) + (if ms[i].piece.isGear then 1 else 0)
  {
    assert ms[..i + 1][..i] == ms[..i];
  }

  /**
   * The random draws the particles of the entries take: ten particles per
   * gear entry and five per other entry, each drawing its size, angle,
   * speed and duration.
   */
  function ParticleDraws(ms: seq<Match>): nat {
    4 * (10 * GearCount(ms) + 5 * (|ms| - GearCount(ms)))
  }

  /** The multiplier after clearing g gears. */
  function Multiplier(g: int): real {
    BaseMultiplier + g as real * GearMultiplierBonus
  }

  /** The points for clearing k cells among which g were gears, rounded with `Math.round`. */
  function MatchScore(baseScore: int, k: int, g: int): int {
    Round(baseScore as real * k as real * Multiplier(g))
  }

  /** Halving then rounding half up is integer division of the successor by two. */
  lemma {:induction false} RoundHalf(m: int)
    ensures Round(m as real / 2.0) == (m + 1) / 2
  {
    var q, r := (m + 1) / 2, (m + 1) % 2;
    assert m + 1 == 2 * q + r && (r == 0 || r == 1);
    assert m as real / 2.0 + 0.5 == q as real + r as real / 2.0;
  }

  /**
   * The score is exact: base * k * (2 + g) halves, rounding half up. So
   * each gear adds half the base value of the match, and a match without
   * gears scores base * k.
   */
  lemma {:induction false} MatchScoreExact(baseScore: int, k: int, g: int)
    ensures MatchScore(baseScore, k, g) == (baseScore * k * (2 + g) + 1) / 2
    ensures g == 0 ==> MatchScore(baseScore, k, g) == baseScore * k
  {
    var bk := baseScore * k;
    var m := bk * (2 + g);
    assert baseScore as real * k as real == bk as real;
    assert bk as real * Multiplier(g) == (bk as real) * (2 + g) as real / 2.0;
    assert (bk as real) * (2 + g) as real == m as real;
    RoundHalf(m);
    if g == 0 {
      assert m == 2 * bk;
    }
  }

  /** With a non-negative base, clearing one more gear in the same match never lowers the score. */
  lemma {:induction false} MoreGearsScoreMore(baseScore: int, k: int, g: int)
    requires baseScore >= 0 && k >= 0
    ensures MatchScore(baseScore, k, g + 1) >= MatchScore(baseScore, k, g)
  {
    MatchScoreExact(baseScore, k, g);
    MatchScoreExact(baseScore, k, g + 1);
    var bk := baseScore * k;
    assert bk >= 0;
    assert bk * (2 + (g + 1)) == bk * (2 + g) + bk;
  }

  /** Three cells with one gear at base 100: 450 points at multiplier 1.5. */
  lemma ThreeWithOneGear()
    ensures Multiplier(1) == 1.5 && MatchScore(100, 3, 1) == 450
  {
    MatchScoreExact(100, 3, 1);
  }

  /** The cells of the gear entries: the starts of the spins a clear sets off. */
  function GearStarts(ms: seq<Match>): set<Pos> {
    set i | 0 <= i < |ms| && ms[i].piece.isGear :: Pos(ms[i].x, ms[i].y)
  }

  /** One more entry adds its cell to the starts exactly when its piece is a gear. */
  lemma {:induction false} GearStartsSnoc(ms: seq<Match>, i: int)
    requires 0 <= i < |ms|
    ensures GearStarts(ms[..i + 1]) == GearStarts(ms[..i]) + (if ms[i].piece.isGear then {Pos(ms[i].x, ms[i].y)} else {})
  {
    var a, b := ms[..i], ms[..i + 1];
    assert forall k :: 0 <= k < i ==> b[k] == a[k];
    assert b[i] == ms[i];
  }

  /** The grid with every cell named by an entry emptied. */
  function Cleared(b: Board, ms: seq<Match>): (r: Board)
    ensures |r| == |b| && forall y :: 0 <= y < |b| ==> |r[y]| == |b[y]|
  {
    seq(|b|, y requires 0 <= y < |b| =>
      seq(|b[y]|, x requires 0 <= x < |b[y]| => if Pos(x, y) in Cells(ms) then None else b[y][x]))
  }

  /** Clearing at least one entry that names a grid cell leaves a hole. */
  lemma {:induction false} ClearedHasHole(b: Board, ms: seq<Match>)
    requires |ms| > 0 && InBounds(b, Pos(ms[0].x, ms[0].y))
    ensures !Full(Cleared(b, ms))
  {
    assert Cells(ms)[0] == Pos(ms[0].x, ms[0].y);
    assert Cleared(b, ms)[ms[0].y][ms[0].x] == None;
  }
}
