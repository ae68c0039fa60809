/**
 * The trail as a value: the ordered cells of the star, head first. One
 * advance puts a new head in front and, unless a growth is pending, drops the
 * tail cell. The lemmas say what that does to length, order, distinctness and
 * the self-collision test the game applies afterwards.
 */
module Trail {
  import opened Grid

  /** The trail after one advance along `dir`; `grow` keeps the old tail. */
  function Advance(trail: seq<Cell>, dir: Cell, grow: bool): (r: seq<Cell>)
    requires |trail| > 0
    ensures |r| == |trail| + (if grow then 1 else 0)
    ensures r[0] == Add(trail[0], dir)
    ensures forall i :: 0 < i < |r| ==> r[i] == trail[i - 1]
  {
    [Add(trail[0], dir)] + (if grow then trail else trail[..|trail| - 1])
  }

  /** The head lies on another cell of the trail. */
  predicate HitsSelf(trail: seq<Cell>)
    requires |trail| > 0
    ensures HitsSelf(trail) <==> exists i :: 0 < i < |trail| && trail[i] == trail[0]
  {
    trail[0] in trail[1..]
  }

  /** No cell occurs twice. */
  predicate Distinct(trail: seq<Cell>)
  {
    forall i, j :: 0 <= i < j < |trail| ==> trail[i] != trail[j]
  }

  /** Without growth every cell but the old tail is kept, each moved one place back. */
  lemma AdvanceShifts(trail: seq<Cell>, dir: Cell)
    requires |trail| > 0
    ensures Advance(trail, dir, false) == [Add(trail[0], dir)] + trail[..|trail| - 1]
  {
    var r := Advance(trail, dir, false);
    assert r[1..] == trail[..|trail| - 1];
  }

  /** With growth the whole old trail follows the new head. */
  lemma AdvanceGrows(trail: seq<Cell>, dir: Cell)
    requires |trail| > 0
    ensures Advance(trail, dir, true) == [Add(trail[0], dir)] + trail
  {
    var r := Advance(trail, dir, true);
    assert r[1..] == trail;
  }

  /**
   * A distinct trail stays distinct after an advance that does not run into
   * itself.
   */
  lemma AdvanceKeepsDistinct(trail: seq<Cell>, dir: Cell, grow: bool)
    requires |trail| > 0 && Distinct(trail)
    requires !HitsSelf(Advance(trail, dir, grow))
    ensures Distinct(Advance(trail, dir, grow))
  {
    var r := Advance(trail, dir, grow);
    forall i, j | 0 <= i < j < |r|
      ensures r[i] != r[j]
    {
      if i == 0 {
        assert r[j] == r[1..][j - 1];
      } else {
        assert r[i] == trail[i - 1] && r[j] == trail[j - 1];
      }
    }
  }

  /** Cells stay on the board when the new head is on the board. */
  lemma AdvanceKeepsOnBoard(trail: seq<Cell>, dir: Cell, grow: bool)
    requires |trail| > 0 && AllOnBoard(trail)
    requires OnBoard(Add(trail[0], dir))
    ensures AllOnBoard(Advance(trail, dir, grow))
  {
    var r := Advance(trail, dir, grow);
    forall i | 0 <= i < |r|
      ensures OnBoard(r[i])
    {
      if i > 0 {
        assert r[i] == trail[i - 1];
      }
    }
  }

  /**
   * The tail cell is dropped before the self-collision test, so a head that
   * moves onto the cell the tail has just left does not collide.
   */
  lemma FollowingTheTailIsSafe(trail: seq<Cell>, dir: Cell)
    requires |trail| >= 2 && Distinct(trail)
    requires Add(trail[0], dir) == trail[|trail| - 1]
    ensures !HitsSelf(Advance(trail, dir, false))
  {
    var r := Advance(trail, dir, false);
    forall k | 0 <= k < |r| - 1
      ensures r[1..][k] != r[0]
    {
      assert r[1..][k] == trail[k];
    }
  }

  /**
   * Heading straight back onto the cell behind the head collides as soon as
   * that cell survives the advance: when the trail grows or has three or more
   * cells.
   */
  lemma ReversalHitsNeck(trail: seq<Cell>, dir: Cell, grow: bool)
    requires |trail| >= 2
    requires Add(trail[0], dir) == trail[1]
    requires grow || |trail| >= 3
    ensures HitsSelf(Advance(trail, dir, grow))
  {
    var r := Advance(trail, dir, grow);
    assert r[2] == trail[1] && r[1..][1] == r[2];
  }

  /** A two-cell trail without growth simply swaps ends when reversed. */
  lemma ShortReversalIsSafe(trail: seq<Cell>, dir: Cell)
    requires |trail| == 2 && Distinct(trail)
    requires Add(trail[0], dir) == trail[1]
    ensures Advance(trail, dir, false) == [trail[1], trail[0]]
    ensures !HitsSelf(Advance(trail, dir, false))
  {
    var r := Advance(trail, dir, false);
    assert r[1..] == [trail[0]];
  }
}
