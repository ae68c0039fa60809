/**
 * Food placement after the star eats: draw a random cell and draw again while
 * the cell is part of the trail. The random draws are given as a sequence in
 * the order they would be produced; placement takes the first free one.
 */
module Food {
  import opened Grid

  /** Some draw is a cell outside the trail, so the redraw loop stops. */
  predicate HasFree(draws: seq<Cell>, trail: seq<Cell>)
  {
    exists i :: 0 <= i < |draws| && draws[i] !in trail
  }

  /** The first draw that is not on the trail. */
  function FirstFree(draws: seq<Cell>, trail: seq<Cell>): (c: Cell)
    requires HasFree(draws, trail)
    ensures c !in trail
    ensures exists k :: (0 <= k < |draws| && draws[k] == c &&
                         forall j :: 0 <= j < k ==> draws[j] in trail)
    decreases |draws|
  {
    if draws[0] !in trail then draws[0]
    else
      assert HasFree(draws[1..], trail) by {
        var i :| 0 <= i < |draws| && draws[i] !in trail;
        assert draws[1..][i - 1] == draws[i];
      }
      var c := FirstFree(draws[1..], trail);
      var k :| 0 <= k < |draws[1..]| && draws[1..][k] == c &&
        forall j :: 0 <= j < k ==> draws[1..][j] in trail;
      assert draws[k + 1] == c;
      assert forall j :: 0 <= j < k + 1 ==> draws[j] in trail by {
        forall j | 0 <= j < k + 1 ensures draws[j] in trail {
          if j > 0 { assert draws[j] == draws[1..][j - 1]; }
        }
      }
      c
  }

  /** The first free draw is the one at the first index that is free. */
  lemma {:induction false} FirstFreeAt(draws: seq<Cell>, trail: seq<Cell>, k: nat)
    requires k < |draws| && draws[k] !in trail
    requires forall j :: 0 <= j < k ==> draws[j] in trail
    ensures HasFree(draws, trail) && FirstFree(draws, trail) == draws[k]
  {
    if k > 0 {
      assert draws[1..][k - 1] == draws[k];
      forall j | 0 <= j < k - 1 ensures draws[1..][j] in trail {
        assert draws[1..][j] == draws[j + 1];
      }
      FirstFreeAt(draws[1..], trail, k - 1);
    }
  }

  /** Draws made by randint(0, GridCount-1) lie on the board, so does the food. */
  lemma FirstFreeOnBoard(draws: seq<Cell>, trail: seq<Cell>)
    requires HasFree(draws, trail) && AllOnBoard(draws)
    ensures OnBoard(FirstFree(draws, trail))
  {
    var k :| 0 <= k < |draws| && draws[k] == FirstFree(draws, trail) &&
      forall j :: 0 <= j < k ==> draws[j] in trail;
  }

  /** The redraw loop: keep drawing while the food cell is on the trail. */
  method PlaceFood(draws: seq<Cell>, trail: seq<Cell>) returns (food: Cell)
    requires HasFree(draws, trail)
    ensures food == FirstFree(draws, trail)
  {
    var i := 0;
    food := draws[0];
    while food in trail
      invariant 0 <= i < |draws| && food == draws[i]
      invariant forall j :: 0 <= j < i ==> draws[j] in trail
      invariant exists k :: i <= k < |draws| && draws[k] !in trail
      decreases |draws| - i
    {
      i := i + 1;
      food := draws[i];
    }
    FirstFreeAt(draws, trail, i);
  }
}
