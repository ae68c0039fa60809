/**
 * The star trail entity: its cells (head first), heading, pending growth,
 * respawn flag and start time, and the rotation counter. StarState is its
 * value; the pure functions below say what each operation does to that value,
 * and class Star performs the same operations in place.
 */
module StarTrail {
  import opened Grid
  import Trail

  datatype StarState = StarState(
    positions: seq<Cell>,
    direction: Cell,
    addSegment: bool,
    isRespawning: bool,
    respawnStart: int,
    rotation: int)

  /** What every reachable star satisfies. */
  predicate WellFormed(s: StarState)
  {
    |s.positions| > 0 && IsHeading(s.direction) && 0 <= s.rotation < 360
  }

  /** reset_position: one cell at the centre, heading east, nothing pending. */
  function Reset(s: StarState): (r: StarState)
    ensures r.positions == [Cell(10, 10)] && r.direction == Cell(1, 0) && !r.addSegment
    ensures r.(positions := s.positions, direction := s.direction, addSegment := s.addSegment) == s
    ensures 0 <= s.rotation < 360 ==> WellFormed(r)
  {
    s.(positions := [Center], direction := East, addSegment := false)
  }

  /** A freshly constructed star. */
  function NewStar(): (r: StarState)
    ensures WellFormed(r) && r.positions == [Cell(10, 10)] && r.direction == Cell(1, 0)
    ensures !r.addSegment && !r.isRespawning && r.respawnStart == 0 && r.rotation == 0
  {
    Reset(StarState([], East, false, false, 0, 0))
  }

  /** move: nothing while respawning, else advance one cell and turn 5 degrees. */
  function Moved(s: StarState): (r: StarState)
    requires |s.positions| > 0
    ensures s.isRespawning ==> r == s
    ensures r.direction == s.direction && r.isRespawning == s.isRespawning
    ensures r.respawnStart == s.respawnStart
    ensures !s.isRespawning ==>
      && |r.positions| == |s.positions| + (if s.addSegment then 1 else 0)
      && r.positions[0] == Add(s.positions[0], s.direction)
      && (forall i :: 0 < i < |r.positions| ==> r.positions[i] == s.positions[i - 1])
      && !r.addSegment
      && 0 <= r.rotation < 360
  {
    if s.isRespawning then s
    else s.(positions := Trail.Advance(s.positions, s.direction, s.addSegment),
            addSegment := false,
            rotation := (s.rotation + 5) % 360)
  }

  /** grow: only marks a growth for the next move. */
  function Grown(s: StarState): (r: StarState)
    ensures r.addSegment && r.positions == s.positions
    ensures r.(addSegment := s.addSegment) == s
  {
    s.(addSegment := true)
  }

  /** start_respawn at time `now`. */
  function RespawnStarted(s: StarState, now: int): (r: StarState)
    ensures r.isRespawning && r.positions == s.positions && r.direction == s.direction
    ensures r.(isRespawning := s.isRespawning, respawnStart := s.respawnStart) == s
    ensures !RespawnDue(r, now + RespawnTime - 1) && RespawnDue(r, now + RespawnTime)
  {
    s.(isRespawning := true, respawnStart := now)
  }

  /** The answer of check_respawn at time `now`. */
  predicate RespawnDue(s: StarState, now: int)
  {
    s.isRespawning && now - s.respawnStart >= RespawnTime
  }

  /** The star after check_respawn at time `now`. */
  function RespawnChecked(s: StarState, now: int): (r: StarState)
    ensures !RespawnDue(s, now) ==> r == s
    ensures RespawnDue(s, now) ==>
      && !r.isRespawning && r.positions == [Center] && r.direction == East && !r.addSegment
      && r.respawnStart == s.respawnStart && r.rotation == s.rotation
    ensures !RespawnDue(r, now)
  {
    if RespawnDue(s, now) then Reset(s.(isRespawning := false)) else s
  }

  lemma NewStarIsCentred()
    ensures WellFormed(NewStar())
    ensures NewStar().positions == [Cell(10, 10)] && NewStar().direction == Cell(1, 0)
    ensures !NewStar().addSegment && !NewStar().isRespawning && NewStar().rotation == 0
  {
  }

  /** Reset leaves exactly the centre cell, heading east, no growth pending. */
  lemma ResetCentres(s: StarState)
    ensures Reset(s).positions == [Cell(10, 10)]
    ensures Reset(s).direction == East && !Reset(s).addSegment
    ensures Reset(s).isRespawning == s.isRespawning && Reset(s).respawnStart == s.respawnStart
    ensures 0 <= s.rotation < 360 ==> WellFormed(Reset(s))
  {
  }

  /**
   * Without pending growth a move keeps the length: new head = old head plus
   * heading, followed by the old trail minus its last cell.
   */
  lemma MoveWithoutGrowth(s: StarState)
    requires |s.positions| > 0 && !s.isRespawning && !s.addSegment
    ensures |Moved(s).positions| == |s.positions|
    ensures Moved(s).positions[0] == Add(s.positions[0], s.direction)
    ensures Moved(s).positions[1..] == s.positions[..|s.positions| - 1]
  {
    Trail.AdvanceShifts(s.positions, s.direction);
  }

  /**
   * With a growth pending a move adds exactly one cell, keeps every old cell
   * behind the new head, and clears the flag so that the next move does not
   * grow again.
   */
  lemma MoveWithGrowth(s: StarState)
    requires |s.positions| > 0 && !s.isRespawning && s.addSegment
    ensures |Moved(s).positions| == |s.positions| + 1
    ensures Moved(s).positions[0] == Add(s.positions[0], s.direction)
    ensures Moved(s).positions[1..] == s.positions
    ensures !Moved(s).addSegment
    ensures |Moved(Moved(s)).positions| == |s.positions| + 1
  {
    Trail.AdvanceGrows(s.positions, s.direction);
  }

  /** A move while respawning changes nothing. */
  lemma MoveWhileRespawning(s: StarState)
    requires |s.positions| > 0 && s.isRespawning
    ensures Moved(s) == s
  {
  }

  /** Moves keep the star well formed; the rotation stays in [0, 360). */
  lemma MoveKeepsWellFormed(s: StarState)
    requires WellFormed(s)
    ensures WellFormed(Moved(s))
    ensures Moved(s).direction == s.direction && Moved(s).isRespawning == s.isRespawning
  {
  }

  /** grow touches only the flag; the trail changes at the next move. */
  lemma GrowOnlyMarks(s: StarState)
    ensures Grown(s).positions == s.positions && Grown(s).addSegment
    ensures Grown(s).(addSegment := s.addSegment) == s
  {
  }

  /**
   * check_respawn answers false and changes nothing unless the star is
   * respawning and RespawnTime seconds have passed; when it answers true the
   * star is reset and no longer respawning, so a second call answers false.
   */
  lemma RespawnCheck(s: StarState, now: int, later: int)
    ensures !RespawnDue(s, now) ==> RespawnChecked(s, now) == s
    ensures RespawnDue(s, now) <==> s.isRespawning && now >= s.respawnStart + 3
    ensures RespawnDue(s, now) ==>
      var r := RespawnChecked(s, now);
      !r.isRespawning && r.positions == [Center] && r.direction == East && !r.addSegment &&
      !RespawnDue(r, later)
  {
  }

  /** A respawn started at `start` completes exactly from start + 3 on. */
  lemma RespawnTimeline(s: StarState, start: int, now: int)
    ensures RespawnDue(RespawnStarted(s, start), now) <==> now >= start + RespawnTime
  {
  }

  /** The trail entity, updated in place. */
  class Star {
    var positions: seq<Cell>
    var direction: Cell
    var addSegment: bool
    var isRespawning: bool
    var respawnStart: int
    var rotation: int

    function View(): StarState
      reads this
    {
      StarState(positions, direction, addSegment, isRespawning, respawnStart, rotation)
    }

    ghost predicate Valid()
      reads this
    {
      WellFormed(View())
    }

    constructor ()
      ensures View() == NewStar() && Valid()
    {
      positions := [];
      direction := East;
      addSegment := false;
      isRespawning := false;
      respawnStart := 0;
      rotation := 0;
      new;
      ResetPosition();
    }

    method ResetPosition()
      modifies this
      ensures View() == Reset(old(View()))
    {
      positions := [Center];
      direction := East;
      addSegment := false;
    }

    method Move()
      requires Valid()
      modifies this
      ensures View() == Moved(old(View())) && Valid()
    {
      if isRespawning {
        return;
      }
      var current := positions[0];
      var newPosition := Add(current, direction);
      if addSegment {
        positions := [newPosition] + positions;
        addSegment := false;
      } else {
        positions := positions[..|positions| - 1];
        positions := [newPosition] + positions;
      }
      rotation := (rotation + 5) % 360;
    }

    method Grow()
      modifies this
      ensures View() == Grown(old(View()))
    {
      addSegment := true;
    }

    method StartRespawn(now: int)
      modifies this
      ensures View() == RespawnStarted(old(View()), now)
    {
      isRespawning := true;
      respawnStart := now;
    }

    method CheckRespawn(now: int) returns (done: bool)
      modifies this
      ensures done == RespawnDue(old(View()), now)
      ensures View() == RespawnChecked(old(View()), now)
    {
      if isRespawning && now - respawnStart >= RespawnTime {
        isRespawning := false;
        ResetPosition();
        return true;
      }
      return false;
    }
  }
}
