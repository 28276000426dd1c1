/** The fruit slicer's hand trail: the recent hand positions, at most
    twelve, each at least three pixels from the one before. */
module Trail {
  import opened Common
  import opened GameStore

  const MaxTrail: nat := 12
  const MinStep: real := 3.0

  /** A trail point: position in window pixels and the time it was taken. */
  datatype TrailPoint = TrailPoint(x: real, y: real, id: int)

  function StepSq(a: TrailPoint, b: TrailPoint): real
  {
    (b.x - a.x) * (b.x - a.x) + (b.y - a.y) * (b.y - a.y)
  }

  /** Consecutive points are at least three pixels apart. */
  predicate Spaced(t: seq<TrailPoint>)
  {
    forall i :: 0 < i < |t| ==> !SqrtLess(StepSq(t[i - 1], t[i]), MinStep)
  }

  predicate TrailOk(t: seq<TrailPoint>)
  {
    |t| <= MaxTrail && Spaced(t)
  }

  /** `slice(-12)`: the newest twelve. */
  function Newest(t: seq<TrailPoint>): (r: seq<TrailPoint>)
    ensures |r| == Min(|t|, MaxTrail)
    ensures r == t[|t| - |r|..]
  {
    if |t| <= MaxTrail then t else t[|t| - MaxTrail..]
  }

  /** The effect run on a new hand position (`None` when no hand is seen). */
  function AfterHand(t: seq<TrailPoint>, hand: Option<(real, real)>, now: int): seq<TrailPoint>
  {
    match hand
    case None => t
    case Some(p) =>
      var q := TrailPoint(p.0, p.1, now);
      if t != [] && SqrtLess(StepSq(t[|t| - 1], q), MinStep) then t
      else Newest(t + [q])
  }

  /** A trail keeps its bound and its spacing under every update; no hand,
      or a hand less than three pixels from the last point, leaves it as it
      was; otherwise the new point is recorded last and nothing else but
      the oldest point may be lost. */
  lemma HandUpdate(t: seq<TrailPoint>, hand: Option<(real, real)>, now: int)
    requires TrailOk(t)
    ensures TrailOk(AfterHand(t, hand, now))
    ensures hand.None? ==> AfterHand(t, hand, now) == t
    ensures hand.Some? && t == [] ==> AfterHand(t, hand, now) == [TrailPoint(hand.value.0, hand.value.1, now)]
    ensures hand.Some? && t != [] && SqrtLess(StepSq(t[|t| - 1], TrailPoint(hand.value.0, hand.value.1, now)), MinStep) ==>
      AfterHand(t, hand, now) == t
    ensures hand.Some? ==>
      var q := TrailPoint(hand.value.0, hand.value.1, now);
      t == [] || !SqrtLess(StepSq(t[|t| - 1], q), MinStep) ==>
        AfterHand(t, hand, now) == Newest(t + [q]) && AfterHand(t, hand, now)[|AfterHand(t, hand, now)| - 1] == q
    ensures var r := AfterHand(t, hand, now);
      hand.Some? && r != t ==>
        r[|r| - 1] == TrailPoint(hand.value.0, hand.value.1, now) &&
        r[..|r| - 1] == (if |t| == MaxTrail then t[1..] else t)
  {
    if hand.Some? {
      var q := TrailPoint(hand.value.0, hand.value.1, now);
      var r := AfterHand(t, hand, now);
      if r != t {
        var u := t + [q];
        assert Spaced(u);
        SpacedSuffix(u, |u| - |r|);
      }
    }
  }

  lemma SpacedSuffix(t: seq<TrailPoint>, k: nat)
    requires Spaced(t) && k <= |t|
    ensures Spaced(t[k..])
  {
    forall i | 0 < i < |t| - k
      ensures !SqrtLess(StepSq(t[k..][i - 1], t[k..][i]), MinStep)
    {
      assert t[k..][i - 1] == t[k + i - 1] && t[k..][i] == t[k + i];
    }
  }

  class TrailBuffer {
    var positions: seq<TrailPoint>

    constructor()
      ensures positions == []
    {
      positions := [];
    }

    /** The trail-update effect: the guards, then append-and-trim. */
    method Update(hand: Option<(real, real)>, now: int)
      requires TrailOk(positions)
      modifies this
      ensures positions == AfterHand(old(positions), hand, now)
      ensures TrailOk(positions)
    {
      HandUpdate(positions, hand, now);
      if hand.None? {
        return;
      }
      var newTrailPos := TrailPoint(hand.value.0, hand.value.1, now);
      if |positions| > 0 {
        var lastPos := positions[|positions| - 1];
        if SqrtLess(StepSq(lastPos, newTrailPos), MinStep) {
          return;
        }
      }
      positions := Newest(positions + [newTrailPos]);
    }
  }

  /** The game-over screen's condition. */
  predicate ShowGameOver(gameOver: bool, timeLeft: int)
  {
    gameOver || timeLeft <= 0
  }

  /** With the store's clock reading zero exactly at game over, the second
      half of the condition adds nothing: the screen shows when the game is
      over. */
  lemma GameOverShownIffOver(s: Store)
    requires StoreOk(s)
    ensures ShowGameOver(s.gameOver, s.timeLeft) <==> s.gameOver
  {
  }
}
