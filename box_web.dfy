/** The browser edition of the boxing game: a title, a timed round and a
    game-over screen; fists placed by knuckle averages and by position on
    screen; a target that jumps to a random spot at least three world units
    away, retrying at most ten times. World coordinates are reals. */
module BoxWeb {
  import opened Common

  datatype WebScreen = Title | Playing | GameOver

  datatype Vec = Vec(x: real, y: real)

  /** A detected landmark in normalised image coordinates (depth is only
      drawn, so it is not kept). */
  datatype Landmark = Landmark(x: real, y: real)

  const WorldWidth: real := 18.0
  const TargetSize: real := 2.0
  const HitDistance: real := 1.5
  const MinTargetMoveDistance: real := 3.0
  const MaxMoveAttempts: nat := 10
  const PunchCooldownMs: int := 200
  const Knuckles: seq<nat> := [5, 9, 13, 17]

  function DistSq(a: Vec, b: Vec): real
  {
    (a.x - b.x) * (a.x - b.x) + (a.y - b.y) * (a.y - b.y)
  }

  /** The world is 18 units wide and as tall as the window's aspect allows. */
  datatype World = World(width: real, height: real)

  function WorldFor(aspect: real): (w: World)
    requires aspect > 0.0
    ensures w.width == WorldWidth && w.height > 0.0 && w.height * aspect == WorldWidth
  {
    World(WorldWidth, WorldWidth / aspect)
  }

  // ---------------------------------------------------------------------
  // Knuckle averaging and handedness

  /** A landmark the detector reported (an index past the end reads as
      missing). */
  predicate Present(lms: seq<Option<Landmark>>, i: nat)
  {
    i < |lms| && lms[i].Some?
  }

  /** The per-hand record: averages once at least one knuckle was seen,
      the plain sums (zero) otherwise. */
  datatype DetectedHand = DetectedHand(avgX: real, avgY: real, mcpCount: nat)

  /** Sums and count over the first `n` of the four knuckles. */
  function KnuckleTotals(lms: seq<Option<Landmark>>, n: nat): (t: DetectedHand)
    requires n <= |Knuckles|
    ensures t.mcpCount <= n
  {
    if n == 0 then DetectedHand(0.0, 0.0, 0)
    else
      var t := KnuckleTotals(lms, n - 1);
      var k := Knuckles[n - 1];
      if Present(lms, k) then DetectedHand(t.avgX + lms[k].value.x, t.avgY + lms[k].value.y, t.mcpCount + 1)
      else t
  }

  function Detected(lms: seq<Option<Landmark>>): DetectedHand
  {
    var t := KnuckleTotals(lms, |Knuckles|);
    if t.mcpCount > 0 then DetectedHand(t.avgX / t.mcpCount as real, t.avgY / t.mcpCount as real, t.mcpCount)
    else t
  }

  /** A hand counts as seen exactly when one of its knuckles was reported. */
  lemma {:induction false} CountZeroIffNoKnuckle(lms: seq<Option<Landmark>>, n: nat)
    requires n <= |Knuckles|
    ensures KnuckleTotals(lms, n).mcpCount == 0 <==> forall k :: 0 <= k < n ==> !Present(lms, Knuckles[k])
  {
    if n > 0 {
      CountZeroIffNoKnuckle(lms, n - 1);
    }
  }

  /** Landmarks are normalised to the image: both coordinates in [0, 1]. */
  predicate InImage(lms: seq<Option<Landmark>>)
  {
    forall i :: 0 <= i < |lms| && lms[i].Some? ==> 0.0 <= lms[i].value.x <= 1.0 && 0.0 <= lms[i].value.y <= 1.0
  }

  lemma {:induction false} TotalsBetween(lms: seq<Option<Landmark>>, n: nat)
    requires n <= |Knuckles| && InImage(lms)
    ensures var t := KnuckleTotals(lms, n);
      0.0 <= t.avgX <= t.mcpCount as real && 0.0 <= t.avgY <= t.mcpCount as real
  {
    if n > 0 {
      TotalsBetween(lms, n - 1);
    }
  }

  /** The average of the knuckles that were seen lies inside the image. */
  lemma AverageInImage(lms: seq<Option<Landmark>>)
    requires InImage(lms) && Detected(lms).mcpCount > 0
    ensures 0.0 <= Detected(lms).avgX <= 1.0 && 0.0 <= Detected(lms).avgY <= 1.0
  {
    var t := KnuckleTotals(lms, |Knuckles|);
    var c := t.mcpCount as real;
    assert Detected(lms) == DetectedHand(t.avgX / c, t.avgY / c, t.mcpCount);
    TotalsBetween(lms, |Knuckles|);
    QuotientBetween(t.avgX, c, 0.0, 1.0);
    QuotientBetween(t.avgY, c, 0.0, 1.0);
  }

  /** The loop over the four knuckle indices, then the division. */
  method AverageKnuckles(lms: seq<Option<Landmark>>) returns (hand: DetectedHand)
    ensures hand == Detected(lms)
  {
    hand := DetectedHand(0.0, 0.0, 0);
    for j := 0 to |Knuckles|
      invariant hand == KnuckleTotals(lms, j)
    {
      var index := Knuckles[j];
      if index < |lms| && lms[index].Some? {
        hand := DetectedHand(hand.avgX + lms[index].value.x, hand.avgY + lms[index].value.y, hand.mcpCount + 1);
      }
    }
    if hand.mcpCount > 0 {
      hand := hand.(avgX := hand.avgX / hand.mcpCount as real, avgY := hand.avgY / hand.mcpCount as real);
    }
  }

  /** One record per detected hand, in detection order. */
  method DetectHands(hands: seq<seq<Option<Landmark>>>) returns (detected: seq<DetectedHand>)
    ensures |detected| == |hands|
    ensures forall i :: 0 <= i < |hands| ==> detected[i] == Detected(hands[i])
  {
    detected := [];
    for i := 0 to |hands|
      invariant |detected| == i
      invariant forall j :: 0 <= j < i ==> detected[j] == Detected(hands[j])
    {
      var hand := AverageKnuckles(hands[i]);
      detected := detected + [hand];
    }
  }

  /** Which detected hand drives which glove, by position alone: the
      indices of the right and the left hand, -1 for none. The camera image
      is mirrored, so the smaller image x is the player's right hand. */
  function Handedness(hs: seq<DetectedHand>): (r: (int, int))
    ensures -1 <= r.0 < |hs| && -1 <= r.1 < |hs|
    ensures r.0 != -1 ==> hs[r.0].mcpCount > 0
    ensures r.1 != -1 ==> hs[r.1].mcpCount > 0 && r.0 != -1 && r.0 != r.1
  {
    if |hs| == 1 && hs[0].mcpCount > 0 then (0, -1)
    else if |hs| == 2 && hs[0].mcpCount > 0 && hs[1].mcpCount > 0 then
      (if hs[0].avgX < hs[1].avgX then (0, 1) else (1, 0))
    else (-1, -1)
  }

  /** With two seen hands, the right glove takes the smaller image x and
      the left one the other; on a tie the second hand is the right one. */
  lemma HandednessOfTwo(a: DetectedHand, b: DetectedHand)
    requires a.mcpCount > 0 && b.mcpCount > 0
    ensures var r := Handedness([a, b]);
      r.0 != -1 && r.1 != -1 && [a, b][r.0].avgX <= [a, b][r.1].avgX
    ensures a.avgX == b.avgX ==> Handedness([a, b]) == (1, 0)
  {
  }

  /** Listing the two hands the other way round swaps the gloves, unless
      they tie. */
  lemma HandednessSwap(a: DetectedHand, b: DetectedHand)
    requires a.mcpCount > 0 && b.mcpCount > 0 && a.avgX != b.avgX
    ensures var r := Handedness([a, b]);
      Handedness([b, a]) == (1 - r.0, 1 - r.1)
  {
  }

  /** A lone hand is always the right one; three or more hands, or a pair
      with an unseen hand, drive no glove. */
  lemma HandednessOthers(hs: seq<DetectedHand>)
    ensures |hs| == 1 ==> Handedness(hs) == (if hs[0].mcpCount > 0 then (0, -1) else (-1, -1))
    ensures |hs| == 0 || |hs| > 2 ==> Handedness(hs) == (-1, -1)
    ensures |hs| == 2 && (hs[0].mcpCount == 0 || hs[1].mcpCount == 0) ==> Handedness(hs) == (-1, -1)
  {
  }

  /** Normalised image coordinates to world coordinates, mirrored on both
      axes about the centre. */
  function ToWorld(h: DetectedHand, w: World): Vec
  {
    Vec(-(h.avgX - 0.5) * w.width, -(h.avgY - 0.5) * w.height)
  }

  /** An average inside the image lands inside the world rectangle. */
  lemma ToWorldInside(h: DetectedHand, w: World)
    requires w.width > 0.0 && w.height > 0.0
    requires 0.0 <= h.avgX <= 1.0 && 0.0 <= h.avgY <= 1.0
    ensures -w.width / 2.0 <= ToWorld(h, w).x <= w.width / 2.0
    ensures -w.height / 2.0 <= ToWorld(h, w).y <= w.height / 2.0
  {
    HalfSpan(h.avgX, w.width);
    HalfSpan(h.avgY, w.height);
  }

  lemma HalfSpan(a: real, span: real)
    requires 0.0 <= a <= 1.0 && span > 0.0
    ensures -span / 2.0 <= -(a - 0.5) * span <= span / 2.0
  {
  }

  /** The image is mirrored: a smaller image x lands further right. */
  lemma ToWorldMirrored(h: DetectedHand, g: DetectedHand, w: World)
    requires w.width > 0.0 && h.avgX < g.avgX
    ensures ToWorld(h, w).x > ToWorld(g, w).x
  {
    ProductsOfPositives();
    assert Mul(g.avgX - h.avgX, w.width) > 0.0;
    assert ToWorld(h, w).x - ToWorld(g, w).x == (g.avgX - h.avgX) * w.width;
  }

  /** The world positions of the two gloves this frame. */
  function GloveSlots(hs: seq<DetectedHand>, w: World): (slots: seq<Option<Vec>>)
    ensures |slots| == 2
  {
    var (right, left) := Handedness(hs);
    [if right != -1 then Some(ToWorld(hs[right], w)) else None,
     if left != -1 then Some(ToWorld(hs[left], w)) else None]
  }

  /** One seen hand drives the right glove alone; two seen hands drive
      both gloves, one each, the left glove never to the right of the right
      one; anything else shows no glove. */
  lemma GloveSlotsOrdered(hs: seq<DetectedHand>, w: World)
    requires w.width > 0.0
    ensures GloveSlots(hs, w)[1].Some? ==> GloveSlots(hs, w)[0].Some?
    ensures GloveSlots(hs, w)[0].Some? && GloveSlots(hs, w)[1].Some? ==>
              GloveSlots(hs, w)[0].value.x >= GloveSlots(hs, w)[1].value.x
    ensures |hs| == 1 && hs[0].mcpCount > 0 ==> GloveSlots(hs, w) == [Some(ToWorld(hs[0], w)), None]
    ensures |hs| == 2 && hs[0].mcpCount > 0 && hs[1].mcpCount > 0 ==>
              GloveSlots(hs, w) == [Some(ToWorld(hs[0], w)), Some(ToWorld(hs[1], w))] ||
              GloveSlots(hs, w) == [Some(ToWorld(hs[1], w)), Some(ToWorld(hs[0], w))]
    ensures !(|hs| == 1 && hs[0].mcpCount > 0) && !(|hs| == 2 && hs[0].mcpCount > 0 && hs[1].mcpCount > 0) ==>
              GloveSlots(hs, w) == [None, None]
  {
  }

  // ---------------------------------------------------------------------
  // Target placement

  /** The rectangle the target's centre may take, and the excluded band
      around the middle. */
  datatype Area = Area(minX: real, maxX: real, minY: real, maxY: real, leftMaxX: real, rightMinX: real)

  function AreaOf(w: World): Area
  {
    var areaWidth := w.width * 0.8;
    var areaHeight := w.height * 0.7;
    var exclusion := areaWidth * 0.25;
    Area(-areaWidth / 2.0 + TargetSize / 2.0, areaWidth / 2.0 - TargetSize / 2.0,
         -areaHeight / 2.0 + TargetSize / 2.0, areaHeight / 2.0 - TargetSize / 2.0,
         -exclusion / 2.0, exclusion / 2.0)
  }

  /** The left and right ranges for x (before the fallback). */
  function LeftRange(a: Area): (real, real) { (a.minX, MinR(a.maxX, a.leftMaxX - TargetSize / 2.0)) }
  function RightRange(a: Area): (real, real) { (MaxR(a.minX, a.rightMinX + TargetSize / 2.0), a.maxX) }

  /** Three `Math.random()` draws: the side, then x, then y. */
  datatype Draw = Draw(side: real, x: real, y: real)

  predicate DrawOk(d: Draw)
  {
    0.0 <= d.side < 1.0 && 0.0 <= d.x < 1.0 && 0.0 <= d.y < 1.0
  }

  /** One candidate position. */
  function Candidate(a: Area, d: Draw): Vec
  {
    var x :=
      if d.side < 0.5 then
        var (lo, hi) := LeftRange(a);
        if hi > lo then Scaled(d.x, lo, hi) else Scaled(d.x, a.minX, a.leftMaxX)
      else
        var (lo, hi) := RightRange(a);
        if hi > lo then Scaled(d.x, lo, hi) else Scaled(d.x, a.rightMinX, a.maxX);
    Vec(x, Scaled(d.y, a.minY, a.maxY))
  }

  /** y always lies in the vertical range when it is not empty; x lies in
      the chosen side's range when that range is not empty. */
  lemma CandidateBounds(a: Area, d: Draw)
    requires DrawOk(d)
    ensures a.maxY > a.minY ==> a.minY <= Candidate(a, d).y < a.maxY
    ensures d.side < 0.5 && LeftRange(a).1 > LeftRange(a).0 ==>
              LeftRange(a).0 <= Candidate(a, d).x < LeftRange(a).1
    ensures d.side >= 0.5 && RightRange(a).1 > RightRange(a).0 ==>
              RightRange(a).0 <= Candidate(a, d).x < RightRange(a).1
  {
    if a.maxY > a.minY {
      ScaledBetween(d.y, a.minY, a.maxY);
    }
    CandidateXBounds(a, d);
  }

  lemma CandidateXBounds(a: Area, d: Draw)
    requires DrawOk(d)
    ensures d.side < 0.5 && LeftRange(a).1 > LeftRange(a).0 ==>
              LeftRange(a).0 <= Candidate(a, d).x < LeftRange(a).1
    ensures d.side >= 0.5 && RightRange(a).1 > RightRange(a).0 ==>
              RightRange(a).0 <= Candidate(a, d).x < RightRange(a).1
  {
    if d.side < 0.5 {
      var (lo, hi) := LeftRange(a);
      if hi > lo {
        ScaledBetween(d.x, lo, hi);
      }
    } else {
      var (lo, hi) := RightRange(a);
      if hi > lo {
        ScaledBetween(d.x, lo, hi);
      }
    }
  }

  /** In an 18-unit-wide world both side ranges are open, so the fallback
      ranges are never used. */
  lemma NoFallbackInWorld(height: real)
    ensures var a := AreaOf(World(WorldWidth, height));
      LeftRange(a) == (-6.2, -2.8) && RightRange(a) == (2.8, 6.2)
  {
  }

  /** Too close to the previous position: `distance < 3.0`. */
  predicate TooClose(c: Vec, prev: Vec)
  {
    SqrtLess(DistSq(c, prev), MinTargetMoveDistance)
  }

  /** The do-while from attempt `i` on: the position kept and the number
      of attempts made. */
  function Pick(a: Area, prev: Vec, draws: seq<Draw>, i: nat): (r: (Vec, nat))
    requires i < MaxMoveAttempts <= |draws|
    ensures i < r.1 <= MaxMoveAttempts
    ensures r.0 == Candidate(a, draws[r.1 - 1])
    ensures r.1 < MaxMoveAttempts ==> !TooClose(r.0, prev)
    ensures forall j :: i <= j < r.1 - 1 ==> TooClose(Candidate(a, draws[j]), prev)
    decreases MaxMoveAttempts - i
  {
    var c := Candidate(a, draws[i]);
    if TooClose(c, prev) && i + 1 < MaxMoveAttempts then Pick(a, prev, draws, i + 1) else (c, i + 1)
  }

  /** The warning fires after the tenth attempt even when that attempt
      found a position far enough away. */
  lemma WarnsAfterFarTenth(a: Area, prev: Vec, draws: seq<Draw>)
    requires MaxMoveAttempts <= |draws|
    requires forall j :: 0 <= j < MaxMoveAttempts - 1 ==> TooClose(Candidate(a, draws[j]), prev)
    requires !TooClose(Candidate(a, draws[MaxMoveAttempts - 1]), prev)
    ensures Pick(a, prev, draws, 0).1 == MaxMoveAttempts && !TooClose(Pick(a, prev, draws, 0).0, prev)
  {
    PickAllClose(a, prev, draws, 0);
  }

  lemma {:induction false} PickAllClose(a: Area, prev: Vec, draws: seq<Draw>, i: nat)
    requires i < MaxMoveAttempts <= |draws|
    requires forall j :: i <= j < MaxMoveAttempts - 1 ==> TooClose(Candidate(a, draws[j]), prev)
    ensures Pick(a, prev, draws, i) == (Candidate(a, draws[MaxMoveAttempts - 1]), MaxMoveAttempts)
    decreases MaxMoveAttempts - i
  {
    if i + 1 < MaxMoveAttempts {
      PickAllClose(a, prev, draws, i + 1);
    }
  }

  /** The first draw already far enough ends the loop at once. */
  lemma PickFirstFar(a: Area, prev: Vec, draws: seq<Draw>)
    requires MaxMoveAttempts <= |draws| && !TooClose(Candidate(a, draws[0]), prev)
    ensures Pick(a, prev, draws, 0) == (Candidate(a, draws[0]), 1)
  {
  }

  /** The position kept lies in the vertical range. */
  lemma PickInRange(a: Area, prev: Vec, draws: seq<Draw>)
    requires MaxMoveAttempts <= |draws| && forall j :: 0 <= j < |draws| ==> DrawOk(draws[j])
    requires a.maxY > a.minY
    ensures a.minY <= Pick(a, prev, draws, 0).0.y < a.maxY
  {
    var r := Pick(a, prev, draws, 0);
    CandidateBounds(a, draws[r.1 - 1]);
  }

  /** The do-while: at most ten candidates, stopping at the first one at
      least three units from the previous position. */
  method PickPosition(area: Area, prev: Vec, draws: seq<Draw>) returns (pos: Vec, attempts: nat)
    requires MaxMoveAttempts <= |draws|
    ensures (pos, attempts) == Pick(area, prev, draws, 0)
  {
    pos := Candidate(area, draws[0]);
    attempts := 1;
    while TooClose(pos, prev) && attempts < MaxMoveAttempts
      invariant 1 <= attempts <= MaxMoveAttempts
      invariant pos == Candidate(area, draws[attempts - 1])
      invariant Pick(area, prev, draws, attempts - 1) == Pick(area, prev, draws, 0)
      decreases MaxMoveAttempts - attempts
    {
      pos := Candidate(area, draws[attempts]);
      attempts := attempts + 1;
    }
  }

  // ---------------------------------------------------------------------
  // The script's module state, grouped

  /** `selectedDuration`, `remainingTime`, `lastTickTime`, and whether the
      interval timer is installed. */
  datatype Clock = Clock(selectedDuration: int, remainingTime: real, lastTickTime: int, timerRunning: bool)

  /** `score`, `current_round_hits`, `target_damage_stage`, `last_punch_time`. */
  datatype Tally = Tally(score: int, roundHits: int, stage: int, lastPunch: seq<int>)

  /** The target mesh's position and visibility, and the position it had
      before its last move. */
  datatype Target = Target(pos: Vec, prev: Vec, visible: bool)

  datatype Glove = Glove(pos: Vec, visible: bool)

  datatype WebState = WebState(screen: WebScreen, clock: Clock, tally: Tally,
                               target: Option<Target>, gloves: seq<Glove>, world: World)

  predicate WebOk(s: WebState)
  {
    |s.tally.lastPunch| == 2 && s.tally.score == s.tally.roundHits >= 0 &&
    s.tally.stage == StageFor(s.tally.roundHits) &&
    |s.gloves| == (if s.target.Some? then 2 else 0) &&
    (s.target.Some? ==> s.world.width == WorldWidth && s.world.height > 0.0) &&
    (s.screen == Playing ==> s.clock.timerRunning) &&
    (s.screen == GameOver ==> !s.clock.timerRunning && s.clock.remainingTime == 0.0)
  }

  /** `moveTarget`: nothing without a target mesh. */
  function AfterMove(s: WebState, draws: seq<Draw>): WebState
    requires MaxMoveAttempts <= |draws|
  {
    match s.target
    case None => s
    case Some(t) => s.(target := Some(t.(prev := t.pos, pos := Pick(AreaOf(s.world), t.pos, draws, 0).0)))
  }

  /** `updateTargetTexture`'s face index for a stage. */
  function StageIndex(stage: int): (i: int)
    ensures i >= 0
  {
    Max(0, stage - 1)
  }

  /** Every stage a round can reach picks one of the six faces, stage n
      the n-th. */
  lemma StageIndexInRange(hits: int)
    requires hits >= 0
    ensures 0 <= StageIndex(StageFor(hits)) < 6
    ensures StageIndex(StageFor(hits)) == StageFor(hits) - 1
  {
    StageForRange(hits);
  }

  function AfterStart(s: WebState, duration: int, now: int, draws: seq<Draw>): WebState
    requires MaxMoveAttempts <= |draws|
  {
    var moved := AfterMove(s, draws);
    moved.(screen := Playing,
           clock := Clock(duration, duration as real, now, true),
           tally := Tally(0, 0, 1, [0, 0]))
  }

  lemma StartResets(s: WebState, duration: int, now: int, draws: seq<Draw>)
    requires WebOk(s) && MaxMoveAttempts <= |draws|
    ensures var r := AfterStart(s, duration, now, draws);
      WebOk(r) && r.screen == Playing && r.clock.remainingTime == duration as real &&
      r.tally.score == 0 && r.tally.roundHits == 0 && r.tally.stage == 1 && r.tally.lastPunch == [0, 0]
  {
  }

  function AfterTick(s: WebState, now: int): WebState
  {
    if s.screen != Playing then s
    else
      var remaining := s.clock.remainingTime - (now - s.clock.lastTickTime) as real / 1000.0;
      if remaining <= 0.0 then
        s.(screen := GameOver, clock := s.clock.(remainingTime := 0.0, lastTickTime := now, timerRunning := false))
      else s.(clock := s.clock.(remainingTime := remaining, lastTickTime := now))
  }

  /** A tick counts down by the elapsed seconds, clamps at zero and ends
      the game there; outside a round it changes nothing, so every tick
      after the end is a no-op. */
  lemma TickCountsDown(s: WebState, now: int)
    requires WebOk(s)
    ensures WebOk(AfterTick(s, now))
    ensures s.screen != Playing ==> AfterTick(s, now) == s
    ensures var r := AfterTick(s, now);
      var left := s.clock.remainingTime - (now - s.clock.lastTickTime) as real / 1000.0;
      s.screen == Playing ==>
        r.clock.remainingTime == MaxR(0.0, left) && r.clock.remainingTime >= 0.0 &&
        (r.screen == GameOver <==> left <= 0.0) && r.tally == s.tally
    ensures AfterTick(s, now).screen == GameOver ==> AfterTick(AfterTick(s, now), now + 1) == AfterTick(s, now)
  {
  }

  /** The collision test: centre distance below 1.5. */
  predicate Touches(glove: Vec, target: Vec)
  {
    SqrtLess(DistSq(glove, target), HitDistance)
  }

  predicate CanPunch(s: WebState, now: int, i: nat)
    requires WebOk(s) && s.target.Some? && i < 2
  {
    s.gloves[i].visible && now - s.tally.lastPunch[i] > PunchCooldownMs &&
    Touches(s.gloves[i].pos, s.target.value.pos)
  }

  /** The first glove that lands a punch, glove 0 before glove 1. */
  function PunchSlot(s: WebState, now: int): (r: Option<nat>)
    requires WebOk(s) && s.target.Some?
    ensures r.Some? ==> r.value < 2 && CanPunch(s, now, r.value) &&
                        forall j :: 0 <= j < r.value ==> !CanPunch(s, now, j)
    ensures r.None? ==> forall j :: 0 <= j < 2 ==> !CanPunch(s, now, j)
  {
    if CanPunch(s, now, 0) then Some(0) else if CanPunch(s, now, 1) then Some(1) else None
  }

  /** At most one punch per call: it counts, stamps that glove's time,
      moves the target and then updates the stage. */
  function AfterCollide(s: WebState, now: int, draws: seq<Draw>): WebState
    requires WebOk(s) && MaxMoveAttempts <= |draws|
  {
    if s.screen != Playing || s.target.None? || !s.target.value.visible then s
    else
      match PunchSlot(s, now)
      case None => s
      case Some(i) =>
        var t := s.tally;
        var moved := AfterMove(s.(tally := t.(score := t.score + 1, roundHits := t.roundHits + 1,
                                               lastPunch := t.lastPunch[i := now])), draws);
        moved.(tally := moved.tally.(stage := StageFor(moved.tally.roundHits)))
  }

  /** A collision check scores at most once and keeps the state well
      formed. Outside a round, without a visible target or with no glove
      able to punch, it changes nothing; otherwise the first glove that can
      punch scores, is stamped with the time and the target moves on. */
  lemma CollideCounts(s: WebState, now: int, draws: seq<Draw>)
    requires WebOk(s) && MaxMoveAttempts <= |draws|
    ensures var r := AfterCollide(s, now, draws);
      WebOk(r) && s.tally.score <= r.tally.score <= s.tally.score + 1 &&
      s.tally.stage <= r.tally.stage <= 6 && r.screen == s.screen && r.clock == s.clock
    ensures var r := AfterCollide(s, now, draws);
      forall i :: 0 <= i < 2 && r.tally.lastPunch[i] != s.tally.lastPunch[i] ==>
        r.tally.lastPunch[i] == now && now - s.tally.lastPunch[i] > PunchCooldownMs &&
        r.tally.score == s.tally.score + 1
    ensures var r := AfterCollide(s, now, draws);
      r.tally.score == s.tally.score + 1 ==> r.target.value.prev == s.target.value.pos
    ensures s.screen != Playing || s.target.None? || !s.target.value.visible ==> AfterCollide(s, now, draws) == s
    ensures s.screen == Playing && s.target.Some? && s.target.value.visible ==>
      (forall j :: 0 <= j < 2 ==> !CanPunch(s, now, j)) ==> AfterCollide(s, now, draws) == s
    ensures s.screen == Playing && s.target.Some? && s.target.value.visible ==>
      forall i :: 0 <= i < 2 && CanPunch(s, now, i) && (forall j :: 0 <= j < i ==> !CanPunch(s, now, j)) ==>
        var r := AfterCollide(s, now, draws);
        r.tally.score == s.tally.score + 1 && r.tally.roundHits == s.tally.roundHits + 1 &&
        r.tally.lastPunch == s.tally.lastPunch[i := now] && r.tally.stage == StageFor(s.tally.roundHits + 1) &&
        r.target.value.pos == Pick(AreaOf(s.world), s.target.value.pos, draws, 0).0
  {
    var r := AfterCollide(s, now, draws);
    StageForMonotone(s.tally.roundHits, r.tally.roundHits);
    StageForRange(r.tally.roundHits);
  }

  /** The gloves after this frame's hands: shown where a hand drives them,
      hidden (and left where they were) otherwise. */
  function GlovesAfter(gloves: seq<Glove>, slots: seq<Option<Vec>>): seq<Glove>
    requires |gloves| == 2 && |slots| == 2
  {
    seq(2, i requires 0 <= i < 2 =>
      if slots[i].Some? then Glove(slots[i].value, true) else gloves[i].(visible := false))
  }

  /** The visuals part of the hand callback in a round. */
  function AfterTrack(s: WebState, hands: seq<seq<Option<Landmark>>>): WebState
    requires WebOk(s) && s.target.Some?
  {
    var hs := seq(|hands|, i requires 0 <= i < |hands| => Detected(hands[i]));
    s.(target := Some(s.target.value.(visible := true)),
       gloves := GlovesAfter(s.gloves, GloveSlots(hs, s.world)))
  }

  /** The whole hand callback: ignored on the game-over screen, hides the
      meshes on the title, tracks and tests for a punch in a round. */
  function AfterHands(s: WebState, hands: seq<seq<Option<Landmark>>>, now: int, draws: seq<Draw>): WebState
    requires WebOk(s) && s.target.Some? && MaxMoveAttempts <= |draws|
  {
    if s.screen == GameOver then s
    else if s.screen == Title then
      s.(target := Some(s.target.value.(visible := false)),
         gloves := seq(|s.gloves|, i requires 0 <= i < |s.gloves| => s.gloves[i].(visible := false)))
    else AfterCollide(AfterTrack(s, hands), now, draws)
  }

  lemma HandsKeepOk(s: WebState, hands: seq<seq<Option<Landmark>>>, now: int, draws: seq<Draw>)
    requires WebOk(s) && s.target.Some? && MaxMoveAttempts <= |draws|
    ensures WebOk(AfterTrack(s, hands))
    ensures WebOk(AfterHands(s, hands, now, draws))
  {
    if s.screen == Playing {
      CollideCounts(AfterTrack(s, hands), now, draws);
    }
  }

  // ---------------------------------------------------------------------
  // The script, as the module state it updates

  class WebGame {
    var screen: WebScreen
    var clock: Clock
    var tally: Tally
    var target: Option<Target>
    var gloves: seq<Glove>
    var world: World

    function State(): WebState
      reads this
    {
      WebState(screen, clock, tally, target, gloves, world)
    }

    predicate Valid()
      reads this
    {
      WebOk(State())
    }

    /** The module's initial values, before the scene exists. */
    constructor()
      ensures Valid() && screen == Title && target.None? && gloves == []
      ensures tally == Tally(0, 0, 1, [0, 0]) && clock == Clock(0, 0.0, 0, false)
    {
      screen := Title;
      clock := Clock(0, 0.0, 0, false);
      tally := Tally(0, 0, 1, [0, 0]);
      target := None;
      gloves := [];
      world := World(WorldWidth, 0.0);
    }

    /** The scene's creation: the world's height from the window's aspect,
        the target at the origin then moved, two hidden gloves. */
    method SetupScene(aspect: real, draws: seq<Draw>)
      requires Valid() && target.None? && aspect > 0.0 && MaxMoveAttempts <= |draws|
      modifies this
      ensures Valid() && world == WorldFor(aspect) && |gloves| == 2
      ensures target == Some(Target(Pick(AreaOf(world), Vec(0.0, 0.0), draws, 0).0, Vec(0.0, 0.0), true))
      ensures screen == old(screen) && clock == old(clock) && tally == old(tally)
    {
      world := WorldFor(aspect);
      target := Some(Target(Vec(0.0, 0.0), Vec(0.0, 0.0), true));
      var _ := MoveTarget(draws);
      gloves := [Glove(Vec(0.0, 0.0), false), Glove(Vec(0.0, 0.0), false)];
    }

    /** A window resize recomputes the world's height. */
    method Resize(aspect: real)
      requires Valid() && aspect > 0.0
      modifies this
      ensures Valid() && State() == old(State()).(world := WorldFor(aspect))
    {
      world := WorldFor(aspect);
    }

    /** `moveTarget`: nothing without a target mesh; `warned` is the
        console warning after ten attempts. */
    method MoveTarget(draws: seq<Draw>) returns (warned: bool)
      requires MaxMoveAttempts <= |draws|
      modifies this
      ensures State() == AfterMove(old(State()), draws)
      ensures warned <==> old(target).Some? && Pick(AreaOf(world), old(target).value.pos, draws, 0).1 >= MaxMoveAttempts
    {
      if target.None? {
        return false;
      }
      var prev := target.value.pos;
      var pos, attempts := PickPosition(AreaOf(world), prev, draws);
      warned := attempts >= MaxMoveAttempts;
      target := Some(target.value.(prev := prev, pos := pos));
    }

    /** `startGame(duration)`. */
    method StartGame(duration: int, now: int, draws: seq<Draw>)
      requires Valid() && MaxMoveAttempts <= |draws|
      modifies this
      ensures State() == AfterStart(old(State()), duration, now, draws)
      ensures Valid()
    {
      StartResets(State(), duration, now, draws);
      clock := Clock(duration, duration as real, now, clock.timerRunning);
      tally := Tally(0, 0, 1, tally.lastPunch);
      var _ := MoveTarget(draws);
      tally := tally.(lastPunch := [0, 0]);
      screen := Playing;
      clock := clock.(timerRunning := true);
    }

    method EndGame()
      modifies this
      ensures State() == old(State()).(screen := GameOver, clock := old(clock).(timerRunning := false))
    {
      clock := clock.(timerRunning := false);
      screen := GameOver;
    }

    /** The interval callback. */
    method TickTimer(now: int)
      requires Valid()
      modifies this
      ensures State() == AfterTick(old(State()), now)
      ensures Valid()
    {
      TickCountsDown(State(), now);
      if screen != Playing {
        return;
      }
      var deltaTime := (now - clock.lastTickTime) as real / 1000.0;
      clock := clock.(lastTickTime := now, remainingTime := clock.remainingTime - deltaTime);
      if clock.remainingTime <= 0.0 {
        clock := clock.(remainingTime := 0.0);
        EndGame();
      }
    }

    /** The back-to-title button. */
    method GoTitle()
      requires Valid()
      modifies this
      ensures State() == old(State()).(screen := Title)
      ensures Valid()
    {
      screen := Title;
    }

    /** The collision part of the hand callback. */
    method Collide(now: int, draws: seq<Draw>)
      requires Valid() && MaxMoveAttempts <= |draws|
      modifies this
      ensures State() == AfterCollide(old(State()), now, draws)
    {
      if screen != Playing || target.None? || !target.value.visible {
        return;
      }
      ghost var s := State();
      for i := 0 to |gloves|
        invariant State() == s
        invariant forall j :: 0 <= j < i ==> !CanPunch(s, now, j)
      {
        if gloves[i].visible && now - tally.lastPunch[i] > PunchCooldownMs {
          var d := DistSq(gloves[i].pos, target.value.pos);
          if SqrtLess(d, HitDistance) {
            Punch(i, now, draws);
            return;
          }
        }
      }
    }

    /** A punch by glove `i`: count it, stamp its time, move the target,
        then update the stage. */
    method Punch(i: nat, now: int, draws: seq<Draw>)
      requires Valid() && i < 2 && MaxMoveAttempts <= |draws|
      modifies this
      ensures var t := old(tally);
        var moved := AfterMove(old(State()).(tally := t.(score := t.score + 1, roundHits := t.roundHits + 1,
                                                        lastPunch := t.lastPunch[i := now])), draws);
        State() == moved.(tally := moved.tally.(stage := StageFor(moved.tally.roundHits)))
    {
      tally := tally.(score := tally.score + 1, roundHits := tally.roundHits + 1);
      tally := tally.(lastPunch := tally.lastPunch[i := now]);
      var _ := MoveTarget(draws);
      var newStage := Min(6, 1 + tally.roundHits / 5);
      if newStage != tally.stage {
        tally := tally.(stage := newStage);
      }
    }

    /** Placing the two gloves, then hiding every glove past the number
        shown (which hides nothing: a left glove is only shown with a right
        one). */
    method PlaceGloves(detected: seq<DetectedHand>)
      requires Valid() && target.Some? && screen == Playing
      modifies this
      ensures State() == old(State()).(gloves := GlovesAfter(old(gloves), GloveSlots(detected, world)))
      ensures Valid()
    {
      var (right, left) := Handedness(detected);
      GloveSlotsOrdered(detected, world);
      var visibleCount := 0;
      for i := 0 to 2
        invariant |gloves| == 2 && State() == old(State()).(gloves := gloves)
        invariant forall j :: 0 <= j < i ==> gloves[j] == GlovesAfter(old(gloves), GloveSlots(detected, world))[j]
        invariant forall j :: i <= j < 2 ==> gloves[j] == old(gloves)[j]
        invariant visibleCount == (if i > 0 && GloveSlots(detected, world)[0].Some? then 1 else 0) +
                                  (if i > 1 && GloveSlots(detected, world)[1].Some? then 1 else 0)
      {
        var hand: Option<DetectedHand> := None;
        if i == 0 && right != -1 {
          hand := Some(detected[right]);
        } else if i == 1 && left != -1 {
          hand := Some(detected[left]);
        }
        if hand.Some? && hand.value.mcpCount > 0 {
          gloves := gloves[i := Glove(ToWorld(hand.value, world), true)];
          visibleCount := visibleCount + 1;
        } else {
          gloves := gloves[i := gloves[i].(visible := false)];
        }
      }
      assert gloves == GlovesAfter(old(gloves), GloveSlots(detected, world));
      assert forall j :: visibleCount <= j < 2 ==> !gloves[j].visible;
      ghost var placed := gloves;
      for i := visibleCount to 2
        invariant gloves == placed && State() == old(State()).(gloves := gloves)
      {
        assert !gloves[i].visible;
        gloves := gloves[i := gloves[i].(visible := false)];
      }
    }

    /** `onHandResults`. */
    method HandResults(hands: seq<seq<Option<Landmark>>>, now: int, draws: seq<Draw>)
      requires Valid() && target.Some? && MaxMoveAttempts <= |draws|
      modifies this
      ensures State() == AfterHands(old(State()), hands, now, draws)
      ensures Valid()
    {
      HandsKeepOk(State(), hands, now, draws);
      if screen != Playing && screen != Title {
        return;
      }
      ghost var s := State();
      var show3D := screen == Playing;
      target := Some(target.value.(visible := show3D));
      var shown := gloves;
      gloves := seq(|shown|, i requires 0 <= i < |shown| => shown[i].(visible := show3D));
      if show3D {
        var detected := DetectHands(hands);
        assert detected == seq(|hands|, i requires 0 <= i < |hands| => Detected(hands[i]));
        ghost var before := gloves;
        PlaceGloves(detected);
        assert GlovesAfter(before, GloveSlots(detected, world)) == GlovesAfter(s.gloves, GloveSlots(detected, world));
        assert State() == AfterTrack(s, hands);
        Collide(now, draws);
      }
    }
  }
}
