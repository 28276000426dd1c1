/** The desktop boxing game's round logic: the six-screen state machine
    driven once per camera frame, the fist points taken from the hand
    detector's knuckles, the per-hand hit test with its cool-down, and the
    name entry that feeds the high-score board. Wall-clock time, key codes,
    the random target position and the detector output are inputs. */
module BoxDesktop {
  import opened Common
  import opened BoxGeometry
  import opened HighScores

  datatype Screen = Title | SelectTime | Countdown | ShowResults | GetName | Leaderboard

  datatype Rect = Rect(x: int, y: int, w: int, h: int)

  /** A normalised landmark position as the detector reports it. */
  datatype Landmark = Landmark(x: real, y: real)

  const TargetSize: int := 260
  const PunchCooldown: real := 0.2
  const FistCollisionRadius: int := 90
  const MaxNameLength: nat := 10
  const LandmarkCount: nat := 21
  /** Index, middle, ring and pinky knuckles (MCP joints). */
  const Knuckles: seq<nat> := [5, 9, 13, 17]
  const MiddleKnuckle: nat := 9

  const KeyEnter: int := 13
  const KeyBackspace: int := 8
  const KeyQuit: int := 113      // 'q'
  const KeyStart: int := 115     // 's'
  const KeyLeaders: int := 108   // 'l'
  const KeyBack: int := 98       // 'b'
  const KeyRestart: int := 114   // 'r'
  const KeyThirty: int := 49     // '1'
  const KeySixty: int := 50      // '2'

  // ---------------------------------------------------------------------
  // Fist point of one hand

  /** `(int(lm.x * width), int(lm.y * height))`. */
  function Pixel(lm: Landmark, width: int, height: int): Point
  {
    Point(Trunc(lm.x * width as real), Trunc(lm.y * height as real))
  }

  /** The pixels of the first `n` knuckles, or None once one is missing. */
  function KnucklePixels(lms: seq<Option<Landmark>>, width: int, height: int, n: nat): (r: Option<seq<Point>>)
    requires n <= |Knuckles| && |lms| == LandmarkCount
    ensures r.Some? ==> |r.value| == n
  {
    if n == 0 then Some([])
    else
      match KnucklePixels(lms, width, height, n - 1)
      case None => None
      case Some(ps) =>
        match lms[Knuckles[n - 1]]
        case None => None
        case Some(lm) => Some(ps + [Pixel(lm, width, height)])
  }

  lemma {:induction false} KnucklePixelsStayMissing(lms: seq<Option<Landmark>>, width: int, height: int, n: nat, m: nat)
    requires n <= m <= |Knuckles| && |lms| == LandmarkCount
    requires KnucklePixels(lms, width, height, n).None?
    ensures KnucklePixels(lms, width, height, m).None?
    decreases m - n
  {
    if n < m {
      KnucklePixelsStayMissing(lms, width, height, n + 1, m);
    }
  }

  function Sum(xs: seq<int>): int
  {
    if xs == [] then 0 else Sum(xs[..|xs| - 1]) + xs[|xs| - 1]
  }

  /** `int(np.mean(xs))`: the mean, truncated toward zero. */
  function MeanTrunc(xs: seq<int>): int
    requires |xs| > 0
  {
    Trunc(Sum(xs) as real / |xs| as real)
  }

  function Xs(ps: seq<Point>): (xs: seq<int>)
    ensures |xs| == |ps| && forall i :: 0 <= i < |ps| ==> xs[i] == ps[i].x
  {
    seq(|ps|, i requires 0 <= i < |ps| => ps[i].x)
  }

  function Ys(ps: seq<Point>): (ys: seq<int>)
    ensures |ys| == |ps| && forall i :: 0 <= i < |ps| ==> ys[i] == ps[i].y
  {
    seq(|ps|, i requires 0 <= i < |ps| => ps[i].y)
  }

  /** The fist point of a hand: the truncated mean of its four knuckle
      pixels, or, when a knuckle is missing, the middle knuckle's pixel. */
  function FistPointOf(lms: seq<Option<Landmark>>, width: int, height: int): Option<Point>
    requires |lms| == LandmarkCount
  {
    match KnucklePixels(lms, width, height, |Knuckles|)
    case Some(ps) =>
      if |ps| > 0 then Some(Point(MeanTrunc(Xs(ps)), MeanTrunc(Ys(ps))))
      else None
    case None =>
      match lms[MiddleKnuckle]
      case Some(lm) => Some(Pixel(lm, width, height))
      case None => None
  }

  lemma {:induction false} SumBounds(xs: seq<int>, lo: int, hi: int)
    requires forall i :: 0 <= i < |xs| ==> lo <= xs[i] <= hi
    ensures |xs| * lo <= Sum(xs) <= |xs| * hi
  {
    if xs != [] {
      SumBounds(xs[..|xs| - 1], lo, hi);
    }
  }

  /** The truncated mean lies between the smallest and the largest value. */
  lemma MeanTruncBetween(xs: seq<int>, lo: int, hi: int)
    requires |xs| > 0
    requires forall i :: 0 <= i < |xs| ==> lo <= xs[i] <= hi
    ensures lo <= MeanTrunc(xs) <= hi
  {
    SumBounds(xs, lo, hi);
    var n := |xs| as real;
    var s := Sum(xs) as real;
    QuotientBetween(s, n, lo as real, hi as real);
    TruncBetween(lo, hi, s / n);
  }

  lemma {:induction false} KnucklePixelsPresent(lms: seq<Option<Landmark>>, width: int, height: int, n: nat)
    requires n <= |Knuckles| && |lms| == LandmarkCount
    requires forall k :: 0 <= k < n ==> lms[Knuckles[k]].Some?
    ensures KnucklePixels(lms, width, height, n).Some?
    ensures forall k :: 0 <= k < n ==>
              KnucklePixels(lms, width, height, n).value[k] == Pixel(lms[Knuckles[k]].value, width, height)
  {
    if n > 0 {
      KnucklePixelsPresent(lms, width, height, n - 1);
    }
  }

  /** With all four knuckles seen, the fist point lies in the bounding box
      of the four knuckle pixels. */
  lemma FistPointInsideKnuckles(lms: seq<Option<Landmark>>, width: int, height: int, lo: Point, hi: Point)
    requires |lms| == LandmarkCount
    requires forall k :: 0 <= k < |Knuckles| ==> lms[Knuckles[k]].Some?
    requires forall k :: 0 <= k < |Knuckles| ==> lo.x <= Pixel(lms[Knuckles[k]].value, width, height).x <= hi.x
    requires forall k :: 0 <= k < |Knuckles| ==> lo.y <= Pixel(lms[Knuckles[k]].value, width, height).y <= hi.y
    ensures FistPointOf(lms, width, height).Some?
    ensures lo.x <= FistPointOf(lms, width, height).value.x <= hi.x
    ensures lo.y <= FistPointOf(lms, width, height).value.y <= hi.y
  {
    KnucklePixelsPresent(lms, width, height, |Knuckles|);
    var ps := KnucklePixels(lms, width, height, |Knuckles|).value;
    MeanTruncBetween(Xs(ps), lo.x, hi.x);
    MeanTruncBetween(Ys(ps), lo.y, hi.y);
  }

  /** A hand with its middle knuckle but without another knuckle is placed
      at the middle knuckle. */
  lemma FistPointFallback(lms: seq<Option<Landmark>>, width: int, height: int, k: nat)
    requires |lms| == LandmarkCount && k < |Knuckles| && lms[Knuckles[k]].None?
    requires lms[MiddleKnuckle].Some?
    ensures FistPointOf(lms, width, height) == Some(Pixel(lms[MiddleKnuckle].value, width, height))
  {
    assert KnucklePixels(lms, width, height, k + 1).None?;
    KnucklePixelsStayMissing(lms, width, height, k + 1, |Knuckles|);
  }

  /** The loop over the four knuckles, then the mean or the fallback. */
  method FistPoint(lms: seq<Option<Landmark>>, width: int, height: int) returns (pos: Option<Point>)
    requires |lms| == LandmarkCount
    ensures pos == FistPointOf(lms, width, height)
  {
    var points: seq<Point> := [];
    var valid := true;
    var i := 0;
    while i < |Knuckles|
      invariant 0 <= i <= |Knuckles|
      invariant valid && KnucklePixels(lms, width, height, i) == Some(points)
    {
      var lm := lms[Knuckles[i]];
      if lm.None? {
        valid := false;
        KnucklePixelsStayMissing(lms, width, height, i + 1, |Knuckles|);
        break;
      }
      points := points + [Pixel(lm.value, width, height)];
      i := i + 1;
    }
    pos := None;
    if valid && |points| > 0 {
      pos := Some(Point(MeanTrunc(Xs(points)), MeanTrunc(Ys(points))));
    } else if lms[MiddleKnuckle].Some? {
      pos := Some(Pixel(lms[MiddleKnuckle].value, width, height));
    }
  }

  // ---------------------------------------------------------------------
  // Hands to slots by the detector's handedness label

  /** The label of the i-th hand, 'Unknown' when the detector gave none. */
  function LabelOf(labels: seq<string>, i: nat): string
  {
    if i < |labels| then labels[i] else "Unknown"
  }

  predicate HandsOk(hands: seq<seq<Option<Landmark>>>)
  {
    forall i :: 0 <= i < |hands| ==> |hands[i]| == LandmarkCount
  }

  /** Slot 0 holds the right hand and slot 1 the left one. */
  function SlotOfLabel(side: string): Option<nat>
  {
    if side == "Right" then Some(0) else if side == "Left" then Some(1) else None
  }

  /** The fist point of each detected hand, in the detector's order. */
  function FistsOf(hands: seq<seq<Option<Landmark>>>, width: int, height: int): (fists: seq<Option<Point>>)
    requires HandsOk(hands)
    ensures |fists| == |hands|
    ensures forall i :: 0 <= i < |hands| ==> fists[i] == FistPointOf(hands[i], width, height)
  {
    seq(|hands|, i requires 0 <= i < |hands| => FistPointOf(hands[i], width, height))
  }

  /** The slots once the first `n` fist points have been placed by their
      hands' labels; a later hand with the same label overwrites an earlier
      one. */
  function SlotsOf(fists: seq<Option<Point>>, labels: seq<string>, n: nat): (slots: seq<Option<Point>>)
    requires n <= |fists|
    ensures |slots| == 2
  {
    if n == 0 then [None, None]
    else
      var slots := SlotsOf(fists, labels, n - 1);
      var slot := SlotOfLabel(LabelOf(labels, n - 1));
      if fists[n - 1].Some? && slot.Some? then slots[slot.value := fists[n - 1]] else slots
  }

  /** The slots after processing the first `n` hands. */
  function SlotsAfter(hands: seq<seq<Option<Landmark>>>, labels: seq<string>, width: int, height: int, n: nat): seq<Option<Point>>
    requires HandsOk(hands) && n <= |hands|
  {
    SlotsOf(FistsOf(hands, width, height), labels, n)
  }

  /** Whether the i-th fist point goes into slot `s`. */
  predicate Fills(fists: seq<Option<Point>>, labels: seq<string>, i: nat, s: nat)
    requires i < |fists|
  {
    SlotOfLabel(LabelOf(labels, i)) == Some(s) && fists[i].Some?
  }

  /** A slot holds a point exactly when some placed hand fills it, and then
      it holds the point of the last such hand. */
  lemma {:induction false} LastFillingHand(fists: seq<Option<Point>>, labels: seq<string>, n: nat, s: nat)
    requires n <= |fists| && s < 2
    ensures SlotsOf(fists, labels, n)[s].Some? <==> exists i :: 0 <= i < n && Fills(fists, labels, i, s)
    ensures SlotsOf(fists, labels, n)[s].Some? ==>
            exists i :: 0 <= i < n && Fills(fists, labels, i, s) && fists[i] == SlotsOf(fists, labels, n)[s] &&
                        forall j :: i < j < n ==> !Fills(fists, labels, j, s)
  {
    if n > 0 {
      var slots := SlotsOf(fists, labels, n);
      if Fills(fists, labels, n - 1, s) {
        assert slots[s] == fists[n - 1];
      } else {
        assert slots[s] == SlotsOf(fists, labels, n - 1)[s];
        LastFillingHand(fists, labels, n - 1, s);
        if slots[s].Some? {
          var i :| 0 <= i < n - 1 && Fills(fists, labels, i, s) && fists[i] == slots[s] &&
                   forall j :: i < j < n - 1 ==> !Fills(fists, labels, j, s);
          assert forall j :: i < j < n ==> !Fills(fists, labels, j, s);
        }
      }
    }
  }

  /** A slot holds a point exactly when some processed hand with that slot's
      label produced it, and then it holds the point of the last such hand:
      no later hand with the same label and a fist point follows it. */
  lemma SlotsFromLabels(hands: seq<seq<Option<Landmark>>>, labels: seq<string>, width: int, height: int, n: nat, s: nat)
    requires HandsOk(hands) && n <= |hands| && s < 2
    ensures SlotsAfter(hands, labels, width, height, n)[s].Some? <==>
            exists i :: 0 <= i < n && SlotOfLabel(LabelOf(labels, i)) == Some(s) && FistPointOf(hands[i], width, height).Some?
    ensures SlotsAfter(hands, labels, width, height, n)[s].Some? ==>
            exists i :: 0 <= i < n && SlotOfLabel(LabelOf(labels, i)) == Some(s) &&
                        FistPointOf(hands[i], width, height) == SlotsAfter(hands, labels, width, height, n)[s] &&
                        forall j :: i < j < n ==>
                          SlotOfLabel(LabelOf(labels, j)) != Some(s) || FistPointOf(hands[j], width, height).None?
  {
    var fists := FistsOf(hands, width, height);
    var slots := SlotsAfter(hands, labels, width, height, n);
    LastFillingHand(fists, labels, n, s);
    if i :| 0 <= i < n && SlotOfLabel(LabelOf(labels, i)) == Some(s) && FistPointOf(hands[i], width, height).Some? {
      assert Fills(fists, labels, i, s);
    }
    if slots[s].Some? {
      var i :| 0 <= i < n && Fills(fists, labels, i, s) && fists[i] == slots[s] &&
               forall j :: i < j < n ==> !Fills(fists, labels, j, s);
      assert forall j :: i < j < n ==>
               SlotOfLabel(LabelOf(labels, j)) != Some(s) || FistPointOf(hands[j], width, height).None?;
    }
  }

  /** The loop over the first two detected hands. */
  method AssignSlots(hands: seq<seq<Option<Landmark>>>, labels: seq<string>, width: int, height: int) returns (slots: seq<Option<Point>>)
    requires HandsOk(hands)
    ensures slots == SlotsAfter(hands, labels, width, height, Min(2, |hands|))
  {
    slots := [None, None];
    var n := Min(2, |hands|);
    var i := 0;
    while i < n
      invariant 0 <= i <= n
      invariant slots == SlotsAfter(hands, labels, width, height, i)
    {
      var side := LabelOf(labels, i);
      var pos := FistPoint(hands[i], width, height);
      if pos.Some? {
        if side == "Right" {
          slots := slots[0 := pos];
        } else if side == "Left" {
          slots := slots[1 := pos];
        }
      }
      i := i + 1;
    }
  }


  // ---------------------------------------------------------------------
  // The program's module globals, grouped by what resets them

  /** The round clock: `selected_duration`, `start_time`, `remaining_time`. */
  datatype Timing = Timing(selectedDuration: int, startTime: real, remainingTime: real)

  /** `punch_count`, `final_score`, `new_high_score_achieved`. */
  datatype Tally = Tally(punchCount: int, finalScore: int, newHighScore: bool)

  /** What `setup_state` resets on every call: `current_round_hits`,
      `target_damage_stage`, `target_rect`, `last_punch_time`, and the fist
      points of the previous and the current frame. */
  datatype Round = Round(roundHits: int, stage: int, target: Option<Rect>, lastPunch: seq<real>,
                         prevPos: seq<Option<Point>>, curPos: seq<Option<Point>>)

  const FreshRound: Round := Round(0, 1, None, [0.0, 0.0], [None, None], [None, None])

  datatype Globals = Globals(state: Screen, timing: Timing, tally: Tally, round: Round,
                             highScores: Board, nameInput: string, running: bool)

  predicate Printable(s: string)
  {
    forall i :: 0 <= i < |s| ==> 32 <= s[i] as int <= 126
  }

  predicate IsDuration(d: int)
  {
    d == 30 || d == 60
  }

  predicate RoundOk(r: Round)
  {
    |r.lastPunch| == 2 && |r.prevPos| == 2 && |r.curPos| == 2 &&
    r.roundHits >= 0 && r.stage == StageFor(r.roundHits) &&
    (r.target.Some? ==> r.target.value.w == TargetSize && r.target.value.h == TargetSize)
  }

  /** What every step keeps true. */
  predicate GlobalsOk(g: Globals)
  {
    RoundOk(g.round) && g.tally.punchCount >= 0 &&
    |g.nameInput| <= MaxNameLength && Printable(g.nameInput) &&
    WellFormed(g.highScores) &&
    (g.state == Countdown ==> g.round.roundHits == g.tally.punchCount) &&
    (g.state == Countdown || g.state == ShowResults || g.state == GetName ==> IsDuration(g.timing.selectedDuration))
  }

  /** `high_scores.get(str(duration), [])`. */
  function ListFor(b: Board, duration: int): seq<Entry>
  {
    var key := Str(duration);
    if key in b then b[key] else []
  }

  lemma DurationKeysOf(d: int)
    requires IsDuration(d)
    ensures Str(d) in DurationKeys
  {
    assert Str(30) == "30" && Str(60) == "60";
  }

  /** `setup_state(s, duration)`: the branch for `s`, then the resets every
      branch shares. */
  function AfterSetup(g: Globals, s: Screen, duration: int, now: real): Globals
  {
    var clears := s == SelectTime || s == Title;
    Globals(
      state := s,
      timing :=
        if s == Countdown then Timing(duration, now, duration as real)
        else if clears then g.timing.(selectedDuration := 0)
        else g.timing,
      tally := Tally(
        punchCount := if s == Countdown || clears then 0 else g.tally.punchCount,
        finalScore := if s == ShowResults then g.tally.punchCount else if clears then 0 else g.tally.finalScore,
        newHighScore := s == ShowResults && Qualifies(ListFor(g.highScores, g.timing.selectedDuration), g.tally.punchCount)),
      round := FreshRound,
      highScores := g.highScores,
      nameInput := "",
      running := g.running)
  }

  /** Whatever the new screen, the per-round state starts afresh; entering
      the countdown zeroes the count and sets the clock; entering the results
      copies the count and flags a score that makes the list. */
  lemma SetupResets(g: Globals, s: Screen, duration: int, now: real)
    ensures var r := AfterSetup(g, s, duration, now);
      r.state == s && r.round.lastPunch == [0.0, 0.0] && r.round.roundHits == 0 && r.round.stage == 1 &&
      r.round.target == None && r.nameInput == "" && r.highScores == g.highScores && r.running == g.running
    ensures var r := AfterSetup(g, s, duration, now);
      s == Countdown ==> r.tally.punchCount == 0 && r.timing.remainingTime == duration as real &&
                         r.timing.selectedDuration == duration && r.timing.startTime == now
    ensures var r := AfterSetup(g, s, duration, now);
      var list := ListFor(g.highScores, g.timing.selectedDuration);
      s == ShowResults ==> (r.tally.finalScore == g.tally.punchCount &&
                            (r.tally.newHighScore <==> |list| < MaxHighScores || g.tally.punchCount > list[|list| - 1].score))
    ensures s != ShowResults ==> !AfterSetup(g, s, duration, now).tally.newHighScore
  {
  }

  lemma SetupKeepsOk(g: Globals, s: Screen, duration: int, now: real)
    requires GlobalsOk(g)
    requires s == Countdown ==> IsDuration(duration)
    requires s == ShowResults || s == GetName ==> IsDuration(g.timing.selectedDuration)
    ensures GlobalsOk(AfterSetup(g, s, duration, now))
  {
  }

  /** `random.randint(0, size - 260)` for both coordinates. */
  predicate DrawOnScreen(draw: (int, int), width: int, height: int)
  {
    0 <= draw.0 <= width - TargetSize && 0 <= draw.1 <= height - TargetSize
  }

  /** `move_target`: a target of the fixed size at the drawn position. */
  function MovedTarget(draw: (int, int)): Option<Rect>
  {
    Some(Rect(draw.0, draw.1, TargetSize, TargetSize))
  }

  /** The target placed from an admissible draw lies fully on the frame. */
  lemma MoveTargetOnScreen(draw: (int, int), width: int, height: int)
    requires DrawOnScreen(draw, width, height)
    ensures var t := MovedTarget(draw).value;
      0 <= t.x && t.x + t.w <= width && 0 <= t.y && t.y + t.h <= height
  {
  }

  // ---------------------------------------------------------------------
  // Hits

  /** Slot `i` may score: it has a fist, its cool-down has passed, and the
      forgiving circle overlaps the target. */
  predicate CanHit(cur: seq<Option<Point>>, last: seq<real>, now: real, t: Rect, i: nat)
    requires |cur| == 2 && |last| == 2 && i < 2
  {
    cur[i].Some? && now - last[i] > PunchCooldown &&
    CircleRectCollision(cur[i], FistCollisionRadius, t.x, t.y, t.w, t.h)
  }

  /** The first slot that scores, trying slot 0 before slot 1. */
  function HitSlot(cur: seq<Option<Point>>, last: seq<real>, now: real, t: Rect): (r: Option<nat>)
    requires |cur| == 2 && |last| == 2
    ensures r.Some? ==> r.value < 2 && CanHit(cur, last, now, t, r.value) &&
                        forall j :: 0 <= j < r.value ==> !CanHit(cur, last, now, t, j)
    ensures r.None? ==> forall j :: 0 <= j < 2 ==> !CanHit(cur, last, now, t, j)
  {
    if CanHit(cur, last, now, t, 0) then Some(0)
    else if CanHit(cur, last, now, t, 1) then Some(1)
    else None
  }

  /** At most one hit per frame: it counts once, stamps that slot's time,
      updates the stage and then moves the target. */
  function AfterHitCheck(g: Globals, now: real, draw: (int, int)): Globals
    requires RoundOk(g.round) && g.round.target.Some?
  {
    var r := g.round;
    match HitSlot(r.curPos, r.lastPunch, now, r.target.value)
    case None => g
    case Some(i) =>
      var hits := r.roundHits + 1;
      g.(tally := g.tally.(punchCount := g.tally.punchCount + 1),
         round := r.(roundHits := hits, lastPunch := r.lastPunch[i := now], stage := StageFor(hits),
                     target := MovedTarget(draw)))
  }

  /** A frame adds at most one to the score, and the round's hits by the
      same amount; only a slot whose cool-down has passed is stamped; the
      damage stage stays within 1..6 and never goes down. When no slot can
      hit, nothing changes; when one can, the first such slot scores, is
      stamped with the frame's time and the target moves to the draw. */
  lemma HitCheckCounts(g: Globals, now: real, draw: (int, int))
    requires GlobalsOk(g) && g.round.target.Some?
    ensures var r := AfterHitCheck(g, now, draw);
      g.tally.punchCount <= r.tally.punchCount <= g.tally.punchCount + 1 &&
      r.round.roundHits - g.round.roundHits == r.tally.punchCount - g.tally.punchCount &&
      g.round.stage <= r.round.stage <= 6
    ensures var r := AfterHitCheck(g, now, draw);
      forall i :: 0 <= i < 2 && r.round.lastPunch[i] != g.round.lastPunch[i] ==>
        r.round.lastPunch[i] == now && now - g.round.lastPunch[i] > PunchCooldown
    ensures var r := g.round;
      (forall j :: 0 <= j < 2 ==> !CanHit(r.curPos, r.lastPunch, now, r.target.value, j)) ==>
        AfterHitCheck(g, now, draw) == g
    ensures var r := g.round;
      forall i :: 0 <= i < 2 && CanHit(r.curPos, r.lastPunch, now, r.target.value, i) &&
                  (forall j :: 0 <= j < i ==> !CanHit(r.curPos, r.lastPunch, now, r.target.value, j)) ==>
        var a := AfterHitCheck(g, now, draw);
        a.tally.punchCount == g.tally.punchCount + 1 && a.round.roundHits == r.roundHits + 1 &&
        a.round.lastPunch == r.lastPunch[i := now] && a.round.target == MovedTarget(draw)
  {
    var r := AfterHitCheck(g, now, draw);
    StageForMonotone(g.round.roundHits, r.round.roundHits);
    StageForRange(r.round.roundHits);
  }

  lemma HitCheckKeepsOk(g: Globals, now: real, draw: (int, int))
    requires GlobalsOk(g) && g.round.target.Some?
    ensures GlobalsOk(AfterHitCheck(g, now, draw))
  {
  }

  // ---------------------------------------------------------------------
  // One frame in each screen

  /** The countdown screen's bookkeeping: the remaining time, and this
      frame's fist points replacing the previous frame's. */
  function Tracked(g: Globals, now: real, hands: seq<seq<Option<Landmark>>>, labels: seq<string>,
                   width: int, height: int): Globals
    requires HandsOk(hands)
  {
    var remaining := MaxR(0.0, g.timing.selectedDuration as real - (now - g.timing.startTime));
    g.(timing := g.timing.(remainingTime := remaining),
       round := g.round.(prevPos := g.round.curPos,
                         curPos := SlotsAfter(hands, labels, width, height, Min(2, |hands|))))
  }

  /** ... then the hit test when a target is up. */
  function CountdownPlay(g: Globals, now: real, hands: seq<seq<Option<Landmark>>>, labels: seq<string>,
                         width: int, height: int, draw: (int, int)): Globals
    requires RoundOk(g.round) && HandsOk(hands)
  {
    var g2 := Tracked(g, now, hands, labels, width, height);
    if g2.round.target.Some? then AfterHitCheck(g2, now, draw) else g2
  }

  /** ... and the switch to the results once no time remains. */
  function AfterCountdown(g: Globals, now: real, hands: seq<seq<Option<Landmark>>>, labels: seq<string>,
                          width: int, height: int, draw: (int, int)): Globals
    requires RoundOk(g.round) && HandsOk(hands)
  {
    var g3 := CountdownPlay(g, now, hands, labels, width, height, draw);
    if g3.timing.remainingTime <= 0.0 then AfterSetup(g3, ShowResults, 0, now) else g3
  }

  lemma TrackedKeepsOk(g: Globals, now: real, hands: seq<seq<Option<Landmark>>>, labels: seq<string>,
                       width: int, height: int)
    requires GlobalsOk(g) && HandsOk(hands)
    ensures GlobalsOk(Tracked(g, now, hands, labels, width, height))
  {
  }

  lemma CountdownKeepsOk(g: Globals, now: real, hands: seq<seq<Option<Landmark>>>, labels: seq<string>,
                         width: int, height: int, draw: (int, int))
    requires GlobalsOk(g) && g.state == Countdown && HandsOk(hands)
    ensures GlobalsOk(CountdownPlay(g, now, hands, labels, width, height, draw))
    ensures GlobalsOk(AfterCountdown(g, now, hands, labels, width, height, draw))
  {
    var g2 := Tracked(g, now, hands, labels, width, height);
    TrackedKeepsOk(g, now, hands, labels, width, height);
    if g2.round.target.Some? {
      HitCheckKeepsOk(g2, now, draw);
    }
  }

  /** Once the clock has run out the countdown ends in the results screen,
      whose score is the round's count. */
  lemma CountdownEnds(g: Globals, now: real, hands: seq<seq<Option<Landmark>>>, labels: seq<string>,
                      width: int, height: int, draw: (int, int))
    requires GlobalsOk(g) && g.state == Countdown && HandsOk(hands)
    requires now - g.timing.startTime >= g.timing.selectedDuration as real
    ensures var r := AfterCountdown(g, now, hands, labels, width, height, draw);
      r.state == ShowResults && r.tally.finalScore >= g.tally.punchCount
  {
    var g3 := CountdownPlay(g, now, hands, labels, width, height, draw);
    assert g3.timing.remainingTime == 0.0;
    assert g3.tally.punchCount >= g.tally.punchCount;
  }

  /** The blocking key on the results screen. */
  function AfterResultsKey(g: Globals, key: int, now: real): Globals
  {
    if key == KeyEnter then
      (if g.tally.newHighScore then AfterSetup(g, GetName, 0, now) else AfterSetup(g, Title, 0, now))
    else if key == KeyRestart then AfterSetup(g, Countdown, g.timing.selectedDuration, now)
    else if key == KeyQuit then g.(running := false)
    else g
  }

  /** The blocking key on the name-entry screen. */
  function AfterNameKey(g: Globals, key: int, now: real): Globals
  {
    if key == KeyEnter then
      if |g.nameInput| > 0 then
        var entry := Entry(JStr(g.nameInput), g.tally.finalScore);
        AfterSetup(g.(highScores := Submit(g.highScores, Str(g.timing.selectedDuration), entry)), Leaderboard, 0, now)
      else AfterSetup(g, Title, 0, now)
    else if key == KeyBackspace then
      g.(nameInput := if g.nameInput == [] then [] else g.nameInput[..|g.nameInput| - 1])
    else if 32 <= key <= 126 then
      (if |g.nameInput| < MaxNameLength then g.(nameInput := g.nameInput + [key as char]) else g)
    else if key == KeyQuit then g.(running := false)
    else g
  }

  /** Name entry never quits: 'q' is a printable key and is typed instead. */
  lemma NameEntryNeverQuits(g: Globals, key: int, now: real)
    ensures AfterNameKey(g, key, now).running == g.running
  {
  }

  /** Enter with a name stores the entry in that duration's list, kept
      sorted and cut to five, and shows the leaderboard; an empty name goes
      back to the title; typing never grows the name past ten characters. */
  lemma NameKeyEffects(g: Globals, key: int, now: real)
    requires GlobalsOk(g) && g.state == GetName
    ensures var r := AfterNameKey(g, key, now);
      var d := g.timing.selectedDuration;
      key == KeyEnter && |g.nameInput| > 0 ==>
        r.state == Leaderboard &&
        ListFor(r.highScores, d) == Top(InsertDesc(ListFor(g.highScores, d), Entry(JStr(g.nameInput), g.tally.finalScore)))
    ensures var r := AfterNameKey(g, key, now);
      key == KeyEnter && |g.nameInput| == 0 ==> r.state == Title && r.highScores == g.highScores
    ensures var r := AfterNameKey(g, key, now);
      32 <= key <= 126 ==> r.nameInput == (if |g.nameInput| < MaxNameLength then g.nameInput + [key as char] else g.nameInput)
    ensures var r := AfterNameKey(g, key, now);
      key == KeyBackspace ==> r.nameInput == (if g.nameInput == [] then [] else g.nameInput[..|g.nameInput| - 1])
    ensures |AfterNameKey(g, key, now).nameInput| <= MaxNameLength
  {
    if key == KeyEnter && |g.nameInput| > 0 {
      DurationKeysOf(g.timing.selectedDuration);
      SubmitInserts(g.highScores, Str(g.timing.selectedDuration), Entry(JStr(g.nameInput), g.tally.finalScore));
    }
  }

  lemma NameKeyKeepsOk(g: Globals, key: int, now: real)
    requires GlobalsOk(g) && g.state == GetName
    ensures GlobalsOk(AfterNameKey(g, key, now))
  {
    if key == KeyEnter && |g.nameInput| > 0 {
      DurationKeysOf(g.timing.selectedDuration);
      SubmitInserts(g.highScores, Str(g.timing.selectedDuration), Entry(JStr(g.nameInput), g.tally.finalScore));
    }
  }

  /** The key handlers of the screens that poll the keyboard. */
  function AfterPolledKey(g: Globals, key: int, now: real): Globals
  {
    match g.state
    case Title =>
      if key == KeyStart then AfterSetup(g, SelectTime, 0, now)
      else if key == KeyLeaders then AfterSetup(g, Leaderboard, 0, now)
      else g
    case Leaderboard => if key == KeyBack then AfterSetup(g, Title, 0, now) else g
    case SelectTime =>
      if key == KeyThirty then AfterSetup(g, Countdown, 30, now)
      else if key == KeySixty then AfterSetup(g, Countdown, 60, now)
      else g
    case _ => g
  }

  /** The inputs of one pass of the main loop. */
  datatype FrameInput = FrameInput(
    width: int, height: int,
    key: int,             // the polled key (255 when none)
    blockingKey: int,     // the key awaited on the results and name screens
    now: real,
    hands: seq<seq<Option<Landmark>>>, labels: seq<string>,
    placeDraw: (int, int), hitDraw: (int, int))

  /** What a pass of the loop needs of its inputs: whole hands, and, on the
      countdown screen (the only one that places or moves the target), draws
      inside `randint`'s range, which a frame narrower or lower than the
      target leaves empty. */
  predicate InputOk(g: Globals, inp: FrameInput)
  {
    HandsOk(inp.hands) &&
    (g.state == Countdown ==>
       DrawOnScreen(inp.placeDraw, inp.width, inp.height) && DrawOnScreen(inp.hitDraw, inp.width, inp.height))
  }

  /** The countdown's first frame places the target. */
  function Placed(g: Globals, inp: FrameInput): Globals
  {
    if g.state == Countdown && g.round.target.None? then g.(round := g.round.(target := MovedTarget(inp.placeDraw)))
    else g
  }

  /** The key the frame polls: none on the two screens that block instead. */
  function PolledKey(g: Globals, inp: FrameInput): int
  {
    if g.state != ShowResults && g.state != GetName then inp.key else -1
  }

  /** One pass of the main loop; a polled 'q' stops it before the screen
      is handled. */
  function AfterFrame(g: Globals, inp: FrameInput): Globals
    requires GlobalsOk(g) && InputOk(g, inp)
  {
    var g1 := Placed(g, inp);
    var key := PolledKey(g1, inp);
    if key == KeyQuit then g1.(running := false)
    else if g1.state == Countdown then
      AfterCountdown(g1, inp.now, inp.hands, inp.labels, inp.width, inp.height, inp.hitDraw)
    else if g1.state == ShowResults then AfterResultsKey(g1, inp.blockingKey, inp.now)
    else if g1.state == GetName then AfterNameKey(g1, inp.blockingKey, inp.now)
    else AfterPolledKey(g1, key, inp.now)
  }

  lemma PlacedKeepsOk(g: Globals, inp: FrameInput)
    requires GlobalsOk(g) && InputOk(g, inp)
    ensures GlobalsOk(Placed(g, inp)) && Placed(g, inp).state == g.state
  {
  }

  lemma ResultsKeyKeepsOk(g: Globals, key: int, now: real)
    requires GlobalsOk(g) && g.state == ShowResults
    ensures GlobalsOk(AfterResultsKey(g, key, now))
  {
    if key == KeyEnter {
      SetupKeepsOk(g, GetName, 0, now);
      SetupKeepsOk(g, Title, 0, now);
    } else if key == KeyRestart {
      SetupKeepsOk(g, Countdown, g.timing.selectedDuration, now);
    }
  }

  lemma PolledKeyKeepsOk(g: Globals, key: int, now: real)
    requires GlobalsOk(g)
    ensures GlobalsOk(AfterPolledKey(g, key, now))
  {
    SetupKeepsOk(g, SelectTime, 0, now);
    SetupKeepsOk(g, Leaderboard, 0, now);
    SetupKeepsOk(g, Title, 0, now);
    SetupKeepsOk(g, Countdown, 30, now);
    SetupKeepsOk(g, Countdown, 60, now);
  }

  /** Every pass of the main loop keeps the globals consistent. */
  lemma FrameKeepsOk(g: Globals, inp: FrameInput)
    requires GlobalsOk(g) && InputOk(g, inp)
    ensures GlobalsOk(AfterFrame(g, inp))
  {
    var g1 := Placed(g, inp);
    PlacedKeepsOk(g, inp);
    var key := PolledKey(g1, inp);
    if key == KeyQuit {
    } else if g1.state == Countdown {
      CountdownKeepsOk(g1, inp.now, inp.hands, inp.labels, inp.width, inp.height, inp.hitDraw);
    } else if g1.state == ShowResults {
      ResultsKeyKeepsOk(g1, inp.blockingKey, inp.now);
    } else if g1.state == GetName {
      NameKeyKeepsOk(g1, inp.blockingKey, inp.now);
    } else {
      PolledKeyKeepsOk(g1, key, inp.now);
    }
  }

  // ---------------------------------------------------------------------
  // The program, as the module globals it updates

  class DesktopGame {
    var state: Screen
    var timing: Timing
    var tally: Tally
    var round: Round
    var highScores: Board
    var nameInput: string
    var running: bool

    function Snapshot(): Globals
      reads this
    {
      Globals(state, timing, tally, round, highScores, nameInput, running)
    }

    predicate Valid()
      reads this
    {
      GlobalsOk(Snapshot())
    }

    /** Start-up: the globals' initial values, the loaded board, then the
        title screen. */
    constructor(file: StoredFile, now: real)
      ensures Valid() && running
      ensures state == Title && highScores == LoadedBoard(file)
      ensures tally == Tally(0, 0, false) && nameInput == "" && round == FreshRound
      ensures timing == Timing(0, 0.0, 0.0)
    {
      state := Title;
      timing := Timing(0, 0.0, 0.0);
      tally := Tally(0, 0, false);
      round := FreshRound;
      highScores := DefaultBoard();
      nameInput := "";
      running := true;
      new;
      var loaded := LoadHighScores(file);
      highScores := loaded;
      SetupState(Title, 0, now);
    }

    method SetupState(s: Screen, duration: int, now: real)
      requires Valid()
      requires s == Countdown ==> IsDuration(duration)
      requires s == ShowResults || s == GetName ==> IsDuration(timing.selectedDuration)
      modifies this
      ensures Snapshot() == AfterSetup(old(Snapshot()), s, duration, now)
      ensures Valid()
    {
      SetupKeepsOk(Snapshot(), s, duration, now);
      tally := tally.(newHighScore := false);
      nameInput := "";
      if s == ShowResults {
        tally := tally.(finalScore := tally.punchCount);
        tally := tally.(newHighScore := Qualifies(ListFor(highScores, timing.selectedDuration), tally.finalScore));
      } else if s == Countdown {
        tally := tally.(punchCount := 0);
        timing := Timing(duration, now, duration as real);
      } else if s == SelectTime || s == Title {
        tally := tally.(punchCount := 0, finalScore := 0);
        timing := timing.(selectedDuration := 0);
      }
      state := s;
      round := FreshRound;
    }

    method MoveTarget(width: int, height: int, draw: (int, int))
      requires DrawOnScreen(draw, width, height)
      modifies this
      ensures round == old(round).(target := MovedTarget(draw))
      ensures state == old(state) && timing == old(timing) && tally == old(tally)
      ensures highScores == old(highScores) && nameInput == old(nameInput) && running == old(running)
      ensures 0 <= round.target.value.x && round.target.value.x + round.target.value.w <= width
      ensures 0 <= round.target.value.y && round.target.value.y + round.target.value.h <= height
    {
      round := round.(target := Some(Rect(draw.0, draw.1, TargetSize, TargetSize)));
    }

    /** The loop over both slots, stopping at the first hit. */
    method HitCheck(now: real, width: int, height: int, draw: (int, int))
      requires Valid() && round.target.Some? && DrawOnScreen(draw, width, height)
      modifies this
      ensures Snapshot() == AfterHitCheck(old(Snapshot()), now, draw)
    {
      var t := round.target.value;
      for i := 0 to 2
        invariant Snapshot() == old(Snapshot())
        invariant forall j :: 0 <= j < i ==> !CanHit(round.curPos, round.lastPunch, now, t, j)
      {
        if round.curPos[i].Some? && now - round.lastPunch[i] > PunchCooldown {
          var collision := CircleRectCollision(round.curPos[i], FistCollisionRadius, t.x, t.y, t.w, t.h);
          if collision {
            tally := tally.(punchCount := tally.punchCount + 1);
            round := round.(roundHits := round.roundHits + 1);
            round := round.(lastPunch := round.lastPunch[i := now]);
            var newStage := StageFor(round.roundHits);
            if newStage != round.stage {
              round := round.(stage := newStage);
            }
            MoveTarget(width, height, draw);
            return;
          }
        }
      }
    }

    /** The countdown screen's frame. */
    method CountdownFrame(now: real, hands: seq<seq<Option<Landmark>>>, labels: seq<string>,
                          width: int, height: int, draw: (int, int))
      requires Valid() && state == Countdown && HandsOk(hands) && DrawOnScreen(draw, width, height)
      modifies this
      ensures Snapshot() == AfterCountdown(old(Snapshot()), now, hands, labels, width, height, draw)
      ensures Valid()
    {
      ghost var g := Snapshot();
      TrackedKeepsOk(g, now, hands, labels, width, height);
      timing := timing.(remainingTime := MaxR(0.0, timing.selectedDuration as real - (now - timing.startTime)));
      var slots := AssignSlots(hands, labels, width, height);
      round := round.(prevPos := round.curPos, curPos := slots);
      assert Snapshot() == Tracked(g, now, hands, labels, width, height);
      if round.target.Some? {
        HitCheck(now, width, height, draw);
        HitCheckKeepsOk(Tracked(g, now, hands, labels, width, height), now, draw);
      }
      assert Snapshot() == CountdownPlay(g, now, hands, labels, width, height, draw);
      if timing.remainingTime <= 0.0 {
        SetupState(ShowResults, 0, now);
      }
    }

    method ResultsKey(key: int, now: real)
      requires Valid() && state == ShowResults
      modifies this
      ensures Snapshot() == AfterResultsKey(old(Snapshot()), key, now)
      ensures Valid()
    {
      if key == KeyEnter {
        if tally.newHighScore {
          SetupState(GetName, 0, now);
        } else {
          SetupState(Title, 0, now);
        }
      } else if key == KeyRestart {
        SetupState(Countdown, timing.selectedDuration, now);
      } else if key == KeyQuit {
        running := false;
      }
    }

    method NameKey(key: int, now: real)
      requires Valid() && state == GetName
      modifies this
      ensures Snapshot() == AfterNameKey(old(Snapshot()), key, now)
      ensures Valid()
    {
      if key == KeyEnter {
        SubmitName(now);
      } else {
        NameKeyKeepsOk(Snapshot(), key, now);
        if key == KeyBackspace {
          nameInput := if nameInput == [] then [] else nameInput[..|nameInput| - 1];
        } else if 32 <= key <= 126 {
          if |nameInput| < MaxNameLength {
            nameInput := nameInput + [key as char];
          }
        }
        // The quit key is printable, so it is typed above and the program's
        // own quit branch on this screen is never reached.
      }
    }

    /** Enter on the name screen: store a non-empty name's score. */
    method SubmitName(now: real)
      requires Valid() && state == GetName
      modifies this
      ensures Snapshot() == AfterNameKey(old(Snapshot()), KeyEnter, now)
      ensures Valid()
    {
      if |nameInput| > 0 {
        ghost var g := Snapshot();
        var entry := Entry(JStr(nameInput), tally.finalScore);
        var key := Str(timing.selectedDuration);
        DurationKeysOf(timing.selectedDuration);
        SubmitInserts(highScores, key, entry);
        highScores := Submit(highScores, key, entry);
        assert Snapshot() == g.(highScores := Submit(g.highScores, key, entry));
        SetupState(Leaderboard, 0, now);
      } else {
        SetupState(Title, 0, now);
      }
    }

    method PolledKeyHandler(key: int, now: real)
      requires Valid() && state != Countdown && state != ShowResults && state != GetName
      modifies this
      ensures Snapshot() == AfterPolledKey(old(Snapshot()), key, now)
      ensures Valid()
    {
      if state == Title {
        if key == KeyStart {
          SetupState(SelectTime, 0, now);
        } else if key == KeyLeaders {
          SetupState(Leaderboard, 0, now);
        }
      } else if state == Leaderboard {
        if key == KeyBack {
          SetupState(Title, 0, now);
        }
      } else if state == SelectTime {
        if key == KeyThirty {
          SetupState(Countdown, 30, now);
        } else if key == KeySixty {
          SetupState(Countdown, 60, now);
        }
      }
    }

    /** One pass of the main loop. */
    method Frame(inp: FrameInput)
      requires Valid() && InputOk(Snapshot(), inp)
      modifies this
      ensures Snapshot() == AfterFrame(old(Snapshot()), inp)
      ensures Valid()
    {
      if state == Countdown && round.target.None? {
        MoveTarget(inp.width, inp.height, inp.placeDraw);
      }
      assert Snapshot() == Placed(old(Snapshot()), inp);
      var key := -1;
      if state != ShowResults && state != GetName {
        key := inp.key;
      }
      if key == KeyQuit {
        running := false;
        return;
      }
      if state == Countdown {
        CountdownFrame(inp.now, inp.hands, inp.labels, inp.width, inp.height, inp.hitDraw);
      } else if state == ShowResults {
        ResultsKey(inp.blockingKey, inp.now);
      } else if state == GetName {
        NameKey(inp.blockingKey, inp.now);
      } else {
        PolledKeyHandler(key, inp.now);
      }
    }
  }
}
