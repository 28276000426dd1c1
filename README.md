# VibeBoxing and the fruit slicer, modelled in Dafny

The repository holds three small webcam games driven by hand tracking. This
project models their game logic.

- **The desktop boxing game** (`fruit_ninja_game.py`) is a single loop over
  camera frames. Its screens are title, duration select, countdown (the
  round itself), results, name entry and leaderboard. During a round it
  averages four knuckle landmarks per hand into a fist point and assigns
  the hands to two slots by their handedness label. A fist point hitting
  the target rectangle, with a 0.2 s cooldown per slot, scores a punch and
  moves the target. The leaderboard is a JSON file holding the top five
  scores for 30 s and for 60 s rounds. Modules: `HighScores`,
  `BoxGeometry` and `BoxDesktop`; the `DesktopGame` class holds the
  loop's global variables.
- **The browser boxing game** (`script.js`) maps the averaged knuckles
  into a mirrored three-dimensional world 18 units wide. It orders two
  hands by their image x, and scores when a glove comes within 1.5 units
  of the target. The target is then moved to a random spot that avoids
  the centre band and, within ten attempts, lies at least 3 units from
  where it was. Module: `BoxWeb`, with the `WebGame` class.
- **The React fruit slicer** (`src/`) spawns fruits from a five-row
  table. It keeps a trail of the last twelve hand positions, each at least
  3 px from the one before. A fruit is sliced when a trail segment, moved
  at 3 px or more, passes within 0.8 of the fruit's size of it. A store
  holds the score, the live and just-sliced fruits, and a 60 s clock.
  Modules: `FruitUtils`, `GameStore` (with the `GameProvider` class),
  `Trail` (with the `TrailBuffer` class) and `Slicing`.

The model follows each file's own form:
- State that the source updates in place lives in classes. Their methods
  are proved against transition functions (`AfterSetup`, `AfterCollide`,
  `AfterSlice`, ...). The properties are lemmas about those functions.
- Loops in the source are methods with loop invariants: knuckle
  averaging, slot assignment, loading the high-score file, target
  placement, the slice test.
- Pure helpers are functions.
- Randomness, clocks, camera input and key presses are parameters.

## Model

| member | source | states |
|---|---|---|
| Common.Trunc | fruit_ninja_game.py:564-565 | `int(x)` rounds toward zero: the result is within one of x, on x's side of zero |
| Common.Clip | fruit_ninja_game.py:227-228 | `np.clip` lands in `[lo, hi]` and leaves a value already inside unchanged |
| Common.ScaledBetween | script.js:225 | `Math.random() * (hi - lo) + lo` with a draw in [0, 1) lies in `[lo, hi)` |
| Common.StageForRange | fruit_ninja_game.py:613 | the damage stage `min(6, 1 + hits // 5)` is between 1 and 6, and is 1 with no hits |
| Common.StageForMonotone | script.js:498 | more hits never lower the damage stage |
| Common.DigitsOf | fruit_ninja_game.py:298 | the decimal digits of a natural number: non-empty, all in '0'..'9' |
| HighScores.StripLeft | fruit_ninja_game.py:150 | the leading whitespace `int()` skips (ASCII tab to carriage return and space, and the non-ASCII white space such as U+0085, U+00A0, U+2000-U+200A and U+3000, but not the ASCII separators U+001C-U+001F): a suffix of the input, with no such character left at its start |
| HighScores.StripRight | fruit_ninja_game.py:150 | the trailing whitespace `int()` ignores, the same characters: a prefix, with no such character left at its end |
| HighScores.ParseIntUnsigned | fruit_ninja_game.py:150 | `int("123")` gives the digits' value |
| HighScores.ParseIntNegative | fruit_ninja_game.py:150 | `int("-123")` gives minus the digits' value |
| HighScores.ParseIntOfStr | fruit_ninja_game.py:150 | `int(str(n)) == n` for every integer n |
| HighScores.ValidEntry | fruit_ninja_game.py:146-155 | an item is kept iff it is an object with 'name' and 'score' and `int(score)` succeeds; it is kept with the converted score |
| HighScores.ValidEntriesMembership | fruit_ninja_game.py:145-155 | an entry is among the kept ones iff some stored item validates to it |
| HighScores.InsertPos | fruit_ninja_game.py:692 | where a score goes in a descending list: after every entry scoring at least as much, before the first lower one |
| HighScores.InsertDescSplit | fruit_ninja_game.py:691-692 | inserting places the entry at that position, with everything before and after it unchanged |
| HighScores.InsertDescSorted | fruit_ninja_game.py:692 | inserting into a descending list keeps it descending |
| HighScores.InsertDescPerm | fruit_ninja_game.py:692 | inserting adds exactly that entry: the multiset grows by it |
| HighScores.SortDesc | fruit_ninja_game.py:157 | the stable sort by score, reversed: sorted descending, a permutation of its input, and for every score the entries with that score in their input order |
| HighScores.InsertDescWithScore | fruit_ninja_game.py:157 | inserting into a sorted list puts the entry after every entry it ties with and keeps the order among the rest |
| HighScores.SortDescOfSorted | fruit_ninja_game.py:157 | sorting an already descending list leaves it as it is (the sort is stable) |
| HighScores.AppendThenSort | fruit_ninja_game.py:691-692 | appending to a sorted list and then sorting is inserting after the entries it ties with |
| HighScores.Top | fruit_ninja_game.py:158 | `[:5]`: a prefix of at most five; a list of at most five is kept whole |
| HighScores.TopSorted | fruit_ninja_game.py:693 | the top five of a descending list are descending |
| HighScores.LoadAsWritten | fruit_ninja_game.py:130-166 | loading as written: the default board without a file, on an operating system read error or on text that is not valid JSON; a crash when the document parses but is not an object; otherwise the normalised board |
| HighScores.TopLevelListCrashes | fruit_ninja_game.py:141 | a file holding `[]` crashes the loader as written, while the corrected loader yields the default board |
| HighScores.LoadedBoardWellFormed | fruit_ninja_game.py:132-163 | whatever the file holds, the board has exactly the keys "30" and "60", each at most five entries in descending order |
| HighScores.TopKeepsBest | fruit_ninja_game.py:157-158 | sorting and truncating keeps only stored entries, and every dropped entry scores no more than the fifth kept one |
| HighScores.BucketKeepsBest | fruit_ninja_game.py:143-158 | the same for one stored list: the kept entries are valid stored ones, and none dropped beats the last kept |
| HighScores.CollectValid | fruit_ninja_game.py:145-155 | the validation loop yields the valid entries in stored order |
| HighScores.LoadList | fruit_ninja_game.py:145-158 | one duration's list: validated, sorted, top five |
| HighScores.LoadHighScores | fruit_ninja_game.py:130-166 | the loading loop over the stored keys yields the normalised board, and it is well-formed |
| HighScores.QualifiesIffKept | fruit_ninja_game.py:301 | "list not full, or beats the last score" holds exactly when the entry would land within the top five |
| HighScores.SubmitInserts | fruit_ninja_game.py:688-693 | saving a name keeps the board well-formed, changes only the round's own key, and inserts the entry after those it ties with |
| HighScores.SubmitQualifyingScore | fruit_ninja_game.py:690-693 | on a full list a qualifying entry is kept, and only the lowest entry drops out |
| BoxGeometry.Clamped | fruit_ninja_game.py:227-228 | the closest rectangle point lies in the rectangle, and is the centre itself when that is inside |
| BoxGeometry.CircleRectCollision | fruit_ninja_game.py:222-234 | no hand, no hit; with a non-zero radius, a centre inside the rectangle always hits |
| BoxGeometry.ClampedIsNearest | fruit_ninja_game.py:226-233 | the clamped point is the rectangle point nearest the centre |
| BoxGeometry.CollisionIffOverlap | fruit_ninja_game.py:222-234 | the test holds iff some point of the rectangle lies strictly inside the circle |
| BoxGeometry.Orientation | fruit_ninja_game.py:242-246 | the result is 0, 1 or 2, and 0 exactly for collinear points |
| BoxGeometry.OrientationReversed | fruit_ninja_game.py:242-246 | swapping the first two points swaps clockwise and counter-clockwise |
| BoxGeometry.Intersect | fruit_ninja_game.py:248-251 | a missing endpoint means no intersection; which segments it accepts and rejects is stated by IntersectIffNotApart |
| BoxGeometry.IntersectSymmetric | fruit_ninja_game.py:248-268 | segment order does not matter |
| BoxGeometry.IntersectReversed | fruit_ninja_game.py:248-268 | a segment's direction does not matter |
| BoxGeometry.SharedEndpointIntersects | fruit_ninja_game.py:248-268 | two segments sharing an endpoint intersect |
| BoxGeometry.CommonPointIntersects | fruit_ninja_game.py:237-268 | two segments that share any lattice point (collinear with each segment and inside its bounding box) intersect |
| BoxGeometry.SameSideSegment | fruit_ninja_game.py:242-246 | a segment whose ends turn the same strict way from a line turns that way at every point between them, so it misses the line |
| BoxGeometry.StrictSideMisses | fruit_ninja_game.py:248-268 | when both ends of one segment lie strictly on the same side of the other's line, the test rejects |
| BoxGeometry.CollinearApartMisses | fruit_ninja_game.py:248-268 | four collinear points whose segments' extents are apart along an axis are rejected |
| BoxGeometry.IntersectIffNotApart | fruit_ninja_game.py:236-268 | the test accepts exactly the segments that are neither strictly on one side of each other's line nor collinear and apart: the general case and the four collinear cases together decide every input |
| BoxGeometry.CollinearOverlap | fruit_ninja_game.py:237-268 | two overlapping segments on one line, where neither end of the second lies in the first's box: the first's start is collinear with the second and in its box |
| BoxDesktop.KnucklePixels | fruit_ninja_game.py:551-559 | a scan that succeeds has one pixel point per knuckle scanned |
| BoxDesktop.KnucklePixelsStayMissing | fruit_ninja_game.py:557-559 | once a knuckle is missing, the scan has failed for good (the `break`) |
| BoxDesktop.KnucklePixelsPresent | fruit_ninja_game.py:553-556 | with every knuckle present, the scan gives each knuckle's pixel in order |
| BoxDesktop.MeanTruncBetween | fruit_ninja_game.py:564-565 | `int(np.mean(...))` of values in `[lo, hi]` lies in `[lo, hi]` |
| BoxDesktop.FistPointInsideKnuckles | fruit_ninja_game.py:562-566 | with all four knuckles, the fist point lies within the knuckles' bounding box |
| BoxDesktop.FistPointFallback | fruit_ninja_game.py:567-572 | with a knuckle missing, the middle knuckle's pixel is used |
| BoxDesktop.FistPoint | fruit_ninja_game.py:545-572 | the per-hand loop computes the fist point |
| BoxDesktop.LastFillingHand | fruit_ninja_game.py:575-583 | a slot is filled iff some placed fist point is labelled for it, and then it holds the last such point |
| BoxDesktop.SlotsFromLabels | fruit_ninja_game.py:538-583 | a slot is filled iff some hand among those processed is labelled for it and has a fist point, and then it holds the point of the last such hand (a later hand with the same label overwrites an earlier one) |
| BoxDesktop.AssignSlots | fruit_ninja_game.py:535-583 | the loop over at most two hands fills the slots as `SlotsAfter` says |
| BoxDesktop.DurationKeysOf | fruit_ninja_game.py:298 | `str(d)` of a selectable duration is a leaderboard key |
| BoxDesktop.SetupResets | fruit_ninja_game.py:283-345 | every screen change clears the name, the punch times, the round hits, the stage and the target; countdown zeroes the count and starts the clock; results copy the count into the final score and flag a high score iff the list has room or the score beats the last |
| BoxDesktop.SetupKeepsOk | fruit_ninja_game.py:283-345 | a screen change keeps the game's invariant |
| BoxDesktop.MoveTargetOnScreen | fruit_ninja_game.py:271-279 | the moved 260 px target lies fully on screen |
| BoxDesktop.HitSlot | fruit_ninja_game.py:598-619 | the scoring slot is the first with a fist point, an expired cooldown and a collision; none if no slot qualifies |
| BoxDesktop.HitCheckCounts | fruit_ninja_game.py:595-619 | one frame scores at most one punch, round hits rise with the count, the stage never drops or passes 6, and a slot's punch time changes only after its cooldown, to now; with no slot able to hit the frame changes nothing, otherwise the first slot able to hit scores one, is stamped with now, and the target moves to the draw |
| BoxDesktop.HitCheckKeepsOk | fruit_ninja_game.py:595-619 | hit detection keeps the invariant |
| BoxDesktop.TrackedKeepsOk | fruit_ninja_game.py:532-583 | tracking hands keeps the invariant |
| BoxDesktop.CountdownKeepsOk | fruit_ninja_game.py:504-627 | a countdown frame keeps the invariant |
| BoxDesktop.CountdownEnds | fruit_ninja_game.py:504-506 | once the selected duration has elapsed, the frame ends on the results screen with at least the punches counted so far |
| BoxDesktop.NameEntryNeverQuits | fruit_ninja_game.py:702-706 | 'q' during name entry is typed as a letter, never a quit (the printable branch comes first) |
| BoxDesktop.NameKeyEffects | fruit_ninja_game.py:683-704 | Enter with a name saves the entry into the round's top five and shows the leaderboard; Enter with no name returns to the title unchanged; a printable key is appended while under ten characters; backspace drops the last character, if any; the name never exceeds ten |
| BoxDesktop.NameKeyKeepsOk | fruit_ninja_game.py:683-706 | name entry keeps the invariant |
| BoxDesktop.PlacedKeepsOk | fruit_ninja_game.py:364-366 | placing the target on the first countdown frame keeps the invariant and the screen |
| BoxDesktop.ResultsKeyKeepsOk | fruit_ninja_game.py:655-665 | the results keys keep the invariant |
| BoxDesktop.PolledKeyKeepsOk | fruit_ninja_game.py:370-501 | title, leaderboard and select keys keep the invariant |
| BoxDesktop.FrameKeepsOk | fruit_ninja_game.py:354-711 | one whole frame keeps the invariant, for frames of any size outside the countdown screen |
| BoxDesktop.DesktopGame.constructor | fruit_ninja_game.py:348-350 | the start-up state: running, title screen, the loaded board, no duration or times set, no punches or score, empty name, fresh round |
| BoxDesktop.DesktopGame.SetupState | fruit_ninja_game.py:283-345 | `setup_state` updates the globals as `AfterSetup` says and keeps the invariant |
| BoxDesktop.DesktopGame.MoveTarget | fruit_ninja_game.py:271-279 | only the target changes, and it lies on screen |
| BoxDesktop.DesktopGame.HitCheck | fruit_ninja_game.py:595-619 | the hit loop updates the globals as `AfterHitCheck` says |
| BoxDesktop.DesktopGame.CountdownFrame | fruit_ninja_game.py:504-627 | a countdown frame updates the globals as `AfterCountdown` says and keeps the invariant |
| BoxDesktop.DesktopGame.ResultsKey | fruit_ninja_game.py:655-665 | a results key updates the globals as `AfterResultsKey` says |
| BoxDesktop.DesktopGame.NameKey | fruit_ninja_game.py:683-706 | a name-entry key updates the globals as `AfterNameKey` says |
| BoxDesktop.DesktopGame.SubmitName | fruit_ninja_game.py:685-698 | Enter in name entry is the Enter case of `AfterNameKey` |
| BoxDesktop.DesktopGame.PolledKeyHandler | fruit_ninja_game.py:370-501 | a polled key updates the globals as `AfterPolledKey` says |
| BoxDesktop.DesktopGame.Frame | fruit_ninja_game.py:354-711 | one pass of the main loop updates the globals as `AfterFrame` says and keeps the invariant |
| BoxWeb.WorldFor | script.js:317-318 | the world is 18 units wide and `width / aspect` high |
| BoxWeb.KnuckleTotals | script.js:466 | the count of knuckles seen is at most the number scanned |
| BoxWeb.CountZeroIffNoKnuckle | script.js:466 | the count is zero iff no knuckle landmark is present |
| BoxWeb.TotalsBetween | script.js:466 | sums of image coordinates in [0, 1] lie between 0 and the count |
| BoxWeb.AverageInImage | script.js:466 | the averaged knuckle position lies in the image |
| BoxWeb.AverageKnuckles | script.js:466 | the per-hand knuckle loop computes the averages |
| BoxWeb.DetectHands | script.js:466 | one averaged hand per detected hand, in order |
| BoxWeb.Handedness | script.js:467 | the chosen indices are in range, point at hands with knuckles, and differ; a left index only with a right one |
| BoxWeb.HandednessOfTwo | script.js:467 | of two hands the right slot gets the smaller image x; on a tie the second hand |
| BoxWeb.HandednessSwap | script.js:467 | swapping two hands with different x swaps the chosen indices |
| BoxWeb.HandednessOthers | script.js:467 | one hand fills only the right slot; zero, three or more hands, or a pair with a knuckle-less hand, fill none |
| BoxWeb.ToWorldInside | script.js:467 | a position in the image maps inside the world |
| BoxWeb.ToWorldMirrored | script.js:467 | the mapping mirrors x: further right in the image is further left in the world |
| BoxWeb.GloveSlotsOrdered | script.js:467-477 | one seen hand drives the right glove alone; two seen hands drive one glove each, the right glove at least as far right in the world as the left; any other input shows no glove |
| BoxWeb.CandidateBounds | script.js:201-241 | a candidate's y lies in the target area; its x lies in the chosen side's range when that range is non-empty |
| BoxWeb.CandidateXBounds | script.js:219-238 | the x half of the above |
| BoxWeb.NoFallbackInWorld | script.js:201-211 | in the 18-unit world, the sides are [-6.2, -2.8) and [2.8, 6.2), whatever the height |
| BoxWeb.Pick | script.js:218-250 | the loop stops after the first attempt at least 3 units away or after ten; the result is that attempt's candidate and every attempt before it was too close |
| BoxWeb.WarnsAfterFarTenth | script.js:250-254 | when only the tenth attempt is far enough, the warning fires even though the position is fine |
| BoxWeb.PickAllClose | script.js:218-250 | with every earlier attempt too close, the tenth candidate is taken |
| BoxWeb.PickFirstFar | script.js:218-250 | a first candidate far enough is taken at once |
| BoxWeb.PickInRange | script.js:241 | the chosen y lies in the target area |
| BoxWeb.PickPosition | script.js:213-254 | the do-while loop computes `Pick` |
| BoxWeb.StageIndexInRange | script.js:262-264 | the texture index is one of the six face textures, and stage n shows the n-th face |
| BoxWeb.StartResets | script.js:111-124 | starting a round zeroes the score, hits and punch times, sets stage 1, the clock to the duration and the screen to playing, and keeps the invariant |
| BoxWeb.TickCountsDown | script.js:135-151 | outside play a tick changes nothing; in play the time drops by the elapsed seconds, floored at zero, and the game ends exactly when it reaches zero; once over, further ticks change nothing |
| BoxWeb.PunchSlot | script.js:484-505 | the scoring glove is the first visible one off cooldown and within 1.5 units of the target; none if no glove qualifies |
| BoxWeb.CollideCounts | script.js:483-508 | the score rises by at most one, the stage stays in range and never drops, the screen and clock are kept, a punch time changes only after its cooldown, to now, and after a hit the target's old position is remembered as the previous one; outside a round, without a visible target or with no glove able to punch nothing changes; otherwise the first glove able to punch adds one to the score and the round's hits, is stamped with now, the stage follows the hits and the target moves to the picked position |
| BoxWeb.HandsKeepOk | script.js:448-508 | tracking and collision keep the invariant |
| BoxWeb.WebGame.constructor | script.js:12-62 | the initial state: title screen, no target, no gloves, zero score, stage 1 |
| BoxWeb.WebGame.SetupScene | script.js:316-365 | the world is set from the aspect, two gloves are created, and the target is placed by the move loop from the origin |
| BoxWeb.WebGame.Resize | script.js:378-395 | only the world's height changes |
| BoxWeb.WebGame.MoveTarget | script.js:194-258 | the target moves as `AfterMove` says, and a warning is reported iff ten attempts were used |
| BoxWeb.WebGame.StartGame | script.js:111-133 | starting updates the state as `AfterStart` says and keeps the invariant |
| BoxWeb.WebGame.EndGame | script.js:153-160 | the screen becomes game over and the timer stops; nothing else changes |
| BoxWeb.WebGame.TickTimer | script.js:135-151 | a tick updates the state as `AfterTick` says and keeps the invariant |
| BoxWeb.WebGame.GoTitle | script.js:602-606 | only the screen changes, to title |
| BoxWeb.WebGame.Collide | script.js:483-508 | the collision loop updates the state as `AfterCollide` says |
| BoxWeb.WebGame.Punch | script.js:493-502 | a hit adds to the score and round hits, stamps the punch time, moves the target and recomputes the stage |
| BoxWeb.WebGame.PlaceGloves | script.js:467-477 | the gloves take the slot positions; nothing else changes |
| BoxWeb.WebGame.HandResults | script.js:448-508 | one hand-tracking result updates the state as `AfterHands` says and keeps the invariant |
| FruitUtils.TableBounds | src/utils/fruitUtils.ts:19-30 | every fruit is worth 10 to 25 points and is 60 to 80 px; no two rows share a name |
| FruitUtils.CreateFruit | src/utils/fruitUtils.ts:32-49 | a new fruit is unsliced, starts 50 px below the window, and has the name, points and size of one table row |
| FruitUtils.CreateFruitRanges | src/utils/fruitUtils.ts:32-49 | with draws in their ranges, the fruit starts between 100 and `max(width - 100, 300)` across, moves upward, and its velocities, rotation, points and size are in range |
| FruitUtils.FindKind | src/utils/fruitUtils.ts:52 | `find` returns a row with that name, and nothing iff no row has it |
| FruitUtils.FruitColorOfTable | src/utils/fruitUtils.ts:51-54 | a listed fruit gets its own row's colour; any other name gets gray |
| GameStore.Remaining | src/context/GameContext.tsx:58 | the slice's filter keeps exactly the fruits with another id that are not sliced |
| GameStore.RemainingSubsequence | src/context/GameContext.tsx:58 | the filter keeps the order |
| GameStore.FindFruit | src/context/GameContext.tsx:52 | `find` returns a fruit with that id, and nothing iff none has it |
| GameStore.SliceEffect | src/context/GameContext.tsx:50-60 | an unknown id changes nothing; a first slice adds the fruit's points once, keeps a sliced copy and removes exactly that id; the clock is untouched; the store stays consistent |
| GameStore.SliceIdempotent | src/context/GameContext.tsx:50-60 | slicing the same id twice is slicing it once |
| GameStore.WithoutId | src/context/GameContext.tsx:44-46 | the expiry keeps exactly the fruits with another id |
| GameStore.ExpireAfterSlice | src/context/GameContext.tsx:43-47 | once a fruit's id is gone, its expiry changes nothing |
| GameStore.RemainingIsWithoutId | src/context/GameContext.tsx:45-58 | on live fruits, the slice's filter and the expiry's agree |
| GameStore.TickCountsDown | src/context/GameContext.tsx:71-86 | a tick takes a second off, ends the game exactly on the last second, and leaves the fruits and score alone |
| GameStore.TicksEndRound | src/context/GameContext.tsx:71-86 | as many ticks as there are seconds left end the game at zero |
| GameStore.SpawnIntervalBounds | src/context/GameContext.tsx:92 | the spawn interval stays between 600 and 1200 ms, never grows with the score, and bottoms out from 120 points |
| GameStore.GameProvider.constructor | src/context/GameContext.tsx:28-32 | the initial store: no score, no fruits, sixty seconds |
| GameStore.GameProvider.AddScore | src/context/GameContext.tsx:34-36 | only the score changes, by the points |
| GameStore.GameProvider.AddFruit | src/context/GameContext.tsx:38-40 | the fruit is appended; the store stays consistent |
| GameStore.GameProvider.Spawn | src/context/GameContext.tsx:88-96 | a fruit is added only while the game runs |
| GameStore.GameProvider.Expire | src/context/GameContext.tsx:43-47 | the fruits with that id are dropped; nothing else changes |
| GameStore.GameProvider.SliceFruit | src/context/GameContext.tsx:50-60 | slicing updates the store as `AfterSlice` says and keeps it consistent |
| GameStore.GameProvider.ResetGame | src/context/GameContext.tsx:62-68 | the store returns to its initial state |
| GameStore.GameProvider.Tick | src/context/GameContext.tsx:74-83 | a tick updates the store as `AfterTick` says and keeps it consistent |
| GameStore.GameProvider.ClearSliced | src/context/GameContext.tsx:99-105 | only the sliced list is emptied |
| Trail.Newest | src/components/GameContainer.tsx:55 | `slice(-12)`: the last `min(n, 12)` points |
| Trail.HandUpdate | src/components/GameContainer.tsx:36-58 | the trail keeps at most twelve points, each at least 3 px from the one before; no hand, or one closer than 3 px to the last point, leaves it unchanged; a hand on an empty trail or at least 3 px away is recorded as the last point of the newest twelve, and only the oldest may be dropped |
| Trail.SpacedSuffix | src/components/GameContainer.tsx:55 | dropping the oldest points keeps the spacing |
| Trail.TrailBuffer.constructor | src/components/GameContainer.tsx:14 | the trail starts empty |
| Trail.TrailBuffer.Update | src/components/GameContainer.tsx:36-58 | the effect updates the trail as `AfterHand` says and keeps it bounded and spaced |
| Trail.GameOverShownIffOver | src/components/GameContainer.tsx:99-101 | since the clock reads zero exactly at game over, the game-over screen shows exactly when the game is over |
| Slicing.SegmentDistSq | src/components/FruitRenderer.tsx:55-90 | the squared distance to the segment is never negative |
| Slicing.ZeroLengthSegment | src/components/FruitRenderer.tsx:67-77 | for a zero-length segment it is the distance to its point |
| Slicing.ClampedEnds | src/components/FruitRenderer.tsx:73-80 | a projection before the start gives the distance to the start; past the end, the distance to the end |
| Slicing.OnSegmentIsZero | src/components/FruitRenderer.tsx:55-90 | a point on the segment is at distance zero |
| Slicing.ProjectionParameter | src/components/FruitRenderer.tsx:65-71 | the parameter of the point at fraction t along the segment is t |
| Slicing.NearestIsClosest | src/components/FruitRenderer.tsx:55-90 | the computed distance is at most the distance to any point of the segment, so it is the point-to-segment distance |
| Slicing.OnlyOldestPointsMatter | src/components/FruitRenderer.tsx:25-27 | as written, only the trail's three oldest points decide the test |
| Slicing.SlowTrailSlicesNothing | src/components/FruitRenderer.tsx:30-35 | as written, when the first two steps are both under 3 px nothing is sliced |
| Slicing.FruitSliced | src/components/FruitRenderer.tsx:25-50 | the inner loop as written reports whether one of the two oldest segments slices the fruit |
| Slicing.NewestSwipeMissed | src/components/FruitRenderer.tsx:25-27 | a four-point trail whose newest step ends on a fruit does not slice it as written, but does under the newest-segment test |
| Slicing.ShortTrailsAgree | src/components/FruitRenderer.tsx:25 | up to three points both tests look at the same segments |
| Slicing.OnlyNewestPointsMatter | src/components/FruitRenderer.tsx:24-25 | the corrected test depends only on the three newest points |
| Slicing.NewestStepSlices | src/components/FruitRenderer.tsx:24-49 | a fast enough newest step passing over the fruit slices it |
| Slicing.SpacedTrailIsFast | src/components/FruitRenderer.tsx:30-35 | on a trail built by the trail effect every step passes the 3 px speed gate |
| Slicing.FruitSlicedNewest | src/components/FruitRenderer.tsx:25-50 | the inner loop over the newest two segments reports whether one slices the fruit |
| Slicing.SliceRunEffect | src/components/FruitRenderer.tsx:23-51 | under either segment test, a run keeps the store consistent, leaves the clock alone, and a live fruit survives unless a fruit the trail reaches shares its id |
| Slicing.SliceRunScores | src/components/FruitRenderer.tsx:23-51 | a run only removes live fruits, keeps the sliced list as a prefix, and the score grows by exactly the points of the fruits it appended |
| Slicing.SliceRunAppendsReached | src/components/FruitRenderer.tsx:23-51 | everything a run appends is the sliced copy of a fruit live before it, carrying the id of a fruit the trail reaches, and no id is appended twice |
| Slicing.SliceRunRemovesReached | src/components/FruitRenderer.tsx:23-51 | a fruit the trail reaches is gone after the run, with every live fruit sharing its id |
| Slicing.SliceRunScoresReached | src/components/FruitRenderer.tsx:23-51 | for a fruit the trail reaches, the first live fruit with its id leaves a sliced copy among those appended, so its points are in the score |
| Slicing.NothingReachedNothingSliced | src/components/FruitRenderer.tsx:23-51 | under either segment test, if the trail reaches no fruit, the run changes nothing |
| Slicing.CheckSlices | src/components/FruitRenderer.tsx:18-52 | no hand, or under two trail points, changes nothing; otherwise each fruit of the list the effect saw is tested once and sliced through the store, as `SliceRun` says; with `OldestTwo` this is the effect as written, with `NewestTwo` the corrected one |

## Left out

- Camera capture, the hand detector, drawing, sound, window and DOM handling, Three.js scene objects, screenshots and score sharing are left out. Detector output, key codes, window sizes and times are parameters.
- Random numbers are parameters: each random draw is a value passed in, stated to lie in the range the source asks for.
- Reading and writing the high-score file are left out. The model starts from the parsed JSON document (or "missing" or "unreadable"), and `save_high_scores` is not modelled.
- HighScores.LoadAsWritten: a file whose bytes are not valid text in the file's encoding makes `json.load` raise `UnicodeDecodeError`, which the `except (json.JSONDecodeError, IOError)` at fruit_ninja_game.py:164 does not catch, so the program stops; the model has no such file (`Unreadable` stands only for the two errors that are caught).
- JSON numbers are finite in the model. A file holding `Infinity` makes `int(...)` raise `OverflowError`, which the loader does not catch; the model does not capture this.
- HighScores.ParseInt: models `int()` on strings of ASCII digits with an optional sign and surrounding whitespace. Underscores between digits and non-ASCII digits, which Python also accepts, are rejected. Python 3.11 and later refuse strings of more than 4300 digits (`ValueError`, so the entry is dropped); the model has no such limit and keeps the entry.
- Entries keep only their name and score. Other fields of a stored entry object are dropped.
- The leaderboard and results screen layout is left out. So is the blinking cursor.
- Numbers in the browser games, and the desktop game's landmark-to-pixel conversion (`int(lm.x * width)`, fruit_ninja_game.py:556, modelled by `BoxDesktop.Pixel`), are reals, not IEEE doubles; a product that rounds across an integer can land one pixel off. Square-root comparisons are stated on squares (`SqrtLess`), which agree for the non-negative distances involved.
- Each frame or callback reads the clock once (the `now` parameter). The source reads it several times: `time.time()` at fruit_ninja_game.py:505 and again at :597, and `Date.now()` once per glove at script.js:487. The readings differ by the time the frame takes to run.
- Landmark depth (z) is left out: it only affects drawing.
- The browser game is assumed to have its glove and face textures loaded; a missing glove texture would hide that glove.
- Several start-up paths in `script.js` set up the scene and listeners twice. The model sets the scene up once, with both title-button listeners acting together.
- `src/utils/helpers.ts` (`getRandomInt`) is not part of this model; the draws are taken to lie in its inclusive ranges.
- The fruits' flight animation (`FruitComponent`) is left out. The slice test uses the fruit's stored spawn position, as the slicing effect does.
- React's render scheduling and batching are left out. Each state update is applied at once, in the order the code issues it. The trail effect reads the trail of the render that scheduled it; the model reads the committed trail.
- BoxDesktop.FrameKeepsOk, and likewise BoxDesktop.AfterFrame and BoxDesktop.DesktopGame.Frame: on the countdown screen a frame narrower or lower than the 260 px target leaves `random.randint` an empty range (fruit_ninja_game.py:277-278); the `ValueError` stops the program. The model does not include this crash and requires countdown frames to be at least that large.
- BoxDesktop.DesktopGame.constructor: loads the board with the corrected loader, `HighScores.LoadHighScores` (see Findings). As written, the program stops at start-up when the file holds JSON that is not an object; `HighScores.LoadAsWritten` models that.

## Findings

| source | as written | input that shows it | evidently intended | confidence | as-written member | corrected member |
|---|---|---|---|---|---|---|
| fruit_ninja_game.py:138-141 | `.items()` is called on whatever the file parses to; a document that is not an object raises `AttributeError`, which the `except` does not catch | a high-score file holding `[]` | treat it like any malformed file and load the default board | high (not executed) | HighScores.LoadAsWritten | HighScores.LoadHighScores |
| src/components/FruitRenderer.tsx:24-27 | the loop tests segments 1 and 2, the trail's oldest, though the comment says the last few | trail (0,0), (10,0), (20,0), (100,100) and an apple at (100,100): the newest step ends on it, and it is not sliced | test the newest two segments, where the hand is now | medium (not executed) | Slicing.FruitSliced | Slicing.FruitSlicedNewest |
