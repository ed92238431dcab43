/** The capture loop: swipe, measure, keep the page, until the end of the surface is seen. */
module SurfaceCapture {
  import opened Results
  import opened SurfacePixels
  import opened SurfaceStitch
  import opened SurfaceMeasure

  /** What the device answers to one swipe: the new screenshot, and the two ways of asking for the end. */
  datatype Shot = Shot(image: Image, surface: Rect, requestedRows: nat, endVisible: bool, endVisibleStopped: bool)

  /**
   A device: any answers at all, attempt by attempt. `mixed` is what comparing pages of different
   sizes yields, or nothing where it proves no overlap; nothing is assumed about it.
   */
  datatype Device = Device(first: Shot, shot: nat -> Shot, mixed: nat -> Option<nat>)

  predicate ShotFits(s: Shot) {
    Valid(s.image) && Inside(s.surface, s.image) && s.surface.width >= 2
  }

  ghost predicate DeviceFits(d: Device) {
    ShotFits(d.first) && forall k: nat :: ShotFits(d.shot(k))
  }

  function MoveOf(page: Page, shot: Shot): Move {
    Move(page.image, shot.image, page.surface, shot.surface)
  }

  predicate SameSize(a: Rect, b: Rect) {
    a.width == b.width && a.height == b.height
  }

  // ----- what one measurement says -----

  /** The surface did not move between the page and the shot. */
  ghost predicate Stationary(d: Device, page: Page, k: nat) {
    var m := MoveOf(page, d.shot(k));
    if MoveFits(m) then MeanDifference(m, 0, false) < 10.0 else d.mixed(k) == Some(0)
  }

  /**
   The shot is measured to show the page moved by `rows`: the first distance of least score, and a good enough match
   there.
   */
  ghost predicate Measured(d: Device, page: Page, k: nat, rows: nat) {
    hide MeanDifference, MoveScore;
    var m := MoveOf(page, d.shot(k));
    && rows > 0
    && if MoveFits(m)
       then MeanDifference(m, 0, false) >= 10.0
            && BestDistance(m, d.shot(k).requestedRows, rows, DistanceEnd(m)) && MeanDifference(m, rows, true) <= 24.0
       else d.mixed(k) == Some(rows)
  }

  /** The measurement fails: the shot moved, but nowhere matches the page well enough. */
  ghost predicate Unmeasurable(d: Device, page: Page, k: nat, error: Failure) {
    var m := MoveOf(page, d.shot(k));
    && error == NoOverlapProof
    && if MoveFits(m)
       then MeanDifference(m, 0, false) >= 10.0
         && forall rows :: BestDistance(m, d.shot(k).requestedRows, rows, DistanceEnd(m)) ==>
              MeanDifference(m, rows, true) > 24.0
       else d.mixed(k) == None
  }

  method Measure(d: Device, page: Page, k: nat) returns (r: Result<nat>)
    requires PageFits(page) && page.surface.width >= 2 && ShotFits(d.shot(k))
    ensures r == Ok(0) <==> Stationary(d, page, k)
    ensures r.Ok? && r.value > 0 ==> Measured(d, page, k, r.value)
    ensures r.Err? ==> Unmeasurable(d, page, k, r.error)
  {
    hide MeanDifference, BestDistance;
    var shot := d.shot(k);
    var m := MoveOf(page, shot);
    if SameSize(page.surface, shot.surface) {
      r := MeasureRevealedRows(m, shot.requestedRows);
    } else {
      r := if d.mixed(k).Some? then Ok(d.mixed(k).value) else Err(NoOverlapProof);
    }
  }

  /** A measurement has one outcome. */
  lemma OneMeasure(d: Device, page: Page, k: nat, rows: nat, other: nat, error: Failure)
    requires Measured(d, page, k, rows)
    ensures !Stationary(d, page, k) && !Unmeasurable(d, page, k, error)
    ensures Measured(d, page, k, other) ==> other == rows
  {
    hide MeanDifference, BestDistance;
    var m := MoveOf(page, d.shot(k));
    if MoveFits(m) {
      BestPositive(m, d.shot(k).requestedRows, rows);
      OneBestDistance(m, d.shot(k).requestedRows, rows);
    }
  }

  lemma BestPositive(m: Move, requestedRows: int, best: int)
    requires MoveFits(m) && BestDistance(m, requestedRows, best, DistanceEnd(m))
    ensures 1 <= best <= m.previousSurface.height - MinimumOverlap(m.previousSurface.height)
  {
  }

  // ----- the pages a run keeps -----

  /** One past the attempt that page `i` comes from; 0 for the first page. */
  function After(kept: seq<nat>, i: nat): nat
    requires i <= |kept|
  {
    if i == 0 then 0 else kept[i - 1] + 1
  }

  /** At attempt `k`, which kept no page, page `i` is the last one. */
  predicate DropsAt(kept: seq<nat>, i: int, k: int) {
    0 <= i <= |kept| && After(kept, i) <= k && (i < |kept| ==> k < kept[i])
  }

  /** Page `i + 1` is the shot of attempt `kept[i]`, moved from page `i` by the measured rows. */
  ghost predicate KeepsShot(d: Device, pages: seq<Page>, kept: seq<nat>, i: nat)
    requires |pages| == |kept| + 1 && i < |kept|
  {
    var shot := d.shot(kept[i]);
    && pages[i + 1] == Page(shot.image, shot.surface, pages[i + 1].revealedRows)
    && Measured(d, pages[i], kept[i], pages[i + 1].revealedRows)
    && kept[i] <= After(kept, i) + 2
  }

  /** Attempt `k` shows page `i` unmoved, and is at most the third in a row to do so. */
  ghost predicate DropsShot(d: Device, pages: seq<Page>, kept: seq<nat>, i: int, k: nat)
    requires |pages| == |kept| + 1
  {
    0 <= i <= |kept| && Stationary(d, pages[i], k) && k <= After(kept, i) + 2
  }

  /**
   The pages are exactly the first screenshot and the shots of the attempts `kept`, in order, each with its
   measured move from the page before; every other attempt was stationary against the page then last.
   */
  ghost predicate Follows(d: Device, pages: seq<Page>, kept: seq<nat>, swipes: nat) {
    && |pages| == |kept| + 1 && pages[0] == Page(d.first.image, d.first.surface, 0)
    && (forall i, j :: 0 <= i < j < |kept| ==> kept[i] < kept[j])
    && (forall i :: 0 <= i < |kept| ==> kept[i] < swipes && KeepsShot(d, pages, kept, i))
    && (forall i, k :: DropsAt(kept, i, k) && k < swipes ==> DropsShot(d, pages, kept, i, k))
  }

  /**
   The end is seen after `s` swipes: with a marker to wait for, when it shows after a move or after the
   surface stopped; without one, when a swipe moved nothing.
   */
  predicate EndsAt(d: Device, hasUntil: bool, kept: seq<nat>, s: nat) {
    if s == 0 then hasUntil && d.first.endVisible
    else if s - 1 in kept then hasUntil && d.shot(s - 1).endVisible
    else !hasUntil || d.shot(s - 1).endVisibleStopped
  }

  /** A run of `swipes` swipes that had not ended before the last, nor run out of moves before it. */
  ghost predicate Ran(d: Device, maxScrolls: nat, hasUntil: bool, pages: seq<Page>, kept: seq<nat>, swipes: nat) {
    && Follows(d, pages, kept, swipes)
    && (forall s: nat :: s < swipes ==> !EndsAt(d, hasUntil, kept, s))
    && |kept| <= maxScrolls && (|kept| == maxScrolls ==> swipes == After(kept, |kept|))
  }

  /** Why a capture fails: a shot cannot be measured, three swipes in a row moved nothing, or no move is left. */
  ghost predicate Fails(d: Device, maxScrolls: nat, hasUntil: bool, pages: seq<Page>, kept: seq<nat>, swipes: nat,
                        error: Failure) {
    || (swipes > 0 && |kept| < maxScrolls && swipes - 1 <= After(kept, |kept|) + 2
        && Ran(d, maxScrolls, hasUntil, pages, kept, swipes - 1)
        && !EndsAt(d, hasUntil, kept, swipes - 1) && Unmeasurable(d, pages[|kept|], swipes - 1, error))
    || (Ran(d, maxScrolls, hasUntil, pages, kept, swipes) && !EndsAt(d, hasUntil, kept, swipes)
        && if |kept| == maxScrolls then error == EndNotReached
           else error == StoppedMoving && swipes == After(kept, |kept|) + 3)
  }

  /**
   The same, in what the caller sees: three swipes running that moved nothing, while the marker to wait for did not
   show; or as many pages as moves allowed, and the first; or a last shot that matches the last page nowhere.
   */
  ghost predicate FailsFor(d: Device, maxScrolls: nat, hasUntil: bool, pages: seq<Page>, swipes: nat, error: Failure) {
    && 0 < |pages| <= maxScrolls + 1
    && match error
       case StoppedMoving =>
         && hasUntil && 3 <= swipes && |pages| <= maxScrolls
         && forall k :: swipes - 3 <= k < swipes ==>
              Stationary(d, pages[|pages| - 1], k) && !d.shot(k).endVisibleStopped
       case EndNotReached => |pages| == maxScrolls + 1
       case NoOverlapProof => 1 <= swipes && Unmeasurable(d, pages[|pages| - 1], swipes - 1, NoOverlapProof)
       case _ => false
  }

  lemma FailsMeans(d: Device, maxScrolls: nat, hasUntil: bool, pages: seq<Page>, kept: seq<nat>, swipes: nat,
                   error: Failure)
    requires Fails(d, maxScrolls, hasUntil, pages, kept, swipes, error)
    ensures FailsFor(d, maxScrolls, hasUntil, pages, swipes, error)
  {
    hide Stationary, KeepsShot, MeanDifference, BestDistance;
    if Ran(d, maxScrolls, hasUntil, pages, kept, swipes) && error == StoppedMoving {
      var i := |kept|;
      forall k | swipes - 3 <= k < swipes
        ensures Stationary(d, pages[i], k) && !d.shot(k).endVisibleStopped && hasUntil
      {
        assert DropsAt(kept, i, k);
        assert DropsShot(d, pages, kept, i, k);
        NotKept(kept, k);
        assert k + 1 < swipes ==> !EndsAt(d, hasUntil, kept, k + 1);
      }
    }
  }

  lemma NotKept(kept: seq<nat>, k: nat)
    requires After(kept, |kept|) <= k && forall i, j :: 0 <= i < j < |kept| ==> kept[i] < kept[j]
    ensures k !in kept
  {
  }

  lemma StartsRun(d: Device, maxScrolls: nat, hasUntil: bool)
    ensures Ran(d, maxScrolls, hasUntil, [Page(d.first.image, d.first.surface, 0)], [], 0)
  {
  }

  lemma KeepsShotStays(d: Device, pages: seq<Page>, kept: seq<nat>, page: Page, k: nat, i: nat)
    requires |pages| == |kept| + 1 && i < |kept| && KeepsShot(d, pages, kept, i)
    ensures KeepsShot(d, pages + [page], kept + [k], i)
  {
    hide Measured;
  }

  lemma DropsShotStays(d: Device, pages: seq<Page>, kept: seq<nat>, page: Page, k: nat, i: int, n: nat)
    requires |pages| == |kept| + 1 && DropsShot(d, pages, kept, i, n)
    ensures DropsShot(d, pages + [page], kept + [k], i, n)
  {
    hide Stationary;
  }

  /** The shot of attempt `k` becomes the page behind the last one. */
  lemma KeepsLast(d: Device, pages: seq<Page>, kept: seq<nat>, k: nat, rows: nat)
    requires |pages| == |kept| + 1 && k <= After(kept, |kept|) + 2 && Measured(d, pages[|kept|], k, rows)
    ensures KeepsShot(d, pages + [Page(d.shot(k).image, d.shot(k).surface, rows)], kept + [k], |kept|)
  {
    hide Measured;
  }

  lemma DropsAtStays(kept: seq<nat>, k: nat, i: int, n: int)
    requires DropsAt(kept + [k], i, n) && n < k + 1 && forall j :: 0 <= j < |kept| ==> kept[j] < k
    ensures i <= |kept| && 0 <= n < k && DropsAt(kept, i, n)
  {
  }

  lemma KeepStep(d: Device, pages: seq<Page>, kept: seq<nat>, k: nat, rows: nat)
    requires Follows(d, pages, kept, k) && k <= After(kept, |kept|) + 2 && Measured(d, pages[|kept|], k, rows)
    ensures Follows(d, pages + [Page(d.shot(k).image, d.shot(k).surface, rows)], kept + [k], k + 1)
  {
    hide Measured, Stationary, KeepsShot, DropsShot, DropsAt, After;
    var shot := d.shot(k);
    var page := Page(shot.image, shot.surface, rows);
    forall i | 0 <= i < |kept + [k]|
      ensures (kept + [k])[i] < k + 1 && KeepsShot(d, pages + [page], kept + [k], i)
    {
      if i < |kept| {
        KeepsShotStays(d, pages, kept, page, k, i);
      } else {
        KeepsLast(d, pages, kept, k, rows);
      }
    }
    forall i, n | DropsAt(kept + [k], i, n) && n < k + 1
      ensures 0 <= n && DropsShot(d, pages + [page], kept + [k], i, n)
    {
      DropsAtStays(kept, k, i, n);
      DropsShotStays(d, pages, kept, page, k, i, n);
    }
  }

  lemma DropStep(d: Device, pages: seq<Page>, kept: seq<nat>, k: nat)
    requires Follows(d, pages, kept, k) && k <= After(kept, |kept|) + 2 && Stationary(d, pages[|kept|], k)
    ensures Follows(d, pages, kept, k + 1)
  {
    hide Measured, Stationary;
    forall i, n | DropsAt(kept, i, n) && n < k + 1
      ensures DropsShot(d, pages, kept, i, n)
    {
      if n == k {
        assert i == |kept|;
      }
    }
  }

  lemma KeptBelow(d: Device, pages: seq<Page>, kept: seq<nat>, k: nat)
    requires Follows(d, pages, kept, k)
    ensures |pages| == |kept| + 1 && k !in kept
  {
    hide Stationary, KeepsShot, DropsShot;
  }

  /** A swipe that keeps its page: the run goes on, if it had not ended. */
  lemma RunKeeps(d: Device, maxScrolls: nat, hasUntil: bool, pages: seq<Page>, kept: seq<nat>, k: nat, rows: nat)
    requires Ran(d, maxScrolls, hasUntil, pages, kept, k) && !EndsAt(d, hasUntil, kept, k)
    requires |kept| < maxScrolls && k <= After(kept, |kept|) + 2 && Measured(d, pages[|kept|], k, rows)
    ensures Ran(d, maxScrolls, hasUntil, pages + [Page(d.shot(k).image, d.shot(k).surface, rows)], kept + [k], k + 1)
    ensures EndsAt(d, hasUntil, kept + [k], k + 1) == (hasUntil && d.shot(k).endVisible)
  {
    hide Follows, Stationary, Measured;
    KeptBelow(d, pages, kept, k);
    KeepStep(d, pages, kept, k, rows);
    forall s: nat | s < k + 1
      ensures EndsAt(d, hasUntil, kept + [k], s) == EndsAt(d, hasUntil, kept, s)
    {
      assert s - 1 in kept + [k] <==> s - 1 in kept;
    }
    assert k in kept + [k];
  }

  /** A swipe that moved nothing. */
  lemma RunDrops(d: Device, maxScrolls: nat, hasUntil: bool, pages: seq<Page>, kept: seq<nat>, k: nat)
    requires Ran(d, maxScrolls, hasUntil, pages, kept, k) && !EndsAt(d, hasUntil, kept, k)
    requires |kept| < maxScrolls && k <= After(kept, |kept|) + 2 && Stationary(d, pages[|kept|], k)
    ensures Ran(d, maxScrolls, hasUntil, pages, kept, k + 1)
    ensures EndsAt(d, hasUntil, kept, k + 1) == (!hasUntil || d.shot(k).endVisibleStopped)
  {
    hide Follows, Stationary, Measured;
    KeptBelow(d, pages, kept, k);
    DropStep(d, pages, kept, k);
  }

  // ----- the loop -----

  /** A page that follows one of its own size has moved by a measured, sufficiently overlapping distance. */
  predicate Linked(a: Page, b: Page) {
    SameSize(a.surface, b.surface) ==> 1 <= b.revealedRows <= a.surface.height - MinimumOverlap(a.surface.height)
  }

  predicate Chained(pages: seq<Page>) {
    && (forall p :: p in pages ==> PageFits(p) && p.surface.width >= 2)
    && forall i :: 1 <= i < |pages| ==> Linked(pages[i - 1], pages[i])
  }

  /** The pages of a run fit, and each has revealed rows in range. */
  lemma RunIsChained(d: Device, pages: seq<Page>, kept: seq<nat>, swipes: nat)
    requires DeviceFits(d) && Follows(d, pages, kept, swipes)
    ensures Chained(pages)
  {
    hide MeanDifference, BestDistance, DropsShot, Linked;
    forall i | 0 <= i < |pages|
      ensures PageFits(pages[i]) && pages[i].surface.width >= 2
    {
      if i > 0 {
        assert KeepsShot(d, pages, kept, i - 1) && ShotFits(d.shot(kept[i - 1]));
      }
    }
    forall i | 1 <= i < |pages|
      ensures Linked(pages[i - 1], pages[i])
    {
      assert KeepsShot(d, pages, kept, i - 1);
      KeptIsLinked(d, pages[i - 1], kept[i - 1], pages[i]);
    }
  }

  lemma KeptIsLinked(d: Device, page: Page, k: nat, next: Page)
    requires PageFits(page) && page.surface.width >= 2 && ShotFits(d.shot(k))
    requires next == Page(d.shot(k).image, d.shot(k).surface, next.revealedRows) &&
             Measured(d, page, k, next.revealedRows)
    ensures Linked(page, next)
  {
    hide MeanDifference, BestDistance;
    var m := MoveOf(page, d.shot(k));
    if SameSize(page.surface, next.surface) {
      BestPositive(m, d.shot(k).requestedRows, next.revealedRows);
    }
  }

  lemma ChainIsCaptured(pages: seq<Page>)
    requires Chained(pages)
    ensures Captured(pages)
  {
    if |pages| > 1 && SameSurfaces(pages) {
      forall i | 1 <= i < |pages|
        ensures 1 <= pages[i].revealedRows <= pages[0].surface.height - 4
      {
        assert Linked(pages[i - 1], pages[i]);
        assert pages[i - 1] in pages && pages[i] in pages;
      }
    }
  }

  lemma LastFits(d: Device, maxScrolls: nat, hasUntil: bool, pages: seq<Page>, kept: seq<nat>, k: nat)
    requires DeviceFits(d) && Ran(d, maxScrolls, hasUntil, pages, kept, k)
    ensures |pages| == |kept| + 1 && ShotFits(d.shot(k))
    ensures PageFits(pages[|kept|]) && pages[|kept|].surface.width >= 2
  {
    hide Follows, Chained;
    RunIsChained(d, pages, kept, k);
    LastChained(d, pages, kept, k);
  }

  lemma LastChained(d: Device, pages: seq<Page>, kept: seq<nat>, k: nat)
    requires Follows(d, pages, kept, k) && Chained(pages)
    ensures |pages| == |kept| + 1 && PageFits(pages[|kept|]) && pages[|kept|].surface.width >= 2
  {
    hide Linked, KeepsShot, DropsShot;
    assert pages[|kept|] in pages;
  }

  /**
   Swipes until the end is seen. Whatever the device does, the loop makes at most three swipes for
   each move it is allowed. `kept` lists the attempts whose shots became pages: success means the end was
   seen after the last swipe and not before, and each failure has its own cause.
   */
  method CaptureSurface(d: Device, maxScrolls: nat, hasUntil: bool)
    returns (r: Result<seq<Page>>, swipes: nat, ghost pages: seq<Page>, ghost kept: seq<nat>)
    requires DeviceFits(d) && maxScrolls >= 1
    ensures swipes <= 3 * maxScrolls
    ensures r.Ok? ==>
              && r.value == pages && Chained(pages)
              && Ran(d, maxScrolls, hasUntil, pages, kept, swipes) && EndsAt(d, hasUntil, kept, swipes)
    ensures r.Err? ==> Fails(d, maxScrolls, hasUntil, pages, kept, swipes, r.error)
    ensures r.Ok? && hasUntil ==>
              if swipes == 0 then d.first.endVisible
              else if swipes - 1 in kept then d.shot(swipes - 1).endVisible else d.shot(swipes - 1).endVisibleStopped
    ensures r.Ok? && !hasUntil ==> swipes > 0 && swipes - 1 !in kept
    ensures r.Err? ==> FailsFor(d, maxScrolls, hasUntil, pages, swipes, r.error)
  {
    hide Stationary, Measured, Unmeasurable, Ran, EndsAt, ShotFits, PageFits, Chained, DeviceFits, FailsFor;
    var captured := [Page(d.first.image, d.first.surface, 0)];
    kept := [];
    StartsRun(d, maxScrolls, hasUntil);
    EndsAtOnce(d, hasUntil);
    var reachedEnd := hasUntil && d.first.endVisible;
    var movedScrolls, consecutiveDroppedMoves := 0, 0;
    swipes := 0;
    while movedScrolls < maxScrolls && !reachedEnd
      invariant movedScrolls == |kept| <= maxScrolls
      invariant consecutiveDroppedMoves == swipes - After(kept, |kept|) && 0 <= consecutiveDroppedMoves <= 2
      invariant movedScrolls == maxScrolls ==> consecutiveDroppedMoves == 0
      invariant swipes <= 3 * movedScrolls + consecutiveDroppedMoves
      invariant Ran(d, maxScrolls, hasUntil, captured, kept, swipes)
      invariant reachedEnd == EndsAt(d, hasUntil, kept, swipes)
      decreases maxScrolls - movedScrolls, 3 - consecutiveDroppedMoves
    {
      LastFits(d, maxScrolls, hasUntil, captured, kept, swipes);
      var last := captured[|captured| - 1];
      var shot := d.shot(swipes);
      var revealedRows := Measure(d, last, swipes);
      swipes := swipes + 1;
      if revealedRows.Err? {
        FailsMeans(d, maxScrolls, hasUntil, captured, kept, swipes, revealedRows.error);
        return Err(revealedRows.error), swipes, captured, kept;
      }
      if revealedRows.value == 0 {
        RunDrops(d, maxScrolls, hasUntil, captured, kept, swipes - 1);
        reachedEnd := !hasUntil || shot.endVisibleStopped;
        if !reachedEnd {
          consecutiveDroppedMoves := consecutiveDroppedMoves + 1;
          if consecutiveDroppedMoves <= 2 {
            continue;
          }
          FailsMeans(d, maxScrolls, hasUntil, captured, kept, swipes, StoppedMoving);
          return Err(StoppedMoving), swipes, captured, kept;
        }
        break;
      }
      RunKeeps(d, maxScrolls, hasUntil, captured, kept, swipes - 1, revealedRows.value);
      movedScrolls := movedScrolls + 1;
      consecutiveDroppedMoves := 0;
      captured := captured + [Page(shot.image, shot.surface, revealedRows.value)];
      kept := kept + [swipes - 1];
      reachedEnd := hasUntil && shot.endVisible;
    }
    pages := captured;
    if !reachedEnd {
      FailsMeans(d, maxScrolls, hasUntil, captured, kept, swipes, EndNotReached);
      return Err(EndNotReached), swipes, captured, kept;
    }
    EndIs(d, hasUntil, kept, swipes);
    RanFollows(d, maxScrolls, hasUntil, captured, kept, swipes);
    RunIsChained(d, captured, kept, swipes);
    r := Ok(captured);
  }

  /** When the end counts as seen. */
  lemma EndIs(d: Device, hasUntil: bool, kept: seq<nat>, swipes: nat)
    ensures EndsAt(d, hasUntil, kept, swipes) <==>
              if hasUntil
              then if swipes == 0 then d.first.endVisible
                   else if swipes - 1 in kept then d.shot(swipes - 1).endVisible
                   else d.shot(swipes - 1).endVisibleStopped
              else swipes > 0 && swipes - 1 !in kept
  {
  }

  lemma EndsAtOnce(d: Device, hasUntil: bool)
    ensures EndsAt(d, hasUntil, [], 0) == (hasUntil && d.first.endVisible)
  {
  }

  lemma RanFollows(d: Device, maxScrolls: nat, hasUntil: bool, pages: seq<Page>, kept: seq<nat>, swipes: nat)
    requires Ran(d, maxScrolls, hasUntil, pages, kept, swipes)
    ensures Follows(d, pages, kept, swipes)
  {
  }

  // ----- a device that shows one tall surface -----

  /** What the screenshots show: one tall surface, and how far each swipe really moved it. */
  datatype Truth = Truth(tall: Image, moved: nat -> nat)

  /** The page attempt `i` of an ideal device yields: the first screenshot, or the shot after swipe `i - 1`. */
  function PageAt(d: Device, t: Truth, i: nat): Page {
    if i == 0 then Page(d.first.image, d.first.surface, 0)
    else Page(d.shot(i - 1).image, d.shot(i - 1).surface, t.moved(i - 1))
  }

  /** Rows moved before attempt `i`. */
  function Swiped(t: Truth, i: nat): nat {
    if i == 0 then 0 else Swiped(t, i - 1) + t.moved(i - 1)
  }

  predicate SameShape(a: Page, b: Page) {
    SameSize(a.surface, b.surface) && a.image.width == b.image.width && a.image.height == b.image.height
  }

  /**
   Swipe `k` moves the tall surface visibly, leaves enough overlap, and no distance nearer to the
   requested rows passes for the real one. A move by the requested rows always meets the last condition.
   */
  ghost predicate IdealSwipe(d: Device, t: Truth, k: nat) {
    var before, after := PageAt(d, t, k), PageAt(d, t, k + 1);
    var m := MoveOf(before, d.shot(k));
    && SameShape(PageAt(d, t, 0), after)
    && PageShows(after, t.tall, Swiped(t, k + 1), d.first.surface.height)
    && MoveFits(m) && 1 <= t.moved(k) < DistanceEnd(m)
    && MeanDifference(m, 0, false) >= 10.0
    && NoneMistaken(m, d.shot(k).requestedRows, t.moved(k))
  }

  /** The first `n` swipes are ideal. */
  ghost predicate IdealUpTo(d: Device, t: Truth, n: nat) {
    && PageShows(PageAt(d, t, 0), t.tall, 0, d.first.surface.height)
    && forall k: nat :: k < n ==> IdealSwipe(d, t, k)
  }

  /** A finite surface: `n` swipes reach its bottom, and the next one moves nothing. */
  ghost predicate FiniteSurface(d: Device, t: Truth, n: nat) {
    && IdealUpTo(d, t, n) && Stationary(d, PageAt(d, t, n), n)
    && Swiped(t, n) + d.first.surface.height == t.tall.height
  }

  /** A move by the requested rows is never mistaken. */
  lemma RequestedIsNotMistaken(m: Move, requestedRows: nat)
    requires MoveFits(m)
    ensures NoneMistaken(m, requestedRows, requestedRows)
  {
  }

  lemma IdealPage(d: Device, t: Truth, n: nat, k: nat)
    requires IdealUpTo(d, t, n) && k <= n
    ensures PageShows(PageAt(d, t, k), t.tall, Swiped(t, k), d.first.surface.height)
    ensures SameShape(PageAt(d, t, 0), PageAt(d, t, k))
  {
    hide PageShows, MeanDifference, NoneMistaken, MoveFits;
    if k > 0 {
      assert IdealSwipe(d, t, k - 1);
    }
  }

  /** Both pages show the tall surface, so the second is the first moved by the real rows. */
  lemma IdealMove(d: Device, t: Truth, n: nat, k: nat)
    requires IdealUpTo(d, t, n) && k < n
    ensures Measured(d, PageAt(d, t, k), k, t.moved(k))
  {
    hide MeanDifference, Row, Valid, BestDistance, NoneMistaken, IdealUpTo;
    IdealPage(d, t, n, k);
    IdealAt(d, t, n, k);
    var h := d.first.surface.height;
    var before, after := PageAt(d, t, k), PageAt(d, t, k + 1);
    var m := MoveOf(before, d.shot(k));
    var delta := t.moved(k);
    EndInside(m);
    forall j: nat | j < h - delta
      ensures RowMoved(m, delta, j)
    {
      assert SameRow(before.image, before.surface.x, before.surface.y, t.tall, 0, Swiped(t, k), t.tall.width,
             delta + j);
      assert SameRow(after.image, after.surface.x, after.surface.y, t.tall, 0, Swiped(t, k + 1), t.tall.width, j);
    }
    assert MovedBy(m, delta);
    MeasuredExactlyIff(m, d.shot(k).requestedRows, delta);
    TrueDistanceMatches(m, delta, true);
  }

  lemma IdealAt(d: Device, t: Truth, n: nat, k: nat)
    requires IdealUpTo(d, t, n) && k < n
    ensures IdealSwipe(d, t, k)
  {
  }

  /** An attempt that is not stationary keeps its page. */
  lemma MovedIsKept(d: Device, pages: seq<Page>, kept: seq<nat>, swipes: nat, k: nat)
    requires Follows(d, pages, kept, swipes) && k < swipes && k <= |kept| && forall i :: 0 <= i < k ==> kept[i] == i
    requires !Stationary(d, pages[k], k)
    ensures k < |kept| && kept[k] == k
    ensures pages[k + 1] == Page(d.shot(k).image, d.shot(k).surface, pages[k + 1].revealedRows)
    ensures Measured(d, pages[k], k, pages[k + 1].revealedRows)
  {
    hide Stationary, Measured;
    DroppedIs(d, pages, kept, swipes, k, k);
    assert KeepsShot(d, pages, kept, k);
  }

  lemma DroppedIs(d: Device, pages: seq<Page>, kept: seq<nat>, swipes: nat, i: int, k: nat)
    requires Follows(d, pages, kept, swipes) && 0 <= i <= |kept|
    ensures DropsAt(kept, i, k) && k < swipes ==> Stationary(d, pages[i], k) && k <= After(kept, i) + 2
  {
    hide Stationary, KeepsShot;
    if DropsAt(kept, i, k) && k < swipes {
      assert DropsShot(d, pages, kept, i, k);
    }
  }

  /** An attempt that is stationary does not. */
  lemma StoppedIsDropped(d: Device, pages: seq<Page>, kept: seq<nat>, swipes: nat, k: nat)
    requires Follows(d, pages, kept, swipes) && k < swipes && k <= |kept| && forall i :: 0 <= i < k ==> kept[i] == i
    requires Stationary(d, pages[k], k)
    ensures k !in kept && (swipes == k + 1 ==> |kept| == k)
  {
    hide Stationary, Measured, DropsShot;
    if k < |kept| {
      assert KeepsShot(d, pages, kept, k);
      OneMeasure(d, pages[k], kept[k], pages[k + 1].revealedRows, 0, NoViewport);
      assert kept[k] > k;
    }
  }

  /** A stationary shot can be measured. */
  lemma StoppedIsMeasurable(d: Device, page: Page, k: nat, error: Failure)
    requires Stationary(d, page, k)
    ensures !Unmeasurable(d, page, k, error)
  {
    hide MeanDifference, BestDistance;
  }

  /** While the swipes are ideal every attempt keeps its page, and the pages are the ideal ones. */
  lemma {:induction false} IdealTrace(d: Device, t: Truth, n: nat, pages: seq<Page>, kept: seq<nat>, swipes: nat,
                                      k: nat)
    requires IdealUpTo(d, t, n) && Follows(d, pages, kept, swipes) && k <= n && k <= swipes
    ensures |pages| == |kept| + 1 && k <= |kept| && forall i :: 0 <= i < k ==> kept[i] == i
    ensures forall i :: 0 <= i <= k ==> pages[i] == PageAt(d, t, i)
  {
    hide IdealUpTo, Measured, Stationary, Follows;
    if k == 0 {
      FirstPage(d, t, pages, kept, swipes);
    } else {
      IdealTrace(d, t, n, pages, kept, swipes, k - 1);
      IdealMove(d, t, n, k - 1);
      var page, rows := PageAt(d, t, k - 1), t.moved(k - 1);
      OneMeasure(d, page, k - 1, rows, rows, NoViewport);
      MovedIsKept(d, pages, kept, swipes, k - 1);
      OneMeasure(d, page, k - 1, rows, pages[k].revealedRows, NoViewport);
    }
  }

  lemma FirstPage(d: Device, t: Truth, pages: seq<Page>, kept: seq<nat>, swipes: nat)
    requires Follows(d, pages, kept, swipes)
    ensures |pages| == |kept| + 1 && pages[0] == PageAt(d, t, 0)
  {
    hide KeepsShot, DropsShot;
  }

  /** A visible marker after `s` moves that all kept their page. */
  predicate MarkerAt(d: Device, s: nat) {
    if s == 0 then d.first.endVisible else d.shot(s - 1).endVisible
  }

  lemma EndsAtIdeal(d: Device, hasUntil: bool, kept: seq<nat>, k: nat, s: nat)
    requires k <= |kept| && (forall i :: 0 <= i < k ==> kept[i] == i) && s <= k
    ensures EndsAt(d, hasUntil, kept, s) == (hasUntil && MarkerAt(d, s))
  {
    if s > 0 {
      assert kept[s - 1] == s - 1;
    }
  }

  /** The pages of the first `e` swipes of an ideal device. */
  ghost predicate IdealPages(d: Device, t: Truth, pages: seq<Page>, e: nat) {
    |pages| == e + 1 && forall i :: 0 <= i <= e ==> pages[i] == PageAt(d, t, i)
  }

  lemma {:induction false} IdealShift(d: Device, t: Truth, pages: seq<Page>, e: nat, i: nat)
    requires IdealPages(d, t, pages, e) && i <= e
    ensures Shift(pages, i) == Swiped(t, i)
  {
    if i > 0 {
      IdealShift(d, t, pages, e, i - 1);
    }
  }

  /** The pages of an ideal device can be stitched, and show the tall surface. */
  lemma IdealPagesShow(d: Device, t: Truth, n: nat, pages: seq<Page>, e: nat)
    requires IdealUpTo(d, t, n) && e <= n && IdealPages(d, t, pages, e) && Captured(pages)
    ensures Stitchable(pages) && Shows(pages, t.tall) && Valid(t.tall) && |pages| == e + 1
    ensures Shift(pages, e) == Swiped(t, e) && Height(pages) == d.first.surface.height && Width(pages) == t.tall.width
  {
    hide SameRow, Valid, Captured, IdealUpTo;
    forall i | 0 <= i < |pages|
      ensures SameShape(pages[0], pages[i]) && PageShows(pages[i], t.tall, Shift(pages, i), Height(pages))
    {
      IdealShift(d, t, pages, e, i);
      IdealPage(d, t, n, i);
    }
    IdealShift(d, t, pages, e, e);
    assert PageShows(pages[0], t.tall, Shift(pages, 0), Height(pages));
  }

  /** The stitched region of the pages of an ideal device is the tall surface as far as it was swiped. */
  lemma IdealSurface(d: Device, t: Truth, n: nat, pages: seq<Page>, e: nat)
    requires IdealUpTo(d, t, n) && e <= n && IdealPages(d, t, pages, e) && Captured(pages)
    ensures Stitchable(pages) && Valid(t.tall)
    ensures var rows := Swiped(t, e) + d.first.surface.height;
            && rows <= t.tall.height
            && Region(pages, Seams(pages), |pages|) == Block(t.tall, 0, 0, t.tall.width, rows)
            && (rows == t.tall.height ==> Region(pages, Seams(pages), |pages|) == t.tall.data)
  {
    hide *;
    IdealPagesShow(d, t, n, pages, e);
    SurfaceReproduced(pages, t.tall);
    WholeBlock(t.tall);
  }

  lemma KeptCount(d: Device, pages: seq<Page>, kept: seq<nat>, swipes: nat)
    requires Follows(d, pages, kept, swipes) && swipes <= |kept| && forall i :: 0 <= i < swipes ==> kept[i] == i
    ensures |kept| == swipes && |pages| == swipes + 1
  {
    hide KeepsShot, DropsShot;
    if kept != [] {
      KeptAbove(kept, |kept| - 1);
    }
  }

  lemma {:induction false} KeptAbove(kept: seq<nat>, i: nat)
    requires i < |kept| && forall i, j :: 0 <= i < j < |kept| ==> kept[i] < kept[j]
    ensures kept[i] >= i
  {
    if i > 0 {
      KeptAbove(kept, i - 1);
    }
  }

  /** No marker to wait for, or none that shows in the first `n` moves. */
  predicate NoMarker(d: Device, hasUntil: bool, n: nat) {
    hasUntil ==> forall s: nat :: s <= n ==> !MarkerAt(d, s)
  }

  /** A run that has not come further than the ideal swipes: its pages are ideal, and its next swipe can be measured. */
  lemma OnTheWay(d: Device, t: Truth, n: nat, maxScrolls: nat, hasUntil: bool, pages: seq<Page>, kept: seq<nat>,
                 s: nat, error: Failure)
    requires IdealUpTo(d, t, n) && s <= n && Ran(d, maxScrolls, hasUntil, pages, kept, s)
    ensures EndsAt(d, hasUntil, kept, s) == (hasUntil && MarkerAt(d, s))
    ensures |kept| == s && IdealPages(d, t, pages, s) && After(kept, |kept|) == s
    ensures s < n ==> !Unmeasurable(d, pages[s], s, error)
  {
    hide IdealUpTo, Measured, Stationary, Follows, MarkerAt, EndsAt, Unmeasurable;
    IdealTrace(d, t, n, pages, kept, s, s);
    EndsAtIdeal(d, hasUntil, kept, s, s);
    KeptCount(d, pages, kept, s);
    if s < n {
      IdealMove(d, t, n, s);
      OneMeasure(d, pages[s], s, t.moved(s), t.moved(s), error);
    }
  }

  /** Past the bottom of a finite surface the run has ended. */
  lemma AtBottom(d: Device, t: Truth, n: nat, maxScrolls: nat, hasUntil: bool, pages: seq<Page>, kept: seq<nat>, s: nat)
    requires FiniteSurface(d, t, n) && Ran(d, maxScrolls, hasUntil, pages, kept, s) && s > n
    requires hasUntil ==> d.shot(n).endVisibleStopped
    ensures s == n + 1 && EndsAt(d, hasUntil, kept, s) && IdealPages(d, t, pages, n)
  {
    hide IdealUpTo, Measured, Stationary, Follows, Unmeasurable;
    IdealTrace(d, t, n, pages, kept, s, n);
    StoppedIsDropped(d, pages, kept, s, n);
    assert EndsAt(d, hasUntil, kept, n + 1);
  }

  /** How a capture ends, in either way. */
  ghost predicate Outcome(d: Device, maxScrolls: nat, hasUntil: bool, r: Result<seq<Page>>, swipes: nat,
                          pages: seq<Page>, kept: seq<nat>) {
    match r
    case Ok(value) =>
      value == pages && Ran(d, maxScrolls, hasUntil, pages, kept, swipes) && EndsAt(d, hasUntil, kept, swipes)
    case Err(error) => Fails(d, maxScrolls, hasUntil, pages, kept, swipes, error)
  }

  /**
   A finite surface is captured whole: with enough moves allowed, and no marker met before, the capture ends
   after the one swipe that moves nothing, and its pages are the first screenshot and one for each move.
   */
  lemma FiniteIsCaptured(d: Device, t: Truth, n: nat, maxScrolls: nat, hasUntil: bool,
                         r: Result<seq<Page>>, swipes: nat, pages: seq<Page>, kept: seq<nat>)
    requires FiniteSurface(d, t, n) && n < maxScrolls
    requires NoMarker(d, hasUntil, n) && (hasUntil ==> d.shot(n).endVisibleStopped)
    requires Outcome(d, maxScrolls, hasUntil, r, swipes, pages, kept)
    ensures r.Ok? && swipes == n + 1 && IdealPages(d, t, pages, n)
  {
    hide IdealUpTo, Stationary, Follows, MarkerAt, EndsAt, Unmeasurable, Ran, IdealPages, After;
    if r.Err? {
      if swipes > 0 && Ran(d, maxScrolls, hasUntil, pages, kept, swipes - 1) && !EndsAt(d, hasUntil, kept, swipes - 1) {
        if swipes - 1 <= n {
          OnTheWay(d, t, n, maxScrolls, hasUntil, pages, kept, swipes - 1, r.error);
          if swipes - 1 == n {
            LastIdeal(d, t, n, pages);
            StoppedIsMeasurable(d, pages[n], n, r.error);
          }
        } else {
          AtBottom(d, t, n, maxScrolls, hasUntil, pages, kept, swipes - 1);
        }
      }
      if Ran(d, maxScrolls, hasUntil, pages, kept, swipes) {
        if swipes <= n {
          OnTheWay(d, t, n, maxScrolls, hasUntil, pages, kept, swipes, r.error);
        } else {
          AtBottom(d, t, n, maxScrolls, hasUntil, pages, kept, swipes);
        }
      }
    } else if swipes <= n {
      OnTheWay(d, t, n, maxScrolls, hasUntil, pages, kept, swipes, NoViewport);
    } else {
      AtBottom(d, t, n, maxScrolls, hasUntil, pages, kept, swipes);
    }
  }

  lemma LastIdeal(d: Device, t: Truth, n: nat, pages: seq<Page>)
    requires IdealPages(d, t, pages, n)
    ensures |pages| == n + 1 && pages[n] == PageAt(d, t, n)
  {
  }

  /**
   A capture that waits for a marker ends where the marker first shows, if the moves up to there are ideal and
   allowed.
   */
  lemma MarkerEndsCapture(d: Device, t: Truth, n: nat, maxScrolls: nat,
                          r: Result<seq<Page>>, swipes: nat, pages: seq<Page>, kept: seq<nat>)
    requires IdealUpTo(d, t, n) && n <= maxScrolls && MarkerAt(d, n) && forall s: nat :: s < n ==> !MarkerAt(d, s)
    requires Outcome(d, maxScrolls, true, r, swipes, pages, kept)
    ensures r.Ok? && swipes == n && IdealPages(d, t, pages, n)
  {
    hide IdealUpTo, Stationary, Follows, MarkerAt, Unmeasurable, Ran, IdealPages, After, EndsAt;
    if r.Err? && swipes > 0 && Ran(d, maxScrolls, true, pages, kept, swipes - 1) && !EndsAt(d, true, kept, swipes - 1) {
      NotPastMarker(d, t, n, maxScrolls, pages, kept, swipes - 1);
      OnTheWay(d, t, n, maxScrolls, true, pages, kept, swipes - 1, r.error);
    }
    if Ran(d, maxScrolls, true, pages, kept, swipes) {
      NotPastMarker(d, t, n, maxScrolls, pages, kept, swipes);
      OnTheWay(d, t, n, maxScrolls, true, pages, kept, swipes, NoViewport);
    }
  }

  lemma NotPastMarker(d: Device, t: Truth, n: nat, maxScrolls: nat, pages: seq<Page>, kept: seq<nat>, s: nat)
    requires IdealUpTo(d, t, n) && MarkerAt(d, n) && Ran(d, maxScrolls, true, pages, kept, s)
    ensures s <= n
  {
    hide IdealUpTo, Stationary, Follows, MarkerAt, EndsAt;
    if s > n {
      IdealTrace(d, t, n, pages, kept, s, n);
      EndsAtIdeal(d, true, kept, n, n);
    }
  }

  /** With too few moves allowed, and no end in sight, the capture says so after the last move. */
  lemma TooFewMoves(d: Device, t: Truth, n: nat, maxScrolls: nat, hasUntil: bool,
                    r: Result<seq<Page>>, swipes: nat, pages: seq<Page>, kept: seq<nat>)
    requires IdealUpTo(d, t, n) && maxScrolls <= n && NoMarker(d, hasUntil, maxScrolls)
    requires Outcome(d, maxScrolls, hasUntil, r, swipes, pages, kept)
    ensures r == Err(EndNotReached) && swipes == maxScrolls
  {
    hide IdealUpTo, Stationary, Follows, MarkerAt, EndsAt, Unmeasurable, IdealPages;
    if swipes > 0 && Ran(d, maxScrolls, hasUntil, pages, kept, swipes - 1) {
      WithinMoves(d, t, n, maxScrolls, hasUntil, pages, kept, swipes - 1);
      OnTheWay(d, t, n, maxScrolls, hasUntil, pages, kept, swipes - 1, if r.Err? then r.error else NoViewport);
    }
    if Ran(d, maxScrolls, hasUntil, pages, kept, swipes) {
      WithinMoves(d, t, n, maxScrolls, hasUntil, pages, kept, swipes);
      OnTheWay(d, t, n, maxScrolls, hasUntil, pages, kept, swipes, NoViewport);
    }
  }

  lemma WithinMoves(d: Device, t: Truth, n: nat, maxScrolls: nat, hasUntil: bool, pages: seq<Page>, kept: seq<nat>,
                    s: nat)
    requires IdealUpTo(d, t, n) && maxScrolls <= n && Ran(d, maxScrolls, hasUntil, pages, kept, s)
    ensures s <= maxScrolls
  {
    hide IdealUpTo, Stationary, Follows, EndsAt;
    if s > maxScrolls {
      IdealTrace(d, t, n, pages, kept, s, maxScrolls);
    }
  }

  /** A capture that the marker ends after `n` ideal moves. */
  ghost predicate EndsWithMarker(d: Device, t: Truth, n: nat, maxScrolls: nat, hasUntil: bool) {
    hasUntil && IdealUpTo(d, t, n) && n <= maxScrolls && MarkerAt(d, n) && forall s: nat :: s < n ==> !MarkerAt(d, s)
  }

  /** A capture that ends at the bottom of a finite surface, after `n` ideal moves. */
  ghost predicate EndsAtBottom(d: Device, t: Truth, n: nat, maxScrolls: nat, hasUntil: bool) {
    FiniteSurface(d, t, n) && n < maxScrolls && NoMarker(d, hasUntil, n) && (hasUntil ==> d.shot(n).endVisibleStopped)
  }

  /**
   The whole action: capture, then stitch. For every device the image is made of exactly the pages kept.
   A finite surface yields the rows above it, the whole surface and the rows below; a marker yields
   the surface as far as it was swiped.
   */
  method CaptureImage(d: Device, maxScrolls: nat, hasUntil: bool, ghost t: Truth, ghost n: nat)
    returns (r: Result<Image>, swipes: nat, ghost captured: Result<seq<Page>>, ghost pages: seq<Page>,
      ghost kept: seq<nat>)
    requires DeviceFits(d) && maxScrolls >= 1
    ensures swipes <= 3 * maxScrolls
    ensures Outcome(d, maxScrolls, hasUntil, captured, swipes, pages, kept)
    ensures r.Ok? <==> captured.Ok? && Stitchable(pages)
    ensures captured.Err? ==> r.Err? && r.error == captured.error
    ensures captured.Ok? && r.Err? ==> r.error == WhyNot(pages)
    ensures r.Ok? ==>
              && Valid(r.value) && r.value.height == StitchedHeight(pages) && r.value.width == Width(pages)
              && r.value.data == Lead(pages) + Region(pages, Seams(pages), |pages|) + Trail(pages)
              && Framed(pages, r.value)
    ensures EndsAtBottom(d, t, n, maxScrolls, hasUntil) ==>
              && r.Ok? && swipes == n + 1 && |pages| == n + 1
              && Region(pages, Seams(pages), |pages|) == t.tall.data
              && r.value.data == Lead(pages) + t.tall.data + Trail(pages)
    ensures EndsWithMarker(d, t, n, maxScrolls, hasUntil) ==>
              var rows := Swiped(t, n) + d.first.surface.height;
              && r.Ok? && swipes == n && |pages| == n + 1 && rows <= t.tall.height && Valid(t.tall)
              && r.value.data == Lead(pages) + Block(t.tall, 0, 0, t.tall.width, rows) + Trail(pages)
  {
    hide *;
    var surface;
    surface, swipes, pages, kept := CaptureSurface(d, maxScrolls, hasUntil);
    captured := surface;
    OutcomeIs(d, maxScrolls, hasUntil, captured, swipes, pages, kept);
    BottomOutcome(d, t, n, maxScrolls, hasUntil, captured, swipes, pages, kept);
    MarkerOutcome(d, t, n, maxScrolls, hasUntil, captured, swipes, pages, kept);
    if surface.Err? {
      return Err(surface.error), swipes, captured, pages, kept;
    }
    ChainIsCaptured(pages);
    if EndsAtBottom(d, t, n, maxScrolls, hasUntil) || EndsWithMarker(d, t, n, maxScrolls, hasUntil) {
      IdealSurface(d, t, n, pages, n);
    }
    r := StitchSurfacePages(surface.value);
  }

  lemma OutcomeIs(d: Device, maxScrolls: nat, hasUntil: bool, r: Result<seq<Page>>, swipes: nat, pages: seq<Page>,
                  kept: seq<nat>)
    requires r.Ok? ==>
               && r.value == pages
               && Ran(d, maxScrolls, hasUntil, pages, kept, swipes)
               && EndsAt(d, hasUntil, kept, swipes)
    requires r.Err? ==> Fails(d, maxScrolls, hasUntil, pages, kept, swipes, r.error)
    ensures Outcome(d, maxScrolls, hasUntil, r, swipes, pages, kept)
  {
    hide Ran, EndsAt, Fails;
  }

  lemma BottomOutcome(d: Device, t: Truth, n: nat, maxScrolls: nat, hasUntil: bool,
                      r: Result<seq<Page>>, swipes: nat, pages: seq<Page>, kept: seq<nat>)
    requires Outcome(d, maxScrolls, hasUntil, r, swipes, pages, kept)
    ensures EndsAtBottom(d, t, n, maxScrolls, hasUntil) ==>
              && r.Ok? && swipes == n + 1 && |pages| == n + 1 && IdealUpTo(d, t, n) && IdealPages(d, t, pages, n)
              && Swiped(t, n) + d.first.surface.height == t.tall.height
  {
    hide IdealUpTo, NoMarker, Outcome, Stationary;
    if EndsAtBottom(d, t, n, maxScrolls, hasUntil) {
      FiniteIsCaptured(d, t, n, maxScrolls, hasUntil, r, swipes, pages, kept);
    }
  }

  lemma MarkerOutcome(d: Device, t: Truth, n: nat, maxScrolls: nat, hasUntil: bool,
                      r: Result<seq<Page>>, swipes: nat, pages: seq<Page>, kept: seq<nat>)
    requires Outcome(d, maxScrolls, hasUntil, r, swipes, pages, kept)
    ensures EndsWithMarker(d, t, n, maxScrolls, hasUntil) ==>
              r.Ok? && swipes == n && |pages| == n + 1 && IdealUpTo(d, t, n) && IdealPages(d, t, pages, n)
  {
    hide IdealUpTo, MarkerAt, Outcome;
    if EndsWithMarker(d, t, n, maxScrolls, hasUntil) {
      MarkerEndsCapture(d, t, n, maxScrolls, r, swipes, pages, kept);
    }
  }
}
