/** Looking up frames of a recording by time: the frame on display, the frame beside it, the time of a marker. */
module EvidenceFrames {
  import opened Numbers
  import opened Results

  /** `n` parts the frames: those up to `timeMs` come before it. */
  predicate PartsAt(frames: seq<real>, timeMs: real, n: nat) {
    && n <= |frames|
    && (forall i :: 0 <= i < n ==> frames[i] <= timeMs)
    && (forall i :: n <= i < |frames| ==> frames[i] > timeMs)
  }

  method UpperFrame(frames: seq<real>, timeMs: real) returns (low: nat)
    requires Ascending(frames)
    ensures PartsAt(frames, timeMs, low)
  {
    low := 0;
    var high := |frames|;
    while low < high
      invariant 0 <= low <= high <= |frames|
      invariant forall i :: 0 <= i < low ==> frames[i] <= timeMs
      invariant forall i :: high <= i < |frames| ==> frames[i] > timeMs
    {
      var middle := (low + high) / 2;
      if frames[middle] <= timeMs {
        low := middle + 1;
      } else {
        high := middle;
      }
    }
  }

  // ----- the frame on display -----

  predicate IsFrame(frames: seq<real>, t: real) {
    exists i :: 0 <= i < |frames| && frames[i] == t
  }

  /** `[range.0, range.1)` is the time the frame at `timeMs` is on display. */
  ghost predicate Displays(frames: seq<real>, duration: real, timeMs: real, range: (real, real)) {
    && IsFrame(frames, range.0) && range.0 <= timeMs < range.1 <= duration
    && (IsFrame(frames, range.1) || range.1 == duration)
    && forall i :: 0 <= i < |frames| ==> !(range.0 < frames[i] < range.1)
  }

  /** `mediaDurationMs` is `None` when it is not given. */
  function Duration(durationMs: real, mediaDurationMs: Option<real>): real {
    Min(durationMs, if mediaDurationMs.Some? then mediaDurationMs.value else durationMs)
  }

  method DisplayedFrameRange(frames: seq<real>, durationMs: real, timeMs: Option<real>, mediaDurationMs: Option<real>)
    returns (range: Option<(real, real)>)
    requires Ascending(frames)
    ensures var cut := mediaDurationMs.Some? && mediaDurationMs.value < durationMs;
            var duration := if cut then mediaDurationMs.value else durationMs;
            && (range.Some? <==> frames != [] && timeMs.Some? && frames[0] <= timeMs.value < duration)
            && (range.Some? ==> Displays(frames, duration, timeMs.value, range.value))
  {
    var duration := Duration(durationMs, mediaDurationMs);
    if |frames| == 0 || timeMs.None? || timeMs.value < frames[0] || timeMs.value >= duration {
      return None;
    }
    var next := UpperFrame(frames, timeMs.value);
    var end := if next < |frames| then Min(frames[next], duration) else duration;
    assert frames[next - 1] == frames[next - 1];
    range := Some((frames[next - 1], end));
  }

  /** Two times share a range or their ranges do not meet, so the ranges part `[first frame, duration)`. */
  lemma RangesPart(frames: seq<real>, duration: real, t: real, u: real, a: (real, real), b: (real, real))
    requires Ascending(frames) && Displays(frames, duration, t, a) && Displays(frames, duration, u, b)
    ensures a == b || a.1 <= b.0 || b.1 <= a.0
    ensures a == b <==> a.0 <= u < a.1
  {
    hide Ascending;
    if a.0 < b.1 && b.0 < a.1 {
      FrameOutside(frames, duration, t, a, b.0);
      FrameOutside(frames, duration, u, b, a.0);
      FrameOutside(frames, duration, t, a, b.1);
      FrameOutside(frames, duration, u, b, a.1);
    }
  }

  lemma FrameOutside(frames: seq<real>, duration: real, t: real, range: (real, real), frame: real)
    requires Displays(frames, duration, t, range)
    ensures IsFrame(frames, frame) ==> frame <= range.0 || frame >= range.1
  {
  }

  // ----- stepping -----

  /** The tolerance of the lookup before a step. */
  const TOLERANCE := 0.001

  /** The frame a step starts from: the last one up to `timeMs` and the tolerance, or the first. */
  ghost predicate StepsFrom(frames: seq<real>, timeMs: real, current: nat) {
    && current < |frames|
    && if frames[0] > timeMs + 0.001 then current == 0 else PartsAt(frames, timeMs + 0.001, current + 1)
  }

  /** The next greater frame time after `v`, or `v` when there is none. */
  ghost predicate NextTime(frames: seq<real>, v: real, w: real) {
    if exists i :: 0 <= i < |frames| && frames[i] > v
    then IsFrame(frames, w) && w > v && forall i :: 0 <= i < |frames| && frames[i] > v ==> frames[i] >= w
    else w == v
  }

  /** The next smaller frame time before `v`, or `v` when there is none. */
  ghost predicate PreviousTime(frames: seq<real>, v: real, u: real) {
    if exists i :: 0 <= i < |frames| && frames[i] < v
    then IsFrame(frames, u) && u < v && forall i :: 0 <= i < |frames| && frames[i] < v ==> frames[i] <= u
    else u == v
  }

  ghost predicate StepsTo(frames: seq<real>, v: real, forward: bool, w: real) {
    if forward then NextTime(frames, v, w) else PreviousTime(frames, v, w)
  }

  /** `w` is what a step from `timeMs` yields. */
  ghost predicate Stepped(frames: seq<real>, timeMs: real, forward: bool, w: real) {
    exists current: nat :: StepsFrom(frames, timeMs, current) && StepsTo(frames, frames[current], forward, w)
  }

  /**
   One step. Frames with the same time count as one: the answer is the next greater or smaller frame
   time, or the same one at either end.
   */
  method AdjacentFrame(frames: seq<real>, timeMs: Option<real>, forward: bool) returns (r: Option<real>)
    requires Ascending(frames)
    ensures r.Some? <==> frames != [] && timeMs.Some?
    ensures r.Some? ==> Stepped(frames, timeMs.value, forward, r.value)
  {
    if |frames| == 0 || timeMs.None? {
      return None;
    }
    var upper := UpperFrame(frames, timeMs.value + TOLERANCE);
    var current := if upper > 0 then upper - 1 else 0;
    assert StepsFrom(frames, timeMs.value, current);
    var direction := if forward then 1 else -1;
    var next: int := current + direction;
    while 0 <= next < |frames| && frames[next] == frames[current]
      invariant if forward then current < next <= |frames| else -1 <= next < current
      invariant forward ==> forall i :: current <= i < next ==> frames[i] == frames[current]
      invariant !forward ==> forall i :: next < i <= current ==> frames[i] == frames[current]
      decreases if forward then |frames| - next else next + 1
    {
      next := next + direction;
    }
    var clamped := if next < 0 then 0 else if next >= |frames| then |frames| - 1 else next;
    assert StepsTo(frames, frames[current], forward, frames[clamped]) by {
      StepLands(frames, current, next, forward);
    }
    r := Some(frames[clamped]);
  }

  lemma StepLands(frames: seq<real>, current: nat, next: int, forward: bool)
    requires Ascending(frames) && current < |frames| && -1 <= next <= |frames|
    requires if forward then current < next else next < current
    requires forward ==> forall i :: current <= i < next ==> frames[i] == frames[current]
    requires !forward ==> forall i :: next < i <= current ==> frames[i] == frames[current]
    requires 0 <= next < |frames| ==> frames[next] != frames[current]
    ensures var clamped := if next < 0 then 0 else if next >= |frames| then |frames| - 1 else next;
            StepsTo(frames, frames[current], forward, frames[clamped])
  {
    if 0 <= next < |frames| {
      assert IsFrame(frames, frames[next]);
    }
  }

  /** Some frame lies after `w`, but not by more than the tolerance. */
  predicate Crowded(frames: seq<real>, w: real) {
    exists i :: 0 <= i < |frames| && w < frames[i] <= w + 0.001
  }

  predicate IsLast(frames: seq<real>, v: real) {
    forall i :: 0 <= i < |frames| ==> frames[i] <= v
  }

  predicate IsFirst(frames: seq<real>, v: real) {
    forall i :: 0 <= i < |frames| ==> frames[i] >= v
  }

  /** The frame a step from a frame's own time starts at: that time, unless the next frame is within the tolerance. */
  lemma StartsAtItself(frames: seq<real>, w: real, current: nat)
    requires Ascending(frames) && IsFrame(frames, w) && StepsFrom(frames, w, current)
    ensures frames[current] >= w && (frames[current] == w <==> !Crowded(frames, w))
  {
    var i :| 0 <= i < |frames| && frames[i] == w;
    assert i <= current;
  }

  /**
   Stepping forward and back. From a frame at time `v` the way back leads to `v` exactly if the frame
   stepped to has no later frame within the tolerance; from the last frame time, exactly if it is also the first.
   */
  lemma ForwardAndBack(frames: seq<real>, timeMs: real, current: nat, w: real, there: nat, u: real)
    requires Ascending(frames) && StepsFrom(frames, timeMs, current) && StepsTo(frames, frames[current], true, w)
    requires StepsFrom(frames, w, there) && StepsTo(frames, frames[there], false, u)
    ensures u == frames[current] <==>
              if IsLast(frames, frames[current]) then IsFirst(frames, frames[current]) else !Crowded(frames, w)
  {
    var v := frames[current];
    assert IsFrame(frames, v);
    StartsAtItself(frames, w, there);
  }

  /**
   Stepping back and forward, the other way round: the way leads back exactly if the frame before is out of the
   tolerance, or from the last frame time.
   */
  lemma BackAndForward(frames: seq<real>, timeMs: real, current: nat, w: real, there: nat, u: real)
    requires Ascending(frames) && StepsFrom(frames, timeMs, current) && StepsTo(frames, frames[current], false, w)
    requires StepsFrom(frames, w, there) && StepsTo(frames, frames[there], true, u)
    ensures u == frames[current] <==>
              frames[current] > w + 0.001 || IsLast(frames, frames[current])
  {
    var v := frames[current];
    assert IsFrame(frames, v);
    StartsAtItself(frames, w, there);
  }

  /** Two frames closer than the tolerance: stepping forward from 0 reaches 10, and back from there 10 again. */
  lemma NoWayBack()
    ensures var frames := [0.0, 10.0, 10.0005];
            && Stepped(frames, 0.0, true, 10.0) && Stepped(frames, 10.0, false, 10.0)
            && Ascending(frames) && Crowded(frames, 10.0)
  {
    var frames := [0.0, 10.0, 10.0005];
    assert StepsFrom(frames, 0.0, 0) && frames[1] == 10.0 && frames[2] == 10.0005;
    assert IsFrame(frames, 10.0);
    assert StepsTo(frames, frames[0], true, 10.0);
    assert StepsFrom(frames, 10.0, 2);
    assert StepsTo(frames, frames[2], false, 10.0);
  }
}
