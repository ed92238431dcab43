/**
 Runs of an app that renders into per-window rings of the newest 120 rows, polled by a capture: a
 complete capture has lost no frame, and exactly when one poll loses a frame without saying so.
 */
module GfxinfoRuns {
  import opened Results
  import opened GfxinfoCapture

  /**
   A window's rows since the reset, how many of them there were at the last successful poll, and whether it is still
   open.
   */
  datatype Window = Window(rows: seq<Row>, polled: nat, open: bool)

  datatype World = World(windows: seq<Window>, capture: Capture)

  datatype Event = Open | Render(w: nat, row: Row) | Close(w: nat) | Poll | BadPoll(output: Option<seq<Line>>)

  const RESET := World([], Capture(map[], [], false))

  /** The rows a ring still holds start here. */
  function RingStart(rows: seq<Row>): (start: nat)
    ensures start <= |rows|
  {
    if |rows| <= RING then 0 else |rows| - RING
  }

  /** The rows of a window that a dump still shows start here; a closed window shows none. */
  function ShownFrom(win: Window): (start: nat)
    ensures start <= |win.rows|
  {
    if win.open then RingStart(win.rows) else |win.rows|
  }

  /** The rings of the open windows. */
  function Rings(windows: seq<Window>): seq<seq<Row>> {
    if windows == [] then []
    else
      var last := windows[|windows| - 1];
      Rings(windows[..|windows| - 1]) + if last.open then [last.rows[RingStart(last.rows)..]] else []
  }

  function AllPolled(windows: seq<Window>): (after: seq<Window>)
    ensures |after| == |windows|
    ensures forall w :: 0 <= w < |windows| ==> after[w] == windows[w].(polled := |windows[w].rows|)
  {
    seq(|windows|, w requires 0 <= w < |windows| => windows[w].(polled := |windows[w].rows|))
  }

  /** Window `w` rendered a frame with key `k` in row `i`. */
  predicate KeyAt(windows: seq<Window>, w: int, i: int, k: Key) {
    && 0 <= w < |windows| && 0 <= i < |windows[w].rows|
    && Kept(windows[w].rows[i]) && KeyOf(FrameOf(windows[w].rows[i])) == k
  }

  /** What may happen: a row is rendered by an open window, and a bad poll is one that cannot be read. */
  ghost predicate Proper(world: World, e: Event) {
    match e
    case Open => true
    case Render(w, row) => w < |world.windows| && world.windows[w].open
    case Close(w) => w < |world.windows|
    case Poll => true
    case BadPoll(output) => output.Some? ==> Parse(output.value).Failed?
  }

  function Step(world: World, e: Event): World {
    match e
    case Open => world.(windows := world.windows + [Window([], 0, true)])
    case Render(w, row) =>
      if w < |world.windows|
      then world.(windows := world.windows[w := world.windows[w].(rows := world.windows[w].rows + [row])])
      else world
    case Close(w) =>
      if w < |world.windows| then world.(windows := world.windows[w := world.windows[w].(open := false)]) else world
    case Poll => World(AllPolled(world.windows), Polled(world.capture, Some(Dump(Rings(world.windows)))))
    case BadPoll(output) => world.(capture := Polled(world.capture, output))
  }

  function Run(events: seq<Event>): World {
    if events == [] then RESET else Step(Run(events[..|events| - 1]), events[|events| - 1])
  }

  // ----- what every run keeps -----

  /** No two frames share a key; the key names no window, so frames of two windows may. */
  ghost predicate Unique(windows: seq<Window>) {
    forall w, i, v, j, k :: KeyAt(windows, w, i, k) && KeyAt(windows, v, j, k) ==> w == v && i == j
  }

  /** No two different frames share a key. */
  ghost predicate NoClash(windows: seq<Window>) {
    forall w, i, v, j, k :: KeyAt(windows, w, i, k) && KeyAt(windows, v, j, k) ==>
        FrameOf(windows[w].rows[i]) == FrameOf(windows[v].rows[j])
  }

  ghost predicate Counted(windows: seq<Window>) {
    forall w :: 0 <= w < |windows| ==> windows[w].polled <= |windows[w].rows|
  }

  /** A frame held under `k` is one some window rendered and a poll has seen. */
  ghost predicate HasSource(windows: seq<Window>, k: Key, f: Frame) {
    exists w, i :: KeyAt(windows, w, i, k) && i < windows[w].polled && FrameOf(windows[w].rows[i]) == f
  }

  ghost predicate Sourced(world: World) {
    forall k :: k in world.capture.frames ==> HasSource(world.windows, k, world.capture.frames[k])
  }

  /** Every key rendered before the last successful poll is held. */
  ghost predicate PolledHeld(world: World) {
    forall w, i, k :: KeyAt(world.windows, w, i, k) && i < world.windows[w].polled ==> k in world.capture.frames
  }

  ghost predicate Kernel(world: World) {
    Counted(world.windows) && Sourced(world) && |world.capture.frames| <= MAX_FRAMES
  }

  /** Every key rendered so far is held. */
  ghost predicate KeysHeld(world: World) {
    forall w, i, k :: KeyAt(world.windows, w, i, k) ==> k in world.capture.frames
  }

  /** Every frame rendered so far is held, as it was rendered. */
  ghost predicate AllHeld(world: World) {
    forall w, i, k :: KeyAt(world.windows, w, i, k) ==>
      k in world.capture.frames && world.capture.frames[k] == FrameOf(world.windows[w].rows[i])
  }

  /** When keys are shared: frames are held as rendered exactly if their keys are, and no two of them clash. */
  lemma AllHeldIff(world: World)
    requires Sourced(world)
    ensures AllHeld(world) <==> KeysHeld(world) && NoClash(world.windows)
  {
    hide FrameOf, KeyOf, Kept, HasSource;
    var held := world.capture.frames;
    forall w, i, k | KeysHeld(world) && NoClash(world.windows) && KeyAt(world.windows, w, i, k)
      ensures k in held && held[k] == FrameOf(world.windows[w].rows[i])
    {
      var v, j := HeldSource(world, k);
    }
    if AllHeld(world) {
      forall w, i, v, j, k | KeyAt(world.windows, w, i, k) && KeyAt(world.windows, v, j, k)
        ensures FrameOf(world.windows[w].rows[i]) == FrameOf(world.windows[v].rows[j])
      {
        assert held[k] == FrameOf(world.windows[w].rows[i]);
      }
    }
  }

  // ----- what a poll sees -----

  /** The dump shows a row with this key. */
  predicate InRing(windows: seq<Window>, w: int, i: int, k: Key) {
    KeyAt(windows, w, i, k) && i >= ShownFrom(windows[w])
  }

  ghost predicate Shown(windows: seq<Window>, k: Key) {
    exists w, i :: InRing(windows, w, i, k)
  }

  ghost predicate Rendered(windows: seq<Window>, k: Key) {
    exists w, i :: KeyAt(windows, w, i, k)
  }

  /**
   The frame in row `i` was rendered after the last poll, and is not shown by this one: overwritten, or its window
   closed.
   */
  predicate Missed(windows: seq<Window>, w: int, i: int, k: Key) {
    KeyAt(windows, w, i, k) && windows[w].polled <= i < ShownFrom(windows[w])
  }

  /** The rows of a window that this poll is the first to see. */
  function NewFrom(win: Window): (start: nat)
    ensures win.polled <= |win.rows| ==> start <= |win.rows|
  {
    if win.polled >= ShownFrom(win) then win.polled else ShownFrom(win)
  }

  /** The keys that window `w` shows and the capture does not hold. */
  ghost function FreshOf(world: World, w: nat): set<Key>
    requires w < |world.windows|
  {
    var rows := world.windows[w].rows;
    set i | ShownFrom(world.windows[w]) <= i < |rows| && Kept(rows[i])
              && KeyOf(FrameOf(rows[i])) !in world.capture.frames :: KeyOf(FrameOf(rows[i]))
  }

  /** The keys that the dump shows and the capture does not hold. */
  ghost function FreshKeys(world: World): set<Key> {
    set w, k | 0 <= w < |world.windows| && k in FreshOf(world, w) :: k
  }

  /** The capture says that frames may have been overwritten: a ring is full, and at least 108 keys are new. */
  ghost predicate Overflows(world: World) {
    SomeRingFull(Rings(world.windows)) && |FreshKeys(world)| >= SAFE_NEW_FRAMES
  }

  /**
   A poll loses a key without a gap: every frame with that key was overwritten or closed away unseen, the retention
   limit does not stop the poll, and still no ring is full or fewer than 108 of the keys it sees are new.
   */
  ghost predicate LosesKey(world: World, k: Key) {
    && world.capture.gaps == [] && !Taken(world).full && !Overflows(world)
    && Rendered(world.windows, k)
    && forall w, i :: KeyAt(world.windows, w, i, k) ==> Missed(world.windows, w, i, k)
  }

  ghost predicate LosesSilently(world: World) {
    exists k :: LosesKey(world, k)
  }

  // ----- what is in a dump -----

  lemma {:induction false} KeptIff(rows: seq<Row>, f: Frame)
    ensures f in KeptFrames(rows) <==> exists i :: 0 <= i < |rows| && Kept(rows[i]) && FrameOf(rows[i]) == f
  {
    if rows != [] {
      var before := rows[..|rows| - 1];
      KeptIff(before, f);
      if i :| 0 <= i < |rows| && Kept(rows[i]) && FrameOf(rows[i]) == f {
        if i < |before| {
          assert before[i] == rows[i];
        }
      }
      if f in KeptFrames(before) {
        var i :| 0 <= i < |before| && Kept(before[i]) && FrameOf(before[i]) == f;
        assert before[i] == rows[i];
      }
    }
  }

  lemma CollectedSnoc(rings: seq<seq<Row>>, ring: seq<Row>)
    ensures Collected(rings + [ring]) == Collected(rings) + KeptFrames(ring)
  {
    assert (rings + [ring])[..|rings|] == rings;
  }

  lemma CollectedStep(windows: seq<Window>)
    requires windows != []
    ensures var before, last := windows[..|windows| - 1], windows[|windows| - 1];
            Collected(Rings(windows)) ==
              Collected(Rings(before)) + if last.open then KeptFrames(last.rows[RingStart(last.rows)..]) else []
  {
    var before, last := windows[..|windows| - 1], windows[|windows| - 1];
    CollectedSnoc(Rings(before), last.rows[RingStart(last.rows)..]);
    assert Rings(before) + [] == Rings(before);
  }

  lemma {:induction false} DumpOffers(windows: seq<Window>, w: int, i: int, k: Key)
    requires InRing(windows, w, i, k)
    ensures FrameOf(windows[w].rows[i]) in Collected(Rings(windows))
    ensures KeyOffered(Collected(Rings(windows)), k)
  {
    hide Collected, Rings, KeptFrames;
    var before, last := windows[..|windows| - 1], windows[|windows| - 1];
    var f := FrameOf(windows[w].rows[i]);
    CollectedStep(windows);
    if w < |before| {
      assert InRing(before, w, i, k);
      DumpOffers(before, w, i, k);
    } else {
      var ring := last.rows[RingStart(last.rows)..];
      assert ring[i - RingStart(last.rows)] == last.rows[i];
      KeptIff(ring, f);
    }
    assert f in Collected(Rings(windows)) && KeyOf(f) == k;
  }

  lemma NoneCollected()
    ensures Collected(Rings([])) == []
  {
  }

  lemma {:induction false} OfferedFrom(windows: seq<Window>, k: Key, f: Frame) returns (w: int, i: int)
    requires Offered(Collected(Rings(windows)), k, f)
    ensures InRing(windows, w, i, k) && FrameOf(windows[w].rows[i]) == f
  {
    hide FrameOf, Kept, KeptFrames, KeyOf;
    if windows == [] {
      NoneCollected();
      return;
    }
    hide Collected, Rings;
    var before, last := windows[..|windows| - 1], windows[|windows| - 1];
    CollectedStep(windows);
    if last.open && f in KeptFrames(last.rows[RingStart(last.rows)..]) {
      w := |before|;
      i := ShownRow(last, f);
    } else {
      w, i := OfferedFrom(before, k, f);
      EarlierRing(windows, w, i, k);
    }
  }

  lemma ShownRow(win: Window, f: Frame) returns (i: nat)
    requires win.open && f in KeptFrames(win.rows[RingStart(win.rows)..])
    ensures ShownFrom(win) <= i < |win.rows| && Kept(win.rows[i]) && FrameOf(win.rows[i]) == f
  {
    hide FrameOf, Kept, KeptFrames;
    var ring := win.rows[RingStart(win.rows)..];
    KeptIff(ring, f);
    var j :| 0 <= j < |ring| && Kept(ring[j]) && FrameOf(ring[j]) == f;
    i := j + RingStart(win.rows);
    assert win.rows[i] == ring[j];
  }

  lemma EarlierRing(windows: seq<Window>, w: int, i: int, k: Key)
    requires windows != [] && InRing(windows[..|windows| - 1], w, i, k)
    ensures InRing(windows, w, i, k) && windows[w] == windows[..|windows| - 1][w]
  {
  }

  lemma {:induction false} FullRingShows(windows: seq<Window>, w: nat)
    requires w < |windows| && windows[w].open && |windows[w].rows| >= RING
    ensures SomeRingFull(Rings(windows))
  {
    var before, last := windows[..|windows| - 1], windows[|windows| - 1];
    if w < |before| {
      FullRingShows(before, w);
      var j :| 0 <= j < |Rings(before)| && |Rings(before)[j]| >= RING;
      assert Rings(windows)[j] == Rings(before)[j];
    } else {
      assert |Rings(windows)[|Rings(before)|]| >= RING;
    }
  }

  // ----- counting new keys -----

  predicate DistinctRows(rows: seq<Row>) {
    forall i, j :: 0 <= i < j < |rows| && Kept(rows[i]) && Kept(rows[j]) ==>
        KeyOf(FrameOf(rows[i])) != KeyOf(FrameOf(rows[j]))
  }

  lemma FreshIff(world: World, k: Key)
    ensures k in FreshKeys(world) <==> Shown(world.windows, k) && k !in world.capture.frames
  {
    hide FrameOf, KeyOf, Kept;
    if w, i :| InRing(world.windows, w, i, k) && k !in world.capture.frames {
      assert k in FreshOf(world, w);
    }
    if k in FreshKeys(world) {
      var w :| 0 <= w < |world.windows| && k in FreshOf(world, w);
      var rows := world.windows[w].rows;
      var i :| ShownFrom(world.windows[w]) <= i < |rows| && Kept(rows[i])
        && KeyOf(FrameOf(rows[i])) !in world.capture.frames && KeyOf(FrameOf(rows[i])) == k;
      assert InRing(world.windows, w, i, k);
    }
  }

  lemma FreshOfInside(world: World, w: nat)
    requires w < |world.windows|
    ensures |FreshOf(world, w)| <= |FreshKeys(world)|
  {
    hide FreshOf;
    Included(FreshOf(world, w), FreshKeys(world));
  }

  lemma {:induction false} Included<T>(a: set<T>, b: set<T>)
    requires a <= b
    ensures |a| <= |b|
  {
    if a != {} {
      var x :| x in a;
      Included(a - {x}, b - {x});
    }
  }

  // ----- one poll -----

  lemma KeyInside(windows: seq<Window>, w: int, i: int, k: Key)
    requires KeyAt(windows, w, i, k)
    ensures 0 <= w < |windows| && 0 <= i < |windows[w].rows|
  {
  }

  function Taken(world: World): Intake {
    TakeIn(world.capture.frames, Collected(Rings(world.windows)))
  }

  ghost predicate SeenAt(world: World, w: int, i: int, k: Key, f: Frame) {
    && KeyAt(world.windows, w, i, k) && FrameOf(world.windows[w].rows[i]) == f
    && !Missed(world.windows, w, i, k)
  }

  /** Whatever is held after a poll was rendered, and was not missed. */
  lemma TakenFrom(world: World, k: Key) returns (w: int, i: int)
    requires Kernel(world) && k in Taken(world).frames
    ensures SeenAt(world, w, i, k, Taken(world).frames[k])
  {
    hide TakeIn, Collected, Rings;
    var offered := Collected(Rings(world.windows));
    IntakeSound(world.capture.frames, offered);
    var f := Taken(world).frames[k];
    if k in world.capture.frames && world.capture.frames[k] == f {
      w, i := HeldSource(world, k);
    } else {
      w, i := OfferedFrom(world.windows, k, f);
    }
  }

  /** Short of the retention limit a poll adds exactly the keys that the dump shows. */
  lemma TakenIff(world: World, k: Key)
    requires Kernel(world) && !Taken(world).full
    ensures k in Taken(world).frames <==> k in world.capture.frames || Shown(world.windows, k)
  {
    hide TakeIn, Collected, Rings, Sourced, Counted, FrameOf, KeyOf, Kept;
    var offered := Collected(Rings(world.windows));
    IntakeSound(world.capture.frames, offered);
    if w, i :| InRing(world.windows, w, i, k) {
      DumpOffers(world.windows, w, i, k);
    }
    if k in Taken(world).frames && k !in world.capture.frames {
      var w, i := OfferedFrom(world.windows, k, Taken(world).frames[k]);
    }
  }

  /** Short of the retention limit, a key is held after a poll exactly if the poll missed not every frame with it. */
  lemma HeldUnlessMissed(world: World, k: Key)
    requires Kernel(world) && PolledHeld(world) && !Taken(world).full
    ensures k in Taken(world).frames <==>
              exists w, i :: KeyAt(world.windows, w, i, k) && !Missed(world.windows, w, i, k)
  {
    hide Taken, Kernel, KeyAt;
    TakenIff(world, k);
    if k in Taken(world).frames {
      var w, i := TakenFrom(world, k);
    }
    if w, i :| KeyAt(world.windows, w, i, k) && !Missed(world.windows, w, i, k) {
      KeyInside(world.windows, w, i, k);
      if i >= world.windows[w].polled {
        assert InRing(world.windows, w, i, k);
      }
    }
  }

  lemma HeldSource(world: World, k: Key) returns (w: int, i: int)
    requires Sourced(world) && k in world.capture.frames
    ensures KeyAt(world.windows, w, i, k) && i < world.windows[w].polled
    ensures FrameOf(world.windows[w].rows[i]) == world.capture.frames[k]
  {
    var f := world.capture.frames[k];
    assert HasSource(world.windows, k, f);
    w, i :| KeyAt(world.windows, w, i, k) && i < world.windows[w].polled && FrameOf(world.windows[w].rows[i]) == f;
  }

  lemma SourceIs(windows: seq<Window>, w: int, i: int, k: Key, f: Frame)
    requires KeyAt(windows, w, i, k) && i < windows[w].polled && FrameOf(windows[w].rows[i]) == f
    ensures HasSource(windows, k, f)
  {
  }

  /** Short of the retention limit, the new-frame count of a poll is the number of keys shown and not held before. */
  lemma GainedIsFresh(world: World)
    requires Kernel(world) && !Taken(world).full
    ensures Taken(world).gained == |FreshKeys(world)|
  {
    hide *;
    GainedKeys(world);
    forall k: Key
      ensures k in Taken(world).frames && k !in world.capture.frames <==> k in FreshKeys(world)
    {
      TakenIff(world, k);
      FreshIff(world, k);
    }
    assert Taken(world).frames.Keys - world.capture.frames.Keys == FreshKeys(world);
  }

  lemma GainedKeys(world: World)
    requires Kernel(world)
    ensures Taken(world).gained == |Taken(world).frames.Keys - world.capture.frames.Keys|
  {
    hide TakeIn, Collected, Rings, Counted, Sourced;
    IntakeSound(world.capture.frames, Collected(Rings(world.windows)));
    var held, taken := world.capture.frames.Keys, Taken(world).frames.Keys;
    assert taken == held + (taken - held);
  }

  /** A gap, once recorded, stays; a poll that reads the dump records one in just two cases. */
  lemma PollGaps(world: World)
    requires Kernel(world)
    ensures var after := Step(world, Poll);
            && after.capture.frames == Taken(world).frames && after.windows == AllPolled(world.windows)
            && (after.capture.gaps == [] <==>
                  world.capture.gaps == [] && !Taken(world).full && !Overflows(world))
  {
    hide Dump, TakeIn, Collected, Rings, Parse, FreshKeys, Kernel, SomeRingFull;
    DumpReadsBack(Rings(world.windows));
    if !Taken(world).full {
      GainedIsFresh(world);
    }
  }

  lemma SameKeys(windows: seq<Window>)
    ensures forall w, i, k :: KeyAt(AllPolled(windows), w, i, k) <==> KeyAt(windows, w, i, k)
  {
  }

  lemma PollKernel(world: World)
    requires Kernel(world)
    ensures Kernel(Step(world, Poll))
  {
    hide TakeIn, Collected, Rings, KeyAt, Polled, Dump, Overflows;
    var after := Step(world, Poll);
    PollGaps(world);
    SameKeys(world.windows);
    IntakeSound(world.capture.frames, Collected(Rings(world.windows)));
    forall k | k in after.capture.frames
      ensures HasSource(after.windows, k, after.capture.frames[k])
    {
      var w, i := TakenFrom(world, k);
      KeyInside(world.windows, w, i, k);
      assert KeyAt(after.windows, w, i, k);
    }
  }

  /**
   Exactly when one poll loses a key without saying so: from a capture that has no gap and holds every
   key polled so far, the poll leaves no gap and misses a key if and only if it loses one silently.
   */
  lemma SilentLoss(world: World)
    requires Kernel(world) && PolledHeld(world) && world.capture.gaps == []
    ensures var after := Step(world, Poll);
            after.capture.gaps == [] && !KeysHeld(after) <==> LosesSilently(world)
    ensures var after := Step(world, Poll);
            after.capture.gaps == [] && !LosesSilently(world) ==> KeysHeld(after) && PolledHeld(after)
  {
    hide Taken, Overflows, KeyAt, Missed, PolledHeld, Step;
    var after := Step(world, Poll);
    PollGaps(world);
    SameKeys(world.windows);
    if after.capture.gaps == [] {
      forall k: Key
        ensures Rendered(world.windows, k) ==> (k !in after.capture.frames <==> LosesKey(world, k))
      {
        HeldUnlessMissed(world, k);
      }
      forall w, i, k | KeyAt(after.windows, w, i, k)
        ensures k !in after.capture.frames <==> LosesKey(world, k)
      {
        assert KeyAt(world.windows, w, i, k);
      }
      if k :| LosesKey(world, k) {
        var w, i :| KeyAt(world.windows, w, i, k);
        assert KeyAt(after.windows, w, i, k);
      }
      HeldIsPolled(after);
    }
  }

  lemma HeldIsPolled(world: World)
    ensures KeysHeld(world) ==> PolledHeld(world)
  {
  }

  // ----- whole runs -----

  /**
   Of the rows of each ring that the poll is the first to see, at most 12 are skipped by the parser, or repeat a key
   that is held or shown before.
   */
  ghost predicate FewSkipped(world: World) {
    forall w :: 0 <= w < |world.windows| && world.windows[w].open ==>
      |world.windows[w].rows| - NewFrom(world.windows[w]) - |FreshOf(world, w)| <= 12
  }

  /** No window closed with frames that no poll had seen. */
  ghost predicate ClosedPolled(windows: seq<Window>) {
    forall w, i, k :: KeyAt(windows, w, i, k) && !windows[w].open ==> i < windows[w].polled
  }

  /** With at most 12 skipped rows in every ring, and no unseen frame in a closed window, no poll loses silently. */
  lemma FewSkippedIsLoud(world: World)
    requires FewSkipped(world) && ClosedPolled(world.windows)
    ensures !LosesSilently(world)
  {
    hide Taken, FreshOf, FreshKeys, Kept, KeyOf, FrameOf, Rings, SomeRingFull;
    if k :| LosesKey(world, k) {
      var w, i :| KeyAt(world.windows, w, i, k);
      assert Missed(world.windows, w, i, k);
      assert world.windows[w].open;
      FullRingShows(world.windows, w);
      FreshOfInside(world, w);
    }
  }

  ghost predicate ProperRun(events: seq<Event>) {
    events != [] ==>
      var before := events[..|events| - 1];
      ProperRun(before) && Proper(Run(before), events[|events| - 1])
  }

  /** No poll of the run lost a key silently. */
  ghost predicate LoudRun(events: seq<Event>) {
    events != [] ==>
      var before, e := events[..|events| - 1], events[|events| - 1];
      LoudRun(before) && (e.Poll? ==> !LosesSilently(Run(before)))
  }

  /** A poll of the run lost the key silently, and no later poll was shown a frame with it. */
  ghost predicate Gone(events: seq<Event>, k: Key) {
    && events != []
    && var before, e := events[..|events| - 1], events[|events| - 1];
       if e.Poll? then !Shown(Run(before).windows, k) && (Gone(before, k) || LosesKey(Run(before), k))
       else Gone(before, k)
  }

  ghost predicate NoneGone(events: seq<Event>) {
    forall k :: !Gone(events, k)
  }

  /** A run in which every poll finds at most 12 skipped rows in every ring, and no unseen frame in a closed window. */
  ghost predicate GoodRun(events: seq<Event>) {
    events != [] ==>
      var before, e := events[..|events| - 1], events[|events| - 1];
      && GoodRun(before) && Proper(Run(before), e)
      && (e.Poll? ==> FewSkipped(Run(before)) && ClosedPolled(Run(before).windows))
  }

  ghost predicate KeepsHeld(world: World, after: World) {
    Kernel(after) && (PolledHeld(world) ==> PolledHeld(after))
  }

  lemma OpenedKeys(windows: seq<Window>, w: int, i: int, k: Key)
    ensures KeyAt(windows + [Window([], 0, true)], w, i, k) <==> KeyAt(windows, w, i, k)
    ensures KeyAt(windows, w, i, k) ==> (windows + [Window([], 0, true)])[w] == windows[w]
  {
    hide FrameOf, Kept, KeyOf;
  }

  lemma OpenKeeps(world: World)
    requires Kernel(world)
    ensures KeepsHeld(world, Step(world, Open))
  {
    hide KeyAt, HasSource, FrameOf, Kept;
    var after := Step(world, Open);
    forall w, i, k
      ensures KeyAt(after.windows, w, i, k) <==> KeyAt(world.windows, w, i, k)
      ensures KeyAt(world.windows, w, i, k) ==> 0 <= w < |world.windows|
    {
      OpenedKeys(world.windows, w, i, k);
      if KeyAt(world.windows, w, i, k) {
        KeyInside(world.windows, w, i, k);
      }
    }
    forall k | k in after.capture.frames
      ensures HasSource(after.windows, k, after.capture.frames[k])
    {
      var w, i := HeldSource(world, k);
      OpenedKeys(world.windows, w, i, k);
      KeyInside(world.windows, w, i, k);
      SourceIs(after.windows, w, i, k, world.capture.frames[k]);
    }
  }

  lemma ClosedKeys(windows: seq<Window>, w: nat, v: int, i: int, k: Key)
    requires w < |windows|
    ensures var after := windows[w := windows[w].(open := false)];
            && (KeyAt(after, v, i, k) <==> KeyAt(windows, v, i, k))
            && (KeyAt(windows, v, i, k) ==> after[v].rows == windows[v].rows && after[v].polled == windows[v].polled)
  {
  }

  lemma CloseKeeps(world: World, w: nat)
    requires Kernel(world) && w < |world.windows|
    ensures KeepsHeld(world, Step(world, Close(w)))
  {
    hide KeyAt, HasSource, FrameOf, Kept;
    var after := Step(world, Close(w));
    forall v, i, k
      ensures KeyAt(after.windows, v, i, k) <==> KeyAt(world.windows, v, i, k)
      ensures KeyAt(world.windows, v, i, k) ==> 0 <= v < |world.windows|
    {
      ClosedKeys(world.windows, w, v, i, k);
      if KeyAt(world.windows, v, i, k) {
        KeyInside(world.windows, v, i, k);
      }
    }
    forall k | k in after.capture.frames
      ensures HasSource(after.windows, k, after.capture.frames[k])
    {
      var v, i := HeldSource(world, k);
      ClosedKeys(world.windows, w, v, i, k);
      KeyInside(world.windows, v, i, k);
      SourceIs(after.windows, v, i, k, world.capture.frames[k]);
    }
  }

  lemma RenderedKeys(windows: seq<Window>, w: nat, row: Row, v: int, i: int, k: Key)
    requires w < |windows|
    ensures KeyAt(windows[w := windows[w].(rows := windows[w].rows + [row])], v, i, k) <==>
              KeyAt(windows, v, i, k) || (v == w && i == |windows[w].rows| && Kept(row) && KeyOf(FrameOf(row)) == k)
    ensures KeyAt(windows, v, i, k) ==>
              windows[w := windows[w].(rows := windows[w].rows + [row])][v].rows[i] == windows[v].rows[i]
  {
  }

  lemma RenderKeeps(world: World, w: nat, row: Row)
    requires Kernel(world) && Proper(world, Render(w, row))
    ensures KeepsHeld(world, Step(world, Render(w, row)))
  {
    hide FrameOf, Kept, KeyAt, HasSource;
    var after := Step(world, Render(w, row));
    forall v, i, k
      ensures KeyAt(after.windows, v, i, k) <==>
                KeyAt(world.windows, v, i, k) ||
                (v == w && i == |world.windows[w].rows| && Kept(row) && KeyOf(FrameOf(row)) == k)
      ensures KeyAt(world.windows, v, i, k) ==> 0 <= v < |world.windows| && i < |world.windows[v].rows|
    {
      RenderedKeys(world.windows, w, row, v, i, k);
      if KeyAt(world.windows, v, i, k) {
        KeyInside(world.windows, v, i, k);
      }
    }
    forall k | k in after.capture.frames
      ensures HasSource(after.windows, k, after.capture.frames[k])
    {
      var f := world.capture.frames[k];
      var v, i := HeldSource(world, k);
      RenderedKeys(world.windows, w, row, v, i, k);
      KeyInside(world.windows, v, i, k);
      SourceIs(after.windows, v, i, k, f);
    }
  }

  lemma BadPollGap(world: World, output: Option<seq<Line>>)
    requires Proper(world, BadPoll(output))
    ensures var after := Step(world, BadPoll(output));
            after.capture.gaps != [] && after.capture.frames == world.capture.frames && after.windows == world.windows
  {
    hide Parse;
  }

  /** In every proper run the frames held were rendered, and the limit is kept. */
  lemma KernelStep(world: World, e: Event)
    requires Kernel(world) && Proper(world, e)
    ensures Kernel(Step(world, e))
    ensures Step(world, e).capture.gaps == [] ==> world.capture.gaps == [] && !e.BadPoll?
    ensures !e.Poll? && Step(world, e).capture.gaps == [] && PolledHeld(world) ==> PolledHeld(Step(world, e))
  {
    hide Polled, KeyAt, Kept, TakeIn, Kernel, Counted, Sourced, PolledHeld, Overflows;
    match e {
      case Open => OpenKeeps(world);
      case Render(w, row) => RenderKeeps(world, w, row);
      case Close(w) => CloseKeeps(world, w);
      case BadPoll(output) =>
        BadPollGap(world, output);
        SameKernel(world, Step(world, e));
      case Poll =>
        PollKernel(world);
        PollGaps(world);
    }
  }

  lemma SameKernel(world: World, after: World)
    requires Kernel(world) && after.windows == world.windows && after.capture.frames == world.capture.frames
    ensures Kernel(after)
  {
    hide HasSource, Counted;
  }

  lemma NoKeys()
    ensures forall w, i, k :: !KeyAt([], w, i, k)
  {
  }

  lemma ResetFits()
    ensures Kernel(RESET) && PolledHeld(RESET)
  {
    hide KeyAt;
    NoKeys();
  }

  lemma {:induction false} ProperRunKeeps(events: seq<Event>)
    requires ProperRun(events)
    ensures Kernel(Run(events))
  {
    hide Kernel, Proper, Step;
    if events == [] {
      ResetFits();
    } else {
      ProperRunKeeps(events[..|events| - 1]);
      KernelStep(Run(events[..|events| - 1]), events[|events| - 1]);
    }
  }

  /** In every run whose polls lose nothing silently, a capture without a gap holds every key polled so far. */
  lemma {:induction false} LoudRunKeeps(events: seq<Event>)
    requires ProperRun(events) && LoudRun(events)
    ensures Kernel(Run(events)) && (Run(events).capture.gaps == [] ==> PolledHeld(Run(events)))
  {
    hide Kernel, Proper, Step, PolledHeld, LosesSilently, KeysHeld;
    if events == [] {
      ResetFits();
    } else {
      var before, e := events[..|events| - 1], events[|events| - 1];
      LoudRunKeeps(before);
      KernelStep(Run(before), e);
      if e.Poll? && Run(events).capture.gaps == [] {
        SilentLoss(Run(before));
      }
    }
  }

  lemma {:induction false} GoodRunIsLoud(events: seq<Event>)
    requires GoodRun(events)
    ensures ProperRun(events) && LoudRun(events)
  {
    hide Proper, Step, FewSkipped, ClosedPolled, LosesSilently, Kernel;
    if events != [] {
      GoodRunIsLoud(events[..|events| - 1]);
      if events[|events| - 1].Poll? {
        FewSkippedIsLoud(Run(events[..|events| - 1]));
      }
    }
  }

  // ----- what a complete capture holds -----

  /** Some row with this key was there at the last successful poll. */
  ghost predicate PolledKey(windows: seq<Window>, k: Key) {
    exists w, i :: KeyAt(windows, w, i, k) && i < windows[w].polled
  }

  /** A step that is no poll changes neither what is held nor which rows were polled. */
  lemma BetweenPolls(world: World, e: Event, k: Key)
    requires Counted(world.windows) && Proper(world, e) && !e.Poll? && Step(world, e).capture.gaps == []
    ensures Step(world, e).capture.frames == world.capture.frames
    ensures PolledKey(Step(world, e).windows, k) ==> PolledKey(world.windows, k)
    ensures Rendered(world.windows, k) ==> Rendered(Step(world, e).windows, k)
  {
    hide Kept, KeyOf, FrameOf, Polled;
    if e.BadPoll? {
      BadPollGap(world, e.output);
    }
    var after := Step(world, e);
    forall w, i
      ensures KeyAt(world.windows, w, i, k) ==> KeyAt(after.windows, w, i, k)
      ensures KeyAt(after.windows, w, i, k) && i < after.windows[w].polled ==>
                KeyAt(world.windows, w, i, k) && i < world.windows[w].polled
    {
    }
    if w, i :| KeyAt(after.windows, w, i, k) && i < after.windows[w].polled {
      assert KeyAt(world.windows, w, i, k);
    }
    if w, i :| KeyAt(world.windows, w, i, k) {
      assert KeyAt(after.windows, w, i, k);
    }
  }

  lemma AtPoll(world: World, k: Key)
    requires Kernel(world) && Step(world, Poll).capture.gaps == []
    ensures world.capture.gaps == [] && !Taken(world).full
    ensures var after := Step(world, Poll);
            && (k in after.capture.frames <==> k in world.capture.frames || Shown(world.windows, k))
            && (Rendered(after.windows, k) <==> Rendered(world.windows, k))
            && (LosesKey(world, k) <==>
                  Rendered(world.windows, k) && !PolledKey(world.windows, k) && !Shown(world.windows, k))
  {
    hide Taken, Overflows, KeyAt, Kernel;
    PollGaps(world);
    TakenIff(world, k);
    SameKeys(world.windows);
    forall w, i | KeyAt(world.windows, w, i, k)
      ensures 0 <= w < |world.windows| && 0 <= i < |world.windows[w].rows|
      ensures Missed(world.windows, w, i, k) <==>
                i >= world.windows[w].polled && !InRing(world.windows, w, i, k)
    {
      KeyInside(world.windows, w, i, k);
    }
  }

  /** While a capture has no gap: a key that is gone is not held, and a polled key that is not gone is held. */
  lemma {:induction false} GoneStep(events: seq<Event>, k: Key)
    requires ProperRun(events) && Run(events).capture.gaps == []
    ensures Gone(events, k) ==> k !in Run(events).capture.frames && Rendered(Run(events).windows, k)
    ensures !Gone(events, k) && PolledKey(Run(events).windows, k) ==> k in Run(events).capture.frames
  {
    hide Step, Proper, Kernel, LosesKey, Shown, PolledKey, Rendered;
    if events == [] {
      NothingPolled(k);
    } else {
      var before, e := events[..|events| - 1], events[|events| - 1];
      ProperRunKeeps(before);
      KernelStep(Run(before), e);
      GoneStep(before, k);
      if e.Poll? {
        AtPoll(Run(before), k);
        HeldIsSeen(Run(before), k);
        PolledIsRendered(Run(events).windows, k);
      } else {
        KernelParts(Run(before));
        BetweenPolls(Run(before), e, k);
      }
    }
  }

  lemma HeldIsSeen(world: World, k: Key)
    requires Kernel(world)
    ensures k in world.capture.frames ==> PolledKey(world.windows, k)
  {
    hide KeyAt;
    if k in world.capture.frames {
      var w, i := HeldSource(world, k);
    }
  }

  lemma PolledIsRendered(windows: seq<Window>, k: Key)
    ensures PolledKey(windows, k) ==> Rendered(windows, k)
  {
    hide KeyAt;
  }

  lemma NothingPolled(k: Key)
    ensures !PolledKey(RESET.windows, k)
  {
  }

  lemma KernelParts(world: World)
    requires Kernel(world)
    ensures Counted(world.windows) && Sourced(world)
  {
  }

  /** The run ends with a poll that was tried, as `end` makes sure. */
  predicate EndsPolled(events: seq<Event>) {
    events != [] && (events[|events| - 1].Poll? || events[|events| - 1].BadPoll?)
  }

  /**
   What a complete capture holds, key by key, also when frames share keys: in a run that ends with a poll and status
   complete, a rendered key is held if and only if no poll lost it silently, or a later poll was shown it again.
   */
  lemma CompleteIffNotGone(events: seq<Event>, k: Key)
    requires ProperRun(events) && EndsPolled(events) && StatusOf(Run(events).capture) == Complete
    requires Rendered(Run(events).windows, k)
    ensures k in Run(events).capture.frames <==> !Gone(events, k)
  {
    hide Step, Proper, Kernel, Gone, PolledKey;
    var before, e := events[..|events| - 1], events[|events| - 1];
    ProperRunKeeps(before);
    KernelStep(Run(before), e);
    GoneStep(events, k);
    AllArePolled(Run(before), k);
  }

  lemma AllArePolled(world: World, k: Key)
    ensures Rendered(Step(world, Poll).windows, k) ==> PolledKey(Step(world, Poll).windows, k)
  {
    hide Kept, KeyOf, FrameOf, Polled;
    if w, i :| KeyAt(Step(world, Poll).windows, w, i, k) {
      assert i < Step(world, Poll).windows[w].polled;
    }
  }

  lemma {:induction false} LoudIsNotGone(events: seq<Event>, k: Key)
    requires LoudRun(events)
    ensures !Gone(events, k)
  {
    hide Step, Shown, LosesKey;
    if events != [] {
      LoudIsNotGone(events[..|events| - 1], k);
    }
  }

  /** A key that is gone had a frame which no dump shows any more. */
  ghost predicate Overwritten(windows: seq<Window>, k: Key) {
    exists w, i :: KeyAt(windows, w, i, k) && i < ShownFrom(windows[w])
  }

  lemma OverwrittenStays(world: World, e: Event, k: Key)
    requires Proper(world, e)
    ensures Overwritten(world.windows, k) ==> Overwritten(Step(world, e).windows, k)
    ensures Unique(Step(world, e).windows) ==> Unique(world.windows)
  {
    hide Kept, KeyOf, FrameOf, Polled;
    var after := Step(world, e);
    forall w, i, j: Key
      ensures KeyAt(world.windows, w, i, j) ==> KeyAt(after.windows, w, i, j)
      ensures KeyAt(world.windows, w, i, j) && i < ShownFrom(world.windows[w]) ==> i < ShownFrom(after.windows[w])
    {
    }
  }

  lemma {:induction false} GoneIsOverwritten(events: seq<Event>, k: Key)
    requires ProperRun(events) && Gone(events, k)
    ensures Overwritten(Run(events).windows, k)
  {
    hide Step, Proper, Shown;
    var before, e := events[..|events| - 1], events[|events| - 1];
    OverwrittenStays(Run(before), e, k);
    if Gone(before, k) {
      GoneIsOverwritten(before, k);
    }
  }

  /** Where no two frames share a key, a key lost once stays lost. */
  lemma {:induction false} SilenceStays(events: seq<Event>) returns (k: Key)
    requires ProperRun(events) && Unique(Run(events).windows) && !LoudRun(events)
    ensures Gone(events, k)
  {
    hide Step, Proper, KeyAt;
    var before, e := events[..|events| - 1], events[|events| - 1];
    OverwrittenStays(Run(before), e, Key(0, 0));
    if LoudRun(before) {
      k :| LosesKey(Run(before), k);
    } else {
      k := SilenceStays(before);
      GoneIsOverwritten(before, k);
    }
  }

  lemma KeysHeldIffNotGone(events: seq<Event>)
    requires ProperRun(events) && EndsPolled(events) && StatusOf(Run(events).capture) == Complete
    ensures KeysHeld(Run(events)) <==> NoneGone(events)
  {
    hide Step, Proper, Kernel, KeyAt;
    var world := Run(events);
    CompleteHasNoGap(world);
    if NoneGone(events) {
      forall w, i, k | KeyAt(world.windows, w, i, k)
        ensures k in world.capture.frames
      {
        assert !Gone(events, k);
        CompleteIffNotGone(events, k);
      }
    } else {
      var k :| Gone(events, k);
      GoneStep(events, k);
    }
  }

  /**
   Exactly when a complete capture has lost nothing. A run that ends with a poll and status complete holds every key
   rendered since the reset if and only if none is gone, and every frame as it was rendered if, moreover, no two
   different frames share a key. Where no two frames share one, that is so if and only if no poll lost one silently.
   */
  lemma CompleteIffLoud(events: seq<Event>)
    requires ProperRun(events) && EndsPolled(events) && StatusOf(Run(events).capture) == Complete
    ensures KeysHeld(Run(events)) <==> NoneGone(events)
    ensures AllHeld(Run(events)) <==> NoneGone(events) && NoClash(Run(events).windows)
    ensures Unique(Run(events).windows) ==> (AllHeld(Run(events)) <==> LoudRun(events))
  {
    hide Step, Proper, Kernel, Gone, AllHeld, KeysHeld, NoClash, StatusOf, EndsPolled, Unique, Rendered, Run;
    var world := Run(events);
    ProperRunKeeps(events);
    KernelParts(world);
    AllHeldIff(world);
    KeysHeldIffNotGone(events);
    if Unique(world.windows) {
      UniqueIsNoClash(world.windows);
      if LoudRun(events) {
        forall k: Key
          ensures !Gone(events, k)
        {
          LoudIsNotGone(events, k);
        }
      } else {
        var k := SilenceStays(events);
      }
    }
  }

  lemma CompleteHasNoGap(world: World)
    requires StatusOf(world.capture) == Complete
    ensures world.capture.gaps == []
  {
  }

  lemma UniqueIsNoClash(windows: seq<Window>)
    requires Unique(windows)
    ensures NoClash(windows)
  {
    hide FrameOf, KeyOf, Kept;
  }

  /**
   No silent frame loss. However opening, rendering, closing, polls and failed polls interleave, a capture never
   holds more than the retention limit, holds only frames that were rendered, and when it ends with a poll
   and status complete, it holds every key rendered since the reset, and every frame unless two of them share a key.
   */
  lemma CompleteMeansNothingLost(events: seq<Event>)
    requires GoodRun(events)
    ensures |Run(events).capture.frames| <= MAX_FRAMES && Sourced(Run(events))
    ensures EndsPolled(events) && StatusOf(Run(events).capture) == Complete ==>
              KeysHeld(Run(events)) && (AllHeld(Run(events)) <==> NoClash(Run(events).windows))
  {
    hide Proper, Step, AllHeld, KeysHeld, NoClash, Sourced, LoudRun, StatusOf, EndsPolled, Gone, Unique;
    GoodRunIsLoud(events);
    ProperRunKeeps(events);
    if EndsPolled(events) && StatusOf(Run(events).capture) == Complete {
      CompleteIffLoud(events);
      forall k: Key
        ensures !Gone(events, k)
      {
        LoudIsNotGone(events, k);
      }
    }
  }

  // ----- more than 12 skipped rows -----

  function Drawn(id: int): Row {
    Row(Some(0), Some(id), Some(id), Some(id + 1), None, None, Some(0), Some(0), Some(0))
  }

  const FLAGGED := Row(Some(1), Some(1), Some(1), Some(2), None, None, Some(0), Some(0), Some(0))

  /** One frame, 13 rows the parser skips, and 107 more frames. */
  function FloodRows(): (rows: seq<Row>)
    ensures |rows| == 121
  {
    seq(121, i requires 0 <= i < 121 => if i == 0 then Drawn(1) else if i <= 13 then FLAGGED else Drawn(i))
  }

  function Renders(rows: seq<Row>): seq<Event> {
    if rows == [] then [Open] else Renders(rows[..|rows| - 1]) + [Render(0, rows[|rows| - 1])]
  }

  lemma RunSnoc(events: seq<Event>, e: Event)
    ensures Run(events + [e]) == Step(Run(events), e)
    ensures ProperRun(events + [e]) == (ProperRun(events) && Proper(Run(events), e))
  {
    hide Step, Proper;
    assert (events + [e])[..|events|] == events;
  }

  function Drawing(rows: seq<Row>): World {
    World([Window(rows, 0, true)], RESET.capture)
  }

  lemma RenderInto(rows: seq<Row>, row: Row)
    ensures Step(Drawing(rows), Render(0, row)) == Drawing(rows + [row]) && Proper(Drawing(rows), Render(0, row))
  {
    assert Drawing(rows).windows[0 := Window(rows + [row], 0, true)] == Drawing(rows + [row]).windows;
  }

  /** A window that opens and renders rows one after another. */
  lemma {:induction false} RendersRun(rows: seq<Row>)
    ensures Run(Renders(rows)) == Drawing(rows) && ProperRun(Renders(rows))
  {
    hide Step, Proper;
    if rows == [] {
      RunSnoc([], Open);
      OpenFirst();
      assert [] + [Open] == [Open];
    } else {
      var before, row := rows[..|rows| - 1], rows[|rows| - 1];
      assert rows == before + [row];
      RenderInto(before, row);
      RendersRun(before);
      RunSnoc(Renders(before), Render(0, row));
    }
  }

  lemma OpenFirst()
    ensures Step(RESET, Open) == Drawing([]) && Proper(RESET, Open)
  {
    assert RESET.windows + [Window([], 0, true)] == [Window([], 0, true)];
  }

  /** Only the first row of the flood has the first key. */
  lemma FloodKeys(i: nat)
    requires i < 121 && Kept(FloodRows()[i])
    ensures KeyOf(FrameOf(FloodRows()[i])) == Key(1, 1) ==> i == 0
  {
    hide Kept, FrameOf, KeyOf;
    DrawnKey(if i == 0 then 1 else i);
  }

  lemma DrawnKey(id: int)
    requires id >= 1
    ensures Kept(Drawn(id)) && KeyOf(FrameOf(Drawn(id))) == Key(id, id) && !Kept(FLAGGED)
  {
  }

  lemma {:induction false} KeptCount(rows: seq<Row>)
    requires forall i :: 0 <= i < |rows| ==> Kept(rows[i])
    ensures |KeptFrames(rows)| == |rows|
  {
    if rows != [] {
      KeptCount(rows[..|rows| - 1]);
    }
  }

  lemma {:induction false} KeptAfterSkipped(skipped: seq<Row>, rows: seq<Row>)
    requires forall i :: 0 <= i < |skipped| ==> !Kept(skipped[i])
    ensures KeptFrames(skipped + rows) == KeptFrames(rows)
    decreases |rows|, |skipped|
  {
    var all := skipped + rows;
    if rows != [] {
      assert all[..|all| - 1] == skipped + rows[..|rows| - 1];
      KeptAfterSkipped(skipped, rows[..|rows| - 1]);
    } else if skipped != [] {
      assert all[..|all| - 1] == skipped[..|skipped| - 1] + rows;
      KeptAfterSkipped(skipped[..|skipped| - 1], rows);
    } else {
      assert all == rows;
    }
  }

  lemma FloodKeeps()
    ensures |KeptFrames(FloodRows()[1..])| == 107
  {
    var skipped, rows := FloodRows()[1..14], FloodRows()[14..];
    assert FloodRows()[1..] == skipped + rows;
    KeptAfterSkipped(skipped, rows);
    KeptCount(rows);
  }

  lemma {:induction false} SmallIntake(frames: seq<Frame>)
    requires |frames| <= MAX_FRAMES
    ensures !TakeIn(map[], frames).full && |TakeIn(map[], frames).frames| <= |frames|
  {
    if frames != [] {
      var before, f := TakeIn(map[], frames[..|frames| - 1]), frames[|frames| - 1];
      SmallIntake(frames[..|frames| - 1]);
      assert before.frames[KeyOf(f) := f].Keys == before.frames.Keys + {KeyOf(f)};
    }
  }

  lemma FloodSeen()
    ensures var world := Drawing(FloodRows());
            && !Taken(world).full && |FreshKeys(world)| < SAFE_NEW_FRAMES
            && Missed(world.windows, 0, 0, Key(1, 1)) && Shown(world.windows, Key(14, 14))
  {
    hide KeptFrames, TakeIn, Kept, FrameOf, KeyOf, FloodRows, FreshKeys;
    FloodKeeps();
    DrawnKey(1);
    DrawnKey(14);
    FloodFirst();
    var world := Drawing(FloodRows());
    assert world.windows[..0] == [];
    assert Rings(world.windows) == [FloodRows()[1..]];
    OneRing(FloodRows()[1..]);
    SmallIntake(KeptFrames(FloodRows()[1..]));
    DrawingFits(FloodRows());
    GainedIsFresh(world);
    IntakeSize(world);
    assert InRing(world.windows, 0, 14, Key(14, 14));
  }

  lemma FloodFirst()
    ensures FloodRows()[0] == Drawn(1) && FloodRows()[14] == Drawn(14)
  {
  }

  lemma DrawingFits(rows: seq<Row>)
    ensures Kernel(Drawing(rows)) && PolledHeld(Drawing(rows))
  {
    hide FrameOf, Kept, KeyOf;
  }

  /**
   The bound is tight: one frame, 13 rows that the parser skips and 107 more frames between the reset and the final poll
   end in a capture that calls itself complete and has lost the first frame.
   */
  lemma FloodLosesAFrame()
    ensures var events := Renders(FloodRows()) + [Poll];
            ProperRun(events) && StatusOf(Run(events).capture) == Complete && !AllHeld(Run(events))
  {
    hide *;
    RendersRun(FloodRows());
    DrawingFits(FloodRows());
    PollIsProper(Drawing(FloodRows()));
    RunSnoc(Renders(FloodRows()), Poll);
    assert Drawing(FloodRows()).capture == RESET.capture by {
      DrawingCapture(FloodRows());
    }
    FloodIsSilent();
    FirstPollLoses(Drawing(FloodRows()), Key(1, 1), Key(14, 14));
  }

  lemma DrawingCapture(rows: seq<Row>)
    ensures Drawing(rows).capture == RESET.capture
  {
  }

  lemma PollIsProper(world: World)
    ensures Proper(world, Poll)
  {
  }

  lemma FloodIsSilent()
    ensures LosesKey(Drawing(FloodRows()), Key(1, 1)) && Shown(Drawing(FloodRows()).windows, Key(14, 14))
  {
    hide FloodRows, FreshKeys, SomeRingFull, TakeIn, Rings, Collected, Kept, FrameOf, KeyOf, Taken, Shown;
    var world := Drawing(FloodRows());
    FloodSeen();
    forall w, i | KeyAt(world.windows, w, i, Key(1, 1))
      ensures Missed(world.windows, w, i, Key(1, 1))
    {
      FloodKeys(i);
    }
  }

  /** A first poll that loses a key silently, and is shown another, ends a capture that calls itself complete. */
  lemma FirstPollLoses(world: World, lost: Key, seen: Key)
    requires Kernel(world) && PolledHeld(world) && world.capture == RESET.capture
    requires LosesKey(world, lost) && Shown(world.windows, seen)
    ensures var after := Step(world, Poll); StatusOf(after.capture) == Complete && !AllHeld(after)
  {
    hide Polled, KeyAt, Kernel, PolledHeld, LosesKey, Shown, Taken;
    SilentLoss(world);
    assert Step(world, Poll).capture.gaps == [];
    AtPoll(world, seen);
    HeldAsKeys(Step(world, Poll));
  }

  lemma HeldAsKeys(world: World)
    ensures AllHeld(world) ==> KeysHeld(world)
  {
  }

  lemma IntakeSize(world: World)
    requires Kernel(world) && world.capture.frames == map[]
    ensures Taken(world).gained == |Taken(world).frames|
  {
    hide TakeIn, Collected, Rings, Counted, Sourced;
    IntakeSound(world.capture.frames, Collected(Rings(world.windows)));
  }

  /** A window that closes with a frame no poll has seen loses it without a gap, beside a frame of another window. */
  function ClosedAway(): World {
    World([Window([Drawn(1)], 0, false)] + [Window([Drawn(2)], 0, true)], RESET.capture)
  }

  lemma ClosedAwayRuns()
    ensures var events := Renders([Drawn(1)]) + [Close(0)] + [Open] + [Render(1, Drawn(2))];
            Run(events) == ClosedAway() && ProperRun(events)
  {
    var rows := [Drawn(1)];
    RendersRun(rows);
    RunSnoc(Renders(rows), Close(0));
    var closed := World([Window(rows, 0, false)], RESET.capture);
    assert Step(Drawing(rows), Close(0)) == closed;
    RunSnoc(Renders(rows) + [Close(0)], Open);
    var both := World([Window(rows, 0, false)] + [Window([], 0, true)], RESET.capture);
    assert Step(closed, Open) == both;
    RunSnoc(Renders(rows) + [Close(0)] + [Open], Render(1, Drawn(2)));
    assert [] + [Drawn(2)] == [Drawn(2)];
    assert Step(both, Render(1, Drawn(2))).windows == ClosedAway().windows;
  }

  lemma ClosedAwayDump()
    ensures Rings(ClosedAway().windows) == [[Drawn(2)]]
  {
    hide Drawn;
    var windows := ClosedAway().windows;
    assert windows[..1] == [Window([Drawn(1)], 0, false)] && windows[..1][..0] == [];
    assert [Drawn(2)][0..] == [Drawn(2)];
    assert Rings(windows[..1]) == [];
  }

  lemma OneRing(ring: seq<Row>)
    ensures Collected([ring]) == KeptFrames(ring)
  {
    assert [ring][..0] == [];
  }

  lemma ClosedAwaySeen()
    ensures LosesKey(ClosedAway(), Key(1, 1)) && Shown(ClosedAway().windows, Key(2, 2))
  {
    hide KeptFrames, Kept, FrameOf, KeyOf, TakeIn, Rings, Collected, FreshKeys;
    DrawnKey(1);
    DrawnKey(2);
    ClosedAwayDump();
    OneRing([Drawn(2)]);
    SmallIntake(KeptFrames([Drawn(2)]));
    assert InRing(ClosedAway().windows, 1, 0, Key(2, 2));
    assert KeyAt(ClosedAway().windows, 0, 0, Key(1, 1));
  }

  lemma ClosedAwayFits()
    ensures Kernel(ClosedAway()) && PolledHeld(ClosedAway())
  {
    ClosedAwayRuns();
    ProperRunKeeps(Renders([Drawn(1)]) + [Close(0)] + [Open] + [Render(1, Drawn(2))]);
  }

  /** The run that shows it: such a capture calls itself complete. */
  lemma ClosedWindowLosesAFrame()
    ensures var events := Renders([Drawn(1)]) + [Close(0)] + [Open] + [Render(1, Drawn(2))] + [Poll];
            ProperRun(events) && StatusOf(Run(events).capture) == Complete && !AllHeld(Run(events))
  {
    hide *;
    ClosedAwayRuns();
    ClosedAwayFits();
    ClosedAwaySeen();
    ClosedAwayCapture();
    PollIsProper(ClosedAway());
    RunSnoc(Renders([Drawn(1)]) + [Close(0)] + [Open] + [Render(1, Drawn(2))], Poll);
    FirstPollLoses(ClosedAway(), Key(1, 1), Key(2, 2));
  }

  lemma ClosedAwayCapture()
    ensures ClosedAway().capture == RESET.capture
  {
  }

  // ----- two frames with one key -----

  /** A frame of another window at the vertical sync of frame 1, which completed later. */
  const LATER := Drawn(1).(completed := Some(9))

  function Shared(): World {
    World([Window([Drawn(1)], 0, true)] + [Window([LATER], 0, true)], RESET.capture)
  }

  lemma SharedRuns()
    ensures var events := Renders([Drawn(1)]) + [Open] + [Render(1, LATER)];
            Run(events) == Shared() && ProperRun(events)
  {
    hide Drawn;
    var rows := [Drawn(1)];
    RendersRun(rows);
    RunSnoc(Renders(rows), Open);
    var both := World([Window(rows, 0, true)] + [Window([], 0, true)], RESET.capture);
    assert Step(Drawing(rows), Open) == both;
    RunSnoc(Renders(rows) + [Open], Render(1, LATER));
    assert [] + [LATER] == [LATER];
    assert Step(both, Render(1, LATER)).windows == Shared().windows;
  }

  lemma RingsSnoc(windows: seq<Window>, win: Window)
    ensures Rings(windows + [win]) == Rings(windows) + if win.open then [win.rows[RingStart(win.rows)..]] else []
  {
    assert (windows + [win])[..|windows|] == windows;
  }

  lemma SharedDump()
    ensures Rings(Shared().windows) == [[Drawn(1)]] + [[LATER]]
    ensures |Collected(Rings(Shared().windows))| <= 2
  {
    hide Drawn, KeptFrames, Rings, Collected;
    NoRings();
    RingsSnoc([], Window([Drawn(1)], 0, true));
    RingsSnoc([Window([Drawn(1)], 0, true)], Window([LATER], 0, true));
    assert [Drawn(1)][0..] == [Drawn(1)] && [LATER][0..] == [LATER];
    assert [] + [Window([Drawn(1)], 0, true)] == [Window([Drawn(1)], 0, true)];
    assert [] + [[Drawn(1)]] == [[Drawn(1)]];
    CollectedSnoc([[Drawn(1)]], [LATER]);
    OneRing([Drawn(1)]);
  }

  lemma NoRings()
    ensures Rings([]) == []
  {
  }

  lemma SharedKeys(w: int, i: int, k: Key)
    ensures KeyAt(Shared().windows, w, i, k) <==> 0 <= w <= 1 && i == 0 && k == Key(1, 1)
    ensures KeyAt(Shared().windows, w, i, k) ==> InRing(Shared().windows, w, i, k)
    ensures FrameOf(Drawn(1)) != FrameOf(LATER)
  {
  }

  /** Two frames, two windows, one key: the dump shows both, one is held, and the capture calls itself complete. */
  lemma SharedKeyLosesAFrame()
    ensures var events := Renders([Drawn(1)]) + [Open] + [Render(1, LATER)] + [Poll];
            && ProperRun(events) && StatusOf(Run(events).capture) == Complete
            && KeysHeld(Run(events)) && !NoClash(Run(events).windows) && !AllHeld(Run(events))
            && Run(events).capture.frames.Keys == {Key(1, 1)}
  {
    hide *;
    SharedRuns();
    var start := Renders([Drawn(1)]) + [Open] + [Render(1, LATER)];
    ProperRunKeeps(start);
    RunSnoc(start, Poll);
    PollIsProper(Shared());
    ProperRunKeeps(start + [Poll]);
    SharedPoll();
  }

  lemma SharedPoll()
    requires Kernel(Shared())
    ensures var after := Step(Shared(), Poll);
            && StatusOf(after.capture) == Complete && after.capture.frames.Keys == {Key(1, 1)}
            && KeysHeld(after) && !NoClash(after.windows) && !AllHeld(after)
  {
    hide Kernel, Polled, Drawn, KeyAt, FrameOf, Kept, KeyOf, Rings, Collected, TakeIn, FreshKeys;
    var world, after := Shared(), Step(Shared(), Poll);
    SharedDump();
    SmallIntake(Collected(Rings(world.windows)));
    PollGaps(world);
    forall k: Key
      ensures k in after.capture.frames <==> k == Key(1, 1)
    {
      AtPoll(world, k);
      SharedKeys(0, 0, k);
      forall w, i | InRing(world.windows, w, i, k)
        ensures k == Key(1, 1)
      {
        SharedKeys(w, i, k);
      }
    }
    SameKeys(world.windows);
    forall w, i, k | KeyAt(after.windows, w, i, k)
      ensures k in after.capture.frames
    {
      SharedKeys(w, i, k);
    }
    SharedKeys(0, 0, Key(1, 1));
    SharedKeys(1, 0, Key(1, 1));
    SharedClash();
    assert !NoClash(after.windows);
    PollKernel(world);
    KernelParts(after);
    AllHeldIff(after);
  }

  lemma SharedClash()
    ensures !NoClash(AllPolled(Shared().windows))
  {
    var windows := AllPolled(Shared().windows);
    assert KeyAt(windows, 0, 0, Key(1, 1)) && KeyAt(windows, 1, 0, Key(1, 1));
  }
}
