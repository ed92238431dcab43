/** What a frame of the capture holds, column by column, and which rows it may come from. */
module GfxinfoFrames {
  import opened Results
  import opened GfxinfoCapture
  import opened GfxinfoRuns

  // ----- one row -----

  /** The row is not flagged, its times are there and positive, and it completed after it was intended. */
  predicate Usable(row: Row) {
    && row.flags == Some(0)
    && row.intendedVsync.Some? && row.vsync.Some? && row.completed.Some?
    && 0 < row.vsync.value && 0 < row.intendedVsync.value < row.completed.value
  }

  /** The frame holds exactly the row's columns; an absent id is the intended time, an absent event or sync time 0. */
  predicate Records(row: Row, f: Frame) {
    && Usable(row)
    && Some(f.intendedVsync) == row.intendedVsync && Some(f.vsync) == row.vsync && Some(f.completed) == row.completed
    && f.vsyncId == (if row.vsyncId == None then f.intendedVsync else row.vsyncId.value)
    && f.inputEvent == (if row.inputEvent == None then 0 else row.inputEvent.value)
    && f.syncQueued == (if row.syncQueued == None then 0 else row.syncQueued.value)
    && f.deadline == row.deadline && f.interval == row.interval
  }

  lemma FrameRecords(row: Row)
    ensures Kept(row) <==> Usable(row)
    ensures Kept(row) ==> Records(row, FrameOf(row))
  {
  }

  lemma RecordsOnce(row: Row, f: Frame)
    requires Records(row, f)
    ensures Kept(row) && f == FrameOf(row)
  {
  }

  // ----- one dump -----

  /** A column header stands before line `n`, and no mark between them. */
  ghost predicate InSection(lines: seq<Line>, n: int) {
    exists h :: HeaderAt(lines, h, n)
  }

  predicate HeaderAt(lines: seq<Line>, h: int, n: int) {
    0 <= h < n <= |lines| && lines[h].Header? && forall m :: h < m < n ==> !lines[m].Mark?
  }

  /** Line `n` is a row of a section, and usable. */
  ghost predicate ReadsRow(lines: seq<Line>, n: int) {
    0 <= n < |lines| && lines[n].Data? && Usable(lines[n].row) && InSection(lines, n)
  }

  /** The frames are the usable rows of the sections, each once, in order. */
  ghost predicate Listing(lines: seq<Line>, frames: seq<Frame>, at: seq<nat>) {
    && |at| == |frames|
    && (forall i, j :: 0 <= i < j < |at| ==> at[i] < at[j])
    && (forall k :: 0 <= k < |at| ==> ReadsRow(lines, at[k]) && Records(lines[at[k]].row, frames[k]))
    && (forall n :: ReadsRow(lines, n) ==> n in at)
  }

  lemma SectionStep(lines: seq<Line>, line: Line)
    ensures InSection(lines + [line], |lines| + 1) <==> line.Header? || (!line.Mark? && InSection(lines, |lines|))
    ensures forall n :: n <= |lines| ==> InSection(lines + [line], n) == InSection(lines, n)
  {
    var all := lines + [line];
    assert all[|lines|] == line;
    assert forall k | 0 <= k < |lines| :: all[k] == lines[k];
    assert line.Header? ==> HeaderAt(all, |lines|, |lines| + 1);
    if h :| HeaderAt(lines, h, |lines|) {
      assert !line.Mark? ==> HeaderAt(all, h, |lines| + 1);
    }
    var end := |lines| + 1;
    if h :| HeaderAt(all, h, end) {
      assert h < |lines| ==> HeaderAt(lines, h, |lines|);
    }
    forall n | n <= |lines|
      ensures InSection(all, n) == InSection(lines, n)
    {
      if h :| HeaderAt(all, h, n) {
        assert HeaderAt(lines, h, n);
      }
      if h :| HeaderAt(lines, h, n) {
        assert HeaderAt(all, h, n);
      }
    }
  }

  lemma ListingStep(lines: seq<Line>, line: Line, frames: seq<Frame>, at: seq<nat>)
    requires Listing(lines, frames, at)
    ensures var taken := line.Data? && Kept(line.row) && InSection(lines, |lines|);
            && (taken ==> Listing(lines + [line], frames + [FrameOf(line.row)], at + [|lines|]))
            && (!taken ==> Listing(lines + [line], frames, at))
  {
    hide Usable, Records, InSection;
    SectionStep(lines, line);
    var all := lines + [line];
    assert all[|lines|] == line;
    assert forall k | 0 <= k < |lines| :: all[k] == lines[k];
    if line.Data? {
      FrameRecords(line.row);
    }
    var taken := line.Data? && Kept(line.row) && InSection(lines, |lines|);
    forall n
      ensures ReadsRow(all, n) <==> ReadsRow(lines, n) || (taken && n == |lines|)
      ensures ReadsRow(lines, n) ==> n < |lines| && all[n] == lines[n]
    {
    }
    var longer := at + [|lines|];
    assert forall k | 0 <= k < |at| :: longer[k] == at[k];
    assert forall n :: n in at ==> n in longer;
    assert |lines| == longer[|at|] && |lines| in longer;
  }

  lemma {:induction false} ScanReads(lines: seq<Line>) returns (at: seq<nat>)
    requires !ScanLines(SCAN_START, lines).unsupported
    ensures Listing(lines, ScanLines(SCAN_START, lines).frames, at)
    ensures ScanLines(SCAN_START, lines).inSection == InSection(lines, |lines|)
  {
    hide Listing, InSection, Kept, FrameOf, Usable;
    if lines == [] {
      at := [];
      NothingRead();
    } else {
      var init, line := lines[..|lines| - 1], lines[|lines| - 1];
      assert lines == init + [line];
      at := ScanReads(init);
      SectionStep(init, line);
      ListingStep(init, line, ScanLines(SCAN_START, init).frames, at);
      if line.Data? {
        FrameRecords(line.row);
        if Usable(line.row) && InSection(init, |init|) {
          at := at + [|init|];
        }
      }
    }
  }

  lemma NothingRead()
    ensures Listing([], ScanLines(SCAN_START, []).frames, []) && !InSection([], 0)
    ensures !ScanLines(SCAN_START, []).inSection
  {
  }

  /**
   What a parse yields, by column: one frame for each usable row of a section, in the order of the lines, and nothing
   else; so every frame has a positive intended time before its completion.
   */
  lemma ParsedFramesAre(lines: seq<Line>) returns (at: seq<nat>)
    requires Parse(lines).Parsed?
    ensures Listing(lines, Parse(lines).frames, at)
    ensures forall f :: f in Parse(lines).frames ==> 0 < f.intendedVsync < f.completed && 0 < f.vsync
  {
    hide ScanLines;
    at := ScanReads(lines);
    assert forall k :: 0 <= k < |at| ==> Records(lines[at[k]].row, Parse(lines).frames[k]);
  }

  // ----- what else a parse says -----

  predicate HasHeader(lines: seq<Line>) {
    exists n :: 0 <= n < |lines| && lines[n].Header?
  }

  predicate HasMark(lines: seq<Line>) {
    exists n :: 0 <= n < |lines| && lines[n].Mark?
  }

  predicate LacksColumns(lines: seq<Line>) {
    exists n :: 0 <= n < |lines| && lines[n].Header? && !lines[n].supported
  }

  predicate LacksInputEvents(lines: seq<Line>) {
    exists n :: 0 <= n < |lines| && lines[n].Header? && !lines[n].inputEvents
  }

  lemma HeadersStep(lines: seq<Line>, line: Line)
    ensures HasHeader(lines + [line]) <==> HasHeader(lines) || line.Header?
    ensures HasMark(lines + [line]) <==> HasMark(lines) || line.Mark?
    ensures LacksColumns(lines + [line]) <==> LacksColumns(lines) || (line.Header? && !line.supported)
    ensures LacksInputEvents(lines + [line]) <==> LacksInputEvents(lines) || (line.Header? && !line.inputEvents)
  {
    var all := lines + [line];
    assert all[|lines|] == line;
    forall n | 0 <= n < |lines|
      ensures all[n] == lines[n]
    {
    }
  }

  lemma {:induction false} ScanHeaders(lines: seq<Line>)
    ensures var s := ScanLines(SCAN_START, lines);
            && s.unsupported == LacksColumns(lines)
            && (!s.unsupported ==>
                  && s.sawHeader == HasHeader(lines) && s.sawMark == HasMark(lines)
                  && s.inputEventColumn == !LacksInputEvents(lines))
  {
    hide HasHeader, HasMark, LacksColumns, LacksInputEvents, Kept, FrameOf;
    if lines == [] {
      NoHeaders();
    } else {
      var init, line := lines[..|lines| - 1], lines[|lines| - 1];
      assert lines == init + [line];
      ScanHeaders(init);
      HeadersStep(init, line);
    }
  }

  lemma NoHeaders()
    ensures !HasHeader([]) && !HasMark([]) && !LacksColumns([]) && !LacksInputEvents([])
  {
  }

  /** The rows of the section that line `n` is in, up to there. */
  ghost function SectionRows(lines: seq<Line>, n: nat): set<nat> {
    set m: nat | m < n <= |lines| && lines[m].Data? && InSection(lines, m) && forall j :: m < j < n ==> !lines[j].Mark?
  }

  /** Some section has 120 rows, as many as the ring of a window holds. */
  ghost predicate RingFull(lines: seq<Line>) {
    exists n: nat :: n <= |lines| && |SectionRows(lines, n)| >= 120
  }

  lemma SectionRowsStep(lines: seq<Line>, line: Line)
    ensures var n := |lines|;
            var before := SectionRows(lines, n);
            SectionRows(lines + [line], n + 1) ==
              if line.Mark? then {} else if line.Data? && InSection(lines, n) then before + {n} else before
    ensures forall k: nat :: k <= |lines| ==> SectionRows(lines + [line], k) == SectionRows(lines, k)
  {
    hide InSection;
    var all, n := lines + [line], |lines|;
    SectionStep(lines, line);
    assert all[n] == line;
    assert forall m | 0 <= m < n :: all[m] == lines[m];
    forall m: nat
      ensures m in SectionRows(all, n + 1) <==>
                !line.Mark? && (m in SectionRows(lines, n) || (m == n && line.Data? && InSection(lines, n)))
    {
    }
    forall k: nat | k <= n
      ensures SectionRows(all, k) == SectionRows(lines, k)
    {
      assert forall m: nat :: m in SectionRows(all, k) <==> m in SectionRows(lines, k);
    }
  }
  lemma RingFullStep(lines: seq<Line>, line: Line)
    ensures RingFull(lines + [line]) <==>
              RingFull(lines) || |SectionRows(lines + [line], |lines| + 1)| >= 120
  {
    hide SectionRows;
    SectionRowsStep(lines, line);
    var all := lines + [line];
    if n: nat :| n <= |lines| && |SectionRows(lines, n)| >= 120 {
      assert |SectionRows(all, n)| >= 120;
    }
  }

  lemma {:induction false} ScanCounts(lines: seq<Line>)
    requires !ScanLines(SCAN_START, lines).unsupported
    ensures var s := ScanLines(SCAN_START, lines);
            && s.sectionRows == |SectionRows(lines, |lines|)|
            && (s.capacityReached || s.sectionRows >= 120 <==> RingFull(lines))
  {
    hide SectionRows, RingFull, InSection, Kept, FrameOf;
    if lines == [] {
      NoRows();
    } else {
      var init, line := lines[..|lines| - 1], lines[|lines| - 1];
      assert lines == init + [line];
      ScanCounts(init);
      var at := ScanReads(init);
      RowNotYet(init);
      SectionRowsStep(init, line);
      RingFullStep(init, line);
    }
  }

  lemma RowNotYet(lines: seq<Line>)
    ensures |lines| !in SectionRows(lines, |lines|)
    ensures |SectionRows(lines, |lines|)| >= 120 ==> RingFull(lines)
  {
    hide InSection;
  }

  lemma NoRows()
    ensures SectionRows([], 0) == {} && !RingFull([])
  {
    assert forall n: nat :: n <= 0 ==> SectionRows([], n) == {};
  }

  /**
   How a parse ends: it fails on a header that lacks a column, or where sections have no header at all; otherwise it
   says whether some ring was full, and whether every header had the input events.
   */
  lemma ParseEnds(lines: seq<Line>)
    ensures var r := Parse(lines);
            && (r == Failed(UnsupportedHeader) <==> LacksColumns(lines))
            && (r == Failed(HeaderNotFound) <==> HasMark(lines) && !HasHeader(lines))
            && (r.Parsed? ==>
                  r.capacityReached == RingFull(lines) && r.inputEventColumn == !LacksInputEvents(lines))
            && (r.Failed? ==> r.error == UnsupportedHeader || r.error == HeaderNotFound)
  {
    hide ScanLines, HasHeader, HasMark, LacksColumns, LacksInputEvents, RingFull, SectionRows;
    ScanHeaders(lines);
    LacksHasHeader(lines);
    if !ScanLines(SCAN_START, lines).unsupported {
      ScanCounts(lines);
    }
  }

  lemma LacksHasHeader(lines: seq<Line>)
    ensures LacksColumns(lines) ==> HasHeader(lines)
  {
  }

  // ----- many polls -----

  /** A dump still shows a row exactly if its window is open, and fewer than 120 rows came after it. */
  lemma ShownIs(win: Window, i: nat)
    requires i < |win.rows|
    ensures i >= ShownFrom(win) <==> win.open && |win.rows| - i <= 120
  {
  }

  /** Why a poll records a gap. */
  ghost predicate Explains(c: Capture, output: Option<seq<Line>>, gap: Gap) {
    match gap
    case PollFailed(error) => if output == None then error == AdbFailed else Parse(output.value) == Failed(error)
    case RetentionLimit =>
      output.Some? && Parse(output.value).Parsed? && TakeIn(c.frames, Parse(output.value).frames).full
    case MayHaveOverwritten =>
      && output.Some? && Parse(output.value).Parsed? && Parse(output.value).capacityReached
      && TakeIn(c.frames, Parse(output.value).frames).gained >= 108
  }

  /** A poll adds exactly the gaps that it explains, each once, and forgets none. */
  lemma GapsAre(c: Capture, output: Option<seq<Line>>, gap: Gap)
    ensures var after := Polled(c, output);
            && (gap in after.gaps <==> gap in c.gaps || Explains(c, output, gap))
            && c.gaps <= after.gaps
            && (output == None || Parse(output.value).Failed? ==>
                  after.frames == c.frames && after.inputEventsMissing == c.inputEventsMissing)
            && (output.Some? && Parse(output.value).Parsed? ==>
                  && after.frames == TakeIn(c.frames, Parse(output.value).frames).frames
                  && after.inputEventsMissing == (c.inputEventsMissing || !Parse(output.value).inputEventColumn))
  {
    hide Parse, TakeIn;
  }

  /** Under a key, the last frame offered is held. */
  lemma {:induction false} LastIsHeld(held: map<Key, Frame>, frames: seq<Frame>, i: nat)
    requires i < |frames| && !TakeIn(held, frames).full
    requires forall j :: i < j < |frames| ==>
               (frames[j].vsyncId, frames[j].vsync) != (frames[i].vsyncId, frames[i].vsync)
    ensures var k := Key(frames[i].vsyncId, frames[i].vsync);
            k in TakeIn(held, frames).frames && TakeIn(held, frames).frames[k] == frames[i]
  {
    if i < |frames| - 1 {
      LastIsHeld(held, frames[..|frames| - 1], i);
    }
  }

  /** The retention limit is 100000 frames: an intake is cut short exactly when that many are held and more come. */
  lemma {:induction false} FullAtLimit(held: map<Key, Frame>, frames: seq<Frame>)
    requires |held| <= 100000
    ensures TakeIn(held, frames).full ==> |TakeIn(held, frames).frames| == 100000
    ensures |TakeIn(held, frames).frames| <= 100000
  {
    IntakeSound(held, frames);
    if frames != [] {
      FullAtLimit(held, frames[..|frames| - 1]);
    }
  }

  /** What a capture holds after any run: each frame is, by column, what some window rendered, under its own key. */
  lemma HeldFramesAre(events: seq<Event>, k: Key)
    requires ProperRun(events) && k in Run(events).capture.frames
    ensures var f, windows := Run(events).capture.frames[k], Run(events).windows;
            && k == Key(f.vsyncId, f.vsync) && 0 < f.intendedVsync < f.completed && 0 < f.vsync
            && exists w: nat, i: nat :: w < |windows| && i < |windows[w].rows| && Records(windows[w].rows[i], f)
  {
    hide Kernel, Run, Kept;
    ProperRunKeeps(events);
    KernelParts(Run(events));
    var windows := Run(events).windows;
    var w, i := HeldSource(Run(events), k);
    KeyInside(windows, w, i, k);
    SourceRecords(windows, w, i, k);
  }

  lemma SourceRecords(windows: seq<Window>, w: int, i: int, k: Key)
    requires KeyAt(windows, w, i, k)
    ensures 0 <= w < |windows| && 0 <= i < |windows[w].rows|
    ensures var f := FrameOf(windows[w].rows[i]);
            && Records(windows[w].rows[i], f) && k == Key(f.vsyncId, f.vsync)
            && 0 < f.intendedVsync < f.completed && 0 < f.vsync
  {
    FrameRecords(windows[w].rows[i]);
  }

  /** Held as rendered means: every usable row of every window is held, column by column. */
  lemma AllHeldRecords(world: World)
    ensures AllHeld(world) <==> UsableHeld(world)
  {
    hide Kept, FrameOf, Usable;
    forall w: nat, i: nat | w < |world.windows| && i < |world.windows[w].rows|
      ensures Usable(world.windows[w].rows[i]) ==>
                var row := world.windows[w].rows[i];
                && Kept(row) && KeyAt(world.windows, w, i, KeyOf(FrameOf(row)))
                && (HeldAs(world, row) <==> KeyOf(FrameOf(row)) in world.capture.frames
                                            && world.capture.frames[KeyOf(FrameOf(row))] == FrameOf(row))
      ensures Kept(world.windows[w].rows[i]) ==> Usable(world.windows[w].rows[i])
    {
      FrameRecords(world.windows[w].rows[i]);
      if Usable(world.windows[w].rows[i]) {
        HeldAsIs(world, world.windows[w].rows[i]);
      }
    }
  }

  /** Every usable row of every window is held, column by column. */
  ghost predicate UsableHeld(world: World) {
    forall w: nat, i: nat :: w < |world.windows| && i < |world.windows[w].rows| ==>
      Usable(world.windows[w].rows[i]) ==> HeldAs(world, world.windows[w].rows[i])
  }

  /** A frame that records the row is held under its key. */
  ghost predicate HeldAs(world: World, row: Row) {
    exists f :: Records(row, f) && Holds(world, f)
  }

  predicate Holds(world: World, f: Frame) {
    Key(f.vsyncId, f.vsync) in world.capture.frames && world.capture.frames[Key(f.vsyncId, f.vsync)] == f
  }

  lemma HeldAsIs(world: World, row: Row)
    requires Usable(row)
    ensures Kept(row)
    ensures HeldAs(world, row) <==> Holds(world, FrameOf(row))
    ensures KeyOf(FrameOf(row)) == Key(FrameOf(row).vsyncId, FrameOf(row).vsync)
  {
    FrameRecords(row);
    if f :| Records(row, f) && Holds(world, f) {
      RecordsOnce(row, f);
    }
  }
}
