/**
 Frame capture by polling a lossy ring: what `dumpsys gfxinfo <package> framestats` prints, how a poll
 reads it, and what a capture holds after any run of renders and polls.
 */
module GfxinfoCapture {
  import opened Results

  const MAX_FRAMES: nat := 100000
  const RING: nat := 120
  const SAFE_NEW_FRAMES: nat := 108

  // ----- one dump -----

  /**
   A data row as its columns read; `None` is a value that is not a number, or an absent column. A deadline,
   interval or sync time that is absent reads as 0.
   */
  datatype Row = Row(flags: Option<int>, intendedVsync: Option<int>, vsync: Option<int>, completed: Option<int>,
                     vsyncId: Option<int>, inputEvent: Option<int>, deadline: Option<int>, interval: Option<int>,
                     syncQueued: Option<int>)

  datatype Frame = Frame(vsyncId: int, vsync: int, intendedVsync: int, completed: int, inputEvent: int,
                         deadline: Option<int>, interval: Option<int>, syncQueued: int)

  /** A line of the dump: a section mark, a column header, a data row, or anything else. */
  datatype Line = Mark | Header(supported: bool, inputEvents: bool) | Data(row: Row) | Other

  datatype PollError = AdbFailed | UnsupportedHeader | HeaderNotFound

  datatype ParseResult =
    | Parsed(frames: seq<Frame>, capacityReached: bool, inputEventColumn: bool)
    | Failed(error: PollError)

  predicate Positive(n: Option<int>) {
    n.Some? && n.value > 0
  }

  /** The parser keeps a row only if it is unflagged and its times are positive and in order. */
  predicate Kept(r: Row) {
    && r.flags == Some(0)
    && Positive(r.intendedVsync) && Positive(r.vsync) && Positive(r.completed)
    && r.completed.value > r.intendedVsync.value
  }

  function FrameOf(r: Row): Frame
    requires Kept(r)
  {
    Frame(if r.vsyncId.Some? then r.vsyncId.value else r.intendedVsync.value, r.vsync.value,
          r.intendedVsync.value, r.completed.value, if r.inputEvent.Some? then r.inputEvent.value else 0,
          r.deadline, r.interval, if r.syncQueued.Some? then r.syncQueued.value else 0)
  }

  function KeptFrames(rows: seq<Row>): (frames: seq<Frame>)
    ensures |frames| <= |rows|
  {
    if rows == [] then []
    else
      var before, r := KeptFrames(rows[..|rows| - 1]), rows[|rows| - 1];
      if Kept(r) then before + [FrameOf(r)] else before
  }

  /** Where the parser stands between two lines. */
  datatype Scan = Scan(frames: seq<Frame>, capacityReached: bool, inSection: bool, sectionRows: nat,
                       sawMark: bool, sawHeader: bool, inputEventColumn: bool, unsupported: bool)

  const SCAN_START := Scan([], false, false, 0, false, false, true, false)

  function ScanLine(s: Scan, line: Line): Scan {
    if s.unsupported then s
    else match line
      case Mark =>
        s.(capacityReached := s.capacityReached || s.sectionRows >= RING, inSection := false, sectionRows := 0,
           sawMark := true)
      case Header(supported, inputEvents) =>
        s.(inSection := true, sawHeader := true, inputEventColumn := s.inputEventColumn && inputEvents,
           unsupported := !supported)
      case Data(row) =>
        if !s.inSection then s
        else s.(sectionRows := s.sectionRows + 1, frames := if Kept(row) then s.frames + [FrameOf(row)] else s.frames)
      case Other => s
  }

  function ScanLines(s: Scan, lines: seq<Line>): Scan {
    if lines == [] then s else ScanLine(ScanLines(s, lines[..|lines| - 1]), lines[|lines| - 1])
  }

  function ParsedFrom(s: Scan): ParseResult {
    if s.unsupported then Failed(UnsupportedHeader)
    else if s.sawMark && !s.sawHeader then Failed(HeaderNotFound)
    else Parsed(s.frames, s.capacityReached || s.sectionRows >= RING, s.inputEventColumn)
  }

  function Parse(lines: seq<Line>): ParseResult {
    ParsedFrom(ScanLines(SCAN_START, lines))
  }

  lemma ScanNone()
    ensures ScanLines(SCAN_START, []) == SCAN_START
  {
  }

  /** The loop over the lines. An unsupported header ends it at once. */
  method ParseFrameStats(lines: seq<Line>) returns (r: ParseResult)
    ensures r == Parse(lines)
  {
    hide Kept, FrameOf, ScanLines;
    ScanNone();
    var frames, capacityReached, inSection, sectionRows := [], false, false, 0;
    var sawMark, sawHeader, inputEventColumn := false, false, true;
    var n := 0;
    while n < |lines|
      invariant 0 <= n <= |lines|
      invariant ScanLines(SCAN_START, lines[..n])
             == Scan(frames, capacityReached, inSection, sectionRows, sawMark, sawHeader, inputEventColumn, false)
    {
      assert lines[..n + 1] == lines[..n] + [lines[n]];
      ScanSnoc(SCAN_START, lines[..n], lines[n]);
      match lines[n] {
        case Mark =>
          sawMark := true;
          capacityReached := capacityReached || sectionRows >= RING;
          inSection := false;
          sectionRows := 0;
        case Header(supported, inputEvents) =>
          inSection := true;
          sawHeader := true;
          inputEventColumn := inputEventColumn && inputEvents;
          if !supported {
            StaysUnsupported(lines, n + 1);
            return Failed(UnsupportedHeader);
          }
        case Data(row) =>
          if inSection {
            sectionRows := sectionRows + 1;
            if Kept(row) {
              frames := frames + [FrameOf(row)];
            }
          }
        case Other =>
      }
      n := n + 1;
    }
    assert lines[..n] == lines;
    capacityReached := capacityReached || sectionRows >= RING;
    if sawMark && !sawHeader {
      return Failed(HeaderNotFound);
    }
    r := Parsed(frames, capacityReached, inputEventColumn);
  }

  lemma {:induction false} StaysUnsupported(lines: seq<Line>, n: nat)
    requires n <= |lines| && ScanLines(SCAN_START, lines[..n]).unsupported
    ensures ScanLines(SCAN_START, lines).unsupported
    decreases |lines|
  {
    if n < |lines| {
      assert lines[..|lines| - 1][..n] == lines[..n];
      StaysUnsupported(lines[..|lines| - 1], n);
    } else {
      assert lines[..n] == lines;
    }
  }

  // ----- printing a dump, and reading it back -----

  function DataLines(rows: seq<Row>): seq<Line> {
    if rows == [] then [] else DataLines(rows[..|rows| - 1]) + [Data(rows[|rows| - 1])]
  }

  /** One section per window: a mark, the header, the rows, a mark. */
  function Section(rows: seq<Row>): seq<Line> {
    [Mark, Header(true, true)] + DataLines(rows) + [Mark]
  }

  function Dump(rings: seq<seq<Row>>): seq<Line> {
    if rings == [] then [Other] else Dump(rings[..|rings| - 1]) + Section(rings[|rings| - 1])
  }

  function Collected(rings: seq<seq<Row>>): seq<Frame> {
    if rings == [] then [] else Collected(rings[..|rings| - 1]) + KeptFrames(rings[|rings| - 1])
  }

  predicate SomeRingFull(rings: seq<seq<Row>>) {
    exists w :: 0 <= w < |rings| && |rings[w]| >= RING
  }

  lemma {:induction false} ScanAppend(s: Scan, a: seq<Line>, b: seq<Line>)
    ensures ScanLines(s, a + b) == ScanLines(ScanLines(s, a), b)
    decreases |b|
  {
    if b == [] {
      assert a + b == a;
    } else {
      assert (a + b)[..|a + b| - 1] == a + b[..|b| - 1];
      ScanAppend(s, a, b[..|b| - 1]);
    }
  }

  lemma {:induction false} ScanRows(s: Scan, rows: seq<Row>)
    requires s.inSection && !s.unsupported
    ensures ScanLines(s, DataLines(rows)) ==
            s.(frames := s.frames + KeptFrames(rows), sectionRows := s.sectionRows + |rows|)
  {
    if rows != [] {
      ScanRows(s, rows[..|rows| - 1]);
      var lines := DataLines(rows);
      assert lines[..|lines| - 1] == DataLines(rows[..|rows| - 1]);
    }
  }

  lemma ScanSection(s: Scan, rows: seq<Row>)
    requires !s.unsupported && s.sectionRows == 0
    ensures ScanLines(s, Section(rows))
         == s.(frames := s.frames + KeptFrames(rows), capacityReached := s.capacityReached || |rows| >= RING,
               inSection := false, sawMark := true, sawHeader := true)
  {
    hide KeptFrames, DataLines;
    var head: seq<Line> := [Mark, Header(true, true)];
    ScanSnoc(s, [], Mark);
    ScanSnoc(s, [Mark], Header(true, true));
    assert [Mark] + [Header(true, true)] == head && [] + [Mark] == [Mark];
    var started := ScanLine(ScanLine(s, Mark), Header(true, true));
    ScanRows(started, rows);
    ScanAppend(s, head, DataLines(rows));
    ScanSnoc(s, head + DataLines(rows), Mark);
  }

  lemma ScanSnoc(s: Scan, lines: seq<Line>, line: Line)
    ensures ScanLines(s, lines + [line]) == ScanLine(ScanLines(s, lines), line)
  {
    assert (lines + [line])[..|lines|] == lines;
  }

  /** Reading back a printed dump yields exactly the kept rows of every window, and whether some ring was full. */
  lemma {:induction false} DumpReadsBack(rings: seq<seq<Row>>)
    ensures Parse(Dump(rings)) == Parsed(Collected(rings), SomeRingFull(rings), true)
  {
    DumpScan(rings);
  }

  lemma {:induction false} DumpScan(rings: seq<seq<Row>>)
    ensures var s := ScanLines(SCAN_START, Dump(rings));
            && s.frames == Collected(rings) && s.capacityReached == SomeRingFull(rings)
            && s.inputEventColumn && !s.unsupported && s.sectionRows == 0 && s.sawMark == s.sawHeader
  {
    if rings == [] {
      assert [Other][..0] == [];
    } else {
      var before, last := rings[..|rings| - 1], rings[|rings| - 1];
      DumpScan(before);
      ScanAppend(SCAN_START, Dump(before), Section(last));
      ScanSection(ScanLines(SCAN_START, Dump(before)), last);
      assert SomeRingFull(rings) <==> SomeRingFull(before) || |last| >= RING by {
        if SomeRingFull(before) {
          var w :| 0 <= w < |before| && |before[w]| >= RING;
          assert |rings[w]| >= RING;
        }
        if SomeRingFull(rings) && |last| < RING {
          var w :| 0 <= w < |rings| && |rings[w]| >= RING;
          assert before[w] == rings[w];
        }
      }
    }
  }

  // ----- polling -----

  datatype Key = Key(vsyncId: int, vsync: int)

  datatype Gap = RetentionLimit | MayHaveOverwritten | PollFailed(error: PollError)

  datatype Status = Unavailable | Partial | Complete

  datatype Capture = Capture(frames: map<Key, Frame>, gaps: seq<Gap>, inputEventsMissing: bool)

  function KeyOf(f: Frame): Key {
    Key(f.vsyncId, f.vsync)
  }

  function WithGap(gaps: seq<Gap>, gap: Gap): seq<Gap> {
    if gap in gaps then gaps else gaps + [gap]
  }

  /** Frames taken in one by one until the retention limit: `gained` counts the keys not seen before. */
  datatype Intake = Intake(frames: map<Key, Frame>, gained: nat, full: bool)

  function TakeIn(held: map<Key, Frame>, frames: seq<Frame>): Intake {
    if frames == [] then Intake(held, 0, false)
    else
      var before, f := TakeIn(held, frames[..|frames| - 1]), frames[|frames| - 1];
      if before.full then before
      else if |before.frames| >= MAX_FRAMES then before.(full := true)
      else Intake(before.frames[KeyOf(f) := f],
        if KeyOf(f) in before.frames then before.gained else before.gained + 1, false)
  }

  /** A capture after one poll; `None` is an adb read that failed. */
  function Polled(c: Capture, output: Option<seq<Line>>): Capture {
    if output.None? then c.(gaps := WithGap(c.gaps, PollFailed(AdbFailed)))
    else match Parse(output.value)
      case Failed(error) => c.(gaps := WithGap(c.gaps, PollFailed(error)))
      case Parsed(frames, capacityReached, inputEventColumn) =>
        var intake := TakeIn(c.frames, frames);
        var gaps := if intake.full then WithGap(c.gaps, RetentionLimit) else c.gaps;
        Capture(intake.frames,
                if capacityReached && intake.gained >= SAFE_NEW_FRAMES then WithGap(gaps, MayHaveOverwritten) else gaps,
                c.inputEventsMissing || !inputEventColumn)
  }

  function StatusOf(c: Capture): Status {
    if c.frames == map[] then Unavailable else if |c.gaps| > 0 then Partial else Complete
  }

  class FrameCapture {
    var frames: map<Key, Frame>
    var coverageGapReasons: seq<Gap>
    var inputEventsMissing: bool

    function State(): Capture
      reads this
    {
      Capture(frames, coverageGapReasons, inputEventsMissing)
    }

    constructor ()
      ensures State() == Capture(map[], [], false)
    {
      frames, coverageGapReasons, inputEventsMissing := map[], [], false;
    }

    method AddGap(reason: Gap)
      modifies this`coverageGapReasons
      ensures coverageGapReasons == WithGap(old(coverageGapReasons), reason)
    {
      if reason !in coverageGapReasons {
        coverageGapReasons := coverageGapReasons + [reason];
      }
    }

    method Poll(output: Option<seq<Line>>)
      modifies this
      ensures State() == Polled(old(State()), output)
    {
      hide Parse;
      if output.None? {
        AddGap(PollFailed(AdbFailed));
        return;
      }
      var parsed := ParseFrameStats(output.value);
      if parsed.Failed? {
        AddGap(PollFailed(parsed.error));
        return;
      }
      inputEventsMissing := inputEventsMissing || !parsed.inputEventColumn;
      var full, newFrameCount := TakeFrames(parsed.frames);
      if full {
        AddGap(RetentionLimit);
      }
      if parsed.capacityReached && newFrameCount >= SAFE_NEW_FRAMES {
        AddGap(MayHaveOverwritten);
      }
    }

    /** The loop of a poll: it ends early when the retention limit is reached. */
    method TakeFrames(parsed: seq<Frame>) returns (full: bool, newFrameCount: nat)
      modifies this`frames
      ensures TakeIn(old(frames), parsed) == Intake(frames, newFrameCount, full)
    {
      newFrameCount := 0;
      full := false;
      var n := 0;
      while n < |parsed|
        invariant 0 <= n <= |parsed|
        invariant TakeIn(old(frames), parsed[..n]) == Intake(frames, newFrameCount, false)
      {
        assert parsed[..n + 1][..n] == parsed[..n];
        if |frames| >= MAX_FRAMES {
          full := true;
          StaysFull(old(frames), parsed, n + 1);
          return;
        }
        var key := KeyOf(parsed[n]);
        if key !in frames {
          newFrameCount := newFrameCount + 1;
        }
        frames := frames[key := parsed[n]];
        n := n + 1;
      }
      assert parsed[..n] == parsed;
    }

    /** What `end` reports of the capture. */
    method Result() returns (status: Status, samples: nat, inputEventsAvailable: bool)
      ensures status == StatusOf(State()) && samples == |State().frames|
      ensures status == Unavailable <==> frames == map[]
      ensures status == Complete <==> frames != map[] && coverageGapReasons == []
      ensures inputEventsAvailable == !State().inputEventsMissing
    {
      samples := |frames|;
      status := if samples == 0 then Unavailable else if |coverageGapReasons| > 0 then Partial else Complete;
      inputEventsAvailable := !inputEventsMissing;
    }
  }

  lemma {:induction false} StaysFull(held: map<Key, Frame>, frames: seq<Frame>, n: nat)
    requires n <= |frames| && TakeIn(held, frames[..n]).full
    ensures TakeIn(held, frames) == TakeIn(held, frames[..n])
    decreases |frames|
  {
    if n < |frames| {
      assert frames[..|frames| - 1][..n] == frames[..n];
      StaysFull(held, frames[..|frames| - 1], n);
    } else {
      assert frames[..n] == frames;
    }
  }

  /**
   What an intake guarantees: the limit is never passed, `gained` is the growth, nothing is forgotten,
   every entry comes from the dump or was there before, and unless the limit stopped it every frame has its key.
   */
  lemma {:induction false} IntakeSound(held: map<Key, Frame>, frames: seq<Frame>)
    requires |held| <= MAX_FRAMES
    ensures var after := TakeIn(held, frames);
            && |after.frames| <= MAX_FRAMES && after.gained == |after.frames| - |held|
            && held.Keys <= after.frames.Keys
            && (forall k :: k in after.frames ==>
                 (k in held && after.frames[k] == held[k]) || Offered(frames, k, after.frames[k]))
            && (!after.full ==> forall k :: KeyOffered(frames, k) ==> k in after.frames)
  {
    if frames != [] {
      var before, f := frames[..|frames| - 1], frames[|frames| - 1];
      IntakeSound(held, before);
      var start, after := TakeIn(held, before), TakeIn(held, frames);
      forall k | k in after.frames
        ensures (k in held && after.frames[k] == held[k]) || Offered(frames, k, after.frames[k])
      {
        if k in start.frames && after.frames[k] == start.frames[k] {
        } else {
          assert f in frames;
        }
      }
      forall k | !after.full && KeyOffered(frames, k)
        ensures k in after.frames
      {
        var g :| g in frames && KeyOf(g) == k;
        if g in before {
          assert KeyOffered(before, k);
        }
      }
      if !start.full && |start.frames| < MAX_FRAMES && KeyOf(f) !in start.frames {
        assert after.frames.Keys == start.frames.Keys + {KeyOf(f)};
        assert |after.frames| == |start.frames| + 1;
      }
      if !start.full && |start.frames| < MAX_FRAMES && KeyOf(f) in start.frames {
        assert after.frames.Keys == start.frames.Keys;
      }
    }
  }

  predicate Offered(frames: seq<Frame>, k: Key, f: Frame) {
    f in frames && KeyOf(f) == k
  }

  ghost predicate KeyOffered(frames: seq<Frame>, k: Key) {
    exists f :: f in frames && KeyOf(f) == k
  }
}
