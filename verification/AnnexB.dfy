/**
 The reference meaning of an H.264 byte stream (Annex B of ITU-T H.264): where it splits into NAL
 units, and how the units group into frames. Everything here is a function of the whole stream, so
 it knows nothing of chunks or of a residual buffer.
 */
module AnnexB {
  import opened Bytes

  type Nal = seq<Byte>

  datatype Kind = Param | Idr | Slice | Other

  /** A frame, still as the units it is made of. */
  datatype Frame = Frame(units: seq<Nal>, key: bool)

  /** `pending` holds the units kept back for an unfinished keyframe; `advanced` says whether any unit was used up. */
  datatype Group = Group(pending: seq<Nal>, frames: seq<Frame>, advanced: bool)

  const START: Group := Group([], [], false)

  /** A 4-byte start code at offset `i`. */
  predicate IsStart(b: seq<Byte>, i: nat) {
    i + 4 <= |b| && b[i] == 0 && b[i + 1] == 0 && b[i + 2] == 0 && b[i + 3] == 1
  }

  /** The first start code at or after `from`, or `|b|` when there is none. */
  function NextStart(b: seq<Byte>, from: nat): (i: nat)
    requires from <= |b|
    ensures from <= i <= |b|
    ensures i < |b| ==> IsStart(b, i)
    decreases |b| - from
  {
    if from == |b| || IsStart(b, from) then from else NextStart(b, from + 1)
  }

  /** The stream from its first start code. */
  function Body(b: seq<Byte>): seq<Byte> {
    b[NextStart(b, 0)..]
  }

  /** The complete units of a body: each runs from its start code to the next one. */
  function Units(b: seq<Byte>): (ns: seq<Nal>)
    decreases |b|
  {
    if !IsStart(b, 0) then []
    else
      var n := NextStart(b, 1);
      if n == |b| then [] else [b[..n]] + Units(b[n..])
  }

  /** The last, still incomplete unit of a body. */
  function Tail(b: seq<Byte>): seq<Byte>
    decreases |b|
  {
    if !IsStart(b, 0) then b
    else
      var n := NextStart(b, 1);
      if n == |b| then b else Tail(b[n..])
  }

  /** A unit cut short by the next start code reads that code's first byte, a zero. */
  function NalType(n: Nal): int {
    if |n| > 4 then n[4] % 32 else 0
  }

  function KindOf(n: Nal): Kind {
    var t := NalType(n);
    if t == 7 || t == 8 then Param
    else if t == 5 then Idr
    else if t == 1 then Slice
    else Other
  }

  function Step(g: Group, n: Nal): Group {
    match KindOf(n)
    case Param => g.(pending := g.pending + [n])
    case Idr => Group([], g.frames + [Frame(g.pending + [n], true)], true)
    case Slice =>
      var flushed := if g.pending == [] then g.frames else g.frames + [Frame(g.pending, true)];
      Group([], flushed + [Frame([n], false)], true)
    case Other => if g.pending == [] then g.(advanced := true) else g.(pending := g.pending + [n])
  }

  function Fold(g: Group, ns: seq<Nal>): Group {
    if ns == [] then g else Step(Fold(g, ns[..|ns| - 1]), ns[|ns| - 1])
  }

  function Grouped(stream: seq<Byte>): Group {
    Fold(START, Units(Body(stream)))
  }

  /** The frames of a whole stream. */
  function Frames(stream: seq<Byte>): seq<Frame> {
    Grouped(stream).frames
  }

  /** What a splitter has to keep of a whole stream. */
  function Residual(stream: seq<Byte>): seq<Byte> {
    var g := Grouped(stream);
    if g.advanced then Flat(g.pending) + Tail(Body(stream)) else stream
  }

  // ----- splitting -----

  lemma ShiftStart(b: seq<Byte>, n: nat, i: nat)
    requires n <= |b|
    ensures IsStart(b[n..], i) <==> IsStart(b, n + i)
  {
  }

  lemma {:induction false} NextStartIs(b: seq<Byte>, from: nat, i: nat)
    requires from <= i <= |b|
    requires i < |b| ==> IsStart(b, i)
    requires forall j :: from <= j < i ==> !IsStart(b, j)
    ensures NextStart(b, from) == i
    decreases |b| - from
  {
    if from < i {
      NextStartIs(b, from + 1, i);
    }
  }

  /** More bytes do not move a start code that is already complete. */
  lemma {:induction false} NextStartAppend(b: seq<Byte>, c: seq<Byte>, from: nat)
    requires from <= |b| && NextStart(b, from) < |b|
    ensures NextStart(b + c, from) == NextStart(b, from)
    decreases |b| - from
  {
    if !IsStart(b, from) {
      assert !IsStart(b + c, from) by {
        StartSpansEnd(b, c, from);
      }
      NextStartAppend(b, c, from + 1);
    }
  }

  /** A start code completed only by the new bytes cannot come before one already complete. */
  lemma StartSpansEnd(b: seq<Byte>, c: seq<Byte>, from: nat)
    requires from < |b| && !IsStart(b, from) && NextStart(b, from) < |b|
    ensures !IsStart(b + c, from)
  {
    assert IsStart(b, NextStart(b, from));
  }

  /** Splitting loses nothing: the units and the tail are the body. */
  lemma {:induction false} UnitsRebuild(b: seq<Byte>)
    ensures b == Flat(Units(b)) + Tail(b)
    decreases |b|
  {
    if IsStart(b, 0) {
      var n := NextStart(b, 1);
      if n < |b| {
        UnitsRebuild(b[n..]);
        FlatCons(b[..n], Units(b[n..]));
      }
    }
  }

  /** A body whose next start code is at `n`, taken apart there. */
  lemma FirstUnit(b: seq<Byte>, n: nat)
    requires IsStart(b, 0) && n == NextStart(b, 1) < |b|
    ensures Units(b) == [b[..n]] + Units(b[n..]) && Tail(b) == Tail(b[n..])
    ensures IsStart(b[n..], 0)
  {
    ShiftStart(b, n, 0);
  }

  /** Appending bytes re-splits the tail only. */
  lemma {:induction false} UnitsAppend(b: seq<Byte>, c: seq<Byte>)
    requires IsStart(b, 0)
    ensures Units(b + c) == Units(b) + Units(Tail(b) + c)
    ensures Tail(b + c) == Tail(Tail(b) + c)
    decreases |b|
  {
    var n := NextStart(b, 1);
    if n < |b| {
      FirstUnit(b, n);
      UnitsAppend(b[n..], c);
      NextStartAppend(b, c, 1);
      FirstUnit(b + c, n);
      DropAppend(b, c, n);
      TakeAppend(b, c, n);
    }
  }

  /** The bytes from the `k`th unit on split into the units from the `k`th on. */
  lemma {:induction false} UnitsSuffix(b: seq<Byte>, k: nat)
    requires IsStart(b, 0) && k <= |Units(b)|
    ensures var s := Flat(Units(b)[k..]) + Tail(b);
            IsStart(s, 0) && Units(s) == Units(b)[k..] && Tail(s) == Tail(b)
    decreases |b|
  {
    UnitsRebuild(b);
    if k == 0 {
      assert Units(b)[0..] == Units(b);
    } else {
      var n := NextStart(b, 1);
      ShiftStart(b, n, 0);
      UnitsSuffix(b[n..], k - 1);
      assert Units(b)[k..] == Units(b[n..])[k - 1..];
    }
  }

  // ----- grouping -----

  lemma FoldStep(g: Group, ns: seq<Nal>, n: Nal)
    ensures Fold(g, ns + [n]) == Step(Fold(g, ns), n)
  {
    assert (ns + [n])[..|ns|] == ns;
  }

  lemma {:induction false} FoldAppend(g: Group, ns: seq<Nal>, ms: seq<Nal>)
    ensures Fold(g, ns + ms) == Fold(Fold(g, ns), ms)
  {
    if ms == [] {
      assert ns + ms == ns;
    } else {
      var init, n := ms[..|ms| - 1], ms[|ms| - 1];
      FoldAppend(g, ns, init);
      assert ns + ms == (ns + init) + [n];
      FoldStep(g, ns + init, n);
    }
  }

  lemma StepForgets(p: seq<Nal>, fs: seq<Frame>, hs: seq<Frame>, a: bool, b: bool, n: Nal)
    ensures var h := Step(Group(p, hs, b), n);
            Step(Group(p, fs + hs, a || b), n) == Group(h.pending, fs + h.frames, a || h.advanced)
  {
    if KindOf(n) == Idr {
      assert fs + hs + [Frame(p + [n], true)] == fs + (hs + [Frame(p + [n], true)]);
    } else if KindOf(n) == Slice {
      assert fs + hs + [Frame([n], false)] == fs + (hs + [Frame([n], false)]);
      assert fs + hs + [Frame(p, true)] + [Frame([n], false)] == fs + (hs + [Frame(p, true)] + [Frame([n], false)]);
    }
  }

  /** Frames already emitted, and earlier progress, do not influence what follows. */
  lemma {:induction false} FoldForgets(g: Group, ns: seq<Nal>)
    ensures var f := Fold(g, ns); var h := Fold(Group(g.pending, [], false), ns);
            f == Group(h.pending, g.frames + h.frames, g.advanced || h.advanced)
  {
    if ns != [] {
      var init, n := ns[..|ns| - 1], ns[|ns| - 1];
      FoldForgets(g, init);
      var h := Fold(Group(g.pending, [], false), init);
      StepForgets(h.pending, g.frames, h.frames, g.advanced, h.advanced, n);
    }
  }

  predicate Waits(n: Nal) {
    KindOf(n) == Param || KindOf(n) == Other
  }

  /** Units that can wait for their slice: a parameter set first, no slice at all. */
  predicate Waiting(p: seq<Nal>) {
    && (p != [] ==> KindOf(p[0]) == Param)
    && forall n :: n in p ==> Waits(n)
  }

  lemma SuffixStep(ns: seq<Nal>, g: Group, n: Nal)
    requires |g.pending| <= |ns| && g.pending == ns[|ns| - |g.pending|..]
    ensures var p, all := Step(g, n).pending, ns + [n];
            |p| <= |all| && p == all[|all| - |p|..]
    ensures !Step(g, n).advanced ==> !g.advanced && Step(g, n) == Group(g.pending + [n], g.frames, false)
  {
    hide KindOf;
    DropAppend(ns, [n], |ns| - |g.pending|);
  }

  /** The pending units are always the last ones seen, and before any progress they are all of them. */
  lemma {:induction false} PendingIsSuffix(ns: seq<Nal>)
    ensures var p := Fold(START, ns).pending; |p| <= |ns| && p == ns[|ns| - |p|..]
    ensures !Fold(START, ns).advanced ==> Fold(START, ns) == Group(ns, [], false)
  {
    hide Step;
    if ns != [] {
      var init, n := ns[..|ns| - 1], ns[|ns| - 1];
      PendingIsSuffix(init);
      Unsnoc(ns);
      SuffixStep(init, Fold(START, init), n);
    }
  }

  lemma {:induction false} PendingWaits(ns: seq<Nal>)
    ensures Waiting(Fold(START, ns).pending)
  {
    if ns != [] {
      PendingWaits(ns[..|ns| - 1]);
    }
  }

  /** Grouping the waiting units again rebuilds exactly the state they stand for. */
  lemma {:induction false} WaitingRefolds(p: seq<Nal>)
    requires Waiting(p)
    ensures Fold(START, p) == Group(p, [], false)
  {
    if p != [] {
      var init, n := p[..|p| - 1], p[|p| - 1];
      Unsnoc(p);
      WaitingRefolds(init);
      FoldStep(START, init, n);
      assert n in p;
    }
  }

  // ----- the residual carries everything -----

  lemma BodyAppend(s: seq<Byte>, c: seq<Byte>)
    requires NextStart(s, 0) < |s|
    ensures Body(s + c) == Body(s) + c
  {
    NextStartAppend(s, c, 0);
    DropAppend(s, c, NextStart(s, 0));
  }

  lemma BodyStarts(s: seq<Byte>)
    requires NextStart(s, 0) < |s|
    ensures IsStart(Body(s), 0)
  {
    ShiftStart(s, NextStart(s, 0), 0);
  }

  lemma NoStartNoUnits(s: seq<Byte>)
    requires NextStart(s, 0) == |s|
    ensures Units(Body(s)) == []
  {
    assert !IsStart([], 0);
  }

  lemma AdvancedHasStart(s: seq<Byte>)
    requires Grouped(s).advanced
    ensures NextStart(s, 0) < |s|
  {
    if NextStart(s, 0) == |s| {
      NoStartNoUnits(s);
    }
  }

  /** The waiting units and the tail of a body split back into themselves. */
  lemma WaitingSplits(b: seq<Byte>)
    requires IsStart(b, 0)
    ensures var p := Fold(START, Units(b)).pending; var r := Flat(p) + Tail(b);
            IsStart(r, 0) && Units(r) == p && Tail(r) == Tail(b)
  {
    hide Units, Fold, Flat, Tail;
    var ns := Units(b);
    PendingIsSuffix(ns);
    UnitsSuffix(b, |ns| - |Fold(START, ns).pending|);
  }

  lemma ResidualSplits(s: seq<Byte>)
    requires Grouped(s).advanced
    ensures IsStart(Residual(s), 0)
    ensures Units(Residual(s)) == Grouped(s).pending
    ensures Tail(Residual(s)) == Tail(Body(s))
  {
    AdvancedHasStart(s);
    BodyStarts(s);
    WaitingSplits(Body(s));
  }

  /** More bytes continue the grouping from where the stream left it. */
  lemma GroupedAppend(s: seq<Byte>, c: seq<Byte>)
    requires NextStart(s, 0) < |s|
    ensures var t := Tail(Body(s));
            && Grouped(s + c) == Fold(Grouped(s), Units(t + c))
            && Tail(Body(s + c)) == Tail(t + c)
  {
    var b := Body(s);
    BodyStarts(s);
    BodyAppend(s, c);
    UnitsAppend(b, c);
    FoldAppend(START, Units(b), Units(Tail(b) + c));
  }

  /** The same continuation, begun from the residual instead. */
  lemma GroupedResidual(s: seq<Byte>, c: seq<Byte>)
    requires Grouped(s).advanced
    ensures var t := Tail(Body(s)); var r := Residual(s);
            && Grouped(r + c) == Fold(Group(Grouped(s).pending, [], false), Units(t + c))
            && Tail(Body(r + c)) == Tail(t + c)
  {
    var r := Residual(s);
    ResidualSplits(s);
    GroupedAppend(r, c);
    PendingWaits(Units(Body(s)));
    WaitingRefolds(Grouped(s).pending);
  }

  /** Until something is used up, everything is kept: the units stay pending ... */
  lemma StillPending(p: seq<Nal>, ms: seq<Nal>)
    requires Waiting(p)
    requires !Fold(Group(p, [], false), ms).advanced
    ensures Fold(Group(p, [], false), ms).pending == p + ms
  {
    WaitingRefolds(p);
    FoldAppend(START, p, ms);
    PendingIsSuffix(p + ms);
  }

  /** ... and with the tail they are all the bytes. */
  lemma StillWaiting(p: seq<Nal>, t: seq<Byte>, c: seq<Byte>)
    ensures Flat(p + Units(t + c)) + Tail(t + c) == Flat(p) + t + c
  {
    var u, v := Flat(Units(t + c)), Tail(t + c);
    UnitsRebuild(t + c);
    FlatAppend(p, Units(t + c));
    Rejoin(Flat(p), u, v);
    Rejoin(Flat(p), t, c);
  }

  /**
   Resuming from the residual gives what the whole stream gives: the frames of `s + c` are those of
   `s` and then those of the residual of `s` followed by `c`, and the residuals agree.
   */
  lemma Resume(s: seq<Byte>, c: seq<Byte>)
    ensures Frames(s + c) == Frames(s) + Frames(Residual(s) + c)
    ensures Residual(s + c) == Residual(Residual(s) + c)
  {
    var g := Grouped(s);
    if g.advanced {
      var ms := Units(Tail(Body(s)) + c);
      AdvancedHasStart(s);
      GroupedAppend(s, c);
      GroupedResidual(s, c);
      FoldForgets(g, ms);
      if !Grouped(Residual(s) + c).advanced {
        PendingWaits(Units(Body(s)));
        StillPending(g.pending, ms);
        StillWaiting(g.pending, Tail(Body(s)), c);
      }
    } else {
      PendingIsSuffix(Units(Body(s)));
    }
  }

  // ----- what the frames contain -----

  /** After these units a keyframe is open: a parameter set, and no slice since. */
  ghost predicate Open(ns: seq<Nal>) {
    exists j :: OpenFrom(ns, j)
  }

  /** Unit `j` is a parameter set, and no slice has come since. */
  predicate OpenFrom(ns: seq<Nal>, j: int) {
    0 <= j < |ns| && KindOf(ns[j]) == Param && forall k :: j < k < |ns| ==> Waits(ns[k])
  }

  /** A unit of another type that no open keyframe takes in. */
  ghost predicate StandsAlone(ns: seq<Nal>, i: nat)
    requires i < |ns|
  {
    KindOf(ns[i]) == Other && !Open(ns[..i])
  }

  /** The first `count` units in order, without those that stand alone. */
  ghost function Kept(ns: seq<Nal>, count: nat): seq<Nal>
    requires count <= |ns|
  {
    if count == 0 then []
    else Kept(ns, count - 1) + if StandsAlone(ns, count - 1) then [] else [ns[count - 1]]
  }

  /** The units of the frames, in the order emitted. */
  function FrameUnits(fs: seq<Frame>): seq<Nal> {
    if fs == [] then [] else FrameUnits(fs[..|fs| - 1]) + fs[|fs| - 1].units
  }

  lemma FrameUnitsAdd(fs: seq<Frame>, f: Frame)
    ensures FrameUnits(fs + [f]) == FrameUnits(fs) + f.units
  {
    assert (fs + [f])[..|fs|] == fs;
  }

  lemma OpenStep(ns: seq<Nal>, n: Nal)
    ensures Open(ns + [n]) <==> KindOf(n) == Param || (KindOf(n) == Other && Open(ns))
  {
    hide KindOf;
    OpenFromStep(ns, n, |ns|);
    if j :| OpenFrom(ns + [n], j) && j != |ns| {
      OpenFromStep(ns, n, j);
    }
    if j :| OpenFrom(ns, j) {
      OpenFromStep(ns, n, j);
    }
  }

  lemma OpenFromStep(ns: seq<Nal>, n: Nal, j: int)
    ensures OpenFrom(ns + [n], j) <==> if j == |ns| then KindOf(n) == Param else OpenFrom(ns, j) && Waits(n)
  {
    hide KindOf;
    var all := ns + [n];
    assert all[|ns|] == n;
    assert forall k | 0 <= k < |ns| :: ns[k] == all[k];
  }

  /** One unit adds exactly itself to what is emitted or waiting, unless it stands alone. */
  lemma StepConserves(g: Group, n: Nal)
    ensures var h := Step(g, n);
            FrameUnits(h.frames) + h.pending
            == FrameUnits(g.frames) + g.pending + if KindOf(n) == Other && g.pending == [] then [] else [n]
  {
    match KindOf(n)
    case Param =>
    case Idr => FrameUnitsAdd(g.frames, Frame(g.pending + [n], true));
    case Slice =>
      if g.pending == [] {
        FrameUnitsAdd(g.frames, Frame([n], false));
      } else {
        FrameUnitsAdd(g.frames, Frame(g.pending, true));
        FrameUnitsAdd(g.frames + [Frame(g.pending, true)], Frame([n], false));
      }
    case Other =>
  }

  lemma FoldPrefix(g: Group, ns: seq<Nal>, count: nat)
    requires 0 < count <= |ns|
    ensures Fold(g, ns[..count]) == Step(Fold(g, ns[..count - 1]), ns[count - 1])
    ensures ns[..count] == ns[..count - 1] + [ns[count - 1]]
  {
    assert ns[..count][..count - 1] == ns[..count - 1];
  }

  /** The splitter is keeping units back exactly while a keyframe is open. */
  lemma {:induction false} PendingMeansOpen(ns: seq<Nal>, count: nat)
    requires count <= |ns|
    ensures Fold(START, ns[..count]).pending != [] <==> Open(ns[..count])
  {
    hide Open, KindOf, Fold;
    if count == 0 {
      NothingOpen();
    } else {
      PendingMeansOpen(ns, count - 1);
      FoldPrefix(START, ns, count);
      OpenStep(ns[..count - 1], ns[count - 1]);
    }
  }

  lemma NothingOpen()
    ensures !Open([]) && Fold(START, []).pending == []
  {
  }

  /** Unit by unit, the frames and the waiting units hold exactly the kept units. */
  lemma {:induction false} UnitsConserved(ns: seq<Nal>, count: nat)
    requires count <= |ns|
    ensures var g := Fold(START, ns[..count]); FrameUnits(g.frames) + g.pending == Kept(ns, count)
  {
    if count > 0 {
      UnitsConserved(ns, count - 1);
      FoldPrefix(START, ns, count);
      PendingMeansOpen(ns, count - 1);
      StepConserves(Fold(START, ns[..count - 1]), ns[count - 1]);
    }
  }

  /**
   Byte conservation: what was emitted and what is retained, together, is the stream from its first
   start code with only the stand-alone units deleted; nothing is repeated or reordered. Once
   anything has been used up the residual begins at a start code; until then it is the whole stream.
   */
  lemma ByteConservation(s: seq<Byte>)
    ensures s == s[..NextStart(s, 0)] + (Flat(Units(Body(s))) + Tail(Body(s)))
    ensures Grouped(s).advanced ==> IsStart(Residual(s), 0)
    ensures Grouped(s).advanced ==>
              Flat(FrameUnits(Frames(s))) + Residual(s) == Flat(Kept(Units(Body(s)), |Units(Body(s))|)) + Tail(Body(s))
    ensures !Grouped(s).advanced ==> Frames(s) == [] && Residual(s) == s
  {
    UnitsRebuild(Body(s));
    AllUnitsConserved(Units(Body(s)), Tail(Body(s)));
    if Grouped(s).advanced {
      ResidualSplits(s);
    }
  }

  lemma AllUnitsConserved(ns: seq<Nal>, t: seq<Byte>)
    ensures var g := Fold(START, ns);
            && Flat(FrameUnits(g.frames)) + (Flat(g.pending) + t) == Flat(Kept(ns, |ns|)) + t
            && (!g.advanced ==> g.frames == [])
  {
    var g := Fold(START, ns);
    PendingIsSuffix(ns);
    UnitsConserved(ns, |ns|);
    assert ns[..|ns|] == ns;
    FlatAppend(FrameUnits(g.frames), g.pending);
    Rejoin(Flat(FrameUnits(g.frames)), Flat(g.pending), t);
  }

  /**
   The shape of a frame: a key frame is an IDR slice alone, or begins with a parameter set and ends
   with the first slice after it, if it has one; a frame that is not key is exactly one P slice.
   */
  predicate WellFormed(f: Frame) {
    && f.units != []
    && if !f.key then |f.units| == 1 && KindOf(f.units[0]) == Slice
       else
         var last := f.units[|f.units| - 1];
         && Waiting(f.units[..|f.units| - 1])
         && (KindOf(last) == Idr || (Waits(last) && Waiting(f.units)))
  }

  lemma StepShapes(g: Group, n: Nal)
    requires Waiting(g.pending)
    ensures forall f :: f in Step(g, n).frames ==> f in g.frames || WellFormed(f)
  {
    hide KindOf, WellFormed, Waiting;
    EndedByIdr(g.pending, n);
    EndedBySlice(g.pending);
    OneSlice(n);
  }

  lemma EndedByIdr(p: seq<Nal>, n: Nal)
    requires Waiting(p)
    ensures KindOf(n) == Idr ==> WellFormed(Frame(p + [n], true))
  {
    hide KindOf, Waiting;
    assert (p + [n])[..|p|] == p;
  }

  lemma EndedBySlice(p: seq<Nal>)
    requires Waiting(p)
    ensures p != [] ==> WellFormed(Frame(p, true))
  {
    hide KindOf;
    if p != [] {
      assert p[|p| - 1] in p;
      assert forall n :: n in p[..|p| - 1] ==> n in p;
    }
  }

  lemma OneSlice(n: Nal)
    ensures KindOf(n) == Slice ==> WellFormed(Frame([n], false))
  {
    hide KindOf;
  }

  lemma {:induction false} FrameShapes(ns: seq<Nal>)
    ensures forall f :: f in Fold(START, ns).frames ==> WellFormed(f)
  {
    if ns != [] {
      var init := ns[..|ns| - 1];
      FrameShapes(init);
      PendingWaits(init);
      StepShapes(Fold(START, init), ns[|ns| - 1]);
    }
  }

  // ----- where frames begin and end -----

  /** The type byte of a unit follows its start code; its low five bits are the type. */
  predicate HasType(n: Nal, t: int) {
    |n| > 4 && n[4] % 32 == t
  }

  predicate SetsParameters(n: Nal) {
    HasType(n, 7) || HasType(n, 8)
  }

  predicate IsSlice(n: Nal) {
    HasType(n, 1) || HasType(n, 5)
  }

  /** Unit `j` is a parameter set, and no slice follows it before unit `b`. */
  predicate OpenAt(ns: seq<Nal>, j: int, b: int) {
    0 <= j < b <= |ns| && SetsParameters(ns[j]) && forall k :: j < k < b ==> !IsSlice(ns[k])
  }

  /** Unit `a` is the first parameter set that is open before unit `b`. */
  ghost predicate FirstOpen(ns: seq<Nal>, a: int, b: int) {
    OpenAt(ns, a, b) && forall j :: 0 <= j < a ==> !OpenAt(ns, j, b)
  }

  ghost predicate NoneOpen(ns: seq<Nal>, b: int) {
    forall j :: !OpenAt(ns, j, b)
  }

  /** A frame by the positions of its units: from `from` up to, and without, `to`. */
  datatype Span = Span(from: nat, to: nat, key: bool)

  /**
   The frames of a stream, told from its units alone. A P slice is a frame of its own. An IDR slice ends a key frame
   that begins at the first open parameter set, or at the slice itself where none is open. A P slice ends a key frame
   of the units from the first open parameter set up to it.
   */
  ghost predicate IsSpan(ns: seq<Nal>, s: Span) {
    && s.from < s.to <= |ns|
    && if !s.key then s.to == s.from + 1 && HasType(ns[s.from], 1)
       else
         || (HasType(ns[s.to - 1], 5)
             && (FirstOpen(ns, s.from, s.to - 1) || (s.from == s.to - 1 && NoneOpen(ns, s.from))))
         || (s.to < |ns| && HasType(ns[s.to], 1) && FirstOpen(ns, s.from, s.to))
  }

  /** The frames are exactly those at these positions, one after another. */
  ghost predicate Spanned(ns: seq<Nal>, frames: seq<Frame>, spans: seq<Span>) {
    && |spans| == |frames|
    && (forall k :: 0 <= k < |spans| ==>
         IsSpan(ns, spans[k]) && frames[k] == Frame(ns[spans[k].from..spans[k].to], spans[k].key))
    && (forall i, j :: 0 <= i < j < |spans| ==> spans[i].to <= spans[j].from)
    && forall s :: IsSpan(ns, s) ==> s in spans
  }

  lemma KindTypes(n: Nal)
    ensures KindOf(n) == Param <==> SetsParameters(n)
    ensures KindOf(n) == Idr <==> HasType(n, 5)
    ensures KindOf(n) == Slice <==> HasType(n, 1)
  {
  }

  lemma OpenAtStep(ns: seq<Nal>, n: Nal, j: int, b: int)
    ensures b <= |ns| ==> OpenAt(ns + [n], j, b) == OpenAt(ns, j, b)
    ensures OpenAt(ns + [n], j, |ns| + 1) <==>
              if j == |ns| then SetsParameters(n) else OpenAt(ns, j, |ns|) && !IsSlice(n)
  {
    hide SetsParameters, IsSlice;
    var all := ns + [n];
    assert all[|ns|] == n;
    assert forall k | 0 <= k < |ns| :: ns[k] == all[k];
  }

  lemma FirstOpenStep(ns: seq<Nal>, n: Nal, a: int, b: int)
    ensures b <= |ns| ==>
              FirstOpen(ns + [n], a, b) == FirstOpen(ns, a, b) && NoneOpen(ns + [n], b) == NoneOpen(ns, b)
  {
    hide OpenAt;
    if b <= |ns| {
      forall j: int
        ensures OpenAt(ns + [n], j, b) == OpenAt(ns, j, b)
      {
        OpenAtStep(ns, n, j, b);
      }
    }
  }

  /** What is open after one more unit. */
  lemma OpenAfter(ns: seq<Nal>, n: Nal, all: seq<Nal>, end: nat, a: int)
    requires all == ns + [n] && end == |ns| + 1
    ensures IsSlice(n) ==> !SetsParameters(n) && NoneOpen(all, end)
    ensures !IsSlice(n) && FirstOpen(ns, a, |ns|) ==> FirstOpen(all, a, end)
    ensures NoneOpen(ns, |ns|) && SetsParameters(n) ==> FirstOpen(all, |ns|, end)
    ensures NoneOpen(ns, |ns|) && !SetsParameters(n) ==> NoneOpen(all, end)
  {
    SliceSetsNothing(n);
    hide OpenAt, SetsParameters, IsSlice;
    forall j: int
      ensures OpenAt(all, j, end) <==> if j == |ns| then SetsParameters(n) else OpenAt(ns, j, |ns|) && !IsSlice(n)
      ensures OpenAt(ns, j, |ns|) ==> 0 <= j < |ns|
    {
      OpenAtStep(ns, n, j, |ns|);
      OpenInside(ns, j, |ns|);
    }
  }

  lemma SliceSetsNothing(n: Nal)
    ensures IsSlice(n) ==> !SetsParameters(n)
  {
  }

  lemma OpenInside(ns: seq<Nal>, j: int, b: int)
    ensures OpenAt(ns, j, b) ==> 0 <= j < b <= |ns|
  {
  }

  /** The units kept back are those from the first open parameter set on. */
  lemma {:induction false} PendingIsOpen(ns: seq<Nal>)
    ensures var p := Fold(START, ns).pending;
            && |p| <= |ns| && p == ns[|ns| - |p|..]
            && if p == [] then NoneOpen(ns, |ns|) else FirstOpen(ns, |ns| - |p|, |ns|)
  {
    hide FirstOpen, NoneOpen, HasType, KindOf, Step;
    PendingIsSuffix(ns);
    if ns == [] {
      NoneOpenYet();
    } else {
      var init, n := ns[..|ns| - 1], ns[|ns| - 1];
      PendingIsOpen(init);
      Unsnoc(ns);
      KindTypes(n);
      OpenAfter(init, n, ns, |ns|, |init| - |Fold(START, init).pending|);
      PendingStep(Fold(START, init), n);
    }
  }

  lemma PendingStep(g: Group, n: Nal)
    ensures var p := Step(g, n).pending;
            match KindOf(n)
            case Param => |p| == |g.pending| + 1 && Step(g, n).advanced == g.advanced
            case Other =>
              && |p| == (if g.pending == [] then 0 else |g.pending| + 1)
              && Step(g, n).advanced == (g.advanced || g.pending == [])
            case _ => p == [] && Step(g, n).advanced
  {
  }

  /** Something has been used up exactly if not every unit is kept back. */
  lemma {:induction false} AdvancedIff(ns: seq<Nal>)
    ensures Fold(START, ns).advanced <==> |Fold(START, ns).pending| < |ns|
  {
    hide KindOf, Step;
    if ns != [] {
      var init := ns[..|ns| - 1];
      AdvancedIff(init);
      PendingIsSuffix(init);
      PendingStep(Fold(START, init), ns[|ns| - 1]);
    }
  }

  lemma NoneOpenYet()
    ensures NoneOpen([], 0)
  {
  }

  /** Which positions one more unit adds: none, those of a key frame it ends, and its own. */
  lemma SpanStep(ns: seq<Nal>, n: Nal, s: Span)
    ensures IsSpan(ns + [n], s) <==>
              || IsSpan(ns, s)
              || (HasType(n, 1) && s == Span(|ns|, |ns| + 1, false))
              || (HasType(n, 1) && s.key && s.to == |ns| && FirstOpen(ns, s.from, |ns|))
              || (HasType(n, 5) && s.key && s.to == |ns| + 1
                  && (FirstOpen(ns, s.from, |ns|) || (s.from == |ns| && NoneOpen(ns, |ns|))))
  {
    hide FirstOpen, NoneOpen, HasType;
    var all := ns + [n];
    assert all[|ns|] == n;
    assert forall k | 0 <= k < |ns| :: ns[k] == all[k];
    FirstOpenStep(ns, n, s.from, s.to - 1);
    FirstOpenStep(ns, n, s.from, s.to);
    FirstOpenStep(ns, n, s.from, s.from);
    FirstOpenInside(ns, s.from, |ns|);
  }

  lemma FirstOpenInside(ns: seq<Nal>, a: int, b: int)
    ensures FirstOpen(ns, a, b) ==> 0 <= a < b <= |ns|
  {
  }

  lemma OneFirstOpen(ns: seq<Nal>, a: int, c: int, b: int)
    requires FirstOpen(ns, a, b)
    ensures FirstOpen(ns, c, b) ==> a == c
    ensures !NoneOpen(ns, b)
  {
    hide SetsParameters, IsSlice;
  }

  /** A frame that ends where the units so far do is added behind the others. */
  lemma SpannedAdd(ns: seq<Nal>, n: Nal, frames: seq<Frame>, spans: seq<Span>, more: seq<Span>)
    requires Spanned(ns, frames, spans)
    requires forall s :: IsSpan(ns + [n], s) <==> IsSpan(ns, s) || s in more
    requires forall k :: 0 <= k < |more| ==> more[k].from < more[k].to <= |ns| + 1
    requires forall i, j :: 0 <= i < j < |more| ==> more[i].to <= more[j].from
    requires forall i, k :: 0 <= i < |spans| && 0 <= k < |more| ==> spans[i].to <= more[k].from
    ensures Spanned(ns + [n],
                    frames + seq(|more|, k requires 0 <= k < |more| =>
                               Frame((ns + [n])[more[k].from..more[k].to], more[k].key)),
                    spans + more)
  {
    hide IsSpan;
    var all := ns + [n];
    forall k | 0 <= k < |spans|
      ensures IsSpan(all, spans[k]) && spans[k].from < spans[k].to <= |ns|
      ensures frames[k] == Frame(all[spans[k].from..spans[k].to], spans[k].key)
    {
      SpanInside(ns, spans[k]);
      assert all[spans[k].from..spans[k].to] == ns[spans[k].from..spans[k].to];
    }
    forall k | 0 <= k < |more|
      ensures IsSpan(all, more[k])
    {
      assert more[k] in more;
    }
  }

  lemma SpanInside(ns: seq<Nal>, s: Span)
    ensures IsSpan(ns, s) ==> s.from < s.to <= |ns|
  {
  }

  /** Every frame ends before the units kept back. */
  ghost predicate EndBefore(ns: seq<Nal>, spans: seq<Span>) {
    forall i :: 0 <= i < |spans| ==> spans[i].to <= |ns| - |Fold(START, ns).pending|
  }

  /**
   Where frames begin and end. Told from the units alone, the frames emitted are exactly the spans of the stream,
   each once, in order; so no parameter set is cut off from the slice it belongs to.
   */
  lemma {:induction false} FramesAre(ns: seq<Nal>) returns (spans: seq<Span>)
    ensures Spanned(ns, Fold(START, ns).frames, spans) && EndBefore(ns, spans)
  {
    hide IsSpan, Spanned, EndBefore, Fold, Step, HasType, FirstOpen, NoneOpen, KindOf;
    if ns == [] {
      spans := [];
      NothingSpanned();
    } else {
      var init, n := ns[..|ns| - 1], ns[|ns| - 1];
      Unsnoc(ns);
      FoldStep(START, init, n);
      var before := FramesAre(init);
      spans := FramesStep(init, n, before);
    }
  }

  lemma NothingSpanned()
    ensures Spanned([], Fold(START, []).frames, []) && EndBefore([], [])
  {
  }

  lemma FramesStep(ns: seq<Nal>, n: Nal, before: seq<Span>) returns (spans: seq<Span>)
    requires Spanned(ns, Fold(START, ns).frames, before) && EndBefore(ns, before)
    ensures Spanned(ns + [n], Fold(START, ns + [n]).frames, spans) && EndBefore(ns + [n], spans)
  {
    hide IsSpan, Spanned, Fold, HasType, FirstOpen, NoneOpen, KindOf;
    var g := Fold(START, ns);
    var a := |ns| - |g.pending|;
    FoldStep(START, ns, n);
    PendingIsOpen(ns);
    PendingStep(g, n);
    KindTypes(n);
    var more := match KindOf(n)
      case Idr => [Span(a, |ns| + 1, true)]
      case Slice => (if g.pending == [] then [] else [Span(a, |ns|, true)]) + [Span(|ns|, |ns| + 1, false)]
      case _ => [];
    forall s: Span
      ensures IsSpan(ns + [n], s) <==> IsSpan(ns, s) || s in more
    {
      SpanStep(ns, n, s);
      if g.pending != [] {
        OneFirstOpen(ns, a, s.from, |ns|);
      } else {
        NoFirstOpen(ns, s.from, |ns|);
      }
      OneKind(n);
    }
    BeforeAll(ns, before);
    SpannedAdd(ns, n, g.frames, before, more);
    spans := before + more;
    var all := ns + [n];
    assert all[a..] == g.pending + [n];
    assert all[a..|ns|] == g.pending && all[|ns|..|ns| + 1] == [n] && all[a..|ns| + 1] == g.pending + [n];
    assert Step(g, n).frames == g.frames + seq(|more|, k requires 0 <= k < |more| =>
        Frame(all[more[k].from..more[k].to], more[k].key));
  }

  lemma BeforeAll(ns: seq<Nal>, spans: seq<Span>)
    requires Spanned(ns, Fold(START, ns).frames, spans)
    ensures |spans| == |Fold(START, ns).frames|
  {
  }

  lemma NoFirstOpen(ns: seq<Nal>, a: int, b: int)
    requires NoneOpen(ns, b)
    ensures !FirstOpen(ns, a, b)
  {
  }

  lemma OneKind(n: Nal)
    ensures !(HasType(n, 1) && HasType(n, 5))
    ensures SetsParameters(n) ==> !HasType(n, 1) && !HasType(n, 5)
  {
  }
}
