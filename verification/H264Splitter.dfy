/** The streaming splitter: a residual buffer, rescanned on every push, proved against the whole-stream meaning. */
module H264Splitter {
  import opened Bytes
  import opened AnnexB

  /** A frame as the handler receives it. */
  datatype VideoFrame = VideoFrame(bytes: seq<Byte>, keyFrame: bool)

  function Render(fs: seq<Frame>): seq<VideoFrame> {
    if fs == [] then []
    else
      var last := fs[|fs| - 1];
      Render(fs[..|fs| - 1]) + [VideoFrame(Flat(last.units), last.key)]
  }

  lemma {:induction false} RenderAppend(fs: seq<Frame>, hs: seq<Frame>)
    ensures Render(fs + hs) == Render(fs) + Render(hs)
  {
    if hs == [] {
      assert fs + hs == fs;
    } else {
      var init := hs[..|hs| - 1];
      RenderAppend(fs, init);
      assert (fs + hs)[..|fs + hs| - 1] == fs + init;
    }
  }

  // ----- runs of pushes -----

  /** Frames emitted and buffer left after pushing the chunks one by one, starting from `buffer`. */
  function PushAll(buffer: seq<Byte>, chunks: seq<seq<Byte>>): (seq<VideoFrame>, seq<Byte>) {
    if chunks == [] then ([], buffer)
    else
      var (fs, rest) := PushAll(buffer, chunks[..|chunks| - 1]);
      var joined := rest + chunks[|chunks| - 1];
      (fs + Render(Frames(joined)), Residual(joined))
  }

  lemma NothingYet()
    ensures Frames([]) == [] && Residual([]) == []
  {
    assert Units(Body([])) == [];
  }

  /** However a stream is cut into chunks, the frames and the buffer are those of one push of all of it. */
  lemma {:induction false} ChunkInvariance(chunks: seq<seq<Byte>>)
    ensures PushAll([], chunks) == (Render(Frames(Flat(chunks))), Residual(Flat(chunks)))
  {
    if chunks == [] {
      NothingYet();
    } else {
      var init := chunks[..|chunks| - 1];
      var s, c := Flat(init), chunks[|chunks| - 1];
      ChunkInvariance(init);
      Resume(s, c);
      RenderAppend(Frames(s), Frames(Residual(s) + c));
    }
  }

  /** The bytes of the frames, joined. */
  function JoinedBytes(frames: seq<VideoFrame>): seq<Byte> {
    if frames == [] then [] else JoinedBytes(frames[..|frames| - 1]) + frames[|frames| - 1].bytes
  }

  /** The bytes the handler receives, joined, are the units of the frames, joined. */
  lemma {:induction false} RenderedBytes(fs: seq<Frame>)
    ensures JoinedBytes(Render(fs)) == Flat(FrameUnits(fs))
  {
    if fs != [] {
      var init, last := fs[..|fs| - 1], fs[|fs| - 1];
      RenderedBytes(init);
      assert Render(fs)[..|Render(fs)| - 1] == Render(init);
      FlatAppend(FrameUnits(init), last.units);
    }
  }

  /**
   Byte conservation of the splitter itself. However a stream is cut into pushes, the buffers the handler
   received, joined, and the bytes still held are the stream from its first start code without the units that
   stand alone. Until any unit is used up, nothing was received and everything is held.
   */
  lemma PushesConserve(chunks: seq<seq<Byte>>)
    ensures var (frames, buffer) := PushAll([], chunks);
            var s := Flat(chunks);
            && (Grouped(s).advanced ==>
                  && JoinedBytes(frames) + buffer == Flat(Kept(Units(Body(s)), |Units(Body(s))|)) + Tail(Body(s))
                  && IsStart(buffer, 0))
            && (!Grouped(s).advanced ==> frames == [] && buffer == s)
  {
    hide *;
    ChunkInvariance(chunks);
    var s := Flat(chunks);
    ByteConservation(s);
    RenderedBytes(Frames(s));
    NothingRendered();
  }

  lemma NothingRendered()
    ensures Render([]) == []
  {
  }

  lemma {:induction false} RenderAt(fs: seq<Frame>, k: nat)
    requires k < |fs|
    ensures |Render(fs)| == |fs| && Render(fs)[k] == VideoFrame(Flat(fs[k].units), fs[k].key)
  {
    if k < |fs| - 1 {
      RenderAt(fs[..|fs| - 1], k);
    } else if |fs| > 1 {
      RenderAt(fs[..|fs| - 1], 0);
    }
  }

  /**
   Where the frames the handler receives begin and end. However a stream is cut into pushes, they are exactly the
   spans of its complete units, each once, in order.
   */
  lemma PushesFrame(chunks: seq<seq<Byte>>) returns (spans: seq<Span>)
    ensures var ns, frames := Units(Body(Flat(chunks))), PushAll([], chunks).0;
            && |frames| == |spans|
            && (forall k :: 0 <= k < |spans| ==>
                 && IsSpan(ns, spans[k])
                 && frames[k] == VideoFrame(Flat(ns[spans[k].from..spans[k].to]), spans[k].key))
            && (forall i, j :: 0 <= i < j < |spans| ==> spans[i].to <= spans[j].from)
            && forall s :: IsSpan(ns, s) ==> s in spans
  {
    hide IsSpan, Units, Body, Fold, Render, EndBefore;
    ChunkInvariance(chunks);
    var ns := Units(Body(Flat(chunks)));
    spans := FramesAre(ns);
    var fs := Fold(START, ns).frames;
    forall k | 0 <= k < |fs|
      ensures |Render(fs)| == |fs| && Render(fs)[k] == VideoFrame(Flat(fs[k].units), fs[k].key)
    {
      RenderAt(fs, k);
    }
    if fs == [] {
      NothingRendered();
    } else {
      RenderAt(fs, 0);
    }
  }

  /** The parameter sets that are open before an IDR slice reach the handler with it, as one key frame. */
  lemma ParametersStayWithIdr(chunks: seq<seq<Byte>>, a: nat, i: nat)
    requires var ns := Units(Body(Flat(chunks))); i < |ns| && HasType(ns[i], 5) && FirstOpen(ns, a, i)
    ensures a < i && VideoFrame(Flat(Units(Body(Flat(chunks)))[a..i + 1]), true) in PushAll([], chunks).0
  {
    hide PushAll, Units, Body, HasType;
    var ns := Units(Body(Flat(chunks)));
    var spans := PushesFrame(chunks);
    FirstOpenInside(ns, a, i);
    assert IsSpan(ns, Span(a, i + 1, true));
    var k :| 0 <= k < |spans| && spans[k] == Span(a, i + 1, true);
    assert PushAll([], chunks).0[k] == VideoFrame(Flat(ns[a..i + 1]), true);
  }

  /**
   What is held after any pushes: the stream from the first open parameter set, or from its last start code where none
   is open; and all of it as long as no unit before that is complete.
   */
  lemma PushesHold(chunks: seq<seq<Byte>>, a: nat)
    requires var ns := Units(Body(Flat(chunks))); FirstOpen(ns, a, |ns|) || (a == |ns| && NoneOpen(ns, |ns|))
    ensures var s := Flat(chunks);
            && a <= |Units(Body(s))|
            && PushAll([], chunks).1 == if a == 0 then s else Flat(Units(Body(s))[a..]) + Tail(Body(s))
  {
    hide Units, Body, Fold, Render, Tail, FirstOpen, NoneOpen, OpenAt, Frames, Flat, PushAll;
    ChunkInvariance(chunks);
    var ns := Units(Body(Flat(chunks)));
    PendingIsOpen(ns);
    AdvancedIff(ns);
    FirstOpenInside(ns, a, |ns|);
    var p := Fold(START, ns).pending;
    if p != [] && FirstOpen(ns, a, |ns|) {
      OneFirstOpen(ns, a, |ns| - |p|, |ns|);
    } else if p != [] {
      NoFirstOpen(ns, |ns| - |p|, |ns|);
    } else {
      NoFirstOpen(ns, a, |ns|);
    }
  }

  // ----- the scan -----

  /** `sc` lists, in order, exactly the start codes of `b` below `limit`. */
  ghost predicate ListsStarts(b: seq<Byte>, sc: seq<nat>, limit: nat) {
    && (forall i, j :: 0 <= i < j < |sc| ==> sc[i] < sc[j])
    && (forall i :: 0 <= i < |sc| ==> sc[i] < limit && IsStart(b, sc[i]))
    && (forall p: nat :: p < limit && IsStart(b, p) ==> p in sc)
  }

  /** Between two listed start codes there is no other, and after the last there is none. */
  lemma NextListed(b: seq<Byte>, sc: seq<nat>, k: nat)
    requires ListsStarts(b, sc, |b|) && k < |sc|
    ensures sc[k] + 4 <= |b| && IsStart(b[sc[k]..], 0)
    ensures NextStart(b[sc[k]..], 1) == (if k + 1 < |sc| then sc[k + 1] else |b|) - sc[k]
  {
    var next := if k + 1 < |sc| then sc[k + 1] else |b|;
    ShiftStart(b, sc[k], 0);
    if k + 1 < |sc| {
      ShiftStart(b, sc[k], next - sc[k]);
    }
    forall j: nat | 1 <= j < next - sc[k]
      ensures !IsStart(b[sc[k]..], j)
    {
      ShiftStart(b, sc[k], j);
      NoneBetween(b, sc, k, sc[k] + j);
    }
    NextStartIs(b[sc[k]..], 1, next - sc[k]);
  }

  lemma NoneBetween(b: seq<Byte>, sc: seq<nat>, k: nat, p: nat)
    requires ListsStarts(b, sc, |b|) && k < |sc| && sc[k] < p < if k + 1 < |sc| then sc[k + 1] else |b|
    ensures !IsStart(b, p)
  {
    hide IsStart;
    forall m | 0 <= m < |sc|
      ensures sc[m] != p
    {
      assert m < k ==> sc[m] < sc[k];
      assert m > k + 1 ==> sc[k + 1] < sc[m];
    }
  }

  lemma LastUnit(b: seq<Byte>)
    requires IsStart(b, 0) && NextStart(b, 1) == |b|
    ensures Units(b) == [] && Tail(b) == b
  {
  }

  lemma ListedInside(b: seq<Byte>, sc: seq<nat>)
    requires ListsStarts(b, sc, |b|)
    ensures forall i :: 0 <= i < |sc| ==> sc[i] < |b|
    ensures forall i :: 0 <= i < |sc| - 1 ==> sc[i] < sc[i + 1]
  {
  }

  /** The slices between consecutive start codes are the units, and the last start code begins the tail. */
  lemma {:induction false} SlicesAreUnits(b: seq<Byte>, sc: seq<nat>, k: nat)
    requires ListsStarts(b, sc, |b|) && k < |sc|
    ensures |Units(b[sc[k]..])| == |sc| - 1 - k
    ensures forall i :: k <= i < |sc| - 1 ==> Units(b[sc[k]..])[i - k] == b[sc[i]..sc[i + 1]]
    ensures Tail(b[sc[k]..]) == b[sc[|sc| - 1]..]
    decreases |sc| - k
  {
    hide IsStart, ListsStarts, Units, Tail, NextStart;
    ListedInside(b, sc);
    NextListed(b, sc, k);
    if k + 1 == |sc| {
      LastUnit(b[sc[k]..]);
    }
    if k + 1 < |sc| {
      SlicesAreUnits(b, sc, k + 1);
      UnitsFirst(b, sc[k], sc[k + 1]);
      forall i | k <= i < |sc| - 1
        ensures Units(b[sc[k]..])[i - k] == b[sc[i]..sc[i + 1]]
      {
        if i > k {
          assert Units(b[sc[k]..])[i - k] == Units(b[sc[k + 1]..])[i - (k + 1)];
        }
      }
    }
  }

  /**
   Where units begin and end, in bytes: they lie between the places where 0, 0, 0, 1 stands, and what follows the last
   of these is incomplete.
   */
  lemma UnitsBetweenStartCodes(b: seq<Byte>, sc: seq<nat>)
    requires forall i, j :: 0 <= i < j < |sc| ==> sc[i] < sc[j]
    requires forall p: nat :: p in sc <==> p + 4 <= |b| && b[p..p + 4] == [0, 0, 0, 1]
    ensures sc == [] ==> Units(Body(b)) == [] && Tail(Body(b)) == []
    ensures sc != [] ==>
              && |Units(Body(b))| == |sc| - 1
              && (forall i :: 0 <= i < |sc| ==> sc[i] <= |b|)
              && (forall i :: 0 <= i < |sc| - 1 ==> sc[i] <= sc[i + 1] && Units(Body(b))[i] == b[sc[i]..sc[i + 1]])
              && Tail(Body(b)) == b[sc[|sc| - 1]..]
  {
    forall p: nat
      ensures IsStart(b, p) <==> p + 4 <= |b| && b[p..p + 4] == [0, 0, 0, 1]
    {
      StartCodeIs(b, p);
    }
    assert forall i :: 0 <= i < |sc| ==> sc[i] in sc;
    hide IsStart;
    FirstListed(b, sc);
    if sc == [] {
      NothingStarts(b);
    } else {
      SlicesAreUnits(b, sc, 0);
    }
  }

  lemma StartCodeIs(b: seq<Byte>, p: nat)
    ensures IsStart(b, p) <==> p + 4 <= |b| && b[p..p + 4] == [0, 0, 0, 1]
  {
  }

  lemma NothingStarts(b: seq<Byte>)
    requires NextStart(b, 0) == |b|
    ensures Units(Body(b)) == [] && Tail(Body(b)) == []
  {
  }

  lemma UnitsFirst(b: seq<Byte>, from: nat, to: nat)
    requires from < to < |b| && IsStart(b[from..], 0) && NextStart(b[from..], 1) == to - from
    ensures Units(b[from..]) == [b[from..to]] + Units(b[to..])
    ensures Tail(b[from..]) == Tail(b[to..])
  {
    assert b[from..][to - from..] == b[to..];
    assert b[from..][..to - from] == b[from..to];
  }

  lemma FirstListed(b: seq<Byte>, sc: seq<nat>)
    requires ListsStarts(b, sc, |b|)
    ensures NextStart(b, 0) == if sc == [] then |b| else sc[0]
  {
    var first := if sc == [] then |b| else sc[0];
    assert forall j: nat :: j < first && IsStart(b, j) ==> j in sc;
    NextStartIs(b, 0, first);
  }

  lemma {:induction false} UnitsFromStart(b: seq<Byte>, sc: seq<nat>, k: nat)
    requires ListsStarts(b, sc, |b|) && k < |sc|
    ensures k <= |Units(b[sc[0]..])|
    ensures Units(b[sc[k]..]) == Units(b[sc[0]..])[k..]
    ensures Tail(b[sc[k]..]) == Tail(b[sc[0]..])
  {
    hide IsStart, ListsStarts, Units, Tail, NextStart;
    ListedInside(b, sc);
    if k > 0 {
      UnitsFromStart(b, sc, k - 1);
      NextListed(b, sc, k - 1);
      UnitsFirst(b, sc[k - 1], sc[k]);
      assert Units(b[sc[k]..]) == Units(b[sc[k - 1]..])[1..];
    }
  }

  /** The bytes from the `k`th start code on are the units from the `k`th on and the tail. */
  lemma SuffixFromStart(b: seq<Byte>, sc: seq<nat>, k: nat)
    requires ListsStarts(b, sc, |b|) && k < |sc|
    ensures k <= |Units(Body(b))|
    ensures b[sc[k]..] == Flat(Units(Body(b))[k..]) + Tail(Body(b))
  {
    FirstListed(b, sc);
    UnitsFromStart(b, sc, k);
    UnitsRebuild(b[sc[k]..]);
  }

  /** With fewer than two start codes there is no complete unit. */
  lemma TooFewStarts(b: seq<Byte>, sc: seq<nat>)
    requires ListsStarts(b, sc, |b|) && |sc| < 2
    ensures Frames(b) == [] && Render(Frames(b)) == [] && Residual(b) == b
  {
    FirstListed(b, sc);
    if |sc| == 1 {
      SlicesAreUnits(b, sc, 0);
    }
    assert Units(Body(b)) == [];
  }

  method ConcatBuffers(parts: seq<seq<Byte>>) returns (bytes: seq<Byte>)
    ensures bytes == Flat(parts)
  {
    var total := 0;
    for i := 0 to |parts|
      invariant total == |Flat(parts[..i])|
    {
      assert parts[..i + 1][..i] == parts[..i];
      total := total + |parts[i]|;
    }
    assert parts[..|parts|] == parts;
    var out := new Byte[total];
    var offset := 0;
    for i := 0 to |parts|
      invariant offset == |Flat(parts[..i])| <= total
      invariant out[..offset] == Flat(parts[..i])
    {
      PrefixFits(parts, i);
      forall k | 0 <= k < |parts[i]| {
        out[offset + k] := parts[i][k];
      }
      assert parts[..i + 1][..i] == parts[..i];
      assert out[..offset + |parts[i]|] == Flat(parts[..i]) + parts[i];
      offset := offset + |parts[i]|;
    }
    return out[..offset];
  }

  lemma PrefixFits(parts: seq<seq<Byte>>, i: nat)
    requires i < |parts|
    ensures |Flat(parts[..i])| + |parts[i]| <= |Flat(parts)|
  {
    assert parts == parts[..i] + [parts[i]] + parts[i + 1..];
    FlatAppend(parts[..i] + [parts[i]], parts[i + 1..]);
    FlatAppend(parts[..i], [parts[i]]);
    FlatOne(parts[i]);
  }

  const CODE: seq<Byte> := [0, 0, 0, 1]

  function SampleUnit(head: Byte): Nal {
    CODE + [head]
  }

  /** Two parameter sets, an IDR slice and a P slice, and a last start code. */
  const SAMPLE: seq<Byte> :=
    [0, 0, 0, 1, 0x67, 0, 0, 0, 1, 0x68, 0, 0, 0, 1, 0x65, 0, 0, 0, 1, 0x41, 0, 0, 0, 1]

  const SAMPLE_CODES: seq<nat> := [0, 5, 10, 15, 20]

  lemma SampleUnits()
    ensures Units(Body(SAMPLE)) == [SampleUnit(0x67), SampleUnit(0x68), SampleUnit(0x65), SampleUnit(0x41)]
    ensures Tail(Body(SAMPLE)) == CODE
  {
    hide Units, Body, Tail;
    SampleCodes();
    UnitsBetweenStartCodes(SAMPLE, SAMPLE_CODES);
    SampleSlices();
    var us := Units(Body(SAMPLE));
    assert us[0] == SampleUnit(0x67) && us[1] == SampleUnit(0x68);
    assert us[2] == SampleUnit(0x65) && us[3] == SampleUnit(0x41);
  }

  lemma SampleCodes()
    ensures forall p: nat :: p in SAMPLE_CODES <==> p + 4 <= |SAMPLE| && SAMPLE[p..p + 4] == [0, 0, 0, 1]
  {
    forall p: nat
      ensures p in SAMPLE_CODES <==> p + 4 <= |SAMPLE| && SAMPLE[p..p + 4] == [0, 0, 0, 1]
    {
      if p + 4 <= |SAMPLE| {
        SampleCode(p);
      }
    }
  }

  lemma SampleSlices()
    ensures SAMPLE[SAMPLE_CODES[0]..SAMPLE_CODES[1]] == SampleUnit(0x67)
    ensures SAMPLE[SAMPLE_CODES[1]..SAMPLE_CODES[2]] == SampleUnit(0x68)
    ensures SAMPLE[SAMPLE_CODES[2]..SAMPLE_CODES[3]] == SampleUnit(0x65)
    ensures SAMPLE[SAMPLE_CODES[3]..SAMPLE_CODES[4]] == SampleUnit(0x41)
    ensures SAMPLE[SAMPLE_CODES[4]..] == CODE
  {
  }

  lemma SampleCode(p: nat)
    requires p + 4 <= |SAMPLE|
    ensures SAMPLE[p..p + 4] == [0, 0, 0, 1] <==> p == 0 || p == 5 || p == 10 || p == 15 || p == 20
  {
    var four := SAMPLE[p..p + 4];
    assert four[0] == SAMPLE[p] && four[1] == SAMPLE[p + 1] && four[2] == SAMPLE[p + 2] && four[3] == SAMPLE[p + 3];
    if SAMPLE[p + 3] == 1 {
      SampleOnes(p + 3);
      assert four == [0, 0, 0, 1];
    }
  }

  lemma SampleOnes(q: nat)
    requires q < |SAMPLE| && SAMPLE[q] == 1
    ensures q == 3 || q == 8 || q == 13 || q == 18 || q == 23
  {
    assert q == 0 || q == 1 || q == 2 || q == 3 || q == 4 || q == 5 || q == 6 || q == 7 || q == 8 || q == 9 || q == 10
      || q == 11 || q == 12 || q == 13 || q == 14 || q == 15 || q == 16 || q == 17 || q == 18 || q == 19 || q == 20
      || q == 21 || q == 22 || q == 23;
  }

  lemma SampleGroups()
    ensures Fold(START, [SampleUnit(0x67), SampleUnit(0x68), SampleUnit(0x65), SampleUnit(0x41)])
            == Group([], [Frame([SampleUnit(0x67), SampleUnit(0x68), SampleUnit(0x65)], true)]
                         + [Frame([SampleUnit(0x41)], false)], true)
  {
    var a, b, c, d := SampleUnit(0x67), SampleUnit(0x68), SampleUnit(0x65), SampleUnit(0x41);
    assert KindOf(a) == Param && KindOf(b) == Param && KindOf(c) == Idr && KindOf(d) == Slice;
    hide KindOf, SampleUnit, Fold;
    FoldNone();
    assert [a, b, c, d] == [a] + [b] + [c] + [d] && [] + [a] == [a] && [a] + [b] + [c] == [a, b, c];
    FoldStep(START, [], a);
    FoldStep(START, [a], b);
    FoldStep(START, [a] + [b], c);
    FoldStep(START, [a] + [b] + [c], d);
    assert [] + [Frame([a, b, c], true)] == [Frame([a, b, c], true)];
  }

  lemma FoldNone()
    ensures Fold(START, []) == START
  {
  }

  lemma FlatThree(a: Nal, b: Nal, c: Nal)
    ensures Flat([a, b, c]) == a + b + c
  {
    assert [a, b, c] == [a] + [b] + [c];
    FlatAppend([a] + [b], [c]);
    FlatAppend([a], [b]);
    FlatOne(a);
    FlatOne(b);
    FlatOne(c);
  }

  /** The parameter sets come with the IDR slice, as one key frame of 15 bytes; the P slice comes by itself. */
  lemma SampleFrames()
    ensures PushAll([], [SAMPLE])
            == ([VideoFrame(SampleUnit(0x67) + SampleUnit(0x68) + SampleUnit(0x65), true),
                 VideoFrame(SampleUnit(0x41), false)], CODE)
  {
    hide Units, Body, Tail, Fold, PushAll, Render, SampleUnit;
    ChunkInvariance([SAMPLE]);
    FlatOne(SAMPLE);
    SampleUnits();
    SampleGroups();
    var fs := [Frame([SampleUnit(0x67), SampleUnit(0x68), SampleUnit(0x65)], true)]
      + [Frame([SampleUnit(0x41)], false)];
    RenderAt(fs, 0);
    RenderAt(fs, 1);
    FlatThree(SampleUnit(0x67), SampleUnit(0x68), SampleUnit(0x65));
    FlatOne(SampleUnit(0x41));
    assert Render(fs) == [Render(fs)[0], Render(fs)[1]];
    assert Flat<Byte>([]) == [] && [] + CODE == CODE;
    assert Residual(SAMPLE) == CODE && Frames(SAMPLE) == fs;
  }

  class FrameSplitter {
    var buffer: seq<Byte>
    ghost var pushed: seq<Byte>
    ghost var emitted: seq<VideoFrame>

    /** What was emitted and what is kept are those of everything pushed so far. */
    ghost predicate Valid()
      reads this
    {
      emitted == Render(Frames(pushed)) && buffer == Residual(pushed)
    }

    constructor ()
      ensures Valid() && pushed == [] && emitted == [] && buffer == []
    {
      buffer, pushed, emitted := [], [], [];
      new;
      NothingYet();
    }

    /** Returns the frames passed to the handler during this push. */
    method Push(chunk: seq<Byte>) returns (frames: seq<VideoFrame>)
      requires Valid()
      modifies this
      ensures Valid()
      ensures pushed == old(pushed) + chunk
      ensures emitted == old(emitted) + frames
    {
      hide Frames, Residual, Render;
      Resume(pushed, chunk);
      RenderAppend(Frames(pushed), Frames(buffer + chunk));
      buffer := buffer + chunk;
      frames := Drain();
      pushed := pushed + chunk;
      emitted := emitted + frames;
    }

    /** One pass over the buffer: emits its frames and leaves its residual. */
    method Drain() returns (frames: seq<VideoFrame>)
      modifies this`buffer
      ensures frames == Render(Frames(old(buffer))) && buffer == Residual(old(buffer))
    {
      hide *;
      frames := [];
      var buf := buffer;
      var startCodes := FindStartCodes(buf);
      if |startCodes| < 2 {
        TooFewStarts(buf, startCodes);
        return;
      }
      StartsCut(buf, startCodes, 0);
      forall i | 0 <= i < |startCodes| - 1 ensures CutAt(buf, startCodes, Units(Body(buf)), i) {
        StartsCut(buf, startCodes, i);
      }
      var groups, consumed, frameStart, frameData := GroupUnits(buf, startCodes, Units(Body(buf)));
      frames := Emit(groups);
      CutLeavesResidual(buf, startCodes, groups, consumed, frameStart, frameData);
      if consumed > 0 {
        buffer := buf[if |frameData| > 0 then frameStart else consumed..];
      }
    }
  }

  /** Hands every group of units to the handler as one buffer, in order. */
  method Emit(groups: seq<Frame>) returns (frames: seq<VideoFrame>)
    ensures frames == Render(groups)
  {
    frames := [];
    for i := 0 to |groups|
      invariant frames == Render(groups[..i])
    {
      var bytes := ConcatBuffers(groups[i].units);
      frames := frames + [VideoFrame(bytes, groups[i].key)];
      assert groups[..i + 1][..i] == groups[..i];
    }
    assert groups[..|groups|] == groups;
  }

  /** Unit `i` runs between start codes `i` and `i + 1`, and the byte after its start code gives its type. */
  ghost predicate CutAt(b: seq<Byte>, sc: seq<nat>, us: seq<Nal>, i: nat)
    requires i < |us| == |sc| - 1
  {
    && sc[i] + 4 < |b| && sc[i] < sc[i + 1] <= |b|
    && us[i] == b[sc[i]..sc[i + 1]] && NalType(us[i]) == b[sc[i] + 4] % 32
  }

  lemma StartsCut(b: seq<Byte>, sc: seq<nat>, i: nat)
    requires ListsStarts(b, sc, |b|) && i < |sc| - 1
    ensures |Units(Body(b))| == |sc| - 1 && CutAt(b, sc, Units(Body(b)), i)
  {
    FirstListed(b, sc);
    SlicesAreUnits(b, sc, 0);
    assert Units(b[sc[0]..])[i - 0] == b[sc[i]..sc[i + 1]];
    TypeRead(b, sc, i);
  }

  /** The loop over complete units, from one start code to the next; `frames` lists what is emitted. */
  method GroupUnits(buf: seq<Byte>, startCodes: seq<nat>, ghost units: seq<Nal>)
    returns (frames: seq<Frame>, consumed: int, frameStart: int, frameData: seq<Nal>)
    requires 1 <= |units| == |startCodes| - 1
    requires forall i :: 0 <= i < |units| ==> CutAt(buf, startCodes, units, i)
    ensures Agrees(Fold(START, units), startCodes, |units|, frames, consumed, frameStart, frameData)
  {
    frames, consumed, frameStart, frameData := [], 0, -1, [];
    var frameIsKey := false;
    for i := 0 to |startCodes| - 1
      invariant frameIsKey == (frameData != [])
      invariant Agrees(Fold(START, units[..i]), startCodes, i, frames, consumed, frameStart, frameData)
    {
      assert CutAt(buf, startCodes, units, i);
      var nalStart := startCodes[i];
      var nalEnd := startCodes[i + 1];
      var nal := buf[nalStart..nalEnd];
      var nalType := buf[nalStart + 4] % 32;
      FoldPrefix(START, units, i + 1);
      if nalType == 7 || nalType == 8 {
        if frameStart == -1 {
          frameStart := nalStart;
        }
        frameIsKey := true;
        frameData := frameData + [nal];
      } else if nalType == 5 {
        if frameStart == -1 {
          frameStart, frameIsKey := nalStart, true;
        }
        frameData := frameData + [nal];
        frames := frames + [Frame(frameData, true)];
        consumed, frameStart, frameIsKey, frameData := nalEnd, -1, false, [];
      } else if nalType == 1 {
        if |frameData| > 0 {
          frames := frames + [Frame(frameData, frameIsKey)];
          frameData, frameIsKey, frameStart := [], false, -1;
        }
        frames := frames + [Frame([nal], false)];
        consumed := nalEnd;
      } else {
        if frameStart != -1 {
          frameData := frameData + [nal];
        } else {
          consumed := nalEnd;
        }
      }
    }
    assert units[..|units|] == units;
  }

  /** The locals of the drain loop after `i` units, in terms of the grouping state. */
  ghost predicate Agrees(g: Group, sc: seq<nat>, i: nat, frames: seq<Frame>, consumed: int, frameStart: int,
                         frameData: seq<Nal>)
  {
    && i < |sc| && |g.pending| <= i
    && frames == g.frames && frameData == g.pending
    && consumed == (if g.advanced then sc[i - |g.pending|] else 0)
    && frameStart == (if g.pending == [] then -1 else sc[i - |g.pending|])
    && (g.advanced ==> consumed > 0)
  }

  /** The residual, found by position: from the start code of the first waiting unit. */
  lemma Leftover(b: seq<Byte>, sc: seq<nat>)
    requires ListsStarts(b, sc, |b|) && |sc| >= 2
    ensures var g := Grouped(b);
            && |Units(Body(b))| == |sc| - 1 && |g.pending| <= |sc| - 1
            && sc[|sc| - 1 - |g.pending|] <= |b|
            && Residual(b) == if g.advanced then b[sc[|sc| - 1 - |g.pending|]..] else b
  {
    FirstListed(b, sc);
    SlicesAreUnits(b, sc, 0);
    PendingIsSuffix(Units(Body(b)));
    SuffixFromStart(b, sc, |sc| - 1 - |Grouped(b).pending|);
  }

  /** What the loop leaves in its locals is where the residual begins. */
  lemma CutLeavesResidual(b: seq<Byte>, sc: seq<nat>, frames: seq<Frame>, consumed: int, frameStart: int,
                          frameData: seq<Nal>)
    requires ListsStarts(b, sc, |b|) && |sc| >= 2
    requires Agrees(Fold(START, Units(Body(b))), sc, |sc| - 1, frames, consumed, frameStart, frameData)
    ensures frames == Frames(b)
    ensures consumed <= 0 ==> Residual(b) == b
    ensures consumed > 0 ==> var cut := if |frameData| > 0 then frameStart else consumed;
                             0 <= cut <= |b| && Residual(b) == b[cut..]
  {
    hide Fold, Units, Body, ListsStarts, Residual;
    Leftover(b, sc);
  }

  /** The type byte the loop reads belongs to the unit, or is the first byte of the next start code. */
  lemma TypeRead(b: seq<Byte>, sc: seq<nat>, i: nat)
    requires ListsStarts(b, sc, |b|) && i + 1 < |sc|
    ensures sc[i] + 4 < |b| && sc[i] + 4 <= sc[i + 1] <= |b|
    ensures b[sc[i] + 4] % 32 == NalType(b[sc[i]..sc[i + 1]])
  {
    assert IsStart(b, sc[i]) && IsStart(b, sc[i + 1]);
  }

  method FindStartCodes(buf: seq<Byte>) returns (startCodes: seq<nat>)
    ensures ListsStarts(buf, startCodes, |buf|)
  {
    startCodes := [];
    var i := 0;
    while i <= |buf| - 4
      invariant 0 <= i <= |buf|
      invariant i <= |buf| - 3 || i == 0
      invariant ListsStarts(buf, startCodes, i)
    {
      if buf[i] == 0 && buf[i + 1] == 0 && buf[i + 2] == 0 && buf[i + 3] == 1 {
        startCodes := startCodes + [i];
        assert startCodes[|startCodes| - 1] == i;
      }
      i := i + 1;
    }
  }
}
