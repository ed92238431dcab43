/** The timeline of a recording: its markers sorted, grouped by what they prove or by phase, and summed up. */
module EvidenceTimeline {
  import opened Numbers
  import opened Results
  import opened EvidencePlayback
  import opened EvidenceFrames

  /** A measured moment of the recording; its start and end are known to lie in a range each. */
  datatype Marker = Marker(traceIndex: nat, startRange: (real, real), endRange: (real, real), proves: seq<nat>,
                           ok: bool)

  datatype Side = Start | End

  // ----- the time of a marker -----

  function Midpoint(range: (real, real)): real {
    (range.0 + range.1) / 2.0
  }

  /** The media time of one side of a marker, clamped to the frames, or nothing when it lies outside them. */
  function SeekTime(frames: seq<real>, durationMs: real, mediaDurationMs: Option<real>, m: Marker,
                    side: Side): Option<real> {
    var bounds := if side.Start? then m.startRange else m.endRange;
    var duration := Duration(durationMs, mediaDurationMs);
    if frames == [] || bounds.1 < frames[0] || bounds.0 >= duration then None
    else Some(Clamp(Midpoint(bounds), frames[0], Min(frames[|frames| - 1], duration)))
  }

  predicate RangesOrdered(m: Marker) {
    m.startRange.0 <= m.startRange.1 && m.endRange.0 <= m.endRange.1
    && m.startRange.0 <= m.endRange.0 && m.startRange.1 <= m.endRange.1
  }

  /**
   A seek never lies before the first frame. It lies within the frames and the media exactly if the
   media reaches the first frame, and then it is the middle of the marker's range wherever that is inside.
   */
  lemma SeekBounds(frames: seq<real>, durationMs: real, media: Option<real>, m: Marker, side: Side)
    requires Ascending(frames) && SeekTime(frames, durationMs, media, m, side).Some?
    ensures var t, end := SeekTime(frames, durationMs, media, m, side).value,
            Min(frames[|frames| - 1], Duration(durationMs, media));
            && frames[0] <= t
            && (t <= end <==> frames[0] <= Duration(durationMs, media))
            && (frames[0] <= Midpoint(if side.Start? then m.startRange else m.endRange) <= end ==>
                  t == Midpoint(if side.Start? then m.startRange else m.endRange))
  {
  }

  /** A marker's start is never after its end. */
  lemma SeekOrdered(frames: seq<real>, durationMs: real, media: Option<real>, m: Marker)
    requires RangesOrdered(m)
    requires SeekTime(frames, durationMs, media, m, Start).Some? && SeekTime(frames, durationMs, media, m, End).Some?
    ensures SeekTime(frames, durationMs, media, m, Start).value <= SeekTime(frames, durationMs, media, m, End).value
  {
    assert Midpoint(m.startRange) <= Midpoint(m.endRange);
  }

  /** A seek past the end of the media: the marker's range straddles a first frame that the media never reaches. */
  lemma SeekPastShortMedia()
    ensures SeekTime([5.0], 100.0, Some(3.0), Marker(0, (0.0, 10.0), (0.0, 10.0), [], true), Start) == Some(5.0)
  {
  }

  // ----- the clip around a marker -----

  const EVIDENCE_PADDING_MS := 1000.0

  /** The clip of a recording from the start of one marker to the end of another, padded, within the recording. */
  function ClipForSpan(videoPath: nat, durationMs: real, first: Marker, last: Marker): Clip {
    Clip(videoPath, Max(0.0, first.startRange.0 - EVIDENCE_PADDING_MS),
         Min(durationMs, last.endRange.1 + EVIDENCE_PADDING_MS))
  }

  /** The span meets the recording, and does not end more than the padding before it starts. */
  predicate SpanFits(durationMs: real, first: Marker, last: Marker) {
    && durationMs >= 0.0 && last.endRange.1 >= -EVIDENCE_PADDING_MS
    && first.startRange.0 <= durationMs + EVIDENCE_PADDING_MS
    && first.startRange.0 <= last.endRange.1 + 2.0 * EVIDENCE_PADDING_MS
  }

  /** What a clip is built of: its recording, and the markers it runs from and to, which may be one. */
  datatype Occurrence = Occurrence(videoPath: nat, durationMs: real, first: Marker, last: Marker)

  function ClipsFrom(occurrences: seq<Occurrence>): (clips: seq<Clip>)
    ensures |clips| == |occurrences|
    ensures forall i :: 0 <= i < |clips| ==>
              var o := occurrences[i]; clips[i] == ClipForSpan(o.videoPath, o.durationMs, o.first, o.last)
  {
    seq(|occurrences|, i requires 0 <= i < |occurrences| =>
      var o := occurrences[i]; ClipForSpan(o.videoPath, o.durationMs, o.first, o.last))
  }

  /** Exactly when the clips built for a selection are ordered, as a playback run needs them. */
  lemma ClipsAreOrderedIff(occurrences: seq<Occurrence>)
    ensures Ordered(ClipsFrom(occurrences)) <==>
              forall i :: 0 <= i < |occurrences| ==>
                  SpanFits(occurrences[i].durationMs, occurrences[i].first, occurrences[i].last)
  {
    var clips := ClipsFrom(occurrences);
    forall i | 0 <= i < |occurrences|
      ensures clips[i].startMs <= clips[i].endMs <==>
                SpanFits(occurrences[i].durationMs, occurrences[i].first, occurrences[i].last)
    {
    }
  }

  /** What a valid recording has: a duration, and frames in order from its start on. */
  predicate ValidRecording(frames: seq<real>, durationMs: real) {
    durationMs > 0.0 && Ascending(frames) && forall i :: 0 <= i < |frames| ==> 0.0 <= frames[i] < durationMs
  }

  /**
   A marker of a valid recording that can be sought on either side gives an ordered clip that holds all of
   the marker the recording has.
   */
  lemma SoughtClipIsOrdered(videoPath: nat, frames: seq<real>, durationMs: real, media: Option<real>, m: Marker,
                            side: Side)
    requires ValidRecording(frames, durationMs) && RangesOrdered(m)
    requires SeekTime(frames, durationMs, media, m, side).Some?
    ensures SpanFits(durationMs, m, m)
    ensures var clip := ClipForSpan(videoPath, durationMs, m, m);
            clip.startMs <= Max(0.0, m.startRange.0) && Min(durationMs, m.endRange.1) <= clip.endMs
  {
  }

  // ----- sorting -----

  predicate Before(a: Marker, b: Marker) {
    a.startRange.0 < b.startRange.0 || (a.startRange.0 == b.startRange.0 && a.traceIndex <= b.traceIndex)
  }

  predicate InOrder(markers: seq<Marker>) {
    forall i, j :: 0 <= i < j < |markers| ==> Before(markers[i], markers[j])
  }

  /** Puts a marker behind all that do not come after it: the sort is stable. */
  function Insert(sorted: seq<Marker>, m: Marker): seq<Marker> {
    if sorted == [] || Before(sorted[|sorted| - 1], m) then sorted + [m]
    else Insert(sorted[..|sorted| - 1], m) + [sorted[|sorted| - 1]]
  }

  function SortMarkers(markers: seq<Marker>): seq<Marker> {
    if markers == [] then [] else Insert(SortMarkers(markers[..|markers| - 1]), markers[|markers| - 1])
  }

  lemma InOrderSnoc(markers: seq<Marker>, last: Marker)
    ensures InOrder(markers + [last]) <==> InOrder(markers) && forall x :: x in markers ==> Before(x, last)
  {
    hide Before;
    var all := markers + [last];
    if InOrder(all) {
      assert forall i, j :: 0 <= i < j < |markers| ==> markers[i] == all[i] && markers[j] == all[j];
      forall x | x in markers
        ensures Before(x, last)
      {
        var i :| 0 <= i < |markers| && markers[i] == x;
        assert all[i] == x && all[|markers|] == last;
      }
    }
  }

  lemma {:induction false} InsertSorts(sorted: seq<Marker>, m: Marker)
    requires InOrder(sorted)
    ensures InOrder(Insert(sorted, m)) && multiset(Insert(sorted, m)) == multiset(sorted) + multiset{m}
    ensures forall x :: x in Insert(sorted, m) ==> x == m || x in sorted
  {
    hide InOrder;
    if sorted == [] {
      InOrderSnoc([], m);
      NoneInOrder();
      return;
    }
    var before, last := sorted[..|sorted| - 1], sorted[|sorted| - 1];
    assert sorted == before + [last];
    InOrderSnoc(before, last);
    if Before(last, m) {
      InOrderSnoc(sorted, m);
    } else {
      InsertSorts(before, m);
      InOrderSnoc(Insert(before, m), last);
    }
  }

  lemma NoneInOrder()
    ensures InOrder([])
  {
  }

  lemma {:induction false} SortSorts(markers: seq<Marker>)
    ensures InOrder(SortMarkers(markers)) && multiset(SortMarkers(markers)) == multiset(markers)
  {
    if markers != [] {
      SortSorts(markers[..|markers| - 1]);
      InsertSorts(SortMarkers(markers[..|markers| - 1]), markers[|markers| - 1]);
      assert markers == markers[..|markers| - 1] + [markers[|markers| - 1]];
    }
  }

  predicate UniqueIndices(markers: seq<Marker>) {
    forall i, j :: 0 <= i < j < |markers| ==> markers[i].traceIndex != markers[j].traceIndex
  }

  lemma TailStays(a: seq<Marker>)
    requires a != [] && InOrder(a)
    ensures InOrder(a[1..]) && (UniqueIndices(a) ==> UniqueIndices(a[1..]))
  {
    hide Before;
  }

  lemma FirstComesFirst(a: seq<Marker>, i: nat)
    requires InOrder(a) && i < |a|
    ensures Before(a[0], a[i])
  {
  }

  /** A first marker and one that comes no later in another order of the same markers are the same. */
  lemma FirstIsFirst(a: seq<Marker>, b: seq<Marker>)
    requires a != [] && b != [] && InOrder(a) && InOrder(b) && UniqueIndices(a) && a[0] in b && b[0] in a
    ensures a[0] == b[0]
  {
    var i :| 0 <= i < |a| && a[i] == b[0];
    var j :| 0 <= j < |b| && b[j] == a[0];
    FirstComesFirst(a, i);
    FirstComesFirst(b, j);
  }

  lemma DropFirst(a: seq<Marker>)
    requires a != []
    ensures multiset(a[1..]) == multiset(a) - multiset{a[0]}
  {
    assert a == [a[0]] + a[1..];
  }

  /** A sorted sequence is determined by its markers, when their trace indices are unique. */
  lemma {:induction false} OneOrder(a: seq<Marker>, b: seq<Marker>)
    requires InOrder(a) && InOrder(b) && multiset(a) == multiset(b) && UniqueIndices(a)
    ensures a == b
  {
    hide InOrder, UniqueIndices;
    assert |a| == |b| by {
      assert |multiset(a)| == |a| && |multiset(b)| == |b|;
    }
    if a != [] {
      assert a[0] in multiset(b) && b[0] in multiset(a);
      FirstIsFirst(a, b);
      DropFirst(a);
      DropFirst(b);
      TailStays(a);
      TailStays(b);
      OneOrder(a[1..], b[1..]);
      assert a == [a[0]] + a[1..] && b == [b[0]] + b[1..];
    }
  }

  // ----- grouping -----

  datatype Phase = Setup | Teardown | Other

  datatype GroupId = ClaimGroup(claim: nat) | PhaseGroup(phase: Phase)

  /** What grouping depends on beside the markers: the claim asked for, and which other markers belong to it. */
  datatype Focus = Focus(claimId: Option<nat>, belongs: Marker -> bool)

  /** The least and greatest trace index of the markers that prove something. */
  datatype Bounds = Unbound | Bound(first: nat, last: nat)

  /** The groups so far, in order of appearance, and their markers. */
  datatype Groups = Groups(order: seq<GroupId>, table: map<GroupId, seq<Marker>>)

  function Distinct(claims: seq<nat>): seq<nat> {
    if claims == [] then []
    else
      var before, c := Distinct(claims[..|claims| - 1]), claims[|claims| - 1];
      if c in before then before else before + [c]
  }

  function Bindings(m: Marker, focus: Focus): seq<nat> {
    var own := Distinct(m.proves);
    if focus.claimId.Some? && focus.belongs(m) && focus.claimId.value !in own then own + [focus.claimId.value] else own
  }

  function PhaseOf(m: Marker, bounds: Bounds): Phase {
    if bounds.Unbound? then Other
    else if m.traceIndex < bounds.first then Setup
    else if m.traceIndex > bounds.last then Teardown
    else Other
  }

  function Labels(m: Marker, bounds: Bounds, focus: Focus): seq<GroupId> {
    var bindings := Bindings(m, focus);
    if |bindings| > 0
    then seq(|bindings|, i requires 0 <= i < |bindings| => ClaimGroup(bindings[i]))
    else [PhaseGroup(PhaseOf(m, bounds))]
  }

  function Put(groups: Groups, id: GroupId, m: Marker): Groups {
    if id in groups.table then groups.(table := groups.table[id := groups.table[id] + [m]])
    else Groups(groups.order + [id], groups.table[id := [m]])
  }

  function PutAll(groups: Groups, ids: seq<GroupId>, m: Marker): Groups {
    if ids == [] then groups else Put(PutAll(groups, ids[..|ids| - 1], m), ids[|ids| - 1], m)
  }

  function Grouped(sorted: seq<Marker>, bounds: Bounds, focus: Focus): Groups {
    if sorted == [] then Groups([], map[])
    else
      var m := sorted[|sorted| - 1];
      PutAll(Grouped(sorted[..|sorted| - 1], bounds, focus), Labels(m, bounds, focus), m)
  }

  /** The loop over the sorted markers that fills the groups. */
  method FillGroups(sorted: seq<Marker>, bounds: Bounds, focus: Focus) returns (groups: Groups)
    ensures groups == Grouped(sorted, bounds, focus)
  {
    hide Labels, PutAll;
    groups := Groups([], map[]);
    var n := 0;
    while n < |sorted|
      invariant 0 <= n <= |sorted|
      invariant groups == Grouped(sorted[..n], bounds, focus)
    {
      assert sorted[..n + 1][..n] == sorted[..n];
      groups := PutLabels(groups, Labels(sorted[n], bounds, focus), sorted[n]);
      n := n + 1;
    }
    assert sorted[..n] == sorted;
  }

  method PutLabels(start: Groups, labels: seq<GroupId>, m: Marker) returns (groups: Groups)
    ensures groups == PutAll(start, labels, m)
  {
    hide Put;
    groups := start;
    var k := 0;
    while k < |labels|
      invariant 0 <= k <= |labels|
      invariant groups == PutAll(start, labels[..k], m)
    {
      assert labels[..k + 1][..k] == labels[..k];
      groups := Put(groups, labels[k], m);
      k := k + 1;
    }
    assert labels[..k] == labels;
  }

  predicate NoDuplicates<T(==)>(s: seq<T>) {
    forall i, j :: 0 <= i < j < |s| ==> s[i] != s[j]
  }

  lemma {:induction false} DistinctIs(claims: seq<nat>)
    ensures NoDuplicates(Distinct(claims)) && forall c :: c in Distinct(claims) <==> c in claims
  {
    if claims != [] {
      DistinctIs(claims[..|claims| - 1]);
      assert claims == claims[..|claims| - 1] + [claims[|claims| - 1]];
    }
  }

  /** The claims a marker is shown under: those it proves, and the one asked for if it belongs to it. */
  predicate Binds(m: Marker, focus: Focus, c: nat) {
    c in m.proves || (focus.claimId == Some(c) && focus.belongs(m))
  }

  /**
   A marker is shown under each of its claims, once; only a marker with none is shown under a phase, and under one.
   */
  lemma LabelsAre(m: Marker, bounds: Bounds, focus: Focus)
    ensures NoDuplicates(Labels(m, bounds, focus))
    ensures forall c :: ClaimGroup(c) in Labels(m, bounds, focus) <==> Binds(m, focus, c)
    ensures forall p :: PhaseGroup(p) in Labels(m, bounds, focus) <==>
              p == PhaseOf(m, bounds) && forall c :: !Binds(m, focus, c)
  {
    DistinctIs(m.proves);
    var bindings := Bindings(m, focus);
    assert NoDuplicates(bindings) && forall c :: c in bindings <==> Binds(m, focus, c);
    var labels := Labels(m, bounds, focus);
    if |bindings| > 0 {
      assert Binds(m, focus, bindings[0]) by {
        assert bindings[0] in bindings;
      }
      forall c
        ensures ClaimGroup(c) in labels <==> c in bindings
      {
        if c in bindings {
          var i :| 0 <= i < |bindings| && bindings[i] == c;
          assert labels[i] == ClaimGroup(c);
        }
      }
    }
  }

  /** The markers shown under `id`, in order. */
  function Shown(sorted: seq<Marker>, bounds: Bounds, focus: Focus, id: GroupId): seq<Marker> {
    if sorted == [] then []
    else
      var m := sorted[|sorted| - 1];
      Shown(sorted[..|sorted| - 1], bounds, focus, id) + if id in Labels(m, bounds, focus) then [m] else []
  }

  ghost predicate InStep(groups: Groups) {
    NoDuplicates(groups.order) && forall id :: id in groups.order <==> id in groups.table
  }

  lemma {:induction false} PutAllIs(groups: Groups, ids: seq<GroupId>, m: Marker)
    requires InStep(groups) && NoDuplicates(ids)
    ensures var after := PutAll(groups, ids, m);
            && InStep(after)
            && (forall id :: id in after.table <==> id in groups.table || id in ids)
            && (forall id :: id in after.table ==>
                  after.table[id] ==
                    (if id in groups.table then groups.table[id] else []) + (if id in ids then [m] else []))
  {
    if ids != [] {
      var before, last := ids[..|ids| - 1], ids[|ids| - 1];
      PutAllIs(groups, before, m);
      assert last !in before;
    }
  }

  ghost predicate SomeLabelled(sorted: seq<Marker>, bounds: Bounds, focus: Focus, id: GroupId) {
    exists m :: m in sorted && id in Labels(m, bounds, focus)
  }

  lemma {:induction false} ShownIff(sorted: seq<Marker>, bounds: Bounds, focus: Focus, id: GroupId)
    ensures Shown(sorted, bounds, focus, id) != [] <==> SomeLabelled(sorted, bounds, focus, id)
    ensures forall m :: m in Shown(sorted, bounds, focus, id) <==> m in sorted && id in Labels(m, bounds, focus)
  {
    hide Labels;
    if sorted != [] {
      var before, m := sorted[..|sorted| - 1], sorted[|sorted| - 1];
      ShownIff(before, bounds, focus, id);
      assert sorted == before + [m];
      if SomeLabelled(sorted, bounds, focus, id) {
        var x :| x in sorted && id in Labels(x, bounds, focus);
        assert x in Shown(sorted, bounds, focus, id);
      }
      if Shown(sorted, bounds, focus, id) != [] {
        assert Shown(sorted, bounds, focus, id)[0] in Shown(sorted, bounds, focus, id);
      }
    }
  }

  /**
   What grouping yields: the groups are exactly the labels of the markers, each once, and a group holds
   exactly the markers shown under it, in order.
   */
  lemma {:induction false} GroupsAre(sorted: seq<Marker>, bounds: Bounds, focus: Focus)
    ensures var groups := Grouped(sorted, bounds, focus);
            && InStep(groups)
            && (forall id :: id in groups.table <==> Shown(sorted, bounds, focus, id) != [])
            && (forall id :: id in groups.table ==> groups.table[id] == Shown(sorted, bounds, focus, id))
  {
    hide Labels, PutAll, InStep;
    if sorted == [] {
      NoGroups();
    } else {
      var before, m := sorted[..|sorted| - 1], sorted[|sorted| - 1];
      GroupsAre(before, bounds, focus);
      LabelsAre(m, bounds, focus);
      PutAllIs(Grouped(before, bounds, focus), Labels(m, bounds, focus), m);
    }
  }

  lemma NoGroups()
    ensures InStep(Groups([], map[]))
  {
  }

  // ----- bounds of the proof -----

  function BoundsOf(markers: seq<Marker>): Bounds {
    if markers == [] then Unbound
    else
      var before, m := BoundsOf(markers[..|markers| - 1]), markers[|markers| - 1];
      if m.proves == [] then before
      else if before.Unbound? then Bound(m.traceIndex, m.traceIndex)
      else Bound(if m.traceIndex < before.first then m.traceIndex else before.first,
                 if m.traceIndex > before.last then m.traceIndex else before.last)
  }

  predicate Proves(markers: seq<Marker>, n: nat) {
    exists m :: m in markers && m.proves != [] && m.traceIndex == n
  }

  lemma {:induction false} BoundsAre(markers: seq<Marker>)
    ensures var b := BoundsOf(markers);
            if b.Unbound? then forall n: nat :: !Proves(markers, n)
            else Proves(markers, b.first) && Proves(markers, b.last)
                 && forall n: nat :: Proves(markers, n) ==> b.first <= n <= b.last
  {
    if markers != [] {
      var before, m := markers[..|markers| - 1], markers[|markers| - 1];
      BoundsAre(before);
      assert markers == before + [m];
      forall n: nat
        ensures Proves(markers, n) <==> Proves(before, n) || (m.proves != [] && m.traceIndex == n)
      {
        if m.proves != [] && m.traceIndex == n {
          assert m in markers;
        }
      }
    }
  }

  /** The groups of a recording do not depend on the order of its markers, when their trace indices are unique. */
  lemma OrderDoesNotMatter(a: seq<Marker>, b: seq<Marker>, focus: Focus)
    requires multiset(a) == multiset(b) && UniqueIndices(a)
    ensures SortMarkers(a) == SortMarkers(b) && BoundsOf(a) == BoundsOf(b)
    ensures Grouped(SortMarkers(a), BoundsOf(a), focus) == Grouped(SortMarkers(b), BoundsOf(b), focus)
  {
    hide Grouped;
    SortSorts(a);
    SortSorts(b);
    UniqueStays(a, SortMarkers(a));
    OneOrder(SortMarkers(a), SortMarkers(b));
    BoundsAre(a);
    BoundsAre(b);
    forall n: nat
      ensures Proves(a, n) == Proves(b, n)
    {
      ProvesStays(a, b, n);
      ProvesStays(b, a, n);
    }
  }

  lemma ProvesStays(a: seq<Marker>, b: seq<Marker>, n: nat)
    requires multiset(a) == multiset(b)
    ensures Proves(a, n) ==> Proves(b, n)
  {
    if m :| m in a && m.proves != [] && m.traceIndex == n {
      assert m in multiset(b);
    }
  }

  ghost predicate OnceEach(markers: multiset<Marker>) {
    && (forall m :: m in markers ==> markers[m] == 1)
    && (forall m, n :: m in markers && n in markers && m.traceIndex == n.traceIndex ==> m == n)
  }

  lemma {:induction false} UniqueMeansOnce(markers: seq<Marker>)
    requires UniqueIndices(markers)
    ensures OnceEach(multiset(markers))
  {
    if markers != [] {
      var before, last := markers[..|markers| - 1], markers[|markers| - 1];
      UniqueMeansOnce(before);
      assert markers == before + [last];
      assert multiset(markers) == multiset(before) + multiset{last};
      assert forall m :: m in before ==> m.traceIndex != last.traceIndex;
    }
  }

  lemma OnceMeansUnique(markers: seq<Marker>)
    requires OnceEach(multiset(markers))
    ensures UniqueIndices(markers)
  {
    forall i, j | 0 <= i < j < |markers|
      ensures markers[i].traceIndex != markers[j].traceIndex
    {
      var head, tail := markers[..j], markers[j..];
      assert markers == head + tail;
      assert markers[i] == head[i] && markers[j] == tail[0];
      assert markers[i] in multiset(head) && markers[j] in multiset(tail);
      assert multiset(markers) == multiset(head) + multiset(tail);
      assert markers[i] == markers[j] ==> multiset(markers)[markers[i]] >= 2;
    }
  }

  /** Unique trace indices stay unique in another order. */
  lemma UniqueStays(a: seq<Marker>, b: seq<Marker>)
    requires multiset(a) == multiset(b) && UniqueIndices(a)
    ensures UniqueIndices(b)
  {
    hide UniqueIndices, OnceEach;
    UniqueMeansOnce(a);
    OnceMeansUnique(b);
  }

  /** Where a marker of a recording is shown: in the group of each claim it is bound to, or else in one phase. */
  lemma MarkerIsShown(markers: seq<Marker>, focus: Focus, m: Marker)
    requires m in markers
    ensures var groups := Grouped(SortMarkers(markers), BoundsOf(markers), focus);
            && (forall c :: ClaimGroup(c) in groups.table && m in groups.table[ClaimGroup(c)] <==> Binds(m, focus, c))
            && (forall p :: PhaseGroup(p) in groups.table && m in groups.table[PhaseGroup(p)] <==>
                  p == PhaseOf(m, BoundsOf(markers)) && forall c :: !Binds(m, focus, c))
  {
    hide Grouped, Shown, Labels, SortMarkers, PhaseOf, Binds;
    var sorted, bounds := SortMarkers(markers), BoundsOf(markers);
    SortSorts(markers);
    assert m in multiset(sorted);
    GroupsAre(sorted, bounds, focus);
    LabelsAre(m, bounds, focus);
    forall id
      ensures id in Grouped(sorted, bounds, focus).table && m in Grouped(sorted, bounds, focus).table[id] <==>
                id in Labels(m, bounds, focus)
    {
      ShownIff(sorted, bounds, focus, id);
    }
  }

  // ----- summing up a group -----

  datatype Row = Row(id: GroupId, markers: seq<Marker>, passed: nat, failed: nat, unrecorded: nat,
                     firstFailure: Option<nat>,
                     startMarker: Option<Marker>, endMarker: Option<Marker>, startMs: Option<real>, endMs: Option<real>)

  /** Both sides of the marker have a time in the recording. */
  predicate Measured(seek: (Marker, Side) -> Option<real>, m: Marker) {
    seek(m, Start).Some? && seek(m, End).Some?
  }

  function CountOk(markers: seq<Marker>, ok: bool): nat {
    if markers == [] then 0
    else CountOk(markers[..|markers| - 1], ok) + if markers[|markers| - 1].ok == ok then 1 else 0
  }

  function CountMeasured(seek: (Marker, Side) -> Option<real>, markers: seq<Marker>): (n: nat)
    ensures n <= |markers|
  {
    if markers == [] then 0
    else CountMeasured(seek, markers[..|markers| - 1]) + if Measured(seek, markers[|markers| - 1]) then 1 else 0
  }

  /** `k` is the first measured marker with the least start. */
  predicate Earliest(seek: (Marker, Side) -> Option<real>, markers: seq<Marker>, k: nat) {
    && k < |markers| && Measured(seek, markers[k])
    && (forall i :: 0 <= i < |markers| && Measured(seek, markers[i]) ==>
         seek(markers[k], Start).value <= seek(markers[i], Start).value)
    && (forall i :: 0 <= i < k && Measured(seek, markers[i]) ==>
         seek(markers[k], Start).value < seek(markers[i], Start).value)
  }

  /** `k` is the first measured marker with the greatest end. */
  predicate Latest(seek: (Marker, Side) -> Option<real>, markers: seq<Marker>, k: nat) {
    && k < |markers| && Measured(seek, markers[k])
    && (forall i :: 0 <= i < |markers| && Measured(seek, markers[i]) ==>
         seek(markers[k], End).value >= seek(markers[i], End).value)
    && (forall i :: 0 <= i < k && Measured(seek, markers[i]) ==>
         seek(markers[k], End).value > seek(markers[i], End).value)
  }

  predicate NoneMeasured(seek: (Marker, Side) -> Option<real>, markers: seq<Marker>) {
    forall i :: 0 <= i < |markers| ==> !Measured(seek, markers[i])
  }

  /** The first earliest and the first latest measured markers, or none. */
  predicate Range(seek: (Marker, Side) -> Option<real>, markers: seq<Marker>, start: Option<nat>, end: Option<nat>) {
    if NoneMeasured(seek, markers) then start.None? && end.None?
    else start.Some? && end.Some? && Earliest(seek, markers, start.value) && Latest(seek, markers, end.value)
  }

  lemma RangeInside(seek: (Marker, Side) -> Option<real>, markers: seq<Marker>, start: Option<nat>, end: Option<nat>)
    requires Range(seek, markers, start, end)
    ensures start.Some? <==> end.Some?
    ensures start.Some? ==> start.value < |markers| && Measured(seek, markers[start.value])
    ensures end.Some? ==> end.value < |markers| && Measured(seek, markers[end.value])
  {
  }

  lemma UnmeasuredKeepsRange(seek: (Marker, Side) -> Option<real>, markers: seq<Marker>, m: Marker,
                             start: Option<nat>, end: Option<nat>)
    requires Range(seek, markers, start, end) && !Measured(seek, m)
    ensures Range(seek, markers + [m], start, end)
  {
    hide Measured;
    var all := markers + [m];
    assert all[|markers|] == m;
    assert forall i :: 0 <= i < |markers| ==> all[i] == markers[i];
  }

  lemma MeasuredMovesRange(seek: (Marker, Side) -> Option<real>, markers: seq<Marker>, m: Marker, start: Option<nat>,
                           end: Option<nat>)
    requires Range(seek, markers, start, end) && Measured(seek, m)
    requires start.Some? ==> start.value < |markers| && Measured(seek, markers[start.value])
    requires end.Some? ==> end.value < |markers| && Measured(seek, markers[end.value])
    ensures Range(seek, markers + [m],
                  if start.None? || seek(m, Start).value < seek(markers[start.value], Start).value
                  then Some(|markers|) else start,
                  if end.None? || seek(m, End).value > seek(markers[end.value], End).value
                  then Some(|markers|) else end)
  {
    var all := markers + [m];
    assert all[|markers|] == m;
    assert forall i :: 0 <= i < |markers| ==> all[i] == markers[i];
  }

  method MeasuredRange(seek: (Marker, Side) -> Option<real>, markers: seq<Marker>)
    returns (measured: nat, start: Option<nat>, end: Option<nat>)
    ensures measured == CountMeasured(seek, markers)
    ensures Range(seek, markers, start, end)
  {
    hide Range, Earliest, Latest, NoneMeasured, CountMeasured;
    NoRange(seek);
    NoneCounted(seek);
    measured, start, end := 0, None, None;
    var n := 0;
    while n < |markers|
      invariant 0 <= n <= |markers|
      invariant measured == CountMeasured(seek, markers[..n])
      invariant Range(seek, markers[..n], start, end)
    {
      assert markers[..n + 1] == markers[..n] + [markers[n]];
      var m := markers[n];
      RangeInside(seek, markers[..n], start, end);
      CountSnoc(seek, markers[..n], m);
      if seek(m, Start).Some? && seek(m, End).Some? {
        measured := measured + 1;
        MeasuredMovesRange(seek, markers[..n], m, start, end);
        if start.None? || seek(m, Start).value < seek(markers[start.value], Start).value {
          start := Some(n);
        }
        if end.None? || seek(m, End).value > seek(markers[end.value], End).value {
          end := Some(n);
        }
      } else {
        UnmeasuredKeepsRange(seek, markers[..n], m, start, end);
      }
      n := n + 1;
    }
    assert markers[..n] == markers;
  }

  lemma NoneCounted(seek: (Marker, Side) -> Option<real>)
    ensures CountMeasured(seek, []) == 0
  {
  }

  lemma CountSnoc(seek: (Marker, Side) -> Option<real>, markers: seq<Marker>, m: Marker)
    ensures CountMeasured(seek, markers + [m]) == CountMeasured(seek, markers) + if Measured(seek, m) then 1 else 0
  {
    assert (markers + [m])[..|markers|] == markers;
  }

  lemma NoRange(seek: (Marker, Side) -> Option<real>)
    ensures Range(seek, [], None, None)
  {
  }

  /** `first` is the trace index of the first marker that failed, if any did. */
  predicate FirstFailure(markers: seq<Marker>, first: Option<nat>) {
    if first.None? then forall k :: 0 <= k < |markers| ==> markers[k].ok
    else exists k :: 0 <= k < |markers| && IsFirstFailure(markers, k) && markers[k].traceIndex == first.value
  }

  predicate IsFirstFailure(markers: seq<Marker>, k: int) {
    0 <= k < |markers| && !markers[k].ok && forall i :: 0 <= i < k ==> markers[i].ok
  }

  method CountFailed(markers: seq<Marker>) returns (failed: nat, first: Option<nat>)
    ensures failed == CountOk(markers, false)
    ensures FirstFailure(markers, first) && (first.Some? <==> failed > 0)
  {
    failed, first := 0, None;
    var n := 0;
    while n < |markers|
      invariant 0 <= n <= |markers|
      invariant failed == CountOk(markers[..n], false)
      invariant FirstFailure(markers[..n], first) && (first.Some? <==> failed > 0)
    {
      assert markers[..n + 1][..n] == markers[..n];
      assert first.Some? ==> forall k :: IsFirstFailure(markers[..n], k) ==> IsFirstFailure(markers[..n + 1], k);
      if !markers[n].ok {
        failed := failed + 1;
        if first.None? {
          first := Some(markers[n].traceIndex);
          assert IsFirstFailure(markers[..n + 1], n);
        }
      }
      n := n + 1;
    }
    assert markers[..n] == markers;
  }

  lemma {:induction false} CountsSplit(markers: seq<Marker>)
    ensures CountOk(markers, true) + CountOk(markers, false) == |markers|
  {
    if markers != [] {
      CountsSplit(markers[..|markers| - 1]);
    }
  }

  /** What a row says of the markers of its group. */
  ghost predicate Describes(row: Row, seek: (Marker, Side) -> Option<real>) {
    && row.passed == CountOk(row.markers, true) && row.failed == CountOk(row.markers, false)
    && row.unrecorded == |row.markers| - CountMeasured(seek, row.markers)
    && (if NoneMeasured(seek, row.markers)
        then row.startMarker.None? && row.endMarker.None? && row.startMs.None? && row.endMs.None?
        else SpansMeasured(row, seek))
    && FirstFailure(row.markers, row.firstFailure)
  }

  ghost predicate SpansMeasured(row: Row, seek: (Marker, Side) -> Option<real>) {
    exists s: nat, e: nat :: Spans(row, seek, s, e)
  }

  predicate Spans(row: Row, seek: (Marker, Side) -> Option<real>, s: nat, e: nat) {
    && Earliest(seek, row.markers, s) && Latest(seek, row.markers, e)
    && row.startMarker == Some(row.markers[s]) && row.startMs == seek(row.markers[s], Start)
    && row.endMarker == Some(row.markers[e]) && row.endMs == seek(row.markers[e], End)
  }

  method Summarize(id: GroupId, markers: seq<Marker>, seek: (Marker, Side) -> Option<real>) returns (row: Row)
    ensures row.id == id && row.markers == markers && Describes(row, seek)
  {
    hide Earliest, Latest, Measured;
    var measured, start, end := MeasuredRange(seek, markers);
    var failed, firstFailure := CountFailed(markers);
    CountsSplit(markers);
    if start.None? || end.None? {
      return Row(id, markers, |markers| - failed, failed, |markers| - measured, firstFailure, None, None, None, None);
    }
    SpanInside(seek, markers, start.value, end.value);
    row := Row(id, markers, |markers| - failed, failed, |markers| - measured, firstFailure,
               Some(markers[start.value]), Some(markers[end.value]),
               seek(markers[start.value], Start), seek(markers[end.value], End));
    assert Spans(row, seek, start.value, end.value);
  }

  lemma SpanInside(seek: (Marker, Side) -> Option<real>, markers: seq<Marker>, s: nat, e: nat)
    requires Earliest(seek, markers, s) && Latest(seek, markers, e)
    ensures s < |markers| && e < |markers|
  {
  }

  function Seeker(frames: seq<real>, durationMs: real, media: Option<real>): (Marker, Side) -> Option<real> {
    (m, side) => SeekTime(frames, durationMs, media, m, side)
  }

  /**
   The time range of a group. With ordered marker ranges a measured group begins no earlier than the
   first frame and ends no earlier than it begins; it ends within the frames and the media exactly if
   the media reaches the first frame.
   */
  lemma GroupRange(markers: seq<Marker>, s: nat, e: nat, frames: seq<real>, durationMs: real, media: Option<real>)
    requires Ascending(frames) && s < |markers| && RangesOrdered(markers[s])
    requires Earliest(Seeker(frames, durationMs, media), markers, s) &&
             Latest(Seeker(frames, durationMs, media), markers, e)
    ensures e < |markers| && frames != []
    ensures var start, end := Seeker(frames, durationMs, media)(markers[s], Start),
            Seeker(frames, durationMs, media)(markers[e], End);
            && start.Some? && end.Some? && frames[0] <= start.value <= end.value
            && (end.value <= Min(frames[|frames| - 1], Duration(durationMs, media)) <==>
                 frames[0] <= Duration(durationMs, media))
  {
    hide SeekTime, Clamp, RangesOrdered, Ascending, Earliest, Latest, Min, Duration;
    MeasuredTimes(markers, s, e, frames, durationMs, media);
    SeekBounds(frames, durationMs, media, markers[s], Start);
    SeekBounds(frames, durationMs, media, markers[e], End);
    SeekOrdered(frames, durationMs, media, markers[s]);
    FramesThere(frames, durationMs, media, markers[s]);
  }

  /** The same for the row of a group: it has a range exactly if some marker is measured. */
  lemma RowRange(row: Row, frames: seq<real>, durationMs: real, media: Option<real>)
    requires Ascending(frames) && Describes(row, Seeker(frames, durationMs, media)) && row.startMs.Some?
    requires forall i :: 0 <= i < |row.markers| ==> RangesOrdered(row.markers[i])
    ensures row.endMs.Some? && frames != [] && frames[0] <= row.startMs.value <= row.endMs.value
    ensures row.endMs.value <= Min(frames[|frames| - 1], Duration(durationMs, media)) <==>
              frames[0] <= Duration(durationMs, media)
    ensures row.unrecorded < |row.markers|
  {
    hide Seeker, RangesOrdered, Ascending, Describes, Earliest, Latest, Min, Duration;
    var s, e := SpanOf(row, Seeker(frames, durationMs, media));
    GroupRange(row.markers, s, e, frames, durationMs, media);
  }

  lemma FramesThere(frames: seq<real>, durationMs: real, media: Option<real>, m: Marker)
    ensures SeekTime(frames, durationMs, media, m, Start).Some? ==> frames != []
  {
  }

  lemma SpanOf(row: Row, seek: (Marker, Side) -> Option<real>) returns (s: nat, e: nat)
    requires Describes(row, seek) && row.startMs.Some?
    ensures s < |row.markers| && e < |row.markers| && Earliest(seek, row.markers, s) && Latest(seek, row.markers, e)
    ensures row.startMarker == Some(row.markers[s]) && row.startMs == seek(row.markers[s], Start)
    ensures row.endMarker == Some(row.markers[e]) && row.endMs == seek(row.markers[e], End)
    ensures row.unrecorded < |row.markers|
  {
    hide Measured, CountOk, CountMeasured;
    assert SpansMeasured(row, seek);
    s, e :| Spans(row, seek, s, e);
    SomeMeasured(seek, row.markers, s);
  }

  lemma MeasuredTimes(markers: seq<Marker>, s: nat, e: nat, frames: seq<real>, durationMs: real, media: Option<real>)
    requires Earliest(Seeker(frames, durationMs, media), markers, s) &&
             Latest(Seeker(frames, durationMs, media), markers, e)
    ensures s < |markers| && e < |markers|
    ensures SeekTime(frames, durationMs, media, markers[s], Start).Some? &&
            SeekTime(frames, durationMs, media, markers[e], End).Some?
    ensures SeekTime(frames, durationMs, media, markers[s], End).Some?
    ensures SeekTime(frames, durationMs, media, markers[s], End).value <=
            SeekTime(frames, durationMs, media, markers[e], End).value
  {
    hide SeekTime;
  }

  lemma {:induction false} SomeMeasured(seek: (Marker, Side) -> Option<real>, markers: seq<Marker>, s: nat)
    requires s < |markers| && Measured(seek, markers[s])
    ensures CountMeasured(seek, markers) > 0
  {
    if s < |markers| - 1 {
      SomeMeasured(seek, markers[..|markers| - 1], s);
    }
  }

  /** A time sought for a marker is no later than its last possible end, nor, unless clamped, before its start. */
  lemma SoughtInside(frames: seq<real>, durationMs: real, media: Option<real>, m: Marker)
    requires RangesOrdered(m)
    ensures var seek := Seeker(frames, durationMs, media);
            && (seek(m, End).Some? ==> frames != [] && frames[0] <= m.endRange.1 && seek(m, End).value <= m.endRange.1)
            && (seek(m, Start).Some? ==>
                  && frames != [] && m.startRange.0 < Duration(durationMs, media)
                  && (m.startRange.0 <= seek(m, Start).value ||
                      seek(m, Start).value == Max(frames[0], Min(frames[|frames| - 1], Duration(durationMs, media)))))
  {
  }

  lemma NoneSoughtLater(frames: seq<real>, durationMs: real, media: Option<real>, m: Marker, side: Side)
    ensures SeekTime(frames, durationMs, media, m, side).Some? ==>
              && frames != []
              && SeekTime(frames, durationMs, media, m, side).value
                 <= Max(frames[0], Min(frames[|frames| - 1], Duration(durationMs, media)))
  {
  }

  /**
   A measured group of a valid recording gives an ordered clip, from its earliest start to its latest end. When
   every time is clamped to the same end, both come from one marker.
   */
  lemma GroupClipIsOrdered(videoPath: nat, row: Row, frames: seq<real>, durationMs: real, media: Option<real>)
    requires ValidRecording(frames, durationMs) && Describes(row, Seeker(frames, durationMs, media))
    requires row.startMs.Some? && forall i :: 0 <= i < |row.markers| ==> RangesOrdered(row.markers[i])
    ensures row.startMarker.Some? && row.endMarker.Some?
    ensures SpanFits(durationMs, row.startMarker.value, row.endMarker.value)
    ensures var clip := ClipForSpan(videoPath, durationMs, row.startMarker.value, row.endMarker.value);
            clip.startMs <= Max(0.0, row.startMarker.value.startRange.0)
            && Min(durationMs, row.endMarker.value.endRange.1) <= clip.endMs
  {
    hide Seeker, RangesOrdered, Describes, Earliest, Latest;
    var seek := Seeker(frames, durationMs, media);
    var s, e := SpanOf(row, seek);
    SpanMarkers(seek, row.markers, s, e);
    SoughtInside(frames, durationMs, media, row.markers[s]);
    SoughtInside(frames, durationMs, media, row.markers[e]);
    StartsInside(frames, durationMs, media, row.markers, s, e);
    assert 0.0 <= frames[0];
  }

  lemma SpanMarkers(seek: (Marker, Side) -> Option<real>, markers: seq<Marker>, s: nat, e: nat)
    requires Earliest(seek, markers, s) && Latest(seek, markers, e)
    ensures s < |markers| && e < |markers| && Measured(seek, markers[s]) && Measured(seek, markers[e])
    ensures seek(markers[s], End).value <= seek(markers[e], End).value
  {
  }

  /** The earliest marker cannot start after the latest has ended. */
  lemma StartsInside(frames: seq<real>, durationMs: real, media: Option<real>, markers: seq<Marker>, s: nat, e: nat)
    requires Earliest(Seeker(frames, durationMs, media), markers, s)
    requires Latest(Seeker(frames, durationMs, media), markers, e)
    requires forall i :: 0 <= i < |markers| ==> RangesOrdered(markers[i])
    ensures s < |markers| && e < |markers| && markers[s].startRange.0 <= markers[e].endRange.1
  {
    hide SeekTime, RangesOrdered;
    var seek := Seeker(frames, durationMs, media);
    SpanMarkers(seek, markers, s, e);
    SoughtInside(frames, durationMs, media, markers[s]);
    SoughtInside(frames, durationMs, media, markers[e]);
    SeekOrdered(frames, durationMs, media, markers[s]);
    if markers[s].startRange.0 > seek(markers[s], Start).value {
      AllAtTheEnd(frames, durationMs, media, markers, s, e);
      RangeOrder(markers[s]);
    }
  }

  lemma RangeOrder(m: Marker)
    requires RangesOrdered(m)
    ensures m.startRange.0 <= m.endRange.1
  {
  }

  /** When the earliest start is clamped to the end, so is every time: the first measured marker is both. */
  lemma AllAtTheEnd(frames: seq<real>, durationMs: real, media: Option<real>, markers: seq<Marker>, s: nat, e: nat)
    requires Earliest(Seeker(frames, durationMs, media), markers, s)
    requires Latest(Seeker(frames, durationMs, media), markers, e)
    requires forall i :: 0 <= i < |markers| ==> RangesOrdered(markers[i])
    requires frames != [] && s < |markers|
    requires Seeker(frames, durationMs, media)(markers[s], Start)
             == Some(Max(frames[0], Min(frames[|frames| - 1], Duration(durationMs, media))))
    ensures s == e
  {
    hide SeekTime, RangesOrdered, Max, Min, Duration;
    var end := Max(frames[0], Min(frames[|frames| - 1], Duration(durationMs, media)));
    var seek := Seeker(frames, durationMs, media);
    SpanMarkers(seek, markers, s, e);
    SeekOrdered(frames, durationMs, media, markers[s]);
    NoneSoughtLater(frames, durationMs, media, markers[s], End);
    NoneSoughtLater(frames, durationMs, media, markers[e], Start);
    NoneSoughtLater(frames, durationMs, media, markers[e], End);
    assert seek(markers[s], End).value == end && seek(markers[e], End).value == end;
    assert seek(markers[e], Start).value == end;
  }

  // ----- the whole timeline -----

  predicate Wanted(id: GroupId, focus: Focus) {
    focus.claimId.None? || id == ClaimGroup(focus.claimId.value)
  }

  function WantedIds(ids: seq<GroupId>, focus: Focus): seq<GroupId> {
    if ids == [] then []
    else WantedIds(ids[..|ids| - 1], focus) + if Wanted(ids[|ids| - 1], focus) then [ids[|ids| - 1]] else []
  }

  /** The rows of a timeline: the wanted groups in order of appearance, each with its markers, summed up. */
  ghost predicate RowsOf(rows: seq<Row>, groups: Groups, seek: (Marker, Side) -> Option<real>, focus: Focus) {
    && |rows| == |WantedIds(groups.order, focus)|
    && forall i :: 0 <= i < |rows| ==>
         && rows[i].id == WantedIds(groups.order, focus)[i] && rows[i].id in groups.table
         && rows[i].markers == groups.table[rows[i].id] && Describes(rows[i], seek)
  }

  /** A group has one description. */
  lemma OneDescription(a: Row, b: Row, seek: (Marker, Side) -> Option<real>)
    requires Describes(a, seek) && Describes(b, seek) && a.id == b.id && a.markers == b.markers
    ensures a == b
  {
    hide CountOk, CountMeasured, Earliest, Latest, Measured, FirstFailure;
    OneFirstFailure(a.markers, a.firstFailure, b.firstFailure);
    if !NoneMeasured(seek, a.markers) {
      var s: nat, e: nat :| Spans(a, seek, s, e);
      var t: nat, f: nat :| Spans(b, seek, t, f);
      OneSpan(seek, a.markers, s, e, t, f);
    }
  }

  lemma OneFirstFailure(markers: seq<Marker>, a: Option<nat>, b: Option<nat>)
    requires FirstFailure(markers, a) && FirstFailure(markers, b)
    ensures a == b
  {
  }

  lemma OneSpan(seek: (Marker, Side) -> Option<real>, markers: seq<Marker>, s: nat, e: nat, t: nat, f: nat)
    requires Earliest(seek, markers, s) && Latest(seek, markers, e)
    requires Earliest(seek, markers, t) && Latest(seek, markers, f)
    ensures s == t && e == f
  {
  }

  /** The timeline, row by row, does not depend on the order of markers whose trace indices are unique. */
  lemma TimelineIgnoresOrder(a: seq<Marker>, b: seq<Marker>, seek: (Marker, Side) -> Option<real>, focus: Focus,
                             rowsOfA: seq<Row>, rowsOfB: seq<Row>)
    requires multiset(a) == multiset(b) && UniqueIndices(a)
    requires RowsOf(rowsOfA, Grouped(SortMarkers(a), BoundsOf(a), focus), seek, focus)
    requires RowsOf(rowsOfB, Grouped(SortMarkers(b), BoundsOf(b), focus), seek, focus)
    ensures rowsOfA == rowsOfB
  {
    hide Grouped, SortMarkers, BoundsOf, Describes, WantedIds;
    OrderDoesNotMatter(a, b, focus);
    forall i | 0 <= i < |rowsOfA|
      ensures rowsOfA[i] == rowsOfB[i]
    {
      OneDescription(rowsOfA[i], rowsOfB[i], seek);
    }
  }

  /** Sorts, groups and sums up. */
  method TimelineGroups(markers: seq<Marker>, seek: (Marker, Side) -> Option<real>, focus: Focus)
    returns (rows: seq<Row>)
    ensures RowsOf(rows, Grouped(SortMarkers(markers), BoundsOf(markers), focus), seek, focus)
  {
    hide Grouped, SortMarkers, BoundsOf, Describes, InStep, Shown;
    var groups := FillGroups(SortMarkers(markers), BoundsOf(markers), focus);
    GroupsAre(SortMarkers(markers), BoundsOf(markers), focus);
    StepParts(groups);
    rows := [];
    var n := 0;
    while n < |groups.order|
      invariant 0 <= n <= |groups.order|
      invariant |rows| == |WantedIds(groups.order[..n], focus)|
      invariant forall i :: 0 <= i < |rows| ==>
                  && rows[i].id == WantedIds(groups.order[..n], focus)[i] && rows[i].id in groups.table
                  && rows[i].markers == groups.table[rows[i].id] && Describes(rows[i], seek)
    {
      assert groups.order[..n + 1][..n] == groups.order[..n];
      var id := groups.order[n];
      if Wanted(id, focus) {
        var row := Summarize(id, groups.table[id], seek);
        rows := rows + [row];
      }
      n := n + 1;
    }
    assert groups.order[..n] == groups.order;
  }

  lemma StepParts(groups: Groups)
    requires InStep(groups)
    ensures forall i :: 0 <= i < |groups.order| ==> groups.order[i] in groups.table
  {
  }
}
