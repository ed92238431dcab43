/** What the rows of a timeline are, told of the markers and the recording alone. */
module EvidenceRows {
  import opened Numbers
  import opened Results
  import opened EvidencePlayback
  import opened EvidenceFrames
  import opened EvidenceTimeline

  // ----- times and clips, in numbers -----

  /**
   The time sought for a side of a marker: none where its range misses the frames or the recording; otherwise the middle
   of the range, or the nearest time to it from the first frame to the last one that is within the recording.
   */
  lemma SeekIs(frames: seq<real>, durationMs: real, media: Option<real>, m: Marker, side: Side)
    ensures var range := if side == Start then m.startRange else m.endRange;
            var end := if media.Some? && media.value < durationMs then media.value else durationMs;
            var middle, sought := (range.0 + range.1) / 2.0, SeekTime(frames, durationMs, media, m, side);
            && (sought == None <==> frames == [] || range.1 < frames[0] || range.0 >= end)
            && (sought.Some? ==>
                  var first, last := frames[0], if frames[|frames| - 1] < end then frames[|frames| - 1] else end;
                  && sought.value >= first && (middle <= first || last <= first ==> sought.value == first)
                  && (first <= middle <= last ==> sought.value == middle)
                  && (first <= last <= middle ==> sought.value == last))
  {
  }

  /** A clip takes a second more at either end than the markers it shows, as far as the recording goes. */
  lemma ClipIs(videoPath: nat, durationMs: real, first: Marker, last: Marker)
    ensures var clip := ClipForSpan(videoPath, durationMs, first, last);
            && clip.videoPath == videoPath
            && clip.startMs == (if first.startRange.0 >= 1000.0 then first.startRange.0 - 1000.0 else 0.0)
            && clip.endMs == (if last.endRange.1 + 1000.0 <= durationMs then last.endRange.1 + 1000.0 else durationMs)
  {
  }

  // ----- where a marker belongs -----

  ghost predicate SomeProves(markers: seq<Marker>) {
    exists x :: x in markers && x.proves != []
  }

  /** Before every marker that proves something, after every one, or neither. */
  ghost predicate Stands(markers: seq<Marker>, m: Marker, phase: Phase) {
    match phase
    case Setup => SomeProves(markers) && forall x :: x in markers && x.proves != [] ==> m.traceIndex < x.traceIndex
    case Teardown => SomeProves(markers) && forall x :: x in markers && x.proves != [] ==> m.traceIndex > x.traceIndex
    case Other =>
      SomeProves(markers) ==>
        && (exists x :: x in markers && x.proves != [] && x.traceIndex <= m.traceIndex)
        && (exists x :: x in markers && x.proves != [] && x.traceIndex >= m.traceIndex)
  }

  lemma PhaseIs(markers: seq<Marker>, m: Marker, phase: Phase)
    ensures PhaseOf(m, BoundsOf(markers)) == phase <==> Stands(markers, m, phase)
  {
    hide BoundsOf;
    BoundsAre(markers);
    forall x | x in markers && x.proves != []
      ensures Proves(markers, x.traceIndex)
    {
    }
  }

  /** A marker belongs to each claim it proves or was asked for, and to its phase if there is none. */
  ghost predicate Belongs(markers: seq<Marker>, focus: Focus, m: Marker, id: GroupId) {
    match id
    case ClaimGroup(c) => c in m.proves || (focus.claimId == Some(c) && focus.belongs(m))
    case PhaseGroup(phase) => m.proves == [] && !(focus.claimId.Some? && focus.belongs(m)) && Stands(markers, m, phase)
  }

  lemma LabelledIff(markers: seq<Marker>, focus: Focus, m: Marker, id: GroupId)
    ensures id in Labels(m, BoundsOf(markers), focus) <==> Belongs(markers, focus, m, id)
  {
    hide Labels, BoundsOf, PhaseOf, Stands;
    LabelsAre(m, BoundsOf(markers), focus);
    if id.PhaseGroup? {
      PhaseIs(markers, m, id.phase);
      if m.proves != [] {
        assert Binds(m, focus, m.proves[0]);
      }
      if focus.claimId.Some? && focus.belongs(m) {
        assert Binds(m, focus, focus.claimId.value);
      }
    }
  }

  // ----- the markers of a row -----

  lemma {:induction false} ShownTimes(sorted: seq<Marker>, bounds: Bounds, focus: Focus, id: GroupId, m: Marker)
    ensures multiset(Shown(sorted, bounds, focus, id))[m] ==
            if id in Labels(m, bounds, focus) then multiset(sorted)[m] else 0
  {
    hide Labels;
    if sorted != [] {
      ShownTimes(sorted[..|sorted| - 1], bounds, focus, id, m);
      assert sorted == sorted[..|sorted| - 1] + [sorted[|sorted| - 1]];
    }
  }

  lemma {:induction false} ShownInOrder(sorted: seq<Marker>, bounds: Bounds, focus: Focus, id: GroupId)
    requires InOrder(sorted)
    ensures InOrder(Shown(sorted, bounds, focus, id))
  {
    hide Labels, InOrder;
    if sorted == [] {
      NoneInOrder();
    } else {
      var before, last := sorted[..|sorted| - 1], sorted[|sorted| - 1];
      assert sorted == before + [last];
      InOrderSnoc(before, last);
      ShownInOrder(before, bounds, focus, id);
      ShownIff(before, bounds, focus, id);
      InOrderSnoc(Shown(before, bounds, focus, id), last);
      assert Shown(before, bounds, focus, id) + [] == Shown(before, bounds, focus, id);
    }
  }

  // ----- which rows there are -----

  lemma {:induction false} WantedAre(ids: seq<GroupId>, focus: Focus)
    requires EvidenceTimeline.NoDuplicates(ids)
    ensures EvidenceTimeline.NoDuplicates(WantedIds(ids, focus))
    ensures forall id :: id in WantedIds(ids, focus) <==>
              id in ids && (focus.claimId == None || id == ClaimGroup(focus.claimId.value))
  {
    if ids != [] {
      var before, last := ids[..|ids| - 1], ids[|ids| - 1];
      assert ids == before + [last] && last !in before;
      WantedAre(before, focus);
    }
  }

  ghost predicate HasRow(rows: seq<Row>, id: GroupId) {
    exists i :: 0 <= i < |rows| && rows[i].id == id
  }

  /** Some marker belongs to the group, and the group is the one asked for, if one was. */
  ghost predicate Due(markers: seq<Marker>, focus: Focus, id: GroupId) {
    && (focus.claimId == None || id == ClaimGroup(focus.claimId.value))
    && exists m :: m in markers && Belongs(markers, focus, m, id)
  }

  /** The row has exactly the markers that belong to it, by start and trace index. */
  ghost predicate Holds(markers: seq<Marker>, focus: Focus, row: Row) {
    && InOrder(row.markers)
    && forall m :: multiset(row.markers)[m] == if Belongs(markers, focus, m, row.id) then multiset(markers)[m] else 0
  }

  /** The rows of a timeline: one for each group that is due, none twice, each with exactly its markers, in order. */
  lemma RowsAre(markers: seq<Marker>, seek: (Marker, Side) -> Option<real>, focus: Focus, rows: seq<Row>)
    requires RowsOf(rows, Grouped(SortMarkers(markers), BoundsOf(markers), focus), seek, focus)
    ensures forall i, j :: 0 <= i < j < |rows| ==> rows[i].id != rows[j].id
    ensures forall id :: HasRow(rows, id) <==> Due(markers, focus, id)
    ensures forall i :: 0 <= i < |rows| ==> Holds(markers, focus, rows[i])
  {
    hide Grouped, SortMarkers, BoundsOf, Shown, Labels, Belongs, InOrder, Describes, WantedIds;
    var sorted, bounds := SortMarkers(markers), BoundsOf(markers);
    var groups := Grouped(sorted, bounds, focus);
    SortSorts(markers);
    GroupsAre(sorted, bounds, focus);
    WantedAre(groups.order, focus);
    forall id
      ensures HasRow(rows, id) <==> Due(markers, focus, id)
    {
      ShownIff(sorted, bounds, focus, id);
      DueIff(markers, focus, id);
      RowIff(rows, groups, seek, focus, id);
    }
    forall i | 0 <= i < |rows|
      ensures Holds(markers, focus, rows[i])
    {
      ShownInOrder(sorted, bounds, focus, rows[i].id);
      forall m
        ensures multiset(rows[i].markers)[m] ==
                if Belongs(markers, focus, m, rows[i].id) then multiset(markers)[m] else 0
      {
        ShownTimes(sorted, bounds, focus, rows[i].id, m);
        LabelledIff(markers, focus, m, rows[i].id);
      }
    }
  }

  lemma RowIff(rows: seq<Row>, groups: Groups, seek: (Marker, Side) -> Option<real>, focus: Focus, id: GroupId)
    requires RowsOf(rows, groups, seek, focus)
    ensures HasRow(rows, id) <==> id in WantedIds(groups.order, focus)
  {
    hide WantedIds, Describes;
    if id in WantedIds(groups.order, focus) {
      var i :| 0 <= i < |WantedIds(groups.order, focus)| && WantedIds(groups.order, focus)[i] == id;
      assert rows[i].id == id;
    }
  }

  lemma DueIff(markers: seq<Marker>, focus: Focus, id: GroupId)
    ensures SomeLabelled(SortMarkers(markers), BoundsOf(markers), focus, id) <==>
              exists m :: m in markers && Belongs(markers, focus, m, id)
  {
    hide SortMarkers, BoundsOf, Labels, Belongs;
    SortSorts(markers);
    assert forall m :: m in SortMarkers(markers) <==> m in multiset(SortMarkers(markers));
    forall m
      ensures m in SortMarkers(markers) <==> m in markers
      ensures id in Labels(m, BoundsOf(markers), focus) <==> Belongs(markers, focus, m, id)
    {
      LabelledIff(markers, focus, m, id);
    }
  }

  // ----- the order of the rows -----

  /** The groups have markers, and come by their first ones. */
  ghost predicate ByFirst(ids: seq<GroupId>, table: map<GroupId, seq<Marker>>) {
    && (forall i :: 0 <= i < |ids| ==> HasFirst(ids[i], table))
    && forall i, j :: 0 <= i < j < |ids| ==> Before(table[ids[i]][0], table[ids[j]][0])
  }

  predicate HasFirst(id: GroupId, table: map<GroupId, seq<Marker>>) {
    id in table && table[id] != []
  }

  ghost predicate FirstsBefore(ids: seq<GroupId>, table: map<GroupId, seq<Marker>>, m: Marker) {
    forall i :: 0 <= i < |ids| ==> HasFirst(ids[i], table) && Before(table[ids[i]][0], m)
  }

  lemma PutByFirst(groups: Groups, id: GroupId, m: Marker)
    requires InStep(groups) && ByFirst(groups.order, groups.table) && FirstsBefore(groups.order, groups.table, m)
    ensures var after := Put(groups, id, m);
            InStep(after) && ByFirst(after.order, after.table) && FirstsBefore(after.order, after.table, m)
  {
    hide ByFirst, FirstsBefore, Before;
    Reflexive(m);
    PutInStep(groups, id, m);
    var after := Put(groups, id, m);
    assert forall k :: k in groups.order ==> k in groups.table;
    if id in groups.table {
      SameFirsts(groups.order, groups.table, after.table, m);
    } else {
      SameFirsts(groups.order, groups.table, after.table, m);
      LastFirst(groups.order, id, after.table, m);
    }
  }

  lemma PutInStep(groups: Groups, id: GroupId, m: Marker)
    requires InStep(groups)
    ensures InStep(Put(groups, id, m))
  {
    assert id !in groups.table ==> id !in groups.order;
  }

  lemma SameFirsts(ids: seq<GroupId>, table: map<GroupId, seq<Marker>>, after: map<GroupId, seq<Marker>>, m: Marker)
    requires ByFirst(ids, table) && FirstsBefore(ids, table, m)
    requires forall id :: id in table && table[id] != [] ==> HasFirst(id, after) && after[id][0] == table[id][0]
    ensures ByFirst(ids, after) && FirstsBefore(ids, after, m)
  {
    hide Before;
  }

  lemma LastFirst(ids: seq<GroupId>, id: GroupId, table: map<GroupId, seq<Marker>>, m: Marker)
    requires ByFirst(ids, table) && FirstsBefore(ids, table, m)
    requires HasFirst(id, table) && table[id][0] == m && Before(m, m)
    ensures ByFirst(ids + [id], table) && FirstsBefore(ids + [id], table, m)
  {
    hide Before;
    var longer := ids + [id];
    assert forall i | 0 <= i < |ids| :: longer[i] == ids[i];
    assert longer[|ids|] == id;
  }

  lemma Reflexive(m: Marker)
    ensures Before(m, m)
  {
  }

  lemma {:induction false} PutAllByFirst(groups: Groups, ids: seq<GroupId>, m: Marker)
    requires InStep(groups) && ByFirst(groups.order, groups.table) && FirstsBefore(groups.order, groups.table, m)
    ensures var after := PutAll(groups, ids, m);
            InStep(after) && ByFirst(after.order, after.table) && FirstsBefore(after.order, after.table, m)
  {
    hide InStep, ByFirst, FirstsBefore, Put;
    if ids != [] {
      PutAllByFirst(groups, ids[..|ids| - 1], m);
      PutByFirst(PutAll(groups, ids[..|ids| - 1], m), ids[|ids| - 1], m);
    }
  }

  lemma {:induction false} GroupedByFirst(sorted: seq<Marker>, bounds: Bounds, focus: Focus)
    requires InOrder(sorted)
    ensures var groups := Grouped(sorted, bounds, focus); ByFirst(groups.order, groups.table)
  {
    hide InOrder, Labels, PutAll, ByFirst, InStep, Before;
    if sorted == [] {
      NothingByFirst();
    } else {
      var before, m := sorted[..|sorted| - 1], sorted[|sorted| - 1];
      assert sorted == before + [m];
      InOrderSnoc(before, m);
      GroupedByFirst(before, bounds, focus);
      GroupsAre(before, bounds, focus);
      var groups := Grouped(before, bounds, focus);
      forall i | 0 <= i < |groups.order|
        ensures HasFirst(groups.order[i], groups.table) && Before(groups.table[groups.order[i]][0], m)
      {
        StepParts(groups);
        ShownIff(before, bounds, focus, groups.order[i]);
        assert groups.table[groups.order[i]][0] in Shown(before, bounds, focus, groups.order[i]);
      }
      PutAllByFirst(groups, Labels(m, bounds, focus), m);
    }
  }

  lemma NothingByFirst()
    ensures ByFirst([], map[])
  {
  }

  lemma {:induction false} WantedByFirst(ids: seq<GroupId>, table: map<GroupId, seq<Marker>>, focus: Focus)
    requires ByFirst(ids, table)
    ensures ByFirst(WantedIds(ids, focus), table)
    ensures forall id :: id in WantedIds(ids, focus) ==> id in ids
  {
    if ids != [] {
      var before, last := ids[..|ids| - 1], ids[|ids| - 1];
      assert ids == before + [last];
      WantedByFirst(before, table, focus);
      forall id | id in WantedIds(before, focus)
        ensures HasFirst(id, table) && Before(table[id][0], table[last][0])
      {
        var i :| 0 <= i < |before| && before[i] == id;
        assert ids[i] == id;
      }
    }
  }

  /** The first marker of the one starts before that of the other, or as early with no greater trace index. */
  predicate StartsNoLater(a: seq<Marker>, b: seq<Marker>) {
    a != [] && b != [] &&
    (a[0].startRange.0 < b[0].startRange.0 ||
     (a[0].startRange.0 == b[0].startRange.0 && a[0].traceIndex <= b[0].traceIndex))
  }

  /** The rows come in the order in which their first markers do. */
  lemma RowsInOrder(markers: seq<Marker>, seek: (Marker, Side) -> Option<real>, focus: Focus, rows: seq<Row>)
    requires RowsOf(rows, Grouped(SortMarkers(markers), BoundsOf(markers), focus), seek, focus)
    ensures forall i :: 0 <= i < |rows| ==> rows[i].markers != []
    ensures forall i, j :: 0 <= i < j < |rows| ==> StartsNoLater(rows[i].markers, rows[j].markers)
  {
    hide Grouped, SortMarkers, BoundsOf, WantedIds, Describes;
    SortSorts(markers);
    var groups := Grouped(SortMarkers(markers), BoundsOf(markers), focus);
    GroupedByFirst(SortMarkers(markers), BoundsOf(markers), focus);
    WantedByFirst(groups.order, groups.table, focus);
    assert forall i :: 0 <= i < |rows| ==> HasFirst(WantedIds(groups.order, focus)[i], groups.table);
  }

  /** The claims of a marker come in the order it names them, each where it is named first; the one asked for last. */
  lemma {:induction false} DistinctInOrder(claims: seq<nat>) returns (at: seq<nat>)
    ensures FirstPlaces(claims, Distinct(claims), at)
  {
    hide FirstPlaces;
    if claims == [] {
      at := [];
      NoPlaces();
    } else {
      var before, n := claims[..|claims| - 1], |claims| - 1;
      at := DistinctInOrder(before);
      DistinctIs(before);
      assert claims == before + [claims[n]];
      PlacesStep(before, claims[n], Distinct(before), at);
      if claims[n] !in Distinct(before) {
        at := at + [n];
      }
    }
  }

  /** The listed claims stand at these places, in order, each where it is named first. */
  predicate FirstPlaces(claims: seq<nat>, listed: seq<nat>, at: seq<nat>) {
    && |at| == |listed| && (forall i :: 0 <= i < |at| ==> at[i] < |claims| && claims[at[i]] == listed[i])
    && (forall i, j :: 0 <= i < j < |at| ==> at[i] < at[j])
    && (forall i, k :: 0 <= i < |at| && 0 <= k < at[i] ==> claims[k] != listed[i])
  }

  lemma NoPlaces()
    ensures FirstPlaces([], [], [])
  {
  }

  lemma PlacesStep(claims: seq<nat>, c: nat, listed: seq<nat>, at: seq<nat>)
    requires FirstPlaces(claims, listed, at) && forall x :: x in listed <==> x in claims
    ensures FirstPlaces(claims + [c], listed, at)
    ensures c !in listed ==> FirstPlaces(claims + [c], listed + [c], at + [|claims|])
  {
    var longer := claims + [c];
    assert forall k | 0 <= k < |claims| :: longer[k] == claims[k];
    assert longer[|claims|] == c;
    if c !in listed {
      forall k | 0 <= k < |claims|
        ensures claims[k] != c
      {
        assert claims[k] in claims;
      }
    }
  }

  lemma LabelsInOrder(m: Marker, bounds: Bounds, focus: Focus) returns (at: seq<nat>)
    ensures var labels := Labels(m, bounds, focus);
            && |at| <= |labels| <= |at| + 1
            && (forall i :: 0 <= i < |at| ==> at[i] < |m.proves| && labels[i] == ClaimGroup(m.proves[at[i]]))
            && FirstPlaces(m.proves, Distinct(m.proves), at)
  {
    hide Distinct;
    at := DistinctInOrder(m.proves);
  }

  // ----- what is counted -----

  function Where(markers: seq<Marker>, ok: bool): set<nat> {
    set i: nat | i < |markers| && markers[i].ok == ok
  }

  lemma {:induction false} CountIs(markers: seq<Marker>, ok: bool)
    ensures CountOk(markers, ok) == |Where(markers, ok)|
  {
    hide Where;
    WhereStep(markers, ok);
    if markers != [] {
      CountIs(markers[..|markers| - 1], ok);
    }
  }

  lemma WhereStep(markers: seq<Marker>, ok: bool)
    ensures if markers == [] then Where(markers, ok) == {}
            else var before, n := Where(markers[..|markers| - 1], ok), |markers| - 1;
                 n !in before && Where(markers, ok) == if markers[n].ok == ok then before + {n} else before
  {
    if markers != [] {
      var init, n := markers[..|markers| - 1], |markers| - 1;
      forall i: nat
        ensures i in Where(markers, ok) <==> i in Where(init, ok) || (i == n && markers[n].ok == ok)
      {
      }
    }
  }

  function Recorded(seek: (Marker, Side) -> Option<real>, markers: seq<Marker>): set<nat> {
    set i: nat | i < |markers| && seek(markers[i], Start) != None && seek(markers[i], End) != None
  }

  lemma {:induction false} RecordedIs(seek: (Marker, Side) -> Option<real>, markers: seq<Marker>)
    ensures CountMeasured(seek, markers) == |Recorded(seek, markers)|
  {
    hide Recorded, Measured;
    RecordedStep(seek, markers);
    if markers != [] {
      RecordedIs(seek, markers[..|markers| - 1]);
    }
  }

  lemma RecordedStep(seek: (Marker, Side) -> Option<real>, markers: seq<Marker>)
    ensures if markers == [] then Recorded(seek, markers) == {}
            else var before, n := Recorded(seek, markers[..|markers| - 1]), |markers| - 1;
                 n !in before && Recorded(seek, markers) == if Measured(seek, markers[n]) then before + {n} else before
  {
    if markers != [] {
      var init, n := markers[..|markers| - 1], |markers| - 1;
      forall i: nat
        ensures i in Recorded(seek, markers) <==> i in Recorded(seek, init) || (i == n && Measured(seek, markers[n]))
      {
      }
    }
  }

  /** A row counts its markers: those that passed, those that failed, and those without a time on both sides. */
  lemma RowCounts(row: Row, seek: (Marker, Side) -> Option<real>)
    requires Describes(row, seek)
    ensures row.passed == |Where(row.markers, true)| && row.failed == |Where(row.markers, false)|
    ensures row.unrecorded == |row.markers| - |Recorded(seek, row.markers)|
  {
    hide SpansMeasured, FirstFailure, NoneMeasured, Where, Recorded;
    CountIs(row.markers, true);
    CountIs(row.markers, false);
    RecordedIs(seek, row.markers);
  }
}
