/** A recorded fingerprint: written beside its marker, moved into place, and taken back when the inputs drift. */
module FingerprintBaseline {
  import opened Results

  /** A file holds a baseline, or something that is none: torn, edited, or of another version. */
  datatype File = Baseline(fingerprint: nat) | Torn

  /** A state the marker was given, by this writer or by another. */
  datatype Change = Change(marker: Option<File>, own: bool)

  /** The marker, the temporary file, and every state the marker was given. */
  datatype Files = Files(marker: Option<File>, temporary: Option<File>, given: seq<Change>)

  datatype Read = Value(fingerprint: nat) | ReadThrows

  datatype Outcome = Returned(recorded: bool) | Threw

  datatype Status = Current | Missing | Changed

  /** What the world answers: the three reads of the inputs, and whether each file operation works. */
  datatype World = World(first: Read, second: Read, third: Read, makes: bool, writes: bool, renames: bool,
                         removes: bool)

  /** What another writer makes of the marker just before the rename, the last read, the check and the removal. */
  datatype Others = Others(beforeRename: Option<Option<File>>, beforeRead: Option<Option<File>>,
                           beforeCheck: Option<Option<File>>, beforeRemoval: Option<Option<File>>)

  const NOBODY := Others(None, None, None, None)

  function Given(f: Files, change: Change): Files {
    f.(marker := change.marker, given := f.given + [change])
  }

  function Meddled(f: Files, other: Option<Option<File>>): Files {
    if other.None? then f else Given(f, Change(other.value, false))
  }

  function ReadBaseline(marker: Option<File>): Option<nat> {
    if marker.Some? && marker.value.Baseline? then Some(marker.value.fingerprint) else None
  }

  function Check(marker: Option<File>, fingerprint: nat): Status {
    match ReadBaseline(marker)
    case None => Missing
    case Some(found) => if found == fingerprint then Current else Changed
  }

  /** The `finally`: the temporary file goes, unless its removal fails. */
  function Finally(f: Files, outcome: Outcome, w: World): (Files, Outcome) {
    if f.temporary.Some? && !w.removes then (f, Threw) else (f.(temporary := None), outcome)
  }

  function Checked(read: Read, expected: nat): Option<Outcome> {
    match read
    case ReadThrows => Some(Threw)
    case Value(found) => if found == expected then None else Some(Returned(false))
  }

  function TakenBack(f: Files, expected: nat, w: World, others: Others): (Files, Outcome) {
    var seen := Meddled(f, others.beforeCheck);
    if ReadBaseline(seen.marker) != Some(expected) then (seen, Returned(false))
    else
      var now := Meddled(seen, others.beforeRemoval);
      if now.marker.None? then (now, Returned(false))
      else if !w.removes then (now, Threw)
      else (Given(now, Change(None, true)), Returned(false))
  }

  /** The `try`: write, read again, move into place, read once more. */
  function Tried(f: Files, expected: nat, w: World, others: Others): (Files, Outcome) {
    var written := f.(temporary := Some(Baseline(expected)));
    if !w.writes then (f.(temporary := Some(Torn)), Threw)
    else if Checked(w.second, expected).Some? then (written, Checked(w.second, expected).value)
    else
      var ready := Meddled(written, others.beforeRename);
      if !w.renames then (ready, Threw)
      else
        var renamed := Meddled(Given(ready, Change(ready.temporary, true)).(temporary := None), others.beforeRead);
        if w.third.ReadThrows? then (renamed, Threw)
        else if w.third.fingerprint != expected then TakenBack(renamed, expected, w, others)
        else (renamed, Returned(true))
  }

  function Recorded(f: Files, expected: nat, w: World, others: Others): (Files, Outcome) {
    if Checked(w.first, expected).Some? then (f, Checked(w.first, expected).value)
    else if !w.makes then (f, Threw)
    else
      var (after, outcome) := Tried(f, expected, w, others);
      Finally(after, outcome, w)
  }

  class BaselineFiles {
    var marker: Option<File>
    var temporary: Option<File>
    /** Every state the marker was given by this writer. */
    var given: seq<Change>

    function State(): Files
      reads this
    {
      Files(marker, temporary, given)
    }

    constructor (marker: Option<File>)
      ensures State() == Files(marker, None, [])
    {
      this.marker, temporary, given := marker, None, [];
    }

    method RemoveTemporary(w: World) returns (threw: bool)
      modifies this`temporary
      ensures threw == (old(temporary).Some? && !w.removes)
      ensures temporary == if threw then old(temporary) else None
    {
      threw := temporary.Some? && !w.removes;
      if !threw {
        temporary := None;
      }
    }

    /** Writes the temporary file, reads the inputs again, moves it into place, and reads them once more. */
    method WriteAndVerify(expected: nat, w: World) returns (outcome: Outcome)
      modifies this
      ensures (State(), outcome) == Tried(old(State()), expected, w, NOBODY)
    {
      temporary := Some(Torn);
      if !w.writes {
        return Threw;
      }
      temporary := Some(Baseline(expected));
      var drift := Checked(w.second, expected);
      if drift.Some? {
        return drift.value;
      }
      if !w.renames {
        return Threw;
      }
      marker, temporary, given := temporary, None, given + [Change(temporary, true)];
      if w.third.ReadThrows? {
        return Threw;
      }
      if w.third.fingerprint != expected {
        if ReadBaseline(marker) == Some(expected) {
          if !w.removes {
            return Threw;
          }
          marker, given := None, given + [Change(None, true)];
        }
        return Returned(false);
      }
      outcome := Returned(true);
    }

    method Record(expected: nat, w: World) returns (outcome: Outcome)
      modifies this
      ensures (State(), outcome) == Recorded(old(State()), expected, w, NOBODY)
    {
      var drift := Checked(w.first, expected);
      if drift.Some? {
        return drift.value;
      }
      if !w.makes {
        return Threw;
      }
      outcome := WriteAndVerify(expected, w);
      var threw := RemoveTemporary(w);
      if threw {
        outcome := Threw;
      }
    }

    method CheckFingerprint(fingerprint: nat) returns (status: Status)
      ensures status == Current <==> marker == Some(Baseline(fingerprint))
      ensures status == Missing <==> marker.None? || marker.value.Torn?
    {
      if marker.None? || marker.value.Torn? {
        return Missing;
      }
      status := if marker.value.fingerprint == fingerprint then Current else Changed;
    }
  }

  predicate Reads(read: Read, expected: nat) {
    read == Value(expected)
  }

  /** The inputs were seen to drift, or could not be read, before anything reached the marker. */
  predicate EarlyDrift(w: World, expected: nat) {
    !Reads(w.first, expected) || !Reads(w.second, expected)
  }

  predicate Drifted(read: Read, expected: nat) {
    read.Value? && read.fingerprint != expected
  }

  /**
   Something of the way throws: one of the reads up to the first drift, making the directory, writing, moving, or a
   removal that a drift calls for.
   */
  predicate RecordThrows(expected: nat, w: World) {
    if !Reads(w.first, expected) then w.first.ReadThrows?
    else
      || !w.makes || !w.writes
      || (if !Reads(w.second, expected) then w.second.ReadThrows? || !w.removes
          else !w.renames || w.third.ReadThrows? || (Drifted(w.third, expected) && !w.removes))
  }

  /**
   One writer. `true` is returned exactly if all three reads match and every operation works; then the
   marker holds the baseline. `false` leaves the marker as it was, or none. An exception leaves it as it was, or
   recorded with the last read or the removal failed. The marker is never given anything torn, and no
   temporary file survives unless its removal fails.
   */
  lemma OneWriter(marker: Option<File>, expected: nat, w: World)
    ensures var (after, outcome) := Recorded(Files(marker, None, []), expected, w, NOBODY);
            && (outcome == Returned(true) <==>
                  && Reads(w.first, expected) && Reads(w.second, expected) && Reads(w.third, expected)
                  && w.makes && w.writes && w.renames)
            && (outcome == Returned(true) ==> after.marker == Some(Baseline(expected)))
            && (outcome == Returned(false) ==> after.marker == if EarlyDrift(w, expected) then marker else None)
            && (outcome == Threw ==>
                  || after.marker == marker
                  || (after.marker == Some(Baseline(expected)) && (w.third.ReadThrows? || !w.removes)))
            && (outcome == Threw <==> RecordThrows(expected, w))
            && (forall c :: c in after.given ==> c.own && (c.marker == None || c.marker == Some(Baseline(expected))))
            && (w.removes || outcome.Returned? ==> after.temporary == None)
  {
  }

  /** A drift seen by the read before the write or the one before the rename. */
  predicate SeenBeforeRename(w: World, expected: nat) {
    Drifted(w.first, expected) || (Reads(w.first, expected) && w.makes && w.writes && Drifted(w.second, expected))
  }

  /** A drift seen by the read after the rename. */
  predicate SeenAfterRename(w: World, expected: nat) {
    && Reads(w.first, expected) && Reads(w.second, expected) && w.makes && w.writes && w.renames
    && Drifted(w.third, expected)
  }

  /**
   A drift is said to leave no baseline for the drifted value behind. In every run that sees one, whatever
   it returns or throws, the value still reads as current exactly if the drift was seen before the rename and
   the marker held that very baseline already, or it was seen after the rename and the removal of the marker failed.
   */
  lemma BaselineLeftByDrift(marker: Option<File>, expected: nat, w: World)
    requires SeenBeforeRename(w, expected) || SeenAfterRename(w, expected)
    ensures var (after, outcome) := Recorded(Files(marker, None, []), expected, w, NOBODY);
            && outcome != Returned(true)
            && (Check(after.marker, expected) == Current <==>
                  if SeenBeforeRename(w, expected) then marker == Some(Baseline(expected)) else !w.removes)
  {
  }

  /** The two ways: a drift seen at once beside a marker recorded before, and one seen last when the removal fails. */
  lemma DriftLeavesBaseline(expected: nat, other: nat)
    requires expected != other
    ensures var early := World(Value(other), Value(expected), Value(expected), true, true, true, true);
            var (after, outcome) := Recorded(Files(Some(Baseline(expected)), None, []), expected, early, NOBODY);
            SeenBeforeRename(early, expected) && outcome == Returned(false) && Check(after.marker, expected) == Current
    ensures var late := World(Value(expected), Value(expected), Value(other), true, true, true, false);
            var (after, outcome) := Recorded(Files(None, None, []), expected, late, NOBODY);
            SeenAfterRename(late, expected) && outcome == Threw && Check(after.marker, expected) == Current
  {
  }

  /** Whoever records and is told `true` finds the baseline current, and every other fingerprint changed. */
  lemma RecordThenCheck(marker: Option<File>, expected: nat, w: World, other: nat)
    ensures var (after, outcome) := Recorded(Files(marker, None, []), expected, w, NOBODY);
            outcome == Returned(true) ==> Check(after.marker, other) == if other == expected then Current else Changed
  {
    OneWriter(marker, expected, w);
  }

  /** With other writers, `true` means the marker holds the baseline exactly if nobody replaced it after the rename. */
  lemma OtherWriters(marker: Option<File>, expected: nat, w: World, others: Others)
    ensures var (after, outcome) := Recorded(Files(marker, None, []), expected, w, others);
            outcome == Returned(true) ==>
              (after.marker == Some(Baseline(expected)) <==>
                  others.beforeRead.None? || others.beforeRead.value == Some(Baseline(expected)))
  {
  }

  /** This call ends by removing a marker that another writer had made. */
  predicate RemovesAnothers(given: seq<Change>) {
    && |given| >= 2 && given[|given| - 1] == Change(None, true)
    && given[|given| - 2].marker.Some? && !given[|given| - 2].own
  }

  /** What the check of the marker sees, after the rename and the other writers since. */
  function SeenByCheck(expected: nat, others: Others): Option<File> {
    if others.beforeCheck.Some? then others.beforeCheck.value
    else if others.beforeRead.Some? then others.beforeRead.value
    else Some(Baseline(expected))
  }

  /**
   Exactly when another writer loses its baseline: the last read saw a drift, the check saw the baseline to take
   back, and the removal worked on a marker that another writer had made since the rename, before the check of the very
   same baseline or after it of any. Then the marker is gone, and the call returns `false`.
   */
  lemma AnothersIsRemovedIff(marker: Option<File>, expected: nat, w: World, others: Others)
    ensures var (after, outcome) := Recorded(Files(marker, None, []), expected, w, others);
            && (RemovesAnothers(after.given) <==>
                 && SeenAfterRename(w, expected) && SeenByCheck(expected, others) == Some(Baseline(expected))
                 && w.removes
                 && if others.beforeRemoval.Some? then others.beforeRemoval.value.Some?
                    else others.beforeCheck.Some? || others.beforeRead.Some?)
            && (RemovesAnothers(after.given) ==> after.marker == None && outcome == Returned(false))
  {
  }

  /** A second writer can lose its baseline: recorded between the check of the marker and its removal, it is removed. */
  lemma SecondWriterLoses(mine: nat, theirs: nat)
    requires mine != theirs
    ensures var w := World(Value(mine), Value(mine), Value(theirs), true, true, true, true);
            var others := Others(None, None, None, Some(Some(Baseline(theirs))));
            var (after, outcome) := Recorded(Files(None, None, []), mine, w, others);
            && after.marker == None && outcome == Returned(false) && RemovesAnothers(after.given)
            && Change(Some(Baseline(theirs)), false) in after.given
  {
    AnothersIsRemovedIff(None, mine, World(Value(mine), Value(mine), Value(theirs), true, true, true, true),
      Others(None, None, None, Some(Some(Baseline(theirs)))));
    var given := [] + [Change(Some(Baseline(mine)), true)] + [Change(Some(Baseline(theirs)), false)]
      + [Change(None, true)];
    assert given[1] == Change(Some(Baseline(theirs)), false);
  }

  // ----- many records by one writer -----

  datatype Call = Call(expected: nat, world: World)

  function MarkerAfter(marker: Option<File>, calls: seq<Call>): Option<File> {
    if calls == [] then marker
    else
      var last := calls[|calls| - 1];
      Recorded(Files(MarkerAfter(marker, calls[..|calls| - 1]), None, []), last.expected, last.world, NOBODY).0.marker
  }

  /** The call moved a baseline into place: its first two reads matched and its file operations worked. */
  predicate Moves(c: Call) {
    !EarlyDrift(c.world, c.expected) && c.world.makes && c.world.writes && c.world.renames
  }

  /** And the baseline stayed: the last read matched, or failed, or the removal did. */
  predicate Stays(c: Call) {
    Reads(c.world.third, c.expected) || c.world.third.ReadThrows? || !c.world.removes
  }

  /** Call `i` is the last one that moved a baseline into place. */
  predicate LastMove(calls: seq<Call>, i: int) {
    0 <= i < |calls| && Moves(calls[i]) && forall j :: i < j < |calls| ==> !Moves(calls[j])
  }

  lemma LastMoveSnoc(calls: seq<Call>, last: Call, i: int)
    ensures LastMove(calls + [last], i) <==> if Moves(last) then i == |calls| else LastMove(calls, i)
  {
    hide Moves;
    var all := calls + [last];
    assert all[|calls|] == last;
    assert forall j :: 0 <= j < |calls| ==> all[j] == calls[j];
  }

  /**
   A fingerprint reads as current exactly if the last call that moved a baseline into place moved that one, and it
   stayed.
   */
  lemma {:induction false} CurrentMeansRecorded(calls: seq<Call>, fingerprint: nat)
    ensures Check(MarkerAfter(None, calls), fingerprint) == Current <==>
              exists i :: LastMove(calls, i) && calls[i].expected == fingerprint && Stays(calls[i])
  {
    hide Recorded, Moves, LastMove;
    if calls == [] {
      assert forall i :: !LastMove([], i) by {
        NoLastMove();
      }
    } else {
      var before, last := calls[..|calls| - 1], calls[|calls| - 1];
      CurrentMeansRecorded(before, fingerprint);
      OneCall(MarkerAfter(None, before), last);
      assert calls == before + [last];
      forall i: int
        ensures LastMove(calls, i) <==> if Moves(last) then i == |before| else LastMove(before, i)
        ensures LastMove(before, i) ==> 0 <= i < |before| && calls[i] == before[i]
      {
        LastMoveSnoc(before, last, i);
        LastMoveInside(before, i);
      }
      assert LastMove(calls, |before|) <==> Moves(last);
    }
  }

  lemma NoLastMove()
    ensures forall i :: !LastMove([], i)
  {
  }

  lemma LastMoveInside(calls: seq<Call>, i: int)
    ensures LastMove(calls, i) ==> 0 <= i < |calls|
  {
  }

  lemma OneCall(marker: Option<File>, c: Call)
    ensures Recorded(Files(marker, None, []), c.expected, c.world, NOBODY).0.marker ==
              if !Moves(c) then marker else if Stays(c) then Some(Baseline(c.expected)) else None
  {
  }
}
