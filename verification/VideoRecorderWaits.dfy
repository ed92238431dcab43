/** How long the processes of a recording are waited for, look by look, and which of them are seen. */
module VideoRecorderWaits {
  import opened Results
  import opened VideoRecorder
  import opened VideoRecorderRuns

  // ----- which look ends a wait -----

  /** The recording after what happened up to the first `n` looks. */
  function At(r: Recording, looks: seq<Look>, n: nat): Recording
    requires n <= |looks|
  {
    if n == 0 then r else Changes(At(r, looks, n - 1), looks[n - 1].happened)
  }

  /** The `k`-th look lists the process of segment `p`: it runs, and nobody has heard of its end. */
  predicate Sees(r: Recording, looks: seq<Look>, k: nat, p: nat) {
    && k < |looks| && p < |r.segments| && r.segments[p].ended.Running? && looks[k].answer.Listed?
    && p < |At(r, looks, k + 1).device| && At(r, looks, k + 1).device[p].Present?
  }

  /** The `k`-th look ends the wait: after ten seconds, by throwing, or by listing nothing from `quietFrom` on. */
  ghost predicate EndsBy(r: Recording, quietFrom: nat, looks: seq<Look>, k: nat, ending: Ending) {
    k < |looks| &&
    match ending
    case NotNeeded => false
    case TimedOut => looks[k].elapsedMs >= 10000
    case WaitThrew => looks[k].elapsedMs < 10000 && looks[k].answer.CheckThrows?
    case Quiet(listed) =>
      && quietFrom <= looks[k].elapsedMs < 10000 && !looks[k].answer.CheckThrows? && listed == looks[k].answer.Listed?
      && forall p: nat :: !Sees(r, looks, k, p)
  }

  /** The first `n` looks do not end the wait; the next one does, or there is none and the time is up. */
  ghost predicate EndsAfter(r: Recording, quietFrom: nat, looks: seq<Look>, n: nat, wait: Wait) {
    && n <= |looks| && (forall k: nat, ending :: k < n ==> !EndsBy(r, quietFrom, looks, k, ending))
    && (if n < |looks| then EndsBy(r, quietFrom, looks, n, wait.ending) else wait.ending.TimedOut?)
    && wait.rec == At(r, looks, if n < |looks| then n + 1 else n)
    && forall p: nat :: p in wait.seen <==> exists k: nat :: k < n && Sees(r, looks, k, p)
  }

  lemma {:induction false} AtNext(r: Recording, looks: seq<Look>, n: nat)
    requires n < |looks|
    ensures At(r, looks, n + 1) == At(Changes(r, looks[0].happened), looks[1..], n)
  {
    hide Changes;
    if n > 0 {
      AtNext(r, looks, n - 1);
    }
  }

  lemma SeesNext(r: Recording, looks: seq<Look>, k: nat, p: nat)
    requires looks != []
    ensures Sees(r, looks, k + 1, p) <==> Sees(Changes(r, looks[0].happened), looks[1..], k, p)
  {
    hide Changes, At;
    OnlyChanged(r, looks[0].happened);
    if k + 1 < |looks| {
      AtNext(r, looks, k + 1);
    }
  }

  lemma EndsNext(r: Recording, quietFrom: nat, looks: seq<Look>, k: nat, ending: Ending)
    requires looks != []
    ensures EndsBy(r, quietFrom, looks, k + 1, ending)
       <==> EndsBy(Changes(r, looks[0].happened), quietFrom, looks[1..], k, ending)
  {
    hide Changes, Sees;
    if k + 1 < |looks| {
      assert looks[k + 1] == looks[1..][k];
    }
    var next := k + 1;
    forall p: nat
      ensures Sees(r, looks, next, p) <==> Sees(Changes(r, looks[0].happened), looks[1..], k, p)
    {
      SeesNext(r, looks, k, p);
    }
  }

  lemma {:induction false} SeesOwned(r: Recording, looks: seq<Look>, p: nat)
    requires looks != []
    ensures var now := Changes(r, looks[0].happened);
            Sees(r, looks, 0, p) <==> p in Pids(now, looks[0].answer)
  {
    hide Changes;
    var now := Changes(r, looks[0].happened);
    OnlyChanged(r, looks[0].happened);
    OwnedIff(now, |now.segments|, p);
    assert At(r, looks, 1) == Changes(At(r, looks, 0), looks[0].happened);
  }

  function WithSeen(now: Recording, look: Look, rest: Wait): Wait {
    rest.(seen := (set p | p in Pids(now, look.answer)) + rest.seen)
  }

  /** The first look ends the wait exactly if it is one of the three. */
  lemma FirstLook(r: Recording, quietFrom: nat, looks: seq<Look>)
    requires looks != []
    ensures var now, look := Changes(r, looks[0].happened), looks[0];
            var over := look.elapsedMs >= 10000 || look.answer.CheckThrows?
                        || (Pids(now, look.answer) == [] && look.elapsedMs >= quietFrom);
            && (over <==> exists ending :: EndsBy(r, quietFrom, looks, 0, ending))
            && (over ==> EndsAfter(r, quietFrom, looks, 0, Waited(r, quietFrom, looks)))
            && (!over ==> Waited(r, quietFrom, looks) == WithSeen(now, look, Waited(now, quietFrom, looks[1..])))
  {
    hide Changes, Pids, Sees;
    var now, look := Changes(r, looks[0].happened), looks[0];
    var pids := Pids(now, look.answer);
    forall p: nat
      ensures Sees(r, looks, 0, p) <==> p in pids
    {
      SeesOwned(r, looks, p);
    }
    assert pids == [] || pids[0] in pids;
    assert At(r, looks, 0) == r && At(r, looks, 1) == now;
    if look.elapsedMs >= 10000 {
      assert EndsBy(r, quietFrom, looks, 0, TimedOut);
    } else if look.answer.CheckThrows? {
      assert EndsBy(r, quietFrom, looks, 0, WaitThrew);
    } else if pids == [] && look.elapsedMs >= quietFrom {
      assert EndsBy(r, quietFrom, looks, 0, Quiet(look.answer.Listed?));
    }
  }

  lemma {:induction false} WaitIs(r: Recording, quietFrom: nat, looks: seq<Look>) returns (n: nat)
    ensures EndsAfter(r, quietFrom, looks, n, Waited(r, quietFrom, looks))
    decreases |looks|
  {
    hide Changes, EndsBy, Pids, Sees;
    if looks == [] {
      n := 0;
    } else {
      FirstLook(r, quietFrom, looks);
      var now := Changes(r, looks[0].happened);
      if ending :| EndsBy(r, quietFrom, looks, 0, ending) {
        n := 0;
      } else {
        hide Waited;
        n := WaitIs(now, quietFrom, looks[1..]);
        WaitOneMore(r, quietFrom, looks, n);
        n := n + 1;
      }
    }
  }

  lemma WaitOneMore(r: Recording, quietFrom: nat, looks: seq<Look>, n: nat)
    requires looks != [] && forall ending :: !EndsBy(r, quietFrom, looks, 0, ending)
    requires var now := Changes(r, looks[0].happened);
             && EndsAfter(now, quietFrom, looks[1..], n, Waited(now, quietFrom, looks[1..]))
    ensures EndsAfter(r, quietFrom, looks, n + 1, Waited(r, quietFrom, looks))
  {
    hide Changes, EndsBy, Pids, Sees;
    FirstLook(r, quietFrom, looks);
    hide Waited;
    var now, rest := Changes(r, looks[0].happened), looks[1..];
    forall k: nat, ending
      ensures k == 0 || (EndsBy(r, quietFrom, looks, k, ending) <==> EndsBy(now, quietFrom, rest, k - 1, ending))
    {
      if k > 0 {
        EndsNext(r, quietFrom, looks, k - 1, ending);
      }
    }
    AtNext(r, looks, if n < |rest| then n + 1 else n);
    var wait, tail := Waited(r, quietFrom, looks), Waited(now, quietFrom, rest);
    forall p: nat
      ensures p in wait.seen <==> exists k: nat :: k < n + 1 && Sees(r, looks, k, p)
    {
      SeesOwned(r, looks, p);
      SeesSplit(r, looks, n, p);
      assert p in tail.seen <==> exists k: nat :: k < n && Sees(now, rest, k, p);
    }
  }

  lemma SeesSplit(r: Recording, looks: seq<Look>, n: nat, p: nat)
    requires looks != []
    ensures var now := Changes(r, looks[0].happened);
            (exists k: nat :: k < n + 1 && Sees(r, looks, k, p))
            <==> Sees(r, looks, 0, p) || exists k: nat :: k < n && Sees(now, looks[1..], k, p)
  {
    hide Changes, Sees;
    var now := Changes(r, looks[0].happened);
    if k: nat :| k < n + 1 && Sees(r, looks, k, p) {
      if k > 0 {
        SeesNext(r, looks, k - 1, p);
        assert Sees(now, looks[1..], k - 1, p);
      }
    }
    if k: nat :| k < n && Sees(now, looks[1..], k, p) {
      SeesNext(r, looks, k, p);
      assert Sees(r, looks, k + 1, p);
    }
  }

  // ----- stopping the recorders -----

  predicate LiveAt(r: Recording, n: nat) {
    n < |r.segments| && r.segments[n].ended.Running?
  }

  /** A segment is live whose pid is not known. */
  predicate Coming(r: Recording) {
    exists n :: 0 <= n < |r.segments| && LiveAt(r, n) && !r.segments[n].pid
  }

  /** Every live segment is marked killed, and nothing else is changed about the segments. */
  predicate LiveKilled(segments: seq<Segment>, after: seq<Segment>) {
    && |after| == |segments|
    && forall i :: 0 <= i < |segments| ==>
         && after[i].pid == segments[i].pid && after[i].ended == segments[i].ended
         && after[i].starting == segments[i].starting
         && (after[i].killed <==> segments[i].killed || segments[i].ended.Running?)
  }

  /** The wait without the marks on the segments. */
  function Unmarked(r: Recording, wait: Wait): Wait {
    wait.(rec := wait.rec.(segments := r.segments))
  }

  lemma {:induction false} SegmentsApart(r: Recording, segments: seq<Segment>, changes: seq<Change>)
    ensures Changes(r.(segments := segments), changes) == Changes(r, changes).(segments := segments)
  {
    hide Changed;
    if changes != [] {
      SegmentsApart(r, segments, changes[..|changes| - 1]);
      OneApart(Changes(r, changes[..|changes| - 1]), segments, changes[|changes| - 1]);
    }
  }

  lemma OneApart(r: Recording, segments: seq<Segment>, change: Change)
    ensures Changed(r.(segments := segments), change) == Changed(r, change).(segments := segments)
  {
  }

  lemma {:induction false} AtApart(r: Recording, segments: seq<Segment>, looks: seq<Look>, n: nat)
    requires n <= |looks|
    ensures At(r.(segments := segments), looks, n) == At(r, looks, n).(segments := segments)
  {
    hide Changes;
    if n > 0 {
      AtApart(r, segments, looks, n - 1);
      SegmentsApart(At(r, looks, n - 1), segments, looks[n - 1].happened);
    }
  }

  lemma EndsApart(r: Recording, segments: seq<Segment>, quietFrom: nat, looks: seq<Look>, n: nat, wait: Wait)
    requires LiveKilled(r.segments, segments)
    requires EndsAfter(r.(segments := segments), quietFrom, looks, n, wait)
    ensures EndsAfter(r, quietFrom, looks, n, Unmarked(r, wait))
  {
    hide At;
    var killed := r.(segments := segments);
    forall k: nat, p: nat
      ensures Sees(r, looks, k, p) <==> Sees(killed, looks, k, p)
    {
      if k < |looks| {
        AtApart(r, segments, looks, k + 1);
      }
    }
    forall k: nat, ending
      ensures EndsBy(r, quietFrom, looks, k, ending) <==> EndsBy(killed, quietFrom, looks, k, ending)
    {
    }
    var last := if n < |looks| then n + 1 else n;
    AtApart(r, segments, looks, last);
    AtSegments(r, looks, last);
  }

  lemma {:induction false} AtSegments(r: Recording, looks: seq<Look>, n: nat)
    requires n <= |looks|
    ensures At(r, looks, n).segments == r.segments
  {
    hide Changes;
    if n > 0 {
      AtSegments(r, looks, n - 1);
      OnlyChanged(At(r, looks, n - 1), looks[n - 1].happened);
    }
  }

  /**
   Stopping the recorders, look by look. Nothing is waited for where no segment is live; otherwise the first look ends
   the wait that comes after ten seconds, throws, or lists no process: one second after the start at the earliest, where
   the pid of a live segment is not known yet.
   */
  lemma StopIs(r: Recording, looks: seq<Look>) returns (n: nat)
    ensures var wait := Stopped(r, looks);
            && LiveKilled(r.segments, wait.rec.segments)
            && if exists p :: LiveAt(r, p)
               then EndsAfter(r, if Coming(r) then 1000 else 0, looks, n, Unmarked(r, wait))
               else wait.ending == NotNeeded && wait.seen == {} && wait.rec == r.(segments := wait.rec.segments)
  {
    hide Waited, EndsAfter;
    OnlyStopped(r, looks);
    var segments := KillLive(r.segments);
    assert AnyLive(r) <==> exists p :: LiveAt(r, p) by {
      if p :| 0 <= p < |r.segments| && r.segments[p].ended.Running? {
        assert LiveAt(r, p);
      }
    }
    GraceIs(r);
    n := 0;
    if AnyLive(r) {
      n := WaitIs(r.(segments := segments), Grace(r), looks);
      EndsApart(r, segments, Grace(r), looks, n, Stopped(r, looks));
    }
  }

  lemma GraceIs(r: Recording)
    ensures Grace(r) == if Coming(r) then 1000 else 0
  {
    if p :| 0 <= p < |r.segments| && r.segments[p].ended.Running? && !r.segments[p].pid {
      assert LiveAt(r, p);
    }
  }

  /** A signal marks the recording and stops its recorders; with a listener of its own, no file is touched by it. */
  lemma SignalIs(r: Recording, listeners: bool, c: Cleanup)
    ensures var after, wait := InterruptedBy(r, listeners, c), Stopped(Marked(r), c.looks);
            && after.stopping && after.interruption == Some(Signalled) && !after.signalGuards
            && after.localFiles == r.localFiles && LiveKilled(r.segments, after.segments)
            && (listeners ==> after.device == wait.rec.device && after.remote == wait.rec.remote
                              && after.disk == r.disk && after.exitGuard == r.exitGuard)
  {
    hide Stopped, Unlinked, StopThrows, Stuck, AtRemoval;
    OnlyStopped(Marked(r), c.looks);
    AtRemovalOnward(Marked(r), c);
  }

  /** The looks of the first second that do not throw, up to the `k`-th. */
  predicate InGrace(looks: seq<Look>, k: nat) {
    k < |looks| && forall j :: 0 <= j <= k ==> looks[j].elapsedMs < 1000 && !looks[j].answer.CheckThrows?
  }

  /** While the pid of a live segment is not known, no wait is over in the first second, whatever is listed. */
  lemma GraceIsWaitedOut(r: Recording, looks: seq<Look>, k: nat) returns (n: nat)
    requires Coming(r) && InGrace(looks, k)
    ensures k < n <= |looks|
    ensures EndsAfter(r, 1000, looks, n, Unmarked(r, Stopped(r, looks)))
    ensures Stopped(r, looks).ending.Quiet? ==> n < |looks| && looks[n].elapsedMs >= 1000
  {
    hide Stopped, At, Sees;
    var p: nat :| LiveAt(r, p) && !r.segments[p].pid;
    n := StopIs(r, looks);
  }

  /** So a process that a look of the first second lists is interrupted. */
  lemma SeenInGrace(r: Recording, looks: seq<Look>, k: nat, p: nat)
    requires Coming(r) && InGrace(looks, k) && Sees(r, looks, k, p)
    ensures p in Stopped(r, looks).seen
  {
    hide Stopped, Sees, InGrace, Coming, EndsBy, At;
    var n := GraceIsWaitedOut(r, looks, k);
  }

  /**
   And a recorder that comes up in the first second leaves nothing: an ending whose wait was quiet, with the processes
   listed, is clean exactly if the removal works or nothing was there.
   */
  lemma UpInGraceIsClean(s: System, e: Event, k: nat)
    requires Invariant(s) && EndsNow(s, e) && s.rec.segments != [] && CleanupOf(e).Some?
    requires var r, c, t := Leaving(s, e), CleanupOf(e).value, |s.rec.segments| - 1;
             && Stopped(r, c.looks).ending == Quiet(true) && LiveAt(r, t) && !r.segments[t].pid
             && InGrace(c.looks, k) && !Comes(At(r, c.looks, k + 1), t, Absent)
    ensures StaysClean(Step(s, e)) <==>
              CleanupOf(e).value.removes || AtRemoval(Leaving(s, e), CleanupOf(e).value).remote == {}
  {
    hide Invariant, EndsNow, Leaving, Step, StaysClean, Stopped, AtRemoval, At, Sees, EndsBy;
    WaitDecides(s, e);
    var r, c, t := Leaving(s, e), CleanupOf(e).value, |s.rec.segments| - 1;
    assert Coming(r);
    var n := GraceIsWaitedOut(r, c.looks, k);
    StaysUp(r, c.looks, k + 1, n + 1, t);
  }

  lemma {:induction false} StaysUp(r: Recording, looks: seq<Look>, m: nat, n: nat, p: nat)
    requires m <= n <= |looks| && !Comes(At(r, looks, m), p, Absent)
    ensures !Comes(At(r, looks, n), p, Absent)
  {
    hide Changes;
    if m < n {
      StaysUp(r, looks, m, n - 1, p);
      ComesOnce(At(r, looks, n - 1), looks[n - 1].happened, p);
    }
  }

  /** A process comes up once: it is never absent again, and what has finished does not run again. */
  lemma {:induction false} ComesOnce(r: Recording, changes: seq<Change>, p: nat)
    ensures var before, after := r.device, Changes(r, changes).device;
            && |after| == |before|
            && (p < |before| && !before[p].Absent? ==> !after[p].Absent?)
            && (p < |before| && before[p].Finished? ==> after[p].Finished?)
  {
    if changes != [] {
      ComesOnce(r, changes[..|changes| - 1], p);
    }
  }

  // ----- the run that shows it -----

  /** The process comes up a tenth of a second after the signal, is interrupted, and ends. */
  const UP_IN_GRACE := Cleanup([Look([], 0, Listed)] + [Look([Starts(0)], 100, Listed)]
                               + [Look([Ends(0)], 200, Listed)] + [Look([], 1000, Listed)], [], true, {})

  lemma LateStartCleansUp()
    ensures var s := Run([Signal(false, UP_IN_GRACE)]);
            && s.phase.Dead? && StaysClean(s) && 0 in Stopped(Marked(LAUNCHED.rec), UP_IN_GRACE.looks).seen
  {
    hide Step, StaysClean, Stopped, RunFrom, Invariant;
    var r := Marked(LAUNCHED.rec);
    RunNone(LAUNCHED);
    RunOne(LAUNCHED, [], Signal(false, UP_IN_GRACE));
    assert [] + [Signal(false, UP_IN_GRACE)] == [Signal(false, UP_IN_GRACE)];
    EveryRunKeeps([Signal(false, UP_IN_GRACE)]);
    WaitsForIt(r);
    InterruptedLate();
    StaysCleanIff(Step(LAUNCHED, Signal(false, UP_IN_GRACE)));
  }

  lemma UpInGrace(r: Recording)
    requires r.device == [Absent]
    ensures var looks := UP_IN_GRACE.looks;
            && |looks| == 4 && At(r, looks, 1) == r && At(r, looks, 2) == r.(device := [Present])
            && At(r, looks, 3) == At(r, looks, 4) == r.(device := [Finished])
  {
    hide Changes;
    var looks := UP_IN_GRACE.looks;
    var up, down := r.(device := [Present]), r.(device := [Finished]);
    OneChange(r, Starts(0));
    OneChange(up, Ends(0));
    NoChange(r);
    NoChange(down);
    assert [Absent][0 := Present] == [Present] && [Present][0 := Finished] == [Finished];
    assert At(r, looks, 0) == r;
  }

  lemma NoChange(r: Recording)
    ensures Changes(r, []) == r
  {
  }

  lemma OneChange(r: Recording, change: Change)
    ensures Changes(r, [change]) == Changed(r, change)
  {
    assert [change][..0] == [] && Changes(r, []) == r;
  }

  lemma WaitsForIt(r: Recording)
    requires r.device == [Absent] && r.segments == [SPAWNED]
    ensures var wait := Stopped(r, UP_IN_GRACE.looks);
            wait.ending == Quiet(true) && 0 in wait.seen && wait.rec.device == [Finished] && wait.rec.remote == r.remote
  {
    hide At, Stopped;
    var looks := UP_IN_GRACE.looks;
    UpInGrace(r);
    assert LiveAt(r, 0);
    SeenInGrace(r, looks, 1, 0);
    assert forall p: nat :: !Sees(r, looks, 3, p);
    assert EndsBy(r, 1000, looks, 3, Quiet(true));
    var n := GraceIsWaitedOut(r, looks, 2);
  }

  lemma InterruptedLate()
    ensures var s := Step(LAUNCHED, Signal(false, UP_IN_GRACE));
            s.phase.Dead? && s.rec.remote == {} && s.rec.device == [Finished]
  {
    hide Stopped, Unlinked;
    WaitsForIt(Marked(LAUNCHED.rec));
  }
}
