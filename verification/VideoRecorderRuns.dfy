/** Every interleaving of the recorder's callbacks: who may spawn, who may be live, and what is left on disk. */
module VideoRecorderRuns {
  import opened Results
  import opened VideoRecorder

  /**
   Where the caller stands: `start` pending, recording, `stop` waiting for the tail or for its report, and the
   ends. A process whose signal handler threw is crashing: only its exit listener still runs.
   */
  datatype Phase =
    | Starting
    | Underway
    | Stopping
    | Reporting(recorded: seq<nat>)
    | Settled(returned: Option<seq<nat>>)
    | NotStarted
    | Crashing
    | Dead

  datatype System = System(rec: Recording, phase: Phase)

  datatype Event =
    | SeePid(n: nat)
    | SeeBytes(n: nat)
    | StartGivesUp(n: nat, c: Cleanup)
    | SegmentExit(n: nat, ended: Ended)
    | Signal(listeners: bool, c: Cleanup)
    | StopCall
    | TailEnds(answers: seq<Pull>, staging: Staging, c: Cleanup)
    | TailTimesOut(c: Cleanup)
    | Report(ok: bool, c: Cleanup)
    | ProcessExit(c: Cleanup)
    | Device(change: Change)

  const LAUNCHED := System(WithSegment(EMPTY), Starting)

  predicate StillStarting(r: Recording, n: nat) {
    n < |r.segments| && r.segments[n].starting
  }

  predicate IsLive(r: Recording, n: nat) {
    n < |r.segments| && r.segments[n].ended.Running?
  }

  function WithPid(r: Recording, n: nat): Recording
    requires n < |r.segments|
  {
    r.(segments := r.segments[n := r.segments[n].(pid := true)])
  }

  function DoneStarting(r: Recording, n: nat): Recording
    requires n < |r.segments|
  {
    r.(segments := r.segments[n := r.segments[n].(starting := false)])
  }

  function TailKilled(r: Recording): Recording
    requires r.segments != []
  {
    var n := |r.segments| - 1;
    r.(segments := r.segments[n := r.segments[n].(killed := true)])
  }

  function MediaOf(recorded: seq<nat>): set<LocalFile> {
    set k | k in recorded :: Media(k)
  }

  /** The recorded outputs and the timing evidence belong to the caller now. */
  function HandedOver(r: Recording, recorded: seq<nat>): Recording {
    r.(localFiles := r.localFiles - MediaOf(recorded) - {Timing})
  }

  predicate TailReady(s: System) {
    s.phase.Stopping? && s.rec.segments != [] && !s.rec.segments[|s.rec.segments| - 1].starting
  }

  /** A process that ends normally on the host has ended on the device; one that is lost or killed may run on there. */
  predicate CanEnd(r: Recording, n: nat, ended: Ended) {
    IsLive(r, n) && !ended.Running? && (ended == Exited(0) ==> Comes(r, n, Finished))
  }

  function Step(s: System, e: Event): System {
    if e.Device? then s.(rec := Changed(s.rec, e.change))
    else if s.phase.Dead? || (s.phase.Crashing? && !e.ProcessExit?) then s
    else match e
      case SeePid(n) =>
        if StillStarting(s.rec, n) && IsLive(s.rec, n) && Comes(s.rec, n, Present)
        then s.(rec := WithPid(s.rec, n)) else s
      case SeeBytes(n) =>
        if StillStarting(s.rec, n) && IsLive(s.rec, n) && s.rec.segments[n].pid && n in s.rec.remote
        then System(DoneStarting(s.rec, n), if s.phase.Starting? && n == 0 then Underway else s.phase)
        else s
      case StartGivesUp(n, c) =>
        if !StillStarting(s.rec, n) then s
        else if n == 0 && s.phase.Starting? then
          System(Released(DoneStarting(s.rec, n).(stopping := true), c), NotStarted)
        else s.(rec := DoneStarting(s.rec, n).(interruption := OrElse(s.rec.interruption, StartFailed(n))))
      case SegmentExit(n, ended) =>
        if CanEnd(s.rec, n, ended) then s.(rec := SegmentEnds(s.rec, n, ended)) else s
      case Signal(listeners, c) =>
        if s.rec.signalGuards then
          System(InterruptedBy(s.rec, listeners, c),
                 if (if listeners then StopThrows(Marked(s.rec), c) else AbandonThrows(Marked(s.rec), c)) then Crashing
                 else if listeners then s.phase else Dead)
        else s
      case StopCall =>
        if s.phase.Underway? then System(s.rec.(stopping := true), Stopping) else s
      case TailEnds(answers, staging, c) =>
        if TailReady(s) && !IsLive(s.rec, |s.rec.segments| - 1) then
          var collected := Collected(s.rec, answers, staging);
          if |collected.recorded| == 0 then System(Released(collected.recording, c), Settled(None))
          else System(collected.recording, Reporting(collected.recorded))
        else s
      case TailTimesOut(c) =>
        if TailReady(s) && IsLive(s.rec, |s.rec.segments| - 1)
        then System(Released(TailKilled(s.rec), c), Settled(None))
        else s
      case Report(ok, c) =>
        if s.phase.Reporting? then
          var rec := if ok then HandedOver(s.rec, s.phase.recorded) else s.rec;
          System(Released(rec, c), Settled(if ok && !AbandonThrows(rec, c) then Some(s.phase.recorded) else None))
        else s
      case ProcessExit(c) =>
        if s.rec.exitGuard then System(Abandoned(s.rec, c), Dead) else s.(phase := Dead)
  }

  function RunFrom(s: System, events: seq<Event>): System {
    if events == [] then s else Step(RunFrom(s, events[..|events| - 1]), events[|events| - 1])
  }

  /** A whole run, from the spawn of the first segment. */
  function Run(events: seq<Event>): System {
    RunFrom(LAUNCHED, events)
  }

  // ----- what every state keeps -----

  /** Every segment but the last has ended normally, so at most the last one is live. */
  predicate Chain(segments: seq<Segment>) {
    segments != [] && forall i :: 0 <= i < |segments| - 1 ==> segments[i].ended == Exited(0)
  }

  /**
   Each segment has its process, only a process that came up has written a file, and the process of a segment that ended
   normally has finished.
   */
  ghost predicate DeviceFits(r: Recording) {
    && |r.device| == |r.segments| && (forall n :: n in r.remote ==> n < |r.device| && !r.device[n].Absent?)
    && forall n :: 0 <= n < |r.segments| && r.segments[n].ended == Exited(0) ==> r.device[n].Finished?
  }

  predicate Ending(phase: Phase) {
    phase.Stopping? || phase.Reporting? || phase.Settled? || phase.NotStarted? || phase.Crashing?
  }

  predicate Active(phase: Phase) {
    phase.Starting? || phase.Underway? || phase.Stopping? || phase.Reporting?
  }

  predicate FilesFit(s: System) {
    match s.phase
    case Reporting(recorded) =>
      && !AnyLive(s.rec) && MediaOf(recorded) <= s.rec.disk && Timing in s.rec.disk && s.rec.disk <= s.rec.localFiles
    case Starting | Underway | Stopping | NotStarted => s.rec.localFiles == {} && s.rec.disk == {}
    case _ => true
  }

  ghost predicate Invariant(s: System) {
    && Chain(s.rec.segments)
    && (Ending(s.phase) ==> s.rec.stopping)
    && DeviceFits(s.rec) && (Active(s.phase) ==> s.rec.exitGuard)
    && FilesFit(s)
  }

  // ----- what a step keeps -----

  predicate AllFinished(device: seq<Process>) {
    forall n :: 0 <= n < |device| ==> device[n].Finished?
  }

  /** No device file is there, and no process that could write one. */
  predicate Quieted(r: Recording) {
    r.remote == {} && AllFinished(r.device)
  }

  /** The segments ended the same way. */
  predicate SameEnds(r: Recording, after: Recording) {
    && |after.segments| == |r.segments|
    && forall n :: 0 <= n < |r.segments| ==> after.segments[n].ended == r.segments[n].ended
  }

  /** What is done to a recording short of ending a segment: nothing is spawned, and what is over stays over. */
  ghost predicate Onward(r: Recording, after: Recording) {
    && SameEnds(r, after)
    && (DeviceFits(r) ==> DeviceFits(after)) && (Quieted(r) ==> Quieted(after))
    && (r.stopping ==> after.stopping) && (r.interruption.Some? ==> after.interruption.Some?)
  }

  lemma OnwardStays(r: Recording, after: Recording)
    requires Onward(r, after)
    ensures Chain(r.segments) ==> Chain(after.segments)
    ensures AnyLive(after) == AnyLive(r)
  {
    hide DeviceFits, Quieted;
    if n :| 0 <= n < |r.segments| && r.segments[n].ended.Running? {
      assert after.segments[n].ended.Running?;
    }
  }

  lemma OnwardTwice(r: Recording, next: Recording, after: Recording)
    requires Onward(r, next) && Onward(next, after)
    ensures Onward(r, after)
  {
    hide DeviceFits, Quieted;
  }

  /** Only the other fields of the recording change. */
  lemma SameOnward(r: Recording, after: Recording)
    requires SameEnds(r, after) && after.device == r.device && after.remote == r.remote
    requires (r.stopping ==> after.stopping) && (r.interruption.Some? ==> after.interruption.Some?)
    ensures Onward(r, after)
  {
  }

  lemma EditOnward(r: Recording, n: nat, segment: Segment)
    requires n < |r.segments| && segment.ended == r.segments[n].ended
    ensures Onward(r, r.(segments := r.segments[n := segment]))
  {
    SameOnward(r, r.(segments := r.segments[n := segment]));
  }

  lemma ChangedOnward(r: Recording, change: Change)
    ensures Onward(r, Changed(r, change))
  {
    hide DeviceFits, Quieted;
    ChangedFits(r, change);
    ChangedStaysQuiet(r, change);
  }

  lemma ChangedFits(r: Recording, change: Change)
    ensures DeviceFits(r) ==> DeviceFits(Changed(r, change))
  {
  }

  lemma ChangedStaysQuiet(r: Recording, change: Change)
    ensures Quieted(r) ==> Quieted(Changed(r, change))
  {
  }

  lemma {:induction false} ChangesOnward(r: Recording, changes: seq<Change>)
    ensures Onward(r, Changes(r, changes))
  {
    hide Onward, Changed;
    if changes == [] {
      ItselfOnward(r);
    } else {
      ChangesOnward(r, changes[..|changes| - 1]);
      ChangedOnward(Changes(r, changes[..|changes| - 1]), changes[|changes| - 1]);
      OnwardTwice(r, Changes(r, changes[..|changes| - 1]), Changes(r, changes));
    }
  }

  lemma ItselfOnward(r: Recording)
    ensures Onward(r, r)
  {
    SameOnward(r, r);
  }

  lemma {:induction false} WaitedOnward(r: Recording, grace: nat, looks: seq<Look>)
    ensures Onward(r, Waited(r, grace, looks).rec)
    decreases |looks|
  {
    hide Onward, Changes, Pids;
    if looks == [] {
      ItselfOnward(r);
    } else {
      var now := Changes(r, looks[0].happened);
      ChangesOnward(r, looks[0].happened);
      WaitedOnward(now, grace, looks[1..]);
      OnwardTwice(r, now, Waited(now, grace, looks[1..]).rec);
    }
  }

  lemma StoppedOnward(r: Recording, looks: seq<Look>)
    ensures Onward(r, Stopped(r, looks).rec)
  {
    hide Onward, Waited, AnyLive;
    var killed := r.(segments := KillLive(r.segments));
    SameOnward(r, killed);
    WaitedOnward(killed, Grace(r), looks);
    OnwardTwice(r, killed, Waited(killed, Grace(r), looks).rec);
  }

  lemma AtRemovalOnward(r: Recording, c: Cleanup)
    ensures Onward(r, AtRemoval(r, c))
    ensures var after := AtRemoval(r, c);
            after == r.(segments := KillLive(r.segments), device := after.device, remote := after.remote)
  {
    hide Onward, Stopped, Changes;
    var wait := Stopped(r, c.looks);
    StoppedOnward(r, c.looks);
    OnlyStopped(r, c.looks);
    ChangesOnward(wait.rec, c.meanwhile);
    OnlyChanged(wait.rec, c.meanwhile);
    OnwardTwice(r, wait.rec, Changes(wait.rec, c.meanwhile));
  }

  /** Removing files takes nothing up again. */
  lemma RemovalOnward(r: Recording, after: Recording)
    requires after == r.(remote := after.remote, disk := after.disk, signalGuards := after.signalGuards,
                         exitGuard := after.exitGuard)
    requires after.remote <= r.remote
    ensures Onward(r, after)
  {
  }

  /** What abandoning a recording changes beside the device. */
  lemma ReleaseOnward(r: Recording, c: Cleanup)
    ensures Onward(r, Abandoned(r, c)) && Onward(r, Released(r, c))
    ensures Released(r, c).stopping == r.stopping && Released(r, c).localFiles == r.localFiles
    ensures Released(r, c).disk <= r.disk && Released(r, c).exitGuard == (r.exitGuard && AbandonThrows(r, c))
  {
    hide Onward, AtRemoval, Unlinked, StopThrows, Stuck, KillLive;
    var now := AtRemoval(r, c);
    AtRemovalOnward(r, c);
    RemovalOnward(now, Abandoned(r, c));
    RemovalOnward(now, Released(r, c));
    OnwardTwice(r, now, Abandoned(r, c));
    OnwardTwice(r, now, Released(r, c));
  }

  lemma InterruptOnward(r: Recording, listeners: bool, c: Cleanup)
    ensures var after := InterruptedBy(r, listeners, c);
            && Onward(r, after) && after.stopping && after.localFiles == r.localFiles && after.disk <= r.disk
            && (listeners ==> after.disk == r.disk)
            && (listeners || AbandonThrows(Marked(r), c) ==> after.exitGuard == r.exitGuard)
  {
    hide Onward, Stopped, Released, AbandonThrows, KillLive;
    SameOnward(r, Marked(r));
    StoppedOnward(Marked(r), c.looks);
    OnlyStopped(Marked(r), c.looks);
    ReleaseOnward(Marked(r), c);
    OnwardTwice(r, Marked(r), Stopped(Marked(r), c.looks).rec);
    OnwardTwice(r, Marked(r), Released(Marked(r), c));
  }

  /** The running segment ends normally, and nothing has asked the recording or the segment to end. */
  predicate RollsOver(r: Recording, n: nat, ended: Ended) {
    n == |r.segments| - 1 && !r.stopping && r.interruption.None? && ended == Exited(0)
    && r.segments[n].pid && !r.segments[n].killed
  }

  lemma EndKeeps(r: Recording, n: nat, ended: Ended)
    requires Chain(r.segments) && DeviceFits(r) && CanEnd(r, n, ended)
    ensures var after := SegmentEnds(r, n, ended);
            && Chain(after.segments) && DeviceFits(after)
            && after.localFiles == r.localFiles && after.disk == r.disk && after.exitGuard == r.exitGuard
            && after.stopping == r.stopping && (r.interruption.Some? ==> after.interruption.Some?)
            && AnyLive(r)
            && if RollsOver(r, n, ended) then |after.segments| == |r.segments| + 1
               else |after.segments| == |r.segments| && (Quieted(r) ==> Quieted(after))
  {
    assert n == |r.segments| - 1;
  }

  /** Once the tail has ended, nothing is live any more. */
  lemma TailEnded(r: Recording)
    requires Chain(r.segments) && !IsLive(r, |r.segments| - 1)
    ensures !AnyLive(r)
  {
  }

  lemma {:induction false} HaulFits(interruption: Option<Cause>, pulls: seq<Pull>)
    ensures var haul := Hauled(interruption, pulls);
            && MediaOf(haul.recorded) <= haul.written <= haul.files
            && (forall k :: k in haul.recorded ==> k < |pulls|)
  {
    if pulls != [] {
      HaulFits(interruption, pulls[..|pulls| - 1]);
      var before := Hauled(interruption, pulls[..|pulls| - 1]);
      var k := |pulls| - 1;
      assert MediaOf(before.recorded + [k]) == MediaOf(before.recorded) + {Media(k)};
    }
  }

  lemma {:induction false} HaulKeepsCause(interruption: Option<Cause>, pulls: seq<Pull>)
    ensures interruption.Some? ==> Hauled(interruption, pulls).interruption == interruption
  {
    if pulls != [] {
      HaulKeepsCause(interruption, pulls[..|pulls| - 1]);
    }
  }

  lemma ChainStarts(segments: seq<Segment>)
    requires Chain(segments)
    ensures segments != []
  {
  }

  lemma CollectFits(r: Recording, answers: seq<Pull>, staging: Staging)
    requires r.segments != [] && r.localFiles == {} && r.disk == {}
    ensures var done := Collected(r, answers, staging);
            && Onward(r, done.recording) && done.recording.segments == r.segments
            && done.recording.device == r.device && done.recording.remote == r.remote
            && done.recording.stopping == r.stopping && done.recording.exitGuard == r.exitGuard
            && (|done.recorded| > 0 ==> MediaOf(done.recorded) <= done.recording.disk && Timing in done.recording.disk)
            && done.recording.disk <= done.recording.localFiles
  {
    hide Hauled, KeptSegments, TailCause, MediaOf, PullsOf, Onward;
    var cause := TailCause(r.segments, r.interruption);
    var kept := KeptSegments(r.segments, cause);
    HaulFits(cause, PullsOf(kept, answers));
    HaulKeepsCause(cause, PullsOf(kept, answers));
    CauseStays(r.segments, r.interruption);
    SameOnward(r, Collected(r, answers, staging).recording);
  }

  lemma CauseStays(segments: seq<Segment>, interruption: Option<Cause>)
    requires segments != []
    ensures interruption.Some? ==> TailCause(segments, interruption) == interruption
  {
  }

  /** A step that only goes onward keeps the invariant, if the phase and the local files still fit. */
  lemma OnwardKeeps(s: System, after: System)
    requires Invariant(s) && Onward(s.rec, after.rec) && FilesFit(after)
    requires Ending(after.phase) ==> after.rec.stopping
    requires Active(after.phase) ==> after.rec.exitGuard
    ensures Invariant(after)
  {
    hide FilesFit, Chain;
    OnwardStays(s.rec, after.rec);
  }

  /** Every step but the end of a segment goes onward. */
  lemma StepOnward(s: System, e: Event)
    requires Invariant(s) && !e.SegmentExit?
    ensures Onward(s.rec, Step(s, e).rec)
  {
    hide Onward, Released, Abandoned, AbandonThrows, StopThrows, InterruptedBy, Collected, Chain, DeviceFits, Changed,
      MediaOf, AnyLive, Quieted;
    ItselfOnward(s.rec);
    ChainStarts(s.rec.segments);
    match e {
      case Device(change) => ChangedOnward(s.rec, change);
      case SeePid(n) =>
        if StillStarting(s.rec, n) { EditOnward(s.rec, n, s.rec.segments[n].(pid := true)); }
      case SeeBytes(n) =>
        if StillStarting(s.rec, n) { EditOnward(s.rec, n, s.rec.segments[n].(starting := false)); }
      case StartGivesUp(n, c) =>
        if StillStarting(s.rec, n) { GivenUpOnward(s, n, c); }
      case Signal(listeners, c) => InterruptOnward(s.rec, listeners, c);
      case StopCall => SameOnward(s.rec, s.rec.(stopping := true));
      case TailEnds(answers, staging, c) =>
        if TailReady(s) {
          CollectFits(s.rec, answers, staging);
          var done := Collected(s.rec, answers, staging).recording;
          ReleaseOnward(done, c);
          OnwardTwice(s.rec, done, Released(done, c));
        }
      case TailTimesOut(c) =>
        EditOnward(s.rec, |s.rec.segments| - 1, s.rec.segments[|s.rec.segments| - 1].(killed := true));
        ReleaseOnward(TailKilled(s.rec), c);
        OnwardTwice(s.rec, TailKilled(s.rec), Released(TailKilled(s.rec), c));
      case Report(ok, c) =>
        if s.phase.Reporting? {
          var given := if ok then HandedOver(s.rec, s.phase.recorded) else s.rec;
          SameOnward(s.rec, given);
          ReleaseOnward(given, c);
          OnwardTwice(s.rec, given, Released(given, c));
        }
      case ProcessExit(c) => ReleaseOnward(s.rec, c);
    }
  }

  lemma GivenUpOnward(s: System, n: nat, c: Cleanup)
    requires StillStarting(s.rec, n)
    ensures Onward(s.rec, Step(s, StartGivesUp(n, c)).rec)
  {
    hide Onward, Released;
    ItselfOnward(s.rec);
    var segments := s.rec.segments[n := s.rec.segments[n].(starting := false)];
    var ended := s.rec.(segments := segments, stopping := true);
    SameOnward(s.rec, ended);
    ReleaseOnward(ended, c);
    OnwardTwice(s.rec, ended, Released(ended, c));
    SameOnward(s.rec, s.rec.(segments := segments, interruption := OrElse(s.rec.interruption, StartFailed(n))));
  }

  /** The local files and the guards still fit the phase. */
  lemma StepFits(s: System, e: Event)
    requires Invariant(s) && !e.SegmentExit?
    ensures var after := Step(s, e);
            && FilesFit(after) && (Ending(after.phase) ==> after.rec.stopping)
            && (Active(after.phase) ==> after.rec.exitGuard)
  {
    hide Onward, Released, Abandoned, AbandonThrows, StopThrows, Stuck, InterruptedBy, Collected, Chain, DeviceFits,
      MediaOf, AnyLive, Changed;
    StepOnward(s, e);
    OnwardStays(s.rec, Step(s, e).rec);
    ChainStarts(s.rec.segments);
    match e {
      case Device(change) => OnlyOneChange(s.rec, change);
      case StartGivesUp(n, c) =>
        if StillStarting(s.rec, n) { ReleaseOnward(DoneStarting(s.rec, n).(stopping := true), c); }
      case Signal(listeners, c) => InterruptOnward(s.rec, listeners, c);
      case TailEnds(answers, staging, c) =>
        if TailReady(s) && !IsLive(s.rec, |s.rec.segments| - 1) {
          CollectFits(s.rec, answers, staging);
          ReleaseOnward(Collected(s.rec, answers, staging).recording, c);
          TailEnded(s.rec);
        }
      case TailTimesOut(c) => ReleaseOnward(TailKilled(s.rec), c);
      case Report(ok, c) =>
        if s.phase.Reporting? {
          ReleaseOnward(if ok then HandedOver(s.rec, s.phase.recorded) else s.rec, c);
        }
      case _ =>
    }
  }

  lemma OnlyOneChange(r: Recording, change: Change)
    ensures var after := Changed(r, change); after == r.(device := after.device, remote := after.remote)
  {
  }

  lemma ExitKeeps(s: System, n: nat, ended: Ended)
    requires Invariant(s) && CanEnd(s.rec, n, ended)
    ensures Invariant(s.(rec := SegmentEnds(s.rec, n, ended)))
  {
    hide MediaOf, DeviceFits, Chain, AnyLive, SegmentEnds, Quieted;
    EndKeeps(s.rec, n, ended);
  }

  lemma StepKeeps(s: System, e: Event)
    requires Invariant(s)
    ensures Invariant(Step(s, e))
  {
    hide Invariant;
    if e.SegmentExit? {
      SegmentKeeps(s, e);
    } else {
      StepOnward(s, e);
      StepFits(s, e);
      hide Step;
      OnwardKeeps(s, Step(s, e));
    }
  }

  lemma SegmentKeeps(s: System, e: Event)
    requires Invariant(s) && e.SegmentExit?
    ensures Invariant(Step(s, e))
  {
    hide Invariant, SegmentEnds;
    if CanEnd(s.rec, e.n, e.ended) {
      ExitKeeps(s, e.n, e.ended);
    }
  }

  lemma LaunchFits()
    ensures Invariant(LAUNCHED)
  {
  }

  lemma {:induction false} EveryRunKeeps(events: seq<Event>)
    ensures Invariant(Run(events))
  {
    hide Invariant, Step;
    if |events| == 0 {
      LaunchFits();
    } else {
      EveryRunKeeps(events[..|events| - 1]);
      StepKeeps(Run(events[..|events| - 1]), events[|events| - 1]);
    }
  }

  // ----- spawning -----

  /** However the callbacks interleave, at most one segment is live, and it is the last. */
  lemma AtMostOneLive(events: seq<Event>, n: nat)
    requires IsLive(Run(events).rec, n)
    ensures n == |Run(events).rec.segments| - 1
  {
    hide Run;
    EveryRunKeeps(events);
  }

  /**
   A segment is spawned exactly by the normal end of the running one, while nothing has asked the recording to
   end; and a recording asked to end stays so.
   */
  lemma SpawnsOnlyOnRoll(s: System, e: Event)
    requires Invariant(s)
    ensures var after := Step(s, e).rec;
            && (s.rec.stopping ==> after.stopping) && (s.rec.interruption.Some? ==> after.interruption.Some?)
            && if e.SegmentExit? && !s.phase.Dead? && !s.phase.Crashing? && CanEnd(s.rec, e.n, e.ended)
                  && RollsOver(s.rec, e.n, e.ended)
               then |after.segments| == |s.rec.segments| + 1
               else |after.segments| == |s.rec.segments| && (Quieted(s.rec) ==> Quieted(after))
  {
    hide Quieted, FilesFit, Active, Ending, DeviceFits, Chain, AnyLive, SegmentEnds;
    if !e.SegmentExit? {
      StepOnward(s, e);
    } else if CanEnd(s.rec, e.n, e.ended) {
      EndKeeps(s.rec, e.n, e.ended);
    }
  }

  /**
   The end of a segment, in full. It is heeded while nobody has stopped the recording, the segment's process was seen
   and nobody has killed it: a normal end then starts the next segment, any other interrupts the recording.
   */
  lemma SegmentEndIs(r: Recording, n: nat, ended: Ended)
    requires n < |r.segments|
    ensures var after, held := SegmentEnds(r, n, ended), r.segments;
            var heeded := held[n].pid && !held[n].killed && r.interruption == None && !r.stopping;
            var spawned := heeded && ended == Exited(0);
            && |after.segments| == |held| + (if spawned then 1 else 0)
            && (forall i :: 0 <= i < |held| ==>
                  after.segments[i] == if i == n then held[n].(ended := ended) else held[i])
            && (spawned ==> after.segments[|held|] == Segment(false, false, Running, true)
                            && after.device == r.device + [Absent])
            && (!spawned ==> after.device == r.device)
            && after.interruption == (if heeded && ended != Exited(0) then Some(SegmentFailed(n)) else r.interruption)
            && after.stopping == r.stopping && after.remote == r.remote && after.disk == r.disk
  {
  }

  /** The host is signalled, or its process exits. */
  predicate CutShort(e: Event, after: Phase) {
    (e.Signal? && (after.Dead? || after.Crashing?)) || (e.ProcessExit? && after.Dead?)
  }

  /**
   Where a caller gets, and by what: its start settles when the first segment has bytes or gives up, its stop when the
   tail has ended and the report is written, or fails on the way; a signal or an exit may cut each of them short.
   */
  lemma PhaseStep(s: System, e: Event)
    ensures var before, after := s.phase, Step(s, e).phase;
            after == before || CutShort(e, after) ||
            match before
            case Starting =>
              if after.Underway? then e == SeeBytes(0) else after.NotStarted? && e.StartGivesUp? && e.n == 0
            case Underway => after.Stopping? && e.StopCall?
            case Stopping =>
              if e.TailEnds? then after == Settled(None) || (after.Reporting? && after.recorded != [])
              else after == Settled(None) && e.TailTimesOut?
            case Reporting(recorded) =>
              e.Report? && (after == Settled(None) || (e.ok && after == Settled(Some(recorded))))
            case _ => false
    ensures s.phase.Underway? && e.StopCall? ==> Step(s, e) == System(s.rec.(stopping := true), Stopping)
    ensures s.phase.Starting? && StillStarting(s.rec, 0) && e.StartGivesUp? && e.n == 0 ==> Step(s, e).phase.NotStarted?
    ensures s.phase.Reporting? && e.Report? ==> Step(s, e).phase.Settled?
    ensures s.phase.Stopping? && TailReady(s) ==>
              && (e.TailEnds? && !IsLive(s.rec, |s.rec.segments| - 1) ==> !Step(s, e).phase.Stopping?)
              && (e.TailTimesOut? && IsLive(s.rec, |s.rec.segments| - 1) ==> Step(s, e).phase == Settled(None))
  {
    hide Released, Abandoned, AbandonThrows, StopThrows, InterruptedBy, Collected, SegmentEnds, Changed;
  }

  /** A later segment that does not come up interrupts the recording, which goes on to its stop. */
  lemma LaterStartFails(s: System, n: nat, c: Cleanup)
    requires StillStarting(s.rec, n) && !s.phase.Dead? && !s.phase.Crashing? && !(n == 0 && s.phase.Starting?)
    ensures var after := Step(s, StartGivesUp(n, c));
            && after.phase == s.phase
            && after.rec == s.rec.(segments := after.rec.segments, interruption := after.rec.interruption)
            && after.rec.interruption ==
               (if s.rec.interruption == None then Some(StartFailed(n)) else s.rec.interruption)
            && |after.rec.segments| == |s.rec.segments|
            && forall i :: 0 <= i < |s.rec.segments| ==>
                 after.rec.segments[i] == if i == n then s.rec.segments[i].(starting := false) else s.rec.segments[i]
  {
  }

  /** Once a stop, a signal or a failure has asked the recording to end, nothing is spawned in any continuation. */
  lemma {:induction false} NoSpawnOnceEnding(s: System, more: seq<Event>)
    requires Invariant(s) && (s.rec.stopping || s.rec.interruption.Some?)
    ensures var after := RunFrom(s, more);
            && Invariant(after) && (after.rec.stopping || after.rec.interruption.Some?)
            && |after.rec.segments| == |s.rec.segments|
  {
    hide Invariant, Step, Quieted;
    if more != [] {
      var before, e := RunFrom(s, more[..|more| - 1]), more[|more| - 1];
      NoSpawnOnceEnding(s, more[..|more| - 1]);
      StepKeeps(before, e);
      SpawnsOnlyOnRoll(before, e);
    }
  }

  // ----- cleaning up -----

  function CleanupOf(e: Event): Option<Cleanup> {
    match e
    case StartGivesUp(_, c) => Some(c)
    case Signal(_, c) => Some(c)
    case TailEnds(_, _, c) => Some(c)
    case TailTimesOut(c) => Some(c)
    case Report(_, c) => Some(c)
    case ProcessExit(c) => Some(c)
    case _ => None
  }

  /** The recording as the step that abandons it finds it. */
  function Leaving(s: System, e: Event): Recording
    requires s.rec.segments != []
  {
    match e
    case StartGivesUp(n, _) => if n < |s.rec.segments| then DoneStarting(s.rec, n).(stopping := true) else s.rec
    case Signal(_, _) => Marked(s.rec)
    case TailEnds(answers, staging, _) => Collected(s.rec, answers, staging).recording
    case TailTimesOut(_) => TailKilled(s.rec)
    case Report(ok, _) => if ok && s.phase.Reporting? then HandedOver(s.rec, s.phase.recorded) else s.rec
    case _ => s.rec
  }

  /** The local files that a report hands over. */
  function Given(s: System, e: Event): set<LocalFile> {
    if e.Report? && e.ok && s.phase.Reporting? then MediaOf(s.phase.recorded) + {Timing} else {}
  }

  /** The local files the caller was given. */
  function Returned(phase: Phase): set<LocalFile> {
    if phase.Settled? && phase.returned.Some? then MediaOf(phase.returned.value) + {Timing} else {}
  }

  /** No check throws while a segment is live, and the removal on the device works. */
  predicate Clears(r: Recording, c: Cleanup) {
    !StopThrows(r, c) && c.removes
  }

  /** The local files of the recording that abandoning it leaves. */
  function LeftOver(r: Recording, c: Cleanup): set<LocalFile> {
    if StopThrows(r, c) then r.disk * r.localFiles else r.disk * r.localFiles - Unlinked(r.localFiles, c.stuck)
  }

  predicate EndsNow(s: System, e: Event) {
    Active(s.phase) && !Active(Step(s, e).phase)
  }

  /** The recording is abandoned as `r` stands, and what was given away stays. */
  ghost predicate LeavesBehind(r: Recording, c: Cleanup, after: Recording, given: set<LocalFile>) {
    && after.device == AtRemoval(r, c).device
    && after.remote == (if Clears(r, c) then {} else AtRemoval(r, c).remote)
    && after.disk == given + LeftOver(r, c) && after.stopping == r.stopping
    && after.exitGuard == (r.exitGuard && AbandonThrows(r, c))
  }

  lemma AbandonEnds(r: Recording, c: Cleanup, given: set<LocalFile>)
    requires r.segments != [] && given <= r.disk <= r.localFiles + given && given !! r.localFiles
    ensures LeavesBehind(r, c, Released(r, c), given)
    ensures LeavesBehind(r, c, Abandoned(r, c).(exitGuard := r.exitGuard && AbandonThrows(r, c)), given)
  {
    hide AtRemoval, Unlinked, KillLive, StopThrows, Stuck;
    AtRemovalOnward(r, c);
    var gone := Unlinked(r.localFiles, c.stuck);
    assert r.disk == given + r.disk * r.localFiles;
    assert r.disk - gone == given + (r.disk * r.localFiles - gone);
  }

  /** When a look can throw, nothing local has been named yet. */
  lemma NothingNamed(r: Recording, c: Cleanup)
    requires AnyLive(r) ==> r.localFiles == {}
    ensures !Stuck(r, c) ==> LeftOver(r, c) == {}
    ensures !AnyLive(r) ==> !StopThrows(r, c)
  {
    hide AnyLive, Waited;
  }

  ghost predicate Leaves(s: System, r: Recording) {
    && SameEnds(s.rec, r) && r.device == s.rec.device && r.remote == s.rec.remote && r.exitGuard == s.rec.exitGuard
    && (AnyLive(r) ==> r.localFiles == {})
  }

  lemma LeavingIs(s: System, e: Event)
    requires Invariant(s) && EndsNow(s, e)
    ensures s.rec.segments != [] && Leaves(s, Leaving(s, e))
    ensures var r := Leaving(s, e);
            Given(s, e) <= r.disk <= r.localFiles + Given(s, e) && Given(s, e) !! r.localFiles
    ensures Leaving(s, e).stopping || e.ProcessExit?
  {
    hide MediaOf, DeviceFits, Chain, Released, Abandoned, AbandonThrows, StopThrows, InterruptedBy, Collected, AnyLive,
      SegmentEnds, Changed;
    ChainStarts(s.rec.segments);
    if TailReady(s) {
      assert e.TailEnds? ==> !IsLive(s.rec, |s.rec.segments| - 1);
    }
    if e.TailEnds? {
      CollectFits(s.rec, e.answers, e.staging);
      TailEnded(s.rec);
    }
    SameLive(s.rec, Leaving(s, e));
  }

  lemma SameLive(r: Recording, after: Recording)
    requires SameEnds(r, after)
    ensures AnyLive(after) == AnyLive(r)
  {
    if n :| 0 <= n < |r.segments| && r.segments[n].ended.Running? {
      assert after.segments[n].ended.Running?;
    }
  }

  /**
   What an ending leaves: the device files are removed if no check throws with a live segment and the removal
   works, and left as the wait left them otherwise; locally, the files handed over, and those the removal did not get
   to. The exit listener stays armed exactly when abandoning threw.
   */
  lemma EndRemoves(s: System, e: Event)
    requires Invariant(s) && EndsNow(s, e)
    ensures CleanupOf(e).Some? && s.rec.segments != [] && Leaves(s, Leaving(s, e))
    ensures var r, c, after := Leaving(s, e), CleanupOf(e).value, Step(s, e);
            && after.rec.device == AtRemoval(r, c).device
            && after.rec.remote == (if Clears(r, c) then {} else AtRemoval(r, c).remote)
            && after.rec.disk == Given(s, e) + LeftOver(r, c)
            && (after.phase.Dead? || (after.rec.stopping && after.rec.exitGuard == AbandonThrows(r, c)))
            && Returned(after.phase) == (if Stuck(r, c) then {} else Given(s, e))
            && (!Stuck(r, c) ==> LeftOver(r, c) == {})
  {
    LeavingIs(s, e);
    hide AnyLive, KillLive, Chain, Collected, DeviceFits, MediaOf, SegmentEnds, Released, Abandoned, StopThrows, Stuck,
      TailKilled, AtRemoval, LeftOver, Changed, Clears, Leaves, SameEnds;
    var r := Leaving(s, e);
    AbandonEnds(r, CleanupOf(e).value, Given(s, e));
    LeavesNothing(s, r, CleanupOf(e).value);
    if e.Signal? && e.listeners {
      StopKeepsFiles(Marked(s.rec), e.c);
    }
  }

  lemma LeavesNothing(s: System, r: Recording, c: Cleanup)
    requires Invariant(s) && Active(s.phase) && Leaves(s, r)
    ensures !Stuck(r, c) ==> LeftOver(r, c) == {}
    ensures s.phase.Reporting? ==> !StopThrows(r, c)
    ensures r.exitGuard
  {
    hide StopThrows, Stuck, LeftOver, MediaOf;
    SameLive(s.rec, r);
    NothingNamed(r, c);
  }

  /** A stop that throws in a signal handler leaves the recording as a wait that throws does. */
  lemma StopKeepsFiles(r: Recording, c: Cleanup)
    requires StopThrows(r, c)
    ensures AtRemoval(r, c) == Stopped(r, c.looks).rec == Abandoned(r, c) && AbandonThrows(r, c)
  {
    hide Stopped;
  }

  // ----- what the device does afterwards -----

  /** Whatever happens from here on, no device file exists. */
  ghost predicate StaysClean(s: System) {
    forall more: seq<Event> :: RunFrom(s, more).rec.remote == {}
  }

  predicate Over(s: System) {
    s.phase.Dead? || s.rec.stopping
  }

  lemma OverStep(s: System, e: Event)
    requires Invariant(s) && Over(s) && Quieted(s.rec)
    ensures Over(Step(s, e)) && Quieted(Step(s, e).rec)
  {
    hide Invariant, Quieted;
    SpawnsOnlyOnRoll(s, e);
    DeadStays(s, e);
  }

  lemma DeadStays(s: System, e: Event)
    ensures s.phase.Dead? ==> Step(s, e).phase.Dead? && (e.SegmentExit? ==> Step(s, e) == s)
  {
  }

  lemma {:induction false} OverStaysClean(s: System, more: seq<Event>)
    requires Invariant(s) && Over(s) && Quieted(s.rec)
    ensures var after := RunFrom(s, more); Invariant(after) && Over(after) && Quieted(after.rec)
  {
    hide Invariant, Step, Over, Quieted;
    if more != [] {
      OverStaysClean(s, more[..|more| - 1]);
      StepKeeps(RunFrom(s, more[..|more| - 1]), more[|more| - 1]);
      OverStep(RunFrom(s, more[..|more| - 1]), more[|more| - 1]);
    }
  }

  lemma RunOne(s: System, events: seq<Event>, e: Event)
    ensures RunFrom(s, events + [e]) == Step(RunFrom(s, events), e)
  {
    hide Step;
    assert (events + [e])[..|events|] == events;
  }

  /** A process that has not finished can still write: it comes up, if it has not yet, and writes its file. */
  lemma CanWrite(s: System, n: nat)
    requires n < |s.rec.device| && !s.rec.device[n].Finished?
    ensures n in RunFrom(s, [Device(Starts(n))] + [Device(Writes(n))]).rec.remote
  {
    RunOne(s, [], Device(Starts(n)));
    assert [] + [Device(Starts(n))] == [Device(Starts(n))];
    RunOne(s, [Device(Starts(n))], Device(Writes(n)));
  }

  /**
   Once a recording is over, no device file ever comes back exactly if there is none and every process has finished.
   */
  lemma StaysCleanIff(s: System)
    requires Invariant(s) && Over(s)
    ensures StaysClean(s) <==> s.rec.remote == {} && AllFinished(s.rec.device)
  {
    hide Invariant, Over, Step;
    if StaysClean(s) {
      assert RunFrom(s, []).rec.remote == {};
      forall n | 0 <= n < |s.rec.device|
        ensures s.rec.device[n].Finished?
      {
        if !s.rec.device[n].Finished? {
          CanWrite(s, n);
        }
      }
    } else {
      var more: seq<Event> :| RunFrom(s, more).rec.remote != {};
      if s.rec.remote == {} && AllFinished(s.rec.device) {
        OverStaysClean(s, more);
      }
    }
  }

  /** Every segment but the last has ended normally, so its process has finished: the last one decides. */
  lemma TailDecides(r: Recording, after: Recording)
    requires Chain(r.segments) && DeviceFits(r) && Onward(r, after)
    ensures |after.device| == |r.segments| == |r.device| && r.segments != []
    ensures AllFinished(after.device) <==> after.device[|r.segments| - 1].Finished?
    ensures r.segments[|r.segments| - 1].ended == Exited(0) ==> AllFinished(after.device)
  {
    hide Quieted;
  }

  /** The device files are gone when the abandoning is over. */
  predicate Removed(r: Recording, c: Cleanup) {
    Clears(r, c) || AtRemoval(r, c).remote == {}
  }

  /**
   Recorder lifecycle. When a recording ends, by a stop, a failed start, a signal or the exit of the process, the
   local files not handed to the caller are deleted, unless a removal throws; and every device file is gone for good
   exactly if it was removed and the process of the last segment had finished by then.
   */
  lemma EndCleansUp(s: System, e: Event)
    requires Invariant(s) && EndsNow(s, e)
    ensures CleanupOf(e).Some? && s.rec.segments != []
    ensures var r, c, after := Leaving(s, e), CleanupOf(e).value, Step(s, e);
            && (!Stuck(r, c) ==> after.rec.disk == Returned(after.phase))
            && |AtRemoval(r, c).device| == |r.segments| == |s.rec.segments|
            && (StaysClean(after) <==> Removed(r, c) && AtRemoval(r, c).device[|r.segments| - 1].Finished?)
            && (s.rec.segments[|s.rec.segments| - 1].ended == Exited(0) ==> (StaysClean(after) <==> Removed(r, c)))
  {
    hide Invariant, Step, Stuck, LeftOver, AtRemoval, AllFinished, StaysClean, Leaves, Leaving, Given, StopThrows,
      Returned, EndsNow;
    EndRemoves(s, e);
    StepKeeps(s, e);
    StaysCleanIff(Step(s, e));
    LeavingFits(s, e);
    var r := Leaving(s, e);
    AtRemovalOnward(r, CleanupOf(e).value);
    TailDecides(r, AtRemoval(r, CleanupOf(e).value));
  }

  lemma LeavingFits(s: System, e: Event)
    requires Invariant(s) && EndsNow(s, e)
    ensures s.rec.segments != []
    ensures var r := Leaving(s, e);
            && Chain(r.segments) && DeviceFits(r) && |r.segments| == |s.rec.segments|
            && r.segments[|r.segments| - 1].ended == s.rec.segments[|s.rec.segments| - 1].ended
  {
    hide Leaving, EndsNow, Step, FilesFit;
    LeavingIs(s, e);
  }

  // ----- how the wait decides -----

  lemma {:induction false} ChangesKeepFinished(r: Recording, changes: seq<Change>, n: nat)
    ensures |Changes(r, changes).device| == |r.device|
    ensures Comes(r, n, Finished) ==> Comes(Changes(r, changes), n, Finished)
  {
    if changes != [] {
      ChangesKeepFinished(r, changes[..|changes| - 1], n);
    }
  }

  /** A wait that a look at the listed processes ends quietly leaves no owned process running. */
  lemma {:induction false} QuietLook(r: Recording, grace: nat, looks: seq<Look>, n: nat)
    requires n < |r.segments| && r.segments[n].ended.Running?
    ensures Waited(r, grace, looks).ending == Quiet(true) ==> !Comes(Waited(r, grace, looks).rec, n, Present)
    decreases |looks|
  {
    hide Changes, Owned;
    if looks != [] {
      var now := Changes(r, looks[0].happened);
      OnlyChanged(r, looks[0].happened);
      OwnedIff(now, |now.segments|, n);
      QuietLook(now, grace, looks[1..], n);
    }
  }

  lemma QuietStop(r: Recording, looks: seq<Look>, n: nat)
    requires n < |r.segments| && r.segments[n].ended.Running?
    ensures Stopped(r, looks).ending == Quiet(true) ==> !Comes(Stopped(r, looks).rec, n, Present)
    ensures !Stopped(r, looks).ending.NotNeeded?
  {
    hide Waited;
    var killed := r.(segments := KillLive(r.segments));
    QuietLook(killed, Grace(r), looks, n);
    WaitEnds(killed, Grace(r), looks);
  }

  lemma {:induction false} WaitEnds(r: Recording, grace: nat, looks: seq<Look>)
    ensures !Waited(r, grace, looks).ending.NotNeeded?
    decreases |looks|
  {
    hide Changes, Pids;
    if looks != [] {
      WaitEnds(Changes(r, looks[0].happened), grace, looks[1..]);
    }
  }

  lemma NoStop(r: Recording, looks: seq<Look>)
    requires !AnyLive(r)
    ensures Stopped(r, looks).ending.NotNeeded?
  {
  }

  /** The process was still to come up at the last look, and was not over with when the files were removed. */
  predicate ComesLate(r: Recording, c: Cleanup, n: nat) {
    Comes(Stopped(r, c.looks).rec, n, Absent) && !Comes(AtRemoval(r, c), n, Finished)
  }

  /**
   How the wait decides whether the device stays clean, by the way it ends. Where no segment is live, there is no
   wait. Quiet, and with its processes listed, it has seen to every process but one that was still to come up; after a
   listing that failed, or when its time is up, the process has to have finished; and a check that throws removes
   nothing.
   */
  lemma WaitDecides(s: System, e: Event)
    requires Invariant(s) && EndsNow(s, e)
    ensures CleanupOf(e).Some? && s.rec.segments != []
    ensures var r, c, t := Leaving(s, e), CleanupOf(e).value, |s.rec.segments| - 1;
            var ending, gone, clean := Stopped(r, c.looks).ending, AtRemoval(r, c), StaysClean(Step(s, e));
            && (ending.NotNeeded? <==> !IsLive(s.rec, t))
            && match ending
               case NotNeeded =>
                 clean <==> Removed(r, c) && (s.rec.segments[t].ended == Exited(0) || Comes(gone, t, Finished))
               case Quiet(listed) =>
                 clean <==> Removed(r, c) && if listed then !ComesLate(r, c, t) else Comes(gone, t, Finished)
               case TimedOut => clean <==> Removed(r, c) && Comes(gone, t, Finished)
               case WaitThrew => clean <==> gone.remote == {} && Comes(gone, t, Finished)
  {
    hide Invariant, Step, Stopped, Changes, Stuck, StaysClean, Leaving, Returned, EndsNow;
    EndCleansUp(s, e);
    LeavingFits(s, e);
    var r, c, t := Leaving(s, e), CleanupOf(e).value, |s.rec.segments| - 1;
    StoppedOnward(r, c.looks);
    ChangesKeepFinished(Stopped(r, c.looks).rec, c.meanwhile, t);
    if IsLive(s.rec, t) {
      QuietStop(r, c.looks, t);
    } else {
      TailEnded(r);
      NoStop(r, c.looks);
    }
  }

  /**
   A stop that has its files: it returns them, unless the removal of another local file throws; then they are neither
   returned nor deleted. Where the last segment ended normally too, the removal alone decides about the device.
   */
  lemma StopCleansUp(events: seq<Event>, ok: bool, c: Cleanup)
    requires Run(events).phase.Reporting?
    ensures var s, e := Run(events), Report(ok, c);
            && s.rec.segments != []
            && var after, r := Step(s, e), Leaving(s, e);
               && after.phase == Settled(if ok && !Stuck(r, c) then Some(s.phase.recorded) else None)
               && after.rec.exitGuard == Stuck(r, c)
               && (!Stuck(r, c) ==> after.rec.disk == Returned(after.phase))
               && (ok ==> MediaOf(s.phase.recorded) + {Timing} <= after.rec.disk)
               && (s.rec.segments[|s.rec.segments| - 1].ended == Exited(0) ==>
                    (StaysClean(after) <==> c.removes || AtRemoval(r, c).remote == {}))
  {
    hide RunFrom, Chain, MediaOf, DeviceFits, Released, Abandoned, StopThrows, Stuck, AllFinished, StaysClean,
      AtRemoval, LeftOver, Leaves;
    EveryRunKeeps(events);
    var s := Run(events);
    EndRemoves(s, Report(ok, c));
    EndCleansUp(s, Report(ok, c));
    LeavesNothing(s, Leaving(s, Report(ok, c)), c);
  }

  /**
   A process that exits while its exit listener is armed tries once more. After an ending whose abandoning threw,
   this second attempt cleans up under the same condition, and removes the local files that are still its own.
   */
  lemma ExitTriesAgain(s: System, c: Cleanup)
    requires Invariant(s) && !s.phase.Dead? && !Active(s.phase) && s.rec.exitGuard
    ensures var after := Step(s, ProcessExit(c));
            && s.rec.segments != [] && |AtRemoval(s.rec, c).device| == |s.rec.segments|
            && after.phase.Dead? && (!AbandonThrows(s.rec, c) ==> after.rec.disk == s.rec.disk - s.rec.localFiles)
            && (StaysClean(after) <==>
                 Removed(s.rec, c) && AtRemoval(s.rec, c).device[|s.rec.segments| - 1].Finished?)
  {
    hide FilesFit, AtRemoval, StopThrows, Stuck, AllFinished, StaysClean, Unlinked;
    StepKeeps(s, ProcessExit(c));
    StaysCleanIff(Step(s, ProcessExit(c)));
    AtRemovalOnward(s.rec, c);
    TailDecides(s.rec, AtRemoval(s.rec, c));
    UnlinksAll(s.rec, c);
  }

  lemma UnlinksAll(r: Recording, c: Cleanup)
    ensures !Stuck(r, c) ==> Unlinked(r.localFiles, c.stuck) == r.localFiles
  {
    assert forall f :: f in r.localFiles && f in c.stuck ==> f in r.localFiles * c.stuck;
  }

  // ----- runs that show it -----

  const QUIET_AT_ONCE := Cleanup([Look([], 1000, Listed)], [], true, {})

  const CHECK_THROWS := Cleanup([Look([], 0, CheckThrows)], [], true, {})

  /** The process is seen and interrupted, and has ended by the next look. */
  const SEEN_THEN_GONE := Cleanup([Look([], 0, Listed)] + [Look([Ends(0)], 100, Listed)], [], true, {})

  /** A segment that gives up, is waited for in vain, and only then comes up on the device writes its file again. */
  lemma LateProcessWrites()
    ensures var s := Run([StartGivesUp(0, QUIET_AT_ONCE)] + [Device(Starts(0))] + [Device(Writes(0))]);
            s.phase.NotStarted? && !s.rec.exitGuard && s.rec.remote == {0}
  {
    RunOne(LAUNCHED, [], StartGivesUp(0, QUIET_AT_ONCE));
    assert [] + [StartGivesUp(0, QUIET_AT_ONCE)] == [StartGivesUp(0, QUIET_AT_ONCE)];
    RunOne(LAUNCHED, [StartGivesUp(0, QUIET_AT_ONCE)], Device(Starts(0)));
    RunOne(LAUNCHED, [StartGivesUp(0, QUIET_AT_ONCE)] + [Device(Starts(0))], Device(Writes(0)));
    GivesUpInVain();
    assert {} + {0} == {0};
  }

  lemma GivesUpInVain()
    ensures var s := Step(LAUNCHED, StartGivesUp(0, QUIET_AT_ONCE));
            s.phase.NotStarted? && !s.rec.exitGuard && s.rec.remote == {} && s.rec.device == [Absent]
  {
    var r := DoneStarting(LAUNCHED.rec, 0).(stopping := true);
    assert r.segments[0].ended.Running?;
    var killed := r.(segments := KillLive(r.segments));
    assert Owned(killed, 1) == [];
  }

  /** A first segment that gives up while its ownership check throws leaves its file, and the exit listener armed. */
  lemma ThrowingCheckLeavesFiles()
    ensures var s := Run([Device(Starts(0))] + [Device(Writes(0))] + [StartGivesUp(0, CHECK_THROWS)]);
            s.phase.NotStarted? && s.rec.remote == {0} && s.rec.exitGuard
  {
    var s := Written();
    WrittenRun();
    RunOne(LAUNCHED, [Device(Starts(0))] + [Device(Writes(0))], StartGivesUp(0, CHECK_THROWS));
    var r := DoneStarting(s.rec, 0).(stopping := true);
    assert r.segments[0].ended.Running?;
  }

  /** The first segment runs on the device and has written its file. */
  function Written(): System {
    System(LAUNCHED.rec.(device := [Present], remote := {0}), Starting)
  }

  lemma WrittenRun()
    ensures RunFrom(LAUNCHED, [Device(Starts(0))] + [Device(Writes(0))]) == Written()
  {
    hide RunFrom;
    RunNone(LAUNCHED);
    RunOne(LAUNCHED, [], Device(Starts(0)));
    assert [] + [Device(Starts(0))] == [Device(Starts(0))];
    assert [Absent][0 := Present] == [Present];
    RunOne(LAUNCHED, [Device(Starts(0))], Device(Writes(0)));
    assert {} + {0} == {0};
  }

  lemma RunNone(s: System)
    ensures RunFrom(s, []) == s
  {
  }

  /** An interruption of a running recording: its process is seen, gone at the next look, and nothing is left. */
  lemma InterruptCleansUp()
    ensures var start := [Device(Starts(0))] + [Device(Writes(0))] + [SeePid(0)] + [SeeBytes(0)];
            var s := Run(start + [Signal(false, SEEN_THEN_GONE)]);
            Run(start).phase.Underway? && s.phase.Dead? && StaysClean(s)
  {
    hide RunFrom, Step, Invariant, StaysClean;
    var start := [Device(Starts(0))] + [Device(Writes(0))];
    WrittenRun();
    RunOne(LAUNCHED, start, SeePid(0));
    RunOne(LAUNCHED, start + [SeePid(0)], SeeBytes(0));
    RunOne(LAUNCHED, start + [SeePid(0)] + [SeeBytes(0)], Signal(false, SEEN_THEN_GONE));
    EveryRunKeeps(start + [SeePid(0)] + [SeeBytes(0)] + [Signal(false, SEEN_THEN_GONE)]);
    GetsUnderway();
    InterruptedOnce(Run(start + [SeePid(0)] + [SeeBytes(0)]));
    StaysCleanIff(Step(Run(start + [SeePid(0)] + [SeeBytes(0)]), Signal(false, SEEN_THEN_GONE)));
  }

  lemma GetsUnderway()
    ensures var s := Step(Step(Written(), SeePid(0)), SeeBytes(0));
            && s.rec.device == [Present] && s.rec.segments == [Segment(true, false, Running, false)]
            && s.rec.localFiles == {} && s.rec.signalGuards && s.phase.Underway?
  {
    assert [SPAWNED][0 := SPAWNED.(pid := true)] == [SPAWNED.(pid := true)];
  }

  lemma InterruptedOnce(s: System)
    requires s.rec.device == [Present] && s.rec.segments == [Segment(true, false, Running, false)]
    requires s.rec.localFiles == {} && s.rec.signalGuards && s.phase.Underway?
    ensures var after := Step(s, Signal(false, SEEN_THEN_GONE));
            after.phase.Dead? && after.rec.remote == {} && after.rec.device == [Finished] && after.rec.stopping
  {
    hide KillLive, Unlinked;
    var r := Marked(s.rec);
    assert r.segments[0].ended.Running?;
    var killed := r.(segments := KillLive(r.segments));
    SeenThenGone(killed);
    assert Grace(r) == 0;
  }

  lemma SeenThenGone(r: Recording)
    requires r.device == [Present] && |r.segments| == 1 && r.segments[0].ended.Running?
    ensures var wait := Waited(r, 0, SEEN_THEN_GONE.looks);
            wait.ending == Quiet(true) && wait.rec == r.(device := [Finished]) && wait.seen == {0}
  {
    var looks := SEEN_THEN_GONE.looks;
    assert looks[1..] == [Look([Ends(0)], 100, Listed)] && looks[1..][1..] == [];
    var now := r.(device := [Finished]);
    EndsOnce(r);
    assert Changes(r, []) == r;
    assert Owned(r, 1) == [0] && Owned(now, 1) == [];
    assert Waited(now, 0, []).rec == now;
  }

  lemma EndsOnce(r: Recording)
    requires |r.device| == 1
    ensures Changes(r, [Ends(0)]) == r.(device := [Finished])
  {
    assert [Ends(0)][..0] == [] && Changes(r, []) == r;
    assert r.device[0 := Finished] == [Finished];
  }

  // ----- what is kept -----

  /** `stop` keeps exactly the segments that ended normally: all of them, or all but a tail that failed. */
  lemma KeepsWhatEndedWell(r: Recording)
    requires Chain(r.segments)
    ensures var kept := KeptSegments(r.segments, TailCause(r.segments, r.interruption));
            && kept == EndedWell(r.segments, |r.segments|)
            && |kept| == (if r.segments[|r.segments| - 1].ended == Exited(0) then |r.segments| else |r.segments| - 1)
            && forall k :: 0 <= k < |kept| ==> kept[k] == k
  {
    var n := |r.segments|;
    EndedWellIs(r.segments, n - 1);
    assert Indices(n - 1) + [n - 1] == Indices(n);
  }

  lemma {:induction false} EndedWellIs(segments: seq<Segment>, n: nat)
    requires n <= |segments| && forall i :: 0 <= i < n ==> segments[i].ended == Exited(0)
    ensures EndedWell(segments, n) == Indices(n)
  {
    if n > 0 {
      EndedWellIs(segments, n - 1);
      assert Indices(n - 1) + [n - 1] == Indices(n);
    }
  }

  /** The pull ends the loop: it failed, or its file could not be read back. */
  predicate EndsLoop(pull: Pull) {
    pull.PullFails? || pull.Unreadable?
  }

  predicate PullsFail(pulls: seq<Pull>) {
    exists k :: 0 <= k < |pulls| && EndsLoop(pulls[k])
  }

  predicate PulledFull(pull: Pull) {
    pull.Pulled? && pull.bytes > 0
  }

  /** Every pull before the `k`-th gave a file, and the `k`-th gave one that is not empty. */
  predicate Recorded(pulls: seq<Pull>, k: nat) {
    k < |pulls| && PulledFull(pulls[k]) && !PullsFail(pulls[..k])
  }

  lemma FailsSnoc(pulls: seq<Pull>)
    requires pulls != []
    ensures PullsFail(pulls) <==> PullsFail(pulls[..|pulls| - 1]) || EndsLoop(pulls[|pulls| - 1])
  {
    var before := pulls[..|pulls| - 1];
    if PullsFail(before) {
      var k :| 0 <= k < |before| && EndsLoop(before[k]);
      assert EndsLoop(pulls[k]);
    }
  }

  lemma RecordedSnoc(pulls: seq<Pull>, k: nat)
    requires pulls != []
    ensures var n := |pulls| - 1;
            Recorded(pulls, k) <==>
              if k < n then Recorded(pulls[..n], k) else k == n && PulledFull(pulls[n]) && !PullsFail(pulls[..n])
  {
    hide PullsFail, PulledFull;
    if k < |pulls| - 1 {
      assert pulls[..|pulls| - 1][..k] == pulls[..k];
    }
  }

  lemma {:induction false} HaulBreaks(interruption: Option<Cause>, pulls: seq<Pull>)
    ensures Hauled(interruption, pulls).broken <==> PullsFail(pulls)
  {
    if pulls != [] {
      HaulBreaks(interruption, pulls[..|pulls| - 1]);
      FailsSnoc(pulls);
    }
  }

  /** What is recorded: the files that were pulled before the first failing pull and are not empty, in order. */
  lemma {:induction false} RecordedIs(interruption: Option<Cause>, pulls: seq<Pull>)
    ensures var taken := Hauled(interruption, pulls).recorded;
            && (forall k: nat :: k in taken <==> Recorded(pulls, k))
            && (forall i, j :: 0 <= i < j < |taken| ==> taken[i] < taken[j])
  {
    hide Recorded, PullsFail;
    if pulls == [] {
      NothingRecorded();
    } else {
      var before, n := pulls[..|pulls| - 1], |pulls| - 1;
      RecordedIs(interruption, before);
      HaulBreaks(interruption, before);
      var earlier, taken := Hauled(interruption, before).recorded, Hauled(interruption, pulls).recorded;
      forall k: nat
        ensures k in taken <==> Recorded(pulls, k)
        ensures k in earlier ==> k < n
      {
        RecordedSnoc(pulls, k);
        RecordedInside(before, k);
      }
      forall i | 0 <= i < |earlier|
        ensures earlier[i] < n
      {
        assert earlier[i] in earlier;
      }
    }
  }

  lemma NothingRecorded()
    ensures forall k: nat :: !Recorded([], k)
  {
  }

  lemma RecordedInside(pulls: seq<Pull>, k: nat)
    ensures Recorded(pulls, k) ==> k < |pulls|
  {
  }

  /**
   A stop that was not interrupted before is interrupted exactly when some pull failed or was empty,
   unless a file could not be read back: then the stop fails altogether.
   */
  lemma {:induction false} InterruptedByPulls(interruption: Option<Cause>, pulls: seq<Pull>)
    ensures var haul := Hauled(interruption, pulls);
            && (haul.threw ==> haul.broken)
            && (!haul.threw ==>
                  && (haul.interruption.Some? <==>
                       interruption.Some? || exists k :: 0 <= k < |pulls| && !PulledFull(pulls[k]))
                  && (haul.broken ==> haul.interruption.Some?))
  {
    if pulls != [] {
      var before := pulls[..|pulls| - 1];
      InterruptedByPulls(interruption, before);
      if k :| 0 <= k < |before| && !PulledFull(before[k]) {
        assert !PulledFull(pulls[k]);
      }
    }
  }

  /** The first pull that did not give a file with something in it is blamed, unless something else was before. */
  lemma {:induction false} FirstBadPull(pulls: seq<Pull>, k: nat)
    requires k < |pulls| && !PulledFull(pulls[k]) && !pulls[k].Unreadable?
    requires forall i :: 0 <= i < k ==> PulledFull(pulls[i])
    ensures Hauled(None, pulls).interruption == Some(if pulls[k].PullFails? then PullFailed(k) else EmptyOutput(k))
  {
    var before := pulls[..|pulls| - 1];
    if k < |before| {
      FirstBadPull(before, k);
    } else {
      InterruptedByPulls(None, before);
      HaulBreaks(None, before);
    }
  }

  /** The local files named and written: one for each pull up to the first that fails, whose file may not be there. */
  lemma {:induction false} FilesNamed(interruption: Option<Cause>, pulls: seq<Pull>, f: LocalFile)
    ensures var haul := Hauled(interruption, pulls);
            && (f in haul.files <==> f.Media? && f.k < |pulls| && !PullsFail(pulls[..f.k]))
            && (f in haul.written <==> f in haul.files && (pulls[f.k].Pulled? || pulls[f.k] == PullFails(true)))
  {
    hide PullsFail;
    if pulls != [] {
      var before, n := pulls[..|pulls| - 1], |pulls| - 1;
      FilesNamed(interruption, before, f);
      HaulBreaks(interruption, before);
      if f.Media? && f.k < n {
        assert before[..f.k] == pulls[..f.k] && before[f.k] == pulls[f.k];
      }
    }
  }

  /** Local files go in order, the timing evidence last, up to the first whose removal throws. */
  lemma UnlinkedIs(files: set<LocalFile>, stuck: set<LocalFile>, f: LocalFile)
    ensures f in Unlinked(files, stuck) <==>
              && f in files && f !in stuck
              && forall g :: g in files && g in stuck ==> f.Media? && (g.Media? ==> f.k < g.k)
  {
    assert forall g :: g in files && g in stuck <==> g in files * stuck;
  }
}
