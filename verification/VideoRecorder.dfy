/**
 A rolling screen recording: segments follow each other on the device, signals and failures interrupt
 them, and `stop` pulls what is worth keeping. Every callback of the recorder is a step of one system.
 */
module VideoRecorder {
  import opened Results

  /** How a segment's process ended: not yet, with an exit code, or without one. */
  datatype Ended = Running | Exited(code: int) | NoCode

  /** `starting` while its start loop still waits for the process and its first bytes. */
  datatype Segment = Segment(pid: bool, killed: bool, ended: Ended, starting: bool)

  datatype Cause = SegmentFailed(n: nat) | StartFailed(n: nat) | Signalled | PullFailed(k: nat) | EmptyOutput(k: nat)

  /** A local file of the recording: the output of the `k`-th kept segment, or the timing evidence. */
  datatype LocalFile = Media(k: nat) | Timing

  /** The recorder process of a segment on the device: it comes up some time after the spawn, if it does at all. */
  datatype Process = Absent | Present | Finished

  /**
   The variables of a recording, and what they stand for: `device` the processes of the segments on the
   device, `remote` the segments whose device file exists, `disk` the local files written.
   */
  datatype Recording = Recording(segments: seq<Segment>, stopping: bool, interruption: Option<Cause>,
                                 localFiles: set<LocalFile>, device: seq<Process>, remote: set<nat>,
                                 disk: set<LocalFile>, signalGuards: bool, exitGuard: bool)

  const SPAWNED := Segment(false, false, Running, true)

  const EMPTY := Recording([], false, None, {}, [], {}, {}, true, true)

  const START_GRACE_MS := 1000
  const RECORDING_STOP_TIMEOUT_MS := 10000

  /** What a process on the device does by itself: it comes up, writes its file while it runs, and ends. */
  datatype Change = Starts(n: nat) | Writes(n: nat) | Ends(n: nat)

  /** The owned processes that run, nothing where listing the processes failed, or an ownership check that throws. */
  datatype Answer = Listed | NoAnswer | CheckThrows

  /** One look at the device while waiting: what happened there since the last one, the clock, and the answer. */
  datatype Look = Look(happened: seq<Change>, elapsedMs: nat, answer: Answer)

  /** How a wait ends: there was none, no owned process was seen, the time was up, or a check threw. */
  datatype Ending = NotNeeded | Quiet(listed: bool) | TimedOut | WaitThrew

  /** The recording after a wait, how that ended, and the processes seen. */
  datatype Wait = Wait(rec: Recording, ending: Ending, seen: set<nat>)

  /**
   What abandoning a recording meets: the looks of the wait, what happens on the device between the last one
   and the removal, whether the removal there works, and the local files whose removal throws.
   */
  datatype Cleanup = Cleanup(looks: seq<Look>, meanwhile: seq<Change>, removes: bool, stuck: set<LocalFile>)

  /**
   What pulling one segment yields: a failure, perhaps with a partial file, a file that cannot be read back, or one of
   some size.
   */
  datatype Pull = PullFails(partial: bool) | Unreadable | Pulled(bytes: nat)

  /** Whether the staging directory can be made, and the timing evidence written. */
  datatype Staging = Staging(makes: bool, writes: bool)

  // ----- the callbacks, on values -----

  function WithSegment(r: Recording): Recording {
    r.(segments := r.segments + [SPAWNED], device := r.device + [Absent])
  }

  /** `interruption ??= cause` */
  function OrElse(interruption: Option<Cause>, cause: Cause): Option<Cause> {
    if interruption.None? then Some(cause) else interruption
  }

  predicate AnyLive(r: Recording) {
    exists n :: 0 <= n < |r.segments| && r.segments[n].ended.Running?
  }

  function SegmentEnds(r: Recording, n: nat, ended: Ended): Recording
    requires n < |r.segments|
  {
    var segment := r.segments[n];
    var after := r.(segments := r.segments[n := segment.(ended := ended)]);
    if !segment.pid || segment.killed || r.interruption.Some? || r.stopping then after
    else if ended != Exited(0) then after.(interruption := Some(SegmentFailed(n)))
    else WithSegment(after)
  }

  function Kill(segment: Segment): Segment {
    if segment.ended.Running? then segment.(killed := true) else segment
  }

  function KillLive(segments: seq<Segment>): (after: seq<Segment>)
    ensures |after| == |segments| && forall i :: 0 <= i < |segments| ==> after[i] == Kill(segments[i])
  {
    seq(|segments|, i requires 0 <= i < |segments| => Kill(segments[i]))
  }

  // ----- the device -----

  predicate Comes(r: Recording, n: nat, from: Process) {
    n < |r.device| && r.device[n] == from
  }

  function Changed(r: Recording, change: Change): Recording {
    match change
    case Starts(n) => if Comes(r, n, Absent) then r.(device := r.device[n := Present]) else r
    case Writes(n) => if Comes(r, n, Present) then r.(remote := r.remote + {n}) else r
    case Ends(n) => if n < |r.device| then r.(device := r.device[n := Finished]) else r
  }

  function Changes(r: Recording, changes: seq<Change>): Recording {
    if changes == [] then r else Changed(Changes(r, changes[..|changes| - 1]), changes[|changes| - 1])
  }

  /** The live ones of the first `n` segments whose process runs on the device. */
  function Owned(r: Recording, n: nat): seq<nat>
    requires n <= |r.segments|
  {
    if n == 0 then []
    else Owned(r, n - 1) + if r.segments[n - 1].ended.Running? && Comes(r, n - 1, Present) then [n - 1] else []
  }

  lemma {:induction false} OwnedIff(r: Recording, n: nat, p: nat)
    requires n <= |r.segments|
    ensures p in Owned(r, n) <==> p < n && r.segments[p].ended.Running? && Comes(r, p, Present)
  {
    if n > 0 {
      OwnedIff(r, n - 1, p);
    }
  }

  function Pids(r: Recording, answer: Answer): seq<nat> {
    if answer.Listed? then Owned(r, |r.segments|) else []
  }

  // ----- the wait for the owned processes -----

  /** A segment whose pid is not known yet gets a grace: its process may still come up. */
  function Grace(r: Recording): nat {
    if exists n :: 0 <= n < |r.segments| && r.segments[n].ended.Running? && !r.segments[n].pid
    then START_GRACE_MS else 0
  }

  function Waited(r: Recording, grace: nat, looks: seq<Look>): Wait
    decreases |looks|
  {
    if looks == [] then Wait(r, TimedOut, {})
    else
      var look := looks[0];
      var now := Changes(r, look.happened);
      var pids := Pids(now, look.answer);
      if look.elapsedMs >= RECORDING_STOP_TIMEOUT_MS then Wait(now, TimedOut, {})
      else if look.answer.CheckThrows? then Wait(now, WaitThrew, {})
      else if pids == [] && look.elapsedMs >= grace then Wait(now, Quiet(look.answer.Listed?), {})
      else
        var rest := Waited(now, grace, looks[1..]);
        rest.(seen := (set p | p in pids) + rest.seen)
  }

  /** Every live segment is marked killed, and its process waited for. */
  function Stopped(r: Recording, looks: seq<Look>): Wait {
    var killed := r.(segments := KillLive(r.segments));
    if AnyLive(r) then Waited(killed, Grace(r), looks) else Wait(killed, NotNeeded, {})
  }

  predicate NoDuplicates(s: seq<nat>) {
    forall i, j :: 0 <= i < j < |s| ==> s[i] != s[j]
  }

  method SignalNew(pids: seq<nat>, before: seq<nat>) returns (signaled: seq<nat>)
    requires NoDuplicates(before)
    ensures NoDuplicates(signaled) && forall p :: p in signaled <==> p in before || p in pids
  {
    signaled := before;
    var k := 0;
    while k < |pids|
      invariant 0 <= k <= |pids| && NoDuplicates(signaled)
      invariant forall p :: p in signaled <==> p in before || p in pids[..k]
    {
      if pids[k] !in signaled {
        signaled := signaled + [pids[k]];
      }
      k := k + 1;
    }
  }

  // ----- abandoning a recording -----

  /** Local files are removed in the order in which they were named: by position, the timing evidence last. */
  predicate Earlier(a: LocalFile, b: LocalFile) {
    a.Media? && (b.Media? ==> a.k < b.k)
  }

  /** The local files removed before the removal of one throws: all of them, if none does. */
  function Unlinked(files: set<LocalFile>, stuck: set<LocalFile>): (gone: set<LocalFile>)
    ensures gone <= files - stuck
  {
    set f | f in files && f !in stuck && forall g :: g in files * stuck ==> Earlier(f, g)
  }

  predicate StopThrows(r: Recording, c: Cleanup) {
    Stopped(r, c.looks).ending.WaitThrew?
  }

  predicate Stuck(r: Recording, c: Cleanup) {
    r.localFiles * c.stuck != {}
  }

  /** Abandoning throws when a check of the wait does, or the removal of a local file. */
  predicate AbandonThrows(r: Recording, c: Cleanup) {
    StopThrows(r, c) || Stuck(r, c)
  }

  /** The recording when the device files are removed, or when the wait has thrown. */
  function AtRemoval(r: Recording, c: Cleanup): Recording {
    var wait := Stopped(r, c.looks);
    if wait.ending.WaitThrew? then wait.rec else Changes(wait.rec, c.meanwhile)
  }

  function Abandoned(r: Recording, c: Cleanup): Recording {
    var now := AtRemoval(r, c);
    if StopThrows(r, c) then now
    else now.(remote := if |r.segments| > 0 && c.removes then {} else now.remote,
              disk := r.disk - Unlinked(r.localFiles, c.stuck))
  }

  /** `abandon(); removeGuards();`: when the first throws, the second is not reached. */
  function Released(r: Recording, c: Cleanup): Recording {
    if AbandonThrows(r, c) then Abandoned(r, c) else Abandoned(r, c).(signalGuards := false, exitGuard := false)
  }

  function Marked(r: Recording): Recording {
    r.(stopping := true, interruption := Some(Signalled), signalGuards := false)
  }

  function InterruptedBy(r: Recording, listeners: bool, c: Cleanup): Recording {
    if listeners then Stopped(Marked(r), c.looks).rec else Released(Marked(r), c)
  }

  // ----- what stop keeps and pulls -----

  /** The segments that ended normally, in order. */
  function EndedWell(segments: seq<Segment>, n: nat): seq<nat>
    requires n <= |segments|
  {
    if n == 0 then []
    else EndedWell(segments, n - 1) + if segments[n - 1].ended == Exited(0) then [n - 1] else []
  }

  function Indices(n: nat): seq<nat> {
    seq(n, i requires 0 <= i < n => i)
  }

  function KeptSegments(segments: seq<Segment>, interruption: Option<Cause>): seq<nat>
    requires segments != []
  {
    if interruption.Some? then EndedWell(segments, |segments|)
    else if segments[|segments| - 1].ended == Exited(0) then Indices(|segments|)
    else Indices(|segments| - 1)
  }

  /** What the pull loop has gathered: the positions recorded, the interruption, the local files named and written. */
  datatype Haul = Haul(recorded: seq<nat>, interruption: Option<Cause>, files: set<LocalFile>, written: set<LocalFile>,
                       broken: bool, threw: bool)

  function Hauled(interruption: Option<Cause>, pulls: seq<Pull>): Haul {
    if pulls == [] then Haul([], interruption, {}, {}, false, false)
    else
      var before, k := Hauled(interruption, pulls[..|pulls| - 1]), |pulls| - 1;
      if before.broken then before
      else match pulls[k]
        case PullFails(partial) =>
          Haul(before.recorded, OrElse(before.interruption, PullFailed(k)), before.files + {Media(k)},
               before.written + if partial then {Media(k)} else {}, true, false)
        case Unreadable =>
          Haul(before.recorded, before.interruption, before.files + {Media(k)}, before.written, true, true)
        case Pulled(bytes) =>
          Haul(if bytes > 0 then before.recorded + [k] else before.recorded,
               if bytes > 0 then before.interruption else OrElse(before.interruption, EmptyOutput(k)),
               before.files + {Media(k)}, before.written + {Media(k)}, false, false)
  }

  lemma HauledStep(interruption: Option<Cause>, pulls: seq<Pull>, k: nat)
    requires k < |pulls| && !Hauled(interruption, pulls[..k]).broken
    ensures var before, after := Hauled(interruption, pulls[..k]), Hauled(interruption, pulls[..k + 1]);
            match pulls[k]
            case PullFails(partial) =>
              after == Haul(before.recorded, OrElse(before.interruption, PullFailed(k)), before.files + {Media(k)},
                            before.written + if partial then {Media(k)} else {}, true, false)
            case Unreadable =>
              after == Haul(before.recorded, before.interruption, before.files + {Media(k)}, before.written, true, true)
            case Pulled(bytes) =>
              after == Haul(if bytes > 0 then before.recorded + [k] else before.recorded,
                            if bytes > 0 then before.interruption else OrElse(before.interruption, EmptyOutput(k)),
                            before.files + {Media(k)}, before.written + {Media(k)}, false, false)
  {
    assert pulls[..k + 1][..k] == pulls[..k];
  }

  lemma NothingHauled(interruption: Option<Cause>)
    ensures Hauled(interruption, []) == Haul([], interruption, {}, {}, false, false)
  {
  }

  /** The pulls a `stop` makes, one for each kept segment, given what the device answers for each segment. */
  function PullsOf(kept: seq<nat>, answers: seq<Pull>): (pulls: seq<Pull>)
    ensures |pulls| == |kept|
    ensures forall k :: 0 <= k < |kept| ==>
              pulls[k] == if kept[k] < |answers| then answers[kept[k]] else PullFails(false)
  {
    seq(|kept|, k requires 0 <= k < |kept| => if kept[k] < |answers| then answers[kept[k]] else PullFails(false))
  }

  lemma {:induction false} OnlyChanged(r: Recording, changes: seq<Change>)
    ensures var after := Changes(r, changes); after == r.(device := after.device, remote := after.remote)
  {
    if changes != [] {
      OnlyChanged(r, changes[..|changes| - 1]);
    }
  }

  lemma {:induction false} OnlyWaited(r: Recording, grace: nat, looks: seq<Look>)
    ensures var after := Waited(r, grace, looks).rec; after == r.(device := after.device, remote := after.remote)
    decreases |looks|
  {
    hide Changes, Pids;
    if looks != [] {
      OnlyChanged(r, looks[0].happened);
      OnlyWaited(Changes(r, looks[0].happened), grace, looks[1..]);
    }
  }

  lemma OnlyStopped(r: Recording, looks: seq<Look>)
    ensures var after := Stopped(r, looks).rec;
            after == r.(segments := KillLive(r.segments), device := after.device, remote := after.remote)
  {
    hide Waited;
    OnlyWaited(r.(segments := KillLive(r.segments)), Grace(r), looks);
  }

  class AndroidRecording {
    var segments: seq<Segment>
    var stopping: bool
    var interruption: Option<Cause>
    var localFiles: set<LocalFile>
    var device: seq<Process>
    var remote: set<nat>
    var disk: set<LocalFile>
    var signalGuards: bool
    var exitGuard: bool

    function State(): Recording
      reads this
    {
      Recording(segments, stopping, interruption, localFiles, device, remote, disk, signalGuards, exitGuard)
    }

    constructor ()
      ensures State() == EMPTY && segments == [] && !stopping && interruption == None && signalGuards && exitGuard
      ensures localFiles == {} && disk == {} && remote == {} && device == []
    {
      segments, stopping, interruption := [], false, None;
      localFiles, device, remote, disk := {}, [], {}, {};
      signalGuards, exitGuard := true, true;
    }

    method StartSegment()
      modifies this
      ensures State() == WithSegment(old(State()))
    {
      device := device + [Absent];
      segments := segments + [SPAWNED];
    }

    /** The exit callback of a segment: record the end, then roll over, note the failure, or leave it to `stop`. */
    method OnSegmentExit(n: nat, ended: Ended)
      requires n < |segments|
      modifies this
      ensures State() == SegmentEnds(old(State()), n, ended)
    {
      segments := segments[n := segments[n].(ended := ended)];
      if !segments[n].pid || segments[n].killed || interruption.Some? || stopping {
        return;
      }
      if ended != Exited(0) {
        interruption := Some(SegmentFailed(n));
        return;
      }
      StartSegment();
    }

    /** What happens on the device while the host waits. */
    method Happen(changes: seq<Change>)
      modifies this`device, this`remote
      ensures State() == Changes(old(State()), changes)
    {
      var k := 0;
      while k < |changes|
        invariant 0 <= k <= |changes|
        invariant State() == Changes(old(State()), changes[..k])
      {
        assert changes[..k + 1][..k] == changes[..k];
        match changes[k] {
          case Starts(n) =>
            if n < |device| && device[n].Absent? {
              device := device[n := Present];
            }
          case Writes(n) =>
            if n < |device| && device[n].Present? {
              remote := remote + {n};
            }
          case Ends(n) =>
            if n < |device| {
              device := device[n := Finished];
            }
        }
        k := k + 1;
      }
      assert changes[..k] == changes;
    }

    /** The polling loop: every owned process that is seen is interrupted once. */
    method WaitForProcesses(grace: nat, looks: seq<Look>) returns (ending: Ending, signaled: seq<nat>)
      modifies this`device, this`remote
      ensures var wait := Waited(old(State()), grace, looks);
              && State() == wait.rec && ending == wait.ending
              && NoDuplicates(signaled) && forall p :: p in signaled <==> p in wait.seen
    {
      hide Changes, Owned;
      ghost var whole := Waited(State(), grace, looks);
      signaled := [];
      var n := 0;
      while n < |looks|
        invariant 0 <= n <= |looks|
        invariant Waited(State(), grace, looks[n..]).rec == whole.rec
        invariant Waited(State(), grace, looks[n..]).ending == whole.ending
        invariant NoDuplicates(signaled)
        invariant forall p :: p in signaled || p in Waited(State(), grace, looks[n..]).seen <==> p in whole.seen
      {
        assert looks[n..][0] == looks[n] && looks[n..][1..] == looks[n + 1..];
        Happen(looks[n].happened);
        if looks[n].elapsedMs >= RECORDING_STOP_TIMEOUT_MS {
          return TimedOut, signaled;
        }
        if looks[n].answer.CheckThrows? {
          return WaitThrew, signaled;
        }
        var pids := Pids(State(), looks[n].answer);
        if pids == [] && looks[n].elapsedMs >= grace {
          return Quiet(looks[n].answer.Listed?), signaled;
        }
        signaled := SignalNew(pids, signaled);
        n := n + 1;
      }
      ending := TimedOut;
    }

    /** Marks every live segment killed, and waits for their processes, interrupting each that is seen once. */
    method StopOwnedRecorders(looks: seq<Look>) returns (threw: bool, signaled: seq<nat>)
      modifies this`segments, this`device, this`remote
      ensures var wait := Stopped(old(State()), looks);
              && State() == wait.rec && threw == wait.ending.WaitThrew?
              && NoDuplicates(signaled) && forall p :: p in signaled <==> p in wait.seen
    {
      hide Waited;
      signaled := [];
      var starting := false;
      var live := false;
      var n := 0;
      ghost var before := segments;
      while n < |segments|
        invariant 0 <= n <= |segments| == |before|
        invariant forall i :: 0 <= i < |segments| ==> segments[i] == if i < n then Kill(before[i]) else before[i]
        invariant live <==> exists i :: 0 <= i < n && before[i].ended.Running?
        invariant starting <==> exists i :: 0 <= i < n && before[i].ended.Running? && !before[i].pid
        modifies this`segments
      {
        if segments[n].ended.Running? {
          live := true;
          starting := starting || !segments[n].pid;
          segments := segments[n := segments[n].(killed := true)];
        }
        n := n + 1;
      }
      assert segments == KillLive(before);
      threw := false;
      if live {
        var ending;
        ending, signaled := WaitForProcesses(if starting then START_GRACE_MS else 0, looks);
        threw := ending.WaitThrew?;
      }
    }

    method Abandon(c: Cleanup) returns (threw: bool)
      modifies this
      ensures State() == Abandoned(old(State()), c) && threw == AbandonThrows(old(State()), c)
    {
      hide Changes, Stopped, Unlinked;
      OnlyStopped(State(), c.looks);
      OnlyChanged(Stopped(State(), c.looks).rec, c.meanwhile);
      var signaled;
      threw, signaled := StopOwnedRecorders(c.looks);
      if threw {
        return;
      }
      Happen(c.meanwhile);
      if |segments| > 0 && c.removes {
        remote := {};
      }
      disk := disk - Unlinked(localFiles, c.stuck);
      threw := localFiles * c.stuck != {};
    }

    method Release(c: Cleanup) returns (threw: bool)
      modifies this
      ensures State() == Released(old(State()), c) && threw == AbandonThrows(old(State()), c)
    {
      threw := Abandon(c);
      if !threw {
        signalGuards, exitGuard := false, false;
      }
    }

    /** A host signal: with a listener of its own the host will call `stop`; without one the recording is abandoned. */
    method Interrupt(listeners: bool, c: Cleanup) returns (threw: bool)
      modifies this
      ensures State() == InterruptedBy(old(State()), listeners, c)
    {
      stopping := true;
      interruption := Some(Signalled);
      signalGuards := false;
      if listeners {
        var signaled;
        threw, signaled := StopOwnedRecorders(c.looks);
      } else {
        threw := Release(c);
      }
    }

    /** The part of `stop` from the end of the last segment to the report: choose, pull, and name what was recorded. */
    method Collect(answers: seq<Pull>, staging: Staging) returns (kept: seq<nat>, recorded: seq<nat>)
      requires segments != []
      modifies this
      ensures Collection(State(), kept, recorded) == Collected(old(State()), answers, staging)
    {
      hide Hauled, KeptSegments, PullsOf;
      recorded := [];
      var tail := segments[|segments| - 1];
      if tail.ended != Exited(0) && interruption.None? {
        interruption := Some(SegmentFailed(|segments| - 1));
      }
      kept := KeptSegments(segments, interruption);
      if |kept| == 0 || !staging.makes {
        return;
      }
      var threw;
      recorded, threw := PullKept(PullsOf(kept, answers));
      if |recorded| == 0 || threw {
        return kept, [];
      }
      localFiles := localFiles + {Timing};
      if !staging.writes {
        return kept, [];
      }
      disk := disk + {Timing};
    }

    /** The pull loop of `stop`: it ends at the first pull that fails. */
    method PullKept(pulls: seq<Pull>) returns (recorded: seq<nat>, threw: bool)
      modifies this`localFiles, this`disk, this`interruption
      ensures var haul := Hauled(old(interruption), pulls);
              && recorded == haul.recorded && threw == haul.threw && interruption == haul.interruption
              && localFiles == old(localFiles) + haul.files && disk == old(disk) + haul.written
    {
      hide Hauled;
      NothingHauled(interruption);
      recorded := [];
      threw := false;
      var k := 0;
      while k < |pulls|
        invariant 0 <= k <= |pulls|
        invariant var haul := Hauled(old(interruption), pulls[..k]);
                  && !haul.broken && !haul.threw && haul.recorded == recorded && haul.interruption == interruption
                  && localFiles == old(localFiles) + haul.files && disk == old(disk) + haul.written
      {
        HauledStep(old(interruption), pulls, k);
        localFiles := localFiles + {Media(k)};
        match pulls[k] {
          case PullFails(partial) =>
            if partial {
              disk := disk + {Media(k)};
            }
            interruption := OrElse(interruption, PullFailed(k));
            StaysBroken(old(interruption), pulls, k + 1);
            return;
          case Unreadable =>
            StaysBroken(old(interruption), pulls, k + 1);
            return recorded, true;
          case Pulled(bytes) =>
            disk := disk + {Media(k)};
            if bytes > 0 {
              recorded := recorded + [k];
            } else {
              interruption := OrElse(interruption, EmptyOutput(k));
            }
        }
        k := k + 1;
      }
      assert pulls[..k] == pulls;
    }
  }

  lemma {:induction false} StaysBroken(interruption: Option<Cause>, pulls: seq<Pull>, n: nat)
    requires n <= |pulls| && Hauled(interruption, pulls[..n]).broken
    ensures Hauled(interruption, pulls) == Hauled(interruption, pulls[..n])
    decreases |pulls|
  {
    if n < |pulls| {
      assert pulls[..|pulls| - 1][..n] == pulls[..n];
      StaysBroken(interruption, pulls[..|pulls| - 1], n);
    } else {
      assert pulls[..n] == pulls;
    }
  }

  /** `stop` blames a last segment that did not end normally, unless something else was blamed before. */
  function TailCause(segments: seq<Segment>, interruption: Option<Cause>): Option<Cause>
    requires segments != []
  {
    if segments[|segments| - 1].ended != Exited(0)
    then OrElse(interruption, SegmentFailed(|segments| - 1)) else interruption
  }

  /** The recording after the pulls, the segments kept, and the positions recorded; with none of them `stop` fails. */
  datatype Collection = Collection(recording: Recording, kept: seq<nat>, recorded: seq<nat>)

  function Collected(r: Recording, answers: seq<Pull>, staging: Staging): Collection
    requires r.segments != []
  {
    var cause := TailCause(r.segments, r.interruption);
    var kept := KeptSegments(r.segments, cause);
    if |kept| == 0 || !staging.makes then Collection(r.(interruption := cause), kept, [])
    else
      var haul := Hauled(cause, PullsOf(kept, answers));
      var pulled := r.(interruption := haul.interruption, localFiles := r.localFiles + haul.files,
        disk := r.disk + haul.written);
      if |haul.recorded| == 0 || haul.threw then Collection(pulled, kept, [])
      else if !staging.writes then Collection(pulled.(localFiles := pulled.localFiles + {Timing}), kept, [])
      else Collection(pulled.(localFiles := pulled.localFiles + {Timing}, disk := pulled.disk + {Timing}), kept,
        haul.recorded)
  }
}
