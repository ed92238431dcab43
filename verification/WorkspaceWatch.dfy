/** Arming a whole workspace: watchers added one target at a time, any of which may fail meanwhile. */
module WorkspaceWatch {

  /** Whether each watcher made so far is still open, whether the watch has stopped, and the calls it made. */
  datatype Watch = Watch(open: seq<bool>, stopped: bool, failed: nat, changed: nat)

  const EMPTY := Watch([], false, 0, 0)

  predicate AllClosed(open: seq<bool>) {
    forall i :: 0 <= i < |open| ==> !open[i]
  }

  function ClosedAll(open: seq<bool>): (after: seq<bool>)
    ensures |after| == |open| && AllClosed(after)
  {
    seq(|open|, i requires 0 <= i < |open| => false)
  }

  function Closed(w: Watch): Watch {
    w.(open := ClosedAll(w.open), stopped := true)
  }

  function Failed(w: Watch): Watch {
    if w.stopped then w else Closed(w).(failed := w.failed + 1)
  }

  /** How far adding a target gets: its state, its watcher, its parent's watcher. */
  datatype AddOutcome = NoTarget | NoWatcher | NoParent | Added

  function WithTarget(w: Watch, outcome: AddOutcome): Watch {
    match outcome
    case NoTarget => w
    case NoWatcher => w
    case NoParent => w.(open := w.open + [true])
    case Added => w.(open := w.open + [true] + [true])
  }

  /** A change below a target; a change of the root's git binding is a failure. */
  function Changed(w: Watch, gitBinding: bool): Watch {
    if w.stopped then w else if gitBinding then Failed(w) else w.(changed := w.changed + 1)
  }

  /** A notification on the parent of a target: a target that is gone, replaced or unreadable is a failure. */
  function ParentNotified(w: Watch, aboutTarget: bool, same: bool): Watch {
    if !aboutTarget || same then w else Failed(w)
  }

  class LocalWorkspace {
    var watchers: seq<bool>
    var stopped: bool
    var failedCalls: nat
    var changedCalls: nat

    function State(): Watch
      reads this
    {
      Watch(watchers, stopped, failedCalls, changedCalls)
    }

    constructor ()
      ensures State() == EMPTY && watchers == [] && !stopped && failedCalls == 0 && changedCalls == 0
    {
      watchers, stopped, failedCalls, changedCalls := [], false, 0, 0;
    }

    method Close()
      modifies this
      ensures State() == Closed(old(State()))
    {
      stopped := true;
      var i := 0;
      while i < |watchers|
        invariant 0 <= i <= |watchers| == |old(watchers)|
        invariant AllClosed(watchers[..i])
        invariant stopped && failedCalls == old(failedCalls) && changedCalls == old(changedCalls)
      {
        watchers := watchers[i := false];
        i := i + 1;
      }
      assert watchers[..i] == watchers;
      assert watchers == ClosedAll(old(watchers));
    }

    method Fail()
      modifies this
      ensures State() == Failed(old(State()))
    {
      if !stopped {
        Close();
        failedCalls := failedCalls + 1;
      }
    }

    /** Adds the watchers of one target; `added` is false when a step of it throws. */
    method Add(outcome: AddOutcome) returns (added: bool)
      modifies this`watchers
      ensures State() == WithTarget(old(State()), outcome) && added == outcome.Added?
    {
      if outcome.NoTarget? || outcome.NoWatcher? {
        return false;
      }
      watchers := watchers + [true];
      if outcome.NoParent? {
        return false;
      }
      watchers := watchers + [true];
      added := true;
    }

    method OnChange(gitBinding: bool)
      modifies this
      ensures State() == Changed(old(State()), gitBinding)
    {
      if stopped {
        return;
      }
      if gitBinding {
        Fail();
        return;
      }
      changedCalls := changedCalls + 1;
    }

    method OnParent(aboutTarget: bool, same: bool)
      modifies this
      ensures State() == ParentNotified(old(State()), aboutTarget, same)
    {
      if !aboutTarget || same {
        return;
      }
      Fail();
    }

    /** The last step of arming: a failure on the way turns it down after all. */
    method FinishArming() returns (armed: bool)
      modifies this
      ensures armed == !old(stopped)
      ensures State() == if armed then old(State()) else Closed(old(State()))
    {
      armed := !stopped;
      if !armed {
        Close();
      }
    }
  }

  // ----- every interleaving -----

  datatype Phase = Arming | Armed | Rejected

  datatype System = System(watch: Watch, phase: Phase)

  datatype Event =
    | AddTarget(outcome: AddOutcome)
    | DiscoveryFails
    | ArmingEnds
    | Change(gitBinding: bool)
    | ParentNotice(aboutTarget: bool, same: bool)
    | WatcherError
    | CloseCall

  function Step(s: System, e: Event): System {
    match e
    case AddTarget(outcome) =>
      if !s.phase.Arming? then s
      else if outcome.Added? then s.(watch := WithTarget(s.watch, outcome))
      else System(Closed(WithTarget(s.watch, outcome)), Rejected)
    case DiscoveryFails => if s.phase.Arming? then System(Closed(s.watch), Rejected) else s
    case ArmingEnds =>
      if !s.phase.Arming? then s
      else if s.watch.stopped then System(Closed(s.watch), Rejected)
      else s.(phase := Armed)
    case Change(gitBinding) => s.(watch := Changed(s.watch, gitBinding))
    case ParentNotice(aboutTarget, same) => s.(watch := ParentNotified(s.watch, aboutTarget, same))
    case WatcherError => s.(watch := Failed(s.watch))
    case CloseCall => if s.phase.Armed? then s.(watch := Closed(s.watch)) else s
  }

  const START := System(EMPTY, Arming)

  function Run(events: seq<Event>): System {
    if events == [] then START else Step(Run(events[..|events| - 1]), events[|events| - 1])
  }

  predicate Invariant(s: System) {
    && (s.phase.Rejected? ==> s.watch.stopped)
    && (s.watch.stopped && !s.phase.Arming? ==> AllClosed(s.watch.open))
    && s.watch.failed <= (if s.watch.stopped then 1 else 0)
  }

  lemma StepKeeps(s: System, e: Event)
    requires Invariant(s)
    ensures Invariant(Step(s, e))
    ensures s.watch.stopped ==> Step(s, e).watch.stopped
    ensures s.watch.stopped ==> Step(s, e).watch.changed == s.watch.changed && Step(s, e).watch.failed == s.watch.failed
  {
    hide AllClosed;
  }

  /**
   Arming is all or nothing. In every interleaving, once arming has settled and it was rejected, or the
   watch was closed, or a watcher failed, every watcher ever made is closed; and a failure is told at most once.
   */
  lemma {:induction false} AllOrNothing(events: seq<Event>)
    ensures var s := Run(events);
            && Invariant(s)
            && (!s.phase.Arming? && (s.phase.Rejected? || s.watch.stopped || s.watch.failed > 0) ==>
                 AllClosed(s.watch.open))
            && s.watch.failed <= 1
  {
    hide Step, AllClosed;
    if events != [] {
      AllOrNothing(events[..|events| - 1]);
      StepKeeps(Run(events[..|events| - 1]), events[|events| - 1]);
    } else {
      NoneOpen();
    }
  }

  lemma NoneOpen()
    ensures AllClosed([])
  {
  }

  /** Once stopped, by `close` or a failure, neither callback is ever called again. */
  lemma {:induction false} SilentOnceStopped(events: seq<Event>, more: seq<Event>)
    requires Run(events).watch.stopped
    ensures var after := Run(events + more).watch;
            after.stopped && after.changed == Run(events).watch.changed && after.failed == Run(events).watch.failed
  {
    hide Step, Invariant;
    if more == [] {
      assert events + more == events;
    } else {
      var before := more[..|more| - 1];
      assert (events + more)[..|events + more| - 1] == events + before;
      SilentOnceStopped(events, before);
      AllOrNothing(events + before);
      StepKeeps(Run(events + before), more[|more| - 1]);
    }
  }

  /** A failure before arming settles is not lost: arming can then only be rejected. */
  lemma {:induction false} FailureRejects(events: seq<Event>, more: seq<Event>)
    requires Run(events).phase.Arming? && Run(events).watch.stopped
    ensures !Run(events + more).phase.Armed?
  {
    hide Invariant, AllClosed;
    if more == [] {
      assert events + more == events;
    } else {
      var before := more[..|more| - 1];
      assert (events + more)[..|events + more| - 1] == events + before;
      FailureRejects(events, before);
      SilentOnceStopped(events, before);
    }
  }

  /** Why arming must settle first: a target added after a failure is open until then. */
  lemma OpenAfterFailure()
    ensures var s := Run([AddTarget(Added), WatcherError, AddTarget(Added)]);
            s.phase.Arming? && s.watch.failed == 1 && s.watch.open == [false, false, true, true]
  {
    var a, b, c := AddTarget(Added), WatcherError, AddTarget(Added);
    var all: seq<Event> := [a, b, c];
    assert all[..2] == [a, b] && [a, b][..1] == [a] && [a][..0] == [];
    assert Run([a]).watch.open == [true, true];
    assert Run([a, b]).watch.open == [false, false];
  }

  // ----- what is told, and when -----

  /** The event is a failure of the watch: of a watcher, of the git binding, or of a target that was replaced. */
  predicate IsFailure(e: Event) {
    e == WatcherError || e == Change(true) || e == ParentNotice(true, false)
  }

  /** The event ends the watch: a failure, an arming that goes wrong, or a close of an armed watch. */
  predicate Ends(phase: Phase, e: Event) {
    || IsFailure(e)
    || (phase.Arming? && (e.DiscoveryFails? || (e.AddTarget? && e.outcome != Added)))
    || (phase.Armed? && e.CloseCall?)
  }

  /** A watch that is not stopped tells every change and every failure, stops at what ends it, and else goes on. */
  lemma StepIs(s: System, e: Event)
    ensures var before, after := s.watch, Step(s, e).watch;
            && (after.stopped <==> before.stopped || Ends(s.phase, e))
            && after.failed == before.failed + (if !before.stopped && IsFailure(e) then 1 else 0)
            && after.changed == before.changed + (if !before.stopped && e == Change(false) then 1 else 0)
            && (!before.stopped && after.stopped ==> AllClosed(after.open))
            && (!before.stopped && !after.stopped ==>
                  after.open == before.open + if s.phase.Arming? && e.AddTarget? then [true, true] else [])
  {
    hide AllClosed;
    assert s.watch.open + [] == s.watch.open && s.watch.open + [true] + [true] == s.watch.open + [true, true];
  }

  ghost predicate EndsAt(events: seq<Event>, k: int) {
    0 <= k < |events| && Ends(Run(events[..k]).phase, events[k])
  }

  /** The first of what ends the watch is a failure. */
  ghost predicate FailsAt(events: seq<Event>, k: int) {
    EndsAt(events, k) && IsFailure(events[k]) && forall j :: j < k ==> !EndsAt(events, j)
  }

  lemma EndsLater(events: seq<Event>, e: Event, k: int)
    ensures EndsAt(events + [e], k) <==>
              if k == |events| then Ends(Run(events).phase, e) else EndsAt(events, k)
  {
    hide Ends, Run;
    if 0 <= k <= |events| {
      assert (events + [e])[..k] == events[..k];
      assert events[..|events|] == events;
    }
  }

  lemma EndsInside(events: seq<Event>, k: int)
    ensures EndsAt(events, k) ==> 0 <= k < |events|
  {
  }

  /** In every interleaving a watch has stopped exactly if something ended it, and told of that if it was a failure. */
  lemma {:induction false} ToldIff(events: seq<Event>)
    ensures Run(events).watch.stopped <==> exists k :: EndsAt(events, k)
    ensures Run(events).watch.failed == if exists k :: FailsAt(events, k) then 1 else 0
  {
    hide Step, Ends, EndsAt;
    if events == [] {
      NothingEnds();
    } else {
      var before, e := events[..|events| - 1], events[|events| - 1];
      var n := |before|;
      assert events == before + [e];
      ToldIff(before);
      StepIs(Run(before), e);
      forall k: int
        ensures EndsAt(events, k) <==> if k == n then Ends(Run(before).phase, e) else EndsAt(before, k)
        ensures EndsAt(before, k) ==> 0 <= k < n && events[k] == before[k]
      {
        EndsLater(before, e, k);
        EndsInside(before, k);
      }
      FailureEnds(Run(before).phase, e);
      forall k: int
        ensures FailsAt(events, k) <==>
                  if k == n then !Run(before).watch.stopped && IsFailure(e) else FailsAt(before, k)
      {
      }
      assert FailsAt(events, n) <==> !Run(before).watch.stopped && IsFailure(e);
    }
  }

  lemma FailureEnds(phase: Phase, e: Event)
    ensures IsFailure(e) ==> Ends(phase, e)
  {
  }

  lemma NothingEnds()
    ensures forall k :: !EndsAt([], k)
  {
  }

  /** The changes among the events. */
  function ChangesIn(events: seq<Event>): nat {
    if events == [] then 0
    else ChangesIn(events[..|events| - 1]) + if events[|events| - 1] == Change(false) then 1 else 0
  }

  /** Until the watch stops every change is told, once; and from then on none. */
  lemma {:induction false} ChangesAreTold(events: seq<Event>, more: seq<Event>)
    requires !Run(events).watch.stopped && (more != [] ==> Run(events + [more[0]]).watch.stopped)
    ensures Run(events).watch.changed == ChangesIn(events)
    ensures more != [] ==> Run(events + more).watch.changed == ChangesIn(events)
    decreases |events|
  {
    hide Step;
    if events != [] {
      var before, e := events[..|events| - 1], events[|events| - 1];
      StepIs(Run(before), e);
      ChangesAreTold(before, []);
    }
    if more != [] {
      var e := more[0];
      assert (events + [e])[..|events|] == events;
      StepIs(Run(events), e);
      SilentOnceStopped(events + [e], more[1..]);
      assert events + [e] + more[1..] == events + more;
      PlainChange(Run(events), e);
    }
  }

  lemma PlainChange(s: System, e: Event)
    ensures e == Change(false) ==> !Ends(s.phase, e)
  {
  }
}
