/**
 A watch on one file: notifications start reads, reads finish in any order, and only the newest read may
 speak. The file's history, the reads in flight and the watch form one system; the theorems hold in
 every state that any interleaving of changes, notifications, reads, errors and `stop` can reach.
 */
module FsWatch {
  import opened Results

  /** What a read finds: the content, no file, or another failure. */
  datatype FileState = Content(text: nat) | Deleted | Unreadable(code: nat)

  datatype Options = Options(notificationsOnly: bool, onUnavailable: bool)

  /** What the watch tells its consumer; a bare notification carries no content. */
  datatype Call =
    | OnChange(text: nat)
    | Woken
    | OnUnavailable(state: FileState)
    | WatchFailed(code: nat)
    | Thrown(code: nat)

  datatype Watch = Watch(open: bool, stopped: bool, last: Option<FileState>, generation: nat)

  // ----- the watch -----

  function CallFor(opts: Options, state: FileState): seq<Call> {
    if state.Content? then [OnChange(state.text)] else if opts.onUnavailable then [OnUnavailable(state)] else []
  }

  /** A finished read counts only if no newer read or stop came in between, and it saw something new. */
  predicate Counts(w: Watch, current: nat, seen: FileState) {
    !w.stopped && current == w.generation && w.last != Some(seen)
  }

  predicate Wakes(w: Watch, matches: bool) {
    w.open && matches
  }

  function Noticed(opts: Options, w: Watch, matches: bool): Watch {
    if Wakes(w, matches) && !opts.notificationsOnly && !w.stopped then w.(generation := w.generation + 1) else w
  }

  function Completed(w: Watch, current: nat, seen: FileState): Watch {
    if Counts(w, current, seen) then w.(last := Some(seen)) else w
  }

  function Closed(w: Watch): Watch {
    w.(open := false, stopped := true, generation := w.generation + 1)
  }

  function Armed(parentExists: bool): Watch {
    Watch(parentExists, false, None, 0)
  }

  class FileWatch {
    const options: Options
    var watcherOpen: bool
    var stopped: bool
    var lastObservation: Option<FileState>
    var generation: nat
    /** The calls made so far. */
    var calls: seq<Call>

    function State(): Watch
      reads this
    {
      Watch(watcherOpen, stopped, lastObservation, generation)
    }

    /**
     Watching needs the parent directory: without it there is no watch, or an inactive one for a consumer of content
     alone.
     */
    constructor (options: Options, parentExists: bool)
      requires parentExists || !options.onUnavailable
      ensures this.options == options && calls == [] && State() == Armed(parentExists)
      ensures watcherOpen == parentExists && !stopped && lastObservation == None
    {
      this.options := options;
      watcherOpen := parentExists;
      stopped := false;
      lastObservation := None;
      generation := 0;
      calls := [];
    }

    /** A notification on the parent directory; the answer is the generation of the read it starts. */
    method OnEvent(matches: bool) returns (started: Option<nat>)
      modifies this
      ensures State() == Noticed(options, old(State()), matches)
      ensures calls == old(calls) + if Wakes(old(State()), matches) && options.notificationsOnly then [Woken] else []
      ensures started == if State() == old(State()) then None else Some(generation)
    {
      started := None;
      if !watcherOpen || !matches {
        return;
      }
      if options.notificationsOnly {
        calls := calls + [Woken];
      } else {
        started := Observe();
      }
    }

    method Observe() returns (started: Option<nat>)
      modifies this`generation
      ensures generation == old(generation) + if stopped then 0 else 1
      ensures started == if stopped then None else Some(generation)
    {
      if stopped {
        return None;
      }
      generation := generation + 1;
      started := Some(generation);
    }

    /** What `observe` does once its read has answered. */
    method FinishObserve(current: nat, observation: FileState)
      modifies this
      ensures State() == Completed(old(State()), current, observation)
      ensures calls == old(calls) +
              if Counts(old(State()), current, observation) then CallFor(options, observation) else []
    {
      if stopped || current != generation {
        return;
      }
      if Some(observation) == lastObservation {
        return;
      }
      lastObservation := Some(observation);
      if observation.Content? {
        calls := calls + [OnChange(observation.text)];
      } else if options.onUnavailable {
        calls := calls + [OnUnavailable(observation)];
      }
    }

    /** The native watcher failed: the watch ends, and says so once. */
    method OnError(code: nat)
      modifies this
      ensures if old(stopped) then State() == old(State()) && calls == old(calls)
              else State() == Closed(old(State())) && calls == old(calls) + FailureCall(options, code)
    {
      if stopped {
        return;
      }
      generation := generation + 1;
      watcherOpen := false;
      stopped := true;
      if options.onUnavailable {
        calls := calls + [WatchFailed(code)];
      } else {
        calls := calls + [Thrown(code)];
      }
    }

    method Stop()
      modifies this
      ensures State() == Closed(old(State())) && calls == old(calls)
    {
      stopped := true;
      generation := generation + 1;
      if watcherOpen {
        watcherOpen := false;
      }
    }
  }

  function FailureCall(opts: Options, code: nat): seq<Call> {
    if opts.onUnavailable then [WatchFailed(code)] else [Thrown(code)]
  }

  // ----- the file, the reads and the watch together -----

  /** An observation that counted: the version of the file it saw. */
  datatype Seen = Seen(version: nat, state: FileState)

  /**
   `history` is every state the file has had. `pending` maps the generation of a read in flight to the
   version it has taken, once it has. `announced` says a notification came after the last change.
   */
  datatype System = System(history: seq<FileState>, pending: map<nat, Option<nat>>, announced: bool,
                           watch: Watch, observed: seq<Seen>, calls: seq<Call>)

  datatype Event =
    | Change(state: FileState)
    | Notice(matches: bool)
    | Take(generation: nat)
    | Finish(generation: nat)
    | WatcherError(code: nat)
    | StopCall

  function Start(initial: FileState, parentExists: bool): System {
    System([initial], map[], false, Armed(parentExists), [], [])
  }

  predicate Takes(s: System, generation: nat) {
    generation in s.pending && s.pending[generation].None? && s.history != []
  }

  predicate Finishes(s: System, generation: nat) {
    generation in s.pending && s.pending[generation].Some? && s.pending[generation].value < |s.history|
  }

  function Step(opts: Options, s: System, e: Event): System {
    match e
    case Change(state) => s.(history := s.history + [state], announced := false)
    case Notice(matches) =>
      var watch := Noticed(opts, s.watch, matches);
      var woken := Wakes(s.watch, matches) && opts.notificationsOnly;
      s.(watch := watch, calls := s.calls + if woken then [Woken] else [],
         pending := if watch == s.watch then s.pending else s.pending[watch.generation := None],
         announced := s.announced || watch != s.watch)
    case Take(g) =>
      if Takes(s, g) then s.(pending := s.pending[g := Some(|s.history| - 1)]) else s
    case Finish(g) =>
      if !Finishes(s, g) then s
      else
        var version := s.pending[g].value;
        var state := s.history[version];
        s.(pending := s.pending - {g}, watch := Completed(s.watch, g, state),
           observed := s.observed + if Counts(s.watch, g, state) then [Seen(version, state)] else [],
           calls := s.calls + if Counts(s.watch, g, state) then CallFor(opts, state) else [])
    case WatcherError(code) =>
      if s.watch.stopped then s else s.(watch := Closed(s.watch), calls := s.calls + FailureCall(opts, code))
    case StopCall => s.(watch := Closed(s.watch))
  }

  function Run(opts: Options, s: System, events: seq<Event>): System {
    if events == [] then s else Step(opts, Run(opts, s, events[..|events| - 1]), events[|events| - 1])
  }

  // ----- what every state keeps -----

  predicate InOrder(observed: seq<Seen>) {
    forall i, j :: 0 <= i < j < |observed| ==> observed[i].version <= observed[j].version
  }

  predicate NoRepeats(observed: seq<Seen>) {
    forall i :: 0 < i < |observed| ==> observed[i - 1].state != observed[i].state
  }

  predicate TrueTo(observed: seq<Seen>, history: seq<FileState>) {
    forall i :: 0 <= i < |observed| ==>
        observed[i].version < |history| && history[observed[i].version] == observed[i].state
  }

  function LastVersion(observed: seq<Seen>): nat {
    if observed == [] then 0 else observed[|observed| - 1].version
  }

  function LastSeen(observed: seq<Seen>): Option<FileState> {
    if observed == [] then None else Some(observed[|observed| - 1].state)
  }

  predicate ReadsFit(s: System) {
    forall g :: g in s.pending ==>
      && g <= s.watch.generation
      && (s.pending[g].Some? ==> s.pending[g].value < |s.history|)
  }

  /** The only read that can still count saw nothing older than what was seen last. */
  predicate NewestIsNewer(s: System) {
    var g := s.watch.generation;
    g in s.pending && s.pending[g].Some? ==> s.pending[g].value >= LastVersion(s.observed)
  }

  /** After an announced change the newest read is on its way to the file's state, or that state is known. */
  predicate OnItsWay(s: System) {
    var g, now := s.watch.generation, |s.history| - 1;
    s.announced && !s.watch.stopped && now >= 0 ==>
      if g in s.pending then s.pending[g].None? || s.pending[g] == Some(now) else s.watch.last == Some(s.history[now])
  }

  predicate Invariant(s: System) {
    && s.history != [] && ReadsFit(s)
    && InOrder(s.observed) && NoRepeats(s.observed) && TrueTo(s.observed, s.history)
    && s.watch.last == LastSeen(s.observed)
    && NewestIsNewer(s) && OnItsWay(s)
    && (s.watch.stopped ==> !s.watch.open)
  }

  lemma SeenGrows(observed: seq<Seen>, next: Seen, history: seq<FileState>)
    requires InOrder(observed) && NoRepeats(observed) && TrueTo(observed, history)
    requires next.version < |history| && history[next.version] == next.state
    requires next.version >= LastVersion(observed) && LastSeen(observed) != Some(next.state)
    ensures InOrder(observed + [next]) && NoRepeats(observed + [next]) && TrueTo(observed + [next], history)
  {
  }

  lemma HistoryGrows(observed: seq<Seen>, history: seq<FileState>, state: FileState)
    requires TrueTo(observed, history)
    ensures TrueTo(observed, history + [state])
  {
  }

  lemma LastInside(observed: seq<Seen>, history: seq<FileState>)
    requires TrueTo(observed, history) && history != []
    ensures LastVersion(observed) < |history|
  {
  }

  lemma FinishKeeps(opts: Options, s: System, g: nat)
    requires Invariant(s) && Finishes(s, g)
    ensures Invariant(Step(opts, s, Finish(g)))
  {
    hide InOrder, NoRepeats, TrueTo, CallFor;
    var seen := Seen(s.pending[g].value, s.history[s.pending[g].value]);
    if Counts(s.watch, g, seen.state) {
      SeenGrows(s.observed, seen, s.history);
    } else {
      assert s.observed + [] == s.observed;
    }
  }

  lemma StepKeeps(opts: Options, s: System, e: Event)
    requires Invariant(s)
    ensures Invariant(Step(opts, s, e))
  {
    hide InOrder, NoRepeats, TrueTo, CallFor, FailureCall, Counts, Completed;
    if e.Finish? && Finishes(s, e.generation) {
      FinishKeeps(opts, s, e.generation);
    } else if e.Change? {
      HistoryGrows(s.observed, s.history, e.state);
    } else {
      LastInside(s.observed, s.history);
    }
  }

  lemma {:induction false} EveryRunKeeps(opts: Options, s: System, events: seq<Event>)
    requires Invariant(s)
    ensures Invariant(Run(opts, s, events))
  {
    hide Invariant, Step;
    if events != [] {
      EveryRunKeeps(opts, s, events[..|events| - 1]);
      StepKeeps(opts, Run(opts, s, events[..|events| - 1]), events[|events| - 1]);
    }
  }

  /** Starts a watch; a consumer of failures is refused one when the parent directory is missing. */
  method StartWatch(options: Options, parentExists: bool) returns (watch: FileWatch?)
    ensures watch == null <==> !parentExists && options.onUnavailable
    ensures watch != null ==>
              fresh(watch) && watch.options == options && watch.calls == [] && watch.State() == Armed(parentExists)
  {
    if !parentExists && options.onUnavailable {
      return null;
    }
    watch := new FileWatch(options, parentExists);
  }

  lemma StartFits(initial: FileState, parentExists: bool)
    ensures Invariant(Start(initial, parentExists))
  {
  }

  // ----- order and no repeats -----

  /**
   What a watch has seen never goes back in the file's history, is what the file then held, and no two
   consecutive observations are equal, whatever the interleaving.
   */
  lemma ObservationsInOrder(opts: Options, initial: FileState, parentExists: bool, events: seq<Event>)
    ensures var s := Run(opts, Start(initial, parentExists), events);
            InOrder(s.observed) && TrueTo(s.observed, s.history) && NoRepeats(s.observed)
  {
    hide Run;
    StartFits(initial, parentExists);
    EveryRunKeeps(opts, Start(initial, parentExists), events);
  }

  /** The calls the observations account for. */
  function CallsFor(opts: Options, observed: seq<Seen>): seq<Call> {
    if observed == [] then []
    else CallsFor(opts, observed[..|observed| - 1]) + CallFor(opts, observed[|observed| - 1].state)
  }

  /** A reading watch makes exactly the calls of its observations, in order, then at most one failure call, its last. */
  ghost predicate CallsAccounted(opts: Options, s: System) {
    || s.calls == CallsFor(opts, s.observed)
    || (s.watch.stopped && exists code :: s.calls == CallsFor(opts, s.observed) + FailureCall(opts, code))
  }

  lemma CallsStep(opts: Options, s: System, e: Event)
    requires !opts.notificationsOnly && CallsAccounted(opts, s)
    ensures CallsAccounted(opts, Step(opts, s, e))
  {
    hide CallFor, FailureCall;
    var after := Step(opts, s, e);
    if e.Finish? && Finishes(s, e.generation) {
      var state := s.history[s.pending[e.generation].value];
      if Counts(s.watch, e.generation, state) {
        var seen := Seen(s.pending[e.generation].value, state);
        assert (s.observed + [seen])[..|s.observed|] == s.observed;
      } else {
        assert s.observed + [] == s.observed && s.calls + [] == s.calls;
      }
    } else {
      assert s.calls + [] == s.calls;
    }
  }

  lemma {:induction false} CallsAreObservations(opts: Options, initial: FileState, parentExists: bool,
                                                events: seq<Event>)
    requires !opts.notificationsOnly
    ensures CallsAccounted(opts, Run(opts, Start(initial, parentExists), events))
  {
    hide Step, CallsAccounted;
    if events != [] {
      CallsAreObservations(opts, initial, parentExists, events[..|events| - 1]);
      CallsStep(opts, Run(opts, Start(initial, parentExists), events[..|events| - 1]), events[|events| - 1]);
    } else {
      NoCalls(opts, initial, parentExists);
    }
  }

  lemma NoCalls(opts: Options, initial: FileState, parentExists: bool)
    ensures CallsAccounted(opts, Start(initial, parentExists))
  {
  }

  /** A text is told as it is, and anything else as what it was. */
  predicate Tells(call: Call, state: FileState) {
    call == if state.Content? then OnChange(state.text) else OnUnavailable(state)
  }

  /** A consumer that hears of failures gets one call for each observation, so no two consecutive calls say the same. */
  lemma {:induction false} OneCallEach(opts: Options, observed: seq<Seen>)
    requires opts.onUnavailable
    ensures |CallsFor(opts, observed)| == |observed|
    ensures forall i :: 0 <= i < |observed| ==> Tells(CallsFor(opts, observed)[i], observed[i].state)
    ensures forall i :: 0 <= i < |observed| ==> [CallsFor(opts, observed)[i]] == CallFor(opts, observed[i].state)
    ensures NoRepeats(observed) ==>
              forall i :: 0 < i < |observed| ==> CallsFor(opts, observed)[i - 1] != CallsFor(opts, observed)[i]
  {
    if observed != [] {
      OneCallEach(opts, observed[..|observed| - 1]);
    }
  }

  // ----- after the end, and when things are quiet -----

  lemma StoppedStep(opts: Options, s: System, e: Event)
    requires s.watch.stopped && !s.watch.open
    ensures var after := Step(opts, s, e);
            after.watch.stopped && !after.watch.open && after.calls == s.calls && after.observed == s.observed
  {
    assert s.calls + [] == s.calls && s.observed + [] == s.observed;
  }

  /** Once stopped, by `stop` or by a failure of the watcher, nothing is ever observed or called again. */
  lemma {:induction false} StoppedIsSilent(opts: Options, s: System, events: seq<Event>)
    requires Invariant(s) && s.watch.stopped
    ensures var after := Run(opts, s, events);
            after.watch.stopped && !after.watch.open && after.calls == s.calls && after.observed == s.observed
  {
    hide Step;
    if events != [] {
      StoppedIsSilent(opts, s, events[..|events| - 1]);
      StoppedStep(opts, Run(opts, s, events[..|events| - 1]), events[|events| - 1]);
    }
  }

  function Now(s: System): FileState {
    if s.history == [] then Deleted else s.history[|s.history| - 1]
  }

  predicate NoChange(events: seq<Event>) {
    forall i :: 0 <= i < |events| ==> !events[i].Change?
  }

  lemma {:induction false} RunAppend(opts: Options, s: System, a: seq<Event>, b: seq<Event>)
    ensures Run(opts, s, a + b) == Run(opts, Run(opts, s, a), b)
    decreases |b|
  {
    hide Step;
    if b == [] {
      assert a + b == a;
    } else {
      assert (a + b)[..|a + b| - 1] == a + b[..|b| - 1];
      RunAppend(opts, s, a, b[..|b| - 1]);
    }
  }

  lemma {:induction false} StaysAnnounced(opts: Options, s: System, events: seq<Event>)
    requires s.announced && NoChange(events)
    ensures Run(opts, s, events).announced && Run(opts, s, events).history == s.history
  {
    if events != [] {
      StaysAnnounced(opts, s, events[..|events| - 1]);
    }
  }

  /**
   Convergence. If the last change was followed by a notification that reached a reading watch, and
   no read is in flight any more, the last observation is the file's state now. A consumer of failures was
   told so last; a consumer of content alone was told last the last text there was, which is the
   file's text now if it has one.
   */
  lemma QuietMeansCurrent(opts: Options, initial: FileState, parentExists: bool, before: seq<Event>, after: seq<Event>)
    requires !opts.notificationsOnly && NoChange(after)
    requires Run(opts, Start(initial, parentExists), before).watch.open
    requires var s := Run(opts, Start(initial, parentExists), before + [Notice(true)] + after);
             s.pending == map[] && !s.watch.stopped
    ensures var s := Run(opts, Start(initial, parentExists), before + [Notice(true)] + after);
            var now := Now(s);
            && s.watch.last == Some(now) && LastSeen(s.observed) == Some(now)
            && (opts.onUnavailable ==> s.calls != [] && [s.calls[|s.calls| - 1]] == CallFor(opts, now))
            && (!opts.onUnavailable ==>
                  && (now.Content? ==> LastText(s.observed) == Some(now.text))
                  && (s.calls == [] <==> LastText(s.observed) == None)
                  && (s.calls != [] ==> s.calls[|s.calls| - 1] == OnChange(LastText(s.observed).value)))
  {
    hide Run, CallFor;
    if !opts.onUnavailable {
      LastTextIsTold(opts, Run(opts, Start(initial, parentExists), before + [Notice(true)] + after).observed);
    }
    var start := Start(initial, parentExists);
    StartFits(initial, parentExists);
    var s0 := Run(opts, start, before);
    EveryRunKeeps(opts, start, before);
    var s1 := Run(opts, start, before + [Notice(true)]);
    EveryRunKeeps(opts, start, before + [Notice(true)]);
    RunOne(opts, start, before, Notice(true));
    RunAppend(opts, start, before + [Notice(true)], after);
    StaysAnnounced(opts, s1, after);
    EveryRunKeeps(opts, start, before + [Notice(true)] + after);
    CallsAreObservations(opts, initial, parentExists, before + [Notice(true)] + after);
    if opts.onUnavailable {
      OneCallEach(opts, Run(opts, start, before + [Notice(true)] + after).observed);
    }
  }

  lemma RunOne(opts: Options, s: System, events: seq<Event>, e: Event)
    ensures Run(opts, s, events + [e]) == Step(opts, Run(opts, s, events), e)
  {
    hide Step;
    assert (events + [e])[..|events|] == events;
  }

  // ----- consumers of content alone -----

  /** The text a consumer of content alone was told last. */
  function LastText(observed: seq<Seen>): Option<nat> {
    if observed == [] then None
    else
      var last := observed[|observed| - 1].state;
      if last.Content? then Some(last.text) else LastText(observed[..|observed| - 1])
  }

  /** The last call to a consumer of content alone tells the last text observed. */
  lemma {:induction false} LastTextIsTold(opts: Options, observed: seq<Seen>)
    requires !opts.onUnavailable
    ensures var calls := CallsFor(opts, observed);
            && (calls == [] <==> LastText(observed).None?)
            && (calls != [] ==> calls[|calls| - 1] == OnChange(LastText(observed).value))
  {
    if observed != [] {
      LastTextIsTold(opts, observed[..|observed| - 1]);
    }
  }

  /**
   Exactly when a consumer of content alone is told the same text twice running: the newest read
   finds the text told last, after an observation of a failure that the consumer never heard of.
   */
  lemma RepeatExactly(opts: Options, s: System, g: nat, text: nat)
    requires Invariant(s) && !opts.onUnavailable && Finishes(s, g) && LastText(s.observed) == Some(text)
    ensures Step(opts, s, Finish(g)).calls == s.calls + [OnChange(text)] <==>
              && g == s.watch.generation && !s.watch.stopped
              && s.history[s.pending[g].value] == Content(text) && !s.watch.last.value.Content?
  {
    var after := Step(opts, s, Finish(g));
    assert s.observed != [];
    assert |s.calls + []| == |s.calls|;
    if after.calls == s.calls + [OnChange(text)] {
      assert after.calls[|s.calls|] == OnChange(text);
    }
  }

  /** A notification, a read and its answer, with nothing in between. */
  function ReadNow(g: nat): seq<Event> {
    [Notice(true)] + [Take(g)] + [Finish(g)]
  }

  lemma ReadsNow(opts: Options, s: System)
    requires s.history != [] && s.watch.open && !s.watch.stopped && s.pending == map[] && !opts.notificationsOnly &&
             !opts.onUnavailable
    requires s.watch.last != Some(Now(s))
    ensures var after := Run(opts, s, ReadNow(s.watch.generation + 1));
            && after.history == s.history && after.pending == map[]
            && after.watch == Watch(true, false, Some(Now(s)), s.watch.generation + 1)
            && after.calls == s.calls + CallFor(opts, Now(s))
            && after.observed == s.observed + [Seen(|s.history| - 1, Now(s))]
  {
    hide CallFor;
    var g := s.watch.generation + 1;
    RunOne(opts, s, [], Notice(true));
    assert [] + [Notice(true)] == [Notice(true)];
    var s1 := Step(opts, s, Notice(true));
    RunOne(opts, s, [Notice(true)], Take(g));
    var s2 := Step(opts, s1, Take(g));
    RunOne(opts, s, [Notice(true)] + [Take(g)], Finish(g));
    assert s2.pending == map[g := Some(|s.history| - 1)];
    assert s2.pending - {g} == map[];
    assert s.calls + [] == s.calls;
  }

  lemma ChangesNow(opts: Options, s: System, state: FileState)
    ensures Run(opts, s, [Change(state)]) == s.(history := s.history + [state], announced := false)
  {
    RunOne(opts, s, [], Change(state));
    assert [] + [Change(state)] == [Change(state)];
  }

  /** The run that shows it: a file is seen, seen deleted, and seen again as it was; the text is told twice. */
  lemma DeletedBetween()
    ensures var opts := Options(false, false);
            Run(opts, Start(Content(7), true),
              ReadNow(1) + [Change(Deleted)] + ReadNow(2) + [Change(Content(7))] + ReadNow(3)).calls
              == [OnChange(7), OnChange(7)]
  {
    hide Run, ReadNow, Step;
    var opts := Options(false, false);
    var s0 := Start(Content(7), true);
    ReadsNow(opts, s0);
    var s1 := Run(opts, s0, ReadNow(1));
    RunAppend(opts, s0, ReadNow(1), [Change(Deleted)]);
    ChangesNow(opts, s1, Deleted);
    var s2 := Run(opts, s1, [Change(Deleted)]);
    ReadsNow(opts, s2);
    RunAppend(opts, s0, ReadNow(1) + [Change(Deleted)], ReadNow(2));
    var s3 := Run(opts, s2, ReadNow(2));
    RunAppend(opts, s0, ReadNow(1) + [Change(Deleted)] + ReadNow(2), [Change(Content(7))]);
    ChangesNow(opts, s3, Content(7));
    var s4 := Run(opts, s3, [Change(Content(7))]);
    ReadsNow(opts, s4);
    RunAppend(opts, s0, ReadNow(1) + [Change(Deleted)] + ReadNow(2) + [Change(Content(7))], ReadNow(3));
  }

  // ----- which writes are seen -----

  predicate WasSeen(observed: seq<Seen>, v: nat) {
    exists i :: 0 <= i < |observed| && observed[i].version == v
  }

  /** The read of generation `g` takes the file while it stands as version `v`. */
  predicate TakesVersion(s: System, e: Event, g: nat, v: nat) {
    e == Take(g) && Takes(s, g) && |s.history| == v + 1
  }

  /** Event `t` is that read, and it has not finished since. */
  ghost predicate TakenAt(opts: Options, start: System, events: seq<Event>, g: nat, v: nat, t: nat) {
    && t < |events| && TakesVersion(Run(opts, start, events[..t]), events[t], g, v)
    && forall m :: t < m < |events| ==> events[m] != Finish(g)
  }

  /** A read that took the file as version `v` finishes, as the newest, before any stop, and with something new. */
  ghost predicate SeenBy(opts: Options, start: System, events: seq<Event>, e: Event, v: nat) {
    var s := Run(opts, start, events);
    && e.Finish? && v < |s.history| && Counts(s.watch, e.generation, s.history[v])
    && exists t :: TakenAt(opts, start, events, e.generation, v, t)
  }

  ghost predicate SeenInRun(opts: Options, start: System, events: seq<Event>, v: nat) {
    exists n :: 0 <= n < |events| && SeenBy(opts, start, events[..n], events[n], v)
  }

  lemma PendingStep(opts: Options, s: System, e: Event, g: nat, v: nat)
    requires ReadsFit(s)
    ensures ReadsFit(Step(opts, s, e))
    ensures Pending(Step(opts, s, e), g, v) <==> TakesVersion(s, e, g, v) || (Pending(s, g, v) && e != Finish(g))
  {
    hide CallFor, FailureCall, Counts;
  }

  predicate Pending(s: System, g: nat, v: nat) {
    g in s.pending && s.pending[g] == Some(v)
  }

  lemma TakenAtStep(opts: Options, start: System, events: seq<Event>, g: nat, v: nat, t: nat)
    requires events != []
    ensures var before, e := events[..|events| - 1], events[|events| - 1];
            TakenAt(opts, start, events, g, v, t) <==>
                if t == |events| - 1 then TakesVersion(Run(opts, start, before), e, g, v)
                else TakenAt(opts, start, before, g, v, t) && e != Finish(g)
  {
    hide Run, TakesVersion;
    var before, last := events[..|events| - 1], |events| - 1;
    assert forall m | 0 <= m < last :: before[m] == events[m];
    if t < last {
      assert before[..t] == events[..t];
    }
  }

  /** A read in flight holds the version that stood when it took the file. */
  lemma {:induction false} PendingWasTaken(opts: Options, start: System, events: seq<Event>, g: nat, v: nat)
    requires start.pending == map[]
    ensures ReadsFit(Run(opts, start, events))
    ensures Pending(Run(opts, start, events), g, v) <==> exists t :: TakenAt(opts, start, events, g, v, t)
  {
    hide TakesVersion, TakenAt, Step, ReadsFit, Pending;
    if events == [] {
      NothingTaken(opts, start, g, v);
    } else {
      var before, last := events[..|events| - 1], |events| - 1;
      PendingWasTaken(opts, start, before, g, v);
      PendingStep(opts, Run(opts, start, before), events[last], g, v);
      forall t: nat
        ensures TakenAt(opts, start, events, g, v, t) <==>
                  if t == last then TakesVersion(Run(opts, start, before), events[last], g, v)
                  else TakenAt(opts, start, before, g, v, t) && events[last] != Finish(g)
      {
        TakenAtStep(opts, start, events, g, v, t);
      }
      if t: nat :| TakenAt(opts, start, before, g, v, t) {
        TakenInside(opts, start, before, g, v, t);
      }
      assert TakenAt(opts, start, events, g, v, last) <==>
             TakesVersion(Run(opts, start, before), events[last], g, v);
    }
  }

  lemma TakenInside(opts: Options, start: System, events: seq<Event>, g: nat, v: nat, t: nat)
    requires TakenAt(opts, start, events, g, v, t)
    ensures t < |events|
  {
  }

  lemma NothingTaken(opts: Options, start: System, g: nat, v: nat)
    requires start.pending == map[]
    ensures ReadsFit(start) && !Pending(start, g, v) && forall t: nat :: !TakenAt(opts, start, [], g, v, t)
  {
  }

  lemma SeenStep(opts: Options, s: System, e: Event, v: nat)
    requires ReadsFit(s)
    ensures WasSeen(Step(opts, s, e).observed, v) <==>
              || WasSeen(s.observed, v)
              || (e.Finish? && Pending(s, e.generation, v) && Counts(s.watch, e.generation, s.history[v]))
  {
    hide CallFor, FailureCall, Counts;
    var after := Step(opts, s, e).observed;
    if e.Finish? && Finishes(s, e.generation) &&
      Counts(s.watch, e.generation, s.history[s.pending[e.generation].value]) {
      var seen := Seen(s.pending[e.generation].value, s.history[s.pending[e.generation].value]);
      assert after == s.observed + [seen] && after[|s.observed|] == seen;
      assert forall i :: 0 <= i < |s.observed| ==> after[i] == s.observed[i];
    } else {
      assert after == s.observed;
    }
  }

  lemma SeenInRunStep(opts: Options, start: System, events: seq<Event>, v: nat)
    requires events != []
    ensures var before, e := events[..|events| - 1], events[|events| - 1];
            SeenInRun(opts, start, events, v) <==>
                SeenInRun(opts, start, before, v) || SeenBy(opts, start, before, e, v)
  {
    hide SeenBy;
    var before, last := events[..|events| - 1], |events| - 1;
    forall n | 0 <= n < last
      ensures before[..n] == events[..n] && before[n] == events[n]
    {
    }
  }

  /** By which read a finishing event sees version `v`. */
  lemma SeenByIff(opts: Options, start: System, events: seq<Event>, e: Event, v: nat)
    requires start.pending == map[]
    ensures ReadsFit(Run(opts, start, events))
    ensures var s := Run(opts, start, events);
            SeenBy(opts, start, events, e, v) <==>
                e.Finish? && Pending(s, e.generation, v) && Counts(s.watch, e.generation, s.history[v])
  {
    hide Run, TakenAt, Counts;
    PendingWasTaken(opts, start, events, if e.Finish? then e.generation else 0, v);
  }

  /**
   Exactly which writes a watch sees: those that a read takes as the file's state of that moment, if the read then
   finishes as the newest one, before any stop, and its state differs from the last one observed.
   */
  lemma {:induction false} WriteSeenIff(opts: Options, initial: FileState, parentExists: bool, events: seq<Event>,
                                        v: nat)
    ensures WasSeen(Run(opts, Start(initial, parentExists), events).observed, v) <==>
            SeenInRun(opts, Start(initial, parentExists), events, v)
  {
    hide Step, WasSeen, SeenInRun, SeenBy, ReadsFit, Pending, Counts;
    var start := Start(initial, parentExists);
    if events == [] {
      NothingSeen(opts, initial, parentExists, v);
    } else {
      var before, e := events[..|events| - 1], events[|events| - 1];
      WriteSeenIff(opts, initial, parentExists, before, v);
      SeenByIff(opts, start, before, e, v);
      SeenStep(opts, Run(opts, start, before), e, v);
      SeenInRunStep(opts, start, events, v);
    }
  }

  lemma NothingSeen(opts: Options, initial: FileState, parentExists: bool, v: nat)
    ensures !WasSeen(Start(initial, parentExists).observed, v) && !SeenInRun(opts, Start(initial, parentExists), [], v)
  {
  }

  /** A lost write: of two writes before the read, the first is never seen and its text never told. */
  lemma LostWrite()
    ensures var s := Run(Options(false, false), Start(Content(1), true),
            [Change(Content(2))] + [Change(Content(3))] + ReadNow(1));
            s.calls == [OnChange(3)] && s.history == [Content(1), Content(2), Content(3)] && !WasSeen(s.observed, 1)
  {
    hide Run, ReadNow, Step;
    var opts := Options(false, false);
    var s0 := Start(Content(1), true);
    ChangesNow(opts, s0, Content(2));
    RunAppend(opts, s0, [Change(Content(2))], [Change(Content(3))]);
    var s1 := Run(opts, s0, [Change(Content(2))]);
    ChangesNow(opts, s1, Content(3));
    var s2 := Run(opts, s1, [Change(Content(3))]);
    assert s2.history == [Content(1), Content(2), Content(3)];
    RunAppend(opts, s0, [Change(Content(2))] + [Change(Content(3))], ReadNow(1));
    ReadsNow(opts, s2);
  }

  // ----- bare notifications -----

  predicate Wakeups(calls: seq<Call>) {
    forall i :: 0 <= i < |calls| ==>
        calls[i].Woken? || (i == |calls| - 1 && (calls[i].WatchFailed? || calls[i].Thrown?))
  }

  /**
   A consumer that asked for notifications only is never read a file: every call is a bare wake-up, but for a last
   failure.
   */
  lemma {:induction false} OnlyWakeups(opts: Options, initial: FileState, parentExists: bool, events: seq<Event>)
    requires opts.notificationsOnly
    ensures var s := Run(opts, Start(initial, parentExists), events);
            && s.pending == map[] && s.observed == [] && Wakeups(s.calls)
            && (s.watch.stopped || forall i :: 0 <= i < |s.calls| ==> s.calls[i] == Woken)
            && (s.watch.stopped ==> !s.watch.open)
  {
    if events != [] {
      OnlyWakeups(opts, initial, parentExists, events[..|events| - 1]);
    }
  }

  // ----- one step, in full -----

  /** A notification on another file of the directory, or after the watcher is gone, does nothing at all. */
  lemma NoticeIs(opts: Options, s: System, matches: bool)
    requires s.watch.stopped ==> !s.watch.open
    ensures var after, g := Step(opts, s, Notice(matches)), s.watch.generation + 1;
            after == if !s.watch.open || !matches then s
                     else if opts.notificationsOnly then s.(calls := s.calls + [Woken])
                     else s.(watch := s.watch.(generation := g), pending := s.pending[g := None], announced := true)
  {
    assert s.calls + [] == s.calls;
  }

  /** The newest read of a watch that is not stopped tells what it found, if that is not what was found last. */
  lemma FinishIs(opts: Options, s: System, g: nat)
    requires Finishes(s, g)
    ensures var after, version := Step(opts, s, Finish(g)), s.pending[g].value;
            var state := s.history[version];
            var told := if state.Content? then [OnChange(state.text)]
                        else if opts.onUnavailable then [OnUnavailable(state)] else [];
            after == if g == s.watch.generation && !s.watch.stopped && s.watch.last != Some(state)
                     then s.(pending := s.pending - {g}, watch := s.watch.(last := Some(state)),
                             observed := s.observed + [Seen(version, state)], calls := s.calls + told)
                     else s.(pending := s.pending - {g})
  {
    assert s.calls + [] == s.calls && s.observed + [] == s.observed;
  }

  /** A failure of the watcher ends the watch and is told, or thrown where nobody listens to failures; once. */
  lemma EndIs(opts: Options, s: System, code: nat)
    ensures var ended := s.watch.(open := false, stopped := true, generation := s.watch.generation + 1);
            && Step(opts, s, StopCall) == s.(watch := ended)
            && Step(opts, s, WatcherError(code)) ==
               if s.watch.stopped then s
               else s.(watch := ended,
                       calls := s.calls + if opts.onUnavailable then [WatchFailed(code)] else [Thrown(code)])
  {
  }

  // ----- who hears what -----

  predicate Failure(call: Call) {
    call.WatchFailed? || call.Thrown?
  }

  /** A consumer hears of failures, of texts, and of bare notifications only as it asked to. */
  predicate AsAsked(opts: Options, call: Call) {
    match call
    case OnChange(_) => !opts.notificationsOnly
    case Woken => opts.notificationsOnly
    case OnUnavailable(state) => opts.onUnavailable && !opts.notificationsOnly && !state.Content?
    case WatchFailed(_) => opts.onUnavailable
    case Thrown(_) => !opts.onUnavailable
  }

  predicate AllAsAsked(opts: Options, calls: seq<Call>) {
    forall i :: 0 <= i < |calls| ==> AsAsked(opts, calls[i])
  }

  lemma {:induction false} EveryCallAsAsked(opts: Options, initial: FileState, parentExists: bool, events: seq<Event>)
    ensures var s := Run(opts, Start(initial, parentExists), events);
            AllAsAsked(opts, s.calls) && (opts.notificationsOnly ==> s.pending == map[])
  {
    hide Step, AsAsked;
    if events != [] {
      EveryCallAsAsked(opts, initial, parentExists, events[..|events| - 1]);
      StepAsAsked(opts, Run(opts, Start(initial, parentExists), events[..|events| - 1]), events[|events| - 1]);
    }
  }

  lemma StepAsAsked(opts: Options, s: System, e: Event)
    requires opts.notificationsOnly ==> s.pending == map[]
    ensures var after := Step(opts, s, e);
            && (opts.notificationsOnly ==> after.pending == map[])
            && s.calls <= after.calls
            && (forall i :: |s.calls| <= i < |after.calls| ==> AsAsked(opts, after.calls[i]))
  {
    assert s.calls + [] == s.calls;
    if e.Notice? {
      assert opts.notificationsOnly ==> AsAsked(opts, Woken);
    } else if e.WatcherError? {
      assert AsAsked(opts, if opts.onUnavailable then WatchFailed(e.code) else Thrown(e.code));
    } else if e.Finish? && Finishes(s, e.generation) {
      var state := s.history[s.pending[e.generation].value];
      assert state.Content? ==> AsAsked(opts, OnChange(state.text));
      assert !state.Content? && opts.onUnavailable ==> AsAsked(opts, OnUnavailable(state));
    }
  }

  /** While only other files of the directory are notified of, no read is started and nothing is told but a failure. */
  lemma {:induction false} OtherFilesAreIgnored(opts: Options, initial: FileState, parentExists: bool,
                                                events: seq<Event>)
    requires forall i :: 0 <= i < |events| ==> events[i] != Notice(true)
    ensures var s := Run(opts, Start(initial, parentExists), events);
            && s.pending == map[] && s.observed == [] && (forall i :: 0 <= i < |s.calls| ==> Failure(s.calls[i]))
            && (s.watch.stopped ==> !s.watch.open)
  {
    hide Step;
    if events != [] {
      var before, e := events[..|events| - 1], events[|events| - 1];
      OtherFilesAreIgnored(opts, initial, parentExists, before);
      OtherFileStep(opts, Run(opts, Start(initial, parentExists), before), e);
    }
  }

  lemma OtherFileStep(opts: Options, s: System, e: Event)
    requires e != Notice(true) && s.pending == map[] && (s.watch.stopped ==> !s.watch.open)
    ensures var after := Step(opts, s, e);
            && after.pending == map[] && after.observed == s.observed
            && (after.calls == s.calls || exists call :: Failure(call) && after.calls == s.calls + [call])
            && (after.watch.stopped ==> !after.watch.open)
  {
    if e.Notice? {
      NoticeIs(opts, s, false);
    } else if e.WatcherError? {
      assert Failure(WatchFailed(e.code)) && Failure(Thrown(e.code));
    }
  }

  function Matching(events: seq<Event>): nat {
    if events == [] then 0
    else Matching(events[..|events| - 1]) + if events[|events| - 1] == Notice(true) then 1 else 0
  }

  /** A consumer of bare notifications is woken once for each notification of its file. */
  lemma {:induction false} WokenEachTime(opts: Options, initial: FileState, events: seq<Event>)
    requires opts.notificationsOnly
    requires forall i :: 0 <= i < |events| ==> !events[i].WatcherError? && !events[i].StopCall?
    ensures var s := Run(opts, Start(initial, true), events);
            s.pending == map[] && s.watch.open && !s.watch.stopped && |s.calls| == Matching(events)
  {
    if events != [] {
      WokenEachTime(opts, initial, events[..|events| - 1]);
    }
  }
}
