/** Playing the clips of a selection: what the player tells a media clock, and where every such clock ends up. */
module EvidencePlayback {
  import opened Numbers
  import opened Results

  datatype Clip = Clip(videoPath: nat, startMs: real, endMs: real)

  /** What the caller must do: show a clip, seek, pause, load another source. */
  datatype Effect = Effect(clip: Option<Clip>, seekMs: Option<real>, pause: bool, sourceChanged: bool)

  datatype Player = Player(selection: Option<seq<Clip>>, clipIndex: nat)

  // ----- the player, on values -----

  function ClipAt(p: Player, index: int): Option<Clip> {
    if p.selection.Some? && 0 <= index < |p.selection.value| then Some(p.selection.value[index]) else None
  }

  function Current(p: Player): Option<Clip> {
    ClipAt(p, p.clipIndex)
  }

  function Plain(p: Player): Effect {
    Effect(Current(p), None, false, false)
  }

  function Advanced(p: Player, availableEndMs: real): (Player, Effect) {
    var next := ClipAt(p, p.clipIndex + 1);
    if next.None? then (p, Effect(Current(p), Some(availableEndMs), true, false))
    else (p.(clipIndex := p.clipIndex + 1), Effect(next, Some(next.value.startMs), false, true))
  }

  /** `timeMs` or `mediaDurationMs` is `None` when it is not a finite number. */
  function PlayedAt(p: Player, videoPath: nat, timeMs: Option<real>, mediaDurationMs: Option<real>): (Player, Effect) {
    var clip := Current(p);
    if clip.None? || clip.value.videoPath != videoPath || timeMs.None? then (p, Plain(p))
    else if timeMs.value < clip.value.startMs then (p, Effect(clip, Some(clip.value.startMs), false, false))
    else
      var availableEnd :=
        if mediaDurationMs.Some? then Min(clip.value.endMs, mediaDurationMs.value) else clip.value.endMs;
      if timeMs.value < availableEnd then (p, Plain(p)) else Advanced(p, availableEnd)
  }

  function Cued(p: Player, index: int): (Player, Effect) {
    var clip := ClipAt(p, index);
    if clip.None? then (p, Effect(Current(p), None, true, false))
    else (p.(clipIndex := index), Effect(clip, Some(clip.value.startMs), false, true))
  }

  /** The clip index names a clip, or there is none to name. */
  predicate Valid(p: Player) {
    if p.selection.Some? && p.selection.value != [] then p.clipIndex < |p.selection.value| else p.clipIndex == 0
  }

  class PlayerModel {
    var selection: Option<seq<Clip>>
    var clipIndex: nat

    function State(): Player
      reads this
    {
      Player(selection, clipIndex)
    }

    constructor ()
      ensures State() == Player(None, 0) && Valid(State())
    {
      selection, clipIndex := None, 0;
    }

    method Select(clips: seq<Clip>)
      modifies this
      ensures State() == Player(Some(clips), 0) && Valid(State())
    {
      selection := Some(clips);
      clipIndex := 0;
    }

    /**
     Selecting a claim through one of its videos: its first clip there is shown, or there is nothing measured to show.
     */
    method SelectVideo(clips: seq<Clip>, videoPath: nat)
      modifies this
      ensures Valid(State())
      ensures if exists i :: 0 <= i < |clips| && clips[i].videoPath == videoPath
              then selection == Some(clips) && clipIndex < |clips| && clips[clipIndex].videoPath == videoPath
                   && forall i :: 0 <= i < clipIndex ==> clips[i].videoPath != videoPath
              else selection == Some([])
    {
      Select(clips);
      var index := 0;
      while index < |clips| && clips[index].videoPath != videoPath
        invariant 0 <= index <= |clips|
        invariant forall i :: 0 <= i < index ==> clips[i].videoPath != videoPath
      {
        index := index + 1;
      }
      if index < |clips| {
        clipIndex := index;
      } else {
        selection := Some([]);
      }
    }

    method ClearSelection()
      modifies this
      ensures State() == Player(None, 0) && Valid(State())
    {
      selection, clipIndex := None, 0;
    }

    method CueClip(index: int) returns (effect: Effect)
      requires Valid(State())
      modifies this
      ensures (State(), effect) == Cued(old(State()), index) && Valid(State())
    {
      if selection.None? || index < 0 || index >= |selection.value| {
        return Effect(Current(State()), None, true, false);
      }
      clipIndex := index;
      effect := Effect(Some(selection.value[index]), Some(selection.value[index].startMs), false, true);
    }

    method SeekClip(timeMs: Option<real>) returns (effect: Effect)
      ensures var clip := Current(State());
              if clip.None? || timeMs.None? then effect == Effect(clip, None, true, false)
              else
                && effect.clip == clip && !effect.pause && !effect.sourceChanged && effect.seekMs.Some?
                && (clip.value.startMs <= clip.value.endMs ==>
                      && clip.value.startMs <= effect.seekMs.value <= clip.value.endMs
                      && (clip.value.startMs <= timeMs.value <= clip.value.endMs ==> effect.seekMs == timeMs)
                      && (timeMs.value > clip.value.endMs ==> effect.seekMs.value == clip.value.endMs))
                && (timeMs.value < clip.value.startMs || clip.value.endMs < clip.value.startMs ==>
                      effect.seekMs.value == clip.value.startMs)
    {
      var clip := Current(State());
      if clip.None? || timeMs.None? {
        return Effect(clip, None, true, false);
      }
      effect := Effect(clip, Some(Clamp(timeMs.value, clip.value.startMs, clip.value.endMs)), false, false);
    }

    method AdvanceClip(availableEndMs: real) returns (effect: Effect)
      requires Valid(State()) && Current(State()).Some?
      modifies this`clipIndex
      ensures (State(), effect) == Advanced(old(State()), availableEndMs) && Valid(State())
    {
      var next := ClipAt(State(), clipIndex + 1);
      if next.None? {
        return Effect(Current(State()), Some(availableEndMs), true, false);
      }
      clipIndex := clipIndex + 1;
      effect := Effect(next, Some(next.value.startMs), false, true);
    }

    method PlaybackAt(videoPath: nat, timeMs: Option<real>, mediaDurationMs: Option<real>) returns (effect: Effect)
      requires Valid(State())
      modifies this`clipIndex
      ensures (State(), effect) == PlayedAt(old(State()), videoPath, timeMs, mediaDurationMs) && Valid(State())
    {
      var clip := Current(State());
      if clip.None? || clip.value.videoPath != videoPath || timeMs.None? {
        return Effect(clip, None, false, false);
      }
      if timeMs.value < clip.value.startMs {
        return Effect(clip, Some(clip.value.startMs), false, false);
      }
      var availableEnd :=
        if mediaDurationMs.Some? then Min(clip.value.endMs, mediaDurationMs.value) else clip.value.endMs;
      if timeMs.value < availableEnd {
        return Effect(clip, None, false, false);
      }
      effect := AdvanceClip(availableEnd);
    }
  }

  // ----- each reply, in full -----

  predicate Has(p: Player, index: int) {
    p.selection.Some? && 0 <= index < |p.selection.value|
  }

  /** Cueing a clip that is there shows it from its start, as another source; any other index only pauses. */
  lemma CuedIs(p: Player, index: int)
    ensures var (after, effect) := Cued(p, index);
            && after.selection == p.selection
            && if Has(p, index)
               then var clip := p.selection.value[index];
                    after.clipIndex == index && effect == Effect(Some(clip), Some(clip.startMs), false, true)
               else after.clipIndex == p.clipIndex && effect.seekMs == None && effect.pause && !effect.sourceChanged
                    && (Has(p, p.clipIndex) ==> effect.clip == Some(p.selection.value[p.clipIndex]))
  {
  }

  /** The media time reaches the end of the clip, or of a medium that ends before. */
  predicate Reaches(clip: Clip, t: real, media: Option<real>) {
    t >= clip.endMs || (media.Some? && t >= media.value)
  }

  /**
   The reply to a clock time. A time of another video, or no time, changes nothing; one before the clip seeks its start,
   one inside it changes nothing; and at its end, or the medium's, the next clip starts, or the clock pauses there.
   */
  lemma PlayedIs(p: Player, videoPath: nat, timeMs: Option<real>, media: Option<real>)
    requires Has(p, p.clipIndex)
    ensures var (after, effect) := PlayedAt(p, videoPath, timeMs, media);
            var clips, i := p.selection.value, p.clipIndex;
            after.selection == p.selection &&
            if clips[i].videoPath != videoPath || timeMs == None
            then after.clipIndex == i && effect == Effect(Some(clips[i]), None, false, false)
            else if timeMs.value < clips[i].startMs
            then after.clipIndex == i && effect == Effect(Some(clips[i]), Some(clips[i].startMs), false, false)
            else if !Reaches(clips[i], timeMs.value, media)
            then after.clipIndex == i && effect == Effect(Some(clips[i]), None, false, false)
            else if i + 1 < |clips|
            then after.clipIndex == i + 1
                 && effect == Effect(Some(clips[i + 1]), Some(clips[i + 1].startMs), false, true)
            else && after.clipIndex == i && effect.clip == Some(clips[i]) && effect.pause && !effect.sourceChanged
                 && effect.seekMs == Some(if media.Some? && media.value < clips[i].endMs then media.value
                                          else clips[i].endMs)
  {
  }

  /** Without a clip the reply is empty, and the player stays as it is. */
  lemma NothingPlayed(p: Player, videoPath: nat, timeMs: Option<real>, media: Option<real>)
    requires !Has(p, p.clipIndex)
    ensures PlayedAt(p, videoPath, timeMs, media) == (p, Effect(None, None, false, false))
  {
  }

  // ----- a media clock that follows the effects -----

  /**
   A clock on the current clip's media: it shows clip `index` at time `t`. A medium lasts
   `media(videoPath)` and no clock runs or seeks past its end.
   */
  datatype Clock = Clock(index: nat, t: real, paused: bool)

  function EndOf(clip: Clip, media: nat -> real): real {
    Min(clip.endMs, media(clip.videoPath))
  }

  /** The clock moves on by `d`, asks the player, and does what it says. */
  function Tick(clips: seq<Clip>, media: nat -> real, c: Clock, d: real): Clock
    requires c.index < |clips|
  {
    var clip := clips[c.index];
    var now := Min(c.t + d, media(clip.videoPath));
    var (p, effect) := PlayedAt(Player(Some(clips), c.index), clip.videoPath, Some(now), Some(media(clip.videoPath)));
    if p.clipIndex >= |clips| || effect.seekMs.None? then Clock(c.index, now, c.paused || effect.pause)
    else Clock(p.clipIndex, Min(effect.seekMs.value, media(clips[p.clipIndex].videoPath)), c.paused || effect.pause)
  }

  predicate Moves(ds: seq<real>) {
    forall i :: 0 <= i < |ds| ==> ds[i] >= 1.0
  }

  /** The clock after the moves `ds`. */
  function Ticks(clips: seq<Clip>, media: nat -> real, c: Clock, ds: seq<real>): (after: Clock)
    requires c.index < |clips|
    ensures after.index < |clips|
  {
    if ds == [] then c else
      var before := Ticks(clips, media, c, ds[..|ds| - 1]);
      TickStays(clips, media, before, ds[|ds| - 1]);
      Tick(clips, media, before, ds[|ds| - 1])
  }

  lemma TickStays(clips: seq<Clip>, media: nat -> real, c: Clock, d: real)
    requires c.index < |clips|
    ensures Tick(clips, media, c, d).index < |clips|
  {
  }

  predicate Ordered(clips: seq<Clip>) {
    forall i :: 0 <= i < |clips| ==> clips[i].startMs <= clips[i].endMs
  }

  /** The media of the clips from `from` on reach the clips' starts. */
  predicate PlayableFrom(clips: seq<Clip>, media: nat -> real, from: nat) {
    forall i :: from <= i < |clips| ==> clips[i].startMs <= media(clips[i].videoPath)
  }

  /** Whatever the player asks for lies inside the clip it asks for. */
  lemma SeeksInsideClip(clips: seq<Clip>, media: nat -> real, index: nat, now: real)
    requires index < |clips| && Ordered(clips) && PlayableFrom(clips, media, index)
    ensures var (p, effect) := PlayedAt(Player(Some(clips), index), clips[index].videoPath, Some(now),
            Some(media(clips[index].videoPath)));
            && Valid(p) && effect.clip == Some(clips[p.clipIndex])
            && (effect.seekMs.Some? ==> clips[p.clipIndex].startMs <= effect.seekMs.value <= clips[p.clipIndex].endMs)
            && effect.sourceChanged == (p.clipIndex != index)
  {
  }

  /** A paused clock stands at the end of the last clip. */
  predicate AtRest(clips: seq<Clip>, media: nat -> real, c: Clock) {
    c.index < |clips| && (c.paused ==> c.index == |clips| - 1 && c.t == EndOf(clips[c.index], media))
  }

  /**
   One tick: the clip stays or gives way to the next one, the clock never stops but at the end, and there it stays.
   */
  lemma TickInOrder(clips: seq<Clip>, media: nat -> real, c: Clock, d: real)
    requires AtRest(clips, media, c) && Ordered(clips) && PlayableFrom(clips, media, c.index) && d >= 0.0
    ensures var after := Tick(clips, media, c, d);
            && AtRest(clips, media, after) && (c.paused ==> after == c)
            && (after.index == c.index || (after.index == c.index + 1 && after.t == clips[after.index].startMs))
            && after.t <= media(clips[after.index].videoPath)
  {
  }

  lemma {:induction false} TicksInOrder(clips: seq<Clip>, media: nat -> real, c: Clock, ds: seq<real>)
    requires AtRest(clips, media, c) && Ordered(clips) && PlayableFrom(clips, media, c.index) && Moves(ds)
    ensures AtRest(clips, media, Ticks(clips, media, c, ds)) && Ticks(clips, media, c, ds).index >= c.index
    ensures PlayableFrom(clips, media, Ticks(clips, media, c, ds).index)
  {
    hide Tick;
    if ds != [] {
      var before := Ticks(clips, media, c, ds[..|ds| - 1]);
      TicksInOrder(clips, media, c, ds[..|ds| - 1]);
      TickInOrder(clips, media, before, ds[|ds| - 1]);
    }
  }

  /** No clip is skipped: whatever clip the clock is at, it was at each one before. */
  lemma {:induction false} VisitsEvery(clips: seq<Clip>, media: nat -> real, c: Clock, ds: seq<real>, k: nat)
    returns (n: nat)
    requires AtRest(clips, media, c) && Ordered(clips) && PlayableFrom(clips, media, c.index) && Moves(ds)
    requires c.index <= k <= Ticks(clips, media, c, ds).index
    ensures n <= |ds| && Ticks(clips, media, c, ds[..n]).index == k
  {
    hide Tick;
    n := |ds|;
    assert ds[..n] == ds;
    if k != Ticks(clips, media, c, ds).index {
      var before := ds[..|ds| - 1];
      TicksInOrder(clips, media, c, before);
      TickInOrder(clips, media, Ticks(clips, media, c, before), ds[|ds| - 1]);
      n := VisitsEvery(clips, media, c, before, k);
      assert ds[..n] == before[..n];
    }
  }

  // ----- how long it takes -----

  /** A bound on the ticks clip `i` takes from its start. */
  function Length(clip: Clip, media: nat -> real): (l: real)
    ensures l >= 1.0
  {
    Max(EndOf(clip, media) - clip.startMs, 0.0) + 1.0
  }

  function Rest(clips: seq<Clip>, media: nat -> real, from: nat): (r: real)
    ensures r >= 0.0
    decreases |clips| - from
  {
    if from >= |clips| then 0.0 else Length(clips[from], media) + Rest(clips, media, from + 1)
  }

  function TicksLeft(clips: seq<Clip>, media: nat -> real, c: Clock): (r: real)
    requires c.index < |clips|
    ensures r >= 1.0
  {
    var clip := clips[c.index];
    (if c.t < clip.startMs then Length(clip, media) + 1.0 else Max(EndOf(clip, media) - c.t, 0.0) + 1.0)
    + Rest(clips, media, c.index + 1)
  }

  lemma TickCounts(clips: seq<Clip>, media: nat -> real, c: Clock, d: real)
    requires AtRest(clips, media, c) && Ordered(clips) && PlayableFrom(clips, media, c.index) && d >= 1.0 && !c.paused
    ensures var after := Tick(clips, media, c, d);
            !after.paused ==> TicksLeft(clips, media, after) <= TicksLeft(clips, media, c) - 1.0
  {
  }

  lemma {:induction false} TicksCount(clips: seq<Clip>, media: nat -> real, c: Clock, ds: seq<real>)
    requires AtRest(clips, media, c) && Ordered(clips) && PlayableFrom(clips, media, c.index) && Moves(ds)
    requires !Ticks(clips, media, c, ds).paused
    ensures TicksLeft(clips, media, Ticks(clips, media, c, ds)) <= TicksLeft(clips, media, c) - (|ds| as real)
  {
    hide Tick, TicksLeft;
    if ds != [] {
      var before := ds[..|ds| - 1];
      TicksInOrder(clips, media, c, before);
      if Ticks(clips, media, c, before).paused {
        TickInOrder(clips, media, Ticks(clips, media, c, before), ds[|ds| - 1]);
      } else {
        TicksCount(clips, media, c, before);
        TickCounts(clips, media, Ticks(clips, media, c, before), ds[|ds| - 1]);
      }
    }
  }

  lemma TickHeld(clips: seq<Clip>, media: nat -> real, c: Clock, d: real, k: nat)
    requires c.index <= k < |clips| && Ordered(clips) && media(clips[k].videoPath) < clips[k].startMs
    requires !c.paused && c.t <= media(clips[c.index].videoPath)
    ensures var after := Tick(clips, media, c, d);
            after.index <= k && !after.paused && after.t <= media(clips[after.index].videoPath)
  {
  }

  /** A medium that ends before its clip starts holds the clock: it seeks to the start again and again. */
  lemma {:induction false} ShortMediumHolds(clips: seq<Clip>, media: nat -> real, c: Clock, ds: seq<real>, k: nat)
    requires c.index <= k < |clips| && Ordered(clips) && media(clips[k].videoPath) < clips[k].startMs
    requires !c.paused && c.t <= media(clips[c.index].videoPath)
    ensures var after := Ticks(clips, media, c, ds);
            after.index <= k && !after.paused && after.t <= media(clips[after.index].videoPath)
  {
    hide Tick;
    if ds != [] {
      ShortMediumHolds(clips, media, c, ds[..|ds| - 1], k);
      TickHeld(clips, media, Ticks(clips, media, c, ds[..|ds| - 1]), ds[|ds| - 1], k);
    }
  }

  /**
   A playback run. A clock that follows the player comes to rest, paused at the last clip's end, within
   the ticks its clips need, if and only if every remaining medium reaches its clip's start.
   */
  lemma RunEndsIffPlayable(clips: seq<Clip>, media: nat -> real, c: Clock, ds: seq<real>)
    requires c.index < |clips| && Ordered(clips) && Moves(ds)
    requires !c.paused && c.t <= media(clips[c.index].videoPath)
    requires |ds| as real >= TicksLeft(clips, media, c)
    ensures var after := Ticks(clips, media, c, ds);
            && (after.paused <==> PlayableFrom(clips, media, c.index))
            && (after.paused ==> after.index == |clips| - 1 && after.t == EndOf(clips[after.index], media))
  {
    hide Tick, TicksLeft;
    if PlayableFrom(clips, media, c.index) {
      TicksInOrder(clips, media, c, ds);
      if !Ticks(clips, media, c, ds).paused {
        TicksCount(clips, media, c, ds);
        assert false;
      }
    } else {
      var k :| c.index <= k < |clips| && clips[k].startMs > media(clips[k].videoPath);
      ShortMediumHolds(clips, media, c, ds, k);
    }
  }
}
