/** Timing presses: from the frame that handled the touch to the frame, or the line of the app, that answered it. */
module PressTiming {
  import opened Numbers
  import opened Results

  datatype Sample = Sample(startedAt: real, completedAt: real, duration: real, input: bool, uiThread: Option<real>,
                           budget: Option<real>)

  datatype Span = Span(nodeId: nat, startedAt: real, endedAt: Option<real>)

  /** A line the app logged when a screen was shown. */
  datatype Shown = Shown(screen: nat, at: real)

  datatype Answer = Mount | FirstFrame | ShownLine

  datatype Latency = NoInput | Unanswered | Timed(latencyMs: real, answer: Answer)

  const MOUNT_MIN_MS := 4.0
  const MOUNT_OVER_MEDIAN := 3.0
  const MOUNT_LOOKAHEAD := 1.5
  const SHOWN_MARKER_FRAMES := 2.0
  const DEFAULT_FRAME_BUDGET_MS := 1000.0 / 60.0

  /** Rounded to three decimals. */
  function Round(value: real): real {
    (value * 1000.0 + 0.5).Floor as real / 1000.0
  }

  // ----- the touch -----

  function SpanEnd(span: Span, windowEnd: real): real {
    if span.endedAt.Some? then span.endedAt.value else windowEnd
  }

  predicate Touches(s: Sample, span: Span, windowEnd: real) {
    s.input && span.startedAt <= s.startedAt <= SpanEnd(span, windowEnd)
  }

  /** The first sample that handled input during the node. */
  function InputFrame(samples: seq<Sample>, span: Span, windowEnd: real): Option<Sample> {
    if samples == [] then None
    else if Touches(samples[0], span, windowEnd) then Some(samples[0])
    else InputFrame(samples[1..], span, windowEnd)
  }

  // ----- frames that may answer -----

  function Work(s: Sample): real {
    if s.uiThread.Some? then s.uiThread.value else s.duration
  }

  predicate MayAnswer(s: Sample, touch: real, searchEnd: real) {
    !s.input && touch < s.startedAt <= searchEnd
  }

  function Answers(samples: seq<Sample>, touch: real, searchEnd: real): seq<Sample> {
    if samples == [] then []
    else
      var rest := Answers(samples[1..], touch, searchEnd);
      (if MayAnswer(samples[0], touch, searchEnd) then [samples[0]] else []) + rest
  }

  function InsertByStart(s: Sample, sorted: seq<Sample>): seq<Sample> {
    if sorted == [] || s.startedAt <= sorted[0].startedAt then [s] + sorted
    else [sorted[0]] + InsertByStart(s, sorted[1..])
  }

  /** The stable sort by start. */
  function SortByStart(samples: seq<Sample>): seq<Sample> {
    if samples == [] then [] else InsertByStart(samples[0], SortByStart(samples[1..]))
  }

  /** The middle of an ascending list: its middle value, or the mean of the two. */
  function Median(sorted: seq<real>): real
    requires sorted != []
  {
    if |sorted| == 1 then sorted[0]
    else
      var position := (|sorted| - 1) as real * 0.5;
      var lower := (|sorted| - 1) / 2;
      var upper := |sorted| / 2;
      sorted[lower] + (sorted[upper] - sorted[lower]) * (position - lower as real)
  }

  function WorksBut(candidates: seq<Sample>, k: nat): seq<real>
    requires k < |candidates|
  {
    seq(|candidates| - 1, i requires 0 <= i < |candidates| - 1 => Work(candidates[if i < k then i else i + 1]))
  }

  predicate WholeFrame(s: Sample) {
    Work(s) >= (if s.budget.Some? then s.budget.value else DEFAULT_FRAME_BUDGET_MS)
  }

  /** Whether candidate `k` stands out as the frame that mounts the new screen. */
  predicate StandsOut(candidates: seq<Sample>, k: nat, windowEnd: real)
    requires k < |candidates|
  {
    var s := candidates[k];
    if s.startedAt > windowEnd then WholeFrame(s)
    else if Work(s) < MOUNT_MIN_MS then false
    else if WholeFrame(s) then true
    else
      var others := SortValues(WorksBut(candidates, k));
      others == [] || Work(s) >= Median(others) * MOUNT_OVER_MEDIAN
  }

  function FirstStandOut(candidates: seq<Sample>, windowEnd: real, from: nat): (k: Option<nat>)
    requires from <= |candidates|
    ensures k.Some? ==> from <= k.value < |candidates|
    decreases |candidates| - from
  {
    if from == |candidates| then None
    else if StandsOut(candidates, from, windowEnd) then Some(from)
    else FirstStandOut(candidates, windowEnd, from + 1)
  }

  function FirstUpTo(candidates: seq<Sample>, windowEnd: real, from: nat): (k: Option<nat>)
    requires from <= |candidates|
    ensures k.Some? ==> from <= k.value < |candidates|
    decreases |candidates| - from
  {
    if from == |candidates| then None
    else if candidates[from].startedAt <= windowEnd then Some(from)
    else FirstUpTo(candidates, windowEnd, from + 1)
  }

  function SearchEnd(touch: real, responseWindow: real, windowEnd: real): real {
    Min(windowEnd, touch + responseWindow * MOUNT_LOOKAHEAD)
  }

  function Candidates(samples: seq<Sample>, touch: real, responseWindow: real, windowEnd: real): seq<Sample> {
    SortByStart(Answers(samples, touch, SearchEnd(touch, responseWindow, windowEnd)))
  }

  function MeasurePress(samples: seq<Sample>, span: Span, responseWindow: real, windowEnd: real): Latency {
    var input := InputFrame(samples, span, windowEnd);
    if input.None? then NoInput
    else
      var touch := input.value.startedAt;
      AnswerTo(Candidates(samples, touch, responseWindow, windowEnd), touch, responseWindow)
  }

  function AnswerTo(candidates: seq<Sample>, touch: real, responseWindow: real): Latency {
    var mount := FirstStandOut(candidates, touch + responseWindow, 0);
    var first := FirstUpTo(candidates, touch + responseWindow, 0);
    if mount.Some? then Timed(Round(candidates[mount.value].completedAt - touch), Mount)
    else if first.Some? then Timed(Round(candidates[first.value].completedAt - touch), FirstFrame)
    else Unanswered
  }

  lemma MedianIsHalfway(sorted: seq<real>)
    requires sorted != [] && Ascending(sorted)
    ensures 2.0 * Median(sorted) == sorted[(|sorted| - 1) / 2] + sorted[|sorted| / 2]
    ensures sorted[(|sorted| - 1) / 2] <= Median(sorted) <= sorted[|sorted| / 2]
  {
    var n := |sorted|;
    var lower, upper := (n - 1) / 2, n / 2;
    var share := (n - 1) as real * 0.5 - lower as real;
    assert sorted[lower] <= sorted[upper];
    if n % 2 == 1 {
      assert lower == upper;
    } else {
      assert share == 0.5;
    }
  }

  /**
   Half the other frames took no more work than the median, half no less; it is halfway between the two middle ones.
   */
  lemma MedianHalves(values: seq<real>)
    requires values != []
    ensures var sorted, n := SortValues(values), |values|;
            && multiset(sorted) == multiset(values)
            && (forall i :: 0 <= i <= (n - 1) / 2 ==> sorted[i] <= Median(sorted))
            && (forall i :: n / 2 <= i < n ==> Median(sorted) <= sorted[i])
            && 2.0 * Median(sorted) == sorted[(n - 1) / 2] + sorted[n / 2]
  {
    hide SortValues, Median;
    SortValuesIs(values);
    MedianIsHalfway(SortValues(values));
  }

  // ----- which frame answers -----

  predicate TimeOrdered(samples: seq<Sample>) {
    forall i, j :: 0 <= i < j < |samples| ==> samples[i].startedAt <= samples[j].startedAt
  }

  lemma {:induction false} AnswersAre(samples: seq<Sample>, touch: real, searchEnd: real)
    ensures forall s :: s in Answers(samples, touch, searchEnd) <==> s in samples && MayAnswer(s, touch, searchEnd)
    ensures TimeOrdered(samples) ==> TimeOrdered(Answers(samples, touch, searchEnd))
  {
    if samples != [] {
      AnswersAre(samples[1..], touch, searchEnd);
      assert samples == [samples[0]] + samples[1..];
      assert forall s :: s in samples[1..] ==> TimeOrdered(samples) ==> samples[0].startedAt <= s.startedAt;
    }
  }

  lemma {:induction false} SortKeepsOrdered(samples: seq<Sample>)
    requires TimeOrdered(samples)
    ensures SortByStart(samples) == samples
  {
    if samples != [] {
      SortKeepsOrdered(samples[1..]);
      assert samples == [samples[0]] + samples[1..];
    }
  }

  lemma {:induction false} InsertByStartIs(s: Sample, sorted: seq<Sample>)
    requires TimeOrdered(sorted)
    ensures var r := InsertByStart(s, sorted);
            && TimeOrdered(r) && multiset(r) == multiset(sorted) + multiset{s}
            && forall x :: x in r ==> x == s || x in sorted
  {
    hide TimeOrdered;
    OrderedCons(s, sorted);
    if sorted == [] {
      NoneOrdered();
      assert [s] + sorted == [s];
    } else {
      assert sorted == [sorted[0]] + sorted[1..];
      OrderedCons(sorted[0], sorted[1..]);
      if s.startedAt > sorted[0].startedAt {
        InsertByStartIs(s, sorted[1..]);
        OrderedCons(sorted[0], InsertByStart(s, sorted[1..]));
      }
    }
  }

  lemma NoneOrdered()
    ensures TimeOrdered([])
  {
  }

  lemma OrderedCons(first: Sample, rest: seq<Sample>)
    ensures TimeOrdered([first] + rest) <==>
              TimeOrdered(rest) && forall x :: x in rest ==> first.startedAt <= x.startedAt
  {
    if TimeOrdered([first] + rest) {
      OrderedTail([first] + rest);
      assert ([first] + rest)[1..] == rest;
    }
    if TimeOrdered(rest) && forall x :: x in rest ==> first.startedAt <= x.startedAt {
      forall i, j | 0 <= i < j < |rest| + 1
        ensures ([first] + rest)[i].startedAt <= ([first] + rest)[j].startedAt
      {
        assert rest[j - 1] in rest;
      }
    }
  }

  lemma OrderedTail(all: seq<Sample>)
    requires TimeOrdered(all) && all != []
    ensures TimeOrdered(all[1..]) && forall x :: x in all[1..] ==> all[0].startedAt <= x.startedAt
  {
    forall i, j | 0 <= i < j < |all| - 1
      ensures all[1..][i].startedAt <= all[1..][j].startedAt
    {
      assert all[i + 1].startedAt <= all[j + 1].startedAt;
    }
  }

  lemma {:induction false} SortByStartIs(samples: seq<Sample>)
    ensures TimeOrdered(SortByStart(samples)) && multiset(SortByStart(samples)) == multiset(samples)
  {
    if samples != [] {
      SortByStartIs(samples[1..]);
      InsertByStartIs(samples[0], SortByStart(samples[1..]));
      assert samples == [samples[0]] + samples[1..];
    }
  }

  lemma {:induction false} AnswersTimes(samples: seq<Sample>, touch: real, searchEnd: real, s: Sample)
    ensures multiset(Answers(samples, touch, searchEnd))[s] ==
            if !s.input && touch < s.startedAt <= searchEnd then multiset(samples)[s] else 0
  {
    if samples != [] {
      AnswersTimes(samples[1..], touch, searchEnd, s);
      assert samples == [samples[0]] + samples[1..];
    }
  }

  lemma CandidatesAre(samples: seq<Sample>, touch: real, responseWindow: real, windowEnd: real)
    ensures var c := Candidates(samples, touch, responseWindow, windowEnd);
            && TimeOrdered(c)
            && (forall s :: multiset(c)[s] ==
                  if !s.input && touch < s.startedAt <= windowEnd && s.startedAt <= touch + 1.5 * responseWindow
                  then multiset(samples)[s] else 0)
            && (TimeOrdered(samples) ==> c == Answers(samples, touch, SearchEnd(touch, responseWindow, windowEnd)))
  {
    hide TimeOrdered, Answers, SortByStart;
    var searchEnd := SearchEnd(touch, responseWindow, windowEnd);
    SortByStartIs(Answers(samples, touch, searchEnd));
    AnswersAre(samples, touch, searchEnd);
    if TimeOrdered(samples) {
      SortKeepsOrdered(Answers(samples, touch, searchEnd));
    }
    forall s
      ensures multiset(Candidates(samples, touch, responseWindow, windowEnd))[s] ==
              if !s.input && touch < s.startedAt <= windowEnd && s.startedAt <= touch + 1.5 * responseWindow
              then multiset(samples)[s] else 0
    {
      AnswersTimes(samples, touch, searchEnd, s);
    }
  }

  lemma {:induction false} FirstStandOutIs(candidates: seq<Sample>, windowEnd: real, from: nat)
    requires from <= |candidates|
    ensures var k := FirstStandOut(candidates, windowEnd, from);
            && (k.Some? ==> StandsOut(candidates, k.value, windowEnd))
            && (forall i :: from <= i < (if k.Some? then k.value else |candidates|) ==>
                 !StandsOut(candidates, i, windowEnd))
    decreases |candidates| - from
  {
    hide StandsOut;
    if from < |candidates| && !StandsOut(candidates, from, windowEnd) {
      FirstStandOutIs(candidates, windowEnd, from + 1);
    }
  }

  lemma {:induction false} FirstUpToIs(candidates: seq<Sample>, windowEnd: real, from: nat)
    requires from <= |candidates|
    ensures var k := FirstUpTo(candidates, windowEnd, from);
            && (k.Some? ==> candidates[k.value].startedAt <= windowEnd)
            && (forall i :: from <= i < (if k.Some? then k.value else |candidates|) ==>
                 candidates[i].startedAt > windowEnd)
    decreases |candidates| - from
  {
    if from < |candidates| && candidates[from].startedAt > windowEnd {
      FirstUpToIs(candidates, windowEnd, from + 1);
    }
  }

  /** Frame `k` is the first of the candidates that stands out. */
  predicate IsMount(candidates: seq<Sample>, windowEnd: real, k: nat) {
    && k < |candidates| && StandsOut(candidates, k, windowEnd)
    && forall i :: 0 <= i < k ==> !StandsOut(candidates, i, windowEnd)
  }

  predicate SomeStandsOut(candidates: seq<Sample>, windowEnd: real) {
    exists k :: 0 <= k < |candidates| && StandsOut(candidates, k, windowEnd)
  }

  /** Frame `k` is the first within the response window, and no frame in reach stands out. */
  predicate IsFirstFrame(candidates: seq<Sample>, windowEnd: real, k: nat) {
    && k < |candidates| && candidates[k].startedAt <= windowEnd
    && (forall i :: 0 <= i < k ==> candidates[i].startedAt > windowEnd)
    && (forall i :: 0 <= i < |candidates| ==> !StandsOut(candidates, i, windowEnd))
  }

  /**
   Which frame answers a press. The candidates are the frames after the touch and in reach that handled no input, in
   time order, in whatever order they were recorded. The press is timed to the earliest that stands out; to the first in
   the response window only if none does; and not at all only if there is neither.
   */
  lemma EarliestStandOutAnswers(samples: seq<Sample>, span: Span, responseWindow: real, windowEnd: real, k: nat)
    requires InputFrame(samples, span, windowEnd).Some?
    ensures var touch := InputFrame(samples, span, windowEnd).value.startedAt;
            var c := Candidates(samples, touch, responseWindow, windowEnd);
            var r := MeasurePress(samples, span, responseWindow, windowEnd);
            && TimeOrdered(c)
            && (forall s :: multiset(c)[s] ==
                  if !s.input && touch < s.startedAt <= windowEnd && s.startedAt <= touch + 1.5 * responseWindow
                  then multiset(samples)[s] else 0)
            && (TimeOrdered(samples) ==> c == Answers(samples, touch, SearchEnd(touch, responseWindow, windowEnd)))
            && (IsMount(c, touch + responseWindow, k) ==> r == Timed(Round(c[k].completedAt - touch), Mount))
            && (IsFirstFrame(c, touch + responseWindow, k) ==> r == Timed(Round(c[k].completedAt - touch), FirstFrame))
            && (r.Timed? && r.answer == Mount <==> SomeStandsOut(c, touch + responseWindow))
            && (r.Unanswered? <==>
                  && !SomeStandsOut(c, touch + responseWindow)
                  && forall i :: 0 <= i < |c| ==> c[i].startedAt > touch + responseWindow)
  {
    hide StandsOut, InputFrame, Candidates, Round, AnswerTo, IsMount, IsFirstFrame, SomeStandsOut, TimeOrdered;
    var touch := InputFrame(samples, span, windowEnd).value.startedAt;
    var c := Candidates(samples, touch, responseWindow, windowEnd);
    CandidatesAre(samples, touch, responseWindow, windowEnd);
    AnswerToIs(c, touch, responseWindow, k);
    MountInside(c, touch + responseWindow, k);
  }

  lemma MountInside(c: seq<Sample>, windowEnd: real, k: nat)
    ensures IsMount(c, windowEnd, k) || IsFirstFrame(c, windowEnd, k) ==> k < |c|
  {
  }

  lemma AnswerToIs(c: seq<Sample>, touch: real, responseWindow: real, k: nat)
    ensures var r := AnswerTo(c, touch, responseWindow);
            && (IsMount(c, touch + responseWindow, k) ==> r == Timed(Round(c[k].completedAt - touch), Mount))
            && (IsFirstFrame(c, touch + responseWindow, k) ==> r == Timed(Round(c[k].completedAt - touch), FirstFrame))
            && (r.Timed? && r.answer == Mount <==> SomeStandsOut(c, touch + responseWindow))
            && (r.Unanswered? <==>
                  && !SomeStandsOut(c, touch + responseWindow)
                  && forall i :: 0 <= i < |c| ==> c[i].startedAt > touch + responseWindow)
  {
    hide StandsOut, Round;
    var windowEnd := touch + responseWindow;
    FirstStandOutIs(c, windowEnd, 0);
    FirstUpToIs(c, windowEnd, 0);
    var m, f := FirstStandOut(c, windowEnd, 0), FirstUpTo(c, windowEnd, 0);
    assert IsMount(c, windowEnd, k) ==> m == Some(k);
    assert IsFirstFrame(c, windowEnd, k) ==> m.None? && f == Some(k);
  }

  // ----- which frames matter -----

  /** The samples that start between two times. */
  function Between(samples: seq<Sample>, from: real, to: real): seq<Sample> {
    if samples == [] then []
    else (if from <= samples[0].startedAt <= to then [samples[0]] else []) + Between(samples[1..], from, to)
  }

  lemma {:induction false} BetweenKeepsInput(samples: seq<Sample>, span: Span, windowEnd: real, to: real)
    requires InputFrame(samples, span, windowEnd).Some? && InputFrame(samples, span, windowEnd).value.startedAt <= to
    ensures InputFrame(Between(samples, span.startedAt, to), span, windowEnd) == InputFrame(samples, span, windowEnd)
  {
    var kept := Between(samples, span.startedAt, to);
    if !Touches(samples[0], span, windowEnd) {
      BetweenKeepsInput(samples[1..], span, windowEnd, to);
      if span.startedAt <= samples[0].startedAt <= to {
        assert kept[1..] == Between(samples[1..], span.startedAt, to);
      } else {
        assert kept == Between(samples[1..], span.startedAt, to);
      }
    }
  }

  lemma {:induction false} BetweenKeepsAnswers(samples: seq<Sample>, touch: real, searchEnd: real, from: real, to: real)
    requires from <= touch && searchEnd <= to
    ensures Answers(Between(samples, from, to), touch, searchEnd) == Answers(samples, touch, searchEnd)
  {
    if samples != [] {
      BetweenKeepsAnswers(samples[1..], touch, searchEnd, from, to);
      var kept := Between(samples, from, to);
      if from <= samples[0].startedAt <= to {
        assert kept[1..] == Between(samples[1..], from, to);
      } else {
        assert kept == Between(samples[1..], from, to);
      }
    }
  }

  lemma {:induction false} InputIs(samples: seq<Sample>, span: Span, windowEnd: real)
    ensures var input := InputFrame(samples, span, windowEnd);
            && (input.Some? ==> input.value in samples && Touches(input.value, span, windowEnd))
            && (forall s :: s in samples && Touches(s, span, windowEnd) ==>
                  input.Some? && (TimeOrdered(samples) ==> input.value.startedAt <= s.startedAt))
  {
    if samples != [] {
      InputIs(samples[1..], span, windowEnd);
      assert samples == [samples[0]] + samples[1..];
    }
  }

  lemma {:induction false} BetweenIs(samples: seq<Sample>, from: real, to: real)
    ensures forall s :: s in Between(samples, from, to) <==> s in samples && from <= s.startedAt <= to
  {
    if samples != [] {
      BetweenIs(samples[1..], from, to);
      assert samples == [samples[0]] + samples[1..];
    }
  }

  lemma OnlyReachCounts(samples: seq<Sample>, span: Span, responseWindow: real, windowEnd: real, to: real)
    requires responseWindow >= 0.0 && InputFrame(samples, span, windowEnd).Some?
    requires to == InputFrame(samples, span, windowEnd).value.startedAt + responseWindow * 1.5
    ensures MeasurePress(Between(samples, span.startedAt, to), span, responseWindow, windowEnd) ==
            MeasurePress(samples, span, responseWindow, windowEnd)
  {
    hide InputFrame, Answers, Between, AnswerTo;
    InputIs(samples, span, windowEnd);
    var touch := InputFrame(samples, span, windowEnd).value.startedAt;
    BetweenKeepsInput(samples, span, windowEnd, to);
    BetweenKeepsAnswers(samples, touch, SearchEnd(touch, responseWindow, windowEnd), span.startedAt, to);
  }

  /**
   Only frames from the node's start to one and a half response windows after the touch matter: two
   recordings in time order that agree there give the press the same latency.
   */
  lemma FramesOutOfReachDoNotMatter(a: seq<Sample>, b: seq<Sample>, span: Span, responseWindow: real, windowEnd: real,
                                    to: real)
    requires responseWindow >= 0.0 && TimeOrdered(b) && InputFrame(a, span, windowEnd).Some?
    requires to == InputFrame(a, span, windowEnd).value.startedAt + responseWindow * 1.5
    requires Between(a, span.startedAt, to) == Between(b, span.startedAt, to)
    ensures MeasurePress(a, span, responseWindow, windowEnd) == MeasurePress(b, span, responseWindow, windowEnd)
  {
    hide MeasurePress, TimeOrdered, InputFrame, Between;
    InputIs(a, span, windowEnd);
    InputIs(b, span, windowEnd);
    BetweenIs(a, span.startedAt, to);
    BetweenIs(b, span.startedAt, to);
    var x := InputFrame(a, span, windowEnd).value;
    assert x in Between(b, span.startedAt, to);
    BetweenKeepsInput(a, span, windowEnd, to);
    BetweenKeepsInput(b, span, windowEnd, to);
    OnlyReachCounts(a, span, responseWindow, windowEnd, to);
    OnlyReachCounts(b, span, responseWindow, windowEnd, to);
  }

  // ----- lines of the app -----

  predicate Fits(m: Shown, screen: nat, touch: real, searchEnd: real) {
    m.screen == screen && touch <= m.at <= searchEnd
  }

  function LineFrom(lines: seq<Shown>, screen: nat, touch: real, searchEnd: real, from: nat): (k: Option<nat>)
    requires from <= |lines|
    ensures k.Some? ==> from <= k.value < |lines| && Fits(lines[k.value], screen, touch, searchEnd)
    ensures forall i :: from <= i < (if k.Some? then k.value else |lines|) ==> !Fits(lines[i], screen, touch, searchEnd)
    decreases |lines| - from
  {
    if from == |lines| then None
    else if Fits(lines[from], screen, touch, searchEnd) then Some(from)
    else LineFrom(lines, screen, touch, searchEnd, from + 1)
  }

  /** The latest of `at` and the ends of the frames that start between the touch and `reach`. */
  function LastEnd(samples: seq<Sample>, touch: real, reach: real, at: real): (end: real)
    ensures end >= at
    ensures forall s :: s in samples && touch <= s.startedAt <= reach ==> end >= s.completedAt
    ensures end == at || exists s :: s in samples && touch <= s.startedAt <= reach && end == s.completedAt
  {
    if samples == [] then at
    else
      var before, s := LastEnd(samples[..|samples| - 1], touch, reach, at), samples[|samples| - 1];
      assert samples == samples[..|samples| - 1] + [s];
      if touch <= s.startedAt <= reach && s.completedAt > before then s.completedAt else before
  }

  /** The line that answers a press, by its place among the lines. */
  function LineOf(samples: seq<Sample>, span: Span, screen: nat, lines: seq<Shown>, searchEnd: real): Option<nat> {
    var input := InputFrame(samples, span, searchEnd);
    if input.None? then None else LineFrom(lines, screen, input.value.startedAt, searchEnd, 0)
  }

  function MeasureShownPress(samples: seq<Sample>, span: Span, screen: nat, lines: seq<Shown>, searchEnd: real,
                             budget: real): Latency {
    var input := InputFrame(samples, span, searchEnd);
    if input.None? then NoInput
    else
      var touch, line := input.value.startedAt, LineOf(samples, span, screen, lines, searchEnd);
      if line.None? then Unanswered
      else
        var at := lines[line.value].at;
        Timed(Round(LastEnd(samples, touch, at + SHOWN_MARKER_FRAMES * budget, at) - touch), ShownLine)
  }

  lemma RoundOrder(a: real, b: real)
    requires a <= b
    ensures Round(a) <= Round(b)
  {
    var x, y := (a * 1000.0 + 0.5).Floor, (b * 1000.0 + 0.5).Floor;
    assert x <= y;
    assert x as real / 1000.0 <= y as real / 1000.0;
  }

  /**
   What a press with a shown line is timed to: the latest of the line and the ends of the frames that
   start from the touch up to two frame budgets after it; never less than the line itself.
   */
  lemma ShownLatency(samples: seq<Sample>, span: Span, screen: nat, lines: seq<Shown>, searchEnd: real, budget: real)
    ensures var r := MeasureShownPress(samples, span, screen, lines, searchEnd, budget);
            var input := InputFrame(samples, span, searchEnd);
            var line := LineOf(samples, span, screen, lines, searchEnd);
            && (r == NoInput <==> input.None?)
            && (r.Timed? <==> line.Some?)
            && (r.Timed? ==>
                  && input.Some? && line.value < |lines|
                  && var touch, at := input.value.startedAt, lines[line.value].at;
                     r.answer == ShownLine && r.latencyMs >= Round(at - touch)
                     && (r.latencyMs == Round(at - touch)
                         || exists s ::
                              && s in samples && InReach(s, touch, at, budget)
                              && r.latencyMs == Round(s.completedAt - touch))
                     && forall s :: s in samples && InReach(s, touch, at, budget) ==>
                          r.latencyMs >= Round(s.completedAt - touch))
  {
    hide Round, InputFrame, LineFrom;
    var line := LineOf(samples, span, screen, lines, searchEnd);
    if line.Some? {
      var touch, at := InputFrame(samples, span, searchEnd).value.startedAt, lines[line.value].at;
      var end := LastEnd(samples, touch, at + SHOWN_MARKER_FRAMES * budget, at);
      RoundOrder(at - touch, end - touch);
      forall s | s in samples && InReach(s, touch, at, budget)
        ensures Round(s.completedAt - touch) <= Round(end - touch)
      {
        RoundOrder(s.completedAt - touch, end - touch);
      }
    }
  }

  predicate InReach(s: Sample, touch: real, at: real, budget: real) {
    touch <= s.startedAt <= at + 2.0 * budget
  }

  /** Presses follow each other: none starts before the one ahead of it. */
  predicate Sequential(spans: seq<Span>) {
    forall i, j :: 0 <= i < j < |spans| ==> spans[i].startedAt <= spans[j].startedAt
  }

  /** The presses of a window and the screens that answer them, the frames and lines recorded in it, and its end. */
  datatype PressWindow = PressWindow(spans: seq<Span>, screens: seq<nat>, samples: seq<Sample>, lines: seq<Shown>,
                                     end: real)

  /** A press looks for its line until the next press starts. */
  function PressEnd(w: PressWindow, i: nat): real {
    if i + 1 < |w.spans| then w.spans[i + 1].startedAt else w.end
  }

  function TouchOf(w: PressWindow, i: nat): Option<Sample>
    requires i < |w.spans|
  {
    InputFrame(w.samples, w.spans[i], PressEnd(w, i))
  }

  /** Line `k` answers press `i`. */
  predicate LineAnswers(w: PressWindow, i: nat, k: nat) {
    && i < |w.spans| && i < |w.screens|
    && LineOf(w.samples, w.spans[i], w.screens[i], w.lines, PressEnd(w, i)) == Some(k)
  }

  /** The line is of the screen, from the touch on, and before the next press or the end of the window. */
  predicate Suits(w: PressWindow, i: nat, k: nat, touch: real) {
    && i < |w.spans| && i < |w.screens| && k < |w.lines| && w.lines[k].screen == w.screens[i]
    && touch <= w.lines[k].at && w.lines[k].at <= if i + 1 < |w.spans| then w.spans[i + 1].startedAt else w.end
  }

  /** A line answers a press exactly if it is the first that suits it from the touch on. */
  lemma LineAnswersIff(w: PressWindow, i: nat, k: nat)
    ensures LineAnswers(w, i, k) <==>
              && i < |w.spans| && i < |w.screens| && TouchOf(w, i).Some? && k < |w.lines|
              && Suits(w, i, k, TouchOf(w, i).value.startedAt)
              && forall m :: 0 <= m < k ==> !Suits(w, i, m, TouchOf(w, i).value.startedAt)
    ensures LineAnswers(w, i, k) ==> w.spans[i].startedAt <= TouchOf(w, i).value.startedAt
  {
    if i < |w.spans| {
      InputIs(w.samples, w.spans[i], PressEnd(w, i));
      if i < |w.screens| && TouchOf(w, i).Some? {
        var touch := TouchOf(w, i).value.startedAt;
        forall m: nat | m < |w.lines|
          ensures Suits(w, i, m, touch) <==> Fits(w.lines[m], w.screens[i], touch, PressEnd(w, i))
        {
        }
      }
    }
  }

  /**
   Press `j` is touched at the very instant of line `k` and of its own node's start, and no earlier line fits it from
   then on.
   */
  predicate SharesInstant(w: PressWindow, j: nat, k: nat) {
    && j < |w.spans| && j < |w.screens| && k < |w.lines|
    && TouchOf(w, j).Some? && TouchOf(w, j).value.startedAt == w.spans[j].startedAt == w.lines[k].at
    && Suits(w, j, k, w.lines[k].at) && forall m :: 0 <= m < k ==> !Suits(w, j, m, w.lines[k].at)
  }

  /**
   Exactly when the line that answers a press answers a later one too: the later press shares its instant.
   The node starts from the press after the first up to the later one then fall on that instant as well.
   */
  lemma SharedLine(w: PressWindow, i: nat, j: nat, k: nat)
    requires Sequential(w.spans) && i < j && LineAnswers(w, i, k)
    ensures LineAnswers(w, j, k) <==> SharesInstant(w, j, k)
    ensures LineAnswers(w, j, k) ==> forall n :: i < n <= j ==> w.spans[n].startedAt == w.lines[k].at
  {
    hide LineAnswers, TouchOf;
    LineAnswersIff(w, i, k);
    LineAnswersIff(w, j, k);
  }

  /** So no line answers two presses of sequential nodes, if each touch frame comes after its node's start. */
  lemma NoSharedLine(w: PressWindow, i: nat, j: nat, k: nat)
    requires Sequential(w.spans) && i < j < |w.spans|
    requires TouchOf(w, j).Some? ==> TouchOf(w, j).value.startedAt > w.spans[j].startedAt
    ensures !(LineAnswers(w, i, k) && LineAnswers(w, j, k))
  {
    hide LineAnswers, TouchOf;
    if LineAnswers(w, i, k) {
      SharedLine(w, i, j, k);
    }
  }

  /** The instant at which one line does answer two presses. */
  lemma ALineSharedAtOneInstant()
    ensures var samples := [Sample(1.0, 2.0, 1.0, true, None, None), Sample(5.0, 6.0, 1.0, true, None, None)];
            var spans := [Span(0, 0.0, Some(4.0)), Span(1, 5.0, Some(9.0))];
            var w := PressWindow(spans, [7, 7], samples, [Shown(7, 5.0)], 10.0);
            Sequential(spans) && LineAnswers(w, 0, 0) && LineAnswers(w, 1, 0)
  {
    var samples := [Sample(1.0, 2.0, 1.0, true, None, None), Sample(5.0, 6.0, 1.0, true, None, None)];
    assert samples[1..][0] == samples[1];
  }

  // ----- the spans of the nodes -----

  /** A node starts or ends; the clock reads `at`. */
  datatype NodeEvent = NodeEvent(nodeId: nat, running: bool, at: real)

  /** The last span of the node that is still open. */
  predicate IsOpenSpan(spans: seq<Span>, nodeId: nat, k: int) {
    && 0 <= k < |spans| && spans[k].nodeId == nodeId && spans[k].endedAt.None?
    && forall i :: k < i < |spans| ==> spans[i].nodeId != nodeId || spans[i].endedAt.Some?
  }

  function OpenSpan(spans: seq<Span>, nodeId: nat): (k: int)
    ensures if k >= 0 then IsOpenSpan(spans, nodeId, k)
            else forall i :: 0 <= i < |spans| ==> !IsOpenSpan(spans, nodeId, i)
    ensures k < 0 ==> forall i :: 0 <= i < |spans| ==> spans[i].nodeId != nodeId || spans[i].endedAt.Some?
  {
    if spans == [] then -1
    else if spans[|spans| - 1].nodeId == nodeId && spans[|spans| - 1].endedAt.None? then |spans| - 1
    else OpenSpan(spans[..|spans| - 1], nodeId)
  }

  function WithEvent(spans: seq<Span>, e: NodeEvent): seq<Span> {
    if e.running then spans + [Span(e.nodeId, e.at, None)]
    else
      var k := OpenSpan(spans, e.nodeId);
      if k < 0 then spans else spans[k := spans[k].(endedAt := Some(e.at))]
  }

  class NodeSpans {
    var spans: seq<Span>

    constructor ()
      ensures spans == []
    {
      spans := [];
    }

    /** A start opens a span; an end closes the last one of its node that is open, if there is one. */
    method RecordNodeEvent(e: NodeEvent)
      modifies this
      ensures spans == WithEvent(old(spans), e)
    {
      if e.running {
        spans := spans + [Span(e.nodeId, e.at, None)];
        return;
      }
      var index := |spans| - 1;
      while index >= 0
        invariant -1 <= index < |spans|
        invariant forall i :: index < i < |spans| ==> spans[i].nodeId != e.nodeId || spans[i].endedAt.Some?
        invariant spans == old(spans)
      {
        if spans[index].nodeId == e.nodeId && spans[index].endedAt.None? {
          assert IsOpenSpan(spans, e.nodeId, index);
          spans := spans[index := spans[index].(endedAt := Some(e.at))];
          return;
        }
        index := index - 1;
      }
    }
  }

  function Recorded(events: seq<NodeEvent>): seq<Span> {
    if events == [] then [] else WithEvent(Recorded(events[..|events| - 1]), events[|events| - 1])
  }

  /** The clock never goes back. */
  predicate ClockRuns(events: seq<NodeEvent>) {
    forall i, j :: 0 <= i < j < |events| ==> events[i].at <= events[j].at
  }

  predicate Proper(spans: seq<Span>, now: real) {
    forall i :: 0 <= i < |spans| ==>
        spans[i].startedAt <= now && (spans[i].endedAt.Some? ==> spans[i].startedAt <= spans[i].endedAt.value <= now)
  }

  lemma EventKeeps(spans: seq<Span>, e: NodeEvent, now: real)
    requires Sequential(spans) && Proper(spans, now) && now <= e.at
    ensures Sequential(WithEvent(spans, e)) && Proper(WithEvent(spans, e), e.at)
  {
    hide OpenSpan;
    var after := WithEvent(spans, e);
    assert forall i :: 0 <= i < |spans| ==> after[i].startedAt == spans[i].startedAt;
  }

  /** Whatever nodes start and end, recorded spans follow each other and none ends before it starts. */
  lemma {:induction false} SpansAreSequential(events: seq<NodeEvent>, now: real)
    requires ClockRuns(events) && forall i :: 0 <= i < |events| ==> events[i].at <= now
    ensures Sequential(Recorded(events)) && Proper(Recorded(events), now)
  {
    hide Sequential, WithEvent;
    if events == [] {
      NoSpans();
    } else {
      var before, e := events[..|events| - 1], events[|events| - 1];
      SpansAreSequential(before, e.at);
      EventKeeps(Recorded(before), e, e.at);
    }
  }

  lemma NoSpans()
    ensures Sequential([])
  {
  }

  // ----- what the parts mean, in numbers -----

  /** The node's touch: the first sample in it that handled input, the node lasting to its end or the window's. */
  predicate InNode(samples: seq<Sample>, i: int, span: Span, windowEnd: real) {
    && 0 <= i < |samples| && samples[i].input && span.startedAt <= samples[i].startedAt
    && samples[i].startedAt <= if span.endedAt == None then windowEnd else span.endedAt.value
  }

  lemma {:induction false} TouchIs(samples: seq<Sample>, span: Span, windowEnd: real)
    ensures match InputFrame(samples, span, windowEnd)
            case Some(s) =>
              exists i :: InNode(samples, i, span, windowEnd) && samples[i] == s
                          && forall j :: j < i ==> !InNode(samples, j, span, windowEnd)
            case None => forall i :: !InNode(samples, i, span, windowEnd)
  {
    if samples != [] {
      TouchIs(samples[1..], span, windowEnd);
      forall i: int
        ensures InNode(samples, i, span, windowEnd) <==>
                  if i == 0 then Touches(samples[0], span, windowEnd) else InNode(samples[1..], i - 1, span, windowEnd)
      {
      }
      if Touches(samples[0], span, windowEnd) {
        assert InNode(samples, 0, span, windowEnd);
      } else {
        forall i | InNode(samples[1..], i, span, windowEnd)
          ensures InNode(samples, i + 1, span, windowEnd)
        {
        }
      }
    }
  }

  /** A press without a touch is not timed, whatever frames and lines there are. */
  lemma NoTouchNoLatency(samples: seq<Sample>, span: Span, responseWindow: real, windowEnd: real)
    ensures MeasurePress(samples, span, responseWindow, windowEnd) == NoInput <==>
              forall i :: !InNode(samples, i, span, windowEnd)
  {
    hide InNode, InputFrame, AnswerTo;
    TouchIs(samples, span, windowEnd);
    AnswersOnly(samples, span, responseWindow, windowEnd);
  }

  lemma AnswersOnly(samples: seq<Sample>, span: Span, responseWindow: real, windowEnd: real)
    ensures MeasurePress(samples, span, responseWindow, windowEnd) == NoInput <==>
              InputFrame(samples, span, windowEnd) == None
  {
    hide Candidates, InputFrame, FirstStandOut, FirstUpTo, Round;
  }

  /** The work of every candidate. */
  function Works(candidates: seq<Sample>): (works: seq<real>)
    ensures |works| == |candidates| && forall i :: 0 <= i < |works| ==> works[i] == Work(candidates[i])
  {
    seq(|candidates|, i requires 0 <= i < |candidates| => Work(candidates[i]))
  }

  /** The list has the work of every candidate but the `k`-th, least first. */
  predicate WorkOfOthers(candidates: seq<Sample>, k: nat, others: seq<real>) {
    && k < |candidates| && |others| == |candidates| - 1 && Ascending(others)
    && multiset(others) + multiset{Work(candidates[k])} == multiset(Works(candidates))
  }

  /**
   Which frame stands out. In the response window it did at least 4 ms of work, and a whole frame budget (a sixtieth
   of a second, if none is known) or three times the median of the others; past the window, a whole frame budget.
   */
  lemma StandsOutIs(candidates: seq<Sample>, k: nat, windowEnd: real, others: seq<real>)
    requires WorkOfOthers(candidates, k, others)
    ensures var s, n := candidates[k], |others|;
            var ms := if s.uiThread == None then s.duration else s.uiThread.value;
            var whole := if s.budget == None then 60.0 * ms >= 1000.0 else ms >= s.budget.value;
            StandsOut(candidates, k, windowEnd) <==>
              if s.startedAt > windowEnd then whole
              else ms >= 4.0 && (whole || n == 0 || 2.0 * ms >= 3.0 * (others[(n - 1) / 2] + others[n / 2]))
  {
    hide SortValues, Median, Ascending;
    var all, but := Works(candidates), WorksBut(candidates, k);
    assert but == all[..k] + all[k + 1..];
    TakenOut(all, k);
    assert multiset(others) == multiset(all) - multiset{all[k]};
    SortValuesIs(but);
    AscendOnce(SortValues(but), others);
    if others != [] {
      MedianIsHalfway(others);
    }
  }

  lemma TakenOut(values: seq<real>, k: nat)
    requires k < |values|
    ensures multiset(values[..k] + values[k + 1..]) == multiset(values) - multiset{values[k]}
  {
    assert values == values[..k] + ([values[k]] + values[k + 1..]);
  }

  /** A latency is told in whole microseconds, to the nearest. */
  lemma RoundIs(value: real)
    ensures Round(value) - 0.0005 <= value < Round(value) + 0.0005
    ensures (Round(value) * 1000.0).Floor as real == Round(value) * 1000.0
  {
    assert (value * 1000.0 + 0.5).Floor as real == Round(value) * 1000.0;
  }

  /** A start appends an open span; an end closes the node's last open span, and changes nothing else. */
  lemma EventIs(spans: seq<Span>, e: NodeEvent)
    ensures var after := WithEvent(spans, e);
            && (e.running ==> after == spans + [Span(e.nodeId, e.at, None)])
            && (!e.running ==>
                  && |after| == |spans|
                  && forall i :: 0 <= i < |spans| ==>
                       after[i] == if LastOpen(spans, e.nodeId, i) then Span(e.nodeId, spans[i].startedAt, Some(e.at))
                                   else spans[i])
  {
    forall i | 0 <= i < |spans|
      ensures LastOpen(spans, e.nodeId, i) <==> i == OpenSpan(spans, e.nodeId)
    {
    }
  }

  predicate LastOpen(spans: seq<Span>, nodeId: nat, i: int) {
    && 0 <= i < |spans| && spans[i].nodeId == nodeId && spans[i].endedAt == None
    && forall j :: i < j < |spans| && spans[j].nodeId == nodeId ==> spans[j].endedAt != None
  }
}
