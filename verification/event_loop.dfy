/**
 The Tk event loop around the controller: the callbacks scheduled so far and
 not yet run, and the events that drive the experiment (the start button, the
 space bar, and the running of one pending callback). Nothing here fixes the
 order in which pending callbacks run, so the invariants below hold however
 the scheduler interleaves them.
 */
module EventLoop {
  import opened Trials
  import opened Counterbalance
  import opened SequenceBuilder
  import opened Controller

  datatype Loop = Loop(state: State, pending: seq<Scheduled>, clock: int)

  datatype Event =
    | StartClicked(row: RowIndex, now: int)               // the start button
    | KeyPress(now: int)                                  // the space bar
    | Fire(index: nat, now: int, foreperiod: Foreperiod)  // pending callback `index` runs

  /** The loop before the start button is pressed. */
  function Boot(participantId: string, now: int): Loop {
    Loop(Initial(participantId), [], now)
  }

  /** `p` without its `i`th entry. */
  function Remove(p: seq<Scheduled>, i: nat): (r: seq<Scheduled>)
    requires i < |p|
    ensures |r| == |p| - 1
    ensures forall x :: x in r ==> x in p
  {
    p[..i] + p[i + 1..]
  }

  /** Runs callback `cb` at time `now`; `foreperiod` is the draw a newly
      started trial uses. */
  function Dispatch(s: State, cb: Callback, now: int, foreperiod: Foreperiod): (e: Effect)
    ensures |e.scheduled| <= 2
    ensures forall x :: x in e.scheduled ==> now < x.due && x.callback != RunNext
  {
    match cb
    case RunNext => RunNextTrial(s, now, foreperiod)
    case Present(m) => PresentStimulus(s, m, now)
    case HideVisual => Effect(s, [])
    case MissTimeout => RecordResponse(s, true, now)
    case Advance => NextTrial(s, now, foreperiod)
  }

  function Step(l: Loop, ev: Event): (r: Loop)
    ensures ev.Fire? && ev.index >= |l.pending| ==> r == l
    ensures !ev.Fire? ==> r.clock == ev.now && |l.pending| <= |r.pending| && r.pending[..|l.pending|] == l.pending
    ensures ev.Fire? && ev.index < |l.pending| ==>
              && r.clock == ev.now
              && |Remove(l.pending, ev.index)| <= |r.pending|
              && r.pending[..|Remove(l.pending, ev.index)|] == Remove(l.pending, ev.index)
  {
    match ev
    case StartClicked(row, now) =>
      var e := StartPracticeTrials(l.state, row, now);
      Loop(e.state, l.pending + e.scheduled, now)
    case KeyPress(now) =>
      var e := HandleSpacebarPress(l.state, now);
      Loop(e.state, l.pending + e.scheduled, now)
    case Fire(i, now, foreperiod) =>
      if i < |l.pending| then
        var e := Dispatch(l.state, l.pending[i].callback, now, foreperiod);
        Loop(e.state, Remove(l.pending, i) + e.scheduled, now)
      else l
  }

  function Run(l: Loop, events: seq<Event>): Loop
    decreases |events|
  {
    if events == [] then l else Run(Step(l, events[0]), events[1..])
  }

  // ---------------------------------------------------------------------------
  // Counting pending callbacks by kind

  /** A callback without its payload: the slots below count `Present`
      callbacks whatever modality they carry. */
  datatype Kind = KRunNext | KPresent | KHide | KTimeout | KAdvance

  function KindOf(cb: Callback): Kind {
    match cb
    case RunNext => KRunNext
    case Present(_) => KPresent
    case HideVisual => KHide
    case MissTimeout => KTimeout
    case Advance => KAdvance
  }

  function Count(p: seq<Scheduled>, k: Kind): nat {
    if p == [] then 0
    else (if KindOf(p[0].callback) == k then 1 else 0) + Count(p[1..], k)
  }

  lemma {:induction false} CountConcat(a: seq<Scheduled>, b: seq<Scheduled>, k: Kind)
    ensures Count(a + b, k) == Count(a, k) + Count(b, k)
  {
    if a == [] {
      assert a + b == b;
    } else {
      assert (a + b)[1..] == a[1..] + b;
      CountConcat(a[1..], b, k);
    }
  }

  lemma CountRemove(p: seq<Scheduled>, i: nat, k: Kind)
    requires i < |p|
    ensures Count(Remove(p, i), k) + (if KindOf(p[i].callback) == k then 1 else 0) == Count(p, k)
  {
    assert p == p[..i] + ([p[i]] + p[i + 1..]);
    CountConcat(p[..i], [p[i]] + p[i + 1..], k);
    CountConcat([p[i]], p[i + 1..], k);
    CountConcat(p[..i], p[i + 1..], k);
  }

  lemma {:induction false} CountPositive(p: seq<Scheduled>, i: nat)
    requires i < |p|
    ensures Count(p, KindOf(p[i].callback)) >= 1
  {
    if i > 0 {
      CountPositive(p[1..], i - 1);
    }
  }

  lemma {:induction false} CountNoneOf(p: seq<Scheduled>, k: Kind)
    requires forall j :: 0 <= j < |p| ==> KindOf(p[j].callback) != k
    ensures Count(p, k) == 0
  {
    if p != [] {
      CountNoneOf(p[1..], k);
    }
  }

  // ---------------------------------------------------------------------------
  // The invariant

  /** Main result `r` is the result of spec `spec`, the `i`th of the sequence. */
  predicate ResultOf(r: TrialRecord, spec: TrialSpec, i: int, participantId: string) {
    && r.participantId == participantId
    && r.trialNumber == i + 1
    && r.modality == spec.modality
    && r.isPractice == spec.isPractice
    && r.block == spec.block
    && (r.isError <==> r.errorType.Some?)
    && (r.errorType == None ==> MinResponseTime <= r.reactionTime)
    && (r.errorType == Some(Anticipation) ==> r.reactionTime < MinResponseTime)
  }

  /** The results recorded after the practice results. */
  function MainRecords(s: State): seq<TrialRecord>
    requires |PracticeRecords(s.participantId)| <= |s.records|
  {
    s.records[|PracticeRecords(s.participantId)|..]
  }

  /** How many of the scheduling flags say a trial is under way: a pending
      stimulus, an armed stimulus, or pending feedback. */
  function Activity(l: Loop): nat {
    Count(l.pending, KPresent) + (if l.state.running then 1 else 0) + Count(l.pending, KAdvance)
  }

  /** Main result `i` is the result of spec `i`. */
  predicate MainRecordsMatch(s: State)
    requires |PracticeRecords(s.participantId)| <= |s.records|
  {
    forall i :: 0 <= i < |MainRecords(s)| ==>
      i < |s.sequence| && ResultOf(MainRecords(s)[i], s.sequence[i], i, s.participantId)
  }

  /** Appending the result of the next spec keeps the practice results and
      the match between main results and specs. */
  lemma AppendNextResult(s: State, r: TrialRecord)
    requires |PracticeRecords(s.participantId)| <= |s.records|
    requires MainRecordsMatch(s)
    requires |MainRecords(s)| < |s.sequence|
    requires ResultOf(r, s.sequence[|MainRecords(s)|], |MainRecords(s)|, s.participantId)
    ensures var s' := s.(records := s.records + [r]);
            && |PracticeRecords(s.participantId)| <= |s'.records|
            && s'.records[..|PracticeRecords(s.participantId)|] == s.records[..|PracticeRecords(s.participantId)|]
            && MainRecords(s') == MainRecords(s) + [r]
            && MainRecordsMatch(s')
  {
    var p := |PracticeRecords(s.participantId)|;
    assert (s.records + [r])[..p] == s.records[..p];
    assert (s.records + [r])[p..] == s.records[p..] + [r];
  }

  predicate Invariant(l: Loop) {
    var s := l.state;
    && (!s.started ==>
          s.records == [] && l.pending == [] && !s.inProgress && !s.running && !s.resultsShown)
    && (s.started ==>
          && |PracticeRecords(s.participantId)| <= |s.records|
          && s.records[..|PracticeRecords(s.participantId)|] == PracticeRecords(s.participantId)
          && s.current <= |s.sequence|
          && (s.inProgress ==> s.current < |s.sequence|)
          && Activity(l) == (if s.inProgress then 1 else 0)
          && |MainRecords(s)| == s.current + Count(l.pending, KAdvance)
          && MainRecordsMatch(s)
          && (s.resultsShown ==> !s.inProgress && s.current == |s.sequence|))
  }

  lemma InvariantBoot(participantId: string, now: int)
    ensures Invariant(Boot(participantId, now))
  {
  }

  lemma StartPreserves(l: Loop, row: RowIndex, now: int)
    requires Invariant(l)
    ensures Invariant(Step(l, StartClicked(row, now)))
  {
    var s := l.state;
    if s.started {
      assert l.pending + [] == l.pending;
    } else {
      var l' := Step(l, StartClicked(row, now));
      assert l'.pending == [Scheduled(now + StartDelay, RunNext)];
      assert l'.state == s.(started := true, current := 0, inProgress := false,
                            sequence := MainSequence(row), records := PracticeRecords(s.participantId));
      InvariantJustStarted(l');
    }
  }

  /** The loop right after the start: the practice results are in, no trial
      is under way, and only the first `run_next_trial` is pending. */
  lemma InvariantJustStarted(l: Loop)
    requires l.state.started && !l.state.inProgress && !l.state.running && !l.state.resultsShown
    requires l.state.current == 0 && l.state.records == PracticeRecords(l.state.participantId)
    requires forall x :: x in l.pending ==> x.callback == RunNext
    ensures Invariant(l)
  {
    CountNoneOf(l.pending, KPresent);
    CountNoneOf(l.pending, KAdvance);
    assert MainRecords(l.state) == [];
  }

  /** Recording a result while armed keeps the invariant; this is the common
      part of a key press and a timeout. */
  lemma RecordPreserves(l: Loop, rest: seq<Scheduled>, missed: bool, now: int)
    requires Invariant(l) && l.state.running
    requires Count(rest, KPresent) == Count(l.pending, KPresent)
    requires Count(rest, KAdvance) == Count(l.pending, KAdvance)
    ensures var e := RecordResponse(l.state, missed, now);
            Invariant(Loop(e.state, rest + e.scheduled, now))
  {
    var s := l.state;
    var e := RecordResponse(s, missed, now);
    var l' := Loop(e.state, rest + e.scheduled, now);
    assert s.inProgress && s.current < |s.sequence|;
    assert Count(l.pending, KPresent) == 0 && Count(l.pending, KAdvance) == 0;
    var r := ResultFor(s, missed, now);
    assert e.state == s.(running := false, records := s.records + [r]);
    assert e.scheduled == [Scheduled(now + FeedbackDuration, Advance)];
    CountConcat(rest, e.scheduled, KPresent);
    CountConcat(rest, e.scheduled, KAdvance);
    assert Count(l'.pending, KAdvance) == 1;
    AppendNextResult(s, r);
    assert e.state.records == s.(records := s.records + [r]).records;
  }

  lemma KeyPressPreserves(l: Loop, now: int)
    requires Invariant(l)
    ensures Invariant(Step(l, KeyPress(now)))
  {
    if l.state.running {
      RecordPreserves(l, l.pending, false, now);
    } else {
      assert l.pending + [] == l.pending;
    }
  }

  /** The facts every callback case starts from. */
  lemma FireFacts(l: Loop, i: nat, now: int, foreperiod: Foreperiod)
    requires i < |l.pending|
    ensures var rest := Remove(l.pending, i);
            var e := Dispatch(l.state, l.pending[i].callback, now, foreperiod);
            && Step(l, Fire(i, now, foreperiod)) == Loop(e.state, rest + e.scheduled, now)
            && (forall x :: x in rest ==> x in l.pending)
            && Count(rest, KPresent) + (if l.pending[i].callback.Present? then 1 else 0)
                 == Count(l.pending, KPresent)
            && Count(rest, KAdvance) + (if l.pending[i].callback == Advance then 1 else 0)
                 == Count(l.pending, KAdvance)
            && Count(l.pending, KindOf(l.pending[i].callback)) >= 1
            && Count(rest + e.scheduled, KPresent) == Count(rest, KPresent) + Count(e.scheduled, KPresent)
            && Count(rest + e.scheduled, KAdvance) == Count(rest, KAdvance) + Count(e.scheduled, KAdvance)
  {
    var rest := Remove(l.pending, i);
    var e := Dispatch(l.state, l.pending[i].callback, now, foreperiod);
    CountRemove(l.pending, i, KPresent);
    CountRemove(l.pending, i, KAdvance);
    CountPositive(l.pending, i);
    CountConcat(rest, e.scheduled, KPresent);
    CountConcat(rest, e.scheduled, KAdvance);
  }

  lemma FireRunNextPreserves(l: Loop, i: nat, now: int, foreperiod: Foreperiod)
    requires Invariant(l) && i < |l.pending| && l.pending[i].callback == RunNext
    ensures Invariant(Step(l, Fire(i, now, foreperiod)))
  {
    FireFacts(l, i, now, foreperiod);
    var s := l.state;
    var e := RunNextTrial(s, now, foreperiod);
    assert s.started;
    if !s.inProgress && s.current < |s.sequence| {
      assert e.state == s.(inProgress := true, running := false);
      assert Count(e.scheduled, KPresent) == 1 && Count(e.scheduled, KAdvance) == 0;
    } else {
      assert e.scheduled == [] && Count(e.scheduled, KPresent) == 0 && Count(e.scheduled, KAdvance) == 0;
    }
  }

  /** A presentation schedules an auto-hide at most and the timeout at the
      end of the modality's window, nothing earlier than now. */
  lemma PresentSchedules(s: State, m: Modality, now: int)
    ensures var e := PresentStimulus(s, m, now);
            && Count(e.scheduled, KPresent) == 0 && Count(e.scheduled, KAdvance) == 0
            && Scheduled(now + ResponseWindow(m), MissTimeout) in e.scheduled
            && (forall x :: x in e.scheduled ==> now <= x.due)
            && (forall x :: x in e.scheduled ==>
                  x.callback == HideVisual || x == Scheduled(now + ResponseWindow(m), MissTimeout))
  {
    var e := PresentStimulus(s, m, now);
    CountNoneOf(e.scheduled, KPresent);
    CountNoneOf(e.scheduled, KAdvance);
  }

  lemma FirePresentPreserves(l: Loop, i: nat, now: int, foreperiod: Foreperiod)
    requires Invariant(l) && i < |l.pending| && l.pending[i].callback.Present?
    ensures Invariant(Step(l, Fire(i, now, foreperiod)))
  {
    FireFacts(l, i, now, foreperiod);
    PresentSchedules(l.state, l.pending[i].callback.modality, now);
    assert Step(l, Fire(i, now, foreperiod)).state == l.state.(running := true, onset := now);
  }

  lemma FireHidePreserves(l: Loop, i: nat, now: int, foreperiod: Foreperiod)
    requires Invariant(l) && i < |l.pending| && l.pending[i].callback == HideVisual
    ensures Invariant(Step(l, Fire(i, now, foreperiod)))
  {
    FireFacts(l, i, now, foreperiod);
  }

  lemma FireTimeoutPreserves(l: Loop, i: nat, now: int, foreperiod: Foreperiod)
    requires Invariant(l) && i < |l.pending| && l.pending[i].callback == MissTimeout
    ensures Invariant(Step(l, Fire(i, now, foreperiod)))
  {
    FireFacts(l, i, now, foreperiod);
    if l.state.running {
      RecordPreserves(l, Remove(l.pending, i), true, now);
    }
  }

  lemma FireAdvancePreserves(l: Loop, i: nat, now: int, foreperiod: Foreperiod)
    requires Invariant(l) && i < |l.pending| && l.pending[i].callback == Advance
    ensures Invariant(Step(l, Fire(i, now, foreperiod)))
  {
    FireFacts(l, i, now, foreperiod);
    var s := l.state;
    assert s.inProgress && !s.running;
    var s1 := s.(inProgress := false, current := s.current + 1);
    var e := RunNextTrial(s1, now, foreperiod);
    assert NextTrial(s, now, foreperiod) == e;
    if s1.current < |s.sequence| {
      assert Count(e.scheduled, KPresent) == 1;
      assert Count(e.scheduled, KAdvance) == 0;
    }
    assert MainRecords(e.state) == MainRecords(s);
  }

  lemma FirePreserves(l: Loop, i: nat, now: int, foreperiod: Foreperiod)
    requires Invariant(l)
    ensures Invariant(Step(l, Fire(i, now, foreperiod)))
  {
    if i < |l.pending| {
      match l.pending[i].callback
      case RunNext => FireRunNextPreserves(l, i, now, foreperiod);
      case Present(_) => FirePresentPreserves(l, i, now, foreperiod);
      case HideVisual => FireHidePreserves(l, i, now, foreperiod);
      case MissTimeout => FireTimeoutPreserves(l, i, now, foreperiod);
      case Advance => FireAdvancePreserves(l, i, now, foreperiod);
    }
  }

  lemma StepPreserves(l: Loop, ev: Event)
    requires Invariant(l)
    ensures Invariant(Step(l, ev))
  {
    match ev
    case StartClicked(row, now) => StartPreserves(l, row, now);
    case KeyPress(now) => KeyPressPreserves(l, now);
    case Fire(i, now, foreperiod) => FirePreserves(l, i, now, foreperiod);
  }

  lemma {:induction false} RunPreserves(l: Loop, events: seq<Event>)
    requires Invariant(l)
    ensures Invariant(Run(l, events))
    decreases |events|
  {
    if events != [] {
      StepPreserves(l, events[0]);
      RunPreserves(Step(l, events[0]), events[1..]);
    }
  }

  /** Once started, the trial sequence and the participant never change, and
      results are only ever appended. */
  lemma {:induction false} RunKeepsSequence(l: Loop, events: seq<Event>)
    requires l.state.started
    ensures Run(l, events).state.started
    ensures Run(l, events).state.sequence == l.state.sequence
    ensures Run(l, events).state.participantId == l.state.participantId
    ensures |l.state.records| <= |Run(l, events).state.records|
    ensures Run(l, events).state.records[..|l.state.records|] == l.state.records
    decreases |events|
  {
    if events != [] {
      var l1 := Step(l, events[0]);
      StepKeepsSequence(l, events[0]);
      RunKeepsSequence(l1, events[1..]);
      var records := Run(l1, events[1..]).state.records;
      assert records[..|l.state.records|] == records[..|l1.state.records|][..|l.state.records|];
    }
  }

  /** A state that only differs from `s` by appending at most one result. */
  predicate AppendsAtMostOne(s: State, s1: State) {
    && s1.started == s.started && s1.sequence == s.sequence && s1.participantId == s.participantId
    && (s1.records == s.records
        || (|s1.records| == |s.records| + 1 && s1.records[..|s.records|] == s.records))
  }

  /** After the start, one event keeps the sequence and the participant and
      only ever appends results. */
  lemma StepKeepsSequence(l: Loop, ev: Event)
    requires l.state.started
    ensures AppendsAtMostOne(l.state, Step(l, ev).state)
  {
    match ev
    case StartClicked(row, now) =>
    case KeyPress(now) => RecordKeepsSequence(l.state, false, now);
    case Fire(i, now, foreperiod) =>
      if i < |l.pending| {
        DispatchKeepsSequence(l.state, l.pending[i].callback, now, foreperiod);
      }
  }

  lemma DispatchKeepsSequence(s: State, cb: Callback, now: int, foreperiod: Foreperiod)
    ensures AppendsAtMostOne(s, Dispatch(s, cb, now, foreperiod).state)
  {
    if cb == MissTimeout {
      RecordKeepsSequence(s, true, now);
    }
  }

  lemma RecordKeepsSequence(s: State, missed: bool, now: int)
    ensures AppendsAtMostOne(s, RecordResponse(s, missed, now).state)
  {
    var s1 := RecordResponse(s, missed, now).state;
    if s1.records != s.records {
      assert s1.records[..|s.records|] == s.records;
    }
  }

  /** Whenever a stimulus is armed there is a current spec, so the failed
      lookup in `record_response` is never reached. */
  lemma ArmedTrialHasSpec(l: Loop)
    requires Invariant(l) && l.state.running
    ensures l.state.inProgress && l.state.current < |l.state.sequence|
  {
  }

  /** When the results are shown, every spec of the sequence has exactly one
      main result, in sequence order, numbered from 1. */
  lemma ShownResultsCoverSequence(l: Loop)
    requires Invariant(l) && l.state.started && l.state.resultsShown
    ensures |MainRecords(l.state)| == |l.state.sequence|
    ensures forall i :: 0 <= i < |l.state.sequence| ==>
              ResultOf(MainRecords(l.state)[i], l.state.sequence[i], i, l.state.participantId)
  {
  }

  /** End to end: after the start button (with Latin-square row `row`) and any
      events whatever, once the results are shown the records are the six
      practice results followed by one result per main spec: the row's
      modalities in runs of ten, block k for the k-th run, numbered 1 to 30. */
  lemma CompletedExperiment(participantId: string, row: RowIndex, t0: int, t1: int, events: seq<Event>)
    ensures var s := Run(Step(Boot(participantId, t0), StartClicked(row, t1)), events).state;
      s.resultsShown ==>
        && |s.records| == 36
        && s.records[..6] == PracticeRecords(participantId)
        && forall i :: 0 <= i < 30 ==>
             var r := s.records[6 + i];
             && r.participantId == participantId
             && r.trialNumber == i + 1
             && !r.isPractice
             && r.modality == BlockOrder(row)[i / 10]
             && r.block == Some(i / 10 + 1)
             && (r.isError <==> r.errorType.Some?)
  {
    var l1 := Step(Boot(participantId, t0), StartClicked(row, t1));
    InvariantBoot(participantId, t0);
    StartPreserves(Boot(participantId, t0), row, t1);
    assert l1.state.started && l1.state.sequence == MainSequence(row) && l1.state.participantId == participantId;
    RunPreserves(l1, events);
    RunKeepsSequence(l1, events);
    var l := Run(l1, events);
    if l.state.resultsShown {
      ShownMainRecords(l, participantId, row);
    }
  }

  /** A shown results screen over the main sequence of row `row`. */
  lemma ShownMainRecords(l: Loop, participantId: string, row: RowIndex)
    requires Invariant(l) && l.state.started && l.state.resultsShown
    requires l.state.sequence == MainSequence(row) && l.state.participantId == participantId
    ensures var s := l.state;
        && |s.records| == 36
        && s.records[..6] == PracticeRecords(participantId)
        && forall i :: 0 <= i < 30 ==>
             var r := s.records[6 + i];
             && r.participantId == participantId
             && r.trialNumber == i + 1
             && !r.isPractice
             && r.modality == BlockOrder(row)[i / 10]
             && r.block == Some(i / 10 + 1)
             && (r.isError <==> r.errorType.Some?)
  {
    var s := l.state;
    PracticeRecordsShape(participantId);
    MainSequenceShape(row);
    ShownResultsCoverSequence(l);
    forall i | 0 <= i < 30
      ensures s.records[6 + i] == MainRecords(s)[i]
    {
    }
  }

  // ---------------------------------------------------------------------------
  // The results screen is reachable

  /** `n` runs of the first pending callback, all at time `now`. */
  function Fires(n: nat, now: int): seq<Event> {
    seq(n, _ => Fire(0, now, MinForeperiod))
  }

  /** How many callbacks a trial of modality `m` runs when it times out: the
      stimulus, the auto-hide of a shape, the timeout and the feedback's end. */
  function TrialCallbacks(m: Modality): nat {
    if ShowsShape(m) then 4 else 3
  }

  /** The callbacks the specs from `k` on run when every one times out. */
  function RemainingCallbacks(specs: seq<TrialSpec>, k: nat): nat
    requires k <= |specs|
    decreases |specs| - k
  {
    if k == |specs| then 0 else TrialCallbacks(specs[k].modality) + RemainingCallbacks(specs, k + 1)
  }

  /** A trial in progress whose stimulus is the only pending callback. */
  predicate AwaitingStimulus(l: Loop) {
    var s := l.state;
    && s.inProgress && !s.running && s.current < |s.sequence|
    && |l.pending| == 1 && l.pending[0].callback == Present(s.sequence[s.current].modality)
  }

  lemma {:induction false} RunConcat(l: Loop, a: seq<Event>, b: seq<Event>)
    ensures Run(l, a + b) == Run(Run(l, a), b)
    decreases |a|
  {
    if a == [] {
      assert a + b == b;
    } else {
      assert a + b != [] && (a + b)[0] == a[0];
      assert (a + b)[1..] == a[1..] + b;
      RunConcat(Step(l, a[0]), a[1..], b);
    }
  }

  lemma RunFires(l: Loop, n: nat, now: int)
    requires n > 0
    ensures Run(l, Fires(n, now)) == Run(Step(l, Fire(0, now, MinForeperiod)), Fires(n - 1, now))
  {
    assert Fires(n, now)[1..] == Fires(n - 1, now);
  }

  lemma FiresConcat(a: nat, b: nat, now: int)
    ensures Fires(a + b, now) == Fires(a, now) + Fires(b, now)
  {
    assert forall j :: 0 <= j < a + b ==> Fires(a + b, now)[j] == (Fires(a, now) + Fires(b, now))[j];
  }

  /** Running the first pending callback. */
  lemma FireFirst(l: Loop, now: int)
    requires |l.pending| > 0
    ensures var e := Dispatch(l.state, l.pending[0].callback, now, MinForeperiod);
            Step(l, Fire(0, now, MinForeperiod)) == Loop(e.state, l.pending[1..] + e.scheduled, now)
  {
    assert Remove(l.pending, 0) == l.pending[1..];
  }

  /** The awaited stimulus is presented and, for a shape, hidden again: what
      remains is the armed trial waiting for its timeout. */
  lemma StimulusArms(l: Loop, now: int)
    requires AwaitingStimulus(l)
    ensures var a := Run(l, Fires(TrialCallbacks(l.state.sequence[l.state.current].modality) - 2, now));
            && a.state == l.state.(running := true, onset := now)
            && |a.pending| == 1 && a.pending[0].callback == MissTimeout
  {
    var m := l.state.sequence[l.state.current].modality;
    FireFirst(l, now);
    var l1 := Step(l, Fire(0, now, MinForeperiod));
    assert l1.pending == PresentStimulus(l.state, m, now).scheduled;
    RunFires(l, TrialCallbacks(m) - 2, now);
    if ShowsShape(m) {
      FireFirst(l1, now);
      RunFires(l1, 1, now);
    }
  }

  /** The timeout of an armed trial records a miss, and the feedback's end
      moves on to the next spec: its stimulus is awaited, or after the last
      spec the results are shown. */
  lemma TimeoutAdvances(a: Loop, now: int)
    requires a.state.running && a.state.inProgress && a.state.current < |a.state.sequence|
    requires |a.pending| == 1 && a.pending[0].callback == MissTimeout
    ensures var r := Run(a, Fires(2, now));
            && r.state.sequence == a.state.sequence && r.state.current == a.state.current + 1
            && (r.state.current < |r.state.sequence| ==> AwaitingStimulus(r))
            && (r.state.current == |r.state.sequence| ==> r.state.resultsShown)
  {
    FireFirst(a, now);
    var a1 := Step(a, Fire(0, now, MinForeperiod));
    assert a1.pending == [Scheduled(now + FeedbackDuration, Advance)];
    FireFirst(a1, now);
    RunFires(a, 2, now);
    RunFires(a1, 1, now);
  }

  /** Letting the awaited stimulus time out runs the trial to its end: its
      result is recorded, and then either the next stimulus is awaited or,
      after the last spec, the results are shown. */
  lemma TrialTimesOut(l: Loop, now: int)
    requires AwaitingStimulus(l)
    ensures var r := Run(l, Fires(TrialCallbacks(l.state.sequence[l.state.current].modality), now));
            && r.state.sequence == l.state.sequence && r.state.current == l.state.current + 1
            && (r.state.current < |r.state.sequence| ==> AwaitingStimulus(r))
            && (r.state.current == |r.state.sequence| ==> r.state.resultsShown)
  {
    var k := TrialCallbacks(l.state.sequence[l.state.current].modality) - 2;
    StimulusArms(l, now);
    FiresConcat(k, 2, now);
    RunConcat(l, Fires(k, now), Fires(2, now));
    TimeoutAdvances(Run(l, Fires(k, now)), now);
  }

  /** From an awaited stimulus, letting every remaining trial time out ends
      on the results screen. */
  lemma {:induction false} RemainingTrialsTimeOut(l: Loop, now: int)
    requires AwaitingStimulus(l)
    ensures Run(l, Fires(RemainingCallbacks(l.state.sequence, l.state.current), now)).state.resultsShown
    decreases |l.state.sequence| - l.state.current
  {
    var s := l.state;
    var first := TrialCallbacks(s.sequence[s.current].modality);
    var rest := RemainingCallbacks(s.sequence, s.current + 1);
    var l' := Run(l, Fires(first, now));
    assert RemainingCallbacks(s.sequence, s.current) == first + rest;
    assert Run(l, Fires(first + rest, now)) == Run(l', Fires(rest, now)) by {
      FiresConcat(first, rest, now);
      RunConcat(l, Fires(first, now), Fires(rest, now));
    }
    TrialTimesOut(l, now);
    assert l'.state.sequence == s.sequence && l'.state.current == s.current + 1;
    if l'.state.current < |l'.state.sequence| {
      assert AwaitingStimulus(l');
      RemainingTrialsTimeOut(l', now);
      assert RemainingCallbacks(l'.state.sequence, l'.state.current) == rest;
    } else {
      assert l'.state.resultsShown;
      assert rest == 0 && Fires(rest, now) == [];
    }
  }

  /** After the start, the first callback starts the first main trial. */
  lemma StartAwaitsFirstStimulus(participantId: string, row: RowIndex, t0: int, t1: int)
    ensures |Step(Boot(participantId, t0), StartClicked(row, t1)).pending| > 0
    ensures var l := Step(Step(Boot(participantId, t0), StartClicked(row, t1)), Fire(0, t1, MinForeperiod));
            AwaitingStimulus(l) && l.state.sequence == MainSequence(row) && l.state.current == 0
  {
    var l1 := Step(Boot(participantId, t0), StartClicked(row, t1));
    assert l1.pending == [Scheduled(t1 + StartDelay, RunNext)];
    assert |l1.state.sequence| == 30 && l1.state.current == 0 && !l1.state.inProgress;
    FireFirst(l1, t1);
  }

  /** A loop whose first callback starts the first of `specs` reaches the
      results screen when that callback and every later one run in turn. */
  lemma FirstCallbackLeadsToResults(l: Loop, now: int, specs: seq<TrialSpec>)
    requires |l.pending| > 0
    requires var l' := Step(l, Fire(0, now, MinForeperiod));
             AwaitingStimulus(l') && l'.state.sequence == specs && l'.state.current == 0
    ensures Run(l, Fires(1 + RemainingCallbacks(specs, 0), now)).state.resultsShown
  {
    var l' := Step(l, Fire(0, now, MinForeperiod));
    RunFires(l, 1 + RemainingCallbacks(specs, 0), now);
    RemainingTrialsTimeOut(l', now);
  }

  /** Some run of events reaches the results screen: after the start, run
      the first pending callback again and again, letting every trial time
      out. So `CompletedExperiment` speaks about a reachable state. */
  lemma ResultsScreenReachable(participantId: string, row: RowIndex, t0: int, t1: int)
    ensures var events := Fires(1 + RemainingCallbacks(MainSequence(row), 0), t1);
            Run(Step(Boot(participantId, t0), StartClicked(row, t1)), events).state.resultsShown
  {
    var l1 := Step(Boot(participantId, t0), StartClicked(row, t1));
    StartAwaitsFirstStimulus(participantId, row, t0, t1);
    FirstCallbackLeadsToResults(l1, t1, MainSequence(row));
  }

  // ---------------------------------------------------------------------------
  // Timing: with callbacks run when due, a stale timeout never lands

  /** Nothing pending is overdue at time `now`, and time does not go back. */
  predicate OnTime(l: Loop, now: int) {
    l.clock <= now && forall x :: x in l.pending ==> now <= x.due
  }

  /** The event happens on time: a callback runs exactly when it is due and
      never after another one that is due earlier. */
  predicate Punctual(l: Loop, ev: Event) {
    match ev
    case StartClicked(_, now) => OnTime(l, now)
    case KeyPress(now) => OnTime(l, now)
    case Fire(i, now, _) => i < |l.pending| && now == l.pending[i].due && OnTime(l, now)
  }

  predicate PunctualRun(l: Loop, events: seq<Event>)
    decreases |events|
  {
    events == [] || (Punctual(l, events[0]) && PunctualRun(Step(l, events[0]), events[1..]))
  }

  /** A recorded reaction time lies within the response window of its
      modality, and a miss is recorded at exactly its end. */
  predicate WithinWindow(r: TrialRecord) {
    && 0 <= r.reactionTime <= ResponseWindow(r.modality)
    && (r.errorType == Some(Miss) ==> r.reactionTime == ResponseWindow(r.modality))
  }

  /** The response window of the current spec. */
  function CurrentWindow(s: State): int
    requires s.current < |s.sequence|
  {
    ResponseWindow(s.sequence[s.current].modality)
  }

  predicate TimedInvariant(l: Loop) {
    var s := l.state;
    var p := l.pending;
    && (forall x :: x in p ==> l.clock <= x.due)
    && (s.running ==>
          && s.current < |s.sequence|
          && s.onset <= l.clock
          && Scheduled(s.onset + CurrentWindow(s), MissTimeout) in p
          && forall x :: x in p && x.callback == MissTimeout ==> x.due == s.onset + CurrentWindow(s))
    && (forall x :: x in p && x.callback.Present? ==>
          s.current < |s.sequence| && x.callback.modality == s.sequence[s.current].modality)
    && (forall x, y :: x in p && y in p && x.callback == MissTimeout && y.callback.Present? ==>
          x.due < y.due)
    && (forall x, y :: x in p && y in p && x.callback == MissTimeout && y.callback == Advance ==>
          x.due < y.due + MinForeperiod)
    && (forall x :: x in p && x.callback == RunNext ==> p == [x] && !s.inProgress && !s.running)
    && (forall r :: r in s.records ==> WithinWindow(r))
  }

  /** The part of the invariant the timing argument needs: at most one of a
      pending stimulus, an armed stimulus and pending feedback, an armed
      stimulus only for an existing spec, and nothing armed or pending before
      the start. */
  predicate Slots(l: Loop) {
    && (!l.state.started ==> !l.state.running && l.pending == [])
    && Count(l.pending, KPresent) + (if l.state.running then 1 else 0) + Count(l.pending, KAdvance) <= 1
    && (l.state.running ==> l.state.current < |l.state.sequence|)
  }

  lemma InvariantSlots(l: Loop)
    requires Invariant(l)
    ensures Slots(l)
  {
  }

  lemma CountZero(p: seq<Scheduled>, k: Kind)
    requires Count(p, k) == 0
    ensures forall x :: x in p ==> KindOf(x.callback) != k
  {
    forall x | x in p
      ensures KindOf(x.callback) != k
    {
      var j :| 0 <= j < |p| && p[j] == x;
      CountPositive(p, j);
    }
  }

  lemma RemoveKeeps(p: seq<Scheduled>, i: nat, x: Scheduled)
    requires i < |p| && x in p && x != p[i]
    ensures x in Remove(p, i)
  {
    var j :| 0 <= j < |p| && p[j] == x;
    if j < i {
      assert Remove(p, i)[j] == x;
    } else {
      assert Remove(p, i)[j - 1] == x;
    }
  }

  lemma TimedStart(l: Loop, row: RowIndex, now: int)
    requires Slots(l) && TimedInvariant(l) && OnTime(l, now)
    ensures TimedInvariant(Step(l, StartClicked(row, now)))
  {
    if l.state.started {
      assert l.pending + [] == l.pending;
    } else {
      var l' := Step(l, StartClicked(row, now));
      assert l'.pending == [Scheduled(now + StartDelay, RunNext)];
      assert l'.state.records == PracticeRecords(l.state.participantId);
      PracticeWithinWindow(l.state.participantId);
    }
  }

  /** The auto-filled practice times, 250 to 300 ms, lie within the window. */
  lemma PracticeWithinWindow(participantId: string)
    ensures forall r :: r in PracticeRecords(participantId) ==> WithinWindow(r)
  {
    var rs := PracticeRecords(participantId);
    PracticeRecordsShape(participantId);
    forall r | r in rs
      ensures WithinWindow(r)
    {
      var j :| 0 <= j < |rs| && rs[j] == r;
    }
  }

  /** Recording while armed, at a time no later than the armed timeout. */
  lemma TimedRecord(l: Loop, rest: seq<Scheduled>, missed: bool, now: int)
    requires Slots(l) && TimedInvariant(l) && l.state.running
    requires l.clock <= now <= l.state.onset + CurrentWindow(l.state)
    requires missed ==> now == l.state.onset + CurrentWindow(l.state)
    requires forall x :: x in rest ==> x in l.pending && now <= x.due
    ensures var e := RecordResponse(l.state, missed, now);
            TimedInvariant(Loop(e.state, rest + e.scheduled, now))
  {
    var s := l.state;
    assert s.current < |s.sequence|;
    var e := RecordResponse(s, missed, now);
    var r := ResultFor(s, missed, now);
    assert e.state.records == s.records + [r];
    assert r.errorType == Some(Miss) ==> missed;
    assert WithinWindow(r);
    CountZero(l.pending, KPresent);
    CountZero(l.pending, KAdvance);
  }

  lemma TimedKeyPress(l: Loop, now: int)
    requires Slots(l) && TimedInvariant(l) && OnTime(l, now)
    ensures TimedInvariant(Step(l, KeyPress(now)))
  {
    if l.state.running {
      TimedRecord(l, l.pending, false, now);
    } else {
      assert l.pending + [] == l.pending;
    }
  }

  lemma TimedFireRunNext(l: Loop, i: nat, now: int, foreperiod: Foreperiod)
    requires Slots(l) && TimedInvariant(l) && Punctual(l, Fire(i, now, foreperiod))
    requires l.pending[i].callback == RunNext
    ensures TimedInvariant(Step(l, Fire(i, now, foreperiod)))
  {
    FireFacts(l, i, now, foreperiod);
    assert Remove(l.pending, i) == [];
  }

  /** When a stimulus is due, everything else pending is an auto-hide: a
      timeout would be due earlier, and no other trial step can be pending. */
  lemma PresentDueLeavesOnlyHides(l: Loop, i: nat, now: int, foreperiod: Foreperiod)
    requires Slots(l) && TimedInvariant(l) && Punctual(l, Fire(i, now, foreperiod))
    requires l.pending[i].callback.Present?
    ensures !l.state.running
    ensures forall x :: x in Remove(l.pending, i) ==> x.callback == HideVisual
  {
    FireFacts(l, i, now, foreperiod);
    var rest := Remove(l.pending, i);
    CountZero(rest, KPresent);
    CountZero(rest, KAdvance);
    forall x | x in rest
      ensures x.callback == HideVisual
    {
      if x.callback == RunNext || x.callback == MissTimeout {
        assert false;
      }
    }
  }

  /** The loop right after a stimulus appears at `now`. */
  lemma TimedJustArmed(l: Loop)
    requires l.state.running && l.state.onset == l.clock && l.state.current < |l.state.sequence|
    requires forall x :: x in l.pending ==> l.clock <= x.due
    requires forall x :: x in l.pending ==>
               x.callback == HideVisual || x == Scheduled(l.clock + CurrentWindow(l.state), MissTimeout)
    requires Scheduled(l.clock + CurrentWindow(l.state), MissTimeout) in l.pending
    requires forall r :: r in l.state.records ==> WithinWindow(r)
    ensures TimedInvariant(l)
  {
  }

  lemma TimedFirePresent(l: Loop, i: nat, now: int, foreperiod: Foreperiod)
    requires Slots(l) && TimedInvariant(l) && Punctual(l, Fire(i, now, foreperiod))
    requires l.pending[i].callback.Present?
    ensures TimedInvariant(Step(l, Fire(i, now, foreperiod)))
  {
    FireFacts(l, i, now, foreperiod);
    PresentDueLeavesOnlyHides(l, i, now, foreperiod);
    var m := l.pending[i].callback.modality;
    PresentSchedules(l.state, m, now);
    var l' := Step(l, Fire(i, now, foreperiod));
    assert l'.state == l.state.(running := true, onset := now);
    assert l'.pending == Remove(l.pending, i) + PresentStimulus(l.state, m, now).scheduled;
    assert CurrentWindow(l'.state) == ResponseWindow(m) by {
      assert l.pending[i] in l.pending;
    }
    TimedJustArmed(l');
  }

  lemma TimedFireHide(l: Loop, i: nat, now: int, foreperiod: Foreperiod)
    requires Slots(l) && TimedInvariant(l) && Punctual(l, Fire(i, now, foreperiod))
    requires l.pending[i].callback == HideVisual
    ensures TimedInvariant(Step(l, Fire(i, now, foreperiod)))
  {
    FireFacts(l, i, now, foreperiod);
    var rest := Remove(l.pending, i);
    assert rest + [] == rest;
    assert Step(l, Fire(i, now, foreperiod)) == Loop(l.state, rest, now);
    if l.state.running {
      RemoveKeeps(l.pending, i, Scheduled(l.state.onset + CurrentWindow(l.state), MissTimeout));
    }
    assert l.pending[i] in l.pending;
    TimedDrop(l, rest, now);
  }

  /** Dropping pending callbacks other than the armed trial's timeout, with
      no start callback left, and
      moving the clock on no further than the earliest due time, keeps the
      timing invariant. */
  lemma TimedDrop(l: Loop, rest: seq<Scheduled>, now: int)
    requires TimedInvariant(l) && OnTime(l, now)
    requires forall x :: x in rest ==> x in l.pending && x.callback != RunNext
    requires l.state.running ==> Scheduled(l.state.onset + CurrentWindow(l.state), MissTimeout) in rest
    ensures TimedInvariant(Loop(l.state, rest, now))
  {
  }

  lemma TimedFireTimeout(l: Loop, i: nat, now: int, foreperiod: Foreperiod)
    requires Slots(l) && TimedInvariant(l) && Punctual(l, Fire(i, now, foreperiod))
    requires l.pending[i].callback == MissTimeout
    ensures TimedInvariant(Step(l, Fire(i, now, foreperiod)))
  {
    FireFacts(l, i, now, foreperiod);
    var rest := Remove(l.pending, i);
    if l.state.running {
      TimedRecord(l, rest, true, now);
    } else {
      assert rest + [] == rest;
    }
  }

  lemma TimedFireAdvance(l: Loop, i: nat, now: int, foreperiod: Foreperiod)
    requires Slots(l) && TimedInvariant(l) && Punctual(l, Fire(i, now, foreperiod))
    requires l.pending[i].callback == Advance
    ensures TimedInvariant(Step(l, Fire(i, now, foreperiod)))
  {
    FireFacts(l, i, now, foreperiod);
    AdvanceDueLeavesOnlyTimeouts(l, i, now, foreperiod);
    AdvanceSchedulesStimulus(l.state, now, foreperiod);
    var rest := Remove(l.pending, i);
    var e := Dispatch(l.state, Advance, now, foreperiod);
    TimedQuiet(Loop(e.state, rest + e.scheduled, now));
  }

  /** When feedback ends, everything else pending is an auto-hide or an
      earlier trial's timeout, due before the next stimulus can appear. */
  lemma AdvanceDueLeavesOnlyTimeouts(l: Loop, i: nat, now: int, foreperiod: Foreperiod)
    requires Slots(l) && TimedInvariant(l) && Punctual(l, Fire(i, now, foreperiod))
    requires l.pending[i].callback == Advance
    ensures !l.state.running
    ensures forall x :: x in Remove(l.pending, i) ==>
              && (x.callback == HideVisual || x.callback == MissTimeout) && now <= x.due
              && (x.callback == MissTimeout ==> x.due < now + MinForeperiod)
  {
    FireFacts(l, i, now, foreperiod);
    var rest := Remove(l.pending, i);
    CountZero(rest, KAdvance);
    CountZero(rest, KPresent);
    forall x | x in rest
      ensures x.callback == HideVisual || x.callback == MissTimeout
    {
      if x.callback == RunNext {
        assert false;
      }
    }
  }

  /** Moving on from a disarmed state keeps it disarmed, keeps the results,
      and schedules at most the next stimulus, one foreperiod later, for the
      spec that is then current. */
  lemma AdvanceSchedulesStimulus(s: State, now: int, foreperiod: Foreperiod)
    requires !s.running
    ensures var e := Dispatch(s, Advance, now, foreperiod);
            && !e.state.running && e.state.records == s.records
            && forall y :: y in e.scheduled ==>
                 && y.callback.Present? && y.due == now + foreperiod
                 && e.state.current < |e.state.sequence|
                 && y.callback.modality == e.state.sequence[e.state.current].modality
  {
  }

  /** A disarmed loop with no feedback or start pending, whose timeouts all
      precede the stimuli, meets the timing invariant. */
  lemma TimedQuiet(l: Loop)
    requires !l.state.running
    requires forall x :: x in l.pending ==> l.clock <= x.due
    requires forall x :: x in l.pending ==> x.callback != Advance && x.callback != RunNext
    requires forall x, y :: x in l.pending && y in l.pending && x.callback == MissTimeout && y.callback.Present? ==>
               x.due < y.due
    requires forall x :: x in l.pending && x.callback.Present? ==>
               l.state.current < |l.state.sequence| && x.callback.modality == l.state.sequence[l.state.current].modality
    requires forall r :: r in l.state.records ==> WithinWindow(r)
    ensures TimedInvariant(l)
  {
  }

  lemma TimedFire(l: Loop, i: nat, now: int, foreperiod: Foreperiod)
    requires Slots(l) && TimedInvariant(l) && Punctual(l, Fire(i, now, foreperiod))
    ensures TimedInvariant(Step(l, Fire(i, now, foreperiod)))
  {
    match l.pending[i].callback
    case RunNext => TimedFireRunNext(l, i, now, foreperiod);
    case Present(_) => TimedFirePresent(l, i, now, foreperiod);
    case HideVisual => TimedFireHide(l, i, now, foreperiod);
    case MissTimeout => TimedFireTimeout(l, i, now, foreperiod);
    case Advance => TimedFireAdvance(l, i, now, foreperiod);
  }

  lemma TimedStep(l: Loop, ev: Event)
    requires Invariant(l) && TimedInvariant(l) && Punctual(l, ev)
    ensures TimedInvariant(Step(l, ev))
  {
    InvariantSlots(l);
    match ev
    case StartClicked(row, now) => TimedStart(l, row, now);
    case KeyPress(now) => TimedKeyPress(l, now);
    case Fire(i, now, foreperiod) => TimedFire(l, i, now, foreperiod);
  }

  lemma {:induction false} TimedRun(l: Loop, events: seq<Event>)
    requires Invariant(l) && TimedInvariant(l) && PunctualRun(l, events)
    ensures TimedInvariant(Run(l, events))
    decreases |events|
  {
    if events != [] {
      StepPreserves(l, events[0]);
      TimedStep(l, events[0]);
      TimedRun(Step(l, events[0]), events[1..]);
    }
  }

  /** With callbacks run on time, the response-window timeout records only at
      the end of its own trial's window, 2000 ms after onset plus the tone's
      200 ms when the stimulus has one: a timeout left over from an answered
      trial always runs while the next trial is not yet armed. */
  lemma TimeoutRecordsOnlyAtWindowEnd(l: Loop, i: nat, now: int, foreperiod: Foreperiod)
    requires Invariant(l) && TimedInvariant(l) && Punctual(l, Fire(i, now, foreperiod))
    requires l.pending[i].callback == MissTimeout && l.state.running
    ensures l.state.current < |l.state.sequence|
    ensures now == l.state.onset + ResponseWindow(l.state.sequence[l.state.current].modality)
    ensures var s' := Step(l, Fire(i, now, foreperiod)).state;
            && s'.records == l.state.records + [ResultFor(l.state, true, now)]
            && s'.records[|l.state.records|].reactionTime
                 == ResponseWindow(s'.records[|l.state.records|].modality)
            && s'.records[|l.state.records|].errorType == Some(Miss)
  {
  }

  /** End to end, with callbacks run on time: every result, practice or main,
      has a reaction time within its modality's response window, and every
      miss is recorded at exactly the window's end: 2000 ms for a visual
      stimulus, 2200 ms for a stimulus with a tone. */
  lemma PunctualRunsRecordWithinWindow(participantId: string, t0: int, events: seq<Event>)
    requires PunctualRun(Boot(participantId, t0), events)
    ensures forall r :: r in Run(Boot(participantId, t0), events).state.records ==>
              && 0 <= r.reactionTime <= ResponseWindow(r.modality)
              && (r.errorType == Some(Miss) ==> r.reactionTime == ResponseWindow(r.modality))
    ensures forall r :: r in Run(Boot(participantId, t0), events).state.records ==>
              && r.reactionTime <= MaxResponseTime + ToneDuration
              && (r.errorType == Some(Miss) && r.modality == Visual ==> r.reactionTime == MaxResponseTime)
              && (r.errorType == Some(Miss) && r.modality != Visual ==> r.reactionTime == MaxResponseTime + ToneDuration)
  {
    InvariantBoot(participantId, t0);
    TimedRun(Boot(participantId, t0), events);
  }
}
