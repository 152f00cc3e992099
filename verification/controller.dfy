/**
 The trial controller: the experiment's mutable state and one pure function
 per event handler. A handler returns the new state together with the
 callbacks it hands to the scheduler (`root.after`), each stamped with the
 time at which it becomes due. Clock readings and the random foreperiod are
 parameters.
 */
module Controller {
  import opened Trials
  import opened Counterbalance
  import opened SequenceBuilder
  import opened Classifier

  /** A callback the controller schedules. */
  datatype Callback =
    | RunNext                     // the first call of run_next_trial, shortly after the start
    | Present(modality: Modality) // foreperiod expiry: present the stimulus
    | HideVisual                  // the visual stimulus's auto-hide
    | MissTimeout                 // response-window expiry: record a miss
    | Advance                     // feedback expiry: move on to the next trial

  datatype Scheduled = Scheduled(due: int, callback: Callback)

  /** The experiment state the handlers share. */
  datatype State = State(
    participantId: string,
    started: bool,              // experiment_started
    sequence: seq<TrialSpec>,   // trial_sequence
    current: nat,               // current_trial
    inProgress: bool,           // trial_in_progress
    running: bool,              // is_running: a stimulus is armed for a response
    onset: int,                 // stimulus_start_time
    records: seq<TrialRecord>,  // trial_data
    resultsShown: bool)         // the results screen has been shown

  /** A handler's effect: the new state and the callbacks it scheduled. */
  datatype Effect = Effect(state: State, scheduled: seq<Scheduled>)

  /** The state right after the participant form is accepted. */
  function Initial(participantId: string): (s: State)
    ensures !s.started && !s.inProgress && !s.running && !s.resultsShown
    ensures s.current == 0 && s.records == [] && s.sequence == []
  {
    State(participantId, false, [], 0, false, false, 0, [], false)
  }

  /** The record `record_response` appends for the current trial, answered
      (or timed out, when `missed`) at time `now`. */
  function ResultFor(s: State, missed: bool, now: int): (r: TrialRecord)
    requires s.current < |s.sequence|
    ensures r.participantId == s.participantId
    ensures r.trialNumber == s.current + 1
    ensures r.modality == s.sequence[s.current].modality
    ensures r.isPractice == s.sequence[s.current].isPractice
    ensures r.block == s.sequence[s.current].block
    ensures r.reactionTime == now - s.onset
    ensures r.errorType == Classify(now - s.onset, missed)
    ensures r.isError <==> r.errorType.Some?
  {
    var spec := s.sequence[s.current];
    var rt := now - s.onset;
    var e := Classify(rt, missed);
    TrialRecord(s.participantId, s.current + 1, spec.modality, spec.isPractice, spec.block, rt, e, e.Some?)
  }

  /** `start_practice_trials`: on the first call, fill in the practice results
      and start the main experiment with the block order of row `row`; later
      calls change nothing. */
  function StartPracticeTrials(s: State, row: RowIndex, now: int): (e: Effect)
    ensures s.started ==> e == Effect(s, [])
    ensures !s.started ==>
              && e.state.started
              && e.state.records == PracticeRecords(s.participantId)
              && e.state.sequence == MainSequence(row)
              && e.state.current == 0 && !e.state.inProgress
              && e.scheduled == [Scheduled(now + StartDelay, RunNext)]
    ensures !s.started ==>
              e.state == s.(started := true, sequence := MainSequence(row), current := 0, inProgress := false,
                            records := PracticeRecords(s.participantId))
  {
    if s.started then Effect(s, [])
    else
      var practiced := s.(sequence := PracticeSequence(), records := PracticeRecords(s.participantId));
      StartMainExperiment(practiced, row, now)
  }

  /** `start_main_experiment`: build the main sequence for row `row`, reset the
      trial counter, and schedule the first trial. */
  function StartMainExperiment(s: State, row: RowIndex, now: int): (e: Effect)
    ensures s.started ==> e == Effect(s, [])
    ensures !s.started ==>
              && e.state == s.(started := true, current := 0, inProgress := false, sequence := MainSequence(row))
              && e.scheduled == [Scheduled(now + StartDelay, RunNext)]
  {
    if s.started then Effect(s, [])
    else
      Effect(s.(started := true, current := 0, inProgress := false, sequence := MainSequence(row)),
             [Scheduled(now + StartDelay, RunNext)])
  }

  /** `run_next_trial`: ignored while a trial is in progress; shows the results
      once every spec has been run; otherwise starts the current spec. */
  function RunNextTrial(s: State, now: int, foreperiod: Foreperiod): (e: Effect)
    ensures s.inProgress ==> e == Effect(s, [])
    ensures !s.inProgress && s.current >= |s.sequence| ==>
              e == Effect(s.(resultsShown := true), [])
    ensures !s.inProgress && s.current < |s.sequence| ==>
              && e.state == s.(inProgress := true, running := false)
              && e.scheduled == [Scheduled(now + foreperiod, Present(s.sequence[s.current].modality))]
  {
    if s.inProgress then Effect(s, [])
    else if s.current >= |s.sequence| then Effect(s.(resultsShown := true), [])
    else RunTrial(s.(inProgress := true), s.sequence[s.current], now, foreperiod)
  }

  /** `run_trial`: disarm, show the fixation cross, and present the stimulus
      after the foreperiod. */
  function RunTrial(s: State, spec: TrialSpec, now: int, foreperiod: Foreperiod): (e: Effect)
    ensures !e.state.running
    ensures e.state == s.(running := false)
    ensures |e.scheduled| == 1 && e.scheduled[0].callback == Present(spec.modality)
    ensures now + MinForeperiod <= e.scheduled[0].due <= now + MaxForeperiod
  {
    Effect(s.(running := false), [Scheduled(now + foreperiod, Present(spec.modality))])
  }

  /** `present_stimulus`: arm and note the onset time, show the shape and play
      the tone the modality calls for, then schedule the auto-hide of a shape
      and the response-window timeout. The tone holds up the handler, so both
      are scheduled relative to the moment it ends. */
  function PresentStimulus(s: State, m: Modality, now: int): (e: Effect)
    ensures e.state == s.(running := true, onset := now)
    ensures ShowsShape(m) ==>
              e.scheduled == [Scheduled(now + ResponseWindow(m) - MaxResponseTime + VisualDuration, HideVisual),
                              Scheduled(now + ResponseWindow(m), MissTimeout)]
    ensures !ShowsShape(m) ==> e.scheduled == [Scheduled(now + ResponseWindow(m), MissTimeout)]
  {
    var resumed := if PlaysTone(m) then now + ToneDuration else now;
    var timeout := Scheduled(resumed + MaxResponseTime, MissTimeout);
    if ShowsShape(m) then
      Effect(s.(running := true, onset := now), [Scheduled(resumed + VisualDuration, HideVisual), timeout])
    else
      Effect(s.(running := true, onset := now), [timeout])
  }

  /** `handle_spacebar_press`: a key press counts only while armed. */
  function HandleSpacebarPress(s: State, now: int): (e: Effect)
    ensures !s.running ==> e == Effect(s, [])
    ensures s.running ==> e == RecordResponse(s, false, now)
  {
    if s.running then RecordResponse(s, false, now) else Effect(s, [])
  }

  /** `record_response`: ignored unless armed. Otherwise disarm first, then
      append the current trial's result and schedule the move to the next
      trial after the feedback. The reaction time is the elapsed time since
      onset even for a miss. With no current spec the lookup fails after the
      disarm, and nothing is recorded. */
  function RecordResponse(s: State, missed: bool, now: int): (e: Effect)
    ensures !e.state.running
    ensures !s.running ==> e == Effect(s, [])
    ensures s.running && s.current < |s.sequence| ==>
              && e.state == s.(running := false, records := s.records + [ResultFor(s, missed, now)])
              && e.scheduled == [Scheduled(now + FeedbackDuration, Advance)]
    ensures s.running && s.current >= |s.sequence| ==> e == Effect(s.(running := false), [])
  {
    if !s.running then Effect(s, [])
    else
      var disarmed := s.(running := false);
      if s.current >= |s.sequence| then Effect(disarmed, [])
      else
        Effect(disarmed.(records := s.records + [ResultFor(s, missed, now)]),
               [Scheduled(now + FeedbackDuration, Advance)])
  }

  /** `next_trial`: end the trial in progress, advance the counter by one,
      and run the next trial. */
  function NextTrial(s: State, now: int, foreperiod: Foreperiod): (e: Effect)
    ensures e == RunNextTrial(s.(inProgress := false, current := s.current + 1), now, foreperiod)
    ensures e.state.current == s.current + 1
    ensures e.state.records == s.records
  {
    RunNextTrial(s.(inProgress := false, current := s.current + 1), now, foreperiod)
  }

  /** A key press or a timeout while disarmed records nothing and schedules
      nothing. */
  lemma DisarmedIgnoresResponses(s: State, missed: bool, now: int)
    requires !s.running
    ensures HandleSpacebarPress(s, now) == Effect(s, [])
    ensures RecordResponse(s, missed, now) == Effect(s, [])
  {
  }

  /** Within one armed period a key press and the timeout, in either order,
      together record exactly one result: whichever comes first. */
  lemma ExactlyOneResultPerArming(s: State, keyTime: int, timeoutTime: int)
    requires s.running && s.current < |s.sequence|
    ensures var k := HandleSpacebarPress(s, keyTime);
            var t := RecordResponse(k.state, true, timeoutTime);
            && k.state.records == s.records + [ResultFor(s, false, keyTime)]
            && t == Effect(k.state, [])
    ensures var t := RecordResponse(s, true, timeoutTime);
            var k := HandleSpacebarPress(t.state, keyTime);
            && t.state.records == s.records + [ResultFor(s, true, timeoutTime)]
            && t.state.records[|s.records|].errorType == Some(Miss)
            && k == Effect(t.state, [])
  {
  }
}
