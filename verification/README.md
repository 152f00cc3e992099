# Reaction-time experiment: a Dafny model of the trial engine

The experiment is a Tk application (`ReactionTimeExperiment`). A participant
answers visual, auditory and combined stimuli with the space bar. This project
models the engine behind the GUI:

- **Counterbalancing.** The 3×3 Latin square of block orders.
- **Trial sequences.** The practice sequence and its auto-filled results, and
  the main sequence: thirty specs in three blocks of ten, in the order of the
  selected Latin-square row.
- **Trial state machine.** The handlers `run_next_trial`, `run_trial`,
  `present_stimulus`, `handle_spacebar_press`, `record_response` and
  `next_trial`, together with the Tk scheduler (`root.after`) that links them.
- **Classification.** Each response is a miss, an anticipation, or valid.
- **Summary statistics.** Per modality: counts, error rate, and the rounded
  mean, median, standard deviation and range of the valid reaction times.

Modules:

- `Trials`: records, specs and the experiment's constants.
- `Counterbalance`: the Latin square.
- `SequenceBuilder`: the practice and main sequences.
- `Classifier`: response classification.
- `Controller`: one pure function per handler. Each returns the new state and
  the callbacks it schedules, each stamped with its due time.
- `EventLoop`: pending callbacks and the events that drive them.
- `Rounding`: Python's `round` to the nearest integer, ties to even, and that
  rounding applied to a square root.
- `Statistics`: median, mean and sample variance.
- `Summary`: the per-modality summary.

The model takes as inputs what the program obtains from outside:

- **Times** are integer milliseconds carried by each event.
- **The foreperiod** is a parameter in 1000..3000 ms. It stands for the
  `random.randint` draw, which includes both ends.
- **The Latin-square row** is a parameter in 0..2. It stands for
  `hash(participant_id) % 3`. Python salts string hashes per process, so the
  row is not a function of the identifier anyway.

`EventLoop` does not fix an order for the pending callbacks. The main
invariant (`EventLoop.Invariant`) holds for any interleaving of key presses,
start clicks and callbacks. Once the results screen is shown, the records are
the six practice results followed by exactly one result per main spec, in
order. That screen is reachable in this untimed model: running the first
pending callback again and again lets every trial time out and reaches it.
The witness runs every callback at the same instant, so each miss records 0
ms. It is not a run with callbacks at their due times, and no such run is
shown to reach the screen.

A second invariant (`EventLoop.TimedInvariant`) assumes callbacks run when due
and earliest first. It is an assumption about the scheduler, and its
conclusions are about the model. The tone (`winsound.Beep(1000, 200)`) holds
up `present_stimulus` for 200 ms before the auto-hide and the timeout are
scheduled, while the onset is noted before it. So a trial's response window
is 2000 ms after onset for a visual stimulus and 2200 ms for an auditory or
combined one. Under the invariant, the response-window timeout is never
cancelled, yet it can only record at the end of its own trial's window. It
follows that every recorded reaction time lies within its trial's window and
that every miss is recorded with exactly the window's length: 2000 ms for a
visual trial and 2200 ms otherwise.

Main trials are numbered 1 to 30 again after the practice trials 1 to 6:
`start_main_experiment` rebuilds `trial_sequence` from empty before numbering
them, so the numbers do not continue from 7.

## Model

| member | source | states |
|---|---|---|
| Counterbalance.BlockOrder | reaction_time_experiment.py:47-51 | each Latin-square row has three entries and is an ordering of the three modalities, each appearing once |
| Counterbalance.ColumnIsPermutation | reaction_time_experiment.py:47-51 | each column also holds every modality once, so across the three rows every modality occupies every block position exactly once |
| Counterbalance.IndexOf | reaction_time_experiment.py:483 | `block_order.index(m)` is the first position at which `m` occurs |
| SequenceBuilder.BlockFor | reaction_time_experiment.py:426-484 | practice specs carry no block; a main spec's block is a 1-based position in the row that holds its own modality |
| SequenceBuilder.AppendRun | reaction_time_experiment.py:477-484 | appending a run keeps the earlier specs and numbers each new spec one past the length of the sequence before it |
| SequenceBuilder.AppendRuns | reaction_time_experiment.py:425-431 | the nested construction loop (also at lines 477-484) keeps the earlier specs and adds `count` specs per remaining order entry; every new spec is numbered by its position, carries the given practice flag, and has a modality from the remaining entries with that modality's block |
| SequenceBuilder.PracticeSequence | reaction_time_experiment.py:423-431 | the practice sequence has six specs; spec i has modality i/2 of the canonical order, number i+1, the practice flag and no block |
| SequenceBuilder.PracticeSequenceBuilt | reaction_time_experiment.py:424-432 | appending two practice specs per modality in the canonical order gives visual, visual, auditory, auditory, combined, combined, numbered 1 to 6 |
| SequenceBuilder.PracticeRecords | reaction_time_experiment.py:434-449 | one auto-filled result per practice spec, for the participant, carrying the spec's number and modality, marked practice and free of error |
| SequenceBuilder.PracticeRecordsShape | reaction_time_experiment.py:434-449 | the i-th auto-filled practice result (from 0) has number i+1, the modality of spec i, no block, no error and reaction time 250 + 10·i |
| SequenceBuilder.MainSequence | reaction_time_experiment.py:469-484 | the main sequence has 30 specs, numbered 1 to 30 by position, none of them practice |
| SequenceBuilder.MainSequenceShape | reaction_time_experiment.py:469-484 | the main sequence has 30 specs; spec i has the row's modality i/10, number i+1, block i/10+1 and is not practice |
| SequenceBuilder.RunsInOrder | reaction_time_experiment.py:470-484 | for an order of three distinct modalities the construction loop yields one run per entry, with blocks 1, 2 and 3 |
| SequenceBuilder.MainSequenceBlocks | reaction_time_experiment.py:476-484 | every main spec's block names its own modality's place in the row, and block k covers positions 10(k-1) to 10k-1 |
| Classifier.Classify | reaction_time_experiment.py:593-601 | a miss exactly when the window expired; an anticipation exactly when answered under 100 ms; no error exactly when answered at 100 ms or later |
| Classifier.ClassifyMonotone | reaction_time_experiment.py:599-601 | a slower answer than a valid one is valid, a faster one than an anticipation is an anticipation |
| Classifier.ClassifyExamples | reaction_time_experiment.py:593-601 | 80 ms is an anticipation, 350 ms is valid, 99 ms is the last anticipation and 100 ms the first valid time, any expired window is a miss |
| Rounding.RoundHalfEven | reaction_time_experiment.py:668-670 | the result is within 0.5 of the argument, and even on a tie |
| Rounding.RoundHalfEvenUnique | reaction_time_experiment.py:668-670 | any integer within 0.5 of the argument, and even on a tie, is the rounded value |
| Rounding.RoundHalfEvenBetween | reaction_time_experiment.py:668-669 | rounding a value between two integers stays between them |
| Rounding.RoundSqrtBrackets | reaction_time_experiment.py:746 | the computed root r is the even one on a tie, and the squares of 2r-1 and 2r+1 bracket four times the variance |
| Rounding.RoundSqrtIsRoundedRoot | reaction_time_experiment.py:740-746 | the computed rounded square root equals the rounding of the non-negative root, as `round(math.sqrt(v))` intends |
| Statistics.Min | reaction_time_experiment.py:671 | the minimum is an element and no larger than any element |
| Statistics.Max | reaction_time_experiment.py:672 | the maximum is an element and no smaller than any element |
| Statistics.Sort | reaction_time_experiment.py:733 | `sorted` returns an ascending permutation of its input |
| Statistics.SortedUnique | reaction_time_experiment.py:733 | two ascending permutations of one another are the same list, so the sorted copy is unique |
| Statistics.SortOfSorted | reaction_time_experiment.py:733 | sorting an ascending list returns it unchanged |
| Statistics.Median | reaction_time_experiment.py:731-738 | the median lies between the minimum and the maximum; for an odd count it is one of the values |
| Statistics.MedianIgnoresOrder | reaction_time_experiment.py:731-738 | two lists holding the same values in any order have the same median |
| Statistics.Mean | reaction_time_experiment.py:668 | the mean lies between the minimum and the maximum |
| Statistics.SampleVariance | reaction_time_experiment.py:740-746 | the variance is non-negative and zero for fewer than two values |
| Statistics.VarianceZeroIffConstant | reaction_time_experiment.py:740-746 | with two or more values the variance is zero exactly when all values are equal |
| Statistics.ExampleMedian | test_experiment.py:144-151 | the median of 100, 200, 300, 400, 500 is 300 |
| Statistics.ExampleMean | reaction_time_experiment.py:744 | the mean `calculate_std` computes for the list 100, 200, 300, 400, 500 is 300 |
| Statistics.ExampleVariance | test_experiment.py:153-158 | the sample variance of the same list is 25000 |
| Statistics.ExampleStandardDeviation | test_experiment.py:153-158 | any non-negative root of that variance is within 0.1 of 158.11 and rounds to 158 |
| Summary.MainResults | reaction_time_experiment.py:653-658 | the kept results are exactly the main results of the given modality: every kept one is main and of that modality, and every such record is kept |
| Summary.MainResultsAppend | reaction_time_experiment.py:653-658 | recording one more result appends it to the modality's main results exactly when it is a main result of that modality, and otherwise leaves them unchanged |
| Summary.ValidResults | reaction_time_experiment.py:659 | the kept results are exactly the error-free ones: every kept one is error-free, and every error-free one is kept |
| Summary.ValidResultsAppend | reaction_time_experiment.py:659 | recording one more result appends it to the valid results exactly when it carries no error |
| Summary.ReactionTimes | reaction_time_experiment.py:663 | one reaction time per record, in the same order |
| Summary.StatsFor | reaction_time_experiment.py:651-684 | totals count the modality's main results and their valid ones; the error rate lies in 0..100. With no valid result, everything is zero and the error rate is 100. Otherwise min ≤ median ≤ max, min ≤ mean ≤ max and the standard deviation is non-negative |
| Summary.TimeStats | reaction_time_experiment.py:662-673 | with at least one valid time, the counts are the given ones, the error rate is the rounded error share in 0..100, the median and the mean lie between the minimum and the maximum, and the standard deviation is non-negative |
| Summary.StatsForTimes | reaction_time_experiment.py:659-673 | with a valid result present, the minimum, maximum, rounded mean, rounded median and rounded standard deviation are those of the valid main reaction times of the modality, so every valid main result of the modality lies between the minimum and the maximum |
| Summary.StatsForAppendCounts | reaction_time_experiment.py:657-665 | one more result adds one to the total exactly when it is a main result of the modality, and one to the valid count exactly when it is also free of error |
| Summary.ErrorLeavesTimes | reaction_time_experiment.py:659-673 | recording an erroneous result changes neither the valid count nor any reaction-time field |
| Summary.StatsForErrorRate | reaction_time_experiment.py:657-667 | with a valid result present, the error rate is the rounded share of the modality's main results that are errors |
| Summary.ErrorRate | reaction_time_experiment.py:667 | the error rate rounded to one decimal lies between 0 and 100 percent |
| Summary.NoErrorsNoErrorRate | reaction_time_experiment.py:657-667 | when the modality has main results and none is an error, all are valid and the error rate is 0 |
| Summary.StatsIgnoreOthers | reaction_time_experiment.py:653-658 | adding a practice result, or a result of another modality, leaves the modality's summary unchanged |
| Controller.Initial | reaction_time_experiment.py:54-59 | the experiment starts not started, not in progress, disarmed, at trial 0, with no results |
| Controller.ResultFor | reaction_time_experiment.py:590-612 | the result carries the current spec's modality, practice flag and block, number current+1, the time since onset, and its classification; it is an error exactly when it has an error type |
| Controller.StartPracticeTrials | reaction_time_experiment.py:413-454 | the first call fills in the practice results and starts the main sequence of the row, scheduling the first trial 100 ms later, and changes no other field (participant, armed flag, onset, results screen); every later call changes nothing |
| Controller.StartMainExperiment | reaction_time_experiment.py:456-493 | a fresh start resets the counter, builds the row's main sequence and schedules `run_next_trial` after 100 ms; a repeat call changes nothing |
| Controller.RunNextTrial | reaction_time_experiment.py:495-507 | while a trial is in progress nothing happens; after the last spec the results are shown; otherwise the current spec starts and its stimulus is scheduled one foreperiod later |
| Controller.RunTrial | reaction_time_experiment.py:518-531 | the trial disarms and schedules exactly one stimulus presentation, due between 1000 and 3000 ms later |
| Controller.PresentStimulus | reaction_time_experiment.py:539-573 | the stimulus arms and notes its onset before the tone; it schedules the 200 ms auto-hide when a shape is shown and always the 2000 ms timeout, both counted from the end of the 200 ms tone when one plays |
| Controller.HandleSpacebarPress | reaction_time_experiment.py:577-580 | a key press records an answer only while armed |
| Controller.RecordResponse | reaction_time_experiment.py:582-620 | while disarmed nothing happens; otherwise it disarms, appends the current trial's result and schedules the next trial after 1500 ms; with no current spec it disarms and records nothing |
| Controller.NextTrial | reaction_time_experiment.py:637-641 | ends the trial, advances the counter by one and keeps the results |
| Controller.DisarmedIgnoresResponses | reaction_time_experiment.py:577-585 | a key press or timeout while disarmed changes nothing and schedules nothing |
| Controller.ExactlyOneResultPerArming | reaction_time_experiment.py:577-620 | within one armed period a key press and the timeout, in either order, record exactly one result, that of whichever comes first |
| EventLoop.Dispatch | reaction_time_experiment.py:495-620 | running a callback schedules at most two callbacks, each due strictly later than now (the `root.after` calls at lines 531, 553, 556 and 620), and never `run_next_trial`, which only the start schedules (line 493) |
| EventLoop.Step | reaction_time_experiment.py:413-641 | a click or key press keeps every pending callback and may add some; running a pending callback removes it and keeps the others in order; naming no pending callback changes nothing |
| EventLoop.StepPreserves | reaction_time_experiment.py:495-641 | every event keeps the invariant: practice results first, then main results that match the specs one for one, and exactly one trial step pending or armed while a trial is in progress |
| EventLoop.RunPreserves | reaction_time_experiment.py:495-641 | the invariant holds after any sequence of events |
| EventLoop.RunKeepsSequence | reaction_time_experiment.py:413-417 | after the start, the sequence and participant never change and results are only appended |
| EventLoop.ArmedTrialHasSpec | reaction_time_experiment.py:590-591 | while armed there is always a current spec, so the spec lookup in `record_response` never fails |
| EventLoop.ShownResultsCoverSequence | reaction_time_experiment.py:500-502 | once the results are shown, every spec has exactly one main result, in order |
| EventLoop.CompletedExperiment | reaction_time_experiment.py:413-641 | after the start with row r and any events, a shown results screen means 36 records: the six practice results, then thirty main results numbered 1 to 30 with modality and block following the row in runs of ten |
| EventLoop.TrialTimesOut | reaction_time_experiment.py:518-641 | from a trial waiting for its stimulus, running the presentation, the auto-hide of a shape, the timeout and the end of feedback moves to the next spec, which then waits for its stimulus, or shows the results after the last spec |
| EventLoop.RemainingTrialsTimeOut | reaction_time_experiment.py:495-641 | letting every remaining trial time out ends on the results screen |
| EventLoop.ResultsScreenReachable | reaction_time_experiment.py:413-641 | after the start, running the first pending callback again and again reaches the results screen, so the completed state `CompletedExperiment` describes exists in the untimed model |
| EventLoop.TimedRun | reaction_time_experiment.py:539-641 | with callbacks run on time, the timing invariant holds after any events |
| EventLoop.TimeoutRecordsOnlyAtWindowEnd | reaction_time_experiment.py:545-573 | a timeout that runs on time while armed is the current trial's own and runs at the end of its window, recording a miss of exactly 2000 ms for a visual trial and 2200 ms with the tone |
| EventLoop.PunctualRunsRecordWithinWindow | reaction_time_experiment.py:545-610 | with callbacks run on time, every recorded reaction time lies between 0 and its trial's window, so at most 2200 ms; a visual miss is recorded at 2000 ms and an auditory or combined miss at 2200 ms |

## Left out

- The GUI: the consent form, the instructions, the progress bar, the
  fixation cross, feedback text and tab switching. None of it affects the
  recorded data.
- The participant's initials and each record's timestamp, which are opaque
  data copied into the records.
- Consent validation and identifier generation, which are not part of the
  trial engine.
- `calculate_completion_time`, CSV/JSON export and the results text layout,
  which are formatting and file I/O.
- The tests of the GUI.
- The value of `hash(participant_id) % 3`: the row is an input, because the
  hash is salted per process.
- Controller.PresentStimulus: the tone is taken to hold up the handler for
  exactly 200 ms. `winsound.Beep` may take slightly longer; where it fails,
  the exception is swallowed and there is no delay. Neither case is modelled.
  The redraw `root.update()` in `show_visual_stimulus` may run a queued key
  press before the tone. The model covers this as a key press right after
  the presentation.
- Controller.ResultFor: clock readings are whole milliseconds, so
  `round(reaction_time)` is the identity. Fractional times, such as a
  99.6 ms answer that is an anticipation but records as 100, are not modelled.
- Summary.StatsFor: mean, median, error rate and standard deviation are
  computed on exact rationals and rounded half-to-even, which is Python's
  rule. Binary floating point, which can move a tie by one unit, is not
  modelled. The standard deviation is the rounded exact root rather than the
  rounded `math.sqrt` result.
- Statistics.Median: requires a non-empty list. `calculate_median` would fail
  on one, but the summary only calls it with valid results present.
- EventLoop.ResultsScreenReachable: the witness is untimed. Every callback
  runs at the start's instant, so no run with callbacks at their due times
  is shown to reach the results screen.
- SequenceBuilder.AppendRuns: states which modalities and blocks the new
  specs carry, but not that the runs follow the order entry by entry. That
  is proved for the two orders the program uses, by `PracticeSequenceBuilt`
  and `RunsInOrder`.
- EventLoop.TimedRun: the timing facts assume callbacks run when due and
  earliest first. A scheduler that runs a timeout late is outside that
  assumption.
- EventLoop.TimeoutRecordsOnlyAtWindowEnd: the window's end is exact only
  under the punctual-firing assumption and the exact 200 ms tone. A real Tk
  loop runs a timeout at or after its due time.
- EventLoop.PunctualRunsRecordWithinWindow: the bound holds for the model's
  scheduler. The model also lets a key press arrive during the tone and
  stamps it when pressed, whereas Tk handles it after the tone.
  Either way the recorded time stays within the window.
