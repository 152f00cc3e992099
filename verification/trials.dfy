/**
 The data model of the reaction-time experiment: stimulus modalities, trial
 specifications, recorded trial results, and the experiment's fixed parameters.
 All times are whole milliseconds.
 */
module Trials {

  /** The conventional Some/None wrapper, used for Python's `None`. */
  datatype Option<+T> = None | Some(value: T)

  /** A stimulus channel. */
  datatype Modality = Visual | Auditory | Combined

  /** The two kinds of erroneous response; a valid response carries `None`. */
  datatype ErrorType = Anticipation | Miss

  /** One entry of a trial sequence, built before any trial runs. */
  datatype TrialSpec = TrialSpec(
    modality: Modality,
    trialNumber: int,
    isPractice: bool,
    block: Option<int>)

  /** One recorded trial result (the participant's initials and the wall-clock
      timestamp are not modelled). */
  datatype TrialRecord = TrialRecord(
    participantId: string,
    trialNumber: int,
    modality: Modality,
    isPractice: bool,
    block: Option<int>,
    reactionTime: int,
    errorType: Option<ErrorType>,
    isError: bool)

  // Experiment parameters fixed in the constructor.
  const PracticeTrialsPerModality: nat := 2
  const MainTrialsPerModality: nat := 10
  const Modalities: seq<Modality> := [Visual, Auditory, Combined]
  const MinForeperiod: int := 1000
  const MaxForeperiod: int := 3000
  const MaxResponseTime: int := 2000
  const MinResponseTime: int := 100

  // Delays the controller passes to the scheduler.
  const StartDelay: int := 100
  const VisualDuration: int := 200
  const FeedbackDuration: int := 1500

  /** How long `winsound.Beep(1000, 200)` holds up the handler that plays it. */
  const ToneDuration: int := 200

  /** A foreperiod as drawn by `random.randint(1000, 3000)`, bounds included. */
  type Foreperiod = x: int | MinForeperiod <= x <= MaxForeperiod witness MinForeperiod

  /** Whether a stimulus of this modality has a visual part. */
  predicate ShowsShape(m: Modality) {
    m == Visual || m == Combined
  }

  /** Whether a stimulus of this modality has an auditory part. */
  predicate PlaysTone(m: Modality) {
    m == Auditory || m == Combined
  }

  /** The time from onset until the miss timeout of a stimulus of modality
      `m` is due: the timeout is scheduled only once the tone has finished,
      so a stimulus with a tone leaves `ToneDuration` more time to answer. */
  function ResponseWindow(m: Modality): int {
    MaxResponseTime + (if PlaysTone(m) then ToneDuration else 0)
  }
}
