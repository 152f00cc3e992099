/**
 The per-modality summary shown at the end of the experiment. Only main
 (non-practice) results count; the reaction-time statistics are taken over the
 valid (error-free) results of the modality and rounded the way Python's
 `round` rounds.
 */
module Summary {
  import opened Trials
  import opened Rounding
  import opened Statistics

  /** One modality's summary. `errorRate` is a percentage with one decimal. */
  datatype ModalityStats = ModalityStats(
    totalTrials: nat,
    validTrials: nat,
    errorRate: real,
    meanRt: int,
    medianRt: int,
    stdRt: int,
    minRt: int,
    maxRt: int)

  /** The main results of modality `m`, in recording order. */
  function MainResults(records: seq<TrialRecord>, m: Modality): (r: seq<TrialRecord>)
    ensures |r| <= |records|
    ensures forall k :: 0 <= k < |r| ==> !r[k].isPractice && r[k].modality == m
    ensures forall k :: 0 <= k < |records| && !records[k].isPractice && records[k].modality == m ==>
              records[k] in r
  {
    if records == [] then []
    else
      var rest := MainResults(records[1..], m);
      if !records[0].isPractice && records[0].modality == m then [records[0]] + rest else rest
  }

  /** The results among `records` that carry no error, in order. */
  function ValidResults(records: seq<TrialRecord>): (r: seq<TrialRecord>)
    ensures |r| <= |records|
    ensures forall k :: 0 <= k < |r| ==> !r[k].isError
    ensures forall k :: 0 <= k < |records| && !records[k].isError ==> records[k] in r
  {
    if records == [] then []
    else
      var rest := ValidResults(records[1..]);
      if !records[0].isError then [records[0]] + rest else rest
  }

  /** The reaction times of `records`, in order. */
  function ReactionTimes(records: seq<TrialRecord>): (t: seq<int>)
    ensures |t| == |records|
    ensures forall k :: 0 <= k < |t| ==> t[k] == records[k].reactionTime
  {
    if records == [] then [] else [records[0].reactionTime] + ReactionTimes(records[1..])
  }

  /** The summary of modality `m` over all recorded results. */
  function StatsFor(records: seq<TrialRecord>, m: Modality): (st: ModalityStats)
    ensures st.totalTrials == |MainResults(records, m)|
    ensures st.validTrials == |ValidResults(MainResults(records, m))|
    ensures st.validTrials <= st.totalTrials
    ensures 0.0 <= st.errorRate <= 100.0
    ensures st.validTrials == 0 ==>
              st == ModalityStats(st.totalTrials, 0, 100.0, 0, 0, 0, 0, 0)
    ensures st.validTrials > 0 ==>
              && st.minRt <= st.medianRt <= st.maxRt
              && st.minRt <= st.meanRt <= st.maxRt
              && 0 <= st.stdRt
  {
    var trials := MainResults(records, m);
    var valid := ValidResults(trials);
    if |valid| == 0 then
      ModalityStats(|trials|, 0, 100.0, 0, 0, 0, 0, 0)
    else
      TimeStats(|trials|, |valid|, ReactionTimes(valid))
  }

  /** With at least one valid result, the error rate is the rounded share of
      the modality's main results that carry an error. */
  lemma StatsForErrorRate(records: seq<TrialRecord>, m: Modality)
    requires |ValidResults(MainResults(records, m))| > 0
    ensures var st := StatsFor(records, m);
      st.errorRate == ErrorRate(st.totalTrials - st.validTrials, st.totalTrials)
  {
    var valid := ValidResults(MainResults(records, m));
    assert StatsFor(records, m) == TimeStats(|MainResults(records, m)|, |valid|, ReactionTimes(valid));
  }

  /** The summary of `total` results of which `times` are the valid ones. */
  function TimeStats(total: nat, valid: nat, times: seq<int>): (st: ModalityStats)
    requires 0 < valid == |times| <= total
    ensures st.totalTrials == total && st.validTrials == valid
    ensures st.errorRate == ErrorRate(total - valid, total)
    ensures 0.0 <= st.errorRate <= 100.0
    ensures st.minRt <= st.medianRt <= st.maxRt
    ensures st.minRt <= st.meanRt <= st.maxRt
    ensures 0 <= st.stdRt
  {
    var lo := Min(times);
    var hi := Max(times);
    RoundHalfEvenBetween(Mean(times), lo, hi);
    RoundHalfEvenBetween(Median(times), lo, hi);
    ModalityStats(
      total,
      valid,
      ErrorRate(total - valid, total),
      RoundHalfEven(Mean(times)),
      RoundHalfEven(Median(times)),
      RoundSqrt(SampleVariance(times)),
      lo,
      hi)
  }

  /** `errors / total * 100` rounded to one decimal. */
  function ErrorRate(errors: nat, total: nat): (rate: real)
    requires errors <= total && total > 0
    ensures 0.0 <= rate <= 100.0
  {
    ErrorRateBounds(errors, total);
    RoundHalfEven(errors as real / total as real * 1000.0) as real / 10.0
  }

  /** The rounded error rate, in tenths of a percent, lies in 0..1000. */
  lemma ErrorRateBounds(errors: int, total: int)
    requires 0 <= errors <= total && total > 0
    ensures 0 <= RoundHalfEven(errors as real / total as real * 1000.0) <= 1000
  {
    var q := errors as real / total as real;
    assert q * total as real == errors as real;
    if q > 1.0 {
      assert false;
    }
    RoundHalfEvenBetween(q * 1000.0, 0, 1000);
  }

  /** With every main result of the modality valid, the error rate is 0. */
  lemma NoErrorsNoErrorRate(records: seq<TrialRecord>, m: Modality)
    requires forall k :: 0 <= k < |records| && !records[k].isPractice && records[k].modality == m ==>
               !records[k].isError
    requires exists k :: 0 <= k < |records| && !records[k].isPractice && records[k].modality == m
    ensures StatsFor(records, m).validTrials == StatsFor(records, m).totalTrials > 0
    ensures StatsFor(records, m).errorRate == 0.0
  {
    var trials := MainResults(records, m);
    var k :| 0 <= k < |records| && !records[k].isPractice && records[k].modality == m;
    MainResultsNonEmpty(records, m, k);
    MainResultsValid(records, m);
    AllValid(trials);
    var st := StatsFor(records, m);
    assert st.validTrials == st.totalTrials > 0;
    StatsForErrorRate(records, m);
    ErrorRateZero(st.totalTrials);
  }

  lemma ErrorRateZero(total: nat)
    requires total > 0
    ensures ErrorRate(0, total) == 0.0
  {
    assert 0 as real / total as real * 1000.0 == 0 as real;
    RoundHalfEvenOfInteger(0);
  }

  lemma {:induction false} MainResultsNonEmpty(records: seq<TrialRecord>, m: Modality, k: int)
    requires 0 <= k < |records| && !records[k].isPractice && records[k].modality == m
    ensures |MainResults(records, m)| > 0
  {
    if k > 0 {
      MainResultsNonEmpty(records[1..], m, k - 1);
    }
  }

  lemma {:induction false} MainResultsValid(records: seq<TrialRecord>, m: Modality)
    requires forall k :: 0 <= k < |records| && !records[k].isPractice && records[k].modality == m ==>
               !records[k].isError
    ensures forall j :: 0 <= j < |MainResults(records, m)| ==> !MainResults(records, m)[j].isError
  {
    if records != [] {
      MainResultsValid(records[1..], m);
    }
  }

  lemma {:induction false} AllValid(records: seq<TrialRecord>)
    requires forall k :: 0 <= k < |records| ==> !records[k].isError
    ensures ValidResults(records) == records
  {
    if records != [] {
      AllValid(records[1..]);
    }
  }

  /** Only main results of the modality itself matter: recording a practice
      result, or a result of another modality, leaves the summary unchanged. */
  lemma StatsIgnoreOthers(records: seq<TrialRecord>, r: TrialRecord, m: Modality)
    requires r.isPractice || r.modality != m
    ensures StatsFor(records + [r], m) == StatsFor(records, m)
  {
    MainResultsAppend(records, r, m);
    assert MainResults(records + [r], m) == MainResults(records, m);
  }

  /** Recording one more result adds one to the modality's total exactly when
      it is a main result of the modality, and one to the valid count exactly
      when it is also free of error. */
  lemma StatsForAppendCounts(records: seq<TrialRecord>, r: TrialRecord, m: Modality)
    ensures var before := StatsFor(records, m);
            var after := StatsFor(records + [r], m);
            var counted := !r.isPractice && r.modality == m;
            && after.totalTrials == before.totalTrials + (if counted then 1 else 0)
            && after.validTrials == before.validTrials + (if counted && !r.isError then 1 else 0)
  {
    var trials := MainResults(records, m);
    MainResultsAppend(records, r, m);
    ValidResultsAppend(trials, r);
    if !r.isPractice && r.modality == m {
      assert MainResults(records + [r], m) == trials + [r];
      if r.isError {
        assert ValidResults(trials + [r]) == ValidResults(trials);
      } else {
        assert ValidResults(trials + [r]) == ValidResults(trials) + [r];
      }
    } else {
      assert MainResults(records + [r], m) == trials;
    }
  }

  /** With a valid result present, the time fields are the rounded mean,
      median and standard deviation, and the extremes, of the valid main
      reaction times of the modality; so every valid main result of the
      modality lies between the minimum and the maximum. */
  lemma StatsForTimes(records: seq<TrialRecord>, m: Modality)
    requires |ValidResults(MainResults(records, m))| > 0
    ensures var st := StatsFor(records, m);
            var times := ReactionTimes(ValidResults(MainResults(records, m)));
            && st.minRt == Min(times) && st.maxRt == Max(times)
            && st.meanRt == RoundHalfEven(Mean(times))
            && st.medianRt == RoundHalfEven(Median(times))
            && st.stdRt == RoundSqrt(SampleVariance(times))
    ensures forall k :: 0 <= k < |records| && !records[k].isPractice && records[k].modality == m && !records[k].isError ==>
              StatsFor(records, m).minRt <= records[k].reactionTime <= StatsFor(records, m).maxRt
  {
    var st := StatsFor(records, m);
    var trials := MainResults(records, m);
    var valid := ValidResults(trials);
    var times := ReactionTimes(valid);
    forall k | 0 <= k < |records| && !records[k].isPractice && records[k].modality == m && !records[k].isError
      ensures st.minRt <= records[k].reactionTime <= st.maxRt
    {
      var j :| 0 <= j < |trials| && trials[j] == records[k];
      var i :| 0 <= i < |valid| && valid[i] == trials[j];
      assert times[i] == records[k].reactionTime;
    }
  }

  /** An erroneous result changes no time field: only error-free results
      enter the reaction-time statistics. */
  lemma ErrorLeavesTimes(records: seq<TrialRecord>, r: TrialRecord, m: Modality)
    requires r.isError
    ensures var before := StatsFor(records, m);
            var after := StatsFor(records + [r], m);
            && after.validTrials == before.validTrials
            && after.meanRt == before.meanRt && after.medianRt == before.medianRt
            && after.stdRt == before.stdRt
            && after.minRt == before.minRt && after.maxRt == before.maxRt
  {
    var trials := MainResults(records, m);
    MainResultsAppend(records, r, m);
    ValidResultsAppend(trials, r);
    if !r.isPractice && r.modality == m {
      assert MainResults(records + [r], m) == trials + [r];
      assert ValidResults(trials + [r]) == ValidResults(trials);
    } else {
      assert MainResults(records + [r], m) == trials;
    }
    assert ValidResults(MainResults(records + [r], m)) == ValidResults(trials);
  }

  /** Recording a result extends the modality's main results by it exactly
      when it is a main result of the modality. */
  lemma {:induction false} MainResultsAppend(records: seq<TrialRecord>, r: TrialRecord, m: Modality)
    ensures MainResults(records + [r], m)
              == MainResults(records, m) + (if !r.isPractice && r.modality == m then [r] else [])
  {
    if records == [] {
      assert [r][1..] == [];
    } else {
      assert (records + [r])[1..] == records[1..] + [r];
      MainResultsAppend(records[1..], r, m);
    }
  }

  /** Recording a result extends the valid results by it exactly when it
      carries no error. */
  lemma {:induction false} ValidResultsAppend(records: seq<TrialRecord>, r: TrialRecord)
    ensures ValidResults(records + [r]) == ValidResults(records) + (if !r.isError then [r] else [])
  {
    if records == [] {
      assert [r][1..] == [];
    } else {
      assert (records + [r])[1..] == records[1..] + [r];
      ValidResultsAppend(records[1..], r);
    }
  }
}
