/**
 Classification of one response, from its reaction time and whether the
 response window expired without a key press.
 */
module Classifier {
  import opened Trials

  /** The error type recorded for a trial: a miss when the window expired,
      an anticipation when the key came faster than the threshold, and no
      error otherwise. */
  function Classify(reactionTime: int, missed: bool): (e: Option<ErrorType>)
    ensures e == Some(Miss) <==> missed
    ensures e == Some(Anticipation) <==> !missed && reactionTime < MinResponseTime
    ensures e == None <==> !missed && MinResponseTime <= reactionTime
  {
    if missed then Some(Miss)
    else if reactionTime < MinResponseTime then Some(Anticipation)
    else None
  }

  /** A response that is not an anticipation stays valid when it is slower,
      and an anticipation stays one when it is faster. */
  lemma ClassifyMonotone(fast: int, slow: int)
    requires fast <= slow
    ensures Classify(slow, false) == Some(Anticipation) ==> Classify(fast, false) == Some(Anticipation)
    ensures Classify(fast, false) == None ==> Classify(slow, false) == None
  {
  }

  /** Sample classifications on either side of the 100 ms threshold. */
  lemma ClassifyExamples(anyTime: int)
    ensures Classify(80, false) == Some(Anticipation)
    ensures Classify(350, false) == None
    ensures Classify(anyTime, true) == Some(Miss)
    ensures Classify(99, false) == Some(Anticipation) && Classify(100, false) == None
  {
  }
}
