/**
 Construction of the practice and main trial sequences, and the auto-completed
 practice results. Both sequences are built the way the controller builds them:
 for each modality in a given order, a run of specs is appended, each spec
 numbered one past the length of the sequence built so far.
 */
module SequenceBuilder {
  import opened Trials
  import opened Counterbalance

  /** The `block` of a spec for modality `m`: none for practice specs, and for
      main specs one plus the first position of `m` in the block order. */
  function BlockFor(order: seq<Modality>, m: Modality, practice: bool): (b: Option<int>)
    requires m in order
    ensures practice <==> b == None
    ensures b.Some? ==> 1 <= b.value <= |order| && order[b.value - 1] == m
  {
    if practice then None else Some(IndexOf(order, m) + 1)
  }

  /** Appends `count` specs of one modality to `acc`. */
  function AppendRun(acc: seq<TrialSpec>, m: Modality, count: nat, practice: bool, block: Option<int>)
    : (r: seq<TrialSpec>)
    ensures |r| == |acc| + count
    ensures r[..|acc|] == acc
    ensures forall j :: |acc| <= j < |r| ==> r[j] == TrialSpec(m, j + 1, practice, block)
    decreases count
  {
    if count == 0 then acc
    else AppendRun(acc + [TrialSpec(m, |acc| + 1, practice, block)], m, count - 1, practice, block)
  }

  /** The specs from position `from` on are runs of `order[k..]`: each is
      numbered by its position, carries the practice flag, and has a
      modality of `order[k..]` with that modality's block. */
  predicate RunsOf(r: seq<TrialSpec>, from: nat, order: seq<Modality>, k: nat, practice: bool)
    requires k <= |order|
  {
    && (forall j :: from <= j < |r| ==> r[j].trialNumber == j + 1 && r[j].isPractice == practice)
    && (forall j :: from <= j < |r| ==> r[j].modality in order[k..])
    && (forall j :: from <= j < |r| ==>
          r[j].modality in order && r[j].block == BlockFor(order, r[j].modality, practice))
  }

  /** Appends one run of `count` specs for each of `order[k..]`, in order. */
  function AppendRuns(acc: seq<TrialSpec>, order: seq<Modality>, k: nat, count: nat, practice: bool)
    : (r: seq<TrialSpec>)
    requires k <= |order|
    ensures |acc| <= |r| == |acc| + (|order| - k) * count
    ensures r[..|acc|] == acc
    ensures forall j :: |acc| <= j < |r| ==> r[j].trialNumber == j + 1 && r[j].isPractice == practice
    ensures forall j :: |acc| <= j < |r| ==> r[j].modality in order[k..]
    ensures forall j :: |acc| <= j < |r| ==>
              r[j].modality in order && r[j].block == BlockFor(order, r[j].modality, practice)
    decreases |order| - k
  {
    if k == |order| then acc
    else
      var next := AppendRun(acc, order[k], count, practice, BlockFor(order, order[k], practice));
      var r := AppendRuns(next, order, k + 1, count, practice);
      RunsJoin(acc, next, r, order, k, count, practice);
      r
  }

  /** One step of `AppendRuns`: the run of `order[k]` appended to `acc`,
      followed by runs of `order[k + 1..]`, gives runs of `order[k..]`. */
  lemma RunsJoin(acc: seq<TrialSpec>, next: seq<TrialSpec>, r: seq<TrialSpec>, order: seq<Modality>, k: nat,
                 count: nat, practice: bool)
    requires k < |order|
    requires next == AppendRun(acc, order[k], count, practice, BlockFor(order, order[k], practice))
    requires |next| <= |r| == |next| + (|order| - (k + 1)) * count
    requires r[..|next|] == next
    requires RunsOf(r, |next|, order, k + 1, practice)
    ensures |acc| <= |r| == |acc| + (|order| - k) * count
    ensures r[..|acc|] == acc
    ensures RunsOf(r, |acc|, order, k, practice)
  {
    var left := |order| - (k + 1);
    assert (left + 1) * count == left * count + count;
    assert r[..|acc|] == r[..|next|][..|acc|];
    forall j | |acc| <= j < |next|
      ensures r[j] == next[j]
    {
      assert r[..|next|][j] == next[j];
    }
    assert order[k..] == [order[k]] + order[k + 1..];
    assert order[k] in order;
  }

  /** The practice sequence: two specs per modality in the canonical order,
      numbered 1 to 6, with no block. `PracticeSequenceBuilt` shows this is
      what the construction loop produces. */
  function PracticeSequence(): (s: seq<TrialSpec>)
    ensures |s| == |Modalities| * PracticeTrialsPerModality
    ensures forall i :: 0 <= i < |s| ==>
              && s[i].modality == Modalities[i / PracticeTrialsPerModality]
              && s[i].trialNumber == i + 1 && s[i].isPractice && s[i].block == None
  {
    [
      TrialSpec(Visual, 1, true, None), TrialSpec(Visual, 2, true, None),
      TrialSpec(Auditory, 3, true, None), TrialSpec(Auditory, 4, true, None),
      TrialSpec(Combined, 5, true, None), TrialSpec(Combined, 6, true, None)]
  }

  /** The main sequence for the block order of Latin-square row `row`. */
  function MainSequence(row: RowIndex): (s: seq<TrialSpec>)
    ensures |s| == |Modalities| * MainTrialsPerModality
    ensures forall i :: 0 <= i < |s| ==> s[i].trialNumber == i + 1 && !s[i].isPractice
  {
    AppendRuns([], BlockOrder(row), 0, MainTrialsPerModality, false)
  }

  /** The practice results filled in without running the practice trials. */
  function PracticeRecords(participantId: string): (r: seq<TrialRecord>)
    ensures |r| == |PracticeSequence()|
    ensures forall i :: 0 <= i < |r| ==>
              && r[i].participantId == participantId && r[i].isPractice
              && r[i].trialNumber == PracticeSequence()[i].trialNumber
              && r[i].modality == PracticeSequence()[i].modality
              && r[i].errorType == None && !r[i].isError
  {
    var specs := PracticeSequence();
    seq(|specs|, i requires 0 <= i < |specs| =>
      TrialRecord(participantId, i + 1, specs[i].modality, true, None, 250 + i * 10, None, false))
  }

  /** Appending a run of `PracticeTrialsPerModality` practice specs for each
      modality in the canonical order gives the practice sequence. */
  lemma PracticeSequenceBuilt()
    ensures AppendRuns([], Modalities, 0, PracticeTrialsPerModality, true) == PracticeSequence()
  {
    var s1 := AppendRun([], Visual, 2, true, None);
    var s2 := AppendRun(s1, Auditory, 2, true, None);
    var s3 := AppendRun(s2, Combined, 2, true, None);
    assert AppendRuns(s3, Modalities, 3, 2, true) == s3;
    assert s3 == PracticeSequence();
  }

  /** Each auto-completed practice result mirrors its spec, with reaction time
      250 + 10 i, no block, and no error. */
  lemma PracticeRecordsShape(participantId: string)
    ensures var r := PracticeRecords(participantId);
      && |r| == |Modalities| * PracticeTrialsPerModality
      && forall i :: 0 <= i < |r| ==>
           r[i] == TrialRecord(participantId, i + 1, Modalities[i / 2], true, None, 250 + 10 * i, None, false)
  {
  }

  /** The main sequence holds 30 specs: the row's modalities in runs of ten,
      numbered 1 to 30, each carrying the 1-based position of its modality in
      the row as its block. */
  lemma MainSequenceShape(row: RowIndex)
    ensures var s := MainSequence(row);
      && |s| == |Modalities| * MainTrialsPerModality
      && forall i :: 0 <= i < |s| ==>
           s[i] == TrialSpec(BlockOrder(row)[i / 10], i + 1, false, Some(i / 10 + 1))
  {
    var order := BlockOrder(row);
    assert order[0] != order[1] && order[0] != order[2] && order[1] != order[2];
    RunsOfTen(order);
  }

  /** Runs of ten main specs for three distinct modalities: spec `i` belongs
      to entry `i / 10` of the order, which is also its block, less one. */
  lemma RunsOfTen(order: seq<Modality>)
    requires |order| == 3 && order[0] != order[1] && order[0] != order[2] && order[1] != order[2]
    ensures var s := AppendRuns([], order, 0, 10, false);
      && |s| == 30
      && forall i :: 0 <= i < |s| ==> s[i] == TrialSpec(order[i / 10], i + 1, false, Some(i / 10 + 1))
  {
    var s := AppendRuns([], order, 0, 10, false);
    RunsInOrder(order, 10);
    ThreeRunsShape(order[0], order[1], order[2], 10);
    ByBlocksOfTen(s, order);
  }

  /** The runs for a three-entry order are three runs of `n`, one per entry,
      with blocks 1, 2 and 3. */
  lemma RunsInOrder(order: seq<Modality>, n: nat)
    requires |order| == 3 && order[0] != order[1] && order[0] != order[2] && order[1] != order[2]
    ensures AppendRuns([], order, 0, n, false) ==
              AppendRun(AppendRun(AppendRun([], order[0], n, false, Some(1)),
                                  order[1], n, false, Some(2)),
                        order[2], n, false, Some(3))
  {
    var s1 := AppendRun([], order[0], n, false, Some(1));
    var s2 := AppendRun(s1, order[1], n, false, Some(2));
    var s3 := AppendRun(s2, order[2], n, false, Some(3));
    assert BlockFor(order, order[0], false) == Some(1);
    assert AppendRuns([], order, 0, n, false) == AppendRuns(s1, order, 1, n, false);
    assert BlockFor(order, order[1], false) == Some(2);
    assert AppendRuns(s1, order, 1, n, false) == AppendRuns(s2, order, 2, n, false);
    assert BlockFor(order, order[2], false) == Some(3);
    assert AppendRuns(s2, order, 2, n, false) == AppendRuns(s3, order, 3, n, false);
  }

  /** Three runs of ten, read by position: position `i` is in run `i / 10`. */
  lemma ByBlocksOfTen(s: seq<TrialSpec>, order: seq<Modality>)
    requires |order| == 3 && |s| == 30
    requires forall i :: 0 <= i < 10 ==> s[i] == TrialSpec(order[0], i + 1, false, Some(1))
    requires forall i :: 10 <= i < 20 ==> s[i] == TrialSpec(order[1], i + 1, false, Some(2))
    requires forall i :: 20 <= i < 30 ==> s[i] == TrialSpec(order[2], i + 1, false, Some(3))
    ensures forall i :: 0 <= i < |s| ==> s[i] == TrialSpec(order[i / 10], i + 1, false, Some(i / 10 + 1))
  {
    forall i | 0 <= i < |s|
      ensures s[i] == TrialSpec(order[i / 10], i + 1, false, Some(i / 10 + 1))
    {
      if i < 10 {
        assert i / 10 == 0;
      } else if i < 20 {
        assert i / 10 == 1;
      } else {
        assert i / 10 == 2;
      }
    }
  }

  /** Three runs of `n` specs starting from nothing: run k covers positions
      (k-1)n to kn-1. */
  lemma ThreeRunsShape(a: Modality, b: Modality, c: Modality, n: nat)
    ensures var s := AppendRun(AppendRun(AppendRun([], a, n, false, Some(1)), b, n, false, Some(2)),
                               c, n, false, Some(3));
      && |s| == n + n + n
      && (forall i :: 0 <= i < n ==> s[i] == TrialSpec(a, i + 1, false, Some(1)))
      && (forall i :: n <= i < n + n ==> s[i] == TrialSpec(b, i + 1, false, Some(2)))
      && (forall i :: n + n <= i < n + n + n ==> s[i] == TrialSpec(c, i + 1, false, Some(3)))
  {
    var s1 := AppendRun([], a, n, false, Some(1));
    var s2 := AppendRun(s1, b, n, false, Some(2));
    var s3 := AppendRun(s2, c, n, false, Some(3));
    forall i | 0 <= i < n + n
      ensures s3[i] == s2[i]
    {
      assert s3[..n + n][i] == s2[i];
    }
    forall i | 0 <= i < n
      ensures s2[i] == s1[i]
    {
      assert s2[..n][i] == s1[i];
    }
  }

  /** Every spec of the main sequence is a non-practice spec whose block is the
      position of its modality in the row; each modality fills one run of ten. */
  lemma MainSequenceBlocks(row: RowIndex, i: int)
    requires 0 <= i < |MainSequence(row)|
    ensures var spec := MainSequence(row)[i];
      && !spec.isPractice
      && spec.block.Some?
      && 1 <= spec.block.value <= |Modalities|
      && BlockOrder(row)[spec.block.value - 1] == spec.modality
      && (spec.block.value - 1) * MainTrialsPerModality <= i < spec.block.value * MainTrialsPerModality
  {
    MainSequenceShape(row);
  }
}
