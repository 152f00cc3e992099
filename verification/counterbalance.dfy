/**
 Latin-square counterbalancing of the block order. The row is chosen by the
 participant identifier's hash modulo 3; that hash is randomised per process,
 so the model takes the chosen row index as an input.
 */
module Counterbalance {
  import opened Trials

  /** A row index of the Latin square. */
  type RowIndex = i: int | 0 <= i < 3

  /** The three block orders, one per row. */
  const LatinSquare: seq<seq<Modality>> := [
    [Visual, Auditory, Combined],
    [Auditory, Combined, Visual],
    [Combined, Visual, Auditory]
  ]

  /** The block order a participant is assigned. */
  function BlockOrder(row: RowIndex): (order: seq<Modality>)
    ensures |order| == |Modalities|
    ensures multiset(order) == multiset(Modalities)
    ensures forall i, j :: 0 <= i < j < |order| ==> order[i] != order[j]
  {
    LatinSquare[row]
  }

  /** Column `col` of the square, read top to bottom. */
  function Column(col: int): (c: seq<Modality>)
    requires 0 <= col < |Modalities|
    ensures |c| == |LatinSquare|
    ensures forall row: RowIndex :: c[row] == BlockOrder(row)[col]
  {
    [LatinSquare[0][col], LatinSquare[1][col], LatinSquare[2][col]]
  }

  /** Every modality occupies each position in exactly one row. */
  lemma ColumnIsPermutation(col: int)
    requires 0 <= col < |Modalities|
    ensures multiset(Column(col)) == multiset(Modalities)
  {
    if col == 0 {
      assert Column(col) == [Visual, Auditory, Combined];
    } else if col == 1 {
      assert Column(col) == [Auditory, Combined, Visual];
      assert multiset([Auditory, Combined, Visual]) == multiset{Visual, Auditory, Combined};
    } else {
      assert Column(col) == [Combined, Visual, Auditory];
      assert multiset([Combined, Visual, Auditory]) == multiset{Visual, Auditory, Combined};
    }
  }

  /** The first position of `m` in `order`, as Python's `list.index`. */
  function IndexOf(order: seq<Modality>, m: Modality): (k: int)
    requires m in order
    ensures 0 <= k < |order| && order[k] == m
    ensures forall j :: 0 <= j < k ==> order[j] != m
  {
    if order[0] == m then 0 else 1 + IndexOf(order[1..], m)
  }
}
