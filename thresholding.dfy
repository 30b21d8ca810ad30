/**
 * The coordinates of a score matrix whose score reaches a threshold, listed
 * in row-major order: the value of `output.ge(threshold).nonzero()`.
 */
module Thresholding {

  /** A (sentence, class id) position in the score matrix. */
  datatype Coord = Coord(sentence: nat, id: nat)

  /** `c` lies inside `scores` and its score is at least `threshold`. */
  predicate Qualifies(scores: seq<seq<real>>, threshold: real, c: Coord) {
    c.sentence < |scores| && c.id < |scores[c.sentence]| && scores[c.sentence][c.id] >= threshold
  }

  /** Strict row-major (lexicographic) order on coordinates. */
  predicate Before(a: Coord, b: Coord) {
    a.sentence < b.sentence || (a.sentence == b.sentence && a.id < b.id)
  }

  predicate RowMajor(cs: seq<Coord>) {
    forall i, j :: 0 <= i < j < |cs| ==> Before(cs[i], cs[j])
  }

  /** Qualifying positions of row `sentence`, from column `from` on. */
  function RowSelection(row: seq<real>, sentence: nat, threshold: real, from: nat): (r: seq<Coord>)
    ensures forall k :: 0 <= k < |r| ==>
      r[k].sentence == sentence && from <= r[k].id < |row| && row[r[k].id] >= threshold
    decreases |row| - from
  {
    if from >= |row| then []
    else (if row[from] >= threshold then [Coord(sentence, from)] else [])
         + RowSelection(row, sentence, threshold, from + 1)
  }

  /** Qualifying positions of `scores`, from row `from` on. */
  function SelectionFrom(scores: seq<seq<real>>, threshold: real, from: nat): (r: seq<Coord>)
    ensures forall k :: 0 <= k < |r| ==> from <= r[k].sentence && Qualifies(scores, threshold, r[k])
    decreases |scores| - from
  {
    if from >= |scores| then []
    else RowSelection(scores[from], from, threshold, 0) + SelectionFrom(scores, threshold, from + 1)
  }

  /** Every qualifying position of `scores`, row by row. */
  function Selection(scores: seq<seq<real>>, threshold: real): (r: seq<Coord>)
    ensures forall k :: 0 <= k < |r| ==> Qualifies(scores, threshold, r[k])
  {
    SelectionFrom(scores, threshold, 0)
  }

  lemma RowMajorConcat(a: seq<Coord>, b: seq<Coord>)
    requires RowMajor(a) && RowMajor(b)
    requires forall i, j :: 0 <= i < |a| && 0 <= j < |b| ==> Before(a[i], b[j])
    ensures RowMajor(a + b)
  {
  }

  lemma {:induction false} RowSelectionComplete(row: seq<real>, sentence: nat, threshold: real, from: nat)
    ensures forall id :: from <= id < |row| && row[id] >= threshold ==>
      Coord(sentence, id) in RowSelection(row, sentence, threshold, from)
    ensures RowMajor(RowSelection(row, sentence, threshold, from))
    decreases |row| - from
  {
    if from < |row| {
      RowSelectionComplete(row, sentence, threshold, from + 1);
      var head := if row[from] >= threshold then [Coord(sentence, from)] else [];
      var rest := RowSelection(row, sentence, threshold, from + 1);
      RowMajorConcat(head, rest);
    }
  }

  lemma {:induction false} SelectionFromComplete(scores: seq<seq<real>>, threshold: real, from: nat)
    ensures forall c: Coord :: from <= c.sentence && Qualifies(scores, threshold, c) ==>
      c in SelectionFrom(scores, threshold, from)
    ensures RowMajor(SelectionFrom(scores, threshold, from))
    decreases |scores| - from
  {
    if from < |scores| {
      SelectionFromComplete(scores, threshold, from + 1);
      RowSelectionComplete(scores[from], from, threshold, 0);
      var head := RowSelection(scores[from], from, threshold, 0);
      var rest := SelectionFrom(scores, threshold, from + 1);
      RowMajorConcat(head, rest);
      forall c: Coord | from <= c.sentence && Qualifies(scores, threshold, c)
        ensures c in head + rest
      {
        if c.sentence == from {
          assert Coord(from, c.id) in head;
        } else {
          assert c in rest;
        }
      }
    }
  }

  /**
   * The selection holds exactly the qualifying positions, each once, in
   * strict row-major order.
   */
  lemma SelectionIsRowMajorQualifying(scores: seq<seq<real>>, threshold: real)
    ensures forall c :: c in Selection(scores, threshold) <==> Qualifies(scores, threshold, c)
    ensures RowMajor(Selection(scores, threshold))
  {
    SelectionFromComplete(scores, threshold, 0);
  }
}
