/**
 * The sequence-classification pipeline: batch padding and the two decoding
 * loops that turn an activation output (softmax or sigmoid scores, one row
 * per input text) into labels.
 */
module SequenceClassification {
  import opened Wrappers
  import opened Types
  import opened ClassificationOption
  import opened Thresholding
  import opened Grouping

  /** The tokenizer truncates every input to at most this many token ids. */
  const MaxSequenceLength: nat := 128

  /**
   * A ready pipeline: the tokenizer's PAD id (if it has one), the classifier
   * that was built, and the class-id-to-text mapping of its configuration.
   */
  datatype SequenceClassificationModel = SequenceClassificationModel(
    padId: Option<int>,
    classifier: SequenceClassificationOption,
    labelMapping: map<int, string>)

  /** The longest token-id list of a non-empty batch. */
  function MaxLength(rows: seq<seq<int>>): (m: nat)
    requires rows != []
    ensures forall i :: 0 <= i < |rows| ==> |rows[i]| <= m
    ensures exists i :: 0 <= i < |rows| && |rows[i]| == m
  {
    if |rows| == 1 then |rows[0]|
    else
      var m := MaxLength(rows[..|rows| - 1]);
      if |rows[|rows| - 1]| > m then |rows[|rows| - 1]| else m
  }

  /** `row` extended with `pad` up to `width` ids. */
  function PadRow(row: seq<int>, width: nat, pad: int): (r: seq<int>)
    requires |row| <= width
    ensures |r| == width && r[..|row|] == row
    ensures forall k :: |row| <= k < width ==> r[k] == pad
  {
    row + seq(width - |row|, _ => pad)
  }

  /**
   * The batch handed to the classifier: every token-id list right-padded with
   * the PAD id to the length of the longest one. An empty batch and a
   * tokenizer without a PAD id are fatal.
   */
  function PrepareForModel(tokenIds: seq<seq<int>>, padId: Option<int>): (r: Result<seq<seq<int>>, Fatal>)
    ensures tokenIds == [] ==> r == Failure(EmptyBatch)
    ensures tokenIds != [] && padId.None? ==> r == Failure(MissingPadId)
    ensures tokenIds != [] && padId.Some? ==> r.Success?
    ensures r.Success? ==>
      && |r.value| == |tokenIds|
      && (forall i :: 0 <= i < |tokenIds| ==> |r.value[i]| == |r.value[0]|)
      && (forall i :: 0 <= i < |tokenIds| ==> |tokenIds[i]| <= |r.value[0]|)
      && (exists i :: 0 <= i < |tokenIds| && |tokenIds[i]| == |r.value[0]|)
      && (forall i :: 0 <= i < |tokenIds| ==> r.value[i][..|tokenIds[i]|] == tokenIds[i])
      && (forall i, k :: 0 <= i < |tokenIds| && |tokenIds[i]| <= k < |r.value[i]| ==> r.value[i][k] == padId.value)
    ensures r.Success? && (forall i :: 0 <= i < |tokenIds| ==> |tokenIds[i]| <= MaxSequenceLength) ==>
      |r.value[0]| <= MaxSequenceLength
  {
    if tokenIds == [] then Failure(EmptyBatch)
    else if padId.None? then Failure(MissingPadId)
    else
      var width := MaxLength(tokenIds);
      Success(seq(|tokenIds|, i requires 0 <= i < |tokenIds| => PadRow(tokenIds[i], width, padId.value)))
  }

  /** An index attaining the maximum of a non-empty score row (the tensor library's arg-max). */
  function RowArgMax(row: seq<real>): (k: nat)
    requires row != []
    ensures k < |row|
    ensures forall j :: 0 <= j < |row| ==> row[j] <= row[k]
  {
    if |row| == 1 then 0
    else
      var k := RowArgMax(row[..|row| - 1]);
      if row[|row| - 1] > row[k] then |row| - 1 else k
  }

  /** `predicted` is the single-label answer for score row `row` of input `sentence`. */
  predicate IsBestLabel(labelMapping: map<int, string>, row: seq<real>, sentence: nat, predicted: Label) {
    && predicted.sentence == sentence
    && 0 <= predicted.id < |row|
    && predicted.score == row[predicted.id]
    && (forall j :: 0 <= j < |row| ==> row[j] <= predicted.score)
    && predicted.id in labelMapping
    && predicted.text == labelMapping[predicted.id]
  }

  /**
   * Single-label classification. `scores` is the softmax output of the
   * classifier for the prepared batch: one non-empty row per input.
   */
  method Predict(model: SequenceClassificationModel, tokenIds: seq<seq<int>>, scores: seq<seq<real>>)
    returns (r: Result<seq<Label>, Fatal>)
    requires |scores| == |tokenIds|
    requires forall i :: 0 <= i < |scores| ==> scores[i] != []
    ensures tokenIds == [] ==> r == Failure(EmptyBatch)
    ensures tokenIds != [] && model.padId.None? ==> r == Failure(MissingPadId)
    ensures r.Success? <==>
      && tokenIds != [] && model.padId.Some?
      && forall i :: 0 <= i < |scores| ==> RowArgMax(scores[i]) in model.labelMapping
    ensures r.Success? ==>
      && |r.value| == |tokenIds|
      && forall i :: 0 <= i < |r.value| ==>
           IsBestLabel(model.labelMapping, scores[i], i, r.value[i]) && r.value[i].id == RowArgMax(scores[i])
    ensures r.Failure? && tokenIds != [] && model.padId.Some? ==>
      exists i :: 0 <= i < |scores|
        && (forall j :: 0 <= j < i ==> RowArgMax(scores[j]) in model.labelMapping)
        && RowArgMax(scores[i]) !in model.labelMapping
        && r.error == MissingLabel(RowArgMax(scores[i]))
  {
    var prepared :- PrepareForModel(tokenIds, model.padId);
    var labelIndices := seq(|scores|, i requires 0 <= i < |scores| => RowArgMax(scores[i]));
    var labelScores := seq(|scores|, i requires 0 <= i < |scores| => scores[i][labelIndices[i]]);
    var labels: seq<Label> := [];
    var sentenceIdx := 0;
    while sentenceIdx < |labelIndices|
      invariant 0 <= sentenceIdx <= |scores|
      invariant |labels| == sentenceIdx
      invariant forall i :: 0 <= i < sentenceIdx ==> labelIndices[i] in model.labelMapping
      invariant forall i :: 0 <= i < sentenceIdx ==>
        IsBestLabel(model.labelMapping, scores[i], i, labels[i]) && labels[i].id == labelIndices[i]
    {
      var id := labelIndices[sentenceIdx];
      if id !in model.labelMapping {
        return Failure(MissingLabel(id));
      }
      var next := Label(model.labelMapping[id], labelScores[sentenceIdx], id, sentenceIdx);
      labels := labels + [next];
      sentenceIdx := sentenceIdx + 1;
    }
    r := Success(labels);
  }

  /** Every coordinate in `cs` has a label-mapping entry. */
  predicate AllMapped(labelMapping: map<int, string>, cs: seq<Coord>) {
    forall k :: 0 <= k < |cs| ==> cs[k].id in labelMapping
  }

  /** The label for each selected coordinate, in the order of `cs`. */
  function SelectedLabels(labelMapping: map<int, string>, scores: seq<seq<real>>, cs: seq<Coord>): (ls: seq<Label>)
    requires AllMapped(labelMapping, cs)
    requires InScores(scores, cs)
  {
    seq(|cs|, k requires 0 <= k < |cs| =>
      Label(labelMapping[cs[k].id], scores[cs[k].sentence][cs[k].id], cs[k].id, cs[k].sentence))
  }

  /**
   * The labels built for the thresholded selection: each is inside the
   * matrix, carries the score at its position (at least the threshold) and
   * its mapped text, and every qualifying position has exactly one label.
   */
  lemma SelectedLabelsMeaning(labelMapping: map<int, string>, scores: seq<seq<real>>, threshold: real)
    requires AllMapped(labelMapping, Selection(scores, threshold))
    ensures var sel := SelectedLabels(labelMapping, scores, Selection(scores, threshold));
      && (forall k :: 0 <= k < |sel| ==>
            && sel[k].sentence < |scores| && 0 <= sel[k].id < |scores[sel[k].sentence]|
            && sel[k].score == scores[sel[k].sentence][sel[k].id]
            && sel[k].score >= threshold
            && sel[k].id in labelMapping && sel[k].text == labelMapping[sel[k].id])
      && (forall s: nat, id: nat :: Qualifies(scores, threshold, Coord(s, id)) ==>
            exists k :: 0 <= k < |sel| && sel[k].sentence == s && sel[k].id == id)
      && (forall k, m :: 0 <= k < m < |sel| ==> sel[k].sentence != sel[m].sentence || sel[k].id != sel[m].id)
  {
    var cs := Selection(scores, threshold);
    var sel := SelectedLabels(labelMapping, scores, cs);
    SelectionIsRowMajorQualifying(scores, threshold);
    forall s: nat, id: nat | Qualifies(scores, threshold, Coord(s, id))
      ensures exists k :: 0 <= k < |sel| && sel[k].sentence == s && sel[k].id == id
    {
      assert Coord(s, id) in cs;
      var k :| 0 <= k < |cs| && cs[k] == Coord(s, id);
      assert sel[k].sentence == s && sel[k].id == id;
    }
    forall k, m | 0 <= k < m < |sel|
      ensures sel[k].sentence != sel[m].sentence || sel[k].id != sel[m].id
    {
      assert Before(cs[k], cs[m]);
    }
  }

  /** The labels of a row-major selection are in sentence order and below the row count. */
  lemma SelectedLabelsInOrder(labelMapping: map<int, string>, scores: seq<seq<real>>, threshold: real)
    requires AllMapped(labelMapping, Selection(scores, threshold))
    ensures SentenceSorted(SelectedLabels(labelMapping, scores, Selection(scores, threshold)))
    ensures SentencesBelow(SelectedLabels(labelMapping, scores, Selection(scores, threshold)), |scores|)
  {
    SelectionIsRowMajorQualifying(scores, threshold);
  }

  /** Every coordinate of `cs` lies inside `scores`. */
  predicate InScores(scores: seq<seq<real>>, cs: seq<Coord>) {
    forall k :: 0 <= k < |cs| ==> cs[k].sentence < |scores| && cs[k].id < |scores[cs[k].sentence]|
  }

  /**
   * The grouping loop of multi-label prediction over the selected
   * coordinates `labelIndices`: a label whose sentence index exceeds the
   * number of groups pushed so far closes the current group first. A
   * coordinate without a label-mapping entry is fatal.
   */
  method GroupLabels(labelMapping: map<int, string>, scores: seq<seq<real>>, labelIndices: seq<Coord>)
    returns (r: Result<seq<seq<Label>>, Fatal>)
    requires InScores(scores, labelIndices)
    ensures r.Success? <==> AllMapped(labelMapping, labelIndices)
    ensures r.Success? ==>
      AllMapped(labelMapping, labelIndices) && r.value == Group(SelectedLabels(labelMapping, scores, labelIndices))
    ensures r.Failure? ==>
      exists k :: 0 <= k < |labelIndices|
        && AllMapped(labelMapping, labelIndices[..k])
        && labelIndices[k].id !in labelMapping
        && r.error == MissingLabel(labelIndices[k].id)
  {
    ghost var selected := if AllMapped(labelMapping, labelIndices)
      then SelectedLabels(labelMapping, scores, labelIndices) else [];
    var labels: seq<seq<Label>> := [];
    var sequenceLabels: seq<Label> := [];
    var i := 0;
    while i < |labelIndices|
      invariant 0 <= i <= |labelIndices|
      invariant AllMapped(labelMapping, labelIndices[..i])
      invariant AllMapped(labelMapping, labelIndices) ==>
        |selected| == |labelIndices| && GroupFrom(selected[i..], labels, sequenceLabels) == Group(selected)
    {
      var c := labelIndices[i];
      ghost var labels0, sequenceLabels0 := labels, sequenceLabels;
      if c.sentence > |labels| {
        labels := labels + [sequenceLabels];
        sequenceLabels := [];
      }
      var score := scores[c.sentence][c.id];
      if c.id !in labelMapping {
        return Failure(MissingLabel(c.id));
      }
      var next := Label(labelMapping[c.id], score, c.id, c.sentence);
      sequenceLabels := sequenceLabels + [next];
      if AllMapped(labelMapping, labelIndices) {
        assert selected[i] == next;
        assert selected[i..][0] == next && selected[i..][1..] == selected[i + 1..];
        assert c.sentence > |labels0| ==> labels == labels0 + [sequenceLabels0] && sequenceLabels == [next];
        assert c.sentence <= |labels0| ==> labels == labels0 && sequenceLabels == sequenceLabels0 + [next];
        assert GroupFrom(selected[i..], labels0, sequenceLabels0)
            == GroupFrom(selected[i + 1..], labels, sequenceLabels);
      }
      assert labelIndices[..i + 1] == labelIndices[..i] + [c];
      i := i + 1;
    }
    if sequenceLabels != [] {
      labels := labels + [sequenceLabels];
    }
    assert labelIndices[..i] == labelIndices;
    assert selected[i..] == [];
    r := Success(labels);
  }

  /**
   * What the grouped result of multi-label prediction satisfies: it loses and
   * repeats no selected label, keeps one input per group, and is one group
   * per input exactly under `CoversRows`; with no score at the threshold it
   * is empty.
   */
  lemma MultilabelGroupsShape(labelMapping: map<int, string>, scores: seq<seq<real>>, threshold: real)
    requires AllMapped(labelMapping, Selection(scores, threshold))
    ensures var selected := SelectedLabels(labelMapping, scores, Selection(scores, threshold));
      && Flatten(Group(selected)) == selected
      && EachGroupOneSentence(Group(selected))
      && OnlyFirstMayBeEmpty(Group(selected))
      && GroupIndexAtMostSentence(Group(selected))
      && (Group(selected) == ByRow(selected, |scores|) <==> CoversRows(selected, |scores|))
      && ((forall i, j :: 0 <= i < |scores| && 0 <= j < |scores[i]| ==> scores[i][j] < threshold) ==>
            Group(selected) == [])
  {
    var selected := SelectedLabels(labelMapping, scores, Selection(scores, threshold));
    SelectedLabelsInOrder(labelMapping, scores, threshold);
    GroupShape(selected);
    GroupMatchesRowsIff(selected, |scores|);
  }

  /**
   * Multi-label classification. `scores` is the sigmoid output of the
   * classifier for the prepared batch, one row per input. The selected
   * labels are grouped exactly as the loop of `predict_multilabel` groups them.
   */
  method PredictMultilabel(model: SequenceClassificationModel, tokenIds: seq<seq<int>>, scores: seq<seq<real>>, threshold: real)
    returns (r: Result<seq<seq<Label>>, Fatal>)
    requires |scores| == |tokenIds|
    ensures tokenIds == [] ==> r == Failure(EmptyBatch)
    ensures tokenIds != [] && model.padId.None? ==> r == Failure(MissingPadId)
    ensures r.Success? <==>
      tokenIds != [] && model.padId.Some? && AllMapped(model.labelMapping, Selection(scores, threshold))
    ensures r.Success? ==>
      && AllMapped(model.labelMapping, Selection(scores, threshold))
      && var selected := SelectedLabels(model.labelMapping, scores, Selection(scores, threshold));
      && r.value == Group(selected)
      && Flatten(r.value) == selected
      && EachGroupOneSentence(r.value)
      && OnlyFirstMayBeEmpty(r.value)
      && GroupIndexAtMostSentence(r.value)
      && (r.value == ByRow(selected, |tokenIds|) <==> CoversRows(selected, |tokenIds|))
    ensures r.Success? && (forall i, j :: 0 <= i < |scores| && 0 <= j < |scores[i]| ==> scores[i][j] < threshold) ==>
      r.value == []
    ensures r.Failure? && tokenIds != [] && model.padId.Some? ==>
      var cs := Selection(scores, threshold);
      exists k :: 0 <= k < |cs|
        && AllMapped(model.labelMapping, cs[..k])
        && cs[k].id !in model.labelMapping
        && r.error == MissingLabel(cs[k].id)
  {
    var prepared :- PrepareForModel(tokenIds, model.padId);
    var labelIndices := Selection(scores, threshold);
    r := GroupLabels(model.labelMapping, scores, labelIndices);
    if r.Success? {
      MultilabelGroupsShape(model.labelMapping, scores, threshold);
    }
  }
}
