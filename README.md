# Sequence classification pipeline — verified model

This project models the core of rust-bert's sequence-classification pipeline
(`src/pipelines/sequence_classification.rs`) in Dafny and proves properties of it.
The pipeline has four pieces of ordinary sequential logic:

- **Classifier dispatch.** `SequenceClassificationOption::new` builds a classifier from a
  model family tag and a loaded configuration. The `model_type` accessor reports that family back.
- **Batch padding.** `prepare_for_model` right-pads every token-id list with the tokenizer's
  PAD id, up to the longest list in the batch.
- **Single-label decoding.** `predict` emits one `Label` per input. Each label uses the arg-max
  class of its row of softmax scores and that class's text from the label mapping.
- **Multi-label decoding.** `predict_multilabel` selects every (sentence, class) position whose
  sigmoid score reaches the threshold, in row-major order. It then groups these labels with two
  accumulators, `labels` and `sequence_labels`.

The pipeline panics in several places. Each panic becomes a `Failure(Fatal)` value:

- a configuration of the wrong kind;
- a family with no classification head;
- an empty batch;
- a tokenizer without a PAD id;
- a class id with no label-mapping entry.

The activation output (softmax or sigmoid scores) is a parameter, and scores are `real`.

The grouping loop is modelled as written. It starts a new group when a label's sentence index is
greater than the number of groups already pushed. Its doc comment promises "a vector of true
labels for each input text". The loop keeps that promise only in some cases:
`Grouping.GroupMatchesRowsIff` proves it does so exactly when two conditions hold:

- there is at least one selection (when there is at least one input);
- every input after the first has a selection.

Otherwise the result differs from one group per input:

- an inner input with no selection gets no group: with one label in input 0 and one in input 2, input 2's label lands in group 1 (`SparseRowsShift`). The shift lasts only while later inputs have one label each, because an input with several labels is split and catches up (`SkippedRowSplitsNext`);
- trailing inputs with no selection get no group (`TrailingRowDropped`);
- after a gap, one input's labels are split over several groups (`SkippedRowSplitsNext`).

Files, one module each:

- `wrappers.dfy`: `Option` and `Result`.
- `types.dfy`: the model family tags, configuration kinds, the `Label` record and the fatal conditions.
- `option.dfy`: the classifier dispatch.
- `thresholding.dfy`: `ge(threshold).nonzero()` as a row-major list of coordinates (module `Thresholding`).
- `grouping.dfy`: the grouping loop's semantics and its lemmas.
- `pipeline.dfy`: the model record, padding, and the two prediction methods with their loops.

## Model

| member | source | states |
|---|---|---|
| `ClassificationOption.New` | src/pipelines/sequence_classification.rs:204-268 | Construction succeeds exactly for Bert/Bert, DistilBert/DistilBert, Roberta/Bert, XLMRoberta/Bert, Albert/Albert and Bart/Bart (`Compatible`). On success, the built classifier reports the requested family, with XLMRoberta reported as Roberta. Electra, Marian and T5 always fail as not implemented. Any other failure of an implemented family is a configuration mismatch. |
| `ClassificationOption.ModelTypeOf` | src/pipelines/sequence_classification.rs:272-281 | A built classifier never reports Electra, Marian, T5 or XLMRoberta. |
| `ClassificationOption.NewOfModelType` | src/pipelines/sequence_classification.rs:200-281 | `new(model_type(o), c)` gives `o` back for some configuration kind `c`, for every classifier except XLMRoberta. For XLMRoberta no configuration kind rebuilds it, because its reported family is Roberta. |
| `SequenceClassification.MaxLength` | src/pipelines/sequence_classification.rs:416-420 | The batch maximum is at least every list's length and equals some list's length. |
| `SequenceClassification.PadRow` | src/pipelines/sequence_classification.rs:424-431 | A padded row has the target width, starts with the original ids unchanged, and holds the PAD id everywhere after them. |
| `SequenceClassification.PrepareForModel` | src/pipelines/sequence_classification.rs:412-436 | An empty batch fails with EmptyBatch; a missing PAD id fails with MissingPadId. Otherwise the result has one row per input, all rows of the batch-maximum length. Row i starts with input i and is PAD-filled beyond it. With inputs of at most 128 ids the width is at most 128. |
| `SequenceClassification.RowArgMax` | src/pipelines/sequence_classification.rs:477 | The chosen class index lies in the row and its score is at least every score in the row. |
| `SequenceClassification.Predict` | src/pipelines/sequence_classification.rs:464-500 | Padding failures come first. Success holds exactly when every row's arg-max id has a mapping entry. Then there is one label per input, in order: label i has sentence i, an id attaining row i's maximum, score equal to row i at that id, and text equal to the mapping entry. Otherwise the error names the first row's unmapped id. |
| `SequenceClassification.SelectedLabelsMeaning` | src/pipelines/sequence_classification.rs:546-569 | For the thresholded selection, every label lies inside the matrix, its score is the matrix value at its (sentence, id) and is at least the threshold, and its text is the mapping entry for its id. Every qualifying (sentence, id) has a label, and no two labels share a (sentence, id), so each qualifying position has exactly one. |
| `SequenceClassification.SelectedLabelsInOrder` | src/pipelines/sequence_classification.rs:546 | The labels of the thresholded selection are in sentence order, and each sentence is below the row count. |
| `SequenceClassification.GroupLabels` | src/pipelines/sequence_classification.rs:548-575 | The loop with its two accumulators yields `Group` of the selected labels exactly when every coordinate's id is mapped. Otherwise it fails on the first unmapped coordinate. |
| `SequenceClassification.MultilabelGroupsShape` | src/pipelines/sequence_classification.rs:548-575 | Concatenating the groups gives the selected labels. Each group holds one input, only the first may be empty, and group g holds no input before g. The result is one group per input exactly when `CoversRows` holds. If no score reaches the threshold, the result is the empty outer list. |
| `SequenceClassification.PredictMultilabel` | src/pipelines/sequence_classification.rs:529-576 | Padding failures come first. Success holds exactly when every selected id is mapped. On success, the result is the grouping of the row-major selected labels, with all the properties of `MultilabelGroupsShape`. No qualifying score gives `[]`. A failure names the first unmapped selected coordinate. |
| `Thresholding.Selection` | src/pipelines/sequence_classification.rs:546 | Every listed coordinate lies inside the matrix and has a score at least the threshold. |
| `Thresholding.SelectionIsRowMajorQualifying` | src/pipelines/sequence_classification.rs:546 | A coordinate is selected if and only if its score is at least the threshold. The selection is in strict row-major order, so nothing is listed twice. |
| `Grouping.GroupShape` | src/pipelines/sequence_classification.rs:551-574 | For labels in sentence order: flattening the groups gives back the labels. Each group holds one input, only the first group may be empty, and group g holds no input before g. The result is empty iff there are no labels. The first group is empty iff the first label's sentence is above 0. |
| `Grouping.GroupMatchesRowsIff` | src/pipelines/sequence_classification.rs:551-574 | The result equals one group per input, group i holding input i's labels, if and only if `CoversRows` holds: some label exists (when n > 0) and every input after the first has a label. |
| `Grouping.GroupDense` | src/pipelines/sequence_classification.rs:551-574 | When every input has a selected label, there are exactly n groups and group i holds exactly input i's labels. |
| `Grouping.SparseRowsShift` | src/pipelines/sequence_classification.rs:558-561 | With one label in input 0 and one in input 2 of three inputs, there are two groups, not three: input 2's label lands in group 1. |
| `Grouping.TrailingRowDropped` | src/pipelines/sequence_classification.rs:572-574 | A trailing input without a selection gets no group. |
| `Grouping.SkippedRowSplitsNext` | src/pipelines/sequence_classification.rs:558-561 | After a skipped input, two labels of input 2 land in two separate groups. |

## Left out

- The tensor library is not modelled, because it is floating-point numerics and foreign calls. This covers `forward_t` and its per-family delegation, softmax, sigmoid, `no_grad`, `detach`, `stack` and device moves. Its output enters the model as the `scores` matrix, which has one row per input.
- `forward_t` panics for Bart when `input_ids` is absent. This is not modelled, because both prediction entry points always pass `Some(input_ids)`.
- The tokenizer (`encode_list`, the 128-id truncation, the longest-first strategy) is external. Token-id lists are inputs to the model.
- Pipeline construction (`SequenceClassificationModel::new`) is not modelled: resource resolution, tokenizer and configuration loading, weight loading and `get_label_mapping` are file or network I/O. The label mapping is a given `map<int, string>`.
- The configuration plumbing is not modelled: `SequenceClassificationConfig::new`, its `Default`, device selection and the serde derives.
- The definition of `ConfigOption` lives in `pipelines/common.rs`, which is not part of this model. Configuration kinds that the dispatch never accepts are collapsed into `Other`.
- The panic messages are not modelled, only which condition occurred. This includes Bart's message naming a BertConfig.
- Scores are `real`, so `f64` rounding is not represented. The `i64` class ids are `int` and the `usize` indices are `nat`, with no overflow.
- The claim that softmax scores lie in [0, 1] is not modelled, and neither is the claim that sigmoid scores stay below 1, so a threshold of 1 or more selects nothing. Both are floating-point facts about the activation.
- `predict_multilabel` returns `Ok` in every case where it does not panic. The model does not distinguish its recoverable-error wrapper from panics.
- The doc example's `sentence: 12` (line 56) is a typo for 2. `Predict` states the value the code produces, which is the row index.
- SequenceClassification.Predict: every score row has at least one class (the classifier head's width). Arg-max of an empty row fails inside the tensor library, and that failure is not modelled.
- SequenceClassification.RowArgMax: states only that the chosen index attains the row maximum, because the tensor library's tie-break is not visible. The model's own choice, the first maximal index, is incidental.
