/**
 * The value types of the sequence-classification pipeline: the model family
 * tags, the configuration kinds a model can be built from, the `Label` record
 * the pipeline produces and the fatal conditions (panics) it can stop with.
 */
module Types {

  /** A model family tag, as the pipeline's configuration names it. */
  datatype ModelType =
    | Bert
    | DistilBert
    | Roberta
    | XLMRoberta
    | Electra
    | Marian
    | T5
    | Albert
    | Bart

  /**
   * The kind of a loaded model configuration. Only the four kinds that the
   * classifier dispatch distinguishes are named; every other configuration
   * kind is `Other`.
   */
  datatype ConfigOption =
    | Bert
    | DistilBert
    | Albert
    | Bart
    | Other

  /** A label produced by the pipeline: class text, score, class id and input position. */
  datatype Label = Label(text: string, score: real, id: int, sentence: nat)

  /** The conditions on which the pipeline panics instead of returning a value. */
  datatype Fatal =
    | IncompatibleConfig(modelType: ModelType)  // configuration kind does not fit the family
    | NotImplemented(modelType: ModelType)      // no classification head for this family
    | EmptyBatch                                // `max()` of an empty batch is unwrapped
    | MissingPadId                              // the tokenizer defines no PAD id
    | MissingLabel(id: int)                     // a class id without a label-mapping entry
}
