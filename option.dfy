/**
 * The closed set of classifier implementations and the dispatch that builds one
 * from a model family tag and a loaded configuration.
 */
module ClassificationOption {
  import opened Wrappers
  import opened Types

  /**
   * One live classifier per pipeline. The learned parameters inside each
   * variant belong to the tensor library and are not modelled; only which
   * variant was built is.
   */
  datatype SequenceClassificationOption =
    | Bert
    | DistilBert
    | Roberta
    | XLMRoberta
    | Albert
    | Bart

  /** Families for which the pipeline has no classification head. */
  predicate Unimplemented(modelType: ModelType) {
    modelType == ModelType.Electra || modelType == ModelType.Marian || modelType == ModelType.T5
  }

  /** The family that `model_type` reports for a requested family: XLMRoberta shares Roberta's. */
  function ReportedFamily(modelType: ModelType): ModelType {
    if modelType == ModelType.XLMRoberta then ModelType.Roberta else modelType
  }

  /**
   * Builds the classifier for `modelType` from `config`. A configuration of
   * the wrong kind, and a family without a classification head, are fatal.
   */
  function New(modelType: ModelType, config: ConfigOption): (r: Result<SequenceClassificationOption, Fatal>)
    ensures r.Success? <==> Compatible(modelType, config)
    ensures r.Success? ==> ModelTypeOf(r.value) == ReportedFamily(modelType)
    ensures Unimplemented(modelType) ==> r == Failure(NotImplemented(modelType))
    ensures !Unimplemented(modelType) && r.Failure? ==> r.error == IncompatibleConfig(modelType)
  {
    match modelType
    case Bert =>
      if config == ConfigOption.Bert then Success(SequenceClassificationOption.Bert)
      else Failure(IncompatibleConfig(modelType))
    case DistilBert =>
      if config == ConfigOption.DistilBert then Success(SequenceClassificationOption.DistilBert)
      else Failure(IncompatibleConfig(modelType))
    case Roberta =>
      if config == ConfigOption.Bert then Success(SequenceClassificationOption.Roberta)
      else Failure(IncompatibleConfig(modelType))
    case XLMRoberta =>
      if config == ConfigOption.Bert then Success(SequenceClassificationOption.XLMRoberta)
      else Failure(IncompatibleConfig(modelType))
    case Albert =>
      if config == ConfigOption.Albert then Success(SequenceClassificationOption.Albert)
      else Failure(IncompatibleConfig(modelType))
    case Bart =>
      if config == ConfigOption.Bart then Success(SequenceClassificationOption.Bart)
      else Failure(IncompatibleConfig(modelType))
    case Electra => Failure(NotImplemented(modelType))
    case Marian => Failure(NotImplemented(modelType))
    case T5 => Failure(NotImplemented(modelType))
  }

  /** The family tag a built classifier reports. */
  function ModelTypeOf(option: SequenceClassificationOption): (t: ModelType)
    ensures !Unimplemented(t) && t != ModelType.XLMRoberta
  {
    match option
    case Bert => ModelType.Bert
    case Roberta => ModelType.Roberta
    case XLMRoberta => ModelType.Roberta
    case DistilBert => ModelType.DistilBert
    case Albert => ModelType.Albert
    case Bart => ModelType.Bart
  }

  /** The (family, configuration kind) pairs from which a classifier can be built. */
  predicate Compatible(modelType: ModelType, config: ConfigOption) {
    || (modelType == ModelType.Bert && config == ConfigOption.Bert)
    || (modelType == ModelType.DistilBert && config == ConfigOption.DistilBert)
    || (modelType == ModelType.Roberta && config == ConfigOption.Bert)
    || (modelType == ModelType.XLMRoberta && config == ConfigOption.Bert)
    || (modelType == ModelType.Albert && config == ConfigOption.Albert)
    || (modelType == ModelType.Bart && config == ConfigOption.Bart)
  }

  /**
   * Building a classifier from the family its `model_type` reports gives the
   * same classifier back, for every variant except XLMRoberta: that one
   * reports Roberta, and rebuilding from Roberta gives a Roberta classifier.
   */
  lemma NewOfModelType(option: SequenceClassificationOption)
    ensures option != SequenceClassificationOption.XLMRoberta ==>
      exists config :: New(ModelTypeOf(option), config) == Success(option)
    ensures option == SequenceClassificationOption.XLMRoberta ==>
      forall config :: New(ModelTypeOf(option), config) != Success(option)
  {
    match option
    case Bert => assert New(ModelType.Bert, ConfigOption.Bert) == Success(option);
    case DistilBert => assert New(ModelType.DistilBert, ConfigOption.DistilBert) == Success(option);
    case Roberta => assert New(ModelType.Roberta, ConfigOption.Bert) == Success(option);
    case XLMRoberta =>
    case Albert => assert New(ModelType.Albert, ConfigOption.Albert) == Success(option);
    case Bart => assert New(ModelType.Bart, ConfigOption.Bart) == Success(option);
  }
}
