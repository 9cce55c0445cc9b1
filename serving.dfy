/**
 * The serving side of the titanic module (class `PredictOnAPI`) and the model
 * file it shares with training: `__load_model` trains and saves a model only
 * when the file is absent, and `derive_survival_probability` builds the
 * five-feature vector handed to the model.
 */
module Serving {
  import opened Wrappers
  import opened FeatureEncoder
  import opened Training

  /** The arguments of `derive_survival_probability`. */
  datatype Request = Request(sex: string, pclass: string, age: int, parch: int, sibsp: int)

  /**
   * The feature matrix row of `derive_survival_probability`:
   * `[encoded_sex, encoded_pclass, Age, Parch, SibSp]`. Position j holds the
   * request's value for the training feature column `FeatureColumns()[j]`.
   */
  function FeatureVector(req: Request): (v: seq<Value>)
    ensures |v| == 5
    ensures v[0] == EncodeSexCell(Text(req.sex))
    ensures v[1] == CellOf(EncodePclass(req.pclass))
    ensures v[2] == Number(req.age as real)
    ensures v[3] == Number(req.parch as real)
    ensures v[4] == Number(req.sibsp as real)
  {
    var encodedSex := CellOf(EncodeSex(req.sex));
    var encodedPclass := CellOf(EncodePclass(req.pclass));
    [encodedSex, encodedPclass, Number(req.age as real), Number(req.parch as real), Number(req.sibsp as real)]
  }

  /**
   * A request describes the same passenger as a projected training row when
   * the row's raw `Sex` string is the request's and the row's numeric `Pclass`
   * is the code the request's class label encodes to. Training never encodes
   * `Pclass`, so the second condition is an assumption about the dataset.
   */
  predicate Describes(req: Request, r: Row)
  {
    && r.sex == Text(req.sex)
    && r.pclass == CellOf(EncodePclass(req.pclass))
    && r.age == Number(req.age as real)
    && r.parch == Number(req.parch as real)
    && r.sibsp == Number(req.sibsp as real)
  }

  /**
   * The layout invariant: a request describing a training row is turned into
   * exactly the feature row that row contributed to training, position for
   * position.
   */
  lemma FeatureVectorMatchesTraining(req: Request, r: Row)
    requires Describes(req, r)
    ensures FeatureVector(req) == FeatureRow(EncodeSexRow(r))
  {
  }

  /**
   * Column j of the matrix a dataset trains the model on is the dataset's
   * column `FeatureColumns()[j]`, with only `Sex` re-encoded; that is the
   * column inference puts at position j of its vector.
   */
  lemma TrainedOnRawColumns(df: Frame)
    requires WellFormed(df)
    requires Pipeline(Some(df)).Success?
    ensures var m, cols := Pipeline(Some(df)).value, df.columns;
      && |m.labels| == |df.rows| && |m.features| == |df.rows|
      && "Survived" in cols && "Sex" in cols && "Pclass" in cols
      && "Age" in cols && "Parch" in cols && "SibSp" in cols
      && forall i :: 0 <= i < |df.rows| ==>
        && m.labels[i] == df.rows[i][IndexOf(cols, "Survived")]
        && m.features[i] == [EncodeSexCell(df.rows[i][IndexOf(cols, "Sex")]), df.rows[i][IndexOf(cols, "Pclass")],
                             df.rows[i][IndexOf(cols, "Age")], df.rows[i][IndexOf(cols, "Parch")],
                             df.rows[i][IndexOf(cols, "SibSp")]]
  {
    PreprocessedFromRaw(df);
  }

  /** The call `model.predict_proba(features)` the survival probability comes from. */
  datatype Query = Query(model: TrainedModel, features: seq<Value>)

  /**
   * The files the titanic module reads and writes: the dataset it trains on
   * and the pickled model, created on first use.
   */
  class ModelStore {
    /** `data/train.csv` as `pd.read_csv` parses it; `None` when it is missing or unreadable. */
    var dataset: Option<Frame>
    /** `model/model.pkl`; `None` while the file does not exist. */
    var modelFile: Option<TrainedModel>
    /** How many times `__train_model` has run. */
    ghost var trainingRuns: nat

    /** A parsed dataset is a rectangular frame with distinct column labels. */
    predicate Valid()
      reads this
    {
      dataset.Some? ==> WellFormed(dataset.value)
    }

    /** The files as they are when the process starts. */
    constructor (dataset: Option<Frame>, modelFile: Option<TrainedModel>)
      requires dataset.Some? ==> WellFormed(dataset.value)
      ensures Valid()
      ensures this.dataset == dataset && this.modelFile == modelFile && trainingRuns == 0
    {
      this.dataset := dataset;
      this.modelFile := modelFile;
      trainingRuns := 0;
    }

    /**
     * `generate_model`: read the dataset, preprocess, train and save. If any
     * step raises, nothing is trained or written.
     */
    method GenerateModel() returns (o: Outcome<Error>)
      requires Valid()
      modifies this`modelFile, this`trainingRuns
      ensures Valid()
      ensures Pipeline(dataset).Success? ==>
        o == Pass && modelFile == Some(Pipeline(dataset).value) && trainingRuns == old(trainingRuns) + 1
      ensures Pipeline(dataset).Failure? ==>
        o == Fail(Pipeline(dataset).error) && modelFile == old(modelFile) && trainingRuns == old(trainingRuns)
    {
      if dataset.None? {
        return Fail(DataUnavailable);
      }
      var preprocessed := PreprocessDf(dataset.value);
      if preprocessed.Failure? {
        return Fail(preprocessed.error);
      }
      var model := TrainModel(preprocessed.value);
      trainingRuns := trainingRuns + 1;
      modelFile := Some(model);
      o := Pass;
    }

    /**
     * `__load_model`: train and save first when the model file is absent,
     * then load the file. An existing model is loaded without retraining;
     * training runs exactly when the file was absent and training succeeds.
     */
    method LoadModel() returns (r: Result<TrainedModel, Error>)
      requires Valid()
      modifies this`modelFile, this`trainingRuns
      ensures Valid()
      ensures r.Success? ==> modelFile == Some(r.value)
      ensures old(modelFile).Some? ==>
        r == Success(old(modelFile).value) && modelFile == old(modelFile) && trainingRuns == old(trainingRuns)
      ensures old(modelFile).None? ==>
        r == Pipeline(dataset) && (r.Failure? ==> modelFile == None)
      ensures trainingRuns == old(trainingRuns) + (if old(modelFile).None? && r.Success? then 1 else 0)
    {
      if modelFile.None? {
        var o := GenerateModel();
        if o.Fail? {
          return Failure(o.error);
        }
      }
      r := Success(modelFile.value);
    }

    /**
     * `derive_survival_probability` up to the call of `predict_proba`: load
     * (or first train) the model and pair it with the request's feature vector.
     */
    method DeriveSurvivalProbability(req: Request) returns (r: Result<Query, Error>)
      requires Valid()
      modifies this`modelFile, this`trainingRuns
      ensures Valid()
      ensures r.Success? ==> r.value.features == FeatureVector(req) && modelFile == Some(r.value.model)
      ensures old(modelFile).Some? ==> r == Success(Query(old(modelFile).value, FeatureVector(req)))
      ensures old(modelFile).None? && r.Success? ==> Pipeline(dataset) == Success(r.value.model)
      ensures r.Failure? <==> old(modelFile).None? && Pipeline(dataset).Failure?
      ensures r.Failure? ==> r.error == Pipeline(dataset).error && modelFile == old(modelFile)
      ensures old(modelFile).Some? ==> modelFile == old(modelFile)
      ensures trainingRuns == old(trainingRuns) + (if old(modelFile).None? && r.Success? then 1 else 0)
    {
      var model := LoadModel();
      if model.Failure? {
        return Failure(model.error);
      }
      var features := FeatureVector(req);
      r := Success(Query(model.value, features));
    }
  }
}
