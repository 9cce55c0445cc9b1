/**
 * The training side of the titanic module (class `GenerateModel`): project the
 * data frame read from the dataset file to six columns, re-encode its `Sex`
 * column, and split off `Survived` as the label. Only `Sex` is encoded here;
 * `Pclass` reaches the learner exactly as the dataset holds it.
 */
module Training {
  import opened Wrappers
  import opened FeatureEncoder

  /** The exceptions the training pipeline can raise. */
  datatype Error =
    | DataUnavailable                        // the dataset file is missing or cannot be parsed
    | ColumnsMissing(columns: seq<string>)   // `KeyError`: required column labels absent from the frame

  /** A data frame as `pd.read_csv` returns it: column labels and rows of cells. */
  datatype Frame = Frame(columns: seq<string>, rows: seq<seq<Value>>)

  /** Every row has one cell per column, and the column labels are distinct. */
  predicate WellFormed(f: Frame)
  {
    && (forall i :: 0 <= i < |f.rows| ==> |f.rows[i]| == |f.columns|)
    && (forall i, j :: 0 <= i < j < |f.columns| ==> f.columns[i] != f.columns[j])
  }

  /** A row of the projected frame, one field per required column. */
  datatype Row = Row(survived: Value, sex: Value, pclass: Value, age: Value, parch: Value, sibsp: Value)

  /** The columns `__extract_required_columns` keeps, in the order it keeps them. */
  const RequiredColumns: seq<string> := ["Survived", "Sex", "Pclass", "Age", "Parch", "SibSp"]

  /** The column the model learns to predict. */
  const LabelColumn: string := "Survived"

  /** The cells of a projected row, in the order of `RequiredColumns`. */
  function Cells(r: Row): seq<Value>
  {
    [r.survived, r.sex, r.pclass, r.age, r.parch, r.sibsp]
  }

  /** The position of the column labelled `name`. */
  function IndexOf(names: seq<string>, name: string): (k: nat)
    requires name in names
    ensures k < |names| && names[k] == name
    ensures forall j :: 0 <= j < k ==> names[j] != name
  {
    if names[0] == name then 0 else 1 + IndexOf(names[1..], name)
  }

  /** The labels of `wanted` that `have` lacks, in the order of `wanted`. */
  function Absent(wanted: seq<string>, have: seq<string>): (r: seq<string>)
    ensures forall c :: c in r <==> c in wanted && c !in have
    ensures |r| <= |wanted|
  {
    if wanted == [] then []
    else (if wanted[0] in have then [] else [wanted[0]]) + Absent(wanted[1..], have)
  }

  /** One row of `df[required_columns]`. */
  function Project(columns: seq<string>, cells: seq<Value>): Row
    requires |cells| == |columns|
    requires forall c :: c in RequiredColumns ==> c in columns
  {
    Row(cells[IndexOf(columns, "Survived")], cells[IndexOf(columns, "Sex")],
        cells[IndexOf(columns, "Pclass")], cells[IndexOf(columns, "Age")],
        cells[IndexOf(columns, "Parch")], cells[IndexOf(columns, "SibSp")])
  }

  /**
   * `__extract_required_columns`: `df[required_columns]`. Every row keeps, at
   * position j, the cell of the column labelled `RequiredColumns[j]`; a frame
   * lacking any of them raises `KeyError` naming the absent labels.
   */
  function Extract(df: Frame): (r: Result<seq<Row>, Error>)
    requires WellFormed(df)
    ensures r.Failure? <==> exists c :: c in RequiredColumns && c !in df.columns
    ensures r.Failure? ==>
      && r.error.ColumnsMissing? && r.error.columns != []
      && forall c :: c in r.error.columns <==> c in RequiredColumns && c !in df.columns
    ensures r.Success? ==> |r.value| == |df.rows|
    ensures r.Success? ==> forall i, j :: 0 <= i < |df.rows| && 0 <= j < |RequiredColumns| ==>
      RequiredColumns[j] in df.columns
      && Cells(r.value[i])[j] == df.rows[i][IndexOf(df.columns, RequiredColumns[j])]
  {
    var missing := Absent(RequiredColumns, df.columns);
    if missing != [] then
      assert missing[0] in missing;
      Failure(ColumnsMissing(missing))
    else
      assert forall c :: c in RequiredColumns ==> c in df.columns;
      var rows := seq(|df.rows|, i requires 0 <= i < |df.rows| => Project(df.columns, df.rows[i]));
      ProjectAll(df, rows);
      Success(rows)
  }

  /** Cell j of a projected row is the cell of the column labelled `RequiredColumns[j]`. */
  lemma ProjectAt(columns: seq<string>, cells: seq<Value>, j: nat)
    requires |cells| == |columns|
    requires forall c :: c in RequiredColumns ==> c in columns
    requires j < |RequiredColumns|
    ensures RequiredColumns[j] in columns
    ensures Cells(Project(columns, cells))[j] == cells[IndexOf(columns, RequiredColumns[j])]
  {
  }

  /** The layout of a whole projected frame, for `Extract`. */
  lemma ProjectAll(df: Frame, rows: seq<Row>)
    requires WellFormed(df)
    requires forall c :: c in RequiredColumns ==> c in df.columns
    requires |rows| == |df.rows|
    requires forall i :: 0 <= i < |df.rows| ==> rows[i] == Project(df.columns, df.rows[i])
    ensures forall i, j :: 0 <= i < |df.rows| && 0 <= j < |RequiredColumns| ==>
      RequiredColumns[j] in df.columns
      && Cells(rows[i])[j] == df.rows[i][IndexOf(df.columns, RequiredColumns[j])]
  {
    forall i, j | 0 <= i < |df.rows| && 0 <= j < |RequiredColumns|
      ensures RequiredColumns[j] in df.columns
        && Cells(rows[i])[j] == df.rows[i][IndexOf(df.columns, RequiredColumns[j])]
    {
      ProjectAt(df.columns, df.rows[i], j);
    }
  }

  /** A row after `encode_sex` has rewritten its `Sex` cell. */
  function EncodeSexRow(r: Row): Row
  {
    r.(sex := EncodeSexCell(r.sex))
  }

  /** `__preprocess_df` as a value: the projected frame with its `Sex` column encoded. */
  function Preprocessed(df: Frame): (r: Result<seq<Row>, Error>)
    requires WellFormed(df)
    ensures r.Failure? <==> exists c :: c in RequiredColumns && c !in df.columns
    ensures r.Failure? ==> r.error == Extract(df).error
    ensures r.Success? ==> |r.value| == |df.rows|
  {
    match Extract(df)
    case Failure(e) => Failure(e)
    case Success(t) => Success(seq(|t|, i requires 0 <= i < |t| => EncodeSexRow(t[i])))
  }

  /**
   * `__preprocess_df`: project to the required columns, then overwrite the
   * `Sex` column of that fresh copy in place, row by row.
   */
  method PreprocessDf(df: Frame) returns (r: Result<seq<Row>, Error>)
    requires WellFormed(df)
    ensures r == Preprocessed(df)
  {
    var extracted := Extract(df);
    if extracted.Failure? {
      return Failure(extracted.error);
    }
    var t := extracted.value;
    var a := new Row[|t|](i requires 0 <= i < |t| => t[i]);
    var i := 0;
    while i < a.Length
      invariant 0 <= i <= a.Length
      invariant forall k :: 0 <= k < i ==> a[k] == EncodeSexRow(t[k])
      invariant forall k :: i <= k < a.Length ==> a[k] == t[k]
    {
      a[i] := a[i].(sex := EncodeSexCell(a[i].sex));
      i := i + 1;
    }
    assert a[..] == seq(|t|, i requires 0 <= i < |t| => EncodeSexRow(t[i]));
    r := Success(a[..]);
  }

  /**
   * Preprocessing keeps every cell of the raw frame's `Survived`, `Pclass`,
   * `Age`, `Parch` and `SibSp` columns; each `Sex` cell becomes `encode_sex`
   * of the raw one.
   */
  lemma PreprocessedFromRaw(df: Frame)
    requires WellFormed(df)
    requires Preprocessed(df).Success?
    ensures var t, cols := Preprocessed(df).value, df.columns;
      && "Survived" in cols && "Sex" in cols && "Pclass" in cols
      && "Age" in cols && "Parch" in cols && "SibSp" in cols
      && forall i :: 0 <= i < |df.rows| ==>
        && t[i].survived == df.rows[i][IndexOf(cols, "Survived")]
        && t[i].sex == EncodeSexCell(df.rows[i][IndexOf(cols, "Sex")])
        && t[i].pclass == df.rows[i][IndexOf(cols, "Pclass")]
        && t[i].age == df.rows[i][IndexOf(cols, "Age")]
        && t[i].parch == df.rows[i][IndexOf(cols, "Parch")]
        && t[i].sibsp == df.rows[i][IndexOf(cols, "SibSp")]
  {
    forall i | 0 <= i < |df.rows|
      ensures PreprocessedRow(df, i)
    {
      PreprocessedRowFromRaw(df, i);
    }
  }

  /** The per-row clauses of `PreprocessedFromRaw`. */
  predicate PreprocessedRow(df: Frame, i: int)
    requires WellFormed(df)
    requires Preprocessed(df).Success?
    requires "Survived" in df.columns && "Sex" in df.columns && "Pclass" in df.columns
    requires "Age" in df.columns && "Parch" in df.columns && "SibSp" in df.columns
    requires 0 <= i < |df.rows|
  {
    var t, raw, cols := Preprocessed(df).value, df.rows[i], df.columns;
    && t[i].survived == raw[IndexOf(cols, "Survived")]
    && t[i].sex == EncodeSexCell(raw[IndexOf(cols, "Sex")])
    && t[i].pclass == raw[IndexOf(cols, "Pclass")]
    && t[i].age == raw[IndexOf(cols, "Age")]
    && t[i].parch == raw[IndexOf(cols, "Parch")]
    && t[i].sibsp == raw[IndexOf(cols, "SibSp")]
  }

  /** Row i of the preprocessed frame, cell by cell, for `PreprocessedFromRaw`. */
  lemma PreprocessedRowFromRaw(df: Frame, i: int)
    requires WellFormed(df)
    requires Preprocessed(df).Success?
    requires 0 <= i < |df.rows|
    ensures "Survived" in df.columns && "Sex" in df.columns && "Pclass" in df.columns
    ensures "Age" in df.columns && "Parch" in df.columns && "SibSp" in df.columns
    ensures PreprocessedRow(df, i)
  {
  }

  /**
   * The cells of `cells` whose column label (the matching entry of `names`)
   * is not `dropped`, in their order: the row `df.drop([dropped], axis=1)`
   * leaves when `dropped` is a label of the frame (see `Drop`).
   */
  function DropColumn<T>(names: seq<string>, cells: seq<T>, dropped: string): (r: seq<T>)
    requires |names| == |cells|
    ensures |r| == |cells| - multiset(names)[dropped]
    ensures forall x :: x in r ==> x in cells
  {
    if names == [] then []
    else
      assert names == [names[0]] + names[1..];
      var rest := DropColumn(names[1..], cells[1..], dropped);
      if names[0] == dropped then rest else [cells[0]] + rest
  }

  /**
   * `df.drop([dropped], axis=1)` on one row: `KeyError` when `dropped` is not
   * a column label, otherwise the row without that column.
   */
  function Drop<T>(names: seq<string>, cells: seq<T>, dropped: string): (r: Result<seq<T>, Error>)
    requires |names| == |cells|
    ensures r.Failure? <==> dropped !in names
    ensures r.Failure? ==> r.error == ColumnsMissing([dropped])
    ensures r.Success? ==> |r.value| == |cells| - multiset(names)[dropped] < |cells|
  {
    if dropped !in names then Failure(ColumnsMissing([dropped]))
    else Success(DropColumn(names, cells, dropped))
  }

  /** Dropping a label that occurs once, at `k`, removes exactly position `k`. */
  lemma {:induction false} DropColumnAt<T>(names: seq<string>, cells: seq<T>, dropped: string, k: nat)
    requires |names| == |cells| && k < |names| && names[k] == dropped
    requires forall j :: 0 <= j < |names| && j != k ==> names[j] != dropped
    ensures DropColumn(names, cells, dropped) == cells[..k] + cells[k + 1..]
  {
    if k == 0 {
      DropColumnNone(names[1..], cells[1..], dropped);
    } else {
      DropColumnAt(names[1..], cells[1..], dropped, k - 1);
      assert cells[1..][..k - 1] == cells[1..k];
      assert cells == [cells[0]] + cells[1..k] + cells[k..];
    }
  }

  /** Dropping a label that does not occur keeps every cell. */
  lemma {:induction false} DropColumnNone<T>(names: seq<string>, cells: seq<T>, dropped: string)
    requires |names| == |cells|
    requires forall j :: 0 <= j < |names| ==> names[j] != dropped
    ensures DropColumn(names, cells, dropped) == cells
  {
    if names != [] {
      DropColumnNone(names[1..], cells[1..], dropped);
    }
  }

  /** The feature columns: the required columns after `Survived` is dropped. */
  function FeatureColumns(): (c: seq<string>)
    ensures c == ["Sex", "Pclass", "Age", "Parch", "SibSp"]
  {
    DropColumnAt(RequiredColumns, RequiredColumns, LabelColumn, 0);
    DropColumn(RequiredColumns, RequiredColumns, LabelColumn)
  }

  /** At line 49 the drop cannot raise: `Survived` is a label of the projected frame. */
  lemma DropLabelSucceeds(r: Row)
    ensures Drop(RequiredColumns, Cells(r), LabelColumn) == Success(FeatureRow(r))
  {
    assert RequiredColumns[0] == LabelColumn;
  }

  /** One row of `X`: a projected row with its `Survived` cell dropped. */
  function FeatureRow(r: Row): (x: seq<Value>)
    ensures x == [r.sex, r.pclass, r.age, r.parch, r.sibsp]
  {
    DropColumnAt(RequiredColumns, Cells(r), LabelColumn, 0);
    DropColumn(RequiredColumns, Cells(r), LabelColumn)
  }

  /**
   * What `LGBMClassifier().fit` is given. The learner itself is not modelled:
   * a trained model is identified with the label column and feature matrix it
   * was fitted on.
   */
  datatype TrainedModel = Fitted(labels: seq<Value>, features: seq<seq<Value>>)

  /**
   * `__train_model`: `y` is the `Survived` column and `X` the remaining five
   * columns, in order, so column j of `X` is the column labelled
   * `FeatureColumns()[j]`.
   */
  function TrainModel(t: seq<Row>): (m: TrainedModel)
    ensures |m.labels| == |t| && |m.features| == |t|
    ensures forall i :: 0 <= i < |t| ==> m.labels[i] == t[i].survived
    ensures forall i :: 0 <= i < |t| ==>
      m.features[i] == [t[i].sex, t[i].pclass, t[i].age, t[i].parch, t[i].sibsp]
  {
    Fitted(seq(|t|, i requires 0 <= i < |t| => t[i].survived),
           seq(|t|, i requires 0 <= i < |t| => FeatureRow(t[i])))
  }

  /** `generate_model` before the save: read, preprocess, train. */
  function Pipeline(dataset: Option<Frame>): (r: Result<TrainedModel, Error>)
    requires dataset.Some? ==> WellFormed(dataset.value)
    ensures dataset.None? ==> r == Failure(DataUnavailable)
    ensures dataset.Some? ==>
      (r.Failure? <==> exists c :: c in RequiredColumns && c !in dataset.value.columns)
    ensures r.Success? ==>
      |r.value.labels| == |dataset.value.rows| && |r.value.features| == |dataset.value.rows|
  {
    match dataset
    case None => Failure(DataUnavailable)
    case Some(df) =>
      match Preprocessed(df)
      case Failure(e) => Failure(e)
      case Success(t) => Success(TrainModel(t))
  }
}
