# Titanic survival model: feature encoding and table shaping

This project models the logic of `app/python/machine_learning/titanic.py` in
Dafny: the two categorical encoders, the shaping of the training table
(column projection, `Sex` re-encoding, the label/feature split), the
feature vector built for one prediction request, and the "train and save the
model if its file is absent, then load it" behaviour of the model file.

Layout:

- `wrappers.dfy` — `Option`, `Result` and `Outcome`.
- `encoding.dfy` (module `FeatureEncoder`) — a data-frame cell (`Value`:
  text, number, or NaN as `Missing`), `encode_sex` and `__encode_pclass`
  (results `Option<int>`, `None` for NaN), and `encode_sex` lifted to a cell.
- `training.dfy` (module `Training`) — the frame read from the dataset, the
  six-column projection, `__preprocess_df` (a method that rewrites the `Sex`
  column of a fresh copy in place, as line 40 does), label-based column
  dropping, and `__train_model`'s split into label column and feature matrix.
- `serving.dfy` (module `Serving`) — the request feature vector, the lemmas
  that it has the training feature layout, and class `ModelStore`, whose
  fields are the dataset file, the model file and a ghost count of training
  runs, with `generate_model`, `__load_model` and
  `derive_survival_probability` as methods.

The asymmetry of the source is kept: training re-encodes only `Sex`; the
`Pclass` column reaches the learner as the dataset holds it; serving encodes
both. `Serving.FeatureVectorMatchesTraining` therefore needs the assumption
that a training row's raw `Pclass` equals the code of the request's class
label.

A trained model is identified with what `LGBMClassifier().fit` was given
(`Training.TrainedModel`: the label column and the feature matrix). The
learner, `predict_proba` and rounding are outside the model, so a
"prediction" is the pair of model and feature vector that `predict_proba`
receives (`Serving.Query`).

Three behaviours of the code are easy to misread. The model follows the code in each.
- `encode_sex` is not idempotent: a number cell, such as an already encoded
  one, encodes to NaN (`FeatureEncoder.EncodeSexCell`).
- A model file that exists is loaded and never retrained, even if it cannot
  be unpickled: the only test is for existence (titanic.py:89-94).
- `__encode_pclass` is used only when serving (titanic.py:126). Training
  never encodes the class column.

## Model

| member | source | states |
|---|---|---|
| `FeatureEncoder.EncodeSex` | app/python/machine_learning/titanic.py:29-35 | total; a code is returned exactly for the four accepted spellings, it is 0 or 1, and the input is a spelling of the sex with that code |
| `FeatureEncoder.EncodeSexMale` | app/python/machine_learning/titanic.py:30-31 | the result is 1 if and only if the input is `male` or `男性` |
| `FeatureEncoder.EncodeSexFemale` | app/python/machine_learning/titanic.py:32-33 | the result is 0 if and only if the input is `female` or `女性` |
| `FeatureEncoder.EncodeSexSpellings` | app/python/machine_learning/titanic.py:29-35 | every accepted spelling of a sex, in either language, encodes back to that sex's code |
| `FeatureEncoder.EncodePclass` | app/python/machine_learning/titanic.py:99-107 | total; a code is returned exactly for the three class labels, it lies in 1..3, and it is the label's position in the label list |
| `FeatureEncoder.EncodePclassLabels` | app/python/machine_learning/titanic.py:100-105 | the upper, middle and lower class labels encode to 1, 2 and 3 |
| `FeatureEncoder.EncodePclassInjective` | app/python/machine_learning/titanic.py:99-107 | two recognised labels with the same code are the same label |
| `FeatureEncoder.CellOfInjective` | app/python/machine_learning/titanic.py:128-130 | storing encoder results in the numeric array keeps them apart: distinct codes give distinct cells and no code gives NaN |
| `FeatureEncoder.EncodeSexCell` | app/python/machine_learning/titanic.py:40 | applying `encode_sex` to any cell yields NaN, 0 or 1; it is 1 exactly for a male spelling, 0 exactly for a female spelling, and NaN for every other cell, numbers and NaN included |
| `Training.Extract` | app/python/machine_learning/titanic.py:24-26 | fails with `KeyError` exactly when a required column is absent, naming precisely the absent ones; otherwise keeps every row, and position j of each row is the cell of the column labelled `RequiredColumns[j]` (Survived, Sex, Pclass, Age, Parch, SibSp) |
| `Training.ProjectAt` | app/python/machine_learning/titanic.py:25-26 | cell j of one projected row is taken from the column labelled `RequiredColumns[j]` |
| `Training.Preprocessed` | app/python/machine_learning/titanic.py:38-41 | preprocessing fails exactly when a required column is absent, with projection's error, and otherwise keeps the row count |
| `Training.PreprocessDf` | app/python/machine_learning/titanic.py:38-41 | the in-place loop over the copy's `Sex` column yields the projected table with each row's `Sex` replaced by `encode_sex` of it |
| `Training.PreprocessedFromRaw` | app/python/machine_learning/titanic.py:38-41 | for every row of the raw frame, the preprocessed row's `Sex` is `encode_sex` of the raw `Sex` cell and `Survived`, `Pclass`, `Age`, `Parch`, `SibSp` are the raw cells unchanged |
| `Training.DropColumn` | app/python/machine_learning/titanic.py:49 | dropping a label removes one cell per occurrence of the label and keeps only cells of the row |
| `Training.Drop` | app/python/machine_learning/titanic.py:49 | `df.drop` raises `KeyError` naming the label exactly when it is not a column label; otherwise it removes at least one cell, one per occurrence of the label |
| `Training.DropLabelSucceeds` | app/python/machine_learning/titanic.py:48-49 | dropping `Survived` from a projected row cannot raise and yields the feature row |
| `Training.DropColumnAt` | app/python/machine_learning/titanic.py:49 | dropping a label that occurs once removes exactly its position and keeps the other cells in order |
| `Training.FeatureColumns` | app/python/machine_learning/titanic.py:49 | the required columns without `Survived` are Sex, Pclass, Age, Parch, SibSp, in that order |
| `Training.FeatureRow` | app/python/machine_learning/titanic.py:49 | a row of `X` is the row's Sex, Pclass, Age, Parch, SibSp cells, in that order |
| `Training.TrainModel` | app/python/machine_learning/titanic.py:48-52 | the learner gets one label and one feature row per table row; the label is `Survived` and the feature row is the five remaining columns in order |
| `Training.Pipeline` | app/python/machine_learning/titanic.py:70-72 | reading, preprocessing and training fail with the dataset unavailable, or exactly when a required column is absent; otherwise the model is fitted on one label and one feature row per dataset row |
| `Serving.FeatureVector` | app/python/machine_learning/titanic.py:125-130 | the vector has five entries: Sex encoded as training encodes it, the encoded class, then Age, Parch, SibSp as numbers |
| `Serving.FeatureVectorMatchesTraining` | app/python/machine_learning/titanic.py:125-130 | a request describing a training row yields exactly the feature row that row contributed to training, position for position |
| `Serving.TrainedOnRawColumns` | app/python/machine_learning/titanic.py:70-72 | the model trained from a dataset was fitted on each raw row's `Survived` cell as label and its Sex (encoded), Pclass, Age, Parch, SibSp cells as features |
| `Serving.ModelStore.GenerateModel` | app/python/machine_learning/titanic.py:66-73 | on success the model file holds the model trained from the dataset and one training run is added; on failure (dataset unavailable, column missing) nothing is trained or written |
| `Serving.ModelStore.LoadModel` | app/python/machine_learning/titanic.py:82-96 | an existing model file is returned unchanged without training; an absent one is trained from the dataset and saved first; afterwards a returned model is the one in the file, and training ran once exactly when the file was absent and training succeeded |
| `Serving.ModelStore.DeriveSurvivalProbability` | app/python/machine_learning/titanic.py:109-132 | the features are the request's feature vector; the model is the existing file's model, unchanged and without training, or else the one trained from the dataset and now saved; it fails exactly when the model file was absent and training failed |

## Left out

- `LGBMClassifier().fit` and `predict_proba` (titanic.py:51-52, 132): foreign floating-point numerics; a trained model is represented by the data it was fitted on, and failures the learner itself raises (such as an empty feature matrix) are not modelled.
- `round(survival_probability, 3)` (titanic.py:134): floating-point rounding.
- `pd.read_csv` and the paths built from `base_dir` (titanic.py:13, 20-21, 61, 88): file I/O. The dataset file is a field holding the parsed frame, or `None` when it is missing or unreadable; CSV parsing and pandas' type inference are not modelled.
- `pickle.dump` and `pickle.load` (titanic.py:62-63, 93-94): opaque serialisation. The model file holds the model value itself; a corrupt file is not modelled.
- The unsynchronised check-then-create in `__load_model`: only sequential behaviour is modelled.
- `warnings.simplefilter` and the `print` diagnostic (titanic.py:8, 90): no semantic effect.
- `app/python/main.py`: HTTP routing, CORS and request schemas. The request schema appears only as `Serving.Request`.
- Numeric cells are real numbers: float64 precision and the integer/float distinction of pandas columns are not modelled.
- `Training.DropColumn`: its own contract gives only the length and that every result cell comes from the row. Which cells survive, and in what order, is proved only for a label that occurs once (`Training.DropColumnAt`) or not at all (`Training.DropColumnNone`). Column labels are distinct, so no other case arises. The `KeyError` for an absent label is modelled by `Training.Drop`, not by `DropColumn`.
- `Training.TrainModel`: states the layout of the fitted data, not any property of the classifier learned from it.
