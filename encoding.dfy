/**
 * The categorical feature encoders of the titanic module: `encode_sex`,
 * shared by training and serving, and `__encode_pclass`, used only when
 * serving. Both are total: an unrecognised label becomes the missing-value
 * marker (numpy's NaN) instead of an error.
 */
module FeatureEncoder {
  import opened Wrappers

  /** One cell of a data frame: a string, a number, or NaN. */
  datatype Value = Text(s: string) | Number(x: real) | Missing

  /** The spellings `encode_sex` accepts for each sex, English first. */
  const MaleSpellings: seq<string> := ["male", "男性"]
  const FemaleSpellings: seq<string> := ["female", "女性"]

  /** The three passenger-class labels, in the order of their codes 1, 2, 3. */
  const ClassLabels: seq<string> := ["上層クラス（お金持ち）", "中級クラス（一般階級）", "下層クラス（労働階級）"]

  /** The accepted spellings of the sex whose code is `code`. */
  function SexSpellings(code: int): seq<string>
  {
    if code == 1 then MaleSpellings else if code == 0 then FemaleSpellings else []
  }

  /** `encode_sex`: 1 for a male spelling, 0 for a female one, missing otherwise. */
  function EncodeSex(x: string): (r: Option<int>)
    ensures r.Some? <==> x in MaleSpellings + FemaleSpellings
    ensures r.Some? ==> (r.value == 0 || r.value == 1) && x in SexSpellings(r.value)
  {
    if x in MaleSpellings then Some(1)
    else if x in FemaleSpellings then Some(0)
    else None
  }

  /** `__encode_pclass`: the position (from 1) of a class label, missing otherwise. */
  function EncodePclass(x: string): (r: Option<int>)
    ensures r.Some? <==> x in ClassLabels
    ensures r.Some? ==> 1 <= r.value <= 3 && ClassLabels[r.value - 1] == x
  {
    if x == "上層クラス（お金持ち）" then Some(1)
    else if x == "中級クラス（一般階級）" then Some(2)
    else if x == "下層クラス（労働階級）" then Some(3)
    else None
  }

  /** The cell numpy stores for an encoder's result: the code as a float, or NaN. */
  function CellOf(code: Option<int>): (v: Value)
    ensures v.Missing? <==> code.None?
    ensures code.Some? ==> v == Number(code.value as real)
  {
    match code
    case None => Missing
    case Some(c) => Number(c as real)
  }

  /**
   * Storing codes as numbers keeps them apart: distinct codes give distinct
   * cells, and no code gives NaN.
   */
  lemma CellOfInjective(a: Option<int>, b: Option<int>)
    ensures CellOf(a) == CellOf(b) ==> a == b
  {
  }

  /**
   * `encode_sex` applied to one cell of the `Sex` column. A cell that is not a
   * string (NaN, a number) equals none of the accepted spellings.
   */
  function EncodeSexCell(v: Value): (r: Value)
    ensures r.Missing? || r == Number(0.0) || r == Number(1.0)
    ensures !r.Missing? <==> v.Text? && v.s in MaleSpellings + FemaleSpellings
    ensures r == Number(1.0) <==> v.Text? && v.s in MaleSpellings
    ensures r == Number(0.0) <==> v.Text? && v.s in FemaleSpellings
  {
    if v.Text? then CellOf(EncodeSex(v.s)) else Missing
  }

  /** Exactly the two male spellings encode to 1. */
  lemma EncodeSexMale(x: string)
    ensures EncodeSex(x) == Some(1) <==> x == "male" || x == "男性"
  {
  }

  /** Exactly the two female spellings encode to 0. */
  lemma EncodeSexFemale(x: string)
    ensures EncodeSex(x) == Some(0) <==> x == "female" || x == "女性"
  {
  }

  /** Every accepted spelling of a sex encodes back to that sex's code. */
  lemma EncodeSexSpellings(code: int, x: string)
    requires code == 0 || code == 1
    requires x in SexSpellings(code)
    ensures EncodeSex(x) == Some(code)
  {
  }

  /** Each of the three class labels encodes to its own code. */
  lemma EncodePclassLabels(code: int)
    requires 1 <= code <= 3
    ensures EncodePclass(ClassLabels[code - 1]) == Some(code)
  {
  }

  /** Distinct recognised class labels get distinct codes. */
  lemma EncodePclassInjective(x: string, y: string)
    requires EncodePclass(x).Some? && EncodePclass(x) == EncodePclass(y)
    ensures x == y
  {
  }
}
