/** The encoded data set the decision tree is trained on: one column of
    category codes per attribute, and the per-column layout that turned raw
    values into codes. */
module Id3Data {
  import opened Base

  /** The binning of a numeric column: the column's minimum and maximum and the
      number of buckets. */
  datatype NumericType = NumericType(min: F32, max: F32, buckets: u32)

  /** The code table of a nominal column. */
  datatype NominalType = NominalType(ids: map<string, u8>)

  datatype DataType = Numeric(numeric: NumericType) | Nominal(nominal: NominalType)

  /** `NumericType::convert`. The float part, `(normalize(min, max, value) * buckets)`
      cast to `i64`, is the parameter `scaled`: the model does not compute with
      floats, and since the cast saturates every integer can arrive here. The
      code is then clamped: values at or above `buckets` go to the top bucket,
      negative values to bucket 0. With `buckets == 0` the subtraction
      `buckets - 1` underflows, which the model reports as `None`. */
  function Convert(layout: NumericType, scaled: int): (r: Option<u32>)
    ensures r.None? <==> layout.buckets == 0 && scaled >= 0
    ensures r.Some? && layout.buckets > 0 ==> r.value < layout.buckets
    ensures r.Some? && 0 <= scaled < layout.buckets ==> r.value == scaled
    ensures r.Some? && scaled >= layout.buckets ==> r.value == layout.buckets - 1
    ensures scaled < 0 ==> r == Some(0)
  {
    if scaled >= layout.buckets as int then
      if layout.buckets == 0 then None else Some(layout.buckets - 1)
    else if scaled < 0 then
      Some(0)
    else
      Some(scaled)
  }

  /** `Convert` never decreases as the scaled value grows: the buckets keep the
      order of the values they hold. */
  lemma ConvertMonotone(layout: NumericType, a: int, b: int)
    requires layout.buckets > 0 && a <= b
    ensures Convert(layout, a).Some? && Convert(layout, b).Some?
    ensures Convert(layout, a).value <= Convert(layout, b).value
  {
  }

  /** The encoded columns. `data[a][i]` is the code of attribute `a` for
      instance `i`. */
  datatype ProcessedData = ProcessedData(layout: seq<DataType>, data: seq<seq<u32>>)
  {
    /** Every column has the length of the first one. */
    ghost predicate Rectangular() {
      forall a :: 0 <= a < |data| ==> |data[a]| == |data[0]|
    }

    /** `data_len`: the length of the first column; it panics (here `None`) when
        there are no columns. */
    function DataLen(): (r: Option<nat>)
      ensures r.None? <==> |data| == 0
      ensures r.Some? ==> r.value == |data[0]|
    {
      if |data| == 0 then None else Some(|data[0]|)
    }

    /** `attribute_len`: the number of columns. */
    function AttributeLen(): nat {
      |data|
    }

    /** `get_value`: the code of attribute `attribute` for instance `index`, or
        the error the source returns when either index is out of bounds. */
    function GetValue(attribute: nat, index: nat): (r: Result<u32, string>)
      ensures r.Ok? <==> attribute < |data| && index < |data[attribute]|
      ensures r.Ok? ==> r.value == data[attribute][index]
      ensures attribute >= |data| ==> r == Err("Attribute out of bounds")
      ensures attribute < |data| && index >= |data[attribute]| ==> r == Err("Index out of bounds")
    {
      if attribute >= |data| then Err("Attribute out of bounds")
      else if index >= |data[attribute]| then Err("Index out of bounds")
      else Ok(data[attribute][index])
    }
  }

  /** In a rectangular data set every in-shape lookup succeeds, so the
      `unwrap` calls of the training code never fail. */
  lemma GetValueInShape(d: ProcessedData, attribute: nat, index: nat)
    requires d.Rectangular() && attribute < |d.data| && index < |d.data[0]|
    ensures d.GetValue(attribute, index) == Ok(d.data[attribute][index])
  {
  }
}
