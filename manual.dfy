/** The manual-entry path of the request handler (app.py lines 116-131): one
    form field per schema feature becomes a one-row frame, coerced column by
    column, then scored by `predict_diagnosis`. */
module ManualEntry {
  import opened Wrappers
  import opened Text
  import opened Cells
  import opened Frames
  import opened Artifacts
  import opened Alignment
  import opened Pipeline

  /** The form field that carries a feature: `feature_<name>`. */
  function FieldName(feature: string): string {
    "feature_" + feature
  }

  /** `request.form.get(name)`: the field's text, or `None` when the form has
      no such field. */
  function FormGet(form: map<string, string>, name: string): (r: Option<string>)
    ensures r.Some? <==> name in form
    ensures r.Some? ==> r.value == form[name]
  {
    if name in form then Some(form[name]) else None
  }

  /** The cell lines 118-123 store for one feature: missing when the field is
      absent, empty, or `na` in any case and with any surrounding whitespace;
      otherwise the field's text, unchanged, for coercion later. */
  function FieldValue(form: map<string, string>, feature: string): (c: Cell)
    ensures !c.Num?
    ensures var key := FieldName(feature);
      c.Missing? <==> key !in form || form[key] == "" || IsNaToken(form[key])
    ensures c.Str? ==> c.s == form[FieldName(feature)]
  {
    var key := FieldName(feature);
    if key in form && form[key] != "" && !IsNaToken(form[key]) then Str(form[key]) else Missing
  }

  /** A Python dict: its keys in insertion order and the value of each. */
  datatype Record = Record(keys: seq<string>, values: map<string, Cell>) {
    ghost predicate Valid() {
      NoDuplicates(keys) && forall k :: k in keys <==> k in values
    }

    /** `d[k] = v`: a new key goes to the end of the order. */
    function Put(k: string, v: Cell): (r: Record)
      requires Valid()
      ensures r.Valid()
      ensures r.keys == if k in keys then keys else keys + [k]
      ensures r.values == values[k := v]
    {
      if k in values then Record(keys, values[k := v]) else Record(keys + [k], values[k := v])
    }
  }

  /** The one-row frame the form describes, before coercion: one column per
      feature, in schema order, holding that feature's field value. */
  function FormTable(featureNames: seq<string>, form: map<string, string>): (t: Table)
    requires NoDuplicates(featureNames)
    ensures t.Valid() && t.columns == featureNames
  {
    Table(featureNames,
          seq(|featureNames|, j requires 0 <= j < |featureNames| => [FieldValue(form, featureNames[j])]),
          if featureNames == [] then 0 else 1)
  }

  /** `pd.DataFrame(d)` for a dict whose values are one-element lists: one
      column per key in insertion order, and one row (none when the dict is
      empty). */
  function RecordTable(rec: Record): (t: Table)
    requires rec.Valid()
    ensures t.Valid() && t.columns == rec.keys
  {
    Table(rec.keys, seq(|rec.keys|, j requires 0 <= j < |rec.keys| => [rec.values[rec.keys[j]]]),
          if rec.keys == [] then 0 else 1)
  }

  /** Every column of a frame coerced. */
  function CoercedTable(parse: Parser, t: Table): (r: Table)
    requires t.Valid()
    ensures r.Valid() && r.columns == t.columns && r.nrows == t.nrows
    ensures forall j :: 0 <= j < |t.data| ==> r.data[j] == CoerceAll(parse, t.data[j])
  {
    Table(t.columns, seq(|t.data|, j requires 0 <= j < |t.data| => CoerceAll(parse, t.data[j])), t.nrows)
  }

  /** The frame the manual path hands to `predict_diagnosis`. */
  function ManualInput(parse: Parser, featureNames: seq<string>, form: map<string, string>): (t: Table)
    requires NoDuplicates(featureNames)
    ensures t.Valid() && t.columns == featureNames
    ensures t.nrows == if featureNames == [] then 0 else 1
    ensures forall j :: 0 <= j < |featureNames| ==> t.data[j] == [Coerce(parse, FieldValue(form, featureNames[j]))]
  {
    CoercedTable(parse, FormTable(featureNames, form))
  }

  /** Lines 116-123: the dict built feature by feature, in schema order. */
  method CollectManualData(featureNames: seq<string>, form: map<string, string>) returns (manualData: Record)
    requires NoDuplicates(featureNames)
    ensures manualData.Valid() && manualData.keys == featureNames
    ensures forall f :: f in featureNames ==> manualData.values[f] == FieldValue(form, f)
  {
    manualData := Record([], map[]);
    for i := 0 to |featureNames|
      invariant manualData.Valid()
      invariant manualData.keys == featureNames[..i]
      invariant forall f :: f in featureNames[..i] ==> manualData.values[f] == FieldValue(form, f)
    {
      var feature := featureNames[i];
      assert featureNames[..i + 1] == featureNames[..i] + [feature];
      var value := FormGet(form, FieldName(feature));
      if value.Some? && value.value != "" {
        manualData := manualData.Put(feature, if !IsNaToken(value.value) then Str(value.value) else Missing);
      } else {
        manualData := manualData.Put(feature, Missing);
      }
    }
    assert featureNames[..|featureNames|] == featureNames;
  }

  /** Lines 128-129: each column of the frame replaced by its coercion. */
  method CoerceColumns(parse: Parser, inputDf: Frame)
    requires inputDf.Valid()
    modifies inputDf
    ensures inputDf.Valid()
    ensures inputDf.Value() == CoercedTable(parse, old(inputDf.Value()))
  {
    ghost var t := inputDf.Value();
    for i := 0 to |inputDf.columns|
      invariant inputDf.Valid()
      invariant inputDf.columns == t.columns && inputDf.nrows == t.nrows
      invariant forall k :: 0 <= k < i ==> inputDf.data[k] == CoerceAll(parse, t.data[k])
      invariant forall k :: i <= k < |t.data| ==> inputDf.data[k] == t.data[k]
    {
      var col := inputDf.columns[i];
      IndexOfDistinct(inputDf.columns, i);
      var ok := inputDf.Set(col, CoerceAll(parse, ColumnOf(inputDf.Value(), col)));
    }
  }

  /** The manual path as a whole (lines 116-131). */
  method SubmitManual(ctx: ServingContext, parse: Parser, form: map<string, string>) returns (r: Result<Frame, PipelineError>)
    requires ctx.Valid()
    ensures var expected := Predict(ctx, parse, ManualInput(parse, ctx.featureNames, form));
      && (r.Ok? <==> expected.Ok?)
      && (r.Ok? ==> fresh(r.value) && r.value.Value() == expected.value)
  {
    var manualData := CollectManualData(ctx.featureNames, form);
    assert RecordTable(manualData) == FormTable(ctx.featureNames, form);
    var inputDf := new Frame.Of(RecordTable(manualData));
    CoerceColumns(parse, inputDf);
    r := PredictDiagnosis(ctx, parse, inputDf);
  }

  /** The manual frame: one row (for a non-empty schema), one column per
      feature in schema order; a blank or `na` field is missing, and any other
      field is the number it parses to, or missing when it parses to none. */
  lemma ManualInputCells(parse: Parser, featureNames: seq<string>, form: map<string, string>, j: nat)
    requires NoDuplicates(featureNames) && j < |featureNames|
    ensures var t := ManualInput(parse, featureNames, form);
      var key := FieldName(featureNames[j]);
      && t.Valid() && t.columns == featureNames && t.nrows == 1
      && (key !in form || form[key] == "" || IsNaToken(form[key]) ==> t.data[j][0] == Missing)
      && (key in form && form[key] != "" && !IsNaToken(form[key]) ==>
            t.data[j][0] == (match parse(form[key]) case Some(x) => Num(x) case None => Missing))
  {
  }

  /** The manual frame already has the schema's columns, in order, with
      numbers and missing markers only, so alignment hands it to the imputer
      unchanged. */
  lemma ManualAlignedUnchanged(parse: Parser, featureNames: seq<string>, form: map<string, string>)
    requires NoDuplicates(featureNames)
    ensures var t := ManualInput(parse, featureNames, form);
      Aligned(parse, featureNames, t) == t
  {
    var t := ManualInput(parse, featureNames, form);
    var a := Aligned(parse, featureNames, t);
    if featureNames != [] {
      assert featureNames[0] in featureNames;
      assert AnyPresent(featureNames, t);
    }
    forall j | 0 <= j < |featureNames| ensures a.data[j] == t.data[j] {
      IndexOfDistinct(featureNames, j);
      CoerceAllIdempotent(parse, FormTable(featureNames, form).data[j]);
    }
  }

  /** The manual path never hits the length mismatch: with both artifacts
      loaded it returns the form's row with one probability added. */
  lemma ManualPredictSucceeds(ctx: ServingContext, parse: Parser, form: map<string, string>)
    requires ctx.Valid() && ctx.Ready() && ctx.featureNames != []
    requires ProbabilityColumn !in ctx.featureNames
    ensures var r := Predict(ctx, parse, ManualInput(parse, ctx.featureNames, form));
      && r.Ok?
      && r.value.nrows == 1
      && r.value.columns == ctx.featureNames + [ProbabilityColumn]
  {
    var t := ManualInput(parse, ctx.featureNames, form);
    assert ctx.featureNames[0] in ctx.featureNames;
    assert AnyPresent(ctx.featureNames, t);
    PredictFailsExactly(ctx, parse, t);
  }
}
