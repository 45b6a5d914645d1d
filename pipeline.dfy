/** `predict_diagnosis` (app.py lines 77-102): the not-ready guard, alignment,
    imputation, scoring and the assembly of the result frame. */
module Pipeline {
  import opened Wrappers
  import opened Cells
  import opened Frames
  import opened Artifacts
  import opened Alignment

  /** The exception line 101 raises when the probability column does not have
      one value per row of the input. This is where the error arises under the
      total-imputer abstraction; a fitted imputer given a frame with no rows
      raises first, at line 96. */
  datatype PipelineError = LengthMismatch

  /** The positive-class probabilities, `predict_proba(imputed)[:, 1]`, for the
      aligned frame: one per aligned row, each in [0, 1]. */
  function Scores(ctx: ServingContext, parse: Parser, raw: Table): (p: seq<real>)
    requires ctx.Valid() && ctx.Ready() && raw.Valid()
    ensures |p| == AlignedRowCount(ctx.featureNames, raw)
    ensures forall i :: 0 <= i < |p| ==> 0.0 <= p[i] <= 1.0
  {
    var processed := Aligned(parse, ctx.featureNames, raw);
    AlignedShape(parse, ctx.featureNames, raw);
    var probabilities := ctx.model.value.predictProba(ctx.imputer.value.transform(processed));
    seq(|probabilities|, i requires 0 <= i < |probabilities| => probabilities[i][1])
  }

  /** The probabilities as a column of cells. Rounding to four decimals is not
      part of this model. */
  function ScoreColumn(p: seq<real>): (col: seq<Cell>)
    ensures |col| == |p| && forall i :: 0 <= i < |p| ==> col[i] == Num(p[i])
  {
    seq(|p|, i requires 0 <= i < |p| => Num(p[i]))
  }

  /** What `predict_diagnosis` returns for the input frame `raw`: an empty
      frame when an artifact is missing, without scoring; otherwise a copy of
      `raw` with the probability column assigned, or the length mismatch
      line 101 raises. */
  function Predict(ctx: ServingContext, parse: Parser, raw: Table): (r: Result<Table, PipelineError>)
    requires ctx.Valid() && raw.Valid()
    ensures !ctx.Ready() ==> r == Ok(EmptyTable)
    ensures r.Ok? ==> r.value.Valid()
  {
    if !ctx.Ready() then Ok(EmptyTable)
    else
      match Assign(raw, ProbabilityColumn, ScoreColumn(Scores(ctx, parse, raw)))
      case Some(t) => Ok(t)
      case None => Err(LengthMismatch)
  }

  /** With both artifacts loaded, the pipeline fails exactly when the input
      has rows but none of the schema's features: the aligned frame then has no
      rows, so neither has the probability column. */
  lemma PredictFailsExactly(ctx: ServingContext, parse: Parser, raw: Table)
    requires ctx.Valid() && ctx.Ready() && raw.Valid()
    ensures Predict(ctx, parse, raw).Err? <==> raw.nrows > 0 && !AnyPresent(ctx.featureNames, raw)
  {
  }

  /** Result assembly keeps the input: as many rows as the input, in the same
      order; when the input has no `diagnosis_probability` column, row `i` is
      input row `i` with its probability appended as the last field. */
  lemma PredictAppendsScores(ctx: ServingContext, parse: Parser, raw: Table)
    requires ctx.Valid() && ctx.Ready() && raw.Valid() && Predict(ctx, parse, raw).Ok?
    requires ProbabilityColumn !in raw.columns
    ensures var out := Predict(ctx, parse, raw).value;
      && out.nrows == raw.nrows
      && out.columns == raw.columns + [ProbabilityColumn]
      && forall i :: 0 <= i < raw.nrows ==>
           && Row(out, i) == Row(raw, i) + [Num(Scores(ctx, parse, raw)[i])]
           && 0.0 <= Scores(ctx, parse, raw)[i] <= 1.0
  {
  }

  /** An input that already has a `diagnosis_probability` column keeps its
      columns and their order: that column is overwritten where it stands, and
      every other column is unchanged. */
  lemma PredictOverwritesScores(ctx: ServingContext, parse: Parser, raw: Table)
    requires ctx.Valid() && ctx.Ready() && raw.Valid() && Predict(ctx, parse, raw).Ok?
    requires ProbabilityColumn in raw.columns
    ensures var out := Predict(ctx, parse, raw).value;
      && out.columns == raw.columns
      && out.nrows == raw.nrows
      && ColumnOf(out, ProbabilityColumn) == ScoreColumn(Scores(ctx, parse, raw))
      && forall j :: 0 <= j < |raw.columns| && raw.columns[j] != ProbabilityColumn ==> out.data[j] == raw.data[j]
  {
  }

  /** `predict_diagnosis` as written: the input frame is only read; a new
      frame is returned, or the error line 101 raises. */
  method PredictDiagnosis(ctx: ServingContext, parse: Parser, dataDf: Frame) returns (r: Result<Frame, PipelineError>)
    requires ctx.Valid() && dataDf.Valid()
    ensures r.Ok? <==> Predict(ctx, parse, dataDf.Value()).Ok?
    ensures r.Ok? ==> fresh(r.value) && r.value.Value() == Predict(ctx, parse, dataDf.Value()).value
    ensures r.Err? ==> r.error == Predict(ctx, parse, dataDf.Value()).error
  {
    if ctx.imputer.None? || ctx.model.None? {
      var empty := new Frame.WithColumns([]);
      return Ok(empty);
    }
    var processed := Align(parse, ctx.featureNames, dataDf);
    var imputedData := ctx.imputer.value.transform(processed.Value());
    var probabilities := ctx.model.value.predictProba(imputedData);
    var diagnosisProbability := seq(|probabilities|, i requires 0 <= i < |probabilities| => probabilities[i][1]);
    var resultsDf := dataDf.Copy();
    var ok := resultsDf.Set(ProbabilityColumn, ScoreColumn(diagnosisProbability));
    if ok {
      r := Ok(resultsDf);
    } else {
      r := Err(LengthMismatch);
    }
  }
}
