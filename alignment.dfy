/** Schema alignment in `predict_diagnosis` (app.py lines 84-94): a frame
    whose columns are exactly the schema, each present column coerced to
    numbers, each absent column all-missing, every other raw column dropped. */
module Alignment {
  import opened Wrappers
  import opened Cells
  import opened Frames

  /** Some schema feature is a column of the raw frame. */
  predicate AnyPresent(featureNames: seq<string>, raw: Table) {
    exists f :: f in featureNames && f in raw.columns
  }

  /** The row count of the aligned frame. It starts with an empty index and
      takes the raw frame's index from the first present column it is given;
      when no schema column is present every assignment is the scalar `nan`
      and it keeps zero rows. */
  function AlignedRowCount(featureNames: seq<string>, raw: Table): nat {
    if AnyPresent(featureNames, raw) then raw.nrows else 0
  }

  /** The aligned column for feature `f` in a frame of `n` rows. */
  function AlignedColumn(parse: Parser, raw: Table, f: string, n: nat): (col: seq<Cell>)
    requires raw.Valid()
  {
    if f in raw.columns then CoerceAll(parse, ColumnOf(raw, f)) else Repeat(Missing, n)
  }

  /** The frame lines 84-94 build. */
  function Aligned(parse: Parser, featureNames: seq<string>, raw: Table): (t: Table)
    requires raw.Valid()
    ensures t.columns == featureNames && |t.data| == |featureNames|
    ensures t.nrows == raw.nrows || t.nrows == 0
  {
    var n := AlignedRowCount(featureNames, raw);
    Table(featureNames, seq(|featureNames|, j requires 0 <= j < |featureNames| => AlignedColumn(parse, raw, featureNames[j], n)), n)
  }

  /** Shape and order: the aligned frame is a well-formed frame whose columns
      are the schema, in schema order, with one coerced column per feature. */
  lemma AlignedShape(parse: Parser, featureNames: seq<string>, raw: Table)
    requires raw.Valid() && NoDuplicates(featureNames)
    ensures var t := Aligned(parse, featureNames, raw);
      && t.Valid()
      && t.columns == featureNames
      && |t.data| == |featureNames|
      && (forall j, i :: 0 <= j < |t.data| && 0 <= i < t.nrows ==> IsNumeric(t.data[j][i]))
  {
  }

  /** Row count: the aligned frame has the raw frame's rows exactly when some
      schema feature is present (or there are no rows), and none otherwise. */
  lemma AlignedRows(parse: Parser, featureNames: seq<string>, raw: Table)
    requires raw.Valid()
    ensures Aligned(parse, featureNames, raw).nrows == raw.nrows <==> AnyPresent(featureNames, raw) || raw.nrows == 0
    ensures !AnyPresent(featureNames, raw) ==> Aligned(parse, featureNames, raw).nrows == 0
  {
  }

  /** A schema feature absent from the raw frame gives a column in which every
      cell is missing. */
  lemma AbsentFeatureAllMissing(parse: Parser, featureNames: seq<string>, raw: Table, j: nat)
    requires raw.Valid() && j < |featureNames| && featureNames[j] !in raw.columns
    ensures var t := Aligned(parse, featureNames, raw);
      forall i :: 0 <= i < t.nrows ==> t.data[j][i] == Missing
  {
  }

  /** A schema feature present in the raw frame gives that column coerced: a
      numeric cell keeps its value and text that is not a number becomes
      missing, row for row. */
  lemma PresentFeatureCoerced(parse: Parser, featureNames: seq<string>, raw: Table, j: nat)
    requires raw.Valid() && j < |featureNames| && featureNames[j] in raw.columns
    ensures var t := Aligned(parse, featureNames, raw);
      && t.nrows == raw.nrows
      && forall i :: 0 <= i < raw.nrows ==> t.data[j][i] == Coerce(parse, ColumnOf(raw, featureNames[j])[i])
  {
  }

  /** Only schema features reach the aligned frame: a raw column whose name is
      not in the schema never appears in it. */
  lemma ExtraColumnsDropped(parse: Parser, featureNames: seq<string>, raw: Table, name: string)
    requires raw.Valid() && name in raw.columns && name !in featureNames
    ensures name !in Aligned(parse, featureNames, raw).columns
  {
  }

  /** Two raw frames holding the same named columns, in whatever order, align
      to the same frame: alignment depends on names, not positions. */
  lemma AlignedIgnoresRawOrder(parse: Parser, featureNames: seq<string>, a: Table, b: Table)
    requires a.Valid() && b.Valid() && a.nrows == b.nrows
    requires forall f :: f in a.columns <==> f in b.columns
    requires forall f :: f in a.columns ==> ColumnOf(a, f) == ColumnOf(b, f)
    ensures Aligned(parse, featureNames, a) == Aligned(parse, featureNames, b)
  {
  }

  /** Round trip: when every schema feature is present with numbers only, row
      `i` of the aligned frame is row `i`'s values rearranged into schema order,
      with no missing marker added. */
  lemma AlignedRoundTrip(parse: Parser, featureNames: seq<string>, raw: Table, i: nat)
    requires raw.Valid() && NoDuplicates(featureNames) && i < raw.nrows && featureNames != []
    requires forall f :: f in featureNames ==> f in raw.columns && AllNumeric(ColumnOf(raw, f))
    ensures var t := Aligned(parse, featureNames, raw);
      t.nrows == raw.nrows &&
      Row(t, i) == seq(|featureNames|, j requires 0 <= j < |featureNames| => ColumnOf(raw, featureNames[j])[i])
  {
    assert featureNames[0] in featureNames;
    AlignedShape(parse, featureNames, raw);
    var t := Aligned(parse, featureNames, raw);
    forall j | 0 <= j < |featureNames|
      ensures Row(t, i)[j] == ColumnOf(raw, featureNames[j])[i]
    {
      assert featureNames[j] in featureNames;
      CoerceAllKeepsNumeric(parse, ColumnOf(raw, featureNames[j]));
    }
  }

  /** The frame after the loop of lines 85-90 has handled the first `i`
      features: those columns aligned, the rest still empty, that is missing
      in every row. */
  ghost function PartiallyAligned(parse: Parser, featureNames: seq<string>, raw: Table, i: nat): (t: Table)
    requires raw.Valid() && i <= |featureNames|
  {
    var n := AlignedRowCount(featureNames[..i], raw);
    Table(featureNames,
          seq(|featureNames|, k requires 0 <= k < |featureNames| =>
            if k < i then AlignedColumn(parse, raw, featureNames[k], n) else Repeat(Missing, n)),
          n)
  }

  /** The row count after feature `i` is handled: the raw frame's once a
      present feature has been seen, zero before. */
  lemma AlignedRowCountStep(featureNames: seq<string>, raw: Table, i: nat)
    requires i < |featureNames|
    ensures AlignedRowCount(featureNames[..i + 1], raw) ==
      if featureNames[i] in raw.columns then raw.nrows else AlignedRowCount(featureNames[..i], raw)
  {
    assert featureNames[..i + 1] == featureNames[..i] + [featureNames[i]];
    assert AnyPresent(featureNames[..i + 1], raw) <==> AnyPresent(featureNames[..i], raw) || featureNames[i] in raw.columns by {
      forall f | f in featureNames[..i + 1] ensures f in featureNames[..i] || f == featureNames[i] {
      }
    }
  }

  /** Every partial frame is a well-formed frame over the schema. */
  lemma PartiallyAlignedValid(parse: Parser, featureNames: seq<string>, raw: Table, i: nat)
    requires raw.Valid() && NoDuplicates(featureNames) && i <= |featureNames|
    ensures PartiallyAligned(parse, featureNames, raw, i).Valid()
  {
    var p := PartiallyAligned(parse, featureNames, raw, i);
    var n := AlignedRowCount(featureNames[..i], raw);
    forall k | 0 <= k < |featureNames| ensures |p.data[k]| == p.nrows {
      if k < i && featureNames[k] in raw.columns {
        assert featureNames[k] in featureNames[..i];
        assert n == raw.nrows;
        assert p.data[k] == CoerceAll(parse, ColumnOf(raw, featureNames[k]));
      } else {
        assert p.data[k] == Repeat(Missing, n);
      }
    }
  }

  /** One turn of the loop: assigning feature `i`'s column (lines 86-88) or
      `nan` (line 90) to the partial frame never raises and gives the partial
      frame with one more feature handled. */
  lemma AlignStep(parse: Parser, featureNames: seq<string>, raw: Table, i: nat)
    requires raw.Valid() && NoDuplicates(featureNames) && i < |featureNames|
    ensures var p := PartiallyAligned(parse, featureNames, raw, i);
      var col := featureNames[i];
      var values := if col in raw.columns then CoerceAll(parse, ColumnOf(raw, col)) else Repeat(Missing, p.nrows);
      p.Valid() && Assign(p, col, values) == Some(PartiallyAligned(parse, featureNames, raw, i + 1))
  {
    var p := PartiallyAligned(parse, featureNames, raw, i);
    var q := PartiallyAligned(parse, featureNames, raw, i + 1);
    var col := featureNames[i];
    PartiallyAlignedValid(parse, featureNames, raw, i);
    AlignedRowCountStep(featureNames, raw, i);
    IndexOfDistinct(featureNames, i);
    var values := if col in raw.columns then CoerceAll(parse, ColumnOf(raw, col)) else Repeat(Missing, p.nrows);
    var r := Assign(p, col, values);
    assert |values| == q.nrows by {
      if col in raw.columns {
        assert |ColumnOf(raw, col)| == raw.nrows;
      }
    }
    assert r.Some? && r.value.columns == q.columns && r.value.nrows == q.nrows;
    forall k | 0 <= k < |featureNames| ensures r.value.data[k] == q.data[k] {
      if k == i {
        assert ColumnOf(r.value, col) == values;
      } else {
        OtherColumnStep(parse, featureNames, raw, i, k, values);
      }
    }
    assert r.value.data == q.data;
    assert r.value == q;
  }

  /** One turn of the loop leaves every other feature's column as the partial
      frame after that turn has it. */
  lemma OtherColumnStep(parse: Parser, featureNames: seq<string>, raw: Table, i: nat, k: nat, values: seq<Cell>)
    requires raw.Valid() && NoDuplicates(featureNames) && i < |featureNames| && k < |featureNames| && k != i
    requires PartiallyAligned(parse, featureNames, raw, i).Valid()
    requires |values| == PartiallyAligned(parse, featureNames, raw, i + 1).nrows
    requires AlignedRowCount(featureNames[..i + 1], raw) ==
      if featureNames[i] in raw.columns then raw.nrows else AlignedRowCount(featureNames[..i], raw)
    ensures var p := PartiallyAligned(parse, featureNames, raw, i);
      var r := Assign(p, featureNames[i], values);
      r.Some? && r.value.data[k] == PartiallyAligned(parse, featureNames, raw, i + 1).data[k]
  {
    var p := PartiallyAligned(parse, featureNames, raw, i);
    var r := Assign(p, featureNames[i], values);
    assert featureNames[k] != featureNames[i];
    if p.nrows == 0 {
      assert r.value.data[k] == Repeat(Missing, |values|);
      if k < i && featureNames[k] in raw.columns {
        assert featureNames[k] in featureNames[..i];
        assert raw.nrows == 0 && |ColumnOf(raw, featureNames[k])| == 0;
      }
    } else {
      assert r.value.data[k] == p.data[k];
    }
  }

  /** Lines 84-94 as written: start from `pd.DataFrame(columns=feature_names)`,
      assign each feature's column in schema order, then select the schema's
      columns. The raw frame is only read. */
  method Align(parse: Parser, featureNames: seq<string>, dataDf: Frame) returns (processed: Frame)
    requires dataDf.Valid() && NoDuplicates(featureNames)
    ensures fresh(processed) && processed.Valid()
    ensures processed.Value() == Aligned(parse, featureNames, dataDf.Value())
  {
    ghost var raw := dataDf.Value();
    processed := new Frame.WithColumns(featureNames);
    assert processed.Value() == PartiallyAligned(parse, featureNames, raw, 0) by {
      var p := PartiallyAligned(parse, featureNames, raw, 0);
      assert featureNames[..0] == [];
      assert !AnyPresent([], raw);
      assert p.nrows == 0;
      forall k | 0 <= k < |featureNames| ensures p.data[k] == [] {
        assert p.data[k] == Repeat(Missing, 0);
      }
    }
    for i := 0 to |featureNames|
      invariant fresh(processed) && processed.Valid()
      invariant processed.Value() == PartiallyAligned(parse, featureNames, raw, i)
    {
      var col := featureNames[i];
      AlignStep(parse, featureNames, raw, i);
      if col in dataDf.columns {
        var ok := processed.Set(col, CoerceAll(parse, ColumnOf(dataDf.Value(), col)));
      } else {
        processed.SetScalar(col, Missing);
      }
    }
    assert featureNames[..|featureNames|] == featureNames;
    SelectOwnColumns(processed.Value());
    processed := processed.Select(featureNames);
  }
}
