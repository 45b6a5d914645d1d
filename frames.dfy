/** The part of a pandas `DataFrame` the application relies on: named columns
    in order, each holding one cell per row, and the two ways app.py changes a
    frame, `df[name] = values` and `df[name] = scalar`. */
module Frames {
  import opened Wrappers
  import opened Cells

  /** The name app.py gives the result column (line 101). */
  const ProbabilityColumn: string := "diagnosis_probability"

  predicate NoDuplicates<T(==)>(s: seq<T>) {
    forall i, j :: 0 <= i < j < |s| ==> s[i] != s[j]
  }

  /** The position of `x` in `s`: its first occurrence. */
  function IndexOf<T(==)>(s: seq<T>, x: T): (k: nat)
    requires x in s
    ensures k < |s| && s[k] == x
    ensures forall j :: 0 <= j < k ==> s[j] != x
  {
    if s[0] == x then 0 else 1 + IndexOf(s[1..], x)
  }

  /** In a sequence without duplicates, the element at position `k` is found
      at position `k`. */
  lemma IndexOfDistinct<T>(s: seq<T>, k: nat)
    requires NoDuplicates(s) && k < |s|
    ensures IndexOf(s, s[k]) == k
  {
  }

  function Repeat(c: Cell, n: nat): (r: seq<Cell>)
    ensures |r| == n && forall i :: 0 <= i < n ==> r[i] == c
  {
    seq(n, _ => c)
  }

  /** The value of a frame, column-major: `data[j]` is the column named
      `columns[j]`, and every column has `nrows` cells. */
  datatype Table = Table(columns: seq<string>, data: seq<seq<Cell>>, nrows: nat) {
    ghost predicate Valid() {
      && |columns| == |data|
      && (forall j :: 0 <= j < |data| ==> |data[j]| == nrows)
      && NoDuplicates(columns)
    }
  }

  /** `pd.DataFrame()`: no columns, no rows. */
  const EmptyTable := Table([], [], 0)

  /** `df[name]` for a column name of the frame. */
  function ColumnOf(t: Table, name: string): (col: seq<Cell>)
    requires t.Valid() && name in t.columns
    ensures |col| == t.nrows
    ensures forall j :: 0 <= j < |t.columns| && t.columns[j] == name ==> col == t.data[j]
  {
    t.data[IndexOf(t.columns, name)]
  }

  /** Row `i` of the frame, in column order. */
  function Row(t: Table, i: nat): (r: seq<Cell>)
    requires t.Valid() && i < t.nrows
    ensures |r| == |t.columns|
    ensures forall j :: 0 <= j < |t.columns| ==> r[j] == t.data[j][i]
  {
    seq(|t.columns|, j requires 0 <= j < |t.columns| => t.data[j][i])
  }

  /** `df[name] = values` for a list-like `values` matched by position.
      A frame whose index is empty first takes its index from a non-empty
      `values`, and its existing columns become all-missing; otherwise
      `values` must have one cell per row, or the assignment raises (`None`).
      An existing column is replaced where it stands; a new one is appended. */
  function Assign(t: Table, name: string, values: seq<Cell>): (r: Option<Table>)
    requires t.Valid()
    ensures r.Some? <==> t.nrows == 0 || |values| == t.nrows
    ensures r.Some? ==> r.value.Valid() && r.value.nrows == |values|
    ensures r.Some? && name in t.columns ==>
      r.value.columns == t.columns && ColumnOf(r.value, name) == values
    ensures r.Some? && name !in t.columns ==>
      r.value.columns == t.columns + [name] && r.value.data[|t.columns|] == values
    ensures r.Some? ==> forall j :: 0 <= j < |t.columns| && t.columns[j] != name ==>
      r.value.data[j] == (if t.nrows == 0 then Repeat(Missing, |values|) else t.data[j])
  {
    if t.nrows != 0 && |values| != t.nrows then None
    else
      var base := if t.nrows == 0 then seq(|t.data|, _ => Repeat(Missing, |values|)) else t.data;
      if name in t.columns then
        Some(Table(t.columns, base[IndexOf(t.columns, name) := values], |values|))
      else
        Some(Table(t.columns + [name], base + [values], |values|))
  }

  /** `df[names]`: a new frame holding the named columns in the order given. */
  function Selected(t: Table, names: seq<string>): (r: Table)
    requires t.Valid() && NoDuplicates(names)
    requires forall k :: 0 <= k < |names| ==> names[k] in t.columns
    ensures r.Valid() && r.columns == names && r.nrows == t.nrows
    ensures forall k :: 0 <= k < |names| ==> r.data[k] == ColumnOf(t, names[k])
  {
    Table(names, seq(|names|, k requires 0 <= k < |names| => ColumnOf(t, names[k])), t.nrows)
  }

  /** Selecting a frame's own columns in their own order gives the frame back. */
  lemma SelectOwnColumns(t: Table)
    requires t.Valid()
    ensures Selected(t, t.columns) == t
  {
  }

  /** A mutable data frame. */
  class Frame {
    var columns: seq<string>
    var data: seq<seq<Cell>>
    var nrows: nat

    function Value(): Table
      reads this
    {
      Table(columns, data, nrows)
    }

    ghost predicate Valid()
      reads this
    {
      Value().Valid()
    }

    /** `pd.DataFrame(columns=names)`: the named columns, no rows. */
    constructor WithColumns(names: seq<string>)
      requires NoDuplicates(names)
      ensures Valid() && Value() == Table(names, seq(|names|, _ => []), 0)
    {
      columns, data, nrows := names, seq(|names|, _ => []), 0;
    }

    /** A frame holding the given value. */
    constructor Of(t: Table)
      requires t.Valid()
      ensures Valid() && Value() == t
    {
      columns, data, nrows := t.columns, t.data, t.nrows;
    }

    /** `df.copy()`: a new frame with the same contents. */
    method Copy() returns (r: Frame)
      requires Valid()
      ensures fresh(r) && r.Valid() && r.Value() == Value()
    {
      r := new Frame.Of(Value());
    }

    /** `df[names]`. */
    method Select(names: seq<string>) returns (r: Frame)
      requires Valid() && NoDuplicates(names)
      requires forall k :: 0 <= k < |names| ==> names[k] in columns
      ensures fresh(r) && r.Valid() && r.Value() == Selected(Value(), names)
    {
      r := new Frame.Of(Selected(Value(), names));
    }

    /** `df[name] = values`; `ok` is false where pandas raises, and the frame
        is then left as it was. */
    method Set(name: string, values: seq<Cell>) returns (ok: bool)
      requires Valid()
      modifies this
      ensures Valid()
      ensures ok == Assign(old(Value()), name, values).Some?
      ensures ok ==> Value() == Assign(old(Value()), name, values).value
      ensures !ok ==> Value() == old(Value())
    {
      if nrows != 0 && |values| != nrows {
        return false;
      }
      if nrows == 0 {
        data := seq(|data|, _ => Repeat(Missing, |values|));
        nrows := |values|;
      }
      if name in columns {
        data := data[IndexOf(columns, name) := values];
      } else {
        columns := columns + [name];
        data := data + [values];
      }
      ok := true;
    }

    /** `df[name] = c` for a scalar `c`: one copy of `c` per row. */
    method SetScalar(name: string, c: Cell)
      requires Valid()
      modifies this
      ensures Valid()
      ensures Assign(old(Value()), name, Repeat(c, old(nrows))).Some?
      ensures Value() == Assign(old(Value()), name, Repeat(c, old(nrows))).value
    {
      var ok := Set(name, Repeat(c, nrows));
    }
  }
}
