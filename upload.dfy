/** The file-type test of the upload path (app.py lines 154-159): which reader
    an uploaded file goes to, decided by the end of its name, ignoring case. */
module Upload {
  import opened Text

  datatype FileKind = Csv | Excel | Unsupported

  /** `filename.lower().endswith(...)`: `.csv` first, then `.xls` or `.xlsx`;
      any other name is rejected before any parsing. Against the
      case-insensitive reference definition: CSV exactly when the name ends in
      `.csv` in any case, Excel exactly when it does not and ends in `.xls` or
      `.xlsx` in any case, unsupported otherwise. */
  function Classify(filename: string): (kind: FileKind)
    ensures kind == Csv <==> EndsWithIgnoringCase(filename, ".csv")
    ensures kind == Excel <==>
      !EndsWithIgnoringCase(filename, ".csv") &&
      (EndsWithIgnoringCase(filename, ".xls") || EndsWithIgnoringCase(filename, ".xlsx"))
    ensures kind == Unsupported <==>
      !EndsWithIgnoringCase(filename, ".csv") && !EndsWithIgnoringCase(filename, ".xls") &&
      !EndsWithIgnoringCase(filename, ".xlsx")
  {
    LowerEndsWith(filename, ".csv");
    LowerEndsWith(filename, ".xls");
    LowerEndsWith(filename, ".xlsx");
    var lowered := Lower(filename);
    if EndsWith(lowered, ".csv") then Csv
    else if EndsWith(lowered, ".xls") || EndsWith(lowered, ".xlsx") then Excel
    else Unsupported
  }

  /** Changing the case of a name does not change its kind. */
  lemma ClassifyIgnoresCase(filename: string)
    ensures Classify(Upper(filename)) == Classify(filename)
    ensures Classify(Lower(filename)) == Classify(filename)
  {
    LowerOfUpper(filename);
    assert Lower(Lower(filename)) == Lower(filename) by {
      assert forall i :: 0 <= i < |filename| ==> Lower(Lower(filename))[i] == Lower(filename)[i];
    }
  }

  /** `notes.txt` is rejected before any parsing. */
  lemma ClassifyNotesTxt()
    ensures Classify("notes.txt") == Unsupported
  {
    assert Lower("notes.txt")[8] == 't';
  }

  /** `DATA.CSV` goes to the CSV reader. */
  lemma ClassifyUpperCsv()
    ensures Classify("DATA.CSV") == Csv
  {
    assert Lower("DATA.CSV")[4..] == ".csv";
  }

  /** `a.XLSX` goes to the Excel reader. */
  lemma ClassifyUpperXlsx()
    ensures Classify("a.XLSX") == Excel
  {
    assert Lower("a.XLSX")[5] == 'x';
    assert Lower("a.XLSX")[1..] == ".xlsx";
  }
}
