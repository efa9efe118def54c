/**
 * scrape_one.py: a single chosen `.sec` or `.ref` file yields one CSV
 * report with a header and the columns Order, Section, Name, Version,
 * Standard, Edition, Title.  Nothing is caught: any exception ends the
 * script before the report is written.
 */
module ScrapeOne {
  import opened Wrappers
  import opened ElementTree
  import opened Section
  import PyStrings
  import Batch

  /**
   * `Path(file_name).suffix.lower()` is '.sec' or '.ref'.  `name` is the
   * last component of the chosen path (`Path(file_name).name`), the only
   * part `suffix` looks at.
   */
  predicate IsSelected(name: string)
  {
    var ext := PyStrings.Lower(PyStrings.PathSuffix(name));
    ext == ".sec" || ext == ".ref"
  }

  /** The header row of the report. */
  const ColumnNames: seq<string> := ["Order", "Section", "Name", "Version", "Standard", "Edition", "Title"]

  /** One report row: the Order cell, then the six cells of the section row. */
  datatype NumberedRow = NumberedRow(order: int, row: SectionRow)

  /** How a run of the script ends. */
  datatype Outcome =
    | NotSelected                                            // another extension: nothing is written
    | Aborted(error: Error)                                  // an exception before `to_csv`
    | Written(header: seq<string>, rows: seq<NumberedRow>)   // `to_csv(csv_name, index=False)`

  /** The rows with the `order` list (1, 2, ...) as their first column. */
  function Numbered(rows: seq<SectionRow>): seq<NumberedRow>
  {
    seq(|rows|, j requires 0 <= j < |rows| => NumberedRow(j + 1, rows[j]))
  }

  /** The pairing of the given RIDs and RTLs as numbered rows; a raised error is kept. */
  function NumberedTable(meta: Metadata, rids: seq<Element>, rtls: seq<Element>): Result<seq<NumberedRow>, Error>
  {
    match SectionTable(meta, rids, rtls)
    case Failure(e) => Failure(e)
    case Success(rows) => Success(Numbered(rows))
  }

  /** What the script does with the chosen file. */
  function Report(name: string, parsed: Parse): (r: Outcome)
    ensures r.NotSelected? <==> !IsSelected(name)
    ensures IsSelected(name) && parsed.Malformed? ==> r == Aborted(ParseFailed)
    ensures r.Written? ==> r.header == ColumnNames
  {
    if !IsSelected(name) then NotSelected
    else
      match parsed
      case Malformed => Aborted(ParseFailed)
      case Parsed(root) =>
        match SectionRows(root)
        case Failure(e) => Aborted(e)
        case Success(rows) => Written(ColumnNames, Numbered(rows))
  }

  /** The script: extension check, parse, metadata, RID/RTL lookup, the numbering loop, then the write. */
  method ScrapeOne(name: string, parsed: Parse) returns (out: Outcome)
    ensures out == Report(name, parsed)
  {
    if !IsSelected(name) {
      return NotSelected;
    }
    if parsed.Malformed? {
      return Aborted(ParseFailed);
    }
    var root := parsed.root;
    var metadata := ReadMetadata(root);
    if metadata.Failure? {
      return Aborted(metadata.error);
    }
    var standardReferences := FindAllBelowChildren(root, "RID");
    var standardTitles := FindAllBelowChildren(root, "RTL");
    var table := NumberReferences(metadata.value, standardReferences, standardTitles);
    match table
    case Failure(e) =>
      return Aborted(e);
    case Success(rows) =>
      return Written(ColumnNames, rows);
  }

  /**
   * The `for i in range(standard_count)` loop of this script: as in the
   * batch script, plus an `order` list holding i + 1.
   */
  method NumberReferences(meta: Metadata, standardReferences: seq<Element>, standardTitles: seq<Element>)
    returns (r: Result<seq<NumberedRow>, Error>)
    ensures r == NumberedTable(meta, standardReferences, standardTitles)
  {
    var standardCount := |standardTitles|;
    var order: seq<int> := [];
    var section: seq<string> := [];
    var sectionName: seq<Option<string>> := [];
    var sectionVer: seq<Option<string>> := [];
    var refs: seq<Option<string>> := [];
    var editions: seq<string> := [];
    var titles: seq<string> := [];
    ghost var pairs: seq<Reference> := [];

    var i := 0;
    while i < standardCount
      invariant i <= standardCount
      invariant |order| == |section| == |sectionName| == |sectionVer| == |refs| == |editions| == |titles| == |pairs| == i
      invariant PairPrefix(standardReferences, standardTitles, i) == Success(pairs)
      invariant forall j :: 0 <= j < i ==>
        NumberedRow(order[j], SectionRow(section[j], sectionName[j], sectionVer[j], refs[j], editions[j], titles[j])) ==
        NumberedRow(j + 1, MakeRow(meta, pairs[j]))
    {
      order := order + [i + 1];
      section := section + [meta.number];
      sectionName := sectionName + [meta.name];
      sectionVer := sectionVer + [meta.version];
      if |standardReferences| <= i {
        PairPrefixFailureStands(standardReferences, standardTitles, i + 1, standardCount);
        return Failure(IndexOutOfRange("RID"));
      }
      refs := refs + [standardReferences[i].text];
      var standardTitle := standardTitles[i].text;
      if standardTitle.None? {
        PairPrefixFailureStands(standardReferences, standardTitles, i + 1, standardCount);
        return Failure(MissingText("RTL"));
      }
      var split := Split(standardTitle.value);
      editions := editions + [split.edition];
      titles := titles + [split.title];
      pairs := pairs + [Reference(standardReferences[i].text, standardTitle.value)];
      i := i + 1;
    }

    var rows := seq(standardCount, j requires 0 <= j < standardCount =>
      NumberedRow(order[j], SectionRow(section[j], sectionName[j], sectionVer[j], refs[j], editions[j], titles[j])));
    NumberedRowsAssembled(meta, pairs, rows);
    return Success(rows);
  }

  /** A sequence holding, in order, the number and the row of each reference is the numbered table. */
  lemma NumberedRowsAssembled(meta: Metadata, refs: seq<Reference>, rows: seq<NumberedRow>)
    requires |rows| == |refs| && forall j :: 0 <= j < |rows| ==> rows[j] == NumberedRow(j + 1, MakeRow(meta, refs[j]))
    ensures rows == Numbered(AssembleRows(meta, refs))
  {
  }

  /** The script reads `.sec` and `.ref` files (in any letter case) and nothing else. */
  lemma SelectedNames(name: string)
    ensures IsSelected(name) <==>
      4 < |name| && name[|name| - 4] == '.' &&
      (PyStrings.Lower(name[|name| - 4..]) == ".sec" || PyStrings.Lower(name[|name| - 4..]) == ".ref")
  {
    PyStrings.SuffixIs(name, ".sec");
    PyStrings.SuffixIs(name, ".ref");
  }

  /**
   * A report is written exactly when the file is selected, parses and
   * its extraction does not raise.  It then has the fixed header and
   * one row per RTL; the Order column counts 1, 2, ..., N and row i
   * carries SCN[8:], STL and DTE, the i-th RID and the split of the i-th
   * RTL.
   */
  lemma ReportSpec(name: string, parsed: Parse)
    ensures Report(name, parsed).Written? <==>
      IsSelected(name) && parsed.Parsed? && SectionRows(parsed.root).Success?
    ensures Report(name, parsed).Written? ==>
      var root := parsed.root;
      var rids := FindAllBelowChildren(root, "RID");
      var rtls := FindAllBelowChildren(root, "RTL");
      var out := Report(name, parsed);
      out.header == ColumnNames && ReadMetadata(root).Success? &&
      |out.rows| == |rtls| && |rtls| <= |rids| &&
      forall j :: 0 <= j < |out.rows| ==>
        out.rows[j].order == j + 1 && rtls[j].text.Some? &&
        out.rows[j].row == MakeRow(ReadMetadata(root).value, Reference(rids[j].text, rtls[j].text.value))
    ensures Report(name, parsed).Aborted? <==>
      IsSelected(name) && (parsed.Malformed? || SectionRows(parsed.root).Failure?)
  {
    if parsed.Parsed? {
      SectionRowsSpec(parsed.root);
    }
  }

  /**
   * For a `.sec` file the report holds, below its header and without
   * the Order column, exactly the table the batch script collects for
   * that file, and it is written exactly when the batch script would
   * keep that table.
   */
  lemma ReportAgreesWithBatch(name: string, parsed: Parse)
    requires Batch.IsSectionFile(name)
    ensures Report(name, parsed).Written? <==>
      Batch.Contribution(Batch.DirEntry(name, parsed), Batch.IsSectionFile, SectionRows) != []
    ensures Report(name, parsed).Written? ==>
      var table := Batch.Contribution(Batch.DirEntry(name, parsed), Batch.IsSectionFile, SectionRows)[0];
      |Report(name, parsed).rows| == |table| &&
      forall j :: 0 <= j < |table| ==> Report(name, parsed).rows[j].row == table[j]
  {
  }
}
