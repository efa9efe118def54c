/**
 * scrape_batch.py: every `.sec` file of a folder yields a table of
 * (Section, Name, Version, Standard, Edition, Title) rows, one per RTL,
 * and the tables of the files that did not raise are appended to one
 * CSV report with per-table indices and no header.
 */
module ScrapeBatch {
  import opened Wrappers
  import opened ElementTree
  import opened Section
  import opened Batch

  /**
   * The per-file block: read the metadata, find every RID and RTL below
   * a child of the root, then pair and assemble.  Any exception leaves
   * the file without a table, which the `Failure` outcome records.
   */
  method ExtractSection(root: Element) returns (r: Result<seq<SectionRow>, Error>)
    ensures r == SectionRows(root)
  {
    var metadata := ReadMetadata(root);
    if metadata.Failure? {
      return Failure(metadata.error);
    }
    var standardReferences := FindAllBelowChildren(root, "RID");
    var standardTitles := FindAllBelowChildren(root, "RTL");
    r := PairReferences(metadata.value, standardReferences, standardTitles);
  }

  /**
   * The `for i in range(standard_count)` loop, `standard_count` being the
   * number of RTLs: each turn appends to six parallel lists, indexing
   * the RIDs (IndexError when they run short) and splitting the RTL text
   * (AttributeError when it is `None`); the lists are then zipped.
   */
  method PairReferences(meta: Metadata, standardReferences: seq<Element>, standardTitles: seq<Element>)
    returns (r: Result<seq<SectionRow>, Error>)
    ensures r == SectionTable(meta, standardReferences, standardTitles)
  {
    var standardCount := |standardTitles|;
    var section: seq<string> := [];
    var sectionName: seq<Option<string>> := [];
    var sectionVer: seq<Option<string>> := [];
    var refs: seq<Option<string>> := [];
    var editions: seq<string> := [];
    var titles: seq<string> := [];
    ghost var pairs: seq<Reference> := [];

    var i := 0;
    while i < standardCount
      invariant i <= standardCount
      invariant |section| == |sectionName| == |sectionVer| == |refs| == |editions| == |titles| == |pairs| == i
      invariant PairPrefix(standardReferences, standardTitles, i) == Success(pairs)
      invariant forall j :: 0 <= j < i ==>
        SectionRow(section[j], sectionName[j], sectionVer[j], refs[j], editions[j], titles[j]) == MakeRow(meta, pairs[j])
    {
      section := section + [meta.number];
      sectionName := sectionName + [meta.name];
      sectionVer := sectionVer + [meta.version];
      if |standardReferences| <= i {
        PairPrefixFailureStands(standardReferences, standardTitles, i + 1, standardCount);
        return Failure(IndexOutOfRange("RID"));
      }
      refs := refs + [standardReferences[i].text];
      var standardTitle := standardTitles[i].text;
      if standardTitle.None? {
        PairPrefixFailureStands(standardReferences, standardTitles, i + 1, standardCount);
        return Failure(MissingText("RTL"));
      }
      var split := Split(standardTitle.value);
      editions := editions + [split.edition];
      titles := titles + [split.title];
      pairs := pairs + [Reference(standardReferences[i].text, standardTitle.value)];
      i := i + 1;
    }

    var rows := seq(standardCount, j requires 0 <= j < standardCount =>
      SectionRow(section[j], sectionName[j], sectionVer[j], refs[j], editions[j], titles[j]));
    RowsAssembled(meta, pairs, rows);
    return Success(rows);
  }

  /** The listing loop: `list_of_dfs` gains the table of every `.sec` file that parses and does not raise. */
  method CollectSections(dir: seq<DirEntry>) returns (listOfDfs: seq<seq<SectionRow>>)
    ensures listOfDfs == Collect(dir, IsSectionFile, SectionRows)
  {
    listOfDfs := [];
    var k := 0;
    while k < |dir|
      invariant k <= |dir|
      invariant listOfDfs == Collect(dir[..k], IsSectionFile, SectionRows)
    {
      CollectStep(dir, k, IsSectionFile, SectionRows);
      var dfs := FileTables(dir[k]);
      listOfDfs := listOfDfs + dfs;
      k := k + 1;
    }
    assert dir[..|dir|] == dir;
  }

  /**
   * The body of the listing loop for one file: its table when it is a
   * `.sec` file that parses and does not raise, nothing otherwise.
   */
  method FileTables(entry: DirEntry) returns (dfs: seq<seq<SectionRow>>)
    ensures dfs == Contribution(entry, IsSectionFile, SectionRows)
  {
    dfs := [];
    if IsSectionFile(entry.name) {
      match entry.parsed
      case Malformed =>
      case Parsed(root) =>
        var df := ExtractSection(root);
        if df.Success? {
          dfs := [df.value];
        }
    }
  }

  /** The whole script on a listing: the CSV lines it appends to the report. */
  method Run(dir: seq<DirEntry>) returns (lines: seq<CsvLine<SectionRow>>)
    ensures lines == CsvLines(Collect(dir, IsSectionFile, SectionRows))
  {
    var listOfDfs := CollectSections(dir);
    lines := WriteTables(listOfDfs);
  }
}
