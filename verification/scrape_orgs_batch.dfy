/**
 * scrape_orgs_batch.py: every `.sec` file of a folder yields a table of
 * (Section, Name, Version, Organization) rows, one per ORG element below
 * a child of the root, and the tables of the files that did not raise
 * are appended to one CSV report with per-table indices and no header.
 */
module ScrapeOrgsBatch {
  import opened Wrappers
  import opened ElementTree
  import opened Section
  import opened Batch

  /** One row of an organization table: Section, Name, Version, Organization. */
  datatype OrgRow = OrgRow(section: string, name: Option<string>, version: Option<string>, organization: Option<string>)

  /** One row per ORG element, in order, each carrying the metadata and that element's text. */
  function OrgTable(meta: Metadata, organizations: seq<Element>): seq<OrgRow>
  {
    seq(|organizations|, j requires 0 <= j < |organizations| =>
      OrgRow(meta.number, meta.name, meta.version, organizations[j].text))
  }

  /** The table of one section document: the metadata first, then one row per ORG. */
  function OrgRows(root: Element): (r: Result<seq<OrgRow>, Error>)
    ensures r.Success? <==> ReadMetadata(root).Success?
    ensures r.Failure? ==> r.error == ReadMetadata(root).error
  {
    match ReadMetadata(root)
    case Failure(e) => Failure(e)
    case Success(meta) => Success(OrgTable(meta, FindAllBelowChildren(root, "ORG")))
  }

  /** The per-file block: the metadata, the ORG lookup, then the row loop. */
  method ExtractOrganizations(root: Element) returns (r: Result<seq<OrgRow>, Error>)
    ensures r == OrgRows(root)
  {
    var metadata := ReadMetadata(root);
    if metadata.Failure? {
      return Failure(metadata.error);
    }
    var organizations := FindAllBelowChildren(root, "ORG");
    var rows := OrganizationRows(metadata.value, organizations);
    return Success(rows);
  }

  /**
   * The `for i in range(len(organizations))` loop over four parallel
   * lists, which are zipped at the end; nothing in it can raise.
   */
  method OrganizationRows(meta: Metadata, organizations: seq<Element>) returns (rows: seq<OrgRow>)
    ensures rows == OrgTable(meta, organizations)
  {
    var section: seq<string> := [];
    var sectionName: seq<Option<string>> := [];
    var sectionVer: seq<Option<string>> := [];
    var orgs: seq<Option<string>> := [];

    var i := 0;
    while i < |organizations|
      invariant i <= |organizations|
      invariant |section| == |sectionName| == |sectionVer| == |orgs| == i
      invariant forall j :: 0 <= j < i ==>
        section[j] == meta.number && sectionName[j] == meta.name && sectionVer[j] == meta.version
      invariant forall j :: 0 <= j < i ==> orgs[j] == organizations[j].text
    {
      section := section + [meta.number];
      sectionName := sectionName + [meta.name];
      sectionVer := sectionVer + [meta.version];
      orgs := orgs + [organizations[i].text];
      i := i + 1;
    }

    rows := seq(|organizations|, j requires 0 <= j < |organizations| =>
      OrgRow(section[j], sectionName[j], sectionVer[j], orgs[j]));
  }

  /** The listing loop: `list_of_dfs` gains the table of every `.sec` file that parses and whose metadata can be read. */
  method CollectOrgSections(dir: seq<DirEntry>) returns (listOfDfs: seq<seq<OrgRow>>)
    ensures listOfDfs == Collect(dir, IsSectionFile, OrgRows)
  {
    listOfDfs := [];
    var k := 0;
    while k < |dir|
      invariant k <= |dir|
      invariant listOfDfs == Collect(dir[..k], IsSectionFile, OrgRows)
    {
      CollectStep(dir, k, IsSectionFile, OrgRows);
      var dfs := FileTables(dir[k]);
      listOfDfs := listOfDfs + dfs;
      k := k + 1;
    }
    assert dir[..|dir|] == dir;
  }

  /**
   * The body of the listing loop for one file: its table when it is a
   * `.sec` file that parses and does not raise, nothing otherwise.
   */
  method FileTables(entry: DirEntry) returns (dfs: seq<seq<OrgRow>>)
    ensures dfs == Contribution(entry, IsSectionFile, OrgRows)
  {
    dfs := [];
    if IsSectionFile(entry.name) {
      match entry.parsed
      case Malformed =>
      case Parsed(root) =>
        var df := ExtractOrganizations(root);
        if df.Success? {
          dfs := [df.value];
        }
    }
  }

  /** The whole script on a listing: the CSV lines it appends to the report. */
  method Run(dir: seq<DirEntry>) returns (lines: seq<CsvLine<OrgRow>>)
    ensures lines == CsvLines(Collect(dir, IsSectionFile, OrgRows))
  {
    var listOfDfs := CollectOrgSections(dir);
    lines := WriteTables(listOfDfs);
  }

  /**
   * The organization table of a section document (which exists exactly
   * when the metadata can be read, whatever the ORG elements hold, an
   * ORG without text included) has one row per ORG
   * below a child of the root, in document order; row j carries
   * SCN[8:], STL and DTE and the text of the j-th ORG.
   */
  lemma OrgRowsSpec(root: Element)
    ensures OrgRows(root).Success? ==>
      var orgs := FindAllBelowChildren(root, "ORG");
      var rows := OrgRows(root).value;
      var scn := Find(root, "SCN").value.text.value;
      |rows| == |orgs| &&
      forall j :: 0 <= j < |rows| ==>
        (ScnPrefixLength <= |scn| ==> scn == scn[..ScnPrefixLength] + rows[j].section) &&
        (|scn| < ScnPrefixLength ==> rows[j].section == "") &&
        rows[j].name == Find(root, "STL").value.text &&
        rows[j].version == Find(root, "DTE").value.text &&
        rows[j].organization == orgs[j].text
  {
  }

  /**
   * The organization table ignores the references: every document the
   * reference script accepts is accepted here too, with the same
   * Section, Name and Version on every row of both tables.
   */
  lemma OrgRowsAgreeWithSections(root: Element)
    requires SectionRows(root).Success?
    ensures OrgRows(root).Success?
    ensures forall i, j :: 0 <= i < |OrgRows(root).value| && 0 <= j < |SectionRows(root).value| ==>
      var o := OrgRows(root).value[i];
      var s := SectionRows(root).value[j];
      o.section == s.section && o.name == s.name && o.version == s.version
  {
  }

  /**
   * Fail-soft, for this script: a listed file contributes exactly when
   * it is a `.sec` file that parses and whose metadata can be read, and
   * its table has one row per ORG.
   */
  lemma OrgFileContribution(entry: DirEntry)
    ensures Contribution(entry, IsSectionFile, OrgRows) != [] <==>
      IsSectionFile(entry.name) && entry.parsed.Parsed? && ReadMetadata(entry.parsed.root).Success?
    ensures Contribution(entry, IsSectionFile, OrgRows) != [] ==>
      |Contribution(entry, IsSectionFile, OrgRows)[0]| == |FindAllBelowChildren(entry.parsed.root, "ORG")|
  {
    if entry.parsed.Parsed? {
      OrgRowsSpec(entry.parsed.root);
    }
  }
}
