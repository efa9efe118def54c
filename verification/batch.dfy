/**
 * What the two batch scripts (scrape_batch.py and scrape_orgs_batch.py)
 * share: the `.sec` filter on the directory listing, the fail-soft
 * collection of one table per file into `list_of_dfs`, and the final
 * loop that appends every table to the CSV file with its own 0-based
 * index and no header.
 */
module Batch {
  import opened Wrappers
  import opened ElementTree
  import PyStrings

  /** One name from the directory listing, with what the XML parser makes of that file. */
  datatype DirEntry = DirEntry(name: string, parsed: Parse)

  /**
   * `Path(name).suffix.lower() == '.sec'`: the filter both batch scripts
   * apply to the listing.  A name from `os.listdir` is already a single
   * path component.
   */
  predicate IsSectionFile(name: string)
  {
    PyStrings.Lower(PyStrings.PathSuffix(name)) == ".sec"
  }

  /**
   * The batch scripts keep exactly the names ending in `.sec`, case
   * aside, with at least one character before the dot.
   */
  lemma SectionFileNames(name: string)
    ensures IsSectionFile(name) <==>
      4 < |name| && name[|name| - 4] == '.' && PyStrings.Lower(name[|name| - 4..]) == ".sec"
  {
    PyStrings.SuffixIs(name, ".sec");
  }

  /** The scripts' filter and per-file extraction, as the collection loop uses them. */
  type Selector = string -> bool

  /**
   * What one listed file adds to `list_of_dfs`: nothing when it is not a
   * `.sec` file, when it does not parse or when its extraction raises;
   * otherwise its whole table (possibly empty).
   */
  function Contribution<R>(entry: DirEntry, select: Selector, extract: Element -> Result<seq<R>, Error>): (r: seq<seq<R>>)
    ensures |r| <= 1
    ensures r != [] <==>
      select(entry.name) && entry.parsed.Parsed? && extract(entry.parsed.root).Success?
    ensures r != [] ==> r[0] == extract(entry.parsed.root).value
  {
    if !select(entry.name) then []
    else
      match entry.parsed
      case Malformed => []
      case Parsed(root) =>
        match extract(root)
        case Failure(_) => []
        case Success(rows) => [rows]
  }

  /** `list_of_dfs` after the listing loop has gone over `dir`. */
  function Collect<R>(dir: seq<DirEntry>, select: Selector, extract: Element -> Result<seq<R>, Error>): seq<seq<R>>
  {
    if dir == [] then []
    else Collect(dir[..|dir| - 1], select, extract) + Contribution(dir[|dir| - 1], select, extract)
  }

  /** Each listed file adds at most one table. */
  lemma {:induction false} CollectAtMostOnePerFile<R>(dir: seq<DirEntry>, select: Selector, extract: Element -> Result<seq<R>, Error>)
    ensures |Collect(dir, select, extract)| <= |dir|
  {
    if dir != [] {
      CollectAtMostOnePerFile(dir[..|dir| - 1], select, extract);
    }
  }

  /**
   * Files are independent: the tables collected from a listing are those
   * of its first part followed by those of the rest.
   */
  lemma {:induction false} CollectAppend<R>(a: seq<DirEntry>, b: seq<DirEntry>, select: Selector, extract: Element -> Result<seq<R>, Error>)
    ensures Collect(a + b, select, extract) == Collect(a, select, extract) + Collect(b, select, extract)
  {
    if b == [] {
      assert a + b == a;
    } else {
      var front, last := b[..|b| - 1], b[|b| - 1];
      assert b == front + [last];
      assert a + b == (a + front) + [last];
      var c := Contribution(last, select, extract);
      calc {
        Collect(a + b, select, extract);
        { CollectSnoc(a + front, last, select, extract); }
        Collect(a + front, select, extract) + c;
        { CollectAppend(a, front, select, extract); }
        (Collect(a, select, extract) + Collect(front, select, extract)) + c;
        Collect(a, select, extract) + (Collect(front, select, extract) + c);
        { CollectSnoc(front, last, select, extract); }
        Collect(a, select, extract) + Collect(b, select, extract);
      }
    }
  }

  /** One more file at the end of the listing adds its contribution at the end. */
  lemma CollectSnoc<R>(dir: seq<DirEntry>, entry: DirEntry, select: Selector, extract: Element -> Result<seq<R>, Error>)
    ensures Collect(dir + [entry], select, extract) == Collect(dir, select, extract) + Contribution(entry, select, extract)
  {
    assert (dir + [entry])[..|dir|] == dir;
  }

  /** One more file of the listing adds its contribution. */
  lemma CollectStep<R>(dir: seq<DirEntry>, k: nat, select: Selector, extract: Element -> Result<seq<R>, Error>)
    requires k < |dir|
    ensures Collect(dir[..k + 1], select, extract) == Collect(dir[..k], select, extract) + Contribution(dir[k], select, extract)
  {
    assert dir[..k + 1][..k] == dir[..k];
  }

  /** A listing of one file collects that file's contribution. */
  lemma CollectOne<R>(entry: DirEntry, select: Selector, extract: Element -> Result<seq<R>, Error>)
    ensures Collect([entry], select, extract) == Contribution(entry, select, extract)
  {
    assert [entry][..0] == [];
  }

  /** The tables collected around one file: those before it, its contribution, those after it. */
  lemma CollectAround<R>(a: seq<DirEntry>, entry: DirEntry, b: seq<DirEntry>, select: Selector, extract: Element -> Result<seq<R>, Error>)
    ensures Collect(a + [entry] + b, select, extract) ==
      Collect(a, select, extract) + Contribution(entry, select, extract) + Collect(b, select, extract)
  {
    CollectAppend(a + [entry], b, select, extract);
    CollectAppend(a, [entry], select, extract);
    CollectOne(entry, select, extract);
  }

  /** A file that is skipped or whose extraction raises contributes nothing. */
  lemma NoContribution<R>(entry: DirEntry, select: Selector, extract: Element -> Result<seq<R>, Error>)
    requires !select(entry.name) || entry.parsed.Malformed? || extract(entry.parsed.root).Failure?
    ensures Contribution(entry, select, extract) == []
  {
  }

  /** A file that contributes nothing leaves the tables of the files around it as they are. */
  lemma EmptyContributionIsSkipped<R>(a: seq<DirEntry>, entry: DirEntry, b: seq<DirEntry>, select: Selector, extract: Element -> Result<seq<R>, Error>)
    requires Contribution(entry, select, extract) == []
    ensures Collect(a + [entry] + b, select, extract) == Collect(a, select, extract) + Collect(b, select, extract)
  {
    CollectAround(a, entry, b, select, extract);
    var before, after := Collect(a, select, extract), Collect(b, select, extract);
    assert before + [] + after == before + after;
  }

  /**
   * Fail-soft: a file that is skipped or whose extraction raises adds no
   * table, and the tables of the files around it are unchanged.
   */
  lemma FailedFileIsSkipped<R>(a: seq<DirEntry>, entry: DirEntry, b: seq<DirEntry>, select: Selector, extract: Element -> Result<seq<R>, Error>)
    requires !select(entry.name) || entry.parsed.Malformed? || extract(entry.parsed.root).Failure?
    ensures Collect(a + [entry] + b, select, extract) == Collect(a, select, extract) + Collect(b, select, extract)
  {
    NoContribution(entry, select, extract);
    EmptyContributionIsSkipped(a, entry, b, select, extract);
  }

  /** A file that succeeds adds exactly its own table, at its place in the listing. */
  lemma SucceededFileAddsItsTable<R>(a: seq<DirEntry>, entry: DirEntry, b: seq<DirEntry>, select: Selector, extract: Element -> Result<seq<R>, Error>)
    requires select(entry.name) && entry.parsed.Parsed? && extract(entry.parsed.root).Success?
    ensures Collect(a + [entry] + b, select, extract) ==
      Collect(a, select, extract) + [extract(entry.parsed.root).value] + Collect(b, select, extract)
  {
    CollectAround(a, entry, b, select, extract);
  }

  /** One CSV line written with `index=True, header=False`: the row's index in its own table, then its cells. */
  datatype CsvLine<R> = CsvLine(index: nat, row: R)

  /** The lines `df.to_csv(f, index=True, header=False)` appends for one table. */
  function IndexedLines<R>(rows: seq<R>): (r: seq<CsvLine<R>>)
    ensures |r| == |rows|
    ensures forall j :: 0 <= j < |r| ==> r[j].index == j && r[j].row == rows[j]
  {
    if rows == [] then []
    else IndexedLines(rows[..|rows| - 1]) + [CsvLine(|rows| - 1, rows[|rows| - 1])]
  }

  /** Everything written to the report: the lines of each table in turn. */
  function CsvLines<R>(tables: seq<seq<R>>): seq<CsvLine<R>>
  {
    if tables == [] then []
    else CsvLines(tables[..|tables| - 1]) + IndexedLines(tables[|tables| - 1])
  }

  /** The report of two runs of tables is the report of the first followed by that of the second. */
  lemma {:induction false} CsvLinesAppend<R>(a: seq<seq<R>>, b: seq<seq<R>>)
    ensures CsvLines(a + b) == CsvLines(a) + CsvLines(b)
  {
    if b == [] {
      assert a + b == a;
    } else {
      var front, last := b[..|b| - 1], b[|b| - 1];
      assert b == front + [last];
      assert a + b == (a + front) + [last];
      calc {
        CsvLines(a + b);
        { CsvLinesSnoc(a + front, last); }
        CsvLines(a + front) + IndexedLines(last);
        { CsvLinesAppend(a, front); }
        (CsvLines(a) + CsvLines(front)) + IndexedLines(last);
        CsvLines(a) + (CsvLines(front) + IndexedLines(last));
        { CsvLinesSnoc(front, last); }
        CsvLines(a) + CsvLines(b);
      }
    }
  }

  /** One more table at the end adds its lines at the end. */
  lemma CsvLinesSnoc<R>(tables: seq<seq<R>>, table: seq<R>)
    ensures CsvLines(tables + [table]) == CsvLines(tables) + IndexedLines(table)
  {
    assert (tables + [table])[..|tables|] == tables;
  }

  /** Number of rows over all tables. */
  function TotalRows<R>(tables: seq<seq<R>>): nat
  {
    if tables == [] then 0 else TotalRows(tables[..|tables| - 1]) + |tables[|tables| - 1]|
  }

  /** The report has one line per row of every table; an empty table writes nothing. */
  lemma {:induction false} CsvLinesCount<R>(tables: seq<seq<R>>)
    ensures |CsvLines(tables)| == TotalRows(tables)
  {
    if tables != [] {
      CsvLinesCount(tables[..|tables| - 1]);
    }
  }

  /** The final loop: each table of `list_of_dfs` appended to the report in turn. */
  method WriteTables<R>(tables: seq<seq<R>>) returns (lines: seq<CsvLine<R>>)
    ensures lines == CsvLines(tables)
  {
    lines := [];
    var k := 0;
    while k < |tables|
      invariant k <= |tables|
      invariant lines == CsvLines(tables[..k])
    {
      assert tables[..k + 1][..k] == tables[..k];
      lines := lines + IndexedLines(tables[k]);
      k := k + 1;
    }
    assert tables[..|tables|] == tables;
  }
}
