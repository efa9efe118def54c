# Reference scrapers for specification sections and the master index

This project models the four scripts that pull reference-standard citations
out of the XML files of a construction specification set and flatten them
into tables:

- `scrape_batch.py` walks a folder. It reads every `.sec` section file:
  the section number (the SCN text without its first 8 characters), the
  name (STL) and the version (DTE). It then pairs the i-th RID with the i-th
  RTL found below the children of the root, splits each RTL text into an
  edition and a title, and appends each file's table to one CSV report
  with a per-table index and no header. Any exception skips the file.
- `scrape_one.py` does the same for one chosen `.sec` or `.ref` file. It
  adds an Order column (1, 2, ...) and a header. No exception is caught.
- `scrape_orgs_batch.py` walks a folder like `scrape_batch.py`. It writes
  one row per ORG element, with the section metadata, and never looks at
  RIDs or RTLs.
- `master_scrape.py` reads `MASTER.REF`. For each REF group it appends
  the group's organization, its RID texts and its RTL texts to three
  parallel lists, zips them and writes an Organization / Standard / Title
  table.

The XML tree is the `ElementTree.Element` datatype: a tag, an optional
text and a list of children. The parser's outcome, the directory listing
and the file names are inputs. `find`, `findall` and the star-descendant
path used by the scripts are functions on that datatype. The string
operations the scripts rely on are written out in `py_strings.dfy`:
slicing, `find(')')`, `replace`, `Path.suffix` and `lower()`.

Every loop of the scripts is a `method` with a `while` loop. Each method
is proved equal to a specification function, such as `Section.SectionRows`,
`ScrapeOrgsBatch.OrgRows`, `MasterScrape.MasterTable` or `Batch.Collect`.
The lemmas then state what those functions guarantee. An exception
becomes a `Failure` of the `Result` datatype. The `try`/`except: pass`
of the batch scripts becomes `Batch.Contribution`, which is empty for a
failed file.

Behaviour worth knowing (the lemma named with each point proves it):

- When a title has no `)`, `find` returns -1 and the slice position is 0.
  The edition is then empty, and the title loses its first character
  (`Section.SplitWithoutParen`).
- In the section scripts, more RIDs than RTLs is not an error: the extra
  RIDs are never read (`Section.SectionRowsIgnoreExtraRids`). Fewer RIDs
  than RTLs, or an RTL without text, makes the file raise. In the batch
  scripts that file is then skipped.
- In the master script, a group with fewer RTLs than RIDs loses part of
  its data. The inner loop runs until it reads the RTL at position |RTL|,
  which does not exist. By then `orgs` and `standards` have each gained
  one extra entry: the group's organization and the RID at that position.
  The group's later RIDs are never read. Every later row then pairs a
  standard with another row's title (`MasterScrape.MasterListsLengths`,
  `MasterScrape.ShortGroupShiftsTitles`).
- In the master script, a group without an ORG child ends the run. The
  `find('ORG').text` is outside the `try`, so its error is not caught
  (`MasterScrape.MasterListsFailure`).
- File selection looks only at `Path(file_name).name`, the last component
  of the path, and the model's file names are that component. A name is
  kept exactly when it ends in the extension, case aside, with at least
  one character before the dot (`Batch.SectionFileNames`,
  `ScrapeOne.SelectedNames`).

## Model

| member | source | states |
|---|---|---|
| PyStrings.SliceFrom | scrape_batch.py:23 | `s[n:]` is the tail after the first n characters, and empty when n is past the end |
| PyStrings.FindChar | scrape_batch.py:48 | `str.find` gives -1 exactly when the character is absent, otherwise the index of its first occurrence |
| PyStrings.FindCharAt | scrape_batch.py:48 | the first occurrence of a character is what `find` returns |
| PyStrings.RFindChar | scrape_batch.py:19 | `str.rfind` gives -1 exactly when the character is absent, otherwise the index of its last occurrence |
| PyStrings.RFindCharAt | scrape_batch.py:19 | the last occurrence of a character is what `rfind` returns |
| PyStrings.RemoveAll | scrape_batch.py:50 | `replace(c, '')` leaves no `c`, never lengthens the text and adds no character |
| PyStrings.RemoveAllAppend | scrape_batch.py:50 | removing a character from a concatenation removes it from each part |
| PyStrings.RemoveAllAbsent | scrape_batch.py:50 | removing a character the text does not hold changes nothing |
| PyStrings.Lower | scrape_batch.py:19 | `str.lower()` on ASCII; `LowerFolds` states what it does |
| PyStrings.LowerFolds | scrape_batch.py:19 | lower-casing keeps the length, leaves no upper-case ASCII letter, turns each upper-case letter into its lower-case one and leaves every other character alone, and is idempotent |
| PyStrings.PathSuffix | scrape_batch.py:19 | `Path.suffix` is empty or a final dot-part with no further dot, at least one character long and not the whole name |
| PyStrings.SuffixIs | scrape_batch.py:19 | the lower-cased suffix is a given extension exactly when the name is longer than it and ends in it, case aside |
| ElementTree.FirstIndex | scrape_batch.py:23-25 | the position of the first child with a tag, or -1 exactly when none has it |
| ElementTree.Find | scrape_batch.py:23-25 | `find(tag)` is `None` exactly when no child has the tag; otherwise it is the first such child |
| ElementTree.WithTag | master_scrape.py:16 | the selection is no longer than its input and keeps exactly the elements with the tag; `WithTagOne` and `WithTagAppend` fix its order and multiplicity |
| ElementTree.WithTagOne | master_scrape.py:16 | a one-element list keeps its element exactly when it has the tag |
| ElementTree.WithTagAppend | master_scrape.py:16 | the selection from a concatenation is the selection from the first part followed by that from the second, so document order is kept |
| ElementTree.FindAll | master_scrape.py:16 | `findall(tag)` returns only direct children with the tag, and every direct child with the tag |
| ElementTree.SubtreeMatches | scrape_batch.py:27-28 | the subtree matches carry the tag and start with the element itself when it has the tag; `SubtreeMatchesComplete` gives membership both ways |
| ElementTree.ForestMatches | scrape_batch.py:27-28 | the matches of a list of subtrees all carry the tag; `ForestMatchesComplete` and `ForestMatchesAppend` give membership and order |
| ElementTree.BelowEach | scrape_batch.py:27-28 | the descendants found below each child all carry the tag; `BelowEachComplete` and `BelowEachAppend` give membership and order |
| ElementTree.FindAllBelowChildren | scrape_batch.py:27-28 | `findall('*//tag')` yields only elements with the tag; `FindAllBelowChildrenComplete` gives membership both ways |
| ElementTree.SubtreeMatchesComplete | scrape_batch.py:27-28 | an element is among the subtree matches exactly when it has the tag and is the element itself or lies below it |
| ElementTree.ForestMatchesComplete | scrape_batch.py:27-28 | an element is among the matches of a list of subtrees exactly when it has the tag and lies in one of those subtrees |
| ElementTree.BelowEachComplete | scrape_batch.py:27-28 | an element is found below a list of elements exactly when it has the tag and lies strictly below one of them |
| ElementTree.FindAllBelowChildrenComplete | scrape_batch.py:27-28 | `findall('*//tag')` finds an element exactly when it has the tag and lies strictly below some child of the root, so a direct child is never found |
| ElementTree.ForestMatchesAppend | scrape_batch.py:27-28 | the matches of a concatenation of subtree lists are those of the first list followed by those of the second (document order) |
| ElementTree.BelowEachAppend | scrape_batch.py:27-28 | the matches below a concatenation are those below the first part followed by those below the second, and below one element they are the matches of its children |
| Section.ReadMetadata | scrape_batch.py:23-25 | a missing SCN, an SCN without text, a missing STL and a missing DTE each fail with their own error, checked in that order (an SCN with text but no STL fails on STL; with an STL but no DTE it fails on DTE); otherwise the number is the SCN text without its first 8 characters, and name and version are the STL and DTE texts (possibly `None`) |
| Section.SectionNumberExample | scrape_batch.py:23 | an SCN text "Section 03 30 00" gives the section number "03 30 00" |
| Section.Split | scrape_batch.py:47-51 | the edition/title split of one RTL text; `SplitShape`, `SplitAtFirstParen`, `SplitWithoutParen`, `SplitEmpty` and `SplitComposed` state what it computes |
| Section.StripParens | scrape_batch.py:50 | the edition holds no parenthesis |
| Section.SplitShape | scrape_batch.py:47-51 | the edition has no parenthesis; the title is a tail of the raw text and shorter than it when the text is non-empty |
| Section.StripParensUpToClose | scrape_batch.py:50 | stripping parentheses from the text up to and including the first `)` only drops `(` characters |
| Section.SplitAtFirstParen | scrape_batch.py:47-51 | with the first `)` at k, the edition is the first k characters without `(` and the title starts 2 characters after k |
| Section.SplitWithoutParen | scrape_batch.py:48-51 | without a `)` the edition is empty and the title drops the first character |
| Section.SplitEmpty | scrape_batch.py:47-51 | the empty title splits into two empty strings without raising |
| Section.SplitComposed | scrape_batch.py:47-51 | `"(" + edition + ")" + separator + title` splits back into that edition and title when the edition has no parenthesis |
| Section.PairPrefix | scrape_batch.py:39-51 | the outcome of the first n turns of the extraction loop; `PairPrefixPairs`, `PairPrefixError` and `PairPrefixFailureStands` characterize it |
| Section.PairPrefixFailureStands | scrape_batch.py:39-51 | once a loop turn raises, the loop's outcome is that error |
| Section.PairPrefixPairs | scrape_batch.py:39-51 | the first n turns succeed exactly when there are at least n RIDs and each of the first n RTLs has text; pair j is then (RID j text, RTL j text) |
| Section.PairPrefixError | scrape_batch.py:39-51 | the first turn f that raises decides the error, whatever the later turns hold: an IndexError on RID exactly when there is no RID f, otherwise an AttributeError on RTL f without text |
| Section.PairPrefixIgnoresExtraRids | scrape_batch.py:29-45 | RIDs beyond the number of turns are never looked at |
| Section.MakeRow | scrape_batch.py:41-51 | one loop turn's row: the section metadata, the RID text and the split of the RTL text; `SectionRowsSpec` states the rows built from it |
| Section.AssembleRows | scrape_batch.py:53-58 | one row per reference, every row carrying the section metadata |
| Section.RowsAssembled | scrape_batch.py:53-58 | a list holding the row of each reference, in order, is the assembled table |
| Section.SectionTable | scrape_batch.py:29-58 | the function the six-list loop and zip compute: the pairing of all RTLs turned into rows, or the first error raised; `PairPrefixPairs` and `PairPrefixError` characterize it |
| Section.SectionRows | scrape_batch.py:23-58 | the table of one section document, or its error; `SectionRowsSpec`, `SectionRowsNoReferences` and `SectionRowsIgnoreExtraRids` characterize it |
| Section.SectionRowsSpec | scrape_batch.py:23-58 | a section yields a table exactly when its metadata can be read, it has at least as many RIDs as RTLs and every RTL has text; the table has one row per RTL, and row j holds the metadata, RID j's text and the split of RTL j |
| Section.SectionRowsNoReferences | scrape_batch.py:29-39 | a readable section without RTLs yields an empty table |
| Section.SectionRowsIgnoreExtraRids | scrape_batch.py:27-45 | when there are at least as many RIDs as RTLs, dropping the RIDs past the RTL count leaves the table unchanged |
| Batch.IsSectionFile | scrape_batch.py:19 | the `.sec` filter of both batch scripts; `SectionFileNames` states which names pass |
| Batch.SectionFileNames | scrape_batch.py:19 | a listed name passes the filter exactly when it is longer than 4 characters, has a dot 4 from the end, and its last 4 characters lower-case to `.sec` |
| Batch.Contribution | scrape_batch.py:18-62 | a listed file adds one table exactly when it passes the filter, parses and its extraction does not raise, and that table is the extraction's result; otherwise it adds nothing |
| Batch.Collect | scrape_batch.py:16-62 | `list_of_dfs` after the listing loop; `CollectAtMostOnePerFile`, `CollectAppend`, `CollectAround`, `FailedFileIsSkipped` and `SucceededFileAddsItsTable` characterize it |
| Batch.CollectAtMostOnePerFile | scrape_batch.py:16-62 | the listing loop adds at most one table per listed file |
| Batch.CollectSnoc | scrape_batch.py:16-62 | one more file at the end of the listing adds its contribution at the end |
| Batch.CollectStep | scrape_batch.py:16-62 | each turn of the listing loop adds the contribution of that file |
| Batch.CollectAppend | scrape_batch.py:16-62 | files are independent: the tables of a listing are those of its first part followed by those of the rest |
| Batch.CollectOne | scrape_batch.py:16-62 | a listing of one file collects that file's contribution |
| Batch.CollectAround | scrape_batch.py:16-62 | the tables around one file are those before it, its contribution, then those after it |
| Batch.NoContribution | scrape_batch.py:18-62 | a filtered-out, unparsable or raising file adds nothing |
| Batch.EmptyContributionIsSkipped | scrape_batch.py:16-62 | a file that adds nothing leaves the tables of the others exactly as they are |
| Batch.FailedFileIsSkipped | scrape_batch.py:18-62 | fail-soft: a skipped or raising file leaves the tables of the files around it unchanged |
| Batch.SucceededFileAddsItsTable | scrape_batch.py:18-62 | a file that succeeds adds exactly its own table, in its place in the listing |
| Batch.IndexedLines | scrape_batch.py:66 | `to_csv(index=True)` writes one line per row, line j holding the index j and row j |
| Batch.CsvLines | scrape_batch.py:64-66 | the lines the report gains; `CsvLinesAppend` and `CsvLinesCount` characterize it |
| Batch.CsvLinesAppend | scrape_batch.py:64-66 | the report of two runs of tables is the report of the first followed by that of the second |
| Batch.CsvLinesSnoc | scrape_batch.py:64-66 | one more table appends its own indexed lines |
| Batch.CsvLinesCount | scrape_batch.py:64-66 | the report has one line per row of every collected table |
| Batch.WriteTables | scrape_batch.py:64-66 | the writing loop produces the report of all collected tables |
| ScrapeBatch.ExtractSection | scrape_batch.py:21-58 | the per-file block computes the section table, or the error it raises |
| ScrapeBatch.PairReferences | scrape_batch.py:29-58 | the six-list loop and zip compute the pairing as rows, or the first error raised |
| ScrapeBatch.FileTables | scrape_batch.py:18-62 | the body of the listing loop adds the file's contribution |
| ScrapeBatch.CollectSections | scrape_batch.py:14-62 | `list_of_dfs` holds the tables of the files that passed, in listing order |
| ScrapeBatch.Run | scrape_batch.py:14-66 | the script writes the indexed lines of every collected table |
| ScrapeOne.IsSelected | scrape_one.py:14 | the `.sec`/`.ref` test on the chosen file; `SelectedNames` states which names pass |
| ScrapeOne.SelectedNames | scrape_one.py:14 | the script accepts exactly the names ending in `.sec` or `.ref`, case aside, with something before the dot |
| ScrapeOne.Report | scrape_one.py:14-62 | nothing is written exactly when the extension is not selected; an unparsable chosen file aborts with a parse error; a written report has the fixed header; `ReportSpec` gives the rest |
| ScrapeOne.ScrapeOne | scrape_one.py:14-62 | the script's outcome: nothing for another extension, an abort for any raised error, otherwise the report |
| ScrapeOne.Numbered | scrape_one.py:26-60 | the rows with the Order column 1, 2, ..., N in front; `NumberedRowsAssembled` and `ReportSpec` characterize it |
| ScrapeOne.NumberedTable | scrape_one.py:24-60 | the function the seven-list loop and zip compute: the numbered rows, or the first error raised; `ReportSpec` characterizes it |
| ScrapeOne.NumberReferences | scrape_one.py:24-60 | the seven-list loop computes the numbered rows, or the first error raised |
| ScrapeOne.NumberedRowsAssembled | scrape_one.py:53-60 | a list holding number j + 1 and row j of each reference is the numbered table |
| ScrapeOne.ReportSpec | scrape_one.py:14-62 | a report is written exactly when the file is selected and parses and its extraction does not raise; it has the fixed header and one row per RTL with Order 1, 2, ..., N; otherwise the run aborts or writes nothing |
| ScrapeOne.ReportAgreesWithBatch | scrape_one.py:14-62 | for a `.sec` file the report, without its Order column, is exactly the table the batch script collects for that file, and it is written exactly when the batch script keeps that table |
| ScrapeOrgsBatch.OrgTable | scrape_orgs_batch.py:29-46 | one row per ORG carrying the metadata and that ORG's text; `OrgRowsSpec` states its content |
| ScrapeOrgsBatch.OrgRows | scrape_orgs_batch.py:21-46 | a document yields a table exactly when its metadata can be read, and otherwise fails with the metadata's error; `OrgRowsSpec` gives the rows |
| ScrapeOrgsBatch.ExtractOrganizations | scrape_orgs_batch.py:21-46 | the per-file block computes the organization table, or the metadata error |
| ScrapeOrgsBatch.OrganizationRows | scrape_orgs_batch.py:29-46 | the four-list loop and zip give one row per ORG carrying the metadata and that ORG's text |
| ScrapeOrgsBatch.FileTables | scrape_orgs_batch.py:18-50 | the body of the listing loop adds the file's contribution |
| ScrapeOrgsBatch.CollectOrgSections | scrape_orgs_batch.py:14-50 | `list_of_dfs` holds the organization tables of the files that passed, in listing order |
| ScrapeOrgsBatch.Run | scrape_orgs_batch.py:14-54 | the script writes the indexed lines of every collected table |
| ScrapeOrgsBatch.OrgRowsSpec | scrape_orgs_batch.py:23-46 | a table, whatever the ORG elements hold (an ORG without text included), has one row per ORG, in order, with SCN[8:] (empty for an SCN shorter than 8 characters), STL, DTE and that ORG's text |
| ScrapeOrgsBatch.OrgRowsAgreeWithSections | scrape_orgs_batch.py:23-25 | every document the reference script accepts is accepted here, with the same Section, Name and Version on every row of both tables |
| ScrapeOrgsBatch.OrgFileContribution | scrape_orgs_batch.py:18-50 | a listed file contributes exactly when it is a `.sec` file that parses and whose metadata can be read, and then with one row per ORG |
| MasterScrape.ScrapeMaster | master_scrape.py:15-38 | the script's nested loops and zip compute the master table, or the error that ends the run |
| MasterScrape.AppendGroup | master_scrape.py:29-35 | the inner loop in its `try` appends the organization and RID text of every started turn and the RTL text of every completed turn |
| MasterScrape.RepeatSnoc | master_scrape.py:31 | appending the organization once more gives one more copy |
| MasterScrape.TextsSnoc | master_scrape.py:32-33 | appending one more element's text gives the texts of one more element |
| MasterScrape.GroupLists | master_scrape.py:29-35 | one group appends its organization and RID text once per started turn and the RTL text once per completed turn, in order; a group short of RTLs starts one turn more than it completes |
| MasterScrape.MasterLists | master_scrape.py:23-35 | the three lists after the outer loop, or the error that ends it, which can only be a missing ORG; `MasterListsLengths` and `MasterListsFailure` characterize it |
| MasterScrape.MasterTable | master_scrape.py:15-38 | the script fails with a parse error exactly when MASTER.REF does not parse, otherwise only for a missing ORG; a table carries the header Organization, Standard, Title; `MasterTableSpec` gives the rows |
| MasterScrape.MasterListsStep | master_scrape.py:23-35 | a turn of the outer loop raises for a group without ORG and otherwise appends what the group appends |
| MasterScrape.MasterListsSnoc | master_scrape.py:23-35 | one more group with an ORG extends the lists by what that group appends |
| MasterScrape.MasterListsFailureStands | master_scrape.py:23-25 | once a group without ORG has raised, the run has failed whatever groups follow |
| MasterScrape.MasterListsLengths | master_scrape.py:23-35 | `orgs` and `standards` always have the same length, which is that of `titles` plus the number of groups with fewer RTLs than RIDs; `titles` holds one entry per completed pair |
| MasterScrape.MasterListsFailure | master_scrape.py:23-25 | the run fails exactly when some REF has no ORG child |
| MasterScrape.GroupWithoutRids | master_scrape.py:26-30 | a group with an ORG but no RID appends nothing |
| MasterScrape.ExtraTitlesIgnored | master_scrape.py:27-33 | RTLs beyond the number of RIDs are never looked at |
| MasterScrape.Zip3 | master_scrape.py:38 | `zip` yields as many rows as the shortest list, row j holding entry j of each list |
| MasterScrape.Zip3Extend | master_scrape.py:38 | zipping lists of equal length and then more lists is zipping each part |
| MasterScrape.Zip3Cons | master_scrape.py:38 | zipping non-empty lists gives the row of their first entries, then the zip of the rest |
| MasterScrape.ExtendRest | master_scrape.py:29-35 | appending to non-empty accumulators keeps their first entries and appends to the rest |
| MasterScrape.GroupZip | master_scrape.py:30-38 | a group with enough RTLs zips into its own rows |
| MasterScrape.AlignedWithoutShortGroups | master_scrape.py:23-38 | without a group short of RTLs the table is the rows of each group in turn, each pairing a RID with the RTL at the same position of the same group, under that group's ORG |
| MasterScrape.MasterTableSpec | master_scrape.py:15-38 | a table is produced exactly when MASTER.REF parses and every REF has an ORG; it then has the header Organization, Standard, Title and one row per completed pair, row j being entry j of the three lists |
| MasterScrape.ShortGroupShiftsTitles | master_scrape.py:29-38 | after a group with RIDs r1, r2 and only RTL t1, the next group's title t3 ends up beside r2 under the first organization, and the second group's RID is lost |
| MasterScrape.ShortGroupRows | master_scrape.py:29-38 | the three lists and the zip behind that drift |

## Left out

- The file picker dialog (tkinter), `os.listdir`, path joining and the timestamped report names are not modelled. The listing and the chosen file name are inputs.
- `ET.parse` is not modelled: the parse outcome of each file is an input, either a tree or a parse failure. Attributes and tail text of elements are not modelled, since no script reads them.
- Only the three ElementTree queries the scripts use are modelled: `find(tag)`, `findall(tag)` and `findall('*//tag')`. General ElementPath is not.
- `PyStrings.Lower`: `str.lower()` is modelled for ASCII letters only; Unicode case mapping is not.
- pandas is not modelled. A written table is the sequence of its rows, plus the index for `to_csv(index=True)` or the header for `scrape_one.py`. Quoting, delimiters, line endings and what pandas prints for an empty frame are not.
- `df.to_excel` in `master_scrape.py` is the table as a sequence of rows. Excel formatting and the index column `to_excel` writes by default (`index=True`) are not modelled.
- Appending to a CSV file that already exists (mode `'a'`) is not modelled. The model gives only the lines one run appends.
- A `KeyboardInterrupt` or an I/O error raised by `open` is not modelled.
- The `numpy` import is unused and not modelled.
