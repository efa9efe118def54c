/**
 * The extraction shared by the two section scripts (scrape_batch.py and
 * scrape_one.py): reading a section's metadata, splitting a reference
 * title into edition and title, and pairing the i-th RID with the i-th
 * RTL.  The loops themselves live in the modules of those scripts; the
 * functions here are what those loops are proved to compute.
 */
module Section {
  import opened Wrappers
  import opened ElementTree
  import PyStrings

  /** Number of characters dropped from the front of the SCN text. */
  const ScnPrefixLength: nat := 8

  /** The section number (SCN text minus its prefix), name (STL text) and version (DTE text). */
  datatype Metadata = Metadata(number: string, name: Option<string>, version: Option<string>)

  /**
   * `tree.find('SCN').text[8:]`, `tree.find('STL').text` and
   * `tree.find('DTE').text`, in that order.  A missing element fails
   * (`.text` on `None`), and so does an SCN without text (slicing
   * `None`); an STL or DTE without text is carried as `None`.
   */
  function ReadMetadata(root: Element): (r: Result<Metadata, Error>)
    ensures Find(root, "SCN").None? ==> r == Failure(MissingElement("SCN"))
    ensures Find(root, "SCN").Some? && Find(root, "SCN").value.text.None? ==> r == Failure(MissingText("SCN"))
    ensures Find(root, "SCN").Some? && Find(root, "SCN").value.text.Some? && Find(root, "STL").None? ==>
      r == Failure(MissingElement("STL"))
    ensures (Find(root, "SCN").Some? && Find(root, "SCN").value.text.Some? && Find(root, "STL").Some? &&
      Find(root, "DTE").None?) ==> r == Failure(MissingElement("DTE"))
    ensures r.Success? <==>
      Find(root, "SCN").Some? && Find(root, "SCN").value.text.Some? &&
      Find(root, "STL").Some? && Find(root, "DTE").Some?
    ensures r.Failure? ==>
      r.error in {MissingElement("SCN"), MissingText("SCN"), MissingElement("STL"), MissingElement("DTE")}
    ensures r.Success? ==>
      var scn := Find(root, "SCN").value.text.value;
      (ScnPrefixLength <= |scn| ==> scn == scn[..ScnPrefixLength] + r.value.number) &&
      (|scn| < ScnPrefixLength ==> r.value.number == "")
    ensures r.Success? ==>
      r.value.name == Find(root, "STL").value.text && r.value.version == Find(root, "DTE").value.text
  {
    match Find(root, "SCN")
    case None => Failure(MissingElement("SCN"))
    case Some(scn) =>
      match scn.text
      case None => Failure(MissingText("SCN"))
      case Some(number) =>
        match Find(root, "STL")
        case None => Failure(MissingElement("STL"))
        case Some(stl) =>
          match Find(root, "DTE")
          case None => Failure(MissingElement("DTE"))
          case Some(dte) => Success(Metadata(PyStrings.SliceFrom(number, ScnPrefixLength), stl.text, dte.text))
  }

  /** A section numbered "Section 03 30 00" has the section number "03 30 00". */
  lemma SectionNumberExample(root: Element)
    requires Find(root, "SCN").Some? && Find(root, "SCN").value.text == Some("Section 03 30 00")
    requires Find(root, "STL").Some? && Find(root, "DTE").Some?
    ensures ReadMetadata(root).Success? && ReadMetadata(root).value.number == "03 30 00"
  {
    var prefix, number := "Section ", "03 30 00";
    assert "Section 03 30 00" == prefix + number;
    assert (prefix + number)[|prefix|..] == number;
  }

  /** A reference title split into its edition token and the bare title. */
  datatype SplitTitle = SplitTitle(edition: string, title: string)

  /** `s.replace('(', '').replace(')', '')`. */
  function StripParens(s: string): (r: string)
    ensures '(' !in r && ')' !in r
  {
    PyStrings.RemoveAll(PyStrings.RemoveAll(s, '('), ')')
  }

  /**
   * `position = s.find(')') + 1`; the edition is `s[:position]` with
   * every '(' and ')' removed and the title is `s[position+1:]`.
   */
  function Split(raw: string): SplitTitle
  {
    var position := PyStrings.FindChar(raw, ')') + 1;
    SplitTitle(StripParens(raw[..position]), PyStrings.SliceFrom(raw, position + 1))
  }

  /**
   * Whatever the input, the edition holds no parenthesis and the title
   * is a proper tail of the raw text (empty for an empty raw text).
   */
  lemma SplitShape(raw: string)
    ensures '(' !in Split(raw).edition && ')' !in Split(raw).edition
    ensures |Split(raw).title| <= |raw|
    ensures raw != "" ==> |Split(raw).title| < |raw|
    ensures raw == raw[..|raw| - |Split(raw).title|] + Split(raw).title
  {
  }

  /** Stripping a text that ends at its only ')' removes that ')' and the '(' characters before it. */
  lemma StripParensUpToClose(pre: string)
    requires pre != [] && pre[|pre| - 1] == ')' && ')' !in pre[..|pre| - 1]
    ensures StripParens(pre) == PyStrings.RemoveAll(pre[..|pre| - 1], '(')
  {
    var body := pre[..|pre| - 1];
    assert pre == body + [')'];
    PyStrings.RemoveAllAppend(body, [')'], '(');
    var e := PyStrings.RemoveAll(body, '(');
    assert PyStrings.RemoveAll(pre, '(') == e + [')'];
    assert ')' !in e;
    PyStrings.RemoveAllAppend(e, [')'], ')');
    PyStrings.RemoveAllAbsent(e, ')');
  }

  /**
   * With the first ')' at index k: the edition is what precedes it with
   * its '(' characters removed, and the title is what follows the ')'
   * and one more separator character (empty when nothing is left).
   */
  lemma SplitAtFirstParen(raw: string, k: nat)
    requires k < |raw| && raw[k] == ')' && ')' !in raw[..k]
    ensures Split(raw).edition == PyStrings.RemoveAll(raw[..k], '(')
    ensures Split(raw).title == if k + 2 <= |raw| then raw[k + 2..] else ""
  {
    PyStrings.FindCharAt(raw, ')', k);
    var pre := raw[..k + 1];
    assert pre[..|pre| - 1] == raw[..k];
    StripParensUpToClose(pre);
  }

  /**
   * Without any ')': the edition is empty and the title is the raw text
   * minus its first character.  This is what the code does; the first
   * character of a title without an edition token is lost.
   */
  lemma SplitWithoutParen(raw: string)
    requires ')' !in raw
    ensures Split(raw).edition == ""
    ensures Split(raw).title == if raw == "" then "" else raw[1..]
  {
  }

  /** The empty title splits into an empty edition and an empty title. */
  lemma SplitEmpty()
    ensures Split("") == SplitTitle("", "")
  {
  }

  /**
   * Round trip: a title written as "(" + edition + ")" + separator +
   * title, with no parenthesis inside the edition token, splits back
   * into that edition and that title.
   */
  lemma SplitComposed(edition: string, sep: char, title: string)
    requires '(' !in edition && ')' !in edition
    ensures Split("(" + edition + ")" + [sep] + title) == SplitTitle(edition, title)
  {
    var raw := "(" + edition + ")" + [sep] + title;
    var k := |edition| + 1;
    assert raw[..k] == "(" + edition;
    assert raw[k] == ')';
    assert ')' !in raw[..k];
    assert raw[k + 2..] == title;
    SplitAtFirstParen(raw, k);
    PyStrings.RemoveAllAppend("(", edition, '(');
    PyStrings.RemoveAllAbsent(edition, '(');
  }

  /** One cited standard of a section: the RID text and the raw RTL text at the same position. */
  datatype Reference = Reference(standard: Option<string>, rawTitle: string)

  /**
   * What the extraction loop holds after its first `n` iterations:
   * iteration i fails with an IndexError when there is no i-th RID and
   * otherwise with an AttributeError when the i-th RTL has no text; a
   * failure is final.
   */
  function PairPrefix(rids: seq<Element>, rtls: seq<Element>, n: nat): Result<seq<Reference>, Error>
    requires n <= |rtls|
  {
    if n == 0 then Success([])
    else
      match PairPrefix(rids, rtls, n - 1)
      case Failure(e) => Failure(e)
      case Success(refs) =>
        if |rids| <= n - 1 then Failure(IndexOutOfRange("RID"))
        else if rtls[n - 1].text.None? then Failure(MissingText("RTL"))
        else Success(refs + [Reference(rids[n - 1].text, rtls[n - 1].text.value)])
  }

  /** Once an iteration has failed, later iterations never run: the failure stands. */
  lemma {:induction false} PairPrefixFailureStands(rids: seq<Element>, rtls: seq<Element>, n: nat, m: nat)
    requires n <= m <= |rtls|
    requires PairPrefix(rids, rtls, n).Failure?
    ensures PairPrefix(rids, rtls, m) == PairPrefix(rids, rtls, n)
  {
    if n < m {
      PairPrefixFailureStands(rids, rtls, n, m - 1);
    }
  }

  /**
   * The first n iterations succeed exactly when there are at least n
   * RIDs and each of the first n RTLs has text; they then pair the i-th
   * RID text with the i-th RTL text, for every i < n.
   */
  lemma {:induction false} PairPrefixPairs(rids: seq<Element>, rtls: seq<Element>, n: nat)
    requires n <= |rtls|
    ensures PairPrefix(rids, rtls, n).Success? <==>
      n <= |rids| && forall j :: 0 <= j < n ==> rtls[j].text.Some?
    ensures PairPrefix(rids, rtls, n).Success? ==>
      var refs := PairPrefix(rids, rtls, n).value;
      |refs| == n &&
      forall j :: 0 <= j < n ==> refs[j] == Reference(rids[j].text, rtls[j].text.value)
  {
    if n > 0 {
      PairPrefixPairs(rids, rtls, n - 1);
    }
  }

  /** Turn j of the extraction loop raises: there is no j-th RID, or the j-th RTL has no text. */
  predicate BadTurn(rids: seq<Element>, rtls: seq<Element>, j: nat)
    requires j < |rtls|
  {
    |rids| <= j || rtls[j].text.None?
  }

  /**
   * The error raised is decided by the first turn f that raises: an
   * IndexError when it has no RID (the RID is read first), otherwise an
   * AttributeError on its RTL without text.  When no turn raises, the
   * loop succeeds.
   */
  lemma {:induction false} PairPrefixError(rids: seq<Element>, rtls: seq<Element>, n: nat, f: nat)
    requires f < n <= |rtls|
    requires BadTurn(rids, rtls, f) && forall j :: 0 <= j < f ==> !BadTurn(rids, rtls, j)
    ensures PairPrefix(rids, rtls, n) ==
      Failure(if |rids| <= f then IndexOutOfRange("RID") else MissingText("RTL"))
  {
    if f < n - 1 {
      PairPrefixError(rids, rtls, n - 1, f);
    } else {
      assert f == 0 || !BadTurn(rids, rtls, f - 1);
      forall j | 0 <= j < f
        ensures rtls[j].text.Some?
      {
        assert !BadTurn(rids, rtls, j);
      }
      PairPrefixPairs(rids, rtls, f);
    }
  }

  /** RIDs beyond the RTL count are never looked at. */
  lemma {:induction false} PairPrefixIgnoresExtraRids(rids: seq<Element>, extra: seq<Element>, rtls: seq<Element>, n: nat)
    requires n <= |rtls| && n <= |rids|
    ensures PairPrefix(rids + extra, rtls, n) == PairPrefix(rids, rtls, n)
  {
    if n > 0 {
      PairPrefixIgnoresExtraRids(rids, extra, rtls, n - 1);
      assert (rids + extra)[n - 1] == rids[n - 1];
    }
  }

  /** One row of a section table: Section, Name, Version, Standard, Edition, Title. */
  datatype SectionRow = SectionRow(
    section: string, name: Option<string>, version: Option<string>,
    standard: Option<string>, edition: string, title: string)

  /** The row for one reference: the metadata, the RID text and the split of the RTL text. */
  function MakeRow(meta: Metadata, ref: Reference): SectionRow
  {
    var s := Split(ref.rawTitle);
    SectionRow(meta.number, meta.name, meta.version, ref.standard, s.edition, s.title)
  }

  /** One row per reference, in order, each carrying the same metadata. */
  function AssembleRows(meta: Metadata, refs: seq<Reference>): (rows: seq<SectionRow>)
    ensures |rows| == |refs|
    ensures forall j :: 0 <= j < |rows| ==>
      rows[j].section == meta.number && rows[j].name == meta.name && rows[j].version == meta.version
  {
    seq(|refs|, j requires 0 <= j < |refs| => MakeRow(meta, refs[j]))
  }

  /** A sequence holding the row of each reference, in order, is the assembled table. */
  lemma RowsAssembled(meta: Metadata, refs: seq<Reference>, rows: seq<SectionRow>)
    requires |rows| == |refs| && forall j :: 0 <= j < |rows| ==> rows[j] == MakeRow(meta, refs[j])
    ensures rows == AssembleRows(meta, refs)
  {
  }

  /** The pairing of the given RIDs and RTLs turned into rows carrying `meta`; a raised error is kept. */
  function SectionTable(meta: Metadata, rids: seq<Element>, rtls: seq<Element>): Result<seq<SectionRow>, Error>
  {
    match PairPrefix(rids, rtls, |rtls|)
    case Failure(e) => Failure(e)
    case Success(refs) => Success(AssembleRows(meta, refs))
  }

  /** The table of one section document: metadata read first, then the pairing, then one row per pair. */
  function SectionRows(root: Element): Result<seq<SectionRow>, Error>
  {
    match ReadMetadata(root)
    case Failure(e) => Failure(e)
    case Success(meta) => SectionTable(meta, FindAllBelowChildren(root, "RID"), FindAllBelowChildren(root, "RTL"))
  }

  /**
   * A section document yields a table exactly when its metadata can be
   * read, it has at least as many RIDs as RTLs and every RTL has text;
   * the table then has one row per RTL.  Row i carries the metadata,
   * the text of the i-th RID and the split of the i-th RTL.
   */
  lemma SectionRowsSpec(root: Element)
    ensures
      var rids := FindAllBelowChildren(root, "RID");
      var rtls := FindAllBelowChildren(root, "RTL");
      (SectionRows(root).Success? <==>
        ReadMetadata(root).Success? && |rtls| <= |rids| &&
        forall j :: 0 <= j < |rtls| ==> rtls[j].text.Some?) &&
      (SectionRows(root).Success? ==>
        var meta := ReadMetadata(root).value;
        var rows := SectionRows(root).value;
        |rows| == |rtls| &&
        forall j :: 0 <= j < |rows| ==>
          rows[j] == MakeRow(meta, Reference(rids[j].text, rtls[j].text.value)))
  {
    var rtls := FindAllBelowChildren(root, "RTL");
    PairPrefixPairs(FindAllBelowChildren(root, "RID"), rtls, |rtls|);
  }

  /** A section without any RTL yields an empty table as soon as its metadata can be read. */
  lemma SectionRowsNoReferences(root: Element)
    requires ReadMetadata(root).Success? && FindAllBelowChildren(root, "RTL") == []
    ensures SectionRows(root) == Success([])
  {
  }

  /** RIDs beyond the RTL count are silently ignored: dropping them changes nothing. */
  lemma SectionRowsIgnoreExtraRids(root: Element)
    requires ReadMetadata(root).Success?
    requires |FindAllBelowChildren(root, "RTL")| <= |FindAllBelowChildren(root, "RID")|
    ensures
      var rids := FindAllBelowChildren(root, "RID");
      var rtls := FindAllBelowChildren(root, "RTL");
      SectionRows(root) == SectionTable(ReadMetadata(root).value, rids[..|rtls|], rtls)
  {
    var rids := FindAllBelowChildren(root, "RID");
    var rtls := FindAllBelowChildren(root, "RTL");
    assert rids == rids[..|rtls|] + rids[|rtls|..];
    PairPrefixIgnoresExtraRids(rids[..|rtls|], rids[|rtls|..], rtls, |rtls|);
  }
}
