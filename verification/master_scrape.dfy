/**
 * master_scrape.py: the master reference index (MASTER.REF) is a list of
 * REF groups, each with one ORG and parallel RID and RTL children.  The
 * script appends to three parallel lists (`orgs`, `standards`, `titles`)
 * group by group, zips them and writes the table with the columns
 * Organization, Standard, Title.
 *
 * Within a group the inner loop runs over the RIDs and indexes the RTLs
 * at the same position; a group with fewer RTLs than RIDs raises an
 * IndexError after `orgs` and `standards` have already been appended
 * to, and the `except: pass` around the loop lets the run go on.  The
 * three lists then drift apart and the zip pairs later standards with
 * titles of other rows.  A group without an ORG raises outside the
 * `try` and ends the whole run.
 */
module MasterScrape {
  import opened Wrappers
  import opened ElementTree

  /** The header of the table. */
  const ColumnNames: seq<string> := ["Organization", "Standard", "Title"]

  /** One row of the table: Organization, Standard, Title (the title unsplit). */
  datatype MasterRow = MasterRow(organization: Option<string>, standard: Option<string>, title: Option<string>)

  /** What `df.to_excel` receives: the header and the zipped rows. */
  datatype MasterReport = MasterReport(header: seq<string>, rows: seq<MasterRow>)

  /** The three accumulators `orgs`, `standards` and `titles`. */
  datatype Lists = Lists(orgs: seq<Option<string>>, standards: seq<Option<string>>, titles: seq<Option<string>>)

  /** The accumulators before the first group. */
  const NoLists := Lists([], [], [])

  /** The `.text` of each element in turn. */
  function Texts(es: seq<Element>): seq<Option<string>>
  {
    seq(|es|, j requires 0 <= j < |es| => es[j].text)
  }

  /** `n` copies of `x`. */
  function Repeat<T>(x: T, n: nat): seq<T>
  {
    seq(n, _ => x)
  }

  /** Turns of the inner loop that start: every RID when the RTLs suffice, else one past the last RTL (the turn that raises). */
  function Started(rids: seq<Element>, rtls: seq<Element>): nat
  {
    if |rids| <= |rtls| then |rids| else |rtls| + 1
  }

  /** Turns of the inner loop that run to the end: as many as there are RIDs and RTLs both. */
  function Completed(rids: seq<Element>, rtls: seq<Element>): nat
  {
    if |rids| <= |rtls| then |rids| else |rtls|
  }

  /** A group whose RTLs run out before its RIDs: its inner loop raises. */
  predicate IsShort(group: Element)
  {
    |FindAll(group, "RTL")| < |FindAll(group, "RID")|
  }

  /**
   * What one group with organization `org` appends: `org` and the RID
   * text for every started turn, the RTL text for every completed one.
   */
  function GroupLists(org: Option<string>, rids: seq<Element>, rtls: seq<Element>): (r: Lists)
    ensures |r.orgs| == |r.standards| == Started(rids, rtls) && |r.titles| == Completed(rids, rtls)
    ensures Started(rids, rtls) == Completed(rids, rtls) + (if |rtls| < |rids| then 1 else 0)
    ensures forall j :: 0 <= j < |r.orgs| ==> r.orgs[j] == org && r.standards[j] == rids[j].text
    ensures forall j :: 0 <= j < |r.titles| ==> r.titles[j] == rtls[j].text
  {
    var started := Started(rids, rtls);
    Lists(Repeat(org, started), Texts(rids[..started]), Texts(rtls[..Completed(rids, rtls)]))
  }

  /** Each accumulator extended by the corresponding list of `more`. */
  function Extend(acc: Lists, more: Lists): Lists
  {
    Lists(acc.orgs + more.orgs, acc.standards + more.standards, acc.titles + more.titles)
  }

  /** The outer loop over the groups: the accumulators, or the error of a group without an ORG. */
  function MasterLists(groups: seq<Element>): (r: Result<Lists, Error>)
    ensures r.Failure? ==> r.error == MissingElement("ORG")
  {
    if groups == [] then Success(NoLists)
    else
      match MasterLists(groups[..|groups| - 1])
      case Failure(e) => Failure(e)
      case Success(acc) =>
        var group := groups[|groups| - 1];
        match Find(group, "ORG")
        case None => Failure(MissingElement("ORG"))
        case Some(org) => Success(Extend(acc, GroupLists(org.text, FindAll(group, "RID"), FindAll(group, "RTL"))))
  }

  /** The smallest of three lengths. */
  function Min3(a: nat, b: nat, c: nat): nat
  {
    if a <= b && a <= c then a else if b <= c then b else c
  }

  /** `zip(orgs, standards, titles)`: one row per position of the shortest list. */
  function Zip3(lists: Lists): (r: seq<MasterRow>)
    decreases |lists.orgs|
    ensures |r| == Min3(|lists.orgs|, |lists.standards|, |lists.titles|)
    ensures forall j :: 0 <= j < |r| ==>
      r[j] == MasterRow(lists.orgs[j], lists.standards[j], lists.titles[j])
  {
    if lists.orgs == [] || lists.standards == [] || lists.titles == [] then []
    else
      [MasterRow(lists.orgs[0], lists.standards[0], lists.titles[0])] +
      Zip3(Lists(lists.orgs[1..], lists.standards[1..], lists.titles[1..]))
  }

  /** The table the script writes for a parse outcome of MASTER.REF, or what ends the run. */
  function MasterTable(parsed: Parse): (r: Result<MasterReport, Error>)
    ensures r == Failure(ParseFailed) <==> parsed.Malformed?
    ensures r.Failure? ==> r.error in {ParseFailed, MissingElement("ORG")}
    ensures r.Success? ==> r.value.header == ColumnNames
  {
    match parsed
    case Malformed => Failure(ParseFailed)
    case Parsed(root) =>
      match MasterLists(FindAll(root, "REF"))
      case Failure(e) => Failure(e)
      case Success(lists) => Success(MasterReport(ColumnNames, Zip3(lists)))
  }

  /** The script: parse, the outer loop over the REF children of the root, then the zip. */
  method ScrapeMaster(parsed: Parse) returns (r: Result<MasterReport, Error>)
    ensures r == MasterTable(parsed)
  {
    if parsed.Malformed? {
      return Failure(ParseFailed);
    }
    var refs := FindAll(parsed.root, "REF");
    var orgs: seq<Option<string>> := [];
    var standards: seq<Option<string>> := [];
    var titles: seq<Option<string>> := [];

    var k := 0;
    while k < |refs|
      invariant k <= |refs|
      invariant MasterLists(refs[..k]) == Success(Lists(orgs, standards, titles))
    {
      var ref := refs[k];
      MasterListsStep(refs, k);
      var orgElement := Find(ref, "ORG");
      if orgElement.None? {
        MasterListsFailureStands(refs, k + 1);
        return Failure(MissingElement("ORG"));
      }
      var org := orgElement.value.text;
      var standardsRaw := FindAll(ref, "RID");
      var titlesRaw := FindAll(ref, "RTL");
      orgs, standards, titles := AppendGroup(orgs, standards, titles, org, standardsRaw, titlesRaw);
      k := k + 1;
    }
    assert refs[..|refs|] == refs;
    var columnNames := ColumnNames;
    return Success(MasterReport(columnNames, Zip3(Lists(orgs, standards, titles))));
  }

  /**
   * The inner `for i in range(len(standards_raw))` loop inside its
   * `try`: each turn appends the organization and the i-th RID text,
   * then indexes the RTLs; an IndexError there ends the loop with that
   * turn's title missing.
   */
  method AppendGroup(orgs0: seq<Option<string>>, standards0: seq<Option<string>>, titles0: seq<Option<string>>,
                     org: Option<string>, standardsRaw: seq<Element>, titlesRaw: seq<Element>)
    returns (orgs: seq<Option<string>>, standards: seq<Option<string>>, titles: seq<Option<string>>)
    ensures Lists(orgs, standards, titles) ==
      Extend(Lists(orgs0, standards0, titles0), GroupLists(org, standardsRaw, titlesRaw))
  {
    orgs, standards, titles := orgs0, standards0, titles0;
    var i := 0;
    while i < |standardsRaw|
      invariant i <= |standardsRaw| && i <= |titlesRaw|
      invariant orgs == orgs0 + Repeat(org, i)
      invariant standards == standards0 + Texts(standardsRaw[..i])
      invariant titles == titles0 + Texts(titlesRaw[..i])
    {
      RepeatSnoc(org, i);
      TextsSnoc(standardsRaw, i);
      orgs := orgs + [org];
      standards := standards + [standardsRaw[i].text];
      if |titlesRaw| <= i {
        break;
      }
      TextsSnoc(titlesRaw, i);
      titles := titles + [titlesRaw[i].text];
      i := i + 1;
    }
  }

  /** One more copy at the end. */
  lemma RepeatSnoc<T>(x: T, n: nat)
    ensures Repeat(x, n) + [x] == Repeat(x, n + 1)
  {
    assert forall j :: 0 <= j < n + 1 ==> (Repeat(x, n) + [x])[j] == x;
  }

  /** The texts of one more element. */
  lemma TextsSnoc(es: seq<Element>, i: nat)
    requires i < |es|
    ensures Texts(es[..i]) + [es[i].text] == Texts(es[..i + 1])
  {
    assert forall j :: 0 <= j < i + 1 ==> (Texts(es[..i]) + [es[i].text])[j] == es[..i + 1][j].text;
  }

  /** One more group of the list, after groups that did not raise: it raises without an ORG, otherwise it appends. */
  lemma MasterListsStep(groups: seq<Element>, k: nat)
    requires k < |groups| && MasterLists(groups[..k]).Success?
    ensures Find(groups[k], "ORG").None? ==> MasterLists(groups[..k + 1]) == Failure(MissingElement("ORG"))
    ensures Find(groups[k], "ORG").Some? ==>
      MasterLists(groups[..k + 1]) == Success(Extend(MasterLists(groups[..k]).value, GroupLists(OrgText(groups[k]), FindAll(groups[k], "RID"), FindAll(groups[k], "RTL"))))
  {
    assert groups[..k + 1][..k] == groups[..k];
  }

  /** Once a group without an ORG has raised, the run has failed, whatever groups follow. */
  lemma {:induction false} MasterListsFailureStands(groups: seq<Element>, n: nat)
    requires n <= |groups| && MasterLists(groups[..n]).Failure?
    ensures MasterLists(groups) == MasterLists(groups[..n])
    decreases |groups| - n
  {
    if n == |groups| {
      assert groups[..n] == groups;
    } else {
      var front := groups[..|groups| - 1];
      assert front[..n] == groups[..n];
      MasterListsFailureStands(front, n);
    }
  }

  /** Number of groups with fewer RTLs than RIDs. */
  function ShortGroups(groups: seq<Element>): nat
  {
    if groups == [] then 0
    else ShortGroups(groups[..|groups| - 1]) + (if IsShort(groups[|groups| - 1]) then 1 else 0)
  }

  /** Number of (RID, RTL) pairs the inner loops complete over all groups. */
  function Pairs(groups: seq<Element>): nat
  {
    if groups == [] then 0
    else
      var group := groups[|groups| - 1];
      Pairs(groups[..|groups| - 1]) + Completed(FindAll(group, "RID"), FindAll(group, "RTL"))
  }

  /**
   * The misalignment invariant: `orgs` and `standards` always have the
   * same length, which exceeds that of `titles` by the number of short
   * groups; `titles` holds one entry per completed pair.
   */
  lemma {:induction false} MasterListsLengths(groups: seq<Element>)
    requires MasterLists(groups).Success?
    ensures var lists := MasterLists(groups).value;
      |lists.orgs| == |lists.standards| == |lists.titles| + ShortGroups(groups) &&
      |lists.titles| == Pairs(groups)
  {
    if groups != [] {
      MasterListsLengths(groups[..|groups| - 1]);
    }
  }

  /** The run fails (with the error `MasterLists` promises) exactly when some group has no ORG child. */
  lemma {:induction false} MasterListsFailure(groups: seq<Element>)
    ensures MasterLists(groups).Failure? <==>
      exists j :: 0 <= j < |groups| && Find(groups[j], "ORG").None?
  {
    if groups != [] {
      var front := groups[..|groups| - 1];
      var last := |groups| - 1;
      MasterListsFailure(front);
      if MasterLists(front).Failure? {
        var j :| 0 <= j < |front| && Find(front[j], "ORG").None?;
        assert groups[j] == front[j];
      } else if Find(groups[last], "ORG").None? {
        assert 0 <= last < |groups| && Find(groups[last], "ORG").None?;
      } else {
        assert forall j :: 0 <= j < |front| ==> groups[j] == front[j];
        assert forall j :: 0 <= j < |groups| ==> Find(groups[j], "ORG").Some?;
      }
    }
  }

  /** A group with an ORG but no RID appends nothing. */
  lemma GroupWithoutRids(groups: seq<Element>, group: Element)
    requires Find(group, "ORG").Some? && FindAll(group, "RID") == []
    ensures MasterLists(groups + [group]) == MasterLists(groups)
  {
    var all := groups + [group];
    assert all[..|all| - 1] == groups;
    if MasterLists(groups).Success? {
      var acc := MasterLists(groups).value;
      assert Extend(acc, GroupLists(Find(group, "ORG").value.text, [], FindAll(group, "RTL"))) == acc;
    }
  }

  /** RTLs beyond the number of RIDs are never looked at. */
  lemma ExtraTitlesIgnored(org: Option<string>, rids: seq<Element>, rtls: seq<Element>, extra: seq<Element>)
    requires |rids| <= |rtls|
    ensures GroupLists(org, rids, rtls + extra) == GroupLists(org, rids, rtls)
  {
    assert (rtls + extra)[..|rids|] == rtls[..|rids|];
  }

  /** The rows a group should give: one per completed pair, with the group's organization. */
  function GroupRows(org: Option<string>, rids: seq<Element>, rtls: seq<Element>): seq<MasterRow>
  {
    seq(Completed(rids, rtls), j requires 0 <= j < Completed(rids, rtls) => MasterRow(org, rids[j].text, rtls[j].text))
  }

  /** The ORG text of a group, `None` when there is no ORG. */
  function OrgText(group: Element): Option<string>
  {
    match Find(group, "ORG")
    case None => None
    case Some(org) => org.text
  }

  /** The table as the groups describe it: the rows of each group in turn. */
  function AlignedRows(groups: seq<Element>): seq<MasterRow>
  {
    if groups == [] then []
    else
      var group := groups[|groups| - 1];
      AlignedRows(groups[..|groups| - 1]) + GroupRows(OrgText(group), FindAll(group, "RID"), FindAll(group, "RTL"))
  }

  /** Zipping lists of equal length and then more lists is zipping each part. */
  lemma {:induction false} Zip3Extend(acc: Lists, more: Lists)
    requires |acc.orgs| == |acc.standards| == |acc.titles|
    requires |more.orgs| == |more.standards| == |more.titles|
    ensures Zip3(Extend(acc, more)) == Zip3(acc) + Zip3(more)
    decreases |acc.orgs|
  {
    if acc.orgs == [] {
      assert Extend(acc, more) == more;
    } else {
      var rest := Rest(acc);
      var row := MasterRow(acc.orgs[0], acc.standards[0], acc.titles[0]);
      calc {
        Zip3(Extend(acc, more));
        { ExtendRest(acc, more); Zip3Cons(Extend(acc, more)); }
        [row] + Zip3(Extend(rest, more));
        { Zip3Extend(rest, more); }
        [row] + (Zip3(rest) + Zip3(more));
        ([row] + Zip3(rest)) + Zip3(more);
        { Zip3Cons(acc); }
        Zip3(acc) + Zip3(more);
      }
    }
  }

  /** Every list without its first entry. */
  function Rest(lists: Lists): Lists
    requires lists.orgs != [] && lists.standards != [] && lists.titles != []
  {
    Lists(lists.orgs[1..], lists.standards[1..], lists.titles[1..])
  }

  /** Zipping non-empty lists gives the row of their first entries, then the zip of the rest. */
  lemma Zip3Cons(lists: Lists)
    requires lists.orgs != [] && lists.standards != [] && lists.titles != []
    ensures Zip3(lists) == [MasterRow(lists.orgs[0], lists.standards[0], lists.titles[0])] + Zip3(Rest(lists))
  {
  }

  /** Extending non-empty accumulators keeps their first entries and extends the rest. */
  lemma ExtendRest(acc: Lists, more: Lists)
    requires acc.orgs != [] && acc.standards != [] && acc.titles != []
    ensures Extend(acc, more).orgs[0] == acc.orgs[0] && Extend(acc, more).standards[0] == acc.standards[0]
    ensures Extend(acc, more).titles[0] == acc.titles[0]
    ensures Rest(Extend(acc, more)) == Extend(Rest(acc), more)
  {
    assert (acc.orgs + more.orgs)[1..] == acc.orgs[1..] + more.orgs;
    assert (acc.standards + more.standards)[1..] == acc.standards[1..] + more.standards;
    assert (acc.titles + more.titles)[1..] == acc.titles[1..] + more.titles;
  }

  /** A group that is not short zips into its own rows. */
  lemma GroupZip(org: Option<string>, rids: seq<Element>, rtls: seq<Element>)
    requires |rids| <= |rtls|
    ensures Zip3(GroupLists(org, rids, rtls)) == GroupRows(org, rids, rtls)
  {
  }

  /**
   * Without short groups the three lists stay aligned: the table is the
   * rows of each group in turn, every row pairing a RID with the RTL at
   * the same position of the same group, under that group's ORG.
   */
  lemma {:induction false} AlignedWithoutShortGroups(groups: seq<Element>)
    requires MasterLists(groups).Success? && ShortGroups(groups) == 0
    ensures Zip3(MasterLists(groups).value) == AlignedRows(groups)
  {
    if groups != [] {
      var front := groups[..|groups| - 1];
      var group := groups[|groups| - 1];
      AlignedWithoutShortGroups(front);
      MasterListsLengths(front);
      var rids, rtls := FindAll(group, "RID"), FindAll(group, "RTL");
      var more := GroupLists(OrgText(group), rids, rtls);
      Zip3Extend(MasterLists(front).value, more);
      GroupZip(OrgText(group), rids, rtls);
    }
  }

  /**
   * The run writes a table exactly when MASTER.REF parses and every REF
   * child of its root has an ORG child.  The table then has the header
   * Organization, Standard, Title and one row per completed pair; row j
   * is (orgs[j], standards[j], titles[j]).
   */
  lemma MasterTableSpec(parsed: Parse)
    ensures MasterTable(parsed).Success? <==>
      parsed.Parsed? && forall j :: 0 <= j < |FindAll(parsed.root, "REF")| ==> Find(FindAll(parsed.root, "REF")[j], "ORG").Some?
    ensures MasterTable(parsed).Success? ==>
      var lists := MasterLists(FindAll(parsed.root, "REF")).value;
      var rows := MasterTable(parsed).value.rows;
      MasterTable(parsed).value.header == ColumnNames &&
      |rows| == |lists.titles| == Pairs(FindAll(parsed.root, "REF")) &&
      forall j :: 0 <= j < |rows| ==> rows[j] == MasterRow(lists.orgs[j], lists.standards[j], lists.titles[j])
  {
    if parsed.Parsed? {
      var refs := FindAll(parsed.root, "REF");
      MasterListsFailure(refs);
      if MasterLists(refs).Success? {
        MasterListsLengths(refs);
      }
    }
  }

  /**
   * The drift, shown on two groups: the first has RIDs r1, r2 but only
   * the RTL t1, the second has RID r3 and RTL t3.  The table has two
   * rows, and the second pairs the first group's organization and RID
   * r2 with the second group's title t3; RID r3 is lost.
   */
  lemma ShortGroupShiftsTitles(root: Element, g1: Element, g2: Element, r1: Element, r2: Element, t1: Element, r3: Element, t3: Element)
    requires FindAll(root, "REF") == [g1, g2]
    requires Find(g1, "ORG").Some? && Find(g2, "ORG").Some?
    requires FindAll(g1, "RID") == [r1, r2] && FindAll(g1, "RTL") == [t1]
    requires FindAll(g2, "RID") == [r3] && FindAll(g2, "RTL") == [t3]
    ensures MasterTable(Parsed(root)) == Success(MasterReport(ColumnNames, [
      MasterRow(OrgText(g1), r1.text, t1.text),
      MasterRow(OrgText(g1), r2.text, t3.text)]))
  {
    MasterListsSnoc([], g1);
    assert [] + [g1] == [g1] && [g1] + [g2] == [g1, g2];
    MasterListsSnoc([g1], g2);
    ShortGroupRows(OrgText(g1), OrgText(g2), r1, r2, t1, r3, t3);
  }

  /** The accumulators and the zip behind `ShortGroupShiftsTitles`. */
  lemma ShortGroupRows(o1: Option<string>, o2: Option<string>, r1: Element, r2: Element, t1: Element, r3: Element, t3: Element)
    ensures Zip3(Extend(Extend(NoLists, GroupLists(o1, [r1, r2], [t1])), GroupLists(o2, [r3], [t3]))) ==
      [MasterRow(o1, r1.text, t1.text), MasterRow(o1, r2.text, t3.text)]
  {
    var a, b := GroupLists(o1, [r1, r2], [t1]), GroupLists(o2, [r3], [t3]);
    assert a.orgs == [o1, o1] && a.standards == [r1.text, r2.text] && a.titles == [t1.text];
    assert b.orgs == [o2] && b.standards == [r3.text] && b.titles == [t3.text];
    var lists := Extend(Extend(NoLists, a), b);
    assert lists == Lists([o1, o1, o2], [r1.text, r2.text, r3.text], [t1.text, t3.text]);
    var z := Zip3(lists);
    assert |z| == 2 && z[0] == MasterRow(o1, r1.text, t1.text) && z[1] == MasterRow(o1, r2.text, t3.text);
  }

  /** One more group with an ORG extends the accumulators by what that group appends. */
  lemma MasterListsSnoc(groups: seq<Element>, group: Element)
    requires MasterLists(groups).Success? && Find(group, "ORG").Some?
    ensures MasterLists(groups + [group]) ==
      Success(Extend(MasterLists(groups).value, GroupLists(OrgText(group), FindAll(group, "RID"), FindAll(group, "RTL"))))
  {
    var all := groups + [group];
    assert all[..|all| - 1] == groups;
  }
}
