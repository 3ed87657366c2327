/**
 * The spreadsheet report: the per-site electrician summary and the
 * "Employee List" sheet, whose group header rows the summary links to.
 * Sheets are modelled as sequences of rows; row r of a sheet (counted from 1,
 * as the spreadsheet does) is element r - 1.
 */
module ExcelReport {
  import opened Wrappers
  import opened Strings
  import opened Reconciler

  /** An employee the summary counts for a site: stored at exactly that site
      name (case-sensitive) and not Sick. */
  predicate CountedAt(e: Employee, site: string) {
    e.jobSite == Some(site) && e.currentStatus != "Sick"
  }

  /** A role containing "electrician" in any case, which includes fire alarm
      and roughing electricians. */
  predicate IsElectrician(e: Employee) {
    Contains(Lower(e.role), "electrician")
  }

  /** The counted electricians of a site, in directory order. */
  function Electricians(emps: seq<Employee>, site: string): (r: seq<Employee>)
    ensures |r| <= |emps|
  {
    if emps == [] then []
    else
      var e := emps[|emps| - 1];
      Electricians(emps[..|emps| - 1], site) + (if CountedAt(e, site) && IsElectrician(e) then [e] else [])
  }

  /** The skills an employee lists; none when the record has no list. */
  function SkillsOf(e: Employee): seq<string> {
    if e.skills.Some? then e.skills.value else []
  }

  /** How often each skill occurs across the employees' skill lists. */
  function SkillCounts(emps: seq<Employee>): multiset<string> {
    if emps == [] then multiset{}
    else SkillCounts(emps[..|emps| - 1]) + multiset(SkillsOf(emps[|emps| - 1]))
  }

  /** One row of the summary sheet: the site name, the count for each skill
      column "Electricians (skill)" — a skill has a column exactly when its
      count is positive — and "Total Electricians". */
  datatype SummaryRow = SummaryRow(jobSite: string, skillCounts: multiset<string>, total: nat)

  /** The summary row of one site. */
  function SiteSummary(emps: seq<Employee>, site: string): SummaryRow {
    var el := Electricians(emps, site);
    SummaryRow(site, SkillCounts(el), |el|)
  }

  /** The counted electricians of a site are exactly the employees stored at
      that site, not Sick, whose role contains "electrician". */
  lemma {:induction false} ElectriciansSpec(emps: seq<Employee>, site: string)
    ensures forall e :: e in Electricians(emps, site) <==> e in emps && CountedAt(e, site) && IsElectrician(e)
  {
    if emps != [] {
      var init := emps[..|emps| - 1];
      ElectriciansSpec(init, site);
      assert emps == init + [emps[|emps| - 1]];
    }
  }

  /** The total is the number of employees the site counts as electricians. */
  lemma {:induction false} TotalCountsElectricians(emps: seq<Employee>, site: string)
    ensures SiteSummary(emps, site).total == |set j | 0 <= j < |emps| && CountedAt(emps[j], site) && IsElectrician(emps[j])|
  {
    if emps != [] {
      var init := emps[..|emps| - 1];
      var n := |emps| - 1;
      TotalCountsElectricians(init, site);
      var a := set j | 0 <= j < |init| && CountedAt(init[j], site) && IsElectrician(init[j]);
      var b := set j | 0 <= j < |emps| && CountedAt(emps[j], site) && IsElectrician(emps[j]);
      forall j | j in a ensures j in b {
        assert emps[j] == init[j];
      }
      forall j | j in b && j != n ensures j in a {
        assert emps[j] == init[j];
      }
      assert n !in a;
      if CountedAt(emps[n], site) && IsElectrician(emps[n]) {
        assert b == a + {n};
      } else {
        assert b == a;
      }
    }
  }

  /** A skill has a column in a site's row exactly when some counted
      electrician of the site lists it. */
  lemma {:induction false} SkillColumnIff(emps: seq<Employee>, site: string, skill: string)
    ensures SiteSummary(emps, site).skillCounts[skill] > 0
            <==> exists e :: e in emps && CountedAt(e, site) && IsElectrician(e) && skill in SkillsOf(e)
  {
    ElectriciansSpec(emps, site);
    SkillCountsIff(Electricians(emps, site), skill);
  }

  lemma {:induction false} SkillCountsIff(emps: seq<Employee>, skill: string)
    ensures SkillCounts(emps)[skill] > 0 <==> exists e :: e in emps && skill in SkillsOf(e)
  {
    if emps != [] {
      var init := emps[..|emps| - 1];
      SkillCountsIff(init, skill);
      assert emps == init + [emps[|emps| - 1]];
    }
  }

  /** `convert_json_to_excel`'s loop over the job sites: one summary row per
      site, in the order of the sites. */
  method BuildSummary(emps: seq<Employee>, sites: seq<string>) returns (summary: seq<SummaryRow>)
    ensures |summary| == |sites|
    ensures forall i :: 0 <= i < |sites| ==> summary[i] == SiteSummary(emps, sites[i])
  {
    summary := [];
    for i := 0 to |sites|
      invariant |summary| == i
      invariant forall k :: 0 <= k < i ==> summary[k] == SiteSummary(emps, sites[k])
    {
      summary := summary + [SiteSummary(emps, sites[i])];
    }
  }

  /** One row of the "Employee List" sheet. */
  datatype ListRow = ColumnHeaders | GroupHeader(jobSite: string) | Member(name: string, role: string, skills: string) | Blank

  /** The employees stored at a site, in directory order (one group of the
      grouping by site; an employee without a site is in no group). */
  function Group(emps: seq<Employee>, site: string): (r: seq<Employee>)
    ensures |r| <= |emps|
  {
    if emps == [] then []
    else
      var e := emps[|emps| - 1];
      Group(emps[..|emps| - 1], site) + (if e.jobSite == Some(site) then [e] else [])
  }

  /** Grouping works employee by employee, so it keeps directory order: the
      group of a concatenation is the concatenation of the groups. */
  lemma {:induction false} GroupAppend(a: seq<Employee>, b: seq<Employee>, site: string)
    ensures Group(a + b, site) == Group(a, site) + Group(b, site)
    decreases |b|
  {
    if b == [] {
      assert a + b == a;
    } else {
      var front, last := b[..|b| - 1], b[|b| - 1];
      assert (a + b)[..|a + b| - 1] == a + front;
      assert (a + b)[|a + b| - 1] == last;
      GroupAppend(a, front, site);
      AppendAssoc(Group(a, site), Group(front, site), if last.jobSite == Some(site) then [last] else []);
    }
  }

  /** A group has one entry per employee stored at the site, so no member is
      listed twice or left out. */
  lemma {:induction false} GroupCount(emps: seq<Employee>, site: string)
    ensures |Group(emps, site)| == |set j | 0 <= j < |emps| && emps[j].jobSite == Some(site)|
  {
    if emps != [] {
      var init := emps[..|emps| - 1];
      var n := |emps| - 1;
      GroupCount(init, site);
      var a := set j | 0 <= j < |init| && init[j].jobSite == Some(site);
      var b := set j | 0 <= j < |emps| && emps[j].jobSite == Some(site);
      forall j | j in a ensures j in b {
        assert emps[j] == init[j];
      }
      forall j | j in b && j != n ensures j in a {
        assert emps[j] == init[j];
      }
      assert n !in a;
      if emps[n].jobSite == Some(site) {
        assert b == a + {n};
      } else {
        assert b == a;
      }
    }
  }

  lemma {:induction false} GroupSpec(emps: seq<Employee>, site: string)
    ensures forall e :: e in Group(emps, site) <==> e in emps && e.jobSite == Some(site)
  {
    if emps != [] {
      var init := emps[..|emps| - 1];
      GroupSpec(init, site);
      assert emps == init + [emps[|emps| - 1]];
    }
  }

  /** A member's row: name, role, and the skills joined by ", " (empty when
      the record has no skill list). */
  function MemberRow(e: Employee): ListRow {
    Member(e.text, e.role, if e.skills.Some? then Join(e.skills.value, ", ") else "")
  }

  /** One row per employee, in order. */
  function MemberRows(g: seq<Employee>): (r: seq<ListRow>)
    ensures |r| == |g|
  {
    if g == [] then [] else MemberRows(g[..|g| - 1]) + [MemberRow(g[|g| - 1])]
  }

  /** Row m of the member rows is member m's row. */
  lemma {:induction false} MemberRowsAt(g: seq<Employee>, m: nat)
    requires m < |g|
    ensures MemberRows(g)[m] == MemberRow(g[m])
  {
    if m < |g| - 1 {
      MemberRowsAt(g[..|g| - 1], m);
    }
  }

  /** A group: its header row, one row per member, and a blank row. */
  function GroupBlock(emps: seq<Employee>, site: string): (r: seq<ListRow>)
    ensures |r| == |Group(emps, site)| + 2 && r[0] == GroupHeader(site) && r[|r| - 1] == Blank
  {
    [GroupHeader(site)] + MemberRows(Group(emps, site)) + [Blank]
  }

  /** The groups of the given sites, one after the other. */
  function GroupBlocks(emps: seq<Employee>, order: seq<string>): seq<ListRow> {
    if order == [] then []
    else GroupBlocks(emps, order[..|order| - 1]) + GroupBlock(emps, order[|order| - 1])
  }

  /** The "Employee List" sheet: the column headers, then the groups in the
      given order of sites. */
  function EmployeeListSheet(emps: seq<Employee>, order: seq<string>): seq<ListRow> {
    [ColumnHeaders] + GroupBlocks(emps, order)
  }

  /** The row where group k starts: row 2 for the first group, and each group
      takes its member count plus two rows. */
  function GroupStart(emps: seq<Employee>, order: seq<string>, k: nat): (r: nat)
    requires k <= |order|
    ensures r >= 2 + 2 * k
  {
    if k == 0 then 2 else GroupStart(emps, order, k - 1) + |Group(emps, order[k - 1])| + 2
  }

  /** The groups of two runs of sites are the groups of each, one after the other. */
  lemma {:induction false} GroupBlocksAppend(emps: seq<Employee>, a: seq<string>, b: seq<string>)
    ensures GroupBlocks(emps, a + b) == GroupBlocks(emps, a) + GroupBlocks(emps, b)
    decreases |b|
  {
    if b == [] {
      assert a + b == a;
    } else {
      var front := b[..|b| - 1];
      var last := b[|b| - 1];
      assert (a + b)[..|a + b| - 1] == a + front;
      assert (a + b)[|a + b| - 1] == last;
      GroupBlocksAppend(emps, a, front);
      var blk := GroupBlock(emps, last);
      assert GroupBlocks(emps, a + b) == GroupBlocks(emps, a + front) + blk;
      assert GroupBlocks(emps, b) == GroupBlocks(emps, front) + blk;
      AppendAssoc(GroupBlocks(emps, a), GroupBlocks(emps, front), blk);
    }
  }

  /** The groups before group k fill the rows from 2 up to its start. */
  lemma {:induction false} GroupStartLength(emps: seq<Employee>, order: seq<string>, k: nat)
    requires k <= |order|
    ensures GroupStart(emps, order, k) == 2 + |GroupBlocks(emps, order[..k])|
  {
    if k > 0 {
      GroupStartLength(emps, order, k - 1);
      assert order[..k][..k - 1] == order[..k - 1];
    }
  }

  /** Group k's header sits on row GroupStart(k), its members on the rows
      after it (member m on row GroupStart(k) + 1 + m, element GroupStart(k) + m),
      and its blank row after them. */
  lemma GroupRows(emps: seq<Employee>, order: seq<string>, k: nat, m: nat)
    requires k < |order| && m < |Group(emps, order[k])|
    ensures var sheet := EmployeeListSheet(emps, order);
            var start := GroupStart(emps, order, k);
            var g := Group(emps, order[k]);
            start + |g| < |sheet|
            && sheet[start - 1] == GroupHeader(order[k])
            && sheet[start + m] == MemberRow(g[m])
            && sheet[start + |g|] == Blank
  {
    var sheet := EmployeeListSheet(emps, order);
    var start := GroupStart(emps, order, k);
    var g := Group(emps, order[k]);
    var front := [ColumnHeaders] + GroupBlocks(emps, order[..k]);
    var blk := GroupBlock(emps, order[k]);
    GroupStartLength(emps, order, k);
    assert |front| == start - 1;
    SheetSplit(emps, order, k);
    IndexInto(front, blk, GroupBlocks(emps, order[k + 1..]));
    assert sheet[start - 1] == blk[0];
    assert sheet[start + |g|] == blk[|blk| - 1];
    MemberRowsAt(g, m);
    assert blk[1 + m] == MemberRows(g)[m];
    assert sheet[start + m] == blk[1 + m];
  }

  /** The sheet is the groups before group k, group k, and the groups after it. */
  lemma SheetSplit(emps: seq<Employee>, order: seq<string>, k: nat)
    requires k < |order|
    ensures EmployeeListSheet(emps, order)
            == [ColumnHeaders] + GroupBlocks(emps, order[..k]) + GroupBlock(emps, order[k])
               + GroupBlocks(emps, order[k + 1..])
  {
    var a, b, c := order[..k], [order[k]], order[k + 1..];
    assert order == a + b + c;
    GroupBlocksAppend(emps, a + b, c);
    GroupBlocksAppend(emps, a, b);
    assert GroupBlocks(emps, b) == GroupBlock(emps, order[k]) by {
      assert b[..0] == [];
    }
  }

  lemma AppendAssoc<T>(x: seq<T>, y: seq<T>, z: seq<T>)
    ensures (x + y) + z == x + (y + z)
  {
  }

  lemma IndexInto<T>(a: seq<T>, b: seq<T>, c: seq<T>)
    ensures forall i :: 0 <= i < |b| ==> (a + b + c)[|a| + i] == b[i]
  {
  }

  /** Every employee with a site in the order is listed, Sick or not. */
  lemma ListIncludesEveryone(emps: seq<Employee>, order: seq<string>, e: Employee)
    requires e in emps && e.jobSite.Some? && e.jobSite.value in order
    ensures MemberRow(e) in EmployeeListSheet(emps, order)
  {
    var k :| 0 <= k < |order| && order[k] == e.jobSite.value;
    GroupSpec(emps, order[k]);
    var g := Group(emps, order[k]);
    var m :| 0 <= m < |g| && g[m] == e;
    GroupRows(emps, order, k, m);
  }

  /** The row mapping after the first n groups: each group's site name maps
      to its start row. */
  function RowMapping(emps: seq<Employee>, order: seq<string>, n: nat): map<string, nat>
    requires n <= |order|
  {
    if n == 0 then map[]
    else RowMapping(emps, order, n - 1)[order[n - 1] := GroupStart(emps, order, n - 1)]
  }

  predicate Distinct(order: seq<string>) {
    forall i, j :: 0 <= i < j < |order| ==> order[i] != order[j]
  }

  /** The mapping after n groups holds exactly the first n site names. */
  lemma {:induction false} RowMappingKeys(emps: seq<Employee>, order: seq<string>, n: nat, site: string)
    requires n <= |order|
    ensures site in RowMapping(emps, order, n) <==> site in order[..n]
  {
    if n > 0 {
      RowMappingKeys(emps, order, n - 1, site);
      assert order[..n] == order[..n - 1] + [order[n - 1]];
    }
  }

  /** With distinct site names, each of the first n names maps to the start
      row of its own group. */
  lemma {:induction false} RowMappingValue(emps: seq<Employee>, order: seq<string>, n: nat, k: nat)
    requires k < n <= |order| && Distinct(order)
    ensures order[k] in RowMapping(emps, order, n)
    ensures RowMapping(emps, order, n)[order[k]] == GroupStart(emps, order, k)
  {
    if k < n - 1 {
      RowMappingValue(emps, order, n - 1, k);
      assert order[k] != order[n - 1];
    }
  }

  /** `convert_json_to_excel`'s Employee List: a row counter starts at 1 for
      the column headers; each group records its start row in the mapping,
      writes its header, one row per member and a blank row. */
  method WriteEmployeeList(emps: seq<Employee>, order: seq<string>)
    returns (sheet: seq<ListRow>, mapping: map<string, nat>)
    ensures sheet == EmployeeListSheet(emps, order)
    ensures mapping == RowMapping(emps, order, |order|)
  {
    var currentRow := 1;
    sheet := [ColumnHeaders];
    currentRow := currentRow + 1;
    mapping := map[];
    for k := 0 to |order|
      invariant sheet == [ColumnHeaders] + GroupBlocks(emps, order[..k])
      invariant currentRow == |sheet| + 1 == GroupStart(emps, order, k)
      invariant mapping == RowMapping(emps, order, k)
    {
      ListStep(emps, order, k);
      AppendAssoc([ColumnHeaders], GroupBlocks(emps, order[..k]), GroupBlock(emps, order[k]));
      mapping := mapping[order[k] := currentRow];
      sheet, currentRow := WriteGroup(emps, order[k], sheet, currentRow);
    }
    assert order[..|order|] == order;
  }

  /** Group k extends the sheet by its block, the start row by the block's
      length, and the mapping by its own start row. */
  lemma ListStep(emps: seq<Employee>, order: seq<string>, k: nat)
    requires k < |order|
    ensures GroupBlocks(emps, order[..k + 1]) == GroupBlocks(emps, order[..k]) + GroupBlock(emps, order[k])
    ensures GroupStart(emps, order, k + 1) == GroupStart(emps, order, k) + |GroupBlock(emps, order[k])|
    ensures RowMapping(emps, order, k + 1) == RowMapping(emps, order, k)[order[k] := GroupStart(emps, order, k)]
  {
    assert order[..k + 1][..k] == order[..k];
  }

  /** One group of the Employee List: the header row, a row per member, and
      the blank row, each advancing the row counter. */
  method WriteGroup(emps: seq<Employee>, site: string, sheet: seq<ListRow>, currentRow: nat)
    returns (newSheet: seq<ListRow>, newRow: nat)
    requires currentRow == |sheet| + 1
    ensures newSheet == sheet + GroupBlock(emps, site)
    ensures newRow == |newSheet| + 1
  {
    newSheet := sheet + [GroupHeader(site)];
    newRow := currentRow + 1;
    var group := Group(emps, site);
    for m := 0 to |group|
      invariant newSheet == sheet + [GroupHeader(site)] + MemberRows(group[..m])
      invariant newRow == |newSheet| + 1
    {
      newSheet := newSheet + [MemberRow(group[m])];
      newRow := newRow + 1;
      assert group[..m + 1][..m] == group[..m];
    }
    assert group[..|group|] == group;
    newSheet := newSheet + [Blank];
    newRow := newRow + 1;
  }

  /** A link to column A of the "Employee List" sheet, before the row number. */
  const LinkPrefix: string := "#'Employee List'!A"

  /** The link a summary cell gets: to cell A of its group's header row, when
      its site name is a key of the mapping. The row number after the prefix
      reads back as the mapped row. */
  function Hyperlink(site: string, mapping: map<string, nat>): (r: Option<string>)
    ensures r.Some? <==> site in mapping
    ensures r.Some? ==>
              |LinkPrefix| < |r.value| && r.value[..|LinkPrefix|] == LinkPrefix
              && (forall i :: |LinkPrefix| <= i < |r.value| ==> '0' <= r.value[i] <= '9')
              && DigitsValue(r.value[|LinkPrefix|..]) == mapping[site]
  {
    if site in mapping then
      var digits := NatToString(mapping[site]);
      NatToStringValue(mapping[site]);
      assert (LinkPrefix + digits)[|LinkPrefix|..] == digits;
      Some(LinkPrefix + digits)
    else None
  }

  /** The loop over the summary rows that adds the hyperlinks. */
  method AddHyperlinks(summary: seq<SummaryRow>, mapping: map<string, nat>) returns (links: seq<Option<string>>)
    ensures |links| == |summary|
    ensures forall i :: 0 <= i < |summary| ==> links[i] == Hyperlink(summary[i].jobSite, mapping)
  {
    links := [];
    for i := 0 to |summary|
      invariant |links| == i
      invariant forall k :: 0 <= k < i ==> links[k] == Hyperlink(summary[k].jobSite, mapping)
    {
      var site := summary[i].jobSite;
      if site in mapping {
        links := links + [Some(LinkPrefix + NatToString(mapping[site]))];
      } else {
        links := links + [None];
      }
    }
  }

  /** The group order is the distinct site names the employees are stored at. */
  predicate GroupsOf(emps: seq<Employee>, order: seq<string>) {
    Distinct(order)
    && (forall k :: 0 <= k < |order| ==> exists e :: e in emps && e.jobSite == Some(order[k]))
    && (forall e :: e in emps && e.jobSite.Some? ==> e.jobSite.value in order)
  }

  /** A site's summary cell is linked exactly when some employee is stored at
      that site — Sick or not, electrician or not — and then to the header row
      of that site's group. */
  lemma HyperlinkIff(emps: seq<Employee>, order: seq<string>, site: string)
    requires GroupsOf(emps, order)
    ensures var link := Hyperlink(site, RowMapping(emps, order, |order|));
            (link.Some? <==> exists e :: e in emps && e.jobSite == Some(site))
            && forall k :: 0 <= k < |order| && order[k] == site ==>
                 link == Some(LinkPrefix + NatToString(GroupStart(emps, order, k)))
  {
    var mapping := RowMapping(emps, order, |order|);
    RowMappingKeys(emps, order, |order|, site);
    assert order[..|order|] == order;
    if exists e :: e in emps && e.jobSite == Some(site) {
      var e :| e in emps && e.jobSite == Some(site);
      assert site in order;
    }
    forall k | 0 <= k < |order| && order[k] == site
      ensures mapping[site] == GroupStart(emps, order, k)
    {
      RowMappingValue(emps, order, |order|, k);
    }
  }

}
