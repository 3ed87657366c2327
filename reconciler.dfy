/**
 * The attendance reconciler: rows of an attendance feed (first name, last name,
 * job description) are merged into the employee directory. Each known employee
 * named by a row is moved to the job site the description names (or to
 * "Unassigned"), feed names that match no employee are collected, every change
 * is logged as a record, and afterwards every employee the feed did not
 * mention whose role may be marked sick is marked "Sick".
 *
 * `Reconcile` is the specification, a fold over the rows followed by the final
 * pass; `UpdateEmployeeLocations` is the loop over the employee array that is
 * proved to compute it.
 */
module Reconciler {
  import opened Wrappers
  import opened Strings

  /** An employee record of the directory. `role` and `currentStatus` are ""
      when the record lacks them (the program reads both with a "" default);
      `jobSite` is `None` when the key is absent, because the row loop and the
      final pass read it with different defaults. */
  datatype Employee = Employee(text: string, role: string, jobSite: Option<string>,
                               currentStatus: string, skills: Option<seq<string>>)

  /** One feed row; an empty cell is "". */
  datatype Row = Row(firstName: string, lastName: string, jobDescription: string)

  /** One line of the audit log. */
  datatype Record = Record(employeeName: string, oldJobSite: string, newJobSite: string)

  /** Lower-cased roles that may be marked "Sick". */
  const SickRoles: set<string> := {"electrician", "roughing electrician", "foreman", "fire alarm electrician"}

  /** The key the directory is looked up by: the stripped, lower-cased name. */
  function EmployeeKey(e: Employee): string {
    Lower(Strip(e.text))
  }

  /** The key job sites are looked up by: the stripped, lower-cased site name. */
  function SiteKey(name: string): string {
    Lower(Strip(name))
  }

  predicate MayBeMarkedSick(e: Employee) {
    Lower(Strip(e.role)) in SickRoles
  }

  /** Employee identity: everything except site and status. */
  predicate SameIdentity(a: Employee, b: Employee) {
    a.text == b.text && a.role == b.role && a.skills == b.skills
  }

  /** `concatenate_names`: both parts stripped, joined by exactly one space. When
      both parts have content, the result needs no further stripping. */
  function ConcatenateNames(first: string, last: string): (r: string)
    ensures |r| == |Strip(first)| + 1 + |Strip(last)|
    ensures r[..|Strip(first)|] == Strip(first) && r[|Strip(first)|] == ' '
            && r[|Strip(first)| + 1..] == Strip(last)
    ensures Strip(first) != "" && Strip(last) != "" ==> Strip(r) == r
  {
    var f, l := Strip(first), Strip(last);
    var r := f + " " + l;
    StripSpec(first);
    StripSpec(last);
    StripSpec(r);
    assert f != "" ==> r[0] == f[0];
    assert l != "" ==> r[|r| - 1] == l[|l| - 1];
    r
  }

  /** Index of the employee the lookup dictionary holds for a key. The
      dictionary is built by a comprehension over the directory, so for a key
      shared by several entries it holds the last of them. */
  function LookupEmployee(directory: seq<Employee>, key: string): (r: Option<nat>)
    ensures r.Some? ==> r.value < |directory| && EmployeeKey(directory[r.value]) == key
  {
    if directory == [] then None
    else if EmployeeKey(directory[|directory| - 1]) == key then Some(|directory| - 1)
    else LookupEmployee(directory[..|directory| - 1], key)
  }

  /** An employee is found exactly when some entry has the key. */
  lemma {:induction false} LookupEmployeeNone(directory: seq<Employee>, key: string)
    ensures LookupEmployee(directory, key).None? <==> forall j :: 0 <= j < |directory| ==> EmployeeKey(directory[j]) != key
  {
    if directory != [] && EmployeeKey(directory[|directory| - 1]) != key {
      var init := directory[..|directory| - 1];
      LookupEmployeeNone(init, key);
      forall j | 0 <= j < |init| ensures init[j] == directory[j] { }
    }
  }

  /** The employee found is the last entry with the key. */
  lemma {:induction false} LookupEmployeeLast(directory: seq<Employee>, key: string)
    ensures var r := LookupEmployee(directory, key);
            r.Some? ==> forall j :: r.value < j < |directory| ==> EmployeeKey(directory[j]) != key
  {
    if directory != [] && EmployeeKey(directory[|directory| - 1]) != key {
      var init := directory[..|directory| - 1];
      LookupEmployeeLast(init, key);
      forall j | 0 <= j < |init| ensures init[j] == directory[j] { }
    }
  }

  /** Position of the job site the lookup dictionary holds for a key: the
      last site with that key. */
  function SiteIndex(sites: seq<string>, key: string): (r: Option<nat>)
    ensures r.Some? ==> r.value < |sites| && SiteKey(sites[r.value]) == key
  {
    if sites == [] then None
    else if SiteKey(sites[|sites| - 1]) == key then Some(|sites| - 1)
    else SiteIndex(sites[..|sites| - 1], key)
  }

  /** Name of the job site the lookup dictionary holds for a key. */
  function LookupSite(sites: seq<string>, key: string): (r: Option<string>)
    ensures r.Some? ==> r.value in sites && SiteKey(r.value) == key
  {
    var k := SiteIndex(sites, key);
    if k.Some? then Some(sites[k.value]) else None
  }

  /** A site is found exactly when some site has the key. */
  lemma {:induction false} SiteIndexNone(sites: seq<string>, key: string)
    ensures SiteIndex(sites, key).None? <==> forall j :: 0 <= j < |sites| ==> SiteKey(sites[j]) != key
  {
    if sites != [] && SiteKey(sites[|sites| - 1]) != key {
      var init := sites[..|sites| - 1];
      SiteIndexNone(init, key);
      forall j | 0 <= j < |init| ensures init[j] == sites[j] { }
    }
  }

  /** The site found is the last site with the key. */
  lemma {:induction false} SiteIndexLast(sites: seq<string>, key: string)
    ensures var r := SiteIndex(sites, key);
            r.Some? ==> forall j :: r.value < j < |sites| ==> SiteKey(sites[j]) != key
  {
    if sites != [] && SiteKey(sites[|sites| - 1]) != key {
      var init := sites[..|sites| - 1];
      SiteIndexLast(init, key);
      forall j | 0 <= j < |init| ensures init[j] == sites[j] { }
    }
  }

  /** The site an employee is recorded as leaving in the row loop: the stripped
      stored site, or "N/A" when the record has none. */
  function OldSite(e: Employee): string {
    if e.jobSite.Some? then Strip(e.jobSite.value) else "N/A"
  }

  /** The state the row loop carries: the employees, the keys of names seen in
      the feed, the unmatched names and the records, in the order produced. */
  datatype Merge = Merge(emps: seq<Employee>, seen: set<string>, unmatched: seq<string>, records: seq<Record>)

  /** Moves employee i to (newSite, newStatus) and logs it, unless the stored
      site already matches `targetKey` and the status already matches, both
      case-insensitively. */
  function Relocate(st: Merge, i: nat, fullName: string, newSite: string, newStatus: string, targetKey: string): (r: Merge)
    requires i < |st.emps| && SiteKey(newSite) == targetKey
    ensures r.seen == st.seen && r.unmatched == st.unmatched
    ensures |r.emps| == |st.emps| && forall j :: 0 <= j < |r.emps| ==> SameIdentity(r.emps[j], st.emps[j])
    ensures forall j :: 0 <= j < |r.emps| && j != i ==> r.emps[j] == st.emps[j]
    ensures r.records == st.records || r.records == st.records + [Record(fullName, OldSite(st.emps[i]), newSite)]
    ensures r.records == st.records <==> r.emps == st.emps
    ensures r.emps != st.emps ==> r.emps[i] == st.emps[i].(jobSite := Some(newSite), currentStatus := newStatus)
  {
    var e := st.emps[i];
    if Lower(OldSite(e)) != targetKey || Lower(e.currentStatus) != Lower(newStatus) then
      st.(emps := st.emps[i := e.(jobSite := Some(newSite), currentStatus := newStatus)],
          records := st.records + [Record(fullName, OldSite(e), newSite)])
    else st
  }

  /** An employee is rewritten exactly when the stored site differs from the
      target case-insensitively or the status differs case-insensitively. */
  lemma RelocateWritesIff(st: Merge, i: nat, fullName: string, newSite: string, newStatus: string, targetKey: string)
    requires i < |st.emps| && SiteKey(newSite) == targetKey
    ensures var e := st.emps[i];
            Relocate(st, i, fullName, newSite, newStatus, targetKey).emps != st.emps
            <==> Lower(OldSite(e)) != targetKey || Lower(e.currentStatus) != Lower(newStatus)
  {
  }

  /** The site name used when a description matches no job site. */
  const Unassigned: string := "Unassigned"

  /** "Unassigned" has no surrounding whitespace, so its key is its lower-case form. */
  lemma UnassignedKey()
    ensures SiteKey(Unassigned) == Lower(Unassigned)
  {
    assert !IsSpaceChar(Unassigned[0]);
    assert TrimLeft(Unassigned) == Unassigned;
    assert !IsSpaceChar(Unassigned[|Unassigned| - 1]);
    assert TrimRight(Unassigned) == Unassigned;
  }

  /** The key a row contributes to the seen set, if it has both names. */
  function RowKey(row: Row): Option<string> {
    if Strip(row.firstName) == "" || Strip(row.lastName) == "" then None
    else Some(Lower(Strip(row.firstName) + " " + Strip(row.lastName)))
  }

  /** One iteration of the row loop. `directory` is the employee list as it was
      when the lookup dictionary was built. */
  function Step(directory: seq<Employee>, sites: seq<string>, st: Merge, row: Row): (r: Merge)
    requires |st.emps| == |directory|
    ensures |r.emps| == |st.emps|
    ensures r.seen == st.seen + RowKeys(row)
  {
    var first := Strip(row.firstName);
    var last := Strip(row.lastName);
    var desc := Strip(row.jobDescription);
    if first == "" || last == "" then st
    else
      var fullName := first + " " + last;
      var key := Lower(fullName);
      var st1 := st.(seen := st.seen + {key});
      if desc == "" then st1
      else
        match LookupEmployee(directory, key)
        case None => st1.(unmatched := st1.unmatched + [fullName])
        case Some(i) => MoveEmployee(sites, st1, i, fullName, desc)
  }

  /** The part of a row's iteration after its employee (number i) was found:
      the description is looked up as a job site. A known site moves the
      employee there, On-site, or Sick for the site named "sick" — which only
      roles that may be marked sick accept; an unknown site moves the employee
      to "Unassigned", On-site, and reports the name as unmatched. */
  function MoveEmployee(sites: seq<string>, st: Merge, i: nat, fullName: string, desc: string): (r: Merge)
    requires i < |st.emps|
    ensures r.seen == st.seen
    ensures |r.emps| == |st.emps| && forall j :: 0 <= j < |r.emps| ==> SameIdentity(r.emps[j], st.emps[j])
    ensures forall j :: 0 <= j < |r.emps| && j != i ==> r.emps[j] == st.emps[j]
    ensures r.records == st.records
            || (r.emps[i].jobSite.Some?
                && r.records == st.records + [Record(fullName, OldSite(st.emps[i]), r.emps[i].jobSite.value)])
    ensures r.records == st.records <==> r.emps == st.emps
    ensures r.unmatched == (if LookupSite(sites, Lower(desc)).None? then st.unmatched + [fullName] else st.unmatched)
    // When the employee is rewritten: a known site unless it is a refused
    // "sick", and "Unassigned", On-site, for an unknown site.
    ensures var e, found := st.emps[i], LookupSite(sites, Lower(desc));
            found.Some? && !(Lower(found.value) == "sick" && !MayBeMarkedSick(e)) ==>
              (r.emps != st.emps <==>
                 Lower(OldSite(e)) != Lower(desc) || Lower(e.currentStatus) != Lower(SiteStatus(found.value)))
    ensures var e, found := st.emps[i], LookupSite(sites, Lower(desc));
            found.Some? && Lower(found.value) == "sick" && !MayBeMarkedSick(e) ==> r == st
    ensures var e := st.emps[i];
            LookupSite(sites, Lower(desc)).None? ==>
              (r.emps != st.emps <==>
                 Lower(OldSite(e)) != Lower(Unassigned) || Lower(e.currentStatus) != Lower("On-site"))
  {
    var siteKey := Lower(desc);
    match LookupSite(sites, siteKey)
    case Some(name) => MoveToSite(st, i, fullName, name, siteKey)
    case None => MoveToUnassigned(st, i, fullName)
  }

  /** A row naming an unknown job site: the employee moves to "Unassigned",
      On-site, and the name is reported as unmatched. */
  function MoveToUnassigned(st: Merge, i: nat, fullName: string): (r: Merge)
    requires i < |st.emps|
    ensures r.seen == st.seen && r.unmatched == st.unmatched + [fullName]
    ensures |r.emps| == |st.emps| && forall j :: 0 <= j < |r.emps| ==> SameIdentity(r.emps[j], st.emps[j])
    ensures forall j :: 0 <= j < |r.emps| && j != i ==> r.emps[j] == st.emps[j]
    ensures r.records == st.records || r.records == st.records + [Record(fullName, OldSite(st.emps[i]), Unassigned)]
    ensures r.records == st.records <==> r.emps == st.emps
    ensures r.emps != st.emps ==> r.emps[i].jobSite == Some(Unassigned) && r.emps[i].currentStatus == "On-site"
    // The employee is rewritten exactly when it is not already Unassigned and
    // On-site, case-insensitively.
    ensures r.emps != st.emps <==>
              Lower(OldSite(st.emps[i])) != Lower(Unassigned) || Lower(st.emps[i].currentStatus) != Lower("On-site")
  {
    UnassignedKey();
    var r := Relocate(st, i, fullName, Unassigned, "On-site", Lower(Unassigned));
    r.(unmatched := r.unmatched + [fullName])
  }

  /** A row naming a known job site: the site named "sick" (in any case) sets
      status Sick, and only for roles that may be marked sick — for others the
      row has no effect; any other site sets status On-site. */
  function MoveToSite(st: Merge, i: nat, fullName: string, name: string, siteKey: string): (r: Merge)
    requires i < |st.emps| && SiteKey(name) == siteKey
    ensures r.seen == st.seen && r.unmatched == st.unmatched
    ensures |r.emps| == |st.emps| && forall j :: 0 <= j < |r.emps| ==> SameIdentity(r.emps[j], st.emps[j])
    ensures forall j :: 0 <= j < |r.emps| && j != i ==> r.emps[j] == st.emps[j]
    ensures r.records == st.records || r.records == st.records + [Record(fullName, OldSite(st.emps[i]), name)]
    ensures r.records == st.records <==> r.emps == st.emps
    ensures Lower(name) == "sick" && !MayBeMarkedSick(st.emps[i]) ==> r == st
    ensures r.emps != st.emps ==>
              r.emps[i].jobSite == Some(name) && r.emps[i].currentStatus == SiteStatus(name)
    // Unless the row is a refused "sick", the employee is rewritten exactly when
    // its site or its status differs from the target, case-insensitively.
    ensures !(Lower(name) == "sick" && !MayBeMarkedSick(st.emps[i])) ==>
              (r.emps != st.emps <==>
                 Lower(OldSite(st.emps[i])) != siteKey || Lower(st.emps[i].currentStatus) != Lower(SiteStatus(name)))
  {
    if Lower(name) == "sick" && !MayBeMarkedSick(st.emps[i]) then st
    else Relocate(st, i, fullName, name, SiteStatus(name), siteKey)
  }

  /** The status a known site sets: Sick for the site named "sick" (in any
      case), On-site for every other. */
  function SiteStatus(name: string): (status: string)
    ensures Lower(name) == "sick" ==> status == "Sick"
    ensures Lower(name) != "sick" ==> status == "On-site"
  {
    if Lower(name) == "sick" then "Sick" else "On-site"
  }

  /** The seen keys a row adds. */
  function RowKeys(row: Row): set<string> {
    if RowKey(row).Some? then {RowKey(row).value} else {}
  }

  /** A row never changes an employee's name, role or skills. */
  lemma StepKeepsIdentity(directory: seq<Employee>, sites: seq<string>, st: Merge, row: Row)
    requires |st.emps| == |directory|
    ensures var r := Step(directory, sites, st, row);
            forall j :: 0 <= j < |r.emps| ==> SameIdentity(r.emps[j], st.emps[j])
  {
  }

  /** A row appends at most one unmatched name and at most one record. */
  lemma StepGrows(directory: seq<Employee>, sites: seq<string>, st: Merge, row: Row)
    requires |st.emps| == |directory|
    ensures var r := Step(directory, sites, st, row);
            (r.records == st.records || (|r.records| > 0 && r.records == st.records + [r.records[|r.records| - 1]]))
            && (r.unmatched == st.unmatched || (|r.unmatched| > 0 && r.unmatched == st.unmatched + [r.unmatched[|r.unmatched| - 1]]))
  {
    var first, last := Strip(row.firstName), Strip(row.lastName);
    if first != "" && last != "" && Strip(row.jobDescription) != "" {
      var fullName := first + " " + last;
      var st1 := st.(seen := st.seen + {Lower(fullName)});
      match LookupEmployee(directory, Lower(fullName))
      case None =>
      case Some(i) =>
        var r := MoveEmployee(sites, st1, i, fullName, Strip(row.jobDescription));
        assert Step(directory, sites, st, row) == r;
    }
  }

  /** A row logs a record exactly when it changes an employee. */
  lemma StepLogsChanges(directory: seq<Employee>, sites: seq<string>, st: Merge, row: Row)
    requires |st.emps| == |directory|
    ensures var r := Step(directory, sites, st, row);
            r.records == st.records <==> r.emps == st.emps
  {
  }

  /** A row changes only the employee its name looks up. */
  lemma StepChangesOnlyNamed(directory: seq<Employee>, sites: seq<string>, st: Merge, row: Row, j: nat)
    requires |st.emps| == |directory| && j < |st.emps|
    requires Step(directory, sites, st, row).emps[j] != st.emps[j]
    ensures RowKey(row).Some? && EmployeeKey(directory[j]) == RowKey(row).value
  {
  }

  /** The state after the first n rows. */
  function Rows(directory: seq<Employee>, sites: seq<string>, rows: seq<Row>, n: nat): (r: Merge)
    requires n <= |rows|
    ensures |r.emps| == |directory|
  {
    if n == 0 then Merge(directory, {}, [], [])
    else Step(directory, sites, Rows(directory, sites, rows, n - 1), rows[n - 1])
  }

  /** Whether the final pass marks an employee: not seen in the feed and of a
      role that may be marked sick. */
  predicate Absent(e: Employee, seen: set<string>) {
    EmployeeKey(e) !in seen && MayBeMarkedSick(e)
  }

  /** The site the final pass logs for an employee ("" when there is none). */
  function SiteOrEmpty(e: Employee): string {
    if e.jobSite.Some? then e.jobSite.value else ""
  }

  /** The record the final pass logs for a marked employee: its name, and its
      stored site as both the old and the new site. */
  function AbsentRecord(e: Employee): (rec: Record)
    ensures rec.employeeName == e.text && rec.oldJobSite == rec.newJobSite
    ensures e.jobSite.Some? ==> rec.newJobSite == e.jobSite.value
    ensures e.jobSite.None? ==> rec.newJobSite == ""
  {
    Record(e.text, SiteOrEmpty(e), SiteOrEmpty(e))
  }

  /** The final pass on one employee. */
  function MarkIfAbsent(e: Employee, seen: set<string>): Employee {
    if Absent(e, seen) then e.(currentStatus := "Sick") else e
  }

  /** The records the final pass appends for the given employees, in order. */
  function AbsentRecords(emps: seq<Employee>, seen: set<string>): seq<Record> {
    if emps == [] then []
    else
      var e := emps[|emps| - 1];
      AbsentRecords(emps[..|emps| - 1], seen)
      + (if Absent(e, seen) then [AbsentRecord(e)] else [])
  }

  /** The final pass: every employee not seen in the feed whose role may be
      marked sick gets status "Sick"; the others are kept as they are. */
  function MarkAbsent(emps: seq<Employee>, seen: set<string>): (r: seq<Employee>)
    ensures |r| == |emps|
    ensures forall j :: 0 <= j < |emps| ==> r[j] == MarkIfAbsent(emps[j], seen)
    // Only the status can change, and it changes exactly for the absent employees
    // that were not already Sick.
    ensures forall j :: 0 <= j < |emps| ==> r[j].(currentStatus := emps[j].currentStatus) == emps[j]
    ensures forall j :: 0 <= j < |emps| ==>
              (r[j] != emps[j] <==> Absent(emps[j], seen) && emps[j].currentStatus != "Sick")
    ensures forall j :: 0 <= j < |emps| && Absent(emps[j], seen) ==> r[j].currentStatus == "Sick"
  {
    seq(|emps|, j requires 0 <= j < |emps| => MarkIfAbsent(emps[j], seen))
  }

  /** `update_employee_locations` as a function of the directory, the job site
      names and the feed: the new directory, the unmatched names and the log,
      whose row-loop records come before the final-pass records. */
  function Reconcile(directory: seq<Employee>, sites: seq<string>, rows: seq<Row>)
    : (seq<Employee>, seq<string>, seq<Record>)
  {
    var m := Rows(directory, sites, rows, |rows|);
    (MarkAbsent(m.emps, m.seen), m.unmatched, m.records + AbsentRecords(m.emps, m.seen))
  }

  /** The keys of the names of the first n rows. */
  function SeenKeys(rows: seq<Row>, n: nat): set<string>
    requires n <= |rows|
  {
    if n == 0 then {} else SeenKeys(rows, n - 1) + RowKeys(rows[n - 1])
  }

  /** The row loop keeps the directory's length and every employee's name,
      role and skills. */
  lemma {:induction false} RowsKeepIdentity(directory: seq<Employee>, sites: seq<string>, rows: seq<Row>, n: nat)
    requires n <= |rows|
    ensures var m := Rows(directory, sites, rows, n);
            forall j :: 0 <= j < |m.emps| ==> SameIdentity(m.emps[j], directory[j])
  {
    if n > 0 {
      var prev := Rows(directory, sites, rows, n - 1);
      RowsKeepIdentity(directory, sites, rows, n - 1);
      StepKeepsIdentity(directory, sites, prev, rows[n - 1]);
    }
  }

  /** The seen set is exactly the name keys of the rows: it does not depend on
      the directory or the job sites. */
  lemma {:induction false} RowsSeen(directory: seq<Employee>, sites: seq<string>, rows: seq<Row>, n: nat)
    requires n <= |rows|
    ensures Rows(directory, sites, rows, n).seen == SeenKeys(rows, n)
  {
    if n > 0 {
      RowsSeen(directory, sites, rows, n - 1);
      var prev := Rows(directory, sites, rows, n - 1);
      assert Rows(directory, sites, rows, n).seen == prev.seen + RowKeys(rows[n - 1]);
    }
  }

  /** An employee whose key the rows never name is left as it was. */
  lemma {:induction false} RowsUntouched(directory: seq<Employee>, sites: seq<string>, rows: seq<Row>, n: nat, j: nat)
    requires n <= |rows| && j < |directory| && EmployeeKey(directory[j]) !in SeenKeys(rows, n)
    ensures Rows(directory, sites, rows, n).emps[j] == directory[j]
  {
    if n > 0 {
      var prev := Rows(directory, sites, rows, n - 1);
      RowsUntouched(directory, sites, rows, n - 1, j);
      if Rows(directory, sites, rows, n).emps[j] != prev.emps[j] {
        StepChangesOnlyNamed(directory, sites, prev, rows[n - 1], j);
      }
    }
  }

  /** Over the row loop, records and unmatched names only grow: each row
      appends at most one of each. */
  lemma {:induction false} RowsGrow(directory: seq<Employee>, sites: seq<string>, rows: seq<Row>, n: nat)
    requires n <= |rows|
    ensures var m := Rows(directory, sites, rows, n);
            |m.records| <= n && |m.unmatched| <= n
  {
    if n > 0 {
      var prev := Rows(directory, sites, rows, n - 1);
      RowsGrow(directory, sites, rows, n - 1);
      StepGrows(directory, sites, prev, rows[n - 1]);
    }
  }

  /** Number of employees the final pass marks. */
  function CountAbsent(emps: seq<Employee>, seen: set<string>): nat {
    if emps == [] then 0
    else CountAbsent(emps[..|emps| - 1], seen) + (if Absent(emps[|emps| - 1], seen) then 1 else 0)
  }

  /** The final pass logs one record per marked employee, and every record is
      the record of some marked employee. */
  lemma {:induction false} AbsentRecordsSpec(emps: seq<Employee>, seen: set<string>)
    ensures |AbsentRecords(emps, seen)| == CountAbsent(emps, seen)
    ensures forall k :: 0 <= k < |AbsentRecords(emps, seen)| ==>
              exists j :: 0 <= j < |emps| && Absent(emps[j], seen) && AbsentRecords(emps, seen)[k] == AbsentRecord(emps[j])
  {
    if emps != [] {
      var init := emps[..|emps| - 1];
      AbsentRecordsSpec(init, seen);
      forall k | 0 <= k < |AbsentRecords(emps, seen)|
        ensures exists j :: 0 <= j < |emps| && Absent(emps[j], seen) && AbsentRecords(emps, seen)[k] == AbsentRecord(emps[j])
      {
        if k < |AbsentRecords(init, seen)| {
          assert AbsentRecords(emps, seen)[k] == AbsentRecords(init, seen)[k];
          var j :| 0 <= j < |init| && Absent(init[j], seen) && AbsentRecords(init, seen)[k] == AbsentRecord(init[j]);
          assert emps[j] == init[j];
        } else {
          assert Absent(emps[|emps| - 1], seen);
          assert AbsentRecords(emps, seen)[k] == AbsentRecord(emps[|emps| - 1]);
        }
      }
    }
  }

  /** The records for a prefix of the directory are a prefix of the records
      for the whole directory. */
  lemma {:induction false} AbsentRecordsPrefix(emps: seq<Employee>, seen: set<string>, i: nat)
    requires i <= |emps|
    ensures AbsentRecords(emps[..i], seen) <= AbsentRecords(emps, seen)
    decreases |emps| - i
  {
    if i == |emps| {
      assert emps[..i] == emps;
    } else {
      AbsentRecordsPrefix(emps, seen, i + 1);
      AbsentRecordsStep(emps, seen, i);
    }
  }

  /** Marked employee j's record sits at the position given by the number of
      marked employees before it, so the records follow directory order and no
      marked employee is logged twice or skipped. */
  lemma AbsentRecordAt(emps: seq<Employee>, seen: set<string>, j: nat)
    requires j < |emps| && Absent(emps[j], seen)
    ensures CountAbsent(emps[..j + 1], seen) == CountAbsent(emps[..j], seen) + 1
    ensures CountAbsent(emps[..j], seen) < |AbsentRecords(emps, seen)|
    ensures AbsentRecords(emps, seen)[CountAbsent(emps[..j], seen)] == AbsentRecord(emps[j])
  {
    assert emps[..j + 1][..j] == emps[..j];
    AbsentRecordsPrefix(emps, seen, j + 1);
    AbsentRecordsStep(emps, seen, j);
    AbsentRecordsSpec(emps[..j], seen);
  }

  /** Two directories that agree on names, roles and skills have the same
      employees marked by the final pass. */
  lemma {:induction false} CountAbsentIdentity(a: seq<Employee>, b: seq<Employee>, seen: set<string>)
    requires |a| == |b| && forall j :: 0 <= j < |a| ==> SameIdentity(a[j], b[j])
    ensures CountAbsent(a, seen) == CountAbsent(b, seen)
  {
    if a != [] {
      CountAbsentIdentity(a[..|a| - 1], b[..|b| - 1], seen);
      assert SameIdentity(a[|a| - 1], b[|b| - 1]);
    }
  }

  /** What a reconciliation does to each employee: one the feed names keeps
      its name, role and skills; one it does not name is untouched except that
      a role that may be marked sick gets status "Sick". */
  lemma ReconcileEffect(directory: seq<Employee>, sites: seq<string>, rows: seq<Row>)
    ensures var (out, _, _) := Reconcile(directory, sites, rows);
            |out| == |directory|
            && (forall j :: 0 <= j < |out| ==> SameIdentity(out[j], directory[j]))
            && (forall j :: 0 <= j < |out| && EmployeeKey(directory[j]) !in SeenKeys(rows, |rows|) ==>
                  out[j] == if MayBeMarkedSick(directory[j]) then directory[j].(currentStatus := "Sick") else directory[j])
  {
    var m := Rows(directory, sites, rows, |rows|);
    var seen := SeenKeys(rows, |rows|);
    RowsKeepIdentity(directory, sites, rows, |rows|);
    RowsSeen(directory, sites, rows, |rows|);
    forall j | 0 <= j < |directory| && EmployeeKey(directory[j]) !in seen
      ensures m.emps[j] == directory[j]
    {
      RowsUntouched(directory, sites, rows, |rows|, j);
    }
    MarkAbsentEffect(directory, m.emps, seen);
  }

  /** The final pass over employees that kept their identity, where those
      not seen are unchanged since the start. */
  lemma MarkAbsentEffect(directory: seq<Employee>, emps: seq<Employee>, seen: set<string>)
    requires |emps| == |directory| && forall j :: 0 <= j < |emps| ==> SameIdentity(emps[j], directory[j])
    requires forall j :: 0 <= j < |directory| && EmployeeKey(directory[j]) !in seen ==> emps[j] == directory[j]
    ensures var out := MarkAbsent(emps, seen);
            (forall j :: 0 <= j < |out| ==> SameIdentity(out[j], directory[j]))
            && (forall j :: 0 <= j < |out| && EmployeeKey(directory[j]) !in seen ==>
                  out[j] == if MayBeMarkedSick(directory[j]) then directory[j].(currentStatus := "Sick") else directory[j])
  {
  }


  /** Reconciling is not idempotent: running the same feed again over the
      result re-emits one final-pass record for every employee the feed does
      not name whose role may be marked sick, although each is already Sick. */
  lemma RerunRepeatsFinalPass(directory: seq<Employee>, sites: seq<string>, rows: seq<Row>)
    ensures var m1 := Rows(directory, sites, rows, |rows|);
            var (out, _, _) := Reconcile(directory, sites, rows);
            var m2 := Rows(out, sites, rows, |rows|);
            m2.seen == m1.seen
            && |AbsentRecords(m2.emps, m2.seen)| == |AbsentRecords(m1.emps, m1.seen)|
            == CountAbsent(directory, SeenKeys(rows, |rows|))
  {
    var m1 := Rows(directory, sites, rows, |rows|);
    var out := Reconcile(directory, sites, rows).0;
    var m2 := Rows(out, sites, rows, |rows|);
    RowsKeepIdentity(directory, sites, rows, |rows|);
    RowsSeen(directory, sites, rows, |rows|);
    RowsKeepIdentity(out, sites, rows, |rows|);
    RowsSeen(out, sites, rows, |rows|);
    AbsentRecordsSpec(m1.emps, m1.seen);
    AbsentRecordsSpec(m2.emps, m2.seen);
    CountAbsentIdentity(m1.emps, directory, m1.seen);
    assert forall j :: 0 <= j < |m2.emps| ==> SameIdentity(m2.emps[j], directory[j]) by {
      forall j | 0 <= j < |m2.emps| ensures SameIdentity(m2.emps[j], directory[j]) {
        assert SameIdentity(out[j], m1.emps[j]);
      }
    }
    CountAbsentIdentity(m2.emps, directory, m2.seen);
  }

  /** A concrete instance: a single employee whose role may be marked sick
      and an empty feed. Each run logs the employee as newly Sick, the second
      one although the first already did. */
  lemma RerunExample(e: Employee, sites: seq<string>)
    requires MayBeMarkedSick(e)
    ensures var (out1, _, log1) := Reconcile([e], sites, []);
            var (out2, _, log2) := Reconcile(out1, sites, []);
            out1 == out2 == [e.(currentStatus := "Sick")]
            && log1 == log2 == [Record(e.text, SiteOrEmpty(e), SiteOrEmpty(e))]
  {
    var sick := e.(currentStatus := "Sick");
    var rec := Record(e.text, SiteOrEmpty(e), SiteOrEmpty(e));
    assert Rows([e], sites, [], 0) == Merge([e], {}, [], []);
    assert MarkAbsent([e], {}) == [sick];
    assert AbsentRecords([e], {}) == [rec] by { assert [e][..0] == []; }
    assert Rows([sick], sites, [], 0) == Merge([sick], {}, [], []);
    assert MayBeMarkedSick(sick);
    assert MarkAbsent([sick], {}) == [sick];
    assert AbsentRecords([sick], {}) == [rec] by { assert [sick][..0] == []; }
  }

  /** The three ways a row is skipped: a row without both names changes
      nothing; a row with both names but no description only records the name
      as seen; a row whose name matches no employee is also reported as
      unmatched. */
  lemma StepSkips(directory: seq<Employee>, sites: seq<string>, st: Merge, row: Row)
    requires |st.emps| == |directory|
    ensures RowKey(row).None? ==> Step(directory, sites, st, row) == st
    ensures RowKey(row).Some? && Strip(row.jobDescription) == "" ==>
              Step(directory, sites, st, row) == st.(seen := st.seen + {RowKey(row).value})
    ensures RowKey(row).Some? && Strip(row.jobDescription) != "" && LookupEmployee(directory, RowKey(row).value).None? ==>
              Step(directory, sites, st, row)
              == st.(seen := st.seen + {RowKey(row).value},
                     unmatched := st.unmatched + [ConcatenateNames(row.firstName, row.lastName)])
  {
  }

  /** One iteration of the row loop over the employee array: updates the
      employee the row names in place and returns the new seen set, unmatched
      names and records. */
  method ApplyRow(employees: array<Employee>, directory: seq<Employee>, sites: seq<string>,
                  seen: set<string>, unmatched: seq<string>, records: seq<Record>, row: Row)
    returns (newSeen: set<string>, newUnmatched: seq<string>, newRecords: seq<Record>)
    requires employees.Length == |directory|
    modifies employees
    ensures Merge(employees[..], newSeen, newUnmatched, newRecords)
            == Step(directory, sites, Merge(old(employees[..]), seen, unmatched, records), row)
  {
    newSeen, newUnmatched, newRecords := seen, unmatched, records;
    var first := Strip(row.firstName);
    var last := Strip(row.lastName);
    var desc := Strip(row.jobDescription);
    if first == "" || last == "" {
      return;
    }
    var fullName := first + " " + last;
    var key := Lower(fullName);
    newSeen := seen + {key};
    if desc == "" {
      return;
    }
    var found := LookupEmployee(directory, key);
    if found.None? {
      newUnmatched := unmatched + [fullName];
      return;
    }
    var i := found.value;
    var siteKey := Lower(desc);
    var site := LookupSite(sites, siteKey);
    var e := employees[i];
    var newSite, newStatus, targetKey;
    if site.Some? {
      newSite, targetKey := site.value, siteKey;
      if Lower(newSite) == "sick" {
        if !MayBeMarkedSick(e) {
          return;
        }
        newStatus := "Sick";
      } else {
        newStatus := "On-site";
      }
    } else {
      UnassignedKey();
      newSite, newStatus, targetKey := Unassigned, "On-site", Lower(Unassigned);
    }
    if Lower(OldSite(e)) != targetKey || Lower(e.currentStatus) != Lower(newStatus) {
      employees[i] := e.(jobSite := Some(newSite), currentStatus := newStatus);
      newRecords := records + [Record(fullName, OldSite(e), newSite)];
    }
    if site.None? {
      newUnmatched := unmatched + [fullName];
    }
  }

  /** `update_employee_locations`: the row loop, then the final pass, over the
      employee array in place. The employees, unmatched names and records it
      leaves are those `Reconcile` specifies. */
  method UpdateEmployeeLocations(employees: array<Employee>, sites: seq<string>, rows: seq<Row>)
    returns (unmatched: seq<string>, records: seq<Record>)
    modifies employees
    ensures (employees[..], unmatched, records) == Reconcile(old(employees[..]), sites, rows)
  {
    var seen, rowRecords;
    seen, unmatched, rowRecords := ApplyRows(employees, sites, rows);
    var absentRecords := MarkAbsentEmployees(employees, seen);
    records := rowRecords + absentRecords;
  }

  /** The row loop over the employee array. */
  method ApplyRows(employees: array<Employee>, sites: seq<string>, rows: seq<Row>)
    returns (seen: set<string>, unmatched: seq<string>, records: seq<Record>)
    modifies employees
    ensures Merge(employees[..], seen, unmatched, records) == Rows(old(employees[..]), sites, rows, |rows|)
  {
    var directory := employees[..];
    seen, unmatched, records := {}, [], [];
    var k := 0;
    while k < |rows|
      invariant k <= |rows| && employees.Length == |directory|
      invariant Merge(employees[..], seen, unmatched, records) == Rows(directory, sites, rows, k)
    {
      seen, unmatched, records := ApplyRow(employees, directory, sites, seen, unmatched, records, rows[k]);
      k := k + 1;
    }
  }

  /** The final pass over the employee array: marks the absent employees Sick
      and returns the records it logs. */
  method MarkAbsentEmployees(employees: array<Employee>, seen: set<string>) returns (records: seq<Record>)
    modifies employees
    ensures employees[..] == MarkAbsent(old(employees[..]), seen)
    ensures records == AbsentRecords(old(employees[..]), seen)
  {
    ghost var emps := employees[..];
    records := [];
    for j := 0 to employees.Length
      invariant forall i :: 0 <= i < j ==> employees[i] == MarkIfAbsent(emps[i], seen)
      invariant forall i :: j <= i < employees.Length ==> employees[i] == emps[i]
      invariant records == AbsentRecords(emps[..j], seen)
    {
      var e := employees[j];
      AbsentRecordsStep(emps, seen, j);
      ghost var before := employees[..];
      if Absent(e, seen) {
        employees[j] := e.(currentStatus := "Sick");
        records := records + [AbsentRecord(e)];
      }
      assert employees[..] == before[j := MarkIfAbsent(emps[j], seen)];
    }
    assert emps[..employees.Length] == emps;
  }

  /** The final pass's records over one more employee. */
  lemma AbsentRecordsStep(emps: seq<Employee>, seen: set<string>, j: nat)
    requires j < |emps|
    ensures AbsentRecords(emps[..j + 1], seen)
            == AbsentRecords(emps[..j], seen)
               + (if Absent(emps[j], seen) then [AbsentRecord(emps[j])] else [])
  {
    assert emps[..j + 1][..j] == emps[..j];
  }

  /** Lines written one after the other, each followed by its line break. */
  function Text(lines: seq<string>): string {
    if lines == [] then ""
    else Text(lines[..|lines| - 1]) + lines[|lines| - 1] + "\n"
  }

  /** The two header lines and the blank line that open the log. */
  function HeaderLines(): seq<string> {
    ["Relocation/Status Changes Log", "=============================", ""]
  }

  /** The four lines a record is written as. */
  function RecordLines(r: Record): seq<string> {
    ["Employee Name : " + r.employeeName, "Old Job Site  : " + r.oldJobSite,
     "New Job Site  : " + r.newJobSite, "-----------------------------"]
  }

  /** The lines of the given records' blocks, in record order. */
  function BlockLines(records: seq<Record>): (r: seq<string>)
    ensures |r| == 4 * |records|
  {
    if records == [] then []
    else BlockLines(records[..|records| - 1]) + RecordLines(records[|records| - 1])
  }

  /** The lines `save_relocation_log` writes. */
  function LogLines(records: seq<Record>): seq<string> {
    HeaderLines() + BlockLines(records)
  }

  /** The text `save_relocation_log` writes. */
  function LogText(records: seq<Record>): string {
    Text(LogLines(records))
  }

  /** Writing two runs of lines is writing the first, then the second. */
  lemma {:induction false} TextAppend(a: seq<string>, b: seq<string>)
    ensures Text(a + b) == Text(a) + Text(b)
    decreases |b|
  {
    if b == [] {
      assert a + b == a;
    } else {
      var front := b[..|b| - 1];
      var last := b[|b| - 1];
      assert (a + b)[..|a + b| - 1] == a + front;
      assert (a + b)[|a + b| - 1] == last;
      TextAppend(a, front);
      assert Text(a + b) == Text(a) + Text(front) + last + "\n";
    }
  }

  /** Text whose lines hold no line break has exactly one line break per line. */
  lemma {:induction false} TextLineBreaks(lines: seq<string>)
    requires forall i :: 0 <= i < |lines| ==> '\n' !in lines[i]
    ensures multiset(Text(lines))['\n'] == |lines|
  {
    if lines != [] {
      var front := lines[..|lines| - 1];
      var last := lines[|lines| - 1];
      TextLineBreaks(front);
      assert '\n' !in last;
      assert multiset(last)['\n'] == 0;
      assert Text(lines) == Text(front) + last + "\n";
      assert multiset(Text(lines)) == multiset(Text(front)) + multiset(last) + multiset{'\n'};
    }
  }

  /** Record k's four lines follow the header and the 4k lines of the records before it. */
  lemma {:induction false} LogBlockAt(records: seq<Record>, k: nat)
    requires k < |records|
    ensures LogLines(records)[3 + 4 * k..3 + 4 * k + 4] == RecordLines(records[k])
  {
    BlockLinesAt(records, k);
    assert LogLines(records)[3 + 4 * k..3 + 4 * k + 4] == BlockLines(records)[4 * k..4 * k + 4];
  }

  lemma {:induction false} BlockLinesAt(records: seq<Record>, k: nat)
    requires k < |records|
    ensures BlockLines(records)[4 * k..4 * k + 4] == RecordLines(records[k])
  {
    var front := records[..|records| - 1];
    assert BlockLines(records) == BlockLines(front) + RecordLines(records[|records| - 1]);
    if k < |front| {
      BlockLinesAt(front, k);
      assert BlockLines(records)[4 * k..4 * k + 4] == BlockLines(front)[4 * k..4 * k + 4];
    } else {
      assert BlockLines(records)[4 * k..4 * k + 4] == RecordLines(records[|records| - 1]);
    }
  }

  /** A record none of whose fields holds a line break. */
  predicate SingleLine(r: Record) {
    '\n' !in r.employeeName && '\n' !in r.oldJobSite && '\n' !in r.newJobSite
  }

  /** The header lines hold no line break. */
  lemma HeaderSingleLines()
    ensures forall i :: 0 <= i < |HeaderLines()| ==> '\n' !in HeaderLines()[i]
  {
  }

  /** The lines of a record without line breaks in its fields hold none either. */
  lemma RecordSingleLines(r: Record)
    requires SingleLine(r)
    ensures forall i :: 0 <= i < |RecordLines(r)| ==> '\n' !in RecordLines(r)[i]
  {
  }

  lemma {:induction false} BlockSingleLines(records: seq<Record>)
    requires forall k :: 0 <= k < |records| ==> SingleLine(records[k])
    ensures forall i :: 0 <= i < |BlockLines(records)| ==> '\n' !in BlockLines(records)[i]
  {
    if records != [] {
      var front := records[..|records| - 1];
      var last := records[|records| - 1];
      BlockSingleLines(front);
      assert SingleLine(last);
      RecordSingleLines(last);
      assert BlockLines(records) == BlockLines(front) + RecordLines(last);
    }
  }

  /** When no field holds a line break, the log has exactly 3 + 4n lines. */
  lemma LogLineCount(records: seq<Record>)
    requires forall k :: 0 <= k < |records| ==> SingleLine(records[k])
    ensures multiset(LogText(records))['\n'] == 3 + 4 * |records|
  {
    HeaderSingleLines();
    BlockSingleLines(records);
    var lines := LogLines(records);
    assert forall i :: 0 <= i < |lines| ==> '\n' !in lines[i] by {
      forall i | 0 <= i < |lines| ensures '\n' !in lines[i] {
        if i >= 3 {
          assert lines[i] == BlockLines(records)[i - 3];
        }
      }
    }
    TextLineBreaks(lines);
  }

  /** Writes each of the given lines followed by its line break. */
  method WriteLines(text: string, lines: seq<string>) returns (written: string)
    ensures written == text + Text(lines)
  {
    written := text;
    for j := 0 to |lines|
      invariant written == text + Text(lines[..j])
    {
      written := written + lines[j] + "\n";
      assert lines[..j + 1][..j] == lines[..j];
    }
    assert lines[..|lines|] == lines;
  }

  /** `save_relocation_log`: writes the header, then each record's four lines. */
  method SaveRelocationLog(records: seq<Record>) returns (text: string)
    ensures text == LogText(records)
  {
    text := WriteLines("", HeaderLines());
    for k := 0 to |records|
      invariant text == Text(HeaderLines()) + Text(BlockLines(records[..k]))
    {
      text := WriteLines(text, RecordLines(records[k]));
      assert records[..k + 1][..k] == records[..k];
      assert BlockLines(records[..k + 1]) == BlockLines(records[..k]) + RecordLines(records[k]);
      TextAppend(BlockLines(records[..k]), RecordLines(records[k]));
    }
    assert records[..|records|] == records;
    TextAppend(HeaderLines(), BlockLines(records));
  }
}
