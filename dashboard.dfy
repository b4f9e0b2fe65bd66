/**
 * The dashboard's handlers (web_dashboard/script.js) as methods of one
 * object that holds the three collections they write. Each handler's loop
 * walks its rows, ids or team tokens one at a time, as the source's `for`
 * loops do, over a snapshot of the collection it reads, and is proved to
 * compute exactly what the corresponding function of the `Imports`,
 * `OvertimeUpdates` and `LineManagers` modules describes; the handler then
 * writes the result back. What those functions promise is proved there.
 */
module Dashboard {
  import opened Wrappers
  import opened JsStrings
  import opened EmployeeIds
  import opened Store
  import opened Imports
  import opened OvertimeUpdates
  import opened LineManagers

  /** The `where('pin', '==', pin).get()` query on the employees: whether it comes back non-empty. */
  method HasPin(emps: seq<Employee>, pin: string) returns (found: bool)
    ensures found == PinTaken(emps, pin)
  {
    found := false;
    var i := 0;
    while i < |emps|
      invariant 0 <= i <= |emps|
      invariant found == exists j :: 0 <= j < i && emps[j].pin == pin
    {
      if emps[i].pin == pin {
        found := true;
      }
      i := i + 1;
    }
  }

  /** `docs[0]` of the same query: the index of the first employee with the PIN, or `|emps|`. */
  method FindByPin(emps: seq<Employee>, pin: string) returns (index: nat)
    ensures index == FirstWithPin(emps, pin, 0)
  {
    index := 0;
    while index < |emps| && emps[index].pin != pin
      invariant index <= |emps|
      invariant FirstWithPin(emps, pin, index) == FirstWithPin(emps, pin, 0)
      decreases |emps| - index
    {
      index := index + 1;
    }
  }

  /** One more row of the employee import is one more `EmployeeStep`. */
  lemma EmployeeRunNext(emps: seq<Employee>, rows: seq<EmployeeRow>, pins: seq<string>, faults: seq<bool>, n: nat)
    requires n < |rows| == |pins| == |faults|
    ensures ImportEmployeesRun(emps, rows, pins, faults, n + 1)
      == EmployeeStep(ImportEmployeesRun(emps, rows, pins, faults, n), rows[n], pins[n], faults[n])
  {
  }

  /** One more row of the MasterSheet import is one more `MasterStep`. */
  lemma MasterRunNext(ms: MasterSheet, recs: seq<MasterRecord>, faults: seq<bool>, n: nat)
    requires n < |recs| == |faults|
    ensures ImportMasterSheetRun(ms, recs, faults, n + 1) == MasterStep(ImportMasterSheetRun(ms, recs, faults, n), recs[n], faults[n])
  {
  }

  /** One more row of the overtime import is one more `OvertimeStep`. */
  lemma OvertimeRunNext(ms: MasterSheet, hits: seq<OvertimeHit>, faults: seq<bool>, n: nat)
    requires n < |hits| == |faults|
    ensures ApplyOvertime(ms, hits, faults, n + 1) == OvertimeStep(ApplyOvertime(ms, hits, faults, n), hits[n], faults[n])
  {
  }

  /** One more team token in `deleteManager` clears one more employee, the first holding that PIN. */
  lemma ClearNext(emps: seq<Employee>, pins: seq<string>, n: nat)
    requires n < |pins|
    ensures var prev := ClearEmployeeBackRefs(emps, pins, n);
      var i := FirstWithPin(prev, pins[n], 0);
      ClearEmployeeBackRefs(emps, pins, n + 1) == if i < |prev| then prev[i := ClearManager(prev[i])] else prev
  {
  }

  /** `row.PIN || generateRandomPIN()`, the generator's draw given. */
  method PinOf(row: EmployeeRow, draw: nat) returns (pin: string)
    requires draw < 9000
    ensures pin == RowPin(row, draw)
  {
    if Truthy(row.pin) {
      pin := row.pin.value;
    } else {
      pin := GenerateRandomPin(draw);
    }
  }

  /** One row of the employee import: the PIN query unless the store access throws, then the `add` or the error count. */
  method ImportRow(st: EmployeeRun, row: EmployeeRow, pin: string, fault: bool) returns (next: EmployeeRun)
    ensures next == EmployeeStep(st, row, pin, fault)
  {
    var taken := false;
    if !fault {
      taken := HasPin(st.employees, pin);
    }
    if fault || taken {
      next := st.(tally := st.tally.(errors := st.tally.errors + 1));
    } else {
      next := EmployeeRun(st.employees + [NewEmployee(row, pin)], st.tally.(success := st.tally.success + 1));
    }
  }

  /**
   * The loop of the employee import: each row gets its cell PIN or a
   * generated one; a row whose store access throws, or whose PIN the query
   * finds, is counted as an error, any other row is added.
   */
  method RunEmployeeImport(emps0: seq<Employee>, rows: seq<EmployeeRow>, draws: seq<nat>, faults: seq<bool>)
    returns (emps: seq<Employee>, tally: Tally)
    requires |rows| == |draws| == |faults| && DrawsFit(draws)
    ensures EmployeeRun(emps, tally) == ImportEmployees(emps0, rows, draws, faults)
  {
    ghost var pins := RowPins(rows, draws);
    var run := EmployeeRun(emps0, Tally(0, 0, 0));
    var i := 0;
    while i < |rows|
      invariant 0 <= i <= |rows|
      invariant run == ImportEmployeesRun(emps0, rows, pins, faults, i)
    {
      var pin := PinOf(rows[i], draws[i]);
      EmployeeRunNext(emps0, rows, pins, faults, i);
      run := ImportRow(run, rows[i], pin, faults[i]);
      i := i + 1;
    }
    emps, tally := run.employees, run.tally;
  }

  /**
   * The loop of the MasterSheet import, over the documents the rows would
   * `set`: one whose employee number the query finds, or whose store
   * access throws, is an error; any other is written under `EMP` + number.
   */
  method ApplyRecords(ms: MasterSheet, recs: seq<MasterRecord>, faults: seq<bool>) returns (sheet: MasterSheet, tally: Tally)
    requires |recs| == |faults|
    ensures MasterRun(sheet, tally) == ImportMasterSheetRun(ms, recs, faults, |recs|)
  {
    sheet := ms;
    var success, errors := 0, 0;
    var i := 0;
    while i < |recs|
      invariant 0 <= i <= |recs|
      invariant ImportMasterSheetRun(ms, recs, faults, i) == MasterRun(sheet, Tally(success, errors, 0))
    {
      var number := recs[i].employeeNumber;
      if faults[i] || NumberTaken(sheet, number) {
        errors := errors + 1;
      } else {
        sheet := sheet[MasterSheetDocId(number) := recs[i]];
        success := success + 1;
      }
      MasterRunNext(ms, recs, faults, i);
      i := i + 1;
    }
    tally := Tally(success, errors, 0);
  }

  /** The MasterSheet import: every row's document built, then the insert loop. */
  method RunMasterSheetImport(ms: MasterSheet, rows: seq<MasterRow>, faults: seq<bool>) returns (sheet: MasterSheet, tally: Tally)
    requires |rows| == |faults|
    ensures MasterRun(sheet, tally) == ImportMasterSheet(ms, rows, faults)
  {
    sheet, tally := ApplyRecords(ms, MasterRecords(rows), faults);
  }

  /**
   * The loop of the overtime import, over the rows' normalised document
   * ids: an existing document is stamped, a missing one counted as not
   * found, a throwing access as an error.
   */
  method ApplyHits(ms: MasterSheet, hits: seq<OvertimeHit>, faults: seq<bool>) returns (sheet: MasterSheet, tally: Tally)
    requires |hits| == |faults|
    ensures OvertimeRun(sheet, tally) == ApplyOvertime(ms, hits, faults, |hits|)
  {
    sheet := ms;
    var success, errors, notFound := 0, 0, 0;
    var i := 0;
    while i < |hits|
      invariant 0 <= i <= |hits|
      invariant ApplyOvertime(ms, hits, faults, i) == OvertimeRun(sheet, Tally(success, errors, notFound))
    {
      var docId := hits[i].docId;
      if faults[i] {
        errors := errors + 1;
      } else if docId in sheet {
        sheet := sheet[docId := Stamp(sheet[docId], hits[i].value)];
        success := success + 1;
      } else {
        notFound := notFound + 1;
      }
      OvertimeRunNext(ms, hits, faults, i);
      i := i + 1;
    }
    tally := Tally(success, errors, notFound);
  }

  /** The overtime import: every row's employee number normalised, then the update loop. */
  method RunOvertimeImport(ms: MasterSheet, rows: seq<OvertimeRow>, faults: seq<bool>) returns (sheet: MasterSheet, tally: Tally)
    requires |rows| == |faults|
    ensures OvertimeRun(sheet, tally) == ImportOvertime(ms, rows, faults)
  {
    sheet, tally := ApplyHits(ms, OvertimeHits(rows), faults);
  }

  /**
   * The batch of `markSelectedForOvertime`: one staged update per id, and
   * whether every one of them names a document (the commit's condition).
   */
  method StageOvertimeBatch(ms: MasterSheet, ids: seq<string>) returns (staged: MasterSheet, ok: bool)
    ensures staged == UpdateEach(ms, ids, MarkYes, |ids|)
    ensures ok == AllPresent(ms, ids)
  {
    staged := ms;
    ok := true;
    var i := 0;
    while i < |ids|
      invariant 0 <= i <= |ids|
      invariant staged == UpdateEach(ms, ids, MarkYes, i)
      invariant ok == forall j :: 0 <= j < i ==> ids[j] in ms
    {
      if ids[i] in staged {
        staged := staged[ids[i] := MarkYes(staged[ids[i]])];
      } else {
        ok := false;
      }
      i := i + 1;
    }
  }

  /**
   * A loop of per-document updates, each applied when its document exists:
   * the team fan-out of the manager form, and the corrected delete's
   * removal of the back-references.
   */
  method UpdateDocs(ms: MasterSheet, ids: seq<string>, f: MasterRecord -> MasterRecord) returns (sheet: MasterSheet)
    ensures sheet == UpdateEach(ms, ids, f, |ids|)
  {
    sheet := ms;
    var i := 0;
    while i < |ids|
      invariant 0 <= i <= |ids|
      invariant sheet == UpdateEach(ms, ids, f, i)
    {
      if ids[i] in sheet {
        sheet := sheet[ids[i] := f(sheet[ids[i]])];
      }
      i := i + 1;
    }
  }

  /** One token of that loop: the query for the PIN, then the `update` of its first match, if any. */
  method ClearFirst(emps: seq<Employee>, pin: string) returns (r: seq<Employee>)
    ensures var i := FirstWithPin(emps, pin, 0);
      r == if i < |emps| then emps[i := ClearManager(emps[i])] else emps
  {
    var index := FindByPin(emps, pin);
    r := emps;
    if index < |emps| {
      r := emps[index := ClearManager(emps[index])];
    }
  }

  /** The member loop of `deleteManager`: each token's first PIN match loses its line-manager fields. */
  method ClearTeam(emps0: seq<Employee>, team: seq<string>) returns (emps: seq<Employee>)
    ensures emps == ClearEmployeeBackRefs(emps0, team, |team|)
  {
    emps := emps0;
    var i := 0;
    while i < |team|
      invariant 0 <= i <= |team|
      invariant emps == ClearEmployeeBackRefs(emps0, team, i)
    {
      ClearNext(emps0, team, i);
      emps := ClearFirst(emps, team[i]);
      i := i + 1;
    }
  }

  class Dashboard {
    /** The `employees` collection, in insertion order. */
    var employees: seq<Employee>
    /** `MasterSheet/Employee-Data/employees`, by document id. */
    var masterSheet: MasterSheet
    /** The `line_managers` collection, by document id. */
    var lineManagers: map<string, LineManager>

    function State(): Firestore
      reads this
    {
      Firestore(employees, masterSheet, lineManagers)
    }

    constructor (db: Firestore)
      ensures State() == db
    {
      employees := db.employees;
      masterSheet := db.sheet;
      lineManagers := db.managers;
    }

    /** `handleExcelUpload`: the employee import, and the counts it reports. */
    method ImportEmployees(rows: seq<EmployeeRow>, draws: seq<nat>, faults: seq<bool>) returns (tally: Tally)
      requires |rows| == |draws| == |faults| && DrawsFit(draws)
      modifies this
      ensures EmployeeRun(employees, tally) == Imports.ImportEmployees(old(employees), rows, draws, faults)
      ensures masterSheet == old(masterSheet) && lineManagers == old(lineManagers)
    {
      employees, tally := RunEmployeeImport(employees, rows, draws, faults);
    }

    /** `handleMasterSheetExcelUpload`: the MasterSheet import, and the counts it reports. */
    method ImportMasterSheet(rows: seq<MasterRow>, faults: seq<bool>) returns (tally: Tally)
      requires |rows| == |faults|
      modifies this
      ensures MasterRun(masterSheet, tally) == Imports.ImportMasterSheet(old(masterSheet), rows, faults)
      ensures employees == old(employees) && lineManagers == old(lineManagers)
    {
      masterSheet, tally := RunMasterSheetImport(masterSheet, rows, faults);
    }

    /** `handleOvertimeExcelUpload`: the overtime import, and the counts it reports. */
    method ImportOvertime(rows: seq<OvertimeRow>, faults: seq<bool>) returns (tally: Tally)
      requires |rows| == |faults|
      modifies this
      ensures OvertimeRun(masterSheet, tally) == Imports.ImportOvertime(old(masterSheet), rows, faults)
      ensures employees == old(employees) && lineManagers == old(lineManagers)
    {
      masterSheet, tally := RunOvertimeImport(masterSheet, rows, faults);
    }

    /** `toggleOvertime(employeeId)`: reports whether the document existed and was toggled. */
    method ToggleOvertime(employeeId: string) returns (updated: bool)
      modifies this
      ensures updated == (employeeId in old(masterSheet))
      ensures masterSheet == OvertimeUpdates.ToggleOvertime(old(masterSheet), employeeId)
      ensures employees == old(employees) && lineManagers == old(lineManagers)
    {
      updated := employeeId in masterSheet;
      if updated {
        masterSheet := masterSheet[employeeId := Toggled(masterSheet[employeeId])];
      }
    }

    /**
     * `markSelectedForOvertime(ids)`: an empty selection returns at once;
     * otherwise the batch is staged, and the commit writes all of it or,
     * when one document is missing, none.
     */
    method MarkSelectedForOvertime(ids: seq<string>) returns (committed: bool)
      modifies this
      ensures committed == (ids != [] && AllPresent(old(masterSheet), ids))
      ensures masterSheet == MarkSelected(old(masterSheet), ids)
      ensures employees == old(employees) && lineManagers == old(lineManagers)
    {
      if ids == [] {
        return false;
      }
      var staged, ok := StageOvertimeBatch(masterSheet, ids);
      committed := ok;
      if committed {
        masterSheet := staged;
      }
    }

    /**
     * The manager form's submit: nothing when the selected manager has no
     * MasterSheet document; otherwise the `line_managers` document is added
     * under `newId` and each team member's MasterSheet document found by
     * the team-member rule gets the back-reference.
     */
    method CreateLineManager(managerId: string, department: string, teamInput: string, newId: string) returns (created: bool)
      requires newId !in lineManagers
      modifies this
      ensures created == (managerId in old(masterSheet))
      ensures State() == LineManagers.CreateLineManager(old(State()), managerId, department, teamInput, newId)
    {
      if managerId !in masterSheet {
        return false;
      }
      created := true;
      var team := ParseTeamMembers(teamInput);
      var manager := masterSheet[managerId];
      lineManagers := lineManagers[newId := LineManager(managerId, manager.employeeNumber, manager.employeeName, department, team)];
      masterSheet := UpdateDocs(masterSheet, TeamDocIds(team), BackRef(managerId, manager.employeeName, department));
    }

    /**
     * `deleteManager(managerId)` as written: each team token is looked up
     * as an employee PIN and the first match loses `lineManagerId` and
     * `lineManagerDepartment`; then the manager document is deleted.
     */
    method DeleteManager(managerId: string)
      modifies this
      ensures State() == LineManagers.DeleteManager(old(State()), managerId)
    {
      var team := TeamOf(State(), managerId);
      employees := ClearTeam(employees, team);
      lineManagers := lineManagers - {managerId};
    }

    /**
     * `deleteManager` as evidently intended: the written steps, and the
     * back-references in the team's MasterSheet documents removed.
     */
    method DeleteManagerReversing(managerId: string)
      modifies this
      ensures State() == LineManagers.DeleteManagerReversing(old(State()), managerId)
    {
      var team := TeamOf(State(), managerId);
      employees := ClearTeam(employees, team);
      masterSheet := UpdateDocs(masterSheet, TeamDocIds(team), ClearBackRef);
      lineManagers := lineManagers - {managerId};
    }
  }
}
