/**
 * The three spreadsheet imports of the dashboard (web_dashboard/script.js):
 * employees, the MasterSheet and overtime. Each goes through the parsed rows
 * in order and, per row, looks something up and then inserts, updates or
 * counts a rejection; a row whose store access throws is counted as an
 * error and the loop goes on.
 *
 * Each import is specified here as a fold over the first `n` rows of a run;
 * the dashboard's methods loop over the rows and are proved equal to the
 * fold. What may throw is an input: `faults[i]` says that row `i`'s store
 * access failed. The random PIN of row `i` comes from `draws[i]`, and the
 * employee fold takes each row's PIN, `RowPins`, as drawn up front.
 */
module Imports {
  import opened Wrappers
  import opened JsStrings
  import opened EmployeeIds
  import opened Store

  // ---------------------------------------------------------------------
  // Employees (handleExcelUpload)
  // ---------------------------------------------------------------------

  /** A parsed row of the employee sheet: each cell stringified, absent when empty. */
  datatype EmployeeRow = EmployeeRow(
    pin: Option<string>,
    name: Option<string>,
    designation: Option<string>,
    department: Option<string>,
    email: Option<string>,
    phone: Option<string>,
    country: Option<string>,
    birthdate: Option<string>)

  /** `row.PIN?.toString() || generateRandomPIN()`. */
  function RowPin(row: EmployeeRow, draw: nat): (pin: string)
    requires draw < 9000
    ensures pin != ""
    ensures Truthy(row.pin) ==> pin == row.pin.value
    ensures !Truthy(row.pin) ==> |pin| == 4 && IsDigits(pin) && 1000 <= ParseNat(pin) <= 9999
  {
    if Truthy(row.pin) then row.pin.value else GenerateRandomPin(draw)
  }

  /** The new `employees` document for a row: every flag false, no line manager. */
  function NewEmployee(row: EmployeeRow, pin: string): (e: Employee)
    ensures e.pin == pin && e.name == OrElse(row.name, "")
    ensures !e.registrationCompleted && !e.profileCompleted && !e.faceRegistered
    ensures e.lineManagerId.None? && e.lineManagerDepartment.None?
  {
    Employee(
      pin, OrElse(row.name, ""), OrElse(row.designation, ""), OrElse(row.department, ""),
      OrElse(row.email, ""), OrElse(row.phone, ""), OrElse(row.country, ""), OrElse(row.birthdate, ""),
      false, false, false, None, None)
  }

  /** The `where('pin', '==', pin)` query finds a document. */
  predicate PinTaken(emps: seq<Employee>, pin: string) {
    exists i :: 0 <= i < |emps| && emps[i].pin == pin
  }

  /** No two employees share a PIN. */
  predicate UniquePins(emps: seq<Employee>) {
    forall i, j :: 0 <= i < j < |emps| ==> emps[i].pin != emps[j].pin
  }

  datatype EmployeeRun = EmployeeRun(employees: seq<Employee>, tally: Tally)

  predicate DrawsFit(draws: seq<nat>) {
    forall i :: 0 <= i < |draws| ==> draws[i] < 9000
  }

  /** The PIN each row is imported under, drawn up front: row `i` uses `draws[i]` when its cell is empty. */
  function RowPins(rows: seq<EmployeeRow>, draws: seq<nat>): (pins: seq<string>)
    requires |rows| == |draws| && DrawsFit(draws)
    ensures |pins| == |rows|
    ensures forall i :: 0 <= i < |rows| ==> pins[i] == RowPin(rows[i], draws[i])
  {
    seq(|rows|, i requires 0 <= i < |rows| => RowPin(rows[i], draws[i]))
  }

  /** One row of the employee import, under its PIN. */
  function EmployeeStep(st: EmployeeRun, row: EmployeeRow, pin: string, fault: bool): EmployeeRun {
    if fault || PinTaken(st.employees, pin) then
      st.(tally := st.tally.(errors := st.tally.errors + 1))
    else
      EmployeeRun(st.employees + [NewEmployee(row, pin)], st.tally.(success := st.tally.success + 1))
  }

  /**
   * The acceptance rule of one employee row, both ways: the row is a success
   * exactly when its store access does not throw and no employee has its
   * PIN yet, and then its document is appended; otherwise it is an error and
   * `employees` is left as it was.
   */
  lemma EmployeeStepRule(st: EmployeeRun, row: EmployeeRow, pin: string, fault: bool)
    ensures var r := EmployeeStep(st, row, pin, fault);
      && (r.tally.success == st.tally.success + 1 <==> !fault && !PinTaken(st.employees, pin))
      && (r.tally.errors == st.tally.errors + 1 <==> fault || PinTaken(st.employees, pin))
      && r.tally.success + r.tally.errors == st.tally.success + st.tally.errors + 1
      && r.tally.notFound == st.tally.notFound
      && r.employees == if !fault && !PinTaken(st.employees, pin) then st.employees + [NewEmployee(row, pin)] else st.employees
  {
  }

  /**
   * The employee import after its first `n` rows, row `i` under `pins[i]`.
   * Every row is counted once, as a success or as an error; existing
   * employees are kept and one document is appended per success.
   */
  function ImportEmployeesRun(emps: seq<Employee>, rows: seq<EmployeeRow>, pins: seq<string>, faults: seq<bool>, n: nat): (r: EmployeeRun)
    requires n <= |rows| == |pins| == |faults|
    ensures r.tally.success + r.tally.errors == n && r.tally.notFound == 0
    ensures |r.employees| == |emps| + r.tally.success
    ensures forall j :: 0 <= j < |emps| ==> r.employees[j] == emps[j]
    decreases n
  {
    if n == 0 then EmployeeRun(emps, Tally(0, 0, 0))
    else EmployeeStep(ImportEmployeesRun(emps, rows, pins, faults, n - 1), rows[n - 1], pins[n - 1], faults[n - 1])
  }

  /** The whole employee import of a sheet. */
  function ImportEmployees(emps: seq<Employee>, rows: seq<EmployeeRow>, draws: seq<nat>, faults: seq<bool>): (r: EmployeeRun)
    requires |rows| == |draws| == |faults| && DrawsFit(draws)
    ensures r.tally.success + r.tally.errors == |rows| && r.tally.notFound == 0
    ensures |r.employees| == |emps| + r.tally.success
    ensures forall j :: 0 <= j < |emps| ==> r.employees[j] == emps[j]
  {
    ImportEmployeesRun(emps, rows, RowPins(rows, draws), faults, |rows|)
  }

  /** Appending an employee whose PIN is not taken keeps the PINs unique. */
  lemma AppendFreshKeepsUnique(es: seq<Employee>, e: Employee)
    requires UniquePins(es) && !PinTaken(es, e.pin)
    ensures UniquePins(es + [e])
  {
    var next := es + [e];
    forall i, j | 0 <= i < j < |next| ensures next[i].pin != next[j].pin {
      if j == |next| - 1 {
        assert next[i] == es[i];
      }
    }
  }

  /** The import never gives two employees the same PIN when there were none before. */
  lemma {:induction false} ImportEmployeesKeepsPinsUnique(emps: seq<Employee>, rows: seq<EmployeeRow>, pins: seq<string>, faults: seq<bool>, n: nat)
    requires n <= |rows| == |pins| == |faults|
    requires UniquePins(emps)
    ensures UniquePins(ImportEmployeesRun(emps, rows, pins, faults, n).employees)
    decreases n
  {
    if n > 0 {
      var prev := ImportEmployeesRun(emps, rows, pins, faults, n - 1);
      ImportEmployeesKeepsPinsUnique(emps, rows, pins, faults, n - 1);
      if !faults[n - 1] && !PinTaken(prev.employees, pins[n - 1]) {
        AppendFreshKeepsUnique(prev.employees, NewEmployee(rows[n - 1], pins[n - 1]));
      }
    }
  }

  /** A step keeps the documents before it and can only append the row's document. */
  lemma EmployeeStepAt(st: EmployeeRun, row: EmployeeRow, pin: string, fault: bool, k: nat)
    requires k < |EmployeeStep(st, row, pin, fault).employees|
    ensures EmployeeStep(st, row, pin, fault).employees[k]
      == if k < |st.employees| then st.employees[k] else NewEmployee(row, pin)
  {
  }

  /** Every document the run adds is the new document of one of its rows, under that row's PIN. */
  lemma {:induction false} ImportedEmployeesFromRows(emps: seq<Employee>, rows: seq<EmployeeRow>, pins: seq<string>, faults: seq<bool>, n: nat, k: nat)
    requires n <= |rows| == |pins| == |faults|
    requires |emps| <= k < |ImportEmployeesRun(emps, rows, pins, faults, n).employees|
    ensures exists i :: 0 <= i < n && ImportEmployeesRun(emps, rows, pins, faults, n).employees[k] == NewEmployee(rows[i], pins[i])
    decreases n
  {
    var prev := ImportEmployeesRun(emps, rows, pins, faults, n - 1);
    EmployeeStepAt(prev, rows[n - 1], pins[n - 1], faults[n - 1], k);
    if k < |prev.employees| {
      ImportedEmployeesFromRows(emps, rows, pins, faults, n - 1, k);
      var i :| 0 <= i < n - 1 && prev.employees[k] == NewEmployee(rows[i], pins[i]);
      assert 0 <= i < n;
    } else {
      assert 0 <= n - 1 < n;
    }
  }

  /**
   * Every document the import adds has all three flags false, no line
   * manager, and is the document of one of the rows under that row's PIN
   * (its own cell, or a generated four-digit PIN from 1000 to 9999, as
   * `RowPin` states).
   */
  lemma ImportedEmployeesAreFresh(emps: seq<Employee>, rows: seq<EmployeeRow>, draws: seq<nat>, faults: seq<bool>, k: nat)
    requires |rows| == |draws| == |faults| && DrawsFit(draws)
    requires |emps| <= k < |ImportEmployees(emps, rows, draws, faults).employees|
    ensures var e := ImportEmployees(emps, rows, draws, faults).employees[k];
      && !e.registrationCompleted && !e.profileCompleted && !e.faceRegistered
      && e.lineManagerId.None? && e.lineManagerDepartment.None?
      && exists i :: 0 <= i < |rows| && e == NewEmployee(rows[i], RowPin(rows[i], draws[i]))
  {
    var pins := RowPins(rows, draws);
    ImportedEmployeesFromRows(emps, rows, pins, faults, |rows|, k);
    var i :| 0 <= i < |rows| && ImportEmployeesRun(emps, rows, pins, faults, |rows|).employees[k] == NewEmployee(rows[i], pins[i]);
    assert pins[i] == RowPin(rows[i], draws[i]);
  }

  /** The whole import keeps PINs unique. */
  lemma ImportEmployeesUnique(emps: seq<Employee>, rows: seq<EmployeeRow>, draws: seq<nat>, faults: seq<bool>)
    requires |rows| == |draws| == |faults| && DrawsFit(draws) && UniquePins(emps)
    ensures UniquePins(ImportEmployees(emps, rows, draws, faults).employees)
  {
    ImportEmployeesKeepsPinsUnique(emps, rows, RowPins(rows, draws), faults, |rows|);
  }

  /** The same row twice in one sheet: the first is added, the second rejected as a duplicate PIN. */
  lemma ImportEmployeesSameRowTwice(emps: seq<Employee>, row: EmployeeRow, draws: seq<nat>)
    requires Truthy(row.pin) && !PinTaken(emps, row.pin.value)
    requires |draws| == 2 && DrawsFit(draws)
    ensures var r := ImportEmployees(emps, [row, row], draws, [false, false]);
      r.tally == Tally(1, 1, 0) && r.employees == emps + [NewEmployee(row, row.pin.value)]
  {
    var pins := RowPins([row, row], draws);
    assert pins[0] == row.pin.value && pins[1] == row.pin.value;
    var first := ImportEmployeesRun(emps, [row, row], pins, [false, false], 1);
    assert first.employees == emps + [NewEmployee(row, row.pin.value)];
    assert first.employees[|emps|].pin == row.pin.value;
  }

  // ---------------------------------------------------------------------
  // MasterSheet (handleMasterSheetExcelUpload)
  // ---------------------------------------------------------------------

  /** A parsed row of the MasterSheet sheet (`Salary` is left out). */
  datatype MasterRow = MasterRow(
    employeeNumber: Option<string>,
    employeeName: Option<string>,
    designation: Option<string>,
    createdBy: Option<string>)

  /** The document `set` for a row: the padded number, names defaulted, `createdBy` "Default". */
  function MasterRecordOf(row: MasterRow): (rec: MasterRecord)
    ensures rec.employeeNumber == MasterSheetNumber(row.employeeNumber)
    ensures !rec.hasOvertime && rec.overtime.None? && rec.lineManagerId.None?
  {
    MasterRecord(
      MasterSheetNumber(row.employeeNumber), OrElse(row.employeeName, ""), OrElse(row.designation, ""),
      OrElse(row.createdBy, "Default"), false, None, None, None, None)
  }

  /** The `where('employeeNumber', '==', number)` query finds a document. */
  predicate NumberTaken(ms: MasterSheet, number: string) {
    exists k :: k in ms && ms[k].employeeNumber == number
  }

  /** Every MasterSheet document sits at "EMP" followed by its own `employeeNumber`. */
  predicate WellKeyed(ms: MasterSheet) {
    forall k :: k in ms ==> k == MasterSheetDocId(ms[k].employeeNumber)
  }

  datatype MasterRun = MasterRun(sheet: MasterSheet, tally: Tally)

  /** The document each row would `set`, built up front. */
  function MasterRecords(rows: seq<MasterRow>): (recs: seq<MasterRecord>)
    ensures |recs| == |rows|
    ensures forall i :: 0 <= i < |rows| ==> recs[i] == MasterRecordOf(rows[i])
  {
    seq(|rows|, i requires 0 <= i < |rows| => MasterRecordOf(rows[i]))
  }

  /** One row of the MasterSheet import, as the document it would `set`. */
  function MasterStep(st: MasterRun, rec: MasterRecord, fault: bool): MasterRun {
    if fault || NumberTaken(st.sheet, rec.employeeNumber) then
      st.(tally := st.tally.(errors := st.tally.errors + 1))
    else
      MasterRun(st.sheet[MasterSheetDocId(rec.employeeNumber) := rec], st.tally.(success := st.tally.success + 1))
  }

  /**
   * The acceptance rule of one MasterSheet row, both ways: the row is a
   * success exactly when its store access does not throw and no document
   * has its number yet, and then its record is set at "EMP" followed by the
   * number; otherwise it is an error and the sheet is left as it was.
   */
  lemma MasterStepRule(st: MasterRun, rec: MasterRecord, fault: bool)
    ensures var r := MasterStep(st, rec, fault);
      && (r.tally.success == st.tally.success + 1 <==> !fault && !NumberTaken(st.sheet, rec.employeeNumber))
      && (r.tally.errors == st.tally.errors + 1 <==> fault || NumberTaken(st.sheet, rec.employeeNumber))
      && r.tally.success + r.tally.errors == st.tally.success + st.tally.errors + 1
      && r.tally.notFound == st.tally.notFound
      && r.sheet == if !fault && !NumberTaken(st.sheet, rec.employeeNumber)
                    then st.sheet[MasterSheetDocId(rec.employeeNumber) := rec] else st.sheet
  {
  }

  /** The MasterSheet import after its first `n` rows; every row is a success or an error. */
  function ImportMasterSheetRun(ms: MasterSheet, recs: seq<MasterRecord>, faults: seq<bool>, n: nat): (r: MasterRun)
    requires n <= |recs| == |faults|
    ensures r.tally.success + r.tally.errors == n && r.tally.notFound == 0
    decreases n
  {
    if n == 0 then MasterRun(ms, Tally(0, 0, 0))
    else MasterStep(ImportMasterSheetRun(ms, recs, faults, n - 1), recs[n - 1], faults[n - 1])
  }

  /** The whole MasterSheet import of a sheet. */
  function ImportMasterSheet(ms: MasterSheet, rows: seq<MasterRow>, faults: seq<bool>): (r: MasterRun)
    requires |rows| == |faults|
    ensures r.tally.success + r.tally.errors == |rows| && r.tally.notFound == 0
  {
    ImportMasterSheetRun(ms, MasterRecords(rows), faults, |rows|)
  }

  /** Different numbers give different document ids. */
  lemma DocIdInjective(a: string, b: string)
    requires MasterSheetDocId(a) == MasterSheetDocId(b)
    ensures a == b
  {
    assert a == MasterSheetDocId(a)[3..];
  }

  /**
   * On a well-keyed MasterSheet one row never overwrites a document: a
   * success adds exactly one new id, keeps the sheet well keyed and leaves
   * every existing document as it was.
   */
  lemma MasterStepAdds(st: MasterRun, rec: MasterRecord, fault: bool)
    requires WellKeyed(st.sheet)
    ensures var r := MasterStep(st, rec, fault);
      && WellKeyed(r.sheet)
      && |r.sheet| == |st.sheet| + (r.tally.success - st.tally.success)
      && (forall k :: k in st.sheet ==> k in r.sheet && r.sheet[k] == st.sheet[k])
  {
    var id := MasterSheetDocId(rec.employeeNumber);
    if !fault && !NumberTaken(st.sheet, rec.employeeNumber) {
      if id in st.sheet {
        DocIdInjective(st.sheet[id].employeeNumber, rec.employeeNumber);
        assert false;
      }
    }
  }

  /** The run keeps the sheet well keyed, keeps every existing document and adds one per success. */
  lemma {:induction false} MasterRunAdds(ms: MasterSheet, recs: seq<MasterRecord>, faults: seq<bool>, n: nat)
    requires n <= |recs| == |faults| && WellKeyed(ms)
    ensures var r := ImportMasterSheetRun(ms, recs, faults, n);
      && WellKeyed(r.sheet)
      && |r.sheet| == |ms| + r.tally.success
      && (forall k :: k in ms ==> k in r.sheet && r.sheet[k] == ms[k])
    decreases n
  {
    if n > 0 {
      MasterRunAdds(ms, recs, faults, n - 1);
      MasterStepAdds(ImportMasterSheetRun(ms, recs, faults, n - 1), recs[n - 1], faults[n - 1]);
    }
  }

  /**
   * The MasterSheet import keeps the sheet well keyed, keeps every existing
   * document and adds exactly one document per success.
   */
  lemma ImportMasterSheetAdds(ms: MasterSheet, rows: seq<MasterRow>, faults: seq<bool>)
    requires |rows| == |faults| && WellKeyed(ms)
    ensures var r := ImportMasterSheet(ms, rows, faults);
      && WellKeyed(r.sheet)
      && |r.sheet| == |ms| + r.tally.success
      && (forall k :: k in ms ==> k in r.sheet && r.sheet[k] == ms[k])
  {
    MasterRunAdds(ms, MasterRecords(rows), faults, |rows|);
  }

  /** Every document the run adds is the record of one of its rows, at "EMP" followed by that record's number. */
  lemma {:induction false} ImportedRecordsFromRows(ms: MasterSheet, recs: seq<MasterRecord>, faults: seq<bool>, n: nat, k: string)
    requires n <= |recs| == |faults|
    requires k in ImportMasterSheetRun(ms, recs, faults, n).sheet && k !in ms
    ensures exists i :: 0 <= i < n && ImportMasterSheetRun(ms, recs, faults, n).sheet[k] == recs[i]
                        && k == MasterSheetDocId(recs[i].employeeNumber)
    decreases n
  {
    if n > 0 {
      var prev := ImportMasterSheetRun(ms, recs, faults, n - 1);
      var id := MasterSheetDocId(recs[n - 1].employeeNumber);
      if !faults[n - 1] && !NumberTaken(prev.sheet, recs[n - 1].employeeNumber) && k == id {
        assert ImportMasterSheetRun(ms, recs, faults, n).sheet[k] == recs[n - 1];
      } else {
        ImportedRecordsFromRows(ms, recs, faults, n - 1, k);
      }
    }
  }

  /** Every document the MasterSheet import adds is `MasterRecordOf` one of the rows, at its own id. */
  lemma ImportedRecordsAreRows(ms: MasterSheet, rows: seq<MasterRow>, faults: seq<bool>, k: string)
    requires |rows| == |faults|
    requires k in ImportMasterSheet(ms, rows, faults).sheet && k !in ms
    ensures exists i :: 0 <= i < |rows| && ImportMasterSheet(ms, rows, faults).sheet[k] == MasterRecordOf(rows[i])
                        && k == MasterSheetDocId(MasterSheetNumber(rows[i].employeeNumber))
  {
    ImportedRecordsFromRows(ms, MasterRecords(rows), faults, |rows|, k);
  }

  /** The same row twice: one success, one error, one new document. */
  lemma ImportMasterSheetSameRowTwice(ms: MasterSheet, row: MasterRow)
    requires !NumberTaken(ms, MasterSheetNumber(row.employeeNumber))
    ensures var r := ImportMasterSheet(ms, [row, row], [false, false]);
      && r.tally == Tally(1, 1, 0)
      && r.sheet == ms[MasterSheetDocId(MasterSheetNumber(row.employeeNumber)) := MasterRecordOf(row)]
  {
    var rec := MasterRecordOf(row);
    var recs := MasterRecords([row, row]);
    assert recs[0] == rec && recs[1] == rec;
    var first := ImportMasterSheetRun(ms, recs, [false, false], 1);
    var id := MasterSheetDocId(rec.employeeNumber);
    assert first.sheet == ms[id := rec];
    assert NumberTaken(first.sheet, rec.employeeNumber) by {
      assert id in first.sheet && first.sheet[id].employeeNumber == rec.employeeNumber;
    }
  }

  // ---------------------------------------------------------------------
  // Overtime (handleOvertimeExcelUpload)
  // ---------------------------------------------------------------------

  /** A parsed row of the overtime sheet. */
  datatype OvertimeRow = OvertimeRow(employeeNumber: Option<string>, overtime: Option<string>)

  /** The overtime `update`: `hasOvertime` true and the given `overtime` text. */
  function Stamp(rec: MasterRecord, value: string): (r: MasterRecord)
    ensures r.hasOvertime && r.overtime == Some(value)
    ensures r.(hasOvertime := rec.hasOvertime, overtime := rec.overtime) == rec
  {
    rec.(hasOvertime := true, overtime := Some(value))
  }

  /** Where a row of the overtime sheet writes and what: the normalised document id and `row.Overtime || 'Yes'`. */
  datatype OvertimeHit = OvertimeHit(docId: string, value: string)

  function OvertimeHitOf(row: OvertimeRow): OvertimeHit {
    OvertimeHit(OvertimeDocId(row.employeeNumber), OrElse(row.overtime, "Yes"))
  }

  function OvertimeHits(rows: seq<OvertimeRow>): (hits: seq<OvertimeHit>)
    ensures |hits| == |rows|
    ensures forall i :: 0 <= i < |rows| ==> hits[i] == OvertimeHitOf(rows[i])
  {
    seq(|rows|, i requires 0 <= i < |rows| => OvertimeHitOf(rows[i]))
  }

  datatype OvertimeRun = OvertimeRun(sheet: MasterSheet, tally: Tally)

  /** One row of the overtime import: update when the document exists, otherwise count it as not found. */
  function OvertimeStep(st: OvertimeRun, hit: OvertimeHit, fault: bool): OvertimeRun {
    if fault then st.(tally := st.tally.(errors := st.tally.errors + 1))
    else if hit.docId in st.sheet then
      OvertimeRun(st.sheet[hit.docId := Stamp(st.sheet[hit.docId], hit.value)], st.tally.(success := st.tally.success + 1))
    else st.(tally := st.tally.(notFound := st.tally.notFound + 1))
  }

  /**
   * The three outcomes of one overtime row: an error exactly when its store
   * access throws, a success exactly when it does not and the document
   * exists (which is then stamped), a not-found otherwise.
   */
  lemma OvertimeStepRule(st: OvertimeRun, hit: OvertimeHit, fault: bool)
    ensures var r := OvertimeStep(st, hit, fault);
      && (r.tally.errors == st.tally.errors + 1 <==> fault)
      && (r.tally.success == st.tally.success + 1 <==> !fault && hit.docId in st.sheet)
      && (r.tally.notFound == st.tally.notFound + 1 <==> !fault && hit.docId !in st.sheet)
      && r.tally.success + r.tally.errors + r.tally.notFound == st.tally.success + st.tally.errors + st.tally.notFound + 1
      && r.sheet == if !fault && hit.docId in st.sheet
                    then st.sheet[hit.docId := Stamp(st.sheet[hit.docId], hit.value)] else st.sheet
  {
  }

  /**
   * The overtime import after its first `n` rows. It never creates or
   * deletes a document, and every row is counted once as a success, a
   * not-found or an error.
   */
  function ApplyOvertime(ms: MasterSheet, hits: seq<OvertimeHit>, faults: seq<bool>, n: nat): (r: OvertimeRun)
    requires n <= |hits| == |faults|
    ensures r.sheet.Keys == ms.Keys
    ensures r.tally.success + r.tally.errors + r.tally.notFound == n
    decreases n
  {
    if n == 0 then OvertimeRun(ms, Tally(0, 0, 0))
    else OvertimeStep(ApplyOvertime(ms, hits, faults, n - 1), hits[n - 1], faults[n - 1])
  }

  /** The whole overtime import of a sheet. */
  function ImportOvertime(ms: MasterSheet, rows: seq<OvertimeRow>, faults: seq<bool>): (r: OvertimeRun)
    requires |rows| == |faults|
    ensures r.sheet.Keys == ms.Keys
    ensures r.tally.success + r.tally.errors + r.tally.notFound == |rows|
  {
    ApplyOvertime(ms, OvertimeHits(rows), faults, |rows|)
  }

  /** The index of the last of the first `n` rows that reaches document `k` without a fault, or `n` when none does. */
  function LastHit(hits: seq<OvertimeHit>, faults: seq<bool>, n: nat, k: string): (j: nat)
    requires n <= |hits| == |faults|
    ensures j <= n
    ensures j < n ==> !faults[j] && hits[j].docId == k
    ensures forall i :: j < i < n ==> faults[i] || hits[i].docId != k
    ensures j == n ==> forall i :: 0 <= i < n ==> faults[i] || hits[i].docId != k
    decreases n
  {
    if n == 0 then 0
    else if !faults[n - 1] && hits[n - 1].docId == k then n - 1
    else
      var j := LastHit(hits, faults, n - 1, k);
      if j == n - 1 then n else j
  }

  /**
   * What the overtime import leaves in a document: the stamp of the last
   * row that reached it, or the document unchanged when no row did.
   */
  lemma {:induction false} ApplyOvertimePointwise(ms: MasterSheet, hits: seq<OvertimeHit>, faults: seq<bool>, n: nat, k: string)
    requires n <= |hits| == |faults| && k in ms
    ensures var j := LastHit(hits, faults, n, k);
      ApplyOvertime(ms, hits, faults, n).sheet[k] == if j < n then Stamp(ms[k], hits[j].value) else ms[k]
    decreases n
  {
    if n > 0 {
      ApplyOvertimePointwise(ms, hits, faults, n - 1, k);
    }
  }

  /**
   * Importing the same overtime sheet again, without faults, leaves the
   * MasterSheet as the first import left it.
   */
  lemma ImportOvertimeIdempotent(ms: MasterSheet, rows: seq<OvertimeRow>, faults: seq<bool>)
    requires |rows| == |faults| && forall i :: 0 <= i < |faults| ==> !faults[i]
    ensures var once := ImportOvertime(ms, rows, faults).sheet;
      ImportOvertime(once, rows, faults).sheet == once
  {
    var hits := OvertimeHits(rows);
    var n := |rows|;
    var once := ApplyOvertime(ms, hits, faults, n).sheet;
    var twice := ApplyOvertime(once, hits, faults, n).sheet;
    forall k | k in once ensures twice[k] == once[k] {
      ApplyOvertimePointwise(ms, hits, faults, n, k);
      ApplyOvertimePointwise(once, hits, faults, n, k);
    }
  }
}
