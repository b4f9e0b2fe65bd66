/**
 * Line managers on the dashboard (web_dashboard/script.js): the manager
 * form's submit handler, which records the manager and writes a
 * back-reference into each team member's MasterSheet document, and
 * `deleteManager`, which removes the manager again.
 */
module LineManagers {
  import opened Wrappers
  import opened JsStrings
  import opened EmployeeIds
  import opened Store
  import opened Imports

  /** The MasterSheet ids of a team, one per token, by the team-member rule. */
  function TeamDocIds(team: seq<string>): (ids: seq<string>)
    ensures |ids| == |team|
    ensures forall i :: 0 <= i < |team| ==> ids[i] == TeamMemberDocId(team[i])
  {
    seq(|team|, i requires 0 <= i < |team| => TeamMemberDocId(team[i]))
  }

  /** The update written into a team member's MasterSheet document. */
  function BackRef(managerId: string, managerName: string, department: string): MasterRecord -> MasterRecord {
    (rec: MasterRecord) => rec.(lineManagerId := Some(managerId), lineManagerName := Some(managerName), lineManagerDepartment := Some(department))
  }

  /** The document has no line-manager fields. */
  predicate NoBackRef(rec: MasterRecord) {
    rec.lineManagerId.None? && rec.lineManagerName.None? && rec.lineManagerDepartment.None?
  }

  /**
   * The manager form: the team is parsed from the comma-separated input.
   * When the selected manager has no MasterSheet document nothing is
   * written. Otherwise a `line_managers` document is added under the fresh
   * id `newId` and each member's document gets the back-reference; a member
   * without a document is skipped and the others are still updated.
   */
  function CreateLineManager(db: Firestore, managerId: string, department: string, teamInput: string, newId: string): (r: Firestore)
    requires newId !in db.managers
    ensures r.employees == db.employees && r.sheet.Keys == db.sheet.Keys
    ensures managerId !in db.sheet ==> r == db
    ensures managerId in db.sheet ==>
      && r.managers.Keys == db.managers.Keys + {newId}
      && r.managers[newId].managerId == managerId && r.managers[newId].teamMembers == ParseTeamMembers(teamInput)
    ensures managerId in db.sheet ==>
      r.managers == db.managers[newId := LineManager(managerId, db.sheet[managerId].employeeNumber,
                                                     db.sheet[managerId].employeeName, department, ParseTeamMembers(teamInput))]
  {
    if managerId !in db.sheet then db
    else
      var team := ParseTeamMembers(teamInput);
      var m := db.sheet[managerId];
      var record := LineManager(managerId, m.employeeNumber, m.employeeName, department, team);
      db.(managers := db.managers[newId := record],
          sheet := UpdateEach(db.sheet, TeamDocIds(team), BackRef(managerId, m.employeeName, department), |team|))
  }

  /**
   * After creation, exactly the documents named by a team token carry the
   * new manager's id, name and department; every other document is as it
   * was.
   */
  lemma CreateLineManagerPointwise(db: Firestore, managerId: string, department: string, teamInput: string, newId: string, k: string)
    requires newId !in db.managers && managerId in db.sheet && k in db.sheet
    ensures var team := ParseTeamMembers(teamInput);
      var rec := CreateLineManager(db, managerId, department, teamInput, newId).sheet[k];
      if k in TeamDocIds(team) then
        rec == db.sheet[k].(lineManagerId := Some(managerId), lineManagerName := Some(db.sheet[managerId].employeeName),
                            lineManagerDepartment := Some(department))
      else rec == db.sheet[k]
  {
    var team := ParseTeamMembers(teamInput);
    var ids := TeamDocIds(team);
    UpdateAllPointwise(db.sheet, ids, BackRef(managerId, db.sheet[managerId].employeeName, department), k);
  }

  // ---------------------------------------------------------------------
  // deleteManager
  // ---------------------------------------------------------------------

  /**
   * The first employee at or after `from` with the given PIN, or `|emps|`;
   * `FirstWithPin(emps, pin, 0)` is what `docs[0]` of the `pin` query is
   * taken to be.
   */
  function FirstWithPin(emps: seq<Employee>, pin: string, from: nat): (i: nat)
    requires from <= |emps|
    ensures from <= i <= |emps|
    ensures i < |emps| ==> emps[i].pin == pin
    ensures forall j :: from <= j < i ==> emps[j].pin != pin
    decreases |emps| - from
  {
    if from == |emps| then from
    else if emps[from].pin == pin then from
    else FirstWithPin(emps, pin, from + 1)
  }

  /** The `FieldValue.delete()` of `lineManagerId` and `lineManagerDepartment`. */
  function ClearManager(e: Employee): Employee {
    e.(lineManagerId := None, lineManagerDepartment := None)
  }

  /** Clearing removes the two line-manager fields and changes nothing else. */
  lemma ClearManagerClears(e: Employee)
    ensures ClearManager(e).lineManagerId.None? && ClearManager(e).lineManagerDepartment.None?
    ensures ClearManager(e).(lineManagerId := e.lineManagerId, lineManagerDepartment := e.lineManagerDepartment) == e
  {
  }

  /** For each of the first `n` team tokens taken as a PIN, the first employee with that PIN is cleared. */
  function ClearEmployeeBackRefs(emps: seq<Employee>, pins: seq<string>, n: nat): (r: seq<Employee>)
    requires n <= |pins|
    ensures |r| == |emps|
    ensures forall i :: 0 <= i < |emps| ==> r[i].pin == emps[i].pin
    decreases n
  {
    if n == 0 then emps
    else
      var prev := ClearEmployeeBackRefs(emps, pins, n - 1);
      var i := FirstWithPin(prev, pins[n - 1], 0);
      if i < |prev| then prev[i := ClearManager(prev[i])] else prev
  }

  /** Two employee lists with the same PINs in the same order. */
  predicate SamePins(a: seq<Employee>, b: seq<Employee>) {
    |a| == |b| && forall i :: 0 <= i < |a| ==> a[i].pin == b[i].pin
  }

  /** One clearing step: with unique PINs, only the employee holding `pin` is cleared. */
  lemma ClearStep(prev: seq<Employee>, emps: seq<Employee>, pin: string, k: nat)
    requires SamePins(prev, emps) && UniquePins(emps) && k < |emps|
    ensures var i := FirstWithPin(prev, pin, 0);
      (if i < |prev| then prev[i := ClearManager(prev[i])] else prev)[k]
        == if emps[k].pin == pin then ClearManager(prev[k]) else prev[k]
  {
    var i := FirstWithPin(prev, pin, 0);
    if emps[k].pin == pin {
      assert prev[k].pin == pin;
      assert i == k;
    }
  }

  /** With unique PINs, an employee is cleared exactly when its PIN is one of the tokens. */
  lemma {:induction false} ClearEmployeeBackRefsPointwise(emps: seq<Employee>, pins: seq<string>, n: nat, k: nat)
    requires n <= |pins| && UniquePins(emps) && k < |emps|
    ensures ClearEmployeeBackRefs(emps, pins, n)[k] == if emps[k].pin in pins[..n] then ClearManager(emps[k]) else emps[k]
    decreases n
  {
    if n > 0 {
      ClearEmployeeBackRefsPointwise(emps, pins, n - 1, k);
      ClearAt(emps, pins, n, k);
      InPrefixStep(pins, n, emps[k].pin);
      ClearTwice(emps[k], ClearEmployeeBackRefs(emps, pins, n - 1)[k], ClearEmployeeBackRefs(emps, pins, n)[k],
                 emps[k].pin in pins[..n - 1], emps[k].pin == pins[n - 1]);
    }
  }

  /** The `n`-th token clears employee `k` exactly when `k` holds that PIN. */
  lemma ClearAt(emps: seq<Employee>, pins: seq<string>, n: nat, k: nat)
    requires 0 < n <= |pins| && UniquePins(emps) && k < |emps|
    ensures var prev := ClearEmployeeBackRefs(emps, pins, n - 1);
      ClearEmployeeBackRefs(emps, pins, n)[k] == if emps[k].pin == pins[n - 1] then ClearManager(prev[k]) else prev[k]
  {
    ClearStep(ClearEmployeeBackRefs(emps, pins, n - 1), emps, pins[n - 1], k);
  }

  /** Membership in a prefix one longer. */
  lemma InPrefixStep(pins: seq<string>, n: nat, x: string)
    requires 0 < n <= |pins|
    ensures (x in pins[..n]) == (x in pins[..n - 1] || x == pins[n - 1])
  {
    assert pins[..n] == pins[..n - 1] + [pins[n - 1]];
  }

  /** Clearing an employee that an earlier token may already have cleared. */
  lemma ClearTwice(e: Employee, before: Employee, after: Employee, earlier: bool, now: bool)
    requires before == if earlier then ClearManager(e) else e
    requires after == if now then ClearManager(before) else before
    ensures after == if earlier || now then ClearManager(e) else e
  {
  }

  /** The team tokens of a `line_managers` document, or none when it does not exist. */
  function TeamOf(db: Firestore, managerId: string): seq<string> {
    if managerId in db.managers then db.managers[managerId].teamMembers else []
  }

  /**
   * `deleteManager(managerId)` as written: each team token is looked up as
   * an employee PIN and that employee's `lineManagerId` and
   * `lineManagerDepartment` are deleted; then the manager document is
   * deleted. The MasterSheet is not touched.
   */
  function DeleteManager(db: Firestore, managerId: string): (r: Firestore)
    ensures r.managers == db.managers - {managerId}
    ensures r.sheet == db.sheet
    ensures SamePins(r.employees, db.employees)
  {
    var team := TeamOf(db, managerId);
    db.(employees := ClearEmployeeBackRefs(db.employees, team, |team|), managers := db.managers - {managerId})
  }

  /**
   * The as-written delete leaves the back-reference creation wrote: after
   * creating a manager whose first team token names a MasterSheet document
   * and deleting that manager again, the document still names the deleted
   * manager.
   */
  lemma DeleteLeavesMasterSheetBackReference(db: Firestore, managerId: string, department: string, teamInput: string, newId: string)
    requires newId !in db.managers && managerId in db.sheet
    requires ParseTeamMembers(teamInput) != [] && TeamMemberDocId(ParseTeamMembers(teamInput)[0]) in db.sheet
    ensures var after := DeleteManager(CreateLineManager(db, managerId, department, teamInput, newId), newId);
      && newId !in after.managers
      && after.sheet[TeamMemberDocId(ParseTeamMembers(teamInput)[0])].lineManagerId == Some(managerId)
  {
    var team := ParseTeamMembers(teamInput);
    var k := TeamMemberDocId(team[0]);
    CreateLineManagerPointwise(db, managerId, department, teamInput, newId, k);
    assert TeamDocIds(team)[0] == k;
  }

  // ---------------------------------------------------------------------
  // The corrected delete
  // ---------------------------------------------------------------------

  /** Removes the three line-manager fields creation writes. */
  function ClearBackRef(rec: MasterRecord): MasterRecord {
    rec.(lineManagerId := None, lineManagerName := None, lineManagerDepartment := None)
  }

  /**
   * `deleteManager` as evidently intended: besides what the written code
   * does, the back-references creation wrote into the team's MasterSheet
   * documents (found by the same team-member rule) are removed.
   */
  function DeleteManagerReversing(db: Firestore, managerId: string): (r: Firestore)
    ensures r.managers == db.managers - {managerId}
    ensures r.employees == DeleteManager(db, managerId).employees
    ensures r.sheet.Keys == db.sheet.Keys
  {
    var team := TeamOf(db, managerId);
    var deleted := DeleteManager(db, managerId);
    deleted.(sheet := UpdateEach(db.sheet, TeamDocIds(team), ClearBackRef, |team|))
  }

  /** Clearing the back-reference twice is clearing it once. */
  lemma ClearBackRefIdempotent()
    ensures Idempotent(ClearBackRef)
  {
  }

  /** The corrected delete's MasterSheet is the team's documents, each cleared. */
  lemma ReversingSheet(db: Firestore, managerId: string)
    ensures var team := TeamOf(db, managerId);
      DeleteManagerReversing(db, managerId).sheet == UpdateEach(db.sheet, TeamDocIds(team), ClearBackRef, |team|)
  {
  }

  /** One document after creating a manager and deleting it with the corrected delete. */
  lemma RestoredAt(db: Firestore, managerId: string, department: string, teamInput: string, newId: string, k: string)
    requires newId !in db.managers && managerId in db.sheet && k in db.sheet
    requires k in TeamDocIds(ParseTeamMembers(teamInput)) ==> NoBackRef(db.sheet[k])
    ensures DeleteManagerReversing(CreateLineManager(db, managerId, department, teamInput, newId), newId).sheet[k] == db.sheet[k]
  {
    var team := ParseTeamMembers(teamInput);
    var ids := TeamDocIds(team);
    var created := CreateLineManager(db, managerId, department, teamInput, newId);
    ReversingSheet(created, newId);
    assert TeamOf(created, newId) == team;
    CreateLineManagerPointwise(db, managerId, department, teamInput, newId, k);
    ClearBackRefIdempotent();
    UpdateAllPointwise(created.sheet, ids, ClearBackRef, k);
  }

  /** The MasterSheet half of `CreateThenDeleteRestores`. */
  lemma RestoresSheet(db: Firestore, managerId: string, department: string, teamInput: string, newId: string)
    requires newId !in db.managers && managerId in db.sheet
    requires forall k :: k in db.sheet && k in TeamDocIds(ParseTeamMembers(teamInput)) ==> NoBackRef(db.sheet[k])
    ensures DeleteManagerReversing(CreateLineManager(db, managerId, department, teamInput, newId), newId).sheet == db.sheet
  {
    var after := DeleteManagerReversing(CreateLineManager(db, managerId, department, teamInput, newId), newId).sheet;
    forall k | k in db.sheet ensures after[k] == db.sheet[k] {
      RestoredAt(db, managerId, department, teamInput, newId, k);
    }
  }

  /**
   * Creating a line manager and deleting it with the corrected delete
   * gives back the MasterSheet and the `line_managers` collection, when the
   * team's documents had no line manager before.
   */
  lemma CreateThenDeleteRestores(db: Firestore, managerId: string, department: string, teamInput: string, newId: string)
    requires newId !in db.managers
    requires forall k :: k in db.sheet && k in TeamDocIds(ParseTeamMembers(teamInput)) ==> NoBackRef(db.sheet[k])
    ensures var after := DeleteManagerReversing(CreateLineManager(db, managerId, department, teamInput, newId), newId);
      after.sheet == db.sheet && after.managers == db.managers
  {
    if managerId in db.sheet {
      RestoresSheet(db, managerId, department, teamInput, newId);
    } else {
      assert TeamOf(db, newId) == [];
    }
  }
}
