/**
 * The Firestore documents the dashboard (web_dashboard/script.js) reads and
 * writes, as values, and the one update pattern several handlers share:
 * apply the same change to every document named in a list.
 *
 * Collections are modelled in memory: `employees` as a sequence in
 * insertion order (its ids are generated), the MasterSheet
 * (`MasterSheet/Employee-Data/employees`) as a map from document id to
 * record, `line_managers` as a map from document id to record. Server
 * timestamps and the floating-point `salary` are left out.
 */
module Store {
  import opened Wrappers

  /** A document of the `employees` collection. */
  datatype Employee = Employee(
    pin: string,
    name: string,
    designation: string,
    department: string,
    email: string,
    phone: string,
    country: string,
    birthdate: string,
    registrationCompleted: bool,
    profileCompleted: bool,
    faceRegistered: bool,
    lineManagerId: Option<string>,
    lineManagerDepartment: Option<string>)

  /**
   * A MasterSheet document. `hasOvertime` is false both when the field is
   * false and when it was never written: the dashboard only ever reads it
   * as `hasOvertime || false`.
   */
  datatype MasterRecord = MasterRecord(
    employeeNumber: string,
    employeeName: string,
    designation: string,
    createdBy: string,
    hasOvertime: bool,
    overtime: Option<string>,
    lineManagerId: Option<string>,
    lineManagerName: Option<string>,
    lineManagerDepartment: Option<string>)

  /** A `line_managers` document. */
  datatype LineManager = LineManager(
    managerId: string,
    managerEmployeeNumber: string,
    managerName: string,
    department: string,
    teamMembers: seq<string>)

  type MasterSheet = map<string, MasterRecord>

  /** The three collections the dashboard writes. */
  datatype Firestore = Firestore(
    employees: seq<Employee>,
    sheet: MasterSheet,
    managers: map<string, LineManager>)

  /** The counters an import shows when it completes. */
  datatype Tally = Tally(success: nat, errors: nat, notFound: nat)

  /**
   * Applies `f` to the documents named by the first `n` ids, in order;
   * an id without a document is skipped (a Firestore `update` of a missing
   * document fails and changes nothing).
   */
  function UpdateEach(ms: MasterSheet, ids: seq<string>, f: MasterRecord -> MasterRecord, n: nat): (r: MasterSheet)
    requires n <= |ids|
    ensures r.Keys == ms.Keys
    decreases n
  {
    if n == 0 then ms
    else
      var m := UpdateEach(ms, ids, f, n - 1);
      if ids[n - 1] in m then m[ids[n - 1] := f(m[ids[n - 1]])] else m
  }

  /** `f` changes nothing the second time. */
  ghost predicate Idempotent(f: MasterRecord -> MasterRecord) {
    forall x :: f(f(x)) == f(x)
  }

  /**
   * For an idempotent change, the order and repetitions of the ids do not
   * matter: a document is changed once exactly when one of the first `n`
   * ids names it, and every other document is left as it was.
   */
  lemma {:induction false} UpdateEachPointwise(ms: MasterSheet, ids: seq<string>, f: MasterRecord -> MasterRecord, n: nat, k: string)
    requires n <= |ids| && Idempotent(f) && k in ms
    ensures UpdateEach(ms, ids, f, n)[k] == if k in ids[..n] then f(ms[k]) else ms[k]
    decreases n
  {
    if n > 0 {
      UpdateEachPointwise(ms, ids, f, n - 1, k);
      assert ids[..n] == ids[..n - 1] + [ids[n - 1]];
    }
  }

  /** The whole batch: a document is updated once exactly when its id is in the list. */
  lemma UpdateAllPointwise(ms: MasterSheet, ids: seq<string>, f: MasterRecord -> MasterRecord, k: string)
    requires Idempotent(f) && k in ms
    ensures UpdateEach(ms, ids, f, |ids|)[k] == if k in ids then f(ms[k]) else ms[k]
  {
    UpdateEachPointwise(ms, ids, f, |ids|, k);
    assert ids[..|ids|] == ids;
  }
}
