/**
 * The two overtime buttons of the MasterSheet table
 * (web_dashboard/script.js): `toggleOvertime` for one document and
 * `markSelectedForOvertime` for the ticked ones, written as one batch.
 */
module OvertimeUpdates {
  import opened Wrappers
  import opened Store
  import opened Imports

  /** The toggle's update: `hasOvertime` flipped, `overtime` 'Yes' exactly when it becomes true. */
  function Toggled(rec: MasterRecord): (r: MasterRecord)
    ensures r.hasOvertime == !rec.hasOvertime
    ensures r.overtime == Some(if r.hasOvertime then "Yes" else "No")
    ensures r.(hasOvertime := rec.hasOvertime, overtime := rec.overtime) == rec
  {
    var now := !rec.hasOvertime;
    rec.(hasOvertime := now, overtime := Some(if now then "Yes" else "No"))
  }

  /** `overtime` says 'Yes' or 'No' in line with `hasOvertime`, as the toggle leaves it. */
  predicate OvertimeConsistent(rec: MasterRecord) {
    rec.overtime == Some(if rec.hasOvertime then "Yes" else "No")
  }

  /** Toggling twice restores the flag, and restores the whole document when its `overtime` text was consistent. */
  lemma ToggleTwice(rec: MasterRecord)
    ensures Toggled(Toggled(rec)).hasOvertime == rec.hasOvertime
    ensures OvertimeConsistent(Toggled(rec))
    ensures Toggled(Toggled(rec)) == rec <==> OvertimeConsistent(rec)
  {
  }

  /**
   * `toggleOvertime(employeeId)` on the MasterSheet: the document is
   * toggled; a missing one makes `doc.data()` undefined, the read of
   * `hasOvertime` throws, and nothing is written.
   */
  function ToggleOvertime(ms: MasterSheet, employeeId: string): (r: MasterSheet)
    ensures r.Keys == ms.Keys
    ensures employeeId !in ms ==> r == ms
    ensures employeeId in ms ==> r[employeeId] == Toggled(ms[employeeId])
    ensures forall k :: k in ms && k != employeeId ==> r[k] == ms[k]
  {
    if employeeId in ms then ms[employeeId := Toggled(ms[employeeId])] else ms
  }

  /** The batch update of `markSelectedForOvertime`. */
  function MarkYes(rec: MasterRecord): MasterRecord {
    Stamp(rec, "Yes")
  }

  lemma MarkYesIdempotent()
    ensures Idempotent(MarkYes)
  {
  }

  /** Every selected id names a MasterSheet document. */
  predicate AllPresent(ms: MasterSheet, ids: seq<string>) {
    forall i :: 0 <= i < |ids| ==> ids[i] in ms
  }

  /**
   * `markSelectedForOvertime(ids)`: with no selection nothing happens; the
   * batch commits only when every update in it can be applied, so one
   * missing document leaves the whole MasterSheet as it was.
   */
  function MarkSelected(ms: MasterSheet, ids: seq<string>): (r: MasterSheet)
    ensures r.Keys == ms.Keys
    ensures !AllPresent(ms, ids) ==> r == ms
  {
    if AllPresent(ms, ids) then UpdateEach(ms, ids, MarkYes, |ids|) else ms
  }

  /**
   * When the batch commits, exactly the selected documents have
   * `hasOvertime` true and `overtime` 'Yes', and nothing else changed in
   * them or elsewhere.
   */
  lemma MarkSelectedPointwise(ms: MasterSheet, ids: seq<string>, k: string)
    requires AllPresent(ms, ids) && k in ms
    ensures MarkSelected(ms, ids)[k] == if k in ids then Stamp(ms[k], "Yes") else ms[k]
  {
    MarkYesIdempotent();
    UpdateAllPointwise(ms, ids, MarkYes, k);
  }

  /** An empty selection changes nothing. */
  lemma MarkNothing(ms: MasterSheet)
    ensures MarkSelected(ms, []) == ms
  {
  }
}
