/**
 * The add/edit dialog: its default values, its schema check before
 * submission, the choice between updating and adding, and whether the
 * dialog closes.
 */
module ModuleForm {
  import opened Wrappers
  import opened Text
  import opened Types
  import opened Schema
  import opened Actions

  /** `field || ""` on an optional key of the edited record. */
  function TextOf(o: Option<string>): string {
    OrElse(o, "")
  }

  /**
   * The form's initial values: the edited record's keys, with "" for each
   * missing or empty text and "Pending" for a missing or empty status.
   */
  function DefaultValues(editing: Option<Module>): (v: ModuleValues)
    // creating: every text empty, status "Pending"
    ensures editing.None? ==>
              && v.yard == "" && v.location == "" && v.moduleNo == ""
              && v.rfloDate == Some("") && v.shipmentNo == Some("")
              && v.yardReport == Some("") && v.islandReport == Some("") && v.byWhom == Some("")
              && v.rfloDateStatus == Label(Pending)
    // editing: each key of the record, or its empty default
    ensures editing.Some? ==>
              var m := editing.value;
              && v.yard == m.yard && v.location == m.location && v.moduleNo == m.moduleNo
              && v.rfloDate == Some(TextOf(m.rfloDate)) && v.shipmentNo == Some(TextOf(m.shipmentNo))
              && v.yardReport == Some(TextOf(m.yardReport))
              && v.islandReport == Some(TextOf(m.islandReport))
              && v.byWhom == Some(TextOf(m.byWhom))
              && (m.rfloDateStatus != "" ==> v.rfloDateStatus == m.rfloDateStatus)
              && (m.rfloDateStatus == "" ==> v.rfloDateStatus == Label(Pending))
    // every optional key is present in the form
    ensures v.rfloDate.Some? && v.shipmentNo.Some? && v.yardReport.Some?
    ensures v.islandReport.Some? && v.byWhom.Some?
  {
    match editing
    case None =>
      ModuleValues("", "", "", Some(""), Some(""), "Pending", Some(""), Some(""), Some(""))
    case Some(m) =>
      ModuleValues(
        yard := m.yard,
        location := m.location,
        moduleNo := m.moduleNo,
        rfloDate := Some(TextOf(m.rfloDate)),
        shipmentNo := Some(TextOf(m.shipmentNo)),
        rfloDateStatus := if m.rfloDateStatus != "" then m.rfloDateStatus else "Pending",
        yardReport := Some(TextOf(m.yardReport)),
        islandReport := Some(TextOf(m.islandReport)),
        byWhom := Some(TextOf(m.byWhom)))
  }

  /**
   * What a submit does: `Blocked` when the form's schema rejects the values
   * (no action is called), otherwise the called action's step and whether
   * the dialog stays open.
   */
  datatype Submission = Blocked(issues: seq<Issue>) | Dispatched(step: Step, open: bool)

  /**
   * Submitting the dialog: the schema check, then `updateModule` with the
   * edited record's id when editing, `addModule` otherwise; the dialog
   * closes only on success.
   */
  function Submit(editing: Option<Module>, values: ModuleValues, store: seq<Module>, detect: Detector): (r: Submission)
    ensures r.Blocked? <==> !Valid(values)
    ensures r.Blocked? ==> r.issues == Validate(values)
    ensures r.Dispatched? && editing.Some? ==> r.step == UpdateModule(store, editing.value.id, values, detect)
    ensures r.Dispatched? && editing.None? ==> r.step == AddModule(store, values)
    ensures r.Dispatched? ==> (r.open <==> !r.step.result.Saved?)
  {
    if !Valid(values) then Blocked(Validate(values))
    else
      var step := if editing.Some? then UpdateModule(store, editing.value.id, values, detect)
                  else AddModule(store, values);
      Dispatched(step, !step.result.Saved?)
  }

  /**
   * The action never reports schema issues for a submission the form let
   * through: adding always succeeds, and editing fails only when the
   * record's id is no longer in the list.
   */
  lemma SubmittedValuesPassActionSchema(editing: Option<Module>, values: ModuleValues, store: seq<Module>, detect: Detector)
    requires Submit(editing, values, store, detect).Dispatched?
    ensures !Submit(editing, values, store, detect).step.result.Invalid?
    ensures editing.None? ==> Submit(editing, values, store, detect).step.result.Saved?
    ensures editing.Some? && editing.value in store ==> Submit(editing, values, store, detect).step.result.Saved?
  {
    if editing.Some? && editing.value in store {
      var j :| 0 <= j < |store| && store[j] == editing.value;
      assert store[j].id == editing.value.id;
    }
  }

  /**
   * Opening a stored record for editing and saving it unchanged keeps every
   * key the dialog shows: the required keys, the status and the date exactly,
   * the optional texts up to absent-versus-empty, and the keys outside the
   * form; only the anomaly verdict is refreshed.
   */
  lemma {:induction false} ResubmitDefaultsKeepsRecord(store: seq<Module>, i: nat, detect: Detector)
    requires i < |store|
    requires FindIndex(store, store[i].id) == Some(i)
    requires store[i].yard != "" && store[i].location != "" && store[i].moduleNo != ""
    requires HasValidStatus(store[i])
    ensures var m := store[i];
            var r := Submit(Some(m), DefaultValues(Some(m)), store, detect);
            && r.Dispatched? && !r.open && r.step.result.Saved?
            && var n := r.step.store[i];
            && n.id == m.id && n.yard == m.yard && n.location == m.location && n.moduleNo == m.moduleNo
            && n.rfloDateStatus == m.rfloDateStatus && n.rfloDate == m.rfloDate
            && TextOf(n.shipmentNo) == TextOf(m.shipmentNo)
            && TextOf(n.yardReport) == TextOf(m.yardReport)
            && TextOf(n.islandReport) == TextOf(m.islandReport)
            && TextOf(n.byWhom) == TextOf(m.byWhom)
            && n.signedReport == m.signedReport && n.shipmentDate == m.shipmentDate
  {
    var m := store[i];
    var v := DefaultValues(Some(m));
    ValidIff(v);
    assert Valid(v);
    var s := UpdateModule(store, m.id, v, detect);
    assert s.result.Saved?;
  }
}
