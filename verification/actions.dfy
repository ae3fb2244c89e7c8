/**
 * The server actions over the in-memory module list: `updateModule` and
 * `addModule`.  The list is a value; each action returns its result and the
 * list it leaves behind.  The anomaly detector is a function parameter.
 */
module Actions {
  import opened Wrappers
  import opened Text
  import opened Types
  import opened Schema

  /** What the anomaly detector is asked about. */
  datatype AnomalyInput = AnomalyInput(
    yard: string,
    location: string,
    moduleNo: string,
    rfloDateStatus: string,
    progressNotes: string)

  /** What the anomaly detector answers. */
  datatype Verdict = Verdict(isAnomaly: bool, explanation: string)

  /** The anomaly detector: an opaque call whose answer depends only on its input. */
  type Detector = AnomalyInput -> Verdict

  /** An action's answer: the saved record, the schema's issues, or a form-level error. */
  datatype ActionResult = Saved(data: Module) | Invalid(issues: seq<Issue>) | FormError(message: string)

  /** An action's answer together with the module list after the action. */
  datatype Step = Step(result: ActionResult, store: seq<Module>)

  const NotFoundMessage: string := "Module not found."

  // ---------------------------------------------------------------------------
  // progress notes handed to the detector
  // ---------------------------------------------------------------------------

  /** The closing segment of the progress notes. */
  function UpdatedBy(byWhom: Option<string>): (seg: string)
    ensures Truthy(byWhom) ==> seg == "Updated by: " + byWhom.value
    ensures !Truthy(byWhom) ==> seg == "Updated by: N/A"
  {
    "Updated by: " + OrElse(byWhom, "N/A")
  }

  /** The truthy entries of `xs`, in order: `xs.filter(Boolean)`. */
  function Keep(xs: seq<Option<string>>): seq<string> {
    if xs == [] then []
    else (if Truthy(xs[0]) then [xs[0].value] else []) + Keep(xs[1..])
  }

  /** Every kept text is a non-empty entry; all truthy keeps all, none truthy keeps none. */
  lemma {:induction false} KeepFacts(xs: seq<Option<string>>)
    ensures |Keep(xs)| <= |xs|
    ensures forall i :: 0 <= i < |Keep(xs)| ==> Keep(xs)[i] != "" && Some(Keep(xs)[i]) in xs
    ensures (forall i :: 0 <= i < |xs| ==> Truthy(xs[i])) ==> |Keep(xs)| == |xs|
    ensures (forall i :: 0 <= i < |xs| ==> !Truthy(xs[i])) ==> Keep(xs) == []
    decreases |xs|
  {
    if xs != [] {
      var rest := xs[1..];
      KeepFacts(rest);
      var head := if Truthy(xs[0]) then [xs[0].value] else [];
      assert Keep(xs) == head + Keep(rest);
      forall i | 0 <= i < |Keep(xs)| ensures Keep(xs)[i] != "" && Some(Keep(xs)[i]) in xs {
        if i < |head| {
          assert Keep(xs)[i] == xs[0].value;
        } else {
          assert Keep(xs)[i] == Keep(rest)[i - |head|];
          assert Some(Keep(xs)[i]) in rest;
        }
      }
      if forall i :: 0 <= i < |xs| ==> Truthy(xs[i]) {
        assert Truthy(xs[0]);
        assert forall i :: 0 <= i < |rest| ==> Truthy(rest[i]) by {
          forall i | 0 <= i < |rest| ensures Truthy(rest[i]) {
            assert rest[i] == xs[i + 1];
          }
        }
      }
      if forall i :: 0 <= i < |xs| ==> !Truthy(xs[i]) {
        assert !Truthy(xs[0]);
        assert forall i :: 0 <= i < |rest| ==> !Truthy(rest[i]) by {
          forall i | 0 <= i < |rest| ensures !Truthy(rest[i]) {
            assert rest[i] == xs[i + 1];
          }
        }
      }
    }
  }

  /** Filtering a concatenation concatenates the filtered parts. */
  lemma {:induction false} KeepAppend(a: seq<Option<string>>, b: seq<Option<string>>)
    ensures Keep(a + b) == Keep(a) + Keep(b)
    decreases |a|
  {
    if a == [] {
      assert a + b == b;
    } else {
      KeepAppend(a[1..], b);
      var head := if Truthy(a[0]) then [a[0].value] else [];
      assert (a + b)[0] == a[0];
      assert (a + b)[1..] == a[1..] + b;
      assert Keep(a + b) == head + Keep(a[1..] + b);
    }
  }

  /** The truthy entries of `xs`, in order: `xs.filter(Boolean)`. */
  function Present(xs: seq<Option<string>>): (r: seq<string>)
    ensures |r| <= |xs|
    ensures forall i :: 0 <= i < |r| ==> r[i] != "" && Some(r[i]) in xs
    ensures (forall i :: 0 <= i < |xs| ==> Truthy(xs[i])) ==> |r| == |xs|
    ensures (forall i :: 0 <= i < |xs| ==> !Truthy(xs[i])) ==> r == []
  {
    KeepFacts(xs);
    Keep(xs)
  }

  /**
   * `Present` is the filter of truthy entries: one entry is kept exactly
   * when truthy, and filtering a concatenation concatenates the filtered
   * parts, so order and repetitions are kept.
   */
  lemma PresentIsFilter(a: seq<Option<string>>, b: seq<Option<string>>, o: Option<string>)
    ensures Present([o]) == (if Truthy(o) then [o.value] else [])
    ensures Present(a + b) == Present(a) + Present(b)
  {
    assert [o][1..] == [];
    KeepAppend(a, b);
  }

  /**
   * The progress notes: the non-empty yard and island reports and the
   * "Updated by" segment, joined with " | ".
   */
  function ProgressNotes(v: ModuleValues): (notes: string)
    ensures EndsWith(notes, UpdatedBy(v.byWhom))
  {
    var parts := Present([v.yardReport, v.islandReport]) + [UpdatedBy(v.byWhom)];
    JoinEndsWithLast(parts, " | ");
    Join(parts, " | ")
  }

  /** A present report followed by the separator, or nothing. */
  function Segment(report: Option<string>): string {
    if Truthy(report) then report.value + " | " else ""
  }

  /** The filtered reports: the yard report, then the island report, each only when non-empty. */
  lemma PresentReports(v: ModuleValues)
    ensures Present([v.yardReport, v.islandReport])
            == (if Truthy(v.yardReport) then [v.yardReport.value] else [])
               + (if Truthy(v.islandReport) then [v.islandReport.value] else [])
  {
    assert [v.yardReport, v.islandReport] == [v.yardReport] + [v.islandReport];
    KeepAppend([v.yardReport], [v.islandReport]);
    assert [v.yardReport][1..] == [] && [v.islandReport][1..] == [];
  }

  /**
   * The notes are exactly the yard report and the island report, each only
   * when non-empty and each followed by " | ", then the "Updated by"
   * segment.
   */
  lemma ProgressNotesExact(v: ModuleValues)
    ensures ProgressNotes(v) == Segment(v.yardReport) + Segment(v.islandReport) + UpdatedBy(v.byWhom)
  {
    var tag := UpdatedBy(v.byWhom);
    var sep := " | ";
    PresentReports(v);
    var parts := Present([v.yardReport, v.islandReport]) + [tag];
    assert ProgressNotes(v) == Join(parts, sep);
    if Truthy(v.yardReport) && Truthy(v.islandReport) {
      JoinSmall(v.yardReport.value, v.islandReport.value, tag, sep);
      assert parts == [v.yardReport.value, v.islandReport.value, tag];
    } else if Truthy(v.yardReport) {
      JoinSmall(v.yardReport.value, "", tag, sep);
      assert parts == [v.yardReport.value, tag];
    } else if Truthy(v.islandReport) {
      JoinSmall(v.islandReport.value, "", tag, sep);
      assert parts == [v.islandReport.value, tag];
    } else {
      assert parts == [tag];
    }
  }

  /**
   * The notes start with the yard report when there is one, carry the island
   * report right before the closing segment when there is one, and are that
   * segment alone otherwise.
   */
  lemma ProgressNotesShape(v: ModuleValues)
    ensures Truthy(v.yardReport) ==> StartsWith(ProgressNotes(v), v.yardReport.value + " | ")
    ensures Truthy(v.islandReport) ==>
              EndsWith(ProgressNotes(v), v.islandReport.value + " | " + UpdatedBy(v.byWhom))
    ensures !Truthy(v.yardReport) && !Truthy(v.islandReport) ==> ProgressNotes(v) == UpdatedBy(v.byWhom)
  {
    var tag := UpdatedBy(v.byWhom);
    PresentReports(v);
    var parts := Present([v.yardReport, v.islandReport]) + [tag];
    assert Join([tag], " | ") == tag;
    if Truthy(v.yardReport) {
      JoinStartsWithFirst(parts, " | ");
    }
    if Truthy(v.islandReport) {
      JoinEndsWithLastTwo(parts, " | ");
    }
  }

  /** The question put to the detector for submitted values. */
  function Query(v: ModuleValues): AnomalyInput {
    AnomalyInput(v.yard, v.location, v.moduleNo, v.rfloDateStatus, ProgressNotes(v))
  }

  // ---------------------------------------------------------------------------
  // updateModule
  // ---------------------------------------------------------------------------

  /** `findIndex` by id: the first position whose record has id `id`, if any. */
  function FindIndex(store: seq<Module>, id: string): (r: Option<nat>)
    ensures r.Some? ==> r.value < |store| && store[r.value].id == id
    ensures r.Some? ==> forall j :: 0 <= j < r.value ==> store[j].id != id
    ensures r.None? <==> forall j :: 0 <= j < |store| ==> store[j].id != id
  {
    if store == [] then None
    else if store[0].id == id then Some(0)
    else match FindIndex(store[1..], id)
      case None => None
      case Some(i) => Some(i + 1)
  }

  /** One key of an object spread: the submitted value if the key is present, else the old one. */
  function Spread<T>(existing: Option<T>, submitted: Option<T>): (r: Option<T>)
    ensures submitted.Some? ==> r == submitted
    ensures submitted.None? ==> r == existing
  {
    if submitted.Some? then submitted else existing
  }

  /**
   * The updated record: the existing record overlaid with the submitted
   * values, except that an empty or absent date keeps the existing date, and
   * with the detector's verdict.
   */
  function Merge(existing: Module, v: ModuleValues, verdict: Verdict): (m: Module)
    // keys outside the schema are kept
    ensures m.id == existing.id
    ensures m.signedReport == existing.signedReport && m.shipmentDate == existing.shipmentDate
    // required keys are always overwritten
    ensures m.yard == v.yard && m.location == v.location && m.moduleNo == v.moduleNo
    ensures m.rfloDateStatus == v.rfloDateStatus
    // optional keys are overwritten when submitted and kept otherwise
    ensures v.shipmentNo.Some? ==> m.shipmentNo == v.shipmentNo
    ensures v.shipmentNo.None? ==> m.shipmentNo == existing.shipmentNo
    ensures v.yardReport.Some? ==> m.yardReport == v.yardReport
    ensures v.yardReport.None? ==> m.yardReport == existing.yardReport
    ensures v.islandReport.Some? ==> m.islandReport == v.islandReport
    ensures v.islandReport.None? ==> m.islandReport == existing.islandReport
    ensures v.byWhom.Some? ==> m.byWhom == v.byWhom
    ensures v.byWhom.None? ==> m.byWhom == existing.byWhom
    // the date falls back to the existing one unless a non-empty date is submitted
    ensures Truthy(v.rfloDate) ==> m.rfloDate == v.rfloDate
    ensures !Truthy(v.rfloDate) ==> m.rfloDate == existing.rfloDate
    // the anomaly keys carry the verdict
    ensures m.isAnomaly == Some(verdict.isAnomaly) && m.anomalyExplanation == Some(verdict.explanation)
  {
    existing.(
      yard := v.yard,
      location := v.location,
      moduleNo := v.moduleNo,
      shipmentNo := Spread(existing.shipmentNo, v.shipmentNo),
      rfloDateStatus := v.rfloDateStatus,
      yardReport := Spread(existing.yardReport, v.yardReport),
      islandReport := Spread(existing.islandReport, v.islandReport),
      byWhom := Spread(existing.byWhom, v.byWhom),
      rfloDate := if Truthy(v.rfloDate) then v.rfloDate else existing.rfloDate,
      isAnomaly := Some(verdict.isAnomaly),
      anomalyExplanation := Some(verdict.explanation))
  }

  /**
   * `updateModule`: validate, find the record by id, merge, and write the
   * merged record back at the same position.
   */
  function UpdateModule(store: seq<Module>, id: string, v: ModuleValues, detect: Detector): (s: Step)
    // invalid values: the schema's issues, nothing written
    ensures !Valid(v) ==> s == Step(Invalid(Validate(v)), store)
    // unknown id: "Module not found.", nothing written
    ensures Valid(v) && (forall j :: 0 <= j < |store| ==> store[j].id != id) ==>
              s == Step(FormError(NotFoundMessage), store)
    // success exactly when the values are valid and the id is present
    ensures s.result.Saved? <==> Valid(v) && exists j :: 0 <= j < |store| && store[j].id == id
    ensures !s.result.Saved? ==> s.store == store
    // on success only the first record with that id changes, and it becomes the merge
    ensures s.result.Saved? ==>
              && |s.store| == |store|
              && var i := FindIndex(store, id).value;
              && s.store[i] == s.result.data
              && s.result.data == Merge(store[i], v, detect(Query(v)))
              && (forall j :: 0 <= j < |store| && j != i ==> s.store[j] == store[j])
  {
    if !Valid(v) then Step(Invalid(Validate(v)), store)
    else match FindIndex(store, id)
      case None => Step(FormError(NotFoundMessage), store)
      case Some(i) =>
        var updated := Merge(store[i], v, detect(Query(v)));
        Step(Saved(updated), store[i := updated])
  }

  /** A successful update keeps the id it was asked for and every record's status valid. */
  lemma UpdateKeepsIdAndStatuses(store: seq<Module>, id: string, v: ModuleValues, detect: Detector)
    requires StatusesValid(store)
    ensures UpdateModule(store, id, v, detect).result.Saved? ==> UpdateModule(store, id, v, detect).result.data.id == id
    ensures StatusesValid(UpdateModule(store, id, v, detect).store)
  {
    var s := UpdateModule(store, id, v, detect);
    if s.result.Saved? {
      ValidIff(v);
      var i := FindIndex(store, id).value;
      forall j | 0 <= j < |s.store| ensures HasValidStatus(s.store[j]) {
        if j != i {
          assert s.store[j] == store[j];
        }
      }
    }
  }

  /** Merging the same values twice gives what merging once gives. */
  lemma MergeIdempotent(existing: Module, v: ModuleValues, verdict: Verdict)
    ensures Merge(Merge(existing, v, verdict), v, verdict) == Merge(existing, v, verdict)
  {
  }

  /**
   * Merging the same values again under another verdict gives what merging
   * once under that verdict gives: the later verdict replaces the earlier
   * one and every other key is as after one merge.
   */
  lemma MergeLastVerdictWins(existing: Module, v: ModuleValues, first: Verdict, second: Verdict)
    ensures Merge(Merge(existing, v, first), v, second) == Merge(existing, v, second)
  {
  }

  /** Writing a record with the same id back at the found position keeps it the found position. */
  lemma FindIndexAfterWrite(store: seq<Module>, id: string, i: nat, m: Module)
    requires FindIndex(store, id) == Some(i) && m.id == id
    ensures FindIndex(store[i := m], id) == Some(i)
  {
    var written := store[i := m];
    assert written[i].id == id;
    assert forall j :: 0 <= j < i ==> written[j] == store[j];
    var again := FindIndex(written, id);
    assert again.value == i;
  }

  /** For valid values and a found id, the update writes the merge at the found position. */
  lemma UpdateAt(store: seq<Module>, id: string, v: ModuleValues, detect: Detector, i: nat)
    requires Valid(v) && FindIndex(store, id) == Some(i)
    ensures UpdateModule(store, id, v, detect).store == store[i := Merge(store[i], v, detect(Query(v)))]
  {
  }

  /** The resubmission when the first submission found the record at `i`. */
  lemma ResubmitAt(store: seq<Module>, id: string, v: ModuleValues, first: Detector, second: Detector, i: nat)
    requires Valid(v) && FindIndex(store, id) == Some(i)
    ensures UpdateModule(store[i := Merge(store[i], v, first(Query(v)))], id, v, second).store
            == UpdateModule(store, id, v, second).store
  {
    var a := first(Query(v));
    var b := second(Query(v));
    var merged := Merge(store[i], v, a);
    FindIndexAfterWrite(store, id, i, merged);
    UpdateAt(store[i := merged], id, v, second, i);
    UpdateAt(store, id, v, second, i);
    MergeLastVerdictWins(store[i], v, a, b);
    assert store[i := merged][i := Merge(merged, v, b)] == store[i := Merge(store[i], v, b)];
  }

  /**
   * Submitting the same update twice, with the detector answering each
   * submission independently, leaves the list as the second submission
   * alone would have left it: the second verdict wins and every other key
   * is as after one update.
   */
  lemma ResubmitKeepsLastVerdict(store: seq<Module>, id: string, v: ModuleValues, first: Detector, second: Detector)
    ensures UpdateModule(UpdateModule(store, id, v, first).store, id, v, second).store
            == UpdateModule(store, id, v, second).store
  {
    if Valid(v) && FindIndex(store, id).Some? {
      var i := FindIndex(store, id).value;
      UpdateAt(store, id, v, first, i);
      ResubmitAt(store, id, v, first, second, i);
    }
  }

  /**
   * Submitting the same update twice to a detector that gives the same
   * verdict both times leaves the list as the first submission left it.
   */
  lemma UpdateIdempotent(store: seq<Module>, id: string, v: ModuleValues, detect: Detector)
    ensures var once := UpdateModule(store, id, v, detect);
            UpdateModule(once.store, id, v, detect).store == once.store
  {
    ResubmitKeepsLastVerdict(store, id, v, detect, detect);
  }

  // ---------------------------------------------------------------------------
  // addModule
  // ---------------------------------------------------------------------------

  /**
   * The record `addModule` builds for accepted values: id from the list
   * length, the submitted keys, an empty date when none was given, and no
   * anomaly.
   */
  function NewModule(store: seq<Module>, v: ModuleValues): (m: Module)
    ensures AllDigits(m.id) && DecimalValue(m.id) == |store| + 1
    ensures |m.id| >= 1 && (|m.id| > 1 ==> m.id[0] != '0')
    ensures m.yard == v.yard && m.location == v.location && m.moduleNo == v.moduleNo
    ensures m.rfloDateStatus == v.rfloDateStatus
    ensures m.shipmentNo == v.shipmentNo && m.yardReport == v.yardReport
    ensures m.islandReport == v.islandReport && m.byWhom == v.byWhom
    ensures Truthy(v.rfloDate) ==> m.rfloDate == v.rfloDate
    ensures !Truthy(v.rfloDate) ==> m.rfloDate == Some("")
    ensures m.isAnomaly == Some(false) && m.anomalyExplanation == Some("")
    ensures m.signedReport.None? && m.shipmentDate.None?
  {
    DecimalRoundTrip(|store| + 1);
    Module(
      id := NatToDecimal(|store| + 1),
      yard := v.yard,
      location := v.location,
      moduleNo := v.moduleNo,
      rfloDate := Some(OrElse(v.rfloDate, "")),
      shipmentNo := v.shipmentNo,
      rfloDateStatus := v.rfloDateStatus,
      yardReport := v.yardReport,
      islandReport := v.islandReport,
      signedReport := None,
      byWhom := v.byWhom,
      isAnomaly := Some(false),
      anomalyExplanation := Some(""),
      shipmentDate := None)
  }

  /** `addModule`: validate, build the record, and put it at the front of the list. */
  function AddModule(store: seq<Module>, v: ModuleValues): (s: Step)
    ensures !Valid(v) ==> s == Step(Invalid(Validate(v)), store)
    ensures Valid(v) ==> s.result.Saved? && s.store == [s.result.data] + store
    ensures |s.store| == |store| + (if Valid(v) then 1 else 0)
  {
    if !Valid(v) then Step(Invalid(Validate(v)), store)
    else
      var m := NewModule(store, v);
      Step(Saved(m), [m] + store)
  }

  /**
   * The added record's id is the decimal rendering of the new list length,
   * it carries the submitted values, a date that is the submitted one or
   * empty, and no anomaly.
   */
  lemma AddModuleRecord(store: seq<Module>, v: ModuleValues)
    requires Valid(v)
    ensures var m := AddModule(store, v).result.data;
            && AllDigits(m.id) && DecimalValue(m.id) == |store| + 1
            && |m.id| >= 1 && (|m.id| > 1 ==> m.id[0] != '0')
            && m.yard == v.yard && m.location == v.location && m.moduleNo == v.moduleNo
            && m.rfloDateStatus == v.rfloDateStatus
            && m.shipmentNo == v.shipmentNo && m.yardReport == v.yardReport
            && m.islandReport == v.islandReport && m.byWhom == v.byWhom
            && (Truthy(v.rfloDate) ==> m.rfloDate == v.rfloDate)
            && (!Truthy(v.rfloDate) ==> m.rfloDate == Some(""))
            && m.isAnomaly == Some(false) && m.anomalyExplanation == Some("")
            && m.signedReport.None? && m.shipmentDate.None?
  {
    DecimalRoundTrip(|store| + 1);
  }

  /** Adding keeps every record's status valid. */
  lemma AddKeepsStatuses(store: seq<Module>, v: ModuleValues)
    requires StatusesValid(store)
    ensures StatusesValid(AddModule(store, v).store)
  {
    var s := AddModule(store, v);
    if Valid(v) {
      ValidIff(v);
      forall j | 0 <= j < |s.store| ensures HasValidStatus(s.store[j]) {
        if j > 0 {
          assert s.store[j] == store[j - 1];
        }
      }
    }
  }

  /** Two successive additions give records with different ids. */
  lemma SuccessiveAddsHaveDistinctIds(store: seq<Module>, v: ModuleValues, w: ModuleValues)
    requires Valid(v) && Valid(w)
    ensures var first := AddModule(store, v);
            var second := AddModule(first.store, w);
            second.result.data.id != first.result.data.id
  {
    var first := AddModule(store, v);
    if NatToDecimal(|first.store| + 1) == NatToDecimal(|store| + 1) {
      DecimalInjective(|first.store| + 1, |store| + 1);
    }
  }
}
