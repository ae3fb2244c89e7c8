/**
 * The `Module` record and its RFLO date status.
 *
 * The declared record type lists ten keys; the code around it also writes
 * `byWhom`, `isAnomaly`, `anomalyExplanation` and `shipmentDate`, and the
 * column import creates documents lacking several declared keys.  The record
 * below is the superset, with every key that some code path leaves out
 * modelled as an `Option`.
 */
module Types {
  import opened Wrappers

  /** The three RFLO date statuses of the declared type. */
  datatype Status = DateConfirmed | FirstQuarter2026 | Pending

  /** The literal the source uses for each status. */
  function Label(s: Status): string {
    match s
    case DateConfirmed => "Date Confirmed"
    case FirstQuarter2026 => "1st Quarter-2026"
    case Pending => "Pending"
  }

  const StatusLabels: seq<string> := ["Date Confirmed", "1st Quarter-2026", "Pending"]

  /** Reads a status literal; any other text is not a status. */
  function ParseStatus(t: string): (r: Option<Status>)
    ensures r.Some? <==> t in StatusLabels
    ensures r.Some? ==> Label(r.value) == t
  {
    if t == "Date Confirmed" then Some(DateConfirmed)
    else if t == "1st Quarter-2026" then Some(FirstQuarter2026)
    else if t == "Pending" then Some(Pending)
    else None
  }

  /** Every status survives being written as its literal and read back. */
  lemma StatusRoundTrip(s: Status)
    ensures ParseStatus(Label(s)) == Some(s)
    ensures Label(s) in StatusLabels
  {
  }

  /** Exactly three distinct literals are statuses. */
  lemma StatusLabelsDistinct()
    ensures |StatusLabels| == 3
    ensures forall i, j :: 0 <= i < j < |StatusLabels| ==> StatusLabels[i] != StatusLabels[j]
    ensures forall s: Status :: Label(s) in StatusLabels
  {
  }

  /**
   * One tracked module.  `rfloDateStatus` holds text: the declared type
   * narrows it to the three status literals, but the column import can
   * write any pasted line into it.
   */
  datatype Module = Module(
    id: string,
    yard: string,
    location: string,
    moduleNo: string,
    rfloDate: Option<string>,
    shipmentNo: Option<string>,
    rfloDateStatus: string,
    yardReport: Option<string>,
    islandReport: Option<string>,
    signedReport: Option<bool>,
    byWhom: Option<string>,
    isAnomaly: Option<bool>,
    anomalyExplanation: Option<string>,
    shipmentDate: Option<string>)

  /** The record's status is one of the three literals. */
  predicate HasValidStatus(m: Module) {
    ParseStatus(m.rfloDateStatus).Some?
  }

  /** Every record in the store has a valid status. */
  predicate StatusesValid(store: seq<Module>) {
    forall i :: 0 <= i < |store| ==> HasValidStatus(store[i])
  }

  /**
   * The values the module form edits and the server actions accept
   * (without `id`).  Optional keys of the schema are `Option`s.
   */
  datatype ModuleValues = ModuleValues(
    yard: string,
    location: string,
    moduleNo: string,
    rfloDate: Option<string>,
    shipmentNo: Option<string>,
    rfloDateStatus: string,
    yardReport: Option<string>,
    islandReport: Option<string>,
    byWhom: Option<string>)
}
