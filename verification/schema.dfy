/**
 * The module schema shared by the server actions and the module form:
 * `yard`, `location` and `moduleNo` must be non-empty, the status must be
 * one of the three literals, and every other key is an optional string.
 */
module Schema {
  import opened Wrappers
  import opened Types

  /** One failed check of the schema, in the schema's key order. */
  datatype Issue = YardRequired | LocationRequired | ModuleNoRequired | StatusInvalid(received: string)

  /** The position of an issue's key in the schema. */
  function Rank(i: Issue): nat {
    match i
    case YardRequired => 0
    case LocationRequired => 1
    case ModuleNoRequired => 2
    case StatusInvalid(_) => 3
  }

  /** The issues `safeParse` reports for `v`; none means the values are accepted. */
  function Validate(v: ModuleValues): (issues: seq<Issue>)
    ensures YardRequired in issues <==> v.yard == ""
    ensures LocationRequired in issues <==> v.location == ""
    ensures ModuleNoRequired in issues <==> v.moduleNo == ""
    ensures StatusInvalid(v.rfloDateStatus) in issues <==> ParseStatus(v.rfloDateStatus).None?
    ensures forall i :: 0 <= i < |issues| && issues[i].StatusInvalid? ==> issues[i].received == v.rfloDateStatus
    ensures |issues| <= 4
  {
    (if v.yard == "" then [YardRequired] else [])
    + (if v.location == "" then [LocationRequired] else [])
    + (if v.moduleNo == "" then [ModuleNoRequired] else [])
    + (if ParseStatus(v.rfloDateStatus).None? then [StatusInvalid(v.rfloDateStatus)] else [])
  }

  /** The four optional issues concatenated in key order are strictly increasing in rank. */
  lemma PartsOrdered(yard: bool, location: bool, moduleNo: bool, status: bool, received: string)
    ensures var issues := (if yard then [YardRequired] else [])
                          + (if location then [LocationRequired] else [])
                          + (if moduleNo then [ModuleNoRequired] else [])
                          + (if status then [StatusInvalid(received)] else []);
            forall i, j :: 0 <= i < j < |issues| ==> Rank(issues[i]) < Rank(issues[j])
  {
  }

  /** At most one issue per key, listed in the schema's key order. */
  lemma ValidateOrdered(v: ModuleValues)
    ensures forall i, j :: 0 <= i < j < |Validate(v)| ==> Rank(Validate(v)[i]) < Rank(Validate(v)[j])
  {
    var status := ParseStatus(v.rfloDateStatus).None?;
    PartsOrdered(v.yard == "", v.location == "", v.moduleNo == "", status, v.rfloDateStatus);
    assert Validate(v) == (if v.yard == "" then [YardRequired] else [])
                          + (if v.location == "" then [LocationRequired] else [])
                          + (if v.moduleNo == "" then [ModuleNoRequired] else [])
                          + (if status then [StatusInvalid(v.rfloDateStatus)] else []);
  }

  /** The schema accepts `v`. */
  predicate Valid(v: ModuleValues) {
    Validate(v) == []
  }

  /** Acceptance is exactly: three non-empty required fields and a listed status. */
  lemma ValidIff(v: ModuleValues)
    ensures Valid(v) <==> v.yard != "" && v.location != "" && v.moduleNo != ""
                          && v.rfloDateStatus in StatusLabels
  {
    if !Valid(v) {
      var i := Validate(v)[0];
      assert i in Validate(v);
    }
  }
}
