/**
 * The table's column definitions: the membership filters on yard,
 * location, shipment number and status, the status badge, and the rules
 * for showing empty values.
 */
module Columns {
  import opened Wrappers
  import opened Text
  import opened Types

  /** The columns that carry a membership filter. */
  datatype FilterColumn = YardColumn | LocationColumn | ShipmentNoColumn | StatusColumn

  /** `row.getValue(id)` for a filtered column; `None` when the key is absent. */
  function CellValue(m: Module, c: FilterColumn): Option<string> {
    match c
    case YardColumn => Some(m.yard)
    case LocationColumn => Some(m.location)
    case ShipmentNoColumn => m.shipmentNo
    case StatusColumn => Some(m.rfloDateStatus)
  }

  /** `value.includes(cell)`: the selected list holds the cell's value. */
  predicate Includes(selected: seq<string>, cell: Option<string>) {
    cell.Some? && cell.value in selected
  }

  /** The filter function of every filtered column. */
  predicate KeepRow(m: Module, c: FilterColumn, selected: seq<string>) {
    Includes(selected, CellValue(m, c))
  }

  /** The rows the filter function accepts, one row at a time, in order. */
  function Select(rows: seq<Module>, c: FilterColumn, selected: seq<string>): (kept: seq<Module>)
    ensures |kept| <= |rows|
  {
    if rows == [] then []
    else (if KeepRow(rows[0], c, selected) then [rows[0]] else []) + Select(rows[1..], c, selected)
  }

  /** Selecting from a concatenation concatenates the selections. */
  lemma {:induction false} SelectAppend(a: seq<Module>, b: seq<Module>, c: FilterColumn, selected: seq<string>)
    ensures Select(a + b, c, selected) == Select(a, c, selected) + Select(b, c, selected)
    decreases |a|
  {
    if a == [] {
      assert a + b == b;
    } else {
      SelectAppend(a[1..], b, c, selected);
      var head := if KeepRow(a[0], c, selected) then [a[0]] else [];
      assert (a + b)[0] == a[0];
      assert (a + b)[1..] == a[1..] + b;
      assert Select(a + b, c, selected) == head + Select(a[1..] + b, c, selected);
      assert Select(a, c, selected) == head + Select(a[1..], c, selected);
    }
  }

  /** Selecting keeps every copy of an accepted row and no copy of another. */
  lemma {:induction false} SelectCounts(rows: seq<Module>, c: FilterColumn, selected: seq<string>)
    ensures forall m :: multiset(Select(rows, c, selected))[m]
                        == if KeepRow(m, c, selected) then multiset(rows)[m] else 0
    decreases |rows|
  {
    if rows != [] {
      SelectCounts(rows[1..], c, selected);
      assert rows == [rows[0]] + rows[1..];
      assert multiset(rows) == multiset([rows[0]]) + multiset(rows[1..]);
    }
  }

  /**
   * Filtering the rows by one column: keeps, in order, exactly the rows
   * whose cell value is among the selected values, each as often as it
   * occurs.
   */
  function FilterRows(rows: seq<Module>, c: FilterColumn, selected: seq<string>): (kept: seq<Module>)
    ensures |kept| <= |rows|
    ensures forall m :: multiset(kept)[m] == if KeepRow(m, c, selected) then multiset(rows)[m] else 0
    ensures forall i :: 0 <= i < |kept| ==> kept[i] in rows && KeepRow(kept[i], c, selected)
    ensures forall m :: m in rows && KeepRow(m, c, selected) ==> m in kept
    ensures (forall m :: m in rows ==> KeepRow(m, c, selected)) ==> kept == rows
  {
    SelectCounts(rows, c, selected);
    var kept := Select(rows, c, selected);
    assert forall i :: 0 <= i < |kept| ==> kept[i] in rows && KeepRow(kept[i], c, selected) by {
      forall i | 0 <= i < |kept| ensures kept[i] in rows && KeepRow(kept[i], c, selected) {
        assert kept[i] in multiset(kept);
      }
    }
    assert forall m :: m in rows && KeepRow(m, c, selected) ==> m in kept by {
      forall m | m in rows && KeepRow(m, c, selected) ensures m in kept {
        assert m in multiset(rows);
        assert m in multiset(kept);
      }
    }
    assert (forall m :: m in rows ==> KeepRow(m, c, selected)) ==> kept == rows by {
      SelectAll(rows, c, selected);
    }
    kept
  }

  /** When every row is accepted, selecting keeps all of them. */
  lemma {:induction false} SelectAll(rows: seq<Module>, c: FilterColumn, selected: seq<string>)
    ensures (forall m :: m in rows ==> KeepRow(m, c, selected)) ==> Select(rows, c, selected) == rows
    decreases |rows|
  {
    if rows != [] && forall m :: m in rows ==> KeepRow(m, c, selected) {
      assert KeepRow(rows[0], c, selected);
      assert forall m :: m in rows[1..] ==> m in rows;
      SelectAll(rows[1..], c, selected);
      assert [rows[0]] + rows[1..] == rows;
    }
  }

  /** Filtering keeps the order of the rows: filtering a concatenation concatenates the filtered parts. */
  lemma FilterRowsAppend(a: seq<Module>, b: seq<Module>, c: FilterColumn, selected: seq<string>)
    ensures FilterRows(a + b, c, selected) == FilterRows(a, c, selected) + FilterRows(b, c, selected)
  {
    SelectAppend(a, b, c, selected);
  }

  /** A filter with nothing selected hides every row; filtering twice changes nothing more. */
  lemma {:induction false} FilterRowsIdempotent(rows: seq<Module>, c: FilterColumn, selected: seq<string>)
    ensures FilterRows(FilterRows(rows, c, selected), c, selected) == FilterRows(rows, c, selected)
    ensures selected == [] ==> FilterRows(rows, c, selected) == []
  {
    var kept := FilterRows(rows, c, selected);
    assert forall m :: m in kept ==> KeepRow(m, c, selected);
  }

  // ---------------------------------------------------------------------------
  // status badge
  // ---------------------------------------------------------------------------

  datatype Variant = Default | Secondary | Outline

  /** The badge variant of a status cell. */
  function BadgeVariant(status: string): (r: Variant)
    ensures r == Default <==> status == "Date Confirmed"
    ensures r == Secondary <==> status == "1st Quarter-2026"
    ensures r == Outline <==> status != "Date Confirmed" && status != "1st Quarter-2026"
  {
    if status == "Date Confirmed" then Default
    else if status == "1st Quarter-2026" then Secondary
    else Outline
  }

  /** On the three statuses the badge variant tells the status apart. */
  lemma BadgeDistinguishesStatuses(s: Status, t: Status)
    ensures BadgeVariant(Label(s)) == BadgeVariant(Label(t)) <==> s == t
    ensures BadgeVariant(Label(Pending)) == Outline
  {
  }

  // ---------------------------------------------------------------------------
  // empty-value display
  // ---------------------------------------------------------------------------

  /** An RFLO date cell: "N/A", or the raw date handed to the date formatter. */
  datatype DateCell = NotAvailable | Formatted(raw: string)

  function RfloDateCell(date: Option<string>): (cell: DateCell)
    ensures cell.NotAvailable? <==> !Truthy(date)
    ensures cell.Formatted? ==> cell.raw != "" && date == Some(cell.raw)
  {
    if Truthy(date) then Formatted(date.value) else NotAvailable
  }

  /** The yard-report, island-report and by-whom cells: the text, or "-" when empty. */
  function TextCell(text: Option<string>): (shown: string)
    ensures shown != ""
    ensures Truthy(text) ==> shown == text.value
    ensures !Truthy(text) ==> shown == "-"
  {
    OrElse(text, "-")
  }

  /** The module-number cell: a warning holding the explanation, and bold text, for anomalies. */
  datatype ModuleNoCell = ModuleNoCell(warning: Option<Option<string>>, bold: bool, text: string)

  function RenderModuleNo(m: Module): (cell: ModuleNoCell)
    ensures cell.warning.Some? <==> m.isAnomaly == Some(true)
    ensures cell.bold <==> m.isAnomaly == Some(true)
    ensures cell.warning.Some? ==> cell.warning.value == m.anomalyExplanation
    ensures cell.text == m.moduleNo
  {
    var flagged := m.isAnomaly == Some(true);
    ModuleNoCell(if flagged then Some(m.anomalyExplanation) else None, flagged, m.moduleNo)
  }
}
