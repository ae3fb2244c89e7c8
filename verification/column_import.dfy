/**
 * The column import dialog as its code evidently means it: pasted text
 * becomes one value per line, the chosen column names one field, and the
 * import either creates one document per line, refuses a line count that
 * does not match the stored documents, or writes line i into document i.
 * Where the code as written departs from this (a second create per module
 * number, a pasted value lost on an empty collection, a positional update
 * that throws), `ColumnImportAsWritten` models it.
 *
 * The collection is the sequence `getDocs` returns; new documents are
 * appended to it.  The document store is an oracle: whether the k-th write
 * of an import is accepted, and the id it assigns to the k-th created
 * document.
 */
module ColumnImport {
  import opened Wrappers
  import opened Text
  import opened Types

  // ---------------------------------------------------------------------------
  // column labels and fields
  // ---------------------------------------------------------------------------

  /** The fields a column import can target. */
  datatype Field = Yard | Location | ModuleNo | ShipmentDate | ShipmentNo | RfloDateStatus

  /** The labels the dialog offers, in the order it lists them. */
  const ColumnLabels: seq<string> :=
    ["Yard", "Location", "Module No.", "Shipment Date", "Shipment No#", "RFLO Date Status"]

  /** The field each offered column targets. */
  function ColumnMapping(column: string): (f: Option<Field>)
    ensures f.Some? <==> column in ColumnLabels
    ensures column == "Module No." ==> f == Some(ModuleNo)
  {
    if column == "Yard" then Some(Yard)
    else if column == "Location" then Some(Location)
    else if column == "Module No." then Some(ModuleNo)
    else if column == "Shipment Date" then Some(ShipmentDate)
    else if column == "Shipment No#" then Some(ShipmentNo)
    else if column == "RFLO Date Status" then Some(RfloDateStatus)
    else None
  }

  /** The six labels name six different fields, and every field has a column. */
  lemma ColumnMappingBijective()
    ensures |ColumnLabels| == 6
    ensures forall i, j :: 0 <= i < j < |ColumnLabels| ==>
              ColumnMapping(ColumnLabels[i]) != ColumnMapping(ColumnLabels[j])
    ensures forall f: Field :: exists i :: 0 <= i < |ColumnLabels| && ColumnMapping(ColumnLabels[i]) == Some(f)
  {
    assert ColumnMapping(ColumnLabels[0]) == Some(Yard);
    assert ColumnMapping(ColumnLabels[1]) == Some(Location);
    assert ColumnMapping(ColumnLabels[2]) == Some(ModuleNo);
    assert ColumnMapping(ColumnLabels[3]) == Some(ShipmentDate);
    assert ColumnMapping(ColumnLabels[4]) == Some(ShipmentNo);
    assert ColumnMapping(ColumnLabels[5]) == Some(RfloDateStatus);
    forall f: Field ensures exists i :: 0 <= i < |ColumnLabels| && ColumnMapping(ColumnLabels[i]) == Some(f) {
      var i := match f
        case Yard => 0 case Location => 1 case ModuleNo => 2
        case ShipmentDate => 3 case ShipmentNo => 4 case RfloDateStatus => 5;
      assert ColumnMapping(ColumnLabels[i]) == Some(f);
    }
  }

  /** A field of a stored document; `None` when the document lacks the key. */
  function GetField(m: Module, f: Field): Option<string> {
    match f
    case Yard => Some(m.yard)
    case Location => Some(m.location)
    case ModuleNo => Some(m.moduleNo)
    case ShipmentDate => m.shipmentDate
    case ShipmentNo => m.shipmentNo
    case RfloDateStatus => Some(m.rfloDateStatus)
  }

  /** The two documents agree on every key no column import can write. */
  predicate SameOffImportFields(a: Module, b: Module) {
    && a.id == b.id && a.rfloDate == b.rfloDate
    && a.yardReport == b.yardReport && a.islandReport == b.islandReport
    && a.signedReport == b.signedReport && a.byWhom == b.byWhom
    && a.isAnomaly == b.isAnomaly && a.anomalyExplanation == b.anomalyExplanation
  }

  /** A one-key update `{ [f]: v }`: that field becomes `v`, nothing else changes. */
  function SetField(m: Module, f: Field, v: string): (r: Module)
    ensures GetField(r, f) == Some(v)
    ensures forall g: Field :: g != f ==> GetField(r, g) == GetField(m, g)
    ensures SameOffImportFields(m, r)
  {
    match f
    case Yard => m.(yard := v)
    case Location => m.(location := v)
    case ModuleNo => m.(moduleNo := v)
    case ShipmentDate => m.(shipmentDate := Some(v))
    case ShipmentNo => m.(shipmentNo := Some(v))
    case RfloDateStatus => m.(rfloDateStatus := v)
  }

  /** Two documents that agree on the six fields and on every other key are equal. */
  lemma FieldsDetermineModule(a: Module, b: Module)
    requires forall f: Field :: GetField(a, f) == GetField(b, f)
    requires SameOffImportFields(a, b)
    ensures a == b
  {
    assert GetField(a, Yard) == GetField(b, Yard);
    assert GetField(a, Location) == GetField(b, Location);
    assert GetField(a, ModuleNo) == GetField(b, ModuleNo);
    assert GetField(a, ShipmentDate) == GetField(b, ShipmentDate);
    assert GetField(a, ShipmentNo) == GetField(b, ShipmentNo);
    assert GetField(a, RfloDateStatus) == GetField(b, RfloDateStatus);
  }

  // ---------------------------------------------------------------------------
  // pasted lines
  // ---------------------------------------------------------------------------

  /** One piece trimmed, kept only when something remains. */
  function CleanLine(piece: string): seq<string> {
    var t := Trim(piece);
    if t == "" then [] else [t]
  }

  /** Trims every piece and drops those that end up empty. */
  function CleanLines(pieces: seq<string>): (lines: seq<string>)
    ensures |lines| <= |pieces|
  {
    if pieces == [] then []
    else CleanLine(pieces[0]) + CleanLines(pieces[1..])
  }

  /** No cleaned line is empty or padded, and a line break can only come from the pieces. */
  lemma {:induction false} CleanLinesAreClean(pieces: seq<string>)
    ensures forall i :: 0 <= i < |CleanLines(pieces)| ==>
              CleanLines(pieces)[i] != "" && IsTrimmed(CleanLines(pieces)[i])
    ensures (forall i :: 0 <= i < |pieces| ==> '\n' !in pieces[i]) ==>
              forall i :: 0 <= i < |CleanLines(pieces)| ==> '\n' !in CleanLines(pieces)[i]
  {
    if pieces != [] {
      var t := Trim(pieces[0]);
      var rest := CleanLines(pieces[1..]);
      CleanLinesAreClean(pieces[1..]);
      TrimKeepsAbsentChars(pieces[0], '\n');
      var lines := CleanLines(pieces);
      assert IsTrimmed(t);
      forall i | 0 <= i < |lines| ensures lines[i] != "" && IsTrimmed(lines[i]) {
        if t != "" && i == 0 {
          assert lines[i] == t;
        } else {
          var k := if t == "" then i else i - 1;
          assert lines[i] == rest[k];
        }
      }
      if forall i :: 0 <= i < |pieces| ==> '\n' !in pieces[i] {
        assert '\n' !in pieces[0];
        assert forall i :: 0 <= i < |pieces[1..]| ==> '\n' !in pieces[1..][i] by {
          forall i | 0 <= i < |pieces[1..]| ensures '\n' !in pieces[1..][i] {
            assert pieces[1..][i] == pieces[i + 1];
          }
        }
      }
    }
  }

  /**
   * `CleanLines` is the trim-then-filter: one piece gives its trimmed text
   * exactly when that is non-empty, and cleaning a concatenation
   * concatenates the cleaned parts, so every non-blank piece survives,
   * trimmed and in order.
   */
  lemma CleanLinesIsTrimFilter(a: seq<string>, b: seq<string>, p: string)
    ensures CleanLines([p]) == (if Trim(p) == "" then [] else [Trim(p)])
    ensures CleanLines(a + b) == CleanLines(a) + CleanLines(b)
  {
    assert [p][1..] == [];
    assert CleanLines([p]) == CleanLine(p) + CleanLines([]);
    CleanLinesAppend(a, b);
  }

  /** Each piece replaced by what `f` makes of it, all concatenated in order. */
  function FlatMap(pieces: seq<string>, f: string -> seq<string>): seq<string> {
    if pieces == [] then [] else f(pieces[0]) + FlatMap(pieces[1..], f)
  }

  /** Mapping a concatenation concatenates the mapped parts. */
  lemma {:induction false} FlatMapAppend(a: seq<string>, b: seq<string>, f: string -> seq<string>)
    ensures FlatMap(a + b, f) == FlatMap(a, f) + FlatMap(b, f)
    decreases |a|
  {
    if a == [] {
      assert a + b == b;
    } else {
      FlatMapAppend(a[1..], b, f);
      assert (a + b)[0] == a[0];
      assert (a + b)[1..] == a[1..] + b;
      assert FlatMap(a + b, f) == f(a[0]) + FlatMap(a[1..] + b, f);
    }
  }

  /** Cleaning is mapping every piece through `CleanLine`. */
  lemma {:induction false} CleanLinesIsFlatMap(pieces: seq<string>)
    ensures CleanLines(pieces) == FlatMap(pieces, CleanLine)
    decreases |pieces|
  {
    if pieces != [] {
      CleanLinesIsFlatMap(pieces[1..]);
    }
  }

  /** Cleaning a concatenation concatenates the cleaned parts. */
  lemma CleanLinesAppend(a: seq<string>, b: seq<string>)
    ensures CleanLines(a + b) == CleanLines(a) + CleanLines(b)
  {
    CleanLinesIsFlatMap(a + b);
    CleanLinesIsFlatMap(a);
    CleanLinesIsFlatMap(b);
    FlatMapAppend(a, b, CleanLine);
  }

  /** `data.split('\n').map(line => line.trim()).filter(line => line)`. */
  function PastedLines(data: string): (lines: seq<string>)
    ensures forall i :: 0 <= i < |lines| ==> lines[i] != "" && IsTrimmed(lines[i]) && '\n' !in lines[i]
  {
    CleanLinesAreClean(Split(data, '\n'));
    CleanLines(Split(data, '\n'))
  }

  /** Already clean pieces pass through unchanged. */
  lemma {:induction false} CleanLinesOfCleanLines(lines: seq<string>)
    requires forall i :: 0 <= i < |lines| ==> lines[i] != "" && IsTrimmed(lines[i])
    ensures CleanLines(lines) == lines
  {
    if lines != [] {
      CleanLinesOfCleanLines(lines[1..]);
      assert [lines[0]] + lines[1..] == lines;
    }
  }

  /**
   * Pasting non-empty, trimmed, single-line values one per line gives back
   * exactly those values.
   */
  lemma PastedLinesRoundTrip(lines: seq<string>)
    requires forall i :: 0 <= i < |lines| ==> lines[i] != "" && IsTrimmed(lines[i]) && '\n' !in lines[i]
    ensures PastedLines(Join(lines, "\n")) == lines
  {
    if lines == [] {
      assert Split("", '\n') == [""];
      assert Trim("") == "";
    } else {
      SplitJoin(lines, '\n');
      CleanLinesOfCleanLines(lines);
    }
  }

  // ---------------------------------------------------------------------------
  // the document store
  // ---------------------------------------------------------------------------

  /**
   * The document store as seen by one import: whether its k-th write is
   * accepted, and the id it gives the document created by its k-th write.
   */
  datatype Firestore = Firestore(accepts: nat -> bool, autoId: nat -> string)

  /** The number of leading writes among the first `n` that the store accepts. */
  function AcceptedPrefix(accepts: nat -> bool, n: nat): (k: nat)
    ensures k <= n
    ensures forall j :: 0 <= j < k ==> accepts(j)
    ensures k < n ==> !accepts(k)
  {
    if n == 0 then 0
    else
      var k := AcceptedPrefix(accepts, n - 1);
      if k < n - 1 then k else if accepts(n - 1) then n else n - 1
  }

  /** The documents `docs` as created by writes `from`, `from + 1`, ..., with the ids assigned. */
  function Stamp(docs: seq<Module>, db: Firestore, from: nat): (created: seq<Module>)
    ensures |created| == |docs|
    ensures forall i :: 0 <= i < |docs| ==> created[i] == docs[i].(id := db.autoId(from + i))
  {
    seq(|docs|, i requires 0 <= i < |docs| => docs[i].(id := db.autoId(from + i)))
  }

  /** Why an import wrote nothing. */
  datatype Rejection = NoInput | UnknownColumn | Mismatch(pasted: nat, existing: nat)

  /**
   * The end of an import: refused before any write; stopped by a refused
   * write, with whatever was already written; or done, with its counts.
   */
  datatype Outcome =
    | Rejected(reason: Rejection)
    | Failed(store: seq<Module>)
    | Imported(store: seq<Module>, created: nat, updated: nat)

  /** The collection after an import that started from `store`. */
  function StoreAfter(o: Outcome, store: seq<Module>): seq<Module> {
    if o.Rejected? then store else o.store
  }

  /**
   * Creating `docs` one awaited write at a time: the loop stops at the
   * first refused write, and the writes before it stay.
   */
  function CreateEach(store: seq<Module>, docs: seq<Module>, db: Firestore): (o: Outcome)
    ensures !o.Rejected?
    ensures o.Imported? ==> o.store == store + Stamp(docs, db, 0) && o.created == |docs| && o.updated == 0
    ensures o.Imported? <==> forall j :: 0 <= j < |docs| ==> db.accepts(j)
    ensures o.Failed? ==>
              exists k :: 0 <= k < |docs| && !db.accepts(k) && (forall j :: 0 <= j < k ==> db.accepts(j))
                          && o.store == store + Stamp(docs[..k], db, 0)
  {
    var k := AcceptedPrefix(db.accepts, |docs|);
    if k == |docs| then
      assert docs[..k] == docs;
      Imported(store + Stamp(docs, db, 0), |docs|, 0)
    else
      Failed(store + Stamp(docs[..k], db, 0))
  }

  /** The document a create writes: every imported key empty, status "Pending". */
  const Blank: Module := Module(
    id := "",
    yard := "",
    location := "",
    moduleNo := "",
    rfloDate := None,
    shipmentNo := Some(""),
    rfloDateStatus := "Pending",
    yardReport := None,
    islandReport := None,
    signedReport := None,
    byWhom := None,
    isAnomaly := None,
    anomalyExplanation := None,
    shipmentDate := Some(""))

  /** The documents meant to be created from the lines: `Blank` with the target field set to the line. */
  function Seeds(f: Field, lines: seq<string>): (docs: seq<Module>)
    ensures |docs| == |lines|
    ensures forall i :: 0 <= i < |lines| ==> docs[i] == SetField(Blank, f, lines[i])
  {
    seq(|lines|, i requires 0 <= i < |lines| => SetField(Blank, f, lines[i]))
  }

  /** Line i written into document i, for every stored document. */
  function Positional(store: seq<Module>, lines: seq<string>, f: Field): (updated: seq<Module>)
    requires |lines| == |store|
    ensures |updated| == |store|
    ensures forall i :: 0 <= i < |store| ==> updated[i] == SetField(store[i], f, lines[i])
  {
    seq(|store|, i requires 0 <= i < |store| => SetField(store[i], f, lines[i]))
  }

  // ---------------------------------------------------------------------------
  // the import
  // ---------------------------------------------------------------------------

  /**
   * The import once a field is chosen and some lines are pasted: for
   * "Module No." create one document per line; otherwise refuse a line count
   * that differs from a non-empty collection, create one document per line
   * into an empty collection, or update document i with line i in one
   * batched write.
   */
  function Route(store: seq<Module>, f: Field, lines: seq<string>, db: Firestore): (o: Outcome)
    ensures o.Rejected? <==> f != ModuleNo && |store| > 0 && |lines| != |store|
    ensures o.Rejected? ==> o.reason == Mismatch(|lines|, |store|)
    ensures o.Imported? ==> |o.store| == |store| + o.created
    ensures o.Imported? ==> o.created + o.updated == |lines|
    ensures o.Failed? ==> |store| <= |o.store| && o.store[..|store|] == store
  {
    if f == ModuleNo then CreateEach(store, Seeds(f, lines), db)
    else if |lines| != |store| && |store| > 0 then Rejected(Mismatch(|lines|, |store|))
    else if |store| == 0 then CreateEach(store, Seeds(f, lines), db)
    else if db.accepts(0) then Imported(Positional(store, lines, f), 0, |store|)
    else Failed(store)
  }

  /**
   * The import: refuse an empty choice or an empty paste, then route the
   * pasted lines to the chosen field.
   */
  function Import(store: seq<Module>, column: string, data: string, db: Firestore): (o: Outcome)
    ensures o == Rejected(NoInput) <==> column == "" || PastedLines(data) == []
    ensures o.Failed? ==> |store| <= |o.store| && o.store[..|store|] == store
    ensures o.Imported? ==> |o.store| == |store| + o.created
    ensures o.Imported? ==> o.created + o.updated == |PastedLines(data)|
  {
    var lines := PastedLines(data);
    if column == "" || lines == [] then Rejected(NoInput)
    else match ColumnMapping(column)
      case None => Rejected(UnknownColumn)
      case Some(f) => Route(store, f, lines, db)
  }

  /** Past the input checks, the import is the routing of the pasted lines to the chosen field. */
  lemma ImportRoutes(store: seq<Module>, column: string, data: string, db: Firestore)
    requires ColumnMapping(column).Some? && PastedLines(data) != []
    ensures Import(store, column, data, db) == Route(store, ColumnMapping(column).value, PastedLines(data), db)
  {
  }

  /** The document store that accepts every write and names documents by their write number. */
  const AcceptAll: Firestore := Firestore((k: nat) => true, (k: nat) => NatToDecimal(k))

  /**
   * Importing "Module No." creates, after the existing documents, one
   * document per line holding that line as its module number, every other
   * imported key empty and the status "Pending"; nothing is updated.
   */
  lemma ImportModuleNumbers(store: seq<Module>, data: string, db: Firestore)
    requires PastedLines(data) != []
    requires forall j :: 0 <= j < |PastedLines(data)| ==> db.accepts(j)
    ensures var lines := PastedLines(data);
            var o := Import(store, "Module No.", data, db);
            && o.Imported? && o.created == |lines| && o.updated == 0
            && |o.store| == |store| + |lines| && o.store[..|store|] == store
            && forall i :: 0 <= i < |lines| ==>
                 var m := o.store[|store| + i];
                 && m.moduleNo == lines[i] && m.id == db.autoId(i)
                 && m.yard == "" && m.location == "" && m.shipmentDate == Some("")
                 && m.shipmentNo == Some("") && m.rfloDateStatus == "Pending"
  {
    var lines := PastedLines(data);
    ImportRoutes(store, "Module No.", data, db);
    var o := CreateEach(store, Seeds(ModuleNo, lines), db);
    assert o.store[..|store|] == store;
    forall i | 0 <= i < |lines|
      ensures o.store[|store| + i] == SetField(Blank, ModuleNo, lines[i]).(id := db.autoId(i))
    {
    }
  }

  /**
   * Outside "Module No.", a non-empty collection refuses exactly a line count
   * that differs from its size, and reports both numbers.
   */
  lemma ImportRejectsMismatch(store: seq<Module>, column: string, data: string, db: Firestore)
    requires column in ColumnLabels && PastedLines(data) != []
    ensures var o := Import(store, column, data, db);
            var lines := PastedLines(data);
            && (o.Rejected? <==> ColumnMapping(column) != Some(ModuleNo) && |store| > 0 && |lines| != |store|)
            && (o.Rejected? ==> o.reason == Mismatch(|lines|, |store|))
  {
  }

  /** A created document for a field other than the module number, whatever id it gets. */
  lemma SeedFacts(f: Field, line: string, id: string)
    requires f != ModuleNo
    ensures var m := SetField(Blank, f, line).(id := id);
            && GetField(m, f) == Some(line) && m.moduleNo == ""
            && (f != RfloDateStatus ==> m.rfloDateStatus == "Pending")
  {
  }

  /**
   * Outside "Module No.", pasting into an empty collection creates one
   * document per line with the line in the target field and an empty module
   * number.
   */
  lemma ImportIntoEmptyStore(column: string, data: string, db: Firestore)
    requires ColumnMapping(column).Some? && ColumnMapping(column) != Some(ModuleNo)
    requires PastedLines(data) != []
    requires forall j :: 0 <= j < |PastedLines(data)| ==> db.accepts(j)
    ensures var f := ColumnMapping(column).value;
            var lines := PastedLines(data);
            var o := Import([], column, data, db);
            && o.Imported? && o.created == |lines| && o.updated == 0 && |o.store| == |lines|
            && forall i :: 0 <= i < |lines| ==>
                 && GetField(o.store[i], f) == Some(lines[i])
                 && o.store[i].moduleNo == ""
                 && (f != RfloDateStatus ==> o.store[i].rfloDateStatus == "Pending")
  {
    var f := ColumnMapping(column).value;
    var lines := PastedLines(data);
    ImportRoutes([], column, data, db);
    var docs := Seeds(f, lines);
    var o := CreateEach([], docs, db);
    assert o.Imported? && o.store == Stamp(docs, db, 0);
    forall i | 0 <= i < |lines|
      ensures GetField(o.store[i], f) == Some(lines[i]) && o.store[i].moduleNo == ""
      ensures f != RfloDateStatus ==> o.store[i].rfloDateStatus == "Pending"
    {
      assert o.store[i] == docs[i].(id := db.autoId(i));
      SeedFacts(f, lines[i], db.autoId(i));
    }
  }

  /**
   * Outside "Module No.", when the line count equals the non-empty
   * collection's size, document i gets line i in the target field, nothing
   * else changes, every document counts as updated, and none is created.
   */
  lemma ImportPositional(store: seq<Module>, column: string, data: string, db: Firestore)
    requires ColumnMapping(column).Some? && ColumnMapping(column) != Some(ModuleNo)
    requires |PastedLines(data)| == |store| > 0
    requires db.accepts(0)
    ensures var f := ColumnMapping(column).value;
            var lines := PastedLines(data);
            var o := Import(store, column, data, db);
            && o.Imported? && o.created == 0 && o.updated == |store| && |o.store| == |store|
            && forall i :: 0 <= i < |store| ==>
                 && GetField(o.store[i], f) == Some(lines[i])
                 && (forall g: Field :: g != f ==> GetField(o.store[i], g) == GetField(store[i], g))
                 && SameOffImportFields(store[i], o.store[i])
  {
    ImportRoutes(store, column, data, db);
  }

  /**
   * The positional updates are one batch: either the batch is accepted and
   * every document is updated, or the collection is left as it was.
   */
  lemma BatchUpdateIsAllOrNothing(store: seq<Module>, column: string, data: string, db: Firestore)
    requires ColumnMapping(column).Some? && ColumnMapping(column) != Some(ModuleNo)
    requires |PastedLines(data)| == |store| > 0
    ensures var o := Import(store, column, data, db);
            && !o.Rejected?
            && (o.Failed? <==> !db.accepts(0))
            && (o.Failed? ==> o.store == store)
            && (o.Imported? ==> o.store == Positional(store, PastedLines(data), ColumnMapping(column).value))
  {
    ImportRoutes(store, column, data, db);
  }

  /**
   * Creates are separate writes: when one is refused the import stops, and
   * the documents created before it stay, in order.
   */
  lemma CreatesAreNotRolledBack(store: seq<Module>, column: string, data: string, db: Firestore)
    requires ColumnMapping(column).Some?
    requires ColumnMapping(column) == Some(ModuleNo) || store == []
    requires PastedLines(data) != []
    ensures var f := ColumnMapping(column).value;
            var lines := PastedLines(data);
            var o := Import(store, column, data, db);
            && !o.Rejected?
            && (o.Failed? ==>
                  exists k :: 0 <= k < |lines| && !db.accepts(k) && (forall j :: 0 <= j < k ==> db.accepts(j))
                              && o.store == store + Stamp(Seeds(f, lines)[..k], db, 0))
  {
    ImportRoutes(store, column, data, db);
  }

  /** Documents stamped from any prefix of the seeds of a non-status field have a valid status. */
  lemma SeedsHaveValidStatus(f: Field, lines: seq<string>, k: nat, db: Firestore)
    requires f != RfloDateStatus && k <= |lines|
    ensures StatusesValid(Stamp(Seeds(f, lines)[..k], db, 0))
  {
    var docs := Seeds(f, lines)[..k];
    var stamped := Stamp(docs, db, 0);
    forall i | 0 <= i < |stamped| ensures HasValidStatus(stamped[i]) {
      assert docs[i] == SetField(Blank, f, lines[i]);
      assert GetField(docs[i], RfloDateStatus) == GetField(Blank, RfloDateStatus);
    }
  }

  /** The collection after a create path is the old one followed by valid-status documents. */
  lemma CreatePathKeepsStatuses(store: seq<Module>, f: Field, lines: seq<string>, db: Firestore)
    requires StatusesValid(store) && f != RfloDateStatus
    ensures StatusesValid(CreateEach(store, Seeds(f, lines), db).store)
  {
    var docs := Seeds(f, lines);
    var k := AcceptedPrefix(db.accepts, |docs|);
    SeedsHaveValidStatus(f, lines, k, db);
    assert docs[..|docs|] == docs;
    var added := Stamp(docs[..k], db, 0);
    var after := CreateEach(store, docs, db).store;
    assert after == store + added;
    forall i | 0 <= i < |after| ensures HasValidStatus(after[i]) {
      if i >= |store| {
        assert after[i] == added[i - |store|];
      }
    }
  }

  /** Positional updates of a non-status field keep every status. */
  lemma PositionalKeepsStatuses(store: seq<Module>, lines: seq<string>, f: Field)
    requires StatusesValid(store) && f != RfloDateStatus && |lines| == |store|
    ensures StatusesValid(Positional(store, lines, f))
  {
    var after := Positional(store, lines, f);
    forall i | 0 <= i < |after| ensures HasValidStatus(after[i]) {
      assert GetField(after[i], RfloDateStatus) == GetField(store[i], RfloDateStatus);
    }
  }

  /** Routing lines to any field but the status keeps every status valid. */
  lemma RouteKeepsStatuses(store: seq<Module>, f: Field, lines: seq<string>, db: Firestore)
    requires StatusesValid(store) && f != RfloDateStatus
    ensures StatusesValid(StoreAfter(Route(store, f, lines, db), store))
  {
    if f == ModuleNo || |store| == 0 {
      CreatePathKeepsStatuses(store, f, lines, db);
    } else if |lines| == |store| && db.accepts(0) {
      PositionalKeepsStatuses(store, lines, f);
    }
  }

  /** Imports into any column but the status column keep every status valid. */
  lemma ImportKeepsStatusesOffStatusColumn(store: seq<Module>, column: string, data: string, db: Firestore)
    requires StatusesValid(store)
    requires ColumnMapping(column) != Some(RfloDateStatus)
    ensures StatusesValid(StoreAfter(Import(store, column, data, db), store))
  {
    var lines := PastedLines(data);
    if column != "" && lines != [] && ColumnMapping(column).Some? {
      RouteKeepsStatuses(store, ColumnMapping(column).value, lines, db);
    }
  }

  /** Pasting one clean value gives that one line. */
  lemma OneValueIsOneLine(w: string)
    requires w != "" && IsTrimmed(w) && '\n' !in w
    ensures PastedLines(w) == [w]
  {
    PastedLinesRoundTrip([w]);
    assert Join([w], "\n") == w;
  }

  /** Any paste that reads as the one line "Shipped" stores that text as the status. */
  lemma ShippedBecomesStatus(data: string)
    requires PastedLines(data) == ["Shipped"]
    ensures var o := Import([Blank], "RFLO Date Status", data, AcceptAll);
            o.Imported? && o.store[0].rfloDateStatus == "Shipped"
  {
    assert ColumnMapping("RFLO Date Status") == Some(RfloDateStatus);
    ImportPositional([Blank], "RFLO Date Status", data, AcceptAll);
  }

  /**
   * The status column accepts any pasted text: "Shipped" pasted over a
   * one-document collection becomes a status outside the three literals.
   */
  lemma ImportCanStoreUnlistedStatus()
    ensures var o := Import([Blank], "RFLO Date Status", "Shipped", AcceptAll);
            o.Imported? && !HasValidStatus(o.store[0])
  {
    assert IsTrimmed("Shipped");
    OneValueIsOneLine("Shipped");
    ShippedBecomesStatus("Shipped");
  }
}
