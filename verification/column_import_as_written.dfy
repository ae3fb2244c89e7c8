/**
 * The column import exactly as the dialog's code behaves, where it departs
 * from what the code evidently means (`ColumnImport.Import`):
 *
 * - every pasted module number is created twice, by a create that is not
 *   awaited followed by one that is, while the created count grows by one;
 * - into an empty collection, the pasted value is written under the target
 *   key first and then overwritten by the default that the same object
 *   literal lists after it, so the value is lost;
 * - the positional update calls a document-reference function that is not
 *   imported, so it throws before any write and the error is reported.
 */
module ColumnImportAsWritten {
  import opened Wrappers
  import opened Text
  import opened Types
  import opened ColumnImport

  /**
   * The module-number loop: for each document, write `w` is the create that
   * is not awaited (its refusal goes unnoticed) and write `w + 1` the
   * awaited one (its refusal ends the loop).  Returns the created documents
   * and whether the loop was stopped.
   */
  function DoubleCreates(docs: seq<Module>, db: Firestore, w: nat): (r: (seq<Module>, bool))
    ensures |r.0| <= 2 * |docs|
    ensures !r.1 ==> |docs| <= |r.0|
    ensures !r.1 <==> forall j :: 0 <= j < |docs| ==> db.accepts(w + 2 * j + 1)
    decreases |docs|
  {
    if docs == [] then ([], false)
    else
      var first := if db.accepts(w) then [docs[0].(id := db.autoId(w))] else [];
      if !db.accepts(w + 1) then
        assert !db.accepts(w + 2 * 0 + 1);
        (first, true)
      else
        var rest := DoubleCreates(docs[1..], db, w + 2);
        assert !rest.1 ==> forall j :: 0 <= j < |docs| ==> db.accepts(w + 2 * j + 1) by {
          if !rest.1 {
            forall j | 1 <= j < |docs| ensures db.accepts(w + 2 * j + 1) {
              assert db.accepts(w + 2 + 2 * (j - 1) + 1);
            }
          }
        }
        assert rest.1 ==> exists j :: 0 <= j < |docs| && !db.accepts(w + 2 * j + 1) by {
          if rest.1 {
            var j :| 0 <= j < |docs| - 1 && !db.accepts(w + 2 + 2 * j + 1);
            assert !db.accepts(w + 2 * (j + 1) + 1);
          }
        }
        (first + [docs[0].(id := db.autoId(w + 1))] + rest.0, rest.1)
  }

  /** Each document created twice, by writes `w + 2i` and `w + 2i + 1`. */
  function Twice(docs: seq<Module>, db: Firestore, w: nat): (created: seq<Module>)
    ensures |created| == 2 * |docs|
    decreases |docs|
  {
    if docs == [] then []
    else [docs[0].(id := db.autoId(w)), docs[0].(id := db.autoId(w + 1))] + Twice(docs[1..], db, w + 2)
  }

  /** When every write is accepted, the loop runs to the end and creates every document twice. */
  lemma {:induction false} DoubleCreatesAllAccepted(docs: seq<Module>, db: Firestore, w: nat)
    requires forall j :: w <= j < w + 2 * |docs| ==> db.accepts(j)
    ensures DoubleCreates(docs, db, w) == (Twice(docs, db, w), false)
    decreases |docs|
  {
    if docs != [] {
      assert db.accepts(w) && db.accepts(w + 1);
      DoubleCreatesAllAccepted(docs[1..], db, w + 2);
      var a := docs[0].(id := db.autoId(w));
      var b := docs[0].(id := db.autoId(w + 1));
      assert [a] + [b] + Twice(docs[1..], db, w + 2) == [a, b] + Twice(docs[1..], db, w + 2);
    }
  }

  /** Positions 2i and 2i+1 of `Twice` both hold document i. */
  lemma {:induction false} TwiceContents(docs: seq<Module>, db: Firestore, w: nat)
    ensures forall i :: 0 <= i < |docs| ==>
              && Twice(docs, db, w)[2 * i] == docs[i].(id := db.autoId(w + 2 * i))
              && Twice(docs, db, w)[2 * i + 1] == docs[i].(id := db.autoId(w + 2 * i + 1))
    decreases |docs|
  {
    if docs != [] {
      var created := Twice(docs, db, w);
      var rest := Twice(docs[1..], db, w + 2);
      TwiceContents(docs[1..], db, w + 2);
      forall i | 1 <= i < |docs|
        ensures created[2 * i] == docs[i].(id := db.autoId(w + 2 * i))
        ensures created[2 * i + 1] == docs[i].(id := db.autoId(w + 2 * i + 1))
      {
        var i' := i - 1;
        assert created[2 * i] == rest[2 * i'];
        assert created[2 * i + 1] == rest[2 * i' + 1];
        assert docs[i] == docs[1..][i'];
      }
    }
  }

  /** `n` copies of the default document. */
  function Blanks(n: nat): (docs: seq<Module>)
    ensures |docs| == n && forall i :: 0 <= i < n ==> docs[i] == Blank
  {
    seq(n, i => Blank)
  }

  /** `Route` as written. */
  function RouteAsWritten(store: seq<Module>, f: Field, lines: seq<string>, db: Firestore): (o: Outcome)
    ensures o.Rejected? <==> f != ModuleNo && |store| > 0 && |lines| != |store|
    ensures o.Rejected? ==> o.reason == Mismatch(|lines|, |store|)
    ensures f != ModuleNo && |store| > 0 && |lines| == |store| ==> o == Failed(store)
    ensures o.Imported? ==> o.created == |lines| && o.updated == 0
    ensures o.Imported? && f == ModuleNo ==> |store| + o.created <= |o.store| <= |store| + 2 * o.created
    ensures o.Imported? && f != ModuleNo ==> |o.store| == |store| + o.created
    ensures !o.Rejected? ==> |store| <= |o.store| && o.store[..|store|] == store
  {
    if f == ModuleNo then
      var r := DoubleCreates(Seeds(f, lines), db, 0);
      if r.1 then Failed(store + r.0) else Imported(store + r.0, |lines|, 0)
    else if |lines| != |store| && |store| > 0 then Rejected(Mismatch(|lines|, |store|))
    else if |store| == 0 then CreateEach(store, Blanks(|lines|), db)
    else Failed(store)
  }

  /** `Import` as written. */
  function ImportAsWritten(store: seq<Module>, column: string, data: string, db: Firestore): (o: Outcome)
    ensures o == Rejected(NoInput) <==> column == "" || PastedLines(data) == []
    ensures o.Imported? ==> o.created == |PastedLines(data)| && o.updated == 0
    ensures !o.Rejected? ==> |store| <= |o.store| && o.store[..|store|] == store
  {
    var lines := PastedLines(data);
    if column == "" || lines == [] then Rejected(NoInput)
    else match ColumnMapping(column)
      case None => Rejected(UnknownColumn)
      case Some(f) => RouteAsWritten(store, f, lines, db)
  }

  /** Past the input checks, the import as written routes the pasted lines to the chosen field. */
  lemma ImportAsWrittenRoutes(store: seq<Module>, column: string, data: string, db: Firestore)
    requires ColumnMapping(column).Some? && PastedLines(data) != []
    ensures ImportAsWritten(store, column, data, db)
              == RouteAsWritten(store, ColumnMapping(column).value, PastedLines(data), db)
  {
  }

  /** The code as written refuses exactly what the intended import refuses, for the same reason. */
  lemma AsWrittenAgreesOnRejections(store: seq<Module>, column: string, data: string, db: Firestore)
    ensures ImportAsWritten(store, column, data, db).Rejected? <==> Import(store, column, data, db).Rejected?
    ensures ImportAsWritten(store, column, data, db).Rejected? ==>
              ImportAsWritten(store, column, data, db).reason == Import(store, column, data, db).reason
  {
  }

  /** After the existing documents, the doubled creates hold each line twice as the module number. */
  lemma TwiceAfterStore(store: seq<Module>, lines: seq<string>, db: Firestore)
    ensures |store + Twice(Seeds(ModuleNo, lines), db, 0)| == |store| + 2 * |lines|
    ensures forall i :: 0 <= i < |lines| ==>
              && (store + Twice(Seeds(ModuleNo, lines), db, 0))[|store| + 2 * i].moduleNo == lines[i]
              && (store + Twice(Seeds(ModuleNo, lines), db, 0))[|store| + 2 * i + 1].moduleNo == lines[i]
  {
    var docs := Seeds(ModuleNo, lines);
    var created := Twice(docs, db, 0);
    TwiceContents(docs, db, 0);
    forall i | 0 <= i < |lines|
      ensures (store + created)[|store| + 2 * i].moduleNo == lines[i]
      ensures (store + created)[|store| + 2 * i + 1].moduleNo == lines[i]
    {
      var k := 2 * i;
      assert docs[i].moduleNo == lines[i];
      assert created[k].moduleNo == lines[i] && created[k + 1].moduleNo == lines[i];
      assert (store + created)[|store| + k] == created[k];
      assert (store + created)[|store| + k + 1] == created[k + 1];
    }
  }

  /**
   * As written, pasting module numbers creates two documents per line, both
   * holding the line, while the reported count is one per line.
   */
  lemma AsWrittenCreatesTwicePerLine(store: seq<Module>, data: string, db: Firestore)
    requires PastedLines(data) != []
    requires forall j :: 0 <= j < 2 * |PastedLines(data)| ==> db.accepts(j)
    ensures var lines := PastedLines(data);
            var o := ImportAsWritten(store, "Module No.", data, db);
            && o.Imported? && o.created == |lines|
            && |o.store| == |store| + 2 * o.created
            && forall i :: 0 <= i < |lines| ==>
                 o.store[|store| + 2 * i].moduleNo == lines[i] && o.store[|store| + 2 * i + 1].moduleNo == lines[i]
  {
    var lines := PastedLines(data);
    var docs := Seeds(ModuleNo, lines);
    ImportAsWrittenRoutes(store, "Module No.", data, db);
    DoubleCreatesAllAccepted(docs, db, 0);
    var created := Twice(docs, db, 0);
    assert RouteAsWritten(store, ModuleNo, lines, db) == Imported(store + created, |lines|, 0);
    TwiceAfterStore(store, lines, db);
  }

  /** Pasting "M1" as a module number: the collection gains two documents, the count says one. */
  lemma DoubleCreateCounterexample()
    ensures var o := ImportAsWritten([], "Module No.", "M1", AcceptAll);
            o.Imported? && o.created == 1 && |o.store| == 2
    ensures var o := Import([], "Module No.", "M1", AcceptAll);
            o.Imported? && o.created == 1 && |o.store| == 1
  {
    assert IsTrimmed("M1");
    OneValueIsOneLine("M1");
    AsWrittenCreatesTwicePerLine([], "M1", AcceptAll);
    ImportModuleNumbers([], "M1", AcceptAll);
  }

  /** Changing a document's id changes none of its six fields. */
  lemma GetFieldIgnoresId(m: Module, id: string, f: Field)
    ensures GetField(m.(id := id), f) == GetField(m, f)
  {
  }

  /** Stamping default documents gives default documents with the assigned ids. */
  lemma StampBlanks(docs: seq<Module>, db: Firestore)
    requires forall i :: 0 <= i < |docs| ==> docs[i] == Blank
    ensures forall i :: 0 <= i < |Stamp(docs, db, 0)| ==> Stamp(docs, db, 0)[i] == Blank.(id := db.autoId(i))
  {
  }

  /**
   * Creating `n` default documents in an empty collection leaves only
   * default documents, whichever writes are refused, and all `n` of them
   * when none is.
   */
  lemma CreateBlanks(n: nat, db: Firestore)
    ensures var o := CreateEach([], Blanks(n), db);
            && !o.Rejected?
            && (forall i :: 0 <= i < |o.store| ==> o.store[i] == Blank.(id := db.autoId(i)))
            && ((forall j :: 0 <= j < n ==> db.accepts(j)) ==> o.Imported? && |o.store| == n)
  {
    var docs := Blanks(n);
    var o := CreateEach([], docs, db);
    if o.Imported? {
      assert o.store == Stamp(docs, db, 0);
      StampBlanks(docs, db);
    } else {
      var k :| 0 <= k < |docs| && !db.accepts(k) && (forall j :: 0 <= j < k ==> db.accepts(j))
               && o.store == [] + Stamp(docs[..k], db, 0);
      var written := docs[..k];
      assert o.store == Stamp(written, db, 0);
      assert forall i :: 0 <= i < |written| ==> written[i] == Blank;
      StampBlanks(written, db);
    }
  }

  /**
   * As written, pasting into an empty collection creates documents that
   * hold the defaults only: the target field never receives the line,
   * whichever writes the store refuses.  When it refuses none, there is
   * one document per line.
   */
  lemma AsWrittenDropsPastedValue(column: string, data: string, db: Firestore)
    requires ColumnMapping(column).Some? && ColumnMapping(column) != Some(ModuleNo)
    requires PastedLines(data) != []
    ensures var f := ColumnMapping(column).value;
            var o := ImportAsWritten([], column, data, db);
            && !o.Rejected?
            && forall i :: 0 <= i < |o.store| ==>
                 o.store[i] == Blank.(id := db.autoId(i)) && GetField(o.store[i], f) == GetField(Blank, f)
    ensures (forall j :: 0 <= j < |PastedLines(data)| ==> db.accepts(j)) ==>
              var o := ImportAsWritten([], column, data, db);
              o.Imported? && |o.store| == |PastedLines(data)|
  {
    var lines := PastedLines(data);
    var f := ColumnMapping(column).value;
    ImportAsWrittenRoutes([], column, data, db);
    var o := ImportAsWritten([], column, data, db);
    assert o == CreateEach([], Blanks(|lines|), db);
    CreateBlanks(|lines|, db);
    forall i | 0 <= i < |o.store| ensures GetField(o.store[i], f) == GetField(Blank, f) {
      GetFieldIgnoresId(Blank, db.autoId(i), f);
    }
  }

  /** As written, pasting "YardA" into Location on an empty collection leaves the location empty. */
  lemma DroppedValueAsWritten()
    ensures var o := ImportAsWritten([], "Location", "YardA", AcceptAll);
            o.Imported? && |o.store| == 1 && o.store[0].location == ""
  {
    assert IsTrimmed("YardA");
    OneValueIsOneLine("YardA");
    assert ColumnMapping("Location") == Some(Location);
    assert forall j :: 0 <= j < |PastedLines("YardA")| ==> AcceptAll.accepts(j);
    AsWrittenDropsPastedValue("Location", "YardA", AcceptAll);
    var o := ImportAsWritten([], "Location", "YardA", AcceptAll);
    assert GetField(o.store[0], Location) == GetField(Blank, Location);
  }

  /** As intended, one location pasted into an empty collection is stored. */
  lemma IntendedLocationIntoEmpty(column: string, data: string, db: Firestore, w: string)
    requires ColumnMapping(column) == Some(Location) && PastedLines(data) == [w] && db.accepts(0)
    ensures var o := Import([], column, data, db);
            o.Imported? && |o.store| == 1 && o.store[0].location == w
  {
    ImportRoutes([], column, data, db);
    var docs := Seeds(Location, [w]);
    var o := CreateEach([], docs, db);
    assert Import([], column, data, db) == o;
    assert forall j :: 0 <= j < |docs| ==> db.accepts(j);
    assert o.store[0] == docs[0].(id := db.autoId(0));
  }

  /** As intended, pasting "YardA" into Location on an empty collection stores the location. */
  lemma DroppedValueIntended()
    ensures var o := Import([], "Location", "YardA", AcceptAll);
            o.Imported? && |o.store| == 1 && o.store[0].location == "YardA"
  {
    assert IsTrimmed("YardA");
    OneValueIsOneLine("YardA");
    assert ColumnMapping("Location") == Some(Location);
    IntendedLocationIntoEmpty("Location", "YardA", AcceptAll, "YardA");
  }

  /** Pasting "YardA" into Location on an empty collection: as written the location stays empty. */
  lemma DroppedValueCounterexample()
    ensures var o := ImportAsWritten([], "Location", "YardA", AcceptAll);
            o.Imported? && |o.store| == 1 && o.store[0].location == ""
    ensures var o := Import([], "Location", "YardA", AcceptAll);
            o.Imported? && |o.store| == 1 && o.store[0].location == "YardA"
  {
    DroppedValueAsWritten();
    DroppedValueIntended();
  }

  /** As written, the positional update never writes: it fails with the collection unchanged. */
  lemma AsWrittenPositionalNeverWrites(store: seq<Module>, column: string, data: string, db: Firestore)
    requires ColumnMapping(column).Some? && ColumnMapping(column) != Some(ModuleNo)
    requires |PastedLines(data)| == |store| > 0
    ensures ImportAsWritten(store, column, data, db) == Failed(store)
  {
    ImportAsWrittenRoutes(store, column, data, db);
  }

  /** As written, pasting "YardA" into Location over one document changes nothing. */
  lemma MissingReferenceAsWritten()
    ensures ImportAsWritten([Blank], "Location", "YardA", AcceptAll) == Failed([Blank])
  {
    assert IsTrimmed("YardA");
    OneValueIsOneLine("YardA");
    assert ColumnMapping("Location") == Some(Location);
    AsWrittenPositionalNeverWrites([Blank], "Location", "YardA", AcceptAll);
  }

  /** As intended, one location pasted over one document is written into it. */
  lemma IntendedLocationOverOne(column: string, data: string, db: Firestore, w: string, m: Module)
    requires ColumnMapping(column) == Some(Location) && PastedLines(data) == [w] && db.accepts(0)
    ensures var o := Import([m], column, data, db);
            o.Imported? && |o.store| == 1 && o.store[0].location == w
  {
    ImportPositional([m], column, data, db);
    var o := Import([m], column, data, db);
    assert GetField(o.store[0], Location) == Some(w);
  }

  /** As intended, pasting "YardA" into Location over one document sets its location. */
  lemma MissingReferenceIntended()
    ensures var o := Import([Blank], "Location", "YardA", AcceptAll);
            o.Imported? && |o.store| == 1 && o.store[0].location == "YardA"
  {
    assert IsTrimmed("YardA");
    OneValueIsOneLine("YardA");
    assert ColumnMapping("Location") == Some(Location);
    IntendedLocationOverOne("Location", "YardA", AcceptAll, "YardA", Blank);
  }

  /** Pasting "YardA" into Location over one document: as written nothing changes. */
  lemma MissingReferenceCounterexample()
    ensures ImportAsWritten([Blank], "Location", "YardA", AcceptAll) == Failed([Blank])
    ensures var o := Import([Blank], "Location", "YardA", AcceptAll);
            o.Imported? && |o.store| == 1 && o.store[0].location == "YardA"
  {
    MissingReferenceAsWritten();
    MissingReferenceIntended();
  }
}
