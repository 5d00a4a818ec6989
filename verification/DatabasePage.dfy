/** The row index and the loaded page as they are updated in place. */
module DatabasePage {
  import opened Wrappers
  import opened Listing
  import opened DatabaseModel
  import opened DatabaseIndex

  lemma SplitUnique(s: seq<Keyed>, x: Keyed, i: nat, j: nat)
    requires SplitsAt(s, x, i) && SplitsAt(s, x, j)
    ensures i == j
  {
    assert i < |s| ==> !Precedes(s[i], x);
    assert j < |s| ==> !Precedes(s[j], x);
  }

  lemma RowPutTwice(doc: Doc, id: Id, first: RowEntry, second: RowEntry)
    ensures PutRowEntry(PutRowEntry(doc, id, first), id, second) == PutRowEntry(doc, id, second)
  {
    assert doc.rows[id := first][id := second] == doc.rows[id := second];
  }

  lemma FieldPutTwice(doc: Doc, id: Id, first: FieldEntry, second: FieldEntry)
    ensures PutFieldEntry(PutFieldEntry(doc, id, first), id, second) == PutFieldEntry(doc, id, second)
  {
    assert doc.fields[id := first][id := second] == doc.fields[id := second];
  }

  lemma OptionPutTwice(doc: Doc, field: Id, id: Id, first: OptionEntry, second: OptionEntry)
    requires field in doc.fields
    ensures PutOptionEntry(PutOptionEntry(doc, field, id, first), field, id, second)
            == PutOptionEntry(doc, field, id, second)
  {
    var options := doc.fields[field].options;
    assert options[id := first][id := second] == options[id := second];
    FieldPutTwice(doc, field, doc.fields[field].(options := options[id := first]),
                  doc.fields[field].(options := options[id := second]));
  }

  lemma NothingToClear(doc: Doc, row: Id, field: Id)
    requires row in doc.rows && field !in doc.rows[row].cells
    ensures PutCell(doc, row, field, None) == doc
  {
    assert doc.rows[row].cells - {field} == doc.rows[row].cells;
    assert doc.rows[row := doc.rows[row]] == doc.rows;
  }

  /** What adding a row does once its key is known. */
  lemma AddRowWrites(st: State, place: Place, id: Id, fault: Option<nat>, keys: KeyFunction)
    requires !st.doc.deleted && PlaceKey(KeysOf(Loaded(st).index.value), place, keys).Some?
    ensures var rows := Loaded(st).index.value; var sort := PlaceKey(KeysOf(rows), place, keys).value;
            Write(st, AddRow(place, id), fault, keys) ==
            if fault.Some? && fault.value < 4
            then Attempt(State(if fault.value == 0 then st.doc
                               else PutRowEntry(st.doc, id, RowDrafts(sort)[fault.value - 1]), Some(rows)), Some(Document))
            else Attempt(State(PutRow(st.doc, id, sort), Some(IndexInsert(rows, sort, id))), None)
  {
  }

  /** What setting a cell does once its value is accepted. */
  lemma SetCellWrites(st: State, row: Id, field: Id, value: Cell, fault: Option<nat>, keys: KeyFunction)
    requires !st.doc.deleted && IsShown(st.doc, field) && IsLiveRow(st.doc, row)
    requires Encode(st.doc.fields[field], value).Ok?
    ensures var rows, encoded := Loaded(st).index.value, Encode(st.doc.fields[field], value).value;
            Write(st, SetCell(row, field, value), fault, keys) ==
            if fault == Some(0) && (encoded.Some? || field in st.doc.rows[row].cells)
            then Attempt(State(st.doc, Some(rows)), Some(Document))
            else Attempt(State(PutCell(st.doc, row, field, encoded), Some(IndexSet(rows, row, field, Kept(value)))), None)
  {
    EncodeDecode(st.doc.fields[field], value);
  }

  /** The document stores `cell` as it is. */
  predicate Stores(doc: Doc, row: Id, field: Id, cell: Cell) {
    IsLiveRow(doc, row) && IsShown(doc, field) && Encode(doc.fields[field], cell).Ok? && Kept(cell) == cell
  }

  class Index {
    var rows: seq<Indexed>

    /** An index in agreement with `doc`. */
    constructor (doc: Doc)
      ensures rows == Read(doc) && Agrees(doc, rows)
    {
      rows := Read(doc);
      ReadAgrees(doc);
    }

    method KeyAt(place: Place, keys: KeyFunction) returns (r: Result<string, Error>)
      ensures r.Ok? <==> PlaceIndex(KeysOf(rows), place).Some?
      ensures r.Ok? ==> Some(r.value) == PlaceKey(KeysOf(rows), place, keys)
      ensures r.Err? ==> r.error == NotFound
    {
      var order := KeysOf(rows);
      var i: nat;
      match place {
        case First => i := 0;
        case Last => i := |rows|;
        case After(sibling) =>
          i := Position(order, sibling);
          if i == |rows| { return Err(NotFound); }
          i := i + 1;
      }
      r := Ok(keys(KeyOf(order, i - 1), KeyOf(order, i)));
    }

    /** Inserts by binary search, which the kept order makes correct. */
    method Insert(sort: string, id: Id)
      requires Ascending(KeysOf(rows))
      modifies this
      ensures rows == IndexInsert(old(rows), sort, id)
    {
      var x := Keyed(sort, id);
      ghost var order := KeysOf(rows);
      var low, high := 0, |rows|;
      while low < high
        invariant 0 <= low <= high <= |rows| && rows == old(rows)
        invariant forall k | 0 <= k < low :: Precedes(order[k], x)
        invariant forall k | high <= k < |rows| :: !Precedes(order[k], x)
      {
        var middle := (low + high) / 2;
        assert order[middle] == Keyed(rows[middle].sort, rows[middle].id);
        if Precedes(Keyed(rows[middle].sort, rows[middle].id), x) {
          forall k | 0 <= k < middle ensures Precedes(order[k], x) {
            PrecedesTransitive(order[k], order[middle], x);
          }
          low := middle + 1;
        } else {
          forall k | middle < k < |rows| ensures !Precedes(order[k], x) {
            if Precedes(order[k], x) { PrecedesTransitive(order[middle], order[k], x); }
          }
          high := middle;
        }
      }
      PartitionPointSplits(order, x);
      SplitUnique(order, x, low, PartitionPoint(order, x));
      rows := InsertAt(rows, low, Indexed(sort, id, map[]));
    }

    /** Keeps the index in step with a document that drops the row. */
    method Remove(row: Id, ghost doc: Doc)
      modifies this
      ensures rows == IndexRemove(old(rows), row)
      ensures Agrees(doc, old(rows)) && IsLiveRow(doc, row) ==> Agrees(DropRow(doc, row), rows)
    {
      if Agrees(doc, rows) && IsLiveRow(doc, row) { RemoveKeepsAgreement(doc, rows, row); }
      var i := Position(KeysOf(rows), row);
      if i < |rows| {
        rows := RemoveAt(rows, i);
      }
    }

    /** Keeps the index in step with a document that stores the cell. */
    method Set(row: Id, field: Id, cell: Cell, ghost doc: Doc)
      modifies this
      ensures rows == IndexSet(old(rows), row, field, cell)
      ensures Agrees(doc, old(rows)) && Stores(doc, row, field, cell) ==>
                Agrees(PutCell(doc, row, field, Encode(doc.fields[field], cell).value), rows)
    {
      if Agrees(doc, rows) && Stores(doc, row, field, cell) { SetKeepsAgreement(doc, rows, row, field, cell); }
      var i := Position(KeysOf(rows), row);
      if i == |rows| { return; }
      var cells := rows[i].cells;
      match cell {
        case Empty => cells := cells - {field};
        case _ => cells := cells[field := cell];
      }
      rows := rows[i := rows[i].(cells := cells)];
    }
  }

  class Page {
    var doc: Doc
    var index: Index?

    ghost function Loaded(): State
      reads this, index
    {
      State(doc, if index == null then None else Some(index.rows))
    }

    ghost predicate Valid()
      reads this, index
    {
      Consistent(Loaded())
    }

    constructor (stored: Doc)
      ensures Valid() && Loaded() == State(stored, None)
    {
      doc, index := stored, null;
    }

    /** Reads the index if it is not kept. */
    method NeedIndex() returns (ok: bool)
      requires Valid()
      modifies this
      ensures doc == old(doc) && Valid()
      ensures ok <==> !(old(index) == null && doc.deleted)
      ensures if ok then index != null && Loaded() == DatabaseModel.Loaded(old(Loaded())) else Loaded() == old(Loaded())
      ensures old(index) != null ==> index == old(index)
      ensures ok && old(index) == null ==> fresh(index)
    {
      ok := true;
      if index == null {
        if doc.deleted { return false; }
        index := new Index(doc);
        ReadAgrees(doc);
      }
    }

    /** Writes a new row's map, key, liveness and map of cells, up to the write that fails. */
    method InsertRow(id: Id, sort: string, fault: Option<nat>) returns (failed: bool)
      modifies `doc
      ensures failed <==> fault.Some? && fault.value < 4
      ensures doc == if !failed then PutRow(old(doc), id, sort)
                     else if fault.value == 0 then old(doc)
                     else PutRowEntry(old(doc), id, RowDrafts(sort)[fault.value - 1])
    {
      if fault == Some(0) { return true; }
      doc := PutRowEntry(doc, id, RowEntry("", true, map[]));
      if fault == Some(1) { return true; }
      RowPutTwice(old(doc), id, doc.rows[id], doc.rows[id].(sort := sort));
      doc := PutRowEntry(doc, id, doc.rows[id].(sort := sort));
      if fault == Some(2) { return true; }
      RowPutTwice(old(doc), id, doc.rows[id], doc.rows[id].(deleted := false));
      doc := PutRowEntry(doc, id, doc.rows[id].(deleted := false));
      if fault == Some(3) { return true; }
      RowPutTwice(old(doc), id, doc.rows[id], doc.rows[id].(cells := map[]));
      doc := PutRowEntry(doc, id, doc.rows[id].(cells := map[]));
      failed := false;
    }

    /** Writes a new field's map, name, kind, key, liveness and map of options. */
    method InsertField(id: Id, kind: FieldKind, sort: string, fault: Option<nat>) returns (failed: bool)
      modifies `doc
      ensures failed <==> fault.Some? && fault.value < 6
      ensures doc == if !failed then PutField(old(doc), id, kind, sort)
                     else if fault.value == 0 then old(doc)
                     else PutFieldEntry(old(doc), id, FieldDrafts(kind, sort)[fault.value - 1])
    {
      if fault == Some(0) { return true; }
      doc := PutFieldEntry(doc, id, FieldEntry(None, "", true, map[]));
      if fault == Some(1) || fault == Some(2) { return true; }
      FieldPutTwice(old(doc), id, doc.fields[id], doc.fields[id].(kind := Some(kind)));
      doc := PutFieldEntry(doc, id, doc.fields[id].(kind := Some(kind)));
      if fault == Some(3) { return true; }
      FieldPutTwice(old(doc), id, doc.fields[id], doc.fields[id].(sort := sort));
      doc := PutFieldEntry(doc, id, doc.fields[id].(sort := sort));
      if fault == Some(4) { return true; }
      FieldPutTwice(old(doc), id, doc.fields[id], doc.fields[id].(deleted := false));
      doc := PutFieldEntry(doc, id, doc.fields[id].(deleted := false));
      if fault == Some(5) { return true; }
      FieldPutTwice(old(doc), id, doc.fields[id], doc.fields[id].(options := map[]));
      doc := PutFieldEntry(doc, id, doc.fields[id].(options := map[]));
      failed := false;
    }

    /** Writes a new option's map, name, colour, key and liveness. */
    method InsertOption(field: Id, id: Id, sort: string, fault: Option<nat>) returns (failed: bool)
      requires field in doc.fields
      modifies `doc
      ensures failed <==> fault.Some? && fault.value < 5
      ensures doc == if !failed then PutOption(old(doc), field, id, sort)
                     else if fault.value == 0 then old(doc)
                     else PutOptionEntry(old(doc), field, id, OptionDrafts(sort)[fault.value - 1])
    {
      if fault == Some(0) { return true; }
      doc := PutOptionEntry(doc, field, id, OptionEntry("", true));
      if fault == Some(1) || fault == Some(2) || fault == Some(3) { return true; }
      OptionPutTwice(old(doc), field, id, OptionEntry("", true), OptionEntry(sort, true));
      doc := PutOptionEntry(doc, field, id, doc.fields[field].options[id].(sort := sort));
      if fault == Some(4) { return true; }
      OptionPutTwice(old(doc), field, id, OptionEntry(sort, true), OptionEntry(sort, false));
      doc := PutOptionEntry(doc, field, id, doc.fields[field].options[id].(deleted := false));
      failed := false;
    }

    /** Writes the document first and the index last. */
    method AddRow(place: Place, id: Id, fault: Option<nat>, keys: KeyFunction) returns (error: Option<Error>)
      requires Valid() && id !in doc.rows
      modifies this, index
      ensures Attempt(Loaded(), error) == Write(old(Loaded()), Mutation.AddRow(place, id), fault, keys)
      ensures error.None? ==> Valid()
    {
      var ok := NeedIndex();
      if !ok || doc.deleted { return Some(NotFound); }
      ghost var st, rows := Loaded(), index.rows;
      var sort := index.KeyAt(place, keys);
      if sort.Err? { return Some(sort.error); }
      AddRowWrites(old(Loaded()), place, id, fault, keys);
      var failed := InsertRow(id, sort.value, fault);
      if failed { return Some(Document); }
      ListedHolds(LiveRows(st.doc));
      InsertKeepsAgreement(st.doc, rows, id, sort.value);
      index.Insert(sort.value, id);
      error := None;
    }

    method RemoveRow(row: Id, fault: Option<nat>, keys: KeyFunction) returns (error: Option<Error>)
      requires Valid()
      modifies this, index
      ensures Attempt(Loaded(), error) == Write(old(Loaded()), Mutation.RemoveRow(row), fault, keys)
      ensures error.None? ==> Valid()
    {
      CompleteKeepsAgreement(Loaded(), Mutation.RemoveRow(row), keys);
      var ok := NeedIndex();
      if !ok || doc.deleted || !IsLiveRow(doc, row) { return Some(NotFound); }
      if fault == Some(0) { return Some(Document); }
      ghost var before := doc;
      doc := doc.(rows := doc.rows[row := doc.rows[row].(deleted := true)]);
      index.Remove(row, before);
      error := None;
    }

    method SetCell(row: Id, field: Id, value: Cell, fault: Option<nat>, keys: KeyFunction) returns (error: Option<Error>)
      requires Valid()
      modifies this, index
      ensures Attempt(Loaded(), error) == Write(old(Loaded()), Mutation.SetCell(row, field, value), fault, keys)
      ensures error.None? ==> Valid()
    {
      var ok := NeedIndex();
      if !ok || doc.deleted || !IsShown(doc, field) || !IsLiveRow(doc, row) { return Some(NotFound); }
      var encoded := Encode(doc.fields[field], value);
      if encoded.Err? { return Some(encoded.error); }
      ghost var before := doc;
      SetCellWrites(old(Loaded()), row, field, value, fault, keys);
      SetKeepsAgreement(doc, index.rows, row, field, value);
      var failed := StoreCell(row, field, encoded.value, fault);
      if failed { return Some(Document); }
      index.Set(row, field, Kept(value), before);
      error := None;
    }

    /** Puts the cell's value, or deletes it if it is there. */
    method StoreCell(row: Id, field: Id, value: Option<Scalar>, fault: Option<nat>) returns (failed: bool)
      requires row in doc.rows
      modifies `doc
      ensures failed <==> fault == Some(0) && (value.Some? || field in old(doc).rows[row].cells)
      ensures doc == if failed then old(doc) else PutCell(old(doc), row, field, value)
    {
      var cells := doc.rows[row].cells;
      if value.None? && field !in cells {
        NothingToClear(doc, row, field);
        return false;
      }
      if fault == Some(0) { return true; }
      cells := if value.Some? then cells[field := value.value] else cells - {field};
      doc := doc.(rows := doc.rows[row := doc.rows[row].(cells := cells)]);
      failed := false;
    }

    method AddField(place: Place, id: Id, kind: FieldKind, fault: Option<nat>, keys: KeyFunction)
      returns (error: Option<Error>)
      requires Valid() && Fresh(doc, Mutation.AddField(place, id, kind))
      modifies `doc
      ensures Attempt(Loaded(), error) == Write(old(Loaded()), Mutation.AddField(place, id, kind), fault, keys)
      ensures error.None? ==> Valid()
    {
      CompleteKeepsAgreement(Loaded(), Mutation.AddField(place, id, kind), keys);
      if doc.deleted { return Some(NotFound); }
      var siblings := Listed(LiveFields(doc));
      if |siblings| >= MAX_FIELDS { return Some(TooMany); }
      var sort := PlaceKey(siblings, place, keys);
      if sort.None? { return Some(NotFound); }
      var failed := InsertField(id, kind, sort.value, fault);
      if failed { return Some(Document); }
      error := None;
    }

    method RemoveField(field: Id, fault: Option<nat>, keys: KeyFunction) returns (error: Option<Error>)
      requires Valid()
      modifies `doc
      ensures Attempt(Loaded(), error) == Write(old(Loaded()), Mutation.RemoveField(field), fault, keys)
      ensures error.None? ==> Valid()
    {
      CompleteKeepsAgreement(Loaded(), Mutation.RemoveField(field), keys);
      if doc.deleted || !IsShown(doc, field) { return Some(NotFound); }
      if fault == Some(0) { return Some(Document); }
      doc := doc.(fields := doc.fields[field := doc.fields[field].(deleted := true)]);
      error := None;
    }

    method AddOption(field: Id, id: Id, fault: Option<nat>, keys: KeyFunction) returns (error: Option<Error>)
      requires Valid() && Fresh(doc, Mutation.AddOption(field, id))
      modifies `doc
      ensures Attempt(Loaded(), error) == Write(old(Loaded()), Mutation.AddOption(field, id), fault, keys)
      ensures error.None? ==> Valid()
    {
      CompleteKeepsAgreement(Loaded(), Mutation.AddOption(field, id), keys);
      if doc.deleted || !IsShown(doc, field) { return Some(NotFound); }
      if doc.fields[field].kind.value != Select { return Some(WrongKind); }
      var siblings := Listed(LiveOptions(doc.fields[field]));
      if |siblings| >= MAX_OPTIONS { return Some(TooMany); }
      var sort := PlaceKey(siblings, Last, keys).value;
      var failed := InsertOption(field, id, sort, fault);
      if failed { return Some(Document); }
      error := None;
    }

    /** Marks the Block, after its View. */
    method RemoveBlock(fault: Option<nat>, keys: KeyFunction) returns (error: Option<Error>)
      requires Valid()
      modifies `doc
      ensures Attempt(Loaded(), error) == Write(old(Loaded()), Mutation.RemoveBlock, fault, keys)
      ensures error.None? ==> Valid()
    {
      CompleteKeepsAgreement(Loaded(), Mutation.RemoveBlock, keys);
      if doc.deleted { return Some(NotFound); }
      if fault == Some(0) || fault == Some(1) { return Some(Document); }
      doc := doc.(deleted := true);
      error := None;
    }

    method Change(m: Mutation, fault: Option<nat>, keys: KeyFunction) returns (error: Option<Error>)
      requires Valid() && Fresh(doc, m)
      modifies this, index
      ensures Attempt(Loaded(), error) == Write(old(Loaded()), m, fault, keys)
      ensures error.None? ==> Valid()
    {
      match m {
        case AddRow(place, id) => error := AddRow(place, id, fault, keys);
        case RemoveRow(row) => error := RemoveRow(row, fault, keys);
        case SetCell(row, field, value) => error := SetCell(row, field, value, fault, keys);
        case AddField(place, id, kind) => error := AddField(place, id, kind, fault, keys);
        case RemoveField(field) => error := RemoveField(field, fault, keys);
        case AddOption(field, id) => error := AddOption(field, id, fault, keys);
        case RemoveBlock => error := RemoveBlock(fault, keys);
      }
    }

    /** The pipeline: a refusal rolls the document back, and a failing store drops the page. */
    method Apply(m: Mutation, faults: Faults, keys: KeyFunction) returns (error: Option<Error>)
      requires Valid() && Fresh(doc, m)
      modifies this, index
      ensures Valid() && Attempt(Loaded(), error) == DatabaseModel.Apply(old(Loaded()), m, faults, keys)
      ensures error.Some? ==> doc == old(doc)
    {
      StepKeepsConsistency(Loaded(), Mutate(m, faults), keys);
      var before := doc;
      error := Change(m, faults.write, keys);
      if error.Some? {
        doc := before;
      } else if doc == before {
        error := Some(NoChange);
      } else if faults.store {
        doc, index := before, null;
        error := Some(Storage);
      }
    }
  }
}
