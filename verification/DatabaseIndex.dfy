/** The kept index never drifts from the document. */
module DatabaseIndex {
  import opened Wrappers
  import opened Listing
  import opened DatabaseModel

  /** A row of the index holds what the document holds of the live fields. It may hold more, but
      only of fields the document once had. */
  ghost predicate CellsAgree(doc: Doc, row: Indexed) {
    row.cells.Keys <= doc.fields.Keys &&
    forall field | IsShown(doc, field) :: Lookup(row.cells, field) == StoredCell(doc, row.id, field)
  }

  /** The index lists the document's live rows in order with their cells. */
  ghost predicate Agrees(doc: Doc, rows: seq<Indexed>) {
    KeysOf(rows) == RowOrder(doc) && forall i | 0 <= i < |rows| :: CellsAgree(doc, rows[i])
  }

  ghost predicate Consistent(st: State) {
    st.index.Some? ==> Agrees(st.doc, st.index.value)
  }

  lemma ReadAgrees(doc: Doc)
    ensures Agrees(doc, Read(doc))
  {
    var rows := Read(doc);
    forall i | 0 <= i < |rows| ensures CellsAgree(doc, rows[i]) {
      forall field | IsShown(doc, field)
        ensures Lookup(rows[i].cells, field) == StoredCell(doc, rows[i].id, field)
      {
      }
    }
    assert KeysOf(rows) == RowOrder(doc);
  }

  lemma {:induction false} PartitionPointSplits(s: seq<Keyed>, x: Keyed)
    requires Ascending(s)
    ensures SplitsAt(s, x, PartitionPoint(s, x))
  {
    if s == [] {
    } else if Precedes(s[0], x) {
      PartitionPointSplits(s[1..], x);
      assert forall k | 1 <= k < |s| :: s[k] == s[1..][k - 1];
    } else {
      forall k | 0 < k < |s| ensures !Precedes(s[k], x) {
        if Precedes(s[k], x) { PrecedesTransitive(s[0], s[k], x); }
      }
    }
  }

  // ----- listings after a write -----

  lemma RowInListing(doc: Doc, i: nat)
    requires i < |RowOrder(doc)|
    ensures IsLiveRow(doc, RowOrder(doc)[i].id) && doc.rows[RowOrder(doc)[i].id].sort == RowOrder(doc)[i].sort
  {
    ListedHolds(LiveRows(doc));
    assert RowOrder(doc)[i] in Elements(RowOrder(doc));
  }

  lemma LiveRowPosition(doc: Doc, row: Id)
    requires IsLiveRow(doc, row)
    ensures var i := Position(RowOrder(doc), row);
            i < |RowOrder(doc)| && RowOrder(doc)[i] == Keyed(doc.rows[row].sort, row)
  {
    var order := RowOrder(doc);
    ListedHolds(LiveRows(doc));
    assert Keyed(doc.rows[row].sort, row) in Elements(order);
    var k :| 0 <= k < |order| && order[k].id == row;
    RowInListing(doc, Position(order, row));
  }

  lemma PutRowListing(doc: Doc, row: Id, sort: string)
    requires row !in doc.rows
    ensures LiveRows(PutRow(doc, row, sort)) == LiveRows(doc) + {Keyed(sort, row)}
    ensures Keyed(sort, row) !in RowOrder(doc)
  {
    var doc' := PutRow(doc, row, sort);
    forall x ensures x in LiveRows(doc') <==> x in LiveRows(doc) + {Keyed(sort, row)} {
      assert x in LiveRows(doc') <==> IsLiveRow(doc', x.id) && doc'.rows[x.id].sort == x.sort;
      assert x in LiveRows(doc) <==> IsLiveRow(doc, x.id) && doc.rows[x.id].sort == x.sort;
    }
    ListedHolds(LiveRows(doc));
    assert Elements(RowOrder(doc)) == LiveRows(doc);
  }

  lemma DropRowListing(doc: Doc, row: Id)
    requires IsLiveRow(doc, row)
    ensures LiveRows(DropRow(doc, row)) == LiveRows(doc) - {Keyed(doc.rows[row].sort, row)}
  {
    var doc' := DropRow(doc, row);
    forall x ensures x in LiveRows(doc') <==> x in LiveRows(doc) - {Keyed(doc.rows[row].sort, row)} {
      assert x in LiveRows(doc') <==> IsLiveRow(doc', x.id) && doc'.rows[x.id].sort == x.sort;
      assert x in LiveRows(doc) <==> IsLiveRow(doc, x.id) && doc.rows[x.id].sort == x.sort;
    }
  }

  lemma PutCellListing(doc: Doc, row: Id, field: Id, value: Option<Scalar>)
    requires IsLiveRow(doc, row)
    ensures LiveRows(PutCell(doc, row, field, value)) == LiveRows(doc)
  {
    var doc' := PutCell(doc, row, field, value);
    forall x ensures x in LiveRows(doc') <==> x in LiveRows(doc) {
      assert x in LiveRows(doc') <==> IsLiveRow(doc', x.id) && doc'.rows[x.id].sort == x.sort;
      assert x in LiveRows(doc) <==> IsLiveRow(doc, x.id) && doc.rows[x.id].sort == x.sort;
    }
  }

  // ----- each write keeps the index in step -----

  lemma KeysInsert(rows: seq<Indexed>, i: nat, row: Indexed)
    requires i <= |rows|
    ensures KeysOf(InsertAt(rows, i, row)) == InsertAt(KeysOf(rows), i, Keyed(row.sort, row.id))
  {
  }

  lemma KeysRemove(rows: seq<Indexed>, i: nat)
    requires i < |rows|
    ensures KeysOf(RemoveAt(rows, i)) == RemoveAt(KeysOf(rows), i)
  {
  }

  lemma InsertListsRow(doc: Doc, row: Id, sort: string)
    requires row !in doc.rows
    ensures var x := Keyed(sort, row);
            RowOrder(PutRow(doc, row, sort)) == InsertAt(RowOrder(doc), PartitionPoint(RowOrder(doc), x), x)
  {
    var x, order := Keyed(sort, row), RowOrder(doc);
    PutRowListing(doc, row, sort);
    ListedHolds(LiveRows(doc));
    PartitionPointSplits(order, x);
    InsertListed(order, x, PartitionPoint(order, x));
  }

  lemma RemoveUnlistsRow(doc: Doc, row: Id)
    requires IsLiveRow(doc, row)
    ensures Position(RowOrder(doc), row) < |RowOrder(doc)|
    ensures RowOrder(DropRow(doc, row)) == RemoveAt(RowOrder(doc), Position(RowOrder(doc), row))
  {
    LiveRowPosition(doc, row);
    DropRowListing(doc, row);
    ListedHolds(LiveRows(doc));
    RemoveListed(RowOrder(doc), Position(RowOrder(doc), row));
  }

  lemma InsertKeepsAgreement(doc: Doc, rows: seq<Indexed>, row: Id, sort: string)
    requires Agrees(doc, rows) && row !in doc.rows
    ensures Agrees(PutRow(doc, row, sort), IndexInsert(rows, sort, row))
  {
    var x, keys := Keyed(sort, row), KeysOf(rows);
    var i, rows' := PartitionPoint(keys, x), IndexInsert(rows, sort, row);
    InsertListsRow(doc, row, sort);
    KeysInsert(rows, i, Indexed(sort, row, map[]));
    forall k | 0 <= k < |rows'| ensures CellsAgree(PutRow(doc, row, sort), rows'[k]) {
      if k != i {
        OtherRowAgrees(doc, PutRow(doc, row, sort), rows, if k < i then k else k - 1);
      }
    }
  }

  lemma OtherRowAgrees(doc: Doc, doc': Doc, rows: seq<Indexed>, k: nat)
    requires Agrees(doc, rows) && k < |rows| && doc.fields == doc'.fields
    requires IsLiveRow(doc, rows[k].id) ==> rows[k].id in doc'.rows && doc.rows[rows[k].id].cells == doc'.rows[rows[k].id].cells
    ensures CellsAgree(doc', rows[k])
  {
    RowInListing(doc, k);
    assert KeysOf(rows)[k].id == rows[k].id;
    SameCells(doc, doc', rows[k]);
  }

  /** Writing another row leaves a row's cells in agreement. */
  lemma SameCells(doc: Doc, doc': Doc, row: Indexed)
    requires CellsAgree(doc, row) && doc.fields == doc'.fields
    requires row.id in doc.rows && row.id in doc'.rows && doc.rows[row.id].cells == doc'.rows[row.id].cells
    ensures CellsAgree(doc', row)
  {
    forall field | IsShown(doc', field) ensures Lookup(row.cells, field) == StoredCell(doc', row.id, field) {
      assert IsShown(doc, field);
    }
  }

  lemma RemoveKeepsAgreement(doc: Doc, rows: seq<Indexed>, row: Id)
    requires Agrees(doc, rows) && IsLiveRow(doc, row)
    ensures Agrees(DropRow(doc, row), IndexRemove(rows, row))
  {
    var keys, rows' := KeysOf(rows), IndexRemove(rows, row);
    var i := Position(keys, row);
    RemoveUnlistsRow(doc, row);
    KeysRemove(rows, i);
    forall k | 0 <= k < |rows'| ensures CellsAgree(DropRow(doc, row), rows'[k]) {
      OtherRowAgrees(doc, DropRow(doc, row), rows, if k < i then k else k + 1);
    }
  }

  /** What is encoded for a cell is what the index keeps for it. */
  lemma EncodeDecode(field: FieldEntry, value: Cell)
    requires field.kind.Some? && Encode(field, value).Ok?
    ensures var encoded := Encode(field, value).value;
            if value.Empty? then encoded.None?
            else encoded.Some? && Decode(field.kind.value, encoded.value) == Some(Kept(value))
  {
  }

  lemma SetKeepsAgreement(doc: Doc, rows: seq<Indexed>, row: Id, field: Id, value: Cell)
    requires Agrees(doc, rows) && IsLiveRow(doc, row) && IsShown(doc, field)
    requires Encode(doc.fields[field], value).Ok?
    ensures Agrees(PutCell(doc, row, field, Encode(doc.fields[field], value).value),
                   IndexSet(rows, row, field, Kept(value)))
  {
    var encoded := Encode(doc.fields[field], value).value;
    var doc', keys, rows' := PutCell(doc, row, field, encoded), KeysOf(rows), IndexSet(rows, row, field, Kept(value));
    var i := Position(keys, row);
    LiveRowPosition(doc, row);
    PutCellListing(doc, row, field, encoded);
    assert KeysOf(rows') == keys;
    forall k | 0 <= k < |rows'| ensures CellsAgree(doc', rows'[k]) {
      if k == i {
        assert rows[k].id == keys[k].id;
        CellSet(doc, rows[k], field, value);
      } else {
        DistinctIds(doc, k, i);
        assert rows[k].id == keys[k].id;
        OtherRowAgrees(doc, doc', rows, k);
      }
    }
  }

  lemma DistinctIds(doc: Doc, i: nat, j: nat)
    requires i < |RowOrder(doc)| && j < |RowOrder(doc)| && i != j
    ensures RowOrder(doc)[i].id != RowOrder(doc)[j].id
  {
    RowInListing(doc, i);
    RowInListing(doc, j);
    ListedHolds(LiveRows(doc));
    PrecedesTotal(RowOrder(doc)[i], RowOrder(doc)[j]);
    assert if i < j then Precedes(RowOrder(doc)[i], RowOrder(doc)[j]) else Precedes(RowOrder(doc)[j], RowOrder(doc)[i]);
  }

  lemma CellSet(doc: Doc, row: Indexed, field: Id, value: Cell)
    requires CellsAgree(doc, row) && IsLiveRow(doc, row.id) && IsShown(doc, field)
    requires Encode(doc.fields[field], value).Ok?
    ensures CellsAgree(PutCell(doc, row.id, field, Encode(doc.fields[field], value).value),
                       row.(cells := SetIn(row.cells, field, Kept(value))))
  {
    var doc' := PutCell(doc, row.id, field, Encode(doc.fields[field], value).value);
    var row' := row.(cells := SetIn(row.cells, field, Kept(value)));
    EncodeDecode(doc.fields[field], value);
    forall f | IsShown(doc', f) ensures Lookup(row'.cells, f) == StoredCell(doc', row'.id, f) {
      assert IsShown(doc, f);
      if f != field {
        assert StoredCell(doc', row.id, f) == StoredCell(doc, row.id, f);
      }
    }
  }

  /** Fields may come, go and gain options without touching the index. */
  lemma FieldsKeepAgreement(doc: Doc, doc': Doc, rows: seq<Indexed>)
    requires Agrees(doc, rows) && doc.rows == doc'.rows && doc.fields.Keys <= doc'.fields.Keys
    requires forall field | IsShown(doc', field) ::
               if field in doc.fields then IsShown(doc, field) && doc.fields[field].kind == doc'.fields[field].kind
               else forall row | row in doc.rows :: field !in doc.rows[row].cells
    ensures Agrees(doc', rows)
  {
    assert LiveRows(doc') == LiveRows(doc);
    forall i | 0 <= i < |rows| ensures CellsAgree(doc', rows[i]) {
      forall field | IsShown(doc', field)
        ensures Lookup(rows[i].cells, field) == StoredCell(doc', rows[i].id, field)
      {
        if field in doc.fields {
          assert IsShown(doc, field);
        }
      }
    }
  }

  // ----- whole runs -----

  lemma WriteRowKeepsAgreement(st: State, m: Mutation, keys: KeyFunction)
    requires st.index.Some? && NeedsIndex(m) && Consistent(st) && Fresh(st.doc, m)
    ensures Consistent(WriteRow(st, m, keys).state)
  {
    var doc, rows := st.doc, st.index.value;
    match m {
      case AddRow(place, id) =>
        var sort := PlaceKey(KeysOf(rows), place, keys);
        if sort.Some? { InsertKeepsAgreement(doc, rows, id, sort.value); }
      case RemoveRow(row) =>
        if IsLiveRow(doc, row) { RemoveKeepsAgreement(doc, rows, row); }
      case SetCell(row, field, value) =>
        if IsShown(doc, field) && IsLiveRow(doc, row) && Encode(doc.fields[field], value).Ok? {
          SetKeepsAgreement(doc, rows, row, field, value);
        }
    }
  }

  lemma WriteDocKeepsAgreement(st: State, m: Mutation, keys: KeyFunction)
    requires !NeedsIndex(m) && Consistent(st) && Fresh(st.doc, m)
    ensures Consistent(WriteDoc(st, m, keys).state)
  {
    if st.index.Some? {
      FieldsKeepAgreement(st.doc, WriteDoc(st, m, keys).state.doc, st.index.value);
    }
  }

  /** A mutation that completes, or is refused before it writes, leaves document and index in step. */
  lemma CompleteKeepsAgreement(st: State, m: Mutation, keys: KeyFunction)
    requires Consistent(st) && Fresh(st.doc, m)
    ensures Consistent(Complete(st, m, keys).state)
  {
    if NeedsIndex(m) {
      ReadAgrees(st.doc);
      WriteRowKeepsAgreement(Loaded(st), m, keys);
    } else {
      WriteDocKeepsAgreement(st, m, keys);
    }
  }

  /** A mutation that fails half-way has not touched the index yet. */
  lemma FailedKeepsIndex(st: State, m: Mutation, fault: Option<nat>, keys: KeyFunction)
    requires Write(st, m, fault, keys).error.Some?
    ensures var r := Write(st, m, fault, keys).state; r.index == st.index || r.index == Loaded(st).index
  {
  }

  /** Whichever document write fails, rolling the document back brings it and the index in step
      again; without a failure they are in step. */
  lemma WriteKeepsAgreement(st: State, m: Mutation, fault: Option<nat>, keys: KeyFunction)
    requires Consistent(st) && Fresh(st.doc, m)
    ensures var a := Write(st, m, fault, keys);
            Consistent(if a.error.Some? then State(st.doc, a.state.index) else a.state)
  {
    CompleteKeepsAgreement(st, m, keys);
    if Write(st, m, fault, keys).error.Some? {
      FailedKeepsIndex(st, m, fault, keys);
      ReadAgrees(st.doc);
    }
  }

  /** Rolling back is needed: a row whose last write failed is live in the document already, and not
      in the index. */
  lemma FailedRowDisagrees(st: State, place: Place, id: Id, keys: KeyFunction)
    requires Consistent(st) && Fresh(st.doc, AddRow(place, id)) && Complete(st, AddRow(place, id), keys).error.None?
    ensures var r := Write(st, AddRow(place, id), Some(3), keys).state; r.index.Some? && !Consistent(r)
  {
    var r := Write(st, AddRow(place, id), Some(3), keys).state;
    var sort := Complete(st, AddRow(place, id), keys).state.doc.rows[id].sort;
    ReadAgrees(st.doc);
    assert r.doc == PutRow(st.doc, id, sort);
    PutRowListing(st.doc, id, sort);
    ListedHolds(LiveRows(r.doc));
    assert Keyed(sort, id) in Elements(RowOrder(r.doc));
  }

  /** A write of what is stored already leaves the index as it was, too. */
  lemma NoChangeKeepsIndex(st: State, m: Mutation, keys: KeyFunction)
    requires Consistent(st) && Fresh(st.doc, m)
    requires Complete(st, m, keys).error.None? && Complete(st, m, keys).state.doc == st.doc
    ensures Complete(st, m, keys).state == Loaded(st)
  {
    if m.SetCell? {
      SameCellSame(st, m.cellRow, m.field, m.value);
    } else {
      OthersChange(st, m, keys);
    }
  }

  /** Every accepted mutation but setting a cell changes the document. */
  lemma OthersChange(st: State, m: Mutation, keys: KeyFunction)
    requires Fresh(st.doc, m) && !m.SetCell? && Complete(st, m, keys).error.None?
    ensures Complete(st, m, keys).state.doc != st.doc
  {
    var doc, doc' := st.doc, Complete(st, m, keys).state.doc;
    match m {
      case AddRow(_, id) => assert id in doc'.rows;
      case RemoveRow(row) => assert doc'.rows[row].deleted;
      case AddField(_, id, _) => assert id in doc'.fields;
      case RemoveField(field) => assert doc'.fields[field].deleted;
      case AddOption(field, id) => assert id in doc'.fields[field].options;
      case RemoveBlock => assert doc'.deleted;
    }
  }

  lemma SameCellSame(st: State, row: Id, field: Id, value: Cell)
    requires Consistent(st) && IsLiveRow(st.doc, row) && IsShown(st.doc, field)
    requires Encode(st.doc.fields[field], value).Ok?
    requires PutCell(st.doc, row, field, Encode(st.doc.fields[field], value).value) == st.doc
    ensures IndexSet(Loaded(st).index.value, row, field, Kept(value)) == Loaded(st).index.value
  {
    var doc, rows := st.doc, Loaded(st).index.value;
    var i := Position(KeysOf(rows), row);
    ReadAgrees(doc);
    LiveRowPosition(doc, row);
    EncodeDecode(doc.fields[field], value);
    var entry := PutCell(doc, row, field, Encode(doc.fields[field], value).value).rows[row];
    assert entry == doc.rows[row];
    assert CellsAgree(doc, rows[i]) && rows[i].id == KeysOf(rows)[i].id == row;
    assert Lookup(rows[i].cells, field) == StoredCell(doc, row, field);
    assert SetIn(rows[i].cells, field, Kept(value)) == rows[i].cells;
  }

  /** A refused mutation changes neither the document nor a loaded index, whatever it had written
      before it was refused. */
  lemma RefusedChangesNothing(st: State, m: Mutation, faults: Faults, keys: KeyFunction)
    requires Consistent(st) && Fresh(st.doc, m) && Apply(st, m, faults, keys).error.Some?
    ensures var r := Apply(st, m, faults, keys).state;
            r.doc == st.doc &&
            (Apply(st, m, faults, keys).error != Some(Storage) ==> r == st || r == Loaded(st))
  {
    if Write(st, m, faults.write, keys).error.Some? {
      FailedKeepsIndex(st, m, faults.write, keys);
    } else if Write(st, m, faults.write, keys).state.doc == st.doc {
      NoChangeKeepsIndex(st, m, keys);
    }
  }

  /** What happens to a loaded page between two reads. */
  datatype Event = Mutate(m: Mutation, faults: Faults) | Query | ClosePage

  function Step(st: State, e: Event, keys: KeyFunction): State {
    match e
    case Mutate(m, faults) => Apply(st, m, faults, keys).state
    case Query => if st.index.None? && st.doc.deleted then st else Loaded(st)
    case ClosePage => State(st.doc, None)
  }

  function Run(st: State, events: seq<Event>, keys: KeyFunction): State
    decreases |events|
  {
    if events == [] then st else Run(Step(st, events[0], keys), events[1..], keys)
  }

  /** Every identity is new when it is drawn. */
  predicate FreshRun(st: State, events: seq<Event>, keys: KeyFunction)
    decreases |events|
  {
    events != [] ==>
      (events[0].Mutate? ==> Fresh(st.doc, events[0].m)) && FreshRun(Step(st, events[0], keys), events[1..], keys)
  }

  lemma StepKeepsConsistency(st: State, e: Event, keys: KeyFunction)
    requires Consistent(st) && (e.Mutate? ==> Fresh(st.doc, e.m))
    ensures Consistent(Step(st, e, keys))
  {
    ReadAgrees(st.doc);
    if e.Mutate? {
      WriteKeepsAgreement(st, e.m, e.faults.write, keys);
      if Apply(st, e.m, e.faults, keys).error.Some? {
        RefusedChangesNothing(st, e.m, e.faults, keys);
      }
    }
  }

  lemma {:induction false} RunKeepsConsistency(st: State, events: seq<Event>, keys: KeyFunction)
    requires Consistent(st) && FreshRun(st, events, keys)
    ensures Consistent(Run(st, events, keys))
    decreases |events|
  {
    if events != [] {
      StepKeepsConsistency(st, events[0], keys);
      RunKeepsConsistency(Step(st, events[0], keys), events[1..], keys);
    }
  }

  /** A mutation does to the document, and answers, what it would if the index were read anew. */
  lemma StepRefinesRebuilding(st: State, e: Event, keys: KeyFunction)
    requires Consistent(st) && (e.Mutate? ==> Fresh(st.doc, e.m))
    ensures Step(st, e, keys).doc == Step(State(st.doc, None), e, keys).doc
    ensures e.Mutate? ==> Apply(st, e.m, e.faults, keys).error == Apply(State(st.doc, None), e.m, e.faults, keys).error
  {
    if e.Mutate? {
      WriteRefinesRebuilding(st, e.m, e.faults.write, keys);
    }
  }

  lemma WriteRefinesRebuilding(st: State, m: Mutation, fault: Option<nat>, keys: KeyFunction)
    requires Consistent(st)
    ensures Write(st, m, fault, keys).error == Write(State(st.doc, None), m, fault, keys).error
    ensures Write(st, m, fault, keys).state.doc == Write(State(st.doc, None), m, fault, keys).state.doc
  {
    if NeedsIndex(m) && !st.doc.deleted {
      ReadAgrees(st.doc);
      WriteIgnoresCells(Loaded(st), Loaded(State(st.doc, None)), m, keys);
    }
  }

  lemma WriteIgnoresCells(st: State, st': State, m: Mutation, keys: KeyFunction)
    requires NeedsIndex(m) && st.index.Some? && st'.index.Some? && st.doc == st'.doc
    requires KeysOf(st.index.value) == KeysOf(st'.index.value)
    ensures WriteRow(st, m, keys).error == WriteRow(st', m, keys).error
    ensures WriteRow(st, m, keys).state.doc == WriteRow(st', m, keys).state.doc
  {
  }

  /** A page that drops its index before every event. */
  function RebuildingRun(doc: Doc, events: seq<Event>, keys: KeyFunction): Doc
    decreases |events|
  {
    if events == [] then doc else RebuildingRun(Step(State(doc, None), events[0], keys).doc, events[1..], keys)
  }

  /** Keeping the index changes no document a run writes. */
  lemma {:induction false} RunRefinesRebuilding(st: State, events: seq<Event>, keys: KeyFunction)
    requires Consistent(st) && FreshRun(st, events, keys)
    ensures Run(st, events, keys).doc == RebuildingRun(st.doc, events, keys)
    decreases |events|
  {
    if events != [] {
      StepRefinesRebuilding(st, events[0], keys);
      StepKeepsConsistency(st, events[0], keys);
      RunRefinesRebuilding(Step(st, events[0], keys), events[1..], keys);
    }
  }
}
