/** Which mutations of a Database are accepted, what each other one is refused with, and what an
    accepted one leaves, all in terms of the document alone. */
module DatabaseOutcomes {
  import opened Wrappers
  import opened Listing
  import opened DatabaseModel
  import opened DatabaseIndex
  import DatabaseInvariants
  import Dates

  // ----- what is refused -----

  /** A day of the calendar, written out. */
  ghost predicate NamesDay(date: string) {
    exists year, month, day ::
      year < 10000 && Dates.RealDay(year, month, day) && date == Dates.Format(year, month, day)
  }

  /** A cell of the kind can hold the value; every cell can be empty. */
  ghost predicate Holds(kind: FieldKind, value: Cell) {
    value.Empty? ||
    match kind
    case Text => value.TextCell?
    case Number => value.NumberCell? && (value.number.Finite? || value.number.NegativeZero?)
    case Select => value.SelectCell?
    case Date => value.DateCell? && NamesDay(value.date)
    case Checkbox => value.CheckboxCell?
  }

  ghost predicate Among(all: set<Keyed>, id: Id) {
    exists x :: x in all && x.id == id
  }

  /** The place names no sibling, or one of these. */
  ghost predicate Names(place: Place, all: set<Keyed>) {
    place.After? ==> Among(all, place.sibling)
  }

  /** What a mutation is refused with, if it is. */
  ghost function Refusal(doc: Doc, m: Mutation): Option<Error> {
    if doc.deleted then Some(NotFound)
    else match m
      case AddRow(place, _) => if Names(place, LiveRows(doc)) then None else Some(NotFound)
      case RemoveRow(row) => if Among(LiveRows(doc), row) then None else Some(NotFound)
      case SetCell(row, field, value) =>
        if !Among(LiveRows(doc), row) || !IsShown(doc, field) then Some(NotFound)
        else if !Holds(doc.fields[field].kind.value, value) then Some(WrongKind)
        else if value.SelectCell? && !Among(LiveOptions(doc.fields[field]), value.option) then Some(NotFound)
        else None
      case AddField(place, _, _) =>
        if |LiveFields(doc)| >= 500 then Some(TooMany)
        else if Names(place, LiveFields(doc)) then None else Some(NotFound)
      case RemoveField(field) => if IsShown(doc, field) then None else Some(NotFound)
      case AddOption(field, _) =>
        if !IsShown(doc, field) then Some(NotFound)
        else if doc.fields[field].kind != Some(Select) then Some(WrongKind)
        else if |LiveOptions(doc.fields[field])| >= 500 then Some(TooMany) else None
      case RemoveBlock => None
  }

  /** The cell holds the value already. */
  predicate HoldsAlready(doc: Doc, m: Mutation) {
    m.SetCell? && m.cellRow in doc.rows &&
    if m.value.Empty? then m.field !in doc.rows[m.cellRow].cells
    else StoredCell(doc, m.cellRow, m.field) == Some(ReadBack(m.value))
  }

  /** The value as it is read back: zero has no sign. */
  function ReadBack(value: Cell): Cell {
    if value == NumberCell(NegativeZero) then NumberCell(Finite(0.0)) else value
  }

  lemma LiveIsAmong(doc: Doc, row: Id)
    ensures IsLiveRow(doc, row) <==> Among(LiveRows(doc), row)
  {
    if IsLiveRow(doc, row) {
      assert Keyed(doc.rows[row].sort, row) in LiveRows(doc);
    }
  }

  lemma OptionIsAmong(field: FieldEntry, option: Id)
    ensures option in field.options && !field.options[option].deleted <==> Among(LiveOptions(field), option)
  {
    if option in field.options && !field.options[option].deleted {
      assert Keyed(field.options[option].sort, option) in LiveOptions(field);
    }
  }

  lemma PlaceIsKnown(all: set<Keyed>, place: Place, keys: KeyFunction)
    ensures PlaceKey(Listed(all), place, keys).Some? <==> Names(place, all)
    ensures |Listed(all)| == |all|
  {
    var s := Listed(all);
    ListedHolds(all);
    if place.After? {
      var i := Position(s, place.sibling);
      if i < |s| {
        assert s[i] in Elements(s);
      }
      if Among(all, place.sibling) {
        var x :| x in all && x.id == place.sibling;
        assert x in Elements(s);
      }
    }
  }

  lemma HeldIsEncoded(field: FieldEntry, value: Cell)
    requires field.kind.Some?
    ensures match Encode(field, value)
            case Ok(_) => Holds(field.kind.value, value) && (value.SelectCell? ==> Among(LiveOptions(field), value.option))
            case Err(e) =>
              e == if Holds(field.kind.value, value) && !(value.SelectCell? && Among(LiveOptions(field), value.option))
                   then NotFound else WrongKind
  {
    if value.DateCell? { Dates.ValidDatesAreDays(value.date); }
    if value.SelectCell? { OptionIsAmong(field, value.option); }
  }

  lemma RowRefusal(st: State, m: Mutation, keys: KeyFunction)
    requires Consistent(st) && NeedsIndex(m)
    ensures Complete(st, m, keys).error == Refusal(st.doc, m)
  {
    var doc := st.doc;
    ReadAgrees(doc);
    match m {
      case AddRow(place, _) => PlaceIsKnown(LiveRows(doc), place, keys);
      case RemoveRow(row) => LiveIsAmong(doc, row);
      case SetCell(row, field, value) =>
        LiveIsAmong(doc, row);
        if IsShown(doc, field) { HeldIsEncoded(doc.fields[field], value); }
    }
  }

  lemma FieldRefusal(st: State, m: Mutation, keys: KeyFunction)
    requires !NeedsIndex(m)
    ensures Complete(st, m, keys).error == Refusal(st.doc, m)
  {
    match m {
      case AddField(place, _, _) => PlaceIsKnown(LiveFields(st.doc), place, keys);
      case AddOption(field, _) =>
        if IsShown(st.doc, field) { PlaceIsKnown(LiveOptions(st.doc.fields[field]), Last, keys); }
      case _ =>
    }
  }

  lemma UnchangedIsHeld(doc: Doc, row: Id, field: Id, value: Cell)
    requires IsLiveRow(doc, row) && IsShown(doc, field) && Encode(doc.fields[field], value).Ok?
    ensures PutCell(doc, row, field, Encode(doc.fields[field], value).value) == doc
            <==> HoldsAlready(doc, SetCell(row, field, value))
  {
    var encoded := Encode(doc.fields[field], value).value;
    var doc' := PutCell(doc, row, field, encoded);
    EncodeDecode(doc.fields[field], value);
    assert doc' == doc <==> doc'.rows[row].cells == doc.rows[row].cells by {
      if doc'.rows[row].cells == doc.rows[row].cells {
        assert doc'.rows[row] == doc.rows[row];
        assert doc'.rows == doc.rows;
      }
    }
    if value.Empty? {
      assert field !in doc'.rows[row].cells;
      if field !in doc.rows[row].cells { assert doc'.rows[row].cells == doc.rows[row].cells; }
    } else {
      assert doc'.rows[row].cells[field] == encoded.value;
      if HoldsAlready(doc, SetCell(row, field, value)) {
        assert doc.rows[row].cells[field] == encoded.value;
        assert doc'.rows[row].cells == doc.rows[row].cells;
      }
    }
  }

  /** A mutation is refused exactly as the document alone says; a failing write, a value that is there
      already and a failing store come after that, in this order, and otherwise it is accepted. */
  lemma Outcome(st: State, m: Mutation, faults: Faults, keys: KeyFunction)
    requires Consistent(st) && Fresh(st.doc, m)
    ensures Apply(st, m, faults, keys).error ==
            if Refusal(st.doc, m).Some? then Refusal(st.doc, m)
            else if faults.write.Some? && faults.write.value < Writes(st.doc, m) then Some(Document)
            else if HoldsAlready(st.doc, m) then Some(NoChange)
            else if faults.store then Some(Storage)
            else None
  {
    if NeedsIndex(m) { RowRefusal(st, m, keys); } else { FieldRefusal(st, m, keys); }
    var a := Complete(st, m, keys);
    if a.error.None? {
      if m.SetCell? {
        UnchangedIsHeld(st.doc, m.cellRow, m.field, m.value);
      } else {
        OthersChange(st, m, keys);
      }
    }
  }

  // ----- what is left -----

  /** Every cell but these reads as before. */
  ghost predicate CellsStay(doc: Doc, doc': Doc, row: Option<Id>, field: Option<Id>) {
    forall r, f | !((row.Some? ==> r == row.value) && (field.Some? ==> f == field.value)) ::
      StoredCell(doc', r, f) == StoredCell(doc, r, f)
  }

  /** An accepted value is read back from its cell, and from no other; nothing else changes. */
  lemma CellIsSet(st: State, row: Id, field: Id, value: Cell, faults: Faults, keys: KeyFunction)
    requires Apply(st, SetCell(row, field, value), faults, keys).error in {None, Some(NoChange)}
    ensures var doc' := Apply(st, SetCell(row, field, value), faults, keys).state.doc;
            && StoredCell(doc', row, field) == (if value.Empty? then None else Some(ReadBack(value)))
            && CellsStay(st.doc, doc', Some(row), Some(field))
            && doc'.fields == st.doc.fields && LiveRows(doc') == LiveRows(st.doc) && !doc'.deleted
  {
    var doc, doc' := st.doc, Apply(st, SetCell(row, field, value), faults, keys).state.doc;
    var encoded := Encode(doc.fields[field], value).value;
    assert doc' == PutCell(doc, row, field, encoded);
    EncodeDecode(doc.fields[field], value);
    PutCellListing(doc, row, field, encoded);
  }

  /** A new row stands where it was placed among the others, and has no cells. */
  lemma RowIsAdded(st: State, place: Place, id: Id, faults: Faults, keys: KeyFunction)
    requires Consistent(st) && id !in st.doc.rows && Apply(st, AddRow(place, id), faults, keys).error.None?
    ensures var doc' := Apply(st, AddRow(place, id), faults, keys).state.doc;
            && id in doc'.rows && LiveRows(doc') == LiveRows(st.doc) + {Keyed(doc'.rows[id].sort, id)}
            && (forall f :: StoredCell(doc', id, f).None?) && CellsStay(st.doc, doc', Some(id), None)
            && doc'.fields == st.doc.fields && !doc'.deleted
  {
    DatabaseInvariants.RowPut(st, place, id, faults, keys);
    PutRowListing(st.doc, id, PlaceKey(RowOrder(st.doc), place, keys).value);
  }

  /** A removed row is gone from the live ones; the others keep their keys and cells. */
  lemma RowIsRemoved(st: State, row: Id, faults: Faults, keys: KeyFunction)
    requires Apply(st, RemoveRow(row), faults, keys).error.None?
    ensures var doc' := Apply(st, RemoveRow(row), faults, keys).state.doc;
            && !Among(LiveRows(doc'), row)
            && (forall x: Keyed | x.id != row :: x in LiveRows(doc') <==> x in LiveRows(st.doc))
            && CellsStay(st.doc, doc', Some(row), None) && doc'.fields == st.doc.fields && !doc'.deleted
  {
    var doc' := Apply(st, RemoveRow(row), faults, keys).state.doc;
    assert doc' == DropRow(st.doc, row);
    DropRowListing(st.doc, row);
    LiveIsAmong(doc', row);
  }

  /** A new field has the kind asked for, no options and no cells. */
  lemma FieldIsAdded(st: State, place: Place, id: Id, kind: FieldKind, faults: Faults, keys: KeyFunction)
    requires Fresh(st.doc, AddField(place, id, kind)) && Apply(st, AddField(place, id, kind), faults, keys).error.None?
    ensures var doc' := Apply(st, AddField(place, id, kind), faults, keys).state.doc;
            && IsShown(doc', id) && doc'.fields[id].kind == Some(kind) && doc'.fields[id].options == map[]
            && doc'.fields - {id} == st.doc.fields && LiveFields(doc') == LiveFields(st.doc) + {Keyed(doc'.fields[id].sort, id)}
            && (forall r :: StoredCell(doc', r, id).None?) && CellsStay(st.doc, doc', None, Some(id))
            && doc'.rows == st.doc.rows && !doc'.deleted
  {
    var sort := PlaceKey(Listed(LiveFields(st.doc)), place, keys).value;
    var doc' := Apply(st, AddField(place, id, kind), faults, keys).state.doc;
    DatabaseInvariants.FieldPut(st, place, id, kind, faults, keys);
    DatabaseInvariants.PutFieldListing(st.doc, id, kind, sort);
    assert doc'.fields - {id} == st.doc.fields;
  }

  /** A removed field shows no cells; all other fields and cells stay. */
  lemma FieldIsRemoved(st: State, field: Id, faults: Faults, keys: KeyFunction)
    requires Apply(st, RemoveField(field), faults, keys).error.None?
    ensures var doc' := Apply(st, RemoveField(field), faults, keys).state.doc;
            && !Among(LiveFields(doc'), field)
            && (forall x: Keyed | x.id != field :: x in LiveFields(doc') <==> x in LiveFields(st.doc))
            && (forall f | f != field && f in st.doc.fields :: f in doc'.fields && doc'.fields[f] == st.doc.fields[f])
            && (forall r :: StoredCell(doc', r, field).None?) && CellsStay(st.doc, doc', None, Some(field))
            && doc'.rows == st.doc.rows && !doc'.deleted
  {
    var doc' := Apply(st, RemoveField(field), faults, keys).state.doc;
    assert doc' == DropField(st.doc, field);
    DatabaseInvariants.DropFieldListing(st.doc, field);
  }

  /** A new option joins the live ones of its field; all cells, kinds and other options stay. */
  lemma OptionIsAdded(st: State, field: Id, id: Id, faults: Faults, keys: KeyFunction)
    requires Fresh(st.doc, AddOption(field, id)) && Apply(st, AddOption(field, id), faults, keys).error.None?
    ensures var doc' := Apply(st, AddOption(field, id), faults, keys).state.doc;
            && IsShown(st.doc, field) && field in doc'.fields && id in doc'.fields[field].options
            && LiveOptions(doc'.fields[field])
               == LiveOptions(st.doc.fields[field]) + {Keyed(doc'.fields[field].options[id].sort, id)}
            && doc' == st.doc.(fields := st.doc.fields[field := st.doc.fields[field].(options := doc'.fields[field].options)])
            && (forall r, f :: StoredCell(doc', r, f) == StoredCell(st.doc, r, f))
  {
    var sort := PlaceKey(Listed(LiveOptions(st.doc.fields[field])), Last, keys).value;
    DatabaseInvariants.OptionPut(st, field, id, faults, keys);
    DatabaseInvariants.PutOptionListing(st.doc, field, id, sort);
  }

  /** After a Block was removed, every mutation of it is refused. */
  lemma BlockIsRemoved(st: State, faults: Faults, keys: KeyFunction, m: Mutation, again: Faults)
    requires Consistent(st) && Apply(st, RemoveBlock, faults, keys).error.None?
    ensures var st' := Apply(st, RemoveBlock, faults, keys).state;
            && st'.doc == st.doc.(deleted := true)
            && Apply(st', m, again, keys).error == Some(NotFound) && Apply(st', m, again, keys).state.doc == st'.doc
  {
  }
}
