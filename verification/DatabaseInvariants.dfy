/** What every run of mutations keeps of a Database's document, and where new objects land. */
module DatabaseInvariants {
  import opened Wrappers
  import opened Listing
  import opened DatabaseModel
  import opened DatabaseIndex
  import SortKey
  import Dates

  /** Keys that leave room between any two objects. */
  ghost predicate Roomy(all: set<Keyed>) {
    ValidKeys(Listed(all)) && DistinctKeys(Listed(all))
  }

  ghost predicate OptionsRoomy(doc: Doc) {
    forall field | field in doc.fields :: Roomy(LiveOptions(doc.fields[field]))
  }

  /** Cells of date fields hold days that exist. */
  ghost predicate DaysExist(doc: Doc) {
    forall row, field | row in doc.rows && field in doc.rows[row].cells && field in doc.fields ::
      doc.fields[field].kind == Some(Date) && doc.rows[row].cells[field].Str? ==>
        Dates.ValidDate(doc.rows[row].cells[field].text)
  }

  ghost predicate WellKept(doc: Doc) {
    Roomy(LiveRows(doc)) && Roomy(LiveFields(doc)) && OptionsRoomy(doc) && DaysExist(doc)
  }

  /** A new Database Block, with its one field. */
  function NewDoc(name: Id, keys: KeyFunction): Doc {
    PutField(Doc(false, map[], map[]), name, Text, keys(None, None))
  }

  lemma {:induction false} NoneListed()
    ensures Roomy({})
  {
  }

  lemma PutFieldListing(doc: Doc, field: Id, kind: FieldKind, sort: string)
    requires field !in doc.fields
    ensures LiveFields(PutField(doc, field, kind, sort)) == LiveFields(doc) + {Keyed(sort, field)}
  {
    var doc' := PutField(doc, field, kind, sort);
    forall x ensures x in LiveFields(doc') <==> x in LiveFields(doc) + {Keyed(sort, field)} {
      assert x in LiveFields(doc') <==> x.id in doc'.fields && !doc'.fields[x.id].deleted && doc'.fields[x.id].sort == x.sort;
      assert x in LiveFields(doc) <==> x.id in doc.fields && !doc.fields[x.id].deleted && doc.fields[x.id].sort == x.sort;
    }
  }

  lemma DropFieldListing(doc: Doc, field: Id)
    requires field in doc.fields && !doc.fields[field].deleted
    ensures LiveFields(DropField(doc, field)) == LiveFields(doc) - {Keyed(doc.fields[field].sort, field)}
  {
    var doc' := DropField(doc, field);
    forall x ensures x in LiveFields(doc') <==> x in LiveFields(doc) - {Keyed(doc.fields[field].sort, field)} {
      assert x in LiveFields(doc') <==> x.id in doc'.fields && !doc'.fields[x.id].deleted && doc'.fields[x.id].sort == x.sort;
      assert x in LiveFields(doc) <==> x.id in doc.fields && !doc.fields[x.id].deleted && doc.fields[x.id].sort == x.sort;
    }
  }

  lemma PutOptionListing(doc: Doc, field: Id, option: Id, sort: string)
    requires field in doc.fields && option !in doc.fields[field].options
    ensures var doc' := PutOption(doc, field, option, sort);
            LiveOptions(doc'.fields[field]) == LiveOptions(doc.fields[field]) + {Keyed(sort, option)} &&
            LiveFields(doc') == LiveFields(doc)
  {
    var doc' := PutOption(doc, field, option, sort);
    var was, now := doc.fields[field], doc'.fields[field];
    forall x ensures x in LiveOptions(now) <==> x in LiveOptions(was) + {Keyed(sort, option)} {
      assert x in LiveOptions(now) <==> x.id in now.options && !now.options[x.id].deleted && now.options[x.id].sort == x.sort;
      assert x in LiveOptions(was) <==> x.id in was.options && !was.options[x.id].deleted && was.options[x.id].sort == x.sort;
    }
    forall x ensures x in LiveFields(doc') <==> x in LiveFields(doc) {
      assert x in LiveFields(doc') <==> x.id in doc'.fields && !doc'.fields[x.id].deleted && doc'.fields[x.id].sort == x.sort;
      assert x in LiveFields(doc) <==> x.id in doc.fields && !doc.fields[x.id].deleted && doc.fields[x.id].sort == x.sort;
    }
  }

  /** An object placed among roomy siblings stands exactly there and leaves room again. */
  lemma PlacedKeepsRoom(all: set<Keyed>, place: Place, id: Id, keys: KeyFunction)
    requires Suitable(keys) && Roomy(all) && PlaceKey(Listed(all), place, keys).Some?
    ensures var x, i := Keyed(PlaceKey(Listed(all), place, keys).value, id), PlaceIndex(Listed(all), place).value;
            Listed(all + {x}) == InsertAt(Listed(all), i, x) && Roomy(all + {x})
  {
    ListedHolds(all);
    PlacedAmongDistinct(Listed(all), place, id, keys);
  }

  lemma RemovedKeepsRoom(all: set<Keyed>, x: Keyed)
    requires Roomy(all) && x in all
    ensures Roomy(all - {x})
  {
    ListedHolds(all);
    assert x in Elements(Listed(all));
    var i :| 0 <= i < |Listed(all)| && Listed(all)[i] == x;
    RemoveListed(Listed(all), i);
    DistinctAfterRemove(Listed(all), i);
  }

  lemma DaysAfterCell(doc: Doc, row: Id, field: Id, value: Cell)
    requires DaysExist(doc) && IsLiveRow(doc, row) && IsShown(doc, field) && Encode(doc.fields[field], value).Ok?
    ensures DaysExist(PutCell(doc, row, field, Encode(doc.fields[field], value).value))
  {
    var doc' := PutCell(doc, row, field, Encode(doc.fields[field], value).value);
    forall r, f | r in doc'.rows && f in doc'.rows[r].cells && f in doc'.fields
      ensures doc'.fields[f].kind == Some(Date) && doc'.rows[r].cells[f].Str? ==>
                Dates.ValidDate(doc'.rows[r].cells[f].text)
    {
      if r != row || f != field {
        assert r in doc.rows && f in doc.rows[r].cells && doc.rows[r].cells[f] == doc'.rows[r].cells[f];
      }
    }
  }

  lemma DaysAfterOther(doc: Doc, doc': Doc)
    requires DaysExist(doc)
    requires forall row | row in doc'.rows ::
               if row in doc.rows then doc'.rows[row].cells == doc.rows[row].cells else doc'.rows[row].cells == map[]
    requires forall field | field in doc'.fields ::
               if field in doc.fields then doc'.fields[field].kind == doc.fields[field].kind
               else forall row | row in doc.rows :: field !in doc.rows[row].cells
    ensures DaysExist(doc')
  {
    forall r, f | r in doc'.rows && f in doc'.rows[r].cells && f in doc'.fields
      ensures doc'.fields[f].kind == Some(Date) && doc'.rows[r].cells[f].Str? ==>
                Dates.ValidDate(doc'.rows[r].cells[f].text)
    {
      assert r in doc.rows && f in doc.rows[r].cells;
    }
  }

  lemma RowAdded(doc: Doc, place: Place, id: Id, keys: KeyFunction)
    requires Suitable(keys) && WellKept(doc) && id !in doc.rows && PlaceKey(RowOrder(doc), place, keys).Some?
    ensures WellKept(PutRow(doc, id, PlaceKey(RowOrder(doc), place, keys).value))
  {
    var doc' := PutRow(doc, id, PlaceKey(RowOrder(doc), place, keys).value);
    assert Roomy(LiveRows(doc')) by {
      PutRowListing(doc, id, PlaceKey(RowOrder(doc), place, keys).value);
      PlacedKeepsRoom(LiveRows(doc), place, id, keys);
    }
    DaysAfterOther(doc, doc');
    assert LiveFields(doc') == LiveFields(doc);
  }

  lemma RowDropped(doc: Doc, row: Id)
    requires WellKept(doc) && IsLiveRow(doc, row)
    ensures WellKept(DropRow(doc, row))
  {
    DropRowListing(doc, row);
    assert Keyed(doc.rows[row].sort, row) in LiveRows(doc);
    RemovedKeepsRoom(LiveRows(doc), Keyed(doc.rows[row].sort, row));
    DaysAfterOther(doc, DropRow(doc, row));
    assert LiveFields(DropRow(doc, row)) == LiveFields(doc);
  }

  lemma RowsRoomy(doc: Doc, m: Mutation, keys: KeyFunction)
    requires Suitable(keys) && WellKept(doc) && Fresh(doc, m) && NeedsIndex(m)
    ensures var a := WriteRow(Loaded(State(doc, None)), m, keys); a.error.None? ==> WellKept(a.state.doc)
  {
    if WriteRow(Loaded(State(doc, None)), m, keys).error.None? {
      ReadAgrees(doc);
      match m {
        case AddRow(place, id) => RowAdded(doc, place, id, keys);
        case RemoveRow(row) => RowDropped(doc, row);
        case SetCell(row, field, value) =>
          var encoded := Encode(doc.fields[field], value).value;
          PutCellListing(doc, row, field, encoded);
          DaysAfterCell(doc, row, field, value);
          assert LiveFields(PutCell(doc, row, field, encoded)) == LiveFields(doc);
      }
    }
  }

  lemma FieldAdded(doc: Doc, place: Place, id: Id, kind: FieldKind, keys: KeyFunction)
    requires Suitable(keys) && WellKept(doc) && Fresh(doc, AddField(place, id, kind))
    requires PlaceKey(Listed(LiveFields(doc)), place, keys).Some?
    ensures WellKept(PutField(doc, id, kind, PlaceKey(Listed(LiveFields(doc)), place, keys).value))
  {
    var sort := PlaceKey(Listed(LiveFields(doc)), place, keys).value;
    var doc' := PutField(doc, id, kind, sort);
    assert Roomy(LiveFields(doc')) by {
      PutFieldListing(doc, id, kind, sort);
      PlacedKeepsRoom(LiveFields(doc), place, id, keys);
    }
    PutFieldKeepsRest(doc, id, kind, sort);
    DaysAfterOther(doc, doc');
  }

  lemma PutFieldKeepsRest(doc: Doc, id: Id, kind: FieldKind, sort: string)
    requires OptionsRoomy(doc)
    ensures var doc' := PutField(doc, id, kind, sort); OptionsRoomy(doc') && LiveRows(doc') == LiveRows(doc)
  {
    var doc' := PutField(doc, id, kind, sort);
    NoneListed();
    assert LiveOptions(doc'.fields[id]) == {};
    assert LiveRows(doc') == LiveRows(doc);
  }

  lemma FieldDropped(doc: Doc, field: Id)
    requires WellKept(doc) && IsShown(doc, field)
    ensures WellKept(DropField(doc, field))
  {
    var doc' := DropField(doc, field);
    DropFieldListing(doc, field);
    assert Keyed(doc.fields[field].sort, field) in LiveFields(doc);
    RemovedKeepsRoom(LiveFields(doc), Keyed(doc.fields[field].sort, field));
    assert LiveOptions(doc'.fields[field]) == LiveOptions(doc.fields[field]);
    DaysAfterOther(doc, doc');
    assert LiveRows(doc') == LiveRows(doc);
  }

  lemma OptionAdded(doc: Doc, field: Id, id: Id, keys: KeyFunction)
    requires Suitable(keys) && WellKept(doc) && IsShown(doc, field) && Fresh(doc, AddOption(field, id))
    ensures WellKept(PutOption(doc, field, id, PlaceKey(Listed(LiveOptions(doc.fields[field])), Last, keys).value))
  {
    var options := LiveOptions(doc.fields[field]);
    var doc' := PutOption(doc, field, id, PlaceKey(Listed(options), Last, keys).value);
    PutOptionListing(doc, field, id, PlaceKey(Listed(options), Last, keys).value);
    PlacedKeepsRoom(options, Last, id, keys);
    DaysAfterOther(doc, doc');
    assert LiveRows(doc') == LiveRows(doc);
  }

  lemma FieldsRoomy(doc: Doc, m: Mutation, keys: KeyFunction)
    requires Suitable(keys) && WellKept(doc) && Fresh(doc, m) && !NeedsIndex(m)
    ensures var a := WriteDoc(State(doc, None), m, keys); a.error.None? ==> WellKept(a.state.doc)
  {
    if WriteDoc(State(doc, None), m, keys).error.None? {
      match m {
        case AddField(place, id, kind) => FieldAdded(doc, place, id, kind, keys);
        case RemoveField(field) => FieldDropped(doc, field);
        case AddOption(field, id) => OptionAdded(doc, field, id, keys);
        case RemoveBlock =>
          var doc' := doc.(deleted := true);
          assert LiveRows(doc') == LiveRows(doc) && LiveFields(doc') == LiveFields(doc);
          DaysAfterOther(doc, doc');
      }
    }
  }

  lemma StepKeepsWellKept(doc: Doc, e: Event, keys: KeyFunction)
    requires Suitable(keys) && WellKept(doc) && (e.Mutate? ==> Fresh(doc, e.m))
    ensures WellKept(Step(State(doc, None), e, keys).doc)
  {
    if e.Mutate? {
      var a := Write(State(doc, None), e.m, e.faults.write, keys);
      if a.error.None? {
        if NeedsIndex(e.m) {
          RowsRoomy(doc, e.m, keys);
        } else {
          FieldsRoomy(doc, e.m, keys);
        }
      }
    }
  }

  /** Every run keeps live sort keys valid and strictly increasing, and days that exist. */
  lemma {:induction false} RunKeepsWellKept(st: State, events: seq<Event>, keys: KeyFunction)
    requires Suitable(keys) && WellKept(st.doc) && Consistent(st) && FreshRun(st, events, keys)
    ensures WellKept(Run(st, events, keys).doc)
    decreases |events|
  {
    if events != [] {
      StepRefinesRebuilding(st, events[0], keys);
      StepKeepsWellKept(st.doc, events[0], keys);
      StepKeepsConsistency(st, events[0], keys);
      RunKeepsWellKept(Step(st, events[0], keys), events[1..], keys);
    }
  }

  lemma NewDocIsWellKept(name: Id, keys: KeyFunction)
    requires Suitable(keys)
    ensures WellKept(NewDoc(name, keys))
  {
    var blank, doc := Doc(false, map[], map[]), NewDoc(name, keys);
    assert LiveRows(doc) == {} && LiveFields(blank) == {};
    NoneListed();
    PutFieldListing(blank, name, Text, keys(None, None));
    PlacedKeepsRoom({}, First, name, keys);
    assert LiveOptions(doc.fields[name]) == {};
  }

  /** A row added to a well-kept document stands exactly where it was placed; the other rows keep
      their order. */
  lemma RowLandsAtItsPlace(st: State, place: Place, id: Id, faults: Faults, keys: KeyFunction)
    requires Suitable(keys) && WellKept(st.doc) && Consistent(st) && id !in st.doc.rows
    ensures var a := Apply(st, AddRow(place, id), faults, keys);
            a.error.None? ==>
              var order, i := RowOrder(st.doc), PlaceIndex(RowOrder(st.doc), place);
              i.Some? && IsLiveRow(a.state.doc, id) &&
              RowOrder(a.state.doc) == InsertAt(order, i.value, Keyed(a.state.doc.rows[id].sort, id)) &&
              StandsAs(RowOrder(a.state.doc), place, Keyed(a.state.doc.rows[id].sort, id))
  {
    if Apply(st, AddRow(place, id), faults, keys).error.None? {
      RowPut(st, place, id, faults, keys);
      PutRowListing(st.doc, id, PlaceKey(RowOrder(st.doc), place, keys).value);
      PlacedKeepsRoom(LiveRows(st.doc), place, id, keys);
      InsertedWhere(RowOrder(st.doc), place, Keyed(PlaceKey(RowOrder(st.doc), place, keys).value, id));
    }
  }

  lemma RowPut(st: State, place: Place, id: Id, faults: Faults, keys: KeyFunction)
    requires Consistent(st) && Apply(st, AddRow(place, id), faults, keys).error.None?
    ensures PlaceKey(RowOrder(st.doc), place, keys).Some?
    ensures Apply(st, AddRow(place, id), faults, keys).state.doc
            == PutRow(st.doc, id, PlaceKey(RowOrder(st.doc), place, keys).value)
  {
    ReadAgrees(st.doc);
  }

  /** So does a field. */
  lemma FieldLandsAtItsPlace(st: State, place: Place, id: Id, kind: FieldKind, faults: Faults, keys: KeyFunction)
    requires Suitable(keys) && WellKept(st.doc) && Fresh(st.doc, AddField(place, id, kind))
    ensures var a := Apply(st, AddField(place, id, kind), faults, keys);
            a.error.None? ==>
              var order, i := Listed(LiveFields(st.doc)), PlaceIndex(Listed(LiveFields(st.doc)), place);
              i.Some? && IsShown(a.state.doc, id) && a.state.doc.fields[id].kind == Some(kind) &&
              Listed(LiveFields(a.state.doc)) == InsertAt(order, i.value, Keyed(a.state.doc.fields[id].sort, id)) &&
              StandsAs(Listed(LiveFields(a.state.doc)), place, Keyed(a.state.doc.fields[id].sort, id))
  {
    if Apply(st, AddField(place, id, kind), faults, keys).error.None? {
      FieldPut(st, place, id, kind, faults, keys);
      PutFieldListing(st.doc, id, kind, PlaceKey(Listed(LiveFields(st.doc)), place, keys).value);
      PlacedKeepsRoom(LiveFields(st.doc), place, id, keys);
      InsertedWhere(Listed(LiveFields(st.doc)), place, Keyed(PlaceKey(Listed(LiveFields(st.doc)), place, keys).value, id));
    }
  }

  lemma FieldPut(st: State, place: Place, id: Id, kind: FieldKind, faults: Faults, keys: KeyFunction)
    requires Apply(st, AddField(place, id, kind), faults, keys).error.None?
    ensures PlaceKey(Listed(LiveFields(st.doc)), place, keys).Some?
    ensures Apply(st, AddField(place, id, kind), faults, keys).state.doc
            == PutField(st.doc, id, kind, PlaceKey(Listed(LiveFields(st.doc)), place, keys).value)
  {
  }

  /** An option joins its field's others at their end. */
  lemma OptionLandsLast(st: State, field: Id, id: Id, faults: Faults, keys: KeyFunction)
    requires Suitable(keys) && WellKept(st.doc) && Fresh(st.doc, AddOption(field, id))
    ensures var a := Apply(st, AddOption(field, id), faults, keys);
            a.error.None? ==>
              IsShown(st.doc, field) && field in a.state.doc.fields && id in a.state.doc.fields[field].options &&
              Listed(LiveOptions(a.state.doc.fields[field])) ==
              Listed(LiveOptions(st.doc.fields[field])) + [Keyed(a.state.doc.fields[field].options[id].sort, id)]
  {
    if Apply(st, AddOption(field, id), faults, keys).error.None? {
      OptionPut(st, field, id, faults, keys);
      OptionJoins(st.doc, field, id, keys);
    }
  }

  lemma OptionJoins(doc: Doc, field: Id, id: Id, keys: KeyFunction)
    requires Suitable(keys) && field in doc.fields && Roomy(LiveOptions(doc.fields[field])) && id !in doc.fields[field].options
    ensures var options := Listed(LiveOptions(doc.fields[field]));
            var sort := PlaceKey(options, Last, keys).value;
            Listed(LiveOptions(PutOption(doc, field, id, sort).fields[field])) == options + [Keyed(sort, id)]
  {
    var all := LiveOptions(doc.fields[field]);
    var sort := PlaceKey(Listed(all), Last, keys).value;
    PutOptionListing(doc, field, id, sort);
    PlacedKeepsRoom(all, Last, id, keys);
    assert InsertAt(Listed(all), |Listed(all)|, Keyed(sort, id)) == Listed(all) + [Keyed(sort, id)];
  }

  lemma OptionPut(st: State, field: Id, id: Id, faults: Faults, keys: KeyFunction)
    requires Apply(st, AddOption(field, id), faults, keys).error.None?
    ensures IsShown(st.doc, field)
    ensures Apply(st, AddOption(field, id), faults, keys).state.doc
            == PutOption(st.doc, field, id, PlaceKey(Listed(LiveOptions(st.doc.fields[field])), Last, keys).value)
  {
  }

  /** A new Database, after any run of mutations, with the keys in use. */
  lemma NewDatabaseStaysWellKept(name: Id, events: seq<Event>)
    requires FreshRun(State(NewDoc(name, SortKey.Between), None), events, SortKey.Between)
    ensures WellKept(Run(State(NewDoc(name, SortKey.Between), None), events, SortKey.Between).doc)
  {
    BetweenIsSuitable();
    NewDocIsWellKept(name, SortKey.Between);
    RunKeepsWellKept(State(NewDoc(name, SortKey.Between), None), events, SortKey.Between);
  }
}
