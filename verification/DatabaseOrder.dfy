/** The order of sorted rows, in terms of the document alone. */
module DatabaseOrder {
  import opened Wrappers
  import opened Order
  import opened Listing
  import opened DatabaseModel
  import opened DatabaseIndex
  import opened DatabaseWindow
  import opened DatabaseSorting
  import Dates

  // ----- the order of values -----

  /** Below all numbers, a number, above them, or none, which comes last. */
  function Tier(f: Float): int {
    match f
    case NegativeInfinity => -1
    case Finite(_) => 0
    case NegativeZero => 0
    case PositiveInfinity => 1
    case NotANumber => 2
  }

  function Amount(f: Float): real {
    if f.Finite? then f.value else 0.0
  }

  /** By value; of the two zeros, the one below zero comes first. */
  predicate NumberAtMost(a: Float, b: Float) {
    || Tier(a) < Tier(b)
    || (Tier(a) == Tier(b) && (Amount(a) < Amount(b) || (Amount(a) == Amount(b) && (a.NegativeZero? || !b.NegativeZero?))))
  }

  predicate SameNumber(a: Float, b: Float) {
    !a.NotANumber? && Tier(a) == Tier(b) && Amount(a) == Amount(b)
  }

  predicate IsLiveOption(doc: Doc, field: Id, option: Id) {
    field in doc.fields && option in doc.fields[field].options && !doc.fields[field].options[option].deleted
  }

  /** No other select field has a live option with this identity. */
  ghost predicate Own(doc: Doc, field: Id, option: Id) {
    forall g | g != field && IsShown(doc, g) && doc.fields[g].kind == Some(Select) :: !IsLiveOption(doc, g, option)
  }

  /** By place among the field's live options; one that is gone comes before them all. */
  predicate OptionAtMost(options: seq<Keyed>, x: Id, y: Id) {
    || Position(options, x) == |options|
    || Position(options, x) <= Position(options, y) < |options|
  }

  /** Days in time; what is no day, as text. */
  predicate DateAtMost(x: string, y: string) {
    if Dates.ValidDate(x) && Dates.ValidDate(y) then Dates.DayOf(x) <= Dates.DayOf(y) else Leq(x, y)
  }

  /** The first value is at most the second: lower-cased texts as texts, numbers on the line, dates as days, boxes by
      whether they are ticked, options by place. */
  ghost predicate ValueAtMost(doc: Doc, field: Id, a: Cell, b: Cell, lower: string -> string)
    requires field in doc.fields
  {
    match (a, b)
    case (TextCell(x), TextCell(y)) => Leq(lower(x), lower(y))
    case (NumberCell(x), NumberCell(y)) => NumberAtMost(x, y)
    case (DateCell(x), DateCell(y)) => DateAtMost(x, y)
    case (CheckboxCell(x), CheckboxCell(y)) => x ==> y
    case (SelectCell(x), SelectCell(y)) => OptionAtMost(Listed(LiveOptions(doc.fields[field])), x, y)
    case _ => false
  }

  // ----- places of options -----

  lemma {:induction false} PlaceInBoth(s: seq<Id>, t: seq<Id>, x: Id)
    ensures PlaceOf(s + t, x)
            == if PlaceOf(t, x).Some? then Some(|s| + PlaceOf(t, x).value) else PlaceOf(s, x)
    decreases |t|
  {
    if t == [] {
      assert s + t == s;
    } else {
      var init := t[..|t| - 1];
      assert (s + t)[..|s + t| - 1] == s + init;
      PlaceInBoth(s, init, x);
    }
  }

  /** Every object has one key. */
  ghost predicate OneKeyEach(all: set<Keyed>) {
    forall x, y | x in all && y in all && x.id == y.id :: x == y
  }

  lemma ListedIdsDiffer(all: set<Keyed>, i: nat, j: nat)
    requires OneKeyEach(all) && i < j < |Listed(all)|
    ensures Listed(all)[i].id != Listed(all)[j].id
  {
    ListedHolds(all);
    assert Listed(all)[i] in Elements(Listed(all)) && Listed(all)[j] in Elements(Listed(all));
    PrecedesTotal(Listed(all)[i], Listed(all)[j]);
  }

  lemma {:induction false} PlaceIsPosition(s: seq<Keyed>, x: Id, n: nat)
    requires n <= |s| && forall i, j | 0 <= i < j < |s| :: s[i].id != s[j].id
    ensures PlaceOf(Ids(s[..n]), x) == if Position(s, x) < n then Some(Position(s, x)) else None
    decreases n
  {
    if n > 0 {
      PlaceIsPosition(s, x, n - 1);
      assert Ids(s[..n])[..n - 1] == Ids(s[..n - 1]);
      assert Ids(s[..n])[n - 1] == s[n - 1].id;
    }
  }

  function Options(doc: Doc, field: Id): seq<Keyed>
    requires field in doc.fields
  {
    Listed(LiveOptions(doc.fields[field]))
  }

  lemma OptionPosition(doc: Doc, field: Id, x: Id)
    requires field in doc.fields
    ensures var s := Options(doc, field);
            && (Position(s, x) < |s| <==> IsLiveOption(doc, field, x))
            && PlaceOf(Ids(s), x) == if Position(s, x) < |s| then Some(Position(s, x)) else None
  {
    var all, s := LiveOptions(doc.fields[field]), Options(doc, field);
    ListedHolds(all);
    if IsLiveOption(doc, field, x) {
      assert Keyed(doc.fields[field].options[x].sort, x) in Elements(s);
    }
    if Position(s, x) < |s| {
      assert s[Position(s, x)] in Elements(s);
    }
    forall i, j | 0 <= i < j < |s| ensures s[i].id != s[j].id { ListedIdsDiffer(all, i, j); }
    PlaceIsPosition(s, x, |s|);
    assert s[..|s|] == s;
  }

  function OptionBlock(doc: Doc, field: Id): seq<Id> {
    if field in doc.fields && doc.fields[field].kind == Some(Select) then Ids(Options(doc, field)) else []
  }

  lemma OptionOrderStep(doc: Doc, fields: seq<Id>)
    requires fields != []
    ensures OptionOrder(doc, fields) == OptionBlock(doc, fields[0]) + OptionOrder(doc, fields[1..])
  {
  }

  /** An option that no other field has stands in its own field's block only. */
  lemma BlockPlace(doc: Doc, g: Id, field: Id, x: Id)
    requires IsShown(doc, g) && IsShown(doc, field) && doc.fields[field].kind == Some(Select) && Own(doc, field, x)
    ensures PlaceOf(OptionBlock(doc, g), x)
            == if g == field && IsLiveOption(doc, field, x) then Some(Position(Options(doc, field), x)) else None
  {
    OptionPosition(doc, g, x);
  }

  ghost predicate AllShown(doc: Doc, fields: seq<Id>) {
    forall f | f in fields :: IsShown(doc, f)
  }

  lemma PlaceJoins(block: seq<Id>, rest: seq<Id>, x: Id, first: bool, later: bool, live: bool, pos: nat, offset: nat)
    requires PlaceOf(block, x) == if first && live then Some(pos) else None
    requires PlaceOf(rest, x) == if later && live then Some(offset + pos) else None
    ensures PlaceOf(block + rest, x)
            == if (first || later) && live then Some((if later then |block| + offset else 0) + pos) else None
  {
    PlaceInBoth(block, rest, x);
  }

  /** The option's place, if the field's own options begin at `offset`. */
  ghost predicate PlacedFrom(doc: Doc, options: seq<Id>, among: bool, field: Id, x: Id, offset: nat)
    requires field in doc.fields
  {
    PlaceOf(options, x)
    == if among && IsLiveOption(doc, field, x) then Some(offset + Position(Options(doc, field), x)) else None
  }

  lemma PlaceStep(doc: Doc, g: Id, rest: seq<Id>, later: bool, field: Id, x: Id, offset: nat)
    requires IsShown(doc, g) && IsShown(doc, field) && doc.fields[field].kind == Some(Select) && Own(doc, field, x)
    requires PlacedFrom(doc, rest, later, field, x, offset)
    ensures var block := OptionBlock(doc, g);
            PlacedFrom(doc, block + rest, g == field || later, field, x, if later then |block| + offset else 0)
  {
    BlockPlace(doc, g, field, x);
    PlaceJoins(OptionBlock(doc, g), rest, x, g == field, later, IsLiveOption(doc, field, x),
               Position(Options(doc, field), x), offset);
  }

  lemma InRest(fields: seq<Id>, field: Id)
    requires fields != []
    ensures field in fields <==> fields[0] == field || field in fields[1..]
  {
  }

  ghost predicate BothPlaced(doc: Doc, options: seq<Id>, among: bool, field: Id, x: Id, y: Id, offset: nat)
    requires field in doc.fields
  {
    PlacedFrom(doc, options, among, field, x, offset) && PlacedFrom(doc, options, among, field, y, offset)
  }

  lemma BothStep(doc: Doc, g: Id, rest: seq<Id>, later: bool, field: Id, x: Id, y: Id, offset: nat) returns (offset': nat)
    requires IsShown(doc, g) && IsShown(doc, field) && doc.fields[field].kind == Some(Select)
    requires Own(doc, field, x) && Own(doc, field, y) && BothPlaced(doc, rest, later, field, x, y, offset)
    ensures BothPlaced(doc, OptionBlock(doc, g) + rest, g == field || later, field, x, y, offset')
  {
    PlaceStep(doc, g, rest, later, field, x, offset);
    PlaceStep(doc, g, rest, later, field, y, offset);
    offset' := if later then |OptionBlock(doc, g)| + offset else 0;
  }

  /** Options that no other field has have the places their field gives them, from where its own begin. */
  lemma {:induction false} OptionPlaces(doc: Doc, fields: seq<Id>, field: Id, x: Id, y: Id) returns (offset: nat)
    requires AllShown(doc, fields) && IsShown(doc, field) && doc.fields[field].kind == Some(Select)
    requires Own(doc, field, x) && Own(doc, field, y)
    ensures BothPlaced(doc, OptionOrder(doc, fields), field in fields, field, x, y, offset)
    decreases |fields|
  {
    if fields == [] {
      offset := 0;
    } else {
      var before := OptionPlaces(doc, fields[1..], field, x, y);
      InRest(fields, field);
      OptionOrderStep(doc, fields);
      offset := BothStep(doc, fields[0], OptionOrder(doc, fields[1..]), field in fields[1..], field, x, y, before);
    }
  }

  // ----- what comparing means -----

  /** By their places, none coming first. */
  lemma PlacesDecide(options: seq<Id>, x: Id, y: Id, lower: string -> string)
    ensures AtMost(SelectCell(x), SelectCell(y), options, lower) <==>
            PlaceOf(options, x).None? || (PlaceOf(options, y).Some? && PlaceOf(options, x).value <= PlaceOf(options, y).value)
  {
  }

  lemma SelectMeans(doc: Doc, field: Id, x: Id, y: Id, lower: string -> string)
    requires IsShown(doc, field) && doc.fields[field].kind == Some(Select) && Own(doc, field, x) && Own(doc, field, y)
    ensures AtMost(SelectCell(x), SelectCell(y), SchemaOf(doc).options, lower) <==> OptionAtMost(Options(doc, field), x, y)
  {
    var live := ShownFields(doc);
    assert AllShown(doc, live) && field in live by {
      ShownFieldsHold(doc);
    }
    var offset := OptionPlaces(doc, live, field, x, y);
    PlacesDecide(SchemaOf(doc).options, x, y, lower);
    OptionPosition(doc, field, x);
    OptionPosition(doc, field, y);
  }

  lemma NumbersMean(x: Float, y: Float, options: seq<Id>, lower: string -> string)
    ensures AtMost(NumberCell(x), NumberCell(y), options, lower) <==> NumberAtMost(x, y)
  {
  }

  lemma DaysAsText(x: string, y: string)
    ensures DateAtMost(x, y) <==> Leq(x, y)
  {
    if Dates.ValidDate(x) && Dates.ValidDate(y) {
      LessTotal(x, y);
      Dates.DatesCompareAsDays(x, y);
    }
  }

  lemma DatesMean(x: string, y: string, options: seq<Id>, lower: string -> string)
    ensures AtMost(DateCell(x), DateCell(y), options, lower) <==> DateAtMost(x, y)
  {
    assert AtMost(DateCell(x), DateCell(y), options, lower) <==> Leq(x, y) by {
      LessTotal(x, y);
    }
    DaysAsText(x, y);
  }

  /** The two cells are of one kind, and if they are options, their field's own. */
  ghost predicate Comparable(doc: Doc, field: Id, a: Cell, b: Cell) {
    && IsShown(doc, field) && OfKind(a, doc.fields[field].kind.value) && OfKind(b, doc.fields[field].kind.value)
    && (a.SelectCell? ==> Own(doc, field, a.option)) && (b.SelectCell? ==> Own(doc, field, b.option))
  }

  lemma CompareMeans(doc: Doc, field: Id, a: Cell, b: Cell, lower: string -> string)
    requires Comparable(doc, field, a, b)
    ensures AtMost(a, b, SchemaOf(doc).options, lower) <==> ValueAtMost(doc, field, a, b, lower)
  {
    match doc.fields[field].kind.value {
      case Text => LessTotal(lower(a.text), lower(b.text));
      case Number => NumbersMean(a.number, b.number, SchemaOf(doc).options, lower);
      case Checkbox =>
      case Select => SelectMeans(doc, field, a.option, b.option, lower);
      case Date => DatesMean(a.date, b.date, SchemaOf(doc).options, lower);
    }
  }

  /** What a row of an agreeing index shows of a field is what the document stores. */
  lemma CellIsStored(doc: Doc, rows: seq<Indexed>, row: Indexed, field: Id)
    requires Agrees(doc, rows) && row in rows
    ensures CellOf(ShownFields(doc), row, field) == StoredCell(doc, row.id, field)
  {
    ShownFieldsHold(doc);
    assert CellsAgree(doc, row);
  }

  /** Rows sorted by a field stand in the order of the field's values as stored, or against it if
      descending; rows whose cell is empty stand at the end either way. */
  ghost predicate InOrder(doc: Doc, sort: SortBy, a: Option<Cell>, b: Option<Cell>, lower: string -> string)
    requires sort.field in doc.fields
  {
    match (a, b)
    case (None, _) => b.None?
    case (Some(_), None) => true
    case (Some(x), Some(y)) =>
      if sort.descending then ValueAtMost(doc, sort.field, y, x, lower) else ValueAtMost(doc, sort.field, x, y, lower)
  }

  lemma SortedByValue(doc: Doc, rows: seq<Indexed>, query: RowQuery, lower: string -> string, i: nat, j: nat)
    requires Agrees(doc, rows) && query.sort.Some? && IsShown(doc, query.sort.value.field)
    requires i < j < |Arranged(SchemaOf(doc), rows, query, lower)|
    requires OwnOptions(doc, query.sort.value.field)
    ensures var arranged, sort := Arranged(SchemaOf(doc), rows, query, lower), query.sort.value;
            InOrder(doc, sort, StoredCell(doc, arranged[i].id, sort.field), StoredCell(doc, arranged[j].id, sort.field), lower)
  {
    var arranged, sort := Arranged(SchemaOf(doc), rows, query, lower), query.sort.value;
    ArrangedIsPart(doc, rows, query, lower, i);
    ArrangedIsPart(doc, rows, query, lower, j);
    CellIsStored(doc, rows, arranged[i], sort.field);
    CellIsStored(doc, rows, arranged[j], sort.field);
    StableSortExists(doc, rows, query, lower);
    assert RowOrdering(SchemaOf(doc), sort, lower)(arranged[i], arranged[j]);
    OrderMeans(doc, sort, arranged[i].id, arranged[j].id, lower);
  }

  /** The cells of a select field hold no other field's options. */
  ghost predicate OwnOptions(doc: Doc, field: Id) {
    forall row | StoredCell(doc, row, field).Some? && StoredCell(doc, row, field).value.SelectCell? ::
      Own(doc, field, StoredCell(doc, row, field).value.option)
  }

  lemma OrderMeans(doc: Doc, sort: SortBy, r: Id, q: Id, lower: string -> string)
    requires IsShown(doc, sort.field) && OwnOptions(doc, sort.field)
    ensures var a, b := StoredCell(doc, r, sort.field), StoredCell(doc, q, sort.field);
            CompareCells(a, b, sort.descending, SchemaOf(doc).options, lower) != Gt <==> InOrder(doc, sort, a, b, lower)
  {
    var a, b := StoredCell(doc, r, sort.field), StoredCell(doc, q, sort.field);
    if a.Some? && b.Some? {
      CompareMeans(doc, sort.field, a.value, b.value, lower);
      CompareMeans(doc, sort.field, b.value, a.value, lower);
      CompareTotal(a.value, b.value, doc.fields[sort.field].kind.value, SchemaOf(doc).options, lower);
    }
  }

  /** Two select fields that share an option, as only one identity drawn twice could make them. */
  function SharingDoc(): Doc {
    Doc(false,
        map["f" := FieldEntry(Some(Select), "a0", false, map["x" := OptionEntry("a0", false), "y" := OptionEntry("a1", false)]),
            "g" := FieldEntry(Some(Select), "a1", false, map["x" := OptionEntry("a0", false)])],
        map[])
  }

  lemma ListedAs(all: set<Keyed>, s: seq<Keyed>)
    requires Ascending(s) && Elements(s) == all
    ensures Listed(all) == s
  {
    ListedUnique(s);
  }

  lemma LiveOptionIs(field: FieldEntry, k: Keyed)
    ensures k in LiveOptions(field) <==> k.id in field.options && !field.options[k.id].deleted && field.options[k.id].sort == k.sort
  {
  }

  lemma SharingOptions()
    ensures Options(SharingDoc(), "f") == [Keyed("a0", "x"), Keyed("a1", "y")] && Options(SharingDoc(), "g") == [Keyed("a0", "x")]
  {
    var doc, s, t := SharingDoc(), [Keyed("a0", "x"), Keyed("a1", "y")], [Keyed("a0", "x")];
    LessAt("a0", "a1", 1);
    assert "x"[0] != "y"[0] && "f"[0] != "g"[0];
    forall k ensures k in LiveOptions(doc.fields["f"]) <==> k in Elements(s) {
      LiveOptionIs(doc.fields["f"], k);
      assert k in Elements(s) <==> k == s[0] || k == s[1];
    }
    forall k ensures k in LiveOptions(doc.fields["g"]) <==> k in Elements(t) {
      LiveOptionIs(doc.fields["g"], k);
      assert k in Elements(t) <==> k == t[0];
    }
    ListedAs(LiveOptions(doc.fields["f"]), s);
    ListedAs(LiveOptions(doc.fields["g"]), t);
  }

  lemma SharingFields()
    ensures ShownFields(SharingDoc()) == ["f", "g"]
  {
    var doc, s := SharingDoc(), [Keyed("a0", "f"), Keyed("a1", "g")];
    LessAt("a0", "a1", 1);
    assert "f"[0] != "g"[0];
    forall k ensures k in LiveFields(doc) <==> k in Elements(s) {
      assert k in LiveFields(doc) <==> k.id in doc.fields && !doc.fields[k.id].deleted && doc.fields[k.id].sort == k.sort;
      assert k in Elements(s) <==> k == s[0] || k == s[1];
    }
    ListedAs(LiveFields(doc), s);
    assert Ids(s) == ["f", "g"];
    assert ["f", "g"][1..] == ["g"] && ["g"][1..] == [];
  }

  lemma SharedPlaces(lower: string -> string)
    ensures !AtMost(SelectCell("x"), SelectCell("y"), ["x", "y", "x"], lower)
    ensures OptionAtMost([Keyed("a0", "x"), Keyed("a1", "y")], "x", "y")
  {
    assert "x"[0] != "y"[0] && ["x", "y", "x"][..2] == ["x", "y"];
    assert [Keyed("a0", "x"), Keyed("a1", "y")][1..] == [Keyed("a1", "y")];
    PlacesDecide(["x", "y", "x"], "x", "y", lower);
  }

  /** Then the shared option has the place of the later field, and stands after one it should precede. */
  lemma SharedOptionMisplaces(lower: string -> string)
    ensures var doc := SharingDoc();
            && OptionAtMost(Options(doc, "f"), "x", "y")
            && !AtMost(SelectCell("x"), SelectCell("y"), SchemaOf(doc).options, lower)
  {
    var doc := SharingDoc();
    SharingOptions();
    SharingFields();
    OptionOrderStep(doc, ["f", "g"]);
    OptionOrderStep(doc, ["g"]);
    assert ["f", "g"][1..] == ["g"] && ["g"][1..] == [];
    assert Ids(Options(doc, "f")) == ["x", "y"] && Ids(Options(doc, "g")) == ["x"];
    assert SchemaOf(doc).options == ["x", "y", "x"];
    SharedPlaces(lower);
  }

  // ----- every history keeps options apart -----

  /** No two fields share an option, and select cells hold options of their own field. */
  ghost predicate Apart(doc: Doc) {
    && (forall f, g, o | f in doc.fields && g in doc.fields && o in doc.fields[f].options && o in doc.fields[g].options :: f == g)
    && (forall row, f | row in doc.rows && f in doc.rows[row].cells && f in doc.fields ::
          OwnCell(doc.fields[f], doc.rows[row].cells[f]))
  }

  predicate OwnCell(field: FieldEntry, value: Scalar) {
    field.kind == Some(Select) && value.Str? ==> value.text in field.options
  }

  lemma ApartIsOwn(doc: Doc, field: Id)
    requires Apart(doc)
    ensures OwnOptions(doc, field)
  {
    forall row | StoredCell(doc, row, field).Some? && StoredCell(doc, row, field).value.SelectCell?
      ensures Own(doc, field, StoredCell(doc, row, field).value.option)
    {
      assert OwnCell(doc.fields[field], doc.rows[row].cells[field]);
    }
  }

  /** The identity drawn for an option is new to the whole Database. */
  predicate NewOption(doc: Doc, m: Mutation) {
    m.AddOption? ==> forall f | f in doc.fields :: m.newOption !in doc.fields[f].options
  }

  predicate NewOptions(st: State, events: seq<Event>, keys: KeyFunction)
    decreases |events|
  {
    events != [] ==>
      (events[0].Mutate? ==> NewOption(st.doc, events[0].m)) && NewOptions(Step(st, events[0], keys), events[1..], keys)
  }

  lemma ApartAfterCell(doc: Doc, row: Id, field: Id, value: Cell)
    requires Apart(doc) && IsLiveRow(doc, row) && IsShown(doc, field) && Encode(doc.fields[field], value).Ok?
    ensures Apart(PutCell(doc, row, field, Encode(doc.fields[field], value).value))
  {
    var doc' := PutCell(doc, row, field, Encode(doc.fields[field], value).value);
    forall r, f | r in doc'.rows && f in doc'.rows[r].cells && f in doc'.fields
      ensures OwnCell(doc'.fields[f], doc'.rows[r].cells[f])
    {
      if r != row || f != field {
        assert doc.rows[r].cells[f] == doc'.rows[r].cells[f];
      }
    }
  }

  /** Rows gain no cells, and fields lose no options and change no kind. */
  lemma ApartAfterOther(doc: Doc, doc': Doc)
    requires Apart(doc)
    requires forall row | row in doc'.rows ::
               if row in doc.rows then doc'.rows[row].cells == doc.rows[row].cells else doc'.rows[row].cells == map[]
    requires forall f | f in doc'.fields ::
               if f in doc.fields
               then doc'.fields[f].kind == doc.fields[f].kind && doc'.fields[f].options == doc.fields[f].options
               else doc'.fields[f].options == map[] && forall row | row in doc.rows :: f !in doc.rows[row].cells
    ensures Apart(doc')
  {
    forall r, f | r in doc'.rows && f in doc'.rows[r].cells && f in doc'.fields
      ensures OwnCell(doc'.fields[f], doc'.rows[r].cells[f])
    {
      assert r in doc.rows && f in doc.rows[r].cells;
    }
  }

  lemma ApartAfterOption(doc: Doc, field: Id, option: Id, sort: string)
    requires Apart(doc) && field in doc.fields && NewOption(doc, AddOption(field, option))
    ensures Apart(PutOption(doc, field, option, sort))
  {
    var doc' := PutOption(doc, field, option, sort);
    assert forall f | f in doc.fields :: option !in doc.fields[f].options;
    forall r, f | r in doc'.rows && f in doc'.rows[r].cells && f in doc'.fields
      ensures OwnCell(doc'.fields[f], doc'.rows[r].cells[f])
    {
      assert OwnCell(doc.fields[f], doc.rows[r].cells[f]);
    }
  }

  lemma ApartAfterRow(st: State, m: Mutation, keys: KeyFunction)
    requires Apart(st.doc) && NeedsIndex(m) && Fresh(st.doc, m) && Complete(st, m, keys).error.None?
    ensures Apart(Complete(st, m, keys).state.doc)
  {
    match m {
      case SetCell(row, field, value) => ApartAfterCell(st.doc, row, field, value);
      case _ => ApartAfterOther(st.doc, Complete(st, m, keys).state.doc);
    }
  }

  lemma ApartAfterField(st: State, m: Mutation, keys: KeyFunction)
    requires Apart(st.doc) && !NeedsIndex(m) && Fresh(st.doc, m) && NewOption(st.doc, m) && Complete(st, m, keys).error.None?
    ensures Apart(Complete(st, m, keys).state.doc)
  {
    match m {
      case AddOption(field, id) =>
        ApartAfterOption(st.doc, field, id, PlaceKey(Listed(LiveOptions(st.doc.fields[field])), Last, keys).value);
      case _ => ApartAfterOther(st.doc, Complete(st, m, keys).state.doc);
    }
  }

  /** Every history keeps options apart. */
  lemma {:induction false} RunKeepsApart(st: State, events: seq<Event>, keys: KeyFunction)
    requires Apart(st.doc) && FreshRun(st, events, keys) && NewOptions(st, events, keys)
    ensures Apart(Run(st, events, keys).doc)
    decreases |events|
  {
    if events != [] {
      if events[0].Mutate? {
        var m := events[0].m;
        if Complete(st, m, keys).error.None? {
          if NeedsIndex(m) { ApartAfterRow(st, m, keys); } else { ApartAfterField(st, m, keys); }
        }
      }
      RunKeepsApart(Step(st, events[0], keys), events[1..], keys);
    }
  }
}
