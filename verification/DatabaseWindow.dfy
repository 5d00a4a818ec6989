/** Windows of a Database's rows: filtered, sorted and cut from the index. */
module DatabaseWindow {
  import opened Wrappers
  import opened Order
  import opened Listing
  import opened DatabaseModel
  import opened DatabaseIndex

  datatype SortBy = SortBy(field: Id, descending: bool)

  datatype Match = IsEmpty | NotEmpty | Is(value: Cell) | Contains(part: string)

  datatype Filter = Filter(field: Id, matches: Match)

  datatype RowQuery = RowQuery(sort: Option<SortBy>, filter: Option<Filter>, start: nat, limit: nat)

  datatype Row = Row(id: Id, cells: seq<(Id, Cell)>)

  datatype Rows = Rows(count: nat, rows: seq<Row>)

  datatype Ordering = Lt | Eq | Gt

  // ----- what the document shows -----

  function Ids(s: seq<Keyed>): seq<Id> {
    seq(|s|, i requires 0 <= i < |s| => s[i].id)
  }

  function Keep<T>(s: seq<T>, p: T -> bool): seq<T> {
    if s == [] then [] else (if p(s[0]) then [s[0]] else []) + Keep(s[1..], p)
  }

  /** The live fields of known kinds, in order. */
  function ShownFields(doc: Doc): seq<Id> {
    Keep(Ids(Listed(LiveFields(doc))), field => IsShown(doc, field))
  }

  /** The live options of the select fields, field by field. */
  function OptionOrder(doc: Doc, fields: seq<Id>): seq<Id> {
    if fields == [] then []
    else (if fields[0] in doc.fields && doc.fields[fields[0]].kind == Some(Select)
          then Ids(Listed(LiveOptions(doc.fields[fields[0]]))) else [])
         + OptionOrder(doc, fields[1..])
  }

  /** The last place of `option`, as a hash map collects it. */
  function PlaceOf(options: seq<Id>, option: Id): Option<nat> {
    if options == [] then None
    else if options[|options| - 1] == option then Some(|options| - 1)
    else PlaceOf(options[..|options| - 1], option)
  }

  // ----- comparing cells -----

  predicate FloatLess(a: Float, b: Float) {
    match (a, b)
    case (NegativeInfinity, _) => !b.NegativeInfinity?
    case (_, NegativeInfinity) => false
    case (_, NotANumber) => !a.NotANumber?
    case (NotANumber, _) => false
    case (_, PositiveInfinity) => !a.PositiveInfinity?
    case (PositiveInfinity, _) => false
    case (Finite(x), Finite(y)) => x < y
    case (NegativeZero, Finite(y)) => 0.0 <= y
    case (Finite(x), NegativeZero) => x < 0.0
    case (NegativeZero, NegativeZero) => false
  }

  /** Floats as `==` has them: no number is unlike itself, and both zeros are equal. */
  predicate FloatEqual(a: Float, b: Float) {
    PlusZero(a) == PlusZero(b) && !a.NotANumber?
  }

  function ByLess(less: bool, greater: bool): Ordering {
    if less then Lt else if greater then Gt else Eq
  }

  function Compare(a: Cell, b: Cell, options: seq<Id>, lower: string -> string): Ordering {
    match (a, b)
    case (TextCell(x), TextCell(y)) => ByLess(Less(lower(x), lower(y)), Less(lower(y), lower(x)))
    case (NumberCell(x), NumberCell(y)) => ByLess(FloatLess(x, y), FloatLess(y, x))
    case (DateCell(x), DateCell(y)) => ByLess(Less(x, y), Less(y, x))
    case (CheckboxCell(x), CheckboxCell(y)) => ByLess(!x && y, x && !y)
    case (SelectCell(x), SelectCell(y)) =>
      // none comes before any place
      var p, q := PlaceOf(options, x), PlaceOf(options, y);
      ByLess(q.Some? && (p.None? || p.value < q.value), p.Some? && (q.None? || q.value < p.value))
    case _ => Eq
  }

  function Reverse(o: Ordering): Ordering {
    match o
    case Lt => Gt
    case Eq => Eq
    case Gt => Lt
  }

  /** What the index keeps for `field`, unless the field is not among the live ones. */
  function CellOf(live: seq<Id>, row: Indexed, field: Id): Option<Cell> {
    if field in live then Lookup(row.cells, field) else None
  }

  function CompareCells(a: Option<Cell>, b: Option<Cell>, descending: bool,
                        options: seq<Id>, lower: string -> string): Ordering {
    match (a, b)
    case (None, None) => Eq
    case (None, Some(_)) => Gt
    case (Some(_), None) => Lt
    case (Some(x), Some(y)) =>
      var order := Compare(x, y, options, lower);
      if descending then Reverse(order) else order
  }

  predicate HasPart(text: string, part: string) {
    part <= text || (text != [] && HasPart(text[1..], part))
  }

  /** The part stands somewhere in the text. */
  lemma {:induction false} HasPartSomewhere(text: string, part: string)
    ensures HasPart(text, part) <==> exists i | 0 <= i <= |text| :: part <= text[i..]
    decreases |text|
  {
    if part <= text {
      assert text[0..] == text;
    } else if text != [] {
      HasPartSomewhere(text[1..], part);
      assert forall i | 0 <= i <= |text[1..]| :: text[1..][i..] == text[i + 1..];
      if exists i | 0 <= i <= |text| :: part <= text[i..] {
        var i :| 0 <= i <= |text| && part <= text[i..];
        assert i > 0 && text[1..][i - 1..] == text[i..];
      }
      if HasPart(text[1..], part) {
        var i :| 0 <= i <= |text[1..]| && part <= text[1..][i..];
        assert part <= text[i + 1..];
      }
    } else {
      assert forall i | 0 <= i <= |text| :: text[i..] == text;
    }
  }

  predicate Matches(cell: Option<Cell>, m: Match, lower: string -> string) {
    match (m, cell)
    case (IsEmpty, _) => cell.None?
    case (NotEmpty, _) => cell.Some?
    case (Is(NumberCell(value)), Some(NumberCell(kept))) => FloatEqual(value, kept)
    case (Is(value), _) => cell == Some(value)
    case (Contains(part), Some(TextCell(text))) => HasPart(lower(text), lower(part))
    case (Contains(_), _) => false
  }

  // ----- the window -----

  /** What a window reads of the document: its fields, and its options in order. */
  datatype Schema = Schema(live: seq<Id>, options: seq<Id>)

  function SchemaOf(doc: Doc): Schema {
    Schema(ShownFields(doc), OptionOrder(doc, ShownFields(doc)))
  }

  function RowOrdering(schema: Schema, sort: SortBy, lower: string -> string): (Indexed, Indexed) -> bool {
    (a, b) => CompareCells(CellOf(schema.live, a, sort.field), CellOf(schema.live, b, sort.field),
                           sort.descending, schema.options, lower) != Gt
  }

  function ShownCells(live: seq<Id>, row: Indexed): seq<(Id, Cell)> {
    if live == [] then []
    else (if live[0] in row.cells then [(live[0], row.cells[live[0]])] else []) + ShownCells(live[1..], row)
  }

  function ById(a: (Id, Cell), b: (Id, Cell)): bool {
    Leq(a.0, b.0)
  }

  function ShownRow(live: seq<Id>, row: Indexed): Row {
    Row(row.id, Sort(ShownCells(live, row), ById))
  }

  function ShownRows(live: seq<Id>, rows: seq<Indexed>): seq<Row> {
    seq(|rows|, i requires 0 <= i < |rows| => ShownRow(live, rows[i]))
  }

  function Cut<T>(s: seq<T>, start: nat, limit: nat): seq<T> {
    if start >= |s| then [] else if start + limit >= |s| then s[start..] else s[start..start + limit]
  }

  function Matching(schema: Schema, rows: seq<Indexed>, filter: Option<Filter>, lower: string -> string): seq<Indexed> {
    match filter
    case Some(f) => Keep(rows, row => Matches(CellOf(schema.live, row, f.field), f.matches, lower))
    case None => rows
  }

  /** All matching rows in the order asked for. */
  function Arranged(schema: Schema, rows: seq<Indexed>, query: RowQuery, lower: string -> string): seq<Indexed> {
    var matching := Matching(schema, rows, query.filter, lower);
    match query.sort
    case Some(sort) => Sort(matching, RowOrdering(schema, sort, lower))
    case None => matching
  }

  function Window(doc: Doc, rows: seq<Indexed>, query: RowQuery, lower: string -> string): Result<Rows, Error> {
    var schema := SchemaOf(doc);
    if doc.deleted then Err(NotFound)
    else if query.filter.None? && query.sort.None? then
      Ok(Rows(|rows|, ShownRows(schema.live, Cut(rows, query.start, query.limit))))
    else
      var arranged := Arranged(schema, rows, query, lower);
      Ok(Rows(|arranged|, ShownRows(schema.live, Cut(arranged, query.start, query.limit))))
  }

  /** A window of a loaded page, which reads the index first if it is not kept. */
  function Answer(st: State, query: RowQuery, lower: string -> string): Result<Rows, Error> {
    if st.index.None? && st.doc.deleted then Err(NotFound)
    else Window(st.doc, Loaded(st).index.value, query, lower)
  }

  // ----- the kept index shows what a rebuilt one shows -----

  lemma {:induction false} KeepHolds<T>(s: seq<T>, p: T -> bool)
    ensures forall x :: x in Keep(s, p) <==> x in s && p(x)
  {
    if s != [] {
      KeepHolds(s[1..], p);
      forall x ensures x in Keep(s, p) <==> x in s && p(x) {
        assert s == [s[0]] + s[1..];
      }
    }
  }

  lemma ShownFieldsHold(doc: Doc)
    ensures forall field :: field in ShownFields(doc) <==> IsShown(doc, field)
  {
    var listed := Listed(LiveFields(doc));
    KeepHolds(Ids(listed), field => IsShown(doc, field));
    ListedHolds(LiveFields(doc));
    forall field | IsShown(doc, field) ensures field in Ids(listed) {
      assert Keyed(doc.fields[field].sort, field) in Elements(listed);
      var i :| 0 <= i < |listed| && listed[i] == Keyed(doc.fields[field].sort, field);
      assert Ids(listed)[i] == field;
    }
  }

  /** Two rows a window cannot tell apart. */
  ghost predicate Alike(live: seq<Id>, a: Indexed, b: Indexed) {
    a.id == b.id && forall field | field in live :: Lookup(a.cells, field) == Lookup(b.cells, field)
  }

  ghost predicate AllAlike(live: seq<Id>, s: seq<Indexed>, t: seq<Indexed>) {
    |s| == |t| && forall i | 0 <= i < |s| :: Alike(live, s[i], t[i])
  }

  lemma AlikeCells(live: seq<Id>, a: Indexed, b: Indexed, field: Id)
    requires Alike(live, a, b)
    ensures CellOf(live, a, field) == CellOf(live, b, field)
  {
  }

  lemma {:induction false} AlikeShown(live: seq<Id>, part: seq<Id>, a: Indexed, b: Indexed)
    requires Alike(live, a, b) && forall field | field in part :: field in live
    ensures ShownCells(part, a) == ShownCells(part, b)
  {
    if part != [] {
      assert Lookup(a.cells, part[0]) == Lookup(b.cells, part[0]);
      AlikeShown(live, part[1..], a, b);
    }
  }

  lemma {:induction false} AlikeKept(live: seq<Id>, s: seq<Indexed>, t: seq<Indexed>, p: Indexed -> bool)
    requires AllAlike(live, s, t)
    requires forall a, b | Alike(live, a, b) :: p(a) == p(b)
    ensures AllAlike(live, Keep(s, p), Keep(t, p))
  {
    if s != [] {
      assert Alike(live, s[0], t[0]);
      AlikeKept(live, s[1..], t[1..], p);
    }
  }

  lemma {:induction false} AlikeInserted(live: seq<Id>, x: Indexed, y: Indexed, s: seq<Indexed>, t: seq<Indexed>,
                                         leq: (Indexed, Indexed) -> bool)
    requires Alike(live, x, y) && AllAlike(live, s, t)
    requires forall a, b, c, d | Alike(live, a, b) && Alike(live, c, d) :: leq(a, c) == leq(b, d)
    ensures AllAlike(live, Insert(x, s, leq), Insert(y, t, leq))
  {
    if s != [] {
      assert Alike(live, s[0], t[0]);
      assert leq(x, s[0]) == leq(y, t[0]);
      if !leq(x, s[0]) {
        AlikeInserted(live, x, y, s[1..], t[1..], leq);
      }
    }
  }

  lemma {:induction false} AlikeSorted(live: seq<Id>, s: seq<Indexed>, t: seq<Indexed>, leq: (Indexed, Indexed) -> bool)
    requires AllAlike(live, s, t)
    requires forall a, b, c, d | Alike(live, a, b) && Alike(live, c, d) :: leq(a, c) == leq(b, d)
    ensures AllAlike(live, Sort(s, leq), Sort(t, leq))
  {
    if s != [] {
      AlikeSorted(live, s[1..], t[1..], leq);
      AlikeInserted(live, s[0], t[0], Sort(s[1..], leq), Sort(t[1..], leq), leq);
    }
  }

  lemma AlikeArranged(schema: Schema, s: seq<Indexed>, t: seq<Indexed>, query: RowQuery, lower: string -> string)
    requires AllAlike(schema.live, s, t)
    ensures AllAlike(schema.live, Arranged(schema, s, query, lower), Arranged(schema, t, query, lower))
  {
    var live := schema.live;
    if query.filter.Some? {
      var f := query.filter.value;
      var p := (row: Indexed) => Matches(CellOf(live, row, f.field), f.matches, lower);
      forall a, b | Alike(live, a, b) ensures p(a) == p(b) { AlikeCells(live, a, b, f.field); }
      AlikeKept(live, s, t, p);
    }
    if query.sort.Some? {
      var sort := query.sort.value;
      var leq := RowOrdering(schema, sort, lower);
      forall a, b, c, d | Alike(live, a, b) && Alike(live, c, d) ensures leq(a, c) == leq(b, d) {
        AlikeCells(live, a, b, sort.field);
        AlikeCells(live, c, d, sort.field);
      }
      AlikeSorted(live, Matching(schema, s, query.filter, lower), Matching(schema, t, query.filter, lower), leq);
    }
  }

  lemma AlikeRowsShown(live: seq<Id>, s: seq<Indexed>, t: seq<Indexed>, start: nat, limit: nat)
    requires AllAlike(live, s, t)
    ensures ShownRows(live, Cut(s, start, limit)) == ShownRows(live, Cut(t, start, limit))
  {
    var x, y := Cut(s, start, limit), Cut(t, start, limit);
    assert |x| == |y|;
    forall i | 0 <= i < |x| ensures ShownRow(live, x[i]) == ShownRow(live, y[i]) {
      assert x[i] == s[start + i] && y[i] == t[start + i];
      AlikeShown(live, live, x[i], y[i]);
    }
  }

  /** Indexes that agree with one document show the same window for every query. */
  lemma AgreeingIndexesShowTheSame(doc: Doc, s: seq<Indexed>, t: seq<Indexed>, query: RowQuery, lower: string -> string)
    requires Agrees(doc, s) && Agrees(doc, t)
    ensures Window(doc, s, query, lower) == Window(doc, t, query, lower)
  {
    var schema := SchemaOf(doc);
    AgreeingRowsAlike(doc, s, t);
    AlikeArranged(schema, s, t, query, lower);
    AlikeRowsShown(schema.live, s, t, query.start, query.limit);
    AlikeRowsShown(schema.live, Arranged(schema, s, query, lower), Arranged(schema, t, query, lower), query.start, query.limit);
  }

  lemma AgreeingRowsAlike(doc: Doc, s: seq<Indexed>, t: seq<Indexed>)
    requires Agrees(doc, s) && Agrees(doc, t)
    ensures AllAlike(ShownFields(doc), s, t)
  {
    ShownFieldsHold(doc);
    assert |s| == |KeysOf(s)| == |KeysOf(t)| == |t|;
    forall i | 0 <= i < |s| ensures Alike(ShownFields(doc), s[i], t[i]) {
      assert CellsAgree(doc, s[i]) && CellsAgree(doc, t[i]);
      assert s[i].id == KeysOf(s)[i].id && t[i].id == KeysOf(t)[i].id;
    }
  }

  /** After every run, every query is answered as if the index were read anew from the document. */
  lemma KeptIndexAnswersAsRebuilt(st: State, events: seq<Event>, query: RowQuery, lower: string -> string, keys: KeyFunction)
    requires Consistent(st) && FreshRun(st, events, keys)
    ensures var r := Run(st, events, keys);
            Answer(r, query, lower) == Answer(State(RebuildingRun(st.doc, events, keys), None), query, lower)
  {
    var r := Run(st, events, keys);
    RunKeepsConsistency(st, events, keys);
    RunRefinesRebuilding(st, events, keys);
    if r.index.Some? {
      ReadAgrees(r.doc);
      AgreeingIndexesShowTheSame(r.doc, r.index.value, Read(r.doc), query, lower);
    }
  }
}
