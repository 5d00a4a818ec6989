/** The order of a window's rows. */
module DatabaseSorting {
  import opened Wrappers
  import opened Order
  import opened Listing
  import opened DatabaseModel
  import opened DatabaseIndex
  import opened DatabaseWindow
  import DatabaseInvariants
  import Dates
  import SortKey

  predicate OfKind(cell: Cell, kind: FieldKind) {
    match kind
    case Text => cell.TextCell?
    case Number => cell.NumberCell?
    case Select => cell.SelectCell?
    case Date => cell.DateCell?
    case Checkbox => cell.CheckboxCell?
  }

  /** `compare` never says greater: at most `b`. */
  predicate AtMost(a: Cell, b: Cell, options: seq<Id>, lower: string -> string) {
    Compare(a, b, options, lower) != Gt
  }

  lemma FloatLessTotal(a: Float, b: Float)
    ensures FloatLess(a, b) || FloatLess(b, a) || a == b
    ensures !(FloatLess(a, b) && FloatLess(b, a))
  {
  }

  lemma FloatLessTransitive(a: Float, b: Float, c: Float)
    requires !FloatLess(b, a) && !FloatLess(c, b)
    ensures !FloatLess(c, a)
  {
  }

  lemma LeqTransitive(a: string, b: string, c: string)
    requires Leq(a, b) && Leq(b, c)
    ensures Leq(a, c)
  {
    LessTotal(a, b);
    LessTotal(b, c);
    LessTotal(a, c);
    if Less(a, b) && Less(b, c) { LessTransitive(a, b, c); }
  }

  /** On the cells of one field `compare` is total, and reversing it swaps the two. */
  lemma CompareTotal(a: Cell, b: Cell, kind: FieldKind, options: seq<Id>, lower: string -> string)
    requires OfKind(a, kind) && OfKind(b, kind)
    ensures AtMost(a, b, options, lower) || AtMost(b, a, options, lower)
    ensures Compare(b, a, options, lower) == Reverse(Compare(a, b, options, lower))
  {
    match kind {
      case Text => LessTotal(lower(a.text), lower(b.text));
      case Number => FloatLessTotal(a.number, b.number);
      case Date => LessTotal(a.date, b.date);
      case _ =>
    }
  }

  lemma CompareTransitive(a: Cell, b: Cell, c: Cell, kind: FieldKind, options: seq<Id>, lower: string -> string)
    requires OfKind(a, kind) && OfKind(b, kind) && OfKind(c, kind)
    requires AtMost(a, b, options, lower) && AtMost(b, c, options, lower)
    ensures AtMost(a, c, options, lower)
  {
    match kind {
      case Text =>
        LessTotal(lower(a.text), lower(b.text));
        LessTotal(lower(b.text), lower(c.text));
        LeqTransitive(lower(a.text), lower(b.text), lower(c.text));
      case Number =>
        FloatLessTotal(a.number, b.number);
        FloatLessTotal(b.number, c.number);
        FloatLessTransitive(a.number, b.number, c.number);
      case Date =>
        LessTotal(a.date, b.date);
        LessTotal(b.date, c.date);
        LeqTransitive(a.date, b.date, c.date);
      case _ =>
    }
  }

  /** Every cell of a live field that an agreeing index holds is of the field's kind. */
  lemma CellsOfOneKind(doc: Doc, rows: seq<Indexed>, row: Indexed, field: Id)
    requires Agrees(doc, rows) && row in rows && CellOf(ShownFields(doc), row, field).Some?
    ensures IsShown(doc, field) && OfKind(CellOf(ShownFields(doc), row, field).value, doc.fields[field].kind.value)
  {
    ShownFieldsHold(doc);
    assert CellsAgree(doc, row);
    assert Lookup(row.cells, field) == StoredCell(doc, row.id, field);
  }

  /** The cells a sort compares are of one kind. */
  ghost predicate OneKind(live: seq<Id>, rows: seq<Indexed>, field: Id, kind: FieldKind) {
    forall row | row in rows && CellOf(live, row, field).Some? :: OfKind(CellOf(live, row, field).value, kind)
  }

  lemma CompareCellsTotal(a: Option<Cell>, b: Option<Cell>, kind: FieldKind, descending: bool,
                          options: seq<Id>, lower: string -> string)
    requires (a.Some? ==> OfKind(a.value, kind)) && (b.Some? ==> OfKind(b.value, kind))
    ensures CompareCells(a, b, descending, options, lower) != Gt || CompareCells(b, a, descending, options, lower) != Gt
  {
    if a.Some? && b.Some? {
      CompareTotal(a.value, b.value, kind, options, lower);
    }
  }

  lemma CompareCellsTransitive(a: Option<Cell>, b: Option<Cell>, c: Option<Cell>, kind: FieldKind, descending: bool,
                               options: seq<Id>, lower: string -> string)
    requires a.Some? ==> OfKind(a.value, kind)
    requires b.Some? ==> OfKind(b.value, kind)
    requires c.Some? ==> OfKind(c.value, kind)
    requires CompareCells(a, b, descending, options, lower) != Gt && CompareCells(b, c, descending, options, lower) != Gt
    ensures CompareCells(a, c, descending, options, lower) != Gt
  {
    if a.Some? && b.Some? && c.Some? {
      CompareTotal(a.value, b.value, kind, options, lower);
      CompareTotal(b.value, c.value, kind, options, lower);
      CompareTotal(a.value, c.value, kind, options, lower);
      if descending {
        CompareTransitive(c.value, b.value, a.value, kind, options, lower);
      } else {
        CompareTransitive(a.value, b.value, c.value, kind, options, lower);
      }
    }
  }

  lemma RowOrderingIsPreorder(schema: Schema, rows: seq<Indexed>, sort: SortBy, lower: string -> string, kind: FieldKind)
    requires OneKind(schema.live, rows, sort.field, kind)
    ensures PreorderOn(rows, RowOrdering(schema, sort, lower))
  {
    var leq := RowOrdering(schema, sort, lower);
    forall x, y | x in rows && y in rows ensures leq(x, y) || leq(y, x) {
      CompareCellsTotal(CellOf(schema.live, x, sort.field), CellOf(schema.live, y, sort.field), kind,
                        sort.descending, schema.options, lower);
    }
    forall x, y, z | x in rows && y in rows && z in rows && leq(x, y) && leq(y, z) ensures leq(x, z) {
      CompareCellsTransitive(CellOf(schema.live, x, sort.field), CellOf(schema.live, y, sort.field),
                             CellOf(schema.live, z, sort.field), kind, sort.descending, schema.options, lower);
    }
  }

  /** The order on the matching rows of an agreeing index, whatever field is asked for. */
  lemma MatchingRowsOrdered(doc: Doc, rows: seq<Indexed>, query: RowQuery, sort: SortBy, lower: string -> string)
    requires Agrees(doc, rows)
    ensures PreorderOn(Matching(SchemaOf(doc), rows, query.filter, lower), RowOrdering(SchemaOf(doc), sort, lower))
  {
    var schema := SchemaOf(doc);
    var matching := Matching(schema, rows, query.filter, lower);
    MatchingIsPart(schema, rows, query.filter, lower);
    ShownFieldsHold(doc);
    var kind := if IsShown(doc, sort.field) then doc.fields[sort.field].kind.value else Text;
    forall row | row in matching && CellOf(schema.live, row, sort.field).Some?
      ensures OfKind(CellOf(schema.live, row, sort.field).value, kind)
    {
      CellsOfOneKind(doc, rows, row, sort.field);
    }
    RowOrderingIsPreorder(schema, matching, sort, lower, kind);
  }

  lemma MatchingIsPart(schema: Schema, rows: seq<Indexed>, filter: Option<Filter>, lower: string -> string)
    ensures forall row | row in Matching(schema, rows, filter, lower) :: row in rows
  {
    if filter.Some? {
      var f := filter.value;
      KeepHolds(rows, row => Matches(CellOf(schema.live, row, f.field), f.matches, lower));
    }
  }

  /** A sorted window is cut from the one stable sort of the matching rows: any rearrangement of
      them that is sorted and keeps ties in row order is what the window shows. */
  lemma WindowIsCutOfStableSort(doc: Doc, rows: seq<Indexed>, query: RowQuery, lower: string -> string, r: seq<Indexed>)
    requires Agrees(doc, rows) && !doc.deleted && query.sort.Some?
    requires StableSortOf(Matching(SchemaOf(doc), rows, query.filter, lower), r,
                          RowOrdering(SchemaOf(doc), query.sort.value, lower))
    ensures Window(doc, rows, query, lower) ==
            Ok(Rows(|Matching(SchemaOf(doc), rows, query.filter, lower)|,
                    ShownRows(ShownFields(doc), Cut(r, query.start, query.limit))))
  {
    var matching := Matching(SchemaOf(doc), rows, query.filter, lower);
    var leq := RowOrdering(SchemaOf(doc), query.sort.value, lower);
    MatchingRowsOrdered(doc, rows, query, query.sort.value, lower);
    SortIsStable(matching, leq);
    SortElements(matching, leq);
    StableSortUnique(matching, r, Sort(matching, leq), leq);
  }

  /** There is such a rearrangement, so the window exists and is unique. */
  lemma StableSortExists(doc: Doc, rows: seq<Indexed>, query: RowQuery, lower: string -> string)
    requires Agrees(doc, rows) && query.sort.Some?
    ensures StableSortOf(Matching(SchemaOf(doc), rows, query.filter, lower),
                         Arranged(SchemaOf(doc), rows, query, lower),
                         RowOrdering(SchemaOf(doc), query.sort.value, lower))
  {
    MatchingRowsOrdered(doc, rows, query, query.sort.value, lower);
    SortIsStable(Matching(SchemaOf(doc), rows, query.filter, lower), RowOrdering(SchemaOf(doc), query.sort.value, lower));
  }

  /** Empty cells come last whichever way the rows are sorted. */
  lemma EmptyCellsLast(doc: Doc, rows: seq<Indexed>, query: RowQuery, lower: string -> string, i: nat, j: nat)
    requires Agrees(doc, rows) && query.sort.Some?
    requires i < j < |Arranged(SchemaOf(doc), rows, query, lower)|
    ensures var arranged := Arranged(SchemaOf(doc), rows, query, lower);
            CellOf(ShownFields(doc), arranged[i], query.sort.value.field).None? ==>
              CellOf(ShownFields(doc), arranged[j], query.sort.value.field).None?
  {
    StableSortExists(doc, rows, query, lower);
    var arranged := Arranged(SchemaOf(doc), rows, query, lower);
    assert RowOrdering(SchemaOf(doc), query.sort.value, lower)(arranged[i], arranged[j]);
  }

  /** Date cells, which only hold valid dates, sort as days in time. */
  lemma DatesSortAsDays(a: string, b: string, options: seq<Id>, lower: string -> string)
    requires Dates.ValidDate(a) && Dates.ValidDate(b)
    ensures Compare(DateCell(a), DateCell(b), options, lower) ==
            ByLess(Dates.DayOf(a) < Dates.DayOf(b), Dates.DayOf(b) < Dates.DayOf(a))
  {
    Dates.DatesCompareAsDays(a, b);
    Dates.DatesCompareAsDays(b, a);
  }

  lemma DateCellIsDay(doc: Doc, rows: seq<Indexed>, row: Indexed, field: Id)
    requires DatabaseInvariants.DaysExist(doc) && Agrees(doc, rows) && row in rows
    requires IsShown(doc, field) && doc.fields[field].kind == Some(Date) && CellOf(ShownFields(doc), row, field).Some?
    ensures var cell := CellOf(ShownFields(doc), row, field).value; cell.DateCell? && Dates.ValidDate(cell.date)
  {
    CellsOfOneKind(doc, rows, row, field);
    assert CellsAgree(doc, row);
    assert Lookup(row.cells, field) == StoredCell(doc, row.id, field);
  }

  /** The day a row's cell of a date field names. */
  function DayAt(doc: Doc, row: Indexed, field: Id): int
    requires var cell := CellOf(ShownFields(doc), row, field);
             cell.Some? && cell.value.DateCell? && Dates.ValidDate(cell.value.date)
  {
    Dates.DayOf(CellOf(ShownFields(doc), row, field).value.date)
  }

  /** Rows sorted by a date field stand in the order of their days, or against it if descending. */
  lemma SortedDatesInTime(doc: Doc, rows: seq<Indexed>, query: RowQuery, lower: string -> string, i: nat, j: nat)
    requires DatabaseInvariants.DaysExist(doc) && Agrees(doc, rows) && query.sort.Some?
    requires IsShown(doc, query.sort.value.field) && doc.fields[query.sort.value.field].kind == Some(Date)
    requires i < j < |Arranged(SchemaOf(doc), rows, query, lower)|
    requires CellOf(ShownFields(doc), Arranged(SchemaOf(doc), rows, query, lower)[i], query.sort.value.field).Some?
    requires CellOf(ShownFields(doc), Arranged(SchemaOf(doc), rows, query, lower)[j], query.sort.value.field).Some?
    ensures var arranged, field := Arranged(SchemaOf(doc), rows, query, lower), query.sort.value.field;
            var a, b := CellOf(ShownFields(doc), arranged[i], field).value, CellOf(ShownFields(doc), arranged[j], field).value;
            && a.DateCell? && Dates.ValidDate(a.date) && b.DateCell? && Dates.ValidDate(b.date)
            && if query.sort.value.descending
               then DayAt(doc, arranged[i], field) >= DayAt(doc, arranged[j], field)
               else DayAt(doc, arranged[i], field) <= DayAt(doc, arranged[j], field)
  {
    var arranged, field := Arranged(SchemaOf(doc), rows, query, lower), query.sort.value.field;
    ArrangedIsPart(doc, rows, query, lower, i);
    ArrangedIsPart(doc, rows, query, lower, j);
    DateCellIsDay(doc, rows, arranged[i], field);
    DateCellIsDay(doc, rows, arranged[j], field);
    StableSortExists(doc, rows, query, lower);
    assert RowOrdering(SchemaOf(doc), query.sort.value, lower)(arranged[i], arranged[j]);
    DatesSortAsDays(CellOf(ShownFields(doc), arranged[i], field).value.date,
                    CellOf(ShownFields(doc), arranged[j], field).value.date, SchemaOf(doc).options, lower);
  }

  lemma ArrangedIsPart(doc: Doc, rows: seq<Indexed>, query: RowQuery, lower: string -> string, i: nat)
    requires Agrees(doc, rows) && query.sort.Some? && i < |Arranged(SchemaOf(doc), rows, query, lower)|
    ensures Arranged(SchemaOf(doc), rows, query, lower)[i] in rows
  {
    StableSortExists(doc, rows, query, lower);
    MatchingIsPart(SchemaOf(doc), rows, query.filter, lower);
    SameElements(Arranged(SchemaOf(doc), rows, query, lower), Matching(SchemaOf(doc), rows, query.filter, lower));
  }

  /** So in a new Database after any history, whose days all exist and whose index agrees. */
  lemma HistoryKeepsDays(name: Id, events: seq<Event>)
    requires FreshRun(State(DatabaseInvariants.NewDoc(name, SortKey.Between), None), events, SortKey.Between)
    ensures var st := Run(State(DatabaseInvariants.NewDoc(name, SortKey.Between), None), events, SortKey.Between);
            DatabaseInvariants.DaysExist(st.doc) && Agrees(st.doc, Loaded(st).index.value)
  {
    var blank := State(DatabaseInvariants.NewDoc(name, SortKey.Between), None);
    DatabaseInvariants.NewDatabaseStaysWellKept(name, events);
    RunKeepsConsistency(blank, events, SortKey.Between);
    ReadAgrees(Run(blank, events, SortKey.Between).doc);
  }

  /** The fast path for a plain window is the general path. */
  lemma PlainWindow(doc: Doc, rows: seq<Indexed>, query: RowQuery, lower: string -> string)
    requires !doc.deleted
    ensures var arranged := Arranged(SchemaOf(doc), rows, query, lower);
            Window(doc, rows, query, lower) ==
            Ok(Rows(|arranged|, ShownRows(ShownFields(doc), Cut(arranged, query.start, query.limit))))
  {
  }

  // ----- windows tile -----

  /** The rows of the windows from `start` on, `limit` rows each. */
  function Tiled(doc: Doc, rows: seq<Indexed>, query: RowQuery, lower: string -> string, limit: nat, start: nat): seq<Row>
    requires limit > 0 && !doc.deleted
    decreases |Arranged(SchemaOf(doc), rows, query, lower)| - start
  {
    PlainWindow(doc, rows, query.(start := start, limit := limit), lower);
    if start >= |Arranged(SchemaOf(doc), rows, query, lower)| then []
    else Window(doc, rows, query.(start := start, limit := limit), lower).value.rows
         + Tiled(doc, rows, query, lower, limit, start + limit)
  }

  lemma CutShown(live: seq<Id>, rows: seq<Indexed>, start: nat, limit: nat)
    ensures ShownRows(live, Cut(rows, start, limit)) == Cut(ShownRows(live, rows), start, limit)
  {
  }

  lemma CutJoins<T>(s: seq<T>, start: nat, limit: nat)
    requires start <= |s|
    ensures Cut(s, start, limit) + (if start + limit <= |s| then s[start + limit..] else []) == s[start..]
  {
  }

  lemma {:induction false} WindowsTile(doc: Doc, rows: seq<Indexed>, query: RowQuery, lower: string -> string,
                                       limit: nat, start: nat)
    requires limit > 0 && !doc.deleted
    ensures var all := ShownRows(ShownFields(doc), Arranged(SchemaOf(doc), rows, query, lower));
            Tiled(doc, rows, query, lower, limit, start) == if start <= |all| then all[start..] else []
    decreases |Arranged(SchemaOf(doc), rows, query, lower)| - start
  {
    var arranged := Arranged(SchemaOf(doc), rows, query, lower);
    var all := ShownRows(ShownFields(doc), arranged);
    PlainWindow(doc, rows, query.(start := start, limit := limit), lower);
    if start < |arranged| {
      WindowsTile(doc, rows, query, lower, limit, start + limit);
      CutShown(ShownFields(doc), arranged, start, limit);
      CutJoins(all, start, limit);
    }
  }
}
