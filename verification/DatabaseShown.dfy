/** What a window shows, in terms of the document alone: which rows, in which order, with which cells. */
module DatabaseShown {
  import opened Wrappers
  import opened Order
  import opened Listing
  import opened DatabaseModel
  import opened DatabaseIndex
  import opened DatabaseWindow
  import opened DatabaseSorting
  import opened DatabaseOrder
  import DatabaseInvariants
  import SortKey

  // ----- which rows -----

  /** The stored cell, none if it is empty, is what is looked for. */
  ghost predicate Passes(cell: Option<Cell>, m: Match, lower: string -> string) {
    match m
    case IsEmpty => cell.None?
    case NotEmpty => cell.Some?
    case Is(NumberCell(n)) => cell.Some? && cell.value.NumberCell? && SameNumber(cell.value.number, n)
    case Is(value) => cell == Some(value)
    case Contains(part) =>
      cell.Some? && cell.value.TextCell? &&
      exists i | 0 <= i <= |lower(cell.value.text)| :: lower(part) <= lower(cell.value.text)[i..]
  }

  /** The live rows a filter lets through. */
  ghost function Passing(doc: Doc, filter: Option<Filter>, lower: string -> string): set<Keyed> {
    set x | x in LiveRows(doc) && RowPasses(doc, x.id, filter, lower)
  }

  ghost predicate RowPasses(doc: Doc, row: Id, filter: Option<Filter>, lower: string -> string) {
    filter.Some? ==> Passes(StoredCell(doc, row, filter.value.field), filter.value.matches, lower)
  }

  lemma MatchesPasses(cell: Option<Cell>, m: Match, lower: string -> string)
    ensures Matches(cell, m, lower) <==> Passes(cell, m, lower)
  {
    if m.Contains? && cell.Some? && cell.value.TextCell? {
      HasPartSomewhere(lower(cell.value.text), lower(m.part));
    }
  }

  predicate RowPrecedes(a: Indexed, b: Indexed) {
    Precedes(Keyed(a.sort, a.id), Keyed(b.sort, b.id))
  }

  ghost predicate RowsAscend(s: seq<Indexed>) {
    forall i, j | 0 <= i < j < |s| :: RowPrecedes(s[i], s[j])
  }

  lemma {:induction false} KeepAscends(s: seq<Indexed>, p: Indexed -> bool)
    requires RowsAscend(s)
    ensures RowsAscend(Keep(s, p))
  {
    if s != [] {
      KeepAscends(s[1..], p);
      KeepHolds(s[1..], p);
      var rest := Keep(s[1..], p);
      forall j | 0 <= j < |rest| ensures RowPrecedes(s[0], rest[j]) {
        assert rest[j] in s[1..];
      }
    }
  }

  lemma RowMatches(doc: Doc, rows: seq<Indexed>, row: Indexed, f: Filter, lower: string -> string)
    requires Agrees(doc, rows) && row in rows
    ensures Matches(CellOf(ShownFields(doc), row, f.field), f.matches, lower)
            <==> Passes(StoredCell(doc, row.id, f.field), f.matches, lower)
  {
    CellIsStored(doc, rows, row, f.field);
    MatchesPasses(StoredCell(doc, row.id, f.field), f.matches, lower);
  }

  lemma MatchingHolds(doc: Doc, rows: seq<Indexed>, filter: Option<Filter>, lower: string -> string)
    requires Agrees(doc, rows) && RowsAscend(rows)
    ensures var matching := Matching(SchemaOf(doc), rows, filter, lower);
            RowsAscend(matching) && forall row :: row in matching <==> row in rows && RowPasses(doc, row.id, filter, lower)
  {
    if filter.Some? {
      var f := filter.value;
      var p := (row: Indexed) => Matches(CellOf(SchemaOf(doc).live, row, f.field), f.matches, lower);
      KeepAscends(rows, p);
      KeepHolds(rows, p);
      forall row | row in rows
        ensures p(row) <==> RowPasses(doc, row.id, filter, lower)
      {
        RowMatches(doc, rows, row, f, lower);
      }
    }
  }

  lemma KeysHold(rows: seq<Indexed>)
    ensures RowsAscend(rows) ==> Ascending(KeysOf(rows))
    ensures forall x :: x in Elements(KeysOf(rows)) <==> exists row :: row in rows && Keyed(row.sort, row.id) == x
  {
    var keys := KeysOf(rows);
    if RowsAscend(rows) {
      forall i, j | 0 <= i < j < |keys| ensures Precedes(keys[i], keys[j]) {
        assert RowPrecedes(rows[i], rows[j]);
      }
    }
    forall x ensures x in Elements(keys) <==> exists row :: row in rows && Keyed(row.sort, row.id) == x {
      if x in Elements(keys) {
        var i :| 0 <= i < |keys| && keys[i] == x;
        assert rows[i] in rows && Keyed(rows[i].sort, rows[i].id) == x;
      }
      if row :| row in rows && Keyed(row.sort, row.id) == x {
        var i :| 0 <= i < |rows| && rows[i] == row;
        assert keys[i] == x;
      }
    }
  }

  lemma RowsOf(doc: Doc, rows: seq<Indexed>)
    requires Agrees(doc, rows)
    ensures RowsAscend(rows) && forall x :: x in LiveRows(doc) <==> exists row :: row in rows && Keyed(row.sort, row.id) == x
  {
    ListedHolds(LiveRows(doc));
    KeysHold(rows);
    forall i, j | 0 <= i < j < |rows| ensures RowPrecedes(rows[i], rows[j]) {
      assert Precedes(KeysOf(rows)[i], KeysOf(rows)[j]);
    }
  }

  /** The matching rows are the rows that pass, in row order. */
  lemma MatchingIsPassing(doc: Doc, rows: seq<Indexed>, filter: Option<Filter>, lower: string -> string)
    requires Agrees(doc, rows)
    ensures var matching := Matching(SchemaOf(doc), rows, filter, lower);
            RowsAscend(matching) && KeysOf(matching) == Listed(Passing(doc, filter, lower))
  {
    var matching, passing := Matching(SchemaOf(doc), rows, filter, lower), Passing(doc, filter, lower);
    RowsOf(doc, rows);
    MatchingHolds(doc, rows, filter, lower);
    KeysHold(matching);
    forall x ensures x in Elements(KeysOf(matching)) <==> x in passing {
      assert x in passing <==> x in LiveRows(doc) && RowPasses(doc, x.id, filter, lower);
      if x in passing {
        var row :| row in rows && Keyed(row.sort, row.id) == x;
        assert row in matching;
      }
    }
    ListedUnique(KeysOf(matching));
    assert Elements(KeysOf(matching)) == passing;
  }

  // ----- in which order -----

  lemma {:induction false} TiesHold(y: Indexed, s: seq<Indexed>, leq: (Indexed, Indexed) -> bool)
    ensures forall x :: x in Ties(y, s, leq) <==> x in s && leq(x, y) && leq(y, x)
  {
    if s != [] {
      TiesHold(y, s[1..], leq);
      assert s == [s[0]] + s[1..];
    }
  }

  lemma {:induction false} TiesAscend(y: Indexed, s: seq<Indexed>, leq: (Indexed, Indexed) -> bool)
    requires RowsAscend(s)
    ensures RowsAscend(Ties(y, s, leq))
  {
    if s != [] {
      var rest := Ties(y, s[1..], leq);
      TiesAscend(y, s[1..], leq);
      TiesHold(y, s[1..], leq);
      forall j | 0 <= j < |rest| ensures RowPrecedes(s[0], rest[j]) {
        assert rest[j] in s[1..];
      }
    }
  }

  /** Two elements that tie with `y` stand among its ties in their order. */
  lemma {:induction false} TiesPick(y: Indexed, s: seq<Indexed>, leq: (Indexed, Indexed) -> bool, i: nat, j: nat)
    returns (p: nat, q: nat)
    requires i < j < |s| && leq(s[i], y) && leq(y, s[i]) && leq(s[j], y) && leq(y, s[j])
    ensures p < q < |Ties(y, s, leq)| && Ties(y, s, leq)[p] == s[i] && Ties(y, s, leq)[q] == s[j]
  {
    var rest := Ties(y, s[1..], leq);
    if i == 0 {
      TiesHold(y, s[1..], leq);
      assert s[j] == s[1..][j - 1] && s[j] in rest;
      var k :| 0 <= k < |rest| && rest[k] == s[j];
      p, q := 0, k + 1;
    } else {
      p, q := TiesPick(y, s[1..], leq, i - 1, j - 1);
      if |Ties(y, s, leq)| > |rest| {
        p, q := p + 1, q + 1;
      }
    }
  }

  /** A stable sort of ascending rows leaves ties ascending. */
  lemma StableAscends(s: seq<Indexed>, r: seq<Indexed>, leq: (Indexed, Indexed) -> bool, i: nat, j: nat)
    requires RowsAscend(s) && PreorderOn(s, leq) && StableSortOf(s, r, leq) && i < j < |r| && leq(r[j], r[i])
    ensures RowPrecedes(r[i], r[j])
  {
    SameElements(r, s);
    assert r[i] in s && r[j] in s && leq(r[i], r[j]) && leq(r[i], r[i]);
    var p, q := TiesPick(r[i], r, leq, i, j);
    TiesAscend(r[i], s, leq);
  }

  /** One row comes before another by key and identity. */
  predicate RowBefore(doc: Doc, a: Id, b: Id) {
    a in doc.rows && b in doc.rows && Precedes(Keyed(doc.rows[a].sort, a), Keyed(doc.rows[b].sort, b))
  }

  ghost predicate ValuesInOrder(doc: Doc, sort: SortBy, a: Id, b: Id, lower: string -> string) {
    IsShown(doc, sort.field) ==>
      InOrder(doc, sort, StoredCell(doc, a, sort.field), StoredCell(doc, b, sort.field), lower)
  }

  /** One row stands before another in a window: by the values asked for, and by row order where they tie or
      none are. */
  ghost predicate ComesBefore(doc: Doc, sort: Option<SortBy>, a: Id, b: Id, lower: string -> string) {
    match sort
    case None => RowBefore(doc, a, b)
    case Some(s) =>
      ValuesInOrder(doc, s, a, b, lower) && (ValuesInOrder(doc, s, b, a, lower) ==> RowBefore(doc, a, b))
  }

  lemma RowsBefore(doc: Doc, rows: seq<Indexed>, a: Indexed, b: Indexed)
    requires Agrees(doc, rows) && a in rows && b in rows && RowPrecedes(a, b)
    ensures RowBefore(doc, a.id, b.id)
  {
    RowsOf(doc, rows);
    assert Keyed(a.sort, a.id) in LiveRows(doc) && Keyed(b.sort, b.id) in LiveRows(doc);
  }

  lemma OrderingMeans(doc: Doc, rows: seq<Indexed>, sort: SortBy, a: Indexed, b: Indexed, lower: string -> string)
    requires Agrees(doc, rows) && a in rows && b in rows && OwnOptions(doc, sort.field)
    ensures RowOrdering(SchemaOf(doc), sort, lower)(a, b) <==> ValuesInOrder(doc, sort, a.id, b.id, lower)
  {
    CellIsStored(doc, rows, a, sort.field);
    CellIsStored(doc, rows, b, sort.field);
    if IsShown(doc, sort.field) {
      OrderMeans(doc, sort, a.id, b.id, lower);
    }
  }

  /** Any two rows of a query stand in the order the document gives them. */
  lemma ArrangedInOrder(doc: Doc, rows: seq<Indexed>, query: RowQuery, lower: string -> string, i: nat, j: nat)
    requires Agrees(doc, rows) && (query.sort.Some? ==> OwnOptions(doc, query.sort.value.field))
    requires i < j < |Arranged(SchemaOf(doc), rows, query, lower)|
    ensures var arranged := Arranged(SchemaOf(doc), rows, query, lower);
            ComesBefore(doc, query.sort, arranged[i].id, arranged[j].id, lower)
  {
    var schema := SchemaOf(doc);
    var matching, arranged := Matching(schema, rows, query.filter, lower), Arranged(schema, rows, query, lower);
    MatchingIsPassing(doc, rows, query.filter, lower);
    MatchingIsPart(schema, rows, query.filter, lower);
    if query.sort.None? {
      RowsBefore(doc, rows, arranged[i], arranged[j]);
    } else {
      var sort := query.sort.value;
      var leq := RowOrdering(schema, sort, lower);
      ArrangedIsPart(doc, rows, query, lower, i);
      ArrangedIsPart(doc, rows, query, lower, j);
      StableSortExists(doc, rows, query, lower);
      MatchingRowsOrdered(doc, rows, query, sort, lower);
      OrderingMeans(doc, rows, sort, arranged[i], arranged[j], lower);
      OrderingMeans(doc, rows, sort, arranged[j], arranged[i], lower);
      assert leq(arranged[i], arranged[j]);
      if leq(arranged[j], arranged[i]) {
        StableAscends(matching, arranged, leq, i, j);
        RowsBefore(doc, rows, arranged[i], arranged[j]);
      }
    }
  }

  // ----- with which cells -----

  predicate FieldsAscend(cells: seq<(Id, Cell)>) {
    forall i, j | 0 <= i < j < |cells| :: Less(cells[i].0, cells[j].0)
  }

  /** A row as the document has it: exactly its stored cells of shown fields, each once, by field. */
  ghost predicate ShowsRow(doc: Doc, row: Row) {
    && FieldsAscend(row.cells)
    && (forall field, cell :: (field, cell) in row.cells <==> StoredCell(doc, row.id, field) == Some(cell))
  }

  lemma {:induction false} ShownCellsHold(live: seq<Id>, row: Indexed)
    ensures forall field, cell :: (field, cell) in ShownCells(live, row) <==> field in live && Lookup(row.cells, field) == Some(cell)
    ensures IdsDiffer(live) ==> FieldsDiffer(ShownCells(live, row))
  {
    if live != [] {
      ShownCellsHold(live[1..], row);
      assert live == [live[0]] + live[1..];
      var rest := ShownCells(live[1..], row);
      forall j | 0 <= j < |rest| ensures rest[j].0 in live[1..] {
        assert (rest[j].0, rest[j].1) in rest;
      }
    }
  }

  predicate FieldsDiffer(cells: seq<(Id, Cell)>) {
    forall i, j | 0 <= i < j < |cells| :: cells[i].0 != cells[j].0
  }

  predicate IdsDiffer(s: seq<Id>) {
    forall i, j | 0 <= i < j < |s| :: s[i] != s[j]
  }

  lemma {:induction false} KeepDiffers(s: seq<Id>, p: Id -> bool)
    requires IdsDiffer(s)
    ensures IdsDiffer(Keep(s, p))
  {
    if s != [] {
      KeepDiffers(s[1..], p);
      KeepHolds(s[1..], p);
      var rest := Keep(s[1..], p);
      forall j | 0 <= j < |rest| ensures rest[j] != s[0] {
        assert rest[j] in s[1..];
      }
    }
  }

  lemma ShownFieldsDiffer(doc: Doc)
    ensures IdsDiffer(ShownFields(doc))
  {
    var ids := Ids(Listed(LiveFields(doc)));
    forall i, j | 0 <= i < j < |ids| ensures ids[i] != ids[j] {
      ListedIdsDiffer(LiveFields(doc), i, j);
    }
    KeepDiffers(ids, field => IsShown(doc, field));
  }

  lemma CountedTwice(cells: seq<(Id, Cell)>, i: nat, j: nat)
    requires i < j < |cells| && cells[i] == cells[j]
    ensures multiset(cells)[cells[i]] >= 2
  {
    assert cells == cells[..j] + [cells[j]] + cells[j + 1..];
    assert cells[..j][i] in cells[..j];
  }

  lemma OneOfEach(cells: seq<(Id, Cell)>, k: nat)
    requires FieldsDiffer(cells) && k < |cells|
    ensures multiset(cells)[cells[k]] == 1
  {
    assert cells == cells[..k] + [cells[k]] + cells[k + 1..];
    assert cells[k] !in cells[..k] && cells[k] !in cells[k + 1..];
  }

  /** A rearrangement of cells of different fields has no field twice. */
  lemma RearrangedDiffer(cells: seq<(Id, Cell)>, r: seq<(Id, Cell)>)
    requires FieldsDiffer(cells) && multiset(r) == multiset(cells)
    ensures FieldsDiffer(r)
  {
    SameElements(r, cells);
    forall i, j | 0 <= i < j < |r| ensures r[i].0 != r[j].0 {
      assert r[i] in cells && r[j] in cells;
      var k :| 0 <= k < |cells| && cells[k] == r[i];
      var l :| 0 <= l < |cells| && cells[l] == r[j];
      if k == l {
        CountedTwice(r, i, j);
        OneOfEach(cells, k);
      }
    }
  }

  lemma ByIdIsPreorder(cells: seq<(Id, Cell)>)
    ensures PreorderOn(cells, ById)
  {
    forall x, y, z | x in cells && y in cells && z in cells && ById(x, y) && ById(y, z) ensures ById(x, z) {
      LeqTransitive(x.0, y.0, z.0);
    }
    forall x, y | x in cells && y in cells ensures ById(x, y) || ById(y, x) { LessTotal(x.0, y.0); }
  }

  lemma SortedAscend(cells: seq<(Id, Cell)>)
    requires FieldsDiffer(cells) && Sorted(cells, ById)
    ensures FieldsAscend(cells)
  {
    forall i, j | 0 <= i < j < |cells| ensures Less(cells[i].0, cells[j].0) {
      assert ById(cells[i], cells[j]);
      LessTotal(cells[i].0, cells[j].0);
    }
  }

  lemma SortedCells(cells: seq<(Id, Cell)>)
    requires FieldsDiffer(cells)
    ensures FieldsAscend(Sort(cells, ById))
  {
    var r := Sort(cells, ById);
    ByIdIsPreorder(cells);
    SortIsStable(cells, ById);
    RearrangedDiffer(cells, r);
    SortedAscend(r);
  }

  lemma RowIsShown(doc: Doc, rows: seq<Indexed>, row: Indexed)
    requires Agrees(doc, rows) && row in rows
    ensures ShowsRow(doc, ShownRow(ShownFields(doc), row))
  {
    var live := ShownFields(doc);
    ShownFieldsDiffer(doc);
    ShownCellsHold(live, row);
    SortedCells(ShownCells(live, row));
    SortElements(ShownCells(live, row), ById);
    forall field, cell ensures (field, cell) in ShownRow(live, row).cells <==> StoredCell(doc, row.id, field) == Some(cell) {
      CellIsStored(doc, rows, row, field);
    }
  }

  // ----- the whole window -----

  /** The rows that pass, in order. */
  ghost predicate Orders(doc: Doc, query: RowQuery, order: seq<Id>, lower: string -> string) {
    && |order| == |Passing(doc, query.filter, lower)|
    && (forall id :: id in order <==> exists x :: x in Passing(doc, query.filter, lower) && x.id == id)
    && (forall i, j | 0 <= i < j < |order| :: ComesBefore(doc, query.sort, order[i], order[j], lower))
  }

  ghost predicate Shows(doc: Doc, query: RowQuery, order: seq<Id>, window: Rows) {
    && window.count == |order|
    && |window.rows| == (if query.start >= |order| then 0
                         else if query.limit < |order| - query.start then query.limit else |order| - query.start)
    && forall k | 0 <= k < |window.rows| ::
         query.start + k < |order| && window.rows[k].id == order[query.start + k] && ShowsRow(doc, window.rows[k])
  }

  /** A window counts the rows that pass its filter and shows the ones asked for, in order and as stored. */
  lemma WindowShows(doc: Doc, rows: seq<Indexed>, query: RowQuery, lower: string -> string)
    requires Agrees(doc, rows) && (query.sort.Some? ==> OwnOptions(doc, query.sort.value.field))
    ensures if doc.deleted then Window(doc, rows, query, lower) == Err(NotFound)
            else Window(doc, rows, query, lower).Ok? &&
                 exists order :: Orders(doc, query, order, lower) && Shows(doc, query, order, Window(doc, rows, query, lower).value)
  {
    if !doc.deleted {
      var arranged := Arranged(SchemaOf(doc), rows, query, lower);
      var order := seq(|arranged|, i requires 0 <= i < |arranged| => arranged[i].id);
      PlainWindow(doc, rows, query, lower);
      ArrangedOrders(doc, rows, query, order, lower);
      ArrangedShows(doc, rows, query, order, lower);
    }
  }

  lemma ArrangedElements(doc: Doc, rows: seq<Indexed>, query: RowQuery, lower: string -> string)
    requires Agrees(doc, rows)
    ensures var arranged, matching := Arranged(SchemaOf(doc), rows, query, lower), Matching(SchemaOf(doc), rows, query.filter, lower);
            && |arranged| == |matching| && (forall row :: row in arranged <==> row in matching)
            && forall row | row in arranged :: row in rows
  {
    MatchingIsPart(SchemaOf(doc), rows, query.filter, lower);
    if query.sort.Some? {
      SortElements(Matching(SchemaOf(doc), rows, query.filter, lower), RowOrdering(SchemaOf(doc), query.sort.value, lower));
    }
  }

  /** What is arranged are the rows that pass. */
  lemma ArrangedHolds(doc: Doc, rows: seq<Indexed>, query: RowQuery, lower: string -> string)
    requires Agrees(doc, rows)
    ensures var arranged, passing := Arranged(SchemaOf(doc), rows, query, lower), Passing(doc, query.filter, lower);
            |arranged| == |passing| && RowsAre(arranged, passing)
  {
    var matching := Matching(SchemaOf(doc), rows, query.filter, lower);
    ArrangedElements(doc, rows, query, lower);
    MatchingIsPassing(doc, rows, query.filter, lower);
    ListedHolds(Passing(doc, query.filter, lower));
    KeysHold(matching);
  }

  ghost predicate RowsAre(rows: seq<Indexed>, keys: set<Keyed>) {
    forall x :: x in keys <==> exists row :: row in rows && Keyed(row.sort, row.id) == x
  }

  lemma IdsHold(rows: seq<Indexed>, order: seq<Id>, keys: set<Keyed>)
    requires RowsAre(rows, keys) && |order| == |rows| && forall i | 0 <= i < |order| :: order[i] == rows[i].id
    ensures forall id :: id in order <==> exists x :: x in keys && x.id == id
  {
    forall id ensures id in order <==> exists x :: x in keys && x.id == id {
      if id in order {
        var i :| 0 <= i < |order| && order[i] == id;
        assert rows[i] in rows;
        assert Keyed(rows[i].sort, rows[i].id) in keys;
      }
      if x :| x in keys && x.id == id {
        var row :| row in rows && Keyed(row.sort, row.id) == x;
        var i :| 0 <= i < |rows| && rows[i] == row;
        assert order[i] == id;
      }
    }
  }

  lemma ArrangedOrders(doc: Doc, rows: seq<Indexed>, query: RowQuery, order: seq<Id>, lower: string -> string)
    requires Agrees(doc, rows) && (query.sort.Some? ==> OwnOptions(doc, query.sort.value.field))
    requires var arranged := Arranged(SchemaOf(doc), rows, query, lower);
             |order| == |arranged| && forall i | 0 <= i < |order| :: order[i] == arranged[i].id
    ensures Orders(doc, query, order, lower)
  {
    ArrangedHolds(doc, rows, query, lower);
    IdsHold(Arranged(SchemaOf(doc), rows, query, lower), order, Passing(doc, query.filter, lower));
    forall i, j | 0 <= i < j < |order| ensures ComesBefore(doc, query.sort, order[i], order[j], lower) {
      ArrangedInOrder(doc, rows, query, lower, i, j);
    }
  }

  lemma ArrangedShows(doc: Doc, rows: seq<Indexed>, query: RowQuery, order: seq<Id>, lower: string -> string)
    requires Agrees(doc, rows) && !doc.deleted
    requires var arranged := Arranged(SchemaOf(doc), rows, query, lower);
             |order| == |arranged| && forall i | 0 <= i < |order| :: order[i] == arranged[i].id
    ensures Window(doc, rows, query, lower).Ok? && Shows(doc, query, order, Window(doc, rows, query, lower).value)
  {
    var arranged := Arranged(SchemaOf(doc), rows, query, lower);
    var window := Cut(arranged, query.start, query.limit);
    PlainWindow(doc, rows, query, lower);
    ArrangedElements(doc, rows, query, lower);
    forall k | 0 <= k < |window|
      ensures window[k].id == order[query.start + k] && ShowsRow(doc, ShownRow(ShownFields(doc), window[k]))
    {
      assert window[k] == arranged[query.start + k];
      RowIsShown(doc, rows, window[k]);
    }
  }

  /** So it is in a new Database after any history, whatever the kept index went through. */
  lemma HistoryShows(name: Id, events: seq<Event>, query: RowQuery, lower: string -> string)
    requires FreshRun(State(DatabaseInvariants.NewDoc(name, SortKey.Between), None), events, SortKey.Between)
    requires NewOptions(State(DatabaseInvariants.NewDoc(name, SortKey.Between), None), events, SortKey.Between)
    ensures var st := Run(State(DatabaseInvariants.NewDoc(name, SortKey.Between), None), events, SortKey.Between);
            if st.doc.deleted then Answer(st, query, lower) == Err(NotFound)
            else Answer(st, query, lower).Ok? &&
                 exists order :: Orders(st.doc, query, order, lower) && Shows(st.doc, query, order, Answer(st, query, lower).value)
  {
    var blank := State(DatabaseInvariants.NewDoc(name, SortKey.Between), None);
    var st := Run(blank, events, SortKey.Between);
    RunKeepsConsistency(blank, events, SortKey.Between);
    RunKeepsApart(blank, events, SortKey.Between);
    ReadAgrees(st.doc);
    if query.sort.Some? { ApartIsOwn(st.doc, query.sort.value.field); }
    WindowShows(st.doc, Loaded(st).index.value, query, lower);
  }
}
