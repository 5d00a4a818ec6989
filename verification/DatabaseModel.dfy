/** One Database Block: its document entry, the mutations that write it, and the row
    index kept beside it. */
module DatabaseModel {
  import opened Wrappers
  import opened Listing
  import Dates

  const MAX_FIELDS: nat := 500
  const MAX_OPTIONS: nat := 500

  datatype Error = NotFound | WrongKind | TooMany | NoChange | Document | Storage

  datatype FieldKind = Text | Number | Select | Date | Checkbox

  /** A 64-bit float: a finite value, the zero below zero, or no finite value. */
  datatype Float = NegativeInfinity | Finite(value: real) | NegativeZero | PositiveInfinity | NotANumber

  predicate IsFinite(f: Float) {
    f.Finite? || f.NegativeZero?
  }

  /** Adding `0.0`, which turns the negative zero into zero. */
  function PlusZero(f: Float): Float {
    if f.NegativeZero? then Finite(0.0) else f
  }

  datatype Cell =
    | Empty
    | TextCell(text: string)
    | NumberCell(number: Float)
    | SelectCell(option: Id)
    | DateCell(date: string)
    | CheckboxCell(ticked: bool)

  /** What a document stores in a cell. */
  datatype Scalar = Str(text: string) | F64(number: Float) | Boolean(value: bool)

  datatype OptionEntry = OptionEntry(sort: string, deleted: bool)

  /** `kind` is none for a kind that a later version adds. */
  datatype FieldEntry = FieldEntry(kind: Option<FieldKind>, sort: string, deleted: bool, options: map<Id, OptionEntry>)

  datatype RowEntry = RowEntry(sort: string, deleted: bool, cells: map<Id, Scalar>)

  /** A Database Block's entry; removed objects stay in it as deleted. */
  datatype Doc = Doc(deleted: bool, fields: map<Id, FieldEntry>, rows: map<Id, RowEntry>)

  /** A row of the index; `cells` holds values by field. */
  datatype Indexed = Indexed(sort: string, id: Id, cells: map<Id, Cell>)

  // ----- reading the document -----

  function LiveRows(doc: Doc): set<Keyed> {
    set id | id in doc.rows && !doc.rows[id].deleted :: Keyed(doc.rows[id].sort, id)
  }

  function LiveFields(doc: Doc): set<Keyed> {
    set id | id in doc.fields && !doc.fields[id].deleted :: Keyed(doc.fields[id].sort, id)
  }

  function LiveOptions(field: FieldEntry): set<Keyed> {
    set id | id in field.options && !field.options[id].deleted :: Keyed(field.options[id].sort, id)
  }

  function RowOrder(doc: Doc): seq<Keyed> {
    Listed(LiveRows(doc))
  }

  predicate IsLiveRow(doc: Doc, row: Id) {
    row in doc.rows && !doc.rows[row].deleted
  }

  /** A live field of a kind this version knows. */
  predicate IsShown(doc: Doc, field: Id) {
    field in doc.fields && !doc.fields[field].deleted && doc.fields[field].kind.Some?
  }

  /** A stored value as its field's kind reads it, none if it is of another kind. */
  function Decode(kind: FieldKind, value: Scalar): Option<Cell> {
    match (kind, value)
    case (Text, Str(text)) => Some(TextCell(text))
    case (Number, F64(number)) => Some(NumberCell(number))
    case (Date, Str(date)) => Some(DateCell(date))
    case (Checkbox, Boolean(ticked)) => Some(CheckboxCell(ticked))
    case (Select, Str(option)) => Some(SelectCell(option))
    case _ => None
  }

  /** The cell of a live field as the document holds it. */
  function StoredCell(doc: Doc, row: Id, field: Id): Option<Cell> {
    if row in doc.rows && IsShown(doc, field) && field in doc.rows[row].cells
    then Decode(doc.fields[field].kind.value, doc.rows[row].cells[field])
    else None
  }

  function Lookup<T>(cells: map<Id, T>, field: Id): Option<T> {
    if field in cells then Some(cells[field]) else None
  }

  function ReadCells(doc: Doc, row: Id): map<Id, Cell> {
    map field | field in doc.fields && StoredCell(doc, row, field).Some? :: StoredCell(doc, row, field).value
  }

  /** The index as the document holds it. */
  function Read(doc: Doc): seq<Indexed> {
    var order := RowOrder(doc);
    seq(|order|, i requires 0 <= i < |order| => Indexed(order[i].sort, order[i].id, ReadCells(doc, order[i].id)))
  }

  function KeysOf(rows: seq<Indexed>): (keys: seq<Keyed>)
    ensures |keys| == |rows|
  {
    seq(|rows|, i requires 0 <= i < |rows| => Keyed(rows[i].sort, rows[i].id))
  }

  // ----- the index -----

  /** How many leading rows precede `x`. */
  function PartitionPoint(s: seq<Keyed>, x: Keyed): (i: nat)
    ensures i <= |s|
  {
    if s == [] || !Precedes(s[0], x) then 0 else 1 + PartitionPoint(s[1..], x)
  }

  function IndexInsert(rows: seq<Indexed>, sort: string, id: Id): seq<Indexed> {
    InsertAt(rows, PartitionPoint(KeysOf(rows), Keyed(sort, id)), Indexed(sort, id, map[]))
  }

  function IndexRemove(rows: seq<Indexed>, row: Id): seq<Indexed> {
    var i := Position(KeysOf(rows), row);
    if i < |rows| then RemoveAt(rows, i) else rows
  }

  function SetIn(cells: map<Id, Cell>, field: Id, cell: Cell): map<Id, Cell> {
    if cell.Empty? then cells - {field} else cells[field := cell]
  }

  function IndexSet(rows: seq<Indexed>, row: Id, field: Id, cell: Cell): seq<Indexed> {
    var i := Position(KeysOf(rows), row);
    if i < |rows| then rows[i := rows[i].(cells := SetIn(rows[i].cells, field, cell))] else rows
  }

  // ----- mutations -----

  /** A write to the Block. New objects carry the identity drawn for them. */
  datatype Mutation =
    | AddRow(rowPlace: Place, newRow: Id)
    | RemoveRow(row: Id)
    | SetCell(cellRow: Id, field: Id, value: Cell)
    | AddField(fieldPlace: Place, newField: Id, kind: FieldKind)
    | RemoveField(removed: Id)
    | AddOption(selectField: Id, newOption: Id)
    | RemoveBlock

  /** A loaded document, and the index once it was needed. */
  datatype State = State(doc: Doc, index: Option<seq<Indexed>>)

  /** What a write left in memory, and why it was refused if it was. */
  datatype Attempt = Attempt(state: State, error: Option<Error>)

  function PutRow(doc: Doc, row: Id, sort: string): Doc {
    PutRowEntry(doc, row, RowEntry(sort, false, map[]))
  }

  function PutRowEntry(doc: Doc, row: Id, entry: RowEntry): Doc {
    doc.(rows := doc.rows[row := entry])
  }

  function DropRow(doc: Doc, row: Id): Doc
    requires row in doc.rows
  {
    doc.(rows := doc.rows[row := doc.rows[row].(deleted := true)])
  }

  function PutCell(doc: Doc, row: Id, field: Id, value: Option<Scalar>): Doc
    requires row in doc.rows
  {
    var entry := doc.rows[row];
    var cells := if value.Some? then entry.cells[field := value.value] else entry.cells - {field};
    doc.(rows := doc.rows[row := entry.(cells := cells)])
  }

  function PutField(doc: Doc, field: Id, kind: FieldKind, sort: string): Doc {
    PutFieldEntry(doc, field, FieldEntry(Some(kind), sort, false, map[]))
  }

  function PutFieldEntry(doc: Doc, field: Id, entry: FieldEntry): Doc {
    doc.(fields := doc.fields[field := entry])
  }

  function DropField(doc: Doc, field: Id): Doc
    requires field in doc.fields
  {
    doc.(fields := doc.fields[field := doc.fields[field].(deleted := true)])
  }

  function PutOption(doc: Doc, field: Id, option: Id, sort: string): Doc
    requires field in doc.fields
  {
    PutOptionEntry(doc, field, option, OptionEntry(sort, false))
  }

  function PutOptionEntry(doc: Doc, field: Id, option: Id, o: OptionEntry): Doc
    requires field in doc.fields
  {
    var entry := doc.fields[field];
    doc.(fields := doc.fields[field := entry.(options := entry.options[option := o])])
  }

  /** What a cell of `field` stores for `value`, none to clear it. */
  function Encode(field: FieldEntry, value: Cell): Result<Option<Scalar>, Error>
    requires field.kind.Some?
  {
    match (field.kind.value, value)
    case (_, Empty) => Ok(None)
    case (Text, TextCell(text)) => Ok(Some(Str(text)))
    case (Number, NumberCell(number)) => if IsFinite(number) then Ok(Some(F64(PlusZero(number)))) else Err(WrongKind)
    case (Date, DateCell(date)) => if Dates.ValidDate(date) then Ok(Some(Str(date))) else Err(WrongKind)
    case (Checkbox, CheckboxCell(ticked)) => Ok(Some(Boolean(ticked)))
    case (Select, SelectCell(option)) =>
      if option in field.options && !field.options[option].deleted then Ok(Some(Str(option))) else Err(NotFound)
    case _ => Err(WrongKind)
  }

  /** The value the index keeps for `value`. */
  function Kept(value: Cell): Cell {
    if value.NumberCell? then NumberCell(PlusZero(value.number)) else value
  }

  function Refuse(st: State, error: Error): Attempt {
    Attempt(st, Some(error))
  }

  /** The index is read when it is first needed. */
  function Loaded(st: State): (r: State)
    ensures r.doc == st.doc && r.index.Some?
  {
    if st.index.Some? then st else State(st.doc, Some(Read(st.doc)))
  }

  predicate NeedsIndex(m: Mutation) {
    m.AddRow? || m.RemoveRow? || m.SetCell?
  }

  function WriteRow(st: State, m: Mutation, keys: KeyFunction): Attempt
    requires st.index.Some? && NeedsIndex(m)
  {
    var State(doc, Some(rows)) := st;
    if doc.deleted then Refuse(st, NotFound)
    else match m
      case AddRow(place, id) =>
        var sort := PlaceKey(KeysOf(rows), place, keys);
        if sort.None? then Refuse(st, NotFound)
        else Attempt(State(PutRow(doc, id, sort.value), Some(IndexInsert(rows, sort.value, id))), None)
      case RemoveRow(row) =>
        if !IsLiveRow(doc, row) then Refuse(st, NotFound)
        else Attempt(State(DropRow(doc, row), Some(IndexRemove(rows, row))), None)
      case SetCell(row, field, value) =>
        if !IsShown(doc, field) || !IsLiveRow(doc, row) then Refuse(st, NotFound)
        else (
          var encoded := Encode(doc.fields[field], value);
          if encoded.Err? then Refuse(st, encoded.error)
          else Attempt(State(PutCell(doc, row, field, encoded.value), Some(IndexSet(rows, row, field, Kept(value)))), None))
  }

  function WriteDoc(st: State, m: Mutation, keys: KeyFunction): Attempt
    requires !NeedsIndex(m)
  {
    var doc := st.doc;
    if doc.deleted then Refuse(st, NotFound)
    else match m
      case AddField(place, id, kind) =>
        var siblings := Listed(LiveFields(doc));
        if |siblings| >= MAX_FIELDS then Refuse(st, TooMany)
        else (
          var sort := PlaceKey(siblings, place, keys);
          if sort.None? then Refuse(st, NotFound)
          else Attempt(st.(doc := PutField(doc, id, kind, sort.value)), None))
      case RemoveField(field) =>
        if !IsShown(doc, field) then Refuse(st, NotFound) else Attempt(st.(doc := DropField(doc, field)), None)
      case AddOption(field, id) =>
        if !IsShown(doc, field) then Refuse(st, NotFound)
        else if doc.fields[field].kind.value != Select then Refuse(st, WrongKind)
        else (
          var siblings := Listed(LiveOptions(doc.fields[field]));
          if |siblings| >= MAX_OPTIONS then Refuse(st, TooMany)
          else Attempt(st.(doc := PutOption(doc, field, id, PlaceKey(siblings, Last, keys).value)), None))
      case RemoveBlock => Attempt(st.(doc := doc.(deleted := true)), None)
  }

  /** A write that no document write fails. */
  function Complete(st: State, m: Mutation, keys: KeyFunction): Attempt {
    if !NeedsIndex(m) then WriteDoc(st, m, keys)
    else if st.index.None? && st.doc.deleted then Refuse(st, NotFound)
    else WriteRow(Loaded(st), m, keys)
  }

  // ----- writing step by step -----

  /** A new row after each of its writes: its map, its key, its liveness and its map of cells. An
      object is deleted until it says that it is not. */
  function RowDrafts(sort: string): seq<RowEntry> {
    [RowEntry("", true, map[]), RowEntry(sort, true, map[]), RowEntry(sort, false, map[]), RowEntry(sort, false, map[])]
  }

  /** A new field after each of its writes: its map, name, kind, key, liveness and map of options. */
  function FieldDrafts(kind: FieldKind, sort: string): seq<FieldEntry> {
    [FieldEntry(None, "", true, map[]), FieldEntry(None, "", true, map[]), FieldEntry(Some(kind), "", true, map[]),
     FieldEntry(Some(kind), sort, true, map[]), FieldEntry(Some(kind), sort, false, map[]),
     FieldEntry(Some(kind), sort, false, map[])]
  }

  /** A new option after each of its writes: its map, name, colour, key and liveness. */
  function OptionDrafts(sort: string): seq<OptionEntry> {
    [OptionEntry("", true), OptionEntry("", true), OptionEntry("", true), OptionEntry(sort, true), OptionEntry(sort, false)]
  }

  /** How many times a mutation writes to the document. Removing the Block marks its View first. */
  function Writes(doc: Doc, m: Mutation): nat {
    match m
    case AddRow(_, _) => 4
    case AddField(_, _, _) => 6
    case AddOption(_, _) => 5
    case RemoveBlock => 2
    case SetCell(row, field, value) =>
      if value.Empty? && !(row in doc.rows && field in doc.rows[row].cells) then 0 else 1
    case _ => 1
  }

  /** The document after `k` of the writes that make `done` of it. */
  function HalfWritten(doc: Doc, m: Mutation, done: Doc, k: nat): Doc
    requires k < Writes(doc, m)
  {
    if k == 0 then doc
    else match m
      case AddRow(_, id) =>
        if id in done.rows then PutRowEntry(doc, id, RowDrafts(done.rows[id].sort)[k - 1]) else doc
      case AddField(_, id, kind) =>
        if id in done.fields then PutFieldEntry(doc, id, FieldDrafts(kind, done.fields[id].sort)[k - 1]) else doc
      case AddOption(field, id) =>
        if field in doc.fields && field in done.fields && id in done.fields[field].options
        then PutOptionEntry(doc, field, id, OptionDrafts(done.fields[field].options[id].sort)[k - 1]) else doc
      case _ => doc
  }

  /** A write that fails at document write `fault`, if it gets there: what was written before stays,
      and the index, which is updated last, does not change. */
  function Write(st: State, m: Mutation, fault: Option<nat>, keys: KeyFunction): Attempt {
    var a := Complete(st, m, keys);
    if a.error.None? && fault.Some? && fault.value < Writes(st.doc, m)
    then
      Attempt(State(HalfWritten(st.doc, m, a.state.doc, fault.value), if NeedsIndex(m) then Loaded(st).index else st.index),
              Some(Document))
    else a
  }

  /** What fails around a mutation: one of its writes to the document, and the store. */
  datatype Faults = Faults(write: Option<nat>, store: bool)

  /** The pipeline around a write. A refused write rolls the document back but not the index; a
      write of what is already stored is refused too; and a write the store does not take drops
      the page, which then loads again as the store holds it. */
  function Apply(st: State, m: Mutation, faults: Faults, keys: KeyFunction): Attempt {
    var a := Write(st, m, faults.write, keys);
    if a.error.Some? then Attempt(State(st.doc, a.state.index), a.error)
    else if a.state.doc == st.doc then Attempt(a.state, Some(NoChange))
    else if faults.store then Attempt(State(st.doc, None), Some(Storage))
    else a
  }

  /** The identity a mutation carries is new to the document. */
  predicate Fresh(doc: Doc, m: Mutation) {
    match m
    case AddRow(_, id) => id !in doc.rows
    case AddField(_, id, _) => id !in doc.fields && forall row | row in doc.rows :: id !in doc.rows[row].cells
    case AddOption(field, id) => field in doc.fields ==> id !in doc.fields[field].options
    case _ => true
  }
}
