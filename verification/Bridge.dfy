/** The bridge's own types in the wire format. */
module Bridge {
  import opened Wrappers
  import opened Sequences
  import opened Codec

  /** A text, as its UTF-8 bytes. */
  type Utf8 = seq<Byte>

  datatype MutationKind =
    | CreateArea | CreatePage | RenamePage | AddTextBlock | EditText | RemoveView | SplitTextBlock | JoinTextBlock
    | SetTextStyle | SetSectionBoundary | AddDatabaseBlock | RenameDatabase | AddField | RenameField | RemoveField
    | AddOption | AddRow | RemoveRow | SetCell

  datatype TextStyle = Paragraph | Heading1 | Heading2 | Heading3 | Bullet | Numbered | Todo | Done | Quote

  datatype FieldKind = TextField | NumberField | SelectField | DateField | CheckboxField

  datatype CellKind = EmptyCell | TextCell | NumberCell | SelectCell | DateCell | CheckboxCell

  datatype Match = IsEmpty | NotEmpty | Is | Contains

  datatype QueryKind = Areas | Pages | Views | TextOf | DatabaseOf | Rows

  datatype EntryKind = User | Assistant | ToolResult | System | Approval | Custom | Other

  datatype Cell = Cell(kind: CellKind, text: Option<Utf8>, number: nat, checked: bool)

  datatype Sort = Sort(field: Utf8, descending: bool)

  datatype Filter = Filter(field: Utf8, matches: Match, value: Option<Cell>)

  datatype Mutation = Mutation(
    kind: MutationKind,
    area: Option<Utf8>, page: Option<Utf8>, parent: Option<Utf8>, block: Option<Utf8>, view: Option<Utf8>,
    after: Option<Utf8>, last: bool, text: Option<Utf8>, at: int, delete: int, style: TextStyle, boundary: bool,
    field: Option<Utf8>, row: Option<Utf8>, fieldKind: Option<FieldKind>, color: int, cell: Option<Cell>)

  datatype Query = Query(
    kind: QueryKind, area: Option<Utf8>, page: Option<Utf8>, block: Option<Utf8>, start: int, limit: int,
    sort: Option<Sort>, filter: Option<Filter>)

  datatype TreeNode = TreeNode(
    id: Utf8, parent: Option<Utf8>, kind: EntryKind, preview: Utf8, caption: Option<Utf8>, atMs: Option<int>, failed: bool)

  // ----- formats -----

  const OPTIONAL_TEXT := OptionFormat(TextFormat)

  const CELL := StructFormat([EnumFormat(6), OPTIONAL_TEXT, F64Format, BoolFormat])

  const SORT := StructFormat([TextFormat, BoolFormat])

  const FILTER := StructFormat([TextFormat, EnumFormat(4), OptionFormat(CELL)])

  /** A mutation's parts, in their order: what it names, its edit, and its cell. */
  const NAMES := [
    EnumFormat(19), OPTIONAL_TEXT, OPTIONAL_TEXT, OPTIONAL_TEXT, OPTIONAL_TEXT, OPTIONAL_TEXT, OPTIONAL_TEXT]

  const EDIT := [BoolFormat, OPTIONAL_TEXT, I64Format, I64Format, EnumFormat(9), BoolFormat]

  const CHANGE := [OPTIONAL_TEXT, OPTIONAL_TEXT, OptionFormat(EnumFormat(5)), I64Format, OptionFormat(CELL)]

  const MUTATION := StructFormat(NAMES + EDIT + CHANGE)

  const QUERY := StructFormat([
    EnumFormat(6), OPTIONAL_TEXT, OPTIONAL_TEXT, OPTIONAL_TEXT, I64Format, I64Format, OptionFormat(SORT),
    OptionFormat(FILTER)])

  const TREE_NODE := StructFormat([
    TextFormat, OPTIONAL_TEXT, EnumFormat(7), TextFormat, OPTIONAL_TEXT, OptionFormat(I64Format), BoolFormat])

  // ----- variants, written as their numbers -----

  function MutationKindNumber(x: MutationKind): nat {
    match x
    case CreateArea => 0 case CreatePage => 1 case RenamePage => 2 case AddTextBlock => 3 case EditText => 4
    case RemoveView => 5 case SplitTextBlock => 6 case JoinTextBlock => 7 case SetTextStyle => 8
    case SetSectionBoundary => 9 case AddDatabaseBlock => 10 case RenameDatabase => 11 case AddField => 12
    case RenameField => 13 case RemoveField => 14 case AddOption => 15 case AddRow => 16 case RemoveRow => 17
    case SetCell => 18
  }

  function MutationKindAt(n: int): MutationKind {
    match n
    case 0 => CreateArea case 1 => CreatePage case 2 => RenamePage case 3 => AddTextBlock case 4 => EditText
    case 5 => RemoveView case 6 => SplitTextBlock case 7 => JoinTextBlock case 8 => SetTextStyle
    case 9 => SetSectionBoundary case 10 => AddDatabaseBlock case 11 => RenameDatabase case 12 => AddField
    case 13 => RenameField case 14 => RemoveField case 15 => AddOption case 16 => AddRow case 17 => RemoveRow
    case _ => SetCell
  }

  function TextStyleNumber(x: TextStyle): nat {
    match x
    case Paragraph => 0 case Heading1 => 1 case Heading2 => 2 case Heading3 => 3 case Bullet => 4
    case Numbered => 5 case Todo => 6 case Done => 7 case Quote => 8
  }

  function TextStyleAt(n: int): TextStyle {
    match n
    case 0 => Paragraph case 1 => Heading1 case 2 => Heading2 case 3 => Heading3 case 4 => Bullet
    case 5 => Numbered case 6 => Todo case 7 => Done case _ => Quote
  }

  function FieldKindNumber(x: FieldKind): nat {
    match x
    case TextField => 0 case NumberField => 1 case SelectField => 2 case DateField => 3 case CheckboxField => 4
  }

  function FieldKindAt(n: int): FieldKind {
    match n
    case 0 => TextField case 1 => NumberField case 2 => SelectField case 3 => DateField case _ => CheckboxField
  }

  function CellKindNumber(x: CellKind): nat {
    match x
    case EmptyCell => 0 case TextCell => 1 case NumberCell => 2 case SelectCell => 3 case DateCell => 4
    case CheckboxCell => 5
  }

  function CellKindAt(n: int): CellKind {
    match n
    case 0 => EmptyCell case 1 => TextCell case 2 => NumberCell case 3 => SelectCell case 4 => DateCell
    case _ => CheckboxCell
  }

  function MatchNumber(x: Match): nat {
    match x
    case IsEmpty => 0 case NotEmpty => 1 case Is => 2 case Contains => 3
  }

  function MatchAt(n: int): Match {
    match n
    case 0 => IsEmpty case 1 => NotEmpty case 2 => Is case _ => Contains
  }

  function QueryKindNumber(x: QueryKind): nat {
    match x
    case Areas => 0 case Pages => 1 case Views => 2 case TextOf => 3 case DatabaseOf => 4 case Rows => 5
  }

  function QueryKindAt(n: int): QueryKind {
    match n
    case 0 => Areas case 1 => Pages case 2 => Views case 3 => TextOf case 4 => DatabaseOf case _ => Rows
  }

  function EntryKindNumber(x: EntryKind): nat {
    match x
    case User => 0 case Assistant => 1 case ToolResult => 2 case System => 3 case Approval => 4 case Custom => 5
    case Other => 6
  }

  function EntryKindAt(n: int): EntryKind {
    match n
    case 0 => User case 1 => Assistant case 2 => ToolResult case 3 => System case 4 => Approval case 5 => Custom
    case _ => Other
  }

  // ----- values -----

  function TextValue(o: Option<Utf8>): Value {
    if o.None? then Nothing else Just(Text(o.value))
  }

  function CellValue(c: Cell): Value {
    Struct([Variant(CellKindNumber(c.kind)), TextValue(c.text), Bits(c.number), Bool(c.checked)])
  }

  function OptionalCellValue(o: Option<Cell>): Value {
    if o.None? then Nothing else Just(CellValue(o.value))
  }

  function FieldKindValue(o: Option<FieldKind>): Value {
    if o.None? then Nothing else Just(Variant(FieldKindNumber(o.value)))
  }

  function NamesOf(m: Mutation): seq<Value> {
    [Variant(MutationKindNumber(m.kind)), TextValue(m.area), TextValue(m.page), TextValue(m.parent),
     TextValue(m.block), TextValue(m.view), TextValue(m.after)]
  }

  function EditOf(m: Mutation): seq<Value> {
    [Bool(m.last), TextValue(m.text), Int(m.at), Int(m.delete), Variant(TextStyleNumber(m.style)), Bool(m.boundary)]
  }

  function ChangeOf(m: Mutation): seq<Value> {
    [TextValue(m.field), TextValue(m.row), FieldKindValue(m.fieldKind), Int(m.color), OptionalCellValue(m.cell)]
  }

  function MutationValue(m: Mutation): Value {
    Struct(NamesOf(m) + EditOf(m) + ChangeOf(m))
  }

  function SortValue(o: Option<Sort>): Value {
    if o.None? then Nothing else Just(Struct([Text(o.value.field), Bool(o.value.descending)]))
  }

  function FilterValue(o: Option<Filter>): Value {
    if o.None? then Nothing
    else Just(Struct([Text(o.value.field), Variant(MatchNumber(o.value.matches)), OptionalCellValue(o.value.value)]))
  }

  function QueryValue(q: Query): Value {
    Struct([
      Variant(QueryKindNumber(q.kind)), TextValue(q.area), TextValue(q.page), TextValue(q.block), Int(q.start),
      Int(q.limit), SortValue(q.sort), FilterValue(q.filter)])
  }

  function TimeValue(o: Option<int>): Value {
    if o.None? then Nothing else Just(Int(o.value))
  }

  function TreeNodeValue(t: TreeNode): Value {
    Struct([
      Text(t.id), TextValue(t.parent), Variant(EntryKindNumber(t.kind)), Text(t.preview), TextValue(t.caption),
      TimeValue(t.atMs), Bool(t.failed)])
  }

  // ----- what the types allow -----

  predicate ValidText(o: Option<Utf8>) {
    o.Some? ==> ValidUtf8(o.value)
  }

  predicate ValidCell(c: Cell) {
    ValidText(c.text) && c.number < Power(8)
  }

  predicate ValidFilter(f: Filter) {
    ValidUtf8(f.field) && (f.value.Some? ==> ValidCell(f.value.value))
  }

  predicate ValidMutation(m: Mutation) {
    && ValidText(m.area) && ValidText(m.page) && ValidText(m.parent) && ValidText(m.block) && ValidText(m.view)
    && ValidText(m.after) && ValidText(m.text) && InRange(m.at, 8) && InRange(m.delete, 8) && ValidText(m.field)
    && ValidText(m.row) && InRange(m.color, 8) && (m.cell.Some? ==> ValidCell(m.cell.value))
  }

  predicate ValidQuery(q: Query) {
    && ValidText(q.area) && ValidText(q.page) && ValidText(q.block) && InRange(q.start, 8) && InRange(q.limit, 8)
    && (q.sort.Some? ==> ValidUtf8(q.sort.value.field)) && (q.filter.Some? ==> ValidFilter(q.filter.value))
  }

  predicate ValidTreeNode(t: TreeNode) {
    && ValidUtf8(t.id) && ValidText(t.parent) && ValidUtf8(t.preview) && ValidText(t.caption)
    && (t.atMs.Some? ==> InRange(t.atMs.value, 8))
  }

  lemma SmallVariant(k: nat)
    requires k < 256
    ensures InRange(k, 4)
  {
    PowerOf4();
  }

  lemma TextIsTyped(o: Option<Utf8>)
    requires ValidText(o)
    ensures Typed(OPTIONAL_TEXT, TextValue(o))
  {
  }

  lemma CellIsTyped(o: Option<Cell>)
    requires o.Some? ==> ValidCell(o.value)
    ensures Typed(OptionFormat(CELL), OptionalCellValue(o))
  {
    if o.Some? {
      SmallVariant(CellKindNumber(o.value.kind));
      TextIsTyped(o.value.text);
      assert TypedParts(CELL.fields, CellValue(o.value).parts);
    }
  }

  lemma NamesAreTyped(m: Mutation)
    requires ValidMutation(m)
    ensures TypedParts(NAMES, NamesOf(m))
  {
    SmallVariant(MutationKindNumber(m.kind));
    TextIsTyped(m.area);
    TextIsTyped(m.page);
    TextIsTyped(m.parent);
    TextIsTyped(m.block);
    TextIsTyped(m.view);
    TextIsTyped(m.after);
  }

  lemma EditIsTyped(m: Mutation)
    requires ValidMutation(m)
    ensures TypedParts(EDIT, EditOf(m))
  {
    SmallVariant(TextStyleNumber(m.style));
    TextIsTyped(m.text);
  }

  lemma ChangeIsTyped(m: Mutation)
    requires ValidMutation(m)
    ensures TypedParts(CHANGE, ChangeOf(m))
  {
    if m.fieldKind.Some? {
      SmallVariant(FieldKindNumber(m.fieldKind.value));
    }
    assert Typed(OptionFormat(EnumFormat(5)), FieldKindValue(m.fieldKind));
    TextIsTyped(m.field);
    TextIsTyped(m.row);
    CellIsTyped(m.cell);
  }

  /** A struct whose parts come in two groups. */
  lemma JoinParts(f: seq<Format>, p: seq<Value>, g: seq<Format>, q: seq<Value>)
    requires TypedParts(f, p) && TypedParts(g, q)
    ensures TypedParts(f + g, p + q)
  {
  }

  lemma MutationIsTyped(m: Mutation)
    requires ValidMutation(m)
    ensures Typed(MUTATION, MutationValue(m))
  {
    NamesAreTyped(m);
    EditIsTyped(m);
    ChangeIsTyped(m);
    JoinParts(NAMES, NamesOf(m), EDIT, EditOf(m));
    JoinParts(NAMES + EDIT, NamesOf(m) + EditOf(m), CHANGE, ChangeOf(m));
  }

  lemma FilterIsTyped(o: Option<Filter>)
    requires o.Some? ==> ValidFilter(o.value)
    ensures Typed(OptionFormat(FILTER), FilterValue(o))
  {
    if o.Some? {
      SmallVariant(MatchNumber(o.value.matches));
      CellIsTyped(o.value.value);
      assert TypedParts(FILTER.fields, FilterValue(o).value.parts);
    }
  }

  lemma SortIsTyped(o: Option<Sort>)
    requires o.Some? ==> ValidUtf8(o.value.field)
    ensures Typed(OptionFormat(SORT), SortValue(o))
  {
    if o.Some? {
      assert TypedParts(SORT.fields, SortValue(o).value.parts);
    }
  }

  lemma QueryIsTyped(q: Query)
    requires ValidQuery(q)
    ensures Typed(QUERY, QueryValue(q))
  {
    SmallVariant(QueryKindNumber(q.kind));
    TextIsTyped(q.area);
    TextIsTyped(q.page);
    TextIsTyped(q.block);
    SortIsTyped(q.sort);
    FilterIsTyped(q.filter);
  }

  lemma TreeNodeIsTyped(t: TreeNode)
    requires ValidTreeNode(t)
    ensures Typed(TREE_NODE, TreeNodeValue(t))
  {
    SmallVariant(EntryKindNumber(t.kind));
    TextIsTyped(t.parent);
    TextIsTyped(t.caption);
    assert Typed(OptionFormat(I64Format), TimeValue(t.atMs));
  }

  // ----- back from values -----

  function OfText(v: Value): Utf8 {
    if v.Text? then v.bytes else []
  }

  function OfOptionalText(v: Value): Option<Utf8> {
    if v.Just? then Some(OfText(v.value)) else None
  }

  function OfVariant(v: Value): nat {
    if v.Variant? then v.index else 0
  }

  function OfInt(v: Value): int {
    if v.Int? then v.n else 0
  }

  predicate OfBool(v: Value) {
    v.Bool? && v.b
  }

  function Part(v: Value, i: nat): Value {
    if v.Struct? && i < |v.parts| then v.parts[i] else Nothing
  }

  function CellOf(v: Value): Cell {
    Cell(CellKindAt(OfVariant(Part(v, 0))), OfOptionalText(Part(v, 1)),
         if Part(v, 2).Bits? then Part(v, 2).bits else 0, OfBool(Part(v, 3)))
  }

  function OptionalCellOf(v: Value): Option<Cell> {
    if v.Just? then Some(CellOf(v.value)) else None
  }

  function FieldKindOf(v: Value): Option<FieldKind> {
    if v.Just? then Some(FieldKindAt(OfVariant(v.value))) else None
  }

  function MutationOf(v: Value): Mutation {
    Mutation(
      MutationKindAt(OfVariant(Part(v, 0))),
      OfOptionalText(Part(v, 1)), OfOptionalText(Part(v, 2)), OfOptionalText(Part(v, 3)), OfOptionalText(Part(v, 4)),
      OfOptionalText(Part(v, 5)), OfOptionalText(Part(v, 6)), OfBool(Part(v, 7)), OfOptionalText(Part(v, 8)),
      OfInt(Part(v, 9)), OfInt(Part(v, 10)), TextStyleAt(OfVariant(Part(v, 11))), OfBool(Part(v, 12)),
      OfOptionalText(Part(v, 13)), OfOptionalText(Part(v, 14)), FieldKindOf(Part(v, 15)), OfInt(Part(v, 16)),
      OptionalCellOf(Part(v, 17)))
  }

  function SortOf(v: Value): Option<Sort> {
    if v.Just? then Some(Sort(OfText(Part(v.value, 0)), OfBool(Part(v.value, 1)))) else None
  }

  function FilterOf(v: Value): Option<Filter> {
    if v.Just?
    then Some(Filter(OfText(Part(v.value, 0)), MatchAt(OfVariant(Part(v.value, 1))), OptionalCellOf(Part(v.value, 2))))
    else None
  }

  function QueryOf(v: Value): Query {
    Query(
      QueryKindAt(OfVariant(Part(v, 0))), OfOptionalText(Part(v, 1)), OfOptionalText(Part(v, 2)),
      OfOptionalText(Part(v, 3)), OfInt(Part(v, 4)), OfInt(Part(v, 5)), SortOf(Part(v, 6)), FilterOf(Part(v, 7)))
  }

  function TimeOf(v: Value): Option<int> {
    if v.Just? then Some(OfInt(v.value)) else None
  }

  function TreeNodeOf(v: Value): TreeNode {
    TreeNode(
      OfText(Part(v, 0)), OfOptionalText(Part(v, 1)), EntryKindAt(OfVariant(Part(v, 2))), OfText(Part(v, 3)),
      OfOptionalText(Part(v, 4)), TimeOf(Part(v, 5)), OfBool(Part(v, 6)))
  }

  // ----- round trips -----

  function Read<T>(e: Endian, f: Format, of: Value -> T, s: seq<Byte>): Option<(T, seq<Byte>)> {
    var r := Decode(e, f, s);
    if r.None? then None else Some((of(r.value.0), r.value.1))
  }

  /** A value of any type comes back from its encoding, with exactly the bytes that follow it. */
  lemma ReadsBack<T>(e: Endian, f: Format, of: Value -> T, v: Value, suffix: seq<Byte>)
    requires Typed(f, v) && Short(v)
    ensures Read(e, f, of, Encode(e, f, v) + suffix) == Some((of(v), suffix))
  {
    RoundTrip(e, f, v, suffix);
  }

  lemma CellBack(o: Option<Cell>)
    ensures OptionalCellOf(OptionalCellValue(o)) == o
  {
  }

  lemma MutationParts(m: Mutation, i: nat)
    ensures i < 7 ==> Part(MutationValue(m), i) == NamesOf(m)[i]
    ensures 7 <= i < 13 ==> Part(MutationValue(m), i) == EditOf(m)[i - 7]
    ensures 13 <= i < 18 ==> Part(MutationValue(m), i) == ChangeOf(m)[i - 13]
  {
  }

  lemma NamesBack(m: Mutation)
    ensures var r := MutationOf(MutationValue(m));
            && r.kind == m.kind && r.area == m.area && r.page == m.page && r.parent == m.parent && r.block == m.block
            && r.view == m.view && r.after == m.after
  {
    var v := MutationValue(m);
    assert forall i: nat | i < 7 :: Part(v, i) == NamesOf(m)[i] by {
      forall i: nat | i < 7 ensures Part(v, i) == NamesOf(m)[i] {
        MutationParts(m, i);
      }
    }
  }

  lemma EditBack(m: Mutation)
    ensures var r := MutationOf(MutationValue(m));
            && r.last == m.last && r.text == m.text && r.at == m.at && r.delete == m.delete && r.style == m.style
            && r.boundary == m.boundary
  {
    var v := MutationValue(m);
    assert forall i: nat | 7 <= i < 13 :: Part(v, i) == EditOf(m)[i - 7] by {
      forall i: nat | 7 <= i < 13 ensures Part(v, i) == EditOf(m)[i - 7] {
        MutationParts(m, i);
      }
    }
  }

  lemma ChangeBack(m: Mutation)
    ensures var r := MutationOf(MutationValue(m));
            && r.field == m.field && r.row == m.row && r.fieldKind == m.fieldKind && r.color == m.color
            && r.cell == m.cell
  {
    var v := MutationValue(m);
    assert forall i: nat | 13 <= i < 18 :: Part(v, i) == ChangeOf(m)[i - 13] by {
      forall i: nat | 13 <= i < 18 ensures Part(v, i) == ChangeOf(m)[i - 13] {
        MutationParts(m, i);
      }
    }
    CellBack(m.cell);
  }

  lemma QueryBack(q: Query)
    ensures QueryOf(QueryValue(q)) == q
  {
    if q.filter.Some? {
      CellBack(q.filter.value.value);
    }
    assert FilterOf(FilterValue(q.filter)) == q.filter;
    assert SortOf(SortValue(q.sort)) == q.sort;
  }

  lemma TreeNodeBack(t: TreeNode)
    ensures TreeNodeOf(TreeNodeValue(t)) == t
  {
  }

  /** A mutation comes back whole from its encoding, with exactly the bytes that follow it. */
  lemma MutationRoundTrip(e: Endian, m: Mutation, suffix: seq<Byte>)
    requires ValidMutation(m) && Short(MutationValue(m))
    ensures Typed(MUTATION, MutationValue(m))
    ensures Read(e, MUTATION, MutationOf, Encode(e, MUTATION, MutationValue(m)) + suffix) == Some((m, suffix))
  {
    MutationIsTyped(m);
    ReadsBack(e, MUTATION, MutationOf, MutationValue(m), suffix);
    NamesBack(m);
    EditBack(m);
    ChangeBack(m);
  }

  lemma QueryRoundTrip(e: Endian, q: Query, suffix: seq<Byte>)
    requires ValidQuery(q) && Short(QueryValue(q))
    ensures Typed(QUERY, QueryValue(q))
    ensures Read(e, QUERY, QueryOf, Encode(e, QUERY, QueryValue(q)) + suffix) == Some((q, suffix))
  {
    QueryIsTyped(q);
    ReadsBack(e, QUERY, QueryOf, QueryValue(q), suffix);
    QueryBack(q);
  }

  lemma TreeNodeRoundTrip(e: Endian, t: TreeNode, suffix: seq<Byte>)
    requires ValidTreeNode(t) && Short(TreeNodeValue(t))
    ensures Typed(TREE_NODE, TreeNodeValue(t))
    ensures Read(e, TREE_NODE, TreeNodeOf, Encode(e, TREE_NODE, TreeNodeValue(t)) + suffix) == Some((t, suffix))
  {
    TreeNodeIsTyped(t);
    ReadsBack(e, TREE_NODE, TreeNodeOf, TreeNodeValue(t), suffix);
    TreeNodeBack(t);
  }
}
