/** The bytes of the wire format, part by part. */
module Wire {
  import opened Wrappers
  import opened Sequences
  import opened Codec
  import opened Bridge

  // ----- numbers -----

  lemma QuotientIs(n: int, p: int, q: int)
    requires p > 0 && q * p <= n < q * p + p
    ensures n / p == q
  {
    var d := n / p - q;
    assert d >= 1 ==> d * p >= p;
    assert d <= -1 ==> d * p <= 0 - p;
    assert n == (n / p) * p + n % p;
    assert d * p == (n / p) * p - q * p;
  }

  lemma DividedTwice(n: int, p: int)
    requires p > 0
    ensures n / 256 / p == n / (256 * p)
  {
    var m := n / 256;
    var q := m / p;
    assert m == q * p + m % p;
    assert q * (256 * p) == 256 * (q * p);
    QuotientIs(n, 256 * p, q);
  }

  lemma WrappedStep(n: int, p: nat)
    requires 0 <= n + 256 * p && n < 256 * p
    ensures 0 <= n / 256 + p && n / 256 < p
    ensures Wrapped(n, 256 * p) % 256 == n % 256 && Wrapped(n, 256 * p) / 256 == Wrapped(n / 256, p)
  {
  }

  /** A number's bytes are its digits to the base 256, also below zero, where they go on for ever. */
  lemma {:induction false} LowBytesAt(n: int, k: nat, i: nat)
    requires i < k && 0 <= n + Power(k) && n < Power(k)
    ensures LowBytes(Wrapped(n, Power(k)), k)[i] == n / Power(i) % 256
    decreases k
  {
    WrappedStep(n, Power(k - 1));
    if i > 0 {
      LowBytesAt(n / 256, k - 1, i - 1);
      DividedTwice(n, Power(i - 1));
    }
  }

  /** Where a number's i-th lowest byte stands. */
  function ByteAt(e: Endian, s: seq<Byte>, i: nat): Byte
    requires i < |s|
  {
    if e.Little? then s[i] else s[|s| - 1 - i]
  }

  /** The lowest byte first, or last in the other byte order. */
  lemma IntBytes(e: Endian, n: int, k: nat, i: nat)
    requires InRange(n, k) && i < k
    ensures ByteAt(e, WriteInt(e, n, k), i) == n / Power(i) % 256
  {
    LowBytesAt(n, k, i);
  }

  lemma {:induction false} LowBytesOf(n: nat, k: nat, i: nat)
    requires i < k
    ensures LowBytes(n, k)[i] == n / Power(i) % 256
    decreases k
  {
    if i > 0 {
      LowBytesOf(n / 256, k - 1, i - 1);
      DividedTwice(n, Power(i - 1));
    }
  }

  /** A length is four bytes, lowest first or last. */
  lemma LengthBytes(e: Endian, n: nat, i: nat)
    requires i < 4
    ensures |Length(e, n)| == 4 && ByteAt(e, Length(e, n), i) == n / Power(i) % 256
  {
    LowBytesOf(n, 4, i);
  }

  // ----- parts -----

  function Joined(blocks: seq<seq<Byte>>): seq<Byte> {
    if blocks == [] then [] else Joined(blocks[..|blocks| - 1]) + blocks[|blocks| - 1]
  }

  lemma JoinedNext(blocks: seq<seq<Byte>>, k: nat)
    requires k < |blocks|
    ensures Joined(blocks[..k + 1]) == Joined(blocks[..k]) + blocks[k]
  {
    assert blocks[..k + 1][..k] == blocks[..k];
  }

  ghost predicate PartsAre(e: Endian, fields: seq<Format>, parts: seq<Value>, blocks: seq<seq<Byte>>) {
    && TypedParts(fields, parts) && |blocks| == |fields|
    && forall i | 0 <= i < |fields| :: blocks[i] == Encode(e, fields[i], parts[i])
  }

  lemma {:induction false} PartsJoin(e: Endian, fields: seq<Format>, parts: seq<Value>, blocks: seq<seq<Byte>>, k: nat)
    requires PartsAre(e, fields, parts, blocks) && k <= |fields|
    ensures EncodeParts(e, fields, parts, k) == Joined(blocks[..k])
    decreases k
  {
    if k > 0 {
      PartsJoin(e, fields, parts, blocks, k - 1);
      JoinedNext(blocks, k - 1);
    }
  }

  /** A struct is its parts, one after the other. */
  lemma StructBytes(e: Endian, fields: seq<Format>, parts: seq<Value>, blocks: seq<seq<Byte>>)
    requires PartsAre(e, fields, parts, blocks)
    ensures Typed(StructFormat(fields), Struct(parts)) && Encode(e, StructFormat(fields), Struct(parts)) == Joined(blocks)
  {
    PartsJoin(e, fields, parts, blocks, |fields|);
    assert blocks[..|fields|] == blocks;
  }

  ghost predicate ItemsAre(e: Endian, element: Format, items: seq<Value>, blocks: seq<seq<Byte>>) {
    && TypedItems(element, items) && |blocks| == |items|
    && forall i | 0 <= i < |items| :: blocks[i] == Encode(e, element, items[i])
  }

  lemma {:induction false} ItemsJoin(e: Endian, element: Format, items: seq<Value>, blocks: seq<seq<Byte>>, k: nat)
    requires ItemsAre(e, element, items, blocks) && k <= |items|
    ensures EncodeItems(e, element, items, k) == Joined(blocks[..k])
    decreases k
  {
    if k > 0 {
      ItemsJoin(e, element, items, blocks, k - 1);
      JoinedNext(blocks, k - 1);
    }
  }

  /** A list is its length and then its items, one after the other. */
  lemma ListBytes(e: Endian, element: Format, items: seq<Value>, blocks: seq<seq<Byte>>)
    requires ItemsAre(e, element, items, blocks)
    ensures Typed(ListFormat(element), List(items))
    ensures Encode(e, ListFormat(element), List(items)) == Length(e, |items|) + Joined(blocks)
  {
    ItemsJoin(e, element, items, blocks, |items|);
    assert blocks[..|items|] == blocks;
  }

  function FlagBytes(b: bool): seq<Byte> {
    if b then [1] else [0]
  }

  function TextBytes(e: Endian, text: Utf8): seq<Byte> {
    Length(e, |text|) + text
  }

  function OptionalTextBytes(e: Endian, text: Option<Utf8>): seq<Byte> {
    if text.Some? then [1] + TextBytes(e, text.value) else [0]
  }

  /** A variant is its number, in four bytes. */
  lemma VariantBytes(e: Endian, variants: nat, index: nat)
    requires index < variants <= 256
    ensures Typed(EnumFormat(variants), Variant(index))
    ensures Encode(e, EnumFormat(variants), Variant(index)) == Length(e, index)
  {
    SmallVariant(index);
  }

  /** Flags and tags are one byte; any byte but 0 is read as set, and a number that no variant has is not read. */
  lemma TagsRead(e: Endian, item: Format, variants: nat, tag: Byte, rest: seq<Byte>)
    ensures Decode(e, BoolFormat, [tag] + rest) == Some((Bool(tag != 0), rest))
    ensures tag == 0 ==> Decode(e, OptionFormat(item), [tag] + rest) == Some((Nothing, rest))
    ensures tag != 0 && Decode(e, item, rest).Some? ==>
              Decode(e, OptionFormat(item), [tag] + rest)
              == Some((Just(Decode(e, item, rest).value.0), Decode(e, item, rest).value.1))
    ensures |rest| >= 4 && !(0 <= ReadInt(e, rest[..4]) < variants) ==> Decode(e, EnumFormat(variants), rest).None?
  {
    assert ([tag] + rest)[1..] == rest;
  }

  // ----- the bridge's own types -----

  const MUTATION_KINDS := [
    CreateArea, CreatePage, RenamePage, AddTextBlock, EditText, RemoveView, SplitTextBlock, JoinTextBlock, SetTextStyle,
    SetSectionBoundary, AddDatabaseBlock, RenameDatabase, AddField, RenameField, RemoveField, AddOption, AddRow, RemoveRow,
    MutationKind.SetCell]

  const TEXT_STYLES := [Paragraph, Heading1, Heading2, Heading3, Bullet, Numbered, Todo, Done, Quote]

  const FIELD_KINDS := [TextField, NumberField, SelectField, DateField, CheckboxField]

  const CELL_KINDS := [EmptyCell, TextCell, NumberCell, SelectCell, DateCell, CheckboxCell]

  const MATCHES := [IsEmpty, NotEmpty, Is, Contains]

  const QUERY_KINDS := [Areas, Pages, Views, TextOf, DatabaseOf, Rows]

  const ENTRY_KINDS := [User, Assistant, ToolResult, System, Approval, Custom, Other]

  /** Variants are numbered in the order they are declared in. */
  lemma MutationKindsNumbered(n: nat)
    requires n < 19
    ensures MutationKindNumber(MUTATION_KINDS[n]) == n && MutationKindAt(n) == MUTATION_KINDS[n]
  {
  }

  lemma VariantsNumbered(n: nat)
    ensures n < 9 ==> TextStyleNumber(TEXT_STYLES[n]) == n && TextStyleAt(n) == TEXT_STYLES[n]
    ensures n < 5 ==> FieldKindNumber(FIELD_KINDS[n]) == n && FieldKindAt(n) == FIELD_KINDS[n]
    ensures n < 6 ==> CellKindNumber(CELL_KINDS[n]) == n && CellKindAt(n) == CELL_KINDS[n]
    ensures n < 4 ==> MatchNumber(MATCHES[n]) == n && MatchAt(n) == MATCHES[n]
    ensures n < 6 ==> QueryKindNumber(QUERY_KINDS[n]) == n && QueryKindAt(n) == QUERY_KINDS[n]
    ensures n < 7 ==> EntryKindNumber(ENTRY_KINDS[n]) == n && EntryKindAt(n) == ENTRY_KINDS[n]
  {
  }

  function I64Bytes(e: Endian, n: int): seq<Byte>
    requires InRange(n, 8)
  {
    WriteInt(e, n, 8)
  }

  function CellBytes(e: Endian, c: Cell): seq<Byte> {
    Joined([Length(e, CellKindNumber(c.kind)), OptionalTextBytes(e, c.text), Ordered(e, LowBytes(c.number, 8)),
            FlagBytes(c.checked)])
  }

  function OptionalCellBytes(e: Endian, o: Option<Cell>): seq<Byte> {
    if o.Some? then [1] + CellBytes(e, o.value) else [0]
  }

  lemma TextIs(e: Endian, text: Utf8)
    requires ValidUtf8(text)
    ensures Typed(TextFormat, Text(text)) && Encode(e, TextFormat, Text(text)) == TextBytes(e, text)
  {
  }

  lemma FlagIs(e: Endian, b: bool)
    ensures Typed(BoolFormat, Bool(b)) && Encode(e, BoolFormat, Bool(b)) == FlagBytes(b)
  {
  }

  lemma OptionalTextIs(e: Endian, o: Option<Utf8>)
    requires ValidText(o)
    ensures Typed(OPTIONAL_TEXT, TextValue(o)) && Encode(e, OPTIONAL_TEXT, TextValue(o)) == OptionalTextBytes(e, o)
  {
  }

  lemma CellIs(e: Endian, c: Cell)
    requires ValidCell(c)
    ensures Typed(CELL, CellValue(c)) && Encode(e, CELL, CellValue(c)) == CellBytes(e, c)
  {
    var blocks := [Length(e, CellKindNumber(c.kind)), OptionalTextBytes(e, c.text), Ordered(e, LowBytes(c.number, 8)),
                   FlagBytes(c.checked)];
    VariantBytes(e, 6, CellKindNumber(c.kind));
    OptionalTextIs(e, c.text);
    FlagIs(e, c.checked);
    assert TypedParts(CELL.fields, CellValue(c).parts);
    assert PartsAre(e, CELL.fields, CellValue(c).parts, blocks);
    StructBytes(e, CELL.fields, CellValue(c).parts, blocks);
  }

  lemma OptionalCellIs(e: Endian, o: Option<Cell>)
    requires o.Some? ==> ValidCell(o.value)
    ensures Typed(OptionFormat(CELL), OptionalCellValue(o))
    ensures Encode(e, OptionFormat(CELL), OptionalCellValue(o)) == OptionalCellBytes(e, o)
  {
    if o.Some? { CellIs(e, o.value); }
  }

  /** What a mutation names: its kind and six identities. */
  function NamesBytes(e: Endian, m: Mutation): seq<seq<Byte>> {
    [Length(e, MutationKindNumber(m.kind)), OptionalTextBytes(e, m.area), OptionalTextBytes(e, m.page),
     OptionalTextBytes(e, m.parent), OptionalTextBytes(e, m.block), OptionalTextBytes(e, m.view),
     OptionalTextBytes(e, m.after)]
  }

  function EditBytes(e: Endian, m: Mutation): seq<seq<Byte>>
    requires ValidMutation(m)
  {
    [FlagBytes(m.last), OptionalTextBytes(e, m.text), I64Bytes(e, m.at), I64Bytes(e, m.delete),
     Length(e, TextStyleNumber(m.style)), FlagBytes(m.boundary)]
  }

  function ChangeBytes(e: Endian, m: Mutation): seq<seq<Byte>>
    requires ValidMutation(m)
  {
    [OptionalTextBytes(e, m.field), OptionalTextBytes(e, m.row),
     if m.fieldKind.Some? then [1] + Length(e, FieldKindNumber(m.fieldKind.value)) else [0],
     I64Bytes(e, m.color), OptionalCellBytes(e, m.cell)]
  }

  lemma NamesAre(e: Endian, m: Mutation)
    requires ValidMutation(m)
    ensures PartsAre(e, NAMES, NamesOf(m), NamesBytes(e, m))
  {
    NamesAreTyped(m);
    VariantBytes(e, 19, MutationKindNumber(m.kind));
    OptionalTextIs(e, m.area);
    OptionalTextIs(e, m.page);
    OptionalTextIs(e, m.parent);
    OptionalTextIs(e, m.block);
    OptionalTextIs(e, m.view);
    OptionalTextIs(e, m.after);
  }

  lemma EditIs(e: Endian, m: Mutation)
    requires ValidMutation(m)
    ensures PartsAre(e, EDIT, EditOf(m), EditBytes(e, m))
  {
    EditIsTyped(m);
    OptionalTextIs(e, m.text);
    VariantBytes(e, 9, TextStyleNumber(m.style));
  }

  lemma ChangeIs(e: Endian, m: Mutation)
    requires ValidMutation(m)
    ensures PartsAre(e, CHANGE, ChangeOf(m), ChangeBytes(e, m))
  {
    ChangeIsTyped(m);
    OptionalTextIs(e, m.field);
    OptionalTextIs(e, m.row);
    if m.fieldKind.Some? { VariantBytes(e, 5, FieldKindNumber(m.fieldKind.value)); }
    OptionalCellIs(e, m.cell);
  }

  lemma PartsTogether(e: Endian, f: seq<Format>, p: seq<Value>, b: seq<seq<Byte>>, g: seq<Format>, q: seq<Value>, c: seq<seq<Byte>>)
    requires PartsAre(e, f, p, b) && PartsAre(e, g, q, c)
    ensures PartsAre(e, f + g, p + q, b + c)
  {
    JoinParts(f, p, g, q);
  }

  /** A mutation is its eighteen parts, in the order of the fields. */
  lemma MutationBytes(e: Endian, m: Mutation)
    requires ValidMutation(m)
    ensures Typed(MUTATION, MutationValue(m))
    ensures Encode(e, MUTATION, MutationValue(m)) == Joined(NamesBytes(e, m) + EditBytes(e, m) + ChangeBytes(e, m))
  {
    var blocks := NamesBytes(e, m) + EditBytes(e, m) + ChangeBytes(e, m);
    NamesAre(e, m);
    EditIs(e, m);
    ChangeIs(e, m);
    PartsTogether(e, NAMES, NamesOf(m), NamesBytes(e, m), EDIT, EditOf(m), EditBytes(e, m));
    PartsTogether(e, NAMES + EDIT, NamesOf(m) + EditOf(m), NamesBytes(e, m) + EditBytes(e, m),
                  CHANGE, ChangeOf(m), ChangeBytes(e, m));
    StructBytes(e, NAMES + EDIT + CHANGE, NamesOf(m) + EditOf(m) + ChangeOf(m), blocks);
  }

  function SortBytes(e: Endian, o: Option<Sort>): seq<Byte> {
    if o.Some? then [1] + Joined([TextBytes(e, o.value.field), FlagBytes(o.value.descending)]) else [0]
  }

  function FilterBytes(e: Endian, o: Option<Filter>): seq<Byte> {
    if o.Some?
    then [1] + Joined([TextBytes(e, o.value.field), Length(e, MatchNumber(o.value.matches)), OptionalCellBytes(e, o.value.value)])
    else [0]
  }

  lemma SortIs(e: Endian, o: Option<Sort>)
    requires o.Some? ==> ValidUtf8(o.value.field)
    ensures Typed(OptionFormat(SORT), SortValue(o)) && Encode(e, OptionFormat(SORT), SortValue(o)) == SortBytes(e, o)
  {
    if o.Some? {
      var parts, blocks := SortValue(o).value.parts, [TextBytes(e, o.value.field), FlagBytes(o.value.descending)];
      TextIs(e, o.value.field);
      FlagIs(e, o.value.descending);
      assert TypedParts(SORT.fields, parts);
      assert PartsAre(e, SORT.fields, parts, blocks);
      StructBytes(e, SORT.fields, parts, blocks);
    }
  }

  lemma FilterIs(e: Endian, o: Option<Filter>)
    requires o.Some? ==> ValidFilter(o.value)
    ensures Typed(OptionFormat(FILTER), FilterValue(o)) && Encode(e, OptionFormat(FILTER), FilterValue(o)) == FilterBytes(e, o)
  {
    if o.Some? {
      var parts := FilterValue(o).value.parts;
      var blocks := [TextBytes(e, o.value.field), Length(e, MatchNumber(o.value.matches)), OptionalCellBytes(e, o.value.value)];
      VariantBytes(e, 4, MatchNumber(o.value.matches));
      OptionalCellIs(e, o.value.value);
      TextIs(e, o.value.field);
      assert TypedParts(FILTER.fields, parts);
      assert PartsAre(e, FILTER.fields, parts, blocks);
      StructBytes(e, FILTER.fields, parts, blocks);
    }
  }

  /** A query is its eight parts, in the order of the fields. */
  lemma QueryBytes(e: Endian, q: Query)
    requires ValidQuery(q)
    ensures Typed(QUERY, QueryValue(q))
    ensures Encode(e, QUERY, QueryValue(q)) ==
            Joined([Length(e, QueryKindNumber(q.kind)), OptionalTextBytes(e, q.area), OptionalTextBytes(e, q.page),
                    OptionalTextBytes(e, q.block), I64Bytes(e, q.start), I64Bytes(e, q.limit), SortBytes(e, q.sort),
                    FilterBytes(e, q.filter)])
  {
    var blocks := [Length(e, QueryKindNumber(q.kind)), OptionalTextBytes(e, q.area), OptionalTextBytes(e, q.page),
                   OptionalTextBytes(e, q.block), I64Bytes(e, q.start), I64Bytes(e, q.limit), SortBytes(e, q.sort),
                   FilterBytes(e, q.filter)];
    QueryIsTyped(q);
    VariantBytes(e, 6, QueryKindNumber(q.kind));
    OptionalTextIs(e, q.area);
    OptionalTextIs(e, q.page);
    OptionalTextIs(e, q.block);
    SortIs(e, q.sort);
    FilterIs(e, q.filter);
    assert PartsAre(e, QUERY.fields, QueryValue(q).parts, blocks);
    StructBytes(e, QUERY.fields, QueryValue(q).parts, blocks);
  }

  function TimeBytes(e: Endian, o: Option<int>): seq<Byte>
    requires o.Some? ==> InRange(o.value, 8)
  {
    if o.Some? then [1] + I64Bytes(e, o.value) else [0]
  }

  lemma TimeIs(e: Endian, o: Option<int>)
    requires o.Some? ==> InRange(o.value, 8)
    ensures Typed(OptionFormat(I64Format), TimeValue(o)) && Encode(e, OptionFormat(I64Format), TimeValue(o)) == TimeBytes(e, o)
  {
  }

  /** A tree node is its seven parts, in the order of the fields. */
  lemma TreeNodeBytes(e: Endian, t: TreeNode)
    requires ValidTreeNode(t)
    ensures Typed(TREE_NODE, TreeNodeValue(t))
    ensures Encode(e, TREE_NODE, TreeNodeValue(t)) ==
            Joined([TextBytes(e, t.id), OptionalTextBytes(e, t.parent), Length(e, EntryKindNumber(t.kind)),
                    TextBytes(e, t.preview), OptionalTextBytes(e, t.caption),
                    TimeBytes(e, t.atMs), FlagBytes(t.failed)])
  {
    var blocks := [TextBytes(e, t.id), OptionalTextBytes(e, t.parent), Length(e, EntryKindNumber(t.kind)),
                   TextBytes(e, t.preview), OptionalTextBytes(e, t.caption),
                   TimeBytes(e, t.atMs), FlagBytes(t.failed)];
    TreeNodeIsTyped(t);
    TextIs(e, t.id);
    TextIs(e, t.preview);
    TimeIs(e, t.atMs);
    FlagIs(e, t.failed);
    OptionalTextIs(e, t.parent);
    VariantBytes(e, 7, EntryKindNumber(t.kind));
    OptionalTextIs(e, t.caption);
    assert PartsAre(e, TREE_NODE.fields, TreeNodeValue(t).parts, blocks);
    StructBytes(e, TREE_NODE.fields, TreeNodeValue(t).parts, blocks);
  }
}
