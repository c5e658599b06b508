/** The row-schema table and the canonical text that its digest is taken of. Text is the
    encoded bytes; hashing itself is not modelled. */
module Schema {
  import opened Basics
  import opened Joining
  import opened Numerals

  datatype Field = Field(name: Bytes, tag: nat, nested: nat, optional: bool)
  datatype RowSchema = RowSchema(id: nat, name: Bytes, detail: Bytes, fields: seq<Field>)
  datatype Enum = Enum(id: nat, name: Bytes, variants: seq<Bytes>)
  datatype Verb = Verb(op: nat, name: Bytes, params: Bytes, schema: nat, stream: Bytes, entry: Bytes)
  datatype Table = Table(enums: seq<Enum>, schemas: seq<RowSchema>, verbs: seq<Verb>)

  const SPACE: Byte := 0x20
  const COMMA: Byte := 0x2C
  const BAR: Byte := 0x7C
  const COLON: Byte := 0x3A
  const NEWLINE: Byte := 0x0A

  const ENUM: Bytes := [0x65, 0x6E, 0x75, 0x6D]
  const SCHEMA: Bytes := [0x73, 0x63, 0x68, 0x65, 0x6D, 0x61]
  const VERB: Bytes := [0x76, 0x65, 0x72, 0x62]

  /** An identifier: not empty, and none of the separators of the canonical text. */
  predicate Ident(s: Bytes) {
    && s != [] && Without(s, SPACE) && Without(s, COMMA) && Without(s, BAR) && Without(s, COLON) && Without(s, NEWLINE)
  }

  lemma DigitsAreIdent(n: nat)
    ensures Ident(Numeral(n))
  {
    NumeralReads(n);
  }

  // ---- fields ----

  const YES: Bytes := [0x31]
  const NO: Bytes := [0x30]

  function FieldParts(f: Field): seq<Bytes> {
    [f.name, Numeral(f.tag), Numeral(f.nested), if f.optional then YES else NO]
  }

  function FieldText(f: Field): Bytes {
    Join(FieldParts(f), COLON)
  }

  function ParseField(text: Bytes): Field {
    var parts := SplitBy(text, COLON);
    if |parts| != 4 then Field([], 0, 0, false)
    else Field(parts[0], Max(Value(parts[1]), 0), Max(Value(parts[2]), 0), parts[3] == YES)
  }

  lemma FieldPartsAreIdents(f: Field)
    requires Ident(f.name)
    ensures forall k :: 0 <= k < |FieldParts(f)| ==> Ident(FieldParts(f)[k])
  {
    DigitsAreIdent(f.tag);
    DigitsAreIdent(f.nested);
  }

  lemma FieldRoundTrip(f: Field)
    requires Ident(f.name)
    ensures ParseField(FieldText(f)) == f
    ensures FieldText(f) != [] && Without(FieldText(f), SPACE) && Without(FieldText(f), BAR) && Without(FieldText(f), NEWLINE)
  {
    FieldPartsAreIdents(f);
    SplitUndoesJoin(FieldParts(f), COLON);
    NumeralReads(f.tag);
    NumeralReads(f.nested);
    JoinNotEmpty(FieldParts(f), COLON);
    JoinWithout(FieldParts(f), COLON, SPACE);
    JoinWithout(FieldParts(f), COLON, BAR);
    JoinWithout(FieldParts(f), COLON, NEWLINE);
  }

  // ---- rows of the canonical text ----

  datatype Row = EnumRow(e: Enum) | SchemaRow(s: RowSchema) | VerbRow(v: Verb) | Unknown

  function FieldTexts(fields: seq<Field>): seq<Bytes> {
    seq(|fields|, k requires 0 <= k < |fields| => FieldText(fields[k]))
  }

  function RowParts(r: Row): seq<Bytes> {
    match r
    case EnumRow(e) => [ENUM, Numeral(e.id), e.name, Join(e.variants, COMMA)]
    case SchemaRow(s) => [SCHEMA, Numeral(s.id), s.name, Join(FieldTexts(s.fields), BAR)]
    case VerbRow(v) => [VERB, Numeral(v.op), v.name, v.params, Numeral(v.schema), v.stream]
    case Unknown => []
  }

  function RowLine(r: Row): Bytes {
    Join(RowParts(r), SPACE)
  }

  function Items(text: Bytes, sep: Byte): seq<Bytes> {
    if text == [] then [] else SplitBy(text, sep)
  }

  function ParseFields(text: Bytes): seq<Field> {
    var items := Items(text, BAR);
    seq(|items|, k requires 0 <= k < |items| => ParseField(items[k]))
  }

  function RowOf(parts: seq<Bytes>): Row {
    if |parts| == 4 && parts[0] == ENUM then
      EnumRow(Enum(Max(Value(parts[1]), 0), parts[2], Items(parts[3], COMMA)))
    else if |parts| == 4 && parts[0] == SCHEMA then
      SchemaRow(RowSchema(Max(Value(parts[1]), 0), parts[2], [], ParseFields(parts[3])))
    else if |parts| == 6 && parts[0] == VERB then
      VerbRow(Verb(Max(Value(parts[1]), 0), parts[2], parts[3], Max(Value(parts[4]), 0), parts[5], []))
    else Unknown
  }

  function ParseRow(line: Bytes): Row {
    RowOf(SplitBy(line, SPACE))
  }

  /** What a decoder can see of a row: everything but the prose and the C symbol. */
  function WireRow(r: Row): Row {
    match r
    case SchemaRow(s) => SchemaRow(s.(detail := []))
    case VerbRow(v) => VerbRow(v.(entry := []))
    case EnumRow(_) => r
    case Unknown => r
  }

  /** Names are identifiers throughout. */
  predicate NamedRow(r: Row) {
    match r
    case EnumRow(e) => Ident(e.name) && forall k :: 0 <= k < |e.variants| ==> Ident(e.variants[k])
    case SchemaRow(s) => Ident(s.name) && forall k :: 0 <= k < |s.fields| ==> Ident(s.fields[k].name)
    case VerbRow(v) => Ident(v.name) && Ident(v.params) && Ident(v.stream)
    case Unknown => false
  }

  lemma ItemsUndoJoin(parts: seq<Bytes>, sep: Byte)
    requires forall k :: 0 <= k < |parts| ==> parts[k] != [] && Without(parts[k], sep)
    ensures Items(Join(parts, sep), sep) == parts
  {
    if parts != [] {
      SplitUndoesJoin(parts, sep);
      JoinNotEmpty(parts, sep);
    }
  }

  lemma VariantsRoundTrip(variants: seq<Bytes>)
    requires forall k :: 0 <= k < |variants| ==> Ident(variants[k])
    ensures Items(Join(variants, COMMA), COMMA) == variants
    ensures Without(Join(variants, COMMA), SPACE) && Without(Join(variants, COMMA), NEWLINE)
  {
    ItemsUndoJoin(variants, COMMA);
    JoinWithout(variants, COMMA, SPACE);
    JoinWithout(variants, COMMA, NEWLINE);
  }

  lemma FieldsRoundTrip(fields: seq<Field>)
    requires forall k :: 0 <= k < |fields| ==> Ident(fields[k].name)
    ensures ParseFields(Join(FieldTexts(fields), BAR)) == fields
    ensures Without(Join(FieldTexts(fields), BAR), SPACE) && Without(Join(FieldTexts(fields), BAR), NEWLINE)
  {
    var texts := FieldTexts(fields);
    forall k | 0 <= k < |texts|
      ensures ParseField(texts[k]) == fields[k]
      ensures texts[k] != [] && Without(texts[k], BAR) && Without(texts[k], SPACE) && Without(texts[k], NEWLINE)
    {
      FieldRoundTrip(fields[k]);
    }
    ItemsUndoJoin(texts, BAR);
    JoinWithout(texts, BAR, SPACE);
    JoinWithout(texts, BAR, NEWLINE);
  }

  predicate OneWord(part: Bytes) {
    Without(part, SPACE) && Without(part, NEWLINE)
  }

  predicate OneWordEach(parts: seq<Bytes>) {
    forall k :: 0 <= k < |parts| ==> OneWord(parts[k])
  }

  lemma NumeralIsOneWord(n: nat)
    ensures OneWord(Numeral(n)) && Max(Value(Numeral(n)), 0) == n
  {
    DigitsAreIdent(n);
    NumeralReads(n);
  }

  lemma EnumPartsRead(e: Enum)
    requires NamedRow(EnumRow(e))
    ensures OneWordEach(RowParts(EnumRow(e))) && RowOf(RowParts(EnumRow(e))) == EnumRow(e)
  {
    NumeralIsOneWord(e.id);
    VariantsRoundTrip(e.variants);
    assert OneWord(ENUM);
  }

  lemma SchemaPartsRead(s: RowSchema)
    requires NamedRow(SchemaRow(s))
    ensures OneWordEach(RowParts(SchemaRow(s))) && RowOf(RowParts(SchemaRow(s))) == WireRow(SchemaRow(s))
  {
    NumeralIsOneWord(s.id);
    FieldsRoundTrip(s.fields);
    assert OneWord(SCHEMA);
  }

  lemma VerbPartsRead(v: Verb)
    requires NamedRow(VerbRow(v))
    ensures OneWordEach(RowParts(VerbRow(v))) && RowOf(RowParts(VerbRow(v))) == WireRow(VerbRow(v))
  {
    NumeralIsOneWord(v.op);
    NumeralIsOneWord(v.schema);
    assert OneWord(VERB);
  }

  lemma RowPartsRead(r: Row)
    requires NamedRow(r)
    ensures RowParts(r) != [] && RowParts(r)[0] != []
    ensures OneWordEach(RowParts(r)) && RowOf(RowParts(r)) == WireRow(r)
  {
    match r {
      case EnumRow(e) => EnumPartsRead(e);
      case SchemaRow(s) => SchemaPartsRead(s);
      case VerbRow(v) => VerbPartsRead(v);
    }
  }

  /** A row reads back from its line, up to what a decoder cannot see. */
  lemma RowRoundTrip(r: Row)
    requires NamedRow(r)
    ensures ParseRow(RowLine(r)) == WireRow(r)
    ensures RowLine(r) != [] && Without(RowLine(r), NEWLINE)
  {
    RowPartsRead(r);
    SplitUndoesJoin(RowParts(r), SPACE);
    JoinNotEmpty(RowParts(r), SPACE);
    JoinWithout(RowParts(r), SPACE, NEWLINE);
  }

  // ---- what the text looks like ----

  /** A field is its name, tag, nested id and 1 or 0, with colons between them. */
  lemma FieldReads(f: Field)
    ensures FieldText(f) == f.name + [0x3A] + Numeral(f.tag) + [0x3A] + Numeral(f.nested) + [0x3A]
                            + [if f.optional then 0x31 else 0x30]
  {
    var parts := FieldParts(f);
    assert parts[1..][0] == Numeral(f.tag) && parts[1..][1..][0] == Numeral(f.nested);
    assert Join(parts[1..][1..][1..], COLON) == parts[3];
    assert Join(parts[1..][1..], COLON) == Numeral(f.nested) + [COLON] + parts[3];
    assert Join(parts[1..], COLON) == Numeral(f.tag) + [COLON] + (Numeral(f.nested) + [COLON] + parts[3]);
    assert Join(parts, COLON) == f.name + [COLON] + Join(parts[1..], COLON);
  }

  /** enum, id, name and the variants, with blanks between them and commas in the last. */
  lemma EnumLineReads(e: Enum)
    ensures RowLine(EnumRow(e))
         == [0x65, 0x6E, 0x75, 0x6D, 0x20] + Numeral(e.id) + [0x20] + e.name + [0x20] + Join(e.variants, 0x2C)
  {
    FourWords([0x65, 0x6E, 0x75, 0x6D], Numeral(e.id), e.name, Join(e.variants, COMMA));
  }

  /** schema, id, name and the fields, with bars in the last. */
  lemma SchemaLineReads(s: RowSchema)
    ensures RowLine(SchemaRow(s))
         == [0x73, 0x63, 0x68, 0x65, 0x6D, 0x61, 0x20] + Numeral(s.id) + [0x20] + s.name + [0x20]
            + Join(FieldTexts(s.fields), 0x7C)
  {
    FourWords([0x73, 0x63, 0x68, 0x65, 0x6D, 0x61], Numeral(s.id), s.name, Join(FieldTexts(s.fields), BAR));
  }

  /** verb, op, name, params, schema and stream. */
  lemma VerbLineReads(v: Verb)
    ensures RowLine(VerbRow(v))
         == [0x76, 0x65, 0x72, 0x62, 0x20] + Numeral(v.op) + [0x20] + v.name + [0x20]
            + (v.params + [0x20] + Numeral(v.schema) + [0x20] + v.stream)
  {
    SixWords([0x76, 0x65, 0x72, 0x62], Numeral(v.op), v.name, v.params, Numeral(v.schema), v.stream);
  }

  lemma SixWords(a: Bytes, b: Bytes, c: Bytes, d: Bytes, e: Bytes, f: Bytes)
    ensures Join([a, b, c, d, e, f], SPACE)
         == (a + [SPACE]) + b + [SPACE] + c + [SPACE] + (d + [SPACE] + e + [SPACE] + f)
  {
    ThreeWords(d, e, f);
    ThreeWordsFirst(a, b, c, [d, e, f]);
    assert [a, b, c] + [d, e, f] == [a, b, c, d, e, f];
  }

  lemma ThreeWordsFirst(a: Bytes, b: Bytes, c: Bytes, rest: seq<Bytes>)
    requires rest != []
    ensures Join([a, b, c] + rest, SPACE) == (a + [SPACE]) + b + [SPACE] + c + [SPACE] + Join(rest, SPACE)
  {
    JoinCons(c, rest, SPACE);
    JoinCons(b, [c] + rest, SPACE);
    JoinCons(a, [b] + ([c] + rest), SPACE);
    assert [a, b, c] + rest == [a] + ([b] + ([c] + rest));
    Flattened(a + [SPACE], b + [SPACE], c + [SPACE], Join(rest, SPACE));
  }

  lemma Flattened(a: Bytes, b: Bytes, c: Bytes, d: Bytes)
    ensures a + (b + (c + d)) == a + b + c + d
  {
  }

  lemma ThreeWords(a: Bytes, b: Bytes, c: Bytes)
    ensures Join([a, b, c], SPACE) == a + [SPACE] + b + [SPACE] + c
  {
    JoinCons(b, [c], SPACE);
    JoinCons(a, [b, c], SPACE);
    assert [a] + [b, c] == [a, b, c] && [b] + [c] == [b, c];
    assert a + [SPACE] + (b + [SPACE] + c) == a + [SPACE] + b + [SPACE] + c;
  }

  lemma FourWords(a: Bytes, b: Bytes, c: Bytes, d: Bytes)
    ensures Join([a, b, c, d], SPACE) == (a + [SPACE]) + b + [SPACE] + c + [SPACE] + d
  {
    ThreeWordsFirst(a, b, c, [d]);
    assert [a, b, c] + [d] == [a, b, c, d];
  }

  // ---- the table ----

  function RowsOf(t: Table): seq<Row> {
    seq(|t.enums|, k requires 0 <= k < |t.enums| => EnumRow(t.enums[k]))
    + seq(|t.schemas|, k requires 0 <= k < |t.schemas| => SchemaRow(t.schemas[k]))
    + seq(|t.verbs|, k requires 0 <= k < |t.verbs| => VerbRow(t.verbs[k]))
  }

  function LinesOf(rows: seq<Row>): seq<Bytes> {
    seq(|rows|, k requires 0 <= k < |rows| => RowLine(rows[k]))
  }

  /** The text _digest hashes. */
  function Canonical(t: Table): Bytes {
    Join(LinesOf(RowsOf(t)), NEWLINE)
  }

  function WireRows(rows: seq<Row>): seq<Row> {
    seq(|rows|, k requires 0 <= k < |rows| => WireRow(rows[k]))
  }

  /** The table a decoder can see. */
  function Wire(t: Table): Table {
    Table(t.enums,
          seq(|t.schemas|, k requires 0 <= k < |t.schemas| => t.schemas[k].(detail := [])),
          seq(|t.verbs|, k requires 0 <= k < |t.verbs| => t.verbs[k].(entry := [])))
  }

  predicate Named(t: Table) {
    forall k :: 0 <= k < |RowsOf(t)| ==> NamedRow(RowsOf(t)[k])
  }

  /** A parser that undoes the canonical text. */
  function ParseText(text: Bytes): seq<Row> {
    var lines := Items(text, NEWLINE);
    seq(|lines|, k requires 0 <= k < |lines| => ParseRow(lines[k]))
  }

  lemma TextRoundTrip(t: Table)
    requires Named(t)
    ensures ParseText(Canonical(t)) == WireRows(RowsOf(t))
  {
    var rows, lines := RowsOf(t), LinesOf(RowsOf(t));
    forall k | 0 <= k < |lines|
      ensures ParseRow(lines[k]) == WireRow(rows[k]) && lines[k] != [] && Without(lines[k], NEWLINE)
    {
      RowRoundTrip(rows[k]);
    }
    ItemsUndoJoin(lines, NEWLINE);
  }

  lemma LinesOfBoth(a: seq<Row>, b: seq<Row>)
    ensures LinesOf(a + b) == LinesOf(a) + LinesOf(b)
  {
  }

  /** The text: a line for each enum, then for each schema, then for each verb, in order, with
      newlines between them. */
  lemma TextInOrder(t: Table)
    ensures Canonical(t)
         == Join(seq(|t.enums|, k requires 0 <= k < |t.enums| => RowLine(EnumRow(t.enums[k])))
                 + seq(|t.schemas|, k requires 0 <= k < |t.schemas| => RowLine(SchemaRow(t.schemas[k])))
                 + seq(|t.verbs|, k requires 0 <= k < |t.verbs| => RowLine(VerbRow(t.verbs[k]))), 0x0A)
  {
    var es := seq(|t.enums|, k requires 0 <= k < |t.enums| => EnumRow(t.enums[k]));
    var ss := seq(|t.schemas|, k requires 0 <= k < |t.schemas| => SchemaRow(t.schemas[k]));
    var vs := seq(|t.verbs|, k requires 0 <= k < |t.verbs| => VerbRow(t.verbs[k]));
    LinesOfBoth(es + ss, vs);
    LinesOfBoth(es, ss);
    assert LinesOf(es) == seq(|t.enums|, k requires 0 <= k < |t.enums| => RowLine(EnumRow(t.enums[k])));
    assert LinesOf(ss) == seq(|t.schemas|, k requires 0 <= k < |t.schemas| => RowLine(SchemaRow(t.schemas[k])));
    assert LinesOf(vs) == seq(|t.verbs|, k requires 0 <= k < |t.verbs| => RowLine(VerbRow(t.verbs[k])));
  }

  lemma WireRowsOfTable(t: Table)
    ensures WireRows(RowsOf(t)) == RowsOf(Wire(t))
  {
  }

  /** The kind of a row tells its section. */
  lemma RowKinds(t: Table, k: nat)
    requires k < |RowsOf(t)|
    ensures RowsOf(t)[k].EnumRow? <==> k < |t.enums|
    ensures RowsOf(t)[k].VerbRow? <==> |t.enums| + |t.schemas| <= k
  {
  }

  lemma SameSections(t: Table, u: Table)
    requires RowsOf(t) == RowsOf(u)
    ensures |t.enums| <= |u.enums| && |t.enums| + |t.schemas| <= |u.enums| + |u.schemas|
  {
    var size, n, m := |RowsOf(t)|, |u.enums|, |u.enums| + |u.schemas|;
    if n < size {
      RowKinds(t, n);
      RowKinds(u, n);
    }
    if m < size {
      RowKinds(t, m);
      RowKinds(u, m);
    }
  }

  lemma RowsDetermineTable(t: Table, u: Table)
    requires RowsOf(t) == RowsOf(u)
    ensures t == u
  {
    SameSections(t, u);
    SameSections(u, t);
    var a, b := RowsOf(t), RowsOf(u);
    forall k | 0 <= k < |t.enums|
      ensures t.enums[k] == u.enums[k]
    {
      assert a[k] == EnumRow(t.enums[k]) && b[k] == EnumRow(u.enums[k]);
    }
    forall k | 0 <= k < |t.schemas|
      ensures t.schemas[k] == u.schemas[k]
    {
      assert a[|t.enums| + k] == SchemaRow(t.schemas[k]) && b[|t.enums| + k] == SchemaRow(u.schemas[k]);
    }
    forall k | 0 <= k < |t.verbs|
      ensures t.verbs[k] == u.verbs[k]
    {
      var n := |t.enums| + |t.schemas| + k;
      assert a[n] == VerbRow(t.verbs[k]) && b[n] == VerbRow(u.verbs[k]);
    }
  }

  /** The canonical text is the wire-visible table, no more and no less: two tables over
      identifiers have equal texts exactly when a decoder cannot tell them apart. */
  lemma TextIsWire(t: Table, u: Table)
    requires Named(t) && Named(u)
    ensures Canonical(t) == Canonical(u) <==> Wire(t) == Wire(u)
  {
    TextRoundTrip(t);
    TextRoundTrip(u);
    WireRowsOfTable(t);
    WireRowsOfTable(u);
    if Canonical(t) == Canonical(u) {
      RowsDetermineTable(Wire(t), Wire(u));
    }
    if Wire(t) == Wire(u) {
      SameLines(t, u);
    }
  }

  lemma LineIgnoresProse(r: Row)
    ensures RowLine(r) == RowLine(WireRow(r))
  {
  }

  lemma SameLines(t: Table, u: Table)
    requires WireRows(RowsOf(t)) == WireRows(RowsOf(u))
    ensures Canonical(t) == Canonical(u)
  {
    var a, b := RowsOf(t), RowsOf(u);
    assert |a| == |WireRows(a)| == |b|;
    forall k | 0 <= k < |a|
      ensures RowLine(a[k]) == RowLine(b[k])
    {
      LineIgnoresProse(a[k]);
      LineIgnoresProse(b[k]);
      assert WireRows(a)[k] == WireRows(b)[k];
    }
    assert LinesOf(a) == LinesOf(b);
  }
}
