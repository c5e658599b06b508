/** Loading the schema contract: resolving names to ids, sorting by id, and refusing
    anything that does not resolve or whose ids are not 1 to n. */
module SchemaLoad {
  import opened Basics
  import opened Schema
  import opened Sorting

  /** The type of a field, up to its argument; the order of the known kinds is their tag. */
  datatype Kind = TextKind | I64Kind | F64Kind | BoolKind | EnumKind | TextsKind | RowsKind | UnknownKind

  datatype RawField = RawField(name: Bytes, kind: Kind, arg: Bytes, optional: bool)
  datatype RawSchema = RawSchema(name: Bytes, id: nat, detail: Bytes, fields: seq<RawField>)
  datatype RawVerb = RawVerb(name: Bytes, op: nat, params: Bytes, schema: Bytes, stream: Bytes, producer: Bytes)

  /** The parsed contract. Enums already have the shape they keep. */
  datatype Doc = Doc(enums: seq<Enum>, schemas: seq<RawSchema>, verbs: seq<RawVerb>,
                     params: set<Bytes>, producers: map<Bytes, Bytes>)

  const ONE: Bytes := [0x6F, 0x6E, 0x65]
  const MANY: Bytes := [0x6D, 0x61, 0x6E, 0x79]
  const MAX_FIELDS := 64

  function TagOf(k: Kind): nat {
    match k
    case TextKind => 0 case I64Kind => 1 case F64Kind => 2 case BoolKind => 3
    case EnumKind => 4 case TextsKind => 5 case RowsKind => 6 case UnknownKind => 7
  }

  /** enum_id.get(name, 0) */
  function EnumId(enums: seq<Enum>, name: Bytes): nat {
    if enums == [] then 0
    else if enums[|enums| - 1].name == name then enums[|enums| - 1].id
    else EnumId(enums[..|enums| - 1], name)
  }

  /** schema_id[name], None when there is no such schema. */
  function SchemaId(schemas: seq<RawSchema>, name: Bytes): Option<nat> {
    if schemas == [] then None
    else if schemas[|schemas| - 1].name == name then Some(schemas[|schemas| - 1].id)
    else SchemaId(schemas[..|schemas| - 1], name)
  }

  function OrZero(id: Option<nat>): nat {
    if id.Some? then id.value else 0
  }

  function NestedOf(doc: Doc, f: RawField): nat {
    match f.kind
    case EnumKind => EnumId(doc.enums, f.arg)
    case RowsKind => OrZero(SchemaId(doc.schemas, f.arg))
    case _ => 0
  }

  predicate FieldOk(doc: Doc, f: RawField) {
    f.kind != UnknownKind && (f.kind.EnumKind? || f.kind.RowsKind? ==> NestedOf(doc, f) != 0)
  }

  function FieldOf(doc: Doc, f: RawField): Field {
    Field(f.name, TagOf(f.kind), NestedOf(doc, f), f.optional)
  }

  predicate SchemaOk(doc: Doc, s: RawSchema) {
    |s.fields| <= MAX_FIELDS && forall k :: 0 <= k < |s.fields| ==> FieldOk(doc, s.fields[k])
  }

  function SchemaOf(doc: Doc, s: RawSchema): RowSchema {
    RowSchema(s.id, s.name, s.detail, seq(|s.fields|, k requires 0 <= k < |s.fields| => FieldOf(doc, s.fields[k])))
  }

  predicate VerbOk(doc: Doc, v: RawVerb) {
    && v.params in doc.params && SchemaId(doc.schemas, v.schema).Some?
    && (v.stream == ONE || v.stream == MANY) && v.producer in doc.producers
  }

  function VerbOf(doc: Doc, v: RawVerb): Verb {
    Verb(v.op, v.name, v.params, OrZero(SchemaId(doc.schemas, v.schema)), v.stream,
         if v.producer in doc.producers then doc.producers[v.producer] else [])
  }

  // ---- sorting by id ----

  function EnumKey(): Enum -> real {
    (e: Enum) => e.id as real
  }

  function SchemaKey(): RowSchema -> real {
    (s: RowSchema) => s.id as real
  }

  function VerbKey(): Verb -> real {
    (v: Verb) => v.op as real
  }

  /** _contiguous: position id - 1 holds id. */
  predicate Contiguous<T>(key: T -> real, s: seq<T>) {
    forall k :: 0 <= k < |s| ==> key(s[k]) == (k + 1) as real
  }

  /** In a contiguous table an entry is found at its id. */
  lemma FoundAtItsId<T>(key: T -> real, s: seq<T>, i: nat, id: int)
    requires Contiguous(key, SortBy(key, s)) && i < |s| && key(s[i]) == id as real
    ensures 1 <= id <= |SortBy(key, s)| && SortBy(key, s)[id - 1] == s[i]
  {
    SortPermutes(key, s);
    var k := Elsewhere(s, SortBy(key, s), i);
    assert key(SortBy(key, s)[k]) == (k + 1) as real;
  }

  // ---- the table ----

  function Schemas(doc: Doc): seq<RowSchema> {
    seq(|doc.schemas|, k requires 0 <= k < |doc.schemas| => SchemaOf(doc, doc.schemas[k]))
  }

  function Verbs(doc: Doc): seq<Verb> {
    seq(|doc.verbs|, k requires 0 <= k < |doc.verbs| => VerbOf(doc, doc.verbs[k]))
  }

  function TableOf(doc: Doc): Table {
    Table(SortBy(EnumKey(), doc.enums), SortBy(SchemaKey(), Schemas(doc)), SortBy(VerbKey(), Verbs(doc)))
  }

  predicate Acceptable(doc: Doc) {
    && (forall k :: 0 <= k < |doc.schemas| ==> SchemaOk(doc, doc.schemas[k]))
    && (forall k :: 0 <= k < |doc.verbs| ==> VerbOk(doc, doc.verbs[k]))
    && Contiguous(SchemaKey(), TableOf(doc).schemas)
    && Contiguous(VerbKey(), TableOf(doc).verbs)
    && Contiguous(EnumKey(), TableOf(doc).enums)
  }

  /** load: None where the generator dies with the drift. */
  method Load(doc: Doc) returns (out: Option<Table>)
    ensures out == if Acceptable(doc) then Some(TableOf(doc)) else None
  {
    var enums := SortBy(EnumKey(), doc.enums);
    var schemas := LoadSchemas(doc);
    if schemas == None {
      return None;
    }
    var verbs := LoadVerbs(doc);
    if verbs == None {
      return None;
    }
    var t := Table(enums, SortBy(SchemaKey(), schemas.value), SortBy(VerbKey(), verbs.value));
    if !Contiguous(SchemaKey(), t.schemas) || !Contiguous(VerbKey(), t.verbs) || !Contiguous(EnumKey(), t.enums) {
      return None;
    }
    return Some(t);
  }

  method LoadSchemas(doc: Doc) returns (schemas: Option<seq<RowSchema>>)
    ensures schemas.Some? <==> forall k :: 0 <= k < |doc.schemas| ==> SchemaOk(doc, doc.schemas[k])
    ensures schemas.Some? ==> schemas.value == Schemas(doc)
  {
    var out: seq<RowSchema> := [];
    for i := 0 to |doc.schemas|
      invariant forall k :: 0 <= k < i ==> SchemaOk(doc, doc.schemas[k])
      invariant |out| == i && forall k :: 0 <= k < i ==> out[k] == SchemaOf(doc, doc.schemas[k])
    {
      var s := doc.schemas[i];
      var fields := LoadFields(doc, s.fields);
      if fields == None || |fields.value| > MAX_FIELDS {
        return None;
      }
      out := out + [RowSchema(s.id, s.name, s.detail, fields.value)];
    }
    return Some(out);
  }

  method LoadFields(doc: Doc, raw: seq<RawField>) returns (fields: Option<seq<Field>>)
    ensures fields.Some? <==> forall k :: 0 <= k < |raw| ==> FieldOk(doc, raw[k])
    ensures fields.Some? ==> fields.value == seq(|raw|, k requires 0 <= k < |raw| => FieldOf(doc, raw[k]))
  {
    var out: seq<Field> := [];
    for j := 0 to |raw|
      invariant forall k :: 0 <= k < j ==> FieldOk(doc, raw[k])
      invariant |out| == j && forall k :: 0 <= k < j ==> out[k] == FieldOf(doc, raw[k])
    {
      var f := raw[j];
      if f.kind == UnknownKind {
        assert !FieldOk(doc, raw[j]);
        return None;
      }
      var nested := 0;
      if f.kind == EnumKind {
        nested := EnumId(doc.enums, f.arg);
        if nested == 0 {
          return None;
        }
      } else if f.kind == RowsKind {
        nested := OrZero(SchemaId(doc.schemas, f.arg));
        if nested == 0 {
          return None;
        }
      }
      out := out + [Field(f.name, TagOf(f.kind), nested, f.optional)];
    }
    return Some(out);
  }

  method LoadVerbs(doc: Doc) returns (verbs: Option<seq<Verb>>)
    ensures verbs.Some? <==> forall k :: 0 <= k < |doc.verbs| ==> VerbOk(doc, doc.verbs[k])
    ensures verbs.Some? ==> verbs.value == Verbs(doc)
  {
    var out: seq<Verb> := [];
    for i := 0 to |doc.verbs|
      invariant forall k :: 0 <= k < i ==> VerbOk(doc, doc.verbs[k])
      invariant |out| == i && forall k :: 0 <= k < i ==> out[k] == VerbOf(doc, doc.verbs[k])
    {
      var v := doc.verbs[i];
      if v.params !in doc.params || SchemaId(doc.schemas, v.schema).None? || (v.stream != ONE && v.stream != MANY)
        || v.producer !in doc.producers
      {
        return None;
      }
      out := out + [Verb(v.op, v.name, v.params, SchemaId(doc.schemas, v.schema).value, v.stream,
                         doc.producers[v.producer])];
    }
    return Some(out);
  }

  lemma {:induction false} EnumIdFinds(enums: seq<Enum>, name: Bytes) returns (i: nat)
    requires EnumId(enums, name) != 0
    ensures i < |enums| && enums[i].name == name && enums[i].id == EnumId(enums, name)
  {
    i := |enums| - 1;
    if enums[i].name != name {
      i := EnumIdFinds(enums[..i], name);
    }
  }

  lemma {:induction false} SchemaIdFinds(schemas: seq<RawSchema>, name: Bytes) returns (i: nat)
    requires SchemaId(schemas, name).Some?
    ensures i < |schemas| && schemas[i].name == name && schemas[i].id == SchemaId(schemas, name).value
  {
    i := |schemas| - 1;
    if schemas[i].name != name {
      i := SchemaIdFinds(schemas[..i], name);
    }
  }

  /** An enum reference of an accepted contract points at the enum it names. */
  lemma EnumResolves(doc: Doc, arg: Bytes)
    requires Acceptable(doc) && EnumId(doc.enums, arg) != 0
    ensures var id, enums := EnumId(doc.enums, arg), TableOf(doc).enums;
            1 <= id <= |enums| && enums[id - 1].id == id && enums[id - 1].name == arg
  {
    var i := EnumIdFinds(doc.enums, arg);
    FoundAtItsId(EnumKey(), doc.enums, i, doc.enums[i].id);
  }

  /** So does a schema reference. */
  lemma SchemaResolves(doc: Doc, arg: Bytes)
    requires Acceptable(doc) && SchemaId(doc.schemas, arg).Some?
    ensures var id, schemas := SchemaId(doc.schemas, arg).value, TableOf(doc).schemas;
            1 <= id <= |schemas| && schemas[id - 1].id == id && schemas[id - 1].name == arg
  {
    var i := SchemaIdFinds(doc.schemas, arg);
    FoundAtItsId(SchemaKey(), Schemas(doc), i, Schemas(doc)[i].id);
  }

  /** TAGS, in its order. */
  const TAGS: seq<Kind> := [TextKind, I64Kind, F64Kind, BoolKind, EnumKind, TextsKind, RowsKind]

  /** A known type's tag is its place among the TAGS. */
  lemma TagIsThePlace(k: Kind)
    ensures k != UnknownKind ==> TagOf(k) < |TAGS| && TAGS[TagOf(k)] == k
    ensures k == UnknownKind ==> k !in TAGS
  {
  }

  predicate EnumNamed(doc: Doc, name: Bytes) {
    exists k :: 0 <= k < |doc.enums| && doc.enums[k].name == name
  }

  predicate SchemaNamed(doc: Doc, name: Bytes) {
    exists k :: 0 <= k < |doc.schemas| && doc.schemas[k].name == name
  }

  /** A field whose type is known and refers to what exists. */
  predicate FieldSound(doc: Doc, f: RawField) {
    f.kind != UnknownKind && (f.kind == EnumKind ==> EnumNamed(doc, f.arg)) && (f.kind == RowsKind ==> SchemaNamed(doc, f.arg))
  }

  predicate SchemaSound(doc: Doc, s: RawSchema) {
    |s.fields| <= 64 && forall k :: 0 <= k < |s.fields| ==> FieldSound(doc, s.fields[k])
  }

  predicate VerbSound(doc: Doc, v: RawVerb) {
    && v.params in doc.params && SchemaNamed(doc, v.schema) && v.producer in doc.producers
    && (v.stream == [0x6F, 0x6E, 0x65] || v.stream == [0x6D, 0x61, 0x6E, 0x79])
  }

  predicate IdsArePositions(doc: Doc) {
    && Contiguous(EnumKey(), TableOf(doc).enums) && Contiguous(SchemaKey(), TableOf(doc).schemas)
    && Contiguous(VerbKey(), TableOf(doc).verbs)
  }

  lemma {:induction false} EnumIdExists(enums: seq<Enum>, name: Bytes)
    requires forall k :: 0 <= k < |enums| ==> enums[k].id > 0
    ensures EnumId(enums, name) != 0 <==> exists k :: 0 <= k < |enums| && enums[k].name == name
  {
    if enums != [] {
      var n := |enums| - 1;
      EnumIdExists(enums[..n], name);
      assert forall k :: 0 <= k < n ==> enums[..n][k] == enums[k];
    }
  }

  lemma {:induction false} SchemaIdExists(schemas: seq<RawSchema>, name: Bytes)
    requires forall k :: 0 <= k < |schemas| ==> schemas[k].id > 0
    ensures SchemaId(schemas, name).Some? <==> exists k :: 0 <= k < |schemas| && schemas[k].name == name
    ensures SchemaId(schemas, name).Some? ==> SchemaId(schemas, name).value > 0
  {
    if schemas != [] {
      var n := |schemas| - 1;
      SchemaIdExists(schemas[..n], name);
      assert forall k :: 0 <= k < n ==> schemas[..n][k] == schemas[k];
    }
  }

  /** Ids that are positions are none of them 0. */
  lemma IdsArePositive(doc: Doc)
    requires IdsArePositions(doc)
    ensures forall k :: 0 <= k < |doc.enums| ==> doc.enums[k].id > 0
    ensures forall k :: 0 <= k < |doc.schemas| ==> doc.schemas[k].id > 0
  {
    forall k | 0 <= k < |doc.enums|
      ensures doc.enums[k].id > 0
    {
      FoundAtItsId(EnumKey(), doc.enums, k, doc.enums[k].id);
    }
    forall k | 0 <= k < |doc.schemas|
      ensures doc.schemas[k].id > 0
    {
      FoundAtItsId(SchemaKey(), Schemas(doc), k, Schemas(doc)[k].id);
    }
  }

  lemma FieldSoundIff(doc: Doc, f: RawField)
    requires IdsArePositions(doc)
    ensures FieldOk(doc, f) <==> FieldSound(doc, f)
  {
    IdsArePositive(doc);
    EnumIdExists(doc.enums, f.arg);
    SchemaIdExists(doc.schemas, f.arg);
  }

  lemma SchemaSoundIff(doc: Doc, s: RawSchema)
    requires IdsArePositions(doc)
    ensures SchemaOk(doc, s) <==> SchemaSound(doc, s)
  {
    forall k | 0 <= k < |s.fields|
      ensures FieldOk(doc, s.fields[k]) <==> FieldSound(doc, s.fields[k])
    {
      FieldSoundIff(doc, s.fields[k]);
    }
  }

  lemma VerbSoundIff(doc: Doc, v: RawVerb)
    requires IdsArePositions(doc)
    ensures VerbOk(doc, v) <==> VerbSound(doc, v)
  {
    IdsArePositive(doc);
    SchemaIdExists(doc.schemas, v.schema);
  }

  /** A contract loads exactly when its ids are positions, every field's type is known and
      refers to an enum or schema there is, no schema has more than 64 fields, and every verb
      names parameters, a schema, a producer and one of the two streams. */
  lemma LoadsIff(doc: Doc)
    ensures Acceptable(doc)
       <==> && IdsArePositions(doc)
            && (forall k :: 0 <= k < |doc.schemas| ==> SchemaSound(doc, doc.schemas[k]))
            && (forall k :: 0 <= k < |doc.verbs| ==> VerbSound(doc, doc.verbs[k]))
  {
    if IdsArePositions(doc) {
      forall k | 0 <= k < |doc.schemas|
        ensures SchemaOk(doc, doc.schemas[k]) <==> SchemaSound(doc, doc.schemas[k])
      {
        SchemaSoundIff(doc, doc.schemas[k]);
      }
      forall k | 0 <= k < |doc.verbs|
        ensures VerbOk(doc, doc.verbs[k]) <==> VerbSound(doc, doc.verbs[k])
      {
        VerbSoundIff(doc, doc.verbs[k]);
      }
    }
  }

  lemma FieldsResolve(doc: Doc, raw: RawSchema)
    requires Acceptable(doc) && SchemaOk(doc, raw)
    ensures SchemaFieldsResolve(TableOf(doc), raw, SchemaOf(doc, raw))
  {
    forall k | 0 <= k < |raw.fields|
      ensures FieldResolves(TableOf(doc), raw.fields[k], FieldOf(doc, raw.fields[k]))
    {
      var f := raw.fields[k];
      assert FieldOk(doc, f);
      TagIsThePlace(f.kind);
      if f.kind.EnumKind? {
        EnumResolves(doc, f.arg);
      } else if f.kind.RowsKind? {
        SchemaResolves(doc, f.arg);
      }
    }
  }

  /** What a decoder may rely on after a load: schema ids are positions, every schema comes
      from the contract, and every nested id is the position of what its field names. */
  lemma LoadedTableResolves(doc: Doc, n: nat) returns (i: nat)
    requires Acceptable(doc) && n < |TableOf(doc).schemas|
    ensures TableOf(doc).schemas[n].id == n + 1
    ensures i < |doc.schemas| && TableOf(doc).schemas[n] == SchemaOf(doc, doc.schemas[i])
    ensures var s, raw := TableOf(doc).schemas[n], doc.schemas[i];
            s.name == raw.name && s.detail == raw.detail && s.id == raw.id
    ensures SchemaFieldsResolve(TableOf(doc), doc.schemas[i], TableOf(doc).schemas[n])
  {
    var schemas := TableOf(doc).schemas;
    assert SchemaKey()(schemas[n]) == (n + 1) as real;
    SortPermutes(SchemaKey(), Schemas(doc));
    i := Elsewhere(schemas, Schemas(doc), n);
    FieldsResolve(doc, doc.schemas[i]);
  }

  /** The same for verbs: op codes are positions, and a verb's schema is the one it names. */
  lemma LoadedVerbResolves(doc: Doc, n: nat) returns (i: nat)
    requires Acceptable(doc) && n < |TableOf(doc).verbs|
    ensures TableOf(doc).verbs[n].op == n + 1
    ensures i < |doc.verbs| && TableOf(doc).verbs[n] == VerbOf(doc, doc.verbs[i])
    ensures var v, t := TableOf(doc).verbs[n], TableOf(doc);
            1 <= v.schema <= |t.schemas| && t.schemas[v.schema - 1].name == doc.verbs[i].schema
    ensures VerbAsWritten(doc, doc.verbs[i], TableOf(doc).verbs[n])
  {
    assert VerbKey()(TableOf(doc).verbs[n]) == (n + 1) as real;
    SortPermutes(VerbKey(), Verbs(doc));
    i := Elsewhere(TableOf(doc).verbs, Verbs(doc), n);
    assert VerbOk(doc, doc.verbs[i]);
    SchemaResolves(doc, doc.verbs[i].schema);
  }

  /** A verb's other properties are those written. */
  predicate VerbAsWritten(doc: Doc, raw: RawVerb, v: Verb) {
    && v.name == raw.name && v.params == raw.params && v.stream == raw.stream && v.op == raw.op
    && raw.producer in doc.producers && v.entry == doc.producers[raw.producer]
  }

  predicate FieldResolves(t: Table, raw: RawField, f: Field) {
    && f.name == raw.name && f.optional == raw.optional && raw.kind in TAGS && f.tag < |TAGS| && TAGS[f.tag] == raw.kind
    && (raw.kind.EnumKind? ==> 1 <= f.nested <= |t.enums| && t.enums[f.nested - 1].name == raw.arg)
    && (raw.kind.RowsKind? ==> 1 <= f.nested <= |t.schemas| && t.schemas[f.nested - 1].name == raw.arg)
    && (!raw.kind.EnumKind? && !raw.kind.RowsKind? ==> f.nested == 0)
  }

  predicate SchemaFieldsResolve(t: Table, raw: RawSchema, s: RowSchema) {
    && |raw.fields| == |s.fields| <= MAX_FIELDS
    && forall k :: 0 <= k < |raw.fields| ==> FieldResolves(t, raw.fields[k], s.fields[k])
  }
}
