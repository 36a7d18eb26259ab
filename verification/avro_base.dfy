/** The Avro schema backend's key handling: deriving a one-field key schema
    from a field of the value schema, memoising it on the backend, and
    wrapping and unwrapping a message key around it. */
module AvroBase {
  import opened Wrappers
  import opened Strings
  import opened AvroSchema

  /** What the backend raises on the paths modelled here. */
  datatype Error =
      /** The store has no schema under this name and namespace. */
    | SchemaNotFound(name: string, namespace: string)
      /** No value-schema field is named like the key id; Ruby fails with
          `nil.type` before anything is inserted. */
    | KeyFieldNotFound(keyId: Name)
      /** "Schema <value schema> not found!" */
    | SchemaMissing(schema: string)
      /** "Schema <value schema> has no fields!" */
    | SchemaHasNoFields(schema: string)

  /** A backend instance: its value-schema name and namespace, the store it
      uses, and the `@key_schema` memo, empty until the first key call. */
  datatype Backend = Backend(schema: string, namespace: string, store: SchemaStore, keySchema: Option<Schema>)

  /** The outcome of a call together with the backend afterwards; when the
      call raises, the backend is the one it started from. */
  datatype Call<T> = Call(result: Result<T, Error>, backend: Backend)

  /** The binary codec the backend delegates to: `encode(payload, schema,
      topic)` and `decode(bytes, schema)`. */
  datatype Codec<!V, !B> = Codec(encode: (map<Name, V>, string, Option<string>) -> B, decode: (B, string) -> map<Name, V>)

  /** The codec's decode undoes its encode under the same schema name. */
  ghost predicate Inverts<V(!new), B>(c: Codec<V, B>) {
    forall p, n, t :: c.decode(c.encode(p, n, t), n) == p
  }

  /** `avro_schema(schema = nil)`: the named schema, or the backend's own
      value schema when no name is given, always looked up in the backend's
      namespace. */
  function AvroSchemaOf(b: Backend, schema: Option<string>): (r: Result<Schema, Error>)
    ensures var name := if schema.Some? then schema.value else b.schema;
      && (r.Success? <==> SchemaRef(name, b.namespace) in b.store.schemas)
      && (r.Success? ==> r.value == b.store.schemas[SchemaRef(name, b.namespace)])
      && (r.Failure? ==> r.error == SchemaNotFound(name, b.namespace))
  {
    var name := if schema.Some? then schema.value else b.schema;
    match Find(b.store, name, b.namespace)
    case Some(s) => Success(s)
    case None => Failure(SchemaNotFound(name, b.namespace))
  }

  /** A field as listed for introspection. */
  datatype SchemaField = SchemaField(name: Name, ftype: AvroType)

  /** `schema_fields`: the value schema's fields, in order, by name and
      type. */
  function SchemaFields(b: Backend): (r: Result<seq<SchemaField>, Error>)
    ensures r.Success? <==> AvroSchemaOf(b, None).Success?
    ensures r.Failure? ==> r.error == SchemaNotFound(b.schema, b.namespace)
    ensures r.Success? ==>
      var fs := AvroSchemaOf(b, None).value.fields;
      && |r.value| == |fs|
      && forall i :: 0 <= i < |fs| ==> r.value[i].name == fs[i].name && r.value[i].ftype == fs[i].ftype
  {
    var vs :- AvroSchemaOf(b, None);
    Success(seq(|vs.fields|, i requires 0 <= i < |vs.fields| => SchemaField(vs.fields[i].name, vs.fields[i].ftype)))
  }

  /** `fields.find { |f| f.name == name }`: the index of the first field
      whose name is the String `name`, or `None` when there is none. */
  function FindField(fields: seq<Field>, name: string): (r: Option<nat>)
    ensures r.Some? ==> r.value < |fields| && fields[r.value].name == Str(name)
    ensures r.Some? ==> forall j :: 0 <= j < r.value ==> fields[j].name != Str(name)
    ensures r.None? <==> forall j :: 0 <= j < |fields| ==> fields[j].name != Str(name)
  {
    if |fields| == 0 then None
    else if fields[0].name == Str(name) then Some(0)
    else match FindField(fields[1..], name)
      case None => None
      case Some(i) => Some(i + 1)
  }

  /** `_key_schema_name`: every `-value` deleted, then `_key` appended. */
  function KeySchemaName(schema: string): (r: string)
    ensures |r| >= 4 && r[|r| - 4..] == "_key"
    ensures |r| <= |schema| + 4
  {
    RemoveAll(schema, ValueTag) + "_key"
  }

  /** A key schema can be derived for `keyId`: the value schema is found
      and one of its fields is named `keyId.to_s`. */
  predicate KeyDerivable(b: Backend, keyId: Name) {
    && AvroSchemaOf(b, None).Success?
    && FindField(AvroSchemaOf(b, None).value.fields, keyId.ToS()).Some?
  }

  /** The value-schema field a key schema for `keyId` is derived from. */
  function KeyField(b: Backend, keyId: Name): Field
    requires KeyDerivable(b, keyId)
  {
    var fs := AvroSchemaOf(b, None).value.fields;
    fs[FindField(fs, keyId.ToS()).value]
  }

  /** `_generate_key_schema(key_id)`: builds the key schema literal and
      inserts it into the store. The lookup compares against `key_id.to_s`
      but the literal's field is named by `key_id` as passed, and only the
      type tag of the value field is carried over. */
  function GenerateKeySchema(b: Backend, keyId: Name): (r: Call<Schema>)
    ensures r.result.Success? <==> KeyDerivable(b, keyId)
    ensures AvroSchemaOf(b, None).Failure? ==> r.result == Failure(SchemaNotFound(b.schema, b.namespace))
    ensures AvroSchemaOf(b, None).Success? && r.result.Failure? ==> r.result.error == KeyFieldNotFound(keyId)
    ensures r.result.Failure? ==> r.backend == b
    ensures r.result.Success? ==>
      var ks := r.result.value;
      && ks.kind == "record"
      && ks.name == KeySchemaName(b.schema)
      && ks.namespace == b.namespace
      && ks.doc == Some("Key for " + b.namespace + "." + b.schema)
      && ks.fields == [Field(keyId, TypeName(TypeSym(KeyField(b, keyId).ftype)))]
      && r.backend == b.(store := AddSchema(b.store, ks))
  {
    match AvroSchemaOf(b, None)
    case Failure(e) => Call(Failure(e), b)
    case Success(vs) =>
      match FindField(vs.fields, keyId.ToS())
      case None => Call(Failure(KeyFieldNotFound(keyId)), b)
      case Some(i) =>
        var keySchema := Schema(
          "record",
          KeySchemaName(b.schema),
          b.namespace,
          Some("Key for " + b.namespace + "." + b.schema),
          [Field(keyId, TypeName(TypeSym(vs.fields[i].ftype)))]);
        Call(Success(keySchema), b.(store := AddSchema(b.store, keySchema)))
  }

  /** `_field_name_from_schema`: the name of the schema's first field. */
  function FieldNameFromSchema(s: Option<Schema>, schema: string): (r: Result<Name, Error>)
    ensures s.None? ==> r == Failure(SchemaMissing(schema))
    ensures s.Some? && |s.value.fields| == 0 ==> r == Failure(SchemaHasNoFields(schema))
    ensures s.Some? && |s.value.fields| > 0 ==> r == Success(s.value.fields[0].name)
  {
    if s.None? then Failure(SchemaMissing(schema))
    else if |s.value.fields| == 0 then Failure(SchemaHasNoFields(schema))
    else Success(s.value.fields[0].name)
  }

  /** `@key_schema ||= _generate_key_schema(key_id)`: a cached schema is
      reused whatever `key_id` is; otherwise one is generated and cached. */
  function CachedKeySchema(b: Backend, keyId: Name): (r: Call<Schema>)
    ensures b.keySchema.Some? ==> r == Call(Success(b.keySchema.value), b)
    ensures b.keySchema.None? ==> r.result == GenerateKeySchema(b, keyId).result
    ensures b.keySchema.None? && r.result.Success? ==>
      r.backend == GenerateKeySchema(b, keyId).backend.(keySchema := Some(r.result.value))
    ensures r.result.Failure? ==> r.backend == b
    ensures r.result.Success? ==> r.backend.keySchema == Some(r.result.value)
  {
    if b.keySchema.Some? then Call(Success(b.keySchema.value), b)
    else
      var g := GenerateKeySchema(b, keyId);
      match g.result
      case Failure(e) => Call(Failure(e), b)
      case Success(ks) => Call(Success(ks), g.backend.(keySchema := Some(ks)))
  }

  /** `encode_key(key_id, key, topic:)`: encodes the one-entry payload
      `{field_name => key}` under the key schema's name and the same topic. */
  function EncodeKey<V, B>(b: Backend, codec: Codec<V, B>, keyId: Name, key: V, topic: Option<string>): (r: Call<B>)
    // First call: succeeds exactly when a key can be derived, encodes
    // `{key_id => key}` under the derived name, and inserts one schema.
    ensures b.keySchema.None? ==> (r.result.Success? <==> KeyDerivable(b, keyId))
    ensures b.keySchema.None? && r.result.Success? ==>
      && r.result.value == codec.encode(map[keyId := key], KeySchemaName(b.schema), topic)
      && r.backend.keySchema.Some?
      && r.backend.store.insertions == b.store.insertions + [r.backend.keySchema.value]
      && r.backend.store == AddSchema(b.store, r.backend.keySchema.value)
    ensures b.keySchema.None? && r.result.Success? ==>
      var g := GenerateKeySchema(b, keyId);
      r.backend == g.backend.(keySchema := Some(g.result.value))
    ensures b.keySchema.None? && r.result.Failure? ==> r.result.error == GenerateKeySchema(b, keyId).result.error
    ensures b.keySchema.None? && r.result.Failure? ==> r.backend == b
    // Later calls: the cached schema decides, the backend is untouched.
    ensures b.keySchema.Some? ==> r.backend == b
    ensures b.keySchema.Some? && |b.keySchema.value.fields| > 0 ==>
      var ks := b.keySchema.value;
      r.result == Success(codec.encode(map[ks.fields[0].name := key], ks.name, topic))
    ensures b.keySchema.Some? && |b.keySchema.value.fields| == 0 ==>
      r.result == Failure(SchemaHasNoFields(b.schema))
  {
    var c := CachedKeySchema(b, keyId);
    match c.result
    case Failure(e) => Call(Failure(e), c.backend)
    case Success(ks) =>
      match FieldNameFromSchema(Some(ks), b.schema)
      case Failure(e) => Call(Failure(e), c.backend)
      case Success(fieldName) => Call(Success(codec.encode(map[fieldName := key], ks.name, topic)), c.backend)
  }

  /** The entry of a decoded map under `name`; `None` is Ruby's `nil` for a
      missing key. */
  function Lookup<V>(m: map<Name, V>, name: Name): Option<V> {
    if name in m then Some(m[name]) else None
  }

  /** `decode_key(payload, key_id)`: decodes under the key schema's name and
      returns the entry under its field name. */
  function DecodeKey<V, B>(b: Backend, codec: Codec<V, B>, payload: B, keyId: Name): (r: Call<Option<V>>)
    ensures b.keySchema.None? ==> (r.result.Success? <==> KeyDerivable(b, keyId))
    ensures b.keySchema.None? && r.result.Success? ==>
      && r.result.value == Lookup(codec.decode(payload, KeySchemaName(b.schema)), keyId)
      && r.backend.keySchema.Some?
      && r.backend.store.insertions == b.store.insertions + [r.backend.keySchema.value]
      && r.backend.store == AddSchema(b.store, r.backend.keySchema.value)
    ensures b.keySchema.None? && r.result.Success? ==>
      var g := GenerateKeySchema(b, keyId);
      r.backend == g.backend.(keySchema := Some(g.result.value))
    ensures b.keySchema.None? && r.result.Failure? ==> r.result.error == GenerateKeySchema(b, keyId).result.error
    ensures b.keySchema.None? && r.result.Failure? ==> r.backend == b
    ensures b.keySchema.Some? ==> r.backend == b
    ensures b.keySchema.Some? && |b.keySchema.value.fields| > 0 ==>
      var ks := b.keySchema.value;
      r.result == Success(Lookup(codec.decode(payload, ks.name), ks.fields[0].name))
    ensures b.keySchema.Some? && |b.keySchema.value.fields| == 0 ==>
      r.result == Failure(SchemaHasNoFields(b.schema))
  {
    var c := CachedKeySchema(b, keyId);
    match c.result
    case Failure(e) => Call(Failure(e), c.backend)
    case Success(ks) =>
      match FieldNameFromSchema(Some(ks), b.schema)
      case Failure(e) => Call(Failure(e), c.backend)
      case Success(fieldName) => Call(Success(Lookup(codec.decode(payload, ks.name), fieldName)), c.backend)
  }
}
