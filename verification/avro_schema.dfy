/** The schema literals the backend reads and writes, and the mutable schema
    store that holds them, reduced to a map plus a log of insertions. */
module AvroSchema {
  import opened Wrappers

  /** A field or key name as Ruby holds it: a String such as `'test_id'` or
      a Symbol such as `:test_id`. The two never compare equal. */
  datatype Name = Str(text: string) | Sym(text: string) {

    /** Ruby's `to_s`: both spellings yield their text. */
    function ToS(): string {
      text
    }
  }

  /** The names of Avro's primitive types. */
  const PrimitiveNames: set<string> :=
    {"null", "boolean", "int", "long", "float", "double", "bytes", "string"}

  /** The type of a field. A primitive is written by its name; the complex
      types carry their structure. References to named types are taken as
      already resolved, so a value field's `TypeName` names a primitive.
      A derived key field's `TypeName` can also hold a complex type's kind
      word such as `union` or `record`. */
  datatype AvroType =
    | TypeName(name: string)
    | Union(branches: seq<AvroType>)
    | Record(name: string, fields: seq<Field>)
    | Enum(name: string, symbols: seq<string>)
    | Array(items: AvroType)
    | MapOf(values: AvroType)
    | Fixed(name: string, size: nat)

  datatype Field = Field(name: Name, ftype: AvroType)

  /** Avro's `type.type_sym.to_s`: the primitive's own name, or the word
      for the kind of a complex type. */
  function TypeSym(t: AvroType): (r: string)
    ensures t.TypeName? ==> r == t.name
    ensures !t.TypeName? ==> r !in PrimitiveNames
  {
    match t
    case TypeName(n) => n
    case Union(_) => "union"
    case Record(_, _) => "record"
    case Enum(_, _) => "enum"
    case Array(_) => "array"
    case MapOf(_) => "map"
    case Fixed(_, _) => "fixed"
  }

  /** A record schema literal: `type`, `name`, `namespace`, optional `doc`
      and the ordered `fields`. A missing `fields` entry is represented by
      the empty sequence; the backend treats both alike. */
  datatype Schema = Schema(kind: string, name: string, namespace: string, doc: Option<string>, fields: seq<Field>)

  /** The store's lookup key. */
  datatype SchemaRef = SchemaRef(name: string, namespace: string)

  function RefOf(s: Schema): SchemaRef {
    SchemaRef(s.name, s.namespace)
  }

  /** The mutable schema store: the schemas it can find, and the log of
      every schema inserted into it, oldest first. */
  datatype SchemaStore = SchemaStore(schemas: map<SchemaRef, Schema>, insertions: seq<Schema>)

  /** `find(name, namespace)`; `None` where the store would raise. */
  function Find(store: SchemaStore, name: string, namespace: string): (r: Option<Schema>)
    ensures r.Some? <==> SchemaRef(name, namespace) in store.schemas
    ensures r.Some? ==> r.value == store.schemas[SchemaRef(name, namespace)]
  {
    var ref := SchemaRef(name, namespace);
    if ref in store.schemas then Some(store.schemas[ref]) else None
  }

  /** `add_schema(literal)`: afterwards the literal is found under its own
      name and namespace, every other entry is as before, and the log has
      grown by exactly this literal. */
  function AddSchema(store: SchemaStore, s: Schema): (r: SchemaStore)
    ensures Find(r, s.name, s.namespace) == Some(s)
    ensures forall n, ns :: SchemaRef(n, ns) != RefOf(s) ==> Find(r, n, ns) == Find(store, n, ns)
    ensures r.insertions == store.insertions + [s]
  {
    SchemaStore(store.schemas[RefOf(s) := s], store.insertions + [s])
  }
}
