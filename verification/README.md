# Deimos Avro key schemas and schema-name splitting, in Dafny

This project models two pieces of the Deimos Kafka library's schema
handling and proves properties of the model.

1. The Avro schema backend's key handling (`Deimos::SchemaBackends::AvroBase`).
   A message key is encoded on its own schema. That key schema is derived
   from one field of the backend's value schema: a record named after the
   value schema with every `-value` deleted and `_key` appended, in the same
   namespace, documented `Key for <namespace>.<schema>`, with a single field
   named by the key id and typed by the value field's type tag. The first
   `encode_key` or `decode_key` call builds it and inserts it into the
   mutable schema store. The backend then memoises it in `@key_schema` and
   reuses it for every later call, whatever key id that call passes.
   `encode_key` wraps the key as `{field_name => key}` before handing it to
   the codec. `decode_key` takes the entry back out of the decoded map.
2. The schema-model generator's name helpers. They split a fully
   qualified name such as `com.my-namespace.Generated` at its last dot
   into `schema` and `namespace`, and they turn the namespace into the
   directory path `com/my-namespace`.

Files:

- `wrappers.dfy`: `Option` (Ruby's `nil`) and `Result` (a raised exception).
- `strings.dfy`: `RemoveAll`, which is Ruby's `gsub(pattern, '')` for a
  literal pattern, with its lemmas about the `-value` tag.
- `avro_schema.dfy`: names (Ruby String or Symbol), Avro types and `type_sym`,
  record schema literals, and the schema store as a map plus an insertion log.
- `avro_base.dfy`: the backend state, its errors, the codec interface,
  `avro_schema`, `schema_fields`, `_key_schema_name`, `_generate_key_schema`,
  `_field_name_from_schema`, the `@key_schema ||= …` memo, `encode_key` and
  `decode_key`.
- `avro_base_lemmas.dfy`: properties that relate several calls. This
  includes the key round trip, the memo ignoring the key id, and the
  shared-example scenarios.
- `schema_model_generator.dfy` and `schema_model_generator_lemmas.dfy`:
  `schema`, `namespace`, `namespace_path` and their algebra.

How the model is put together:

- Calls that change the backend return `Call(result, backend)`. When the
  Ruby method raises, `result` is a `Failure` and `backend` is the state at
  the point of the raise. Every raise the model covers comes before the
  memo is set and before the store is touched, so `backend` is then the one
  the call started from. This is how "nothing is added to the store" is
  stated. The codec's own raises are not modelled; see "## Left out".
- The store is `SchemaStore(schemas, insertions)`. `schemas` is what `find`
  can see, keyed by name and namespace. `insertions` logs every
  `add_schema`, so "exactly one insertion" can be stated.
- The codec is a pair of total functions supplied by the caller. "Decode
  inverts encode" is the predicate `Inverts`, and the lemmas that need it
  take it as a precondition.
- Key ids are `Name`s: `Str` is a Ruby String and `Sym` is a Ruby Symbol. The
  field lookup compares a field's name against `Str(key_id.to_s)`. The key
  schema's field, and hence the encode payload's key, is `key_id` exactly as
  passed.

Three behaviours of the code are easy to misread, and the model follows
the code in each:

- `_key_schema_name` uses `gsub('-value', '')`. That deletes every
  occurrence anywhere in the name, not only a trailing suffix, in one
  left-to-right scan. Text that a deletion joins together is not scanned
  again, so `--valuevalue` becomes `-value_key`
  (`AvroBaseLemmas.KeySchemaNameSinglePass`).
- When no value field is named like the key id, the code raises on
  `nil.type` before the store is touched. That is modelled as
  `KeyFieldNotFound`.
- The memo is a single `@key_schema` slot that is not keyed by the key id,
  so a second call with another key id reuses the first key's schema
  (`AvroBaseLemmas.CacheIgnoresKeyId`).

On `namespace` for a name without a dot: `rindex` gives `nil`, and
`full_schema[0...nil]` is an endless range from Ruby 2.6 on, which returns
the whole name. The model follows that. `schema` on such a name fails,
because `nil + 1` raises.

## Model

| member | source | states |
|---|---|---|
| Strings.RemoveAll | lib/deimos/schema_backends/avro_base.rb:104 | `gsub(pattern, '')` for a literal pattern never lengthens the name; what it deletes is stated by the lemmas in the rows below |
| Strings.RemoveAllFree | lib/deimos/schema_backends/avro_base.rb:104 | `gsub` deletes only at matches: a name in which the pattern never occurs comes back unchanged |
| Strings.RemoveValueTagNoDash | lib/deimos/schema_backends/avro_base.rb:104 | a name without any `-` comes back unchanged from deleting `-value` |
| Strings.RemoveAllSplit | lib/deimos/schema_backends/avro_base.rb:104 | for a pattern whose first character does not recur, deleting from `a + p + b` equals deleting from `a` and from `b` separately: no match straddles an occurrence |
| Strings.RemoveValueTagSplit | lib/deimos/schema_backends/avro_base.rb:104 | every `-value` is deleted wherever it stands: deleting from `a + "-value" + b` equals deleting from `a` and `b` separately |
| Strings.RemoveTrailingValueTag | lib/deimos/schema_backends/avro_base.rb:104 | a trailing `-value` is deleted |
| Strings.RemoveAllIsSinglePass | lib/deimos/schema_backends/avro_base.rb:104 | the deletion is one scan: `--valuevalue` becomes `-value`, which still holds the tag |
| AvroSchema.TypeSym | lib/deimos/schema_backends/avro_base.rb:82 | `type.type_sym.to_s` is a primitive's own name, and for any complex type a word that names no primitive |
| AvroSchema.Find | lib/deimos/schema_backends/avro_base.rb:64 | the store's `find` succeeds exactly when the name and namespace are present, and returns the stored literal |
| AvroSchema.AddSchema | lib/deimos/schema_backends/avro_base.rb:86 | after `add_schema` the literal is found under its own name and namespace, every other entry is unchanged, and the insertion log grows by exactly that literal |
| AvroBase.AvroSchemaOf | lib/deimos/schema_backends/avro_base.rb:62-65 | `avro_schema` looks up the given name, or the backend's schema when no name is given, always in the backend's namespace; a miss is `SchemaNotFound` for that name |
| AvroBase.SchemaFields | lib/deimos/schema_backends/avro_base.rb:42-44 | `schema_fields` fails exactly when the value schema is missing; otherwise it lists every field in order with its name and type |
| AvroBase.FindField | lib/deimos/schema_backends/avro_base.rb:72 | the lookup returns the first field whose name is the String `key_id.to_s`, and `None` exactly when no field has that name |
| AvroBase.KeySchemaName | lib/deimos/schema_backends/avro_base.rb:103-105 | the key schema name always ends in `_key` and is at most four characters longer than the value schema's name |
| AvroBase.GenerateKeySchema | lib/deimos/schema_backends/avro_base.rb:71-88 | succeeds exactly when the value schema is found and has a field named `key_id.to_s`; the result is a `record` named by `_key_schema_name`, in the backend's namespace, with doc `Key for <namespace>.<unstripped schema>`, and with one field named `key_id` as passed and typed by the found field's type tag; it is inserted once into the store; a missing schema or field fails with the store left as it was |
| AvroBase.FieldNameFromSchema | lib/deimos/schema_backends/avro_base.rb:92-99 | fails with "not found" on `nil` and with "has no fields" on an empty field list, both naming the value schema; otherwise returns the first field's name |
| AvroBase.CachedKeySchema | lib/deimos/schema_backends/avro_base.rb:23 | a cached key schema is returned with the backend untouched; otherwise the outcome is generation's, the generated schema is cached, and a failure leaves the backend as it was |
| AvroBase.EncodeKey | lib/deimos/schema_backends/avro_base.rb:22-27 | the first call succeeds exactly when a key schema can be derived, and otherwise raises generation's error with the backend unchanged; on success it encodes `{key_id => key}` under the derived name and the given topic, and inserts exactly one schema, which is `_generate_key_schema`'s literal, now cached, with schema and namespace unchanged; later calls leave the backend unchanged and encode under the cached schema's first field and name |
| AvroBase.DecodeKey | lib/deimos/schema_backends/avro_base.rb:30-34 | mirrors `encode_key`: decodes under the key schema's name and returns the entry under its field name (`nil` when absent), with the same first-call behaviour (the generated literal inserted once and cached, nothing else changed) and later-call behaviour |
| AvroBaseLemmas.KeySchemaNameStripsTrailing | lib/deimos/schema_backends/avro_base.rb:103-105 | a name ending in `-value` gets the same key schema name as the name without it |
| AvroBaseLemmas.KeySchemaNameStripsInfix | lib/deimos/schema_backends/avro_base.rb:103-105 | a `-value` in the middle of a name is deleted too, not only a suffix |
| AvroBaseLemmas.KeySchemaNameOfPlain | lib/deimos/schema_backends/avro_base.rb:103-105 | a name without `-value` only gains `_key` |
| AvroBaseLemmas.KeySchemaNameOrders | lib/deimos/schema_backends/avro_base.rb:103-105 | `orders-value` gives `orders_key` |
| AvroBaseLemmas.KeySchemaNameMySchema | spec/schema_backends/avro_base_shared.rb:60 | `MySchema` gives `MySchema_key` |
| AvroBaseLemmas.KeySchemaNameSinglePass | lib/deimos/schema_backends/avro_base.rb:104 | `--valuevalue` gives `-value_key`: the deletion is not repeated |
| AvroBaseLemmas.FieldNameOfKeySchema | lib/deimos/schema_backends/avro_base.rb:79-98 | on a freshly derived key schema the field-name extraction never fails and yields `key_id` as passed |
| AvroBaseLemmas.KeyFieldTypeExactIffPrimitive | lib/deimos/schema_backends/avro_base.rb:82 | the key field's type equals the value field's type exactly when that type is a primitive; complex structure is lost |
| AvroBaseLemmas.KeyDerivableIffListed | lib/deimos/schema_backends/avro_base.rb:42-72 | a key schema can be derived for `key_id` exactly when `schema_fields` lists a field named `key_id.to_s` |
| AvroBaseLemmas.KeyRoundTrip | lib/deimos/schema_backends/avro_base.rb:22-34 | with a codec whose decode inverts its encode, `decode_key(encode_key(id, k), id')` returns `k` for any `id'` and leaves the backend as encoding left it |
| AvroBaseLemmas.SymbolIdMissesStringKeys | lib/deimos/schema_backends/avro_base.rb:30-33 | on a first call with a Symbol key id, a decode that yields only String keys makes `decode_key` return `nil` |
| AvroBaseLemmas.CacheIgnoresKeyId | lib/deimos/schema_backends/avro_base.rb:23-31 | after a first successful call, a call with another key id reuses the first schema, wraps the key under the first key id, and changes nothing; the store receives exactly one schema over both calls |
| AvroBaseLemmas.MySchemaEncodeKey | spec/schema_backends/avro_base_shared.rb:50-64 | on `MySchema` in `com.my-namespace`, `encode_key('test_id', 1, topic: 'topic')` encodes `{'test_id' => 1}` under `MySchema_key` and topic `topic`, and the store then holds the expected key schema literal |
| AvroBaseLemmas.MySchemaDecodeKey | spec/schema_backends/avro_base_shared.rb:66-71 | `decode_key('payload', 'test_id')` decodes under `MySchema_key` and returns `1` from `{'test_id' => 1}` |
| SchemaModelGenerator.LastDot | lib/generators/deimos/schema_model_generator.rb:17 | `rindex('.')` is the index of a dot with no dot after it, and `nil` exactly when the name has no dot |
| SchemaModelGenerator.Schema | lib/generators/deimos/schema_model_generator.rb:16-19 | `schema` is defined exactly when the name has a dot; it is the suffix after that dot and contains no dot |
| SchemaModelGenerator.Namespace | lib/generators/deimos/schema_model_generator.rb:22-25 | `namespace` is a prefix of the name ending just before a dot with no dot after it; without a dot it is the whole name |
| SchemaModelGenerator.ReplaceDots | lib/generators/deimos/schema_model_generator.rb:29 | `gsub('.', '/')` keeps the length and puts `/` exactly where `.` was, keeping every other character |
| SchemaModelGenerator.NamespacePath | lib/generators/deimos/schema_model_generator.rb:28-30 | `namespace_path` is the namespace with `/` in place of each `.` and every other character kept |
| SchemaModelGeneratorLemmas.SplitThenJoin | lib/generators/deimos/schema_model_generator.rb:16-25 | for a dotted name, `namespace + "." + schema` is the name |
| SchemaModelGeneratorLemmas.JoinThenSplit | lib/generators/deimos/schema_model_generator.rb:16-25 | for a dot-free schema part, splitting `ns + "." + schema` gives back `ns`, which may hold dots, and `schema` |
| SchemaModelGeneratorLemmas.TrailingDotGivesEmptySchema | lib/generators/deimos/schema_model_generator.rb:18 | a trailing dot yields an empty `schema` |
| SchemaModelGeneratorLemmas.NoDot | lib/generators/deimos/schema_model_generator.rb:17-29 | without a dot, `schema` fails and `namespace` and `namespace_path` are the whole name |
| SchemaModelGeneratorLemmas.ReplaceDotsOfJoin | lib/generators/deimos/schema_model_generator.rb:29 | each dot-separated segment becomes one path segment |
| SchemaModelGeneratorLemmas.ReplaceDotsUnique | lib/generators/deimos/schema_model_generator.rb:29 | the path is the only string with `/` where the namespace has `.` and the same characters elsewhere |
| SchemaModelGeneratorLemmas.GeneratedExample | spec/generators/schema_model_generator_spec.rb:11-22 | `com.my-namespace.Generated` has schema `Generated` and namespace `com.my-namespace` |
| SchemaModelGeneratorLemmas.GeneratedExamplePath | spec/generators/schema_model_generator_spec.rb:11-12 | its path is `com/my-namespace` |

## Left out

- Strings.RemoveAll: its own contract states only that the result is no longer than the input; what it deletes is stated by the lemmas `RemoveAllFree`, `RemoveValueTagNoDash`, `RemoveAllSplit`, `RemoveValueTagSplit` and `RemoveAllIsSinglePass`.
- AvroBase.EncodeKey: the codec is total, so the model does not cover `encode` raising, for example when the Avro encoder rejects a datum. In Ruby such a raise on a first call comes after `@key_schema` is assigned (lib/deimos/schema_backends/avro_base.rb:23) and after the schema is inserted into the store (line 86). So the memo and the inserted schema stay in place, while in the model every first-call failure leaves the backend unchanged.
- AvroBase.DecodeKey: the same holds for `decode` raising after the memo is assigned at lib/deimos/schema_backends/avro_base.rb:31.
- `coerce_field` (lib/deimos/schema_backends/avro_base.rb:37-39): it delegates to `AvroSchemaCoercer`, and the generic `coerce` loop lives in `base.rb`. `avro_schema_coercer.rb` and `base.rb` are not part of this model. The coercion rules also involve float parsing and `Time` conversion.
- `validate` (lib/deimos/schema_backends/avro_base.rb:47-51) and `SchemaModel#validate`: both are single calls into the external `Avro::SchemaValidator`.
- The rest of `SchemaModel` (lib/deimos/schema_model.rb): a `NotImplementedError` stub.
- Binary Avro `encode`/`decode`: they are the caller-supplied `Codec`, a pair of total functions. `KeyRoundTrip` assumes `Inverts` of them. The model does not say whether the real codec returns maps with String or Symbol keys.
- `AvroTurf::MutableSchemaStore` internals: the store is a map plus an insertion log. `add_schema` is modelled as overwrite-and-log. The store's own duplicate policy, its parsing of the inserted literal, and loading schemas from files are not visible here. For example, the store might reject a non-primitive tag such as `union`.
- `initialize`, the configured schema path and `mock_backend`: configuration and a constant.
- Named-type references inside a value schema: they are taken as already resolved. A value field's `TypeName` therefore names a primitive. A key field's `TypeName` can also be a complex kind word such as `union` or `record`, because `type_sym.to_s` turns any type into a bare name.
- AvroBaseLemmas.KeyFieldTypeExactIffPrimitive: `AvroType` carries no `logicalType` or other annotation. So the lemma does not state that `type_sym.to_s` also drops an annotation such as `logicalType: uuid` from a primitive field.
- AvroBaseLemmas.KeyRoundTrip: it assumes a codec whose decode gives back the payload's keys as they were wrapped. A codec that yields String keys, as the shared examples' `decode` stub does, breaks the round trip for a Symbol key id (`key_id` is documented as a Symbol). `AvroBaseLemmas.SymbolIdMissesStringKeys` states what happens then: `decode_key` returns `nil`.
- A schema literal with no `fields` entry is represented by an empty field list. `_field_name_from_schema` raises the same error for both.
- Generator side effects: `generate` (Rails templating, file writes, ActiveSupport `underscore`) and `schema_base`/`fields` (delegation to the backend).
- Concurrency: the memo is not guarded against two threads calling at once. The model is sequential.
