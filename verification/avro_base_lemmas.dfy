/** Properties of the backend's key handling that relate several calls or
    several members: the key schema's name, its one field, memoisation and
    the key round trip. */
module AvroBaseLemmas {
  import opened Wrappers
  import opened Strings
  import opened AvroSchema
  import opened AvroBase

  /** A trailing `-value` does not reach the key schema's name. */
  lemma KeySchemaNameStripsTrailing(base: string)
    ensures KeySchemaName(base + ValueTag) == KeySchemaName(base)
  {
    RemoveTrailingValueTag(base);
  }

  /** Not only a suffix: a `-value` anywhere in the name is deleted. */
  lemma KeySchemaNameStripsInfix(a: string, b: string)
    ensures KeySchemaName(a + ValueTag + b) == RemoveAll(a, ValueTag) + RemoveAll(b, ValueTag) + "_key"
  {
    RemoveValueTagSplit(a, b);
  }

  /** A name without `-value` only gains `_key`. */
  lemma KeySchemaNameOfPlain(s: string)
    requires Free(s, ValueTag)
    ensures KeySchemaName(s) == s + "_key"
  {
    RemoveAllFree(s, ValueTag);
  }

  /** The name `orders-value` is `orders` followed by the tag, and
      `orders_key` is `orders` followed by `_key`. */
  lemma OrdersSpelling()
    ensures "orders-value" == "orders" + ValueTag
    ensures "orders_key" == "orders" + "_key"
  {
    var s, t := "orders-value", "orders" + ValueTag;
    assert |s| == |t|;
    forall i | 0 <= i < |s|
      ensures s[i] == t[i]
    {
    }
    var u, v := "orders_key", "orders" + "_key";
    assert |u| == |v|;
    forall i | 0 <= i < |u|
      ensures u[i] == v[i]
    {
    }
  }

  /** `orders-value` gives `orders_key`. */
  lemma KeySchemaNameOrders()
    ensures KeySchemaName("orders-value") == "orders_key"
  {
    OrdersSpelling();
    KeySchemaNameStripsTrailing("orders");
    RemoveValueTagNoDash("orders");
  }

  /** `MySchema` gives `MySchema_key`. */
  lemma KeySchemaNameMySchema()
    ensures KeySchemaName("MySchema") == "MySchema_key"
  {
    RemoveValueTagNoDash("MySchema");
    var u, v := "MySchema_key", "MySchema" + "_key";
    assert |u| == |v|;
    forall i | 0 <= i < |u|
      ensures u[i] == v[i]
    {
    }
  }

  /** The deletion is a single scan: `--valuevalue` gives `-value_key`, a
      name that still holds `-value`. */
  lemma KeySchemaNameSinglePass()
    ensures KeySchemaName("--valuevalue") == "-value_key"
  {
    RemoveAllIsSinglePass();
    var u, v := "-value_key", ValueTag + "_key";
    assert |u| == |v|;
    forall i | 0 <= i < |u|
      ensures u[i] == v[i]
    {
    }
  }

  /** The field-name extraction never fails on a freshly derived key schema
      and yields `key_id` exactly as passed, String or Symbol. */
  lemma FieldNameOfKeySchema(b: Backend, keyId: Name, schema: string)
    requires KeyDerivable(b, keyId)
    ensures GenerateKeySchema(b, keyId).result.Success?
    ensures FieldNameFromSchema(Some(GenerateKeySchema(b, keyId).result.value), schema) == Success(keyId)
  {
  }

  /** Only the type tag is carried over: the key field has the value
      field's type exactly when that type is a primitive. */
  lemma KeyFieldTypeExactIffPrimitive(b: Backend, keyId: Name)
    requires KeyDerivable(b, keyId)
    ensures var ks := GenerateKeySchema(b, keyId).result.value;
      ks.fields[0].ftype == KeyField(b, keyId).ftype <==> KeyField(b, keyId).ftype.TypeName?
  {
  }

  /** A key schema can be derived for `keyId` exactly when `schema_fields`
      lists a field named `keyId.to_s`. */
  lemma KeyDerivableIffListed(b: Backend, keyId: Name)
    ensures KeyDerivable(b, keyId) <==>
      && SchemaFields(b).Success?
      && exists i :: 0 <= i < |SchemaFields(b).value| && SchemaFields(b).value[i].name == Str(keyId.ToS())
  {
    if SchemaFields(b).Success? {
      var fs := AvroSchemaOf(b, None).value.fields;
      var listed := SchemaFields(b).value;
      if KeyDerivable(b, keyId) {
        var i := FindField(fs, keyId.ToS()).value;
        assert listed[i].name == Str(keyId.ToS());
      } else {
        forall i | 0 <= i < |listed|
          ensures listed[i].name != Str(keyId.ToS())
        {
          assert listed[i].name == fs[i].name;
        }
      }
    }
  }

  /** A backend ready to handle keys for `keyId`: either nothing is cached
      and the key can be derived, or the cached schema has a field. */
  predicate KeyReady(b: Backend, keyId: Name) {
    if b.keySchema.None? then KeyDerivable(b, keyId) else |b.keySchema.value.fields| > 0
  }

  /** The key round trip: with a codec whose decode inverts its encode,
      decoding what `encode_key` produced gives back the key, whatever key
      id the decoding call passes, and leaves the backend as encoding left
      it. */
  lemma KeyRoundTrip<V(!new), B>(b: Backend, codec: Codec<V, B>, keyId: Name, key: V, topic: Option<string>, decodeId: Name)
    requires Inverts(codec)
    requires KeyReady(b, keyId)
    ensures EncodeKey(b, codec, keyId, key, topic).result.Success?
    ensures var e := EncodeKey(b, codec, keyId, key, topic);
      var d := DecodeKey(e.backend, codec, e.result.value, decodeId);
      d.result == Success(Some(key)) && d.backend == e.backend
  {
    var e := EncodeKey(b, codec, keyId, key, topic);
    var ks := e.backend.keySchema.value;
    assert ks == CachedKeySchema(b, keyId).result.value;
    var fieldName := ks.fields[0].name;
    assert e.result.value == codec.encode(map[fieldName := key], ks.name, topic);
    assert codec.decode(codec.encode(map[fieldName := key], ks.name, topic), ks.name) == map[fieldName := key];
  }

  /** The round trip needs the codec to give back the key as it was
      wrapped. When the codec's decode yields String keys only, a Symbol key
      id finds nothing: the field is named by the Symbol and the decoded
      entry is under its String, so `decode_key` returns `nil`. */
  lemma SymbolIdMissesStringKeys<V, B>(b: Backend, codec: Codec<V, B>, payload: B, keyId: Name)
    requires b.keySchema.None? && KeyDerivable(b, keyId)
    requires keyId.Sym?
    requires forall k :: k in codec.decode(payload, KeySchemaName(b.schema)) ==> k.Str?
    ensures DecodeKey(b, codec, payload, keyId).result == Success(None)
  {
  }

  /** The memo is not keyed by the key id: after a first successful call,
      a call with another key id reuses the first schema, wraps the key
      under the first key id, inserts nothing and changes nothing. Over
      both calls the store receives exactly one schema. */
  lemma CacheIgnoresKeyId<V, B>(b: Backend, codec: Codec<V, B>, first: Name, second: Name, k1: V, k2: V, t1: Option<string>, t2: Option<string>)
    requires b.keySchema.None?
    requires KeyDerivable(b, first)
    ensures var e1 := EncodeKey(b, codec, first, k1, t1);
      var e2 := EncodeKey(e1.backend, codec, second, k2, t2);
      && e2.backend == e1.backend
      && e2.result == Success(codec.encode(map[first := k2], KeySchemaName(b.schema), t2))
      && e2.backend.store.insertions == b.store.insertions + [e2.backend.keySchema.value]
  {
    var e1 := EncodeKey(b, codec, first, k1, t1);
    var ks := e1.backend.keySchema.value;
    assert ks == GenerateKeySchema(b, first).result.value;
    assert ks.fields[0].name == first;
  }

  /** The value schema of the backend's shared examples: `MySchema` in
      namespace `com.my-namespace` with a `string` field `test_id` and an
      `int` field `some_int`. */
  function MySchemaBackend(): Backend {
    var vs := Schema("record", "MySchema", "com.my-namespace", None,
      [Field(Str("test_id"), TypeName("string")), Field(Str("some_int"), TypeName("int"))]);
    Backend("MySchema", "com.my-namespace", SchemaStore(map[SchemaRef("MySchema", "com.my-namespace") := vs], []), None)
  }

  lemma MySchemaDoc()
    ensures "Key for " + "com.my-namespace" + "." + "MySchema" == "Key for com.my-namespace.MySchema"
  {
    var s := "Key for " + "com.my-namespace" + "." + "MySchema";
    var t := "Key for com.my-namespace.MySchema";
    assert |s| == |t|;
    forall i | 0 <= i < |s|
      ensures s[i] == t[i]
    {
    }
  }

  /** `encode_key('test_id', 1, topic: 'topic')` on that backend encodes
      `{'test_id' => 1}` under `MySchema_key` and topic `topic`, and leaves
      in the store the record `MySchema_key` of namespace
      `com.my-namespace`, documented `Key for com.my-namespace.MySchema`,
      with the one field `test_id` of type `string`. */
  lemma MySchemaEncodeKey<B>(codec: Codec<int, B>)
    ensures var e := EncodeKey(MySchemaBackend(), codec, Str("test_id"), 1, Some("topic"));
      && e.result == Success(codec.encode(map[Str("test_id") := 1], "MySchema_key", Some("topic")))
      && Find(e.backend.store, "MySchema_key", "com.my-namespace") == Some(Schema(
           "record", "MySchema_key", "com.my-namespace",
           Some("Key for com.my-namespace.MySchema"),
           [Field(Str("test_id"), TypeName("string"))]))
  {
    var b := MySchemaBackend();
    assert KeyField(b, Str("test_id")) == Field(Str("test_id"), TypeName("string"));
    KeySchemaNameMySchema();
    var e := EncodeKey(b, codec, Str("test_id"), 1, Some("topic"));
    var ks := e.backend.keySchema.value;
    assert ks == GenerateKeySchema(b, Str("test_id")).result.value;
    assert ks.name == "MySchema_key";
    MySchemaDoc();
    assert ks.doc == Some("Key for com.my-namespace.MySchema");
    assert ks.fields == [Field(Str("test_id"), TypeName("string"))];
    assert ks == Schema("record", "MySchema_key", "com.my-namespace",
      Some("Key for com.my-namespace.MySchema"), [Field(Str("test_id"), TypeName("string"))]);
    assert Find(AddSchema(b.store, ks), ks.name, ks.namespace) == Some(ks);
  }

  /** `decode_key('payload', 'test_id')` on that backend decodes under
      `MySchema_key` and, when the codec yields `{'test_id' => 1}`, returns
      `1`. */
  lemma MySchemaDecodeKey<B>(codec: Codec<int, B>, payload: B)
    requires codec.decode(payload, "MySchema_key") == map[Str("test_id") := 1]
    ensures DecodeKey(MySchemaBackend(), codec, payload, Str("test_id")).result == Success(Some(1))
  {
    var b := MySchemaBackend();
    assert KeyDerivable(b, Str("test_id"));
    KeySchemaNameMySchema();
  }
}
