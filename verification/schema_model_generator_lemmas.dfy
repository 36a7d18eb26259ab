/** Algebraic properties of the generator's name helpers. */
module SchemaModelGeneratorLemmas {
  import opened Wrappers
  import opened SchemaModelGenerator

  /** Splitting then joining: a dotted name is its namespace, a dot and its
      schema. */
  lemma SplitThenJoin(fullSchema: string)
    requires '.' in fullSchema
    ensures Schema(fullSchema).Some?
    ensures Namespace(fullSchema) + "." + Schema(fullSchema).value == fullSchema
  {
    var i := LastDot(fullSchema).value;
    assert fullSchema == fullSchema[..i] + "." + fullSchema[i + 1..];
  }

  /** Joining then splitting: the split happens at the dot that was added,
      however many dots the namespace holds, as long as the schema part
      holds none. */
  lemma JoinThenSplit(namespace: string, schema: string)
    requires '.' !in schema
    ensures Schema(namespace + "." + schema) == Some(schema)
    ensures Namespace(namespace + "." + schema) == namespace
  {
    var full := namespace + "." + schema;
    var i := LastDot(full).value;
    assert full[|namespace|] == '.';
    assert forall j :: |namespace| < j < |full| ==> full[j] == schema[j - |namespace| - 1];
    assert i == |namespace|;
    assert full[..|namespace|] == namespace;
    assert full[|namespace| + 1..] == schema;
  }

  /** A trailing dot leaves an empty schema. */
  lemma TrailingDotGivesEmptySchema(namespace: string)
    ensures Schema(namespace + ".") == Some("")
    ensures Namespace(namespace + ".") == namespace
  {
    JoinThenSplit(namespace, "");
    assert namespace + "." + "" == namespace + ".";
  }

  /** Without a dot there is no schema part, and the namespace and its path
      are the whole name. */
  lemma NoDot(fullSchema: string)
    requires '.' !in fullSchema
    ensures Schema(fullSchema) == None
    ensures Namespace(fullSchema) == fullSchema
    ensures NamespacePath(fullSchema) == fullSchema
  {
    assert ReplaceDots(fullSchema) == fullSchema;
  }

  /** Each dot-separated segment becomes one path segment. */
  lemma {:induction false} ReplaceDotsOfJoin(a: string, b: string)
    ensures ReplaceDots(a + "." + b) == ReplaceDots(a) + "/" + ReplaceDots(b)
  {
    var l := a + "." + b;
    var r := ReplaceDots(a) + "/" + ReplaceDots(b);
    assert |ReplaceDots(l)| == |r|;
    forall i | 0 <= i < |l|
      ensures ReplaceDots(l)[i] == r[i]
    {
      if i < |a| {
        assert l[i] == a[i];
      } else if i > |a| {
        assert l[i] == b[i - |a| - 1];
      }
    }
  }

  /** The example name is `com.my-namespace`, a dot and `Generated`. */
  lemma GeneratedExampleSplit()
    ensures "com.my-namespace.Generated" == "com.my-namespace" + "." + "Generated"
  {
    var s, t := "com.my-namespace.Generated", "com.my-namespace" + "." + "Generated";
    assert |s| == |t|;
    forall i | 0 <= i < |s|
      ensures s[i] == t[i]
    {
    }
  }

  /** The pointwise description determines the path: any string that
      has `/` where the namespace has `.` and agrees elsewhere is it. */
  lemma ReplaceDotsUnique(s: string, r: string)
    requires |r| == |s|
    requires forall i :: 0 <= i < |s| ==> r[i] == (if s[i] == '.' then '/' else s[i])
    ensures ReplaceDots(s) == r
  {
  }

  /** The generator's example name `com.my-namespace.Generated` has
      schema `Generated` and namespace `com.my-namespace`. */
  lemma GeneratedExample()
    ensures Schema("com.my-namespace.Generated") == Some("Generated")
    ensures Namespace("com.my-namespace.Generated") == "com.my-namespace"
  {
    GeneratedExampleSplit();
    JoinThenSplit("com.my-namespace", "Generated");
  }

  /** Its models go under `com/my-namespace`. */
  lemma GeneratedExamplePath()
    ensures NamespacePath("com.my-namespace.Generated") == "com/my-namespace"
  {
    GeneratedExample();
    ReplaceDotsUnique("com.my-namespace", "com/my-namespace");
  }
}
