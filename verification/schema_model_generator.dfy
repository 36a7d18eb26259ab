/** The schema-model generator's name helpers: splitting a fully qualified
    schema name such as `com.my-namespace.Generated` at its last dot, and
    turning the namespace into a directory path. */
module SchemaModelGenerator {
  import opened Wrappers

  /** `rindex('.')`: the index of the last `.`, or `None` (Ruby's `nil`)
      when there is none. */
  function LastDot(s: string): (r: Option<nat>)
    ensures r.Some? ==> r.value < |s| && s[r.value] == '.'
    ensures r.Some? ==> forall j :: r.value < j < |s| ==> s[j] != '.'
    ensures r.None? <==> '.' !in s
    decreases |s|
  {
    if |s| == 0 then None
    else if s[|s| - 1] == '.' then Some(|s| - 1)
    else LastDot(s[..|s| - 1])
  }

  /** `schema`: the text after the last dot. Without a dot `rindex` is
      `nil` and `nil + 1` raises, shown as `None`. */
  function Schema(fullSchema: string): (r: Option<string>)
    ensures r.Some? <==> '.' in fullSchema
    ensures r.Some? ==> '.' !in r.value
    ensures r.Some? ==> |r.value| < |fullSchema| && fullSchema[|fullSchema| - |r.value|..] == r.value
    ensures r.Some? ==> fullSchema[|fullSchema| - |r.value| - 1] == '.'
  {
    match LastDot(fullSchema)
    case None => None
    case Some(i) => Some(fullSchema[i + 1..])
  }

  /** `namespace`: the text before the last dot, which may hold dots of its
      own. Without a dot, `0...nil` is an endless range and the whole name
      comes back. */
  function Namespace(fullSchema: string): (r: string)
    ensures |r| <= |fullSchema| && fullSchema[..|r|] == r
    ensures '.' !in fullSchema ==> r == fullSchema
    ensures '.' in fullSchema ==> |r| < |fullSchema| && fullSchema[|r|] == '.'
    ensures '.' in fullSchema ==> '.' !in fullSchema[|r| + 1..]
  {
    match LastDot(fullSchema)
    case None => fullSchema
    case Some(i) => fullSchema[..i]
  }

  /** `gsub('.', '/')`: every `.` becomes `/`, every other character is
      kept in place. */
  function ReplaceDots(s: string): (r: string)
    ensures |r| == |s|
    ensures forall i :: 0 <= i < |s| ==> r[i] == (if s[i] == '.' then '/' else s[i])
  {
    if |s| == 0 then ""
    else [if s[0] == '.' then '/' else s[0]] + ReplaceDots(s[1..])
  }

  /** `namespace_path`: the namespace with its dots turned into slashes. */
  function NamespacePath(fullSchema: string): (r: string)
    ensures '.' !in r
    ensures |r| == |Namespace(fullSchema)|
    ensures forall i :: 0 <= i < |r| ==>
      r[i] == (if Namespace(fullSchema)[i] == '.' then '/' else Namespace(fullSchema)[i])
  {
    ReplaceDots(Namespace(fullSchema))
  }
}
