/**
 * The content of a Kubernetes `unstructured.Unstructured` object, as the
 * dynamic client hands it out for custom resources: a JSON object held as
 * nested string-keyed maps. The controller reads its fields with the
 * apimachinery helpers `NestedString` and `GetName` / `GetNamespace`, which
 * walk a path of field names and yield the empty string whenever the path is
 * missing or does not end at a string (the controller ignores the found flag
 * and the error that `NestedString` also returns; `GetName` and
 * `GetNamespace` return a bare string).
 */
module Unstructured {

  datatype Option<+T> = None | Some(value: T)

  /** A JSON value. `Other` stands for every value that is neither a string
      nor an object: numbers, booleans, lists and null. */
  datatype Value = Str(s: string) | Object(fields: map<string, Value>) | Other

  /** The top-level map of an unstructured object (`Unstructured.Object`). */
  type Content = map<string, Value>

  /** Follows `path` from `v` one field at a time, as `NestedFieldNoCopy`
      does: None as soon as a field is missing or a step lands on something
      that is not an object. */
  function NestedField(v: Value, path: seq<string>): Option<Value>
    decreases |path|
  {
    if path == [] then Some(v)
    else if v.Object? && path[0] in v.fields then NestedField(v.fields[path[0]], path[1..])
    else None
  }

  /** The string a lookup found, or "" when it found none or a non-string. */
  function StringOf(found: Option<Value>): string
  {
    match found
    case Some(Str(t)) => t
    case _ => ""
  }

  /** The string at `path`, or "" when there is none. Along a path of two
      fields it is the string stored at those two map entries. */
  function NestedString(content: Content, path: seq<string>): (s: string)
    ensures s != "" ==> NestedField(Object(content), path) == Some(Str(s))
    ensures var found := NestedField(Object(content), path);
            if found.Some? && found.value.Str? then s == found.value.s else s == ""
    ensures |path| == 2 ==> s == StoredString(content, path[0], path[1])
  {
    if |path| == 2 then
      assert path == [path[0]] + [path[1]];
      assert [path[1]][1..] == [];
      FieldAppend(Object(content), [path[0]], [path[1]]);
      StringOf(NestedField(Object(content), path))
    else
      StringOf(NestedField(Object(content), path))
  }

  /** The string stored under `key` in the object stored under `parent`,
      read directly off the maps; "" when any of these is missing or of
      another kind. */
  function StoredString(content: Content, parent: string, key: string): string
  {
    if parent in content && content[parent].Object? && key in content[parent].fields
       && content[parent].fields[key].Str?
    then content[parent].fields[key].s
    else ""
  }

  /** `GetName()`: the string at metadata.name. */
  function GetName(content: Content): (name: string)
    ensures name == StoredString(content, "metadata", "name")
  {
    ChildString(content, "metadata", "name");
    NestedString(content, ["metadata", "name"])
  }

  /** `GetNamespace()`: the string at metadata.namespace. */
  function GetNamespace(content: Content): (namespace: string)
    ensures namespace == StoredString(content, "metadata", "namespace")
  {
    ChildString(content, "metadata", "namespace");
    NestedString(content, ["metadata", "namespace"])
  }

  /** A lookup along `p + q` is a lookup along `p` followed by one along `q`
      from wherever `p` led: fields are reached through their parents. */
  lemma {:induction false} FieldAppend(v: Value, p: seq<string>, q: seq<string>)
    ensures NestedField(v, p + q) == match NestedField(v, p)
                                     case Some(w) => NestedField(w, q)
                                     case None => None
    decreases |p|
  {
    if p == [] {
      assert p + q == q;
    } else {
      assert (p + q)[0] == p[0];
      assert (p + q)[1..] == p[1..] + q;
      if v.Object? && p[0] in v.fields {
        FieldAppend(v.fields[p[0]], p[1..], q);
      }
    }
  }

  /** The string at `parent.key` is the string at `key` inside the object at
      `parent`; when `parent` is absent or not an object it is "". Either way
      it is the string stored there, read directly off the maps. */
  lemma ChildString(content: Content, parent: string, key: string)
    ensures NestedString(content, [parent, key])
            == if parent in content && content[parent].Object?
               then NestedString(content[parent].fields, [key])
               else ""
    ensures NestedString(content, [parent, key]) == StoredString(content, parent, key)
  {
    assert [parent, key] == [parent] + [key];
    assert [key][1..] == [];
    FieldAppend(Object(content), [parent], [key]);
  }
}
