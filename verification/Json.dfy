/** Decoded JSON, and dotted paths through its objects. */
module Json {
  import opened Common

  datatype Value =
    | Null
    | Bool(b: bool)
    | Number(text: string)
    | Text(s: string)
    | Array(items: seq<Value>)
    | Object(fields: map<string, Value>)

  type Path = seq<string>

  function Lookup(value: Value, path: Path): Option<Value> {
    if path == [] then Some(value)
    else if value.Object? && path[0] in value.fields then Lookup(value.fields[path[0]], path[1..])
    else None
  }

  /** The root with the value at the path replaced; a missing last field is created, as for a Go map. */
  function Replace(root: Value, path: Path, value: Value): Option<Value>
    decreases |path|
  {
    if path == [] then Some(value)
    else if !root.Object? then None
    else
      var child := Replace(if path[0] in root.fields then root.fields[path[0]] else Null, path[1..], value);
      if child.None? then None else Some(Object(root.fields[path[0] := child.value]))
  }

  /** Neither path leads through the other. */
  ghost predicate Apart(p: Path, q: Path) { !(p <= q) && !(q <= p) }

  /** The path leads through objects; its last field may be missing. */
  ghost predicate LeadsThroughObjects(root: Value, path: Path) {
    path == [] || match Lookup(root, path[..|path| - 1]) case Some(Object(_)) => true case _ => false
  }

  /** Replacing succeeds exactly where the path leads through objects, and the value is then found there. */
  lemma {:induction false} ReplaceExactly(root: Value, path: Path, value: Value)
    ensures Replace(root, path, value).Some? <==> LeadsThroughObjects(root, path)
    ensures Replace(root, path, value).Some? ==> Lookup(Replace(root, path, value).value, path) == Some(value)
  {
    if path != [] {
      var front, rest := path[..|path| - 1], path[1..];
      if rest != [] {
        assert front[0] == path[0] && front[1..] == rest[..|rest| - 1];
        if root.Object? && path[0] in root.fields {
          ReplaceExactly(root.fields[path[0]], rest, value);
        }
      }
    }
  }

  lemma {:induction false} ReplaceFound(root: Value, path: Path, value: Value)
    requires Lookup(root, path).Some?
    ensures Replace(root, path, value).Some?
    ensures Lookup(Replace(root, path, value).value, path) == Some(value)
  {
    if path != [] {
      ReplaceFound(root.fields[path[0]], path[1..], value);
    }
  }

  /** Replacing one field changes nothing that is looked up elsewhere. */
  lemma {:induction false} ReplaceElsewhere(root: Value, path: Path, value: Value, other: Path)
    requires Replace(root, path, value).Some? && Apart(path, other)
    ensures Lookup(Replace(root, path, value).value, other) == Lookup(root, other)
  {
    if path[0] == other[0] {
      assert path == [path[0]] + path[1..] && other == [other[0]] + other[1..];
      if path[0] in root.fields {
        ReplaceElsewhere(root.fields[path[0]], path[1..], value, other[1..]);
      }
    }
  }

  /** The text by which owners are compared: a number counts as its digits, and anything but text or a number names
      nobody. */
  function ClaimString(value: Option<Value>): string {
    match value
    case Some(Text(s)) => s
    case Some(Number(text)) => text
    case _ => ""
  }
}
