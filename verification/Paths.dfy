/** Dotted paths: `str.split(".")`, `".".join`, and walking into nested objects. */
module Paths {
  import opened Wrappers
  import opened Json
  import opened Texts

  function Split(s: string): seq<string> {
    SplitOn(s, '.')
  }

  function Join(parts: seq<string>): string
    requires parts != []
  {
    if |parts| == 1 then parts[0] else parts[0] + "." + Join(parts[1..])
  }

  predicate Dotless(part: string) {
    '.' !in part
  }

  lemma {:induction false} SplitIsDotless(s: string)
    ensures forall i :: 0 <= i < |Split(s)| ==> Dotless(Split(s)[i])
  {
    if s == "" {
    } else {
      SplitIsDotless(s[1..]);
      var rest := Split(s[1..]);
      assert Dotless(rest[0]);
      forall i | 0 <= i < |Split(s)| ensures Dotless(Split(s)[i]) {
        if i > 0 { assert s[0] != '.' ==> Split(s)[i] == rest[i]; }
      }
    }
  }

  lemma {:induction false} JoinSplit(s: string)
    ensures Join(Split(s)) == s
  {
    if s == "" {
    } else {
      JoinSplit(s[1..]);
      var rest := Split(s[1..]);
      if s[0] == '.' {
        assert Split(s)[1..] == rest;
      } else if |rest| > 1 {
        assert Split(s)[1..] == rest[1..];
      }
    }
  }

  /** Splitting undoes joining for parts without dots. */
  lemma {:induction false} SplitJoin(parts: seq<string>)
    requires parts != [] && forall i :: 0 <= i < |parts| ==> Dotless(parts[i])
    ensures Split(Join(parts)) == parts
  {
    if |parts| == 1 {
      SplitWhole(parts[0], '.');
    } else {
      SplitJoin(parts[1..]);
      SplitFirst(parts[0], Join(parts[1..]), '.');
      assert parts[0] + ['.'] + Join(parts[1..]) == Join(parts);
    }
  }

  /** Follow `parts` into nested objects. */
  function Walk(data: Json, parts: seq<string>): Option<Json> {
    if parts == [] then Some(data)
    else if data.Obj? && parts[0] in data.fields then Walk(data.fields[parts[0]], parts[1..])
    else None
  }

  function PathParts(path: string): seq<string> {
    if path == "" then [] else Split(path)
  }

  /** `get_path`: `None` stands for the `ValueError` it raises. */
  function GetPath(data: Json, path: string): Option<Json> {
    Walk(data, PathParts(path))
  }

  /** The loop of `get_path` (template_resolver.py and nodes/shared/paths.py). */
  method WalkPath(data: Json, parts: seq<string>) returns (found: Option<Json>)
    ensures found == Walk(data, parts)
  {
    var current := data;
    for i := 0 to |parts|
      invariant Walk(data, parts) == Walk(current, parts[i..])
    {
      if current.Obj? && parts[i] in current.fields {
        current := current.fields[parts[i]];
        assert parts[i..][1..] == parts[i + 1..];
      } else {
        return None;
      }
    }
    found := Some(current);
  }
}
