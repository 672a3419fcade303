/**
 Two independent implementations of looking a dotted path up among the run variables:
 `_resolve_path("variables", ...)` of template_resolver.py and `get_variable_path` of run_variables.py.
 Variable names may themselves contain dots.
 */
module VariablePaths {
  import opened Wrappers
  import opened Json
  import opened Paths
  import opened Texts

  type Variables = map<string, Json>

  /** The length of the longest prefix of at most `k` parts that names a variable; 0 when there is none. */
  function LongestName(variables: Variables, parts: seq<string>, k: nat): (r: nat)
    requires k <= |parts|
    ensures r <= k
    ensures r > 0 ==> Join(parts[..r]) in variables
    ensures forall j :: r < j <= k ==> Join(parts[..j]) !in variables
  {
    if k == 0 then 0
    else if Join(parts[..k]) in variables then k
    else LongestName(variables, parts, k - 1)
  }

  /** `_resolve_path` on the scope `variables`; `None` stands for the exception. */
  function Resolve(variables: Variables, path: string): Option<Json> {
    if path in variables then Some(variables[path])
    else
      var parts := Split(path);
      var k := LongestName(variables, parts, |parts| - 1);
      if k > 0 then GetPath(variables[Join(parts[..k])], Join(parts[k..]))
      else GetPath(Obj(variables), path)
  }

  /** `get_variable_path`; `None` stands for the default. */
  function Lookup(variables: Variables, path: string): Option<Json> {
    if path in variables then Some(variables[path])
    else
      var parts := Split(path);
      var k := LongestName(variables, parts, |parts| - 1);
      if k > 0 then Walk(variables[Join(parts[..k])], parts[k..]) else None
  }

  method ResolvePath(variables: Variables, path: string) returns (r: Option<Json>)
    ensures r == Resolve(variables, path)
  {
    if path in variables {
      return Some(variables[path]);
    }
    var parts := Split(path);
    var splitAt := |parts| - 1;
    while splitAt > 0
      invariant 0 <= splitAt <= |parts| - 1
      invariant LongestName(variables, parts, |parts| - 1) == LongestName(variables, parts, splitAt)
    {
      var name := Join(parts[..splitAt]);
      if name in variables {
        r := WalkPath(variables[name], PathParts(Join(parts[splitAt..])));
        return;
      }
      splitAt := splitAt - 1;
    }
    r := WalkPath(Obj(variables), PathParts(path));
  }

  method GetVariablePath(variables: Variables, path: string) returns (r: Option<Json>)
    ensures r == Lookup(variables, path)
  {
    if path in variables {
      return Some(variables[path]);
    }
    var parts := Split(path);
    var splitAt := |parts| - 1;
    while splitAt > 0
      invariant 0 <= splitAt <= |parts| - 1
      invariant LongestName(variables, parts, |parts| - 1) == LongestName(variables, parts, splitAt)
    {
      var name := Join(parts[..splitAt]);
      if name in variables {
        r := WalkPath(variables[name], parts[splitAt..]);
        return;
      }
      splitAt := splitAt - 1;
    }
    r := None;
  }

  // ----- when the two agree -----

  /** The path ends in a dot and what precedes the dot names a variable. */
  predicate TrailingDot(variables: Variables, path: string) {
    path != "" && path[|path| - 1] == '.' && path[..|path| - 1] in variables
  }

  lemma {:induction false} JoinIsEmpty(parts: seq<string>)
    requires parts != []
    ensures Join(parts) == "" <==> parts == [""]
  {
    if |parts| > 1 {
      assert |Join(parts)| >= 1;
    } else {
      assert parts == [parts[0]];
    }
  }

  lemma {:induction false} JoinSnocEmpty(parts: seq<string>)
    requires parts != []
    ensures Join(parts + [""]) == Join(parts) + "."
  {
    if |parts| > 1 {
      JoinSnocEmpty(parts[1..]);
      assert (parts + [""])[1..] == parts[1..] + [""];
    }
  }

  lemma {:induction false} EndsInDot(path: string)
    requires path != "" && path[|path| - 1] == '.'
    ensures |Split(path)| > 1 && Split(path)[|Split(path)| - 1] == ""
  {
    if |path| > 1 {
      EndsInDot(path[1..]);
    } else {
      assert path[1..] == "" && SplitOn("", '.') == [""];
      assert Split(path) == ["", ""];
    }
  }

  /** The last part is empty exactly for the empty path and for a path that ends in a dot. */
  lemma LastPartEmpty(path: string)
    requires path != ""
    ensures var parts := Split(path);
            parts[|parts| - 1] == "" <==> path[|path| - 1] == '.'
    ensures var parts := Split(path);
            path[|path| - 1] == '.' ==> |parts| > 1 && Join(parts[..|parts| - 1]) == path[..|path| - 1]
  {
    var parts := Split(path);
    JoinSplit(path);
    if path[|path| - 1] == '.' {
      EndsInDot(path);
    }
    if parts[|parts| - 1] == "" {
      var init := parts[..|parts| - 1];
      assert parts == init + [""];
      JoinSnocEmpty(init);
    }
  }

  lemma TrailingDotDiffers(variables: Variables, path: string)
    requires path !in variables && TrailingDot(variables, path)
    ensures Resolve(variables, path) == Some(variables[path[..|path| - 1]])
    ensures Resolve(variables, path) != Lookup(variables, path)
  {
    var parts := Split(path);
    LastPartEmpty(path);
    var k := |parts| - 1;
    assert LongestName(variables, parts, k) == k;
    assert parts[k..] == [""];
    var v := variables[path[..|path| - 1]];
    assert [""][1..] == [];
    if v.Obj? && "" in v.fields {
      assert Walk(v, [""]) == Some(v.fields[""]);
      assert v.fields[""] < v;
    }
  }

  lemma AgreeOtherwise(variables: Variables, path: string)
    requires path in variables || (path != "" && !TrailingDot(variables, path))
    ensures Resolve(variables, path) == Lookup(variables, path)
  {
    if path !in variables {
      var parts := Split(path);
      var k := LongestName(variables, parts, |parts| - 1);
      SplitIsDotless(path);
      JoinSplit(path);
      if k > 0 {
        var rest := parts[k..];
        JoinIsEmpty(rest);
        LastPartEmpty(path);
        assert |rest| == 1 ==> k == |parts| - 1 && rest[0] == parts[|parts| - 1];
        assert rest != [""];
        SplitJoin(rest);
      } else {
        assert parts[..1] == [parts[0]];
        assert parts[0] !in variables by {
          if |parts| == 1 { assert Join(parts) == parts[0]; }
        }
      }
    }
  }

  /**
   The two look-ups agree on a path, value for value and failure for failure, exactly unless the path is
   unbound and is empty or is a variable's name with a dot after it.
   */
  lemma ResolversAgreeIff(variables: Variables, path: string)
    ensures Resolve(variables, path) == Lookup(variables, path) <==>
            path in variables || (path != "" && !TrailingDot(variables, path))
  {
    if path in variables || (path != "" && !TrailingDot(variables, path)) {
      AgreeOtherwise(variables, path);
    } else if path != "" {
      TrailingDotDiffers(variables, path);
    }
  }

  /** The last line of `_resolve_path` never finds anything for a path that names something. */
  lemma FallbackNeverFinds(variables: Variables, path: string)
    requires path !in variables && path != "" && LongestName(variables, Split(path), |Split(path)| - 1) == 0
    ensures GetPath(Obj(variables), path) == None
  {
    var parts := Split(path);
    JoinSplit(path);
    assert parts[..1] == [parts[0]];
    if |parts| == 1 { assert Join(parts) == parts[0]; }
  }

  /**
   Both bind the longest name and never fall back to a shorter one. Where the longest name that a path starts with is bound
   to a value without the rest of the path, the path is not found, whatever is found below any shorter name; only a
   template path that ends in a dot finds the value itself, when what precedes the dot is that name.
   */
  lemma NoBacktracking(variables: Variables, path: string, shorter: nat)
    requires var parts := Split(path);
             var k := LongestName(variables, parts, |parts| - 1);
             && path !in variables && 0 < shorter < k && Join(parts[..shorter]) in variables
             && Walk(variables[Join(parts[..k])], parts[k..]) == None
    ensures Lookup(variables, path) == None
    ensures Resolve(variables, path) == if TrailingDot(variables, path) then Some(variables[path[..|path| - 1]]) else None
  {
    if TrailingDot(variables, path) {
      TrailingDotDiffers(variables, path);
    } else {
      assert Split("") == [""];
      AgreeOtherwise(variables, path);
    }
  }

  lemma SplitABC()
    ensures Split("a.b.c") == ["a", "b", "c"] && Join(["a", "b"]) == "a.b" && Join(["a"]) == "a"
  {
    SplitWhole("c", '.');
    SplitFirst("b", "c", '.');
    SplitFirst("a", "b.c", '.');
    assert "a" + ['.'] + "b.c" == "a.b.c" && "b" + ['.'] + "c" == "b.c";
    assert ["a", "b"][1..] == ["b"];
  }

  /** For instance, `a.b.c` with both `a` and `a.b` bound, though `b.c` is found below `a`. */
  lemma NoBacktrackingInstance(value: Json)
    ensures var variables := map["a.b" := Null, "a" := Obj(map["b" := Obj(map["c" := value])])];
            && Walk(variables["a"], ["b", "c"]) == Some(value)
            && Lookup(variables, "a.b.c") == None && Resolve(variables, "a.b.c") == None
  {
    var variables := map["a.b" := Null, "a" := Obj(map["b" := Obj(map["c" := value])])];
    SplitABC();
    var parts := ["a", "b", "c"];
    assert parts[..2] == ["a", "b"] && parts[..1] == ["a"] && parts[2..] == ["c"];
    assert LongestName(variables, parts, 2) == 2;
    assert ["b", "c"][1..] == ["c"] && ["c"][1..] == [];
    assert Walk(Obj(map["c" := value]), ["c"]) == Some(value);
    NoBacktracking(variables, "a.b.c", 1);
  }

  /** With `a` bound, a template finds `a.` and the look-up by path does not. */
  lemma ResolversDiffer(value: Json)
    ensures Resolve(map["a" := value], "a.") == Some(value) && Lookup(map["a" := value], "a.") != Some(value)
  {
    var path := "a.";
    assert path[..1] == "a" && |path| == 2;
    TrailingDotDiffers(map["a" := value], path);
  }

  /** The longest bound name that a path starts with, followed by the rest of the path, finds what lies there, in both look-ups. */
  lemma LongestNameFinds(variables: Variables, path: string)
    requires var parts := Split(path);
             var k := LongestName(variables, parts, |parts| - 1);
             path !in variables && k > 0 && Walk(variables[Join(parts[..k])], parts[k..]).Some? && !TrailingDot(variables, path)
    ensures var parts := Split(path);
            var k := LongestName(variables, parts, |parts| - 1);
            && Join(parts[..k]) + "." + Join(parts[k..]) == path
            && Lookup(variables, path) == Walk(variables[Join(parts[..k])], parts[k..])
            && Resolve(variables, path) == Walk(variables[Join(parts[..k])], parts[k..])
  {
    var parts := Split(path);
    var k := LongestName(variables, parts, |parts| - 1);
    JoinSplit(path);
    JoinParts(parts, k);
    assert path != "" by { assert Split("") == [""]; }
    AgreeOtherwise(variables, path);
  }

  lemma {:induction false} JoinParts(parts: seq<string>, k: nat)
    requires 0 < k < |parts|
    ensures Join(parts[..k]) + "." + Join(parts[k..]) == Join(parts)
  {
    if k == 1 {
      assert parts[..1] == [parts[0]];
    } else {
      JoinParts(parts[1..], k - 1);
      assert parts[1..][..k - 1] == parts[..k][1..] && parts[1..][k - 1..] == parts[k..];
    }
  }

  /** A path that is a variable's own name is that variable, whatever shorter names there are. */
  lemma OwnNameWins(variables: Variables, path: string)
    requires path in variables
    ensures Resolve(variables, path) == Some(variables[path]) && Lookup(variables, path) == Some(variables[path])
  {
  }
}
