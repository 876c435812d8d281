/**
  The part of a schema that its root reaches: `collect_reachable_schema_paths`
  of scripts/docs/docs_contract/workflow_schema.py. References may form cycles.
*/
module SchemaPaths {
  import opened JsonPointer

  type References = map<Path, Path>

  const SKIPPED: set<string> := {"$defs", "$ref", "$dynamicRef"}

  predicate IsContainer(value: Json) {
    value.Obj? || value.Arr?
  }

  /** From an object: its resolved `$ref` and its child containers; from an array: its item containers. */
  ghost predicate Steps(schema: Json, references: References, from: Path, to: Path)
    requires IsPath(schema, from)
  {
    var value := ValueAt(schema, from);
    || (value.Obj? && from + [Key("$ref")] in references && to == references[from + [Key("$ref")]])
    || (value.Obj? &&
         exists key :: key in value.fields && key !in SKIPPED && IsContainer(value.fields[key])
           && to == from + [Key(key)])
    || (value.Arr? && exists i :: 0 <= i < |value.items| && IsContainer(value.items[i]) && to == from + [Index(i)])
  }

  /** Every resolved reference names an existing value. */
  ghost predicate Resolved(schema: Json, references: References) {
    forall from :: from in references ==> IsPath(schema, references[from])
  }

  /** A walk from the root. */
  ghost predicate IsTrail(schema: Json, references: References, trail: seq<Path>) {
    && trail != [] && trail[0] == []
    && (forall i :: 0 <= i < |trail| ==> IsPath(schema, trail[i]))
    && (forall i :: 0 <= i < |trail| - 1 ==> Steps(schema, references, trail[i], trail[i + 1]))
  }

  ghost predicate Reaches(schema: Json, references: References, path: Path) {
    exists trail :: IsTrail(schema, references, trail) && trail[|trail| - 1] == path
  }

  // ---------------------------------------------------------------- the finite set of paths

  function AllPaths(value: Json): set<Path> {
    {[]} + match value
    case Obj(fields) => (set key, rest | key in fields && rest in AllPaths(fields[key]) :: [Key(key)] + rest)
    case Arr(items) => (set i, rest | 0 <= i < |items| && rest in AllPaths(items[i]) :: [Index(i)] + rest)
    case Scalar => {}
  }

  lemma {:induction false} PathsAreAll(value: Json, path: Path)
    requires IsPath(value, path)
    ensures path in AllPaths(value)
    decreases |path|
  {
    if path != [] {
      PathsAreAll(Child(value, path[0]), path[1..]);
      assert path == [path[0]] + path[1..];
    }
  }

  lemma {:induction false} PathAppend(value: Json, path: Path, part: Part)
    requires IsPath(value, path) && HasPart(ValueAt(value, path), part)
    ensures IsPath(value, path + [part]) && ValueAt(value, path + [part]) == Child(ValueAt(value, path), part)
    decreases |path|
  {
    if path != [] {
      PathAppend(Child(value, path[0]), path[1..], part);
      assert (path + [part])[1..] == path[1..] + [part];
    }
  }

  lemma StepIsPath(schema: Json, references: References, from: Path, to: Path)
    requires Resolved(schema, references) && IsPath(schema, from) && Steps(schema, references, from, to)
    ensures IsPath(schema, to)
  {
    var value := ValueAt(schema, from);
    if value.Obj? && from + [Key("$ref")] in references && to == references[from + [Key("$ref")]] {
    } else if value.Obj? {
      var key :| key in value.fields && key !in SKIPPED && IsContainer(value.fields[key]) && to == from + [Key(key)];
      PathAppend(schema, from, Key(key));
    } else {
      var i :| 0 <= i < |value.items| && IsContainer(value.items[i]) && to == from + [Index(i)];
      PathAppend(schema, from, Index(i));
    }
  }

  // ---------------------------------------------------------------- trails

  lemma RootReached(schema: Json, references: References)
    ensures Reaches(schema, references, [])
  {
    assert IsTrail(schema, references, [[]]);
  }

  lemma TrailExtends(schema: Json, references: References, trail: seq<Path>, to: Path)
    requires IsTrail(schema, references, trail) && IsPath(schema, to)
    requires IsPath(schema, trail[|trail| - 1]) && Steps(schema, references, trail[|trail| - 1], to)
    ensures IsTrail(schema, references, trail + [to])
  {
    hide Steps;
  }

  lemma ReachFurther(schema: Json, references: References, from: Path, to: Path)
    requires Resolved(schema, references) && Reaches(schema, references, from)
    requires IsPath(schema, from) && Steps(schema, references, from, to)
    ensures Reaches(schema, references, to)
  {
    hide Resolved, Steps;
    var trail :| IsTrail(schema, references, trail) && trail[|trail| - 1] == from;
    StepIsPath(schema, references, from, to);
    TrailExtends(schema, references, trail, to);
    assert (trail + [to])[|trail + [to]| - 1] == to;
  }

  /** The set contains the root and everything one step from what it contains. */
  ghost predicate Closed(schema: Json, references: References, paths: set<Path>) {
    && [] in paths
    && (forall path :: path in paths ==> IsPath(schema, path))
    && (forall from, to :: from in paths && IsPath(schema, from) && Steps(schema, references, from, to) ==> to in paths)
  }

  /** Closed sets contain every walk. */
  lemma {:induction false} TrailStaysInside(schema: Json, references: References, paths: set<Path>, trail: seq<Path>)
    requires Closed(schema, references, paths) && IsTrail(schema, references, trail)
    ensures trail[|trail| - 1] in paths
    decreases |trail|
  {
    if |trail| > 1 {
      var shorter := trail[..|trail| - 1];
      assert IsTrail(schema, references, shorter);
      TrailStaysInside(schema, references, paths, shorter);
      assert Steps(schema, references, trail[|trail| - 2], trail[|trail| - 1]);
    }
  }

  /** A closed set of reached paths is the set of all reached paths, and the least closed set. */
  lemma ClosureIsExact(schema: Json, references: References, paths: set<Path>)
    requires Closed(schema, references, paths)
    requires forall path :: path in paths ==> Reaches(schema, references, path)
    ensures forall path :: path in paths <==> Reaches(schema, references, path)
    ensures forall other :: Closed(schema, references, other) ==> paths <= other
  {
    forall path | Reaches(schema, references, path) ensures path in paths {
      var trail :| IsTrail(schema, references, trail) && trail[|trail| - 1] == path;
      TrailStaysInside(schema, references, paths, trail);
    }
    forall other | Closed(schema, references, other) ensures paths <= other {
      forall path | path in paths ensures path in other {
        var trail :| IsTrail(schema, references, trail) && trail[|trail| - 1] == path;
        TrailStaysInside(schema, references, other, trail);
      }
    }
  }

  // ---------------------------------------------------------------- the worklist

  /** The paths pushed for one path; the order of keys does not matter for the result. */
  method PushChildren(schema: Json, references: References, from: Path) returns (pushed: seq<Path>)
    requires IsPath(schema, from)
    ensures forall to :: to in pushed <==> Steps(schema, references, from, to)
  {
    pushed := [];
    var current := ValueAt(schema, from);
    match current {
      case Obj(fields) =>
        var referencePath := from + [Key("$ref")];
        if referencePath in references { pushed := pushed + [references[referencePath]]; }
        ghost var reference := pushed;
        var keys := fields.Keys;
        while keys != {}
          invariant keys <= fields.Keys
          invariant forall to :: to in pushed <==>
            || to in reference
            || (exists key ::
                 key in fields.Keys - keys && key !in SKIPPED && IsContainer(fields[key]) && to == from + [Key(key)])
          decreases keys
        {
          var key :| key in keys;
          keys := keys - {key};
          if key !in SKIPPED && IsContainer(fields[key]) { pushed := pushed + [from + [Key(key)]]; }
        }
      case Arr(items) =>
        for index := 0 to |items|
          invariant forall to :: to in pushed <==>
            exists i :: 0 <= i < index && IsContainer(items[i]) && to == from + [Index(i)]
        {
          if IsContainer(items[index]) { pushed := pushed + [from + [Index(index)]]; }
        }
      case Scalar =>
    }
  }

  /**
    `collect_reachable_schema_paths` ends even on cyclic references, and returns
    exactly the paths that a walk from the root reaches, the least closed set.
  */
  method CollectReachable(schema: Json, references: References) returns (reachable: set<Path>)
    requires Resolved(schema, references)
    ensures forall path :: path in reachable <==> Reaches(schema, references, path)
    ensures Closed(schema, references, reachable)
    ensures forall other :: Closed(schema, references, other) ==> reachable <= other
  {
    reachable := {};
    var pending: seq<Path> := [[]];
    RootReached(schema, references);
    while pending != []
      invariant reachable <= AllPaths(schema)
      invariant [] in reachable || [] in pending
      invariant forall path :: path in reachable || path in pending ==>
        IsPath(schema, path) && Reaches(schema, references, path)
      invariant forall from, to :: from in reachable && IsPath(schema, from) && Steps(schema, references, from, to) ==>
        to in reachable || to in pending
      decreases AllPaths(schema) - reachable, |pending|
    {
      var path := pending[|pending| - 1];
      ghost var before := pending;
      pending := pending[..|pending| - 1];
      assert before == pending + [path];
      if path !in reachable {
        PathsAreAll(schema, path);
        var pushed := PushChildren(schema, references, path);
        forall to | to in pushed ensures IsPath(schema, to) && Reaches(schema, references, to) {
          StepIsPath(schema, references, path, to);
          ReachFurther(schema, references, path, to);
        }
        reachable := reachable + {path};
        pending := pending + pushed;
      }
    }
    ClosureIsExact(schema, references, reachable);
  }

  predicate Uses(path: Path, name: string) {
    |path| >= 2 && path[0] == Key("$defs") && path[1] == Key(name)
  }

  /** `unused_definition_findings`: exactly the top-level definitions that no walk from the root enters. */
  method UnusedDefinitions(schema: Json, references: References) returns (unused: set<string>)
    requires Resolved(schema, references)
    ensures forall name :: name in unused <==>
      && schema.Obj? && "$defs" in schema.fields && schema.fields["$defs"].Obj?
      && name in schema.fields["$defs"].fields
      && forall path :: Reaches(schema, references, path) ==> !Uses(path, name)
  {
    if !(schema.Obj? && "$defs" in schema.fields && schema.fields["$defs"].Obj?) { return {}; }
    var reachable := CollectReachable(schema, references);
    unused := set name |
      name in schema.fields["$defs"].fields && forall path :: path in reachable ==> !Uses(path, name);
  }
}
