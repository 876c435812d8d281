/**
  Boolean SQL as it is written (with parentheses) and as it is meant (and/or
  trees), independent of how schema_sql.py reads it.
*/
module SqlTrees {
  import opened SqlScan
  import opened Sequences

  /** An expression as written. */
  datatype Cst = Atom(text: string) | Paren(inner: Cst) | And(parts: seq<Cst>) | Or(parts: seq<Cst>)

  /** An expression as meant. */
  datatype Tree = Leaf(text: string) | All(parts: seq<Tree>) | Any(parts: seq<Tree>)

  // ---------------------------------------------------------------- written form

  function Render(c: Cst): string
    decreases c, 1
  {
    match c
    case Atom(text) => text
    case Paren(inner) => "(" + Render(inner) + ")"
    case And(parts) => Join(RenderAll(parts), AND)
    case Or(parts) => Join(RenderAll(parts), OR)
  }

  function RenderAll(parts: seq<Cst>): (r: seq<string>)
    ensures |r| == |parts|
    decreases parts, 0
  {
    if parts == [] then [] else [Render(parts[0])] + RenderAll(parts[1..])
  }

  /** The meaning of written parentheses: none of their own. */
  function Raw(c: Cst): Tree
    decreases c, 1
  {
    match c
    case Atom(text) => Leaf(text)
    case Paren(inner) => Raw(inner)
    case And(parts) => All(RawAll(parts))
    case Or(parts) => Any(RawAll(parts))
  }

  function RawAll(parts: seq<Cst>): (r: seq<Tree>)
    ensures |r| == |parts|
    decreases parts, 0
  {
    if parts == [] then [] else [Raw(parts[0])] + RawAll(parts[1..])
  }

  // ---------------------------------------------------------------- truth

  function Eval(t: Tree, env: string -> bool): bool
    decreases t, 1
  {
    match t
    case Leaf(text) => env(text)
    case All(parts) => EvalAll(parts, env)
    case Any(parts) => EvalAny(parts, env)
  }

  function EvalAll(parts: seq<Tree>, env: string -> bool): bool
    decreases parts, 0
  {
    parts == [] || (Eval(parts[0], env) && EvalAll(parts[1..], env))
  }

  function EvalAny(parts: seq<Tree>, env: string -> bool): bool
    decreases parts, 0
  {
    parts != [] && (Eval(parts[0], env) || EvalAny(parts[1..], env))
  }

  // ---------------------------------------------------------------- printed form

  /** Prints with the fewest parentheses: around an alternative inside a conjunction, nowhere else. */
  function Print(t: Tree, parent: nat): string
    decreases t, 1
  {
    match t
    case Leaf(text) => text
    case Any(parts) =>
      var joined := Join(PrintAll(parts, 1), OR);
      if parent > 1 then "(" + joined + ")" else joined
    case All(parts) =>
      var joined := Join(PrintAll(parts, 2), AND);
      if parent > 2 then "(" + joined + ")" else joined
  }

  function PrintAll(parts: seq<Tree>, parent: nat): (r: seq<string>)
    ensures |r| == |parts|
    decreases parts, 0
  {
    if parts == [] then [] else [Print(parts[0], parent)] + PrintAll(parts[1..], parent)
  }

  // ---------------------------------------------------------------- flattening

  /** Merges a conjunction into a conjunction and an alternative into an alternative. */
  function Flatten(t: Tree): Tree
    decreases t, 1
  {
    match t
    case Leaf(_) => t
    case All(parts) => All(FlattenAll(parts))
    case Any(parts) => Any(FlattenAny(parts))
  }

  function FlattenAll(parts: seq<Tree>): seq<Tree>
    decreases parts, 0
  {
    if parts == [] then []
    else
      var first := Flatten(parts[0]);
      (if first.All? then first.parts else [first]) + FlattenAll(parts[1..])
  }

  function FlattenAny(parts: seq<Tree>): seq<Tree>
    decreases parts, 0
  {
    if parts == [] then []
    else
      var first := Flatten(parts[0]);
      (if first.Any? then first.parts else [first]) + FlattenAny(parts[1..])
  }

  /** Two or more parts below every connective, and no connective directly below itself. */
  ghost predicate Flat(t: Tree)
    decreases t, 1
  {
    match t
    case Leaf(_) => true
    case All(parts) => |parts| >= 2 && FlatParts(parts) && forall i :: 0 <= i < |parts| ==> !parts[i].All?
    case Any(parts) => |parts| >= 2 && FlatParts(parts) && forall i :: 0 <= i < |parts| ==> !parts[i].Any?
  }

  ghost predicate FlatParts(parts: seq<Tree>)
    decreases parts, 0
  {
    forall i :: 0 <= i < |parts| ==> Flat(parts[i])
  }

  /** Two or more parts below every connective. */
  ghost predicate Branching(t: Tree)
    decreases t, 1
  {
    match t
    case Leaf(_) => true
    case All(parts) => |parts| >= 2 && BranchingParts(parts)
    case Any(parts) => |parts| >= 2 && BranchingParts(parts)
  }

  ghost predicate BranchingParts(parts: seq<Tree>)
    decreases parts, 0
  {
    forall i :: 0 <= i < |parts| ==> Branching(parts[i])
  }

  lemma {:induction false} EvalAllConcat(a: seq<Tree>, b: seq<Tree>, env: string -> bool)
    ensures EvalAll(a + b, env) == (EvalAll(a, env) && EvalAll(b, env))
  {
    if a == [] { assert a + b == b; } else {
      EvalAllConcat(a[1..], b, env);
      assert (a + b)[1..] == a[1..] + b;
    }
  }

  lemma {:induction false} EvalAnyConcat(a: seq<Tree>, b: seq<Tree>, env: string -> bool)
    ensures EvalAny(a + b, env) == (EvalAny(a, env) || EvalAny(b, env))
  {
    if a == [] { assert a + b == b; } else {
      EvalAnyConcat(a[1..], b, env);
      assert (a + b)[1..] == a[1..] + b;
    }
  }

  /** Flattening keeps the truth value under every assignment. */
  lemma {:induction false} FlattenEval(t: Tree, env: string -> bool)
    ensures Eval(Flatten(t), env) == Eval(t, env)
    decreases t, 1
  {
    match t
    case Leaf(_) =>
    case All(parts) => FlattenAllEval(parts, env);
    case Any(parts) => FlattenAnyEval(parts, env);
  }

  lemma {:induction false} FlattenAllEval(parts: seq<Tree>, env: string -> bool)
    ensures EvalAll(FlattenAll(parts), env) == EvalAll(parts, env)
    decreases parts, 0
  {
    if parts != [] {
      FlattenEval(parts[0], env);
      FlattenAllEval(parts[1..], env);
      var first := Flatten(parts[0]);
      var head := if first.All? then first.parts else [first];
      EvalAllConcat(head, FlattenAll(parts[1..]), env);
      if !first.All? { assert EvalAll([first], env) == (Eval(first, env) && EvalAll([first][1..], env)); }
    }
  }

  lemma {:induction false} FlattenAnyEval(parts: seq<Tree>, env: string -> bool)
    ensures EvalAny(FlattenAny(parts), env) == EvalAny(parts, env)
    decreases parts, 0
  {
    if parts != [] {
      FlattenEval(parts[0], env);
      FlattenAnyEval(parts[1..], env);
      var first := Flatten(parts[0]);
      var head := if first.Any? then first.parts else [first];
      EvalAnyConcat(head, FlattenAny(parts[1..]), env);
      if !first.Any? { assert EvalAny([first], env) == (Eval(first, env) || EvalAny([first][1..], env)); }
    }
  }

  // ---------------------------------------------------------------- flat trees

  lemma {:induction false} FlattenFlat(t: Tree)
    requires Branching(t)
    ensures Flat(Flatten(t))
    decreases t, 1
  {
    match t
    case Leaf(_) =>
    case All(parts) => FlattenAllFlat(parts);
    case Any(parts) => FlattenAnyFlat(parts);
  }

  lemma {:induction false} FlattenAllFlat(parts: seq<Tree>)
    requires BranchingParts(parts)
    ensures FlatParts(FlattenAll(parts)) && |FlattenAll(parts)| >= |parts|
    ensures forall i :: 0 <= i < |FlattenAll(parts)| ==> !FlattenAll(parts)[i].All?
    decreases parts, 0
  {
    if parts != [] {
      FlattenFlat(parts[0]);
      FlattenAllFlat(parts[1..]);
    }
  }

  lemma {:induction false} FlattenAnyFlat(parts: seq<Tree>)
    requires BranchingParts(parts)
    ensures FlatParts(FlattenAny(parts)) && |FlattenAny(parts)| >= |parts|
    ensures forall i :: 0 <= i < |FlattenAny(parts)| ==> !FlattenAny(parts)[i].Any?
    decreases parts, 0
  {
    if parts != [] {
      FlattenFlat(parts[0]);
      FlattenAnyFlat(parts[1..]);
    }
  }

  // ---------------------------------------------------------------- printing and flattening agree

  lemma {:induction false} JoinConcat(a: seq<string>, b: seq<string>, m: string)
    requires a != [] && b != []
    ensures Join(a + b, m) == Join(a, m) + m + Join(b, m)
  {
    assert (a + b)[1..] == a[1..] + b;
    if |a| > 1 {
      JoinConcat(a[1..], b, m);
    } else {
      assert a[1..] + b == b;
    }
  }

  lemma {:induction false} PrintAllConcat(a: seq<Tree>, b: seq<Tree>, parent: nat)
    ensures PrintAll(a + b, parent) == PrintAll(a, parent) + PrintAll(b, parent)
  {
    if a == [] {
      assert a + b == b;
    } else {
      PrintAllConcat(a[1..], b, parent);
      assert (a + b)[1..] == a[1..] + b;
      Associate([Print(a[0], parent)], PrintAll(a[1..], parent), PrintAll(b, parent));
    }
  }

  /** Flattening does not show in the printed form. */
  lemma {:induction false} PrintFlatten(t: Tree, parent: nat)
    requires Branching(t)
    ensures Print(Flatten(t), parent) == Print(t, parent)
    decreases t, 1
  {
    match t
    case Leaf(_) =>
    case All(parts) => PrintFlattenAll(parts);
    case Any(parts) => PrintFlattenAny(parts);
  }

  lemma {:induction false} PrintFlattenAll(parts: seq<Tree>)
    requires BranchingParts(parts) && parts != []
    ensures Join(PrintAll(FlattenAll(parts), 2), AND) == Join(PrintAll(parts, 2), AND)
    decreases parts, 0
  {
    var first := Flatten(parts[0]);
    FlattenFlat(parts[0]);
    var head := if first.All? then first.parts else [first];
    PrintFlatten(parts[0], 2);
    SinglePrint(first, 2);
    assert Join(PrintAll(head, 2), AND) == Print(parts[0], 2);
    if |parts| == 1 {
      assert FlattenAll(parts) == head + [] == head;
    } else {
      FlattenAllFlat(parts[1..]);
      PrintFlattenAll(parts[1..]);
      PrintAllConcat(head, FlattenAll(parts[1..]), 2);
      JoinConcat(PrintAll(head, 2), PrintAll(FlattenAll(parts[1..]), 2), AND);
      JoinStep(PrintAll(parts, 2), AND);
    }
  }

  lemma {:induction false} PrintFlattenAny(parts: seq<Tree>)
    requires BranchingParts(parts) && parts != []
    ensures Join(PrintAll(FlattenAny(parts), 1), OR) == Join(PrintAll(parts, 1), OR)
    decreases parts, 0
  {
    var first := Flatten(parts[0]);
    FlattenFlat(parts[0]);
    var head := if first.Any? then first.parts else [first];
    PrintFlatten(parts[0], 1);
    SinglePrint(first, 1);
    assert Join(PrintAll(head, 1), OR) == Print(parts[0], 1);
    if |parts| == 1 {
      assert FlattenAny(parts) == head + [] == head;
    } else {
      FlattenAnyFlat(parts[1..]);
      PrintFlattenAny(parts[1..]);
      PrintAllConcat(head, FlattenAny(parts[1..]), 1);
      JoinConcat(PrintAll(head, 1), PrintAll(FlattenAny(parts[1..]), 1), OR);
      JoinStep(PrintAll(parts, 1), OR);
    }
  }

  lemma SinglePrint(t: Tree, parent: nat)
    ensures PrintAll([t], parent) == [Print(t, parent)]
  {
    assert [t][1..] == [];
  }

  lemma JoinStep(parts: seq<string>, m: string)
    requires |parts| > 1
    ensures Join(parts, m) == parts[0] + m + Join(parts[1..], m)
  {}

  // ---------------------------------------------------------------- printed trees as written expressions

  /** The written expression a flat tree prints as: parentheses only around an alternative in a conjunction. */
  function Embed(t: Tree, parent: nat): Cst
    decreases t, 1
  {
    match t
    case Leaf(text) => Atom(text)
    case All(parts) => And(EmbedAll(parts, 2))
    case Any(parts) => if parent > 1 then Paren(Or(EmbedAll(parts, 1))) else Or(EmbedAll(parts, 1))
  }

  function EmbedAll(parts: seq<Tree>, parent: nat): (r: seq<Cst>)
    ensures |r| == |parts|
    ensures forall i :: 0 <= i < |parts| ==> r[i] == Embed(parts[i], parent)
    decreases parts, 0
  {
    if parts == [] then [] else [Embed(parts[0], parent)] + EmbedAll(parts[1..], parent)
  }

  lemma {:induction false} EmbedPrints(t: Tree, parent: nat)
    requires parent <= 2
    ensures Render(Embed(t, parent)) == Print(t, parent)
    ensures Raw(Embed(t, parent)) == t
    decreases t, 1
  {
    match t
    case Leaf(_) =>
    case All(parts) => EmbedAllPrints(parts, 2);
    case Any(parts) => EmbedAllPrints(parts, 1);
  }

  lemma {:induction false} EmbedAllPrints(parts: seq<Tree>, parent: nat)
    requires parent <= 2
    ensures RenderAll(EmbedAll(parts, parent)) == PrintAll(parts, parent)
    ensures RawAll(EmbedAll(parts, parent)) == parts
    decreases parts, 0
  {
    if parts != [] {
      EmbedPrints(parts[0], parent);
      EmbedAllPrints(parts[1..], parent);
      assert EmbedAll(parts, parent)[1..] == EmbedAll(parts[1..], parent);
    }
  }
}
