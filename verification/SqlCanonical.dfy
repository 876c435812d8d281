/**
  `_canonicalize_boolean_expression` of src/oh_my_subagents/persistence/schema_sql.py,
  the tree that its strip and its splits find in a text, and flat trees as
  written expressions.
*/
module SqlCanonical {
  import opened SqlScan
  import opened SqlTrees
  import opened SqlSegments
  import opened SqlTokens

  // ---------------------------------------------------------------- the recursion

  function Canonical(value: string, parent: nat): string
    decreases |value|, 2
  {
    CanonicalStripped(Strip(value), parent)
  }

  function CanonicalStripped(s: string, parent: nat): string
    decreases |s|, 1
  {
    SplitJoins(s, OR);
    SplitJoins(s, AND);
    var alternatives := Split(s, OR);
    var conjuncts := Split(s, AND);
    if |alternatives| > 1 then
      var joined := Join(CanonicalAll(alternatives, 1, |s|), OR);
      if parent > 1 then "(" + joined + ")" else joined
    else if |conjuncts| > 1 then
      var joined := Join(CanonicalAll(conjuncts, 2, |s|), AND);
      if parent > 2 then "(" + joined + ")" else joined
    else s
  }

  function CanonicalAll(parts: seq<string>, parent: nat, bound: nat): (r: seq<string>)
    requires forall i :: 0 <= i < |parts| ==> |parts[i]| < bound
    ensures |r| == |parts|
    decreases bound, 0, |parts|
  {
    if parts == [] then []
    else [Canonical(parts[0], parent)] + CanonicalAll(parts[1..], parent, bound)
  }

  /** The code: strip, split by `or`, else split by `and`, recurse on the parts and join. */
  method CanonicalizeBooleanExpression(value: string, parent: nat) returns (canonical: string)
    ensures canonical == Canonical(value, parent)
    decreases |value|
  {
    var normalized := StripBalancedOuterParentheses(value);
    SplitJoins(normalized, OR);
    SplitJoins(normalized, AND);
    var alternatives := SplitTopLevel(normalized, OR);
    if |alternatives| > 1 {
      var parts := CanonicalizeParts(alternatives, 1, |normalized|);
      canonical := Join(parts, OR);
      return if parent > 1 then "(" + canonical + ")" else canonical;
    }
    var conjuncts := SplitTopLevel(normalized, AND);
    if |conjuncts| > 1 {
      var parts := CanonicalizeParts(conjuncts, 2, |normalized|);
      canonical := Join(parts, AND);
      return if parent > 2 then "(" + canonical + ")" else canonical;
    }
    return normalized;
  }

  method CanonicalizeParts(parts: seq<string>, parent: nat, ghost bound: nat) returns (r: seq<string>)
    requires forall i :: 0 <= i < |parts| ==> |parts[i]| < bound
    ensures r == CanonicalAll(parts, parent, bound)
    decreases bound, 0
  {
    r := [];
    var rest := parts;
    while rest != []
      invariant forall i :: 0 <= i < |rest| ==> |rest[i]| < bound
      invariant r + CanonicalAll(rest, parent, bound) == CanonicalAll(parts, parent, bound)
      decreases |rest|
    {
      var one := CanonicalizeBooleanExpression(rest[0], parent);
      r := r + [one];
      rest := rest[1..];
    }
  }

  // ---------------------------------------------------------------- reading text as a tree

  /** The tree the same strip-and-split reading finds in a text. */
  function Read(value: string): Tree
    decreases |value|, 2
  {
    ReadStripped(Strip(value))
  }

  function ReadStripped(s: string): Tree
    decreases |s|, 1
  {
    SplitJoins(s, OR);
    SplitJoins(s, AND);
    if |Split(s, OR)| > 1 then Any(ReadAll(Split(s, OR), |s|))
    else if |Split(s, AND)| > 1 then All(ReadAll(Split(s, AND), |s|))
    else Leaf(s)
  }

  function ReadAll(parts: seq<string>, bound: nat): (r: seq<Tree>)
    requires forall i :: 0 <= i < |parts| ==> |parts[i]| < bound
    ensures |r| == |parts|
    ensures forall i :: 0 <= i < |parts| ==> r[i] == Read(parts[i])
    decreases bound, 0, |parts|
  {
    if parts == [] then [] else [Read(parts[0])] + ReadAll(parts[1..], bound)
  }

  /** On every text, whatever it holds, the canonical form is the printed form of the tree that was read. */
  lemma {:induction false} CanonicalPrints(value: string, parent: nat)
    ensures Canonical(value, parent) == Print(Read(value), parent)
    decreases |value|
  {
    var s := Strip(value);
    SplitJoins(s, OR);
    SplitJoins(s, AND);
    if |Split(s, OR)| > 1 {
      CanonicalAllPrints(Split(s, OR), 1, |s|);
    } else if |Split(s, AND)| > 1 {
      CanonicalAllPrints(Split(s, AND), 2, |s|);
    }
  }

  lemma {:induction false} CanonicalAllPrints(parts: seq<string>, parent: nat, bound: nat)
    requires forall i :: 0 <= i < |parts| ==> |parts[i]| < bound
    ensures CanonicalAll(parts, parent, bound) == PrintAll(ReadAll(parts, bound), parent)
    decreases bound, 0, |parts|
  {
    if parts != [] {
      CanonicalPrints(parts[0], parent);
      CanonicalAllPrints(parts[1..], parent, bound);
      assert ReadAll(parts, bound)[1..] == ReadAll(parts[1..], bound);
    }
  }

  // ---------------------------------------------------------------- flat trees are well-formed expressions

  ghost predicate LeavesOk(t: Tree)
    decreases t, 1
  {
    match t
    case Leaf(text) => AtomOk(text)
    case All(parts) => PartsOk(parts)
    case Any(parts) => PartsOk(parts)
  }

  ghost predicate PartsOk(parts: seq<Tree>)
    decreases parts, 0
  {
    forall i :: 0 <= i < |parts| ==> LeavesOk(parts[i])
  }

  lemma {:induction false} RawOk(c: Cst)
    requires WellFormed(c)
    ensures LeavesOk(Raw(c)) && Branching(Raw(c))
    decreases c, 1
  {
    match c
    case Atom(_) =>
    case Paren(inner) => RawOk(inner);
    case And(parts) => RawAllOk(parts);
    case Or(parts) => RawAllOk(parts);
  }

  lemma {:induction false} RawAllOk(parts: seq<Cst>)
    requires AllWellFormed(parts)
    ensures PartsOk(RawAll(parts)) && BranchingParts(RawAll(parts))
    decreases parts, 0
  {
    if parts != [] {
      RawOk(parts[0]);
      RawAllOk(parts[1..]);
    }
  }

  lemma {:induction false} FlattenOk(t: Tree)
    requires LeavesOk(t)
    ensures LeavesOk(Flatten(t))
    decreases t, 1
  {
    match t
    case Leaf(_) =>
    case All(parts) => FlattenPartsOk(parts);
    case Any(parts) => FlattenPartsOk(parts);
  }

  lemma {:induction false} FlattenPartsOk(parts: seq<Tree>)
    requires PartsOk(parts)
    ensures PartsOk(FlattenAll(parts)) && PartsOk(FlattenAny(parts))
    decreases parts, 0
  {
    if parts != [] {
      FlattenOk(parts[0]);
      FlattenPartsOk(parts[1..]);
    }
  }

  lemma {:induction false} EmbedWellFormed(t: Tree, parent: nat)
    requires Flat(t) && LeavesOk(t) && parent <= 2
    ensures WellFormed(Embed(t, parent))
    decreases t, 1
  {
    match t
    case Leaf(_) =>
    case All(parts) => EmbedAllWellFormed(parts, 2);
    case Any(parts) => EmbedAllWellFormed(parts, 1);
  }

  lemma {:induction false} EmbedAllWellFormed(parts: seq<Tree>, parent: nat)
    requires FlatParts(parts) && PartsOk(parts) && parent <= 2
    ensures AllWellFormed(EmbedAll(parts, parent))
    decreases parts, 0
  {
    if parts != [] {
      EmbedWellFormed(parts[0], parent);
      EmbedAllWellFormed(parts[1..], parent);
      forall i | 0 <= i < |parts| ensures WellFormed(EmbedAll(parts, parent)[i]) {
        if i > 0 { assert EmbedAll(parts, parent)[i] == EmbedAll(parts[1..], parent)[i - 1]; }
      }
    }
  }

  // ---------------------------------------------------------------- the meaning of an expression

  /** The and/or tree of an expression: redundant parentheses dropped, nested equal operators flattened. */
  function Meaning(c: Cst): Tree { Flatten(Raw(c)) }

  lemma MeaningFlat(c: Cst)
    requires WellFormed(c)
    ensures Flat(Meaning(c)) && LeavesOk(Meaning(c)) && Branching(Raw(c))
  {
    RawOk(c);
    FlattenFlat(Raw(c));
    FlattenOk(Raw(c));
  }

  /** The canonical text spells out its tree, also where the code would misread it. */
  lemma PrintSpells(t: Tree)
    requires Flat(t) && LeavesOk(t)
    ensures WellFormed(Embed(t, 0)) && Render(Embed(t, 0)) == Print(t, 0)
    ensures Raw(Parse(Print(t, 0))) == t
  {
    EmbedPrints(t, 0);
    EmbedWellFormed(t, 0);
    ParseRender(Embed(t, 0));
  }
}
