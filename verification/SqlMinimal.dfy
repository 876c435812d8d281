/**
  When the canonical text of an expression is the one text that all expressions
  of its meaning should share: exactly when the pass leaves no parentheses that
  mean nothing.
*/
module SqlMinimal {
  import opened SqlTrees
  import opened SqlSegments
  import opened SqlTokens
  import opened SqlCanonical
  import opened SqlMisreadings
  import opened SqlCells
  import opened SqlPasses
  import opened SqlLayers
  import opened SqlLayerMeanings
  import opened SqlOutputs

  // ---------------------------------------------------------------- expressions without redundant parentheses

  /** All parentheses are around an alternative inside a conjunction; `parent` is 2 inside one. */
  predicate Minimal(c: Cst, parent: nat)
    decreases c, 1
  {
    match c
    case Atom(_) => true
    case Paren(inner) => parent == 2 && inner.Or? && Minimal(inner, 0)
    case And(parts) => AllMinimal(parts, 2)
    case Or(parts) => AllMinimal(parts, 1)
  }

  predicate AllMinimal(parts: seq<Cst>, parent: nat)
    decreases parts, 0
  {
    forall i :: 0 <= i < |parts| ==> Minimal(parts[i], parent)
  }

  lemma {:induction false} FlattenFlatTree(t: Tree)
    requires Flat(t)
    ensures Flatten(t) == t
    decreases t, 1
  {
    match t
    case Leaf(_) =>
    case All(parts) => FlattenFlatParts(parts);
    case Any(parts) => FlattenFlatParts(parts);
  }

  lemma {:induction false} FlattenFlatParts(parts: seq<Tree>)
    requires FlatParts(parts)
    ensures (forall i :: 0 <= i < |parts| ==> !parts[i].All?) ==> FlattenAll(parts) == parts
    ensures (forall i :: 0 <= i < |parts| ==> !parts[i].Any?) ==> FlattenAny(parts) == parts
    decreases parts, 0
  {
    if parts != [] {
      FlattenFlatTree(parts[0]);
      FlattenFlatParts(parts[1..]);
      assert parts == [parts[0]] + parts[1..];
    }
  }

  /** Such an expression is the written form of its flat tree. */
  lemma {:induction false} MinimalIsEmbedded(c: Cst, parent: nat)
    requires WellFormed(c) && Minimal(c, parent) && parent <= 2
    requires (parent == 2 ==> c.Atom? || c.Paren?) && (parent == 1 ==> !c.Or?)
    ensures Flat(Raw(c)) && Embed(Raw(c), parent) == c
    ensures parent == 2 ==> !Raw(c).All?
    ensures parent == 1 ==> !Raw(c).Any?
    decreases c, 1
  {
    match c
    case Atom(_) =>
    case Paren(inner) =>
      MinimalIsEmbedded(inner, 0);
    case And(parts) => PartsAreEmbedded(parts, 2);
    case Or(parts) => PartsAreEmbedded(parts, 1);
  }

  lemma {:induction false} PartsAreEmbedded(parts: seq<Cst>, parent: nat)
    requires AllWellFormed(parts) && AllMinimal(parts, parent) && 1 <= parent <= 2
    requires forall i :: 0 <= i < |parts| ==> if parent == 2 then parts[i].Atom? || parts[i].Paren? else !parts[i].Or?
    ensures |RawAll(parts)| == |parts| && FlatParts(RawAll(parts)) && EmbedAll(RawAll(parts), parent) == parts
    ensures forall i :: 0 <= i < |parts| ==> if parent == 2 then !RawAll(parts)[i].All? else !RawAll(parts)[i].Any?
    decreases parts, 0
  {
    if parts != [] {
      MinimalIsEmbedded(parts[0], parent);
      PartsAreEmbedded(parts[1..], parent);
      var trees := RawAll(parts);
      assert trees == [Raw(parts[0])] + RawAll(parts[1..]) && trees[1..] == RawAll(parts[1..]);
      assert parts == [parts[0]] + parts[1..];
      forall i | 0 <= i < |trees|
        ensures Flat(trees[i]) && if parent == 2 then !trees[i].All? else !trees[i].Any?
      {
        if i > 0 { assert trees[i] == RawAll(parts[1..])[i - 1]; }
      }
    }
  }

  lemma {:induction false} EmbedIsMinimal(t: Tree, parent: nat)
    requires Flat(t) && parent <= 2 && (parent == 2 ==> !t.All?)
    ensures Minimal(Embed(t, parent), parent)
    decreases t, 1
  {
    match t
    case Leaf(_) =>
    case All(parts) => EmbedPartsMinimal(parts, 2);
    case Any(parts) => EmbedPartsMinimal(parts, 1);
  }

  lemma {:induction false} EmbedPartsMinimal(parts: seq<Tree>, parent: nat)
    requires FlatParts(parts) && 1 <= parent <= 2
    requires parent == 2 ==> forall i :: 0 <= i < |parts| ==> !parts[i].All?
    ensures AllMinimal(EmbedAll(parts, parent), parent)
    decreases parts, 0
  {
    forall i | 0 <= i < |parts| ensures Minimal(EmbedAll(parts, parent)[i], parent) {
      EmbedIsMinimal(parts[i], parent);
    }
  }

  /** An expression is the written form of its meaning exactly if it has no redundant parentheses. */
  lemma MinimalIff(c: Cst)
    requires WellFormed(c)
    ensures Render(c) == Print(Meaning(c), 0) <==> Minimal(c, 0)
  {
    var embedded := Embed(Meaning(c), 0);
    MeaningFlat(c);
    PrintSpells(Meaning(c));
    if Minimal(c, 0) {
      MinimalIsEmbedded(c, 0);
      FlattenFlatTree(Raw(c));
    }
    if Render(c) == Print(Meaning(c), 0) {
      ParseRender(c);
      ParseRender(embedded);
      EmbedIsMinimal(Meaning(c), 0);
    }
  }

  // ---------------------------------------------------------------- layers without redundant parentheses

  /** An operand in this place carries no redundant parentheses. */
  predicate OperandMinimal(c: Cst, besideAnd: bool) {
    c.Paren? ==> besideAnd && c.inner.Or? && Minimal(c.inner, 0)
  }

  predicate StartsWithAnd(items: seq<Item>) { items != [] && items[0] == Word(true) }

  predicate MinimalFrom(items: seq<Item>, afterAnd: bool) {
    if items == [] then true
    else match items[0]
      case Word(isAnd) => MinimalFrom(items[1..], isAnd)
      case Operand(c) =>
        OperandMinimal(c, afterAnd || StartsWithAnd(items[1..])) && MinimalFrom(items[1..], false)
  }

  lemma {:induction false} ConjunctsMinimal(parts: seq<Cst>, afterAnd: bool, rest: seq<Item>)
    requires parts != [] && (afterAnd || |parts| > 1)
    requires forall i :: 0 <= i < |parts| ==> parts[i].Atom? || parts[i].Paren?
    ensures MinimalFrom(Conjuncts(parts) + rest, afterAnd) <==>
      AllMinimal(parts, 2) && MinimalFrom(rest, false)
    decreases |parts|
  {
    AllMinimalCons(parts, 2);
    hide AllMinimal;
    if |parts| == 1 {
      OneMinimal(parts[0], afterAnd, rest);
    } else {
      var tail := Conjuncts(parts[1..]) + rest;
      ConjunctsMinimal(parts[1..], true, rest);
      OneMinimal(parts[0], afterAnd, [Word(true)] + tail);
      AndFirst(tail);
      ConjunctsCons(parts, rest);
    }
  }

  lemma OneMinimal(c: Cst, afterAnd: bool, rest: seq<Item>)
    requires (c.Atom? || c.Paren?) && (afterAnd || StartsWithAnd(rest))
    ensures MinimalFrom([Operand(c)] + rest, afterAnd) <==> Minimal(c, 2) && MinimalFrom(rest, false)
  {
    assert ([Operand(c)] + rest)[1..] == rest;
  }

  lemma AndFirst(rest: seq<Item>)
    ensures StartsWithAnd([Word(true)] + rest)
    ensures MinimalFrom([Word(true)] + rest, false) <==> MinimalFrom(rest, true)
  {
    assert ([Word(true)] + rest)[1..] == rest;
  }

  lemma ConjunctsCons(parts: seq<Cst>, rest: seq<Item>)
    requires |parts| > 1
    ensures Conjuncts(parts) + rest == [Operand(parts[0])] + ([Word(true)] + (Conjuncts(parts[1..]) + rest))
  {}

  lemma AllMinimalCons(parts: seq<Cst>, parent: nat)
    requires parts != []
    ensures AllMinimal(parts, parent) <==> Minimal(parts[0], parent) && AllMinimal(parts[1..], parent)
  {
    if Minimal(parts[0], parent) && AllMinimal(parts[1..], parent) {
      forall i | 0 <= i < |parts| ensures Minimal(parts[i], parent) {
        if i > 0 { assert parts[i] == parts[1..][i - 1]; }
      }
    }
  }

  lemma ConjunctsOfMinimal(c: Cst, rest: seq<Item>)
    requires WellFormed(c) && !c.Or? && (rest != [] ==> rest[0] == Word(false))
    ensures MinimalFrom(ConjunctsOf(c) + rest, false) <==> Minimal(c, 1) && MinimalFrom(rest, false)
  {
    if c.And? {
      ConjunctsMinimal(c.parts, false, rest);
    } else {
      assert ([Operand(c)] + rest)[1..] == rest;
    }
  }

  lemma {:induction false} DisjunctsMinimal(parts: seq<Cst>)
    requires parts != [] && forall i :: 0 <= i < |parts| ==> WellFormed(parts[i]) && !parts[i].Or?
    ensures MinimalFrom(Disjuncts(parts), false) <==> AllMinimal(parts, 1)
    decreases |parts|
  {
    AllMinimalCons(parts, 1);
    if |parts| == 1 {
      ConjunctsOfMinimal(parts[0], []);
      assert ConjunctsOf(parts[0]) + [] == ConjunctsOf(parts[0]);
    } else {
      var rest := Disjuncts(parts[1..]);
      ConjunctsOfMinimal(parts[0], [Word(false)] + rest);
      assert ([Word(false)] + rest)[1..] == rest;
      DisjunctsMinimal(parts[1..]);
    }
  }

  /** An expression without outer parentheses is minimal exactly if its layer is. */
  lemma LayerMinimal(c: Cst)
    requires WellFormed(c)
    ensures Minimal(c, 0) <==> MinimalFrom(Layer(c), false)
  {
    if c.Or? {
      DisjunctsMinimal(c.parts);
    } else {
      ConjunctsOfMinimal(c, []);
      assert ConjunctsOf(c) + [] == ConjunctsOf(c);
    }
  }

  // ---------------------------------------------------------------- outputs without redundant parentheses

  /**
    What the pass leaves carries no redundant parentheses: an operand that it
    keeps has none, one that it puts in parentheses again is an alternative, and
    what stands inside the operands that it replaces is left so, too.
  */
  ghost predicate Tidy(items: seq<Item>, mode: Mode, afterAnd: bool)
    decreases ItemsSize(items), |items|
  {
    if items == [] then true
    else
      var next := Next(mode, Texts(items));
      match items[0]
      case Word(isAnd) => Tidy(items[1..], next, isAnd)
      case Operand(c) =>
        && (if Replaced(items, mode) then
              InnerLayerSize(c);
              (Reenclosed(items, mode) ==> Core(c).Or?) && Tidy(InnerLayer(c), AtOr, false)
            else OperandMinimal(c, afterAnd || StartsWithAnd(items[1..])))
        && Tidy(items[1..], next, false)
  }

  /** A layer that ends before an `or` or at the end is judged on its own. */
  lemma {:induction false} MinimalBeforeOr(items: seq<Item>, turn: bool, afterAnd: bool, rest: seq<Item>)
    requires Proper(items, turn) && (rest != [] ==> rest[0] == Word(false))
    requires items == [] ==> !afterAnd
    ensures MinimalFrom(items + rest, afterAnd) <==> MinimalFrom(items, afterAnd) && MinimalFrom(rest, false)
    decreases |items|
  {
    if items == [] {
      assert items + rest == rest;
    } else {
      var tail := items[1..];
      assert (items + rest)[0] == items[0] && (items + rest)[1..] == tail + rest;
      if turn {
        if tail != [] { assert (tail + rest)[0] == tail[0]; } else { assert tail + rest == rest; }
        MinimalBeforeOr(tail, false, false, rest);
      } else {
        MinimalBeforeOr(tail, true, items[0].isAnd, rest);
      }
    }
  }

  /** In a layer without `or` every operand in parentheses stands beside an `and`, whatever is around the layer. */
  lemma {:induction false} MinimalInConjunction(items: seq<Item>, a: bool, b: bool, rest: seq<Item>)
    requires Proper(items, true) && NoOr(items) && (|items| == 1 ==> items[0].c.Atom? || (a && b))
    ensures MinimalFrom(items + rest, a) <==> MinimalFrom(items, b) && MinimalFrom(rest, false)
    decreases |items|
  {
    var tail := items[1..];
    assert (items + rest)[0] == items[0] && (items + rest)[1..] == tail + rest;
    if |items| == 1 {
      assert tail == [] && tail + rest == rest;
    } else {
      var more := tail[1..];
      assert tail[0] == items[1] && items[1] != Word(false);
      assert (tail + rest)[0] == tail[0] && (tail + rest)[1..] == more + rest;
      assert forall i :: 0 <= i < |more| ==> more[i] == items[i + 2];
      MinimalInConjunction(more, true, true, rest);
    }
  }

  /** What stands before an operand that starts a piece is a real word, or nothing. */
  predicate AtRealWord(mode: Mode, afterAnd: bool) {
    (mode == AtOr ==> !afterAnd) && (mode == AtAnd ==> afterAnd)
  }

  lemma NextAtRealWord(items: seq<Item>, mode: Mode)
    requires items != [] && items[0].Word?
    ensures AtRealWord(Next(mode, Texts(items)), items[0].isAnd)
  {}

  lemma OutStart(items: seq<Item>, mode: Mode)
    requires items != [] && Proper(items, false)
    ensures var out := Out(items, mode);
      out != [] && out[0] == items[0] && (StartsWithAnd(out) <==> StartsWithAnd(items))
  {
    OutItemProper(items, false, mode);
  }

  lemma {:induction false} TidyIff(items: seq<Item>, turn: bool, mode: Mode, afterAnd: bool)
    requires Proper(items, turn) && (turn ==> AtRealWord(mode, afterAnd))
    ensures MinimalFrom(Out(items, mode), afterAnd) <==> Tidy(items, mode, afterAnd)
    decreases ItemsSize(items), |items|, 1
  {
    if items != [] {
      var tail, next := items[1..], Next(mode, Texts(items));
      var out := Out(tail, next);
      if tail != [] && turn { OutStart(tail, next); }
      if !turn {
        OutItemProper(items, false, mode);
        assert ([items[0]] + out)[1..] == out;
        NextAtRealWord(items, mode);
        TidyIff(tail, true, next, items[0].isAnd);
      } else {
        TidyIff(tail, false, next, false);
        if Replaced(items, mode) {
          TidyReplaced(items, mode, afterAnd);
        } else {
          assert ([items[0]] + out)[1..] == out;
        }
      }
    }
  }

  /** What is judged about an operand that the pass replaces. */
  ghost predicate TidyOperand(items: seq<Item>, mode: Mode)
    requires items != [] && items[0].Operand?
  {
    (Reenclosed(items, mode) ==> Core(items[0].c).Or?) && Tidy(InnerLayer(items[0].c), AtOr, false)
  }

  lemma {:induction false} TidyReplaced(items: seq<Item>, mode: Mode, afterAnd: bool)
    requires items != [] && Proper(items, true) && AtRealWord(mode, afterAnd) && Replaced(items, mode)
    ensures MinimalFrom(Out(items, mode), afterAnd) <==>
      TidyOperand(items, mode) && MinimalFrom(Out(items[1..], Next(mode, Texts(items))), false)
    decreases ItemsSize(items), |items|, 0
  {
    var c := items[0].c;
    var layer := InnerLayer(c);
    var inner := Out(layer, AtOr);
    var out := Out(items[1..], Next(mode, Texts(items)));
    InnerLayerSize(c);
    InnerLayerOk(c);
    OutProper(layer, true, AtOr);
    TidyIff(layer, true, AtOr, false);
    if Reenclosed(items, mode) {
      ReenclosedMinimal(items, mode, afterAnd);
    } else if ParentOf(mode, Texts(items)) == 2 {
      InnerOutNoOr(c);
      OutLength(layer, true, AtOr);
      if |layer| == 1 { SingleOut(layer); }
      MinimalInConjunction(inner, afterAnd, false, out);
    } else {
      AloneBeforeOr(items, mode);
      MinimalBeforeOr(inner, true, false, out);
    }
  }

  lemma AloneBeforeOr(items: seq<Item>, mode: Mode)
    requires items != [] && Proper(items, true) && ParentOf(mode, Texts(items)) == 1
    ensures mode == AtOr
    ensures var out := Out(items[1..], Next(mode, Texts(items))); out != [] ==> out[0] == Word(false)
  {
    if |items| > 1 { OutStart(items[1..], Next(mode, Texts(items))); }
  }

  /** A meaning is an alternative exactly if the expression inside all parentheses is one. */
  lemma AnyIffOr(c: Cst)
    requires WellFormed(c)
    ensures Meaning(c).Any? <==> Core(c).Or?
  {
    CoreOk(c);
  }

  lemma ReenclosedMinimal(items: seq<Item>, mode: Mode, afterAnd: bool)
    requires items != [] && Proper(items, true) && AtRealWord(mode, afterAnd)
    requires Replaced(items, mode) && Reenclosed(items, mode)
    requires var inner := Out(InnerLayer(items[0].c), AtOr);
      MinimalFrom(inner, false) <==> Tidy(InnerLayer(items[0].c), AtOr, false)
    ensures MinimalFrom(Out(items, mode), afterAnd) <==>
      TidyOperand(items, mode) && MinimalFrom(Out(items[1..], Next(mode, Texts(items))), false)
  {
    var c := items[0].c;
    var out := Out(items[1..], Next(mode, Texts(items)));
    BuiltMinimal(c);
    BesideAnd(items, mode, afterAnd);
    hide InnerLayer, Build, NoInner, OperandMinimal;
    MinimalOperandFirst(CanonicalCst(c), out, afterAnd);
    assert OutItem(items, mode) == [Operand(Paren(CanonicalCst(c)))];
  }

  lemma MinimalOperandFirst(c: Cst, rest: seq<Item>, afterAnd: bool)
    requires afterAnd || StartsWithAnd(rest)
    ensures MinimalFrom([Operand(Paren(c))] + rest, afterAnd) <==>
      OperandMinimal(Paren(c), true) && MinimalFrom(rest, false)
  {
    assert ([Operand(Paren(c))] + rest)[1..] == rest;
  }

  /** What is put in parentheses again needs them exactly if it is an alternative. */
  lemma BuiltMinimal(c: Cst)
    requires WellFormed(c) && !NoInner(Texts(InnerLayer(c)), "or")
    ensures OperandMinimal(Paren(CanonicalCst(c)), true) <==>
      Core(c).Or? && MinimalFrom(Out(InnerLayer(c), AtOr), false)
  {
    var inner := Out(InnerLayer(c), AtOr);
    InnerLayerOk(c);
    InnerOutMeaning(c);
    OutKeepsInner(InnerLayer(c), AtOr);
    AnyIffOr(c);
    hide InnerLayer;
    BuildLayer(inner);
    BuildMeaning(inner);
    LayerMinimal(Build(inner));
    AnyIffOr(Build(inner));
    assert |inner| > 1;
    assert Core(Build(inner)) == Build(inner);
  }

  /** Inside a conjunction the pass replaces operands beside a real `and` only. */
  lemma BesideAnd(items: seq<Item>, mode: Mode, afterAnd: bool)
    requires items != [] && Proper(items, true) && AtRealWord(mode, afterAnd)
    requires Replaced(items, mode) && ParentOf(mode, Texts(items)) == 2
    ensures afterAnd || StartsWithAnd(Out(items[1..], Next(mode, Texts(items))))
  {
    if mode == AtOr { OutStart(items[1..], Next(mode, Texts(items))); }
  }

  // ---------------------------------------------------------------- the results

  /**
    The canonical text of an expression is the printed form of its meaning exactly
    if the pass leaves no redundant parentheses.
  */
  lemma CanonicalPrintsIff(c: Cst)
    requires WellFormed(c)
    ensures Canonical(Render(c), 0) == Print(Meaning(c), 0) <==> Tidy(InnerLayer(c), AtOr, false)
  {
    var k := CanonicalCst(c);
    var out := Out(InnerLayer(c), AtOr);
    InnerLayerOk(c);
    OutProper(InnerLayer(c), true, AtOr);
    CanonicalSpells(c);
    MinimalIff(k);
    BuildLayer(out);
    LayerMinimal(k);
    TidyIff(InnerLayer(c), true, AtOr, false);
  }

  /**
    Beside an expression of which it leaves none, another of the same meaning gets
    the same text exactly if it leaves none of that one either.
  */
  lemma SameTextIff(c: Cst, d: Cst)
    requires WellFormed(c) && WellFormed(d) && Meaning(c) == Meaning(d)
    requires Tidy(InnerLayer(c), AtOr, false)
    ensures Canonical(Render(c), 0) == Canonical(Render(d), 0) <==> Tidy(InnerLayer(d), AtOr, false)
  {
    CanonicalPrintsIff(c);
    CanonicalPrintsIff(d);
  }

  /** A layer without parentheses leaves none. */
  lemma {:induction false} PlainIsTidy(items: seq<Item>, mode: Mode, afterAnd: bool)
    requires forall i :: 0 <= i < |items| && items[i].Operand? ==> items[i].c.Atom?
    ensures Tidy(items, mode, afterAnd)
    decreases |items|
  {
    if items != [] {
      var rest := items[1..];
      assert forall i :: 0 <= i < |rest| ==> rest[i] == items[i + 1];
      PlainIsTidy(rest, Next(mode, Texts(items)), items[0].Word? && items[0].isAnd);
    }
  }

  lemma {:induction false} AtomsArePlain(parts: seq<Cst>)
    requires forall i :: 0 <= i < |parts| ==> parts[i].Atom?
    ensures forall i :: 0 <= i < |Conjuncts(parts)| && Conjuncts(parts)[i].Operand? ==> Conjuncts(parts)[i].c.Atom?
    decreases |parts|
  {
    if |parts| > 1 {
      var rest := Conjuncts(parts[1..]);
      AtomsArePlain(parts[1..]);
      assert Conjuncts(parts) == [Operand(parts[0]), Word(true)] + rest;
    }
  }

  /** A conjunction of plain operands is its own canonical text, misread or not. */
  lemma PlainConjunctionStays(c: Cst)
    requires WellFormed(c) && c.And? && forall i :: 0 <= i < |c.parts| ==> c.parts[i].Atom?
    ensures Canonical(Render(c), 0) == Render(c)
  {
    AtomsArePlain(c.parts);
    assert InnerLayer(c) == Conjuncts(c.parts);
    PlainIsTidy(InnerLayer(c), AtOr, false);
    CanonicalPrintsIff(c);
    assert AllMinimal(c.parts, 2);
    MinimalIff(c);
  }

  /** An expression that is read right leaves none. */
  lemma ReadRightIsTidy(c: Cst)
    requires WellFormed(c) && !Misread(c, false, false)
    ensures Tidy(InnerLayer(c), AtOr, false)
  {
    CanonicalOfExpression(c);
    CanonicalPrintsIff(c);
  }
}
