/**
  The meaning of a layer, collected from left to right: the alternatives that
  are complete, and the conjuncts of the one that is open.
*/
module SqlLayerMeanings {
  import opened Sequences
  import opened SqlTrees
  import opened SqlSegments
  import opened SqlCanonical
  import opened SqlLayers

  datatype State = State(alternatives: seq<Tree>, conjuncts: seq<Tree>)

  const EMPTY := State([], [])

  function ConjunctsIn(t: Tree): seq<Tree> { if t.All? then t.parts else [t] }
  function AlternativesIn(t: Tree): seq<Tree> { if t.Any? then t.parts else [t] }
  function AllOf(parts: seq<Tree>): Tree { if |parts| == 1 then parts[0] else All(parts) }
  function AnyOf(parts: seq<Tree>): Tree { if |parts| == 1 then parts[0] else Any(parts) }

  function WithOperand(st: State, t: Tree): State {
    st.(conjuncts := st.conjuncts + ConjunctsIn(t))
  }

  /** An `or` or the end completes the open alternative. */
  function Close(st: State): State {
    State(st.alternatives + AlternativesIn(AllOf(st.conjuncts)), [])
  }

  function Collect(items: seq<Item>, st: State): State
    decreases |items|
  {
    if items == [] then st
    else Collect(items[1..], match items[0]
                             case Operand(c) => WithOperand(st, Meaning(c))
                             case Word(isAnd) => if isAnd then st else Close(st))
  }

  function MeaningOf(items: seq<Item>): Tree {
    AnyOf(Close(Collect(items, EMPTY)).alternatives)
  }

  lemma {:induction false} CollectConcat(a: seq<Item>, b: seq<Item>, st: State)
    ensures Collect(a + b, st) == Collect(b, Collect(a, st))
    decreases |a|
  {
    if a == [] {
      assert a + b == b;
    } else {
      assert (a + b)[0] == a[0] && (a + b)[1..] == a[1..] + b;
      CollectConcat(a[1..], b, match a[0]
                               case Operand(c) => WithOperand(st, Meaning(c))
                               case Word(isAnd) => if isAnd then st else Close(st));
    }
  }

  /** Alternatives that are complete stay in front. */
  lemma {:induction false} CollectBehind(items: seq<Item>, front: seq<Tree>, st: State)
    ensures Collect(items, State(front + st.alternatives, st.conjuncts)) ==
      var r := Collect(items, st); State(front + r.alternatives, r.conjuncts)
    decreases |items|
  {
    if items != [] {
      var st' := match items[0]
        case Operand(c) => WithOperand(st, Meaning(c))
        case Word(isAnd) => if isAnd then st else Close(st);
      CollectBehind(items[1..], front, st');
      if items[0] == Word(false) {
        Associate(front, st.alternatives, AlternativesIn(AllOf(st.conjuncts)));
      }
    }
  }

  ghost predicate NoOr(items: seq<Item>) {
    forall i :: 0 <= i < |items| ==> items[i] != Word(false)
  }

  /** Without an `or` a layer only adds conjuncts. */
  lemma {:induction false} CollectConjuncts(items: seq<Item>, st: State)
    requires NoOr(items)
    ensures Collect(items, st) == st.(conjuncts := st.conjuncts + Collect(items, EMPTY).conjuncts)
    ensures Collect(items, EMPTY).alternatives == []
    decreases |items|
  {
    if items == [] {
      assert st.conjuncts + [] == st.conjuncts;
    } else {
      var rest := items[1..];
      assert forall i :: 0 <= i < |rest| ==> rest[i] == items[i + 1];
      if items[0].Operand? {
        var t := Meaning(items[0].c);
        CollectConjuncts(rest, WithOperand(st, t));
        CollectConjuncts(rest, WithOperand(EMPTY, t));
        assert [] + ConjunctsIn(t) == ConjunctsIn(t);
        Associate(st.conjuncts, ConjunctsIn(t), Collect(rest, EMPTY).conjuncts);
      } else {
        CollectConjuncts(rest, st);
      }
    }
  }

  // ---------------------------------------------------------------- flat states

  ghost predicate Conjunct(t: Tree) { Flat(t) && !t.All? }
  ghost predicate Alternative(t: Tree) { Flat(t) && !t.Any? }

  ghost predicate StateFlat(st: State) {
    && (forall i :: 0 <= i < |st.conjuncts| ==> Conjunct(st.conjuncts[i]))
    && (forall i :: 0 <= i < |st.alternatives| ==> Alternative(st.alternatives[i]))
  }

  lemma WithOperandFlat(st: State, t: Tree)
    requires StateFlat(st) && Flat(t)
    ensures StateFlat(WithOperand(st, t)) && WithOperand(st, t).conjuncts != []
  {
    if t.All? {
      forall i | 0 <= i < |t.parts| ensures Conjunct(t.parts[i]) { assert Flat(t.parts[i]); }
    } else {
      assert Conjunct(t);
    }
  }

  lemma AllOfFlat(conjuncts: seq<Tree>)
    requires conjuncts != [] && forall i :: 0 <= i < |conjuncts| ==> Conjunct(conjuncts[i])
    ensures Flat(AllOf(conjuncts))
    ensures ConjunctsIn(AllOf(conjuncts)) == conjuncts
  {
    assert Conjunct(conjuncts[0]);
    if |conjuncts| == 1 {
      assert conjuncts == [conjuncts[0]];
    } else {
      forall i | 0 <= i < |conjuncts| ensures Flat(conjuncts[i]) && !conjuncts[i].All? {
        assert Conjunct(conjuncts[i]);
      }
    }
  }

  lemma AlternativesFlat(t: Tree)
    requires Flat(t)
    ensures AlternativesIn(t) != [] && forall i :: 0 <= i < |AlternativesIn(t)| ==> Alternative(AlternativesIn(t)[i])
    ensures AnyOf(AlternativesIn(t)) == t && AllOf(ConjunctsIn(t)) == t
  {
    if t.Any? {
      forall i | 0 <= i < |t.parts| ensures Alternative(t.parts[i]) { assert Flat(t.parts[i]); }
    } else {
      assert Alternative(t);
    }
  }

  lemma CloseFlat(st: State)
    requires StateFlat(st) && st.conjuncts != []
    ensures StateFlat(Close(st)) && Close(st).alternatives != []
  {
    AllOfFlat(st.conjuncts);
    AlternativesFlat(AllOf(st.conjuncts));
    hide Alternative, Conjunct;
  }

  lemma {:induction false} CollectFlat(items: seq<Item>, turn: bool, st: State)
    requires Proper(items, turn) && StateFlat(st) && (!turn ==> st.conjuncts != [])
    ensures StateFlat(Collect(items, st)) && Collect(items, st).conjuncts != []
    decreases |items|
  {
    hide StateFlat;
    if items != [] {
      if turn {
        MeaningFlat(items[0].c);
        WithOperandFlat(st, Meaning(items[0].c));
        CollectFlat(items[1..], false, WithOperand(st, Meaning(items[0].c)));
      } else if items[0].isAnd {
        CollectFlat(items[1..], true, st);
      } else {
        CloseFlat(st);
        CollectFlat(items[1..], true, Close(st));
      }
    }
  }

  /** A layer without `or` has the effect of one operand with its meaning. */
  lemma LayerIsConjuncts(items: seq<Item>, st: State)
    requires Proper(items, true) && NoOr(items)
    ensures Collect(items, st) == WithOperand(st, MeaningOf(items))
  {
    var conjuncts := Collect(items, EMPTY).conjuncts;
    CollectConjuncts(items, st);
    CollectConjuncts(items, EMPTY);
    CollectFlat(items, true, EMPTY);
    AllOfFlat(conjuncts);
    AlternativesFlat(AllOf(conjuncts));
    assert [] + AlternativesIn(AllOf(conjuncts)) == AlternativesIn(AllOf(conjuncts));
  }

  lemma AnyOfAlternatives(alternatives: seq<Tree>)
    requires alternatives != [] && forall i :: 0 <= i < |alternatives| ==> Alternative(alternatives[i])
    ensures AlternativesIn(AnyOf(alternatives)) == alternatives
    ensures AllOf(ConjunctsIn(AnyOf(alternatives))) == AnyOf(alternatives)
  {
    assert Alternative(alternatives[0]);
    if |alternatives| == 1 {
      assert alternatives == [alternatives[0]];
      AlternativesFlat(alternatives[0]);
    }
  }

  /** Where an alternative starts and then ends, a layer has the effect of one operand with its meaning. */
  lemma LayerIsAlternatives(items: seq<Item>, st: State)
    requires Proper(items, true) && st.conjuncts == []
    ensures Close(Collect(items, st)) == Close(WithOperand(st, MeaningOf(items)))
  {
    var r := Collect(items, EMPTY);
    var alternatives := Close(r).alternatives;
    CollectBehind(items, st.alternatives, EMPTY);
    assert st.alternatives + EMPTY.alternatives == st.alternatives;
    CollectFlat(items, true, EMPTY);
    CloseFlat(r);
    AnyOfAlternatives(alternatives);
    Associate(st.alternatives, r.alternatives, AlternativesIn(AllOf(r.conjuncts)));
    assert [] + ConjunctsIn(MeaningOf(items)) == ConjunctsIn(MeaningOf(items));
  }

  /** So does an operand alone. */
  lemma OperandIsAlternatives(t: Tree, st: State)
    requires Flat(t) && st.conjuncts == []
    ensures Close(WithOperand(st, t)) == State(st.alternatives + AlternativesIn(t), [])
  {
    AlternativesFlat(t);
    assert [] + ConjunctsIn(t) == ConjunctsIn(t);
  }

  // ---------------------------------------------------------------- the layer of an expression means the expression

  lemma {:induction false} ConjunctsMean(parts: seq<Cst>, st: State)
    requires parts != []
    ensures Collect(Conjuncts(parts), st) == st.(conjuncts := st.conjuncts + FlattenAll(RawAll(parts)))
    decreases |parts|
  {
    var first := Meaning(parts[0]);
    var st' := WithOperand(st, first);
    if |parts| == 1 {
      assert Conjuncts(parts)[1..] == [];
      assert RawAll(parts) == [Raw(parts[0])] && FlattenAll([Raw(parts[0])]) == ConjunctsIn(first) + [];
      assert ConjunctsIn(first) + [] == ConjunctsIn(first);
    } else {
      var rest := Conjuncts(parts[1..]);
      ConjunctsMean(parts[1..], st');
      var items := [Operand(parts[0]), Word(true)] + rest;
      assert items[1..] == [Word(true)] + rest && items[1..][1..] == rest;
      assert RawAll(parts)[1..] == RawAll(parts[1..]);
      Associate(st.conjuncts, ConjunctsIn(first), FlattenAll(RawAll(parts[1..])));
    }
  }

  lemma ConjunctsOfMean(c: Cst, st: State)
    requires WellFormed(c) && !c.Or? && st.conjuncts == []
    ensures Close(Collect(ConjunctsOf(c), st)) == State(st.alternatives + AlternativesIn(Meaning(c)), [])
  {
    MeaningFlat(c);
    if c.And? {
      ConjunctsMean(c.parts, st);
      assert [] + FlattenAll(RawAll(c.parts)) == FlattenAll(RawAll(c.parts));
    } else {
      assert [Operand(c)][1..] == [];
      OperandIsAlternatives(Meaning(c), st);
    }
  }

  lemma {:induction false} DisjunctsMean(parts: seq<Cst>, st: State)
    requires parts != [] && st.conjuncts == []
    requires forall i :: 0 <= i < |parts| ==> WellFormed(parts[i]) && !parts[i].Or?
    ensures Close(Collect(Disjuncts(parts), st)) == State(st.alternatives + FlattenAny(RawAll(parts)), [])
    decreases |parts|
  {
    var first := Meaning(parts[0]);
    ConjunctsOfMean(parts[0], st);
    assert FlattenAny(RawAll(parts)) == AlternativesIn(first) + FlattenAny(RawAll(parts)[1..]);
    if |parts| == 1 {
      assert RawAll(parts)[1..] == [];
      assert AlternativesIn(first) + [] == AlternativesIn(first);
    } else {
      var rest := Disjuncts(parts[1..]);
      var st' := Close(Collect(ConjunctsOf(parts[0]), st));
      CollectConcat(ConjunctsOf(parts[0]), [Word(false)] + rest, st);
      assert ([Word(false)] + rest)[1..] == rest;
      DisjunctsMean(parts[1..], st');
      assert RawAll(parts)[1..] == RawAll(parts[1..]);
      Associate(st.alternatives, AlternativesIn(first), FlattenAny(RawAll(parts[1..])));
    }
  }

  lemma LayerMeaning(c: Cst)
    requires WellFormed(c)
    ensures MeaningOf(Layer(c)) == Meaning(c)
  {
    MeaningFlat(c);
    if c.Or? {
      DisjunctsMean(c.parts, EMPTY);
      assert [] + FlattenAny(RawAll(c.parts)) == FlattenAny(RawAll(c.parts));
    } else {
      ConjunctsOfMean(c, EMPTY);
      assert [] + AlternativesIn(Meaning(c)) == AlternativesIn(Meaning(c));
      AlternativesFlat(Meaning(c));
    }
  }
}
