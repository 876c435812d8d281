/**
  A written expression as its top layer, operands and words in turn, and the
  meaning of a layer: alternatives of conjuncts, collected from left to right.
*/
module SqlLayers {
  import opened Sequences
  import opened SqlScan
  import opened SqlTrees
  import opened SqlSegments
  import opened SqlCells

  datatype Item = Operand(c: Cst) | Word(isAnd: bool)

  function Text(item: Item): string {
    match item
    case Operand(c) => Render(c)
    case Word(isAnd) => if isAnd then "and" else "or"
  }

  function Texts(items: seq<Item>): (texts: seq<string>)
    ensures |texts| == |items|
    ensures forall i :: 0 <= i < |items| ==> texts[i] == Text(items[i])
  {
    if items == [] then [] else [Text(items[0])] + Texts(items[1..])
  }

  lemma {:induction false} TextsConcat(a: seq<Item>, b: seq<Item>)
    ensures Texts(a + b) == Texts(a) + Texts(b)
  {}

  ghost predicate TightCst(c: Cst) { WellFormed(c) && (c.Atom? || c.Paren?) }

  /** Operands and words in turn, up to an operand; `turn` says whether an operand is due. */
  ghost predicate Proper(items: seq<Item>, turn: bool) {
    if items == [] then !turn
    else
      && items[0].Operand? == turn
      && (turn ==> TightCst(items[0].c))
      && Proper(items[1..], !turn)
  }

  lemma {:induction false} ProperConcat(a: seq<Item>, b: seq<Item>, turn: bool)
    requires Proper(a, turn) && Proper(b, false)
    ensures Proper(a + b, turn)
    decreases |a|
  {
    if a == [] {
      assert a + b == b;
    } else {
      assert (a + b)[0] == a[0] && (a + b)[1..] == a[1..] + b;
      ProperConcat(a[1..], b, !turn);
    }
  }

  lemma {:induction false} ProperCells(items: seq<Item>, turn: bool)
    requires Proper(items, turn)
    ensures Segments(Texts(items), AND)
    ensures forall i :: 0 <= i < |items| ==> Even(Text(items[i]), 0)
    decreases |items|
  {
    if items != [] {
      ItemCell(items[0], turn);
      ProperCells(items[1..], !turn);
      forall i | 0 <= i < |items| ensures Segment(Text(items[i]), AND, 0, false) && Even(Text(items[i]), 0) {
        if i > 0 {
          assert items[i] == items[1..][i - 1];
          assert Segment(Texts(items[1..])[i - 1], AND, 0, false);
        }
      }
    }
  }

  lemma WordCell(isAnd: bool)
    ensures Segment(Text(Word(isAnd)), AND, 0, false) && Even(Text(Word(isAnd)), 0) && !Wrapped(Text(Word(isAnd)))
  {
    assert "and"[1..] == "nd" && "and"[1..][1..] == "d" && "and"[1..][1..][1..] == "";
    assert "or"[1..] == "r" && "or"[1..][1..] == "";
  }

  lemma ItemCell(item: Item, turn: bool)
    requires item.Operand? == turn && (turn ==> TightCst(item.c))
    ensures Segment(Text(item), AND, 0, false) && Even(Text(item), 0)
  {
    if turn { RenderReads(item.c); } else { WordCell(item.isAnd); }
  }

  // ---------------------------------------------------------------- the layer of an expression

  function Conjuncts(parts: seq<Cst>): seq<Item> {
    if parts == [] then []
    else if |parts| == 1 then [Operand(parts[0])]
    else [Operand(parts[0]), Word(true)] + Conjuncts(parts[1..])
  }

  function ConjunctsOf(c: Cst): seq<Item> {
    if c.And? then Conjuncts(c.parts) else [Operand(c)]
  }

  function Disjuncts(parts: seq<Cst>): seq<Item> {
    if parts == [] then []
    else if |parts| == 1 then ConjunctsOf(parts[0])
    else ConjunctsOf(parts[0]) + ([Word(false)] + Disjuncts(parts[1..]))
  }

  function Layer(c: Cst): seq<Item> {
    if c.Or? then Disjuncts(c.parts) else ConjunctsOf(c)
  }

  lemma {:induction false} ConjunctsProper(parts: seq<Cst>)
    requires parts != [] && forall i :: 0 <= i < |parts| ==> TightCst(parts[i])
    ensures Proper(Conjuncts(parts), true)
    ensures Conjuncts(parts) != [] && Join(Texts(Conjuncts(parts)), AT) == Join(RenderAll(parts), AND)
  {
    if |parts| == 1 {
      assert [Operand(parts[0])][1..] == [];
    } else {
      var rest := Conjuncts(parts[1..]);
      ConjunctsProper(parts[1..]);
      var items := [Operand(parts[0]), Word(true)] + rest;
      assert items[1..] == [Word(true)] + rest && items[1..][1..] == rest;
      TwoMore(Render(parts[0]), true, rest);
      assert Texts(items) == [Render(parts[0])] + (["and"] + Texts(rest));
      JoinCons(Render(parts[0]), RenderAll(parts[1..]), AND);
    }
  }

  lemma TwoMore(first: string, isAnd: bool, rest: seq<Item>)
    requires rest != []
    ensures Join([first] + ([Text(Word(isAnd))] + Texts(rest)), AT) ==
      first + (if isAnd then AND else OR) + Join(Texts(rest), AT)
  {
    var m := if isAnd then AND else OR;
    JoinAround([first], Text(Word(isAnd)), Texts(rest));
    MarkerOfWord(m);
  }

  lemma ConjunctsOfProper(c: Cst)
    requires WellFormed(c) && !c.Or?
    ensures Proper(ConjunctsOf(c), true) && ConjunctsOf(c) != []
    ensures Join(Texts(ConjunctsOf(c)), AT) == Render(c)
  {
    if c.And? {
      ConjunctsProper(c.parts);
    } else {
      assert [Operand(c)][1..] == [];
      assert Texts([Operand(c)]) == [Render(c)];
    }
  }

  lemma JoinTexts(a: seq<Item>, isAnd: bool, b: seq<Item>)
    requires a != [] && b != []
    ensures Join(Texts(a + ([Word(isAnd)] + b)), AT) ==
      Join(Texts(a), AT) + (if isAnd then AND else OR) + Join(Texts(b), AT)
  {
    var m := if isAnd then AND else OR;
    TextsConcat(a, [Word(isAnd)] + b);
    TextsConcat([Word(isAnd)], b);
    assert Texts([Word(isAnd)]) == [Text(Word(isAnd))];
    JoinAround(Texts(a), Text(Word(isAnd)), Texts(b));
    MarkerOfWord(m);
  }

  lemma {:induction false} DisjunctsProper(parts: seq<Cst>)
    requires parts != [] && forall i :: 0 <= i < |parts| ==> WellFormed(parts[i]) && !parts[i].Or?
    ensures Proper(Disjuncts(parts), true) && Disjuncts(parts) != []
    ensures Join(Texts(Disjuncts(parts)), AT) == Join(RenderAll(parts), OR)
  {
    ConjunctsOfProper(parts[0]);
    if |parts| == 1 {
      assert RenderAll(parts) == [Render(parts[0])];
    } else {
      var first, rest := ConjunctsOf(parts[0]), Disjuncts(parts[1..]);
      DisjunctsProper(parts[1..]);
      assert ([Word(false)] + rest)[1..] == rest;
      ProperConcat(first, [Word(false)] + rest, true);
      JoinTexts(first, false, rest);
      JoinCons(Render(parts[0]), RenderAll(parts[1..]), OR);
    }
  }

  /** The layer spells the expression. */
  lemma LayerProper(c: Cst)
    requires WellFormed(c)
    ensures Proper(Layer(c), true) && Layer(c) != [] && Join(Texts(Layer(c)), AT) == Render(c)
  {
    if c.Or? { DisjunctsProper(c.parts); } else { ConjunctsOfProper(c); }
  }

  // ---------------------------------------------------------------- building an expression from a layer

  /** The alternatives of a layer, each with its operands. */
  function Groups(items: seq<Item>): (groups: seq<seq<Cst>>)
    ensures groups != []
  {
    if items == [] || !items[0].Operand? then [[]]
    else if |items| == 1 then [[items[0].c]]
    else
      var rest := Groups(items[2..]);
      if items[1] == Word(true) then [[items[0].c] + rest[0]] + rest[1..] else [[items[0].c]] + rest
  }

  function Conjunction(group: seq<Cst>): Cst {
    if |group| == 1 then group[0] else And(group)
  }

  function Conjunctions(groups: seq<seq<Cst>>): (parts: seq<Cst>)
    ensures |parts| == |groups|
    ensures forall i :: 0 <= i < |groups| ==> parts[i] == Conjunction(groups[i])
  {
    if groups == [] then [] else [Conjunction(groups[0])] + Conjunctions(groups[1..])
  }

  function Build(items: seq<Item>): Cst {
    var parts := Conjunctions(Groups(items));
    if |parts| == 1 then parts[0] else Or(parts)
  }

  ghost predicate GroupOk(group: seq<Cst>) {
    group != [] && forall i :: 0 <= i < |group| ==> TightCst(group[i])
  }

  lemma GroupBuilds(group: seq<Cst>)
    requires GroupOk(group)
    ensures WellFormed(Conjunction(group)) && !Conjunction(group).Or?
    ensures ConjunctsOf(Conjunction(group)) == Conjuncts(group)
  {}

  /** Grouping a layer loses nothing. */
  lemma {:induction false} GroupsProper(items: seq<Item>)
    requires Proper(items, true)
    ensures forall i :: 0 <= i < |Groups(items)| ==> GroupOk(Groups(items)[i])
    ensures Disjuncts(Conjunctions(Groups(items))) == items
    decreases |items|
  {
    var groups := Groups(items);
    if |items| == 1 {
      assert items == [items[0]];
      assert GroupOk([items[0].c]);
      GroupBuilds([items[0].c]);
    } else {
      assert items[1..][0] == items[1] && items[1..][1..] == items[2..];
      var first, rest := items[0].c, Groups(items[2..]);
      GroupsProper(items[2..]);
      assert GroupOk(rest[0]);
      GroupBuilds(rest[0]);
      if items[1] == Word(true) {
        MoreInGroup(first, rest, items[2..]);
        assert items == [Operand(first), Word(true)] + items[2..];
      } else {
        assert GroupOk([first]);
        OneMoreGroup(first, rest, items[2..]);
        assert items == [Operand(first)] + ([Word(false)] + items[2..]);
      }
    }
  }

  lemma MoreInGroup(first: Cst, rest: seq<seq<Cst>>, items: seq<Item>)
    requires TightCst(first) && rest != [] && GroupOk(rest[0])
    requires forall i :: 0 <= i < |rest| ==> GroupOk(rest[i])
    requires Disjuncts(Conjunctions(rest)) == items
    ensures var groups := [[first] + rest[0]] + rest[1..];
      && (forall i :: 0 <= i < |groups| ==> GroupOk(groups[i]))
      && Disjuncts(Conjunctions(groups)) == [Operand(first), Word(true)] + items
  {
    var group := [first] + rest[0];
    var groups := [group] + rest[1..];
    forall i | 0 <= i < |group| ensures TightCst(group[i]) {
      if i > 0 { assert group[i] == rest[0][i - 1]; }
    }
    forall i | 0 <= i < |groups| ensures GroupOk(groups[i]) {
      if i > 0 { assert groups[i] == rest[i]; } else { assert GroupOk(group); }
    }
    GroupBuilds(group);
    GroupBuilds(rest[0]);
    assert group[1..] == rest[0];
    assert groups[1..] == rest[1..];
    var parts, others := Conjunctions(groups), Conjunctions(rest[1..]);
    assert parts == [Conjunction(group)] + others && parts[1..] == others;
    assert Conjunctions(rest) == [Conjunction(rest[0])] + others && Conjunctions(rest)[1..] == others;
    if |rest| > 1 {
      Associate([Operand(first), Word(true)], Conjuncts(rest[0]), [Word(false)] + Disjuncts(others));
    }
  }

  lemma OneMoreGroup(first: Cst, rest: seq<seq<Cst>>, items: seq<Item>)
    requires TightCst(first) && rest != []
    requires Disjuncts(Conjunctions(rest)) == items
    ensures Disjuncts(Conjunctions([[first]] + rest)) == [Operand(first)] + ([Word(false)] + items)
  {
    var groups := [[first]] + rest;
    assert groups[1..] == rest;
    var parts := Conjunctions(groups);
    assert parts == [first] + Conjunctions(rest) && parts[1..] == Conjunctions(rest);
    assert ConjunctsOf(first) == [Operand(first)];
  }

  /** The expression built from a layer is well formed, and this is its layer. */
  lemma BuildLayer(items: seq<Item>)
    requires Proper(items, true)
    ensures WellFormed(Build(items)) && Layer(Build(items)) == items
    ensures Render(Build(items)) == Join(Texts(items), AT)
    ensures |items| > 1 ==> !Build(items).Paren? && !Build(items).Atom?
  {
    GroupsProper(items);
    var groups := Groups(items);
    var parts := Conjunctions(groups);
    forall i | 0 <= i < |parts| ensures WellFormed(parts[i]) && !parts[i].Or? {
      assert GroupOk(groups[i]);
      GroupBuilds(groups[i]);
    }
    if |parts| == 1 { assert Disjuncts(parts) == ConjunctsOf(parts[0]); }
    LayerProper(Build(items));
  }
}
