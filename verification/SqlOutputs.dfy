/**
  The canonical text of an expression as a layer again: each operand that is a
  piece of its own and stands in parentheses is replaced by the layer of its own
  canonical text. Whatever the code takes for a marker, this keeps the meaning,
  and nothing is left to replace a second time.
*/
module SqlOutputs {
  import opened Sequences
  import opened SqlScan
  import opened SqlTrees
  import opened SqlSegments
  import opened SqlCanonical
  import opened SqlCells
  import opened SqlPasses
  import opened SqlLayers
  import opened SqlLayerMeanings

  // ---------------------------------------------------------------- sizes

  function Size(c: Cst): nat
    decreases c, 1
  {
    match c
    case Atom(_) => 1
    case Paren(inner) => 1 + Size(inner)
    case And(parts) => SizeAll(parts)
    case Or(parts) => SizeAll(parts)
  }

  function SizeAll(parts: seq<Cst>): nat
    decreases parts, 0
  {
    if parts == [] then 0 else Size(parts[0]) + SizeAll(parts[1..])
  }

  function ItemsSize(items: seq<Item>): nat {
    if items == [] then 0
    else (if items[0].Operand? then Size(items[0].c) else 0) + ItemsSize(items[1..])
  }

  lemma {:induction false} ItemsSizeConcat(a: seq<Item>, b: seq<Item>)
    ensures ItemsSize(a + b) == ItemsSize(a) + ItemsSize(b)
  {
    if a == [] {
      assert a + b == b;
    } else {
      ItemsSizeConcat(a[1..], b);
      assert (a + b)[1..] == a[1..] + b;
    }
  }

  lemma {:induction false} ConjunctsSize(parts: seq<Cst>)
    ensures ItemsSize(Conjuncts(parts)) == SizeAll(parts)
  {
    if |parts| == 1 {
      assert [Operand(parts[0])][1..] == [];
    } else if parts != [] {
      ConjunctsSize(parts[1..]);
      var rest := Conjuncts(parts[1..]);
      assert ([Operand(parts[0]), Word(true)] + rest)[1..] == [Word(true)] + rest;
      assert ([Word(true)] + rest)[1..] == rest;
    }
  }

  lemma ConjunctsOfSize(c: Cst)
    ensures ItemsSize(ConjunctsOf(c)) == Size(c)
  {
    if c.And? { ConjunctsSize(c.parts); } else { assert [Operand(c)][1..] == []; }
  }

  lemma {:induction false} DisjunctsSize(parts: seq<Cst>)
    ensures ItemsSize(Disjuncts(parts)) == SizeAll(parts)
  {
    if parts != [] {
      ConjunctsOfSize(parts[0]);
      if |parts| > 1 {
        var rest := Disjuncts(parts[1..]);
        DisjunctsSize(parts[1..]);
        ItemsSizeConcat(ConjunctsOf(parts[0]), [Word(false)] + rest);
        assert ([Word(false)] + rest)[1..] == rest;
      }
    }
  }

  /** What is inside all outer parentheses. */
  function Core(c: Cst): Cst {
    if c.Paren? then Core(c.inner) else c
  }

  function InnerLayer(c: Cst): seq<Item> { Layer(Core(c)) }

  lemma {:induction false} InnerLayerSize(c: Cst)
    ensures ItemsSize(InnerLayer(c)) <= Size(c)
    ensures c.Paren? ==> ItemsSize(InnerLayer(c)) < Size(c)
  {
    if c.Paren? {
      InnerLayerSize(c.inner);
    } else if c.Or? {
      DisjunctsSize(c.parts);
    } else {
      ConjunctsOfSize(c);
    }
  }

  // ---------------------------------------------------------------- the output of a layer

  ghost function Out(items: seq<Item>, mode: Mode): seq<Item>
    decreases ItemsSize(items), |items|, 1
  {
    if items == [] then [] else OutItem(items, mode) + Out(items[1..], Next(mode, Texts(items)))
  }

  /** The first of these items is an operand in parentheses and a piece of its own. */
  predicate Replaced(items: seq<Item>, mode: Mode)
    requires items != []
  {
    items[0].Operand? && items[0].c.Paren? && Single(mode, Texts(items))
  }

  /** Inside a conjunction the code puts a layer with an inner `or` in parentheses again. */
  ghost predicate Reenclosed(items: seq<Item>, mode: Mode)
    requires items != [] && items[0].Operand?
  {
    ParentOf(mode, Texts(items)) == 2 && !NoInner(Texts(InnerLayer(items[0].c)), "or")
  }

  ghost function OutItem(items: seq<Item>, mode: Mode): seq<Item>
    requires items != []
    decreases ItemsSize(items), |items|, 0
  {
    if Replaced(items, mode) then
      InnerLayerSize(items[0].c);
      var out := Out(InnerLayer(items[0].c), AtOr);
      if Reenclosed(items, mode) then [Operand(Paren(Build(out)))] else out
    else [items[0]]
  }

  lemma {:induction false} CoreOk(c: Cst)
    requires WellFormed(c)
    ensures WellFormed(Core(c)) && !Core(c).Paren? && Strip(Render(c)) == Render(Core(c))
    ensures Meaning(Core(c)) == Meaning(c)
  {
    RenderReads(c);
    if c.Paren? {
      CoreOk(c.inner);
      RenderReads(c.inner);
      EncloseStripsIff(Render(c.inner));
    } else {
      NotWrappedStays(Render(c));
    }
  }

  lemma InnerLayerOk(c: Cst)
    requires WellFormed(c)
    ensures Proper(InnerLayer(c), true) && InnerLayer(c) != []
    ensures Join(Texts(InnerLayer(c)), AT) == Strip(Render(c))
    ensures |InnerLayer(c)| == 1 ==> InnerLayer(c)[0].c.Atom?
    ensures MeaningOf(InnerLayer(c)) == Meaning(c)
  {
    CoreOk(c);
    LayerProper(Core(c));
    LayerMeaning(Core(c));
    LayerSingle(Core(c));
    hide Layer, MeaningOf, Meaning;
  }

  lemma LayerSingle(c: Cst)
    requires WellFormed(c)
    ensures |Layer(c)| == 1 ==> (c.Atom? || c.Paren?) && Layer(c) == [Operand(c)]
  {
    if c.And? {
      assert |Conjuncts(c.parts)| >= 2;
    } else if c.Or? {
      ConjunctsOfProper(c.parts[0]);
      assert Disjuncts(c.parts) == ConjunctsOf(c.parts[0]) + ([Word(false)] + Disjuncts(c.parts[1..]));
    }
  }

  /** The output is a layer of well-formed operands. */
  lemma {:induction false} OutProper(items: seq<Item>, turn: bool, mode: Mode)
    requires Proper(items, turn)
    ensures Proper(Out(items, mode), turn) && (items != [] ==> Out(items, mode) != [])
    decreases ItemsSize(items), |items|, 1
  {
    if items != [] {
      OutItemProper(items, turn, mode);
      OutProper(items[1..], !turn, Next(mode, Texts(items)));
      if turn {
        ProperConcat(OutItem(items, mode), Out(items[1..], Next(mode, Texts(items))), true);
      }
    }
  }

  lemma {:induction false} OutItemProper(items: seq<Item>, turn: bool, mode: Mode)
    requires items != [] && Proper(items, turn)
    ensures OutItem(items, mode) != []
    ensures turn ==> Proper(OutItem(items, mode), true)
    ensures !turn ==> OutItem(items, mode) == [items[0]]
    decreases ItemsSize(items), |items|, 0
  {
    if Replaced(items, mode) {
      var layer := InnerLayer(items[0].c);
      InnerLayerSize(items[0].c);
      InnerLayerOk(items[0].c);
      hide InnerLayer, Build, NoInner;
      OutProper(layer, true, AtOr);
      var out := Out(layer, AtOr);
      BuildLayer(out);
      ParenProper(Build(out));
    } else if turn {
      assert [items[0]][1..] == [];
    }
  }

  lemma ParenProper(c: Cst)
    requires WellFormed(c)
    ensures Proper([Operand(Paren(c))], true)
  {
    assert [Operand(Paren(c))][1..] == [];
  }

  lemma {:induction false} OutLength(items: seq<Item>, turn: bool, mode: Mode)
    requires Proper(items, turn)
    ensures |Out(items, mode)| >= |items|
    decreases |items|
  {
    if items != [] {
      OutItemProper(items, turn, mode);
      OutLength(items[1..], !turn, Next(mode, Texts(items)));
    }
  }

  // ---------------------------------------------------------------- the output is the canonical text

  /** The canonical text of an operand in parentheses. */
  lemma ParenText(c: Cst, parent: nat)
    requires WellFormed(c) && 1 <= parent <= 2
    ensures var cells := Texts(InnerLayer(c));
      var s := Join(Pass(AtOr, cells), AT);
      Canonical(Render(c), parent) == if !NoInner(cells, "or") && parent == 2 then Enclose(s) else s
  {
    var cells := Texts(InnerLayer(c));
    InnerLayerOk(c);
    ProperCells(InnerLayer(c), true);
    if |cells| == 1 { AtomUnwrapped(InnerLayer(c)[0]); }
    hide InnerLayer, NoInner;
    LayerText(cells, parent);
    PassIsRecursion(cells);
  }

  lemma AtomUnwrapped(item: Item)
    requires item.Operand? && item.c.Atom? && WellFormed(item.c)
    ensures !Wrapped(Text(item))
  {}

  lemma {:induction false} OutText(items: seq<Item>, turn: bool, mode: Mode)
    requires items != [] && Proper(items, turn)
    ensures Join(Pass(mode, Texts(items)), AT) == Join(Texts(Out(items, mode)), AT)
    decreases ItemsSize(items), |items|, 1
  {
    var cells, rest := Texts(items), items[1..];
    var mode' := Next(mode, cells);
    OutItemText(items, turn, mode);
    OutItemProper(items, turn, mode);
    assert cells[1..] == Texts(rest);
    if rest == [] {
      LastText(items, mode);
    } else {
      OutText(rest, !turn, mode');
      OutProper(rest, !turn, mode');
      JoinCons(PassCell(mode, cells), Pass(mode', Texts(rest)), AT);
      TextsConcat(OutItem(items, mode), Out(rest, mode'));
      JoinConcat(Texts(OutItem(items, mode)), Texts(Out(rest, mode')), AT);
    }
  }

  lemma LastText(items: seq<Item>, mode: Mode)
    requires |items| == 1 && PassCell(mode, Texts(items)) == Join(Texts(OutItem(items, mode)), AT)
    ensures Join(Pass(mode, Texts(items)), AT) == Join(Texts(Out(items, mode)), AT)
  {
    assert items[1..] == [] && Texts(items)[1..] == [];
    assert OutItem(items, mode) + [] == OutItem(items, mode);
    assert Pass(mode, Texts(items)) == [PassCell(mode, Texts(items))];
  }

  lemma {:induction false} OutItemText(items: seq<Item>, turn: bool, mode: Mode)
    requires items != [] && Proper(items, turn)
    ensures PassCell(mode, Texts(items)) == Join(Texts(OutItem(items, mode)), AT)
    decreases ItemsSize(items), |items|, 0
  {
    if Replaced(items, mode) {
      var c := items[0].c;
      var layer := InnerLayer(c);
      InnerLayerSize(c);
      InnerLayerOk(c);
      ParenText(c, ParentOf(mode, Texts(items)));
      hide InnerLayer, NoInner, Build;
      OutText(layer, true, AtOr);
      OutProper(layer, true, AtOr);
      var out := Out(layer, AtOr);
      BuildLayer(out);
      EnclosedText(Build(out));
    } else {
      KeptText(items, turn, mode);
      assert Texts([items[0]]) == [Text(items[0])];
    }
  }

  lemma EnclosedText(c: Cst)
    ensures Join(Texts([Operand(Paren(c))]), AT) == Enclose(Render(c))
  {
    assert Texts([Operand(Paren(c))]) == [Render(Paren(c))];
  }

  /** Words and operands without outer parentheses are their own canonical texts. */
  lemma KeptText(items: seq<Item>, turn: bool, mode: Mode)
    requires items != [] && Proper(items, turn) && !Replaced(items, mode)
    ensures PassCell(mode, Texts(items)) == Text(items[0])
  {
    if Single(mode, Texts(items)) { ItemStays(items[0], turn, ParentOf(mode, Texts(items))); }
  }

  lemma ItemStays(item: Item, turn: bool, parent: nat)
    requires item.Operand? == turn && (turn ==> TightCst(item.c) && item.c.Atom?)
    ensures Canonical(Text(item), parent) == Text(item)
  {
    if turn {
      AtomUnwrapped(item);
    } else {
      WordCell(item.isAnd);
    }
    CellStays(Text(item), parent);
  }

  // ---------------------------------------------------------------- the output has the same meaning

  /** The code takes no cell of these for an or-marker and reads none as an or-piece of its own. */
  ghost predicate NeverOr(items: seq<Item>, mode: Mode)
    decreases |items|
  {
    items == [] ||
    (&& !CutsOr(mode, Texts(items))
     && ParentOf(mode, Texts(items)) == 2
     && NeverOr(items[1..], Next(mode, Texts(items))))
  }

  lemma {:induction false} OutNoOr(items: seq<Item>, turn: bool, mode: Mode)
    requires Proper(items, turn) && NoOr(items) && NeverOr(items, mode)
    ensures NoOr(Out(items, mode))
    decreases ItemsSize(items), |items|, 1
  {
    if items != [] {
      var rest := items[1..];
      assert forall i :: 0 <= i < |rest| ==> rest[i] == items[i + 1];
      OutNoOr(rest, !turn, Next(mode, Texts(items)));
      OutItemNoOr(items, turn, mode);
      NoOrConcat(OutItem(items, mode), Out(rest, Next(mode, Texts(items))));
    }
  }

  lemma NoOrConcat(a: seq<Item>, b: seq<Item>)
    requires NoOr(a) && NoOr(b)
    ensures NoOr(a + b)
  {}

  lemma {:induction false} OutItemNoOr(items: seq<Item>, turn: bool, mode: Mode)
    requires items != [] && Proper(items, turn) && items[0] != Word(false)
    requires ParentOf(mode, Texts(items)) == 2
    ensures NoOr(OutItem(items, mode))
    decreases ItemsSize(items), |items|, 0
  {
    if Replaced(items, mode) && !Reenclosed(items, mode) {
      InnerLayerSize(items[0].c);
      InnerOutNoOr(items[0].c);
    }
  }

  /** An operand without an inner `or` adds none. */
  lemma {:induction false} InnerOutNoOr(c: Cst)
    requires WellFormed(c) && NoInner(Texts(InnerLayer(c)), "or")
    ensures NoOr(Out(InnerLayer(c), AtOr))
    decreases ItemsSize(InnerLayer(c)), |InnerLayer(c)|, 2
  {
    var layer := InnerLayer(c);
    InnerLayerOk(c);
    hide InnerLayer;
    if |layer| == 1 {
      SingleOut(layer);
    } else {
      WordsInside(layer, true);
      UncutNeverOr(layer, AtOr);
      OutNoOr(layer, true, AtOr);
    }
  }

  lemma SingleOut(layer: seq<Item>)
    requires |layer| == 1 && layer[0].Operand? && layer[0].c.Atom?
    ensures Out(layer, AtOr) == layer && NoOr(layer)
  {
    assert layer[1..] == [] && [layer[0]] + [] == layer;
  }

  /** The words of a layer are inner cells. */
  lemma {:induction false} WordsInside(items: seq<Item>, turn: bool)
    requires Proper(items, turn)
    ensures forall i :: 0 <= i < |items| && items[i].Word? ==> i < |items| - 1 && (turn ==> i >= 1)
    decreases |items|
  {
    if items != [] {
      WordsInside(items[1..], !turn);
      forall i | 0 <= i < |items| && items[i].Word? ensures i < |items| - 1 && (turn ==> i >= 1) {
        if i > 0 { assert items[1..][i - 1] == items[i]; }
      }
    }
  }

  lemma {:induction false} UncutNeverOr(items: seq<Item>, mode: Mode)
    requires forall i :: (if mode == Within then 0 else 1) <= i < |items| - 1 ==> Text(items[i]) != "or"
    requires |items| == 1 ==> mode != AtOr
    ensures NeverOr(items, mode)
    decreases |items|
  {
    if items != [] {
      var rest := items[1..];
      assert forall i :: 0 <= i < |rest| ==> rest[i] == items[i + 1];
      UncutNeverOr(rest, Next(mode, Texts(items)));
    }
  }

  /** What an item adds to a state. */
  lemma CollectCons(items: seq<Item>, st: State)
    requires items != []
    ensures Collect(items, st) == Collect(items[1..], Collect([items[0]], st))
  {
    assert items == [items[0]] + items[1..];
    CollectConcat([items[0]], items[1..], st);
  }

  lemma CollectOut(items: seq<Item>, mode: Mode, st: State)
    requires items != []
    ensures Collect(Out(items, mode), st) ==
      Collect(Out(items[1..], Next(mode, Texts(items))), Collect(OutItem(items, mode), st))
  {
    CollectConcat(OutItem(items, mode), Out(items[1..], Next(mode, Texts(items))), st);
  }

  lemma CollectOperand(c: Cst, st: State)
    ensures Collect([Operand(c)], st) == WithOperand(st, Meaning(c))
  {
    assert [Operand(c)][1..] == [];
  }

  lemma CollectWord(isAnd: bool, st: State)
    ensures Collect([Word(isAnd)], st) == if isAnd then st else Close(st)
  {
    assert [Word(isAnd)][1..] == [];
  }

  /** The output of what stands inside an operand's parentheses means the operand. */
  lemma {:induction false} InnerOutMeaning(c: Cst)
    requires WellFormed(c)
    ensures Proper(Out(InnerLayer(c), AtOr), true) && MeaningOf(Out(InnerLayer(c), AtOr)) == Meaning(c)
    decreases ItemsSize(InnerLayer(c)), |InnerLayer(c)|, 2
  {
    InnerLayerOk(c);
    OutProper(InnerLayer(c), true, AtOr);
    OutMeaning(InnerLayer(c), true, AtOr, EMPTY);
  }

  lemma BuildMeaning(items: seq<Item>)
    requires Proper(items, true)
    ensures WellFormed(Build(items)) && Meaning(Build(items)) == MeaningOf(items)
    ensures Meaning(Paren(Build(items))) == MeaningOf(items)
  {
    BuildLayer(items);
    LayerMeaning(Build(items));
  }

  /** Inside a conjunction the output of an operand has the operand's effect. */
  lemma {:induction false} OutItemTight(items: seq<Item>, mode: Mode, st: State)
    requires items != [] && Proper(items, true) && ParentOf(mode, Texts(items)) == 2
    ensures Collect(OutItem(items, mode), st) == Collect([items[0]], st)
    decreases ItemsSize(items), |items|, 0
  {
    if Replaced(items, mode) {
      var c := items[0].c;
      InnerLayerSize(c);
      InnerOutMeaning(c);
      var out := Out(InnerLayer(c), AtOr);
      CollectOperand(c, st);
      if Reenclosed(items, mode) {
        BuildMeaning(out);
        CollectOperand(Paren(Build(out)), st);
      } else {
        InnerOutNoOr(c);
        LayerIsConjuncts(out, st);
      }
    }
  }

  /** As an alternative of its own it has the operand's effect once the alternative ends. */
  lemma {:induction false} OutItemAlone(items: seq<Item>, mode: Mode, st: State)
    requires items != [] && Proper(items, true) && ParentOf(mode, Texts(items)) == 1 && st.conjuncts == []
    ensures Close(Collect(OutItem(items, mode), st)) == Close(Collect([items[0]], st))
    decreases ItemsSize(items), |items|, 0
  {
    if Replaced(items, mode) {
      var c := items[0].c;
      InnerLayerSize(c);
      InnerOutMeaning(c);
      CollectOperand(c, st);
      LayerIsAlternatives(Out(InnerLayer(c), AtOr), st);
    }
  }

  /** Whatever the code takes for a marker, the output collects what the layer does. */
  lemma {:induction false} OutMeaning(items: seq<Item>, turn: bool, mode: Mode, st: State)
    requires Proper(items, turn) && (turn && mode == AtOr ==> st.conjuncts == [])
    ensures Close(Collect(Out(items, mode), st)) == Close(Collect(items, st))
    decreases ItemsSize(items), |items|, 1
  {
    if items != [] {
      var cells, rest := Texts(items), items[1..];
      var mode' := Next(mode, cells);
      CollectCons(items, st);
      CollectOut(items, mode, st);
      if !turn {
        CollectWord(items[0].isAnd, st);
        OutMeaning(rest, true, mode', Collect([items[0]], st));
      } else if ParentOf(mode, cells) == 2 {
        OutItemTight(items, mode, st);
        OutMeaning(rest, false, mode', Collect([items[0]], st));
      } else {
        OutItemAlone(items, mode, st);
        if rest != [] { OutAfterAlone(items, mode, st); }
      }
    }
  }

  /** Behind an alternative of its own comes a real `or`. */
  lemma {:induction false} OutAfterAlone(items: seq<Item>, mode: Mode, st: State)
    requires |items| > 1 && Proper(items, true) && ParentOf(mode, Texts(items)) == 1
    requires Close(Collect(OutItem(items, mode), st)) == Close(Collect([items[0]], st))
    ensures Close(Collect(Out(items, mode), st)) == Close(Collect(items, st))
    decreases ItemsSize(items), |items|, 0
  {
    var rest := items[1..];
    var more := rest[1..];
    var a, b := Collect(OutItem(items, mode), st), Collect([items[0]], st);
    assert Texts(items)[1..] == Texts(rest) && rest[0] == Word(false);
    CollectCons(items, st);
    CollectOut(items, mode, st);
    CollectCons(rest, b);
    CollectOut(rest, Within, a);
    CollectWord(false, a);
    CollectWord(false, b);
    OutItemProper(rest, false, Within);
    assert ItemsSize(more) == ItemsSize(rest) <= ItemsSize(items);
    OutMeaning(more, true, AtOr, Close(a));
  }

  // ---------------------------------------------------------------- nothing is left to replace

  /** A pass that starts in this mode, with `rest` behind the cells, leaves the cells alone. */
  ghost predicate Unchanged(mode: Mode, cells: seq<string>, rest: seq<string>)
    decreases |cells|
  {
    cells == [] ||
    (PassCell(mode, cells + rest) == cells[0] && Unchanged(Next(mode, cells + rest), cells[1..], rest))
  }

  function ModeAfter(mode: Mode, cells: seq<string>, rest: seq<string>): Mode
    decreases |cells|
  {
    if cells == [] then mode else ModeAfter(Next(mode, cells + rest), cells[1..], rest)
  }

  lemma {:induction false} UnchangedConcat(mode: Mode, a: seq<string>, b: seq<string>, rest: seq<string>)
    requires Unchanged(mode, a, b + rest) && Unchanged(ModeAfter(mode, a, b + rest), b, rest)
    ensures Unchanged(mode, a + b, rest)
    decreases |a|
  {
    if a == [] {
      assert a + b == b;
    } else {
      assert (a + b)[0] == a[0] && (a + b)[1..] == a[1..] + b;
      Associate(a, b, rest);
      UnchangedConcat(Next(mode, a + (b + rest)), a[1..], b, rest);
    }
  }

  lemma {:induction false} UnchangedPass(mode: Mode, cells: seq<string>)
    requires Unchanged(mode, cells, [])
    ensures Pass(mode, cells) == cells
    decreases |cells|
  {
    if cells != [] {
      assert cells + [] == cells;
      UnchangedPass(Next(mode, cells), cells[1..]);
      assert cells == [cells[0]] + cells[1..];
    }
  }

  lemma UnchangedOne(mode: Mode, cell: string, rest: seq<string>)
    ensures Unchanged(mode, [cell], rest) <==> PassCell(mode, [cell] + rest) == cell
    ensures ModeAfter(mode, [cell], rest) == Next(mode, [cell] + rest)
  {
    assert [cell][1..] == [];
  }

  /**
    The first pass is in mode `a`, a pass over its output in mode `b`. If the
    first has lost its turn, reading operands for words, so has the other; and
    behind an `and` the other does not think itself behind an `or`.
  */
  predicate Follows(a: Mode, b: Mode, turn: bool) {
    && (turn && a == Within ==> b == Within)
    && (!turn && a != Within ==> b != Within)
    && (a == AtAnd ==> b != AtOr)
  }

  /** The first cells of an output from a word on. */
  lemma OutHeads(items: seq<Item>, mode: Mode)
    requires items != [] && Proper(items, false)
    ensures |items| > 1 && items[0].Word?
    ensures var b := Texts(Out(items, mode));
      && |b| > 1 && b[0] == Text(items[0])
      && (Text(items[1]) == "or" ==> b[1] == "or" && (|items| > 2 ==> |b| > 2))
  {
    var rest := items[1..];
    var mode' := Next(mode, Texts(items));
    OutProper(rest, true, mode');
    OutItemProper(items, false, mode);
    OutItemProper(rest, true, mode');
    var more := Out(rest[1..], Next(mode', Texts(rest)));
    if Text(rest[0]) == "or" {
      OrIsKept(rest, mode');
      OutProper(rest[1..], false, Next(mode', Texts(rest)));
      assert Out(rest, mode') == [rest[0]] + more;
    }
    assert Out(items, mode) == [items[0]] + Out(rest, mode');
  }

  lemma OrIsKept(items: seq<Item>, mode: Mode)
    requires items != [] && Text(items[0]) == "or"
    ensures OutItem(items, mode) == [items[0]]
  {
    if items[0].Operand? && items[0].c.Paren? { ParenOpens(items[0].c); }
  }

  lemma ParenOpens(c: Cst)
    requires c.Paren?
    ensures Render(c) != [] && Render(c)[0] == '('
  {}

  lemma BehindFirst(cell: string, rest: seq<string>)
    ensures ([cell] + rest)[0] == cell && ([cell] + rest)[1..] == rest
  {}

  /** A word, or an operand that is kept, and what follows it. */
  lemma KeptFollows(items: seq<Item>, turn: bool, a: Mode, b: Mode, rest: seq<string>)
    requires items != [] && Proper(items, turn) && Follows(a, b, turn) && OutItem(items, a) == [items[0]]
    ensures var tail := Texts(Out(items[1..], Next(a, Texts(items)))) + rest;
      Follows(Next(a, Texts(items)), Next(b, [Text(items[0])] + tail), !turn)
  {
    var cells, others := Texts(items), items[1..];
    var outs := Texts(Out(others, Next(a, cells)));
    var tail := outs + rest;
    BehindFirst(Text(items[0]), tail);
    assert cells[1..] == Texts(others);
    if turn {
      if others != [] {
        OutHeads(others, Next(a, cells));
        assert tail[0] == outs[0];
      }
    } else {
      WordFollows(items, a, b, tail, outs, rest);
    }
  }

  lemma WordFollows(items: seq<Item>, a: Mode, b: Mode, tail: seq<string>, outs: seq<string>, rest: seq<string>)
    requires items != [] && Proper(items, false) && Follows(a, b, false) && tail == outs + rest
    requires outs == Texts(Out(items[1..], Next(a, Texts(items))))
    ensures Follows(Next(a, Texts(items)), Next(b, [Text(items[0])] + tail), true)
  {
    var cells, others := Texts(items), items[1..];
    BehindFirst(Text(items[0]), tail);
    assert cells[1..] == Texts(others);
    OutProper(others, true, Next(a, cells));
    if Text(others[0]) == "or" && |others| > 1 {
      OrIsKept(others, Next(a, cells));
      OutProper(others[1..], false, Next(Next(a, cells), Texts(others)));
      assert outs[0] == "or" && |outs| > 1;
      assert tail[0] == "or";
    }
  }

  /** An operand in parentheses that was kept is no piece of its own in a pass over the output either. */
  lemma KeptIsNotSingle(items: seq<Item>, a: Mode, b: Mode, rest: seq<string>)
    requires items != [] && Proper(items, true) && Follows(a, b, true) && !Single(a, Texts(items))
    ensures !Single(b, [Text(items[0])] + (Texts(Out(items[1..], Next(a, Texts(items)))) + rest))
  {
    var cells, others := Texts(items), items[1..];
    var outs := Texts(Out(others, Next(a, cells)));
    BehindFirst(Text(items[0]), outs + rest);
    assert cells[1..] == Texts(others);
    if a != Within {
      OutHeads(others, Next(a, cells));
      assert (outs + rest)[0] == outs[0] && (outs + rest)[1] == outs[1];
    }
  }

  lemma KeptIsUnchanged(items: seq<Item>, turn: bool, a: Mode, b: Mode, rest: seq<string>)
    requires items != [] && Proper(items, turn) && Follows(a, b, turn) && !Replaced(items, a)
    ensures Unchanged(b, [Text(items[0])], Texts(Out(items[1..], Next(a, Texts(items)))) + rest)
  {
    var tail := Texts(Out(items[1..], Next(a, Texts(items)))) + rest;
    var cells := [Text(items[0])] + tail;
    UnchangedOne(b, Text(items[0]), tail);
    if turn && items[0].c.Paren? {
      KeptIsNotSingle(items, a, b, rest);
    } else if Single(b, cells) {
      ItemStays(items[0], turn, ParentOf(b, cells));
    }
  }

  /** The output of a layer that the code cuts by `or` is cut by `or` again. */
  lemma {:induction false} OutKeepsOr(items: seq<Item>, turn: bool, mode: Mode, i: nat) returns (j: nat)
    requires Proper(items, turn) && i < |items| - 1 && Text(items[i]) == "or"
    ensures j < |Out(items, mode)| - 1 && Text(Out(items, mode)[j]) == "or" && (i >= 1 ==> j >= 1)
    decreases |items|
  {
    var rest := items[1..];
    var first, others := OutItem(items, mode), Out(rest, Next(mode, Texts(items)));
    OutProper(rest, !turn, Next(mode, Texts(items)));
    if i == 0 {
      OrIsKept(items, mode);
      j := 0;
    } else {
      OutItemProper(items, turn, mode);
      var k := OutKeepsOr(rest, !turn, Next(mode, Texts(items)), i - 1);
      j := |first| + k;
      assert (first + others)[j] == others[k];
    }
  }

  lemma OutKeepsInner(items: seq<Item>, mode: Mode)
    requires Proper(items, true) && !NoInner(Texts(items), "or")
    ensures !NoInner(Texts(Out(items, mode)), "or")
  {
    var i :| 1 <= i < |Texts(items)| - 1 && Texts(items)[i] == "or";
    var j := OutKeepsOr(items, true, mode, i);
    assert Texts(Out(items, mode))[j] == "or";
  }

  /** An output in parentheses is its own canonical text inside a conjunction. */
  lemma EnclosedStays(out: seq<Item>)
    requires Proper(out, true) && !NoInner(Texts(out), "or") && Unchanged(AtOr, Texts(out), [])
    ensures Canonical(Text(Operand(Paren(Build(out)))), 2) == Text(Operand(Paren(Build(out))))
  {
    var c := Paren(Build(out));
    BuildLayer(out);
    assert |out| > 1;
    CoreOfParen(Build(out));
    hide InnerLayer, Build, NoInner;
    ParenText(c, 2);
    UnchangedPass(AtOr, Texts(out));
    assert Text(Operand(c)) == Enclose(Render(Build(out)));
  }

  lemma CoreOfParen(c: Cst)
    requires !c.Paren?
    ensures InnerLayer(Paren(c)) == Layer(c)
  {
    assert Core(Paren(c)) == Core(c) == c;
  }

  /** A pass over the output never takes an operand that was put in parentheses again for an alternative of its own. */
  lemma ReenclosedBesideAnd(items: seq<Item>, a: Mode, b: Mode, cell: string, rest: seq<string>)
    requires items != [] && Proper(items, true) && Follows(a, b, true)
    requires Single(a, Texts(items)) && ParentOf(a, Texts(items)) == 2
    ensures ParentOf(b, [cell] + (Texts(Out(items[1..], Next(a, Texts(items)))) + rest)) == 2
  {
    var cells, others := Texts(items), items[1..];
    var outs := Texts(Out(others, Next(a, cells)));
    BehindFirst(cell, outs + rest);
    assert cells[1..] == Texts(others);
    if others != [] {
      OutHeads(others, Next(a, cells));
      assert (outs + rest)[0] == outs[0];
    }
  }

  lemma {:induction false} ItemQuiet(items: seq<Item>, turn: bool, a: Mode, b: Mode, rest: seq<string>)
    requires items != [] && Proper(items, turn) && Follows(a, b, turn)
    ensures var cells := Texts(OutItem(items, a));
      var tail := Texts(Out(items[1..], Next(a, Texts(items)))) + rest;
      && Unchanged(b, cells, tail)
      && Follows(Next(a, Texts(items)), ModeAfter(b, cells, tail), !turn)
    decreases ItemsSize(items), |items|, 2
  {
    var tail := Texts(Out(items[1..], Next(a, Texts(items)))) + rest;
    if Replaced(items, a) {
      ReplacedQuiet(items, a, b, rest);
    } else {
      KeptIsUnchanged(items, turn, a, b, rest);
      KeptFollows(items, turn, a, b, rest);
      UnchangedOne(b, Text(items[0]), tail);
      assert Texts([items[0]]) == [Text(items[0])];
    }
  }

  lemma {:induction false} ReplacedQuiet(items: seq<Item>, a: Mode, b: Mode, rest: seq<string>)
    requires items != [] && Proper(items, true) && Follows(a, b, true) && Replaced(items, a)
    ensures var cells := Texts(OutItem(items, a));
      var tail := Texts(Out(items[1..], Next(a, Texts(items)))) + rest;
      && Unchanged(b, cells, tail)
      && Follows(Next(a, Texts(items)), ModeAfter(b, cells, tail), false)
    decreases ItemsSize(items), |items|, 1
  {
    if Reenclosed(items, a) {
      ReenclosedQuiet(items, a, b, rest);
    } else {
      InnerLayerSize(items[0].c);
      InnerLayerOk(items[0].c);
      hide InnerLayer, NoInner, Reenclosed;
      OutQuiet(InnerLayer(items[0].c), true, AtOr, b, Texts(Out(items[1..], Next(a, Texts(items)))) + rest);
    }
  }

  lemma {:induction false} ReenclosedQuiet(items: seq<Item>, a: Mode, b: Mode, rest: seq<string>)
    requires items != [] && Proper(items, true) && Follows(a, b, true) && Replaced(items, a) && Reenclosed(items, a)
    ensures var cells := Texts(OutItem(items, a));
      var tail := Texts(Out(items[1..], Next(a, Texts(items)))) + rest;
      && Unchanged(b, cells, tail)
      && Follows(Next(a, Texts(items)), ModeAfter(b, cells, tail), false)
    decreases ItemsSize(items), |items|, 0
  {
    var tail := Texts(Out(items[1..], Next(a, Texts(items)))) + rest;
    var c := items[0].c;
    var cell := Text(EnclosedOut(c));
    InnerLayerSize(c);
    EnclosedOutStays(c);
    ReenclosedBesideAnd(items, a, b, cell, rest);
    SingleIsNotWithin(items, a);
    UnchangedOne(b, cell, tail);
    OneText(EnclosedOut(c));
  }

  ghost function EnclosedOut(c: Cst): Item {
    Operand(Paren(Build(Out(InnerLayer(c), AtOr))))
  }

  lemma {:induction false} EnclosedOutStays(c: Cst)
    requires WellFormed(c) && !NoInner(Texts(InnerLayer(c)), "or")
    ensures Canonical(Text(EnclosedOut(c)), 2) == Text(EnclosedOut(c))
    decreases ItemsSize(InnerLayer(c)), |InnerLayer(c)|, 4
  {
    var layer := InnerLayer(c);
    InnerLayerOk(c);
    OutProper(layer, true, AtOr);
    OutKeepsInner(layer, AtOr);
    OutQuiet(layer, true, AtOr, AtOr, []);
    hide InnerLayer, NoInner, Build;
    EnclosedStays(Out(layer, AtOr));
  }

  lemma OneText(item: Item)
    ensures Texts([item]) == [Text(item)]
  {}

  lemma SingleIsNotWithin(items: seq<Item>, mode: Mode)
    requires items != [] && Proper(items, true) && Replaced(items, mode)
    ensures Next(mode, Texts(items)) == Within
  {}

  /** Wherever an output stands and whatever follows it, a further pass leaves it alone. */
  lemma {:induction false} OutQuiet(items: seq<Item>, turn: bool, a: Mode, b: Mode, rest: seq<string>)
    requires Proper(items, turn) && Follows(a, b, turn)
    ensures Unchanged(b, Texts(Out(items, a)), rest)
    decreases ItemsSize(items), |items|, 3
  {
    if items != [] {
      var cells, others := Texts(OutItem(items, a)), Out(items[1..], Next(a, Texts(items)));
      ItemQuiet(items, turn, a, b, rest);
      OutQuiet(items[1..], !turn, Next(a, Texts(items)), ModeAfter(b, cells, Texts(others) + rest), rest);
      UnchangedConcat(b, cells, Texts(others), rest);
      TextsConcat(OutItem(items, a), others);
    }
  }

  // ---------------------------------------------------------------- whole expressions

  /** The expression that the canonical text of an expression spells out. */
  ghost function CanonicalCst(c: Cst): Cst {
    Build(Out(InnerLayer(c), AtOr))
  }

  /** It means the same. */
  lemma CanonicalSpells(c: Cst)
    requires WellFormed(c)
    ensures WellFormed(CanonicalCst(c)) && Render(CanonicalCst(c)) == Canonical(Render(c), 0)
    ensures Meaning(CanonicalCst(c)) == Meaning(c)
  {
    var layer := InnerLayer(c);
    InnerLayerOk(c);
    InnerOutMeaning(c);
    OutText(layer, true, AtOr);
    LayerCanonical(layer);
    hide InnerLayer, Build;
    BuildLayer(Out(layer, AtOr));
    BuildMeaning(Out(layer, AtOr));
  }

  /** The canonical text of a layer is what the pass leaves. */
  lemma LayerCanonical(layer: seq<Item>)
    requires layer != [] && Proper(layer, true) && (|layer| == 1 ==> layer[0].c.Atom?)
    ensures Canonical(Join(Texts(layer), AT), 0) == Join(Pass(AtOr, Texts(layer)), AT)
  {
    ProperCells(layer, true);
    if |layer| == 1 { AtomUnwrapped(layer[0]); }
    LayerNotWrapped(Texts(layer));
    LayerText(Texts(layer), 0);
    PassIsRecursion(Texts(layer));
  }
}
