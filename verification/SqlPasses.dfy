/**
  What `_canonicalize_boolean_expression` does to a layer: it replaces some cells
  by their own canonical texts and leaves the others and all words alone. Which
  cells it replaces is decided in one pass from left to right.
*/
module SqlPasses {
  import opened Sequences
  import opened SqlScan
  import opened SqlSegments
  import opened SqlCanonical
  import opened SqlCells

  // ---------------------------------------------------------------- the recursion, on cells

  ghost predicate CellsEven(cells: seq<string>) {
    forall i :: 0 <= i < |cells| ==> Even(cells[i], 0)
  }

  /** A piece between two cuts: one cell is canonicalized, several stay as they are. */
  function Tight(cells: seq<string>): seq<string> {
    if |cells| == 1 then [Canonical(cells[0], 2)] else cells
  }

  function AndPass(cells: seq<string>): seq<string>
    requires cells != []
    decreases |cells|
  {
    InnerBounds(cells, "and");
    var j := Inner(cells, "and");
    if j == |cells| then Tight(cells) else Tight(cells[..j]) + (["and"] + AndPass(cells[j + 1..]))
  }

  function OrPiece(cells: seq<string>): seq<string>
    requires cells != []
  {
    if |cells| == 1 then [Canonical(cells[0], 1)] else AndPass(cells)
  }

  function OrPass(cells: seq<string>): seq<string>
    requires cells != []
    decreases |cells|
  {
    InnerBounds(cells, "or");
    var j := Inner(cells, "or");
    if j == |cells| then OrPiece(cells) else OrPiece(cells[..j]) + (["or"] + OrPass(cells[j + 1..]))
  }

  lemma {:induction false} AndPassNonempty(cells: seq<string>)
    requires cells != []
    ensures |AndPass(cells)| == |cells|
    decreases |cells|
  {
    InnerBounds(cells, "and");
    var j := Inner(cells, "and");
    if j < |cells| { AndPassNonempty(cells[j + 1..]); }
  }

  lemma {:induction false} OrPassNonempty(cells: seq<string>)
    requires cells != []
    ensures |OrPass(cells)| == |cells|
    decreases |cells|
  {
    InnerBounds(cells, "or");
    var j := Inner(cells, "or");
    if j < |cells| {
      if j > 1 { AndPassNonempty(cells[..j]); }
      OrPassNonempty(cells[j + 1..]);
    } else if |cells| > 1 {
      AndPassNonempty(cells);
    }
  }

  lemma LayerNotWrapped(cells: seq<string>)
    requires cells != [] && CellsEven(cells) && (|cells| == 1 ==> !Wrapped(cells[0]))
    ensures Strip(Join(cells, AT)) == Join(cells, AT)
  {
    JoinCells(cells);
    hide After;
    if |cells| > 1 { ContinuedNotWrapped(cells[0], After(cells)); }
    NotWrappedStays(Join(cells, AT));
  }

  lemma NotWrappedStays(s: string)
    requires !Wrapped(s)
    ensures Strip(s) == s
  {}

  /** A text that neither splitter cuts is its own canonical text. */
  lemma UncutCanonical(s: string, parent: nat)
    requires Strip(s) == s && Split(s, OR) == [s] && Split(s, AND) == [s]
    ensures Canonical(s, parent) == s
  {}

  lemma TightText(cells: seq<string>)
    requires cells != [] && Segments(cells, AND) && CellsEven(cells)
    requires NoInner(cells, "and") && NoInner(cells, "or")
    ensures Canonical(Join(cells, AT), 2) == Join(Tight(cells), AT)
  {
    if |cells| > 1 {
      LayerNotWrapped(cells);
      InnerIs(cells, "and");
      InnerIs(cells, "or");
      CellsUncut(cells, OR);
      CellsUncut(cells, AND);
      UncutCanonical(Join(cells, AT), 2);
    }
  }

  lemma CanonicalAllCons(first: string, rest: seq<string>, parent: nat, bound: nat)
    requires |first| < bound && forall i :: 0 <= i < |rest| ==> |rest[i]| < bound
    ensures CanonicalAll([first] + rest, parent, bound) ==
      [Canonical(first, parent)] + CanonicalAll(rest, parent, bound)
  {
    assert ([first] + rest)[1..] == rest;
  }

  /** Pieces canonicalized and joined again, by the marker or cell by cell. */
  lemma JoinPieces(first: string, rest: seq<string>, m: string, head: seq<string>, tail: seq<string>)
    requires IsMarker(m) && rest != [] && head != [] && tail != []
    requires first == Join(head, AT) && Join(rest, m) == Join(tail, AT)
    ensures Join([first] + rest, m) == Join(head + ([WordOf(m)] + tail), AT)
  {
    JoinCons(first, rest, m);
    JoinAround(head, WordOf(m), tail);
    MarkerOfWord(m);
  }

  lemma SubCells(cells: seq<string>, j: nat)
    requires Segments(cells, AND) && CellsEven(cells) && j < |cells|
    ensures Segments(cells[..j], AND) && CellsEven(cells[..j])
    ensures Segments(cells[j + 1..], AND) && CellsEven(cells[j + 1..])
  {}

  lemma SubNoInner(cells: seq<string>, j: nat, word: string)
    requires NoInner(cells, word) && j < |cells|
    ensures NoInner(cells[..j], word) && NoInner(cells[j + 1..], word)
  {}

  ghost predicate Bounded(pieces: seq<string>, bound: nat) {
    forall i :: 0 <= i < |pieces| ==> |pieces[i]| < bound
  }

  /** The pieces of a layer, split at the first inner word. */
  lemma SplitCells(cells: seq<string>, m: string)
    requires IsMarker(m) && cells != [] && Segments(cells, AND)
    ensures var j := Inner(cells, WordOf(m));
      && 1 <= j <= |cells| && (j < |cells| ==> j < |cells| - 1 && cells[j] == WordOf(m))
      && NoInner(cells[..j], WordOf(m)) && (j == |cells| <==> NoInner(cells, WordOf(m)))
      && (j == |cells| ==> Split(Join(cells, AT), m) == [Join(cells, AT)])
      && (j < |cells| ==> Split(Join(cells, AT), m) == [Join(cells[..j], AT)] + Split(Join(cells[j + 1..], AT), m))
  {
    InnerBounds(cells, WordOf(m));
    InnerIs(cells, WordOf(m));
    hide NoInner;
    CellSplit(cells, m);
  }

  lemma {:induction false} AndPieces(cells: seq<string>, bound: nat)
    requires cells != [] && Segments(cells, AND) && CellsEven(cells) && NoInner(cells, "or")
    requires Bounded(Split(Join(cells, AT), AND), bound)
    ensures Join(CanonicalAll(Split(Join(cells, AT), AND), 2, bound), AND) == Join(AndPass(cells), AT)
    decreases |cells|
  {
    var j := Inner(cells, "and");
    var s := Join(cells, AT);
    SplitCells(cells, AND);
    if j == |cells| {
      TightText(cells);
      assert [s] + [] == [s];
      PieceBounds(s, [], bound);
      CanonicalAllCons(s, [], 2, bound);
    } else {
      var head, tail := cells[..j], cells[j + 1..];
      var pieces := Split(Join(tail, AT), AND);
      SubCells(cells, j);
      SubNoInner(cells, j, "or");
      PieceBounds(Join(head, AT), pieces, bound);
      AndPieces(tail, bound);
      TightText(head);
      CanonicalAllCons(Join(head, AT), pieces, 2, bound);
      AndPassNonempty(tail);
      JoinPieces(Canonical(Join(head, AT), 2), CanonicalAll(pieces, 2, bound), AND, Tight(head), AndPass(tail));
    }
  }

  lemma PieceBounds(first: string, rest: seq<string>, bound: nat)
    requires Bounded([first] + rest, bound)
    ensures |first| < bound && Bounded(rest, bound)
  {
    assert ([first] + rest)[0] == first;
    forall i | 0 <= i < |rest| ensures |rest[i]| < bound { assert ([first] + rest)[i + 1] == rest[i]; }
  }

  /** A layer that is not cut by `or`. */
  lemma ConjunctionText(cells: seq<string>, parent: nat)
    requires cells != [] && Segments(cells, AND) && CellsEven(cells) && NoInner(cells, "or") && parent <= 2
    requires |cells| > 1
    ensures CanonicalStripped(Join(cells, AT), parent) == Join(AndPass(cells), AT)
  {
    var s := Join(cells, AT);
    SplitCells(cells, OR);
    SplitCells(cells, AND);
    SplitJoins(s, AND);
    if |Split(s, AND)| > 1 {
      AndPieces(cells, |s|);
    }
  }

  lemma PieceText(cells: seq<string>)
    requires cells != [] && Segments(cells, AND) && CellsEven(cells) && NoInner(cells, "or")
    ensures Canonical(Join(cells, AT), 1) == Join(OrPiece(cells), AT)
  {
    if |cells| > 1 {
      LayerNotWrapped(cells);
      ConjunctionText(cells, 1);
    }
  }

  lemma {:induction false} OrPieces(cells: seq<string>, bound: nat)
    requires cells != [] && Segments(cells, AND) && CellsEven(cells)
    requires Bounded(Split(Join(cells, AT), OR), bound)
    ensures Join(CanonicalAll(Split(Join(cells, AT), OR), 1, bound), OR) == Join(OrPass(cells), AT)
    decreases |cells|
  {
    var j := Inner(cells, "or");
    var s := Join(cells, AT);
    SplitCells(cells, OR);
    if j == |cells| {
      PieceText(cells);
      assert [s] + [] == [s];
      PieceBounds(s, [], bound);
      CanonicalAllCons(s, [], 1, bound);
    } else {
      var head, tail := cells[..j], cells[j + 1..];
      var pieces := Split(Join(tail, AT), OR);
      SubCells(cells, j);
      PieceBounds(Join(head, AT), pieces, bound);
      OrPieces(tail, bound);
      PieceText(head);
      CanonicalAllCons(Join(head, AT), pieces, 1, bound);
      OrPassNonempty(tail);
      if |head| > 1 { AndPassNonempty(head); }
      JoinPieces(Canonical(Join(head, AT), 1), CanonicalAll(pieces, 1, bound), OR, OrPiece(head), OrPass(tail));
    }
  }

  /** The canonical text of a layer; an inner `or` calls for parentheses inside a conjunction. */
  lemma LayerText(cells: seq<string>, parent: nat)
    requires cells != [] && Segments(cells, AND) && CellsEven(cells) && parent <= 2
    requires |cells| == 1 ==> !Wrapped(cells[0])
    ensures CanonicalStripped(Join(cells, AT), parent) ==
      if !NoInner(cells, "or") && parent > 1 then Enclose(Join(OrPass(cells), AT)) else Join(OrPass(cells), AT)
  {
    var s := Join(cells, AT);
    SplitCells(cells, OR);
    SplitJoins(s, OR);
    if !NoInner(cells, "or") {
      OrPieces(cells, |s|);
    } else if |cells| > 1 {
      ConjunctionText(cells, parent);
    } else {
      CellStays(cells[0], parent);
      CellStays(cells[0], 1);
    }
  }

  /** A cell without outer parentheses is its own canonical text. */
  lemma CellStays(cell: string, parent: nat)
    requires Segment(cell, AND, 0, false) && !Wrapped(cell)
    ensures Canonical(cell, parent) == cell && CanonicalStripped(cell, parent) == cell
  {
    SegmentUncut(cell, OR);
    SegmentUncut(cell, AND);
    NotWrappedStays(cell);
  }

  // ---------------------------------------------------------------- the recursion, in one pass

  /** Where a cell stands in its pieces: first of an or-piece, first of an and-piece, or further on. */
  datatype Mode = AtOr | AtAnd | Within

  /** The first of these cells is an or-marker to the code. */
  predicate CutsOr(mode: Mode, cells: seq<string>) {
    |cells| > 1 && mode == Within && cells[0] == "or"
  }

  predicate CutsAnd(mode: Mode, cells: seq<string>) {
    |cells| > 1 && mode == Within && cells[0] == "and" && !CutsOr(Within, cells[1..])
  }

  function Next(mode: Mode, cells: seq<string>): Mode {
    if CutsOr(mode, cells) then AtOr else if CutsAnd(mode, cells) then AtAnd else Within
  }

  /** The first of these cells is a piece of its own. */
  predicate Single(mode: Mode, cells: seq<string>)
    requires cells != []
  {
    mode != Within && (|cells| == 1 || CutsOr(Within, cells[1..]) || CutsAnd(Within, cells[1..]))
  }

  function ParentOf(mode: Mode, cells: seq<string>): (parent: nat)
    requires cells != []
    ensures 1 <= parent <= 2
  {
    if mode == AtOr && (|cells| == 1 || CutsOr(Within, cells[1..])) then 1 else 2
  }

  function PassCell(mode: Mode, cells: seq<string>): string
    requires cells != []
  {
    if Single(mode, cells) then Canonical(cells[0], ParentOf(mode, cells)) else cells[0]
  }

  function Pass(mode: Mode, cells: seq<string>): (texts: seq<string>)
    ensures |texts| == |cells|
    decreases |cells|
  {
    if cells == [] then [] else [PassCell(mode, cells)] + Pass(Next(mode, cells), cells[1..])
  }

  lemma PassCons(mode: Mode, first: string, rest: seq<string>)
    ensures Pass(mode, [first] + rest) ==
      [PassCell(mode, [first] + rest)] + Pass(Next(mode, [first] + rest), rest)
  {
    assert ([first] + rest)[1..] == rest;
  }

  /** Cells that are not cut stay, inside a piece. */
  lemma {:induction false} PassWithin(run: seq<string>, rest: seq<string>)
    requires forall i :: 0 <= i < |run| ==> !CutsOr(Within, run[i..] + rest) && !CutsAnd(Within, run[i..] + rest)
    ensures Pass(Within, run + rest) == run + Pass(Within, rest)
  {
    if run == [] {
      assert run + rest == rest && run + Pass(Within, rest) == Pass(Within, rest);
    } else {
      var tail := run[1..];
      forall i | 0 <= i < |tail|
        ensures !CutsOr(Within, tail[i..] + rest) && !CutsAnd(Within, tail[i..] + rest)
      {
        assert tail[i..] == run[i + 1..];
      }
      PassWithin(tail, rest);
      assert run[0..] + rest == run + rest;
      assert run + rest == [run[0]] + (tail + rest);
      PassCons(Within, run[0], tail + rest);
      Associate([run[0]], tail, Pass(Within, rest));
      assert run == [run[0]] + tail;
    }
  }

  /** What stands behind an or-piece: nothing, or the `or` that ends it. */
  predicate Behind(rest: seq<string>) {
    rest == [] || CutsOr(Within, rest)
  }

  /** A piece between two cuts, its first cell included. */
  lemma TightPass(mode: Mode, cells: seq<string>, rest: seq<string>)
    requires cells != [] && mode != Within
    requires forall i :: 1 <= i < |cells| ==> !CutsOr(Within, cells[i..] + rest) && !CutsAnd(Within, cells[i..] + rest)
    requires rest == [] || CutsOr(Within, rest) || CutsAnd(Within, rest)
    requires |cells| == 1 && mode == AtOr ==> CutsAnd(Within, rest)
    ensures Pass(mode, cells + rest) == Tight(cells) + Pass(Within, rest)
  {
    var first, tail := cells[0], cells[1..];
    forall i | 0 <= i < |tail|
      ensures !CutsOr(Within, tail[i..] + rest) && !CutsAnd(Within, tail[i..] + rest)
    {
      assert tail[i..] == cells[i + 1..];
    }
    PassWithin(tail, rest);
    PassCons(mode, first, tail + rest);
    FirstOf(cells, rest);
    if tail == [] {
      assert tail + rest == rest;
      PieceAlone(mode, first, rest);
    } else {
      assert !CutsOr(Within, tail + rest) && !CutsAnd(Within, tail + rest) by { assert cells[1..] == tail; }
      PieceGoesOn(mode, first, tail + rest);
      Associate([first], tail, Pass(Within, rest));
    }
  }

  lemma FirstOf(cells: seq<string>, rest: seq<string>)
    requires cells != []
    ensures cells + rest == [cells[0]] + (cells[1..] + rest) && cells == [cells[0]] + cells[1..]
  {}

  lemma PieceAlone(mode: Mode, first: string, rest: seq<string>)
    requires mode != Within && (rest == [] || CutsOr(Within, rest) || CutsAnd(Within, rest))
    requires mode == AtOr ==> CutsAnd(Within, rest)
    ensures PassCell(mode, [first] + rest) == Canonical(first, 2) && Next(mode, [first] + rest) == Within
  {
    assert ([first] + rest)[0] == first && ([first] + rest)[1..] == rest;
  }

  lemma PieceGoesOn(mode: Mode, first: string, rest: seq<string>)
    requires mode != Within && rest != [] && !CutsOr(Within, rest) && !CutsAnd(Within, rest)
    ensures PassCell(mode, [first] + rest) == first && Next(mode, [first] + rest) == Within
  {
    assert ([first] + rest)[0] == first && ([first] + rest)[1..] == rest;
  }

  /** Apart from the last cell of a layer, no further cell of an or-piece is `or`. */
  ghost predicate OrFree(cells: seq<string>, rest: seq<string>) {
    forall i :: 1 <= i < |cells| && cells[i] == "or" ==> i == |cells| - 1 && rest == []
  }

  lemma WordAtEnd(cells: seq<string>, rest: seq<string>, i: nat)
    requires Behind(rest) && OrFree(cells, rest) && 1 <= i < |cells|
    ensures !CutsOr(Within, cells[i..] + rest)
    ensures cells[i] != "and" || i == |cells| - 1 ==> !CutsAnd(Within, cells[i..] + rest)
  {
    var s := cells[i..] + rest;
    assert s[0] == cells[i];
    if i == |cells| - 1 { assert s[1..] == rest; }
  }

  lemma AndCutHere(tail: seq<string>, rest: seq<string>)
    requires tail != [] && (tail[0] == "or" ==> |tail| == 1 && rest == [])
    ensures CutsAnd(Within, ["and"] + (tail + rest))
    ensures Pass(Within, ["and"] + (tail + rest)) == ["and"] + Pass(AtAnd, tail + rest)
  {
    var s := ["and"] + (tail + rest);
    assert s[1..] == tail + rest && (tail + rest)[0] == tail[0];
  }

  lemma {:induction false} AndPassIs(mode: Mode, cells: seq<string>, rest: seq<string>)
    requires cells != [] && mode != Within && Behind(rest) && OrFree(cells, rest)
    requires !(|cells| == 1 && mode == AtOr)
    ensures Pass(mode, cells + rest) == AndPass(cells) + Pass(Within, rest)
    decreases |cells|
  {
    var j := Inner(cells, "and");
    InnerBounds(cells, "and");
    InnerIs(cells, "and");
    if j == |cells| {
      forall i | 1 <= i < |cells|
        ensures !CutsOr(Within, cells[i..] + rest) && !CutsAnd(Within, cells[i..] + rest)
      {
        WordAtEnd(cells, rest, i);
      }
      TightPass(mode, cells, rest);
    } else {
      var head, tail := cells[..j], cells[j + 1..];
      var more := ["and"] + (tail + rest);
      AndCutHere(tail, rest);
      forall i | 1 <= i < |head|
        ensures !CutsOr(Within, head[i..] + more) && !CutsAnd(Within, head[i..] + more)
      {
        assert (head[i..] + more)[0] == cells[i];
      }
      TightPass(mode, head, more);
      AndPassIs(AtAnd, tail, rest);
      AroundCells(cells, j, rest);
      FourParts(Tight(head), ["and"], AndPass(tail), Pass(Within, rest));
    }
  }

  lemma AroundCells(cells: seq<string>, j: nat, rest: seq<string>)
    requires j < |cells|
    ensures cells + rest == cells[..j] + ([cells[j]] + (cells[j + 1..] + rest))
  {}

  lemma FourParts<T>(a: seq<T>, b: seq<T>, c: seq<T>, d: seq<T>)
    ensures a + (b + (c + d)) == (a + (b + c)) + d
  {}

  lemma OrPieceIs(cells: seq<string>, rest: seq<string>)
    requires cells != [] && Behind(rest) && OrFree(cells, rest)
    ensures Pass(AtOr, cells + rest) == OrPiece(cells) + Pass(Within, rest)
  {
    if |cells| == 1 {
      assert cells == [cells[0]];
      PassCons(AtOr, cells[0], rest);
      assert (cells + rest)[1..] == rest;
    } else {
      AndPassIs(AtOr, cells, rest);
    }
  }

  /** The recursive splitting is this one pass. */
  lemma {:induction false} PassIsRecursion(cells: seq<string>)
    requires cells != []
    ensures Pass(AtOr, cells) == OrPass(cells)
    decreases |cells|
  {
    var j := Inner(cells, "or");
    InnerBounds(cells, "or");
    InnerIs(cells, "or");
    if j == |cells| {
      OrPieceIs(cells, []);
      assert cells + [] == cells;
      assert OrPiece(cells) + Pass(Within, []) == OrPiece(cells);
    } else {
      var head, tail := cells[..j], cells[j + 1..];
      OrPieceIs(head, ["or"] + tail);
      PassCons(Within, "or", tail);
      assert (["or"] + tail)[1..] == tail;
      PassIsRecursion(tail);
      Around(cells, j);
    }
  }
}
