/**
  A layer of a text is a list of cells with '@' between them, operands and words
  in turn. The splitter cuts at every inner cell that is its word, whichever
  turn it has.
*/
module SqlCells {
  import opened Sequences
  import opened SqlScan
  import opened SqlTrees
  import opened SqlSegments

  const AT := "@"

  function WordOf(m: string): string
    requires IsMarker(m)
  {
    if m == AND then "and" else "or"
  }

  // ---------------------------------------------------------------- cutting cells

  /** The first cell that is the word and has a cell on either side, or the number of cells. */
  function Inner(cells: seq<string>, word: string): nat {
    if |cells| <= 2 then |cells| else if cells[1] == word then 1 else 1 + Inner(cells[1..], word)
  }

  ghost predicate NoInner(cells: seq<string>, word: string) {
    forall i :: 1 <= i < |cells| - 1 ==> cells[i] != word
  }

  lemma {:induction false} InnerIs(cells: seq<string>, word: string)
    ensures var j := Inner(cells, word);
      && j <= |cells|
      && (j < |cells| ==> 1 <= j < |cells| - 1 && cells[j] == word)
      && (j == |cells| <==> NoInner(cells, word))
      && NoInner(cells[..j], word)
      && (forall i :: 1 <= i < j && i < |cells| - 1 ==> cells[i] != word)
  {
    if |cells| > 2 && cells[1] != word {
      var tail := cells[1..];
      InnerIs(tail, word);
      var j := Inner(tail, word);
      assert forall i :: 1 <= i < |tail| - 1 ==> tail[i] == cells[i + 1];
      if !NoInner(tail, word) {
        assert j < |tail| && cells[j + 1] == word;
      }
      forall i | 1 <= i < j ensures cells[i] != word {
        if i > 1 { assert tail[..j][i - 1] == cells[i]; }
      }
    }
  }

  /** Whether a marker starts right behind a cell. */
  lemma MarkerBehind(cells: seq<string>, m: string)
    requires IsMarker(m) && cells != [] && Segments(cells, AND)
    ensures m <= AT + Join(cells, AT) <==> cells[0] == WordOf(m) && |cells| > 1
  {
    hide IsMarker, WordOf;
    JoinCells(cells);
    WordStarts(cells[0], After(cells), m);
  }

  /** The text behind the first cell. */
  function After(cells: seq<string>): string
    requires cells != []
  {
    if |cells| == 1 then [] else AT + Join(cells[1..], AT)
  }

  lemma JoinCells(cells: seq<string>)
    requires cells != []
    ensures Join(cells, AT) == cells[0] + After(cells)
    ensures After(cells) == [] <==> |cells| == 1
    ensures After(cells) != [] ==> After(cells)[0] == '@'
  {
    if |cells| > 1 { Associate(cells[0], AT, Join(cells[1..], AT)); }
  }

  lemma WordStarts(cell: string, rest: string, m: string)
    requires IsMarker(m) && Segment(cell, AND, 0, false) && (rest == [] || rest[0] == '@')
    ensures m <= AT + (cell + rest) <==> cell == WordOf(m) && rest != []
  {
    var s := AT + (cell + rest);
    CellLetters(cell);
    assert forall i :: 0 <= i < |cell| ==> s[i + 1] == cell[i];
    if rest != [] { assert s[|cell| + 1] == '@'; }
    if m <= s {
      assert s[..|m|] == m && m[0] == '@';
      assert forall i :: 0 <= i < |m| ==> s[i] == m[i];
    }
    if cell == WordOf(m) && rest != [] {
      assert s[..|m|] == m;
    }
  }

  /** A cell holds no '@' behind letters only. */
  lemma CellLetters(t: string)
    requires Segment(t, AND, 0, false)
    ensures |t| >= 1 ==> t[0] != '@'
    ensures |t| >= 2 && (t[0] == 'o' || t[0] == 'a') ==> t[1] != '@'
    ensures |t| >= 3 && (t[0] == 'o' || t[0] == 'a') && (t[1] == 'r' || t[1] == 'n') ==> t[2] != '@'
    ensures |t| >= 4 && t[0] == 'a' && t[1] == 'n' && t[2] == 'd' ==> t[3] != '@'
  {
    if |t| >= 2 && (t[0] == 'o' || t[0] == 'a') {
      assert Segment(t[1..], AND, 0, false);
      if |t| >= 3 && (t[1] == 'r' || t[1] == 'n') {
        assert t[1..][1..] == t[2..] && Segment(t[2..], AND, 0, false);
        if |t| >= 4 && t[2] == 'd' { assert t[2..][1..] == t[3..] && Segment(t[3..], AND, 0, false); }
      }
    }
  }

  lemma CutAt(rest: string, m: string)
    requires IsMarker(m)
    ensures Cut(AT + rest, m, 0, false) == if m <= AT + rest then 0 else 1 + Cut(rest, m, 0, false)
  {
    assert (AT + rest)[0] == '@' && (AT + rest)[1..] == rest;
  }

  /** The splitter cuts before the first inner cell that is its word. */
  lemma {:induction false} CellCut(cells: seq<string>, m: string)
    requires IsMarker(m) && cells != [] && Segments(cells, AND)
    ensures var j := Inner(cells, WordOf(m));
      && j <= |cells| && (j == 0 ==> |cells| == 0)
      && Cut(Join(cells, AT), m, 0, false) == |Join(cells[..j], AT)|
    decreases |cells|
  {
    InnerIs(cells, WordOf(m));
    if |cells| == 1 {
      SegmentUncut(cells[0], m);
      assert cells[..1] == cells;
    } else {
      var tail := cells[1..];
      var rest := Join(tail, AT);
      assert Join(cells, AT) == cells[0] + (AT + rest);
      CutOver(cells[0], m, AT + rest, 0, false);
      CutAt(rest, m);
      MarkerBehind(tail, m);
      if |cells| > 2 && tail[0] == WordOf(m) {
        assert cells[..1] == [cells[0]];
      } else {
        CellCut(tail, m);
        InnerIs(tail, WordOf(m));
        InnerTail(cells, WordOf(m));
        JoinFront(cells, 1 + Inner(tail, WordOf(m)));
      }
    }
  }

  lemma InnerTail(cells: seq<string>, word: string)
    requires |cells| > 1 && !(|cells| > 2 && cells[1] == word)
    ensures Inner(cells, word) == 1 + Inner(cells[1..], word)
  {}

  lemma JoinFront(cells: seq<string>, j: nat)
    requires 1 < j <= |cells|
    ensures Join(cells[..j], AT) == cells[0] + AT + Join(cells[1..][..j - 1], AT)
  {
    assert cells[..j][1..] == cells[1..][..j - 1];
  }

  function PiecesAt(cells: seq<string>, m: string, j: nat): seq<string>
    requires IsMarker(m) && j < |cells|
  {
    [Join(cells[..j], AT)] + Split(Join(cells[j + 1..], AT), m)
  }

  /** How a layer is split: at the first inner word, and then what follows it. */
  function PiecesOf(cells: seq<string>, m: string): seq<string>
    requires IsMarker(m) && cells != []
  {
    InnerBounds(cells, WordOf(m));
    var j := Inner(cells, WordOf(m));
    if j == |cells| then [Join(cells, AT)] else PiecesAt(cells, m, j)
  }

  lemma CellSplit(cells: seq<string>, m: string)
    requires IsMarker(m) && cells != [] && Segments(cells, AND)
    ensures Split(Join(cells, AT), m) == PiecesOf(cells, m)
  {
    hide IsMarker, WordOf, Segments, PiecesAt;
    InnerBounds(cells, WordOf(m));
    if Inner(cells, WordOf(m)) == |cells| {
      CellsUncut(cells, m);
    } else {
      CellCut(cells, m);
      SplitAtCell(cells, m, Inner(cells, WordOf(m)));
    }
  }

  lemma InnerBounds(cells: seq<string>, word: string)
    requires cells != []
    ensures var j := Inner(cells, word);
      1 <= j <= |cells| && (j < |cells| ==> j < |cells| - 1 && cells[j] == word)
  {
    InnerIs(cells, word);
  }

  lemma CellsUncut(cells: seq<string>, m: string)
    requires IsMarker(m) && cells != [] && Segments(cells, AND) && Inner(cells, WordOf(m)) == |cells|
    ensures Split(Join(cells, AT), m) == [Join(cells, AT)]
  {
    CellCut(cells, m);
    WholePrefix(cells);
    UncutText(Join(cells, AT), m);
  }

  lemma SplitAtCell(cells: seq<string>, m: string, j: nat)
    requires IsMarker(m) && 1 <= j < |cells| - 1 && cells[j] == WordOf(m)
    requires Cut(Join(cells, AT), m, 0, false) == |Join(cells[..j], AT)|
    ensures Split(Join(cells, AT), m) == PiecesAt(cells, m, j)
  {
    JoinThreeCells(cells, j);
    MarkerOfWord(m);
    hide IsMarker, WordOf;
    SplitAtMarker(Join(cells, AT), m, Join(cells[..j], AT), Join(cells[j + 1..], AT));
  }

  lemma UncutText(s: string, m: string)
    requires m != [] && Cut(s, m, 0, false) == |s|
    ensures Split(s, m) == [s]
  {}

  lemma MarkerOfWord(m: string)
    requires IsMarker(m)
    ensures AT + WordOf(m) + AT == m
  {}

  lemma SplitAtMarker(s: string, m: string, head: string, tail: string)
    requires m != [] && s == head + m + tail && Cut(s, m, 0, false) == |head|
    ensures Split(s, m) == [head] + Split(tail, m)
  {
    JoinHead(head, m, tail);
    SplitUnfold(s, m, |head|, head, tail);
  }

  lemma FiveParts(a: string, b: string, c: string)
    ensures a + AT + (b + AT + c) == a + (AT + b + AT) + c
  {}

  lemma JoinAround(head: seq<string>, cell: string, tail: seq<string>)
    requires head != [] && tail != []
    ensures Join(head + ([cell] + tail), AT) == Join(head, AT) + (AT + cell + AT) + Join(tail, AT)
  {
    JoinConcat(head, [cell] + tail, AT);
    JoinCons(cell, tail, AT);
    FiveParts(Join(head, AT), cell, Join(tail, AT));
  }

  lemma JoinThreeCells(cells: seq<string>, j: nat)
    requires 1 <= j < |cells| - 1
    ensures Join(cells, AT) == Join(cells[..j], AT) + (AT + cells[j] + AT) + Join(cells[j + 1..], AT)
  {
    Around(cells, j);
    JoinAround(cells[..j], cells[j], cells[j + 1..]);
  }
}
