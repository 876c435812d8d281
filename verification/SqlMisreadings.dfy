/**
  When the code reads a well-formed expression as what it means. Its splitter
  tests for a marker at every character, so the last character of an and-marker,
  a bare `or` and the first character of the next marker look like an or-marker.
*/
module SqlMisreadings {
  import opened Sequences
  import opened SqlScan
  import opened SqlTrees
  import opened SqlSegments
  import opened SqlCanonical

  /**
    Somewhere in the expression the operand `or` stands directly behind an `and`
    and directly before a connective of its own layer. The flags say what stands
    beside the expression.
  */
  predicate Misread(c: Cst, behindAnd: bool, followed: bool)
    decreases c
  {
    match c
    case Atom(text) => behindAnd && followed && text == "or"
    case Paren(inner) => Misread(inner, false, false)
    case And(parts) =>
      exists i :: 0 <= i < |parts| && Misread(parts[i], i > 0, i + 1 < |parts| || followed)
    case Or(parts) =>
      exists i :: 0 <= i < |parts| && Misread(parts[i], false, i + 1 < |parts|)
  }

  // ---------------------------------------------------------------- cutting a conjunction

  /** A later operand is `or`, and a marker follows it. */
  ghost predicate Overlaps(operands: seq<string>, followed: bool) {
    exists i :: 1 <= i < |operands| && operands[i] == "or" && (i + 1 < |operands| || followed)
  }

  /** An and-marker is passed over unless its last character starts an or-marker. */
  lemma CutOverAnd(rest: string)
    ensures Cut(AND + rest, OR, 0, false) == if "or@" <= rest then 4 else 5 + Cut(rest, OR, 0, false)
  {
    var s := AND + rest;
    var s1, s2, s3, s4 := s[1..], s[2..], s[3..], s[4..];
    assert s1[1..] == s2 && s2[1..] == s3 && s3[1..] == s4 && s4[1..] == rest;
    assert s[0] == '@' && s1[0] == 'a' && s2[0] == 'n' && s3[0] == 'd' && s4[0] == '@';
    assert !(OR <= s) && !(OR <= s1) && !(OR <= s2) && !(OR <= s3) by { assert s[1] == 'a'; }
    LastOfAnd(s4, rest);
    assert Cut(s3, OR, 0, false) == 1 + Cut(s4, OR, 0, false);
    assert Cut(s1, OR, 0, false) == 3 + Cut(s4, OR, 0, false);
  }

  lemma LastOfAnd(s: string, rest: string)
    requires s == ['@'] + rest
    ensures OR <= s <==> "or@" <= rest
    ensures Cut(s, OR, 0, false) == if "or@" <= rest then 0 else 1 + Cut(rest, OR, 0, false)
  {
    StartsOr(rest);
    assert s[1..] == rest;
    if OR <= s { assert s[..4] == OR; assert s[1] == 'o' && s[2] == 'r' && s[3] == '@'; }
    if "or@" <= rest { assert s[..4] == OR; }
  }

  lemma StartsOr(s: string)
    ensures "or@" <= s <==> |s| >= 3 && s[0] == 'o' && s[1] == 'r' && s[2] == '@'
  {}

  /** An operand and what follows start an overlapping or-marker exactly if it is `or` and a marker follows. */
  lemma OperandStartsOr(operand: string, rest: string)
    requires Segment(operand, AND, 0, false) && (rest == [] || rest[0] == '@')
    ensures "or@" <= operand + rest <==> operand == "or" && rest != []
  {
    var s := operand + rest;
    StartsOr(s);
    SegmentThird(operand);
    if |operand| == 2 && rest != [] { assert s[2] == rest[0]; }
    if operand != [] && rest != [] { assert s[|operand|] == '@'; }
  }

  lemma SegmentThird(t: string)
    requires Segment(t, AND, 0, false)
    ensures |t| >= 1 ==> t[0] != '@'
    ensures |t| >= 2 && t[0] == 'o' ==> t[1] != '@'
    ensures |t| >= 3 && t[0] == 'o' && t[1] == 'r' ==> t[2] != '@'
  {
    if |t| >= 2 && t[0] == 'o' { assert Segment(t[1..], AND, 0, false); }
    if |t| >= 3 && t[0] == 'o' && t[1] == 'r' {
      assert t[1..][1..] == t[2..];
      assert Segment(t[2..], AND, 0, false);
    }
  }

  /** What follows a conjunction's first operand. */
  function Behind(operands: seq<string>, rest: string): string
    requires operands != []
  {
    if |operands| == 1 then rest else AND + (Join(operands[1..], AND) + rest)
  }

  lemma JoinBehind(operands: seq<string>, rest: string)
    requires operands != []
    ensures Join(operands, AND) + rest == operands[0] + Behind(operands, rest)
  {
    if |operands| > 1 {
      var tail := Join(operands[1..], AND);
      Associate(operands[0], AND, tail);
      Associate(operands[0], AND + tail, rest);
      Associate(AND, tail, rest);
    }
  }

  /** Without an overlap the or-splitter passes over the whole conjunction. */
  lemma {:induction false} ConjunctionCut(operands: seq<string>, rest: string)
    requires operands != [] && Segments(operands, AND) && (rest == [] || OR <= rest)
    requires !Overlaps(operands, rest != [])
    ensures Cut(Join(operands, AND) + rest, OR, 0, false) == |Join(operands, AND)|
  {
    JoinBehind(operands, rest);
    CutOver(operands[0], OR, Behind(operands, rest), 0, false);
    if |operands| == 1 {
      CutAtRest(rest);
    } else {
      var tail := operands[1..];
      OverlapsTail(operands, rest != []);
      NoOverlapNext(operands, rest);
      CutOverAnd(Join(tail, AND) + rest);
      ConjunctionCut(tail, rest);
    }
  }

  lemma CutAtRest(rest: string)
    requires rest == [] || OR <= rest
    ensures Cut(rest, OR, 0, false) == 0
  {
    if rest != [] {
      assert rest == OR + rest[4..];
      MarkerCut(OR, rest[4..]);
    }
  }

  lemma OverlapsTail(operands: seq<string>, followed: bool)
    requires |operands| > 1
    ensures Overlaps(operands, followed) <==>
      || (operands[1] == "or" && (|operands| > 2 || followed))
      || Overlaps(operands[1..], followed)
  {
    if Overlaps(operands, followed) {
      var i :| 1 <= i < |operands| && operands[i] == "or" && (i + 1 < |operands| || followed);
      if i > 1 { assert operands[1..][i - 1] == "or"; }
    }
    if Overlaps(operands[1..], followed) {
      var i :| 1 <= i < |operands[1..]| && operands[1..][i] == "or" && (i + 1 < |operands[1..]| || followed);
      assert operands[i + 1] == "or";
    }
  }

  /** The or-marker overlaps the first and-marker exactly if the second operand is `or` and a marker follows it. */
  lemma OverlapNext(operands: seq<string>, rest: string)
    requires |operands| > 1 && Segments(operands, AND) && (rest == [] || OR <= rest)
    ensures "or@" <= Join(operands[1..], AND) + rest <==> operands[1] == "or" && (|operands| > 2 || rest != [])
  {
    var tail := operands[1..];
    JoinBehind(tail, rest);
    if |tail| > 1 { assert Behind(tail, rest)[0] == '@'; }
    OperandStartsOr(tail[0], Behind(tail, rest));
  }

  lemma NoOverlapNext(operands: seq<string>, rest: string)
    requires |operands| > 1 && Segments(operands, AND) && (rest == [] || OR <= rest)
    requires !Overlaps(operands, rest != [])
    ensures !("or@" <= Join(operands[1..], AND) + rest)
  {
    OverlapsTail(operands, rest != []);
    OverlapNext(operands, rest);
  }

  /** The text before an overlapping or-marker: some of the operands, and an and-marker without its last character. */
  function Head(operands: seq<string>): string { Join(operands, AND) + "@and" }

  /** How the or-splitter passes over the first operand and its and-marker. */
  lemma CutFirst(operands: seq<string>, rest: string)
    requires |operands| > 1 && Segments(operands, AND)
    ensures var next := Join(operands[1..], AND) + rest;
      && Join(operands, AND) + rest == operands[0] + (AND + next)
      && Cut(Join(operands, AND) + rest, OR, 0, false) ==
           |operands[0]| + if "or@" <= next then 4 else 5 + Cut(next, OR, 0, false)
  {
    JoinBehind(operands, rest);
    var next := Join(operands[1..], AND) + rest;
    CutOver(operands[0], OR, AND + next, 0, false);
    CutOverAnd(next);
  }

  lemma HeadOfOne(operands: seq<string>, next: string)
    requires operands != []
    ensures Head(operands[..1]) == operands[0] + "@and" <= operands[0] + (AND + next)
  {
    assert Join(operands[..1], AND) == operands[0];
    PrefixOfSum(operands[0], AND, next, 4);
  }

  /** The splitter cuts the text behind this head. */
  ghost predicate CutsBehind(s: string, head: string) {
    |head| < |s| && Cut(s, OR, 0, false) == |head| && s[..|head|] == head
  }

  /** With an overlap the or-splitter cuts the conjunction behind a shorter one. */
  lemma {:induction false} OverlapCut(operands: seq<string>, rest: string) returns (i: nat)
    requires operands != [] && Segments(operands, AND) && (rest == [] || OR <= rest)
    requires Overlaps(operands, rest != [])
    ensures 1 <= i < |operands| && CutsBehind(Join(operands, AND) + rest, Head(operands[..i]))
  {
    assert |operands| > 1;
    OverlapsTail(operands, rest != []);
    OverlapNext(operands, rest);
    hide Overlaps, CutsBehind;
    var next := Join(operands[1..], AND) + rest;
    if "or@" <= next {
      i := 1;
      CutsFirst(operands, rest);
    } else {
      assert Segments(operands[1..], AND);
      var j := OverlapCut(operands[1..], rest);
      i := j + 1;
      CutsLater(operands, rest, i);
    }
  }

  lemma CutsFirst(operands: seq<string>, rest: string)
    requires |operands| > 1 && Segments(operands, AND) && "or@" <= Join(operands[1..], AND) + rest
    ensures CutsBehind(Join(operands, AND) + rest, Head(operands[..1]))
  {
    CutFirst(operands, rest);
    HeadOfOne(operands, Join(operands[1..], AND) + rest);
  }

  lemma CutsLater(operands: seq<string>, rest: string, i: nat)
    requires 2 <= i < |operands| && Segments(operands, AND) && !("or@" <= Join(operands[1..], AND) + rest)
    requires CutsBehind(Join(operands[1..], AND) + rest, Head(operands[1..][..i - 1]))
    ensures CutsBehind(Join(operands, AND) + rest, Head(operands[..i]))
  {
    CutFirst(operands, rest);
    HeadBehind(operands, i, Join(operands[1..], AND) + rest);
  }

  lemma HeadBehind(operands: seq<string>, i: nat, next: string)
    requires 2 <= i <= |operands| && Head(operands[1..][..i - 1]) <= next
    ensures Head(operands[..i]) <= operands[0] + (AND + next)
    ensures |Head(operands[..i])| == |operands[0]| + 5 + |Head(operands[1..][..i - 1])|
  {
    HeadLonger(operands, i);
    assert operands[1..][..i - 1] == operands[..i][1..];
    PrefixBehind(operands[0] + AND, next, |Head(operands[1..][..i - 1])|);
    Associate(operands[0], AND, next);
  }

  lemma PrefixOfSum(a: string, b: string, c: string, n: nat)
    requires n <= |b|
    ensures (a + (b + c))[..|a| + n] == a + b[..n]
  {}

  lemma PrefixBehind(a: string, b: string, n: nat)
    requires n <= |b|
    ensures (a + b)[..|a| + n] == a + b[..n]
  {}

  lemma HeadLonger(operands: seq<string>, i: nat)
    requires 2 <= i <= |operands|
    ensures Head(operands[..i]) == (operands[0] + AND) + Head(operands[..i][1..])
  {
    var front := operands[..i];
    var tail := Join(front[1..], AND);
    assert Join(front, AND) == operands[0] + AND + tail;
    Associate(operands[0] + AND, tail, "@and");
  }

  // ---------------------------------------------------------------- what such a head is read as

  /** The head of a conjunction is split by `and` into no more operands than it has. */
  lemma {:induction false} HeadSplit(operands: seq<string>)
    requires operands != [] && Segments(operands, AND)
    ensures |Split(Head(operands), AND)| == |operands|
  {
    if |operands| == 1 {
      CutOver(operands[0], AND, "@and", 0, false);
      StumpUncut(AND);
      assert Cut(Head(operands), AND, 0, false) == |Head(operands)|;
    } else {
      HeadSplit(operands[1..]);
      HeadLonger(operands, |operands|);
      assert operands[..|operands|] == operands;
      SplitFirst(operands[0], AND, Head(operands[1..]));
    }
  }

  lemma StumpUncut(m: string)
    requires IsMarker(m)
    ensures Cut("@and", m, 0, false) == 4
  {
    var s := "@and";
    assert s[1] == 'a' && m[0] == '@';
    assert s[1..] == "and" && s[1..][1..] == "nd" && s[1..][1..][1..] == "d" && s[1..][1..][1..][1..] == "";
  }

  /** So it is never read as a conjunction with more operands. */
  lemma HeadIsRead(operands: seq<string>, t: Tree)
    requires operands != [] && Segments(operands, AND)
    requires t.All? && |t.parts| > |operands|
    ensures Read(Head(operands)) != t
  {
    var s := Head(operands);
    assert s[|s| - 1] == 'd';
    assert Strip(s) == s;
    HeadSplit(operands);
  }

  // ---------------------------------------------------------------- the operands of an alternative

  /** An alternative as a conjunction of one or more operands. */
  function Operands(c: Cst): (parts: seq<Cst>)
    ensures parts != [] || c.And?
  {
    if c.And? then c.parts else [c]
  }

  lemma OperandsRendered(c: Cst)
    requires WellFormed(c) && !c.Or?
    ensures Operands(c) != [] && Segments(RenderAll(Operands(c)), AND)
    ensures Render(c) == Join(RenderAll(Operands(c)), AND)
  {
    if c.And? {
      RenderAllReads(c.parts);
    } else {
      RenderReads(c);
      assert RenderAll([c]) == [Render(c)] + RenderAll([c][1..]);
      assert RenderAll([c]) == [Render(c)];
    }
  }

  lemma {:induction false} RenderAllAt(parts: seq<Cst>, i: nat)
    requires i < |parts|
    ensures RenderAll(parts)[i] == Render(parts[i])
  {
    if i > 0 { RenderAllAt(parts[1..], i - 1); }
  }

  lemma {:induction false} RawAllAt(parts: seq<Cst>, i: nat)
    requires i < |parts|
    ensures RawAll(parts)[i] == Raw(parts[i])
  {
    if i > 0 { RawAllAt(parts[1..], i - 1); }
  }

  lemma RenderedOr(c: Cst)
    requires c.Atom? || c.Paren?
    ensures Render(c) == "or" <==> c == Atom("or")
  {
    if c.Paren? { assert Render(c)[0] == '('; }
  }

  /** An alternative is misread by an overlap at its own layer, or inside the parentheses of an operand. */
  lemma MisreadOperands(c: Cst, followed: bool)
    requires WellFormed(c) && !c.Or?
    ensures Misread(c, false, followed) <==>
      Overlaps(RenderAll(Operands(c)), followed) || Misread(c, false, false)
  {
    if c.And? {
      var operands := RenderAll(c.parts);
      forall i | 0 <= i < |c.parts| && operands[i] == "or" ensures c.parts[i] == Atom("or") {
        RenderAllAt(c.parts, i);
        RenderedOr(c.parts[i]);
      }
      forall i | 0 <= i < |c.parts| && c.parts[i].Atom? ensures operands[i] == c.parts[i].text {
        RenderAllAt(c.parts, i);
      }
    } else {
      OperandsRendered(c);
    }
  }

  // ---------------------------------------------------------------- reading a rendered expression

  /** Parts are read right exactly if each is. */
  lemma PartsReadIff(parts: seq<Cst>, bound: nat)
    requires forall i :: 0 <= i < |parts| ==> |RenderAll(parts)[i]| < bound
    ensures ReadAll(RenderAll(parts), bound) == RawAll(parts) <==>
      forall i :: 0 <= i < |parts| ==> Read(Render(parts[i])) == Raw(parts[i])
  {
    var read := ReadAll(RenderAll(parts), bound);
    forall i | 0 <= i < |parts|
      ensures read[i] == Read(Render(parts[i])) && RawAll(parts)[i] == Raw(parts[i])
    {
      RenderAllAt(parts, i);
      RawAllAt(parts, i);
    }
    if forall i :: 0 <= i < |parts| ==> Read(Render(parts[i])) == Raw(parts[i]) {
      assert forall i :: 0 <= i < |parts| ==> read[i] == RawAll(parts)[i];
    }
  }

  /** A conjunction without an overlap at its own layer is misread exactly inside one of its operands. */
  lemma MisreadInside(parts: seq<Cst>)
    requires WellFormed(And(parts)) && !Overlaps(RenderAll(parts), false)
    ensures Misread(And(parts), false, false) <==>
      exists i :: 0 <= i < |parts| && Misread(parts[i], false, false)
  {
    forall i | 0 <= i < |parts|
      ensures Misread(parts[i], i > 0, i + 1 < |parts|) <==> Misread(parts[i], false, false)
    {
      RenderAllAt(parts, i);
    }
    if Misread(And(parts), false, false) {
      var i :| 0 <= i < |parts| && Misread(parts[i], i > 0, i + 1 < |parts| || false);
      assert Misread(parts[i], false, false);
    }
    if i :| 0 <= i < |parts| && Misread(parts[i], false, false) {
      assert Misread(parts[i], i > 0, i + 1 < |parts| || false);
    }
  }

  lemma OverlappedIsAny(s: string, k: nat)
    requires Strip(s) == s && k < |s| && Cut(s, OR, 0, false) == k
    ensures Read(s).Any?
  {}

  lemma ReadsAsAll(s: string, parts: seq<string>)
    requires Strip(s) == s && Split(s, OR) == [s] && Split(s, AND) == parts && |parts| > 1
    requires forall i :: 0 <= i < |parts| ==> |parts[i]| < |s|
    ensures Read(s) == All(ReadAll(parts, |s|))
  {}

  /** The code reads a well-formed expression as what it means exactly if no such operand `or` stands in it. */
  lemma {:induction false} ReadRenderIff(c: Cst)
    requires WellFormed(c)
    ensures Read(Render(c)) == Raw(c) <==> !Misread(c, false, false)
    decreases c, 2
  {
    RenderReads(c);
    var s := Render(c);
    match c
    case Atom(text) =>
      SegmentUncut(s, OR);
      SegmentUncut(s, AND);
    case Paren(inner) =>
      RenderReads(inner);
      ReadRenderIff(inner);
      EncloseStripsIff(Render(inner));
    case And(parts) => ConjunctionReadIff(parts);
    case Or(parts) =>
      SplitJoins(s, OR);
      OrSplits(parts);
      AlternativesReadIff(parts, |s|);
  }

  lemma {:induction false} ConjunctionReadIff(parts: seq<Cst>)
    requires WellFormed(And(parts))
    ensures Read(Render(And(parts))) == Raw(And(parts)) <==> !Misread(And(parts), false, false)
    decreases And(parts), 1
  {
    var c := And(parts);
    var s, operands := Render(c), RenderAll(parts);
    RenderReads(c);
    OperandsRendered(c);
    MisreadOperands(c, false);
    assert s + [] == s;
    if Overlaps(operands, false) {
      var i := OverlapCut(operands, []);
      OverlappedIsAny(s, |Head(operands[..i])|);
    } else {
      ConjunctionCut(operands, []);
      SplitJoined(operands, AND);
      SplitJoins(s, AND);
      ReadsAsAll(s, operands);
      PartsReadIff(parts, |s|);
      MisreadInside(parts);
      EachReadIff(parts);
    }
  }

  lemma {:induction false} EachReadIff(parts: seq<Cst>)
    requires AllWellFormed(parts)
    ensures forall i :: 0 <= i < |parts| ==>
      (Read(Render(parts[i])) == Raw(parts[i]) <==> !Misread(parts[i], false, false))
    decreases parts, 0
  {
    forall i | 0 <= i < |parts|
      ensures Read(Render(parts[i])) == Raw(parts[i]) <==> !Misread(parts[i], false, false)
    {
      ReadRenderIff(parts[i]);
    }
  }

  /** An alternative that another one follows. */
  lemma AlternativeSplit(c: Cst, tail: string)
    requires WellFormed(c) && !c.Or?
    ensures !Overlaps(RenderAll(Operands(c)), true) ==>
      Split(Render(c) + OR + tail, OR) == [Render(c)] + Split(tail, OR)
    ensures Overlaps(RenderAll(Operands(c)), true) ==> Read(Split(Render(c) + OR + tail, OR)[0]) != Raw(c)
    ensures |Split(Render(c) + OR + tail, OR)| > 1
  {
    OperandsRendered(c);
    var operands := RenderAll(Operands(c));
    JoinHead(Render(c), OR, tail);
    if Overlaps(operands, true) {
      var i := OverlapCut(operands, OR + tail);
      HeadMisread(c, i);
    } else {
      ConjunctionCut(operands, OR + tail);
      SplitUnfold(Render(c) + OR + tail, OR, |Render(c)|, Render(c), tail);
    }
  }

  lemma HeadMisread(c: Cst, i: nat)
    requires WellFormed(c) && !c.Or? && 1 <= i < |RenderAll(Operands(c))|
    ensures Read(Head(RenderAll(Operands(c))[..i])) != Raw(c)
  {
    OperandsRendered(c);
    var operands := RenderAll(Operands(c));
    assert c.And?;
    RawAllLength(c.parts);
    HeadIsRead(operands[..i], Raw(c));
  }

  lemma RawAllLength(parts: seq<Cst>)
    ensures |RawAll(parts)| == |parts|
  {}

  lemma OrSplits(parts: seq<Cst>)
    requires WellFormed(Or(parts))
    ensures |Split(Render(Or(parts)), OR)| > 1
  {
    assert RenderAll(parts)[1..] == RenderAll(parts[1..]);
    AlternativeSplit(parts[0], Join(RenderAll(parts[1..]), OR));
  }

  /** The last alternative. */
  lemma LastAlternative(c: Cst)
    requires WellFormed(c) && !c.Or?
    ensures !Overlaps(RenderAll(Operands(c)), false) ==> Split(Render(c), OR) == [Render(c)]
    ensures Overlaps(RenderAll(Operands(c)), false) ==> |Split(Render(c), OR)| > 1
  {
    OperandsRendered(c);
    var operands := RenderAll(Operands(c));
    assert Render(c) + [] == Render(c);
    if Overlaps(operands, false) {
      var i := OverlapCut(operands, []);
    } else {
      ConjunctionCut(operands, []);
    }
  }

  lemma MisreadFirst(parts: seq<Cst>)
    requires parts != []
    ensures Misread(Or(parts), false, false) <==>
      || Misread(parts[0], false, |parts| > 1)
      || (|parts| > 1 && Misread(Or(parts[1..]), false, false))
  {
    var tail := parts[1..];
    if Misread(Or(parts), false, false) {
      var i :| 0 <= i < |parts| && Misread(parts[i], false, i + 1 < |parts|);
      if i > 0 { assert Misread(tail[i - 1], false, i - 1 + 1 < |tail|); }
    }
    if Misread(Or(tail), false, false) {
      var i :| 0 <= i < |tail| && Misread(tail[i], false, i + 1 < |tail|);
      assert Misread(parts[i + 1], false, i + 1 + 1 < |parts|);
    }
    if Misread(parts[0], false, |parts| > 1) { assert Misread(parts[0], false, 0 + 1 < |parts|); }
  }

  ghost predicate Bounded(pieces: seq<string>, bound: nat) {
    forall i :: 0 <= i < |pieces| ==> |pieces[i]| < bound
  }

  lemma ConsReadIff(first: Cst, rest: seq<Cst>, pieces: seq<string>, bound: nat)
    requires Bounded(pieces, bound) && pieces != []
    ensures ReadAll(pieces, bound) == RawAll([first] + rest) <==>
      Read(pieces[0]) == Raw(first) && ReadAll(pieces[1..], bound) == RawAll(rest)
  {
    assert ([first] + rest)[1..] == rest;
    assert ReadAll(pieces, bound) == [Read(pieces[0])] + ReadAll(pieces[1..], bound);
    ConsEqual(Read(pieces[0]), ReadAll(pieces[1..], bound), Raw(first), RawAll(rest));
  }

  lemma ConsEqual<T>(a: T, s: seq<T>, b: T, t: seq<T>)
    ensures [a] + s == [b] + t <==> a == b && s == t
  {
    if [a] + s == [b] + t {
      assert ([a] + s)[0] == a && ([b] + t)[0] == b;
      assert ([a] + s)[1..] == s && ([b] + t)[1..] == t;
    }
  }

  /** Alternatives, from some alternative on, are read right exactly if none is misread. */
  lemma {:induction false} AlternativesReadIff(parts: seq<Cst>, bound: nat)
    requires parts != [] && AllWellFormed(parts) && forall i :: 0 <= i < |parts| ==> !parts[i].Or?
    requires Bounded(Split(Join(RenderAll(parts), OR), OR), bound)
    ensures ReadAll(Split(Join(RenderAll(parts), OR), OR), bound) == RawAll(parts) <==>
      !Misread(Or(parts), false, false)
    decreases parts, 0
  {
    var first, rest := parts[0], parts[1..];
    var pieces := Split(Join(RenderAll(parts), OR), OR);
    assert parts == [first] + rest;
    MisreadFirst(parts);
    MisreadOperands(first, rest != []);
    ReadRenderIff(first);
    ConsReadIff(first, rest, pieces, bound);
    if rest == [] {
      assert RenderAll(parts) == [Render(first)];
      LastAlternative(first);
      assert pieces[1..] == [] <==> |pieces| == 1;
    } else {
      var tail := Join(RenderAll(rest), OR);
      assert RenderAll(parts)[1..] == RenderAll(rest);
      assert Join(RenderAll(parts), OR) == Render(first) + OR + tail;
      AlternativeSplit(first, tail);
      if !Overlaps(RenderAll(Operands(first)), true) {
        assert pieces[1..] == Split(tail, OR);
        assert Bounded(pieces[1..], bound);
        AlternativesReadIff(rest, bound);
      }
    }
  }

  // ---------------------------------------------------------------- canonical texts of expressions that are read right

  /** Reading a canonical text gives its tree back exactly if no operand `or` stands between an `and` and a marker. */
  lemma ReadPrintIff(t: Tree)
    requires Flat(t) && LeavesOk(t)
    ensures Read(Print(t, 0)) == t <==> !Misread(Embed(t, 0), false, false)
  {
    PrintSpells(t);
    EmbedPrints(t, 0);
    ReadRenderIff(Embed(t, 0));
  }

  /** The canonical text of an expression that is read right is its meaning, printed. */
  lemma CanonicalOfExpression(c: Cst)
    requires WellFormed(c) && !Misread(c, false, false)
    ensures Canonical(Render(c), 0) == Print(Meaning(c), 0)
  {
    CanonicalPrints(Render(c), 0);
    ReadRenderIff(c);
    MeaningFlat(c);
    PrintFlatten(Raw(c), 0);
  }
}
