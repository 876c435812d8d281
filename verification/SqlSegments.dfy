/**
  Which texts a scanner passes over without stopping. These facts tie the
  scanners of SqlScan to the written expressions of SqlTrees.
*/
module SqlSegments {
  import opened SqlScan
  import opened SqlTrees

  // ---------------------------------------------------------------- predicates on text

  /** Quotes close and parentheses, counted outside quotes, never go below zero and end at zero. */
  predicate Balanced(s: string, depth: nat, quoted: bool) {
    if s == [] then depth == 0 && !quoted
    else if quoted then Balanced(s[1..], depth, s[0] != QUOTE)
    else if s[0] == QUOTE then Balanced(s[1..], depth, true)
    else if s[0] == '(' then Balanced(s[1..], depth + 1, false)
    else if s[0] == ')' then depth > 0 && Balanced(s[1..], depth - 1, false)
    else Balanced(s[1..], depth, false)
  }

  /** Parentheses, counted without regard to quotes, never go below zero and end at zero. */
  predicate Even(s: string, depth: nat) {
    if s == [] then depth == 0
    else if s[0] == '(' then Even(s[1..], depth + 1)
    else if s[0] == ')' then depth > 0 && Even(s[1..], depth - 1)
    else Even(s[1..], depth)
  }

  /** No parenthesis stands inside a quoted value. */
  predicate Plain(s: string, quoted: bool) {
    s == [] ||
    (&& (quoted ==> s[0] != '(' && s[0] != ')')
     && Plain(s[1..], if s[0] == QUOTE then !quoted else quoted))
  }

  /**
    Balanced text without a top-level `m`. For the and-marker: no '@' at depth 0
    at all; for the or-marker: '@' only in and-markers.
  */
  predicate Segment(s: string, m: string, depth: nat, quoted: bool) {
    if s == [] then depth == 0 && !quoted
    else if quoted then Segment(s[1..], m, depth, s[0] != QUOTE)
    else if s[0] == QUOTE then Segment(s[1..], m, depth, true)
    else if s[0] == '(' then Segment(s[1..], m, depth + 1, false)
    else if s[0] == ')' then depth > 0 && Segment(s[1..], m, depth - 1, false)
    else if depth == 0 && s[0] == '@' then
      m == OR && AND <= s && Segment(s[5..], m, 0, false)
    else Segment(s[1..], m, depth, false)
  }

  /** What an operand may be: balanced with and without regard to quotes, no marker of its own. */
  predicate AtomOk(text: string) {
    && Segment(text, AND, 0, false)
    && Even(text, 0)
    && !Wrapped(text)
  }

  /** A well-formed written expression: each connective has two or more operands of tighter kinds. */
  predicate WellFormed(c: Cst)
    decreases c, 1
  {
    match c
    case Atom(text) => AtomOk(text)
    case Paren(inner) => WellFormed(inner)
    case And(parts) =>
      |parts| >= 2 && AllWellFormed(parts) && forall i :: 0 <= i < |parts| ==> parts[i].Atom? || parts[i].Paren?
    case Or(parts) => |parts| >= 2 && AllWellFormed(parts) && forall i :: 0 <= i < |parts| ==> !parts[i].Or?
  }

  predicate AllWellFormed(parts: seq<Cst>)
    decreases parts, 0
  {
    forall i :: 0 <= i < |parts| ==> WellFormed(parts[i])
  }

  // ---------------------------------------------------------------- concatenation

  lemma {:induction false} BalancedConcat(t: string, v: string, depth: nat, quoted: bool)
    requires Balanced(t, depth, quoted) && Balanced(v, 0, false)
    ensures Balanced(t + v, depth, quoted)
  {
    if t == [] { assert t + v == v; } else {
      assert (t + v)[1..] == t[1..] + v;
      if quoted { BalancedConcat(t[1..], v, depth, t[0] != QUOTE); }
      else if t[0] == QUOTE { BalancedConcat(t[1..], v, depth, true); }
      else if t[0] == '(' { BalancedConcat(t[1..], v, depth + 1, false); }
      else if t[0] == ')' { BalancedConcat(t[1..], v, depth - 1, false); }
      else { BalancedConcat(t[1..], v, depth, false); }
    }
  }

  lemma {:induction false} EvenConcat(t: string, v: string, depth: nat)
    requires Even(t, depth) && Even(v, 0)
    ensures Even(t + v, depth)
  {
    if t == [] { assert t + v == v; } else {
      assert (t + v)[1..] == t[1..] + v;
      if t[0] == '(' { EvenConcat(t[1..], v, depth + 1); }
      else if t[0] == ')' { EvenConcat(t[1..], v, depth - 1); }
      else { EvenConcat(t[1..], v, depth); }
    }
  }

  lemma {:induction false} EvenInside(s: string, extra: nat)
    requires Even(s, extra)
    ensures Even(s + ")", extra + 1)
  {
    if s == [] { assert s + ")" == ")"; assert ")"[1..] == []; } else {
      assert (s + ")")[1..] == s[1..] + ")";
      if s[0] == '(' { EvenInside(s[1..], extra + 1); }
      else if s[0] == ')' { EvenInside(s[1..], extra - 1); }
      else { EvenInside(s[1..], extra); }
    }
  }

  /** Without quoted parentheses both ways of counting agree. */
  lemma {:induction false} PlainEven(s: string, depth: nat, quoted: bool)
    requires Balanced(s, depth, quoted) && Plain(s, quoted)
    ensures Even(s, depth)
  {
    if s != [] {
      if quoted { PlainEven(s[1..], depth, s[0] != QUOTE); }
      else { PlainEven(s[1..], depth + Delta(s[0]), s[0] == QUOTE); }
    }
  }

  lemma {:induction false} SegmentConcat(t: string, v: string, m: string, depth: nat, quoted: bool)
    requires Segment(t, AND, depth, quoted) && Segment(v, m, 0, false)
    ensures Segment(t + v, m, depth, quoted)
  {
    if t == [] { assert t + v == v; } else {
      assert (t + v)[1..] == t[1..] + v;
      if quoted { SegmentConcat(t[1..], v, m, depth, t[0] != QUOTE); }
      else if t[0] == QUOTE { SegmentConcat(t[1..], v, m, depth, true); }
      else if t[0] == '(' { SegmentConcat(t[1..], v, m, depth + 1, false); }
      else if t[0] == ')' { SegmentConcat(t[1..], v, m, depth - 1, false); }
      else { SegmentConcat(t[1..], v, m, depth, false); }
    }
  }

  lemma SegmentWeaken(t: string)
    requires Segment(t, AND, 0, false)
    ensures Segment(t, OR, 0, false)
  {
    SegmentConcat(t, [], OR, 0, false);
    assert t + [] == t;
  }

  lemma {:induction false} SegmentBalanced(t: string, depth: nat, quoted: bool)
    requires Segment(t, AND, depth, quoted)
    ensures Balanced(t, depth, quoted)
  {
    if t != [] {
      if quoted { SegmentBalanced(t[1..], depth, t[0] != QUOTE); }
      else if t[0] == QUOTE { SegmentBalanced(t[1..], depth, true); }
      else if t[0] == '(' { SegmentBalanced(t[1..], depth + 1, false); }
      else if t[0] == ')' { SegmentBalanced(t[1..], depth - 1, false); }
      else { SegmentBalanced(t[1..], depth, false); }
    }
  }

  /** Inside parentheses anything balanced is passed over. */
  lemma {:induction false} SegmentInside(s: string, tail: string, m: string, extra: nat, depth: nat, quoted: bool)
    requires Balanced(s, extra, quoted) && depth >= 1 && Segment(tail, m, depth, false)
    ensures Segment(s + tail, m, depth + extra, quoted)
  {
    if s == [] { assert s + tail == tail; } else {
      assert (s + tail)[1..] == s[1..] + tail;
      if quoted { SegmentInside(s[1..], tail, m, extra, depth, s[0] != QUOTE); }
      else if s[0] == QUOTE { SegmentInside(s[1..], tail, m, extra, depth, true); }
      else if s[0] == '(' { SegmentInside(s[1..], tail, m, extra + 1, depth, false); }
      else if s[0] == ')' { SegmentInside(s[1..], tail, m, extra - 1, depth, false); }
      else { SegmentInside(s[1..], tail, m, extra, depth, false); }
    }
  }

  function Enclose(s: string): string { "(" + s + ")" }

  lemma EncloseSegment(s: string, m: string)
    requires Balanced(s, 0, false)
    ensures Segment(Enclose(s), m, 0, false)
  {
    assert ")"[1..] == [];
    SegmentInside(s, ")", m, 0, 1, false);
    assert Enclose(s)[1..] == s + ")";
  }

  lemma EncloseEven(s: string)
    requires Balanced(s, 0, false) && Even(s, 0)
    ensures Balanced(Enclose(s), 0, false) && Even(Enclose(s), 0)
  {
    EncloseSegment(s, AND);
    SegmentBalanced(Enclose(s), 0, false);
    EvenInside(s, 0);
    assert Enclose(s)[1..] == s + ")";
  }

  lemma MarkerTails(s: string, m: string)
    requires IsMarker(m) && m <= s
    ensures s[0] == '@' && s[3] == m[3] && s[1] == m[1] && s[2] == m[2]
    ensures s[1..][1..] == s[2..] && s[2..][1..] == s[3..] && s[3..][1..] == s[4..]
    ensures m == AND ==> s[4] == '@' && s[4..][1..] == s[5..]
  {}

  /** A marker holds no quotes and no parentheses. */
  lemma OverMarker(s: string, m: string, depth: nat)
    requires IsMarker(m) && m <= s
    ensures Balanced(s, depth, false) <==> Balanced(s[|m|..], depth, false)
    ensures Plain(s, false) <==> Plain(s[|m|..], false)
    ensures Even(s, depth) <==> Even(s[|m|..], depth)
  {
    MarkerTails(s, m);
    assert Balanced(s, depth, false) <==> Balanced(s[2..], depth, false);
    assert Balanced(s[2..], depth, false) <==> Balanced(s[4..], depth, false);
    assert Plain(s, false) <==> Plain(s[2..], false);
    assert Plain(s[2..], false) <==> Plain(s[4..], false);
    assert Even(s, depth) <==> Even(s[2..], depth);
    assert Even(s[2..], depth) <==> Even(s[4..], depth);
  }

  // ---------------------------------------------------------------- the splitter passes over segments

  /** The splitter passes over a text without a marker of its own, whatever follows. */
  lemma {:induction false} CutOver(t: string, m: string, rest: string, depth: nat, quoted: bool)
    requires IsMarker(m) && Segment(t, AND, depth, quoted)
    ensures Cut(t + rest, m, depth, quoted) == |t| + Cut(rest, m, 0, false)
  {
    if t == [] {
      assert t + rest == rest;
    } else {
      assert (t + rest)[1..] == t[1..] + rest;
      if quoted { CutOver(t[1..], m, rest, depth, t[0] != QUOTE); }
      else { CutOver(t[1..], m, rest, depth + Delta(t[0]), t[0] == QUOTE); }
    }
  }

  lemma MarkerCut(m: string, rest: string)
    requires IsMarker(m)
    ensures Cut(m + rest, m, 0, false) == 0
  {
    assert (m + rest)[..|m|] == m;
  }

  lemma SegmentUncut(t: string, m: string)
    requires IsMarker(m) && Segment(t, AND, 0, false)
    ensures Cut(t, m, 0, false) == |t| && Split(t, m) == [t]
  {
    CutOver(t, m, [], 0, false);
    assert t + [] == t;
  }

  ghost predicate Segments(parts: seq<string>, m: string) {
    forall i :: 0 <= i < |parts| ==> Segment(parts[i], m, 0, false)
  }

  lemma JoinHead(first: string, m: string, tail: string)
    ensures first + m + tail == first + (m + tail)
    ensures var s := first + m + tail;
      && s[..|first|] == first && s[|first|..] == m + tail && s[|first| + |m|..] == tail
      && m <= s[|first|..]
  {}

  lemma SplitFirst(first: string, m: string, tail: string)
    requires IsMarker(m) && Segment(first, AND, 0, false)
    ensures Split(first + m + tail, m) == [first] + Split(tail, m)
  {
    JoinHead(first, m, tail);
    CutOver(first, m, m + tail, 0, false);
    MarkerCut(m, tail);
    SplitUnfold(first + m + tail, m, |first|, first, tail);
  }

  /** Splitting what was joined gives the parts back. */
  lemma {:induction false} SplitJoined(parts: seq<string>, m: string)
    requires IsMarker(m) && parts != [] && Segments(parts, AND)
    ensures Split(Join(parts, m), m) == parts
  {
    if |parts| == 1 {
      SegmentUncut(parts[0], m);
    } else {
      SplitJoined(parts[1..], m);
      SplitFirst(parts[0], m, Join(parts[1..], m));
    }
  }

  // ---------------------------------------------------------------- outer parentheses

  lemma {:induction false} ClosesInside(s: string, depth: nat)
    requires depth >= 1
    ensures ClosesAtEnd(s + ")", depth) <==> Even(s, depth - 1)
  {
    if s == [] {
      assert s + ")" == ")";
      assert ")"[1..] == [];
    } else {
      assert (s + ")")[1..] == s[1..] + ")";
      if s[0] == '(' { ClosesInside(s[1..], depth + 1); }
      else if s[0] == ')' { if depth > 1 { ClosesInside(s[1..], depth - 1); } }
      else { ClosesInside(s[1..], depth); }
    }
  }

  /**
    A pair of parentheses around a text is recognized as redundant exactly when
    the parentheses inside it balance, quotes ignored.
  */
  lemma EncloseStripsIff(s: string)
    ensures Strip(Enclose(s)) == Strip(s) <==> Even(s, 0)
  {
    var e := Enclose(s);
    ClosesInside(s, 1);
    assert e[1..] == s + ")";
    assert Wrapped(e) <==> Even(s, 0);
    assert e[1..|e| - 1] == s;
  }

  lemma {:induction false} ClosesEarly(s: string, rest: string, depth: nat)
    requires Even(s, depth) && depth >= 1 && rest != []
    ensures !ClosesAtEnd(s + rest, depth)
  {
    assert (s + rest)[1..] == s[1..] + rest;
    if s[0] == '(' { ClosesEarly(s[1..], rest, depth + 1); }
    else if s[0] == ')' { if depth > 1 { ClosesEarly(s[1..], rest, depth - 1); } }
    else { ClosesEarly(s[1..], rest, depth); }
  }

  /** Text that goes on after a balanced operand is not wrapped. */
  lemma ContinuedNotWrapped(first: string, rest: string)
    requires Even(first, 0)
    requires rest != [] && rest[0] != '('
    ensures !Wrapped(first + rest)
  {
    var s := first + rest;
    if first == [] {
      assert s == rest;
    } else if first[0] == '(' {
      ClosesEarly(first[1..], rest, 1);
      assert s[1..] == first[1..] + rest;
    }
  }

  // ---------------------------------------------------------------- written expressions

  /** What every rendered well-formed expression is to the scanners. */
  ghost predicate Reads(c: Cst, s: string) {
    && Balanced(s, 0, false)
    && Even(s, 0)
    && (c.Atom? || c.Paren? ==> Segment(s, AND, 0, false))
    && (!c.Or? ==> Segment(s, OR, 0, false))
    && (!c.Paren? ==> !Wrapped(s))
  }

  lemma {:induction false} JoinReads(parts: seq<string>, m: string)
    requires IsMarker(m) && parts != []
    requires forall i :: 0 <= i < |parts| ==> Balanced(parts[i], 0, false) && Even(parts[i], 0)
    ensures Balanced(Join(parts, m), 0, false) && Even(Join(parts, m), 0)
  {
    if |parts| > 1 {
      JoinReads(parts[1..], m);
      var tail := Join(parts[1..], m);
      assert (m + tail)[|m|..] == tail;
      OverMarker(m + tail, m, 0);
      BalancedConcat(parts[0], m + tail, 0, false);
      EvenConcat(parts[0], m + tail, 0);
      assert Join(parts, m) == parts[0] + (m + tail);
    }
  }

  lemma JoinNotWrapped(parts: seq<string>, m: string)
    requires IsMarker(m) && |parts| >= 2
    requires Even(parts[0], 0)
    ensures !Wrapped(Join(parts, m))
  {
    var tail := Join(parts[1..], m);
    ContinuedNotWrapped(parts[0], m + tail);
    assert Join(parts, m) == parts[0] + (m + tail);
  }

  /** A conjunction has no top-level or-marker. */
  lemma {:induction false} AndSegment(parts: seq<string>)
    requires parts != [] && Segments(parts, AND)
    ensures Segment(Join(parts, AND), OR, 0, false)
  {
    if |parts| == 1 {
      SegmentWeaken(parts[0]);
    } else {
      AndSegment(parts[1..]);
      var tail := Join(parts[1..], AND);
      assert (AND + tail)[5..] == tail;
      SegmentConcat(parts[0], AND + tail, OR, 0, false);
      assert Join(parts, AND) == parts[0] + (AND + tail);
    }
  }

  lemma {:induction false} RenderReads(c: Cst)
    requires WellFormed(c)
    ensures Reads(c, Render(c))
    decreases c, 1
  {
    match c
    case Atom(text) =>
      SegmentBalanced(text, 0, false);
      SegmentWeaken(text);
    case Paren(inner) =>
      RenderReads(inner);
      var s := Render(inner);
      assert Render(c) == Enclose(s);
      EncloseSegment(s, AND);
      EncloseSegment(s, OR);
      EncloseEven(s);
    case And(parts) =>
      RenderAllReads(parts);
      JoinReads(RenderAll(parts), AND);
      JoinNotWrapped(RenderAll(parts), AND);
      AndSegment(RenderAll(parts));
    case Or(parts) =>
      RenderAllReads(parts);
      JoinReads(RenderAll(parts), OR);
      JoinNotWrapped(RenderAll(parts), OR);
  }

  lemma {:induction false} RenderAllReads(parts: seq<Cst>)
    requires AllWellFormed(parts)
    ensures forall i :: 0 <= i < |parts| ==> Reads(parts[i], RenderAll(parts)[i])
    decreases parts, 0
  {
    if parts != [] {
      RenderReads(parts[0]);
      RenderAllReads(parts[1..]);
      forall i | 0 <= i < |parts| ensures Reads(parts[i], RenderAll(parts)[i]) {
        if i > 0 { assert RenderAll(parts)[i] == RenderAll(parts[1..])[i - 1]; }
      }
    }
  }
}
