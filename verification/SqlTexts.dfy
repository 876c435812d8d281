/**
  The results for texts instead of expressions: every text that passes a
  left-to-right check is the text of a well-formed expression. A concrete text
  shows what goes wrong outside the check.
*/
module SqlTexts {
  import opened SqlScan
  import opened SqlTrees
  import opened SqlSegments
  import opened SqlTokens
  import opened SqlCanonical

  /** Every unquoted '@' belongs to a marker. */
  predicate Marked(s: string, quoted: bool) {
    if s == [] then true
    else if quoted then Marked(s[1..], s[0] != QUOTE)
    else if s[0] == '@' then
      if AND <= s then Marked(s[5..], false)
      else OR <= s && Marked(s[4..], false)
    else Marked(s[1..], s[0] == QUOTE)
  }

  predicate TextFrom(s: string, depth: nat, quoted: bool) {
    Balanced(s, depth, quoted) && Plain(s, quoted) && Marked(s, quoted)
  }

  /** What a text must satisfy: quotes and parentheses close, no quoted parentheses, markers well formed. */
  predicate Text(s: string) { TextFrom(s, 0, false) }

  // ---------------------------------------------------------------- stepping over one character or marker

  function MarkerOf(s: string): string {
    if AND <= s then AND else OR
  }

  lemma TextMarker(s: string, depth: nat)
    requires s != [] && s[0] == '@' && TextFrom(s, depth, false)
    ensures var m := MarkerOf(s);
      && m <= s && TextFrom(s[|m|..], depth, false)
      && s == m + s[|m|..]
  {
    OverMarker(s, MarkerOf(s), depth);
  }

  lemma MarkerText(m: string, rest: string, depth: nat)
    requires IsMarker(m)
    ensures TextFrom(m + rest, depth, false) <==> TextFrom(rest, depth, false)
  {
    var s := m + rest;
    assert s[..|m|] == m && s[|m|..] == rest;
    MarkerTails(s, m);
    OverMarker(s, m, depth);
    if m == OR { assert s[1] == 'o'; }
  }

  lemma TextStep(s: string, depth: nat, quoted: bool)
    requires s != [] && TextFrom(s, depth, quoted) && (quoted || s[0] != '@')
    ensures quoted || depth + Delta(s[0]) >= 0
    ensures TextFrom(s[1..], if quoted then depth else depth + Delta(s[0]), quoted != (s[0] == QUOTE))
  {}

  lemma StepText(c: char, rest: string, depth: nat, quoted: bool)
    requires if quoted then c != '(' && c != ')' else c != '@' && (c == ')' ==> depth > 0)
    ensures TextFrom([c] + rest, depth, quoted) <==>
      TextFrom(rest, if quoted then depth else depth + Delta(c), quoted != (c == QUOTE))
  {
    assert ([c] + rest)[1..] == rest;
  }

  lemma TextFront(s: string, depth: nat, quoted: bool)
    requires s != [] && TextFrom(s, depth, quoted)
    ensures if quoted then s[0] != '(' && s[0] != ')' else s[0] == ')' ==> depth > 0
  {}

  // ---------------------------------------------------------------- cutting a text

  /** What a cut leaves: a piece without a top-level `m`, and a text after the marker. */
  ghost predicate Cuts(s: string, m: string, depth: nat, quoted: bool, k: nat) {
    && k <= |s|
    && Segment(s[..k], m, depth, quoted)
    && TextFrom(s[..k], depth, quoted)
    && (k < |s| ==> m <= s[k..] && TextFrom(s[k + |m|..], 0, false))
  }

  lemma PrefixCons(c: char, rest: string, k: nat)
    requires k <= |rest|
    ensures ([c] + rest)[..k + 1] == [c] + rest[..k]
    ensures ([c] + rest)[k + 1..] == rest[k..]
  {}

  lemma PrefixMarker(marker: string, rest: string, k: nat)
    requires k <= |rest|
    ensures (marker + rest)[..k + |marker|] == marker + rest[..k]
    ensures (marker + rest)[k + |marker|..] == rest[k..]
  {}

  lemma SegmentCons(c: char, rest: string, m: string, depth: nat, quoted: bool)
    requires quoted || c != '@' || depth > 0
    requires !quoted ==> (c == ')' ==> depth > 0)
    ensures Segment([c] + rest, m, depth, quoted) <==>
      Segment(rest, m, if quoted then depth else depth + Delta(c), quoted != (c == QUOTE))
  {
    assert ([c] + rest)[1..] == rest;
  }

  /** Below the top level a marker is text like any other. */
  lemma SegmentMarker(marker: string, rest: string, m: string, depth: nat)
    requires IsMarker(marker) && depth > 0
    ensures Segment(marker + rest, m, depth, false) <==> Segment(rest, m, depth, false)
    ensures TokenCut(marker + rest, m, depth, false) == |marker| + TokenCut(rest, m, depth, false)
  {
    var s := marker + rest;
    assert s[..|marker|] == marker && s[|marker|..] == rest;
    MarkerTails(s, marker);
    assert Segment(s, m, depth, false) <==> Segment(s[2..], m, depth, false);
    assert Segment(s[2..], m, depth, false) <==> Segment(s[4..], m, depth, false);
    assert TokenCut(s, m, depth, false) == 2 + TokenCut(s[2..], m, depth, false);
    assert TokenCut(s[2..], m, depth, false) == 2 + TokenCut(s[4..], m, depth, false);
  }

  lemma SegmentAnd(rest: string)
    ensures Segment(AND + rest, OR, 0, false) <==> Segment(rest, OR, 0, false)
  {
    assert (AND + rest)[5..] == rest;
  }

  /** One character in front of a piece that was cut. */
  lemma CutsOne(c: char, rest: string, m: string, depth: nat, quoted: bool, k: nat)
    requires IsMarker(m) && TextFrom([c] + rest, depth, quoted) && (quoted || c != '@')
    requires quoted || depth + Delta(c) >= 0
    requires Cuts(rest, m, if quoted then depth else depth + Delta(c), quoted != (c == QUOTE), k)
    ensures Cuts([c] + rest, m, depth, quoted, k + 1)
  {
    TextFront([c] + rest, depth, quoted);
    hide TextFrom;
    PrefixCons(c, rest, k);
    SegmentCons(c, rest[..k], m, depth, quoted);
    StepText(c, rest[..k], depth, quoted);
    if k < |rest| { assert ([c] + rest)[k + 1 + |m|..] == rest[k + |m|..]; }
  }

  /** A marker in front of a piece that was cut, passed over because it is nested or not the one looked for. */
  lemma CutsMarker(marker: string, rest: string, m: string, depth: nat, k: nat)
    requires IsMarker(marker) && IsMarker(m)
    requires depth > 0 || (m == OR && marker == AND)
    requires Cuts(rest, m, depth, false, k)
    ensures Cuts(marker + rest, m, depth, false, k + |marker|)
  {
    hide TextFrom;
    PrefixMarker(marker, rest, k);
    if depth > 0 { SegmentMarker(marker, rest[..k], m, depth); } else { SegmentAnd(rest[..k]); }
    MarkerText(marker, rest[..k], depth);
    if k < |rest| { assert (marker + rest)[k + |marker| + |m|..] == rest[k + |m|..]; }
  }

  lemma CutsNothing(m: string, rest: string)
    requires IsMarker(m) && TextFrom(rest, 0, false)
    ensures Cuts(m + rest, m, 0, false, 0)
  {
    var s := m + rest;
    assert s[..0] == [] && s[0..] == s && s[..|m|] == m && s[|m|..] == rest;
  }

  lemma CutsEnd(m: string, depth: nat, quoted: bool)
    requires TextFrom([], depth, quoted)
    ensures Cuts([], m, depth, quoted, TokenCut([], m, depth, quoted))
  {}

  /** A marker at the front of a text that is cut by the same or, below the top level or for `or`, another marker. */
  lemma CutTextMarker(marker: string, rest: string, m: string, depth: nat)
    requires IsMarker(marker) && IsMarker(m) && TextFrom(rest, depth, false)
    requires depth > 0 || m == OR || marker == m
    requires Cuts(rest, m, depth, false, TokenCut(rest, m, depth, false))
    ensures Cuts(marker + rest, m, depth, false, TokenCut(marker + rest, m, depth, false))
  {
    hide TextFrom, Cuts;
    if depth > 0 {
      SegmentMarker(marker, rest, m, depth);
      CutsMarker(marker, rest, m, depth, TokenCut(rest, m, depth, false));
    } else if marker == m {
      TokenAtMarker(m, rest);
      CutsNothing(m, rest);
    } else {
      TokenOverAnd(rest);
      CutsMarker(marker, rest, m, depth, TokenCut(rest, m, depth, false));
    }
  }

  lemma {:induction false} CutOrText(s: string, depth: nat, quoted: bool)
    requires TextFrom(s, depth, quoted)
    ensures Cuts(s, OR, depth, quoted, TokenCut(s, OR, depth, quoted))
    decreases |s|
  {
    hide TextFrom, Cuts;
    if s == [] {
      CutsEnd(OR, depth, quoted);
    } else if !quoted && s[0] == '@' {
      TextMarker(s, depth);
      var m := MarkerOf(s);
      CutOrText(s[|m|..], depth, false);
      CutTextMarker(m, s[|m|..], OR, depth);
    } else {
      TextStep(s, depth, quoted);
      var depth', quoted' := if quoted then depth else depth + Delta(s[0]), quoted != (s[0] == QUOTE);
      CutOrText(s[1..], depth', quoted');
      CutTextOne(s, OR, depth, quoted);
    }
  }

  lemma CutTextOne(s: string, m: string, depth: nat, quoted: bool)
    requires IsMarker(m) && s != [] && TextFrom(s, depth, quoted) && (quoted || s[0] != '@')
    requires quoted || depth + Delta(s[0]) >= 0
    requires var depth', quoted' := if quoted then depth else depth + Delta(s[0]), quoted != (s[0] == QUOTE);
      Cuts(s[1..], m, depth', quoted', TokenCut(s[1..], m, depth', quoted'))
    ensures Cuts(s, m, depth, quoted, TokenCut(s, m, depth, quoted))
  {
    hide TextFrom, Cuts;
    var depth', quoted' := if quoted then depth else depth + Delta(s[0]), quoted != (s[0] == QUOTE);
    assert s == [s[0]] + s[1..];
    TokenStep(s[0], s[1..], m, depth, quoted);
    CutsOne(s[0], s[1..], m, depth, quoted, TokenCut(s[1..], m, depth', quoted'));
  }

  /** Behind the and-marker there is no top-level or-marker either. */
  ghost predicate RestOr(s: string, k: nat) {
    k + 5 <= |s| ==> Segment(s[k + 5..], OR, 0, false)
  }

  lemma RestOrBehind(front: string, rest: string, k: nat)
    requires RestOr(rest, k)
    ensures RestOr(front + rest, k + |front|)
  {
    if k + 5 <= |rest| { assert (front + rest)[k + |front| + 5..] == rest[k + 5..]; }
  }

  lemma TopMarkerIsAnd(s: string)
    requires s != [] && s[0] == '@' && Segment(s, OR, 0, false)
    ensures MarkerOf(s) == AND && Segment(s[5..], OR, 0, false)
  {}

  /** What cutting by `and` leaves: the piece, the text behind, and no top-level or-marker there. */
  ghost predicate CutsAnd(s: string, depth: nat, quoted: bool) {
    var k := TokenCut(s, AND, depth, quoted);
    Cuts(s, AND, depth, quoted, k) && RestOr(s, k)
  }

  lemma CutAndNested(marker: string, rest: string, depth: nat)
    requires IsMarker(marker) && depth > 0 && TextFrom(rest, depth, false) && CutsAnd(rest, depth, false)
    ensures CutsAnd(marker + rest, depth, false)
  {
    hide TextFrom, Cuts, RestOr;
    SegmentMarker(marker, rest, AND, depth);
    RestOrBehind(marker, rest, TokenCut(rest, AND, depth, false));
    CutTextMarker(marker, rest, AND, depth);
  }

  lemma CutAndTop(s: string)
    requires s != [] && s[0] == '@' && TextFrom(s, 0, false) && Segment(s, OR, 0, false)
    ensures CutsAnd(s, 0, false)
  {
    hide TextFrom, Cuts, RestOr;
    TextMarker(s, 0);
    TopMarkerIsAnd(s);
    CutsNothing(AND, s[5..]);
    TokenAtMarker(AND, s[5..]);
    RestBehindAnd(s);
  }

  lemma CutAndOne(s: string, depth: nat, quoted: bool)
    requires s != [] && TextFrom(s, depth, quoted) && (quoted || s[0] != '@')
    requires quoted || depth + Delta(s[0]) >= 0
    requires CutsAnd(s[1..], if quoted then depth else depth + Delta(s[0]), quoted != (s[0] == QUOTE))
    ensures CutsAnd(s, depth, quoted)
  {
    hide TextFrom, Cuts, RestOr;
    var depth', quoted' := if quoted then depth else depth + Delta(s[0]), quoted != (s[0] == QUOTE);
    CutTextOne(s, AND, depth, quoted);
    assert s == [s[0]] + s[1..];
    TokenStep(s[0], s[1..], AND, depth, quoted);
    RestOrBehind([s[0]], s[1..], TokenCut(s[1..], AND, depth', quoted'));
  }

  lemma {:induction false} CutAndText(s: string, depth: nat, quoted: bool)
    requires TextFrom(s, depth, quoted) && Segment(s, OR, depth, quoted)
    ensures CutsAnd(s, depth, quoted)
    decreases |s|
  {
    hide TextFrom, CutsAnd;
    if s == [] {
      CutAndEnd(depth, quoted);
    } else if !quoted && s[0] == '@' {
      if depth > 0 {
        var m := MarkerOf(s);
        TextMarker(s, depth);
        SegmentMarker(m, s[|m|..], OR, depth);
        CutAndText(s[|m|..], depth, false);
        CutAndNested(m, s[|m|..], depth);
      } else {
        CutAndTop(s);
      }
    } else {
      TextStep(s, depth, quoted);
      SegmentStep(s, OR, depth, quoted);
      CutAndText(s[1..], if quoted then depth else depth + Delta(s[0]), quoted != (s[0] == QUOTE));
      CutAndOne(s, depth, quoted);
    }
  }

  lemma CutAndEnd(depth: nat, quoted: bool)
    requires TextFrom([], depth, quoted)
    ensures CutsAnd([], depth, quoted)
  {
    CutsEnd(AND, depth, quoted);
    NothingBehind(TokenCut([], AND, depth, quoted));
  }

  lemma NothingBehind(k: nat)
    ensures RestOr([], k)
  {}

  lemma RestBehindAnd(s: string)
    requires |s| >= 5 && Segment(s[5..], OR, 0, false)
    ensures RestOr(s, 0)
  {}

  /** The parts of a text split by `or` are texts without a top-level `or`; split by `and` likewise. */
  lemma {:induction false} SplitOrTexts(s: string)
    requires Text(s)
    ensures forall i :: 0 <= i < |TokenSplit(s, OR)| ==>
      Text(TokenSplit(s, OR)[i]) && Segment(TokenSplit(s, OR)[i], OR, 0, false)
    decreases |s|
  {
    CutOrText(s, 0, false);
    var k := TokenCut(s, OR, 0, false);
    if k < |s| {
      SplitOrTexts(s[k + 4..]);
    } else {
      assert s[..k] == s;
    }
  }

  lemma {:induction false} SplitAndTexts(s: string)
    requires Text(s) && Segment(s, OR, 0, false)
    ensures forall i :: 0 <= i < |TokenSplit(s, AND)| ==>
      Text(TokenSplit(s, AND)[i]) && Segment(TokenSplit(s, AND)[i], AND, 0, false)
    decreases |s|
  {
    CutAndText(s, 0, false);
    var k := TokenCut(s, AND, 0, false);
    if k < |s| {
      SplitAndTexts(s[k + 5..]);
    } else {
      assert s[..k] == s;
    }
  }

  // ---------------------------------------------------------------- unwrapping a text

  lemma {:induction false} UnwrapFrom(t: string, depth: nat, quoted: bool)
    requires TextFrom(t + ")", depth + 1, quoted)
    requires ClosesAtEnd(t + ")", depth + 1)
    ensures TextFrom(t, depth, quoted)
    decreases |t|
  {
    hide TextFrom;
    var s := t + ")";
    if t == [] {
      assert s == ")";
      UnwrapNothing(depth, quoted);
    } else if !quoted && t[0] == '@' {
      TextMarker(s, depth + 1);
      var m := MarkerOf(s);
      MarkerInFront(t, m);
      ClosesOverMarker(s, m, depth + 1);
      UnwrapFrom(t[|m|..], depth, false);
      MarkerText(m, t[|m|..], depth);
      assert t == m + t[|m|..];
    } else {
      assert s[1..] == t[1..] + ")" && s[0] == t[0];
      TextFront(s, depth + 1, quoted);
      TextStep(s, depth + 1, quoted);
      UnwrapClose(s, depth, quoted);
      UnwrapFrom(t[1..], if quoted then depth else depth + Delta(t[0]), quoted != (t[0] == QUOTE));
      StepText(t[0], t[1..], depth, quoted);
      assert t == [t[0]] + t[1..];
    }
  }

  lemma UnwrapNothing(depth: nat, quoted: bool)
    requires TextFrom(")", depth + 1, quoted)
    ensures TextFrom([], depth, quoted)
  {
    assert ")"[1..] == [];
  }

  /** Inside the parentheses the count stays positive. */
  lemma UnwrapClose(s: string, depth: nat, quoted: bool)
    requires |s| > 1 && ClosesAtEnd(s, depth + 1)
    requires quoted ==> s[0] != '(' && s[0] != ')'
    ensures quoted || depth + Delta(s[0]) >= 0
    ensures ClosesAtEnd(s[1..], (if quoted then depth else depth + Delta(s[0])) + 1)
  {}

  /** A marker holds no parenthesis, so it lies before a closing one. */
  lemma MarkerInFront(t: string, marker: string)
    requires IsMarker(marker) && marker <= t + ")"
    ensures marker <= t && (t + ")")[|marker|..] == t[|marker|..] + ")"
  {
    var s := t + ")";
    MarkerTails(s, marker);
    assert s[|t|] == ')' && |marker| <= |t|;
    assert t[..|marker|] == s[..|marker|];
  }

  lemma ClosesOverMarker(s: string, m: string, depth: int)
    requires IsMarker(m) && m <= s
    ensures ClosesAtEnd(s, depth) == ClosesAtEnd(s[|m|..], depth)
  {
    MarkerTails(s, m);
    assert ClosesAtEnd(s, depth) == ClosesAtEnd(s[2..], depth);
    assert ClosesAtEnd(s[2..], depth) == ClosesAtEnd(s[4..], depth);
  }

  lemma UnwrapText(s: string)
    requires Text(s) && Wrapped(s)
    ensures s == Enclose(s[1..|s| - 1]) && Text(s[1..|s| - 1])
  {
    var t := s[1..|s| - 1];
    assert s[1..] == t + ")";
    TextStep(s, 0, false);
    UnwrapFrom(t, 0, false);
  }

  // ---------------------------------------------------------------- the expression of a text

  /** No operand holds a quoted parenthesis. */
  predicate PlainAtoms(c: Cst)
    decreases c, 1
  {
    match c
    case Atom(text) => Plain(text, false)
    case Paren(inner) => PlainAtoms(inner)
    case And(parts) => AllPlain(parts)
    case Or(parts) => AllPlain(parts)
  }

  predicate AllPlain(parts: seq<Cst>)
    decreases parts, 0
  {
    forall i :: 0 <= i < |parts| ==> PlainAtoms(parts[i])
  }

  /** Every text is the rendering of the well-formed expression it spells out. */
  lemma {:induction false} TextIsExpression(s: string)
    requires Text(s)
    ensures WellFormed(Parse(s)) && Render(Parse(s)) == s && PlainAtoms(Parse(s))
    decreases |s|, 1
  {
    TokenSplitJoins(s, OR);
    TokenSplitJoins(s, AND);
    if Wrapped(s) {
      UnwrapText(s);
      TextIsExpression(s[1..|s| - 1]);
    } else {
      SplitOrTexts(s);
      if |TokenSplit(s, OR)| > 1 {
        TextsAreExpressions(TokenSplit(s, OR), |s|);
        AlternativesNotOr(TokenSplit(s, OR));
      } else {
        assert TokenSplit(s, OR)[0] == s;
        SplitAndTexts(s);
        if |TokenSplit(s, AND)| > 1 {
          TextsAreExpressions(TokenSplit(s, AND), |s|);
          ConjunctsTight(TokenSplit(s, AND));
        } else {
          assert TokenSplit(s, AND)[0] == s;
          PlainEven(s, 0, false);
        }
      }
    }
  }

  lemma AlternativesNotOr(parts: seq<string>)
    requires Segments(parts, OR)
    ensures forall i :: 0 <= i < |parts| ==> !Parse(parts[i]).Or?
  {
    forall i | 0 <= i < |parts| ensures !Parse(parts[i]).Or? {
      SegmentIsOneToken(parts[i], OR);
    }
  }

  lemma ConjunctsTight(parts: seq<string>)
    requires Segments(parts, AND)
    ensures forall i :: 0 <= i < |parts| ==> Parse(parts[i]).Atom? || Parse(parts[i]).Paren?
  {
    forall i | 0 <= i < |parts| ensures Parse(parts[i]).Atom? || Parse(parts[i]).Paren? {
      SegmentWeaken(parts[i]);
      SegmentIsOneToken(parts[i], OR);
      SegmentIsOneToken(parts[i], AND);
    }
  }

  lemma {:induction false} TextsAreExpressions(parts: seq<string>, bound: nat)
    requires forall i :: 0 <= i < |parts| ==> |parts[i]| < bound
    requires forall i :: 0 <= i < |parts| ==> Text(parts[i])
    ensures AllWellFormed(ParseAll(parts, bound)) && RenderAll(ParseAll(parts, bound)) == parts
    ensures AllPlain(ParseAll(parts, bound))
    decreases bound, 0, |parts|
  {
    if parts != [] {
      TextIsExpression(parts[0]);
      TextsAreExpressions(parts[1..], bound);
      hide WellFormed, AllWellFormed, PlainAtoms, AllPlain, Text;
      ExpressionsCons(Parse(parts[0]), ParseAll(parts[1..], bound));
      assert parts == [parts[0]] + parts[1..];
    } else {
      assert AllWellFormed([]) && AllPlain([]);
    }
  }

  lemma ExpressionsCons(first: Cst, rest: seq<Cst>)
    requires WellFormed(first) && AllWellFormed(rest) && PlainAtoms(first) && AllPlain(rest)
    ensures AllWellFormed([first] + rest) && AllPlain([first] + rest)
    ensures RenderAll([first] + rest) == [Render(first)] + RenderAll(rest)
  {
    var all := [first] + rest;
    assert all[1..] == rest;
    forall i | 0 <= i < |all| ensures WellFormed(all[i]) && PlainAtoms(all[i]) {
      if i > 0 { assert all[i] == rest[i - 1]; }
    }
  }

  // ---------------------------------------------------------------- quoted parentheses

  /**
    The outer-parenthesis test does not skip quotes. For an operand, "redundant
    parentheses do not matter" holds exactly when the operand's parentheses
    balance with quotes ignored.
  */
  lemma ParenthesesAreRedundantIff(text: string)
    requires Segment(text, AND, 0, false) && !Wrapped(text)
    ensures Canonical(Enclose(text), 0) == Canonical(text, 0) <==> Even(text, 0)
  {
    var e := Enclose(text);
    SegmentBalanced(text, 0, false);
    EncloseSegment(text, AND);
    SegmentUncut(text, OR);
    SegmentUncut(text, AND);
    SegmentUncut(e, OR);
    SegmentUncut(e, AND);
    EncloseStripsIff(text);
    ClosesInside(text, 1);
    assert e[1..] == text + ")";
    assert Canonical(text, 0) == text;
  }

  /** A quoted closing parenthesis is such an operand: `(')')` and `')'` are not recognized as the same. */
  lemma QuotedParenthesisIsNotStripped()
    ensures var text := "')'";
      Segment(text, AND, 0, false) && !Wrapped(text) && Canonical("(" + text + ")", 0) != Canonical(text, 0)
  {
    var text := "')'";
    assert text[1..] == ")'" && text[1..][1..] == "'" && text[1..][1..][1..] == "";
    ParenthesesAreRedundantIff(text);
  }
}
