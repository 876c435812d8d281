/**
  What a marked text spells out: markers are read as tokens, one after the
  other, so that no two of them share a character. On the text of a well-formed
  expression this reading gives the expression back, so the text determines it.
*/
module SqlTokens {
  import opened SqlScan
  import opened SqlTrees
  import opened SqlSegments

  /** The first place where the token `m` stands unquoted at depth 0, or the end. */
  function TokenCut(s: string, m: string, depth: int, quoted: bool): (k: nat)
    ensures k <= |s|
  {
    if s == [] then 0
    else if quoted then 1 + TokenCut(s[1..], m, depth, s[0] != QUOTE)
    else if depth == 0 && m <= s then 0
    else if depth == 0 && AND <= s then 5 + TokenCut(s[5..], m, 0, false)
    else if depth == 0 && OR <= s then 4 + TokenCut(s[4..], m, 0, false)
    else 1 + TokenCut(s[1..], m, depth + Delta(s[0]), s[0] == QUOTE)
  }

  lemma {:induction false} TokenCutFinds(s: string, m: string, depth: int, quoted: bool)
    ensures var k := TokenCut(s, m, depth, quoted); k < |s| ==> m <= s[k..]
  {
    var k := TokenCut(s, m, depth, quoted);
    if s == [] || (!quoted && depth == 0 && m <= s) {
    } else if !quoted && depth == 0 && (AND <= s || OR <= s) {
      var n := if AND <= s then 5 else 4;
      TokenCutFinds(s[n..], m, 0, false);
      assert k < |s| ==> s[k..] == s[n..][k - n..];
    } else {
      TokenCutFinds(s[1..], m, if quoted then depth else depth + Delta(s[0]), quoted != (s[0] == QUOTE));
      assert k < |s| ==> s[k..] == s[1..][k - 1..];
    }
  }

  function TokenSplit(s: string, m: string): (parts: seq<string>)
    requires m != []
    ensures |parts| >= 1
    decreases |s|
  {
    var k := TokenCut(s, m, 0, false);
    TokenCutFinds(s, m, 0, false);
    if k == |s| then [s] else [s[..k]] + TokenSplit(s[k + |m|..], m)
  }

  /** Joining the parts gives back the text; every part of a real split is shorter. */
  lemma {:induction false} TokenSplitJoins(s: string, m: string)
    requires m != []
    ensures Join(TokenSplit(s, m), m) == s
    ensures |TokenSplit(s, m)| > 1 ==> forall i :: 0 <= i < |TokenSplit(s, m)| ==> |TokenSplit(s, m)[i]| < |s|
    ensures forall i :: 0 <= i < |TokenSplit(s, m)| ==> |TokenSplit(s, m)[i]| <= |s|
    decreases |s|
  {
    var k := TokenCut(s, m, 0, false);
    if k < |s| {
      TokenCutFinds(s, m, 0, false);
      var rest := s[k + |m|..];
      TokenSplitJoins(rest, m);
      FoundAt(s, m, k);
      JoinCons(s[..k], TokenSplit(rest, m), m);
    }
  }

  // ---------------------------------------------------------------- passing over segments

  lemma TokenStep(c: char, rest: string, m: string, depth: int, quoted: bool)
    requires IsMarker(m) && (quoted || depth != 0 || c != '@')
    ensures TokenCut([c] + rest, m, depth, quoted) ==
      1 + TokenCut(rest, m, if quoted then depth else depth + Delta(c), quoted != (c == QUOTE))
  {
    assert ([c] + rest)[0] == c && ([c] + rest)[1..] == rest;
    assert m[0] == '@';
  }

  lemma TokenOverAnd(rest: string)
    ensures TokenCut(AND + rest, OR, 0, false) == 5 + TokenCut(rest, OR, 0, false)
  {
    assert (AND + rest)[..5] == AND && (AND + rest)[5..] == rest;
    assert (AND + rest)[1] == 'a';
  }

  lemma TokenAtMarker(m: string, rest: string)
    requires IsMarker(m)
    ensures TokenCut(m + rest, m, 0, false) == 0
  {
    assert (m + rest)[..|m|] == m;
  }

  lemma TokenCutAtEnd(m: string, rest: string)
    requires IsMarker(m) && (rest == [] || m <= rest)
    ensures TokenCut(rest, m, 0, false) == 0
  {
    if rest != [] {
      assert rest == m + rest[|m|..];
      TokenAtMarker(m, rest[|m|..]);
    }
  }

  lemma SegmentStep(t: string, m: string, depth: nat, quoted: bool)
    requires t != [] && Segment(t, m, depth, quoted) && (quoted || depth != 0 || t[0] != '@')
    ensures (quoted || depth + Delta(t[0]) >= 0)
    ensures Segment(t[1..], m, if quoted then depth else depth + Delta(t[0]), quoted != (t[0] == QUOTE))
  {}

  lemma {:induction false} TokenCutOver(t: string, m: string, rest: string, depth: nat, quoted: bool)
    requires IsMarker(m) && Segment(t, m, depth, quoted)
    requires rest == [] || m <= rest
    ensures TokenCut(t + rest, m, depth, quoted) == |t|
    decreases |t|
  {
    if t == [] {
      assert t + rest == rest;
      TokenCutAtEnd(m, rest);
    } else if !quoted && depth == 0 && t[0] == '@' {
      AndInFront(t, rest);
      TokenOverAnd(t[5..] + rest);
      TokenCutOver(t[5..], m, rest, 0, false);
    } else {
      SegmentStep(t, m, depth, quoted);
      var depth', quoted' := if quoted then depth else depth + Delta(t[0]), quoted != (t[0] == QUOTE);
      TokenCutOver(t[1..], m, rest, depth', quoted');
      CharInFront(t, rest);
      TokenStep(t[0], t[1..] + rest, m, depth, quoted);
    }
  }

  lemma AndInFront(t: string, rest: string)
    requires AND <= t
    ensures t + rest == AND + (t[5..] + rest)
  {
    assert t == AND + t[5..];
  }

  lemma CharInFront(t: string, rest: string)
    requires t != []
    ensures t + rest == [t[0]] + (t[1..] + rest)
  {}

  lemma TokenSplitFirst(first: string, m: string, tail: string)
    requires IsMarker(m) && Segment(first, m, 0, false)
    ensures TokenSplit(first + m + tail, m) == [first] + TokenSplit(tail, m)
  {
    JoinHead(first, m, tail);
    TokenCutOver(first, m, m + tail, 0, false);
    TokenSplitUnfold(first + m + tail, m, |first|);
  }

  lemma TokenSplitUnfold(s: string, m: string, k: nat)
    requires m != [] && k < |s| && TokenCut(s, m, 0, false) == k && m <= s[k..]
    ensures TokenSplit(s, m) == [s[..k]] + TokenSplit(s[k + |m|..], m)
  {
    hide IsMarker;
  }

  lemma SegmentIsOneToken(t: string, m: string)
    requires IsMarker(m) && Segment(t, m, 0, false)
    ensures TokenSplit(t, m) == [t]
  {
    TokenCutOver(t, m, [], 0, false);
    assert t + [] == t;
  }

  lemma {:induction false} TokenSplitJoined(parts: seq<string>, m: string)
    requires IsMarker(m) && parts != [] && Segments(parts, m)
    ensures TokenSplit(Join(parts, m), m) == parts
  {
    if |parts| == 1 {
      SegmentIsOneToken(parts[0], m);
    } else {
      TokenSplitJoined(parts[1..], m);
      TokenSplitFirst(parts[0], m, Join(parts[1..], m));
    }
  }

  // ---------------------------------------------------------------- the expression of a text

  /** The written expression a text spells out. */
  function Parse(s: string): Cst
    decreases |s|, 1
  {
    TokenSplitJoins(s, OR);
    TokenSplitJoins(s, AND);
    if Wrapped(s) then Paren(Parse(s[1..|s| - 1]))
    else if |TokenSplit(s, OR)| > 1 then Or(ParseAll(TokenSplit(s, OR), |s|))
    else if |TokenSplit(s, AND)| > 1 then And(ParseAll(TokenSplit(s, AND), |s|))
    else Atom(s)
  }

  function ParseAll(parts: seq<string>, bound: nat): (r: seq<Cst>)
    requires forall i :: 0 <= i < |parts| ==> |parts[i]| < bound
    ensures |r| == |parts|
    ensures forall i :: 0 <= i < |parts| ==> r[i] == Parse(parts[i])
    decreases bound, 0, |parts|
  {
    if parts == [] then [] else [Parse(parts[0])] + ParseAll(parts[1..], bound)
  }

  /** The text of a well-formed expression spells out that expression and no other. */
  lemma {:induction false} ParseRender(c: Cst)
    requires WellFormed(c)
    ensures Parse(Render(c)) == c
    decreases c, 1
  {
    RenderReads(c);
    var s := Render(c);
    match c
    case Atom(text) =>
      SegmentIsOneToken(s, OR);
      SegmentIsOneToken(s, AND);
    case Paren(inner) =>
      RenderReads(inner);
      ParseRender(inner);
      EncloseWraps(Render(inner));
    case And(parts) =>
      RenderAllReads(parts);
      SegmentIsOneToken(s, OR);
      TokenSplitJoined(RenderAll(parts), AND);
      TokenSplitJoins(s, AND);
      ParseRenderAll(parts, |s|);
    case Or(parts) =>
      RenderAllReads(parts);
      TokenSplitJoined(RenderAll(parts), OR);
      TokenSplitJoins(s, OR);
      ParseRenderAll(parts, |s|);
  }

  lemma EncloseWraps(s: string)
    requires Even(s, 0)
    ensures Wrapped(Enclose(s)) && Enclose(s)[1..|Enclose(s)| - 1] == s
  {
    ClosesInside(s, 1);
    assert Enclose(s)[1..] == s + ")";
  }

  lemma {:induction false} ParseRenderAll(parts: seq<Cst>, bound: nat)
    requires AllWellFormed(parts)
    requires forall i :: 0 <= i < |parts| ==> |RenderAll(parts)[i]| < bound
    ensures ParseAll(RenderAll(parts), bound) == parts
    decreases parts, 0
  {
    if parts != [] {
      ParseRender(parts[0]);
      assert RenderAll(parts)[1..] == RenderAll(parts[1..]);
      ParseRenderAll(parts[1..], bound);
    }
  }
}
