/**
  Whether the code misreads a marked text, decided in one pass from left to
  right: an operand `or` directly behind an and-marker and directly before a
  marker, in a layer of the text that the code reads.
*/
module SqlOverlaps {
  import opened Sequences
  import opened SqlScan
  import opened SqlTrees
  import opened SqlSegments
  import opened SqlTokens
  import opened SqlCanonical
  import opened SqlMisreadings
  import opened SqlMeanings
  import opened SqlTexts

  /** Where in an operand the pass stands. */
  datatype Place = Inside | Start | BehindAnd

  /** An operand ends here: at the end, before a closing parenthesis or before a marker. */
  predicate EndsHere(rest: string) {
    rest == [] || rest[0] == ')' || rest[0] == '@'
  }

  /** Behind an opening parenthesis: its partner ends an operand. */
  predicate ClosesOperand(s: string, depth: nat, quoted: bool) {
    if s == [] then false
    else if quoted then ClosesOperand(s[1..], depth, s[0] != QUOTE)
    else if s[0] == ')' && depth <= 1 then EndsHere(s[1..])
    else ClosesOperand(s[1..], if s[0] == ')' then depth - 1 else depth + Delta(s[0]), s[0] == QUOTE)
  }

  /**
    The pass. Parentheses that are no operand of their own hide what they hold:
    `hidden` counts the open ones.
  */
  predicate HasOverlap(s: string, place: Place, hidden: nat, quoted: bool) {
    if s == [] then false
    else if quoted then HasOverlap(s[1..], Inside, hidden, s[0] != QUOTE)
    else if s[0] == QUOTE then HasOverlap(s[1..], Inside, hidden, true)
    else if hidden > 0 then HasOverlap(s[1..], Inside, hidden + Delta(s[0]), false)
    else if place == BehindAnd && "or@" <= s then true
    else if s[0] == '(' then
      if place != Inside && ClosesOperand(s[1..], 1, false)
      then HasOverlap(s[1..], Start, 0, false)
      else HasOverlap(s[1..], Inside, 1, false)
    else if AND <= s then HasOverlap(s[5..], BehindAnd, 0, false)
    else if OR <= s then HasOverlap(s[4..], Start, 0, false)
    else HasOverlap(s[1..], Inside, 0, false)
  }

  // ---------------------------------------------------------------- closing parentheses

  lemma {:induction false} ClosesOver(t: string, rest: string, depth: nat, quoted: bool)
    requires Balanced(t, depth, quoted)
    ensures ClosesOperand(t + ([')'] + rest), depth + 1, quoted) <==> EndsHere(rest)
    decreases |t|
  {
    var s := t + ([')'] + rest);
    if t == [] {
      assert s == [')'] + rest && s[1..] == rest;
    } else {
      assert s[0] == t[0] && s[1..] == t[1..] + ([')'] + rest);
      ClosesOver(t[1..], rest, if quoted then depth else depth + Delta(t[0]), quoted != (t[0] == QUOTE));
    }
  }

  /** An operand without a marker of its own has no inner place where an operand ends. */
  lemma {:induction false} ClosesLate(t: string, rest: string, depth: nat, quoted: bool)
    requires Segment(t, AND, depth, quoted) && Plain(t, quoted) && depth >= 1
    requires ClosesOperand(t + rest, depth, quoted)
    ensures ClosesAtEnd(t, depth)
    decreases |t|
  {
    assert t != [];
    var s := t + rest;
    assert s[0] == t[0] && s[1..] == t[1..] + rest;
    if !quoted && t[0] == ')' && depth == 1 {
      if |t| > 1 { assert s[1..][0] == t[1..][0]; }
    } else {
      ClosesLate(t[1..], rest, if quoted then depth else depth + Delta(t[0]), quoted != (t[0] == QUOTE));
    }
  }

  // ---------------------------------------------------------------- passing over an operand

  lemma FrontMarkers(c: char, rest: string)
    requires c != '@'
    ensures !(AND <= [c] + rest) && !(OR <= [c] + rest)
  {
    assert ([c] + rest)[0] == c;
  }

  /** One character that starts no marker, inside an operand. */
  lemma OverlapStep(c: char, rest: string, hidden: nat, quoted: bool)
    requires quoted || hidden > 0 || c != '@'
    requires !quoted && c == ')' ==> hidden > 0
    ensures HasOverlap([c] + rest, Inside, hidden, quoted) <==>
      HasOverlap(rest, Inside, if quoted then hidden else hidden + Delta(c), quoted != (c == QUOTE))
  {
    assert ([c] + rest)[0] == c && ([c] + rest)[1..] == rest;
    if c != '@' { FrontMarkers(c, rest); }
  }

  lemma {:induction false} OverlapOver(t: string, rest: string, depth: nat, quoted: bool)
    requires Segment(t, AND, depth, quoted)
    ensures HasOverlap(t + rest, Inside, depth, quoted) <==> HasOverlap(rest, Inside, 0, false)
    decreases |t|
  {
    if t == [] {
      assert t + rest == rest;
    } else {
      SegmentStep(t, AND, depth, quoted);
      CharInFront(t, rest);
      OverlapStep(t[0], t[1..] + rest, depth, quoted);
      OverlapOver(t[1..], rest, if quoted then depth else depth + Delta(t[0]), quoted != (t[0] == QUOTE));
    }
  }

  /** Where an operand ends the place does not matter. */
  lemma EndPlace(rest: string, place: Place)
    requires EndsHere(rest)
    ensures HasOverlap(rest, place, 0, false) <==> HasOverlap(rest, Inside, 0, false)
  {
    StartsOr(rest);
  }

  predicate Followed(rest: string) { rest != [] && rest[0] == '@' }

  /** The first character of an operand. */
  lemma OverlapStart(c: char, rest: string, place: Place)
    requires c != '@' && c != ')'
    requires c == '(' && place != Inside ==> !ClosesOperand(rest, 1, false)
    ensures HasOverlap([c] + rest, place, 0, false) <==>
      || (place == BehindAnd && "or@" <= [c] + rest)
      || HasOverlap([c] + rest, Inside, 0, false)
  {
    assert ([c] + rest)[0] == c && ([c] + rest)[1..] == rest;
    FrontMarkers(c, rest);
    StartsOr([c] + rest);
  }

  lemma AtomFirst(text: string)
    requires Segment(text, AND, 0, false) && text != []
    ensures text[0] != '@' && text[0] != ')'
  {}

  lemma AtomNotClosed(text: string, rest: string)
    requires AtomOk(text) && Plain(text, false) && text != [] && text[0] == '('
    ensures !ClosesOperand(text[1..] + rest, 1, false)
  {
    if ClosesOperand(text[1..] + rest, 1, false) {
      assert Segment(text[1..], AND, 1, false);
      ClosesLate(text[1..], rest, 1, false);
      LastCloses(text[1..], 1);
      assert Wrapped(text);
    }
  }

  lemma {:induction false} LastCloses(s: string, depth: nat)
    requires s != [] && depth >= 1 && ClosesAtEnd(s, depth)
    ensures s[|s| - 1] == ')'
  {
    if |s| > 1 {
      LastCloses(s[1..], depth + Delta(s[0]));
    }
  }

  lemma AtomScan(text: string, rest: string, place: Place)
    requires AtomOk(text) && Plain(text, false) && EndsHere(rest)
    ensures HasOverlap(text + rest, place, 0, false) <==>
      (place == BehindAnd && Followed(rest) && text == "or") || HasOverlap(rest, Inside, 0, false)
  {
    if text == [] {
      assert text + rest == rest;
      EndPlace(rest, place);
    } else {
      AtomFirst(text);
      CharInFront(text, rest);
      if text[0] == '(' { AtomNotClosed(text, rest); }
      OverlapStart(text[0], text[1..] + rest, place);
      OverlapOver(text, rest, 0, false);
      AtomIsOr(text, rest);
    }
  }

  lemma AtomIsOr(text: string, rest: string)
    requires Segment(text, AND, 0, false) && EndsHere(rest)
    ensures "or@" <= text + rest <==> text == "or" && Followed(rest)
  {
    var s := text + rest;
    StartsOr(s);
    SegmentThird(text);
    assert forall i :: 0 <= i < |text| ==> s[i] == text[i];
    if rest != [] { assert s[|text|] == rest[0]; }
    if |text| == 2 && text[0] == 'o' && text[1] == 'r' { assert text == "or"; }
  }

  // ---------------------------------------------------------------- passing over an expression

  lemma OverlapAnd(rest: string)
    ensures HasOverlap(AND + rest, Inside, 0, false) <==> HasOverlap(rest, BehindAnd, 0, false)
  {
    var s := AND + rest;
    assert s[..5] == AND && s[5..] == rest && s[0] == '@';
  }

  lemma OverlapOr(rest: string)
    ensures HasOverlap(OR + rest, Inside, 0, false) <==> HasOverlap(rest, Start, 0, false)
  {
    var s := OR + rest;
    assert s[..4] == OR && s[4..] == rest && s[0] == '@' && s[1] == 'o';
  }

  lemma OverlapClose(rest: string)
    ensures HasOverlap([')'] + rest, Inside, 0, false) <==> HasOverlap(rest, Inside, 0, false)
  {
    assert ([')'] + rest)[0] == ')' && ([')'] + rest)[1..] == rest;
    FrontMarkers(')', rest);
  }

  lemma OverlapOpen(rest: string, place: Place)
    requires place != Inside && ClosesOperand(rest, 1, false)
    ensures HasOverlap(['('] + rest, place, 0, false) <==> HasOverlap(rest, Start, 0, false)
  {
    assert (['('] + rest)[0] == '(' && (['('] + rest)[1..] == rest;
    StartsOr(['('] + rest);
  }

  lemma {:induction false} ScanExpression(c: Cst, rest: string, place: Place)
    requires WellFormed(c) && PlainAtoms(c) && EndsHere(rest) && place != Inside
    requires c.And? || c.Or? ==> place == Start
    requires c.Or? ==> !Followed(rest)
    ensures HasOverlap(Render(c) + rest, place, 0, false) <==>
      Misread(c, place == BehindAnd, Followed(rest)) || HasOverlap(rest, Inside, 0, false)
    decreases c, 1
  {
    match c
    case Atom(text) => AtomScan(text, rest, place);
    case Paren(inner) =>
      var r, tail := Render(inner), [')'] + rest;
      assert Render(c) + rest == ['('] + (r + tail);
      RenderReads(inner);
      ClosesOver(r, rest, 0, false);
      OverlapOpen(r + tail, place);
      ScanExpression(inner, tail, Start);
      OverlapClose(rest);
    case And(parts) => ScanConjunction(parts, rest, place);
    case Or(parts) => ScanAlternatives(parts, rest);
  }

  /** A part of a conjunction, from some operand on, is misread. */
  ghost predicate SomeOperand(parts: seq<Cst>, behindAnd: bool, followed: bool) {
    exists i :: 0 <= i < |parts| && Misread(parts[i], i > 0 || behindAnd, i + 1 < |parts| || followed)
  }

  lemma OperandFirst(parts: seq<Cst>, behindAnd: bool, followed: bool)
    requires parts != []
    ensures SomeOperand(parts, behindAnd, followed) <==>
      || Misread(parts[0], behindAnd, |parts| > 1 || followed)
      || (|parts| > 1 && SomeOperand(parts[1..], true, followed))
  {
    var tail := parts[1..];
    if SomeOperand(parts, behindAnd, followed) {
      var i :| 0 <= i < |parts| && Misread(parts[i], i > 0 || behindAnd, i + 1 < |parts| || followed);
      if i > 0 { assert Misread(tail[i - 1], i - 1 > 0 || true, i - 1 + 1 < |tail| || followed); }
    }
    if SomeOperand(tail, true, followed) {
      var i :| 0 <= i < |tail| && Misread(tail[i], i > 0 || true, i + 1 < |tail| || followed);
      assert Misread(parts[i + 1], i + 1 > 0 || behindAnd, i + 1 + 1 < |parts| || followed);
    }
    if Misread(parts[0], behindAnd, |parts| > 1 || followed) {
      assert Misread(parts[0], 0 > 0 || behindAnd, 0 + 1 < |parts| || followed);
    }
  }

  lemma {:induction false} ScanConjunction(parts: seq<Cst>, rest: string, place: Place)
    requires parts != [] && AllWellFormed(parts) && AllPlain(parts) && EndsHere(rest) && place != Inside
    requires forall i :: 0 <= i < |parts| ==> parts[i].Atom? || parts[i].Paren?
    ensures HasOverlap(Join(RenderAll(parts), AND) + rest, place, 0, false) <==>
      SomeOperand(parts, place == BehindAnd, Followed(rest)) || HasOverlap(rest, Inside, 0, false)
    decreases parts, 0
  {
    OperandFirst(parts, place == BehindAnd, Followed(rest));
    if |parts| == 1 {
      assert RenderAll(parts) == [Render(parts[0])];
      ScanExpression(parts[0], rest, place);
    } else {
      var tail := Join(RenderAll(parts[1..]), AND) + rest;
      assert RenderAll(parts)[1..] == RenderAll(parts[1..]);
      JoinBehind(RenderAll(parts), rest);
      ScanExpression(parts[0], AND + tail, place);
      OverlapAnd(tail);
      ScanConjunction(parts[1..], rest, BehindAnd);
    }
  }

  lemma AlternativesJoin(parts: seq<Cst>, rest: string)
    requires |parts| > 1
    ensures Join(RenderAll(parts), OR) + rest == Render(parts[0]) + (OR + (Join(RenderAll(parts[1..]), OR) + rest))
  {
    var first, tail := Render(parts[0]), Join(RenderAll(parts[1..]), OR);
    JoinCons(first, RenderAll(parts[1..]), OR);
    Associate(first + OR, tail, rest);
    Associate(first, OR, tail + rest);
  }

  lemma {:induction false} ScanAlternatives(parts: seq<Cst>, rest: string)
    requires parts != [] && AllWellFormed(parts) && AllPlain(parts) && EndsHere(rest) && !Followed(rest)
    requires forall i :: 0 <= i < |parts| ==> !parts[i].Or?
    ensures HasOverlap(Join(RenderAll(parts), OR) + rest, Start, 0, false) <==>
      Misread(Or(parts), false, false) || HasOverlap(rest, Inside, 0, false)
    decreases parts, 0
  {
    MisreadFirst(parts);
    if |parts| == 1 {
      assert RenderAll(parts) == [Render(parts[0])];
      ScanExpression(parts[0], rest, Start);
    } else {
      var tail := Join(RenderAll(parts[1..]), OR) + rest;
      AlternativesJoin(parts, rest);
      ScanExpression(parts[0], OR + tail, Start);
      OverlapOr(tail);
      ScanAlternatives(parts[1..], rest);
    }
  }

  /** The code reads a text as the expression it spells out exactly if the pass finds nothing. */
  lemma TextReadIff(s: string)
    requires Text(s)
    ensures Read(s) == Raw(Parse(s)) <==> !HasOverlap(s, Start, 0, false)
    ensures Misread(Parse(s), false, false) <==> HasOverlap(s, Start, 0, false)
  {
    TextIsExpression(s);
    ReadRenderIff(Parse(s));
    ScanExpression(Parse(s), [], Start);
    assert s + [] == s;
  }

  // ---------------------------------------------------------------- the results, for texts

  /** The canonical text of a text means the same, and a second pass changes nothing. */
  lemma CanonicalKeepsTexts(s: string, env: string -> bool)
    requires Text(s)
    ensures Meaning(Parse(Canonical(s, 0))) == Meaning(Parse(s))
    ensures Eval(Raw(Parse(Canonical(s, 0))), env) == Eval(Raw(Parse(s)), env)
    ensures Canonical(Canonical(s, 0), 0) == Canonical(s, 0)
  {
    TextIsExpression(s);
    var canonical := CanonicalKeepsMeaning(Parse(s));
    ParseRender(canonical);
    FlattenEval(Raw(Parse(s)), env);
    FlattenEval(Raw(canonical), env);
    CanonicalIsIdempotent(Parse(s));
  }

  /**
    Texts with equal canonical texts spell out the same and/or tree. Texts that
    spell out the same tree get equal canonical texts if both are read right.
  */
  lemma CanonicalDecidesTexts(s: string, t: string)
    requires Text(s) && Text(t)
    ensures Canonical(s, 0) == Canonical(t, 0) ==> Meaning(Parse(s)) == Meaning(Parse(t))
    ensures !HasOverlap(s, Start, 0, false) && !HasOverlap(t, Start, 0, false) ==>
      (Canonical(s, 0) == Canonical(t, 0) <==> Meaning(Parse(s)) == Meaning(Parse(t)))
  {
    TextIsExpression(s);
    TextIsExpression(t);
    TextReadIff(s);
    TextReadIff(t);
    CanonicalIffSameMeaning(Parse(s), Parse(t));
  }
}
