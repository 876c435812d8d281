/**
  `_strip_balanced_outer_parentheses` counts parentheses inside quotes. Here it
  stands beside the test that skips quotes, as every other scanner of the file
  does, with the texts on which both agree.
*/
module SqlPairs {
  import opened SqlScan
  import opened SqlSegments
  import opened SqlCanonical

  /** The parenthesis count, quotes skipped, first returns to zero at the very end. */
  predicate ClosesUnquotedAtEnd(s: string, depth: int, quoted: bool) {
    if s == [] then depth == 0 && !quoted
    else if quoted then ClosesUnquotedAtEnd(s[1..], depth, s[0] != QUOTE)
    else if s[0] == QUOTE then ClosesUnquotedAtEnd(s[1..], depth, true)
    else if s[0] == ')' && depth == 1 && |s| > 1 then false
    else ClosesUnquotedAtEnd(s[1..], depth + Delta(s[0]), false)
  }

  /** The first and the last character are a pair of parentheses. */
  predicate Paired(s: string) {
    |s| >= 2 && s[0] == '(' && s[|s| - 1] == ')' && ClosesUnquotedAtEnd(s, 0, false)
  }

  /** Strips the outer pairs, and nothing but pairs. */
  function StripPairs(s: string): (r: string)
    ensures |r| <= |s|
    decreases |s|
  {
    if Paired(s) then StripPairs(s[1..|s| - 1]) else s
  }

  lemma {:induction false} ClosesUnquotedInside(t: string, depth: nat, quoted: bool)
    requires depth >= 1
    ensures ClosesUnquotedAtEnd(t + ")", depth, quoted) <==> Balanced(t, depth - 1, quoted)
  {
    var s := t + ")";
    if t == [] {
      assert s == ")" && s[1..] == [];
    } else {
      assert s[1..] == t[1..] + ")";
      if quoted { ClosesUnquotedInside(t[1..], depth, t[0] != QUOTE); }
      else if t[0] == QUOTE { ClosesUnquotedInside(t[1..], depth, true); }
      else if t[0] == '(' { ClosesUnquotedInside(t[1..], depth + 1, false); }
      else if t[0] == ')' { if depth > 1 { ClosesUnquotedInside(t[1..], depth - 1, false); } }
      else { ClosesUnquotedInside(t[1..], depth, false); }
    }
  }

  /** Which of the two tests accepts a parenthesized text, by what stands between the parentheses. */
  lemma EnclosedTests(t: string)
    ensures Paired(Enclose(t)) <==> Balanced(t, 0, false)
    ensures Wrapped(Enclose(t)) <==> Even(t, 0)
  {
    var s := Enclose(t);
    assert s[1..] == t + ")";
    ClosesUnquotedInside(t, 1, false);
    ClosesInside(t, 1);
  }

  predicate Enclosed(s: string) { |s| >= 2 && s[0] == '(' && s[|s| - 1] == ')' }

  lemma EnclosedIsEnclose(s: string)
    requires Enclosed(s)
    ensures s == Enclose(s[1..|s| - 1])
  {}

  /** At no layer of parentheses that is taken off do quoted parentheses tip the balance. */
  predicate QuotesDoNotCount(s: string)
    decreases |s|
  {
    Enclosed(s) ==>
      var inner := s[1..|s| - 1];
      && (Even(inner, 0) <==> Balanced(inner, 0, false))
      && (Even(inner, 0) ==> QuotesDoNotCount(inner))
  }

  /** The code strips exactly the outer pairs exactly when quoted parentheses do not tip the balance. */
  lemma {:induction false} StripsPairsIff(s: string)
    ensures Strip(s) == StripPairs(s) <==> QuotesDoNotCount(s)
    decreases |s|
  {
    if Enclosed(s) {
      var inner := s[1..|s| - 1];
      EnclosedIsEnclose(s);
      EnclosedTests(inner);
      StripsPairsIff(inner);
    }
  }

  lemma {:induction false} PlainFront(t: string, quoted: bool)
    requires Plain(t + ")", quoted)
    ensures Plain(t, quoted)
  {
    if t != [] {
      assert (t + ")")[1..] == t[1..] + ")";
      PlainFront(t[1..], if t[0] == QUOTE then !quoted else quoted);
    }
  }

  lemma {:induction false} EvenBalances(t: string, depth: nat, quoted: bool)
    requires Balanced(t + ")", depth + 1, quoted) && Plain(t + ")", quoted) && Even(t, depth)
    ensures Balanced(t, depth, quoted)
  {
    if t == [] {
      assert (t + ")")[1..] == [];
    } else {
      assert (t + ")")[1..] == t[1..] + ")";
      if quoted { EvenBalances(t[1..], depth, t[0] != QUOTE); }
      else { EvenBalances(t[1..], depth + Delta(t[0]), t[0] == QUOTE); }
    }
  }

  /** Without quoted parentheses, in text whose quotes close, it always does. */
  lemma {:induction false} PlainQuotesDoNotCount(s: string)
    requires Balanced(s, 0, false) && Plain(s, false)
    ensures QuotesDoNotCount(s)
    decreases |s|
  {
    if Enclosed(s) {
      var inner := s[1..|s| - 1];
      EnclosedIsEnclose(s);
      assert s[1..] == inner + ")";
      PlainFront(inner, false);
      if Even(inner, 0) {
        EvenBalances(inner, 0, false);
        PlainQuotesDoNotCount(inner);
      }
      if Balanced(inner, 0, false) { PlainEven(inner, 0, false); }
    }
  }

  // ---------------------------------------------------------------- a pair that is none

  /** An operand that compares a column with a character. */
  function Compared(name: char, value: char): string { [name, '=', QUOTE, value, QUOTE] }

  predicate Letter(c: char) { 'a' <= c <= 'z' }

  /** One character in front of a text, for each scanner. */
  lemma Front(c: char, rest: string, m: string, depth: int, d: nat, quoted: bool)
    requires IsMarker(m) && (quoted || depth != 0 || c != '@')
    ensures var s := [c] + rest;
      && Cut(s, m, depth, quoted) ==
           1 + Cut(rest, m, if quoted then depth else depth + Delta(c), quoted != (c == QUOTE))
      && (quoted || Delta(c) == 0 ==> (Balanced(s, d, quoted) <==> Balanced(rest, d, quoted != (c == QUOTE))))
  {
    assert ([c] + rest)[1..] == rest;
    assert m[0] == '@';
  }

  lemma FrontEven(c: char, rest: string, d: nat)
    ensures Even([c] + rest, d) <==> d + Delta(c) >= 0 && Even(rest, d + Delta(c))
  {
    assert ([c] + rest)[1..] == rest;
  }

  /** How the scanners pass over such an operand; only the count without quotes sees the character. */
  lemma OverCompared(name: char, value: char, rest: string, m: string, depth: int, d: nat)
    requires Letter(name) && value != QUOTE && IsMarker(m)
    ensures var s := Compared(name, value) + rest;
      && Cut(s, m, depth, false) == 5 + Cut(rest, m, depth, false)
      && (Balanced(s, d, false) <==> Balanced(rest, d, false))
      && (Even(s, d) <==> d + Delta(value) >= 0 && Even(rest, d + Delta(value)))
  {
    var s4 := [QUOTE] + rest;
    var s3 := [value] + s4;
    var s2 := [QUOTE] + s3;
    var s1 := ['='] + s2;
    assert Compared(name, value) + rest == [name] + s1;
    Front(name, s1, m, depth, d, false);
    Front('=', s2, m, depth, d, false);
    Front(QUOTE, s3, m, depth, d, false);
    Front(value, s4, m, depth, d, true);
    Front(QUOTE, rest, m, depth, d, true);
    ComparedEven(name, value, rest, d);
  }

  lemma ComparedEven(name: char, value: char, rest: string, d: nat)
    requires Letter(name)
    ensures Even(Compared(name, value) + rest, d) <==> d + Delta(value) >= 0 && Even(rest, d + Delta(value))
  {
    var s4 := [QUOTE] + rest;
    var s3 := [value] + s4;
    var s2 := [QUOTE] + s3;
    var s1 := ['='] + s2;
    assert Compared(name, value) + rest == [name] + s1;
    FrontEven(name, s1, d);
    FrontEven('=', s2, d);
    FrontEven(QUOTE, s3, d);
    FrontEven(value, s4, d);
    if d + Delta(value) >= 0 { FrontEven(QUOTE, rest, d + Delta(value)); }
  }

  lemma OverMarkerBelow(rest: string, m: string)
    requires IsMarker(m)
    ensures Cut(AND + rest, m, -1, false) == 5 + Cut(rest, m, -1, false)
  {
    var s3 := ['d'] + (['@'] + rest);
    assert AND + rest == ['@'] + (['a'] + (['n'] + s3));
    Front('@', ['a'] + (['n'] + s3), m, -1, 0, false);
    Front('a', ['n'] + s3, m, -1, 0, false);
    Front('n', s3, m, -1, 0, false);
    Front('d', ['@'] + rest, m, -1, 0, false);
    Front('@', rest, m, -1, 0, false);
  }

  /** Between the operands: a closing parenthesis, the marker and an opening one. */
  lemma OverMiddle(rest: string, m: string)
    requires IsMarker(m)
    ensures var s := [')'] + (AND + (['('] + rest));
      && Cut(s, m, 0, false) == 7 + Cut(rest, m, 0, false)
      && (Even(s, 1) <==> Even(rest, 1))
  {
    var open := ['('] + rest;
    Front(')', AND + open, m, 0, 1, false);
    FrontEven(')', AND + open, 1);
    OverMarkerBelow(open, m);
    assert (AND + open)[5..] == open;
    OverMarker(AND + open, AND, 0);
    Front('(', rest, m, -1, 0, false);
    FrontEven('(', rest, 0);
  }

  function Sides(l: char, r: char): string {
    Enclose(Compared('a', l)) + AND + Enclose(Compared('b', r))
  }

  function Middle(l: char, r: char): string {
    Compared('a', l) + ([')'] + (AND + (['('] + Compared('b', r))))
  }

  lemma SidesSplit(l: char, r: char)
    requires l != QUOTE && r != QUOTE
    ensures Split(Sides(l, r), AND) == [Enclose(Compared('a', l)), Enclose(Compared('b', r))]
  {
    assert Compared('a', l) + [] == Compared('a', l) && Compared('b', r) + [] == Compared('b', r);
    OverCompared('a', l, [], AND, 0, 0);
    OverCompared('b', r, [], AND, 0, 0);
    EncloseSegment(Compared('a', l), AND);
    EncloseSegment(Compared('b', r), AND);
    SplitJoined([Enclose(Compared('a', l)), Enclose(Compared('b', r))], AND);
  }

  lemma MiddleScans(m: string)
    requires IsMarker(m)
    ensures Even(Middle('(', ')'), 0) && Cut(Middle('(', ')'), m, 0, false) == |Middle('(', ')')|
  {
    var right := Compared('b', ')');
    assert right + [] == right;
    OverCompared('b', ')', [], m, 0, 1);
    OverMiddle(right, m);
    OverCompared('a', '(', [')'] + (AND + (['('] + right)), m, 0, 0);
  }

  lemma MiddleIsCanonical()
    ensures var middle := Middle('(', ')');
      Canonical(middle, 0) == middle && Split(middle, AND) == [middle]
  {
    var middle := Middle('(', ')');
    MiddleScans(OR);
    MiddleScans(AND);
    assert middle[0] == 'a';
  }

  lemma SidesEnclose(l: char, r: char)
    ensures Sides(l, r) == Enclose(Middle(l, r))
  {}

  lemma MiddleUnbalanced(l: char, r: char)
    requires l != QUOTE && r != QUOTE
    ensures !Balanced(Middle(l, r), 0, false)
  {
    OverCompared('a', l, [')'] + (AND + (['('] + Compared('b', r))), AND, 0, 0);
  }

  /** `(a='(')@and@(b=')')` loses parentheses that are no pair, and with them its conjunction. */
  lemma NoPairIsStripped()
    ensures Sides('(', ')') == "(a='(')@and@(b=')')" && Middle('(', ')') == "a='(')@and@(b=')'"
    ensures var text, middle := Sides('(', ')'), Middle('(', ')');
      && Split(text, AND) == ["(a='(')", "(b=')')"] && StripPairs(text) == text
      && Canonical(text, 0) == middle && Split(middle, AND) == [middle]
  {
    var middle := Middle('(', ')');
    hide Split, Middle, Sides;
    NoPairSpelled();
    SidesSplit('(', ')');
    SidesEnclose('(', ')');
    MiddleIsCanonical();
    MiddleScans(AND);
    MiddleUnbalanced('(', ')');
    EnclosedTests(middle);
    EncloseStripsIff(middle);
  }

  lemma NoPairSpelled()
    ensures Sides('(', ')') == "(a='(')@and@(b=')')" && Middle('(', ')') == "a='(')@and@(b=')'"
    ensures Enclose(Compared('a', '(')) == "(a='(')" && Enclose(Compared('b', ')')) == "(b=')')"
  {}
}
