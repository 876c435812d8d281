/** Concrete texts on which the code reads a bare `or` wrongly, and the same operand where it reads it right. */
module SqlExamples {
  import opened Basics
  import opened SqlScan
  import opened SqlTrees
  import opened SqlSegments
  import opened SqlCanonical
  import opened SqlMisreadings
  import opened SqlMarks
  import opened SqlMarkedTexts

  // ---------------------------------------------------------------- an operand in two words

  lemma StartsWithOr(t: string)
    ensures "or" <= t <==> |t| >= 2 && t[0] == 'o' && t[1] == 'r'
  {}

  lemma {:induction false} NothingQuoted(s: string, i: nat)
    requires i <= |s| && QUOTE !in s
    ensures !Quoted(s, i)
    decreases i
  {
    if i > 0 { NothingQuoted(s, i - 1); }
  }

  /** An operator is two or three characters that stand alone. */
  lemma OperatorHere(alnum: Alnum, s: string, i: nat)
    requires i <= |s|
    ensures i + 1 < |s| && s[i] == 'o' && s[i + 1] == 'r'
      && (i == 0 || !IsIdentifier(alnum, s[i - 1])) && (i + 2 == |s| || !IsIdentifier(alnum, s[i + 2]))
      ==> OperatorAt(alnum, s, i) == Some(OR)
    ensures i + 2 < |s| && s[i] == 'a' && s[i + 1] == 'n' && s[i + 2] == 'd'
      && (i == 0 || !IsIdentifier(alnum, s[i - 1])) && (i + 3 == |s| || !IsIdentifier(alnum, s[i + 3]))
      ==> OperatorAt(alnum, s, i) == Some(AND)
    ensures i + 1 == |s| || (i + 1 < |s| && s[i + 1] != 'n' && s[i + 1] != 'r') ==> OperatorAt(alnum, s, i).None?
  {
    if i < |s| { assert s[i..][0] == s[i]; }
    if i + 1 < |s| { assert s[i..][1] == s[i + 1]; }
    if i + 2 < |s| { assert s[i..][2] == s[i + 2]; }
    StartsWithOr(s[i..]);
    StartsWithAnd(s[i..]);
  }

  lemma StartsWithAnd(t: string)
    ensures "and" <= t <==> |t| >= 3 && t[0] == 'a' && t[1] == 'n' && t[2] == 'd'
  {}

  /** One operand character between blanks. */
  lemma PreparedLetter(alnum: Alnum, s: string, i: nat)
    requires i < |s| && QUOTE !in s && !Texts.IsSpace(s[i])
    requires i + 1 == |s| || s[i + 1] == ' '
    ensures Prepared(alnum, s, i) ==
      [s[i]] + (if i + 1 == |s| then [] else Prepared(alnum, s, i + 2))
  {
    NothingQuoted(s, i);
    OperatorHere(alnum, s, i);
    PreparedOther(alnum, s, i);
    if i + 1 < |s| { PreparedSpace(alnum, s, i + 1); }
  }

  /** An operator with a blank behind it. */
  lemma PreparedWord(alnum: Alnum, s: string, i: nat, marker: string)
    requires i < |s| && QUOTE !in s && IsMarker(marker) && OperatorAt(alnum, s, i) == Some(marker)
    requires i + |Keyword(marker)| < |s| && s[i + |Keyword(marker)|] == ' '
    ensures Prepared(alnum, s, i) == marker + Prepared(alnum, s, i + |Keyword(marker)| + 1)
  {
    hide OperatorAt, Prepared, Keyword;
    NothingQuoted(s, i);
    PreparedOperator(alnum, s, i);
    PreparedSpace(alnum, s, i + |Keyword(marker)|);
  }

  /** The text of an operand in two words behind a conjunction. */
  function TwoWords(marker: string): string
    requires IsMarker(marker)
  {
    "x and o r " + Keyword(marker) + " y"
  }

  lemma TwoWordsSpelled(marker: string)
    requires IsMarker(marker)
    ensures var s, n := TwoWords(marker), 10 + |Keyword(marker)|;
      && |s| == n + 2 && QUOTE !in s && "x and o" <= s
      && s[6] == 'o' && s[7] == ' ' && s[8] == 'r' && s[9] == ' ' && s[n] == ' ' && s[n + 1] == 'y'
      && (if marker == AND then s[10] == 'a' && s[11] == 'n' && s[12] == 'd' else s[10] == 'o' && s[11] == 'r')
  {
    var s, n := TwoWords(marker), 10 + |Keyword(marker)|;
    assert s[..10] == "x and o r ";
    assert s[..7] == s[..10][..7] == "x and o";
    assert s[10..n] == Keyword(marker);
    assert forall j :: 0 <= j < |Keyword(marker)| ==> s[10 + j] == s[10..n][j];
  }

  lemma TwoWordsOperator(alnum: Alnum, marker: string)
    requires AlnumOk(alnum) && IsMarker(marker)
    ensures var s := TwoWords(marker);
      |s| > 10 && OperatorAt(alnum, s, 10) == Some(marker)
  {
    hide AlnumOk, OperatorAt, TwoWords, Keyword;
    TwoWordsSpelled(marker);
    SpaceIsNoWord(alnum);
    OperatorHere(alnum, TwoWords(marker), 10);
  }

  lemma SpaceIsNoWord(alnum: Alnum)
    requires AlnumOk(alnum)
    ensures !IsIdentifier(alnum, ' ')
  {
    assert Texts.IsSpace(' ');
  }

  /** Two letters that are an operand, an operator behind them and a letter at the end. */
  lemma PreparedTail(alnum: Alnum, marker: string)
    requires AlnumOk(alnum) && IsMarker(marker)
    ensures var s := TwoWords(marker);
      |s| > 6 && Prepared(alnum, s, 6) == ['o'] + (['r'] + (marker + ['y']))
  {
    hide Prepared, AlnumOk, OperatorAt, Keyword, TwoWords;
    var s, n := TwoWords(marker), 10 + |Keyword(marker)|;
    TwoWordsSpelled(marker);
    TwoWordsOperator(alnum, marker);
    PreparedLetter(alnum, s, 6);
    PreparedLetter(alnum, s, 8);
    PreparedWord(alnum, s, 10, marker);
    PreparedLetter(alnum, s, n + 1);
    assert ['y'] + [] == ['y'];
  }

  lemma PreparedFront(alnum: Alnum, s: string)
    requires AlnumOk(alnum) && QUOTE !in s && "x and o" <= s
    ensures Prepared(alnum, s, 0) == ['x'] + (AND + Prepared(alnum, s, 6))
  {
    assert s[..7] == "x and o";
    assert forall j :: 0 <= j < 7 ==> s[j] == s[..7][j];
    hide Prepared, AlnumOk, OperatorAt;
    SpaceIsNoWord(alnum);
    OperatorHere(alnum, s, 2);
    PreparedLetter(alnum, s, 0);
    PreparedWord(alnum, s, 2, AND);
  }

  /** An operand written as the two words `o` and `r` becomes a bare `or` between two markers. */
  lemma TwoWordsAreJoined(alnum: Alnum, marker: string)
    requires AlnumOk(alnum) && IsMarker(marker)
    ensures Prepared(alnum, "x and o r " + Keyword(marker) + " y", 0) == "x@and@or" + marker + "y"
  {
    hide Prepared, AlnumOk, Keyword;
    var s := TwoWords(marker);
    TwoWordsSpelled(marker);
    PreparedFront(alnum, s);
    PreparedTail(alnum, marker);
    SpellOut(marker);
  }

  lemma SpellOut(marker: string)
    ensures ['x'] + (AND + (['o'] + (['r'] + (marker + ['y'])))) == "x@and@or" + marker + "y"
  {}

  // ---------------------------------------------------------------- how such operands are read

  lemma LetterOk(c: char)
    requires 'a' <= c <= 'z'
    ensures AtomOk([c])
  {
    assert [c][1..] == [];
  }

  lemma OrOk()
    ensures AtomOk("or")
  {
    assert "or"[1..] == "r" && "or"[1..][1..] == "";
  }

  /** Operands as expressions. */
  function Atoms(texts: seq<string>): (atoms: seq<Cst>)
    ensures |atoms| == |texts|
    ensures forall i :: 0 <= i < |texts| ==> atoms[i] == Atom(texts[i])
  {
    if texts == [] then [] else [Atom(texts[0])] + Atoms(texts[1..])
  }

  function Leaves(texts: seq<string>): (leaves: seq<Tree>)
    ensures |leaves| == |texts|
    ensures forall i :: 0 <= i < |texts| ==> leaves[i] == Leaf(texts[i])
  {
    if texts == [] then [] else [Leaf(texts[0])] + Leaves(texts[1..])
  }

  lemma {:induction false} AtomsRendered(texts: seq<string>)
    ensures RenderAll(Atoms(texts)) == texts && RawAll(Atoms(texts)) == Leaves(texts)
  {
    if texts != [] {
      AtomsRendered(texts[1..]);
      assert Atoms(texts)[1..] == Atoms(texts[1..]);
      assert texts == [texts[0]] + texts[1..];
    }
  }

  lemma AtomsOk(texts: seq<string>)
    requires |texts| >= 2 && forall i :: 0 <= i < |texts| ==> AtomOk(texts[i])
    ensures WellFormed(And(Atoms(texts)))
  {
    hide AtomOk;
    AtomsConjoined(texts, Atoms(texts));
  }

  lemma AtomsConjoined(texts: seq<string>, parts: seq<Cst>)
    requires |parts| == |texts| >= 2 && forall i :: 0 <= i < |texts| ==> parts[i] == Atom(texts[i])
    requires forall i :: 0 <= i < |texts| ==> AtomOk(texts[i])
    ensures WellFormed(And(parts))
  {
    hide AtomOk;
    forall i | 0 <= i < |parts| ensures WellFormed(parts[i]) { assert AtomOk(texts[i]); }
  }

  /** The conjunction `x and o r and y`, as an expression. */
  function Conjunction(): Cst { And(Atoms(["x", "or", "y"])) }

  lemma ConjunctionOk()
    ensures WellFormed(Conjunction()) && Misread(Conjunction(), false, false)
  {
    LetterOk('x');
    LetterOk('y');
    OrOk();
    AtomsOk(["x", "or", "y"]);
    var parts := Conjunction().parts;
    assert Misread(parts[1], 1 > 0, 1 + 1 < |parts| || false);
  }

  /** A conjunction with a bare `or` in the middle is read as a disjunction. */
  lemma ConjunctionIsMisread()
    ensures Render(Conjunction()) == "x@and@or@and@y"
    ensures Raw(Conjunction()).All? && Read(Render(Conjunction())).Any?
  {
    var c := Conjunction();
    ConjunctionOk();
    AtomsRendered(["x", "or", "y"]);
    JoinThree("x", "or", "y");
    ConjunctionSpelled();
    RenderReads(c);
    BareOrIsMisread("and@y");
    OverlappedIsAny(Render(c), 5);
  }

  lemma ConjunctionSpelled()
    ensures "x" + AND + ("or" + AND + "y") == "x@and@or@and@y" == "x@and" + OR + "and@y"
  {}

  lemma JoinThree(a: string, b: string, c: string)
    ensures Join([a, b, c], AND) == a + AND + (b + AND + c)
  {
    assert [a, b, c][1..] == [b, c] && [b, c][1..] == [c];
    assert Join([b, c], AND) == b + AND + c;
  }

  /** In front a bare `or` is read right: `or@and@y` is the conjunction it looks like. */
  lemma LeadingOrIsRead(text: string)
    requires AtomOk(text)
    ensures var c := And([Atom("or"), Atom(text)]);
      Render(c) == "or" + AND + text && Read(Render(c)) == All([Leaf("or"), Leaf(text)])
  {
    var texts := ["or", text];
    var c := And(Atoms(texts));
    OrOk();
    AtomsOk(texts);
    AtomsRendered(texts);
    JoinTwo("or", text);
    assert c == And([Atom("or"), Atom(text)]) && Leaves(texts) == [Leaf("or"), Leaf(text)];
    assert Render(c) == Join(texts, AND) && Raw(c) == All(Leaves(texts));
    NotMisread(c);
    hide AtomOk;
    ReadRenderIff(c);
  }

  lemma JoinTwo(a: string, b: string)
    ensures Join([a, b], AND) == a + AND + b
  {
    assert [a, b][1..] == [b];
  }

  lemma NotMisread(c: Cst)
    requires c.And? && |c.parts| == 2 && c.parts[0].Atom? && c.parts[1].Atom?
    ensures !Misread(c, false, false)
  {}

  // ---------------------------------------------------------------- what a misreading does

  /** Marked text with a bare `or` behind an and-marker is cut through that marker, whatever follows. */
  lemma BareOrIsMisread(rest: string)
    ensures Split("x@and" + OR + rest, OR) == ["x@and"] + Split(rest, OR)
    ensures Cut("x@and" + OR + rest, OR, 0, false) == 5
  {
    var s := "x@and" + OR + rest;
    LetterOk('x');
    CutOver("x", OR, AND + ("or@" + rest), 0, false);
    CutOverAnd("or@" + rest);
    MarkersMeet(rest);
    JoinHead("x@and", OR, rest);
    SplitUnfold(s, OR, 5, "x@and", rest);
  }

  lemma MarkersMeet(rest: string)
    ensures "x@and" + OR + rest == "x" + (AND + ("or@" + rest))
    ensures "or@" <= "or@" + rest
  {}

  lemma StumpStays()
    ensures Canonical("x@and", 1) == "x@and"
  {
    LetterOk('x');
    CutOver("x", OR, "@and", 0, false);
    CutOver("x", AND, "@and", 0, false);
    StumpUncut(OR);
    StumpUncut(AND);
    assert "x" + "@and" == "x@and";
  }

  /** The conjunction with a further operand, behind redundant parentheses or without them. */
  function InParentheses(): Cst { And([Paren(Conjunction()), Atom("z")]) }
  function Bare(): Cst { And(Atoms(["x", "or", "y", "z"])) }

  lemma {:induction false} FlattenLeaves(parts: seq<Tree>)
    requires forall i :: 0 <= i < |parts| ==> parts[i].Leaf?
    ensures FlattenAll(parts) == parts
  {
    if parts != [] {
      FlattenLeaves(parts[1..]);
      assert parts == [parts[0]] + parts[1..];
    }
  }

  lemma MeaningsEqual()
    ensures Meaning(InParentheses()) == Meaning(Bare())
  {
    var leaves, z := Leaves(["x", "or", "y"]), Leaf("z");
    AtomsRendered(["x", "or", "y"]);
    AtomsRendered(["x", "or", "y", "z"]);
    assert InParentheses().parts[1..] == [Atom("z")];
    assert RawAll([Atom("z")]) == [z];
    assert RawAll(InParentheses().parts) == [All(leaves), z];
    assert Leaves(["x", "or", "y", "z"]) == leaves + [z];
    FlattenLeaves(leaves + [z]);
    FlattenNested(leaves, z);
  }

  lemma FlattenNested(leaves: seq<Tree>, z: Tree)
    requires (forall i :: 0 <= i < |leaves| ==> leaves[i].Leaf?) && z.Leaf?
    ensures FlattenAll([All(leaves), z]) == leaves + [z]
  {
    FlattenLeaves(leaves);
    FlattenLeaves([z]);
    assert [All(leaves), z][1..] == [z];
  }

  /** The misread conjunction comes out as an alternative, in parentheses. */
  lemma ParenthesesCanonical()
    ensures WellFormed(InParentheses())
    ensures Canonical(Render(InParentheses()), 0) != [] && Canonical(Render(InParentheses()), 0)[0] == '('
  {
    var c, s := InParentheses(), Render(InParentheses());
    var operands := ["(" + Render(Conjunction()) + ")", "z"];
    ParenthesesOk();
    SplitJoins(s, AND);
    ReadsAsAll(s, operands);
    ConjunctionReads();
    CanonicalPrints(s, 0);
    PrintsParenthesis(ReadAll(operands, |s|));
  }

  lemma ParenthesesOk()
    ensures WellFormed(InParentheses())
    ensures var s, operands := Render(InParentheses()), ["(" + Render(Conjunction()) + ")", "z"];
      Strip(s) == s && Split(s, OR) == [s] && Split(s, AND) == operands
  {
    var c, s := InParentheses(), Render(InParentheses());
    ConjunctionOk();
    LetterOk('z');
    RenderReads(c);
    OperandsRendered(c);
    var operands := RenderAll(c.parts);
    assert c.parts[1..] == [Atom("z")];
    assert operands == ["(" + Render(Conjunction()) + ")", "z"];
    assert s + [] == s;
    ConjunctionCut(operands, []);
    SplitJoined(operands, AND);
  }

  lemma ConjunctionReads()
    ensures Read("(" + Render(Conjunction()) + ")").Any?
  {
    ConjunctionOk();
    ConjunctionIsMisread();
    RenderReads(Conjunction());
    EncloseStripsIff(Render(Conjunction()));
  }

  lemma PrintsParenthesis(parts: seq<Tree>)
    requires |parts| > 1 && parts[0].Any?
    ensures Print(All(parts), 0) != [] && Print(All(parts), 0)[0] == '('
  {
    assert Print(parts[0], 2)[0] == '(';
  }

  lemma BareCanonical()
    ensures WellFormed(Bare())
    ensures Canonical(Render(Bare()), 0) != [] && Canonical(Render(Bare()), 0)[0] == 'x'
  {
    var s := Render(Bare());
    LetterOk('x');
    LetterOk('y');
    LetterOk('z');
    OrOk();
    AtomsOk(["x", "or", "y", "z"]);
    BareRendered();
    BareOrIsMisread("and@y@and@z");
    StumpStays();
    StartsWithX(s, Split("and@y@and@z", OR));
  }

  lemma StartsWithX(s: string, rest: seq<string>)
    requires s != [] && s[0] == 'x' && Split(s, OR) == ["x@and"] + rest && rest != []
    requires Canonical("x@and", 1) == "x@and"
    ensures Canonical(s, 0) != [] && Canonical(s, 0)[0] == 'x'
  {
    SplitJoins(s, OR);
    assert Strip(s) == s;
    var parts := CanonicalAll(Split(s, OR), 1, |s|);
    assert parts[0] == "x@and" && Join(parts, OR)[0] == 'x';
  }

  lemma BareRendered()
    ensures Render(Bare()) == "x@and" + OR + "and@y@and@z"
  {
    AtomsRendered(["x", "or", "y", "z"]);
    JoinCons("x", ["or", "y", "z"], AND);
    JoinThree("or", "y", "z");
    assert ["x"] + ["or", "y", "z"] == ["x", "or", "y", "z"];
    BareSpelled();
  }

  lemma BareSpelled()
    ensures "x" + AND + ("or" + AND + ("y" + AND + "z")) == "x@and" + OR + "and@y@and@z"
    ensures "or" + AND + ("y" + AND + "z") == "or" + AND + "y" + AND + "z"
  {}

  /** So parentheses around it, which mean nothing, show in the canonical text. */
  lemma RedundantParenthesesShow()
    ensures WellFormed(InParentheses()) && WellFormed(Bare()) && Meaning(InParentheses()) == Meaning(Bare())
    ensures Canonical(Render(InParentheses()), 0) != Canonical(Render(Bare()), 0)
  {
    MeaningsEqual();
    ParenthesesCanonical();
    BareCanonical();
  }
}
