/**
  From SQL text to the texts of SqlTexts: operators are marked and whitespace is
  deleted. The result spells out a well-formed expression, and the code reads it
  as that unless an operand is written as the two words `o` and `r` behind an
  `and` and before an operator.
*/
module SqlMarkedTexts {
  import Texts
  import opened Sequences
  import opened SqlScan
  import opened SqlTrees
  import opened SqlSegments
  import opened SqlTokens
  import opened SqlCanonical
  import opened SqlMisreadings
  import opened SqlTexts
  import opened SqlOverlaps
  import opened SqlMarks

  /** `re.sub(r"\s+", "", text)`; quoted whitespace goes too. */
  function Squeeze(s: string): string {
    if s == [] then []
    else if Texts.IsSpace(s[0]) then Squeeze(s[1..])
    else [s[0]] + Squeeze(s[1..])
  }

  /** What the proofs need of `isalnum`: it holds of small letters and neither of parentheses nor of whitespace. */
  ghost predicate AlnumOk(alnum: Alnum) {
    && (forall c :: 'a' <= c <= 'z' ==> alnum(c))
    && !alnum('(') && !alnum(')')
    && (forall c :: Texts.IsSpace(c) ==> !alnum(c))
  }

  /** No '@' stands outside quotes. */
  predicate NoMarks(s: string) {
    forall k :: 0 <= k < |s| && s[k] == '@' ==> Quoted(s, k)
  }

  /** The marked and squeezed text from position `i` on. */
  function Prepared(alnum: Alnum, s: string, i: nat): string
    requires i <= |s|
  {
    Squeeze(Mark(alnum, s, i))
  }

  function SkipSpaces(s: string, i: nat): (j: nat)
    requires i <= |s|
    ensures i <= j <= |s|
    ensures j < |s| ==> !Texts.IsSpace(s[j])
    ensures j > i ==> Texts.IsSpace(s[i])
    decreases |s| - i
  {
    if i < |s| && Texts.IsSpace(s[i]) then SkipSpaces(s, i + 1) else i
  }

  /** Left of `i`, or right at `i`, a word ends. */
  predicate Boundary(alnum: Alnum, s: string, i: nat)
    requires i <= |s|
  {
    i == 0 || !IsIdentifier(alnum, s[i - 1]) || i == |s| || !IsIdentifier(alnum, s[i])
  }

  // ---------------------------------------------------------------- one step

  lemma KeywordHead(alnum: Alnum, s: string, i: nat)
    requires i <= |s| && OperatorAt(alnum, s, i).Some?
    ensures i < |s| && (s[i] == 'a' || s[i] == 'o')
    ensures var n := |Keyword(OperatorAt(alnum, s, i).value)|;
      && i + n <= |s| && Keyword(OperatorAt(alnum, s, i).value) <= s[i..]
      && (i == 0 || !IsIdentifier(alnum, s[i - 1]))
      && Boundary(alnum, s, i + n)
  {
    var keyword := Keyword(OperatorAt(alnum, s, i).value);
    assert keyword <= s[i..];
    assert s[i..][0] == keyword[0];
  }

  lemma NoOperator(alnum: Alnum, s: string, i: nat)
    requires i < |s| && s[i] != 'a' && s[i] != 'o'
    ensures OperatorAt(alnum, s, i).None?
  {
    if OperatorAt(alnum, s, i).Some? { KeywordHead(alnum, s, i); }
  }

  lemma PreparedSpace(alnum: Alnum, s: string, i: nat)
    requires i < |s| && Texts.IsSpace(s[i])
    ensures Prepared(alnum, s, i) == Prepared(alnum, s, i + 1)
    ensures Quoted(s, i + 1) == Quoted(s, i)
  {
    NoOperator(alnum, s, i);
    MarkStep(alnum, s, i);
    assert ([s[i]] + Mark(alnum, s, i + 1))[1..] == Mark(alnum, s, i + 1);
  }

  lemma {:induction false} PreparedSpaces(alnum: Alnum, s: string, i: nat)
    requires i <= |s|
    ensures var j := SkipSpaces(s, i);
      Prepared(alnum, s, i) == Prepared(alnum, s, j) && Quoted(s, j) == Quoted(s, i)
    decreases |s| - i
  {
    if i < |s| && Texts.IsSpace(s[i]) {
      PreparedSpace(alnum, s, i);
      PreparedSpaces(alnum, s, i + 1);
    }
  }

  lemma PreparedOther(alnum: Alnum, s: string, i: nat)
    requires i < |s| && !Texts.IsSpace(s[i])
    requires Quoted(s, i) || s[i] == QUOTE || OperatorAt(alnum, s, i).None?
    ensures Prepared(alnum, s, i) == [s[i]] + Prepared(alnum, s, i + 1)
  {
    MarkStep(alnum, s, i);
    assert ([s[i]] + Mark(alnum, s, i + 1))[1..] == Mark(alnum, s, i + 1);
  }

  lemma {:induction false} SqueezeSolid(solid: string, rest: string)
    requires forall i :: 0 <= i < |solid| ==> !Texts.IsSpace(solid[i])
    ensures Squeeze(solid + rest) == solid + Squeeze(rest)
  {
    if solid == [] {
      assert solid + rest == rest;
    } else {
      SqueezeSolid(solid[1..], rest);
      assert (solid + rest)[1..] == solid[1..] + rest;
      Associate([solid[0]], solid[1..], Squeeze(rest));
      assert [solid[0]] + solid[1..] == solid;
    }
  }

  lemma SqueezeMarker(marker: string, rest: string)
    requires IsMarker(marker)
    ensures Squeeze(marker + rest) == marker + Squeeze(rest)
  {
    SqueezeSolid(marker, rest);
  }

  lemma PreparedOperator(alnum: Alnum, s: string, i: nat)
    requires i < |s| && !Quoted(s, i) && OperatorAt(alnum, s, i).Some?
    ensures var marker := OperatorAt(alnum, s, i).value;
      var n := |Keyword(marker)|;
      && i + n <= |s| && !Quoted(s, i + n)
      && Prepared(alnum, s, i) == marker + Prepared(alnum, s, i + n)
  {
    hide OperatorAt, WordAt, Boundary, IsIdentifier, Keyword;
    KeywordHead(alnum, s, i);
    MarkOperator(alnum, s, i);
    var marker := OperatorAt(alnum, s, i).value;
    SqueezeMarker(marker, Mark(alnum, s, i + |Keyword(marker)|));
  }

  /** What starts a prepared text: nothing, a marker, or the character that stands there. */
  lemma PreparedHead(alnum: Alnum, s: string, k: nat)
    requires k <= |s| && !Quoted(s, k) && NoMarks(s) && (k < |s| ==> !Texts.IsSpace(s[k]))
    ensures var t := Prepared(alnum, s, k);
      && (t == [] <==> k == |s|)
      && (t != [] && t[0] == ')' <==> k < |s| && s[k] == ')')
      && (t != [] && t[0] == '@' <==> k < |s| && OperatorAt(alnum, s, k).Some?)
  {
    if k < |s| {
      if OperatorAt(alnum, s, k).Some? {
        KeywordHead(alnum, s, k);
        PreparedOperator(alnum, s, k);
      } else {
        PreparedOther(alnum, s, k);
      }
    }
  }

  lemma BoundaryBehind(alnum: Alnum, s: string, i: nat)
    requires AlnumOk(alnum) && i < |s| && (Texts.IsSpace(s[i]) || s[i] == '(')
    ensures Boundary(alnum, s, i + 1)
  {}

  // ---------------------------------------------------------------- prepared text is a text

  ghost predicate Readable(s: string, i: nat, depth: nat)
    requires i <= |s|
  {
    NoMarks(s) && Balanced(s[i..], depth, Quoted(s, i)) && Plain(s[i..], Quoted(s, i))
  }

  lemma ReadableStep(s: string, i: nat, depth: nat) returns (depth': nat)
    requires i < |s| && Readable(s, i, depth)
    ensures depth' == if Quoted(s, i) then depth else depth + Delta(s[i])
    ensures Readable(s, i + 1, depth')
  {
    assert s[i..][1..] == s[i + 1..];
    depth' := if Quoted(s, i) then depth else depth + Delta(s[i]);
  }

  lemma ReadableKeyword(s: string, i: nat, depth: nat, keyword: string)
    requires i < |s| && Readable(s, i, depth) && !Quoted(s, i)
    requires (keyword == "and" || keyword == "or") && keyword <= s[i..]
    ensures i + |keyword| <= |s| && Readable(s, i + |keyword|, depth)
  {
    assert forall k :: 0 <= k < |keyword| ==> s[i + k] == s[i..][k] == keyword[k];
    var d := ReadableStep(s, i, depth);
    d := ReadableStep(s, i + 1, d);
    if keyword == "and" { d := ReadableStep(s, i + 2, d); }
  }

  lemma ReadableFront(s: string, i: nat, depth: nat)
    requires i < |s| && Readable(s, i, depth)
    ensures if Quoted(s, i) then s[i] != '(' && s[i] != ')' else s[i] != '@' && (s[i] == ')' ==> depth > 0)
  {
    assert s[i..][0] == s[i];
  }

  /** Prepared SQL passes the check of a text. */
  lemma {:induction false} PreparedText(alnum: Alnum, s: string, i: nat, depth: nat)
    requires i <= |s| && Readable(s, i, depth)
    ensures TextFrom(Prepared(alnum, s, i), depth, Quoted(s, i))
    decreases |s| - i
  {
    hide Readable, TextFrom, OperatorAt, WordAt, Prepared;
    if i == |s| {
      ReadableEnd(alnum, s, depth);
    } else if !Quoted(s, i) && OperatorAt(alnum, s, i).Some? {
      var marker := OperatorAt(alnum, s, i).value;
      KeywordHead(alnum, s, i);
      ReadableKeyword(s, i, depth, Keyword(marker));
      PreparedOperator(alnum, s, i);
      PreparedText(alnum, s, i + |Keyword(marker)|, depth);
      MarkerText(marker, Prepared(alnum, s, i + |Keyword(marker)|), depth);
    } else {
      var depth' := ReadableStep(s, i, depth);
      PreparedText(alnum, s, i + 1, depth');
      if Texts.IsSpace(s[i]) {
        PreparedSpace(alnum, s, i);
      } else {
        ReadableFront(s, i, depth);
        PreparedOther(alnum, s, i);
        StepText(s[i], Prepared(alnum, s, i + 1), depth, Quoted(s, i));
      }
    }
  }

  lemma ReadableEnd(alnum: Alnum, s: string, depth: nat)
    requires Readable(s, |s|, depth)
    ensures TextFrom(Prepared(alnum, s, |s|), depth, Quoted(s, |s|))
  {
    assert s[|s|..] == [];
  }

  // ---------------------------------------------------------------- the pass over SQL text

  /** An operand ends at this place of the SQL text, whitespace not counted. */
  predicate EndsAt(alnum: Alnum, s: string, i: nat)
    requires i <= |s|
  {
    var k := SkipSpaces(s, i);
    k == |s| || s[k] == ')' || OperatorAt(alnum, s, k).Some?
  }

  /** Behind an opening parenthesis of the SQL text: its partner ends an operand. */
  predicate ClosesAt(alnum: Alnum, s: string, i: nat, depth: nat)
    requires i <= |s|
    decreases |s| - i
  {
    if i == |s| then false
    else if Quoted(s, i) then ClosesAt(alnum, s, i + 1, depth)
    else if s[i] == ')' && depth <= 1 then EndsAt(alnum, s, i + 1)
    else if OperatorAt(alnum, s, i).Some? then
      ClosesAt(alnum, s, i + |Keyword(OperatorAt(alnum, s, i).value)|, depth)
    else ClosesAt(alnum, s, i + 1, if s[i] == ')' then depth - 1 else depth + Delta(s[i]))
  }

  /** The letter `r` stands here, and behind it an operator, whitespace not counted. */
  predicate RAt(alnum: Alnum, s: string, j: nat)
    requires j <= |s|
  {
    && j < |s| && s[j] == 'r'
    && var k := SkipSpaces(s, j + 1);
    && k < |s| && OperatorAt(alnum, s, k).Some?
  }

  predicate RBeforeOperator(alnum: Alnum, s: string, i: nat)
    requires i <= |s|
  {
    RAt(alnum, s, SkipSpaces(s, i))
  }

  /** The two words `o` and `r`, and behind them an operator. */
  predicate OrBeforeOperator(alnum: Alnum, s: string, i: nat)
    requires i < |s|
  {
    s[i] == 'o' && RBeforeOperator(alnum, s, i + 1)
  }

  /**
    From position `i` on, an operand written as the two words `o` and `r` stands
    directly behind an `and` and directly before an operator. Parentheses that
    are no operand of their own hide what they hold.
  */
  predicate HasMisreadOr(alnum: Alnum, s: string, i: nat, place: Place, hidden: nat)
    requires i <= |s|
    decreases |s| - i
  {
    if i == |s| then false
    else if Quoted(s, i) then HasMisreadOr(alnum, s, i + 1, Inside, hidden)
    else if Texts.IsSpace(s[i]) then HasMisreadOr(alnum, s, i + 1, place, hidden)
    else if s[i] == QUOTE then HasMisreadOr(alnum, s, i + 1, Inside, hidden)
    else if OperatorAt(alnum, s, i).Some? then
      var marker := OperatorAt(alnum, s, i).value;
      HasMisreadOr(alnum, s, i + |Keyword(marker)|,
                   if hidden > 0 then Inside else if marker == AND then BehindAnd else Start, hidden)
    else if hidden > 0 then HasMisreadOr(alnum, s, i + 1, Inside, hidden + Delta(s[i]))
    else if place == BehindAnd && OrBeforeOperator(alnum, s, i) && Texts.IsSpace(s[i + 1]) then true
    else if s[i] == '(' then
      if place != Inside && ClosesAt(alnum, s, i + 1, 1)
      then HasMisreadOr(alnum, s, i + 1, Start, 0)
      else HasMisreadOr(alnum, s, i + 1, Inside, 1)
    else HasMisreadOr(alnum, s, i + 1, Inside, 0)
  }

  // ---------------------------------------------------------------- closing parentheses

  lemma EndsAgree(alnum: Alnum, s: string, i: nat)
    requires i <= |s| && !Quoted(s, i) && NoMarks(s)
    ensures EndsHere(Prepared(alnum, s, i)) <==> EndsAt(alnum, s, i)
  {
    hide Prepared, NoMarks, OperatorAt;
    PreparedSpaces(alnum, s, i);
    PreparedHead(alnum, s, SkipSpaces(s, i));
  }

  lemma ClosesFront(c: char, rest: string, depth: nat, quoted: bool)
    ensures ClosesOperand([c] + rest, depth, quoted) <==>
      if quoted then ClosesOperand(rest, depth, c != QUOTE)
      else if c == ')' && depth <= 1 then EndsHere(rest)
      else ClosesOperand(rest, if c == ')' then depth - 1 else depth + Delta(c), c == QUOTE)
  {
    assert ([c] + rest)[0] == c && ([c] + rest)[1..] == rest;
  }

  lemma ClosesMarker(marker: string, rest: string, depth: nat)
    requires IsMarker(marker)
    ensures ClosesOperand(marker + rest, depth, false) <==> ClosesOperand(rest, depth, false)
  {
    var s := marker + rest;
    assert s[..|marker|] == marker && s[|marker|..] == rest;
    MarkerTails(s, marker);
    assert ClosesOperand(s, depth, false) <==> ClosesOperand(s[2..], depth, false);
    assert ClosesOperand(s[2..], depth, false) <==> ClosesOperand(s[4..], depth, false);
  }

  lemma OperatorIsNoClose(alnum: Alnum, s: string, i: nat)
    requires i <= |s| && !Quoted(s, i) && OperatorAt(alnum, s, i).Some?
    ensures i < |s| && s[i] != ')' && s[i] != QUOTE && !Texts.IsSpace(s[i])
    ensures var marker := OperatorAt(alnum, s, i).value;
      && i + |Keyword(marker)| <= |s| && !Quoted(s, i + |Keyword(marker)|)
      && Prepared(alnum, s, i) == marker + Prepared(alnum, s, i + |Keyword(marker)|)
  {
    KeywordHead(alnum, s, i);
    PreparedOperator(alnum, s, i);
  }

  lemma {:induction false} ClosesAgree(alnum: Alnum, s: string, i: nat, depth: nat)
    requires i <= |s| && NoMarks(s)
    ensures ClosesOperand(Prepared(alnum, s, i), depth, Quoted(s, i)) <==> ClosesAt(alnum, s, i, depth)
    decreases |s| - i
  {
    hide Prepared, NoMarks, OperatorAt, EndsAt, EndsHere;
    if i == |s| {
      PreparedEnd(alnum, s);
    } else if !Quoted(s, i) && OperatorAt(alnum, s, i).Some? {
      OperatorIsNoClose(alnum, s, i);
      var marker := OperatorAt(alnum, s, i).value;
      ClosesAgree(alnum, s, i + |Keyword(marker)|, depth);
      ClosesMarker(marker, Prepared(alnum, s, i + |Keyword(marker)|), depth);
    } else if Texts.IsSpace(s[i]) {
      PreparedSpace(alnum, s, i);
      ClosesAgree(alnum, s, i + 1, depth);
    } else {
      PreparedOther(alnum, s, i);
      ClosesFront(s[i], Prepared(alnum, s, i + 1), depth, Quoted(s, i));
      if !Quoted(s, i) && s[i] == ')' && depth <= 1 {
        EndsAgree(alnum, s, i + 1);
      } else {
        ClosesAgree(alnum, s, i + 1,
                    if Quoted(s, i) then depth else if s[i] == ')' then depth - 1 else depth + Delta(s[i]));
      }
    }
  }

  lemma PreparedEnd(alnum: Alnum, s: string)
    ensures Prepared(alnum, s, |s|) == []
  {}

  // ---------------------------------------------------------------- the two words

  lemma AfterR(alnum: Alnum, s: string, j: nat)
    requires j < |s| && !Quoted(s, j) && s[j] == 'r'
    ensures var k := SkipSpaces(s, j + 1);
      !Quoted(s, k) && Prepared(alnum, s, j) == ['r'] + Prepared(alnum, s, k)
  {
    hide Prepared, OperatorAt;
    NoOperator(alnum, s, j);
    PreparedOther(alnum, s, j);
    assert !Quoted(s, j + 1);
    PreparedSpaces(alnum, s, j + 1);
  }

  predicate StartsRAt(t: string) { |t| >= 2 && t[0] == 'r' && t[1] == '@' }

  lemma StartsRFront(c: char, rest: string)
    ensures StartsRAt([c] + rest) <==> c == 'r' && Followed(rest)
  {
    if rest != [] { assert ([c] + rest)[1] == rest[0]; }
  }

  lemma NotRAt(alnum: Alnum, s: string, j: nat)
    requires j < |s| && !Quoted(s, j) && s[j] != 'r' && !Texts.IsSpace(s[j])
    ensures !StartsRAt(Prepared(alnum, s, j))
  {
    if OperatorAt(alnum, s, j).Some? {
      PreparedOperator(alnum, s, j);
    } else {
      PreparedOther(alnum, s, j);
    }
  }

  lemma StartsRIff(alnum: Alnum, s: string, i: nat)
    requires i <= |s| && !Quoted(s, i) && NoMarks(s)
    ensures StartsRAt(Prepared(alnum, s, i)) <==> RBeforeOperator(alnum, s, i)
  {
    hide Prepared, NoMarks, OperatorAt, StartsRAt, RAt;
    PreparedSpaces(alnum, s, i);
    RIff(alnum, s, SkipSpaces(s, i));
  }

  lemma RIff(alnum: Alnum, s: string, j: nat)
    requires j <= |s| && !Quoted(s, j) && NoMarks(s) && (j < |s| ==> !Texts.IsSpace(s[j]))
    ensures StartsRAt(Prepared(alnum, s, j)) <==> RAt(alnum, s, j)
  {
    hide Prepared, NoMarks, OperatorAt, StartsRAt;
    if j == |s| {
      PreparedEnd(alnum, s);
      NothingStartsR();
    } else if s[j] == 'r' {
      var k := SkipSpaces(s, j + 1);
      AfterR(alnum, s, j);
      StartsRFront('r', Prepared(alnum, s, k));
      PreparedHead(alnum, s, k);
    } else {
      NotRAt(alnum, s, j);
    }
  }

  lemma NothingStartsR()
    ensures !StartsRAt([])
  {}

  lemma OrFront(c: char, rest: string)
    ensures "or@" <= [c] + rest <==> c == 'o' && StartsRAt(rest)
  {
    StartsOr([c] + rest);
    if rest != [] { assert ([c] + rest)[1] == rest[0]; }
    if |rest| > 1 { assert ([c] + rest)[2] == rest[1]; }
  }

  /** The prepared text goes on with `or` and a marker exactly when the source says so, whitespace not counted. */
  lemma OrIff(alnum: Alnum, s: string, i: nat)
    requires i < |s| && !Quoted(s, i) && s[i] != QUOTE && NoMarks(s)
    requires !Texts.IsSpace(s[i]) && OperatorAt(alnum, s, i).None?
    ensures "or@" <= Prepared(alnum, s, i) <==> OrBeforeOperator(alnum, s, i)
  {
    hide Prepared, NoMarks, OperatorAt, RBeforeOperator;
    PreparedOther(alnum, s, i);
    OrFront(s[i], Prepared(alnum, s, i + 1));
    assert !Quoted(s, i + 1);
    StartsRIff(alnum, s, i + 1);
  }

  lemma AdjacentIsWord(alnum: Alnum, s: string, i: nat)
    requires AlnumOk(alnum) && i < |s| && Boundary(alnum, s, i)
    requires OrBeforeOperator(alnum, s, i) && SkipSpaces(s, i + 1) == i + 1
    ensures WordAt(alnum, s, i, "or")
  {
    var k := SkipSpaces(s, i + 2);
    assert s[i..][..2] == "or";
    LettersAreIdentifiers(alnum);
    hide AlnumOk;
    if k == i + 2 { KeywordHead(alnum, s, k); }
  }

  lemma LettersAreIdentifiers(alnum: Alnum)
    requires AlnumOk(alnum)
    ensures IsIdentifier(alnum, 'o') && IsIdentifier(alnum, 'r')
    ensures forall c :: Texts.IsSpace(c) ==> !IsIdentifier(alnum, c)
  {}

  /** Where a word may start, an adjacent `or` before an operator is an operator; so the letters stand apart. */
  lemma OrIsLoose(alnum: Alnum, s: string, i: nat)
    requires AlnumOk(alnum)
    requires i < |s| && Boundary(alnum, s, i) && OperatorAt(alnum, s, i).None?
    requires OrBeforeOperator(alnum, s, i)
    ensures i + 1 < |s| && Texts.IsSpace(s[i + 1])
  {
    if SkipSpaces(s, i + 1) == i + 1 { AdjacentIsWord(alnum, s, i); }
  }

  // ---------------------------------------------------------------- both passes agree

  lemma OverlapQuoted(c: char, rest: string, place: Place, hidden: nat)
    ensures HasOverlap([c] + rest, place, hidden, true) <==> HasOverlap(rest, Inside, hidden, c != QUOTE)
  {
    assert ([c] + rest)[0] == c && ([c] + rest)[1..] == rest;
  }

  lemma OverlapQuote(rest: string, place: Place, hidden: nat)
    ensures HasOverlap([QUOTE] + rest, place, hidden, false) <==> HasOverlap(rest, Inside, hidden, true)
  {
    assert ([QUOTE] + rest)[0] == QUOTE && ([QUOTE] + rest)[1..] == rest;
  }

  lemma OverlapHidden(c: char, rest: string, place: Place, hidden: nat)
    requires hidden > 0 && c != QUOTE
    ensures HasOverlap([c] + rest, place, hidden, false) <==> HasOverlap(rest, Inside, hidden + Delta(c), false)
  {
    assert ([c] + rest)[0] == c && ([c] + rest)[1..] == rest;
  }

  lemma OverlapShown(c: char, rest: string, place: Place)
    requires c != QUOTE && c != '@'
    ensures HasOverlap([c] + rest, place, 0, false) <==>
      || (place == BehindAnd && "or@" <= [c] + rest)
      || (if c != '(' then HasOverlap(rest, Inside, 0, false)
          else if place != Inside && ClosesOperand(rest, 1, false) then HasOverlap(rest, Start, 0, false)
          else HasOverlap(rest, Inside, 1, false))
  {
    assert ([c] + rest)[0] == c && ([c] + rest)[1..] == rest;
    FrontMarkers(c, rest);
  }

  lemma OverlapMarker(marker: string, rest: string, place: Place, hidden: nat)
    requires IsMarker(marker)
    ensures HasOverlap(marker + rest, place, hidden, false) <==>
      HasOverlap(rest, if hidden > 0 then Inside else if marker == AND then BehindAnd else Start, hidden, false)
  {
    var s := marker + rest;
    assert s[..|marker|] == marker && s[|marker|..] == rest;
    MarkerTails(s, marker);
    if hidden > 0 {
      assert HasOverlap(s, place, hidden, false) <==> HasOverlap(s[2..], Inside, hidden, false);
      assert HasOverlap(s[2..], Inside, hidden, false) <==> HasOverlap(s[4..], Inside, hidden, false);
    } else {
      StartsOr(s);
      assert marker == OR ==> s[1] == 'o';
    }
  }

  ghost predicate Agrees(alnum: Alnum, s: string, i: nat, place: Place, hidden: nat)
    requires i <= |s|
  {
    HasOverlap(Prepared(alnum, s, i), place, hidden, Quoted(s, i)) <==> HasMisreadOr(alnum, s, i, place, hidden)
  }

  /** What has to agree behind one character that is no operator's. */
  ghost predicate AgreesBehind(alnum: Alnum, s: string, i: nat, place: Place, hidden: nat)
    requires i < |s|
  {
    if Quoted(s, i) || s[i] == QUOTE then Agrees(alnum, s, i + 1, Inside, hidden)
    else if hidden > 0 then Agrees(alnum, s, i + 1, Inside, hidden + Delta(s[i]))
    else
      && Agrees(alnum, s, i + 1, Inside, 0)
      && (s[i] == '(' ==> Agrees(alnum, s, i + 1, Start, 0) && Agrees(alnum, s, i + 1, Inside, 1))
  }

  lemma AgreesOther(alnum: Alnum, s: string, i: nat, place: Place, hidden: nat)
    requires AlnumOk(alnum) && NoMarks(s) && i < |s| && !Texts.IsSpace(s[i])
    requires Quoted(s, i) || OperatorAt(alnum, s, i).None?
    requires place != Inside ==> Boundary(alnum, s, i)
    requires AgreesBehind(alnum, s, i, place, hidden)
    ensures Agrees(alnum, s, i, place, hidden)
  {
    hide Prepared, AlnumOk, Boundary, OperatorAt, OrBeforeOperator;
    var rest := Prepared(alnum, s, i + 1);
    PreparedOther(alnum, s, i);
    if Quoted(s, i) {
      OverlapQuoted(s[i], rest, place, hidden);
    } else if s[i] == QUOTE {
      OverlapQuote(rest, place, hidden);
    } else if hidden > 0 {
      OverlapHidden(s[i], rest, place, hidden);
    } else {
      AgreesShown(alnum, s, i, place);
    }
  }

  lemma AgreesShown(alnum: Alnum, s: string, i: nat, place: Place)
    requires AlnumOk(alnum) && NoMarks(s) && i < |s| && !Texts.IsSpace(s[i])
    requires !Quoted(s, i) && s[i] != QUOTE && OperatorAt(alnum, s, i).None?
    requires place != Inside ==> Boundary(alnum, s, i)
    requires AgreesBehind(alnum, s, i, place, 0)
    ensures Agrees(alnum, s, i, place, 0)
  {
    assert s[i] != '@';
    hide Prepared, AlnumOk, NoMarks, Boundary, OperatorAt, OrBeforeOperator;
    PreparedOther(alnum, s, i);
    OverlapShown(s[i], Prepared(alnum, s, i + 1), place);
    OrIff(alnum, s, i);
    if place == BehindAnd && OrBeforeOperator(alnum, s, i) { OrIsLoose(alnum, s, i); }
    ClosesAgree(alnum, s, i + 1, 1);
  }

  lemma AgreesOperator(alnum: Alnum, s: string, i: nat, place: Place, hidden: nat)
    requires i < |s| && !Quoted(s, i) && OperatorAt(alnum, s, i).Some?
    requires var marker := OperatorAt(alnum, s, i).value;
      && i + |Keyword(marker)| <= |s|
      && Agrees(alnum, s, i + |Keyword(marker)|,
                if hidden > 0 then Inside else if marker == AND then BehindAnd else Start, hidden)
    ensures Agrees(alnum, s, i, place, hidden)
  {
    hide Prepared, OperatorAt, Keyword;
    OperatorIsNoClose(alnum, s, i);
    var marker := OperatorAt(alnum, s, i).value;
    OverlapMarker(marker, Prepared(alnum, s, i + |Keyword(marker)|), place, hidden);
  }

  lemma AgreesSpace(alnum: Alnum, s: string, i: nat, place: Place, hidden: nat)
    requires i < |s| && Texts.IsSpace(s[i])
    requires Agrees(alnum, s, i + 1, if Quoted(s, i) then Inside else place, hidden)
    ensures Agrees(alnum, s, i, place, hidden)
  {
    hide Prepared, OperatorAt;
    PreparedSpace(alnum, s, i);
    QuotedPlace(Prepared(alnum, s, i + 1), place, hidden);
  }

  lemma QuotedPlace(t: string, place: Place, hidden: nat)
    ensures HasOverlap(t, place, hidden, true) <==> HasOverlap(t, Inside, hidden, true)
  {}

  lemma AgreesAtEnd(alnum: Alnum, s: string, place: Place, hidden: nat)
    ensures Agrees(alnum, s, |s|, place, hidden)
  {}

  lemma {:induction false} PassesAgree(alnum: Alnum, s: string, i: nat, place: Place, hidden: nat)
    requires AlnumOk(alnum) && NoMarks(s) && i <= |s|
    requires place != Inside ==> Boundary(alnum, s, i)
    ensures Agrees(alnum, s, i, place, hidden)
    decreases |s| - i
  {
    hide AlnumOk, NoMarks, Agrees, Boundary, OperatorAt, WordAt;
    if i == |s| {
      AgreesAtEnd(alnum, s, place, hidden);
    } else if !Quoted(s, i) && OperatorAt(alnum, s, i).Some? {
      KeywordHead(alnum, s, i);
      var marker := OperatorAt(alnum, s, i).value;
      PassesAgree(alnum, s, i + |Keyword(marker)|,
                  if hidden > 0 then Inside else if marker == AND then BehindAnd else Start, hidden);
      AgreesOperator(alnum, s, i, place, hidden);
    } else if Texts.IsSpace(s[i]) {
      BoundaryBehind(alnum, s, i);
      PassesAgree(alnum, s, i + 1, if Quoted(s, i) then Inside else place, hidden);
      AgreesSpace(alnum, s, i, place, hidden);
    } else {
      PassesAgreeBehind(alnum, s, i, place, hidden);
      AgreesOther(alnum, s, i, place, hidden);
    }
  }

  lemma {:induction false} PassesAgreeBehind(alnum: Alnum, s: string, i: nat, place: Place, hidden: nat)
    requires AlnumOk(alnum) && NoMarks(s) && i < |s|
    ensures AgreesBehind(alnum, s, i, place, hidden)
    decreases |s| - i, 0
  {
    hide AlnumOk, NoMarks, Agrees, Boundary;
    PassesAgree(alnum, s, i + 1, Inside, hidden);
    if hidden > 0 {
      PassesAgree(alnum, s, i + 1, Inside, hidden + Delta(s[i]));
    } else if s[i] == '(' {
      BoundaryBehind(alnum, s, i);
      PassesAgree(alnum, s, i + 1, Start, 0);
      PassesAgree(alnum, s, i + 1, Inside, 1);
    }
  }

  // ---------------------------------------------------------------- the results

  /** SQL whose quotes and parentheses close, without quoted parentheses and unquoted '@'. */
  predicate Sql(s: string) {
    Balanced(s, 0, false) && Plain(s, false) && NoMarks(s)
  }

  /**
    Such SQL is marked and squeezed to the text of a well-formed expression, and
    the code reads the text as that expression exactly when no operand between an
    `and` and an operator is written as the two words `o` and `r`.
  */
  lemma PreparedIsReadIff(alnum: Alnum, s: string)
    requires AlnumOk(alnum) && Sql(s)
    ensures var t := Prepared(alnum, s, 0);
      && Text(t) && WellFormed(Parse(t)) && Render(Parse(t)) == t
      && (Read(t) == Raw(Parse(t)) <==> !HasMisreadOr(alnum, s, 0, Start, 0))
  {
    assert s[0..] == s;
    PreparedText(alnum, s, 0, 0);
    TextIsExpression(Prepared(alnum, s, 0));
    TextReadIff(Prepared(alnum, s, 0));
    PassesAgree(alnum, s, 0, Start, 0);
  }

  /** Whatever is misread, the canonical form of SQL means what the SQL means, and a second pass changes nothing. */
  lemma CanonicalKeepsSql(alnum: Alnum, s: string, env: string -> bool)
    requires AlnumOk(alnum) && Sql(s)
    ensures var p := Prepared(alnum, s, 0);
      && Meaning(Parse(Canonical(p, 0))) == Meaning(Parse(p))
      && Eval(Raw(Parse(Canonical(p, 0))), env) == Eval(Raw(Parse(p)), env)
      && Canonical(Canonical(p, 0), 0) == Canonical(p, 0)
  {
    PreparedIsReadIff(alnum, s);
    CanonicalKeepsTexts(Prepared(alnum, s, 0), env);
  }

  /** Equal canonical forms of SQL mean equal and/or trees; for SQL that is read right, equal trees give equal forms. */
  lemma CanonicalDecidesSql(alnum: Alnum, s: string, t: string)
    requires AlnumOk(alnum) && Sql(s) && Sql(t)
    ensures var p, q := Prepared(alnum, s, 0), Prepared(alnum, t, 0);
      && (Canonical(p, 0) == Canonical(q, 0) ==> Meaning(Parse(p)) == Meaning(Parse(q)))
      && (!HasMisreadOr(alnum, s, 0, Start, 0) && !HasMisreadOr(alnum, t, 0, Start, 0) ==>
           (Canonical(p, 0) == Canonical(q, 0) <==> Meaning(Parse(p)) == Meaning(Parse(q))))
  {
    var p, q := Prepared(alnum, s, 0), Prepared(alnum, t, 0);
    PreparedIsReadIff(alnum, s);
    PreparedIsReadIff(alnum, t);
    TextReadIff(p);
    TextReadIff(q);
    CanonicalDecidesTexts(p, q);
  }

  lemma LooseIsWord(alnum: Alnum, s: string, i: nat)
    requires AlnumOk(alnum) && i < |s| && Boundary(alnum, s, i)
    requires OrBeforeOperator(alnum, s, i) && i + 1 < |s| && Texts.IsSpace(s[i + 1])
    ensures WordAt(alnum, s, i, "o")
  {
    assert "o" <= s[i..];
  }

  /** One character that is no operator's, with nothing found behind it. */
  lemma NothingFoundAt(alnum: Alnum, s: string, i: nat, place: Place, hidden: nat)
    requires i < |s| && !Texts.IsSpace(s[i]) && (Quoted(s, i) || OperatorAt(alnum, s, i).None?)
    requires !Quoted(s, i) && place == BehindAnd ==> !OrBeforeOperator(alnum, s, i)
    requires !HasMisreadOr(alnum, s, i + 1, Inside, hidden)
    requires hidden > 0 ==> !HasMisreadOr(alnum, s, i + 1, Inside, hidden + Delta(s[i]))
    requires hidden == 0 && s[i] == '(' ==>
      !HasMisreadOr(alnum, s, i + 1, Start, 0) && !HasMisreadOr(alnum, s, i + 1, Inside, 1)
    ensures !HasMisreadOr(alnum, s, i, place, hidden)
  {
    hide OperatorAt, OrBeforeOperator, EndsAt;
  }

  lemma NoOrBeforeOperator(alnum: Alnum, s: string, i: nat)
    requires AlnumOk(alnum) && i < |s| && Boundary(alnum, s, i) && !Quoted(s, i) && OperatorAt(alnum, s, i).None?
    requires WordAt(alnum, s, i, "o") ==> Quoted(s, i)
    ensures !OrBeforeOperator(alnum, s, i)
  {
    hide AlnumOk, Boundary, OperatorAt, WordAt;
    if OrBeforeOperator(alnum, s, i) {
      OrIsLoose(alnum, s, i);
      LooseIsWord(alnum, s, i);
    }
  }

  /** Without a word `o` outside quotes there is no such operand. */
  lemma {:induction false} NoLoneLetter(alnum: Alnum, s: string, i: nat, place: Place, hidden: nat)
    requires AlnumOk(alnum) && i <= |s| && (place != Inside ==> Boundary(alnum, s, i))
    requires forall k :: 0 <= k < |s| && WordAt(alnum, s, k, "o") ==> Quoted(s, k)
    ensures !HasMisreadOr(alnum, s, i, place, hidden)
    decreases |s| - i
  {
    hide AlnumOk, Boundary, OperatorAt, WordAt, OrBeforeOperator, EndsAt;
    if i < |s| {
      if Texts.IsSpace(s[i]) || s[i] == '(' { BoundaryBehind(alnum, s, i); }
      if !Quoted(s, i) && OperatorAt(alnum, s, i).Some? {
        OperatorIsNoClose(alnum, s, i);
        KeywordHead(alnum, s, i);
        var marker := OperatorAt(alnum, s, i).value;
        NoLoneLetter(alnum, s, i + |Keyword(marker)|,
                     if hidden > 0 then Inside else if marker == AND then BehindAnd else Start, hidden);
      } else if Texts.IsSpace(s[i]) {
        NoLoneLetter(alnum, s, i + 1, if Quoted(s, i) then Inside else place, hidden);
      } else {
        NoLoneLetter(alnum, s, i + 1, Inside, hidden);
        if hidden > 0 {
          NoLoneLetter(alnum, s, i + 1, Inside, hidden + Delta(s[i]));
        } else if s[i] == '(' {
          NoLoneLetter(alnum, s, i + 1, Start, 0);
          NoLoneLetter(alnum, s, i + 1, Inside, 1);
        }
        if !Quoted(s, i) && place == BehindAnd { NoOrBeforeOperator(alnum, s, i); }
        NothingFoundAt(alnum, s, i, place, hidden);
      }
    }
  }
}
