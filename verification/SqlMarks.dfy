/**
  `_mark_boolean_operators` and `_boolean_operator_at`: every unquoted whole-word
  `and`/`or` becomes a marker and nothing else changes.
*/
module SqlMarks {
  import opened Basics
  import opened SqlScan
  import opened Sequences

  /** `str.isalnum` of one character. */
  type Alnum = char -> bool

  /** `isalnum` or one of `_` and `.`. */
  predicate IsIdentifier(alnum: Alnum, c: char) {
    alnum(c) || c == '_' || c == '.'
  }

  function Keyword(marker: string): (keyword: string)
    requires IsMarker(marker)
    ensures |keyword| == if marker == AND then 3 else 2
  {
    if marker == AND then "and" else "or"
  }

  /** `keyword` stands at `i` as a word of its own. */
  predicate WordAt(alnum: Alnum, s: string, i: nat, keyword: string)
    requires i <= |s|
  {
    && keyword <= s[i..]
    && (i == 0 || !IsIdentifier(alnum, s[i - 1]))
    && (i + |keyword| == |s| || !IsIdentifier(alnum, s[i + |keyword|]))
  }

  function OperatorAt(alnum: Alnum, s: string, i: nat): (r: Option<string>)
    requires i <= |s|
    ensures r.Some? ==> IsMarker(r.value) && WordAt(alnum, s, i, Keyword(r.value))
    ensures r.None? ==> !WordAt(alnum, s, i, "and") && !WordAt(alnum, s, i, "or")
  {
    if WordAt(alnum, s, i, "and") then Some(AND) else if WordAt(alnum, s, i, "or") then Some(OR) else None
  }

  /** Whether position `i` is inside a quoted value: an odd number of quote characters stands before it. */
  function Quoted(s: string, i: nat): bool
    requires i <= |s|
  {
    i > 0 && (Quoted(s, i - 1) != (s[i - 1] == QUOTE))
  }

  /** The marked text from position `i` on. */
  function Mark(alnum: Alnum, s: string, i: nat): string
    requires i <= |s|
    decreases |s| - i
  {
    if i == |s| then []
    else if !Quoted(s, i) && s[i] != QUOTE && OperatorAt(alnum, s, i).Some? then
      OperatorAt(alnum, s, i).value + Mark(alnum, s, i + |Keyword(OperatorAt(alnum, s, i).value)|)
    else [s[i]] + Mark(alnum, s, i + 1)
  }

  lemma KeywordUnquoted(s: string, i: nat, keyword: string, j: nat)
    requires i <= |s| && (keyword == "and" || keyword == "or") && keyword <= s[i..]
    requires j <= |keyword|
    ensures i + j <= |s| && Quoted(s, i + j) == Quoted(s, i)
    decreases j
  {
    if j > 0 {
      KeywordUnquoted(s, i, keyword, j - 1);
      assert s[i + j - 1] == s[i..][j - 1] == keyword[j - 1];
    }
  }

  /** The quoted-value scanner stops exactly where the count of quote characters says the quoted value ends. */
  lemma {:induction false} SkipMatchesCount(s: string, i: nat)
    requires i <= |s| && Quoted(s, i)
    ensures var j := SkipQuoted(s, i);
      && (j < |s| ==> !Quoted(s, j) && s[j] != QUOTE)
      && (forall k :: i <= k < j && s[k] != QUOTE ==> Quoted(s, k))
    decreases |s| - i
  {
    if i < |s| {
      if s[i] != QUOTE {
        SkipMatchesCount(s, i + 1);
      } else if i + 1 < |s| && s[i + 1] == QUOTE {
        assert !Quoted(s, i + 1) && Quoted(s, i + 2);
        SkipMatchesCount(s, i + 2);
      }
    }
  }

  lemma MarkStep(alnum: Alnum, s: string, i: nat)
    requires i < |s|
    ensures Mark(alnum, s, i) ==
      if !Quoted(s, i) && s[i] != QUOTE && OperatorAt(alnum, s, i).Some?
      then OperatorAt(alnum, s, i).value + Mark(alnum, s, i + |Keyword(OperatorAt(alnum, s, i).value)|)
      else [s[i]] + Mark(alnum, s, i + 1)
    ensures Quoted(s, i + 1) == (Quoted(s, i) != (s[i] == QUOTE))
  {}

  lemma MarkPair(alnum: Alnum, s: string, i: nat)
    requires i + 1 < |s| && s[i] == QUOTE && s[i + 1] == QUOTE
    ensures Mark(alnum, s, i) == [QUOTE, QUOTE] + Mark(alnum, s, i + 2)
    ensures Quoted(s, i + 2) == Quoted(s, i)
  {
    MarkStep(alnum, s, i);
    MarkStep(alnum, s, i + 1);
  }

  lemma MarkOperator(alnum: Alnum, s: string, i: nat)
    requires i < |s| && !Quoted(s, i) && s[i] != QUOTE && OperatorAt(alnum, s, i).Some?
    ensures var n := if OperatorAt(alnum, s, i).value == AND then 3 else 2;
      i + n <= |s| && Mark(alnum, s, i) == OperatorAt(alnum, s, i).value + Mark(alnum, s, i + n) && !Quoted(s, i + n)
  {
    MarkStep(alnum, s, i);
    KeywordUnquoted(s, i, Keyword(OperatorAt(alnum, s, i).value), |Keyword(OperatorAt(alnum, s, i).value)|);
  }

  /** The code keeps a flag instead of counting. */
  method MarkBooleanOperators(alnum: Alnum, value: string) returns (marked: string)
    ensures marked == Mark(alnum, value, 0)
  {
    marked := [];
    var index := 0;
    var isQuoted := false;
    while index < |value|
      invariant 0 <= index <= |value|
      invariant isQuoted == Quoted(value, index)
      invariant marked + Mark(alnum, value, index) == Mark(alnum, value, 0)
      decreases |value| - index
    {
      hide OperatorAt;
      var character := value[index];
      if character == QUOTE {
        if isQuoted && index + 1 < |value| && value[index + 1] == QUOTE {
          MarkPair(alnum, value, index);
          Associate(marked, [QUOTE, QUOTE], Mark(alnum, value, index + 2));
          marked := marked + [QUOTE, QUOTE];
          index := index + 2;
          continue;
        }
        MarkStep(alnum, value, index);
        Associate(marked, [character], Mark(alnum, value, index + 1));
        marked := marked + [character];
        isQuoted := !isQuoted;
        index := index + 1;
        continue;
      }
      if !isQuoted {
        var operator := OperatorAt(alnum, value, index);
        if operator.Some? {
          MarkOperator(alnum, value, index);
          Associate(marked, operator.value, Mark(alnum, value, index + if operator.value == AND then 3 else 2));
          marked := marked + operator.value;
          index := index + if operator.value == AND then 3 else 2;
          continue;
        }
      }
      MarkStep(alnum, value, index);
      Associate(marked, [character], Mark(alnum, value, index + 1));
      marked := marked + [character];
      index := index + 1;
    }
  }

  /** Reading a marked text back: markers outside quotes become their keywords again. */
  function Unmark(t: string, quoted: bool): string {
    if t == [] then []
    else if !quoted && AND <= t then "and" + Unmark(t[5..], false)
    else if !quoted && OR <= t then "or" + Unmark(t[4..], false)
    else [t[0]] + Unmark(t[1..], if t[0] == QUOTE then !quoted else quoted)
  }

  /** Marking loses nothing: in text without unquoted '@', taking the markers out again gives the text back. */
  lemma {:induction false} UnmarkMark(alnum: Alnum, s: string, i: nat)
    requires i <= |s|
    requires forall k :: i <= k < |s| && s[k] == '@' ==> Quoted(s, k)
    ensures Unmark(Mark(alnum, s, i), Quoted(s, i)) == s[i..]
    decreases |s| - i
  {
    if i < |s| {
      var t := Mark(alnum, s, i);
      MarkStep(alnum, s, i);
      if !Quoted(s, i) && s[i] != QUOTE && OperatorAt(alnum, s, i).Some? {
        var marker := OperatorAt(alnum, s, i).value;
        var n := |Keyword(marker)|;
        KeywordUnquoted(s, i, Keyword(marker), n);
        UnmarkMark(alnum, s, i + n);
        UnmarkMarker(marker, Mark(alnum, s, i + n));
        assert s[i..] == s[i..][..n] + s[i + n..];
      } else {
        UnmarkMark(alnum, s, i + 1);
        assert !Quoted(s, i) ==> s[i] != '@';
        UnmarkOther(s[i], Mark(alnum, s, i + 1), Quoted(s, i));
        assert s[i..] == [s[i]] + s[i + 1..];
      }
    }
  }

  lemma UnmarkMarker(marker: string, rest: string)
    requires marker == AND || marker == OR
    ensures Unmark(marker + rest, false) == (if marker == AND then "and" else "or") + Unmark(rest, false)
  {
    var t := marker + rest;
    assert t[..|marker|] == marker && t[|marker|..] == rest;
    if marker == OR { assert t[1] == 'o'; }
  }

  lemma UnmarkOther(c: char, rest: string, quoted: bool)
    requires !quoted ==> c != '@'
    ensures Unmark([c] + rest, quoted) == [c] + Unmark(rest, if c == QUOTE then !quoted else quoted)
  {
    var t := [c] + rest;
    assert t[0] == c && t[1..] == rest;
  }
}
