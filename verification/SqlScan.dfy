/**
  The scanners of src/oh_my_subagents/persistence/schema_sql.py over marked SQL
  text: which positions are quoted, how deep they are nested, where a boolean
  marker stands at the top level, and whether parentheses wrap the whole text.
*/
module SqlScan {

  const AND := "@and@"
  const OR := "@or@"
  const QUOTE := '\''

  predicate IsMarker(m: string) { m == AND || m == OR }

  // ---------------------------------------------------------------- quoted text

  /** The index after the quoted value whose body starts at `i`; a doubled quote stays inside. */
  function SkipQuoted(s: string, i: nat): (j: nat)
    requires i <= |s|
    ensures i <= j <= |s|
    decreases |s| - i
  {
    if i == |s| then i
    else if s[i] != QUOTE then SkipQuoted(s, i + 1)
    else if i + 1 < |s| && s[i + 1] == QUOTE then SkipQuoted(s, i + 2)
    else i + 1
  }

  /** `_skip_quoted_value`. */
  method SkipQuotedValue(value: string, start: nat) returns (index: nat)
    requires start < |value|
    ensures index == SkipQuoted(value, start + 1)
  {
    index := start + 1;
    while index < |value|
      invariant start + 1 <= index <= |value|
      invariant SkipQuoted(value, index) == SkipQuoted(value, start + 1)
    {
      if value[index] != QUOTE {
        index := index + 1;
      } else if index + 1 < |value| && value[index + 1] == QUOTE {
        index := index + 2;
      } else {
        return index + 1;
      }
    }
  }

  // ---------------------------------------------------------------- top-level splitting

  function Delta(c: char): int { if c == '(' then 1 else if c == ')' then -1 else 0 }

  /**
    The first place where `m` stands unquoted at depth 0, or the end. The text
    is read one character at a time: a quote character flips `quoted`.
  */
  function Cut(s: string, m: string, depth: int, quoted: bool): (k: nat)
    ensures k <= |s|
  {
    if s == [] then 0
    else if quoted then 1 + Cut(s[1..], m, depth, s[0] != QUOTE)
    else if s[0] == QUOTE then 1 + Cut(s[1..], m, depth, true)
    else if s[0] == '(' then 1 + Cut(s[1..], m, depth + 1, false)
    else if s[0] == ')' then 1 + Cut(s[1..], m, depth - 1, false)
    else if depth == 0 && m <= s then 0
    else 1 + Cut(s[1..], m, depth, false)
  }

  lemma {:induction false} CutFinds(s: string, m: string, depth: int, quoted: bool)
    ensures var k := Cut(s, m, depth, quoted); k < |s| ==> m <= s[k..]
  {
    var k := Cut(s, m, depth, quoted);
    if 0 < k < |s| {
      var d, q := if quoted then depth else depth + Delta(s[0]), if quoted then s[0] != QUOTE else s[0] == QUOTE;
      CutFinds(s[1..], m, d, q);
      assert s[k..] == s[1..][k - 1..];
    }
  }

  function Split(s: string, m: string): (parts: seq<string>)
    requires m != []
    ensures |parts| >= 1
    decreases |s|
  {
    var k := Cut(s, m, 0, false);
    CutFinds(s, m, 0, false);
    if k == |s| then [s] else [s[..k]] + Split(s[k + |m|..], m)
  }

  function Join(parts: seq<string>, m: string): string {
    if parts == [] then []
    else if |parts| == 1 then parts[0]
    else parts[0] + m + Join(parts[1..], m)
  }

  /** Joining the parts gives back the text; every part of a real split is shorter. */
  lemma {:induction false} SplitJoins(s: string, m: string)
    requires m != []
    ensures Join(Split(s, m), m) == s
    ensures forall i :: 0 <= i < |Split(s, m)| ==> |Split(s, m)[i]| <= |s|
    ensures |Split(s, m)| > 1 ==> forall i :: 0 <= i < |Split(s, m)| ==> |Split(s, m)[i]| < |s|
    decreases |s|
  {
    var k := Cut(s, m, 0, false);
    if k < |s| {
      CutFinds(s, m, 0, false);
      var rest := s[k + |m|..];
      SplitJoins(rest, m);
      FoundAt(s, m, k);
      JoinCons(s[..k], Split(rest, m), m);
    }
  }

  lemma FoundAt(s: string, m: string, k: nat)
    requires k <= |s| && m <= s[k..]
    ensures k + |m| <= |s| && s == s[..k] + m + s[k + |m|..]
  {
    assert s[k..][..|m|] == m;
    assert s == s[..k] + s[k..];
  }

  lemma JoinCons(first: string, rest: seq<string>, m: string)
    requires rest != []
    ensures Join([first] + rest, m) == first + m + Join(rest, m)
  {
    assert ([first] + rest)[1..] == rest;
  }

  /**
    Reading over a quoted value in one jump or character by character is the
    same: all scanners agree on what is quoted.
  */
  lemma {:induction false} CutSkips(s: string, m: string, depth: int, i: nat)
    requires i <= |s|
    ensures Cut(s[i..], m, depth, true) == SkipQuoted(s, i) - i + Cut(s[SkipQuoted(s, i)..], m, depth, false)
    decreases |s| - i
  {
    if i < |s| {
      assert s[i..][1..] == s[i + 1..];
      if s[i] != QUOTE {
        CutSkips(s, m, depth, i + 1);
      } else if i + 1 < |s| && s[i + 1] == QUOTE {
        assert s[i + 1..][1..] == s[i + 2..];
        CutSkips(s, m, depth, i + 2);
      }
    }
  }

  lemma SplitUnfold(s: string, m: string, k: nat, head: string, tail: string)
    requires m != [] && k < |s| && Cut(s, m, 0, false) == k && m <= s[k..]
    requires head == s[..k] && tail == s[k + |m|..]
    ensures Split(s, m) == [head] + Split(tail, m)
  {}

  lemma TailSlices(s: string, start: nat, index: nat)
    requires start <= index <= |s|
    ensures s[start..][..index - start] == s[start..index]
    ensures s[start..][index - start..] == s[index..]
  {}

  lemma CutStep(s: string, m: string, depth: int, i: nat)
    requires i < |s|
    requires s[i] != QUOTE
    ensures s[i] == '(' ==> Cut(s[i..], m, depth, false) == 1 + Cut(s[i + 1..], m, depth + 1, false)
    ensures s[i] == ')' ==> Cut(s[i..], m, depth, false) == 1 + Cut(s[i + 1..], m, depth - 1, false)
    ensures s[i] != '(' && s[i] != ')' && depth == 0 && m <= s[i..] ==> Cut(s[i..], m, depth, false) == 0
    ensures s[i] != '(' && s[i] != ')' && !(depth == 0 && m <= s[i..]) ==>
      Cut(s[i..], m, depth, false) == 1 + Cut(s[i + 1..], m, depth, false)
  {
    assert s[i..][1..] == s[i + 1..];
  }

  lemma CutQuote(s: string, m: string, depth: int, i: nat)
    requires i < |s| && s[i] == QUOTE
    ensures Cut(s[i..], m, depth, false) ==
      SkipQuoted(s, i + 1) - i + Cut(s[SkipQuoted(s, i + 1)..], m, depth, false)
  {
    assert s[i..][1..] == s[i + 1..];
    CutSkips(s, m, depth, i + 1);
  }

  /** `_split_top_level`. */
  method SplitTopLevel(value: string, marker: string) returns (parts: seq<string>)
    requires marker != []
    ensures parts == Split(value, marker)
  {
    hide Cut, Split, SkipQuoted;
    parts := [];
    var start, depth, index := 0, 0, 0;
    assert value[0..] == value;
    while index < |value|
      invariant 0 <= start <= index <= |value|
      invariant parts + Split(value[start..], marker) == Split(value, marker)
      invariant Cut(value[start..], marker, 0, false) == index - start + Cut(value[index..], marker, depth, false)
    {
      var character := value[index];
      if character == QUOTE {
        CutQuote(value, marker, depth, index);
        index := SkipQuotedValue(value, index);
        continue;
      }
      CutStep(value, marker, depth, index);
      if character == '(' {
        depth := depth + 1;
      } else if character == ')' {
        depth := depth - 1;
      } else if depth == 0 && marker <= value[index..] {
        TailSlices(value, start, index);
        TailSlices(value, start, index + |marker|);
        SplitUnfold(value[start..], marker, index - start, value[start..index], value[index + |marker|..]);
        parts := parts + [value[start..index]];
        index := index + |marker|;
        start := index;
        continue;
      }
      index := index + 1;
    }
    SplitRest(value, marker, start, depth);
    parts := parts + [value[start..]];
  }

  lemma SplitRest(s: string, m: string, start: nat, depth: int)
    requires m != [] && start <= |s|
    requires Cut(s[start..], m, 0, false) == |s| - start + Cut(s[|s|..], m, depth, false)
    ensures Split(s[start..], m) == [s[start..]]
  {
    assert s[|s|..] == [];
  }

  // ---------------------------------------------------------------- outer parentheses

  /** The parenthesis count, quotes ignored, first returns to zero at the very end. */
  predicate ClosesAtEnd(s: string, depth: int) {
    if s == [] then depth == 0
    else if s[0] == ')' && depth == 1 && |s| > 1 then false
    else ClosesAtEnd(s[1..], depth + Delta(s[0]))
  }

  predicate Wrapped(s: string) {
    |s| >= 2 && s[0] == '(' && s[|s| - 1] == ')' && ClosesAtEnd(s, 0)
  }

  function Strip(s: string): (r: string)
    ensures |r| <= |s|
    ensures !Wrapped(r)
    decreases |s|
  {
    if Wrapped(s) then Strip(s[1..|s| - 1]) else s
  }

  /** `_strip_balanced_outer_parentheses`. */
  method StripBalancedOuterParentheses(text: string) returns (value: string)
    ensures value == Strip(text)
  {
    value := text;
    while |value| >= 1 && value[0] == '(' && value[|value| - 1] == ')'
      invariant Strip(value) == Strip(text)
      decreases |value|
    {
      var depth := 0;
      var wrapsEntireValue := true;
      var index := 0;
      assert value[0..] == value;
      while index < |value|
        invariant 0 <= index <= |value|
        invariant wrapsEntireValue
        invariant ClosesAtEnd(value, 0) == ClosesAtEnd(value[index..], depth)
      {
        assert value[index..][1..] == value[index + 1..];
        if value[index] == '(' {
          depth := depth + 1;
        } else if value[index] == ')' {
          depth := depth - 1;
          if depth == 0 && index != |value| - 1 {
            wrapsEntireValue := false;
            break;
          }
        }
        index := index + 1;
      }
      if !wrapsEntireValue || depth != 0 { break; }
      value := value[1..|value| - 1];
    }
  }
}
