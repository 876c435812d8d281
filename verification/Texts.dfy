/** Python string helpers shared by several components: whitespace, `strip`, and line-ending replacement. */
module Texts {

  /** `str.isspace` of one character. */
  predicate IsSpace(c: char) {
    || c in "\t\n\U{0B}\U{0C}\r \U{85}\U{A0}\U{1680}\U{2028}\U{2029}\U{202F}\U{205F}\U{3000}"
    || '\U{1C}' <= c <= '\U{1F}'
    || '\U{2000}' <= c <= '\U{200A}'
  }

  function StripLeft(s: string): string {
    if s != [] && IsSpace(s[0]) then StripLeft(s[1..]) else s
  }

  function StripRight(s: string): string {
    if s != [] && IsSpace(s[|s| - 1]) then StripRight(s[..|s| - 1]) else s
  }

  function Strip(s: string): string {
    StripRight(StripLeft(s))
  }

  predicate Blank(s: string) {
    forall i :: 0 <= i < |s| ==> IsSpace(s[i])
  }

  lemma {:induction false} StripIsEmptyIffBlank(s: string)
    ensures Strip(s) == [] <==> Blank(s)
  {
    StripLeftBlank(s);
    StripRightBlank(StripLeft(s));
  }

  lemma {:induction false} StripLeftBlank(s: string)
    ensures StripLeft(s) == [] <==> Blank(s)
    ensures StripLeft(s) == [] || !IsSpace(StripLeft(s)[0])
  {
    if s != [] && IsSpace(s[0]) {
      StripLeftBlank(s[1..]);
      assert s == [s[0]] + s[1..];
    }
  }

  lemma {:induction false} StripRightBlank(s: string)
    ensures StripRight(s) == [] <==> Blank(s)
  {
    if s != [] && IsSpace(s[|s| - 1]) {
      StripRightBlank(s[..|s| - 1]);
      assert s == s[..|s| - 1] + [s[|s| - 1]];
    }
  }

  lemma {:induction false} StripShortens(s: string)
    ensures |StripRight(s)| <= |s| && (s != [] && IsSpace(s[|s| - 1]) ==> |StripRight(s)| < |s|)
    ensures |StripLeft(s)| <= |s| && (s != [] && IsSpace(s[0]) ==> |StripLeft(s)| < |s|)
    decreases |s|
  {
    if s != [] {
      StripShortens(s[1..]);
      StripShortens(s[..|s| - 1]);
    }
  }

  /** Stripping leaves exactly the texts alone that neither start nor end with a space. */
  lemma StripFixed(s: string)
    ensures Strip(s) == s <==> s == [] || (!IsSpace(s[0]) && !IsSpace(s[|s| - 1]))
  {
    StripShortens(s);
    StripShortens(StripLeft(s));
  }

  /** `replace("\r\n", "\n")`. */
  function ReplaceCrLf(s: string): string {
    if s == [] then []
    else if |s| >= 2 && s[0] == '\r' && s[1] == '\n' then ['\n'] + ReplaceCrLf(s[2..])
    else [s[0]] + ReplaceCrLf(s[1..])
  }

  /** `replace("\r", "\n")`. */
  function ReplaceCr(s: string): string {
    seq(|s|, i requires 0 <= i < |s| => if s[i] == '\r' then '\n' else s[i])
  }

  function NormalizeLines(s: string): string {
    ReplaceCr(ReplaceCrLf(s))
  }

  lemma {:induction false} ReplaceCrLfFixed(s: string)
    requires '\r' !in s
    ensures ReplaceCrLf(s) == s
  {
    if s != [] { ReplaceCrLfFixed(s[1..]); }
  }

  /** The result has no carriage return, and exactly the texts without one stay as they are. */
  lemma NormalizeLinesFixed(s: string)
    ensures '\r' !in NormalizeLines(s)
    ensures NormalizeLines(s) == s <==> '\r' !in s
  {
    if '\r' !in s { ReplaceCrLfFixed(s); }
  }

  /** The text read character by character, with one newline for each line end, be it CR LF, CR or LF. */
  function OneLineEnd(s: string, afterReturn: bool): string {
    if s == [] then []
    else if s[0] == '\n' && afterReturn then OneLineEnd(s[1..], false)
    else [if s[0] == '\r' then '\n' else s[0]] + OneLineEnd(s[1..], s[0] == '\r')
  }

  lemma ReplaceCrHead(c: char, rest: string)
    ensures ReplaceCr([c] + rest) == [if c == '\r' then '\n' else c] + ReplaceCr(rest)
  {}

  /** The two replacements in a row make one newline of each line end. */
  lemma {:induction false} NormalizeLinesReads(s: string)
    ensures NormalizeLines(s) == OneLineEnd(s, false)
  {
    hide ReplaceCr;
    if s == [] {
      assert ReplaceCr([]) == [] by { EmptyReplaced(); }
    } else if |s| >= 2 && s[0] == '\r' && s[1] == '\n' {
      NormalizeLinesReads(s[2..]);
      assert s[1..][1..] == s[2..];
      ReplaceCrHead('\n', ReplaceCrLf(s[2..]));
    } else {
      NormalizeLinesReads(s[1..]);
      assert OneLineEnd(s[1..], s[0] == '\r') == OneLineEnd(s[1..], false);
      ReplaceCrHead(s[0], ReplaceCrLf(s[1..]));
    }
  }

  lemma EmptyReplaced()
    ensures ReplaceCr([]) == []
  {}

  lemma {:induction false} OneLineEndBlank(s: string, afterReturn: bool)
    ensures Blank(OneLineEnd(s, afterReturn)) <==> Blank(s)
  {
    if s != [] {
      var rest := OneLineEnd(s[1..], if s[0] == '\n' && afterReturn then false else s[0] == '\r');
      OneLineEndBlank(s[1..], if s[0] == '\n' && afterReturn then false else s[0] == '\r');
      assert s == [s[0]] + s[1..];
      BlankAppend([s[0]], s[1..]);
      BlankAppend([if s[0] == '\r' then '\n' else s[0]], rest);
    }
  }

  lemma BlankAppend(a: string, b: string)
    ensures Blank(a + b) <==> Blank(a) && Blank(b)
  {
    if Blank(a + b) {
      forall i | 0 <= i < |a| ensures IsSpace(a[i]) { assert a[i] == (a + b)[i]; }
      forall i | 0 <= i < |b| ensures IsSpace(b[i]) { assert b[i] == (a + b)[|a| + i]; }
    }
  }
}
