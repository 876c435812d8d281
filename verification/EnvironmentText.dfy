/**
  The text of the private provider environment as platform/provider_environment.py
  reads it: lines, assignments, and shell words in the manner of posix `shlex`.
*/
module EnvironmentText {
  import opened Basics
  import opened Texts
  import opened Sequences

  // ---------------------------------------------------------------- lines

  /** The characters at which `str.splitlines` breaks. */
  predicate IsBreak(c: char) {
    c in "\n\r\U{0B}\U{0C}\U{1C}\U{1D}\U{1E}\U{85}\U{2028}\U{2029}"
  }

  predicate BreakFree(s: string) {
    forall i :: 0 <= i < |s| ==> !IsBreak(s[i])
  }

  function FirstBreak(s: string): (n: nat)
    ensures n <= |s| && BreakFree(s[..n])
    ensures n < |s| ==> IsBreak(s[n])
  {
    if s == [] || IsBreak(s[0]) then 0
    else
      var n := 1 + FirstBreak(s[1..]);
      assert s[..n] == [s[0]] + s[1..][..n - 1];
      n
  }

  /** `str.splitlines`; "\r\n" is one break, and a final break ends the last line. */
  function SplitLines(s: string): (lines: seq<string>)
    ensures forall i :: 0 <= i < |lines| ==> BreakFree(lines[i])
    decreases |s|
  {
    if s == [] then []
    else
      var n := FirstBreak(s);
      if n == |s| then [s[..n]]
      else [s[..n]] + SplitLines(if n + 1 < |s| && s[n] == '\r' && s[n + 1] == '\n' then s[n + 2..] else s[n + 1..])
  }

  /** Every line followed by a newline. */
  function Terminated(lines: seq<string>): string {
    if lines == [] then [] else lines[0] + "\n" + Terminated(lines[1..])
  }

  lemma {:induction false} FirstBreakAt(line: string, rest: string)
    requires BreakFree(line) && (rest == [] || IsBreak(rest[0]))
    ensures FirstBreak(line + rest) == |line|
  {
    if line == [] {
      assert line + rest == rest;
    } else {
      FirstBreakAt(line[1..], rest);
      assert (line + rest)[1..] == line[1..] + rest;
    }
  }

  /** Lines that are written with newlines are read back, and so is what follows them. */
  lemma {:induction false} ReadLines(lines: seq<string>, tail: string)
    requires forall i :: 0 <= i < |lines| ==> BreakFree(lines[i])
    ensures SplitLines(Terminated(lines) + tail) == lines + SplitLines(tail)
  {
    if lines == [] {
      assert Terminated(lines) + tail == tail;
    } else {
      var rest := Terminated(lines[1..]) + tail;
      ReadLines(lines[1..], tail);
      ReadLine(lines[0], rest);
      Associate(lines[0] + "\n", Terminated(lines[1..]), tail);
      Associate(lines[0], "\n", Terminated(lines[1..]) + tail);
      HeadFirst(lines, SplitLines(tail));
    }
  }

  lemma HeadFirst(lines: seq<string>, more: seq<string>)
    requires lines != []
    ensures [lines[0]] + (lines[1..] + more) == lines + more
  {}

  lemma ReadLine(line: string, rest: string)
    requires BreakFree(line)
    ensures SplitLines(line + ("\n" + rest)) == [line] + SplitLines(rest)
  {
    var s := line + ("\n" + rest);
    FirstBreakAt(line, "\n" + rest);
    assert s[..|line|] == line && s[|line|] == '\n' && s[|line| + 1..] == rest;
  }

  /** Every break character ends a line, and CR LF ends one line, not two. */
  lemma BreakEndsLine(line: string, c: char, rest: string)
    requires BreakFree(line) && IsBreak(c)
    ensures SplitLines(line + [c] + rest) ==
      [line] + SplitLines(if c == '\r' && rest != [] && rest[0] == '\n' then rest[1..] else rest)
  {
    var s := line + [c] + rest;
    assert s == line + ([c] + rest);
    FirstBreakAt(line, [c] + rest);
    assert s[..|line|] == line && s[|line| + 1..] == rest;
    assert rest != [] ==> s[|line| + 2..] == rest[1..];
  }

  /** A last line needs no break, and a final break starts no further line. */
  lemma LastLine(line: string)
    requires BreakFree(line)
    ensures SplitLines(line) == if line == [] then [] else [line]
  {
    FirstBreakAt(line, []);
    assert line + [] == line && line[..|line|] == line;
  }

  // ---------------------------------------------------------------- stripping

  lemma StripIsSelf(s: string)
    requires s != [] && !IsSpace(s[0]) && !IsSpace(s[|s| - 1])
    ensures Strip(s) == s
  {}

  /** Stripping on the right stops at a character that is no space. */
  lemma {:induction false} StripRightKeeps(head: string, tail: string)
    requires head != [] && !IsSpace(head[|head| - 1])
    ensures head <= StripRight(head + tail) <= head + tail
  {
    if tail == [] {
      assert head + tail == head;
    } else if IsSpace(tail[|tail| - 1]) {
      StripRightKeeps(head, tail[..|tail| - 1]);
      assert (head + tail)[..|head + tail| - 1] == head + tail[..|tail| - 1];
    }
  }

  // ---------------------------------------------------------------- words

  datatype LexState = Between | Word | Quoted(quote: char) | Escaped(outer: Outer)

  datatype Outer = InWord | InQuote(quote: char)

  function Resume(outer: Outer): LexState {
    match outer case InWord => Word case InQuote(quote) => Quoted(quote)
  }

  predicate IsBlank(c: char) { c in " \t\r\n" }

  /** The words still to come; None for an open quotation or a trailing escape. */
  function Lex(s: string, state: LexState, token: string, quoted: bool): Option<seq<string>>
    decreases |s|
  {
    if s == [] then
      match state
      case Between => Some([])
      case Word => Some(if token != [] || quoted then [token] else [])
      case Quoted(_) => None
      case Escaped(_) => None
    else
      var c, rest := s[0], s[1..];
      match state
      case Between =>
        if IsBlank(c) then Lex(rest, Between, [], false)
        else if c == '\\' then Lex(rest, Escaped(InWord), [], false)
        else if c == '\'' || c == '"' then Lex(rest, Quoted(c), [], false)
        else Lex(rest, Word, [c], false)
      case Word =>
        if IsBlank(c) then
          if token != [] || quoted then
            match Lex(rest, Between, [], false)
            case None => None
            case Some(words) => Some([token] + words)
          else Lex(rest, Between, [], false)
        else if c == '\'' || c == '"' then Lex(rest, Quoted(c), token, quoted)
        else if c == '\\' then Lex(rest, Escaped(InWord), token, quoted)
        else Lex(rest, Word, token + [c], quoted)
      case Quoted(quote) =>
        if c == quote then Lex(rest, Word, token, true)
        else if c == '\\' && quote == '"' then Lex(rest, Escaped(InQuote(quote)), token, true)
        else Lex(rest, Quoted(quote), token + [c], true)
      case Escaped(outer) =>
        if outer.InQuote? && c != '\\' && c != outer.quote then Lex(rest, Resume(outer), token + ['\\', c], quoted)
        else Lex(rest, Resume(outer), token + [c], quoted)
  }

  /** `shlex.split(text, comments=False, posix=True)`. */
  function ShellWords(text: string): Option<seq<string>> {
    Lex(text, Between, [], false)
  }

  // ---------------------------------------------------------------- quoting

  function ReplaceChar(s: string, c: char, replacement: string): string {
    if s == [] then [] else (if s[0] == c then replacement else [s[0]]) + ReplaceChar(s[1..], c, replacement)
  }

  function EscapeValue(value: string): string {
    ReplaceChar(ReplaceChar(value, '\\', "\\\\"), '"', "\\\"")
  }

  /** `_quote_environment_value`. */
  function QuoteValue(value: string): string {
    "\"" + EscapeValue(value) + "\""
  }

  function EscapedChar(c: char): string {
    if c == '\\' then "\\\\" else if c == '"' then "\\\"" else [c]
  }

  /** Two replacements one after the other escape each character by itself. */
  lemma EscapeHead(value: string)
    requires value != []
    ensures EscapeValue(value) == EscapedChar(value[0]) + EscapeValue(value[1..])
  {
    var c := value[0];
    var tail := ReplaceChar(value[1..], '\\', "\\\\");
    var once := ReplaceChar(value, '\\', "\\\\");
    if c == '\\' {
      assert once == "\\\\" + tail;
      assert once[1..] == "\\" + tail && once[1..][1..] == tail;
      var rest := ReplaceChar(tail, '"', "\\\"");
      assert ReplaceChar(once[1..], '"', "\\\"") == ['\\'] + rest;
      assert ['\\'] + (['\\'] + rest) == "\\\\" + rest;
    } else {
      assert once == [c] + tail && once[1..] == tail;
    }
  }

  /** Inside double quotes the escaped value is read back, character by character. */
  lemma {:induction false} LexEscaped(value: string, rest: string, token: string)
    ensures Lex(EscapeValue(value) + rest, Quoted('"'), token, true) == Lex(rest, Quoted('"'), token + value, true)
  {
    if value == [] {
      assert EscapeValue(value) + rest == rest && token + value == token;
    } else {
      EscapeHead(value);
      var c, inner := value[0], EscapeValue(value[1..]);
      LexEscaped(value[1..], rest, token + [c]);
      LexOne(c, inner + rest, token);
      Associate(EscapedChar(c), inner, rest);
      Associate(token, [c], value[1..]);
      assert [c] + value[1..] == value;
    }
  }

  lemma LexOne(c: char, tail: string, token: string)
    ensures Lex(EscapedChar(c) + tail, Quoted('"'), token, true) == Lex(tail, Quoted('"'), token + [c], true)
  {
    var s := EscapedChar(c) + tail;
    if |EscapedChar(c)| == 2 {
      assert s[1..][0] == c && s[1..][1..] == tail;
    } else {
      assert s[1..] == tail;
    }
  }

  /** No beginning of an escaped value closes the quotation. */
  lemma {:induction false} LexOpen(value: string, n: nat, token: string)
    requires n <= |EscapeValue(value)|
    ensures Lex(EscapeValue(value)[..n], Quoted('"'), token, true) == None
    decreases |value|
  {
    if n > 0 {
      EscapeHead(value);
      var c := value[0];
      var head, tail := EscapedChar(c), EscapeValue(value[1..]);
      var s := EscapeValue(value)[..n];
      if n < |head| {
        assert s == ['\\'] && s[1..] == [];
      } else {
        assert s == head + tail[..n - |head|];
        LexOne(c, tail[..n - |head|], token);
        LexOpen(value[1..], n - |head|, token + [c]);
      }
    }
  }

  /** Characters that only make words longer. */
  predicate Plain(s: string) {
    forall i :: 0 <= i < |s| ==> !IsBlank(s[i]) && s[i] !in "\\'\""
  }

  lemma {:induction false} LexPlain(s: string, rest: string, token: string)
    requires Plain(s)
    ensures Lex(s + rest, Word, token, false) == Lex(rest, Word, token + s, false)
  {
    if s == [] {
      assert s + rest == rest && token + s == token;
    } else {
      LexPlain(s[1..], rest, token + [s[0]]);
      assert (s + rest)[1..] == s[1..] + rest;
      assert token + [s[0]] + s[1..] == token + s;
    }
  }

  /** A plain word that runs into a double quote. */
  lemma LexIntoQuote(s: string, rest: string)
    requires s != [] && Plain(s)
    ensures ShellWords(s + "\"" + rest) == Lex(rest, Quoted('"'), s, false)
  {
    var text := s + "\"" + rest;
    assert text[1..] == s[1..] + ("\"" + rest);
    assert !IsBlank(s[0]) && s[0] !in "\\'\"";
    LexPlain(s[1..], "\"" + rest, [s[0]]);
    assert [s[0]] + s[1..] == s;
    assert ("\"" + rest)[1..] == rest;
  }

  /** The flag that remembers a quotation does not matter once one is open. */
  lemma QuotedFlag(s: string, token: string)
    ensures Lex(s, Quoted('"'), token, false) == Lex(s, Quoted('"'), token, true)
  {}

  /** A shell reader gets exactly one word back: the assignment with the value itself. */
  lemma QuotedAssignment(name: string, value: string)
    requires name != [] && Plain(name)
    ensures ShellWords(name + QuoteValue(value)) == Some([name + value])
  {
    var closing := "\"";
    assert name + QuoteValue(value) == name + "\"" + (EscapeValue(value) + closing);
    LexIntoQuote(name, EscapeValue(value) + closing);
    QuotedFlag(EscapeValue(value) + closing, name);
    LexEscaped(value, closing, name);
    assert closing[1..] == [];
  }

  /** A quoted assignment that is cut off anywhere inside its value is refused. */
  lemma CutAssignment(name: string, value: string, n: nat)
    requires name != [] && Plain(name) && n <= |EscapeValue(value)|
    ensures ShellWords(name + "\"" + EscapeValue(value)[..n]) == None
  {
    LexIntoQuote(name, EscapeValue(value)[..n]);
    QuotedFlag(EscapeValue(value)[..n], name);
    LexOpen(value, n, name);
  }

  // ---------------------------------------------------------------- other spellings a user may write

  lemma PlainStart(s: string, rest: string)
    requires s != [] && Plain(s)
    ensures ShellWords(s + rest) == Lex(rest, Word, s, false)
  {
    assert (s + rest)[1..] == s[1..] + rest;
    assert !IsBlank(s[0]) && s[0] !in "\\'\"";
    LexPlain(s[1..], rest, [s[0]]);
    assert [s[0]] + s[1..] == s;
  }

  /** A text without blanks, quotes and backslashes is one word, itself. */
  lemma PlainIsOneWord(s: string)
    requires s != [] && Plain(s)
    ensures ShellWords(s) == Some([s])
  {
    PlainStart(s, []);
    assert s + [] == s;
  }

  /** A blank ends a word: two words are never read as one. */
  lemma BlankSeparates(a: string, b: string)
    requires a != [] && b != [] && Plain(a) && Plain(b)
    ensures ShellWords(a + " " + b) == Some([a, b])
  {
    assert a + " " + b == a + (" " + b);
    PlainStart(a, " " + b);
    assert (" " + b)[1..] == b;
    PlainIsOneWord(b);
    assert [a] + [b] == [a, b];
  }

  lemma {:induction false} LexSingle(value: string, rest: string, token: string)
    requires '\'' !in value
    ensures Lex(value + rest, Quoted('\''), token, true) == Lex(rest, Quoted('\''), token + value, true)
  {
    if value == [] {
      assert value + rest == rest && token + value == token;
    } else {
      LexSingle(value[1..], rest, token + [value[0]]);
      assert (value + rest)[1..] == value[1..] + rest;
      assert token + [value[0]] + value[1..] == token + value;
    }
  }

  /** Between single quotes every character stands for itself, a backslash too. */
  lemma SingleQuotedAssignment(name: string, value: string)
    requires name != [] && Plain(name) && '\'' !in value
    ensures ShellWords(name + "'" + value + "'") == Some([name + value])
  {
    var closing := "'";
    assert name + "'" + value + "'" == name + (closing + (value + closing));
    PlainStart(name, closing + (value + closing));
    assert (closing + (value + closing))[1..] == value + closing;
    SingleFlag(value + closing, name);
    LexSingle(value, closing, name);
    assert closing[1..] == [];
  }

  lemma SingleFlag(s: string, token: string)
    ensures Lex(s, Quoted('\''), token, false) == Lex(s, Quoted('\''), token, true)
  {}

  /** Outside quotes a backslash makes the next character part of the word. */
  lemma EscapedCharacter(name: string, c: char)
    requires name != [] && Plain(name)
    ensures ShellWords(name + "\\" + [c]) == Some([name + [c]])
  {
    assert name + "\\" + [c] == name + ("\\" + [c]);
    PlainStart(name, "\\" + [c]);
    assert ("\\" + [c])[1..] == [c];
    assert [c][1..] == [];
    assert Lex([c], Escaped(InWord), name, false) == Lex([], Word, name + [c], false);
  }
}
