/** Storing and reading provider secrets: platform/provider_environment.py. */
module ProviderEnvironment {
  import opened Basics
  import opened Texts
  import opened EnvironmentText
  import opened Sequences

  /** The secrets a file may hold, and the names it may still hold from earlier releases. */
  datatype Keys = Keys(supported: set<string>, retired: set<string>)

  const SHIPPED := Keys({"ANTHROPIC_API_KEY"}, {"OPENCLAW_GATEWAY_PASSWORD", "OPENCLAW_GATEWAY_TOKEN"})

  datatype EnvError =
    | UnsupportedKey
    | NotTrimmed
    | NotOneLine
    | InvalidAssignment
    | UnsupportedName(name: string)
    | InvalidValue(key: string)
    | EmptyValue(emptyKey: string)

  type Secrets = map<string, string>

  // ---------------------------------------------------------------- one assignment

  predicate IsKeyChar(c: char) {
    'A' <= c <= 'Z' || '0' <= c <= '9' || c == '_'
  }

  predicate IsKey(s: string) {
    s != [] && 'A' <= s[0] <= 'Z' && forall i :: 0 <= i < |s| ==> IsKeyChar(s[i])
  }

  function IndexOf(s: string, c: char): (i: nat)
    ensures i <= |s|
    ensures i < |s| ==> s[i] == c
    ensures forall j :: 0 <= j < i ==> s[j] != c
  {
    if s == [] || s[0] == c then 0 else 1 + IndexOf(s[1..], c)
  }

  /** The name of a full match of the assignment pattern. */
  function AssignmentKey(s: string): Option<string> {
    var i := IndexOf(s, '=');
    if i < |s| && IsKey(s[..i]) && '\n' !in s[i + 1..] then Some(s[..i]) else None
  }

  /** One line of `_parse_provider_secret_environment`; None when it assigns nothing. */
  function ParseLine(keys: Keys, line: string): Result<Option<(string, string)>, EnvError> {
    var s := Strip(line);
    if s == [] || s[0] == '#' then Ok(None)
    else
      match AssignmentKey(s)
      case None => Err(InvalidAssignment)
      case Some(key) =>
        if key in keys.retired then Ok(None)
        else if key !in keys.supported then Err(UnsupportedName(key))
        else
          match ShellWords(s)
          case None => Err(InvalidValue(key))
          case Some(words) =>
            if |words| != 1 || IndexOf(words[0], '=') == |words[0]| then Err(InvalidValue(key))
            else
              var value := words[0][IndexOf(words[0], '=') + 1..];
              if value == [] then Err(EmptyValue(key)) else Ok(Some((key, value)))
  }

  /** The parser's loop, from the secrets read so far; a later assignment overrides an earlier one. */
  function ParseLines(keys: Keys, lines: seq<string>, secrets: Secrets): Result<Secrets, EnvError>
    decreases |lines|
  {
    if lines == [] then Ok(secrets)
    else
      match ParseLine(keys, lines[0])
      case Err(e) => Err(e)
      case Ok(None) => ParseLines(keys, lines[1..], secrets)
      case Ok(Some((key, value))) => ParseLines(keys, lines[1..], secrets[key := value])
  }

  function Parse(keys: Keys, text: string): Result<Secrets, EnvError> {
    ParseLines(keys, SplitLines(text), map[])
  }

  // ---------------------------------------------------------------- writing

  predicate Assigns(line: string, names: set<string>) {
    AssignmentKey(Strip(line)).Some? && AssignmentKey(Strip(line)).value in names
  }

  function Without(lines: seq<string>, names: set<string>): (kept: seq<string>)
    ensures forall line :: line in kept ==> line in lines
  {
    if lines == [] then []
    else if Assigns(lines[0], names) then Without(lines[1..], names)
    else [lines[0]] + Without(lines[1..], names)
  }

  function TrimBlank(lines: seq<string>): seq<string> {
    if lines != [] && Strip(lines[|lines| - 1]) == [] then TrimBlank(lines[..|lines| - 1]) else lines
  }

  /** Only blank lines at the end go, and all of them. */
  lemma {:induction false} TrimBlankLast(lines: seq<string>)
    ensures var kept := TrimBlank(lines);
      && kept <= lines
      && (kept != [] ==> Strip(kept[|kept| - 1]) != [])
      && (forall i :: |kept| <= i < |lines| ==> Strip(lines[i]) == [])
  {
    hide Strip;
    if lines != [] && Strip(lines[|lines| - 1]) == [] { TrimBlankLast(lines[..|lines| - 1]); }
  }

  lemma WithoutOne(line: string, names: set<string>)
    ensures Without([line], names) == if Assigns(line, names) then [] else [line]
  {
    hide Assigns;
    assert [line][1..] == [];
  }

  /** Every line is kept or left out by itself, in order. */
  lemma {:induction false} WithoutSplits(a: seq<string>, b: seq<string>, names: set<string>)
    ensures Without(a + b, names) == Without(a, names) + Without(b, names)
  {
    hide Assigns;
    if a == [] {
      assert a + b == b;
    } else {
      WithoutSplits(a[1..], b, names);
      assert (a + b)[1..] == a[1..] + b;
    }
  }

  /** `_retained_environment_lines`. */
  function RetainedLines(keys: Keys, file: Option<string>, remove: set<string>): Result<seq<string>, EnvError> {
    if file.None? then Ok([])
    else
      match Parse(keys, file.value)
      case Err(e) => Err(e)
      case Ok(_) =>
        var kept := TrimBlank(Without(SplitLines(file.value), remove));
        Ok(if kept == [] then [] else kept + [""])
  }

  function JoinLines(lines: seq<string>): string {
    if lines == [] then [] else if |lines| == 1 then lines[0] else lines[0] + "\n" + JoinLines(lines[1..])
  }

  function TrimNewlines(s: string): string {
    if s != [] && s[|s| - 1] == '\n' then TrimNewlines(s[..|s| - 1]) else s
  }

  /** `_write_private_environment`. */
  function Rendered(lines: seq<string>): string {
    TrimNewlines(JoinLines(lines)) + "\n"
  }

  /** `_validate_secret_value`. */
  function Validate(value: string): Option<EnvError> {
    if value == [] || Strip(value) != value then Some(NotTrimmed)
    else if '\0' in value || '\n' in value || '\r' in value then Some(NotOneLine)
    else None
  }

  /** `persist_provider_secret`: the new file. */
  function Persist(keys: Keys, file: Option<string>, key: string, value: string, remove: set<string>)
    : Result<string, EnvError>
  {
    if key !in keys.supported then Err(UnsupportedKey)
    else
      match Validate(value)
      case Some(e) => Err(e)
      case None =>
        match RetainedLines(keys, file, remove + {key})
        case Err(e) => Err(e)
        case Ok(lines) => Ok(Rendered(lines + [key + "=" + QuoteValue(value)]))
  }

  /** `remove_provider_secrets`: the new file, or none if there was none. */
  function Remove(keys: Keys, file: Option<string>, names: set<string>): Result<Option<string>, EnvError> {
    if !(names <= keys.supported) then Err(UnsupportedKey)
    else if file.None? then Ok(None)
    else
      match RetainedLines(keys, file, names)
      case Err(e) => Err(e)
      case Ok(lines) => Ok(Some(Rendered(lines)))
  }

  /** `read_provider_secret_environment`. */
  function Read(keys: Keys, file: Option<string>): Result<Secrets, EnvError> {
    if file.None? then Ok(map[]) else Parse(keys, file.value)
  }

  // ---------------------------------------------------------------- how lines combine

  lemma {:induction false} ParseAppend(keys: Keys, a: seq<string>, b: seq<string>, secrets: Secrets)
    ensures ParseLines(keys, a + b, secrets) ==
      match ParseLines(keys, a, secrets)
      case Err(e) => Err(e)
      case Ok(read) => ParseLines(keys, b, read)
    decreases |a|
  {
    if a == [] {
      assert a + b == b;
    } else {
      assert (a + b)[1..] == a[1..] + b;
      match ParseLine(keys, a[0])
      case Err(_) =>
      case Ok(None) => ParseAppend(keys, a[1..], b, secrets);
      case Ok(Some((key, value))) => ParseAppend(keys, a[1..], b, secrets[key := value]);
    }
  }

  /** Leaving out the lines that assign some names removes exactly these names from what is read. */
  lemma {:induction false} WithoutReads(keys: Keys, lines: seq<string>, names: set<string>, secrets: Secrets)
    requires ParseLines(keys, lines, secrets).Ok?
    ensures ParseLines(keys, Without(lines, names), secrets - names) ==
      Ok(ParseLines(keys, lines, secrets).value - names)
    decreases |lines|
  {
    hide ParseLine, Assigns;
    if lines != [] {
      var rest := Without(lines[1..], names);
      AssignsIff(keys, lines[0], names);
      match ParseLine(keys, lines[0])
      case Ok(None) =>
        WithoutReads(keys, lines[1..], names, secrets);
        assert ([lines[0]] + rest)[1..] == rest;
      case Ok(Some((key, value))) =>
        WithoutReads(keys, lines[1..], names, secrets[key := value]);
        if key in names {
          assert secrets[key := value] - names == secrets - names;
        } else {
          assert secrets[key := value] - names == (secrets - names)[key := value];
          assert ([lines[0]] + rest)[1..] == rest;
        }
    }
  }

  lemma AssignsIff(keys: Keys, line: string, names: set<string>)
    ensures ParseLine(keys, line).Ok? && ParseLine(keys, line).value.Some? ==>
      (Assigns(line, names) <==> ParseLine(keys, line).value.value.0 in names)
  {}

  lemma {:induction false} TrimReads(keys: Keys, lines: seq<string>, secrets: Secrets)
    ensures ParseLines(keys, TrimBlank(lines), secrets) == ParseLines(keys, lines, secrets)
    decreases |lines|
  {
    if lines != [] && Strip(lines[|lines| - 1]) == [] {
      var shorter := lines[..|lines| - 1];
      TrimReads(keys, shorter, secrets);
      assert lines == shorter + [lines[|lines| - 1]];
      ParseAppend(keys, shorter, [lines[|lines| - 1]], secrets);
      BlankLast(keys, lines[|lines| - 1], secrets, ParseLines(keys, shorter, secrets));
    }
  }

  lemma BlankLast(keys: Keys, line: string, secrets: Secrets, before: Result<Secrets, EnvError>)
    requires Strip(line) == []
    ensures before.Ok? ==> ParseLines(keys, [line], before.value) == before
  {}

  /** What the retained lines of a readable file read as. */
  lemma RetainedReads(keys: Keys, file: Option<string>, remove: set<string>)
    requires Read(keys, file).Ok?
    ensures RetainedLines(keys, file, remove).Ok?
    ensures var lines := RetainedLines(keys, file, remove).value;
      && ParseLines(keys, lines, map[]) == Ok(Read(keys, file).value - remove)
      && (forall i :: 0 <= i < |lines| ==> BreakFree(lines[i]))
      && (lines != [] ==> |lines| >= 2 && lines[|lines| - 1] == [] && Strip(lines[|lines| - 2]) != [])
  {
    var nothing: Secrets := map[];
    assert nothing - remove == nothing;
    if file.Some? {
      var all := SplitLines(file.value);
      WithoutReads(keys, all, remove, nothing);
      KeptReads(keys, all, remove);
    }
  }

  /** The lines that are kept, with an empty line behind them. */
  lemma KeptReads(keys: Keys, all: seq<string>, remove: set<string>)
    requires forall line :: line in all ==> BreakFree(line)
    ensures var kept := TrimBlank(Without(all, remove));
      && ParseLines(keys, kept, map[]) == ParseLines(keys, Without(all, remove), map[])
      && ParseLines(keys, kept + [""], map[]) == ParseLines(keys, kept, map[])
      && (forall i :: 0 <= i < |kept| ==> BreakFree(kept[i]))
      && (kept != [] ==> Strip(kept[|kept| - 1]) != [])
  {
    var some := Without(all, remove);
    var kept := TrimBlank(some);
    TrimReads(keys, some, map[]);
    TrimBlankLast(some);
    forall i | 0 <= i < |kept| ensures BreakFree(kept[i]) {
      assert kept[i] == some[i] && some[i] in some && some[i] in all;
    }
    ParseAppend(keys, kept, [""], map[]);
    EmptyLine(keys, ParseLines(keys, kept, map[]));
  }

  lemma EmptyLine(keys: Keys, before: Result<Secrets, EnvError>)
    ensures before.Ok? ==> ParseLines(keys, [""], before.value) == before
  {
    assert Strip("") == [];
  }

  // ---------------------------------------------------------------- rendering

  lemma {:induction false} JoinTerminates(lines: seq<string>)
    requires lines != []
    ensures JoinLines(lines) + "\n" == Terminated(lines)
  {
    if |lines| == 1 {
      assert Terminated(lines[1..]) == [];
    } else {
      JoinTerminates(lines[1..]);
      assert lines[0] + "\n" + JoinLines(lines[1..]) + "\n" == lines[0] + "\n" + (JoinLines(lines[1..]) + "\n");
    }
  }

  lemma {:induction false} JoinLast(lines: seq<string>, last: string)
    requires last != []
    ensures JoinLines(lines + [last]) != []
      && JoinLines(lines + [last])[|JoinLines(lines + [last])| - 1] == last[|last| - 1]
    ensures JoinLines(lines + [last]) + "\n" == Terminated(lines) + last + "\n"
  {
    var all := lines + [last];
    if lines == [] {
      assert all == [last] && Terminated(lines) + last == last;
    } else {
      JoinLast(lines[1..], last);
      assert all[1..] == lines[1..] + [last];
      var rest := JoinLines(all[1..]);
      assert JoinLines(all) == lines[0] + "\n" + rest;
      assert lines[0] + "\n" + rest + "\n" == lines[0] + "\n" + (rest + "\n");
      assert lines[0] + "\n" + (Terminated(lines[1..]) + last + "\n") ==
        (lines[0] + "\n" + Terminated(lines[1..])) + last + "\n";
    }
  }

  /** A file whose last line does not end in a newline is written line by line. */
  lemma RenderedLines(lines: seq<string>, last: string)
    requires last != [] && last[|last| - 1] != '\n'
    ensures Rendered(lines + [last]) == Terminated(lines) + (last + "\n")
  {
    JoinLast(lines, last);
    assert Terminated(lines) + last + "\n" == Terminated(lines) + (last + "\n");
  }

  // ---------------------------------------------------------------- the written assignment

  ghost predicate KeysOk(keys: Keys) {
    && (forall key :: key in keys.supported ==> IsKey(key))
    && keys.supported !! keys.retired
  }

  function Line(key: string, value: string): string {
    key + "=" + QuoteValue(value)
  }

  lemma {:induction false} EscapedChars(value: string, c: char)
    ensures c in EscapeValue(value) ==> c in value || c == '\\' || c == '"'
    ensures c in value ==> c in EscapeValue(value)
    ensures value != [] ==> EscapeValue(value) != []
  {
    if value != [] {
      EscapeHead(value);
      EscapedChars(value[1..], c);
      assert value == [value[0]] + value[1..];
    }
  }

  lemma KeyIsPlain(key: string)
    requires IsKey(key)
    ensures Plain(key + "=") && '=' !in key && BreakFree(key + "=\"")
    ensures !IsSpace(key[0]) && key[0] != '#'
  {
    var s := key + "=\"";
    forall i | 0 <= i < |s| - 1 ensures !IsBlank(s[i]) && s[i] !in "\\'\"" && !IsBreak(s[i]) && s[i] == (key + "=")[i] {
      if i < |key| { assert IsKeyChar(key[i]); }
    }
  }

  lemma {:induction false} IndexOfFirst(a: string, c: char, b: string)
    requires c !in a
    ensures IndexOf(a + [c] + b, c) == |a|
  {
    if a == [] {
      assert a + [c] + b == [c] + b;
    } else {
      IndexOfFirst(a[1..], c, b);
      assert (a + [c] + b)[1..] == a[1..] + [c] + b;
    }
  }

  /** Any text that starts with a key and an equals sign is that key's assignment. */
  lemma KeyOfAssignment(key: string, rest: string)
    requires IsKey(key) && '\n' !in rest
    ensures AssignmentKey(key + "=" + rest) == Some(key)
  {
    KeyIsPlain(key);
    IndexOfFirst(key, '=', rest);
    var s := key + "=" + rest;
    assert s[..|key|] == key && s[|key| + 1..] == rest;
  }

  /** A line is an assignment exactly if it reads key, equals sign, and text without a newline. */
  lemma AssignmentIff(s: string, key: string)
    ensures AssignmentKey(s) == Some(key) <==> IsKey(key) && key + "=" <= s && '\n' !in s[|key| + 1..]
  {
    var i := IndexOf(s, '=');
    if AssignmentKey(s) == Some(key) {
      assert s == s[..i] + "=" + s[i + 1..];
      assert s[..i + 1] == key + "=";
    }
    if IsKey(key) && key + "=" <= s && '\n' !in s[|key| + 1..] {
      assert s == key + "=" + s[|key| + 1..];
      KeyOfAssignment(key, s[|key| + 1..]);
    }
  }

  /** A line gives no secret exactly if it is blank, a comment or the assignment of a retired name. */
  lemma LineSkippedIff(keys: Keys, line: string)
    ensures ParseLine(keys, line) == Ok(None) <==>
      || Blank(line)
      || "#" <= Strip(line)
      || (AssignmentKey(Strip(line)).Some? && AssignmentKey(Strip(line)).value in keys.retired)
  {
    hide ShellWords, AssignmentKey;
    StripIsEmptyIffBlank(line);
  }

  /** An unquoted value without blanks, quotes and backslashes is read as it stands. */
  lemma PlainLineReads(keys: Keys, key: string, value: string)
    requires key in keys.supported && key !in keys.retired && IsKey(key)
    requires value != [] && Plain(value) && !IsSpace(value[|value| - 1])
    ensures ParseLine(keys, key + "=" + value) == Ok(Some((key, value)))
  {
    hide ShellWords, AssignmentKey;
    var line := key + "=" + value;
    KeyIsPlain(key);
    IndexOfFirst(key, '=', value);
    assert line[|key| + 1..] == value;
    assert line[0] == key[0] && line[|line| - 1] == value[|value| - 1];
    StripIsSelf(line);
    KeyOfAssignment(key, value);
    PlainJoin(key + "=", value);
    PlainIsOneWord(line);
  }

  /** Between single quotes any other value is read as it stands. */
  lemma SingleQuotedLineReads(keys: Keys, key: string, value: string)
    requires key in keys.supported && key !in keys.retired && IsKey(key)
    requires value != [] && '\n' !in value && '\'' !in value
    ensures ParseLine(keys, key + "='" + value + "'") == Ok(Some((key, value)))
  {
    hide ShellWords, AssignmentKey;
    var quoted := "'" + value + "'";
    var line := key + "=" + quoted;
    assert key + "='" + value + "'" == line == (key + "=") + "'" + value + "'";
    KeyIsPlain(key);
    assert line[0] == key[0] && line[|line| - 1] == '\'';
    StripIsSelf(line);
    KeyOfAssignment(key, quoted);
    SingleQuotedAssignment(key + "=", value);
    var word := key + "=" + value;
    IndexOfFirst(key, '=', value);
    assert word[|key| + 1..] == value;
  }

  lemma PlainJoin(a: string, b: string)
    requires Plain(a) && Plain(b)
    ensures Plain(a + b)
  {}

  /** Which lines make the file unreadable, and what is said of them. */
  lemma LineRefusals(keys: Keys, line: string)
    requires !Blank(line) && !("#" <= Strip(line))
    ensures AssignmentKey(Strip(line)).None? ==> ParseLine(keys, line) == Err(InvalidAssignment)
    ensures AssignmentKey(Strip(line)).Some? ==>
      var key := AssignmentKey(Strip(line)).value;
      key !in keys.supported + keys.retired ==> ParseLine(keys, line) == Err(UnsupportedName(key))
  {
    hide ShellWords, AssignmentKey;
    StripIsEmptyIffBlank(line);
  }

  /** A value that is left out is refused, and so is one that the shell would read as two words. */
  lemma ValueRefusals(keys: Keys, key: string, more: string)
    requires key in keys.supported && key !in keys.retired && IsKey(key)
    ensures ParseLine(keys, key + "=") == Err(EmptyValue(key))
    ensures more != [] && Plain(more) && '\n' !in more && !IsSpace(more[|more| - 1]) ==>
      ParseLine(keys, key + "= " + more) == Err(InvalidValue(key))
  {
    hide ShellWords, AssignmentKey;
    KeyIsPlain(key);
    var bare := key + "=";
    IndexOfFirst(key, '=', "");
    assert bare + "" == bare;
    StripIsSelf(bare);
    KeyOfAssignment(key, "");
    PlainIsOneWord(bare);
    if more != [] && Plain(more) && '\n' !in more && !IsSpace(more[|more| - 1]) {
      var line := bare + " " + more;
      assert line[0] == key[0] && line[|line| - 1] == more[|more| - 1];
      StripIsSelf(line);
      assert key + "= " + more == line == bare + (" " + more);
      KeyOfAssignment(key, " " + more);
      BlankSeparates(bare, more);
    }
  }

  /** A stored assignment is read as the key and the very value. */
  lemma LineReads(keys: Keys, key: string, value: string)
    requires KeysOk(keys) && key in keys.supported
    requires value != [] && '\n' !in value
    ensures ParseLine(keys, Line(key, value)) == Ok(Some((key, value)))
  {
    var line := Line(key, value);
    KeyIsPlain(key);
    assert line[0] == key[0] && line[|line| - 1] == '"';
    StripIsSelf(line);
    EscapedChars(value, '\n');
    KeyOfAssignment(key, QuoteValue(value));
    QuotedAssignment(key + "=", value);
    IndexOfFirst(key, '=', value);
    var word := key + "=" + value;
    assert word[|key| + 1..] == value;
  }

  /** The line is one line exactly when the value has no line break of any kind. */
  lemma LineBreaks(key: string, value: string)
    requires IsKey(key)
    ensures BreakFree(Line(key, value)) <==> BreakFree(value)
  {
    KeyIsPlain(key);
    var line := Line(key, value);
    var head, inner := key + "=\"", EscapeValue(value);
    assert line == head + inner + "\"";
    if !BreakFree(value) {
      var i :| 0 <= i < |value| && IsBreak(value[i]);
      EscapedChars(value, value[i]);
      var j :| 0 <= j < |inner| && inner[j] == value[i];
      assert line[|head| + j] == inner[j];
    }
    if !BreakFree(line) {
      var i :| 0 <= i < |line| && IsBreak(line[i]);
      assert forall j :: 0 <= j < |head| ==> line[j] == head[j];
      assert i >= |head|;
      if i < |head| + |inner| {
        assert inner[i - |head|] == line[i];
        EscapedChars(value, line[i]);
      }
    }
  }

  /** What is left of a line that a value's break cuts off: the key, the opening quote and a part of the value. */
  lemma CutPiece(key: string, value: string) returns (m: nat)
    requires IsKey(key) && !BreakFree(value)
    ensures m <= |EscapeValue(value)|
    ensures var line := Line(key, value);
      Strip(line[..FirstBreak(line)]) == (key + "=") + "\"" + EscapeValue(value)[..m]
  {
    var line := Line(key, value);
    var head, inner := (key + "=") + "\"", EscapeValue(value);
    LineBreaks(key, value);
    KeyIsPlain(key);
    var cut := FirstBreak(line);
    BreakInside(key, value, cut);
    var n := cut - |head|;
    assert line[..cut] == head + inner[..n] by { assert line == head + (inner + "\""); }
    m := StripPiece(head, inner[..n]);
    assert inner[..n][..m] == inner[..m];
  }

  /** Stripping a text that starts and ends its head with no space takes characters off its tail only. */
  lemma StripPiece(head: string, tail: string) returns (m: nat)
    requires head != [] && !IsSpace(head[0]) && !Texts.IsSpace(head[|head| - 1])
    ensures m <= |tail| && Strip(head + tail) == head + tail[..m]
  {
    StripRightKeeps(head, tail);
    m := |StripRight(head + tail)| - |head|;
    assert (head + tail)[..|head| + m] == head + tail[..m];
  }

  /** A line that a value's break cuts off is refused. */
  lemma CutLineIsRefused(keys: Keys, key: string, value: string)
    requires KeysOk(keys) && key in keys.supported
    requires '\n' !in value && !BreakFree(value)
    ensures var line := Line(key, value);
      ParseLine(keys, line[..FirstBreak(line)]) == Err(InvalidValue(key))
  {
    var inner := EscapeValue(value);
    var m := CutPiece(key, value);
    EscapedChars(value, '\n');
    KeyIsPlain(key);
    KeyOfAssignment(key, "\"" + inner[..m]);
    Associate(key + "=", "\"", inner[..m]);
    CutAssignment(key + "=", value, m);
  }

  lemma BreakInside(key: string, value: string, cut: nat)
    requires IsKey(key)
    requires cut < |Line(key, value)| && IsBreak(Line(key, value)[cut])
    ensures |key| + 2 <= cut < |key| + 2 + |EscapeValue(value)|
  {
    KeyIsPlain(key);
    var line := Line(key, value);
    assert forall j :: 0 <= j < |key| + 2 ==> line[j] == (key + "=\"")[j];
  }

  // ---------------------------------------------------------------- the round trip

  lemma {:induction false} FirstLine(s: string, rest: string)
    requires !BreakFree(s)
    ensures SplitLines(s + rest) != [] && SplitLines(s + rest)[0] == s[..FirstBreak(s)]
  {
    var n := FirstBreak(s);
    assert s[..|s|] == s;
    assert n < |s|;
    assert s + rest == s[..n] + (s[n..] + rest);
    FirstBreakAt(s[..n], s[n..] + rest);
  }

  /** The lines of the file that `Persist` writes. */
  lemma PersistedLines(lines: seq<string>, key: string, value: string)
    requires IsKey(key) && forall i :: 0 <= i < |lines| ==> BreakFree(lines[i])
    ensures SplitLines(Rendered(lines + [Line(key, value)])) == lines + SplitLines(Line(key, value) + "\n")
  {
    var line := Line(key, value);
    assert line[|line| - 1] == '"';
    RenderedLines(lines, line);
    ReadLines(lines, line + "\n");
  }

  lemma ReadBackLine(keys: Keys, key: string, value: string, secrets: Secrets)
    requires KeysOk(keys) && key in keys.supported && value != [] && '\n' !in value
    ensures ParseLines(keys, SplitLines(Line(key, value) + "\n"), secrets) ==
      if BreakFree(value) then Ok(secrets[key := value]) else Err(InvalidValue(key))
  {
    hide ParseLine;
    var line := Line(key, value);
    LineBreaks(key, value);
    if BreakFree(value) {
      ReadLine(line, "");
      assert line + ("\n" + "") == line + "\n";
      LineReads(keys, key, value);
      assert SplitLines(line + "\n") == [line];
    } else {
      FirstLine(line, "\n");
      CutLineIsRefused(keys, key, value);
    }
  }

  /**
    Storing an accepted secret in a readable file: it is read back as the same
    value, and the other secrets as before, if and only if the value contains
    none of the characters at which `str.splitlines` breaks; otherwise the file
    that was written cannot be read any more.
  */
  lemma PersistThenRead(keys: Keys, file: Option<string>, key: string, value: string, remove: set<string>)
    requires KeysOk(keys) && key in keys.supported && Validate(value) == None && Read(keys, file).Ok?
    ensures var written := Persist(keys, file, key, value, remove);
      && written.Ok?
      && (BreakFree(value) ==>
           Read(keys, Some(written.value)) == Ok((Read(keys, file).value - (remove + {key}))[key := value]))
      && (!BreakFree(value) ==> Read(keys, Some(written.value)) == Err(InvalidValue(key)))
  {
    hide ParseLine, KeysOk;
    RetainedReads(keys, file, remove + {key});
    var lines := RetainedLines(keys, file, remove + {key}).value;
    KeyOfKeys(keys, key);
    PersistedLines(lines, key, value);
    ParseAppend(keys, lines, SplitLines(Line(key, value) + "\n"), map[]);
    ReadBackLine(keys, key, value, Read(keys, file).value - (remove + {key}));
  }

  /** The lines of the old file that stay: those that assign none of the names, without blank ones at the end. */
  function KeptLines(file: Option<string>, names: set<string>): seq<string> {
    if file.None? then [] else TrimBlank(Without(SplitLines(file.value), names))
  }

  /** The file that is written: the kept lines, an empty line if there are any, and the new assignment at the end. */
  lemma PersistKeepsLines(keys: Keys, file: Option<string>, key: string, value: string, remove: set<string>)
    requires KeysOk(keys) && key in keys.supported && Validate(value) == None && Read(keys, file).Ok?
    requires BreakFree(value)
    ensures var kept := KeptLines(file, remove + {key});
      var written := Persist(keys, file, key, value, remove);
      && written.Ok?
      && SplitLines(written.value) == (if kept == [] then [] else kept + [""]) + [key + "=" + QuoteValue(value)]
  {
    hide Parse, KeysOk, QuoteValue, Strip, Validate;
    KeyOfKeys(keys, key);
    RetainedReads(keys, file, remove + {key});
    var lines := RetainedLines(keys, file, remove + {key}).value;
    PersistedLines(lines, key, value);
    LineBreaks(key, value);
    var line := Line(key, value);
    ReadLine(line, "");
    assert line + ("\n" + "") == line + "\n";
  }

  lemma KeyOfKeys(keys: Keys, key: string)
    requires KeysOk(keys) && key in keys.supported
    ensures IsKey(key)
  {}

  lemma ShippedKeysOk()
    ensures KeysOk(SHIPPED)
  {
    assert IsKey("ANTHROPIC_API_KEY");
  }

  /** Accepted are exactly the texts that start and end with no space and hold no NUL and no CR or LF. */
  lemma SecretAcceptedIff(value: string)
    ensures Validate(value) == Some(NotTrimmed) <==>
      value == [] || IsSpace(value[0]) || IsSpace(value[|value| - 1])
    ensures Validate(value) == None <==>
      && value != [] && !IsSpace(value[0]) && !IsSpace(value[|value| - 1])
      && forall i :: 0 <= i < |value| ==> value[i] != '\0' && value[i] != '\n' && value[i] != '\r'
    ensures Validate(value) in {None, Some(NotTrimmed), Some(NotOneLine)}
  {
    StripFixed(value);
    assert forall c :: c in value ==> exists i :: 0 <= i < |value| && value[i] == c;
  }

  /**
    A secret is stored exactly if its name is supported, its value accepted and
    the file readable, asked in this order.
  */
  lemma PersistAcceptedIff(keys: Keys, file: Option<string>, key: string, value: string, remove: set<string>)
    ensures Persist(keys, file, key, value, remove).Ok? <==>
      key in keys.supported && Validate(value) == None && Read(keys, file).Ok?
    ensures key !in keys.supported ==> Persist(keys, file, key, value, remove) == Err(UnsupportedKey)
    ensures key in keys.supported && Validate(value).Some? ==>
      Persist(keys, file, key, value, remove) == Err(Validate(value).value)
    ensures key in keys.supported && Validate(value) == None && Read(keys, file).Err? ==>
      Persist(keys, file, key, value, remove) == Err(Read(keys, file).error)
  {
    hide Validate, Parse, Without, TrimBlank;
  }

  /**
    Secrets are removed exactly if their names are supported and the file is
    readable; a missing file stays missing.
  */
  lemma RemoveAcceptedIff(keys: Keys, file: Option<string>, names: set<string>)
    ensures Remove(keys, file, names).Ok? <==> names <= keys.supported && Read(keys, file).Ok?
    ensures !(names <= keys.supported) ==> Remove(keys, file, names) == Err(UnsupportedKey)
    ensures names <= keys.supported && file.None? ==> Remove(keys, file, names) == Ok(None)
    ensures names <= keys.supported && Read(keys, file).Err? ==>
      Remove(keys, file, names) == Err(Read(keys, file).error)
  {
    hide Parse, Without, TrimBlank;
  }

  /** It happens: a vertical tab inside an accepted key leaves an unreadable file behind. */
  lemma VerticalTabBreaksTheFile()
    ensures Validate("a\U{0B}b") == None
    ensures var written := Persist(SHIPPED, None, "ANTHROPIC_API_KEY", "a\U{0B}b", {});
      written.Ok? && Read(SHIPPED, Some(written.value)).Err?
  {
    var value := "a\U{0B}b";
    StripIsSelf(value);
    ShippedKeysOk();
    assert IsBreak(value[1]);
    PersistThenRead(SHIPPED, None, "ANTHROPIC_API_KEY", value, {});
  }

  /** A file from which secrets were removed holds the kept lines, or one empty line if none is left. */
  lemma RemoveKeepsLines(keys: Keys, file: Option<string>, names: set<string>)
    requires names <= keys.supported && file.Some? && Read(keys, file).Ok?
    ensures var kept := KeptLines(file, names);
      var written := Remove(keys, file, names);
      && written.Ok? && written.value.Some?
      && SplitLines(written.value.value) == if kept == [] then [""] else kept
  {
    hide Parse, Strip;
    RetainedReads(keys, file, names);
    var kept := KeptLines(file, names);
    var lines := RetainedLines(keys, file, names).value;
    if kept == [] {
      assert Rendered([]) == "" + "\n" == "\n";
      ReadLine("", "");
      assert "" + ("\n" + "") == "\n";
    } else {
      TrimBlankLast(Without(SplitLines(file.value), names));
      assert lines == kept + [""] && lines[..|lines| - 1] == kept;
      KeptRendered(lines);
      assert forall i :: 0 <= i < |kept| ==> kept[i] == lines[i];
      ReadLines(kept, "");
      assert Terminated(kept) + "" == Terminated(kept) && kept + [] == kept;
    }
  }

  /** Removing secrets from a readable file leaves exactly the others. */
  lemma RemoveThenRead(keys: Keys, file: Option<string>, names: set<string>)
    requires names <= keys.supported && Read(keys, file).Ok?
    ensures Remove(keys, file, names).Ok?
    ensures Read(keys, Remove(keys, file, names).value) == Ok(Read(keys, file).value - names)
  {
    hide ParseLine, Strip, Assigns;
    var nothing: Secrets := map[];
    if file.None? {
      assert nothing - names == nothing;
    } else {
      RetainedReads(keys, file, names);
      KeptReads(keys, SplitLines(file.value), names);
      RemoveKeepsLines(keys, file, names);
      EmptyLine(keys, Ok(nothing));
      hide Remove;
    }
  }

  lemma KeptRendered(lines: seq<string>)
    requires |lines| >= 2 && lines[|lines| - 1] == [] && Strip(lines[|lines| - 2]) != []
    requires forall i :: 0 <= i < |lines| ==> BreakFree(lines[i])
    ensures Rendered(lines) == Terminated(lines[..|lines| - 1])
  {
    var kept := lines[..|lines| - 1];
    var last := kept[|kept| - 1];
    var before := kept[..|kept| - 1];
    assert last != [] by { StripIsEmptyIffBlank(last); }
    assert lines == kept + [""] && kept == before + [last];
    JoinEmpty(kept);
    JoinLast(before, last);
    assert !IsBreak(last[|last| - 1]);
    var text := JoinLines(kept);
    assert TrimNewlines(text) == text;
    assert (text + "\n")[..|text + "\n"| - 1] == text;
    JoinTerminates(kept);
  }

  lemma {:induction false} JoinEmpty(lines: seq<string>)
    requires lines != []
    ensures JoinLines(lines + [""]) == JoinLines(lines) + "\n"
  {
    var all := lines + [""];
    assert all[1..] == lines[1..] + [""];
    if |lines| == 1 {
      assert all[1..] == [""];
      assert lines[0] + "\n" + "" == lines[0] + "\n";
    } else {
      JoinEmpty(lines[1..]);
      assert lines[0] + "\n" + (JoinLines(lines[1..]) + "\n") == lines[0] + "\n" + JoinLines(lines[1..]) + "\n";
    }
  }

  // ---------------------------------------------------------------- the file

  class SecretFile {
    const keys: Keys
    var text: Option<string>

    constructor (keys: Keys, text: Option<string>)
      ensures this.keys == keys && this.text == text
    {
      this.keys := keys;
      this.text := text;
    }

    /** `_parse_provider_secret_environment`. */
    method ParseEnvironment(content: string) returns (r: Result<Secrets, EnvError>)
      ensures r == Parse(keys, content)
    {
      var lines := SplitLines(content);
      var secrets: Secrets := map[];
      assert lines[0..] == lines;
      for i := 0 to |lines|
        invariant ParseLines(keys, lines, map[]) == ParseLines(keys, lines[i..], secrets)
      {
        assert lines[i..][0] == lines[i] && lines[i..][1..] == lines[i + 1..];
        match ParseLine(keys, lines[i]) {
          case Err(e) => return Err(e);
          case Ok(None) =>
          case Ok(Some((key, value))) => secrets := secrets[key := value];
        }
      }
      return Ok(secrets);
    }

    /** `_retained_environment_lines`. */
    method RetainedEnvironmentLines(remove: set<string>) returns (r: Result<seq<string>, EnvError>)
      ensures r == RetainedLines(keys, text, remove)
    {
      if text.None? { return Ok([]); }
      var parsed := ParseEnvironment(text.value);
      if parsed.Err? { return Err(parsed.error); }
      var lines := SplitLines(text.value);
      var retained: seq<string> := [];
      assert lines[0..] == lines && [] + Without(lines, remove) == Without(lines, remove);
      for i := 0 to |lines|
        invariant Without(lines, remove) == retained + Without(lines[i..], remove)
      {
        assert lines[i..][0] == lines[i] && lines[i..][1..] == lines[i + 1..];
        if !Assigns(lines[i], remove) {
          assert retained + ([lines[i]] + Without(lines[i + 1..], remove)) ==
            (retained + [lines[i]]) + Without(lines[i + 1..], remove);
          retained := retained + [lines[i]];
        }
      }
      assert retained == Without(lines, remove);
      while retained != [] && Strip(retained[|retained| - 1]) == []
        invariant TrimBlank(retained) == TrimBlank(Without(lines, remove))
        decreases |retained|
      {
        retained := retained[..|retained| - 1];
      }
      if retained != [] { retained := retained + [""]; }
      return Ok(retained);
    }

    /** `persist_provider_secret`; the file is replaced as a whole or not at all. */
    method PersistProviderSecret(key: string, value: string, remove: set<string>) returns (error: Option<EnvError>)
      modifies this`text
      ensures match Persist(keys, old(text), key, value, remove)
        case Ok(written) => error == None && text == Some(written)
        case Err(e) => error == Some(e) && text == old(text)
    {
      if key !in keys.supported { return Some(UnsupportedKey); }
      var invalid := Validate(value);
      if invalid.Some? { return invalid; }
      var retained := RetainedEnvironmentLines(remove + {key});
      if retained.Err? { return Some(retained.error); }
      text := Some(Rendered(retained.value + [key + "=" + QuoteValue(value)]));
      return None;
    }

    /** `remove_provider_secrets`. */
    method RemoveProviderSecrets(names: set<string>) returns (error: Option<EnvError>)
      modifies this`text
      ensures match Remove(keys, old(text), names)
        case Ok(written) => error == None && text == written
        case Err(e) => error == Some(e) && text == old(text)
    {
      if !(names <= keys.supported) { return Some(UnsupportedKey); }
      if text.None? { return None; }
      var retained := RetainedEnvironmentLines(names);
      if retained.Err? { return Some(retained.error); }
      text := Some(Rendered(retained.value));
      return None;
    }
  }
}
