/**
  Local references of the workflow schema: `resolve_local_reference` of
  scripts/docs/docs_contract/workflow_schema.py, against the evaluation of a
  JSON Pointer as section 4 of RFC 6901 defines it.
*/
module JsonPointer {
  import opened Basics
  import opened Decimal
  import opened Sequences

  datatype Json = Obj(fields: map<string, Json>) | Arr(items: seq<Json>) | Scalar

  datatype Part = Key(name: string) | Index(i: nat)

  type Path = seq<Part>

  datatype Reference = NotText | Text(text: string)

  datatype RefError =
    | NotString
    | NonLocal
    | BadPercentEscape
    | NotUtf8
    | PlainName
    | BadPointerEscape
    | MissingTarget
    | BadIndex
    | ThroughScalar

  /** Percent decoding of a fragment; None when the bytes are not UTF-8. */
  type Unquote = string -> Option<string>

  // ---------------------------------------------------------------- the definition of a JSON Pointer

  /** Section 3 of RFC 6901: `~` is written `~0` and `/` is written `~1`. */
  function Escape(token: string): string {
    if token == [] then []
    else (if token[0] == '~' then "~0" else if token[0] == '/' then "~1" else [token[0]]) + Escape(token[1..])
  }

  /** The pointer that consists of these tokens. */
  function Render(tokens: seq<string>): string {
    if tokens == [] then [] else "/" + Escape(tokens[0]) + Render(tokens[1..])
  }

  /** Section 4 of RFC 6901 for one token: the member with that name, or the item whose decimal index it is. */
  ghost predicate Selects(value: Json, token: string, part: Part) {
    if value.Obj? then token in value.fields && part == Key(token)
    else value.Arr? && part.Index? && part.i < |value.items| && token == Format(part.i)
  }

  predicate HasPart(value: Json, part: Part) {
    match part
    case Key(name) => value.Obj? && name in value.fields
    case Index(i) => value.Arr? && i < |value.items|
  }

  function Child(value: Json, part: Part): Json
    requires HasPart(value, part)
  {
    match part
    case Key(name) => value.fields[name]
    case Index(i) => value.items[i]
  }

  /** The pointer's tokens select, one after the other, the parts of the path, and end at the target. */
  ghost predicate Evaluates(value: Json, tokens: seq<string>, path: Path, target: Json)
    decreases |tokens|
  {
    if tokens == [] then path == [] && target == value
    else
      && path != []
      && Selects(value, tokens[0], path[0])
      && Evaluates(Child(value, path[0]), tokens[1..], path[1..], target)
  }

  predicate IsPath(value: Json, path: Path)
    decreases |path|
  {
    path == [] || (HasPart(value, path[0]) && IsPath(Child(value, path[0]), path[1..]))
  }

  /** `value_at_schema_path`. */
  function ValueAt(value: Json, path: Path): Json
    requires IsPath(value, path)
    decreases |path|
  {
    if path == [] then value else ValueAt(Child(value, path[0]), path[1..])
  }

  // ---------------------------------------------------------------- token decoding

  /** `text.replace(a + b, c)`. */
  function ReplacePair(s: string, a: char, b: char, c: char): string {
    if s == [] then []
    else if |s| >= 2 && s[0] == a && s[1] == b then [c] + ReplacePair(s[2..], a, b, c)
    else [s[0]] + ReplacePair(s[1..], a, b, c)
  }

  function Unescape(encoded: string): string {
    ReplacePair(ReplacePair(encoded, '~', '1', '/'), '~', '0', '~')
  }

  /** Some `~` is not followed by 0 or 1. */
  predicate BadEscape(encoded: string) {
    exists i :: 0 <= i < |encoded| && encoded[i] == '~' && (i + 1 == |encoded| || encoded[i + 1] !in "01")
  }

  lemma BadEscapeTail(s: string)
    requires s != []
    ensures BadEscape(s) <==> (s[0] == '~' && (|s| == 1 || s[1] !in "01")) || BadEscape(s[1..])
  {
    if BadEscape(s[1..]) {
      var i :| 0 <= i < |s| - 1 && s[1..][i] == '~' && (i + 1 == |s[1..]| || s[1..][i + 1] !in "01");
      assert s[i + 1] == '~';
    }
    if BadEscape(s) && !(s[0] == '~' && (|s| == 1 || s[1] !in "01")) {
      var i :| 0 <= i < |s| && s[i] == '~' && (i + 1 == |s| || s[i + 1] !in "01");
      assert i > 0 && s[1..][i - 1] == '~';
    }
  }

  /** Escaping and decoding are inverse to each other: decoding an escaped token gives it back. */
  lemma {:induction false} UnescapeEscape(token: string)
    ensures Unescape(Escape(token)) == token
    ensures !BadEscape(Escape(token)) && '/' !in Escape(token)
  {
    if token != [] {
      UnescapeEscape(token[1..]);
      var rest := Escape(token[1..]);
      UnescapeHead(token[0], rest);
      var encoded := Escape(token);
      BadEscapeTail(encoded);
      if token[0] == '~' || token[0] == '/' { BadEscapeTail(encoded[1..]); assert encoded[1..][1..] == rest; }
      else { assert encoded[1..] == rest; }
    }
  }

  function EscapeChar(c: char): string {
    if c == '~' then "~0" else if c == '/' then "~1" else [c]
  }

  lemma UnescapeHead(c: char, rest: string)
    ensures Unescape(EscapeChar(c) + rest) == [c] + Unescape(rest)
  {
    var s := EscapeChar(c) + rest;
    var tail := ReplacePair(rest, '~', '1', '/');
    if c == '~' {
      assert s[1..] == "0" + rest && s[1..][1..] == rest;
      assert ReplacePair(s, '~', '1', '/') == ['~'] + (['0'] + tail);
      var once := ['~'] + (['0'] + tail);
      assert once[2..] == tail;
    } else if c == '/' {
      assert s[2..] == rest;
      assert ReplacePair(s, '~', '1', '/') == ['/'] + tail;
      assert (['/'] + tail)[1..] == tail;
    } else {
      assert s[1..] == rest;
      assert ReplacePair(s, '~', '1', '/') == [c] + tail;
      assert ([c] + tail)[1..] == tail;
    }
  }

  /** Every well-formed encoded token is the escape of what it decodes to. */
  lemma {:induction false} EscapeUnescape(encoded: string)
    requires !BadEscape(encoded) && '/' !in encoded
    ensures Escape(Unescape(encoded)) == encoded
    decreases |encoded|
  {
    if encoded != [] {
      BadEscapeTail(encoded);
      if encoded[0] == '~' {
        BadEscapeTail(encoded[1..]);
        var rest := encoded[2..];
        assert encoded[1..][1..] == rest;
        EscapeUnescape(rest);
        var c := if encoded[1] == '0' then '~' else '/';
        assert encoded == EscapeChar(c) + rest;
        UnescapeHead(c, rest);
      } else {
        var rest := encoded[1..];
        EscapeUnescape(rest);
        assert encoded == EscapeChar(encoded[0]) + rest;
        UnescapeHead(encoded[0], rest);
      }
    }
  }

  // ---------------------------------------------------------------- splitting

  /** `text.split("/")`. */
  function SplitSlash(s: string): (parts: seq<string>)
    ensures parts != []
  {
    if s == [] then [[]]
    else
      var rest := SplitSlash(s[1..]);
      if s[0] == '/' then [[]] + rest else [[s[0]] + rest[0]] + rest[1..]
  }

  function EncodedPointer(encoded: seq<string>): string {
    if encoded == [] then [] else "/" + encoded[0] + EncodedPointer(encoded[1..])
  }

  lemma EncodedPointerCons(first: string, rest: seq<string>)
    ensures EncodedPointer([first] + rest) == "/" + first + EncodedPointer(rest)
  {
    assert ([first] + rest)[1..] == rest;
  }

  /** Dropping the slash in front of two equal texts, and putting one more character there. */
  lemma BehindSlash(first: string, more: string, s: string, c: char)
    requires "/" + first + more == "/" + s
    ensures "/" + ([c] + first) + more == "/" + ([c] + s)
  {
    assert ("/" + first + more)[1..] == first + more;
    assert ("/" + s)[1..] == s;
    Associate([c], first, more);
    Associate("/", [c] + first, more);
  }

  /** Joining the split parts gives the text back, and no part contains a slash. */
  lemma {:induction false} SplitSlashJoins(s: string)
    ensures EncodedPointer(SplitSlash(s)) == "/" + s
    ensures forall part :: part in SplitSlash(s) ==> '/' !in part
  {
    if s != [] {
      SplitSlashJoins(s[1..]);
      var rest := SplitSlash(s[1..]);
      assert rest == [rest[0]] + rest[1..] && s == [s[0]] + s[1..];
      if s[0] == '/' {
        EncodedPointerCons([], rest);
        assert "/" + [] + EncodedPointer(rest) == "/" + s;
      } else {
        EncodedPointerCons(rest[0], rest[1..]);
        EncodedPointerCons([s[0]] + rest[0], rest[1..]);
        BehindSlash(rest[0], EncodedPointer(rest[1..]), s[1..], s[0]);
      }
    }
  }

  predicate SlashFree(parts: seq<string>) {
    forall i :: 0 <= i < |parts| ==> '/' !in parts[i]
  }

  lemma TailIsSlashFree(parts: seq<string>)
    requires parts != [] && SlashFree(parts)
    ensures SlashFree(parts[1..])
  {
    forall i | 0 <= i < |parts| - 1 ensures '/' !in parts[1..][i] { assert parts[1..][i] == parts[i + 1]; }
  }

  lemma JoinTail(encoded: seq<string>)
    requires encoded != []
    ensures EncodedPointer(encoded) != []
    ensures EncodedPointer(encoded)[1..] == encoded[0] + EncodedPointer(encoded[1..])
  {}

  /** Parts without slashes are what splitting their join gives. */
  lemma {:induction false} SplitOfJoin(encoded: seq<string>)
    requires encoded != [] && SlashFree(encoded)
    ensures EncodedPointer(encoded) != [] && SplitSlash(EncodedPointer(encoded)[1..]) == encoded
    decreases |encoded|, |encoded[0]|
  {
    JoinTail(encoded);
    if encoded[0] == [] {
      SplitOfEmptyFirst(encoded);
      if |encoded| > 1 {
        SplitOfJoin(encoded[1..]);
        JoinTail(encoded[1..]);
        assert encoded == [[]] + encoded[1..];
      } else {
        assert encoded == [[]];
      }
    } else {
      var shorter := [encoded[0][1..]] + encoded[1..];
      ShorterIsSlashFree(encoded);
      SplitOfJoin(shorter);
      SplitOfLonger(encoded);
    }
  }

  lemma ShorterIsSlashFree(encoded: seq<string>)
    requires encoded != [] && encoded[0] != [] && SlashFree(encoded)
    ensures SlashFree([encoded[0][1..]] + encoded[1..])
  {
    var shorter := [encoded[0][1..]] + encoded[1..];
    forall i | 0 <= i < |shorter| ensures '/' !in shorter[i] {
      if i > 0 { assert shorter[i] == encoded[i]; } else { assert '/' !in encoded[0]; }
    }
  }

  lemma SplitOfLonger(encoded: seq<string>)
    requires encoded != [] && encoded[0] != [] && '/' !in encoded[0]
    requires var shorter := [encoded[0][1..]] + encoded[1..];
      EncodedPointer(shorter) != [] && SplitSlash(EncodedPointer(shorter)[1..]) == shorter
    ensures EncodedPointer(encoded) != [] && SplitSlash(EncodedPointer(encoded)[1..]) == encoded
  {
    var first, rest := encoded[0], encoded[1..];
    var shorter := [first[1..]] + rest;
    JoinTail(encoded);
    JoinTail(shorter);
    assert shorter[1..] == rest;
    LongerFirst(first[0], first[1..], rest);
    assert [first[0]] + first[1..] == first;
    assert [first] + rest == encoded;
  }

  lemma LongerFirst(c: char, tail: string, rest: seq<string>)
    requires c != '/' && SplitSlash(tail + EncodedPointer(rest)) == [tail] + rest
    ensures SplitSlash(([c] + tail) + EncodedPointer(rest)) == [[c] + tail] + rest
  {
    var s := tail + EncodedPointer(rest);
    SplitCons(c, s);
    assert ([c] + tail) + EncodedPointer(rest) == [c] + s;
    assert ([tail] + rest)[1..] == rest;
  }

  lemma SplitCons(c: char, s: string)
    requires c != '/'
    ensures SplitSlash([c] + s) == [[c] + SplitSlash(s)[0]] + SplitSlash(s)[1..]
  {
    assert ([c] + s)[1..] == s;
  }

  lemma SplitOfEmptyFirst(encoded: seq<string>)
    requires encoded != [] && encoded[0] == []
    ensures var s := EncodedPointer(encoded[1..]);
      && EncodedPointer(encoded) != [] && EncodedPointer(encoded)[1..] == s
      && (|encoded| > 1 ==> s != [] && SplitSlash(s) == [[]] + SplitSlash(s[1..]))
  {}

  // ---------------------------------------------------------------- resolving

  /** The pattern for array indexes. */
  predicate IsIndex(token: string) {
    IsNumeral(token)
  }

  /** The token loop, from a value reached so far. */
  function ResolveTokens(value: Json, encoded: seq<string>, reached: Path): Result<Path, RefError>
    decreases |encoded|
  {
    if encoded == [] then Ok(reached)
    else if BadEscape(encoded[0]) then Err(BadPointerEscape)
    else
      var token := Unescape(encoded[0]);
      match value
      case Obj(fields) =>
        if token !in fields then Err(MissingTarget)
        else ResolveTokens(fields[token], encoded[1..], reached + [Key(token)])
      case Arr(items) =>
        if !IsIndex(token) then Err(BadIndex)
        else if Number(token) >= |items| then Err(MissingTarget)
        else ResolveTokens(items[Number(token)], encoded[1..], reached + [Index(Number(token))])
      case Scalar => Err(ThroughScalar)
  }

  predicate IsHex(c: char) {
    '0' <= c <= '9' || 'A' <= c <= 'F' || 'a' <= c <= 'f'
  }

  predicate BadPercent(fragment: string) {
    exists i :: 0 <= i < |fragment| && fragment[i] == '%' &&
      !(i + 2 < |fragment| && IsHex(fragment[i + 1]) && IsHex(fragment[i + 2]))
  }

  /** The pointer that a reference contains, or why it contains none. */
  function PointerOf(reference: Reference, unquote: Unquote): Result<string, RefError> {
    match reference
    case NotText => Err(NotString)
    case Text(text) =>
      if text == [] || text[0] != '#' then Err(NonLocal)
      else if BadPercent(text[1..]) then Err(BadPercentEscape)
      else
        match unquote(text[1..])
        case None => Err(NotUtf8)
        case Some(pointer) => if pointer != [] && pointer[0] != '/' then Err(PlainName) else Ok(pointer)
  }

  function ResolveLocalReference(schema: Json, reference: Reference, unquote: Unquote): Result<Path, RefError> {
    match PointerOf(reference, unquote)
    case Err(e) => Err(e)
    case Ok(pointer) => if pointer == [] then Ok([]) else ResolveTokens(schema, SplitSlash(pointer[1..]), [])
  }

  method ResolveReference(schema: Json, reference: Reference, unquote: Unquote) returns (r: Result<Path, RefError>)
    ensures r == ResolveLocalReference(schema, reference, unquote)
  {
    var parsed := PointerOf(reference, unquote);
    if parsed.Err? { return Err(parsed.error); }
    var pointer := parsed.value;
    if pointer == [] { return Ok([]); }
    var tokens := SplitSlash(pointer[1..]);
    var target := schema;
    var targetPath: Path := [];
    assert tokens[0..] == tokens;
    for i := 0 to |tokens|
      invariant ResolveTokens(schema, tokens, []) == ResolveTokens(target, tokens[i..], targetPath)
    {
      assert tokens[i..][0] == tokens[i] && tokens[i..][1..] == tokens[i + 1..];
      if BadEscape(tokens[i]) { return Err(BadPointerEscape); }
      var token := Unescape(tokens[i]);
      match target {
        case Obj(fields) =>
          if token !in fields { return Err(MissingTarget); }
          target := fields[token];
          targetPath := targetPath + [Key(token)];
        case Arr(items) =>
          if !IsIndex(token) { return Err(BadIndex); }
          var index := Number(token);
          if index >= |items| { return Err(MissingTarget); }
          target := items[index];
          targetPath := targetPath + [Index(index)];
        case Scalar => return Err(ThroughScalar);
      }
    }
    return Ok(targetPath);
  }

  // ---------------------------------------------------------------- correctness

  /** The decoded token and the token loop's step select the same part. */
  lemma StepSelects(value: Json, token: string, part: Part)
    ensures Selects(value, token, part) <==>
      if value.Obj? then token in value.fields && part == Key(token)
      else value.Arr? && IsIndex(token) && Number(token) < |value.items| && part == Index(Number(token))
  {
    if value.Arr? {
      if IsIndex(token) { FormatNumber(token); }
      if part.Index? {
        NumberFormat(part.i);
      }
    }
  }

  function EscapeAll(tokens: seq<string>): (encoded: seq<string>)
    ensures |encoded| == |tokens|
  {
    if tokens == [] then [] else [Escape(tokens[0])] + EscapeAll(tokens[1..])
  }

  lemma {:induction false} RenderIsJoin(tokens: seq<string>)
    ensures Render(tokens) == EncodedPointer(EscapeAll(tokens))
    ensures SlashFree(EscapeAll(tokens))
  {
    if tokens != [] {
      RenderIsJoin(tokens[1..]);
      UnescapeEscape(tokens[0]);
    }
  }

  lemma LoopStep(value: Json, tokens: seq<string>, reached: Path)
    requires tokens != []
    ensures ResolveTokens(value, EscapeAll(tokens), reached) ==
      (var token, rest := tokens[0], EscapeAll(tokens[1..]);
       match value
       case Obj(fields) =>
         if token !in fields then Err(MissingTarget) else ResolveTokens(fields[token], rest, reached + [Key(token)])
       case Arr(items) =>
         if !IsIndex(token) then Err(BadIndex)
         else if Number(token) >= |items| then Err(MissingTarget)
         else ResolveTokens(items[Number(token)], rest, reached + [Index(Number(token))])
       case Scalar => Err(ThroughScalar))
  {
    UnescapeEscape(tokens[0]);
    var encoded := EscapeAll(tokens);
    assert encoded[0] == Escape(tokens[0]) && encoded[1..] == EscapeAll(tokens[1..]);
  }

  /** On escaped tokens the loop finds every path that the pointer evaluates to. */
  lemma {:induction false} EvaluationResolves(value: Json, tokens: seq<string>, path: Path, target: Json, reached: Path)
    requires Evaluates(value, tokens, path, target)
    ensures ResolveTokens(value, EscapeAll(tokens), reached) == Ok(reached + path)
    decreases |tokens|
  {
    if tokens == [] {
      assert reached + [] == reached;
    } else {
      LoopStep(value, tokens, reached);
      StepSelects(value, tokens[0], path[0]);
      EvaluationResolves(Child(value, path[0]), tokens[1..], path[1..], target, reached + [path[0]]);
      assert reached + [path[0]] + path[1..] == reached + path;
    }
  }

  /** And it finds no other path. */
  lemma {:induction false} ResolutionEvaluates(value: Json, tokens: seq<string>, reached: Path)
    returns (path: Path, target: Json)
    requires ResolveTokens(value, EscapeAll(tokens), reached).Ok?
    ensures Evaluates(value, tokens, path, target)
    ensures ResolveTokens(value, EscapeAll(tokens), reached).value == reached + path
    decreases |tokens|
  {
    if tokens == [] {
      path, target := [], value;
      assert reached + [] == reached;
    } else {
      LoopStep(value, tokens, reached);
      var part := if value.Obj? then Key(tokens[0]) else Index(Number(tokens[0]));
      StepSelects(value, tokens[0], part);
      var rest, end := ResolutionEvaluates(Child(value, part), tokens[1..], reached + [part]);
      path, target := [part] + rest, end;
      assert path[1..] == rest;
      assert reached + [part] + rest == reached + path;
    }
  }

  function UnescapeAll(encoded: seq<string>): (tokens: seq<string>)
    ensures |tokens| == |encoded|
  {
    if encoded == [] then [] else [Unescape(encoded[0])] + UnescapeAll(encoded[1..])
  }

  /** A successful loop only ever met well-formed escapes. */
  lemma {:induction false} LoopTokens(value: Json, encoded: seq<string>, reached: Path)
    requires SlashFree(encoded) && ResolveTokens(value, encoded, reached).Ok?
    ensures EscapeAll(UnescapeAll(encoded)) == encoded
    decreases |encoded|
  {
    if encoded != [] {
      assert '/' !in encoded[0];
      EscapeUnescape(encoded[0]);
      TailIsSlashFree(encoded);
      var token := Unescape(encoded[0]);
      match value
      case Obj(fields) => LoopTokens(fields[token], encoded[1..], reached + [Key(token)]);
      case Arr(items) => LoopTokens(items[Number(token)], encoded[1..], reached + [Index(Number(token))]);
    }
  }

  /**
    A local reference resolves to a path that reads the target back exactly when
    its fragment is a JSON Pointer whose evaluation ends at that path and target.
  */
  lemma ResolvesIff(schema: Json, reference: Reference, unquote: Unquote, path: Path, target: Json)
    ensures
      (ResolveLocalReference(schema, reference, unquote) == Ok(path)
       && IsPath(schema, path) && ValueAt(schema, path) == target)
      <==>
      (PointerOf(reference, unquote).Ok?
       && exists tokens ::
            PointerOf(reference, unquote).value == Render(tokens) && Evaluates(schema, tokens, path, target))
  {
    if PointerOf(reference, unquote).Ok? {
      var pointer := PointerOf(reference, unquote).value;
      if exists tokens :: pointer == Render(tokens) && Evaluates(schema, tokens, path, target) {
        var tokens :| pointer == Render(tokens) && Evaluates(schema, tokens, path, target);
        PointerResolves(schema, tokens, path, target);
        EvaluatedIsPath(schema, tokens, path, target);
      }
      if ResolveLocalReference(schema, reference, unquote) == Ok(path) {
        var tokens, end := ResolvedPointer(schema, pointer, path);
        EvaluatedIsPath(schema, tokens, path, end);
      }
    }
  }

  lemma PointerResolves(schema: Json, tokens: seq<string>, path: Path, target: Json)
    requires Evaluates(schema, tokens, path, target)
    ensures Render(tokens) == [] ==> path == []
    ensures Render(tokens) != [] ==> ResolveTokens(schema, SplitSlash(Render(tokens)[1..]), []) == Ok(path)
  {
    RenderIsJoin(tokens);
    if tokens != [] {
      SplitOfJoin(EscapeAll(tokens));
      EvaluationResolves(schema, tokens, path, target, []);
      assert [] + path == path;
    }
  }

  lemma ResolvedPointer(schema: Json, pointer: string, path: Path) returns (tokens: seq<string>, target: Json)
    requires pointer == [] || pointer[0] == '/'
    requires if pointer == [] then path == [] else ResolveTokens(schema, SplitSlash(pointer[1..]), []) == Ok(path)
    ensures pointer == Render(tokens) && Evaluates(schema, tokens, path, target)
  {
    if pointer == [] {
      tokens, target := [], schema;
    } else {
      var encoded := SplitSlash(pointer[1..]);
      SplitSlashJoins(pointer[1..]);
      assert "/" + pointer[1..] == pointer;
      assert SlashFree(encoded) by {
        forall i | 0 <= i < |encoded| ensures '/' !in encoded[i] { assert encoded[i] in encoded; }
      }
      LoopTokens(schema, encoded, []);
      tokens := UnescapeAll(encoded);
      RenderIsJoin(tokens);
      var found;
      found, target := ResolutionEvaluates(schema, tokens, []);
      assert [] + found == found;
    }
  }

  /** A path that evaluation selects is a path of the schema, and reads back the selected value. */
  lemma {:induction false} EvaluatedIsPath(value: Json, tokens: seq<string>, path: Path, target: Json)
    requires Evaluates(value, tokens, path, target)
    ensures IsPath(value, path) && |path| == |tokens| && ValueAt(value, path) == target
    decreases |tokens|
  {
    if tokens != [] { EvaluatedIsPath(Child(value, path[0]), tokens[1..], path[1..], target); }
  }

  /** Every path the loop reports exists, so with `ResolvesIff` it reads back what the pointer evaluates to. */
  lemma ResolvedIsPath(schema: Json, reference: Reference, unquote: Unquote)
    ensures ResolveLocalReference(schema, reference, unquote).Ok? ==>
      IsPath(schema, ResolveLocalReference(schema, reference, unquote).value)
  {
    if ResolveLocalReference(schema, reference, unquote).Ok? {
      var path := ResolveLocalReference(schema, reference, unquote).value;
      var tokens, target := ResolvedPointer(schema, PointerOf(reference, unquote).value, path);
      EvaluatedIsPath(schema, tokens, path, target);
    }
  }

  // ---------------------------------------------------------------- what is refused, and why

  /** Read from the left, every percent sign starts a triplet with two hexadecimal digits. */
  predicate Triplets(s: string) {
    s == [] ||
    if s[0] == '%' then |s| >= 3 && IsHex(s[1]) && IsHex(s[2]) && Triplets(s[3..]) else Triplets(s[1..])
  }

  /** The percent sign at `i` starts no triplet. */
  predicate LonePercent(s: string, i: nat) {
    i < |s| && s[i] == '%' && !(i + 2 < |s| && IsHex(s[i + 1]) && IsHex(s[i + 2]))
  }

  lemma BadPercentIsLone(s: string)
    ensures BadPercent(s) <==> exists i: nat :: LonePercent(s, i)
  {
    if BadPercent(s) {
      var i :| 0 <= i < |s| && s[i] == '%' && !(i + 2 < |s| && IsHex(s[i + 1]) && IsHex(s[i + 2]));
      assert LonePercent(s, i);
    }
  }

  lemma LoneBehind(s: string, n: nat, i: nat)
    requires n <= |s|
    ensures LonePercent(s[n..], i) <==> LonePercent(s, n + i)
  {}

  lemma {:induction false} TripletsIff(s: string)
    ensures Triplets(s) <==> !BadPercent(s)
  {
    BadPercentIsLone(s);
    if s != [] {
      var n := if s[0] != '%' then 1 else if |s| >= 3 then 3 else 0;
      assert LonePercent(s, 0) <==> s[0] == '%' && !(|s| >= 3 && IsHex(s[1]) && IsHex(s[2]));
      if n > 0 {
        TripletsIff(s[n..]);
        BadPercentIsLone(s[n..]);
        forall i: nat ensures LonePercent(s[n..], i) <==> LonePercent(s, n + i) { LoneBehind(s, n, i); }
        if i: nat :| LonePercent(s, i) && !LonePercent(s, 0) {
          if i >= n { assert LonePercent(s[n..], i - n); }
        }
      }
    }
  }

  /** A reference holds a pointer exactly if it is text, starts with `#`, and its fragment decodes to a JSON Pointer. */
  lemma PointerIff(reference: Reference, unquote: Unquote, pointer: string)
    ensures PointerOf(reference, unquote) == Ok(pointer) <==>
      && reference.Text? && "#" <= reference.text
      && Triplets(reference.text[1..])
      && unquote(reference.text[1..]) == Some(pointer)
      && (pointer == [] || "/" <= pointer)
  {
    if reference.Text? && reference.text != [] { TripletsIff(reference.text[1..]); }
  }

  /** Why a reference without a pointer is refused, in the order in which it is asked. */
  lemma PointerRefusals(reference: Reference, unquote: Unquote)
    ensures PointerOf(reference, unquote) == Err(NotString) <==> reference.NotText?
    ensures PointerOf(reference, unquote) == Err(NonLocal) <==> reference.Text? && !("#" <= reference.text)
    ensures reference.Text? && "#" <= reference.text ==>
      var fragment := reference.text[1..];
      && (PointerOf(reference, unquote) == Err(BadPercentEscape) <==> !Triplets(fragment))
      && (PointerOf(reference, unquote) == Err(NotUtf8) <==> Triplets(fragment) && unquote(fragment) == None)
  {
    if reference.Text? && reference.text != [] { TripletsIff(reference.text[1..]); }
  }

  /** What stops the evaluation at a value whose next token is this one. */
  predicate StopsAt(value: Json, encoded: string, error: RefError) {
    if BadEscape(encoded) then error == BadPointerEscape
    else
      match value
      case Obj(fields) => error == MissingTarget && Unescape(encoded) !in fields
      case Arr(items) =>
        if IsNumeral(Unescape(encoded)) then error == MissingTarget && Number(Unescape(encoded)) >= |items|
        else error == BadIndex
      case Scalar => error == ThroughScalar
  }

  /** A failing loop stopped at the value that the tokens before the k-th evaluate to, for what is wrong there. */
  lemma {:induction false} LoopStops(value: Json, encoded: seq<string>, reached: Path)
    returns (k: nat, path: Path, target: Json)
    requires ResolveTokens(value, encoded, reached).Err?
    ensures k < |encoded|
    ensures Evaluates(value, UnescapeAll(encoded[..k]), path, target)
    ensures StopsAt(target, encoded[k], ResolveTokens(value, encoded, reached).error)
    decreases |encoded|
  {
    hide BadEscape, Unescape;
    if StopsAt(value, encoded[0], ResolveTokens(value, encoded, reached).error) {
      k, path, target := 0, [], value;
      assert encoded[..0] == [];
    } else {
      var token := Unescape(encoded[0]);
      var part := if value.Obj? then Key(token) else Index(Number(token));
      StepSelects(value, token, part);
      var n, rest, end := LoopStops(Child(value, part), encoded[1..], reached + [part]);
      k, path, target := n + 1, [part] + rest, end;
      assert encoded[..k] == [encoded[0]] + encoded[1..][..n];
      assert path[1..] == rest && encoded[k] == encoded[1..][n];
      assert UnescapeAll(encoded[..k])[1..] == UnescapeAll(encoded[1..][..n]);
    }
  }

  /** A local reference whose pointer does not resolve is refused for the first token that selects nothing. */
  lemma FirstBadTokenTells(schema: Json, reference: Reference, unquote: Unquote)
    returns (encoded: seq<string>, k: nat, path: Path, target: Json)
    requires PointerOf(reference, unquote).Ok? && ResolveLocalReference(schema, reference, unquote).Err?
    ensures EncodedPointer(encoded) == PointerOf(reference, unquote).value && SlashFree(encoded)
    ensures k < |encoded|
    ensures Evaluates(schema, UnescapeAll(encoded[..k]), path, target)
    ensures StopsAt(target, encoded[k], ResolveLocalReference(schema, reference, unquote).error)
  {
    var pointer := PointerOf(reference, unquote).value;
    encoded := SplitSlash(pointer[1..]);
    SplitSlashJoins(pointer[1..]);
    assert "/" + pointer[1..] == pointer;
    forall i | 0 <= i < |encoded| ensures '/' !in encoded[i] { assert encoded[i] in encoded; }
    k, path, target := LoopStops(schema, encoded, []);
  }
}
