/**
  What ingestion does to a workflow (workflows/ingest.py): text normalization,
  which works member by member, and the semantic checks of the whole tree.
*/
module WorkflowRules {
  import opened Basics
  import opened Texts
  import opened MemberTree

  // ---------------------------------------------------------------- text

  function NormalText(text: Option<string>): Option<string> {
    if text.None? then None else Some(NormalizeLines(text.value))
  }

  /** `_omit_blank_optional` after `_normalize_value`. */
  function NormalProse(text: Option<string>): Option<string> {
    var normal := NormalText(text);
    if normal.None? || Strip(normal.value) == [] then None else normal
  }

  function NormalProvider(provider: Option<Provider>): Option<Provider> {
    if provider.Some? && provider.value.Active?
    then Some(provider.value.(model := NormalText(provider.value.model)))
    else provider
  }

  function NormalDetails(d: Details): Details {
    Details(NormalProse(d.title), NormalProse(d.description), NormalProse(d.instruction),
            NormalProvider(d.provider), d.capabilities)
  }

  /** `_normalize_member_mapping` on a member whose texts went through `_normalize_value`. */
  function NormalMember(m: Member): Member
    decreases m, 1
  {
    Member(NormalizeLines(m.id), NormalDetails(m.details),
           match m.children
           case Omitted => Omitted
           case Listed(members) => Listed(NormalMembers(members)))
  }

  function NormalMembers(members: seq<Member>): seq<Member>
    decreases members, 0
  {
    if members == [] then [] else [NormalMember(members[0])] + NormalMembers(members[1..])
  }

  function NormalRow(row: Row): Row {
    row.(id := NormalizeLines(row.id), details := NormalDetails(row.details))
  }

  function NormalRows(rows: seq<Row>): (r: seq<Row>)
    ensures |r| == |rows|
  {
    seq(|rows|, i requires 0 <= i < |rows| => NormalRow(rows[i]))
  }

  /** Normalization changes rows one by one and never their number, order or depth. */
  lemma {:induction false} NormalMemberRows(m: Member, depth: nat)
    ensures Rows(NormalMember(m), depth) == NormalRows(Rows(m, depth))
    decreases m, 1
  {
    match m.children
    case Omitted =>
    case Listed(members) =>
      NormalMembersRows(members, depth + 1);
      assert NormalRows([Top(m, depth)] + RowsOf(members, depth + 1))
        == [NormalRow(Top(m, depth))] + NormalRows(RowsOf(members, depth + 1));
  }

  lemma {:induction false} NormalMembersRows(members: seq<Member>, depth: nat)
    ensures RowsOf(NormalMembers(members), depth) == NormalRows(RowsOf(members, depth))
    decreases members, 0
  {
    if members != [] {
      NormalMemberRows(members[0], depth);
      NormalMembersRows(members[1..], depth);
      NormalRowsAppend(Rows(members[0], depth), RowsOf(members[1..], depth));
    }
  }

  lemma NormalRowsAppend(a: seq<Row>, b: seq<Row>)
    ensures NormalRows(a + b) == NormalRows(a) + NormalRows(b)
  {}

  /** The texts that normalization keeps: no carriage return anywhere, no blank optional prose. */
  predicate IsNormalText(text: Option<string>) {
    text.None? || '\r' !in text.value
  }

  predicate IsNormalProse(text: Option<string>) {
    text.None? || ('\r' !in text.value && !Blank(text.value))
  }

  predicate IsNormal(row: Row) {
    && '\r' !in row.id
    && IsNormalProse(row.details.title)
    && IsNormalProse(row.details.description)
    && IsNormalProse(row.details.instruction)
    && (row.details.provider.Some? && row.details.provider.value.Active? ==>
         IsNormalText(row.details.provider.value.model))
  }

  lemma NormalProseFixed(text: Option<string>)
    ensures NormalProse(text) == text <==> IsNormalProse(text)
    ensures IsNormalProse(NormalProse(text))
  {
    if text.Some? {
      NormalizeLinesFixed(text.value);
      StripIsEmptyIffBlank(NormalizeLines(text.value));
    }
  }

  /** Exactly the normal rows stay as they are, and normalizing makes a row normal. */
  lemma NormalRowFixed(row: Row)
    ensures NormalRow(row) == row <==> IsNormal(row)
    ensures IsNormal(NormalRow(row))
  {
    hide NormalizeLines, NormalProse, IsNormalProse;
    NormalizeLinesFixed(row.id);
    NormalProseFixed(row.details.title);
    NormalProseFixed(row.details.description);
    NormalProseFixed(row.details.instruction);
    if row.details.provider.Some? && row.details.provider.value.Active? && row.details.provider.value.model.Some? {
      NormalizeLinesFixed(row.details.provider.value.model.value);
    }
  }

  // ---------------------------------------------------------------- semantics

  const MAX_MEMBERS: nat := 256
  const MAX_MEMBER_DEPTH: nat := 12

  datatype Issue = TooManyMembers | TooDeep | DuplicateId | DuplicateRequest

  predicate RequestsDiffer(details: Details) {
    details.capabilities.Some? && details.capabilities.value.humanRequests.Some? ==>
      var requests := details.capabilities.value.humanRequests.value;
      forall i, j :: 0 <= i < j < |requests| ==> requests[i] != requests[j]
  }

  /** The first issue in preorder, from a state of the walk. */
  function Scan(rows: seq<Row>, count: nat, seen: set<string>): Option<Issue> {
    if rows == [] then None
    else if count + 1 > MAX_MEMBERS then Some(TooManyMembers)
    else if rows[0].depth > MAX_MEMBER_DEPTH then Some(TooDeep)
    else if rows[0].id in seen then Some(DuplicateId)
    else if !RequestsDiffer(rows[0].details) then Some(DuplicateRequest)
    else Scan(rows[1..], count + 1, seen + {rows[0].id})
  }

  predicate DistinctIds(rows: seq<Row>) {
    forall i, j :: 0 <= i < j < |rows| ==> rows[i].id != rows[j].id
  }

  /** What every accepted workflow satisfies. */
  predicate Sound(rows: seq<Row>) {
    && |rows| <= MAX_MEMBERS
    && DistinctIds(rows)
    && (forall i :: 0 <= i < |rows| ==> rows[i].depth <= MAX_MEMBER_DEPTH && RequestsDiffer(rows[i].details))
  }

  function IdSet(rows: seq<Row>): set<string> {
    set i | 0 <= i < |rows| :: rows[i].id
  }

  lemma {:induction false} ScanIff(rows: seq<Row>, count: nat, seen: set<string>)
    requires count <= MAX_MEMBERS
    ensures Scan(rows, count, seen) == None <==>
      && count + |rows| <= MAX_MEMBERS
      && DistinctIds(rows)
      && (forall i :: 0 <= i < |rows| ==>
           rows[i].depth <= MAX_MEMBER_DEPTH && RequestsDiffer(rows[i].details) && rows[i].id !in seen)
  {
    if rows != [] && count + 1 <= MAX_MEMBERS {
      var rest := rows[1..];
      ScanIff(rest, count + 1, seen + {rows[0].id});
      assert forall i :: 0 <= i < |rest| ==> rest[i] == rows[i + 1];
      assert rows == [rows[0]] + rest;
    }
  }

  lemma {:induction false} ScanAppend(a: seq<Row>, b: seq<Row>, count: nat, seen: set<string>)
    ensures Scan(a + b, count, seen) ==
      if Scan(a, count, seen).Some? then Scan(a, count, seen) else Scan(b, count + |a|, seen + IdSet(a))
  {
    if a == [] {
      assert a + b == b && seen + IdSet(a) == seen;
    } else {
      ScanAppend(a[1..], b, count + 1, seen + {a[0].id});
      assert (a + b)[1..] == a[1..] + b;
      assert seen + {a[0].id} + IdSet(a[1..]) == seen + IdSet(a) by {
        IdSetAppend([a[0]], a[1..]);
        assert [a[0]] + a[1..] == a;
      }
    }
  }

  lemma IdSetAppend(a: seq<Row>, b: seq<Row>)
    ensures IdSet(a + b) == IdSet(a) + IdSet(b)
  {
    forall id | id in IdSet(a) + IdSet(b) ensures id in IdSet(a + b) {
      if id in IdSet(a) {
        var i :| 0 <= i < |a| && a[i].id == id;
        assert (a + b)[i].id == id;
      } else {
        var i :| 0 <= i < |b| && b[i].id == id;
        assert (a + b)[|a| + i].id == id;
      }
    }
  }

  /** What is wrong with a row that comes behind `before`, asked in the order of the walk. */
  predicate RowIssue(before: seq<Row>, row: Row, count: nat, seen: set<string>, issue: Issue) {
    var tooMany := count + |before| + 1 > MAX_MEMBERS;
    var known := row.id in seen || exists i :: 0 <= i < |before| && before[i].id == row.id;
    match issue
    case TooManyMembers => tooMany
    case TooDeep => !tooMany && row.depth > MAX_MEMBER_DEPTH
    case DuplicateId => !tooMany && row.depth <= MAX_MEMBER_DEPTH && known
    case DuplicateRequest =>
      !tooMany && row.depth <= MAX_MEMBER_DEPTH && !known && !RequestsDiffer(row.details)
  }

  /** The issue that is reported is that of the first row in preorder that has one. */
  lemma {:induction false} ScanReports(rows: seq<Row>, count: nat, seen: set<string>, issue: Issue) returns (k: nat)
    requires Scan(rows, count, seen) == Some(issue)
    ensures k < |rows|
    ensures Scan(rows[..k], count, seen) == None
    ensures RowIssue(rows[..k], rows[k], count, seen, issue)
  {
    hide RequestsDiffer;
    var rest, seen' := rows[1..], seen + {rows[0].id};
    if Scan(rest, count + 1, seen') == Some(issue) && Scan([rows[0]], count, seen) == None {
      var n := ScanReports(rest, count + 1, seen', issue);
      k := n + 1;
      assert rows[..k] == [rows[0]] + rest[..n] && rows[k] == rest[n];
      IssueBehindOne(rows[0], rest[..n], rest[n], count, seen, issue);
      ScanAppend([rows[0]], rest[..n], count, seen);
      IdSetOne(rows[0]);
    } else {
      k := 0;
      assert rows[..0] == [];
      assert [rows[0]][1..] == [];
      assert Scan([], count + 1, seen') == None;
    }
  }

  lemma IdSetOne(row: Row)
    ensures IdSet([row]) == {row.id}
  {
    assert [row][0] == row;
  }

  lemma IssueBehindOne(first: Row, before: seq<Row>, row: Row, count: nat, seen: set<string>, issue: Issue)
    requires RowIssue(before, row, count + 1, seen + {first.id}, issue)
    ensures RowIssue([first] + before, row, count, seen, issue)
  {
    hide RequestsDiffer;
    var all := [first] + before;
    assert all[0] == first;
    assert forall i :: 0 <= i < |before| ==> all[i + 1] == before[i];
    assert forall i :: 0 < i < |all| ==> all[i] == before[i - 1];
  }

  /** `_validate_workflow_semantics`: a walk that counts members and collects their ids. */
  class SemanticVisitor {
    var seenIds: set<string>
    var memberCount: nat

    constructor ()
      ensures seenIds == {} && memberCount == 0
    {
      seenIds, memberCount := {}, 0;
    }

    method Visit(m: Member, depth: nat) returns (issue: Option<Issue>)
      modifies this
      ensures issue == Scan(Rows(m, depth), old(memberCount), old(seenIds))
      ensures issue == None ==>
        && memberCount == old(memberCount) + |Rows(m, depth)|
        && seenIds == old(seenIds) + IdSet(Rows(m, depth))
      decreases m, 1
    {
      hide RequestsDiffer, IdSet;
      memberCount := memberCount + 1;
      if memberCount > MAX_MEMBERS { return Some(TooManyMembers); }
      if depth > MAX_MEMBER_DEPTH { return Some(TooDeep); }
      if m.id in seenIds { return Some(DuplicateId); }
      seenIds := seenIds + {m.id};
      if !RequestsDiffer(m.details) { return Some(DuplicateRequest); }
      ScanTop(m, depth, old(memberCount), old(seenIds));
      match m.children {
        case Omitted =>
          assert Rows(m, depth)[1..] == [];
          NoIds();
          return None;
        case Listed(members) =>
          assert Rows(m, depth)[1..] == RowsOf(members, depth + 1);
          issue := VisitChildren(members, depth + 1);
      }
    }

    method VisitChildren(members: seq<Member>, depth: nat) returns (issue: Option<Issue>)
      modifies this
      ensures issue == Scan(RowsOf(members, depth), old(memberCount), old(seenIds))
      ensures issue == None ==>
        && memberCount == old(memberCount) + |RowsOf(members, depth)|
        && seenIds == old(seenIds) + IdSet(RowsOf(members, depth))
      decreases members, 0
    {
      hide RequestsDiffer, IdSet;
      ghost var count, seen := memberCount, seenIds;
      assert members[..0] == [];
      NoIds();
      for i := 0 to |members|
        invariant Scan(RowsOf(members[..i], depth), count, seen) == None
        invariant memberCount == count + |RowsOf(members[..i], depth)|
        invariant seenIds == seen + IdSet(RowsOf(members[..i], depth))
      {
        VisitStep(members, i, depth, count, seen);
        issue := Visit(members[i], depth);
        if issue.Some? { return; }
      }
      assert members[..|members|] == members;
      return None;
    }
  }

  lemma NoIds()
    ensures IdSet([]) == {}
  {}

  lemma ScanTop(m: Member, depth: nat, count: nat, seen: set<string>)
    requires count + 1 <= MAX_MEMBERS && depth <= MAX_MEMBER_DEPTH && m.id !in seen && RequestsDiffer(m.details)
    ensures Scan(Rows(m, depth), count, seen) == Scan(Rows(m, depth)[1..], count + 1, seen + {m.id})
    ensures IdSet(Rows(m, depth)) == {m.id} + IdSet(Rows(m, depth)[1..])
  {
    var top := [Top(m, depth)];
    assert Rows(m, depth) == top + Rows(m, depth)[1..];
    IdSetAppend(top, Rows(m, depth)[1..]);
    assert IdSet(top) == {m.id};
  }

  /** One more child: its own issue is the issue of all children if it has one. */
  lemma VisitStep(members: seq<Member>, i: nat, depth: nat, count: nat, seen: set<string>)
    requires i < |members|
    requires Scan(RowsOf(members[..i], depth), count, seen) == None
    ensures var before, child := RowsOf(members[..i], depth), Rows(members[i], depth);
      var issue := Scan(child, count + |before|, seen + IdSet(before));
      && Scan(RowsOf(members[..i + 1], depth), count, seen) == issue
      && (issue.Some? ==> Scan(RowsOf(members, depth), count, seen) == issue)
      && |RowsOf(members[..i + 1], depth)| == |before| + |child|
      && seen + IdSet(RowsOf(members[..i + 1], depth)) == seen + IdSet(before) + IdSet(child)
  {
    var before, child := RowsOf(members[..i], depth), Rows(members[i], depth);
    RowsOfSplit(members, i + 1, depth);
    RowsOfStep(members, i, depth);
    ScanAppend(before, child, count, seen);
    ScanAppend(before + child, RowsOf(members[i + 1..], depth), count, seen);
    IdSetAppend(before, child);
  }

  method ValidateWorkflowSemantics(lead: Member) returns (issue: Option<Issue>)
    ensures issue == Scan(Rows(lead, 1), 0, {})
    ensures issue == None <==> Sound(Rows(lead, 1))
  {
    var visitor := new SemanticVisitor();
    issue := visitor.Visit(lead, 1);
    ScanIff(Rows(lead, 1), 0, {});
  }

  /** A tree whose normalized form is sound is sound itself. */
  lemma SoundBeforeNormalizing(rows: seq<Row>)
    requires Sound(NormalRows(rows))
    ensures Sound(rows)
  {
    var normal := NormalRows(rows);
    forall i | 0 <= i < |rows| ensures rows[i].depth <= MAX_MEMBER_DEPTH && RequestsDiffer(rows[i].details) {
      assert normal[i] == NormalRow(rows[i]);
    }
    forall i, j | 0 <= i < j < |rows| ensures rows[i].id != rows[j].id {
      assert normal[i].id != normal[j].id;
    }
  }

  // ---------------------------------------------------------------- retired providers

  predicate HasRetired(rows: seq<Row>) {
    exists i :: 0 <= i < |rows| && rows[i].details.provider == Some(Retired)
  }

  lemma RetiredStays(rows: seq<Row>)
    ensures HasRetired(NormalRows(rows)) <==> HasRetired(rows)
  {
    var normal := NormalRows(rows);
    if HasRetired(rows) {
      var i :| 0 <= i < |rows| && rows[i].details.provider == Some(Retired);
      assert normal[i].details.provider == Some(Retired);
    }
  }
}
