/**
  Workflow members as a tree, and as the listing that a reader of the tree sees:
  one row per member, in preorder, with its depth. The listing determines the
  tree, so the edits are specified on listings.
*/
module MemberTree {
  import opened Basics
  import opened Sequences

  datatype ProviderKind = Codex | Claude

  /** `settings` stands for effort, sandbox and extension mode, which take values from fixed lists. */
  datatype Provider = Active(kind: ProviderKind, model: Option<string>, settings: nat) | Retired

  datatype RequestKind = Input | Direction | Approval | Review

  datatype Capabilities = Capabilities(humanRequests: Option<seq<RequestKind>>, commandRun: bool)

  datatype Details = Details(title: Option<string>, description: Option<string>, instruction: Option<string>,
                             provider: Option<Provider>, capabilities: Option<Capabilities>)

  /** `children` may be left out, and then differs from an empty list. */
  datatype Children = Omitted | Listed(members: seq<Member>)

  datatype Member = Member(id: string, details: Details, children: Children)

  datatype Row = Row(depth: nat, id: string, details: Details, listsChildren: bool)

  function Top(m: Member, depth: nat): Row {
    Row(depth, m.id, m.details, m.children.Listed?)
  }

  function Rows(m: Member, depth: nat): (rows: seq<Row>)
    ensures |rows| >= 1 && rows[0] == Top(m, depth)
    decreases m, 1
  {
    [Top(m, depth)] +
    match m.children
    case Omitted => []
    case Listed(members) => RowsOf(members, depth + 1)
  }

  function RowsOf(members: seq<Member>, depth: nat): seq<Row>
    decreases members, 0
  {
    if members == [] then [] else Rows(members[0], depth) + RowsOf(members[1..], depth)
  }

  // ---------------------------------------------------------------- blocks

  /** Every row lies strictly below `depth`. */
  predicate Below(rows: seq<Row>, depth: nat) {
    forall i :: 0 <= i < |rows| ==> rows[i].depth > depth
  }

  /** The row, if there is one, starts a block that does not belong to a member at `depth`. */
  predicate Ends(rows: seq<Row>, depth: nat) {
    rows == [] || rows[0].depth <= depth
  }

  lemma {:induction false} RowsBelow(m: Member, depth: nat)
    ensures Below(Rows(m, depth)[1..], depth)
    decreases m, 1
  {
    match m.children
    case Omitted =>
    case Listed(members) => RowsOfBelow(members, depth + 1);
  }

  lemma {:induction false} RowsOfBelow(members: seq<Member>, depth: nat)
    requires depth >= 1
    ensures Below(RowsOf(members, depth), depth - 1)
    ensures members != [] ==> RowsOf(members, depth) != [] && RowsOf(members, depth)[0].depth == depth
    decreases members, 0
  {
    if members != [] {
      RowsBelow(members[0], depth);
      RowsOfBelow(members[1..], depth);
      var rows := Rows(members[0], depth);
      assert rows == [rows[0]] + rows[1..];
    }
  }

  /** Where the subtree that starts at row `i` ends: at the next row that is not deeper. */
  function BlockEnd(rows: seq<Row>, i: nat): (end: nat)
    requires i < |rows|
    ensures i < end <= |rows|
  {
    RunEnd(rows, i + 1, rows[i].depth)
  }

  function RunEnd(rows: seq<Row>, from: nat, depth: nat): (end: nat)
    requires from <= |rows|
    ensures from <= end <= |rows|
    decreases |rows| - from
  {
    if from < |rows| && rows[from].depth > depth then RunEnd(rows, from + 1, depth) else from
  }

  lemma {:induction false} RunEndIs(rows: seq<Row>, from: nat, depth: nat, end: nat)
    requires from <= end <= |rows|
    requires forall i :: from <= i < end ==> rows[i].depth > depth
    requires end < |rows| ==> rows[end].depth <= depth
    ensures RunEnd(rows, from, depth) == end
    decreases end - from
  {
    if from < end { RunEndIs(rows, from + 1, depth, end); }
  }

  /** A subtree's listing, wherever it stands, is a block. */
  lemma BlockOfSubtree(before: seq<Row>, m: Member, depth: nat, after: seq<Row>)
    requires Ends(after, depth)
    ensures var rows := before + Rows(m, depth) + after;
      BlockEnd(rows, |before|) == |before| + |Rows(m, depth)|
  {
    var block := Rows(m, depth);
    var rows := before + block + after;
    RowsBelow(m, depth);
    forall i | |before| < i < |before| + |block| ensures rows[i].depth > depth {
      assert rows[i] == block[1..][i - |before| - 1];
    }
    RunEndIs(rows, |before| + 1, depth, |before| + |block|);
  }

  // ---------------------------------------------------------------- the listing determines the tree

  /** Two trees with the same listing are the same tree. */
  lemma {:induction false} RowsDetermineTree(a: Member, b: Member, depth: nat)
    requires Rows(a, depth) == Rows(b, depth)
    ensures a == b
    decreases a, 1
  {
    var rows := Rows(a, depth);
    assert rows[1..] == (match a.children case Omitted => [] case Listed(members) => RowsOf(members, depth + 1));
    assert rows[1..] == (match b.children case Omitted => [] case Listed(members) => RowsOf(members, depth + 1));
    assert rows[0] == Top(a, depth) == Top(b, depth);
    if a.children.Listed? {
      RowsOfDetermineTrees(a.children.members, b.children.members, depth + 1);
    }
  }

  lemma {:induction false} RowsOfDetermineTrees(a: seq<Member>, b: seq<Member>, depth: nat)
    requires depth >= 1
    requires RowsOf(a, depth) == RowsOf(b, depth)
    ensures a == b
    decreases a, 0
  {
    RowsOfBelow(a, depth);
    RowsOfBelow(b, depth);
    if a != [] && b != [] {
      RowsOfBelow(a[1..], depth);
      RowsOfBelow(b[1..], depth);
      FirstSubtrees(a[0], RowsOf(a[1..], depth), b[0], RowsOf(b[1..], depth), depth);
      RowsDetermineTree(a[0], b[0], depth);
      RowsOfDetermineTrees(a[1..], b[1..], depth);
      assert a == [a[0]] + a[1..] && b == [b[0]] + b[1..];
    }
  }

  lemma FirstSubtrees(a: Member, restA: seq<Row>, b: Member, restB: seq<Row>, depth: nat)
    requires Ends(restA, depth) && Ends(restB, depth)
    requires Rows(a, depth) + restA == Rows(b, depth) + restB
    ensures Rows(a, depth) == Rows(b, depth) && restA == restB
  {
    var rows := Rows(a, depth) + restA;
    BlockOfSubtree([], a, depth, restA);
    BlockOfSubtree([], b, depth, restB);
    assert [] + Rows(a, depth) + restA == rows == [] + Rows(b, depth) + restB;
    var end := BlockEnd(rows, 0);
    assert Rows(a, depth) == rows[..end] == Rows(b, depth);
    assert restA == rows[end..] == restB;
  }

  // ---------------------------------------------------------------- listings of member lists

  lemma {:induction false} RowsOfAppend(a: seq<Member>, b: seq<Member>, depth: nat)
    ensures RowsOf(a + b, depth) == RowsOf(a, depth) + RowsOf(b, depth)
  {
    if a == [] {
      assert a + b == b;
    } else {
      RowsOfAppend(a[1..], b, depth);
      assert (a + b)[1..] == a[1..] + b;
      Associate(Rows(a[0], depth), RowsOf(a[1..], depth), RowsOf(b, depth));
    }
  }

  /** The listing of one more member. */
  lemma RowsOfStep(members: seq<Member>, i: nat, depth: nat)
    requires i < |members|
    ensures RowsOf(members[..i + 1], depth) == RowsOf(members[..i], depth) + Rows(members[i], depth)
  {
    RowsOfAppend(members[..i], [members[i]], depth);
    assert members[..i + 1] == members[..i] + [members[i]];
    assert [members[i]][1..] == [];
    assert RowsOf([members[i]], depth) == Rows(members[i], depth);
  }

  lemma RowsOfSplit(members: seq<Member>, i: nat, depth: nat)
    requires i <= |members|
    ensures RowsOf(members, depth) == RowsOf(members[..i], depth) + RowsOf(members[i..], depth)
  {
    RowsOfAppend(members[..i], members[i..], depth);
    assert members == members[..i] + members[i..];
  }
}
