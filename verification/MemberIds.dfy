/**
  Member ids of the form `member-N`: how high a tree's numbers reach
  (workflows/authoring_identifiers.py) and how new subtrees get theirs
  (the allocators of workflows/operations.py and workflows/authoring.py).
*/
module MemberIds {
  import opened Basics
  import opened Decimal
  import opened MemberTree

  const PREFIX: string := "member-"

  function MemberId(n: nat): string {
    PREFIX + Format(n)
  }

  /** The N of an id that fully matches `member-(\d+)`; ids are ASCII, so the digits are 0-9. */
  function NumberOf(id: string): Option<nat> {
    if PREFIX < id && AllDigits(id[|PREFIX|..]) then Some(Number(id[|PREFIX|..])) else None
  }

  /** Every numbered id of the listing has a number below `next`. */
  predicate NumbersBelow(rows: seq<Row>, next: nat) {
    forall i :: 0 <= i < |rows| && NumberOf(rows[i].id).Some? ==> NumberOf(rows[i].id).value < next
  }

  lemma NumberOfMemberId(n: nat)
    ensures NumberOf(MemberId(n)) == Some(n)
  {
    assert MemberId(n)[|PREFIX|..] == Format(n);
    NumberFormat(n);
  }

  function Max(a: nat, b: nat): nat { if a < b then b else a }

  /** The highest number of a listing, or 0. */
  function Highest(rows: seq<Row>): nat {
    if rows == [] then 0
    else
      var last := rows[|rows| - 1].id;
      Max(Highest(rows[..|rows| - 1]), if NumberOf(last).Some? then NumberOf(last).value else 0)
  }

  lemma {:induction false} HighestAppend(a: seq<Row>, b: seq<Row>)
    ensures Highest(a + b) == Max(Highest(a), Highest(b))
  {
    if b == [] {
      assert a + b == a;
    } else {
      HighestAppend(a, b[..|b| - 1]);
      assert (a + b)[..|a + b| - 1] == a + b[..|b| - 1];
    }
  }

  /** Exactly the numbers above the highest one are above every number of the listing. */
  lemma {:induction false} HighestBounds(rows: seq<Row>, next: nat)
    requires next >= 1
    ensures NumbersBelow(rows, next) <==> Highest(rows) < next
  {
    if rows != [] {
      var last := |rows| - 1;
      HighestBounds(rows[..last], next);
      assert forall i :: 0 <= i < last ==> rows[..last][i] == rows[i];
    }
  }

  /** `next_workflow_member_sequence`: the walk that keeps a running maximum. */
  class SequenceVisitor {
    var highest: nat

    constructor ()
      ensures highest == 0
    {
      highest := 0;
    }

    method Visit(m: Member, ghost depth: nat)
      modifies this
      ensures highest == Max(old(highest), Highest(Rows(m, depth)))
      decreases m
    {
      hide NumberOf;
      var n := NumberOf(m.id);
      if n.Some? { highest := Max(highest, n.value); }
      HighestTop(m, depth);
      match m.children {
        case Omitted =>
          assert Rows(m, depth)[1..] == [];
        case Listed(members) =>
          ghost var start := highest;
          assert Rows(m, depth)[1..] == RowsOf(members, depth + 1);
          assert members[..0] == [];
          for i := 0 to |members|
            invariant highest == Max(start, Highest(RowsOf(members[..i], depth + 1)))
          {
            Visit(members[i], depth + 1);
            HighestStep(members, i, depth + 1);
          }
          assert members[..|members|] == members;
      }
    }
  }

  lemma HighestTop(m: Member, depth: nat)
    ensures Highest(Rows(m, depth)) ==
      Max(if NumberOf(m.id).Some? then NumberOf(m.id).value else 0, Highest(Rows(m, depth)[1..]))
  {
    var top := [Top(m, depth)];
    assert top[..0] == [];
    HighestAppend(top, Rows(m, depth)[1..]);
    assert Rows(m, depth) == top + Rows(m, depth)[1..];
  }

  lemma HighestStep(members: seq<Member>, i: nat, depth: nat)
    requires i < |members|
    ensures Highest(RowsOf(members[..i + 1], depth)) ==
      Max(Highest(RowsOf(members[..i], depth)), Highest(Rows(members[i], depth)))
  {
    RowsOfStep(members, i, depth);
    HighestAppend(RowsOf(members[..i], depth), Rows(members[i], depth));
  }

  function NextSequence(m: Member): nat {
    Highest(Rows(m, 1)) + 1
  }

  method NextWorkflowMemberSequence(lead: Member) returns (next: nat)
    ensures next == NextSequence(lead)
  {
    var visitor := new SequenceVisitor();
    visitor.Visit(lead, 1);
    return visitor.highest + 1;
  }

  /** The least sequence number that is above every number of the tree. */
  lemma NextSequenceIsLeast(m: Member, next: nat)
    requires next >= 1
    ensures NumbersBelow(Rows(m, 1), next) <==> NextSequence(m) <= next
  {
    HighestBounds(Rows(m, 1), next);
  }

  // ---------------------------------------------------------------- new subtrees

  /** A member without an id, as a client proposes it. */
  datatype NewMember = NewMember(details: Details, children: NewChildren)

  datatype NewChildren = NoChildren | Given(members: seq<NewMember>)

  /** `_new_member_payload`: ids are taken in preorder; also returns the next free number. */
  function Build(m: NewMember, next: nat): (Member, nat)
    decreases m, 1
  {
    match m.children
    case NoChildren => (Member(MemberId(next), m.details, Omitted), next + 1)
    case Given(members) =>
      var (built, next') := BuildAll(members, next + 1);
      (Member(MemberId(next), m.details, Listed(built)), next')
  }

  function BuildAll(members: seq<NewMember>, next: nat): (seq<Member>, nat)
    decreases members, 0
  {
    if members == [] then ([], next)
    else
      var (first, next') := Build(members[0], next);
      var (rest, next'') := BuildAll(members[1..], next');
      ([first] + rest, next'')
  }

  /** The ids of these rows are next, next + 1, and so on. */
  predicate Consecutive(rows: seq<Row>, next: nat) {
    forall i :: 0 <= i < |rows| ==> rows[i].id == MemberId(next + i)
  }

  /** A built subtree is numbered consecutively in preorder, and uses exactly that many numbers. */
  lemma {:induction false} BuildIsConsecutive(m: NewMember, next: nat, depth: nat)
    ensures var (built, next') := Build(m, next);
      next' == next + |Rows(built, depth)| && Consecutive(Rows(built, depth), next)
    decreases m, 1
  {
    match m.children
    case NoChildren =>
    case Given(members) => BuildAllIsConsecutive(members, next + 1, depth + 1);
  }

  lemma {:induction false} BuildAllIsConsecutive(members: seq<NewMember>, next: nat, depth: nat)
    ensures var (built, next') := BuildAll(members, next);
      next' == next + |RowsOf(built, depth)| && Consecutive(RowsOf(built, depth), next)
    decreases members, 0
  {
    if members != [] {
      var (first, next') := Build(members[0], next);
      var (rest, next'') := BuildAll(members[1..], next');
      BuildIsConsecutive(members[0], next, depth);
      BuildAllIsConsecutive(members[1..], next', depth);
      assert ([first] + rest)[1..] == rest;
    }
  }

  /**
    New ids are pairwise distinct, absent from any listing whose numbers lie
    below `next`, and below the new `next`.
  */
  lemma BuiltIdsAreFresh(m: NewMember, next: nat, depth: nat, rows: seq<Row>)
    requires NumbersBelow(rows, next)
    ensures var (built, next') := Build(m, next);
      var added := Rows(built, depth);
      && (forall i, j :: 0 <= i < j < |added| ==> added[i].id != added[j].id)
      && (forall i, j :: 0 <= i < |added| && 0 <= j < |rows| ==> added[i].id != rows[j].id)
      && NumbersBelow(added, next') && NumbersBelow(rows, next')
  {
    BuildIsConsecutive(m, next, depth);
    var (built, next') := Build(m, next);
    var added := Rows(built, depth);
    forall i | 0 <= i < |added| ensures NumberOf(added[i].id) == Some(next + i) {
      NumberOfMemberId(next + i);
    }
  }

  /** The allocator of a draft edit: a counter that starts at the persisted number. */
  class MemberIdAllocator {
    var next: nat

    constructor (next: nat)
      ensures this.next == next
    {
      this.next := next;
    }

    method AllocateMemberId() returns (id: string)
      modifies this
      ensures id == MemberId(old(next)) && next == old(next) + 1
    {
      id := PREFIX + Format(next);
      next := next + 1;
    }

    method NewMemberPayload(m: NewMember) returns (built: Member)
      modifies this
      ensures (built, next) == Build(m, old(next))
      decreases m
    {
      var id := AllocateMemberId();
      match m.children {
        case NoChildren => return Member(id, m.details, Omitted);
        case Given(members) =>
          ghost var start := next;
          var children: seq<Member> := [];
          assert members[0..] == members;
          assert [] + BuildAll(members, start).0 == BuildAll(members, start).0;
          for i := 0 to |members|
            invariant BuildAll(members, start) ==
              (children + BuildAll(members[i..], next).0, BuildAll(members[i..], next).1)
          {
            var child := NewMemberPayload(members[i]);
            assert members[i..][0] == members[i] && members[i..][1..] == members[i + 1..];
            ghost var rest := BuildAll(members[i + 1..], next).0;
            assert children + ([child] + rest) == (children + [child]) + rest;
            children := children + [child];
          }
          assert members[|members|..] == [] && children + [] == children;
          return Member(id, m.details, Listed(children));
      }
    }
  }

  /** The allocator used without a draft: the least free number each time. */
  class UnusedIdAllocator {
    var usedIds: set<string>
    var next: nat

    constructor (lead: Member)
      ensures next == 1
      ensures usedIds == set i | 0 <= i < |Rows(lead, 1)| :: Rows(lead, 1)[i].id
    {
      usedIds := set i | 0 <= i < |Rows(lead, 1)| :: Rows(lead, 1)[i].id;
      next := 1;
    }

    method AllocateId() returns (id: string)
      modifies this
      ensures old(next) < next
      ensures id == MemberId(next - 1) && id !in old(usedIds)
      ensures forall n :: old(next) <= n < next - 1 ==> MemberId(n) in old(usedIds)
      ensures usedIds == old(usedIds) + {id}
    {
      ghost var start := next;
      while MemberId(next) in usedIds
        invariant usedIds == old(usedIds) && next >= start
        invariant IdRange(start, next) <= usedIds
        invariant forall n :: start <= n < next ==> MemberId(n) in usedIds
        decreases |usedIds - IdRange(start, next)|
      {
        BeyondRange(start, next, next);
        Smaller(usedIds - IdRange(start, next + 1), usedIds - IdRange(start, next), MemberId(next));
        next := next + 1;
      }
      id := MemberId(next);
      usedIds := usedIds + {id};
      next := next + 1;
    }
  }

  ghost function IdRange(from: nat, to: nat): set<string> {
    if from >= to then {} else IdRange(from, to - 1) + {MemberId(to - 1)}
  }

  lemma {:induction false} BeyondRange(from: nat, to: nat, n: nat)
    requires n >= to
    ensures MemberId(n) !in IdRange(from, to)
  {
    if from < to {
      BeyondRange(from, to - 1, n);
      NumberOfMemberId(n);
      NumberOfMemberId(to - 1);
    }
  }

  lemma Smaller(a: set<string>, b: set<string>, id: string)
    requires a <= b && id in b && id !in a
    ensures |a| < |b|
  {
    assert b == a + (b - a);
    assert id in b - a;
  }
}
