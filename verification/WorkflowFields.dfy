/**
  What an accepted edit stores, field by field: the patched fields, the added
  members' details in preorder, and every other field, as the text
  normalization leaves it.
*/
module WorkflowFields {
  import opened Basics
  import opened Texts
  import opened MemberTree
  import opened MemberEdits
  import opened MemberIds
  import opened WorkflowRules
  import opened WorkflowEdits

  // ---------------------------------------------------------------- proposed members

  /** A row of a proposed subtree, which has no ids yet. */
  datatype ProposedRow = ProposedRow(depth: nat, details: Details, listsChildren: bool)

  function Proposed(m: NewMember, depth: nat): seq<ProposedRow>
    decreases m, 1
  {
    [ProposedRow(depth, m.details, m.children.Given?)] +
    match m.children
    case NoChildren => []
    case Given(members) => ProposedAll(members, depth + 1)
  }

  function ProposedAll(members: seq<NewMember>, depth: nat): seq<ProposedRow>
    decreases members, 0
  {
    if members == [] then [] else Proposed(members[0], depth) + ProposedAll(members[1..], depth)
  }

  /** The proposed rows under the ids member-next, member-(next + 1), ... */
  function WithIds(rows: seq<ProposedRow>, next: nat): (r: seq<Row>)
    ensures |r| == |rows|
  {
    seq(|rows|, i requires 0 <= i < |rows| =>
      Row(rows[i].depth, MemberId(next + i), rows[i].details, rows[i].listsChildren))
  }

  lemma WithIdsAppend(a: seq<ProposedRow>, b: seq<ProposedRow>, next: nat)
    ensures WithIds(a + b, next) == WithIds(a, next) + WithIds(b, next + |a|)
  {
    hide MemberId;
    forall i | 0 <= i < |a| + |b| ensures WithIds(a + b, next)[i] == (WithIds(a, next) + WithIds(b, next + |a|))[i] {
      assert i >= |a| ==> next + |a| + (i - |a|) == next + i;
    }
  }

  /** A built subtree lists exactly the proposed members, in preorder, under consecutive ids. */
  lemma {:induction false} BuildLists(m: NewMember, next: nat, depth: nat)
    ensures Rows(Build(m, next).0, depth) == WithIds(Proposed(m, depth), next)
    ensures Build(m, next).1 == next + |Proposed(m, depth)|
    decreases m, 1
  {
    hide MemberId;
    var top := [ProposedRow(depth, m.details, m.children.Given?)];
    assert WithIds(top, next) == [Row(depth, MemberId(next), m.details, m.children.Given?)];
    match m.children
    case NoChildren => assert Proposed(m, depth) == top;
    case Given(members) =>
      BuildAllLists(members, next + 1, depth + 1);
      WithIdsAppend(top, ProposedAll(members, depth + 1), next);
  }

  lemma {:induction false} BuildAllLists(members: seq<NewMember>, next: nat, depth: nat)
    ensures RowsOf(BuildAll(members, next).0, depth) == WithIds(ProposedAll(members, depth), next)
    ensures BuildAll(members, next).1 == next + |ProposedAll(members, depth)|
    decreases members, 0
  {
    hide MemberId;
    if members != [] {
      var (first, next') := Build(members[0], next);
      BuildLists(members[0], next, depth);
      BuildAllLists(members[1..], next', depth);
      WithIdsAppend(Proposed(members[0], depth), ProposedAll(members[1..], depth), next);
      var rest := BuildAll(members[1..], next').0;
      assert ([first] + rest)[1..] == rest;
    }
  }

  // ---------------------------------------------------------------- the payload of an operation

  /** A field after a change: what was set, nothing once cleared, else what it was. */
  function Wanted<T>(before: Option<T>, change: Change<T>): Option<T> {
    if change.Set? then Some(change.value) else if change.Clear? then None else before
  }

  predicate PatchesRow(row: Row, row': Row, patch: MemberPatch) {
    && row'.depth == row.depth && row'.id == row.id && row'.listsChildren == row.listsChildren
    && row'.details.title == Wanted(row.details.title, patch.title)
    && row'.details.description == Wanted(row.details.description, patch.description)
    && row'.details.instruction == Wanted(row.details.instruction, patch.instruction)
    && row'.details.provider == Wanted(row.details.provider, patch.provider)
    && row'.details.capabilities == Wanted(row.details.capabilities, patch.capabilities)
  }

  /** The rows of a member and of everything below it. */
  predicate IsBlock(rows: seq<Row>, start: nat, end: nat) {
    && start < end <= |rows|
    && (forall i :: start < i < end ==> rows[i].depth > rows[start].depth)
    && (end < |rows| ==> rows[end].depth <= rows[start].depth)
  }

  /** The first row with this id. */
  predicate StandsAt(rows: seq<Row>, at: nat, id: string) {
    at < |rows| && rows[at].id == id && forall i :: 0 <= i < at ==> rows[i].id != id
  }

  /** Only the row at this place changes, as the patch says. */
  ghost predicate UpdatesAt(rows: seq<Row>, rows': seq<Row>, at: nat, patch: MemberPatch) {
    && at < |rows| == |rows'|
    && PatchesRow(rows[at], rows'[at], patch)
    && forall i :: 0 <= i < |rows| && i != at ==> rows'[i] == rows[i]
  }

  ghost predicate UpdatesRow(rows: seq<Row>, rows': seq<Row>, id: string, patch: MemberPatch) {
    exists at: nat :: StandsAt(rows, at, id) && UpdatesAt(rows, rows', at, patch)
  }

  /** The added rows stand behind everything below the parent, which lists children from now on. */
  ghost predicate AddsAt(rows: seq<Row>, rows': seq<Row>, at: nat, end: nat, added: seq<Row>) {
    && at < end <= |rows|
    && |rows'| == |rows| + |added|
    && (forall i :: 0 <= i < end ==> rows'[i] == if i == at then rows[i].(listsChildren := true) else rows[i])
    && rows'[end..end + |added|] == added
    && rows'[end + |added|..] == rows[end..]
  }

  /** Here the parent stands, here its block ends, and there the proposed members were added. */
  ghost predicate AddsHere(rows: seq<Row>, rows': seq<Row>, at: nat, end: nat, parentId: string, member: NewMember,
                           next: nat)
  {
    && StandsAt(rows, at, parentId) && IsBlock(rows, at, end)
    && AddsAt(rows, rows', at, end, WithIds(Proposed(member, rows[at].depth + 1), next))
  }

  ghost predicate AddsRows(rows: seq<Row>, rows': seq<Row>, parentId: string, member: NewMember, next: nat) {
    exists at: nat, end: nat :: AddsHere(rows, rows', at, end, parentId, member, next)
  }

  /** Here the member, which is not the lead, stands and here its block ends; the block is gone. */
  predicate RemovesHere(rows: seq<Row>, rows': seq<Row>, at: nat, end: nat, id: string) {
    && StandsAt(rows, at, id) && IsBlock(rows, at, end) && at > 0
    && rows' == rows[..at] + rows[end..]
  }

  ghost predicate RemovesRows(rows: seq<Row>, rows': seq<Row>, id: string) {
    exists at: nat, end: nat :: RemovesHere(rows, rows', at, end, id)
  }

  /** The payload that the operation asks for, field by field; only one of the four parts changes. */
  ghost predicate IsPayload(w: Workflow, op: Operation, next: nat, payload: Workflow) {
    && payload.id == w.id
    && (if op.UpdateWorkflow?
        then payload.description == Wanted(w.description, op.patch.description)
          && payload.note == Wanted(w.note, op.patch.note)
        else payload.description == w.description && payload.note == w.note)
    && var rows, rows' := Rows(w.lead, 1), Rows(payload.lead, 1);
       match op
       case UpdateWorkflow(_) => rows' == rows
       case UpdateMember(id, patch) => UpdatesRow(rows, rows', id, patch)
       case AddMember(parentId, member) => AddsRows(rows, rows', parentId, member, next)
       case RemoveMember(id) => RemovesRows(rows, rows', id)
  }

  lemma {:induction false} RunEndEnds(rows: seq<Row>, from: nat, depth: nat)
    requires from <= |rows|
    ensures var end := RunEnd(rows, from, depth);
      && (forall i :: from <= i < end ==> rows[i].depth > depth)
      && (end < |rows| ==> rows[end].depth <= depth)
    decreases |rows| - from
  {
    if from < |rows| && rows[from].depth > depth { RunEndEnds(rows, from + 1, depth); }
  }

  lemma BlockEndIs(rows: seq<Row>, at: nat)
    requires at < |rows|
    ensures IsBlock(rows, at, BlockEnd(rows, at))
  {
    RunEndEnds(rows, at + 1, rows[at].depth);
  }

  lemma AddRowsAdds(rows: seq<Row>, parentId: string, member: NewMember, next: nat)
    requires Has(rows, parentId)
    ensures AddsRows(rows, AddRows(rows, parentId, Build(member, next).0), parentId, member, next)
  {
    hide WithIds, IsBlock, AddsAt;
    var at := IndexOf(rows, parentId);
    var end := BlockEnd(rows, at);
    BlockEndIs(rows, at);
    BuildLists(member, next, rows[at].depth + 1);
    AddedWindow(rows, at, end, WithIds(Proposed(member, rows[at].depth + 1), next));
    assert AddsHere(rows, AddRows(rows, parentId, Build(member, next).0), at, end, parentId, member, next);
  }

  lemma AddedWindow(rows: seq<Row>, at: nat, end: nat, added: seq<Row>)
    requires at < end <= |rows|
    ensures AddsAt(rows, rows[..at] + [rows[at].(listsChildren := true)] + rows[at + 1..end] + added + rows[end..],
                   at, end, added)
  {}

  /** The tree edit makes the payload that the operation asks for, and takes one number for each added member. */
  lemma ApplyIs(w: Workflow, op: Operation, next: nat)
    ensures ApplyOperation(w, op, next).Ok? <==> Applicable(Rows(w.lead, 1), op)
    ensures ApplyOperation(w, op, next).Ok? ==>
      var (payload, next') := ApplyOperation(w, op, next).value;
      && IsPayload(w, op, next, payload)
      && next' == next + if op.AddMember? then |Proposed(op.member, 1)| else 0
  {
    hide Find, Replace, Remove, AddsRows, AddRows, RemoveRows, UpdateRow, UpdatesRow, RemovesRows, Append, Build;
    ApplyRefines(w, op, next);
    var rows := Rows(w.lead, 1);
    if Applicable(rows, op) {
      match op
      case UpdateWorkflow(_) =>
      case UpdateMember(id, patch) => UpdateRowUpdates(rows, id, patch);
      case AddMember(parentId, member) =>
        BuildLists(member, next, 1);
        AddRowsAdds(rows, parentId, member, next);
      case RemoveMember(id) => RemoveRowsRemoves(rows, id);
    }
  }

  lemma UpdateRowUpdates(rows: seq<Row>, id: string, patch: MemberPatch)
    requires Has(rows, id)
    ensures UpdatesRow(rows, UpdateRow(rows, id, Patched(rows[IndexOf(rows, id)].details, patch)), id, patch)
  {
    assert StandsAt(rows, IndexOf(rows, id), id);
  }

  lemma RemoveRowsRemoves(rows: seq<Row>, id: string)
    requires rows != [] && rows[0].id != id && Has(rows, id)
    ensures RemovesRows(rows, RemoveRows(rows, id), id)
  {
    var at := IndexOf(rows, id);
    BlockEndIs(rows, at);
    assert RemovesHere(rows, RemoveRows(rows, id), at, BlockEnd(rows, at), id);
  }

  // ---------------------------------------------------------------- what is stored of a payload

  function StoredLine(text: Option<string>): Option<string> {
    if text.Some? then Some(OneLineEnd(text.value, false)) else None
  }

  /** Blank prose is dropped, any other gets uniform line ends. */
  function StoredProse(text: Option<string>): Option<string> {
    if text.Some? && !Blank(text.value) then Some(OneLineEnd(text.value, false)) else None
  }

  predicate StoresProvider(provider: Option<Provider>, provider': Option<Provider>) {
    match provider
    case Some(Active(kind, model, settings)) => provider' == Some(Active(kind, StoredLine(model), settings))
    case _ => provider' == provider
  }

  predicate StoresRow(row: Row, row': Row) {
    && row'.depth == row.depth
    && row'.id == OneLineEnd(row.id, false)
    && row'.listsChildren == row.listsChildren
    && row'.details.title == StoredProse(row.details.title)
    && row'.details.description == StoredProse(row.details.description)
    && row'.details.instruction == StoredProse(row.details.instruction)
    && StoresProvider(row.details.provider, row'.details.provider)
    && row'.details.capabilities == row.details.capabilities
  }

  /** The normal form of a payload: every text of it normalized, everything else as it was. */
  ghost predicate IsNormalForm(payload: Workflow, w: Workflow) {
    && w.id == OneLineEnd(payload.id, false)
    && w.description == StoredLine(payload.description)
    && w.note == StoredProse(payload.note)
    && var rows, rows' := Rows(payload.lead, 1), Rows(w.lead, 1);
       |rows'| == |rows| && forall i :: 0 <= i < |rows| ==> StoresRow(rows[i], rows'[i])
  }

  /** A payload is stored in normal form, unless a retired provider is in it: then it is stored as it is. */
  ghost predicate IsStored(payload: Workflow, w: Workflow) {
    if HasRetired(Rows(payload.lead, 1)) then w == payload else IsNormalForm(payload, w)
  }

  lemma NormalProseStores(text: Option<string>)
    ensures NormalProse(text) == StoredProse(text)
    ensures NormalText(text) == StoredLine(text)
  {
    hide NormalizeLines, OneLineEnd, Strip, Blank;
    if text.Some? {
      NormalizeLinesReads(text.value);
      OneLineEndBlank(text.value, false);
      StripIsEmptyIffBlank(NormalizeLines(text.value));
    }
  }

  lemma NormalRowStores(row: Row)
    ensures StoresRow(row, NormalRow(row))
  {
    hide NormalizeLines, OneLineEnd, NormalProse, StoredProse, NormalText, StoredLine;
    NormalizeLinesReads(row.id);
    NormalProseStores(row.details.title);
    NormalProseStores(row.details.description);
    NormalProseStores(row.details.instruction);
    if row.details.provider.Some? && row.details.provider.value.Active? {
      NormalProseStores(row.details.provider.value.model);
    }
  }

  lemma NormalWorkflowIs(payload: Workflow)
    ensures IsNormalForm(payload, NormalWorkflow(payload))
  {
    hide NormalizeLines, OneLineEnd, NormalProse, StoredProse, NormalText, StoredLine, StoresRow, NormalRow;
    NormalizeLinesReads(payload.id);
    NormalProseStores(payload.description);
    NormalProseStores(payload.note);
    NormalMemberRows(payload.lead, 1);
    var rows := Rows(payload.lead, 1);
    forall i | 0 <= i < |rows| ensures StoresRow(rows[i], NormalRows(rows)[i]) { NormalRowStores(rows[i]); }
  }

  /** What acceptance returns is the stored form of the payload. */
  lemma AcceptStores(schema: Schema, payload: Workflow)
    ensures Accept(schema, payload).Ok? ==> IsStored(payload, Accept(schema, payload).value)
    ensures NormalizeObject(schema, payload).Ok? ==> IsNormalForm(payload, NormalizeObject(schema, payload).value)
  {
    hide LegalWorkflow, IsNormalForm, HasRetired, NormalWorkflow, Scan;
    NormalWorkflowIs(payload);
    NormalMemberRows(payload.lead, 1);
    RetiredStays(Rows(payload.lead, 1));
    assert Rows(NormalWorkflow(payload).lead, 1) == NormalRows(Rows(payload.lead, 1)) by { NormalLead(payload); }
  }

  lemma NormalLead(payload: Workflow)
    ensures NormalWorkflow(payload).lead == NormalMember(payload.lead)
  {}

  /** The result of the operation: the stored form of the payload that it asks for. */
  ghost predicate IsEdit(w: Workflow, op: Operation, next: nat, w': Workflow) {
    exists payload :: IsPayload(w, op, next, payload) && IsStored(payload, w')
  }

  /** What an accepted edit returns, in terms of the payload and of nothing that the edit itself calls. */
  lemma EditIs(schema: Schema, w: Workflow, op: Operation, next: nat)
    requires Edit(schema, w, op, next).Ok?
    ensures IsEdit(w, op, next, Edit(schema, w, op, next).value.0)
  {
    hide Accept, IsPayload, IsStored, ApplyOperation, Proposed;
    ApplyIs(w, op, next);
    AcceptStores(schema, ApplyOperation(w, op, next).value.0);
  }

  /** An accepted edit takes one member number for each added member. */
  lemma EditTakesNumbers(schema: Schema, w: Workflow, op: Operation, next: nat)
    requires Edit(schema, w, op, next).Ok?
    ensures Edit(schema, w, op, next).value.1 == next + if op.AddMember? then |Proposed(op.member, 1)| else 0
  {
    hide Accept, IsPayload, ApplyOperation, Proposed;
    ApplyIs(w, op, next);
  }

  // ---------------------------------------------------------------- when an edit is accepted

  lemma OneStand(rows: seq<Row>, a: nat, b: nat, id: string)
    requires StandsAt(rows, a, id) && StandsAt(rows, b, id)
    ensures a == b
  {}

  lemma OneBlockEnd(rows: seq<Row>, at: nat, a: nat, b: nat)
    requires IsBlock(rows, at, a) && IsBlock(rows, at, b)
    ensures a == b
  {}

  lemma NamedIsApplicable(rows: seq<Row>, at: nat, id: string)
    requires StandsAt(rows, at, id)
    ensures Has(rows, id) && IndexOf(rows, id) == at
  {}

  lemma OneUpdate(rows: seq<Row>, a: seq<Row>, b: seq<Row>, id: string, patch: MemberPatch)
    requires UpdatesRow(rows, a, id, patch) && UpdatesRow(rows, b, id, patch)
    ensures a == b
  {
    var i: nat :| StandsAt(rows, i, id) && UpdatesAt(rows, a, i, patch);
    var j: nat :| StandsAt(rows, j, id) && UpdatesAt(rows, b, j, patch);
    OneStand(rows, i, j, id);
    assert a[i] == b[i];
  }

  lemma OneAddition(rows: seq<Row>, a: seq<Row>, b: seq<Row>, parentId: string, member: NewMember, next: nat)
    requires AddsRows(rows, a, parentId, member, next) && AddsRows(rows, b, parentId, member, next)
    ensures a == b
  {
    hide AddsAt, WithIds;
    var i: nat, e: nat :| AddsHere(rows, a, i, e, parentId, member, next);
    var j: nat, f: nat :| AddsHere(rows, b, j, f, parentId, member, next);
    OneStand(rows, i, j, parentId);
    OneBlockEnd(rows, i, e, f);
    OneWindow(rows, a, b, i, e, WithIds(Proposed(member, rows[i].depth + 1), next));
  }

  lemma OneWindow(rows: seq<Row>, a: seq<Row>, b: seq<Row>, at: nat, end: nat, added: seq<Row>)
    requires AddsAt(rows, a, at, end, added) && AddsAt(rows, b, at, end, added)
    ensures a == b
  {
    var n := end + |added|;
    assert a[..end] == b[..end];
    assert a == a[..end] + a[end..n] + a[n..];
    assert b == b[..end] + b[end..n] + b[n..];
  }

  lemma OneRemoval(rows: seq<Row>, a: seq<Row>, b: seq<Row>, id: string)
    requires RemovesRows(rows, a, id) && RemovesRows(rows, b, id)
    ensures a == b
  {
    var i: nat, e: nat :| RemovesHere(rows, a, i, e, id);
    var j: nat, f: nat :| RemovesHere(rows, b, j, f, id);
    OneStand(rows, i, j, id);
    OneBlockEnd(rows, i, e, f);
  }

  /** An operation asks for one payload at most, and if it asks for one it applies. */
  lemma PayloadIsUnique(w: Workflow, op: Operation, next: nat, a: Workflow, b: Workflow)
    requires IsPayload(w, op, next, a) && IsPayload(w, op, next, b)
    ensures a == b
    ensures Applicable(Rows(w.lead, 1), op)
  {
    hide UpdatesRow, AddsRows, RemovesRows;
    var rows, rowsA, rowsB := Rows(w.lead, 1), Rows(a.lead, 1), Rows(b.lead, 1);
    match op {
      case UpdateWorkflow(_) =>
      case UpdateMember(id, patch) => OneUpdate(rows, rowsA, rowsB, id, patch);
      case AddMember(parentId, member) => OneAddition(rows, rowsA, rowsB, parentId, member, next);
      case RemoveMember(id) => OneRemoval(rows, rowsA, rowsB, id);
    }
    RowsDetermineTree(a.lead, b.lead, 1);
    PayloadApplies(w, op, next, a);
  }

  lemma PayloadApplies(w: Workflow, op: Operation, next: nat, payload: Workflow)
    requires IsPayload(w, op, next, payload)
    ensures Applicable(Rows(w.lead, 1), op)
  {
    hide AddsAt, UpdatesAt, WithIds;
    var rows := Rows(w.lead, 1);
    match op
    case UpdateWorkflow(_) =>
    case UpdateMember(id, patch) =>
      var at: nat :| StandsAt(rows, at, id) && UpdatesAt(rows, Rows(payload.lead, 1), at, patch);
      NamedIsApplicable(rows, at, id);
    case AddMember(parentId, member) =>
      var at: nat, end: nat :| AddsHere(rows, Rows(payload.lead, 1), at, end, parentId, member, next);
      NamedIsApplicable(rows, at, parentId);
    case RemoveMember(id) =>
      var at: nat, end: nat :| RemovesHere(rows, Rows(payload.lead, 1), at, end, id);
      NamedIsApplicable(rows, at, id);
  }

  /**
    An edit is accepted exactly if the operation asks for a payload whose texts
    are legal, whose normal form fits the data model and the semantic rules, and
    which fits the data model as it stands where a retired provider remains.
  */
  lemma EditAcceptedIff(schema: Schema, w: Workflow, op: Operation, next: nat, payload: Workflow)
    requires IsPayload(w, op, next, payload)
    ensures Edit(schema, w, op, next).Ok? <==>
      && LegalWorkflow(payload) && schema(NormalWorkflow(payload)) && Sound(NormalRows(Rows(payload.lead, 1)))
      && (HasRetired(Rows(payload.lead, 1)) ==> schema(payload))
  {
    hide Accept, IsPayload, ApplyOperation, LegalWorkflow, Sound, HasRetired, NormalWorkflow, NormalRows, Proposed,
      Applicable;
    PayloadIsUnique(w, op, next, payload, payload);
    ApplyIs(w, op, next);
    PayloadIsUnique(w, op, next, payload, ApplyOperation(w, op, next).value.0);
    Accepts(schema, payload);
  }

  // ---------------------------------------------------------------- single fields

  /** A prose field as it is stored. */
  function KeptProse(retired: bool, text: Option<string>): Option<string> {
    if retired then text else StoredProse(text)
  }

  /** The five fields of a member after a patch: what it sets, absent if cleared, else as before; then normalized. */
  predicate FieldsAre(before: Details, after: Details, patch: MemberPatch, retired: bool) {
    && after.title == KeptProse(retired, Wanted(before.title, patch.title))
    && after.description == KeptProse(retired, Wanted(before.description, patch.description))
    && after.instruction == KeptProse(retired, Wanted(before.instruction, patch.instruction))
    && after.capabilities == Wanted(before.capabilities, patch.capabilities)
    && (if retired then after.provider == Wanted(before.provider, patch.provider)
        else StoresProvider(Wanted(before.provider, patch.provider), after.provider))
  }

  /** A row as it is stored. */
  predicate KeepsRow(row: Row, row': Row, retired: bool) {
    if retired then row' == row else StoresRow(row, row')
  }

  /** Storing keeps whether a retired provider is there. */
  lemma StoredRetired(payload: Workflow, w: Workflow)
    requires IsStored(payload, w)
    ensures HasRetired(Rows(w.lead, 1)) <==> HasRetired(Rows(payload.lead, 1))
  {
    hide StoredProse, StoredLine, OneLineEnd;
    var rows, rows' := Rows(payload.lead, 1), Rows(w.lead, 1);
    if !HasRetired(rows) {
      forall i | 0 <= i < |rows'| ensures rows'[i].details.provider != Some(Retired) {
        assert StoresRow(rows[i], rows'[i]) && rows[i].details.provider != Some(Retired);
      }
    }
  }

  lemma StoredRows(payload: Workflow, w: Workflow)
    requires IsStored(payload, w)
    ensures var rows, rows' := Rows(payload.lead, 1), Rows(w.lead, 1);
      && |rows'| == |rows|
      && (HasRetired(rows') <==> HasRetired(rows))
      && forall i :: 0 <= i < |rows| ==> KeepsRow(rows[i], rows'[i], HasRetired(rows'))
  {
    StoredRetired(payload, w);
    hide StoresRow, HasRetired;
  }

  lemma PatchedThenStored(row: Row, middle: Row, row': Row, patch: MemberPatch, retired: bool)
    requires PatchesRow(row, middle, patch) && KeepsRow(middle, row', retired)
    ensures FieldsAre(row.details, row'.details, patch, retired)
    ensures row'.depth == row.depth && row'.listsChildren == row.listsChildren
  {
    hide StoredProse, StoredLine;
  }

  /** The named member has the patched fields, and every other row is stored as it was. */
  ghost predicate UpdatedHere(rows: seq<Row>, rows': seq<Row>, at: nat, id: string, patch: MemberPatch) {
    && |rows'| == |rows|
    && StandsAt(rows, at, id)
    && FieldsAre(rows[at].details, rows'[at].details, patch, HasRetired(rows'))
    && rows'[at].depth == rows[at].depth && rows'[at].listsChildren == rows[at].listsChildren
    && forall i :: 0 <= i < |rows| && i != at ==> KeepsRow(rows[i], rows'[i], HasRetired(rows'))
  }

  ghost predicate UpdatedRows(rows: seq<Row>, rows': seq<Row>, id: string, patch: MemberPatch) {
    exists at: nat :: UpdatedHere(rows, rows', at, id, patch)
  }

  /**
    After an accepted update of a member each of its five fields is what the
    patch sets, absent if the patch clears it, and else what it was; texts are
    normalized unless a retired provider remains. Every other member is stored
    as it was, normalized likewise.
  */
  lemma UpdatedFields(schema: Schema, w: Workflow, id: string, patch: MemberPatch, next: nat)
    requires Edit(schema, w, UpdateMember(id, patch), next).Ok?
    ensures UpdatedRows(Rows(w.lead, 1), Rows(Edit(schema, w, UpdateMember(id, patch), next).value.0.lead, 1),
                        id, patch)
  {
    hide Edit, IsStored, UpdatesRow, UpdatedRows;
    var w' := Edit(schema, w, UpdateMember(id, patch), next).value.0;
    EditIs(schema, w, UpdateMember(id, patch), next);
    var payload :| IsPayload(w, UpdateMember(id, patch), next, payload) && IsStored(payload, w');
    StoredRows(payload, w');
    UpdatedThenStored(Rows(w.lead, 1), Rows(payload.lead, 1), Rows(w'.lead, 1), id, patch);
  }

  lemma UpdatedThenStored(rows: seq<Row>, middle: seq<Row>, rows': seq<Row>, id: string, patch: MemberPatch)
    requires UpdatesRow(rows, middle, id, patch) && |rows'| == |middle|
    requires forall i :: 0 <= i < |middle| ==> KeepsRow(middle[i], rows'[i], HasRetired(rows'))
    ensures UpdatedRows(rows, rows', id, patch)
  {
    hide HasRetired, KeepsRow, PatchesRow, FieldsAre;
    var at: nat :| StandsAt(rows, at, id) && UpdatesAt(rows, middle, at, patch);
    PatchedThenStored(rows[at], middle[at], rows'[at], patch, HasRetired(rows'));
    assert UpdatedHere(rows, rows', at, id, patch);
  }

  /** The added rows, with their ids, stand at `end`; every other row stays in order; all as they are stored. */
  ghost predicate AddedAndKept(rows: seq<Row>, rows': seq<Row>, at: nat, end: nat, added: seq<Row>) {
    var retired := HasRetired(rows');
    && at < end <= |rows|
    && |rows'| == |rows| + |added|
    && (forall i :: 0 <= i < end ==>
         KeepsRow(if i == at then rows[i].(listsChildren := true) else rows[i], rows'[i], retired))
    && (forall k :: 0 <= k < |added| ==>
         KeepsRow(added[k], rows'[end + k], retired) && rows'[end + k].id == added[k].id)
    && (forall i :: end <= i < |rows| ==> KeepsRow(rows[i], rows'[i + |added|], retired))
  }

  ghost predicate AddedHere(rows: seq<Row>, rows': seq<Row>, at: nat, end: nat, parentId: string, member: NewMember,
                            next: nat)
  {
    && StandsAt(rows, at, parentId) && IsBlock(rows, at, end)
    && AddedAndKept(rows, rows', at, end, WithIds(Proposed(member, rows[at].depth + 1), next))
  }

  /** Somewhere the proposed members were added. */
  ghost predicate AddedRows(rows: seq<Row>, rows': seq<Row>, parentId: string, member: NewMember, next: nat) {
    exists at: nat, end: nat :: AddedHere(rows, rows', at, end, parentId, member, next)
  }

  /**
    After an accepted addition the proposed members stand behind everything
    below their parent, in preorder, one level deeper, with their proposed
    details and the next numbers; every other member is stored as it was.
  */
  lemma AddedFields(schema: Schema, w: Workflow, parentId: string, member: NewMember, next: nat)
    requires Edit(schema, w, AddMember(parentId, member), next).Ok?
    ensures AddedRows(Rows(w.lead, 1), Rows(Edit(schema, w, AddMember(parentId, member), next).value.0.lead, 1),
                      parentId, member, next)
  {
    hide Edit, IsStored, AddsRows, AddedRows;
    var w' := Edit(schema, w, AddMember(parentId, member), next).value.0;
    EditIs(schema, w, AddMember(parentId, member), next);
    var payload :| IsPayload(w, AddMember(parentId, member), next, payload) && IsStored(payload, w');
    StoredRows(payload, w');
    AddedThenStored(Rows(w.lead, 1), Rows(payload.lead, 1), Rows(w'.lead, 1), parentId, member, next);
  }

  lemma AddedThenStored(rows: seq<Row>, middle: seq<Row>, rows': seq<Row>, parentId: string, member: NewMember,
                        next: nat)
    requires AddsRows(rows, middle, parentId, member, next) && |rows'| == |middle|
    requires forall i :: 0 <= i < |middle| ==> KeepsRow(middle[i], rows'[i], HasRetired(rows'))
    ensures AddedRows(rows, rows', parentId, member, next)
  {
    hide AddsHere, AddedHere, KeepsRow, HasRetired;
    var at: nat, end: nat :| AddsHere(rows, middle, at, end, parentId, member, next);
    AddedThenStoredHere(rows, middle, rows', at, end, parentId, member, next);
  }

  lemma AddedThenStoredHere(rows: seq<Row>, middle: seq<Row>, rows': seq<Row>, at: nat, end: nat, parentId: string,
                            member: NewMember, next: nat)
    requires AddsHere(rows, middle, at, end, parentId, member, next) && |rows'| == |middle|
    requires forall i :: 0 <= i < |middle| ==> KeepsRow(middle[i], rows'[i], HasRetired(rows'))
    ensures AddedHere(rows, rows', at, end, parentId, member, next)
  {
    hide HasRetired, KeepsRow, MemberId;
    var added := WithIds(Proposed(member, rows[at].depth + 1), next);
    forall k | 0 <= k < |added|
      ensures KeepsRow(added[k], rows'[end + k], HasRetired(rows')) && rows'[end + k].id == added[k].id
    {
      assert middle[end..end + |added|][k] == middle[end + k];
      NumberedIdIsKept(added[k], rows'[end + k], HasRetired(rows'), next + k);
    }
    forall i | end <= i < |rows| ensures KeepsRow(rows[i], rows'[i + |added|], HasRetired(rows')) {
      assert middle[end + |added|..][i - end] == middle[i + |added|];
    }
  }

  lemma NumberedIdIsKept(row: Row, row': Row, retired: bool, n: nat)
    requires KeepsRow(row, row', retired) && row.id == MemberId(n)
    ensures row'.id == row.id
  {
    hide MemberId, StoredProse, StoredLine;
    MemberIdIsPlain(n);
    NormalizeLinesReads(row.id);
  }

  /**
    After an accepted update of the workflow its id and members stay, and each
    of the two fields is what the patch says.
  */
  lemma UpdatedWorkflowFields(schema: Schema, w: Workflow, patch: WorkflowPatch, next: nat)
    requires Edit(schema, w, UpdateWorkflow(patch), next).Ok?
    ensures var w' := Edit(schema, w, UpdateWorkflow(patch), next).value.0;
      var wanted := Workflow(w.id, Wanted(w.description, patch.description), Wanted(w.note, patch.note), w.lead);
      if HasRetired(Rows(w.lead, 1)) then w' == wanted else IsNormalForm(wanted, w')
  {
    var w' := Edit(schema, w, UpdateWorkflow(patch), next).value.0;
    hide Edit, StoresRow, StoredProse, StoredLine, HasRetired;
    EditIs(schema, w, UpdateWorkflow(patch), next);
    var payload :| IsPayload(w, UpdateWorkflow(patch), next, payload) && IsStored(payload, w');
    RowsDetermineTree(payload.lead, w.lead, 1);
  }

  // ---------------------------------------------------------------- a new workflow

  const BARE_LEAD: NewMember := NewMember(NO_DETAILS, NoChildren)

  /**
    A new workflow stores the given id and texts, and the proposed members, or
    one bare lead, as member-1, member-2, ...
  */
  lemma NewWorkflowFields(schema: Schema, id: string, description: string, note: Option<string>,
                          lead: Option<NewMember>)
    returns (payload: Workflow)
    requires BuildNew(schema, id, description, note, lead).Ok?
    ensures payload.id == id && payload.description == Some(description) && payload.note == note
    ensures Rows(payload.lead, 1) == WithIds(Proposed(if lead.Some? then lead.value else BARE_LEAD, 1), 1)
    ensures IsStored(payload, BuildNew(schema, id, description, note, lead).value)
  {
    hide Accept, IsStored, WithIds, Proposed;
    var proposed := if lead.Some? then lead.value else BARE_LEAD;
    payload := Workflow(id, Some(description), note, Build(proposed, 1).0);
    BuildLists(proposed, 1, 1);
    AcceptStores(schema, payload);
  }

  /** A new workflow is accepted exactly if its payload is legal, normalizes to a sound one and fits the data model. */
  lemma NewWorkflowAcceptedIff(schema: Schema, id: string, description: string, note: Option<string>,
                               lead: Option<NewMember>, payload: Workflow)
    requires payload.id == id && payload.description == Some(description) && payload.note == note
    requires Rows(payload.lead, 1) == WithIds(Proposed(if lead.Some? then lead.value else BARE_LEAD, 1), 1)
    ensures BuildNew(schema, id, description, note, lead).Ok? <==>
      && LegalWorkflow(payload) && schema(NormalWorkflow(payload)) && Sound(NormalRows(Rows(payload.lead, 1)))
      && (HasRetired(Rows(payload.lead, 1)) ==> schema(payload))
  {
    hide Accept, WithIds, Proposed, LegalWorkflow, NormalWorkflow, Sound, HasRetired, NormalRows;
    var proposed := if lead.Some? then lead.value else BARE_LEAD;
    BuildLists(proposed, 1, 1);
    RowsDetermineTree(payload.lead, Build(proposed, 1).0, 1);
    Accepts(schema, payload);
  }
}
