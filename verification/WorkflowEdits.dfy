/**
  Editing a normalized workflow: workflows/operations.py on top of the rules of
  workflows/ingest.py. The data-model validation of a payload is a parameter.
*/
module WorkflowEdits {
  import opened Basics
  import opened Texts
  import opened MemberTree
  import opened MemberEdits
  import opened MemberIds
  import opened WorkflowRules

  /** A payload; a description may be missing here, and then the data model rejects it. */
  datatype Workflow = Workflow(id: string, description: Option<string>, note: Option<string>, lead: Member)

  type Schema = Workflow -> bool

  /** A field of a patch: not set, set to null, or set to a value. */
  datatype Change<T> = Keep | Clear | Set(value: T)

  datatype WorkflowPatch = WorkflowPatch(description: Change<string>, note: Change<string>)

  datatype MemberPatch = MemberPatch(title: Change<string>, description: Change<string>, instruction: Change<string>,
                                     provider: Change<Provider>, capabilities: Change<Capabilities>)

  datatype Operation =
    | UpdateWorkflow(patch: WorkflowPatch)
    | AddMember(parentId: string, member: NewMember)
    | UpdateMember(id: string, memberPatch: MemberPatch)
    | RemoveMember(removedId: string)

  datatype EditError =
    | MissingMember | LeadRemoval | IllegalText | SchemaViolation | Unsound(issue: Issue) | RetiredProvider

  /** `_apply_patch` on one key. */
  function Changed<T>(before: Option<T>, change: Change<T>): Option<T> {
    match change
    case Keep => before
    case Clear => None
    case Set(value) => Some(value)
  }

  function Patched(d: Details, patch: MemberPatch): Details {
    Details(Changed(d.title, patch.title), Changed(d.description, patch.description),
            Changed(d.instruction, patch.instruction), Changed(d.provider, patch.provider),
            Changed(d.capabilities, patch.capabilities))
  }

  // ---------------------------------------------------------------- normalization and acceptance

  predicate LegalChar(c: char) {
    c == '\t' || c == '\n' || c == '\r' || ' ' <= c <= '\U{D7FF}' || '\U{E000}' <= c <= '\U{FFFD}' || '\U{10000}' <= c
  }

  predicate Legal(text: string) {
    forall i :: 0 <= i < |text| ==> LegalChar(text[i])
  }

  predicate LegalOption(text: Option<string>) {
    text.Some? ==> Legal(text.value)
  }

  predicate LegalRow(row: Row) {
    && Legal(row.id) && LegalOption(row.details.title) && LegalOption(row.details.description)
    && LegalOption(row.details.instruction)
    && (row.details.provider.Some? && row.details.provider.value.Active? ==>
      LegalOption(row.details.provider.value.model))
  }

  /** `_validate_text` on every text of the payload. */
  predicate LegalWorkflow(w: Workflow) {
    && Legal(w.id) && LegalOption(w.description) && LegalOption(w.note)
    && var rows := Rows(w.lead, 1);
       forall i :: 0 <= i < |rows| ==> LegalRow(rows[i])
  }

  /** The texts of a member's row: its id, its prose and the model of its provider. */
  predicate RowHasText(row: Row, text: string) {
    || row.id == text
    || Some(text) in {row.details.title, row.details.description, row.details.instruction}
    || (row.details.provider.Some? && row.details.provider.value.Active? &&
      row.details.provider.value.model == Some(text))
  }

  ghost predicate HasText(w: Workflow, text: string) {
    || w.id == text
    || Some(text) in {w.description, w.note}
    || exists row :: row in Rows(w.lead, 1) && RowHasText(row, text)
  }

  lemma LegalRowIff(row: Row)
    ensures LegalRow(row) <==> forall text :: RowHasText(row, text) ==> Legal(text)
  {
    hide Legal;
    if forall text :: RowHasText(row, text) ==> Legal(text) {
      var d := row.details;
      assert RowHasText(row, row.id);
      assert d.title.Some? ==> RowHasText(row, d.title.value);
      assert d.description.Some? ==> RowHasText(row, d.description.value);
      assert d.instruction.Some? ==> RowHasText(row, d.instruction.value);
      assert d.provider.Some? && d.provider.value.Active? && d.provider.value.model.Some? ==>
        RowHasText(row, d.provider.value.model.value);
    }
  }

  /** A payload is legal exactly if every text anywhere in it is. */
  lemma LegalWorkflowIff(w: Workflow)
    ensures LegalWorkflow(w) <==> forall text :: HasText(w, text) ==> Legal(text)
  {
    hide Legal, LegalRow, RowHasText;
    var rows := Rows(w.lead, 1);
    forall i | 0 <= i < |rows|
      ensures LegalRow(rows[i]) <==> forall text :: RowHasText(rows[i], text) ==> Legal(text)
    {
      LegalRowIff(rows[i]);
    }
    if forall text :: HasText(w, text) ==> Legal(text) {
      assert HasText(w, w.id);
      assert w.description.Some? ==> HasText(w, w.description.value);
      assert w.note.Some? ==> HasText(w, w.note.value);
      forall i, text | 0 <= i < |rows| && RowHasText(rows[i], text) ensures Legal(text) {
        assert rows[i] in rows;
        assert HasText(w, text);
      }
    }
  }

  function NormalWorkflow(w: Workflow): Workflow {
    Workflow(NormalizeLines(w.id), NormalText(w.description), NormalProse(w.note), NormalMember(w.lead))
  }

  /** `normalize_workflow_object`. */
  function NormalizeObject(schema: Schema, payload: Workflow): Result<Workflow, EditError> {
    if !LegalWorkflow(payload) then Err(IllegalText)
    else
      var normal := NormalWorkflow(payload);
      if !schema(normal) then Err(SchemaViolation)
      else
        match Scan(Rows(normal.lead, 1), 0, {})
        case Some(issue) => Err(Unsound(issue))
        case None => if HasRetired(Rows(normal.lead, 1)) then Err(RetiredProvider) else Ok(normal)
  }

  /** `_normalize_edited_workflow`: a payload that only retired providers speak against is kept as it is. */
  function Accept(schema: Schema, payload: Workflow): Result<Workflow, EditError> {
    match NormalizeObject(schema, payload)
    case Ok(normal) => Ok(normal)
    case Err(e) =>
      if e != RetiredProvider then Err(e)
      else if schema(payload) then Ok(payload) else Err(SchemaViolation)
  }

  /** What an accepted payload is, in terms of the listing. */
  lemma Accepts(schema: Schema, payload: Workflow)
    ensures var rows := Rows(payload.lead, 1);
      && (Accept(schema, payload).Ok? <==>
           && LegalWorkflow(payload) && schema(NormalWorkflow(payload)) && Sound(NormalRows(rows))
           && (HasRetired(rows) ==> schema(payload)))
      && (Accept(schema, payload).Ok? ==>
           var accepted := Accept(schema, payload).value;
           && Sound(Rows(accepted.lead, 1))
           && schema(accepted)
           && Rows(accepted.lead, 1) == (if HasRetired(rows) then rows else NormalRows(rows)))
  {
    hide LegalWorkflow, HasRetired, Sound;
    var rows := Rows(payload.lead, 1);
    NormalMemberRows(payload.lead, 1);
    RetiredStays(rows);
    ScanIff(NormalRows(rows), 0, {});
    SoundIff(NormalRows(rows));
    if Sound(NormalRows(rows)) { SoundBeforeNormalizing(rows); }
  }

  /** What normalization without the fallback returns: the normalized payload, sound and with active providers only. */
  lemma Normalizes(schema: Schema, payload: Workflow)
    ensures var rows := Rows(payload.lead, 1);
      && (NormalizeObject(schema, payload).Ok? <==>
           LegalWorkflow(payload) && schema(NormalWorkflow(payload)) && Sound(NormalRows(rows)) && !HasRetired(rows))
      && (NormalizeObject(schema, payload).Ok? ==>
           var normal := NormalizeObject(schema, payload).value;
           && schema(normal) && Rows(normal.lead, 1) == NormalRows(rows)
           && Sound(Rows(normal.lead, 1)) && !HasRetired(Rows(normal.lead, 1)))
  {
    hide LegalWorkflow, HasRetired, Sound;
    var rows := Rows(payload.lead, 1);
    NormalMemberRows(payload.lead, 1);
    RetiredStays(rows);
    ScanIff(NormalRows(rows), 0, {});
    SoundIff(NormalRows(rows));
  }

  lemma SoundIff(rows: seq<Row>)
    ensures Sound(rows) <==>
      && 0 + |rows| <= MAX_MEMBERS
      && DistinctIds(rows)
      && (forall i :: 0 <= i < |rows| ==>
           rows[i].depth <= MAX_MEMBER_DEPTH && RequestsDiffer(rows[i].details) && rows[i].id !in {})
  {}

  // ---------------------------------------------------------------- the operations

  /** The edited payload and the next free member number, before acceptance. */
  function ApplyOperation(w: Workflow, op: Operation, next: nat): Result<(Workflow, nat), EditError> {
    match op
    case UpdateWorkflow(patch) =>
      Ok((w.(description := Changed(w.description, patch.description), note := Changed(w.note, patch.note)), next))
    case AddMember(parentId, member) =>
      (match Find(w.lead, parentId)
       case None => Err(MissingMember)
       case Some(parent) =>
         var (built, next') := Build(member, next);
         Ok((w.(lead := OrSame(w.lead, Replace(w.lead, parentId, Append(parent, built)))), next')))
    case UpdateMember(id, patch) =>
      (match Find(w.lead, id)
       case None => Err(MissingMember)
       case Some(found) =>
         Ok((w.(lead := OrSame(w.lead, Replace(w.lead, id, found.(details := Patched(found.details, patch))))), next)))
    case RemoveMember(id) =>
      if id == w.lead.id then Err(LeadRemoval)
      else
        match Remove(w.lead, id)
        case None => Err(MissingMember)
        case Some(lead) => Ok((w.(lead := lead), next))
  }

  function OrSame(lead: Member, changed: Option<Member>): Member {
    match changed case None => lead case Some(m) => m
  }

  /** `edit_normalized_workflow`. */
  function Edit(schema: Schema, w: Workflow, op: Operation, next: nat): Result<(Workflow, nat), EditError> {
    match ApplyOperation(w, op, next)
    case Err(e) => Err(e)
    case Ok((payload, next')) =>
      match Accept(schema, payload)
      case Err(e) => Err(e)
      case Ok(accepted) => Ok((accepted, next'))
  }

  // ---------------------------------------------------------------- the same on listings

  /** Whether the operation has something to work on. */
  predicate Applicable(rows: seq<Row>, op: Operation) {
    match op
    case UpdateWorkflow(_) => true
    case AddMember(parentId, _) => Has(rows, parentId)
    case UpdateMember(id, _) => Has(rows, id)
    case RemoveMember(id) => rows != [] && rows[0].id != id && Has(rows, id)
  }

  function EditRows(rows: seq<Row>, op: Operation, next: nat): seq<Row>
    requires Applicable(rows, op)
  {
    match op
    case UpdateWorkflow(_) => rows
    case AddMember(parentId, member) => AddRows(rows, parentId, Build(member, next).0)
    case UpdateMember(id, patch) => UpdateRow(rows, id, Patched(rows[IndexOf(rows, id)].details, patch))
    case RemoveMember(id) => RemoveRows(rows, id)
  }

  /** The tree edit refines the listing edit, and refuses exactly when the listing edit does not apply. */
  lemma ApplyRefines(w: Workflow, op: Operation, next: nat)
    ensures var rows := Rows(w.lead, 1);
      && (ApplyOperation(w, op, next).Ok? <==> Applicable(rows, op))
      && (ApplyOperation(w, op, next).Ok? ==>
        Rows(ApplyOperation(w, op, next).value.0.lead, 1) == EditRows(rows, op, next))
  {
    hide UpdateRow, AddRows, RemoveRows, Has, Append;
    match op
    case UpdateWorkflow(_) =>
    case AddMember(parentId, member) =>
      HasIff(w.lead, 1, parentId);
      if Find(w.lead, parentId).Some? { AddRefines(w.lead, 1, parentId, Build(member, next).0); }
    case UpdateMember(id, patch) =>
      HasIff(w.lead, 1, id);
      if Find(w.lead, id).Some? {
        var found := Find(w.lead, id).value;
        FoundDetails(w.lead, id);
        UpdateRefines(w.lead, 1, id, Patched(found.details, patch));
      }
    case RemoveMember(id) =>
      HasIff(w.lead, 1, id);
      if w.lead.id != id {
        if Find(w.lead, id).Some? { RemoveRefines(w.lead, 1, id); } else { NoSplice(w.lead, id, []); }
      }
  }

  lemma FoundDetails(m: Member, id: string)
    requires Find(m, id).Some?
    ensures Has(Rows(m, 1), id)
    ensures Rows(m, 1)[IndexOf(Rows(m, 1), id)].details == Find(m, id).value.details
  {
    FindIff(m, 1, id);
    var place := ReplaceFrames(m, 1, id, m);
    FrameIsBlock(place, Rows(m, 1), Find(m, id).value);
  }

  /**
    What an accepted edit returns: the listing edit, normalized row by row unless
    a retired provider remains; in both cases at most 256 members with distinct
    ids at depth at most 12.
  */
  lemma EditRefines(schema: Schema, w: Workflow, op: Operation, next: nat)
    ensures var rows := Rows(w.lead, 1);
      && (Edit(schema, w, op, next).Ok? ==>
           var (w', next') := Edit(schema, w, op, next).value;
           && Applicable(rows, op)
           && (var target := EditRows(rows, op, next);
               && Rows(w'.lead, 1) == (if HasRetired(target) then target else NormalRows(target))
               && Sound(Rows(w'.lead, 1)) && Sound(NormalRows(target)))
           && schema(w'))
      && (!Applicable(rows, op) ==>
           Edit(schema, w, op, next) ==
             Err(if op.RemoveMember? && op.removedId == w.lead.id then LeadRemoval else MissingMember))
  {
    hide Accept, EditRows, Sound, HasRetired, Applicable;
    ApplyRefines(w, op, next);
    RefusalsAre(w, op, next);
    if ApplyOperation(w, op, next).Ok? { Accepts(schema, ApplyOperation(w, op, next).value.0); }
  }

  lemma RefusalsAre(w: Workflow, op: Operation, next: nat)
    ensures ApplyOperation(w, op, next).Err? ==>
      ApplyOperation(w, op, next).error ==
        if op.RemoveMember? && op.removedId == w.lead.id then LeadRemoval else MissingMember
  {}

  // ---------------------------------------------------------------- other members

  /** Whether row `i` of the listing is one that the operation is about. */
  predicate Touched(rows: seq<Row>, op: Operation, i: nat)
    requires Applicable(rows, op) && i < |rows|
  {
    match op
    case UpdateWorkflow(_) => false
    case AddMember(parentId, _) => i == IndexOf(rows, parentId)
    case UpdateMember(id, _) => i == IndexOf(rows, id)
    case RemoveMember(id) => IndexOf(rows, id) <= i < BlockEnd(rows, IndexOf(rows, id))
  }

  /** Where an untouched row stands after the operation: rows behind an added or removed block move by its size. */
  function Moved(rows: seq<Row>, op: Operation, next: nat, i: nat): int
    requires Applicable(rows, op) && i < |rows|
  {
    match op
    case UpdateWorkflow(_) => i
    case AddMember(parentId, member) =>
      var p := IndexOf(rows, parentId);
      if i < BlockEnd(rows, p) then i else i + |Rows(Build(member, next).0, rows[p].depth + 1)|
    case UpdateMember(_, _) => i
    case RemoveMember(id) =>
      var p := IndexOf(rows, id);
      if i < p then i else i - (BlockEnd(rows, p) - p)
  }

  /** The listing edit leaves every other row as it is, and in order. */
  lemma OthersStay(rows: seq<Row>, op: Operation, next: nat, i: nat)
    requires Applicable(rows, op) && i < |rows| && !Touched(rows, op, i)
    ensures 0 <= Moved(rows, op, next, i) < |EditRows(rows, op, next)|
    ensures EditRows(rows, op, next)[Moved(rows, op, next, i)] == rows[i]
  {
    hide EditRows, Moved, Touched, Applicable;
    match op
    case UpdateWorkflow(_) => UpdateLeavesOthers(rows, op, next, i);
    case UpdateMember(_, _) => UpdateLeavesOthers(rows, op, next, i);
    case AddMember(_, _) => AddLeavesOthers(rows, op, next, i);
    case RemoveMember(_) => RemoveLeavesOthers(rows, op, next, i);
  }

  lemma UpdateLeavesOthers(rows: seq<Row>, op: Operation, next: nat, i: nat)
    requires op.UpdateWorkflow? || op.UpdateMember?
    requires Applicable(rows, op) && i < |rows| && !Touched(rows, op, i)
    ensures Moved(rows, op, next, i) == i < |EditRows(rows, op, next)|
    ensures EditRows(rows, op, next)[i] == rows[i]
  {}

  lemma AddLeavesOthers(rows: seq<Row>, op: Operation, next: nat, i: nat)
    requires op.AddMember? && Applicable(rows, op) && i < |rows| && !Touched(rows, op, i)
    ensures 0 <= Moved(rows, op, next, i) < |EditRows(rows, op, next)|
    ensures EditRows(rows, op, next)[Moved(rows, op, next, i)] == rows[i]
  {}

  lemma RemoveLeavesOthers(rows: seq<Row>, op: Operation, next: nat, i: nat)
    requires op.RemoveMember? && Applicable(rows, op) && i < |rows| && !Touched(rows, op, i)
    ensures 0 <= Moved(rows, op, next, i) < |EditRows(rows, op, next)|
    ensures EditRows(rows, op, next)[Moved(rows, op, next, i)] == rows[i]
  {}

  lemma OthersStayInOrder(rows: seq<Row>, op: Operation, next: nat, i: nat, j: nat)
    requires Applicable(rows, op) && i < j < |rows| && !Touched(rows, op, i) && !Touched(rows, op, j)
    ensures Moved(rows, op, next, i) < Moved(rows, op, next, j)
  {}

  /**
    An accepted edit leaves another member's row exactly as it was if and only
    if that row was already normalized, or a retired provider remains and keeps
    the payload from being normalized.
  */
  lemma OtherMemberUnchangedIff(schema: Schema, w: Workflow, op: Operation, next: nat, i: nat)
    requires Edit(schema, w, op, next).Ok?
    requires Applicable(Rows(w.lead, 1), op) && i < |Rows(w.lead, 1)| && !Touched(Rows(w.lead, 1), op, i)
    ensures var rows := Rows(w.lead, 1);
      var rows' := Rows(Edit(schema, w, op, next).value.0.lead, 1);
      var k := Moved(rows, op, next, i);
      && 0 <= k < |rows'|
      && (rows'[k] == rows[i] <==> HasRetired(EditRows(rows, op, next)) || IsNormal(rows[i]))
  {
    hide Edit, EditRows, Moved, Applicable, Sound, HasRetired, Touched, IsNormal;
    var rows := Rows(w.lead, 1);
    EditRefines(schema, w, op, next);
    OthersStay(rows, op, next, i);
    NormalRowFixed(rows[i]);
  }

  const NO_CHANGE: MemberPatch := MemberPatch(Keep, Keep, Keep, Keep, Keep)
  const NO_DETAILS: Details := Details(None, None, None, None, None)

  function Child(title: Option<string>): Member {
    Member("b", NO_DETAILS.(title := title), Omitted)
  }

  function Pair(provider: Option<Provider>, title: Option<string>): Workflow {
    Workflow("w", Some("d"), None, Member("lead", NO_DETAILS.(provider := provider), Listed([Child(title)])))
  }

  /**
    It does happen: while the lead's provider is retired, any title with a
    carriage return is stored as it is; clearing the lead's provider later
    rewrites that title, which belongs to a member the second operation does
    not name.
  */
  lemma RepairChangesAnotherMember(title: string, next: nat)
    requires Legal(title) && '\r' in title
    ensures var any: Schema := w => true;
      var stored := Pair(Some(Retired), Some(title));
      && Edit(any, Pair(Some(Retired), None), UpdateMember("b", NO_CHANGE.(title := Set(title))), next) ==
        Ok((stored, next))
      && Edit(any, stored, UpdateMember("lead", NO_CHANGE.(provider := Clear)), next)
           == Ok((NormalWorkflow(Pair(None, Some(title))), next))
      && Rows(NormalWorkflow(Pair(None, Some(title))).lead, 1)[1..] != Rows(stored.lead, 1)[1..]
  {
    hide Accept, NormalProse, NormalizeLines, Legal;
    SetTitle(title, next);
    AcceptsPair(Some(Retired), Some(title));
    AcceptsPair(None, Some(title));
    assert ApplyOperation(Pair(Some(Retired), Some(title)), UpdateMember("lead", NO_CHANGE.(provider := Clear)), next)
      == Ok((Pair(None, Some(title)), next));
    NormalMemberRows(Pair(None, Some(title)).lead, 1);
    PairRows(None, Some(title));
    PairRows(Some(Retired), Some(title));
    NormalProseFixed(Some(title));
    assert Rows(NormalWorkflow(Pair(None, Some(title))).lead, 1)[1..][0] != Top(Child(Some(title)), 2);
  }

  lemma SetTitle(title: string, next: nat)
    ensures ApplyOperation(Pair(Some(Retired), None), UpdateMember("b", NO_CHANGE.(title := Set(title))), next)
      == Ok((Pair(Some(Retired), Some(title)), next))
  {
    var lead := Pair(Some(Retired), None).lead;
    var changed := Child(None).(details := Patched(Child(None).details, NO_CHANGE.(title := Set(title))));
    assert changed == Child(Some(title));
    assert Find(Child(None), "b") == Some(Child(None));
    assert FindIn([Child(None)], "b") == Some(Child(None));
    assert SpliceIn([Child(None)], "b", [changed]) == Some([changed] + [Child(None)][1..]);
    assert [changed] + [Child(None)][1..] == [changed];
  }

  lemma PairRows(provider: Option<Provider>, title: Option<string>)
    ensures Rows(Pair(provider, title).lead, 1) == [Top(Pair(provider, title).lead, 1), Top(Child(title), 2)]
  {
    assert RowsOf([Child(title)], 2) == Rows(Child(title), 2);
  }

  lemma AcceptsPair(provider: Option<Provider>, title: Option<string>)
    requires LegalOption(title) && provider in {None, Some(Retired)}
    ensures Accept(w => true, Pair(provider, title)) ==
      Ok(if provider == Some(Retired) then Pair(provider, title) else NormalWorkflow(Pair(provider, title)))
  {
    hide NormalProse, NormalizeLines;
    var w := Pair(provider, title);
    var rows := Rows(w.lead, 1);
    PairRows(provider, title);
    PairSound(provider, title);
    assert LegalWorkflow(w);
    NormalMemberRows(w.lead, 1);
    RetiredStays(rows);
    ScanIff(NormalRows(rows), 0, {});
    SoundIff(NormalRows(rows));
    if provider == Some(Retired) { assert rows[0].details.provider == Some(Retired); }
  }

  lemma PairSound(provider: Option<Provider>, title: Option<string>)
    ensures Sound(NormalRows(Rows(Pair(provider, title).lead, 1)))
  {
    hide NormalProse, NormalizeLines;
    PairRows(provider, title);
    NormalizeLinesFixed("b");
    NormalizeLinesFixed("lead");
    var rows := NormalRows(Rows(Pair(provider, title).lead, 1));
    assert rows[0].id == "lead" && rows[1].id == "b";
  }

  // ---------------------------------------------------------------- member numbers

  ghost predicate InBlock(built: Member, row: Row) {
    exists d: nat :: row in Rows(built, d)
  }

  /** Every row of the edited listing has an id of the old listing or belongs to the added block. */
  lemma EditedIds(rows: seq<Row>, op: Operation, next: nat, row: Row)
    requires Applicable(rows, op) && row in EditRows(rows, op, next)
    ensures row.id in IdSet(rows) || (op.AddMember? && InBlock(Build(op.member, next).0, row))
  {
    hide InBlock, IdSet, AddRows;
    IdsOfRows(rows);
    match op
    case UpdateWorkflow(_) =>
    case AddMember(parentId, member) => AddedIds(rows, parentId, Build(member, next).0, row);
    case UpdateMember(id, patch) =>
      var k :| 0 <= k < |rows| && EditRows(rows, op, next)[k] == row;
      assert rows[k] in rows;
    case RemoveMember(id) => assert row in rows;
  }

  lemma IdsOfRows(rows: seq<Row>)
    ensures forall row :: row in rows ==> row.id in IdSet(rows)
  {}

  lemma AddedIds(rows: seq<Row>, parentId: string, built: Member, row: Row)
    requires Has(rows, parentId) && row in AddRows(rows, parentId, built)
    ensures row.id in IdSet(rows) || InBlock(built, row)
  {
    hide InBlock, IdSet;
    IdsOfRows(rows);
    var i := IndexOf(rows, parentId);
    var end := BlockEnd(rows, i);
    var added := Rows(built, rows[i].depth + 1);
    assert rows[i] in rows;
    if row in added {
      BlockHas(built, rows[i].depth + 1, row);
    } else {
      assert row in rows[..i] || row == rows[i].(listsChildren := true) || row in rows[i + 1..end]
        || row in rows[end..];
    }
  }

  lemma BlockHas(built: Member, d: nat, row: Row)
    requires row in Rows(built, d)
    ensures InBlock(built, row)
  {}

  lemma {:induction false} LinesKeepReturns(s: string)
    ensures '\r' in s ==> '\n' in NormalizeLines(s)
  {
    var t := ReplaceCrLf(s);
    if s != [] {
      if |s| >= 2 && s[0] == '\r' && s[1] == '\n' {
        assert NormalizeLines(s)[0] == '\n';
      } else {
        LinesKeepReturns(s[1..]);
        assert t == [s[0]] + ReplaceCrLf(s[1..]);
        assert NormalizeLines(s) == [if s[0] == '\r' then '\n' else s[0]] + NormalizeLines(s[1..]);
      }
    }
  }

  /** Normalizing line ends neither makes nor changes a numbered id. */
  lemma NormalNumber(id: string)
    ensures NumberOf(NormalizeLines(id)).Some? ==> NormalizeLines(id) == id
  {
    var normal := NormalizeLines(id);
    if NumberOf(normal).Some? {
      assert normal == PREFIX + normal[|PREFIX|..];
      assert forall i :: 0 <= i < |normal| ==>
        normal[i] == (if i < |PREFIX| then PREFIX[i] else normal[|PREFIX|..][i - |PREFIX|]);
      assert '\n' !in PREFIX;
      assert '\n' !in normal;
      LinesKeepReturns(id);
      NormalizeLinesFixed(id);
    }
  }

  lemma NormalNumbersBelow(rows: seq<Row>, next: nat)
    requires NumbersBelow(rows, next)
    ensures NumbersBelow(NormalRows(rows), next)
  {
    forall i | 0 <= i < |rows| && NumberOf(NormalRows(rows)[i].id).Some?
      ensures NumberOf(NormalRows(rows)[i].id).value < next
    {
      NormalNumber(rows[i].id);
    }
  }

  lemma EditedNumbersBelow(rows: seq<Row>, op: Operation, next: nat)
    requires Applicable(rows, op) && NumbersBelow(rows, next)
    ensures var next' := if op.AddMember? then Build(op.member, next).1 else next;
      next <= next' && NumbersBelow(EditRows(rows, op, next), next')
  {
    hide EditRows, Applicable, NumberOf, InBlock;
    var next' := if op.AddMember? then Build(op.member, next).1 else next;
    if op.AddMember? { BuildIsConsecutive(op.member, next, 0); }
    var target := EditRows(rows, op, next);
    forall i | 0 <= i < |target| && NumberOf(target[i].id).Some? ensures NumberOf(target[i].id).value < next' {
      EditedIds(rows, op, next, target[i]);
      if target[i].id !in IdSet(rows) {
        BlockNumbers(op.member, next, rows, target[i]);
      }
    }
  }

  lemma BlockNumbers(m: NewMember, next: nat, rows: seq<Row>, row: Row)
    requires NumbersBelow(rows, next) && InBlock(Build(m, next).0, row) && NumberOf(row.id).Some?
    ensures NumberOf(row.id).value < Build(m, next).1
  {
    var d: nat :| row in Rows(Build(m, next).0, d);
    BuiltIdsAreFresh(m, next, d, rows);
    var j :| 0 <= j < |Rows(Build(m, next).0, d)| && Rows(Build(m, next).0, d)[j] == row;
  }

  /** A next number above every number of the tree stays above them, and never falls. */
  lemma EditKeepsNumbers(schema: Schema, w: Workflow, op: Operation, next: nat)
    requires NumbersBelow(Rows(w.lead, 1), next) && Edit(schema, w, op, next).Ok?
    ensures var (w', next') := Edit(schema, w, op, next).value;
      next <= next' && NumbersBelow(Rows(w'.lead, 1), next')
  {
    hide NumbersBelow, EditRows, Applicable, Accept, HasRetired, Sound;
    var rows := Rows(w.lead, 1);
    EditRefines(schema, w, op, next);
    EditedNumbersBelow(rows, op, next);
    NormalNumbersBelow(EditRows(rows, op, next), Edit(schema, w, op, next).value.1);
  }

  // ---------------------------------------------------------------- the operations on a payload

  /** `edit_normalized_workflow`: edits a private copy step by step, then has it accepted. */
  method EditNormalizedWorkflow(schema: Schema, w: Workflow, op: Operation, allocator: MemberIdAllocator)
    returns (r: Result<Workflow, EditError>)
    modifies allocator
    ensures match Edit(schema, w, op, old(allocator.next))
      case Ok((w', next')) => r == Ok(w') && allocator.next == next'
      case Err(e) => r == Err(e)
  {
    var payload := w;
    match op {
      case UpdateWorkflow(patch) =>
        payload := payload.(description := Changed(w.description, patch.description));
        payload := payload.(note := Changed(w.note, patch.note));
      case AddMember(parentId, member) =>
        var parent := Find(payload.lead, parentId);
        if parent.None? { return Err(MissingMember); }
        var built := allocator.NewMemberPayload(member);
        payload := payload.(lead := OrSame(w.lead, Replace(w.lead, parentId, Append(parent.value, built))));
      case UpdateMember(id, patch) =>
        var found := Find(payload.lead, id);
        if found.None? { return Err(MissingMember); }
        var changed := found.value.(details := Patched(found.value.details, patch));
        payload := payload.(lead := OrSame(w.lead, Replace(w.lead, id, changed)));
      case RemoveMember(id) =>
        if id == w.lead.id { return Err(LeadRemoval); }
        var lead, removed := MemberEdits.RemoveMember(payload.lead, id);
        if !removed { return Err(MissingMember); }
        payload := payload.(lead := lead);
    }
    r := Accept(schema, payload);
  }

  /** `build_new_workflow`. */
  function BuildNew(schema: Schema, id: string, description: string, note: Option<string>, lead: Option<NewMember>)
    : Result<Workflow, EditError>
  {
    var proposed := if lead.Some? then lead.value else NewMember(Details(None, None, None, None, None), NoChildren);
    Accept(schema, Workflow(id, Some(description), note, Build(proposed, 1).0))
  }

  /** A new workflow's members are member-1, member-2, ... in preorder. */
  lemma NewWorkflowIds(schema: Schema, id: string, description: string, note: Option<string>, lead: Option<NewMember>)
    requires BuildNew(schema, id, description, note, lead).Ok?
    ensures var rows := Rows(BuildNew(schema, id, description, note, lead).value.lead, 1);
      Consecutive(rows, 1) && Sound(rows)
  {
    var proposed := if lead.Some? then lead.value else NewMember(Details(None, None, None, None, None), NoChildren);
    var payload := Workflow(id, Some(description), note, Build(proposed, 1).0);
    Accepts(schema, payload);
    BuildIsConsecutive(proposed, 1, 1);
    var rows := Rows(payload.lead, 1);
    forall i | 0 <= i < |rows| ensures NormalRows(rows)[i].id == MemberId(1 + i) {
      MemberIdIsPlain(1 + i);
    }
  }

  lemma MemberIdIsPlain(n: nat)
    ensures NormalizeLines(MemberId(n)) == MemberId(n)
  {
    var id := MemberId(n);
    forall i | 0 <= i < |id| ensures id[i] != '\r' {
      if i >= |PREFIX| { assert id[i] == Decimal.Format(n)[i - |PREFIX|]; }
    }
    NormalizeLinesFixed(id);
  }
}
