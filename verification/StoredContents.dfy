/**
  The texts of everything stored, over every run: a content is in normal form
  unless a retired provider is in it. So what a user publishes is exactly the
  draft that the user read.
*/
module StoredContents {
  import opened Basics
  import opened Texts
  import opened MemberTree
  import opened MemberIds
  import opened WorkflowRules
  import opened WorkflowEdits
  import opened WorkflowFields
  import opened Publication
  import opened DraftProtocol
  import opened DraftInvariant
  import opened DraftRuns
  import opened DraftContents

  /** Normalizing the workflow again would change nothing. */
  ghost predicate InNormalForm(w: Workflow) {
    IsNormalForm(w, w)
  }

  /** A content that editing and importing leave behind. */
  ghost predicate Settled(w: Workflow) {
    HasRetired(Rows(w.lead, 1)) || InNormalForm(w)
  }

  // ---------------------------------------------------------------- normal forms

  lemma {:induction false} OneLineEndHasNoReturn(s: string, afterReturn: bool)
    ensures '\r' !in OneLineEnd(s, afterReturn)
  {
    if s != [] { OneLineEndHasNoReturn(s[1..], !(s[0] == '\n' && afterReturn) && s[0] == '\r'); }
  }

  lemma StoredTwice(text: Option<string>)
    ensures StoredLine(StoredLine(text)) == StoredLine(text)
    ensures StoredProse(StoredProse(text)) == StoredProse(text)
  {
    hide Blank, NormalizeLines;
    if text.Some? {
      OneLineEndHasNoReturn(text.value, false);
      NormalizeLinesReads(OneLineEnd(text.value, false));
      NormalizeLinesFixed(OneLineEnd(text.value, false));
      OneLineEndBlank(text.value, false);
    }
  }

  lemma IdStoredTwice(id: string)
    ensures OneLineEnd(OneLineEnd(id, false), false) == OneLineEnd(id, false)
  {
    StoredTwice(Some(id));
    assert StoredLine(Some(id)) == Some(OneLineEnd(id, false));
  }

  lemma RowStoredTwice(row: Row, row': Row)
    requires StoresRow(row, row')
    ensures StoresRow(row', row')
  {
    hide StoredLine, StoredProse, OneLineEnd;
    IdStoredTwice(row.id);
    StoredTwice(row.details.title);
    StoredTwice(row.details.description);
    StoredTwice(row.details.instruction);
    if row.details.provider.Some? && row.details.provider.value.Active? {
      StoredTwice(row.details.provider.value.model);
    }
  }

  /** A normal form is its own normal form, and a payload has only one. */
  lemma NormalFormTwice(payload: Workflow, w: Workflow)
    requires IsNormalForm(payload, w)
    ensures InNormalForm(w)
  {
    hide StoredLine, StoredProse, OneLineEnd, StoresRow;
    IdStoredTwice(payload.id);
    StoredTwice(payload.description);
    StoredTwice(payload.note);
    var rows, rows' := Rows(payload.lead, 1), Rows(w.lead, 1);
    forall i | 0 <= i < |rows'| ensures StoresRow(rows'[i], rows'[i]) { RowStoredTwice(rows[i], rows'[i]); }
  }

  lemma RowStoredOnce(row: Row, a: Row, b: Row)
    requires StoresRow(row, a) && StoresRow(row, b)
    ensures a == b
  {
    hide StoredLine, StoredProse, OneLineEnd;
  }

  lemma NormalFormIsUnique(payload: Workflow, a: Workflow, b: Workflow)
    requires IsNormalForm(payload, a) && IsNormalForm(payload, b)
    ensures a == b
  {
    hide StoredLine, StoredProse, OneLineEnd, StoresRow;
    var rows, rowsA, rowsB := Rows(payload.lead, 1), Rows(a.lead, 1), Rows(b.lead, 1);
    forall i | 0 <= i < |rows| ensures rowsA[i] == rowsB[i] { RowStoredOnce(rows[i], rowsA[i], rowsB[i]); }
    RowsDetermineTree(a.lead, b.lead, 1);
  }

  lemma StoredIsSettled(payload: Workflow, w: Workflow)
    requires IsStored(payload, w)
    ensures Settled(w)
  {
    hide IsNormalForm;
    if !HasRetired(Rows(payload.lead, 1)) { NormalFormTwice(payload, w); }
  }

  // ---------------------------------------------------------------- every stored content

  /** Every draft, every content a receipt can bring back, and every revision. */
  ghost predicate ContentsSettled(st: Store) {
    && (forall id :: id in st.drafts ==> Settled(st.drafts[id].content))
    && (forall r :: r in st.receipts ==> Settled(st.receipts[r].previousContent))
    && (forall key :: RevisionsNormal(RevisionsOf(st.registry, key)))
  }

  ghost predicate RevisionsNormal(rows: seq<Revision>) {
    forall i :: 0 <= i < |rows| ==> InNormalForm(rows[i].content)
  }

  lemma ReplacementSettles(env: Env, st: Store, st': Store, id: nat, w: Workflow, receiptId: nat)
    requires ContentsSettled(st) && Replaces(env, st, st', id, w, receiptId) && Settled(w)
    ensures ContentsSettled(st')
  {
    hide Settled, RevisionsNormal;
  }

  lemma InsertionSettles(env: Env, st: Store, st': Store, id: nat, w: Workflow, base: Option<nat>)
    requires ContentsSettled(st) && Inserts(env, st, st', id, w, base) && Settled(w)
    ensures ContentsSettled(st')
  {
    hide Settled, RevisionsNormal, NumbersBelow;
    forall key ensures RevisionsNormal(RevisionsOf(st'.registry, key)) {
      assert RevisionsOf(st'.registry, key) == RevisionsOf(st.registry, key);
    }
  }

  lemma DeletionSettles(st: Store, st': Store, id: nat)
    requires ContentsSettled(st) && Deletes(st, st', id)
    requires forall key :: RevisionsNormal(RevisionsOf(st'.registry, key))
    ensures ContentsSettled(st')
  {
    hide Settled, RevisionsNormal;
  }

  lemma PublicationSettles(env: Env, registry: Registry, registry': Registry, w: Workflow, provenance: Provenance,
                           no: nat)
    requires forall key :: RevisionsNormal(RevisionsOf(registry, key))
    requires AddsRevision(env, registry, registry', w, provenance, no) && InNormalForm(w)
    ensures forall key :: RevisionsNormal(RevisionsOf(registry', key))
  {
    hide InNormalForm;
    forall key ensures RevisionsNormal(RevisionsOf(registry', key)) {
      assert RevisionsNormal(RevisionsOf(registry, key));
    }
  }

  lemma EditSettles(env: Env, st: Store, id: nat, etag: nat, op: Operation)
    requires Inv(env, st) && ContentsSettled(st)
    ensures ContentsSettled(EditDraft(st, env, id, etag, op).0)
  {
    hide Inv, EditDraft, Edit, Replaces, ContentsSettled, Settled, IsPayload, IsStored;
    EditStores(env, st, id, etag, op);
    var (st', r) := EditDraft(st, env, id, etag, op);
    if r.Ok? {
      var w := Edit(env.schema, st.drafts[id].content, op, st.drafts[id].next).value.0;
      EditIs(env.schema, st.drafts[id].content, op, st.drafts[id].next);
      var payload :| IsPayload(st.drafts[id].content, op, st.drafts[id].next, payload) && IsStored(payload, w);
      StoredIsSettled(payload, w);
      ReplacementSettles(env, st, st', id, w, r.value);
    }
  }

  lemma UndoSettles(env: Env, st: Store, id: nat, etag: nat, receiptId: nat)
    requires Inv(env, st) && ContentsSettled(st)
    ensures ContentsSettled(UndoDraft(st, env, id, etag, receiptId).0)
  {
    hide Inv, UndoDraft, Settled, RevisionsNormal, NewEtag;
    UndoStores(env, st, id, etag, receiptId);
  }

  lemma DiscardSettles(env: Env, st: Store, id: nat, etag: nat)
    requires Inv(env, st) && ContentsSettled(st)
    ensures ContentsSettled(DiscardDraft(st, env, id, etag).0)
  {
    hide Inv, DiscardDraft, Deletes, Settled, RevisionsNormal;
    DiscardDeletes(env, st, id, etag);
    var (st', r) := DiscardDraft(st, env, id, etag);
    if r.Ok? { DeletionSettles(st, st', id); }
  }

  lemma OpenNewSettles(env: Env, st: Store, id: string, description: string, note: Option<string>,
                       lead: Option<NewMember>)
    requires Inv(env, st) && ContentsSettled(st)
    ensures ContentsSettled(OpenNew(st, env, id, description, note, lead).0)
  {
    hide Inv, OpenNew, BuildNew, Inserts, ContentsSettled, Settled, IsStored, WithIds, Proposed, CurrentOf;
    OpenNewStores(env, st, id, description, note, lead);
    var (st', r) := OpenNew(st, env, id, description, note, lead);
    if r.Ok? {
      var w := BuildNew(env.schema, id, description, note, lead).value;
      var payload := NewWorkflowFields(env.schema, id, description, note, lead);
      StoredIsSettled(payload, w);
      InsertionSettles(env, st, st', r.value, w, None);
    }
  }

  lemma OpenExistingSettles(env: Env, st: Store, key: string)
    requires Inv(env, st) && ContentsSettled(st)
    ensures ContentsSettled(OpenExisting(st, env, key).0)
  {
    hide Inv, OpenExisting, Inserts, InNormalForm;
    OpenExistingStores(env, st, key);
    var (st', r) := OpenExisting(st, env, key);
    if key !in st.byKey && CurrentOf(st.registry, key).Some? {
      assert RevisionsNormal(RevisionsOf(st.registry, key));
      var current := CurrentOf(st.registry, key);
      InsertionSettles(env, st, st', r.value, RevisionsOf(st.registry, key)[current.value - 1].content, current);
    }
  }

  lemma ImportSettles(env: Env, st: Store, payload: Workflow, expected: Option<nat>)
    requires Inv(env, st) && ContentsSettled(st)
    ensures ContentsSettled(ImportDraft(st, env, payload, expected).0)
  {
    hide Inv, ImportDraft, Inserts, Replaces, ContentsSettled, NormalizeObject, IsNormalForm, CurrentOf;
    ImportStores(env, st, payload, expected);
    var (st', r) := ImportDraft(st, env, payload, expected);
    if NormalizeObject(env.schema, payload).Ok? {
      var w := NormalizeObject(env.schema, payload).value;
      NormalFormTwice(payload, w);
      if w.id !in st.byKey {
        InsertionSettles(env, st, st', r.value, w, CurrentOf(st.registry, w.id));
      } else if st' != st {
        ReplacementSettles(env, st, st', st.byKey[w.id], w, r.value);
      }
    }
  }

  lemma PublishSettles(env: Env, st: Store, id: nat, etag: nat)
    requires Inv(env, st) && ContentsSettled(st)
    ensures ContentsSettled(PublishDraft(st, env, id, etag).0)
  {
    hide Inv, PublishDraft, Deletes, AddsRevision, Settled, RevisionsNormal, NormalizeObject, IsNormalForm;
    PublishStores(env, st, id, etag);
    var (st', r) := PublishDraft(st, env, id, etag);
    if r.Ok? {
      var w := NormalizeObject(env.schema, st.drafts[id].content).value;
      NormalFormTwice(st.drafts[id].content, w);
      PublicationSettles(env, st.registry, st'.registry, w, User, r.value);
      DeletionSettles(st, st', id);
    }
  }

  lemma RemovalSettles(env: Env, st: Store, key: string)
    requires Inv(env, st) && ContentsSettled(st)
    ensures ContentsSettled(RemoveWorkflow(st, env, key).0)
  {
    hide Inv, RemoveWorkflow, Deletes, Settled, RevisionsNormal, SameOwners;
    RemovalRemoves(env, st, key);
    var st' := RemoveWorkflow(st, env, key).0;
    forall other ensures RevisionsNormal(RevisionsOf(st'.registry, other)) {
      assert RevisionsOf(st'.registry, other) == RevisionsOf(st.registry, other);
    }
    if key in st.byKey && st' != st { DeletionSettles(st, st', st.byKey[key]); }
  }

  lemma SeedSettles(env: Env, st: Store, payload: Workflow)
    requires Inv(env, st) && ContentsSettled(st)
    ensures ContentsSettled(SeedWorkflow(st, env, payload).0)
  {
    hide Inv, SeedWorkflow, AddsRevision, SeedSelects, Settled, RevisionsNormal, NormalizeObject, IsNormalForm;
    SeedStores(env, st, payload);
    var (st', r) := SeedWorkflow(st, env, payload);
    if r.Ok? {
      var w := NormalizeObject(env.schema, payload).value;
      NormalFormTwice(payload, w);
      PublicationSettles(env, st.registry, st'.registry, w, StarterSeed, r.value);
    }
  }

  lemma StepSettles(env: Env, st: Store, step: Step)
    requires Inv(env, st) && ContentsSettled(st)
    ensures ContentsSettled(Apply(st, env, step).0)
  {
    hide Inv, ContentsSettled, OpenNew, OpenExisting, ImportDraft, EditDraft, UndoDraft, DiscardDraft, PublishDraft,
      RemoveWorkflow, SeedWorkflow;
    match step
    case DoOpenNew(id, description, note, lead) => OpenNewSettles(env, st, id, description, note, lead);
    case DoOpenExisting(key) => OpenExistingSettles(env, st, key);
    case DoImport(payload, expected) => ImportSettles(env, st, payload, expected);
    case DoEdit(id, etag, op) => EditSettles(env, st, id, etag, op);
    case DoUndo(id, etag, receiptId) => UndoSettles(env, st, id, etag, receiptId);
    case DoDiscard(id, etag) => DiscardSettles(env, st, id, etag);
    case DoPublish(id, etag) => PublishSettles(env, st, id, etag);
    case DoRemove(key) => RemovalSettles(env, st, key);
    case DoSeed(payload) => SeedSettles(env, st, payload);
  }

  /** Every content of every reachable state is in normal form, or a retired provider is in it. */
  lemma {:induction false} RunSettles(env: Env, st: Store, steps: seq<Step>)
    requires Inv(env, st) && ContentsSettled(st)
    ensures ContentsSettled(Run(st, env, steps))
    decreases |steps|
  {
    hide Inv, Apply, ContentsSettled;
    if steps != [] {
      StepKeeps(env, st, steps[0]);
      StepSettles(env, st, steps[0]);
      RunSettles(env, Apply(st, env, steps[0]).0, steps[1..]);
    }
  }

  /**
    In every reachable state an accepted publication publishes the very content
    of the draft: its revision has the draft's hash, and holds that content
    unless a revision of the user with the same hash was there before.
  */
  lemma PublishedIsTheDraft(env: Env, steps: seq<Step>, id: nat, etag: nat)
    requires PublishDraft(Run(EMPTY_STORE, env, steps), env, id, etag).1.Ok?
    ensures var st := Run(EMPTY_STORE, env, steps);
      var (st', r) := PublishDraft(st, env, id, etag);
      && id in st.drafts
      && var d := st.drafts[id];
      && CurrentOf(st'.registry, d.key) == Some(r.value)
      && AddsRevision(env, st.registry, st'.registry, d.content, User, r.value)
      && d.hash == env.hash(d.content) && d.content.id == d.key
  {
    hide Inv, PublishDraft, ContentsSettled, AddsRevision, Deletes, NormalizeObject, IsNormalForm;
    EmptyInv(env);
    assert ContentsSettled(EMPTY_STORE) by { EmptySettled(); }
    RunKeeps(env, EMPTY_STORE, steps);
    RunSettles(env, EMPTY_STORE, steps);
    var st := Run(EMPTY_STORE, env, steps);
    hide Run;
    PublishStores(env, st, id, etag);
    PublishesItself(env, st, id);
    CurrentDraftFits(env, st, id, etag);
  }

  lemma EmptySettled()
    ensures ContentsSettled(EMPTY_STORE)
  {}

  lemma PublishesItself(env: Env, st: Store, id: nat)
    requires ContentsSettled(st) && id in st.drafts
    ensures var normalized := NormalizeObject(env.schema, st.drafts[id].content);
      normalized.Ok? ==> normalized.value == st.drafts[id].content
  {
    hide IsNormalForm, NormalizeObject, HasRetired, RevisionsNormal;
    var content := st.drafts[id].content;
    var normalized := NormalizeObject(env.schema, content);
    if normalized.Ok? {
      Normalizes(env.schema, content);
      AcceptStores(env.schema, content);
      assert Settled(content);
      NormalFormIsUnique(content, content, normalized.value);
    }
  }
}
