/**
  What each draft transaction stores and what it leaves alone, table by table:
  when it is accepted, which content it writes, what its receipt remembers, and
  what removing a workflow takes away.
*/
module DraftContents {
  import opened Basics
  import opened MemberTree
  import opened MemberIds
  import opened WorkflowRules
  import opened WorkflowEdits
  import opened WorkflowFields
  import opened Publication
  import opened DraftProtocol
  import opened DraftInvariant
  import opened DraftRuns
  import opened DraftHistory

  // ---------------------------------------------------------------- what is written

  /** No draft and no receipt carries this ETag. */
  ghost predicate NewEtag(st: Store, etag: nat) {
    && (forall id :: id in st.drafts ==> st.drafts[id].etag != etag)
    && (forall r :: r in st.receipts ==> st.receipts[r].expectedEtag != etag)
  }

  /** Every draft but this one is there as before. */
  ghost predicate OtherDraftsStay(st: Store, st': Store, id: nat) {
    && st'.drafts.Keys == st.drafts.Keys
    && forall other :: other in st.drafts && other != id ==> st'.drafts[other] == st.drafts[other]
  }

  /** The draft holds this content under a new ETag, and a new receipt remembers the old one. */
  ghost predicate Replaces(env: Env, st: Store, st': Store, id: nat, w: Workflow, receiptId: nat) {
    && id in st.drafts
    && OtherDraftsStay(st, st', id)
    && (var d, d' := st.drafts[id], st'.drafts[id];
        && d'.content == w && d'.hash == env.hash(w)
        && d'.key == d.key && d'.base == d.base
        && d.next <= d'.next
        && NewEtag(st, d'.etag)
        && receiptId !in st.receipts
        && st'.receipts == st.receipts[receiptId := Receipt(id, d'.etag, d.hash, d.content, false)])
    && st'.byKey == st.byKey
    && st'.registry == st.registry
  }

  /** The workflow has an owner row now; no current revision and no revision changed. */
  ghost predicate OnlyOwned(registry: Registry, registry': Registry, key: string) {
    && registry'.revisions == registry.revisions
    && registry'.owners.Keys == registry.owners.Keys + {key}
    && forall other :: CurrentOf(registry', other) == CurrentOf(registry, other)
  }

  /** The tables gained one draft with this content and base, whose next member number is the least free one. */
  ghost predicate Inserts(env: Env, st: Store, st': Store, id: nat, w: Workflow, base: Option<nat>) {
    && id !in st.drafts && w.id !in st.byKey
    && st'.drafts.Keys == st.drafts.Keys + {id}
    && (forall other :: other in st.drafts ==> st'.drafts[other] == st.drafts[other])
    && (var d := st'.drafts[id];
        && d.key == w.id && d.base == base && d.content == w && d.hash == env.hash(w)
        && NewEtag(st, d.etag)
        && d.next >= 1
        && (forall n: nat :: n >= 1 ==> (NumbersBelow(Rows(w.lead, 1), n) <==> d.next <= n)))
    && st'.byKey == st.byKey[w.id := id]
    && st'.receipts == st.receipts
    && OnlyOwned(st.registry, st'.registry, w.id)
  }

  /** The draft, its key and its receipts are gone; everything else in these tables is as before. */
  ghost predicate Deletes(st: Store, st': Store, id: nat) {
    && id in st.drafts
    && st'.drafts.Keys == st.drafts.Keys - {id}
    && (forall other :: other in st'.drafts ==> st'.drafts[other] == st.drafts[other])
    && st'.byKey.Keys == st.byKey.Keys - {st.drafts[id].key}
    && (forall key :: key in st'.byKey ==> st'.byKey[key] == st.byKey[key])
    && (forall r :: r in st'.receipts <==> r in st.receipts && st.receipts[r].draftId != id)
    && (forall r :: r in st'.receipts ==> st'.receipts[r] == st.receipts[r])
  }

  lemma WriteReplaces(env: Env, st: Store, id: nat, w: Workflow, next: Option<nat>)
    requires Inv(env, st) && id in st.drafts
    ensures Replaces(env, st, WriteContent(st, env, id, w, next), id, w, st.tokens + 1)
  {
    hide Inv, NextSequence;
    FreshTokens(env, st);
  }

  lemma InsertInserts(env: Env, st: Store, registry: Registry, w: Workflow, base: Option<nat>)
    requires Inv(env, st) && w.id !in st.byKey && OnlyOwned(st.registry, registry, w.id)
    ensures Inserts(env, st, InsertDraft(st.(registry := registry), env, w, base), st.tokens, w, base)
  {
    hide Inv, OnlyOwned, NumbersBelow;
    FreshTokens(env, st);
    var next := NextSequence(w.lead);
    forall n: nat | n >= 1 ensures NumbersBelow(Rows(w.lead, 1), n) <==> next <= n { NextSequenceIsLeast(w.lead, n); }
    hide NextSequence;
  }

  lemma AcquireOwns(registry: Registry, key: string)
    ensures OnlyOwned(registry, AcquireOwner(registry, key), key)
    ensures RevisionsOf(AcquireOwner(registry, key), key) == RevisionsOf(registry, key)
  {}

  lemma DropDeletes(st: Store, id: nat)
    requires id in st.drafts
    ensures Deletes(st, DropDraft(st, id), id)
    ensures DropDraft(st, id).registry == st.registry
  {}

  // ---------------------------------------------------------------- editing

  /** What the edited draft holds, in terms of what it held. */
  ghost predicate HoldsEdit(before: Draft, after: Draft, op: Operation) {
    var rows, rows' := Rows(before.content.lead, 1), Rows(after.content.lead, 1);
    && IsEdit(before.content, op, before.next, after.content)
    && (op.UpdateMember? ==> UpdatedRows(rows, rows', op.id, op.memberPatch))
    && (op.AddMember? ==> AddedRows(rows, rows', op.parentId, op.member, before.next))
    && (before.next >= 1 ==> after.next == before.next + if op.AddMember? then |Proposed(op.member, 1)| else 0)
  }

  lemma EditedContent(schema: Schema, d: Draft, op: Operation, w: Workflow, next: nat)
    requires Edit(schema, d.content, op, d.next) == Ok((w, next))
    ensures IsEdit(d.content, op, d.next, w)
    ensures op.UpdateMember? ==> UpdatedRows(Rows(d.content.lead, 1), Rows(w.lead, 1), op.id, op.memberPatch)
    ensures op.AddMember? ==> AddedRows(Rows(d.content.lead, 1), Rows(w.lead, 1), op.parentId, op.member, d.next)
    ensures next == d.next + if op.AddMember? then |Proposed(op.member, 1)| else 0
  {
    hide Edit, IsEdit, UpdatedRows, AddedRows, Proposed;
    EditIs(schema, d.content, op, d.next);
    EditTakesNumbers(schema, d.content, op, d.next);
    if op.UpdateMember? { UpdatedFields(schema, d.content, op.id, op.memberPatch, d.next); }
    if op.AddMember? { AddedFields(schema, d.content, op.parentId, op.member, d.next); }
  }

  /**
    An edit under the current ETag stores the edited workflow, if the editing
    rules accept it under its key: the patched fields and the added members
    stand in the stored tree, the receipt that is returned holds the content and
    the hash from before, and nothing else moves. Refused, nothing is written.
  */
  lemma EditStores(env: Env, st: Store, id: nat, etag: nat, op: Operation)
    requires Inv(env, st)
    ensures var (st', r) := EditDraft(st, env, id, etag, op);
      && (r.Err? ==> st' == st)
      && (id !in st.drafts ==> r == Err(NotFound))
      && (id in st.drafts ==>
           var d := st.drafts[id];
           if d.etag != etag then r == Err(Stale)
           else match Edit(env.schema, d.content, op, d.next)
             case Err(e) => r == Err(Invalid(e))
             case Ok((w, _)) =>
               if w.id != d.key then r == Err(Integrity)
               else
                 && r.Ok?
                 && Replaces(env, st, st', id, w, r.value)
                 && HoldsEdit(d, st'.drafts[id], op))
  {
    hide Inv, Edit, Replaces, IsEdit, UpdatedRows, AddedRows, Proposed, NextSequence;
    CurrentDraftFits(env, st, id, etag);
    if EditDraft(st, env, id, etag, op).1.Ok? {
      var d := st.drafts[id];
      var (w, next) := Edit(env.schema, d.content, op, d.next).value;
      WriteReplaces(env, st, id, w, Some(next));
      EditedContent(env.schema, d, op, w, next);
    }
  }

  // ---------------------------------------------------------------- undoing and discarding

  /**
    An accepted undo stores what its receipt remembers under a new ETag and uses
    the receipt up; nothing else moves.
  */
  lemma UndoStores(env: Env, st: Store, id: nat, etag: nat, receiptId: nat)
    requires Inv(env, st)
    ensures var (st', r) := UndoDraft(st, env, id, etag, receiptId);
      && (r.Err? ==> st' == st)
      && (r.Ok? ==>
           && id in st.drafts && receiptId in st.receipts
           && OtherDraftsStay(st, st', id)
           && var d, d', receipt := st.drafts[id], st'.drafts[id], st.receipts[receiptId];
           && d' == d.(content := receipt.previousContent, hash := receipt.previousHash, etag := d'.etag)
           && NewEtag(st, d'.etag)
           && st'.receipts == st.receipts[receiptId := receipt.(consumed := true)]
           && st'.byKey == st.byKey && st'.registry == st.registry)
  {
    hide Inv;
    FreshTokens(env, st);
    CurrentDraftFits(env, st, id, etag);
  }

  /** A draft is discarded exactly under its current ETag; published revisions stay. */
  lemma DiscardDeletes(env: Env, st: Store, id: nat, etag: nat)
    requires Inv(env, st)
    ensures var (st', r) := DiscardDraft(st, env, id, etag);
      && r == (if id !in st.drafts then Err(NotFound) else if st.drafts[id].etag != etag then Err(Stale) else Ok(id))
      && (if r.Ok? then Deletes(st, st', id) && st'.registry == st.registry else st' == st)
  {
    hide Inv, Deletes, DropDraft;
    CurrentDraftFits(env, st, id, etag);
    if id in st.drafts { DropDeletes(st, id); }
  }

  // ---------------------------------------------------------------- opening and importing

  /**
    A draft is created unless the workflow has one, or is published and must not
    be; it starts from the given content.
  */
  lemma CreateStores(env: Env, st: Store, w: Workflow, mayBePublished: bool)
    requires Inv(env, st)
    ensures var (st', r) := CreateDraft(st, env, w, mayBePublished);
      var current := CurrentOf(st.registry, w.id);
      if w.id in st.byKey || (!mayBePublished && current.Some?)
      then st' == st && r == Err(DraftConflict)
      else r.Ok? && Inserts(env, st, st', r.value, w, current)
  {
    hide Inv, InsertDraft, OnlyOwned, CurrentOf, Inserts, AcquireOwner;
    ActiveDraftFits(env, st, w.id);
    AcquireOwns(st.registry, w.id);
    OwnedCurrent(st.registry, AcquireOwner(st.registry, w.id), w.id);
    if w.id !in st.byKey {
      InsertInserts(env, st, AcquireOwner(st.registry, w.id), w, CurrentOf(st.registry, w.id));
    }
  }

  lemma OwnedCurrent(registry: Registry, registry': Registry, key: string)
    requires OnlyOwned(registry, registry', key)
    ensures CurrentOf(registry', key) == CurrentOf(registry, key)
  {}

  /** A new workflow gets a draft of what was proposed; a key with a draft or a current revision is refused. */
  lemma OpenNewStores(env: Env, st: Store, id: string, description: string, note: Option<string>,
                      lead: Option<NewMember>)
    requires Inv(env, st)
    ensures var (st', r) := OpenNew(st, env, id, description, note, lead);
      match BuildNew(env.schema, id, description, note, lead)
      case Err(e) => st' == st && r == Err(Invalid(e))
      case Ok(w) =>
        if w.id in st.byKey || CurrentOf(st.registry, w.id).Some?
        then st' == st && r == Err(DraftConflict)
        else r.Ok? && Inserts(env, st, st', r.value, w, None)
  {
    hide Inv, BuildNew, CreateDraft, Inserts, CurrentOf;
    if BuildNew(env.schema, id, description, note, lead).Ok? {
      CreateStores(env, st, BuildNew(env.schema, id, description, note, lead).value, false);
    }
  }

  lemma {:induction false} RevisionAtFinds(rows: seq<Revision>, first: nat, no: nat)
    requires forall i :: 0 <= i < |rows| ==> rows[i].no == first + i
    ensures RevisionAt(rows, no) == if first <= no < first + |rows| then Some(rows[no - first]) else None
  {
    if rows != [] { RevisionAtFinds(rows[1..], first + 1, no); }
  }

  /** The current revision of a workflow in a consistent registry. */
  lemma CurrentRevision(env: Env, registry: Registry, key: string)
    requires RegistryInv(env, registry) && CurrentOf(registry, key).Some?
    ensures var rows, no := RevisionsOf(registry, key), CurrentOf(registry, key).value;
      && 1 <= no <= |rows|
      && RevisionAt(rows, no) == Some(rows[no - 1])
      && Persisted(env, rows[no - 1].content, key)
  {
    hide Sound;
    assert RevisionsOk(env, registry, key);
    RevisionAtFinds(RevisionsOf(registry, key), 1, CurrentOf(registry, key).value);
  }

  /**
    Opening a workflow returns its draft if it has one; otherwise a new draft of
    the content of its current revision, based on that revision; with neither it
    is not found.
  */
  lemma OpenExistingStores(env: Env, st: Store, key: string)
    requires Inv(env, st)
    ensures var (st', r) := OpenExisting(st, env, key);
      var current := CurrentOf(st.registry, key);
      if key in st.byKey then st' == st && r == Ok(st.byKey[key])
      else if current.None? then st' == st && r == Err(NotFound)
      else
        var rows := RevisionsOf(st.registry, key);
        && 1 <= current.value <= |rows|
        && r.Ok?
        && Inserts(env, st, st', r.value, rows[current.value - 1].content, current)
  {
    hide Inv, InsertDraft, OnlyOwned, CurrentOf, RevisionsOf, Inserts, AcquireOwner;
    ActiveDraftFits(env, st, key);
    var registry := AcquireOwner(st.registry, key);
    AcquireOwns(st.registry, key);
    OwnedCurrent(st.registry, registry, key);
    RegistryPart(env, st);
    if key !in st.byKey && CurrentOf(st.registry, key).Some? {
      CurrentRevision(env, st.registry, key);
      var no := CurrentOf(st.registry, key).value;
      var content := RevisionsOf(st.registry, key)[no - 1].content;
      InsertInserts(env, st, registry, content, Some(no));
    }
  }

  /** The next member number rises only as far as the numbers of the new content need. */
  ghost predicate RaisesNext(d: Draft, d': Draft) {
    forall n: nat :: n >= 1 ==> (d'.next <= n <==> d.next <= n && NumbersBelow(Rows(d'.content.lead, 1), n))
  }

  lemma ImportRaises(st: Store, env: Env, id: nat, w: Workflow)
    requires id in st.drafts
    ensures RaisesNext(st.drafts[id], WriteContent(st, env, id, w, None).drafts[id])
  {
    hide NextSequence, NumbersBelow;
    forall n: nat | n >= 1 ensures NumbersBelow(Rows(w.lead, 1), n) <==> NextSequence(w.lead) <= n {
      NextSequenceIsLeast(w.lead, n);
    }
  }

  /**
    An import stores the normal form of its payload: in a new draft if the
    workflow has none, else in its draft, which needs the current ETag. Content
    that the draft has already is not written again.
  */
  lemma ImportStores(env: Env, st: Store, payload: Workflow, expected: Option<nat>)
    requires Inv(env, st)
    ensures var (st', r) := ImportDraft(st, env, payload, expected);
      match NormalizeObject(env.schema, payload)
      case Err(e) => st' == st && r == Err(Invalid(e))
      case Ok(w) =>
        && IsNormalForm(payload, w)
        && if w.id !in st.byKey
           then r.Ok? && Inserts(env, st, st', r.value, w, CurrentOf(st.registry, w.id))
           else
             && st.byKey[w.id] in st.drafts
             && var id := st.byKey[w.id];
             if expected.None? then st' == st && r == Err(PreconditionRequired)
             else if st.drafts[id].etag != expected.value then st' == st && r == Err(Stale)
             else if st.drafts[id].hash == env.hash(w) then st' == st && r == Ok(id)
             else r.Ok? && Replaces(env, st, st', id, w, r.value) && RaisesNext(st.drafts[id], st'.drafts[id])
  {
    hide Inv, NormalizeObject, CreateDraft, Inserts, Replaces, CurrentOf, IsNormalForm, WriteContent, RaisesNext;
    AcceptStores(env.schema, payload);
    if NormalizeObject(env.schema, payload).Ok? {
      var w := NormalizeObject(env.schema, payload).value;
      ActiveDraftFits(env, st, w.id);
      if w.id !in st.byKey {
        CreateStores(env, st, w, true);
      } else {
        WriteReplaces(env, st, st.byKey[w.id], w, None);
        ImportRaises(st, env, st.byKey[w.id], w);
      }
    }
  }

  // ---------------------------------------------------------------- publishing

  /** The published content has this number: an old revision with its hash and provenance, or a new last one. */
  ghost predicate AddsRevision(env: Env, registry: Registry, registry': Registry, w: Workflow, provenance: Provenance,
                               no: nat)
  {
    var rows, rows' := RevisionsOf(registry, w.id), RevisionsOf(registry', w.id);
    && Publication.Names(rows', no, env.hash(w), provenance)
    && (if exists i :: 0 <= i < |rows| && rows[i].hash == env.hash(w) && rows[i].provenance == provenance
        then rows' == rows
        else rows' == rows + [Revision(|rows| + 1, env.hash(w), w, provenance)])
    && SameElsewhere(registry, registry', w.id)
  }

  lemma OneMoreRow(rows: seq<Revision>, rows': seq<Revision>, row: Revision)
    requires rows <= rows' && |rows'| <= |rows| + 1 && (|rows'| > |rows| ==> rows'[|rows|] == row)
    ensures rows' == rows || rows' == rows + [row]
  {
    assert rows' == rows + rows'[|rows|..];
    assert |rows'| > |rows| ==> rows'[|rows|..] == [row];
  }

  /**
    A draft is published exactly under its current ETag and when its content
    normalizes; the normal form becomes the user's current revision and the
    draft is gone with its receipts.
  */
  lemma PublishStores(env: Env, st: Store, id: nat, etag: nat)
    requires Inv(env, st)
    ensures var (st', r) := PublishDraft(st, env, id, etag);
      && (r.Err? ==> st' == st)
      && (id !in st.drafts ==> r == Err(NotFound))
      && (id in st.drafts ==>
           if st.drafts[id].etag != etag then r == Err(Stale)
           else match NormalizeObject(env.schema, st.drafts[id].content)
             case Err(e) => r == Err(Invalid(e))
             case Ok(w) =>
               && IsNormalForm(st.drafts[id].content, w)
               && r.Ok?
               && Deletes(st, st', id)
               && AddsRevision(env, st.registry, st'.registry, w, User, r.value)
               && CurrentOf(st'.registry, w.id) == Some(r.value))
  {
    hide Inv, NormalizeObject, IsNormalForm, DropDraft, Publish, Deletes, AddsRevision;
    CurrentDraftFits(env, st, id, etag);
    if id in st.drafts {
      AcceptStores(env.schema, st.drafts[id].content);
      DropDeletes(st, id);
      var normalized := NormalizeObject(env.schema, st.drafts[id].content);
      if normalized.Ok? {
        UserPublishes(env, st, normalized.value);
        DeletesIgnoresRegistry(st, DropDraft(st, id), id,
                               Publish(st.registry, env.hash, normalized.value, User, true, None).value.0);
      }
    }
  }

  lemma DeletesIgnoresRegistry(st: Store, st': Store, id: nat, registry: Registry)
    requires Deletes(st, st', id)
    ensures Deletes(st, st'.(registry := registry), id)
  {}

  lemma UserPublishes(env: Env, st: Store, w: Workflow)
    requires Inv(env, st)
    ensures var r := Publish(st.registry, env.hash, w, User, true, None);
      && r.Ok?
      && AddsRevision(env, st.registry, r.value.0, w, User, r.value.1)
      && CurrentOf(r.value.0, w.id) == Some(r.value.1)
  {
    hide Inv, Publish, KeyOk, SameElsewhere;
    RegistryPart(env, st);
    assert RevisionsOk(env, st.registry, w.id);
    PublishKeeps(st.registry, env.hash, w, User, true, None);
    var rows := RevisionsOf(st.registry, w.id);
    OneMoreRow(rows, RevisionsOf(Publish(st.registry, env.hash, w, User, true, None).value.0, w.id),
               Revision(|rows| + 1, env.hash(w), w, User));
  }

  // ---------------------------------------------------------------- seeding

  /** Seeding leaves the user's choice: it selects its revision if none was ever published or a starter is current. */
  ghost predicate SeedSelects(current: Option<nat>, rows: seq<Revision>, current': Option<nat>, no: nat) {
    && (rows == [] ==> no == 1)
    && (current.None? ==> current' == if rows == [] then Some(1) else None)
    && (current.Some? ==>
         && 1 <= current.value <= |rows|
         && current' == if rows[current.value - 1].provenance == StarterSeed then Some(no) else current)
  }

  /**
    Seeding stores the starter as a revision unless an equal starter is there. It
    makes it current exactly when the workflow has no revisions or a starter is
    current; so a starter nobody published before becomes revision 1. Drafts and
    receipts stay.
  */
  lemma SeedStores(env: Env, st: Store, payload: Workflow)
    requires Inv(env, st)
    ensures var (st', r) := SeedWorkflow(st, env, payload);
      && st' == st.(registry := st'.registry)
      && match NormalizeObject(env.schema, payload)
         case Err(e) => st' == st && r == Err(Invalid(e))
         case Ok(w) =>
           && IsNormalForm(payload, w) && r.Ok?
           && AddsRevision(env, st.registry, st'.registry, w, StarterSeed, r.value)
           && SeedSelects(CurrentOf(st.registry, w.id), RevisionsOf(st.registry, w.id),
                          CurrentOf(st'.registry, w.id), r.value)
  {
    hide Inv, NormalizeObject, IsNormalForm, Seed, AddsRevision, SeedSelects;
    AcceptStores(env.schema, payload);
    RegistryPart(env, st);
    if NormalizeObject(env.schema, payload).Ok? {
      StarterSeeds(env, st.registry, NormalizeObject(env.schema, payload).value);
    }
  }

  lemma StarterSeeds(env: Env, registry: Registry, w: Workflow)
    requires RegistryInv(env, registry)
    ensures var r := Seed(registry, env.hash, w);
      && r.Ok?
      && AddsRevision(env, registry, r.value.0, w, StarterSeed, r.value.1)
      && SeedSelects(CurrentOf(registry, w.id), RevisionsOf(registry, w.id), CurrentOf(r.value.0, w.id), r.value.1)
  {
    hide Publish, TableOk, SameElsewhere;
    assert RevisionsOk(env, registry, w.id);
    PublishKeeps(registry, env.hash, w, StarterSeed, true, Some(StarterSeed));
    var rows := RevisionsOf(registry, w.id);
    OneMoreRow(rows, RevisionsOf(Seed(registry, env.hash, w).value.0, w.id),
               Revision(|rows| + 1, env.hash(w), w, StarterSeed));
  }

  // ---------------------------------------------------------------- removing

  /** The workflow has no current revision any more; its revisions and every other workflow are as before. */
  ghost predicate Unpublishes(registry: Registry, registry': Registry, key: string) {
    && CurrentOf(registry', key) == None
    && registry'.revisions == registry.revisions
    && (key in registry'.owners <==> CurrentOf(registry, key).Some? || RevisionsOf(registry, key) != [])
    && SameOwners(registry, registry', key)
  }

  ghost predicate SameOwners(registry: Registry, registry': Registry, key: string) {
    forall other :: other != key ==>
      && (other in registry'.owners <==> other in registry.owners)
      && CurrentOf(registry', other) == CurrentOf(registry, other)
  }

  /**
    A workflow is removed exactly if it has a draft or a current revision. Then
    its draft and the draft's receipts are gone and no revision is current;
    revisions stay, and with them the owner row. Every other workflow, draft and
    receipt is as before.
  */
  lemma RemovalRemoves(env: Env, st: Store, key: string)
    requires Inv(env, st)
    ensures var (st', r) := RemoveWorkflow(st, env, key);
      if key !in st.byKey && CurrentOf(st.registry, key).None?
      then st' == st && r == Err(NotFound)
      else
        && r.Ok?
        && Unpublishes(st.registry, st'.registry, key)
        && (if key in st.byKey then Deletes(st, st', st.byKey[key])
            else st'.drafts == st.drafts && st'.byKey == st.byKey && st'.receipts == st.receipts)
  {
    hide Inv, DropDraft, Deletes, Unpublishes, CurrentOf;
    ActiveDraftFits(env, st, key);
    RemovalUnpublishes(env, st, key);
    OwnedCurrent(st.registry, AcquireOwner(st.registry, key), key);
    if key in st.byKey {
      DropDeletes(st, st.byKey[key]);
      DeletesIgnoresRegistry(st, DropDraft(st, st.byKey[key]), st.byKey[key],
                             RemoveWorkflow(st, env, key).0.registry);
    }
  }

  lemma RemovalUnpublishes(env: Env, st: Store, key: string)
    ensures OnlyOwned(st.registry, AcquireOwner(st.registry, key), key)
    ensures RemoveWorkflow(st, env, key).1.Ok? ==>
      Unpublishes(st.registry, RemoveWorkflow(st, env, key).0.registry, key)
  {
    hide ActiveDraft, DropDraft;
  }

  /** After a removal no draft has the key and no receipt belongs to one that had it. */
  lemma NothingIsLeft(env: Env, st: Store, key: string)
    requires Inv(env, st) && RemoveWorkflow(st, env, key).1.Ok?
    ensures var st' := RemoveWorkflow(st, env, key).0;
      && key !in st'.byKey
      && (forall id :: id in st'.drafts ==> st'.drafts[id].key != key)
      && (forall r :: r in st'.receipts ==> st'.receipts[r].draftId in st'.drafts)
      && (forall id :: id in st.drafts && st.drafts[id].key != key ==>
           id in st'.drafts && st'.drafts[id] == st.drafts[id])
  {
    hide RemoveWorkflow, Inv, Unpublishes;
    RemovalRemoves(env, st, key);
    RemoveKeeps(env, st, key);
    DraftsUnderKeys(env, st);
    DraftsUnderKeys(env, RemoveWorkflow(st, env, key).0);
  }

  lemma DraftsUnderKeys(env: Env, st: Store)
    requires Inv(env, st)
    ensures forall id :: id in st.drafts ==> st.drafts[id].key in st.byKey && st.byKey[st.drafts[id].key] == id
    ensures forall key :: key in st.byKey ==> st.byKey[key] in st.drafts && st.drafts[st.byKey[key]].key == key
    ensures forall r :: r in st.receipts ==> st.receipts[r].draftId in st.drafts
  {
    hide Kept, RegistryInv;
    forall id | id in st.drafts ensures st.drafts[id].key in st.byKey && st.byKey[st.drafts[id].key] == id {
      assert DraftOk(env, st.tokens, st.byKey, id, st.drafts[id]);
    }
    forall r | r in st.receipts ensures st.receipts[r].draftId in st.drafts {
      assert ReceiptOk(env, st.tokens, st.drafts, r, st.receipts[r]);
    }
  }
}
