/** The draft transactions on stored tables: workflows/authoring.py statement by statement. */
module DraftService {
  import opened Basics
  import opened MemberIds
  import opened WorkflowEdits
  import opened Publication
  import opened DraftProtocol

  class WorkflowStore {
    const env: Env
    var owners: map<string, Option<nat>>
    var revisions: map<string, seq<Revision>>
    var drafts: map<nat, Draft>
    var byKey: map<string, nat>
    var receipts: map<nat, Receipt>
    var tokens: nat

    ghost function Snapshot(): Store
      reads this
    {
      Store(Registry(owners, revisions), drafts, byKey, receipts, tokens)
    }

    constructor (env: Env)
      ensures this.env == env && Snapshot() == EMPTY_STORE
    {
      this.env := env;
      owners, revisions, drafts, byKey, receipts, tokens := map[], map[], map[], map[], map[], 0;
    }

    method NewToken() returns (token: nat)
      modifies this`tokens
      ensures token == old(tokens) && tokens == old(tokens) + 1
    {
      token := tokens;
      tokens := tokens + 1;
    }

    method CurrentDraftRow(id: nat, etag: nat) returns (r: Result<Draft, DraftError>)
      ensures r == CurrentDraft(Snapshot(), env, id, etag)
    {
      if id !in drafts { return Err(NotFound); }
      var row := drafts[id];
      if !Persisted(env, row.content, row.key) { return Err(Integrity); }
      if row.etag != etag { return Err(Stale); }
      return Ok(row);
    }

    method ActiveDraftRow(key: string) returns (r: Result<Option<nat>, DraftError>)
      ensures r == ActiveDraft(Snapshot(), env, key)
    {
      if key !in byKey || byKey[key] !in drafts { return Ok(None); }
      if !Persisted(env, drafts[byKey[key]].content, key) { return Err(Integrity); }
      return Ok(Some(byKey[key]));
    }

    /** UPDATE workflow_drafts ... WHERE draft_id AND etag; the row count. */
    method UpdateDraft(id: nat, etag: nat, row: Draft) returns (changed: nat)
      modifies this`drafts
      ensures changed == if id in old(drafts) && old(drafts)[id].etag == etag then 1 else 0
      ensures drafts == if changed == 1 then old(drafts)[id := row] else old(drafts)
    {
      if id !in drafts || drafts[id].etag != etag { return 0; }
      drafts := drafts[id := row];
      return 1;
    }

    /** DELETE FROM workflow_drafts ... WHERE draft_id AND etag, with its receipts; the row count. */
    method DeleteDraft(id: nat, etag: nat) returns (deleted: nat)
      modifies this`drafts, this`byKey, this`receipts
      ensures deleted == if id in old(drafts) && old(drafts)[id].etag == etag then 1 else 0
      ensures Snapshot() == if deleted == 1 then DropDraft(old(Snapshot()), id) else old(Snapshot())
    {
      if id !in drafts || drafts[id].etag != etag { return 0; }
      byKey := byKey - {drafts[id].key};
      receipts := map r | r in receipts && receipts[r].draftId != id :: receipts[r];
      drafts := drafts - {id};
      return 1;
    }

    /** `_replace_draft_content`. */
    method ReplaceDraftContent(id: nat, w: Workflow, next: Option<nat>) returns (r: Result<nat, DraftError>)
      requires id in drafts
      modifies this
      ensures (Snapshot(), r) == ReplaceContent(old(Snapshot()), env, id, w, next)
    {
      var row := drafts[id];
      if w.id != row.key || !Persisted(env, row.content, row.key) { return Err(Integrity); }
      var nextEtag := NewToken();
      var receiptId := NewToken();
      var raised := RaisedNext(row, w, next);
      var changed := UpdateDraft(id, row.etag,
        row.(content := w, hash := env.hash(w), etag := nextEtag, next := raised));
      assert changed == 1; // the row is locked, so the compare-and-set cannot miss
      receipts := receipts[receiptId := Receipt(id, nextEtag, row.hash, row.content, false)];
      return Ok(receiptId);
    }

    /** `edit_workflow_draft`, with the draft's own id allocator. */
    method EditWorkflowDraft(id: nat, etag: nat, op: Operation) returns (r: Result<nat, DraftError>)
      modifies this
      ensures (Snapshot(), r) == EditDraft(old(Snapshot()), env, id, etag, op)
    {
      var current := CurrentDraftRow(id, etag);
      if current.Err? { return Err(current.error); }
      var allocator := new MemberIdAllocator(current.value.next);
      var edited := EditNormalizedWorkflow(env.schema, current.value.content, op, allocator);
      if edited.Err? { return Err(Invalid(edited.error)); }
      r := ReplaceDraftContent(id, edited.value, Some(allocator.next));
    }

    /** `undo_workflow_draft`. */
    method UndoWorkflowDraft(id: nat, etag: nat, receiptId: nat) returns (r: Result<nat, DraftError>)
      modifies this
      ensures (Snapshot(), r) == UndoDraft(old(Snapshot()), env, id, etag, receiptId)
    {
      var current := CurrentDraftRow(id, etag);
      if current.Err? { return Err(current.error); }
      var row := current.value;
      if receiptId !in receipts || receipts[receiptId].draftId != id || receipts[receiptId].consumed {
        return Err(ReceiptUnusable);
      }
      var receipt := receipts[receiptId];
      if receipt.expectedEtag != row.etag { return Err(Stale); }
      if !Persisted(env, receipt.previousContent, row.key) { return Err(Integrity); }
      var newEtag := NewToken();
      receipts := receipts[receiptId := receipt.(consumed := true)];
      var changed := UpdateDraft(id, etag,
        row.(content := receipt.previousContent, hash := receipt.previousHash, etag := newEtag));
      assert changed == 1;
      return Ok(newEtag);
    }

    /** `discard_workflow_draft`. */
    method DiscardWorkflowDraft(id: nat, etag: nat) returns (r: Result<nat, DraftError>)
      modifies this
      ensures (Snapshot(), r) == DiscardDraft(old(Snapshot()), env, id, etag)
    {
      var current := CurrentDraftRow(id, etag);
      if current.Err? { return Err(current.error); }
      var deleted := DeleteDraft(id, etag);
      assert deleted == 1;
      return Ok(id);
    }

    method AcquireWorkflowOwner(key: string)
      modifies this`owners
      ensures Registry(owners, revisions) == AcquireOwner(old(Registry(owners, revisions)), key)
      ensures key in owners
    {
      if key !in owners { owners := owners[key := None]; }
    }

    /** `publish_workflow_revision`, alone in its transaction. */
    method PublishWorkflowRevision(w: Workflow, provenance: Provenance, guard: Option<Provenance>)
      returns (r: Result<nat, PublishError>)
      modifies this`owners, this`revisions
      ensures match Publish(old(Registry(owners, revisions)), env.hash, w, provenance, true, guard)
        case Ok((registry, no)) => r == Ok(no) && Registry(owners, revisions) == registry
        case Err(e) => r == Err(e)
    {
      AcquireWorkflowOwner(w.id);
      var select := ShouldSelect(Registry(owners, revisions), w.id, true, guard);
      if select.Err? { return Err(select.error); }
      var rows := RevisionsOf(Registry(owners, revisions), w.id);
      var (rows', no) := Insert(rows, env.hash(w), w, provenance);
      revisions := revisions[w.id := rows'];
      ghost var acquired := owners;
      if select.value { owners := owners[w.id := Some(no)]; }
      assert !select.value ==> owners == owners[w.id := CurrentOf(Registry(acquired, revisions), w.id)];
      return Ok(no);
    }

    /** `publish_workflow_draft`. */
    method PublishWorkflowDraft(id: nat, etag: nat) returns (r: Result<nat, DraftError>)
      modifies this
      ensures (Snapshot(), r) == PublishDraft(old(Snapshot()), env, id, etag)
    {
      var current := CurrentDraftRow(id, etag);
      if current.Err? { return Err(current.error); }
      var normalized := NormalizeObject(env.schema, current.value.content);
      if normalized.Err? { return Err(Invalid(normalized.error)); }
      var deleted := DeleteDraft(id, etag);
      assert deleted == 1;
      var published := PublishWorkflowRevision(normalized.value, User, None);
      assert published.Ok?; // without a guard nothing can refuse the revision
      return Ok(published.value);
    }

    /** `_insert_workflow_draft`. */
    method InsertWorkflowDraft(w: Workflow, base: Option<nat>) returns (id: nat)
      modifies this
      ensures Snapshot() == InsertDraft(old(Snapshot()), env, w, base) && id == old(tokens)
    {
      id := NewToken();
      var etag := NewToken();
      var next := NextWorkflowMemberSequence(w.lead);
      drafts := drafts[id := Draft(w.id, base, w, env.hash(w), etag, next)];
      byKey := byKey[w.id := id];
    }

    /** `_create_workflow_draft` and `_create_new_workflow_draft`. */
    method CreateWorkflowDraft(w: Workflow, mayBePublished: bool) returns (r: Result<nat, DraftError>)
      modifies this
      ensures (Snapshot(), r) == CreateDraft(old(Snapshot()), env, w, mayBePublished)
    {
      var existing := ActiveDraftRow(w.id);
      if existing.Err? { return Err(existing.error); }
      if existing.value.Some? { return Err(DraftConflict); }
      var savedOwners := owners;
      AcquireWorkflowOwner(w.id);
      if !mayBePublished && owners[w.id].Some? {
        owners := savedOwners;
        return Err(DraftConflict);
      }
      var id := InsertWorkflowDraft(w, owners[w.id]);
      return Ok(id);
    }

    /** `_open_existing_workflow_draft`. */
    method OpenExistingWorkflowDraft(key: string) returns (r: Result<nat, DraftError>)
      modifies this
      ensures (Snapshot(), r) == OpenExisting(old(Snapshot()), env, key)
    {
      var existing := ActiveDraftRow(key);
      if existing.Err? { return Err(existing.error); }
      if existing.value.Some? { return Ok(existing.value.value); }
      var savedOwners := owners;
      AcquireWorkflowOwner(key);
      var current := owners[key];
      var rows := RevisionsOf(Registry(owners, revisions), key);
      var revision := if current.Some? then RevisionAt(rows, current.value) else None;
      if revision.None? || !Persisted(env, revision.value.content, key) {
        owners := savedOwners;
        return Err(if revision.None? then NotFound else Integrity);
      }
      var id := InsertWorkflowDraft(revision.value.content, current);
      return Ok(id);
    }

    /** `open_workflow_draft` for a new workflow. */
    method OpenNewWorkflowDraft(id: string, description: string, note: Option<string>, lead: Option<NewMember>)
      returns (r: Result<nat, DraftError>)
      modifies this
      ensures (Snapshot(), r) == OpenNew(old(Snapshot()), env, id, description, note, lead)
    {
      var built := BuildNew(env.schema, id, description, note, lead);
      if built.Err? { return Err(Invalid(built.error)); }
      r := CreateWorkflowDraft(built.value, false);
    }

    /** One round of `seed_starter_workflows`. */
    method SeedStarterWorkflow(payload: Workflow) returns (r: Result<nat, DraftError>)
      modifies this
      ensures (Snapshot(), r) == SeedWorkflow(old(Snapshot()), env, payload)
    {
      var normalized := NormalizeObject(env.schema, payload);
      if normalized.Err? { return Err(Invalid(normalized.error)); }
      var saved := (owners, revisions);
      var published := PublishWorkflowRevision(normalized.value, StarterSeed, Some(StarterSeed));
      if published.Err? {
        owners, revisions := saved.0, saved.1;
        return Err(Unpublishable(published.error));
      }
      return Ok(published.value);
    }

    /** `import_workflow_draft`. */
    method ImportWorkflowDraft(payload: Workflow, expected: Option<nat>) returns (r: Result<nat, DraftError>)
      modifies this
      ensures (Snapshot(), r) == ImportDraft(old(Snapshot()), env, payload, expected)
    {
      var normalized := NormalizeObject(env.schema, payload);
      if normalized.Err? { return Err(Invalid(normalized.error)); }
      var w := normalized.value;
      var existing := ActiveDraftRow(w.id);
      if existing.Err? { return Err(existing.error); }
      if existing.value.None? {
        r := CreateWorkflowDraft(w, true);
        return;
      }
      var id := existing.value.value;
      if expected.None? { return Err(PreconditionRequired); }
      if drafts[id].etag != expected.value { return Err(Stale); }
      if drafts[id].hash == env.hash(w) { return Ok(id); }
      r := ReplaceDraftContent(id, w, None);
    }

    /** `remove_workflow`. */
    method RemoveWorkflowByKey(key: string) returns (r: Result<nat, DraftError>)
      modifies this
      ensures (Snapshot(), r) == RemoveWorkflow(old(Snapshot()), env, key)
    {
      var existing := ActiveDraftRow(key);
      if existing.Err? { return Err(existing.error); }
      var savedOwners := owners;
      AcquireWorkflowOwner(key);
      var hasRevisions := RevisionsOf(Registry(owners, revisions), key) != [];
      if existing.value.None? && owners[key].None? {
        owners := savedOwners;
        return Err(NotFound);
      }
      if existing.value.Some? {
        var deleted := DeleteDraft(existing.value.value, drafts[existing.value.value].etag);
        assert deleted == 1;
      }
      if owners[key].Some? {
        owners := owners[key := None];
      } else if !hasRevisions {
        owners := owners - {key};
      }
      return Ok(0);
    }
  }
}
