/**
  Workflow drafts: the transactions of workflows/authoring.py. Every operation
  locks its draft row and commits as a whole; a failed one is rolled back.
  Random tokens (draft ids, ETags, receipt ids) are drawn from one counter.
*/
module DraftProtocol {
  import opened Basics
  import opened MemberIds
  import opened WorkflowEdits
  import opened Publication

  /** The data-model validation and the canonical content hash. */
  datatype Env = Env(schema: Schema, hash: Hash)

  datatype Draft = Draft(key: string, base: Option<nat>, content: Workflow, hash: string, etag: nat, next: nat)

  datatype Receipt = Receipt(draftId: nat, expectedEtag: nat, previousHash: string, previousContent: Workflow,
                             consumed: bool)

  /** `byKey` is the unique index of the draft table on the workflow key. */
  datatype Store = Store(registry: Registry, drafts: map<nat, Draft>, byKey: map<string, nat>,
                         receipts: map<nat, Receipt>, tokens: nat)

  datatype DraftError =
    | NotFound
    | Stale
    | DraftConflict
    | PreconditionRequired
    | ReceiptUnusable
    | Integrity
    | Invalid(edit: EditError)
    | Unpublishable(publish: PublishError)

  const EMPTY_STORE := Store(EMPTY_REGISTRY, map[], map[], map[], 0)

  /** `read_persisted_workflow`. */
  predicate Persisted(env: Env, content: Workflow, key: string) {
    env.schema(content) && content.id == key
  }

  /** `_current_draft_row`: the row is locked and read, then compared with the caller's ETag. */
  function CurrentDraft(st: Store, env: Env, id: nat, etag: nat): Result<Draft, DraftError> {
    if id !in st.drafts then Err(NotFound)
    else if !Persisted(env, st.drafts[id].content, st.drafts[id].key) then Err(Integrity)
    else if st.drafts[id].etag != etag then Err(Stale)
    else Ok(st.drafts[id])
  }

  /** `_active_draft_row_for_update`. */
  function ActiveDraft(st: Store, env: Env, key: string): Result<Option<nat>, DraftError> {
    if key !in st.byKey || st.byKey[key] !in st.drafts then Ok(None)
    else if !Persisted(env, st.drafts[st.byKey[key]].content, key) then Err(Integrity)
    else Ok(Some(st.byKey[key]))
  }

  // ---------------------------------------------------------------- row writes

  function InsertDraft(st: Store, env: Env, w: Workflow, base: Option<nat>): Store {
    st.(drafts := st.drafts[st.tokens := Draft(w.id, base, w, env.hash(w), st.tokens + 1, NextSequence(w.lead))],
        byKey := st.byKey[w.id := st.tokens],
        tokens := st.tokens + 2)
  }

  /** The next member number to store: never below the stored one. */
  function RaisedNext(draft: Draft, w: Workflow, next: Option<nat>): nat {
    Max(draft.next, if next.Some? && next.value != 0 then next.value else NextSequence(w.lead))
  }

  /** The two writes of `_replace_draft_content`: the new content under a new ETag, and a receipt for the old one. */
  function WriteContent(st: Store, env: Env, id: nat, w: Workflow, next: Option<nat>): Store
    requires id in st.drafts
  {
    var draft := st.drafts[id];
    st.(drafts := st.drafts[id := draft.(
          content := w, hash := env.hash(w), etag := st.tokens, next := RaisedNext(draft, w, next))],
        receipts := st.receipts[st.tokens + 1 := Receipt(id, st.tokens, draft.hash, draft.content, false)],
        tokens := st.tokens + 2)
  }

  function RestoreContent(st: Store, id: nat, receiptId: nat): Store
    requires id in st.drafts && receiptId in st.receipts
  {
    var receipt := st.receipts[receiptId];
    st.(drafts := st.drafts[id := st.drafts[id].(
          content := receipt.previousContent, hash := receipt.previousHash, etag := st.tokens)],
        receipts := st.receipts[receiptId := receipt.(consumed := true)],
        tokens := st.tokens + 1)
  }

  /** Deleting a draft deletes its receipts. */
  function DropDraft(st: Store, id: nat): Store
    requires id in st.drafts
  {
    st.(drafts := st.drafts - {id},
        byKey := st.byKey - {st.drafts[id].key},
        receipts := map r | r in st.receipts && st.receipts[r].draftId != id :: st.receipts[r])
  }

  // ---------------------------------------------------------------- operations

  /** `_replace_draft_content`; returns the receipt id. */
  function ReplaceContent(st: Store, env: Env, id: nat, w: Workflow, next: Option<nat>)
    : (Store, Result<nat, DraftError>)
    requires id in st.drafts
  {
    if w.id != st.drafts[id].key || !Persisted(env, st.drafts[id].content, st.drafts[id].key) then (st, Err(Integrity))
    else (WriteContent(st, env, id, w, next), Ok(st.tokens + 1))
  }

  /** `edit_workflow_draft`. */
  function EditDraft(st: Store, env: Env, id: nat, etag: nat, op: Operation): (Store, Result<nat, DraftError>) {
    match CurrentDraft(st, env, id, etag)
    case Err(e) => (st, Err(e))
    case Ok(draft) =>
      match Edit(env.schema, draft.content, op, draft.next)
      case Err(e) => (st, Err(Invalid(e)))
      case Ok((w, next)) => ReplaceContent(st, env, id, w, Some(next))
  }

  /** `undo_workflow_draft`. */
  function UndoDraft(st: Store, env: Env, id: nat, etag: nat, receiptId: nat): (Store, Result<nat, DraftError>) {
    match CurrentDraft(st, env, id, etag)
    case Err(e) => (st, Err(e))
    case Ok(draft) =>
      if receiptId !in st.receipts || st.receipts[receiptId].draftId != id || st.receipts[receiptId].consumed
      then (st, Err(ReceiptUnusable))
      else if st.receipts[receiptId].expectedEtag != draft.etag then (st, Err(Stale))
      else if !Persisted(env, st.receipts[receiptId].previousContent, draft.key) then (st, Err(Integrity))
      else (RestoreContent(st, id, receiptId), Ok(st.tokens))
  }

  /** `discard_workflow_draft`. */
  function DiscardDraft(st: Store, env: Env, id: nat, etag: nat): (Store, Result<nat, DraftError>) {
    match CurrentDraft(st, env, id, etag)
    case Err(e) => (st, Err(e))
    case Ok(draft) => (DropDraft(st, id), Ok(id))
  }

  /** `publish_workflow_draft`; returns the revision number. */
  function PublishDraft(st: Store, env: Env, id: nat, etag: nat): (Store, Result<nat, DraftError>) {
    match CurrentDraft(st, env, id, etag)
    case Err(e) => (st, Err(e))
    case Ok(draft) =>
      match NormalizeObject(env.schema, draft.content)
      case Err(e) => (st, Err(Invalid(e)))
      case Ok(w) =>
        match Publish(st.registry, env.hash, w, User, true, None)
        case Err(e) => (st, Err(Unpublishable(e)))
        case Ok((registry, no)) => (DropDraft(st, id).(registry := registry), Ok(no))
  }

  /** `_create_workflow_draft` and `_create_new_workflow_draft`; only the second refuses a published workflow. */
  function CreateDraft(st: Store, env: Env, w: Workflow, mayBePublished: bool): (Store, Result<nat, DraftError>) {
    match ActiveDraft(st, env, w.id)
    case Err(e) => (st, Err(e))
    case Ok(existing) =>
      var registry := AcquireOwner(st.registry, w.id);
      var current := CurrentOf(registry, w.id);
      if existing.Some? || (!mayBePublished && current.Some?) then (st, Err(DraftConflict))
      else (InsertDraft(st.(registry := registry), env, w, current), Ok(st.tokens))
  }

  /** `open_workflow_draft` for a new workflow, already built from the request. */
  function OpenNew(st: Store, env: Env, id: string, description: string, note: Option<string>, lead: Option<NewMember>)
    : (Store, Result<nat, DraftError>)
  {
    match BuildNew(env.schema, id, description, note, lead)
    case Err(e) => (st, Err(Invalid(e)))
    case Ok(w) => CreateDraft(st, env, w, false)
  }

  function RevisionAt(rows: seq<Revision>, no: nat): Option<Revision> {
    if rows == [] then None else if rows[0].no == no then Some(rows[0]) else RevisionAt(rows[1..], no)
  }

  /** `_open_existing_workflow_draft`. */
  function OpenExisting(st: Store, env: Env, key: string): (Store, Result<nat, DraftError>) {
    match ActiveDraft(st, env, key)
    case Err(e) => (st, Err(e))
    case Ok(Some(id)) => (st, Ok(id))
    case Ok(None) =>
      var registry := AcquireOwner(st.registry, key);
      match CurrentOf(registry, key)
      case None => (st, Err(NotFound))
      case Some(no) =>
        match RevisionAt(RevisionsOf(registry, key), no)
        case None => (st, Err(NotFound))
        case Some(revision) =>
          if !Persisted(env, revision.content, key) then (st, Err(Integrity))
          else (InsertDraft(st.(registry := registry), env, revision.content, Some(no)), Ok(st.tokens))
  }

  /** `import_workflow_draft` of an authored workflow; the payload is normalized on its way in. */
  function ImportDraft(st: Store, env: Env, payload: Workflow, expected: Option<nat>)
    : (Store, Result<nat, DraftError>)
  {
    match NormalizeObject(env.schema, payload)
    case Err(e) => (st, Err(Invalid(e)))
    case Ok(w) =>
      match ActiveDraft(st, env, w.id)
      case Err(e) => (st, Err(e))
      case Ok(None) => CreateDraft(st, env, w, true)
      case Ok(Some(id)) =>
        if expected.None? then (st, Err(PreconditionRequired))
        else if st.drafts[id].etag != expected.value then (st, Err(Stale))
        else if st.drafts[id].hash == env.hash(w) then (st, Ok(id))
        else ReplaceContent(st, env, id, w, None)
  }

  /** `remove_workflow`. */
  function RemoveWorkflow(st: Store, env: Env, key: string): (Store, Result<nat, DraftError>) {
    match ActiveDraft(st, env, key)
    case Err(e) => (st, Err(e))
    case Ok(existing) =>
      var registry := AcquireOwner(st.registry, key);
      var current := CurrentOf(registry, key);
      if existing.None? && current.None? then (st, Err(NotFound))
      else
        var owners :=
          if current.Some? then registry.owners[key := None]
          else if RevisionsOf(registry, key) == [] then registry.owners - {key}
          else registry.owners;
        var dropped := if existing.Some? then DropDraft(st, existing.value) else st;
        (dropped.(registry := registry.(owners := owners)), Ok(0))
  }

  /** One starter workflow of `seed_starter_workflows`, which the package ships in normalized form. */
  function SeedWorkflow(st: Store, env: Env, payload: Workflow): (Store, Result<nat, DraftError>) {
    match NormalizeObject(env.schema, payload)
    case Err(e) => (st, Err(Invalid(e)))
    case Ok(w) =>
      match Seed(st.registry, env.hash, w)
      case Err(e) => (st, Err(Unpublishable(e)))
      case Ok((registry, no)) => (st.(registry := registry), Ok(no))
  }

  // ---------------------------------------------------------------- runs

  datatype Step =
    | DoOpenNew(workflowId: string, description: string, note: Option<string>, lead: Option<NewMember>)
    | DoOpenExisting(openKey: string)
    | DoImport(imported: Workflow, expected: Option<nat>)
    | DoEdit(editId: nat, editEtag: nat, op: Operation)
    | DoUndo(undoId: nat, undoEtag: nat, receiptId: nat)
    | DoDiscard(discardId: nat, discardEtag: nat)
    | DoPublish(publishId: nat, publishEtag: nat)
    | DoRemove(removeKey: string)
    | DoSeed(starter: Workflow)

  function Apply(st: Store, env: Env, step: Step): (Store, Result<nat, DraftError>) {
    match step
    case DoOpenNew(id, description, note, lead) => OpenNew(st, env, id, description, note, lead)
    case DoOpenExisting(key) => OpenExisting(st, env, key)
    case DoImport(payload, expected) => ImportDraft(st, env, payload, expected)
    case DoEdit(id, etag, op) => EditDraft(st, env, id, etag, op)
    case DoUndo(id, etag, receiptId) => UndoDraft(st, env, id, etag, receiptId)
    case DoDiscard(id, etag) => DiscardDraft(st, env, id, etag)
    case DoPublish(id, etag) => PublishDraft(st, env, id, etag)
    case DoRemove(key) => RemoveWorkflow(st, env, key)
    case DoSeed(payload) => SeedWorkflow(st, env, payload)
  }

  function Run(st: Store, env: Env, steps: seq<Step>): Store
    decreases |steps|
  {
    if steps == [] then st else Run(Apply(st, env, steps[0]).0, env, steps[1..])
  }
}
