/** Every run of draft, publication, removal and seeding transactions. */
module DraftRuns {
  import opened Basics
  import opened MemberTree
  import opened MemberIds
  import opened WorkflowRules
  import opened WorkflowEdits
  import opened Publication
  import opened DraftProtocol
  import opened DraftInvariant

  // ---------------------------------------------------------------- the invariant, operation by operation

  lemma NormalizedFits(env: Env, payload: Workflow)
    requires NormalizeObject(env.schema, payload).Ok?
    ensures var w := NormalizeObject(env.schema, payload).value; env.schema(w) && Sound(Rows(w.lead, 1))
  {
    Normalizes(env.schema, payload);
  }

  lemma CurrentDraftFits(env: Env, st: Store, id: nat, etag: nat)
    requires Inv(env, st)
    ensures CurrentDraft(st, env, id, etag) ==
      if id !in st.drafts then Err(NotFound) else if st.drafts[id].etag != etag then Err(Stale) else Ok(st.drafts[id])
    ensures id in st.drafts ==> DraftOk(env, st.tokens, st.byKey, id, st.drafts[id])
  {
    hide Sound, NumbersBelow;
    if id in st.drafts { assert DraftOk(env, st.tokens, st.byKey, id, st.drafts[id]); }
  }

  lemma ActiveDraftFits(env: Env, st: Store, key: string)
    requires Inv(env, st)
    ensures ActiveDraft(st, env, key) == Ok(if key in st.byKey then Some(st.byKey[key]) else None)
    ensures key in st.byKey ==>
      st.byKey[key] in st.drafts && DraftOk(env, st.tokens, st.byKey, st.byKey[key], st.drafts[st.byKey[key]])
      && st.drafts[st.byKey[key]].key == key
  {
    hide Sound, NumbersBelow;
    if key in st.byKey { assert DraftOk(env, st.tokens, st.byKey, st.byKey[key], st.drafts[st.byKey[key]]); }
  }

  lemma EditKeeps(env: Env, st: Store, id: nat, etag: nat, op: Operation)
    requires Inv(env, st)
    ensures Inv(env, EditDraft(st, env, id, etag, op).0)
  {
    hide Inv, Edit, WriteContent;
    CurrentDraftFits(env, st, id, etag);
    if EditDraft(st, env, id, etag, op).1.Ok? {
      var draft := st.drafts[id];
      var (w, next) := Edit(env.schema, draft.content, op, draft.next).value;
      EditedKept(env, draft, op);
      WriteKeeps(env, st, id, w, Some(next));
    }
  }

  lemma EditedKept(env: Env, draft: Draft, op: Operation)
    requires Kept(env, draft.content, draft.hash, draft.key, draft.next)
    requires Edit(env.schema, draft.content, op, draft.next).Ok?
    ensures var (w, next) := Edit(env.schema, draft.content, op, draft.next).value;
      w.id == draft.key ==> Kept(env, w, env.hash(w), draft.key, RaisedNext(draft, w, Some(next)))
  {
    hide Edit, Sound, EditRows, HasRetired, Applicable;
    EditKeepsNumbers(env.schema, draft.content, op, draft.next);
    EditRefines(env.schema, draft.content, op, draft.next);
    var (w, next) := Edit(env.schema, draft.content, op, draft.next).value;
    NumbersUnder(Rows(w.lead, 1), next, RaisedNext(draft, w, Some(next)));
  }

  lemma NumbersUnder(rows: seq<Row>, next: nat, next': nat)
    requires NumbersBelow(rows, next) && next <= next'
    ensures NumbersBelow(rows, next')
  {}

  lemma UndoKeeps(env: Env, st: Store, id: nat, etag: nat, receiptId: nat)
    requires Inv(env, st)
    ensures Inv(env, UndoDraft(st, env, id, etag, receiptId).0)
  {
    hide Inv, RestoreContent;
    CurrentDraftFits(env, st, id, etag);
    if UndoDraft(st, env, id, etag, receiptId).1.Ok? { RestoreKeeps(env, st, id, receiptId); }
  }

  lemma DiscardKeeps(env: Env, st: Store, id: nat, etag: nat)
    requires Inv(env, st)
    ensures Inv(env, DiscardDraft(st, env, id, etag).0)
  {
    hide Inv, DropDraft;
    CurrentDraftFits(env, st, id, etag);
    if DiscardDraft(st, env, id, etag).1.Ok? { DropKeeps(env, st, id); }
  }

  lemma RegistryOfInv(env: Env, st: Store, registry: Registry)
    requires Inv(env, st) && RegistryInv(env, registry)
    ensures Inv(env, st.(registry := registry)) && RegistryInv(env, st.registry)
  {}

  lemma RegistryPart(env: Env, st: Store)
    requires Inv(env, st)
    ensures RegistryInv(env, st.registry)
  {}

  lemma PublishDraftKeeps(env: Env, st: Store, id: nat, etag: nat)
    requires Inv(env, st)
    ensures Inv(env, PublishDraft(st, env, id, etag).0)
  {
    hide Inv, DropDraft, Publish, NormalizeObject;
    CurrentDraftFits(env, st, id, etag);
    if PublishDraft(st, env, id, etag).1.Ok? {
      NormalizedFits(env, st.drafts[id].content);
      var w := NormalizeObject(env.schema, st.drafts[id].content).value;
      RegistryPart(env, st);
      PublicationKeeps(env, st.registry, w, User, None);
      DropKeeps(env, st, id);
      RegistryOfInv(env, DropDraft(st, id), Publish(st.registry, env.hash, w, User, true, None).value.0);
    }
  }

  lemma CreateKeeps(env: Env, st: Store, w: Workflow, mayBePublished: bool)
    requires Inv(env, st) && env.schema(w) && Sound(Rows(w.lead, 1))
    ensures Inv(env, CreateDraft(st, env, w, mayBePublished).0)
  {
    hide Inv, InsertDraft, AcquireOwner, CurrentOf;
    ActiveDraftFits(env, st, w.id);
    var registry := AcquireOwner(st.registry, w.id);
    RegistryPart(env, st);
    AcquireKeeps(env, st.registry, w.id);
    RegistryOfInv(env, st, registry);
    if CreateDraft(st, env, w, mayBePublished).1.Ok? {
      InsertKeeps(env, st.(registry := registry), w, CurrentOf(registry, w.id));
    }
  }

  lemma OpenNewKeeps(env: Env, st: Store, id: string, description: string, note: Option<string>,
                     lead: Option<NewMember>)
    requires Inv(env, st)
    ensures Inv(env, OpenNew(st, env, id, description, note, lead).0)
  {
    hide Inv, CreateDraft, Accept;
    if BuildNew(env.schema, id, description, note, lead).Ok? {
      BuiltFits(env, id, description, note, lead);
      CreateKeeps(env, st, BuildNew(env.schema, id, description, note, lead).value, false);
    }
  }

  lemma BuiltFits(env: Env, id: string, description: string, note: Option<string>, lead: Option<NewMember>)
    requires BuildNew(env.schema, id, description, note, lead).Ok?
    ensures var w := BuildNew(env.schema, id, description, note, lead).value; env.schema(w) && Sound(Rows(w.lead, 1))
  {
    hide Accept, Sound, HasRetired, LegalWorkflow;
    var proposed := if lead.Some? then lead.value else NewMember(Details(None, None, None, None, None), NoChildren);
    Accepts(env.schema, Workflow(id, Some(description), note, Build(proposed, 1).0));
  }

  lemma {:induction false} RevisionAtIs(rows: seq<Revision>, no: nat)
    ensures RevisionAt(rows, no).Some? ==> RevisionAt(rows, no).value in rows
  {
    if rows != [] { RevisionAtIs(rows[1..], no); }
  }

  lemma OpenExistingKeeps(env: Env, st: Store, key: string)
    requires Inv(env, st)
    ensures Inv(env, OpenExisting(st, env, key).0)
  {
    hide Inv, InsertDraft, AcquireOwner, CurrentOf, RevisionsOf;
    ActiveDraftFits(env, st, key);
    var registry := AcquireOwner(st.registry, key);
    RegistryPart(env, st);
    AcquireKeeps(env, st.registry, key);
    RegistryOfInv(env, st, registry);
    if key !in st.byKey && CurrentOf(registry, key).Some? {
      var no := CurrentOf(registry, key).value;
      RevisionAtIs(RevisionsOf(registry, key), no);
      if RevisionAt(RevisionsOf(registry, key), no).Some? {
        var revision := RevisionAt(RevisionsOf(registry, key), no).value;
        RevisionFits(env, registry, key, revision);
        InsertKeeps(env, st.(registry := registry), revision.content, Some(no));
      }
    }
  }

  lemma RevisionFits(env: Env, registry: Registry, key: string, revision: Revision)
    requires RegistryInv(env, registry) && revision in RevisionsOf(registry, key)
    ensures env.schema(revision.content) && revision.content.id == key && Sound(Rows(revision.content.lead, 1))
  {
    hide Sound, KeyOk;
    assert RevisionsOk(env, registry, key);
  }

  lemma ImportKeeps(env: Env, st: Store, payload: Workflow, expected: Option<nat>)
    requires Inv(env, st)
    ensures Inv(env, ImportDraft(st, env, payload, expected).0)
  {
    hide Inv, WriteContent, CreateDraft, NormalizeObject, RaisedNext;
    if NormalizeObject(env.schema, payload).Ok? {
      NormalizedFits(env, payload);
      var w := NormalizeObject(env.schema, payload).value;
      ActiveDraftFits(env, st, w.id);
      if w.id !in st.byKey {
        CreateKeeps(env, st, w, true);
      } else {
        var id := st.byKey[w.id];
        ImportedKept(env, st.drafts[id], w);
        WriteKeeps(env, st, id, w, None);
      }
    }
  }

  lemma ImportedKept(env: Env, draft: Draft, w: Workflow)
    requires env.schema(w) && Sound(Rows(w.lead, 1)) && w.id == draft.key
    ensures Kept(env, w, env.hash(w), draft.key, RaisedNext(draft, w, None))
  {
    FreshKept(env, w, RaisedNext(draft, w, None));
  }

  lemma RemoveKeeps(env: Env, st: Store, key: string)
    requires Inv(env, st)
    ensures Inv(env, RemoveWorkflow(st, env, key).0)
  {
    hide Inv, DropDraft, CurrentOf, RevisionsOf, RegistryInv;
    ActiveDraftFits(env, st, key);
    var registry := AcquireOwner(st.registry, key);
    RegistryPart(env, st);
    AcquireKeeps(env, st.registry, key);
    RemoveKeepsRegistry(env, registry, key);
    assert registry == registry.(owners := registry.owners);
    var dropped := if key in st.byKey then DropDraft(st, st.byKey[key]) else st;
    if key in st.byKey { DropKeeps(env, st, st.byKey[key]); }
    var st' := RemoveWorkflow(st, env, key).0;
    if RemoveWorkflow(st, env, key).1.Ok? {
      assert st' == dropped.(registry := st'.registry);
      RegistryOfInv(env, dropped, st'.registry);
    }
  }

  lemma SeedKeeps(env: Env, st: Store, payload: Workflow)
    requires Inv(env, st)
    ensures Inv(env, SeedWorkflow(st, env, payload).0)
  {
    hide Inv, Publish, NormalizeObject;
    if NormalizeObject(env.schema, payload).Ok? {
      NormalizedFits(env, payload);
      var w := NormalizeObject(env.schema, payload).value;
      RegistryPart(env, st);
      PublicationKeeps(env, st.registry, w, StarterSeed, Some(StarterSeed));
      RegistryOfInv(env, st, Seed(st.registry, env.hash, w).value.0);
    }
  }

  lemma StepKeeps(env: Env, st: Store, step: Step)
    requires Inv(env, st)
    ensures Inv(env, Apply(st, env, step).0)
  {
    hide Inv, OpenNew, OpenExisting, ImportDraft, EditDraft, UndoDraft, DiscardDraft, PublishDraft, RemoveWorkflow,
      SeedWorkflow;
    match step
    case DoOpenNew(id, description, note, lead) => OpenNewKeeps(env, st, id, description, note, lead);
    case DoOpenExisting(key) => OpenExistingKeeps(env, st, key);
    case DoImport(payload, expected) => ImportKeeps(env, st, payload, expected);
    case DoEdit(id, etag, op) => EditKeeps(env, st, id, etag, op);
    case DoUndo(id, etag, receiptId) => UndoKeeps(env, st, id, etag, receiptId);
    case DoDiscard(id, etag) => DiscardKeeps(env, st, id, etag);
    case DoPublish(id, etag) => PublishDraftKeeps(env, st, id, etag);
    case DoRemove(key) => RemoveKeeps(env, st, key);
    case DoSeed(payload) => SeedKeeps(env, st, payload);
  }

  /**
    Every reachable state: hashes match contents, trees are sound, next numbers
    are above all present and saved numbers.
  */
  lemma {:induction false} RunKeeps(env: Env, st: Store, steps: seq<Step>)
    requires Inv(env, st)
    ensures Inv(env, Run(st, env, steps))
    decreases |steps|
  {
    hide Inv, DraftProtocol.Apply;
    if steps != [] {
      StepKeeps(env, st, steps[0]);
      RunKeeps(env, Apply(st, env, steps[0]).0, steps[1..]);
    }
  }

  lemma ReachableInv(env: Env, steps: seq<Step>)
    ensures Inv(env, Run(EMPTY_STORE, env, steps))
  {
    EmptyInv(env);
    RunKeeps(env, EMPTY_STORE, steps);
  }
}
