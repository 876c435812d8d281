/** Published revisions over every run of user publication, removal and starter seeding. */
module RegistryRuns {
  import opened Basics
  import opened WorkflowEdits
  import opened Publication
  import opened DraftProtocol
  import opened DraftInvariant
  import opened DraftRuns
  import opened DraftContents

  /** The current revision is one that a user published. */
  predicate UserCurrent(registry: Registry, key: string) {
    var current, rows := CurrentOf(registry, key), RevisionsOf(registry, key);
    current.Some? && 1 <= current.value <= |rows| && rows[current.value - 1].provenance == User
  }

  predicate RemovedWithHistory(registry: Registry, key: string) {
    CurrentOf(registry, key).None? && RevisionsOf(registry, key) != []
  }

  /** The step is neither a user's publication nor a removal of the workflow. */
  predicate LeavesAlone(env: Env, st: Store, step: Step, key: string) {
    match step
    case DoPublish(id, _) =>
      id in st.drafts ==>
        var normalized := NormalizeObject(env.schema, st.drafts[id].content);
        normalized.Ok? ==> normalized.value.id != key
    case DoRemove(removed) => removed != key
    case _ => true
  }

  /** What one step may do to one workflow's revisions. */
  ghost predicate Respects(env: Env, st: Store, step: Step, key: string, registry': Registry) {
    && RevisionsOf(st.registry, key) <= RevisionsOf(registry', key)
    && (LeavesAlone(env, st, step, key) && (UserCurrent(st.registry, key) || RemovedWithHistory(st.registry, key)) ==>
         CurrentOf(registry', key) == CurrentOf(st.registry, key))
  }

  lemma AcquireRespects(env: Env, st: Store, step: Step, acquired: string, key: string)
    ensures Respects(env, st, step, key, AcquireOwner(st.registry, acquired))
    ensures Respects(env, st, step, key, st.registry)
  {}

  lemma PublishRespects(env: Env, st: Store, step: Step, w: Workflow, key: string)
    requires RegistryInv(env, st.registry)
    requires key == w.id ==> !LeavesAlone(env, st, step, key)
    ensures var r := Publish(st.registry, env.hash, w, User, true, None);
      r.Ok? ==> Respects(env, st, step, key, r.value.0)
  {
    hide Publish, KeyOk, MaySelect, LeavesAlone;
    assert RevisionsOk(env, st.registry, w.id);
    PublishKeeps(st.registry, env.hash, w, User, true, None);
  }

  lemma SeedRespects(env: Env, st: Store, step: Step, w: Workflow, key: string)
    requires RegistryInv(env, st.registry)
    ensures var r := Seed(st.registry, env.hash, w); r.Ok? ==> Respects(env, st, step, key, r.value.0)
  {
    hide Publish, KeyOk, LeavesAlone;
    assert RevisionsOk(env, st.registry, w.id);
    PublishKeeps(st.registry, env.hash, w, StarterSeed, true, Some(StarterSeed));
    SeedRespectsTheUser(st.registry, env.hash, w);
  }

  lemma RemoveRespects(env: Env, st: Store, step: Step, removed: string, key: string)
    requires step == DoRemove(removed)
    ensures var registry := AcquireOwner(st.registry, removed);
      && Respects(env, st, step, key, registry.(owners := registry.owners[removed := None]))
      && (RevisionsOf(registry, removed) == [] ==>
        Respects(env, st, step, key, registry.(owners := registry.owners - {removed})))
      && Respects(env, st, step, key, registry)
  {}

  lemma StepRespects(env: Env, st: Store, step: Step, key: string)
    requires Inv(env, st)
    ensures Respects(env, st, step, key, Apply(st, env, step).0.registry)
  {
    hide Inv, Respects, Publish, NormalizeObject, BuildNew, Edit, InsertDraft, WriteContent, RestoreContent, DropDraft;
    RegistryPart(env, st);
    AcquireRespects(env, st, step, key, key);
    match step
    case DoOpenNew(id, description, note, lead) =>
      if BuildNew(env.schema, id, description, note, lead).Ok? {
        var w := BuildNew(env.schema, id, description, note, lead).value;
        CreateRegistry(env, st, w, false);
        AcquireRespects(env, st, step, w.id, key);
      }
    case DoOpenExisting(opening) => InsertRegistry(env, st, opening); AcquireRespects(env, st, step, opening, key);
    case DoImport(payload, expected) =>
      if NormalizeObject(env.schema, payload).Ok? {
        var w := NormalizeObject(env.schema, payload).value;
        CreateRegistry(env, st, w, true);
        AcquireRespects(env, st, step, w.id, key);
        ImportRegistry(env, st, payload, expected);
      }
    case DoEdit(id, etag, op) => EditRegistry(env, st, id, etag, op);
    case DoUndo(id, etag, receiptId) => UndoRegistry(env, st, id, etag, receiptId);
    case DoDiscard(id, etag) => DropRegistry(st, id);
    case DoPublish(id, etag) =>
      if PublishDraft(st, env, id, etag).1.Ok? {
        PublishRespects(env, st, step, NormalizeObject(env.schema, st.drafts[id].content).value, key);
      }
    case DoRemove(removed) => RemoveRespects(env, st, step, removed, key); RemoveRegistry(env, st, removed);
    case DoSeed(payload) =>
      if NormalizeObject(env.schema, payload).Ok? {
        SeedRespects(env, st, step, NormalizeObject(env.schema, payload).value, key);
      }
  }

  lemma CreateRegistry(env: Env, st: Store, w: Workflow, mayBePublished: bool)
    ensures CreateDraft(st, env, w, mayBePublished).0.registry in {st.registry, AcquireOwner(st.registry, w.id)}
  {}

  lemma InsertRegistry(env: Env, st: Store, key: string)
    ensures OpenExisting(st, env, key).0.registry in {st.registry, AcquireOwner(st.registry, key)}
  {}

  lemma ImportRegistry(env: Env, st: Store, payload: Workflow, expected: Option<nat>)
    requires NormalizeObject(env.schema, payload).Ok?
    ensures ImportDraft(st, env, payload, expected).0.registry
      in {st.registry, CreateDraft(st, env, NormalizeObject(env.schema, payload).value, true).0.registry}
  {
    hide NormalizeObject, CreateDraft;
  }

  lemma EditRegistry(env: Env, st: Store, id: nat, etag: nat, op: Operation)
    ensures EditDraft(st, env, id, etag, op).0.registry == st.registry
  {
    hide Edit;
  }

  lemma UndoRegistry(env: Env, st: Store, id: nat, etag: nat, receiptId: nat)
    ensures UndoDraft(st, env, id, etag, receiptId).0.registry == st.registry
  {}

  lemma DropRegistry(st: Store, id: nat)
    ensures id in st.drafts ==> DropDraft(st, id).registry == st.registry
  {}

  lemma RemoveRegistry(env: Env, st: Store, key: string)
    ensures var acquired := AcquireOwner(st.registry, key);
      var registry' := RemoveWorkflow(st, env, key).0.registry;
      || registry' == st.registry
      || registry' == acquired.(owners := acquired.owners[key := None])
      || (RevisionsOf(acquired, key) == [] && registry' == acquired.(owners := acquired.owners - {key}))
      || registry' == acquired
  {}

  /** The step, and then every later step of the run, leaves the workflow alone. */
  predicate Quiet(env: Env, st: Store, steps: seq<Step>, key: string)
    decreases |steps|
  {
    steps == [] || (LeavesAlone(env, st, steps[0], key) && Quiet(env, Apply(st, env, steps[0]).0, steps[1..], key))
  }

  /** Published revisions never change, never disappear and keep their numbers. */
  lemma {:induction false} RevisionsAreImmutable(env: Env, st: Store, steps: seq<Step>, key: string)
    requires Inv(env, st)
    ensures RevisionsOf(st.registry, key) <= RevisionsOf(Run(st, env, steps).registry, key)
    ensures TableOk(RevisionsOf(Run(st, env, steps).registry, key))
    decreases |steps|
  {
    hide Inv, Apply, TableOk, LeavesAlone;
    if steps == [] {
      RegistryPart(env, st);
      assert RevisionsOk(env, st.registry, key);
      KeyTable(st.registry, env.hash, key);
    } else {
      StepKeeps(env, st, steps[0]);
      StepRespects(env, st, steps[0], key);
      RevisionsAreImmutable(env, Apply(st, env, steps[0]).0, steps[1..], key);
    }
  }

  /** In every reachable state a set current revision exists. */
  lemma CurrentExists(env: Env, steps: seq<Step>, key: string)
    ensures var registry := Run(EMPTY_STORE, env, steps).registry;
      CurrentOf(registry, key).Some? ==>
        && 1 <= CurrentOf(registry, key).value <= |RevisionsOf(registry, key)|
        && RevisionsOf(registry, key)[CurrentOf(registry, key).value - 1].no == CurrentOf(registry, key).value
  {
    hide Inv;
    ReachableInv(env, steps);
    var st := Run(EMPTY_STORE, env, steps);
    RegistryPart(env, st);
    assert RevisionsOk(env, st.registry, key);
  }

  /**
    While the user neither publishes nor removes the workflow, seeding, however
    often, leaves a user-published revision current and a removed workflow
    removed.
  */
  lemma {:induction false} SeedingRespectsTheUser(env: Env, st: Store, steps: seq<Step>, key: string)
    requires Inv(env, st) && Quiet(env, st, steps, key)
    requires UserCurrent(st.registry, key) || RemovedWithHistory(st.registry, key)
    ensures CurrentOf(Run(st, env, steps).registry, key) == CurrentOf(st.registry, key)
    decreases |steps|
  {
    hide Inv, Apply, LeavesAlone;
    if steps != [] {
      StepKeeps(env, st, steps[0]);
      StepRespects(env, st, steps[0], key);
      SeedingRespectsTheUser(env, Apply(st, env, steps[0]).0, steps[1..], key);
    }
  }

  /** The step is a user's publication of this workflow, and it is accepted. */
  predicate Publishes(env: Env, st: Store, step: Step, key: string) {
    && step.DoPublish? && step.publishId in st.drafts
    && NormalizeObject(env.schema, st.drafts[step.publishId].content).Ok?
    && NormalizeObject(env.schema, st.drafts[step.publishId].content).value.id == key
    && Apply(st, env, step).1.Ok?
  }

  /** No user publishes the workflow in the course of these steps. */
  predicate NeverPublishes(env: Env, st: Store, steps: seq<Step>, key: string)
    decreases |steps|
  {
    steps == [] ||
    (!Publishes(env, st, steps[0], key) && NeverPublishes(env, Apply(st, env, steps[0]).0, steps[1..], key))
  }

  lemma StepKeepsRemoved(env: Env, st: Store, step: Step, key: string)
    requires Inv(env, st) && RemovedWithHistory(st.registry, key) && !Publishes(env, st, step, key)
    ensures RemovedWithHistory(Apply(st, env, step).0.registry, key)
  {
    hide Inv, NormalizeObject, PublishDraft, RemoveWorkflow, Deletes;
    StepRespects(env, st, step, key);
    if step.DoRemove? { RemovalRemoves(env, st, step.removeKey); }
    if step.DoPublish? { PublishStores(env, st, step.publishId, step.publishEtag); }
  }

  lemma {:induction false} StaysRemoved(env: Env, st: Store, steps: seq<Step>, key: string)
    requires Inv(env, st) && RemovedWithHistory(st.registry, key) && NeverPublishes(env, st, steps, key)
    ensures RemovedWithHistory(Run(st, env, steps).registry, key)
    decreases |steps|
  {
    hide Inv, Apply, RemovedWithHistory, Publishes;
    if steps != [] {
      StepKeeps(env, st, steps[0]);
      StepKeepsRemoved(env, st, steps[0], key);
      StaysRemoved(env, Apply(st, env, steps[0]).0, steps[1..], key);
    }
  }

  /** An accepted publication makes the user's revision current. */
  lemma PublicationIsCurrent(env: Env, st: Store, step: Step, key: string)
    requires Inv(env, st) && Publishes(env, st, step, key)
    ensures UserCurrent(Apply(st, env, step).0.registry, key)
  {
    hide Inv, NormalizeObject, PublishDraft, Deletes, SameElsewhere;
    PublishStores(env, st, step.publishId, step.publishEtag);
  }

  /**
    A workflow with revisions that a user removed has no current revision in any
    later state until a user publishes it, however often it is seeded, opened,
    imported or removed again; its revisions are all still there. Publishing it
    makes the user's revision current.
  */
  lemma RemovedUntilPublished(env: Env, st: Store, key: string, steps: seq<Step>, publication: Step)
    requires Inv(env, st) && RevisionsOf(st.registry, key) != [] && RemoveWorkflow(st, env, key).1.Ok?
    requires NeverPublishes(env, RemoveWorkflow(st, env, key).0, steps, key)
    ensures var later := Run(RemoveWorkflow(st, env, key).0, env, steps);
      && CurrentOf(later.registry, key) == None
      && RevisionsOf(st.registry, key) <= RevisionsOf(later.registry, key)
      && (Publishes(env, later, publication, key) ==>
           UserCurrent(Apply(later, env, publication).0.registry, key))
  {
    hide Inv, RemoveWorkflow, Deletes, Publishes, UserCurrent, Apply;
    RemovalRemoves(env, st, key);
    RemoveKeeps(env, st, key);
    var removed := RemoveWorkflow(st, env, key).0;
    StaysRemoved(env, removed, steps, key);
    RevisionsAreImmutable(env, removed, steps, key);
    RunKeeps(env, removed, steps);
    var later := Run(removed, env, steps);
    if Publishes(env, later, publication, key) { PublicationIsCurrent(env, later, publication, key); }
  }

  /** Publishing content that the user published before returns its old number and adds nothing. */
  lemma RepublishReturnsTheOldNumber(env: Env, st: Store, id: nat, etag: nat, no: nat)
    requires Inv(env, st) && PublishDraft(st, env, id, etag).1.Ok?
    requires var w := NormalizeObject(env.schema, st.drafts[id].content).value;
      var rows := RevisionsOf(st.registry, w.id);
      1 <= no <= |rows| && rows[no - 1].hash == env.hash(w) && rows[no - 1].provenance == User
    ensures var w := NormalizeObject(env.schema, st.drafts[id].content).value;
      && PublishDraft(st, env, id, etag).1 == Ok(no)
      && RevisionsOf(PublishDraft(st, env, id, etag).0.registry, w.id) == RevisionsOf(st.registry, w.id)
      && CurrentOf(PublishDraft(st, env, id, etag).0.registry, w.id) == Some(no)
  {
    hide Inv, Publish, NormalizeObject;
    var w := NormalizeObject(env.schema, st.drafts[id].content).value;
    RegistryPart(env, st);
    assert RevisionsOk(env, st.registry, w.id);
    PublishKeeps(st.registry, env.hash, w, User, true, None);
  }
}
