/** How drafts evolve over runs: one linear chain of versions per draft, single-use undo, numbers issued once. */
module DraftHistory {
  import opened Basics
  import opened WorkflowEdits
  import opened Publication
  import opened DraftProtocol
  import opened DraftInvariant
  import opened DraftRuns

  // ---------------------------------------------------------------- what a step writes

  /** The one write to the draft and receipt tables that a transaction makes, if any. */
  datatype RowWrite =
    | NoWrite
    | Inserts(inserted: Workflow, base: Option<nat>)
    | Writes(id: nat, w: Workflow, next: Option<nat>)
    | Restores(id: nat, receiptId: nat)
    | Drops(id: nat)

  predicate Possible(st: Store, write: RowWrite) {
    match write
    case NoWrite => true
    case Inserts(_, _) => true
    case Writes(id, _, _) => id in st.drafts
    case Restores(id, receiptId) => id in st.drafts && receiptId in st.receipts
    case Drops(id) => id in st.drafts
  }

  function Effect(st: Store, env: Env, write: RowWrite): Store
    requires Possible(st, write)
  {
    match write
    case NoWrite => st
    case Inserts(w, base) => InsertDraft(st, env, w, base)
    case Writes(id, w, next) => WriteContent(st, env, id, w, next)
    case Restores(id, receiptId) => RestoreContent(st, id, receiptId)
    case Drops(id) => DropDraft(st, id)
  }

  /** The step presents this ETag as the one it expects. */
  predicate Presents(step: Step, etag: nat) {
    match step
    case DoImport(_, expected) => expected == Some(etag)
    case DoEdit(_, presented, _) => presented == etag
    case DoUndo(_, presented, _) => presented == etag
    case DoDiscard(_, presented) => presented == etag
    case DoPublish(_, presented) => presented == etag
    case _ => false
  }

  /** Why a step may make its write. */
  predicate Justified(st: Store, step: Step, write: RowWrite)
    requires Possible(st, write)
  {
    match write
    case NoWrite => true
    case Inserts(_, _) => true
    case Writes(id, _, _) => Presents(step, st.drafts[id].etag)
    case Restores(id, receiptId) =>
      && step == DoUndo(id, st.drafts[id].etag, receiptId)
      && st.receipts[receiptId].draftId == id
      && !st.receipts[receiptId].consumed
      && st.receipts[receiptId].expectedEtag == st.drafts[id].etag
    case Drops(id) => Presents(step, st.drafts[id].etag) || step == DoRemove(st.drafts[id].key)
  }

  ghost predicate Performs(env: Env, st: Store, step: Step, write: RowWrite) {
    && Possible(st, write)
    && Justified(st, step, write)
    && Apply(st, env, step).0 == Effect(st, env, write).(registry := Apply(st, env, step).0.registry)
  }

  /** Every step makes exactly one justified write, and a refused step makes none. */
  lemma StepPerforms(env: Env, st: Store, step: Step) returns (write: RowWrite)
    requires Inv(env, st)
    ensures Performs(env, st, step, write)
    ensures Apply(st, env, step).1.Err? ==> Apply(st, env, step).0 == st && write == NoWrite
  {
    hide Inv, InsertDraft, WriteContent, RestoreContent, DropDraft, Edit, Publish, NormalizeObject, BuildNew,
      AcquireOwner;
    write := NoWrite;
    match step {
      case DoOpenNew(id, description, note, lead) =>
        if Apply(st, env, step).1.Ok? {
          var w := BuildNew(env.schema, id, description, note, lead).value;
          ActiveDraftFits(env, st, w.id);
          write := Inserts(w, CurrentOf(AcquireOwner(st.registry, w.id), w.id));
          InsertIgnoresRegistry(st, env, w, write.base, AcquireOwner(st.registry, w.id));
        }
      case DoOpenExisting(key) =>
        ActiveDraftFits(env, st, key);
        if Apply(st, env, step).1.Ok? && key !in st.byKey {
          var registry := AcquireOwner(st.registry, key);
          var no := CurrentOf(registry, key).value;
          write := Inserts(RevisionAt(RevisionsOf(registry, key), no).value.content, Some(no));
          InsertIgnoresRegistry(st, env, write.inserted, write.base, registry);
        }
      case DoImport(payload, expected) =>
        if Apply(st, env, step).1.Ok? {
          var w := NormalizeObject(env.schema, payload).value;
          ActiveDraftFits(env, st, w.id);
          if w.id !in st.byKey {
            write := Inserts(w, CurrentOf(AcquireOwner(st.registry, w.id), w.id));
            InsertIgnoresRegistry(st, env, w, write.base, AcquireOwner(st.registry, w.id));
          } else if st.drafts[st.byKey[w.id]].hash != env.hash(w) {
            write := Writes(st.byKey[w.id], w, None);
          }
        }
      case DoEdit(id, etag, op) =>
        if Apply(st, env, step).1.Ok? {
          CurrentDraftFits(env, st, id, etag);
          var (w, next) := Edit(env.schema, st.drafts[id].content, op, st.drafts[id].next).value;
          write := Writes(id, w, Some(next));
        }
      case DoUndo(id, etag, receiptId) =>
        if Apply(st, env, step).1.Ok? { write := Restores(id, receiptId); }
      case DoDiscard(id, etag) =>
        if Apply(st, env, step).1.Ok? { write := Drops(id); }
      case DoPublish(id, etag) =>
        if Apply(st, env, step).1.Ok? { write := Drops(id); }
      case DoRemove(key) =>
        ActiveDraftFits(env, st, key);
        if Apply(st, env, step).1.Ok? && key in st.byKey { write := Drops(st.byKey[key]); }
      case DoSeed(payload) =>
    }
  }

  lemma InsertIgnoresRegistry(st: Store, env: Env, w: Workflow, base: Option<nat>, registry: Registry)
    ensures InsertDraft(st.(registry := registry), env, w, base) == InsertDraft(st, env, w, base).(registry := registry)
  {}

  // ---------------------------------------------------------------- the order of states

  /** A surviving draft is the same, or has a later ETag; its next member number never falls. */
  ghost predicate DraftLater(tokens: nat, d: Draft, d': Draft) {
    && d'.key == d.key && d'.base == d.base && d.next <= d'.next
    && (d' == d || d'.etag >= tokens)
  }

  ghost predicate ReceiptLater(r: Receipt, r': Receipt) {
    r' == r || r' == r.(consumed := true)
  }

  ghost predicate Later(st: Store, st': Store) {
    && st.tokens <= st'.tokens
    && (forall id :: id in st'.drafts ==>
         if id in st.drafts then DraftLater(st.tokens, st.drafts[id], st'.drafts[id])
         else id >= st.tokens && st'.drafts[id].etag >= st.tokens)
    && (forall r :: r in st'.receipts ==>
         if r in st.receipts then ReceiptLater(st.receipts[r], st'.receipts[r])
         else r >= st.tokens && st'.receipts[r].expectedEtag >= st.tokens)
  }

  lemma EffectLater(env: Env, st: Store, write: RowWrite)
    requires Inv(env, st) && Possible(st, write)
    ensures Later(st, Effect(st, env, write))
  {
    hide Inv;
    FreshTokens(env, st);
  }

  lemma FreshTokens(env: Env, st: Store)
    requires Inv(env, st)
    ensures forall id :: id in st.drafts ==> id < st.tokens && st.drafts[id].etag < st.tokens
    ensures forall r :: r in st.receipts ==> r < st.tokens && st.receipts[r].expectedEtag < st.tokens
  {
    hide Kept, RegistryInv;
    forall id | id in st.drafts ensures id < st.tokens && st.drafts[id].etag < st.tokens {
      assert DraftOk(env, st.tokens, st.byKey, id, st.drafts[id]);
    }
    forall r | r in st.receipts ensures r < st.tokens && st.receipts[r].expectedEtag < st.tokens {
      assert ReceiptOk(env, st.tokens, st.drafts, r, st.receipts[r]);
    }
  }

  lemma StepLater(env: Env, st: Store, step: Step)
    requires Inv(env, st)
    ensures Later(st, Apply(st, env, step).0)
  {
    hide Inv, Apply, Effect;
    var write := StepPerforms(env, st, step);
    EffectLater(env, st, write);
    LaterIgnoresRegistry(st, Effect(st, env, write), Apply(st, env, step).0.registry);
  }

  lemma LaterIgnoresRegistry(st: Store, st': Store, registry: Registry)
    requires Later(st, st')
    ensures Later(st, st'.(registry := registry))
  {}

  lemma LaterTransitive(env: Env, a: Store, b: Store, c: Store)
    requires Inv(env, a) && Later(a, b) && Later(b, c)
    ensures Later(a, c)
  {
    hide Kept, RegistryInv;
    forall id | id in c.drafts
      ensures if id in a.drafts then DraftLater(a.tokens, a.drafts[id], c.drafts[id])
              else id >= a.tokens && c.drafts[id].etag >= a.tokens
    {
      if id in a.drafts {
        assert DraftOk(env, a.tokens, a.byKey, id, a.drafts[id]);
        if id in b.drafts {
          assert DraftLater(a.tokens, a.drafts[id], b.drafts[id]) && DraftLater(b.tokens, b.drafts[id], c.drafts[id]);
        }
      }
    }
    forall r | r in c.receipts
      ensures if r in a.receipts then ReceiptLater(a.receipts[r], c.receipts[r])
              else r >= a.tokens && c.receipts[r].expectedEtag >= a.tokens
    {
      if r in a.receipts { assert ReceiptOk(env, a.tokens, a.drafts, r, a.receipts[r]); }
    }
  }

  lemma {:induction false} RunLater(env: Env, st: Store, steps: seq<Step>)
    requires Inv(env, st)
    ensures Later(st, Run(st, env, steps))
    decreases |steps|
  {
    hide Inv, Apply, Later;
    if steps == [] {
      LaterReflexive(st);
    } else {
      var next := Apply(st, env, steps[0]).0;
      StepKeeps(env, st, steps[0]);
      StepLater(env, st, steps[0]);
      RunLater(env, next, steps[1..]);
      LaterTransitive(env, st, next, Run(next, env, steps[1..]));
    }
  }

  lemma LaterReflexive(st: Store)
    ensures Later(st, st)
  {}

  // ---------------------------------------------------------------- no lost update

  /** The draft that has the ETag now no longer has it afterwards. */
  ghost predicate Spends(st: Store, st': Store, etag: nat) {
    exists id :: id in st.drafts && st.drafts[id].etag == etag && (id !in st'.drafts || st'.drafts[id].etag != etag)
  }

  /**
    An accepted edit, undo, discard or publication spends the ETag it presents,
    and so does an import that replaces content.
  */
  lemma AcceptedHolderSpends(env: Env, st: Store, step: Step, etag: nat)
    requires Inv(env, st) && Presents(step, etag)
    requires var after := Apply(st, env, step);
      && after.1.Ok?
      && (step.DoImport? ==>
        exists id :: id in st.drafts && id in after.0.drafts && after.0.drafts[id] != st.drafts[id])
    ensures Spends(st, Apply(st, env, step).0, etag)
  {
    hide Inv, Edit, Publish, NormalizeObject, BuildNew;
    FreshTokens(env, st);
    match step
    case DoEdit(id, _, _) => CurrentDraftFits(env, st, id, etag);
    case DoUndo(id, _, _) => CurrentDraftFits(env, st, id, etag);
    case DoDiscard(id, _) => CurrentDraftFits(env, st, id, etag);
    case DoPublish(id, _) => CurrentDraftFits(env, st, id, etag);
    case DoImport(payload, _) =>
      var w := NormalizeObject(env.schema, payload).value;
      ActiveDraftFits(env, st, w.id);
  }

  /** No draft has the ETag, and none will. */
  ghost predicate Spent(st: Store, etag: nat) {
    etag < st.tokens && forall id :: id in st.drafts ==> st.drafts[id].etag != etag
  }

  lemma SpentAfterSpending(env: Env, st: Store, st': Store, etag: nat)
    requires Inv(env, st) && Later(st, st') && Spends(st, st', etag)
    ensures Spent(st', etag)
  {
    hide Kept, RegistryInv;
    var id :| id in st.drafts && st.drafts[id].etag == etag && (id !in st'.drafts || st'.drafts[id].etag != etag);
    assert DraftOk(env, st.tokens, st.byKey, id, st.drafts[id]);
    forall other | other in st'.drafts ensures st'.drafts[other].etag != etag {
      if other in st.drafts { assert DraftLater(st.tokens, st.drafts[other], st'.drafts[other]); }
    }
  }

  lemma SpentStays(st: Store, st': Store, etag: nat)
    requires Later(st, st') && Spent(st, etag)
    ensures Spent(st', etag)
  {
    forall other | other in st'.drafts ensures st'.drafts[other].etag != etag {
      if other in st.drafts { assert DraftLater(st.tokens, st.drafts[other], st'.drafts[other]); }
    }
  }

  /**
    Of all requests that present one ETag, at most one takes effect on the draft
    that has it: once one did, any later one leaves every draft as it is, in
    whatever order other transactions run in between.
  */
  lemma AtMostOneHolderWins(env: Env, st: Store, first: Step, between: seq<Step>, second: Step, etag: nat)
    requires Inv(env, st) && Spends(st, Apply(st, env, first).0, etag) && Presents(second, etag)
    ensures var before := Run(Apply(st, env, first).0, env, between);
      var after := Apply(before, env, second);
      && (forall id :: id in before.drafts ==> id in after.0.drafts && after.0.drafts[id] == before.drafts[id])
      && (!second.DoImport? ==> after.0 == before && (after.1 == Err(NotFound) || after.1 == Err(Stale)))
  {
    hide Inv, Apply, Later, Spends, Spent;
    var won := Apply(st, env, first).0;
    StepKeeps(env, st, first);
    StepLater(env, st, first);
    SpentAfterSpending(env, st, won, etag);
    RunKeeps(env, won, between);
    RunLater(env, won, between);
    var before := Run(won, env, between);
    SpentStays(won, before, etag);
    LateHolder(env, before, second, etag);
  }

  lemma LateHolder(env: Env, st: Store, step: Step, etag: nat)
    requires Inv(env, st) && Spent(st, etag) && Presents(step, etag)
    ensures var after := Apply(st, env, step);
      && (forall id :: id in st.drafts ==> id in after.0.drafts && after.0.drafts[id] == st.drafts[id])
      && (!step.DoImport? ==> after.0 == st && (after.1 == Err(NotFound) || after.1 == Err(Stale)))
  {
    hide Apply, Kept, RegistryInv, Inv;
    var write := StepPerforms(env, st, step);
    FreshTokens(env, st);
    if !step.DoImport? { LateHolderRefused(env, st, step, etag); }
  }

  lemma LateHolderRefused(env: Env, st: Store, step: Step, etag: nat)
    requires Inv(env, st) && Spent(st, etag) && Presents(step, etag) && !step.DoImport?
    ensures Apply(st, env, step) == (st, Err(NotFound)) || Apply(st, env, step) == (st, Err(Stale))
  {
    hide Inv, Edit, Publish, NormalizeObject;
    match step
    case DoEdit(id, _, _) => CurrentDraftFits(env, st, id, etag);
    case DoUndo(id, _, _) => CurrentDraftFits(env, st, id, etag);
    case DoDiscard(id, _) => CurrentDraftFits(env, st, id, etag);
    case DoPublish(id, _) => CurrentDraftFits(env, st, id, etag);
    case _ =>
  }

  /** Nobody changes or deletes a draft without presenting its current ETag, except by removing the whole workflow. */
  lemma ChangeNeedsTheEtag(env: Env, st: Store, step: Step, id: nat)
    requires Inv(env, st) && id in st.drafts
    requires var st' := Apply(st, env, step).0; id !in st'.drafts || st'.drafts[id] != st.drafts[id]
    ensures Presents(step, st.drafts[id].etag) || step == DoRemove(st.drafts[id].key)
  {
    hide Apply, Inv;
    var write := StepPerforms(env, st, step);
    FreshTokens(env, st);
  }
}
