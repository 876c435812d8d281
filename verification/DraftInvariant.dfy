/** What every draft transaction keeps, table by table. */
module DraftInvariant {
  import opened Basics
  import opened MemberTree
  import opened MemberIds
  import opened WorkflowRules
  import opened WorkflowEdits
  import opened Publication
  import opened DraftProtocol

  /** A content that may be stored under a key, with its hash and with a next member number above all of its numbers. */
  ghost predicate Kept(env: Env, content: Workflow, hash: string, key: string, next: nat) {
    && env.schema(content) && content.id == key
    && Sound(Rows(content.lead, 1))
    && hash == env.hash(content)
    && NumbersBelow(Rows(content.lead, 1), next)
  }

  ghost predicate DraftOk(env: Env, tokens: nat, byKey: map<string, nat>, id: nat, d: Draft) {
    && Kept(env, d.content, d.hash, d.key, d.next)
    && id < tokens && d.etag < tokens
    && d.key in byKey && byKey[d.key] == id
  }

  ghost predicate ReceiptOk(env: Env, tokens: nat, drafts: map<nat, Draft>, id: nat, r: Receipt) {
    && r.draftId in drafts
    && Kept(env, r.previousContent, r.previousHash, drafts[r.draftId].key, drafts[r.draftId].next)
    && id < tokens && r.expectedEtag < tokens
  }

  ghost predicate DraftsOk(env: Env, tokens: nat, drafts: map<nat, Draft>, byKey: map<string, nat>) {
    && (forall id :: id in drafts ==> DraftOk(env, tokens, byKey, id, drafts[id]))
    && (forall i, j :: i in drafts && j in drafts && i != j ==> drafts[i].etag != drafts[j].etag)
    && (forall key :: key in byKey ==> byKey[key] in drafts && drafts[byKey[key]].key == key)
  }

  ghost predicate ReceiptsOk(env: Env, tokens: nat, drafts: map<nat, Draft>, receipts: map<nat, Receipt>) {
    && (forall r :: r in receipts ==> ReceiptOk(env, tokens, drafts, r, receipts[r]))
    && (forall i, j :: i in receipts && j in receipts && i != j ==>
      receipts[i].expectedEtag != receipts[j].expectedEtag)
  }

  ghost predicate RevisionsOk(env: Env, registry: Registry, key: string) {
    && KeyOk(registry, env.hash, key)
    && forall i :: 0 <= i < |RevisionsOf(registry, key)| ==>
         var content := RevisionsOf(registry, key)[i].content;
         env.schema(content) && content.id == key && Sound(Rows(content.lead, 1))
  }

  ghost predicate RegistryInv(env: Env, registry: Registry) {
    forall key :: RevisionsOk(env, registry, key)
  }

  ghost predicate Inv(env: Env, st: Store) {
    && DraftsOk(env, st.tokens, st.drafts, st.byKey)
    && ReceiptsOk(env, st.tokens, st.drafts, st.receipts)
    && RegistryInv(env, st.registry)
  }

  lemma EmptyInv(env: Env)
    ensures Inv(env, EMPTY_STORE)
  {}

  lemma KeptUnder(env: Env, content: Workflow, hash: string, key: string, next: nat, next': nat)
    requires Kept(env, content, hash, key, next) && next <= next'
    ensures Kept(env, content, hash, key, next')
  {}

  /** Fresh content is kept from its own next number on. */
  lemma FreshKept(env: Env, w: Workflow, next: nat)
    requires env.schema(w) && Sound(Rows(w.lead, 1)) && NextSequence(w.lead) <= next
    ensures Kept(env, w, env.hash(w), w.id, next)
  {
    NextSequenceIsLeast(w.lead, next);
  }

  // ---------------------------------------------------------------- inserting a draft

  lemma InsertKeeps(env: Env, st: Store, w: Workflow, base: Option<nat>)
    requires Inv(env, st) && w.id !in st.byKey
    requires env.schema(w) && Sound(Rows(w.lead, 1))
    ensures Inv(env, InsertDraft(st, env, w, base))
  {
    hide Kept, RegistryInv, DraftsOk, ReceiptsOk;
    FreshKept(env, w, NextSequence(w.lead));
    InsertKeepsDrafts(env, st, w, base);
    InsertKeepsReceipts(env, st, w, base);
  }

  lemma InsertKeepsDrafts(env: Env, st: Store, w: Workflow, base: Option<nat>)
    requires DraftsOk(env, st.tokens, st.drafts, st.byKey) && w.id !in st.byKey
    requires Kept(env, w, env.hash(w), w.id, NextSequence(w.lead))
    ensures var st' := InsertDraft(st, env, w, base); DraftsOk(env, st'.tokens, st'.drafts, st'.byKey)
  {
    hide Kept;
    var st' := InsertDraft(st, env, w, base);
    forall id | id in st'.drafts ensures DraftOk(env, st'.tokens, st'.byKey, id, st'.drafts[id]) {
      if id != st.tokens { assert DraftOk(env, st.tokens, st.byKey, id, st.drafts[id]); }
    }
    forall id | id in st.drafts ensures st.drafts[id].etag < st.tokens && id < st.tokens {
      assert DraftOk(env, st.tokens, st.byKey, id, st.drafts[id]);
    }
  }

  lemma InsertKeepsReceipts(env: Env, st: Store, w: Workflow, base: Option<nat>)
    requires DraftsOk(env, st.tokens, st.drafts, st.byKey) && ReceiptsOk(env, st.tokens, st.drafts, st.receipts)
    ensures var st' := InsertDraft(st, env, w, base); ReceiptsOk(env, st'.tokens, st'.drafts, st'.receipts)
  {
    hide Kept;
    var st' := InsertDraft(st, env, w, base);
    forall r | r in st'.receipts ensures ReceiptOk(env, st'.tokens, st'.drafts, r, st'.receipts[r]) {
      assert ReceiptOk(env, st.tokens, st.drafts, r, st.receipts[r]);
      assert DraftOk(env, st.tokens, st.byKey, st.receipts[r].draftId, st.drafts[st.receipts[r].draftId]);
    }
  }

  // ---------------------------------------------------------------- writing content

  lemma WriteKeeps(env: Env, st: Store, id: nat, w: Workflow, next: Option<nat>)
    requires Inv(env, st) && id in st.drafts
    requires Kept(env, w, env.hash(w), st.drafts[id].key, RaisedNext(st.drafts[id], w, next))
    ensures Inv(env, WriteContent(st, env, id, w, next))
  {
    hide Kept, RegistryInv, ReceiptsOk, DraftsOk, RaisedNext;
    WriteKeepsDrafts(env, st, id, w, next);
    WriteKeepsReceipts(env, st, id, w, next);
  }

  lemma WriteKeepsDrafts(env: Env, st: Store, id: nat, w: Workflow, next: Option<nat>)
    requires DraftsOk(env, st.tokens, st.drafts, st.byKey) && id in st.drafts
    requires Kept(env, w, env.hash(w), st.drafts[id].key, RaisedNext(st.drafts[id], w, next))
    ensures var st' := WriteContent(st, env, id, w, next); DraftsOk(env, st'.tokens, st'.drafts, st'.byKey)
  {
    hide Kept, RaisedNext;
    var st' := WriteContent(st, env, id, w, next);
    forall other | other in st'.drafts ensures DraftOk(env, st'.tokens, st'.byKey, other, st'.drafts[other]) {
      assert DraftOk(env, st.tokens, st.byKey, other, st.drafts[other]);
    }
  }

  lemma WriteKeepsReceipts(env: Env, st: Store, id: nat, w: Workflow, next: Option<nat>)
    requires ReceiptsOk(env, st.tokens, st.drafts, st.receipts) && id in st.drafts
    requires DraftsOk(env, st.tokens, st.drafts, st.byKey)
    ensures var st' := WriteContent(st, env, id, w, next); ReceiptsOk(env, st'.tokens, st'.drafts, st'.receipts)
  {
    hide Kept;
    var st' := WriteContent(st, env, id, w, next);
    var d := st.drafts[id];
    assert DraftOk(env, st.tokens, st.byKey, id, d);
    var raised := RaisedNext(d, w, next);
    forall r | r in st'.receipts ensures ReceiptOk(env, st'.tokens, st'.drafts, r, st'.receipts[r]) {
      if r == st.tokens + 1 {
        KeptUnder(env, d.content, d.hash, d.key, d.next, raised);
      } else {
        assert ReceiptOk(env, st.tokens, st.drafts, r, st.receipts[r]);
        var receipt := st.receipts[r];
        if receipt.draftId == id {
          KeptUnder(env, receipt.previousContent, receipt.previousHash, d.key, d.next, raised);
        }
      }
    }
    forall r | r in st.receipts ensures st.receipts[r].expectedEtag < st.tokens && r < st.tokens {
      assert ReceiptOk(env, st.tokens, st.drafts, r, st.receipts[r]);
    }
  }

  // ---------------------------------------------------------------- restoring content

  lemma RestoreKeeps(env: Env, st: Store, id: nat, receiptId: nat)
    requires Inv(env, st) && id in st.drafts && receiptId in st.receipts && st.receipts[receiptId].draftId == id
    ensures Inv(env, RestoreContent(st, id, receiptId))
  {
    hide Kept, RegistryInv, DraftsOk, ReceiptsOk;
    RestoreKeepsDrafts(env, st, id, receiptId);
    RestoreKeepsReceipts(env, st, id, receiptId);
  }

  lemma RestoreKeepsDrafts(env: Env, st: Store, id: nat, receiptId: nat)
    requires DraftsOk(env, st.tokens, st.drafts, st.byKey) && ReceiptsOk(env, st.tokens, st.drafts, st.receipts)
    requires id in st.drafts && receiptId in st.receipts && st.receipts[receiptId].draftId == id
    ensures var st' := RestoreContent(st, id, receiptId); DraftsOk(env, st'.tokens, st'.drafts, st'.byKey)
  {
    hide Kept;
    var st' := RestoreContent(st, id, receiptId);
    assert ReceiptOk(env, st.tokens, st.drafts, receiptId, st.receipts[receiptId]);
    forall other | other in st'.drafts ensures DraftOk(env, st'.tokens, st'.byKey, other, st'.drafts[other]) {
      assert DraftOk(env, st.tokens, st.byKey, other, st.drafts[other]);
    }
  }

  lemma RestoreKeepsReceipts(env: Env, st: Store, id: nat, receiptId: nat)
    requires ReceiptsOk(env, st.tokens, st.drafts, st.receipts)
    requires id in st.drafts && receiptId in st.receipts && st.receipts[receiptId].draftId == id
    ensures var st' := RestoreContent(st, id, receiptId); ReceiptsOk(env, st'.tokens, st'.drafts, st'.receipts)
  {
    hide Kept;
    var st' := RestoreContent(st, id, receiptId);
    forall r | r in st'.receipts ensures ReceiptOk(env, st'.tokens, st'.drafts, r, st'.receipts[r]) {
      assert ReceiptOk(env, st.tokens, st.drafts, r, st.receipts[r]);
    }
  }

  // ---------------------------------------------------------------- deleting a draft

  lemma DropKeeps(env: Env, st: Store, id: nat)
    requires Inv(env, st) && id in st.drafts
    ensures Inv(env, DropDraft(st, id)) && st.drafts[id].key !in DropDraft(st, id).byKey
  {
    hide Kept, RegistryInv;
    var st' := DropDraft(st, id);
    assert DraftOk(env, st.tokens, st.byKey, id, st.drafts[id]);
    forall other | other in st'.drafts ensures DraftOk(env, st'.tokens, st'.byKey, other, st'.drafts[other]) {
      assert DraftOk(env, st.tokens, st.byKey, other, st.drafts[other]);
    }
    forall r | r in st'.receipts ensures ReceiptOk(env, st'.tokens, st'.drafts, r, st'.receipts[r]) {
      assert ReceiptOk(env, st.tokens, st.drafts, r, st.receipts[r]);
    }
    forall key | key in st'.byKey ensures st'.byKey[key] in st'.drafts && st'.drafts[st'.byKey[key]].key == key {
      assert key in st.byKey && st.byKey[key] in st.drafts && st.drafts[st.byKey[key]].key == key;
    }
  }

  // ---------------------------------------------------------------- the registry

  lemma AcquireKeeps(env: Env, registry: Registry, key: string)
    requires RegistryInv(env, registry)
    ensures RegistryInv(env, AcquireOwner(registry, key))
    ensures CurrentOf(AcquireOwner(registry, key), key) == CurrentOf(registry, key)
    ensures RevisionsOf(AcquireOwner(registry, key), key) == RevisionsOf(registry, key)
  {
    hide TableOk, Sound;
    var acquired := AcquireOwner(registry, key);
    forall other ensures RevisionsOk(env, acquired, other) {
      assert RevisionsOk(env, registry, other);
      assert RevisionsOf(acquired, other) == RevisionsOf(registry, other);
      assert CurrentOf(acquired, other) == CurrentOf(registry, other);
    }
  }

  /** A publication keeps the registry, and works on any consistent one. */
  lemma PublicationKeeps(env: Env, registry: Registry, w: Workflow, provenance: Provenance, guard: Option<Provenance>)
    requires RegistryInv(env, registry) && env.schema(w) && Sound(Rows(w.lead, 1))
    ensures var r := Publish(registry, env.hash, w, provenance, true, guard);
      r.Ok? && RegistryInv(env, r.value.0)
  {
    hide Publish, KeyOk, MaySelect, Sound;
    assert RevisionsOk(env, registry, w.id);
    PublishKeeps(registry, env.hash, w, provenance, true, guard);
    var registry' := Publish(registry, env.hash, w, provenance, true, guard).value.0;
    forall key ensures RevisionsOk(env, registry', key) {
      assert RevisionsOk(env, registry, key);
      if key != w.id { KeyElsewhere(env, registry, registry', w.id, key); }
    }
  }

  lemma KeyElsewhere(env: Env, registry: Registry, registry': Registry, written: string, key: string)
    requires SameElsewhere(registry, registry', written) && key != written
    requires RevisionsOk(env, registry, key)
    ensures RevisionsOk(env, registry', key)
  {
    hide TableOk, Sound;
    assert RevisionsOf(registry', key) == RevisionsOf(registry, key)
      && CurrentOf(registry', key) == CurrentOf(registry, key);
    assert key in registry'.owners <==> key in registry.owners;
  }

  /** What `remove_workflow` does to the owner row. */
  lemma RemoveKeepsRegistry(env: Env, registry: Registry, key: string)
    requires RegistryInv(env, registry) && key in registry.owners
    ensures RegistryInv(env, registry.(owners := registry.owners[key := None]))
    ensures RevisionsOf(registry, key) == [] ==> RegistryInv(env, registry.(owners := registry.owners - {key}))
  {
    hide TableOk, Sound;
    var cleared := registry.(owners := registry.owners[key := None]);
    forall other ensures RevisionsOk(env, cleared, other) {
      assert RevisionsOk(env, registry, other);
      assert RevisionsOf(cleared, other) == RevisionsOf(registry, other);
      assert other != key ==> CurrentOf(cleared, other) == CurrentOf(registry, other);
    }
    if RevisionsOf(registry, key) == [] {
      var deleted := registry.(owners := registry.owners - {key});
      forall other ensures RevisionsOk(env, deleted, other) {
        assert RevisionsOk(env, registry, other);
        assert RevisionsOf(deleted, other) == RevisionsOf(registry, other);
        assert other != key ==> CurrentOf(deleted, other) == CurrentOf(registry, other);
      }
    }
  }
}
