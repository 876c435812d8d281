/** Undo over every run, against the chain of versions that an observer of the tables would record. */
module DraftUndo {
  import opened MemberTree
  import opened MemberIds
  import opened WorkflowRules
  import opened WorkflowEdits
  import opened DraftProtocol
  import opened DraftInvariant
  import opened DraftRuns
  import opened DraftHistory

  datatype Version = Version(content: Workflow, hash: string, etag: nat)

  type History = map<nat, seq<Version>>

  function VersionOf(d: Draft): Version {
    Version(d.content, d.hash, d.etag)
  }

  /** The observer adds a version whenever a draft appears or its ETag changes. */
  function Record(history: History, st: Store, st': Store): History {
    map id | id in st'.drafts ::
      if id in history && id in st.drafts then
        if st'.drafts[id].etag == st.drafts[id].etag then history[id] else history[id] + [VersionOf(st'.drafts[id])]
      else [VersionOf(st'.drafts[id])]
  }

  function Observe(history: History, st: Store, env: Env, steps: seq<Step>): History
    decreases |steps|
  {
    if steps == [] then history
    else
      var next := Apply(st, env, steps[0]).0;
      Observe(Record(history, st, next), next, env, steps[1..])
  }

  /** A chain of versions with growing ETags that ends in the stored draft. */
  ghost predicate EndsIn(versions: seq<Version>, d: Draft) {
    && versions != [] && versions[|versions| - 1] == VersionOf(d)
    && (forall i, j :: 0 <= i < j < |versions| ==> versions[i].etag < versions[j].etag)
  }

  /** The receipt belongs to one replacement in the chain and holds what that replacement replaced. */
  ghost predicate Linked(versions: seq<Version>, r: Receipt) {
    exists i :: 1 <= i < |versions| && versions[i].etag == r.expectedEtag
      && versions[i - 1].content == r.previousContent && versions[i - 1].hash == r.previousHash
  }

  ghost predicate Recorded(st: Store, history: History) {
    && (forall id :: id in st.drafts ==> id in history && EndsIn(history[id], st.drafts[id]))
    && (forall r :: r in st.receipts ==>
      st.receipts[r].draftId in history && Linked(history[st.receipts[r].draftId], st.receipts[r]))
  }

  lemma EndsInAppend(versions: seq<Version>, d: Draft, d': Draft)
    requires EndsIn(versions, d) && d.etag < d'.etag
    ensures EndsIn(versions + [VersionOf(d')], d')
  {
    var longer := versions + [VersionOf(d')];
    forall i | 0 <= i < |versions| ensures longer[i].etag < d'.etag {
      if i < |versions| - 1 { assert versions[i].etag < versions[|versions| - 1].etag; }
    }
  }

  lemma LinkedAppend(versions: seq<Version>, r: Receipt, version: Version)
    requires Linked(versions, r)
    ensures Linked(versions + [version], r)
    ensures Linked(versions + [version], r.(consumed := true))
    ensures Linked(versions, r.(consumed := true))
  {
    var i :| 1 <= i < |versions| && versions[i].etag == r.expectedEtag
      && versions[i - 1].content == r.previousContent && versions[i - 1].hash == r.previousHash;
    var longer := versions + [version];
    assert longer[i] == versions[i] && longer[i - 1] == versions[i - 1];
    assert r.(consumed := true).expectedEtag == r.expectedEtag;
  }

  lemma LinkedNew(versions: seq<Version>, d: Draft, d': Draft, r: Receipt)
    requires EndsIn(versions, d)
    requires r.expectedEtag == d'.etag && r.previousContent == d.content && r.previousHash == d.hash
    ensures Linked(versions + [VersionOf(d')], r)
  {
    var longer := versions + [VersionOf(d')];
    assert longer[|versions|] == VersionOf(d') && longer[|versions| - 1] == VersionOf(d);
  }

  /** Each draft's chain ends in its present version after the write. */
  lemma EffectEnds(env: Env, st: Store, write: RowWrite, history: History, id: nat)
    requires Inv(env, st) && Recorded(st, history) && Possible(st, write)
    requires id in Effect(st, env, write).drafts
    ensures var st' := Effect(st, env, write);
      var history' := Record(history, st, st');
      id in history' && EndsIn(history'[id], st'.drafts[id])
  {
    hide Inv, EndsIn, Linked;
    FreshTokens(env, st);
    var st' := Effect(st, env, write);
    if id in st.drafts {
      if st'.drafts[id].etag != st.drafts[id].etag { EndsInAppend(history[id], st.drafts[id], st'.drafts[id]); }
    } else {
      FirstVersion(st'.drafts[id]);
    }
  }

  /** Each receipt remembers two neighbouring versions of its draft's chain after the write. */
  lemma EffectLinks(env: Env, st: Store, write: RowWrite, history: History, r: nat)
    requires Inv(env, st) && Recorded(st, history) && Possible(st, write)
    requires write.Restores? ==> st.receipts[write.receiptId].draftId == write.id
    requires r in Effect(st, env, write).receipts
    ensures var st' := Effect(st, env, write);
      var history' := Record(history, st, st');
      var id := st'.receipts[r].draftId;
      id in history' && Linked(history'[id], st'.receipts[r])
  {
    hide Inv, EndsIn, Linked;
    FreshTokens(env, st);
    ReceiptsOwned(env, st);
    var st' := Effect(st, env, write);
    var id := st'.receipts[r].draftId;
    if r in st.receipts {
      LinkedAppend(history[id], st.receipts[r], VersionOf(st'.drafts[id]));
    } else {
      LinkedNew(history[id], st.drafts[id], st'.drafts[id], st'.receipts[r]);
    }
  }

  lemma EffectRecorded(env: Env, st: Store, write: RowWrite, history: History)
    requires Inv(env, st) && Recorded(st, history) && Possible(st, write)
    requires write.Restores? ==> st.receipts[write.receiptId].draftId == write.id
    ensures var st' := Effect(st, env, write); Recorded(st', Record(history, st, st'))
  {
    hide Inv, EndsIn, Linked, Effect, Record, Possible;
    var st' := Effect(st, env, write);
    var history' := Record(history, st, st');
    forall id | id in st'.drafts ensures id in history' && EndsIn(history'[id], st'.drafts[id]) {
      EffectEnds(env, st, write, history, id);
    }
    forall r | r in st'.receipts
      ensures st'.receipts[r].draftId in history' && Linked(history'[st'.receipts[r].draftId], st'.receipts[r])
    {
      EffectLinks(env, st, write, history, r);
    }
  }

  lemma FirstVersion(d: Draft)
    ensures EndsIn([VersionOf(d)], d)
  {}

  lemma ReceiptsOwned(env: Env, st: Store)
    requires Inv(env, st)
    ensures forall r :: r in st.receipts ==> st.receipts[r].draftId in st.drafts
  {
    hide Kept, RegistryInv;
    forall r | r in st.receipts ensures st.receipts[r].draftId in st.drafts {
      assert ReceiptOk(env, st.tokens, st.drafts, r, st.receipts[r]);
    }
  }

  lemma StepRecorded(env: Env, st: Store, step: Step, history: History)
    requires Inv(env, st) && Recorded(st, history)
    ensures var st' := Apply(st, env, step).0; Recorded(st', Record(history, st, st'))
  {
    hide Inv, Apply, Effect, EndsIn, Linked;
    var write := StepPerforms(env, st, step);
    EffectRecorded(env, st, write, history);
    var st' := Apply(st, env, step).0;
    assert Record(history, st, st') == Record(history, st, Effect(st, env, write));
  }

  lemma {:induction false} RunRecorded(env: Env, st: Store, steps: seq<Step>, history: History)
    requires Inv(env, st) && Recorded(st, history)
    ensures Recorded(Run(st, env, steps), Observe(history, st, env, steps))
    decreases |steps|
  {
    hide Inv, Apply, Recorded;
    if steps != [] {
      StepKeeps(env, st, steps[0]);
      StepRecorded(env, st, steps[0], history);
      var next := Apply(st, env, steps[0]).0;
      RunRecorded(env, next, steps[1..], Record(history, st, next));
    }
  }

  // ---------------------------------------------------------------- undo

  /** The receipt would be accepted now. */
  predicate Usable(st: Store, r: nat) {
    && r in st.receipts && !st.receipts[r].consumed && st.receipts[r].draftId in st.drafts
    && st.receipts[r].expectedEtag == st.drafts[st.receipts[r].draftId].etag
  }

  /** Undo is accepted exactly with the draft's current ETag and a usable receipt of that draft. */
  lemma UndoAcceptedIff(env: Env, st: Store, id: nat, etag: nat, r: nat)
    requires Inv(env, st)
    ensures UndoDraft(st, env, id, etag, r).1.Ok? <==>
      id in st.drafts && st.drafts[id].etag == etag && Usable(st, r) && st.receipts[r].draftId == id
  {
    hide Sound, NumbersBelow, RegistryInv;
    CurrentDraftFits(env, st, id, etag);
    if r in st.receipts { assert ReceiptOk(env, st.tokens, st.drafts, r, st.receipts[r]); }
  }

  /** At most one receipt of a draft is usable. */
  lemma OneUsableReceipt(env: Env, st: Store, r: nat, s: nat)
    requires Inv(env, st) && Usable(st, r) && Usable(st, s)
    requires st.receipts[r].draftId == st.receipts[s].draftId
    ensures r == s
  {
    hide ReceiptOk;
  }

  lemma LatestIsLast(versions: seq<Version>, d: Draft)
    requires EndsIn(versions, d)
    ensures forall i :: 0 <= i < |versions| - 1 ==> versions[i].etag < d.etag
  {
    var n := |versions| - 1;
    forall i | 0 <= i < n ensures versions[i].etag < d.etag { assert versions[i].etag < versions[n].etag; }
  }

  /**
    An accepted undo gives the draft the content and the hash of the version
    before its latest replacement, under a new ETag; the next member number
    stays, the receipt is used up, and no receipt of the draft is usable then.
  */
  lemma UndoRestores(env: Env, st: Store, history: History, id: nat, etag: nat, r: nat)
    requires Inv(env, st) && Recorded(st, history)
    requires UndoDraft(st, env, id, etag, r).1.Ok?
    ensures var st' := UndoDraft(st, env, id, etag, r).0;
      && id in st.drafts && id in st'.drafts && id in history && |history[id]| >= 2 && r in st'.receipts
      && (var previous := history[id][|history[id]| - 2];
          st'.drafts[id] == st.drafts[id].(content := previous.content, hash := previous.hash, etag := st.tokens))
      && st'.receipts[r].consumed
      && (forall s :: Usable(st', s) ==> st'.receipts[s].draftId != id)
  {
    hide Inv;
    UndoAcceptedIff(env, st, id, etag, r);
    FreshTokens(env, st);
    var versions := history[id];
    var n := |versions| - 1;
    assert EndsIn(versions, st.drafts[id]) && Linked(versions, st.receipts[r]);
    var i :| 1 <= i < |versions| && versions[i].etag == st.receipts[r].expectedEtag
      && versions[i - 1].content == st.receipts[r].previousContent
      && versions[i - 1].hash == st.receipts[r].previousHash;
    LatestIsLast(versions, st.drafts[id]);
    assert i == n;
  }

  /** The same for every run from the empty store. */
  lemma UndoRestoresInEveryRun(env: Env, steps: seq<Step>, id: nat, etag: nat, r: nat)
    requires UndoDraft(Run(EMPTY_STORE, env, steps), env, id, etag, r).1.Ok?
    ensures var st := Run(EMPTY_STORE, env, steps);
      var history := Observe(map[], EMPTY_STORE, env, steps);
      && id in history && |history[id]| >= 2
      && history[id][|history[id]| - 1].etag == etag
      && var restored := UndoDraft(st, env, id, etag, r).0;
         id in restored.drafts
         && restored.drafts[id].content == history[id][|history[id]| - 2].content
         && restored.drafts[id].hash == history[id][|history[id]| - 2].hash
  {
    hide Inv, UndoDraft, Linked;
    var st := Run(EMPTY_STORE, env, steps);
    var history := Observe(map[], EMPTY_STORE, env, steps);
    EmptyInv(env);
    ReachableInv(env, steps);
    RunRecorded(env, EMPTY_STORE, steps, map[]);
    UndoAcceptedIff(env, st, id, etag, r);
    UndoRestores(env, st, history, id, etag, r);
    assert EndsIn(history[id], st.drafts[id]);
  }

  /** A receipt that was accepted once is never accepted again. */
  lemma ReceiptWorksOnce(env: Env, st: Store, id: nat, etag: nat, r: nat, between: seq<Step>, id2: nat, etag2: nat)
    requires Inv(env, st) && UndoDraft(st, env, id, etag, r).1.Ok?
    ensures UndoDraft(Run(UndoDraft(st, env, id, etag, r).0, env, between), env, id2, etag2, r).1.Err?
  {
    hide Inv, Kept;
    var undone := UndoDraft(st, env, id, etag, r).0;
    UndoAcceptedIff(env, st, id, etag, r);
    UndoKeeps(env, st, id, etag, r);
    FreshTokens(env, st);
    RunLater(env, undone, between);
    RunKeeps(env, undone, between);
    var after := Run(undone, env, between);
    assert r in undone.receipts && undone.receipts[r].consumed && r < undone.tokens;
    assert r in after.receipts ==> ReceiptLater(undone.receipts[r], after.receipts[r]);
    UndoAcceptedIff(env, after, id2, etag2, r);
  }

  // ---------------------------------------------------------------- member numbers

  /** The id numbers that an accepted edit of the draft hands out: from its next number up to the one it stores. */
  predicate HandsOut(st: Store, st': Store, id: nat, n: nat) {
    id in st.drafts && id in st'.drafts && st.drafts[id].next <= n < st'.drafts[id].next
  }

  /** A draft's allocator never hands out a number twice, whatever runs in between. */
  lemma NumbersAreIssuedOnce(env: Env, st: Store, first: Step, between: seq<Step>, second: Step, id: nat, n: nat)
    requires Inv(env, st) && HandsOut(st, Apply(st, env, first).0, id, n)
    ensures var before := Run(Apply(st, env, first).0, env, between);
      !HandsOut(before, Apply(before, env, second).0, id, n)
  {
    hide Inv, Apply;
    var middle := Apply(st, env, first).0;
    StepKeeps(env, st, first);
    StepLater(env, st, first);
    RunLater(env, middle, between);
    FreshTokens(env, st);
  }

  /** Each row of an added subtree carries the next of the numbers that a change of the draft hands out. */
  ghost predicate CarriesNumbers(st: Store, st': Store, id: nat, added: seq<Row>)
    requires id in st.drafts
  {
    forall i :: 0 <= i < |added| ==>
      added[i].id == MemberId(st.drafts[id].next + i) && HandsOut(st, st', id, st.drafts[id].next + i)
  }

  lemma AddedIdsAreHandedOut(env: Env, st: Store, id: nat, etag: nat, parentId: string, member: NewMember, depth: nat)
    requires EditDraft(st, env, id, etag, AddMember(parentId, member)).1.Ok?
    ensures id in st.drafts
    ensures CarriesNumbers(st, EditDraft(st, env, id, etag, AddMember(parentId, member)).0, id,
                           Rows(Build(member, st.drafts[id].next).0, depth))
  {
    hide EditDraft, Build, MemberId;
    AddRaisesNext(env, st, id, etag, parentId, member);
    BuildIsConsecutive(member, st.drafts[id].next, depth);
  }

  /**
    The ids of an added subtree come from the numbers that the edit hands out;
    they are new to the tree and to every tree that a receipt of the draft can
    bring back.
  */
  lemma AddedIdsAreNew(env: Env, st: Store, id: nat, etag: nat, parentId: string, member: NewMember, depth: nat)
    requires Inv(env, st) && EditDraft(st, env, id, etag, AddMember(parentId, member)).1.Ok?
    ensures var st' := EditDraft(st, env, id, etag, AddMember(parentId, member)).0;
      && id in st.drafts
      && (var added := Rows(Build(member, st.drafts[id].next).0, depth);
          && CarriesNumbers(st, st', id, added)
          && (forall i, j :: 0 <= i < j < |added| ==> added[i].id != added[j].id)
          && AbsentFrom(added, Rows(st.drafts[id].content.lead, 1))
          && (forall r :: r in st.receipts && st.receipts[r].draftId == id ==>
               AbsentFrom(added, Rows(st.receipts[r].previousContent.lead, 1))))
  {
    hide EditDraft, Build, Kept, AbsentFrom, CarriesNumbers, Inv;
    AddedIdsAreHandedOut(env, st, id, etag, parentId, member, depth);
    AddedIdsAreAbsent(env, st, id, member, depth);
  }

  lemma AddedIdsAreAbsent(env: Env, st: Store, id: nat, member: NewMember, depth: nat)
    requires Inv(env, st) && id in st.drafts
    ensures var added := Rows(Build(member, st.drafts[id].next).0, depth);
      && (forall i, j :: 0 <= i < j < |added| ==> added[i].id != added[j].id)
      && AbsentFrom(added, Rows(st.drafts[id].content.lead, 1))
      && (forall r :: r in st.receipts && st.receipts[r].draftId == id ==>
           AbsentFrom(added, Rows(st.receipts[r].previousContent.lead, 1)))
  {
    hide RegistryInv, Build, Kept, AbsentFrom;
    var draft := st.drafts[id];
    assert DraftOk(env, st.tokens, st.byKey, id, draft);
    KeptIsAvoided(env, draft.content, draft.hash, draft.key, draft.next, member, depth);
    forall r | r in st.receipts && st.receipts[r].draftId == id
      ensures AbsentFrom(Rows(Build(member, draft.next).0, depth), Rows(st.receipts[r].previousContent.lead, 1))
    {
      var receipt := st.receipts[r];
      assert ReceiptOk(env, st.tokens, st.drafts, r, receipt);
      KeptIsAvoided(env, receipt.previousContent, receipt.previousHash, draft.key, draft.next, member, depth);
    }
  }

  lemma AddRaisesNext(env: Env, st: Store, id: nat, etag: nat, parentId: string, member: NewMember)
    requires EditDraft(st, env, id, etag, AddMember(parentId, member)).1.Ok?
    ensures var st' := EditDraft(st, env, id, etag, AddMember(parentId, member)).0;
      id in st.drafts && id in st'.drafts && Build(member, st.drafts[id].next).1 <= st'.drafts[id].next
  {
    hide Accept, Build, Persisted;
    BuildIsConsecutive(member, st.drafts[id].next, 0);
  }

  lemma KeptIsAvoided(env: Env, content: Workflow, hash: string, key: string, next: nat, member: NewMember, depth: nat)
    requires Kept(env, content, hash, key, next)
    ensures var added := Rows(Build(member, next).0, depth);
      AbsentFrom(added, Rows(content.lead, 1)) && (forall i, j :: 0 <= i < j < |added| ==> added[i].id != added[j].id)
  {
    hide Build, NumbersBelow, Sound;
    BuiltIdsAreFresh(member, next, depth, Rows(content.lead, 1));
  }

  ghost predicate AbsentFrom(added: seq<Row>, rows: seq<Row>) {
    forall i, j :: 0 <= i < |added| && 0 <= j < |rows| ==> added[i].id != rows[j].id
  }
}
