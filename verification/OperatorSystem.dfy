/**
  Any number of workers driving turns against one store. A worker is created by
  a successful claim and then follows `_run_claimed_turn` in
  src/oh_my_subagents/operator/service.py, one atomic step at a time; steps of
  different workers and startup repair interleave freely, and every failure
  (provider, cancellation, a commit that fails or whose report is lost, a
  cleanup that fails) is a step of its own.
*/
module OperatorSystem {
  import opened Basics
  import opened OperatorProtocol
  import opened OperatorInvariant

  datatype Phase =
    | Executing                       // the provider is running the turn
    | Completing(outcome: Outcome)    // the outcome was accepted, its commit is due
    | Cleaning(unavailable: bool, category: Category, thread: Option<string>)  // the interruption is due
    | Finished(settled: bool)         // settled: the last transaction of this worker committed

  /** `sequence` is the sequence of the user entry the claim appended. */
  datatype Worker = Worker(claim: Claim, sequence: nat, phase: Phase)

  datatype System = System(store: Store, workers: map<Token, Worker>)

  datatype Step =
    | CreateConversation(key: string)
    | SubmitMessage(id: Token, text: string, key: string)
    | SubmitAnswers(id: Token, questionSetId: Token, answers: seq<Submitted>, key: string)
    | CancelAdmission(turn: Token)
    | ProviderReturns(turn: Token, outcome: Outcome)
    | ProviderThreadGone(turn: Token)
    | ProviderFails(turn: Token)
    | CancelTurn(turn: Token)
    | CompletionCommits(turn: Token)
    | CompletionFails(turn: Token, committed: bool, cancelled: bool)
    | CleanupCommits(turn: Token)
    | CleanupFails(turn: Token)
    | RepairAtStartup

  const INITIAL := System(EMPTY_STORE, map[])

  function Admit(s: System, claimed: (Store, ClaimResult)): System {
    match claimed.1
    case Claimed(claim, _) =>
      var sequence := if claim.conversationId in claimed.0.conversations
                      then |claimed.0.conversations[claim.conversationId].entries| else 0;
      System(claimed.0, s.workers[claim.turnId := Worker(claim, sequence, Executing)])
    case _ => s
  }

  function Move(s: System, turn: Token, phase: Phase): System
    requires turn in s.workers
  {
    s.(workers := s.workers[turn := s.workers[turn].(phase := phase)])
  }

  /** A step whose worker is not in the phase the step needs changes nothing. */
  ghost function Apply(s: System, step: Step): System {
    match step
    case CreateConversation(key) => s.(store := Create(s.store, key).0)
    case SubmitMessage(id, text, key) => Admit(s, ClaimMessage(s.store, id, text, key))
    case SubmitAnswers(id, questionSet, answers, key) => Admit(s, ClaimAnswer(s.store, id, questionSet, answers, key))
    case RepairAtStartup => s.(store := Repair(s.store))
    case CancelAdmission(turn) =>
      if turn in s.workers && s.workers[turn].phase.Executing?
      then Move(s, turn, Cleaning(false, AdmissionCancelled, None)) else s
    case ProviderReturns(turn, outcome) =>
      if turn in s.workers && s.workers[turn].phase.Executing?
      then Move(s, turn, AfterProvider(s.workers[turn].claim, outcome)) else s
    case ProviderThreadGone(turn) =>
      if turn in s.workers && s.workers[turn].phase.Executing?
      then Move(s, turn, Cleaning(true, ProviderThreadUnavailable, None)) else s
    case ProviderFails(turn) =>
      if turn in s.workers && s.workers[turn].phase.Executing?
      then Move(s, turn, Cleaning(false, ProviderFailure, None)) else s
    case CancelTurn(turn) =>
      if turn in s.workers && s.workers[turn].phase.Executing?
      then Move(s, turn, Cleaning(false, TurnCancelled, None)) else s
    case CompletionCommits(turn) =>
      if turn in s.workers && s.workers[turn].phase.Completing?
      then CommitCompletion(s, turn, Finished(true)) else s
    case CompletionFails(turn, committed, cancelled) =>
      if turn in s.workers && s.workers[turn].phase.Completing?
      then
        var thread := Some(s.workers[turn].phase.outcome.thread);
        var next := Cleaning(false, if cancelled then CompletionCancelled else CompletionFailed, thread);
        if committed then CommitCompletion(s, turn, next) else Move(s, turn, next)
      else s
    case CleanupCommits(turn) =>
      if turn in s.workers && s.workers[turn].phase.Cleaning?
      then CommitCleanup(s, turn) else s
    case CleanupFails(turn) =>
      if turn in s.workers && s.workers[turn].phase.Cleaning?
      then Move(s, turn, Finished(false)) else s
  }

  function AfterProvider(claim: Claim, outcome: Outcome): Phase {
    if Continues(claim, outcome) then Completing(outcome) else Cleaning(false, ThreadIdentityChanged, None)
  }

  function CommitCompletion(s: System, turn: Token, next: Phase): System
    requires turn in s.workers && s.workers[turn].phase.Completing?
  {
    var w := s.workers[turn];
    Move(s.(store := Complete(s.store, w.claim, w.phase.outcome).0), turn, next)
  }

  function CommitCleanup(s: System, turn: Token): System
    requires turn in s.workers && s.workers[turn].phase.Cleaning?
  {
    var w := s.workers[turn];
    Move(s.(store := Interrupt(s.store, w.claim, w.phase.unavailable, w.phase.category, w.phase.thread).0),
         turn, Finished(true))
  }

  ghost function Run(s: System, steps: seq<Step>): System
    decreases |steps|
  {
    if steps == [] then s else Run(Apply(s, steps[0]), steps[1..])
  }

  // ---------------------------------------------------------------- the invariant

  /** The turn of this worker is the active one. */
  predicate Active(s: System, turn: Token) {
    && turn in s.workers
    && s.workers[turn].claim.conversationId in s.store.conversations
    && s.store.conversations[s.workers[turn].claim.conversationId].activeTurn == Some(turn)
  }

  /** Threads a worker may still write agree with the thread its claim read. */
  predicate PhaseContinues(w: Worker) {
    match w.phase
    case Completing(outcome) => Continues(w.claim, outcome)
    case Cleaning(_, _, Some(thread)) => w.claim.thread.None? || w.claim.thread == Some(thread)
    case _ => true
  }

  /** What holds between a worker, the row it works on and the token counter. */
  ghost predicate TurnInv(w: Worker, turn: Token, c: Conversation, next: Token) {
    && turn < next
    && w.claim.turnId == turn
    && 1 <= w.sequence <= |c.entries|
    && IsUser(c.entries[w.sequence - 1].body)
    && PhaseContinues(w)
    && (w.claim.thread.Some? ==> c.thread == w.claim.thread)
    && (if c.activeTurn == Some(turn)
        then w.sequence == |c.entries| && w.claim.thread == c.thread && w.phase != Finished(true)
        else w.sequence < |c.entries|)
  }

  ghost predicate WorkerInv(s: System, turn: Token)
    requires turn in s.workers
  {
    && s.workers[turn].claim.conversationId in s.store.conversations
    && TurnInv(s.workers[turn], turn, s.store.conversations[s.workers[turn].claim.conversationId], s.store.nextToken)
  }

  ghost predicate WorkersInv(s: System) {
    forall turn :: turn in s.workers ==> WorkerInv(s, turn)
  }

  predicate TurnKnown(workers: map<Token, Worker>, id: Token, c: Conversation) {
    c.activeTurn.Some? ==>
      c.activeTurn.value in workers && workers[c.activeTurn.value].claim.conversationId == id
  }

  ghost predicate ActiveKnown(s: System) {
    forall id :: id in s.store.conversations ==> TurnKnown(s.workers, id, s.store.conversations[id])
  }

  predicate SameTurn(w1: Worker, w2: Worker) {
    w1.claim.conversationId == w2.claim.conversationId && w1.sequence == w2.sequence
  }

  ghost predicate SequencesDistinct(s: System) {
    forall t1, t2 :: t1 in s.workers && t2 in s.workers && SameTurn(s.workers[t1], s.workers[t2]) ==> t1 == t2
  }

  ghost predicate Inv(s: System) {
    && StoreInv(s.store)
    && WorkersInv(s)
    && ActiveKnown(s)
    && SequencesDistinct(s)
  }

  // ---------------------------------------------------------------- one step

  /** What one committed change of one conversation row may do. */
  predicate RowGrows(before: Conversation, after: Conversation) {
    && before.entries <= after.entries
    && (before.thread.Some? ==> after.thread == before.thread)
    && (before.state == Closed ==> after == before)
  }

  ghost predicate StoreGrows(before: Store, after: Store) {
    forall id :: id in before.conversations ==>
      id in after.conversations && RowGrows(before.conversations[id], after.conversations[id])
  }

  ghost predicate WorkersKept(before: System, after: System) {
    forall turn :: turn in before.workers ==>
      && turn in after.workers
      && after.workers[turn].claim == before.workers[turn].claim
      && after.workers[turn].sequence == before.workers[turn].sequence
      && (before.workers[turn].phase.Finished? ==> after.workers[turn].phase == before.workers[turn].phase)
  }

  /** One step keeps what a later reader relies on. */
  ghost predicate Grows(before: System, after: System) {
    && StoreGrows(before.store, after.store)
    && WorkersKept(before, after)
    && before.store.nextToken <= after.store.nextToken
  }

  /** A row that keeps its turn is untouched; a row that loses it gains entries. */
  predicate Settles(c: Conversation, c': Conversation) {
    c' == c ||
    (&& c.state == Running && c.activeTurn.Some?
     && c.entries < c'.entries
     && c'.activeTurn.None?
     && (c.thread.Some? ==> c'.thread == c.thread))
  }

  /** A committed change that opens no turn: rows settle, and new rows have no turn. */
  ghost predicate StoreSettles(st: Store, st': Store) {
    && st.nextToken <= st'.nextToken
    && (forall id :: id in st.conversations ==>
         id in st'.conversations && Settles(st.conversations[id], st'.conversations[id]))
    && (forall id :: id in st'.conversations && id !in st.conversations ==> st'.conversations[id].activeTurn.None?)
  }

  lemma TurnSettles(w: Worker, turn: Token, c: Conversation, c': Conversation, next: Token, next': Token)
    requires TurnInv(w, turn, c, next) && next <= next' && Settles(c, c')
    ensures TurnInv(w, turn, c', next')
  {
    if c' != c { assert c'.entries[w.sequence - 1] == c.entries[w.sequence - 1]; }
  }

  lemma WorkersSettle(s: System, store: Store)
    requires WorkersInv(s) && StoreSettles(s.store, store)
    ensures WorkersInv(s.(store := store))
  {
    var after := s.(store := store);
    hide TurnInv, Settles;
    forall turn | turn in after.workers ensures WorkerInv(after, turn) {
      assert WorkerInv(s, turn);
      var id := s.workers[turn].claim.conversationId;
      TurnSettles(s.workers[turn], turn, s.store.conversations[id], store.conversations[id],
                  s.store.nextToken, store.nextToken);
    }
  }

  lemma StoreSettlesGrows(st: Store, st': Store)
    requires StoreSettles(st, st')
    ensures StoreGrows(st, st')
  {}

  /** The step lemma for every change that opens no turn. */
  lemma StoreStep(s: System, store: Store)
    requires Inv(s) && StoreInv(store) && StoreSettles(s.store, store)
    ensures Inv(s.(store := store))
    ensures Grows(s, s.(store := store))
  {
    StoreSettlesGrows(s.store, store);
    WorkersSettle(s, store);
    ActiveSettles(s, store);
    SequencesSame(s, s.(store := store));
    hide StoreInv, StoreGrows, WorkersInv, SequencesDistinct, ActiveKnown, WorkersKept;
  }

  lemma ActiveSettles(s: System, store: Store)
    requires ActiveKnown(s) && StoreSettles(s.store, store)
    ensures ActiveKnown(s.(store := store))
    ensures WorkersKept(s, s.(store := store))
  {
    forall id | id in store.conversations ensures TurnKnown(s.workers, id, store.conversations[id]) {
      if id in s.store.conversations { assert TurnKnown(s.workers, id, s.store.conversations[id]); }
    }
  }

  lemma SequencesSame(s: System, after: System)
    requires SequencesDistinct(s) && after.workers == s.workers
    ensures SequencesDistinct(after)
  {}

  lemma CreateStep(s: System, key: string)
    requires Inv(s)
    ensures Inv(Apply(s, CreateConversation(key)))
    ensures Grows(s, Apply(s, CreateConversation(key)))
  {
    CreateKeeps(s.store, key);
    assert StoreSettles(s.store, Create(s.store, key).0);
    hide StoreSettles, Create, Inv;
    StoreStep(s, Create(s.store, key).0);
  }

  lemma TurnsBelow(s: System)
    requires WorkersInv(s)
    ensures forall turn :: turn in s.workers ==> turn < s.store.nextToken
    ensures forall turn :: turn in s.workers ==>
      && s.workers[turn].claim.conversationId in s.store.conversations
      && s.workers[turn].sequence <= |s.store.conversations[s.workers[turn].claim.conversationId].entries|
  {
    forall turn | turn in s.workers
      ensures turn < s.store.nextToken
      ensures s.workers[turn].claim.conversationId in s.store.conversations
      ensures s.workers[turn].sequence <= |s.store.conversations[s.workers[turn].claim.conversationId].entries|
    {
      assert WorkerInv(s, turn);
    }
  }

  /** A claim opens a turn with a fresh id on a row that has none. */
  lemma AdmitWorkers(s: System, claimed: (Store, ClaimResult), id: Token)
    requires WorkersInv(s) && Opens(s.store, id, claimed)
    ensures WorkersInv(Admit(s, claimed))
    ensures s.store.nextToken !in s.workers
  {
    var after := Admit(s, claimed);
    forall turn | turn in after.workers ensures WorkerInv(after, turn) {
      if turn != s.store.nextToken { assert WorkerInv(s, turn); }
    }
    TurnsBelow(s);
  }

  lemma AdmitSequences(s: System, claimed: (Store, ClaimResult), id: Token)
    requires WorkersInv(s) && SequencesDistinct(s) && Opens(s.store, id, claimed)
    ensures SequencesDistinct(Admit(s, claimed))
  {
    TurnsBelow(s);
    var after := Admit(s, claimed);
    forall t1, t2 | t1 in after.workers && t2 in after.workers && SameTurn(after.workers[t1], after.workers[t2])
      ensures t1 == t2
    {
      if t1 != s.store.nextToken && t2 != s.store.nextToken {
        assert SameTurn(s.workers[t1], s.workers[t2]);
      }
    }
  }

  lemma AdmitActive(s: System, claimed: (Store, ClaimResult), id: Token)
    requires ActiveKnown(s) && Opens(s.store, id, claimed) && s.store.nextToken !in s.workers
    ensures ActiveKnown(Admit(s, claimed))
    ensures WorkersKept(s, Admit(s, claimed))
    ensures StoreGrows(s.store, claimed.0)
  {
    var after := Admit(s, claimed);
    forall other | other in after.store.conversations
      ensures TurnKnown(after.workers, other, after.store.conversations[other])
    {
      if other != id { assert TurnKnown(s.workers, other, s.store.conversations[other]); }
    }
  }

  lemma AdmitStep(s: System, claimed: (Store, ClaimResult), id: Token)
    requires Inv(s) && StoreInv(claimed.0) && Opens(s.store, id, claimed)
    ensures Inv(Admit(s, claimed))
    ensures Grows(s, Admit(s, claimed))
  {
    AdmitWorkers(s, claimed, id);
    AdmitSequences(s, claimed, id);
    AdmitActive(s, claimed, id);
    hide StoreInv, WorkersInv, SequencesDistinct, ActiveKnown, WorkersKept, StoreGrows;
  }

  lemma SubmitMessageStep(s: System, id: Token, text: string, key: string)
    requires Inv(s)
    ensures Inv(Apply(s, SubmitMessage(id, text, key)))
    ensures Grows(s, Apply(s, SubmitMessage(id, text, key)))
  {
    GrowsReflexive(s);
    ClaimMessageKeeps(s.store, id, text, key);
    var claimed := ClaimMessage(s.store, id, text, key);
    if claimed.1.Claimed? {
      ClaimMessageOpens(s.store, id, text, key);
      hide StoreInv, ClaimMessage, Opens;
      AdmitStep(s, claimed, id);
    }
  }

  lemma SubmitAnswersStep(s: System, id: Token, questionSetId: Token, answers: seq<Submitted>, key: string)
    requires Inv(s)
    ensures Inv(Apply(s, SubmitAnswers(id, questionSetId, answers, key)))
    ensures Grows(s, Apply(s, SubmitAnswers(id, questionSetId, answers, key)))
  {
    GrowsReflexive(s);
    ClaimAnswerKeeps(s.store, id, questionSetId, answers, key);
    var claimed := ClaimAnswer(s.store, id, questionSetId, answers, key);
    if claimed.1.Claimed? {
      ClaimAnswerOpens(s.store, id, questionSetId, answers, key);
      hide StoreInv, ClaimAnswer, Opens;
      AdmitStep(s, claimed, id);
    }
  }

  lemma MoveWorkers(s: System, turn: Token, phase: Phase)
    requires WorkersInv(s) && turn in s.workers
    requires PhaseContinues(s.workers[turn].(phase := phase))
    requires phase == Finished(true) ==> !Active(s, turn)
    ensures WorkersInv(Move(s, turn, phase))
  {
    var after := Move(s, turn, phase);
    assert WorkerInv(s, turn);
    assert WorkerInv(after, turn);
    hide TurnInv;
    forall other | other in after.workers ensures WorkerInv(after, other) {
      if other != turn { assert WorkerInv(s, other); }
    }
  }

  lemma MoveSequences(s: System, turn: Token, phase: Phase)
    requires SequencesDistinct(s) && turn in s.workers
    ensures SequencesDistinct(Move(s, turn, phase))
  {
    var after := Move(s, turn, phase);
    forall t1, t2 | t1 in after.workers && t2 in after.workers && SameTurn(after.workers[t1], after.workers[t2])
      ensures t1 == t2
    {
      assert SameTurn(s.workers[t1], s.workers[t2]);
    }
  }

  lemma MoveActive(s: System, turn: Token, phase: Phase)
    requires ActiveKnown(s) && turn in s.workers && !s.workers[turn].phase.Finished?
    ensures ActiveKnown(Move(s, turn, phase))
    ensures WorkersKept(s, Move(s, turn, phase))
  {
    var after := Move(s, turn, phase);
    forall id | id in after.store.conversations ensures TurnKnown(after.workers, id, after.store.conversations[id]) {
      assert TurnKnown(s.workers, id, s.store.conversations[id]);
    }
  }

  /** Moving a worker that is not finished to a phase that writes no other thread. */
  lemma MoveStep(s: System, turn: Token, phase: Phase)
    requires Inv(s) && turn in s.workers && !s.workers[turn].phase.Finished?
    requires PhaseContinues(s.workers[turn].(phase := phase))
    requires phase == Finished(true) ==> !Active(s, turn)
    ensures Inv(Move(s, turn, phase))
    ensures Grows(s, Move(s, turn, phase))
  {
    GrowsReflexive(s);
    MoveWorkers(s, turn, phase);
    MoveSequences(s, turn, phase);
    MoveActive(s, turn, phase);
    hide StoreInv, StoreGrows, WorkersInv, SequencesDistinct, PhaseContinues, ActiveKnown, WorkersKept;
  }

  /** The completion transaction ends the worker's own turn if it is still active, and changes nothing otherwise. */
  lemma CompleteSettles(st: Store, claim: Claim, outcome: Outcome)
    requires StoreInv(st)
    requires Owns(st, claim) ==>
      (st.conversations[claim.conversationId].thread.Some? ==>
        st.conversations[claim.conversationId].thread == Some(outcome.thread))
    ensures StoreInv(Complete(st, claim, outcome).0)
    ensures StoreSettles(st, Complete(st, claim, outcome).0)
    ensures !Owns(Complete(st, claim, outcome).0, claim)
  {
    SettleKeeps(st, claim, outcome, false, StartupRepair, None);
    if Owns(st, claim) {
      CompleteKeeps(st.conversations[claim.conversationId], outcome, st.nextToken);
      hide RowInv;
    }
  }

  lemma InterruptSettles(st: Store, claim: Claim, unavailable: bool, category: Category, thread: Option<string>)
    requires StoreInv(st)
    requires Owns(st, claim) && thread.Some? ==>
      (st.conversations[claim.conversationId].thread.Some? ==>
        st.conversations[claim.conversationId].thread == thread)
    ensures StoreInv(Interrupt(st, claim, unavailable, category, thread).0)
    ensures StoreSettles(st, Interrupt(st, claim, unavailable, category, thread).0)
    ensures !Owns(Interrupt(st, claim, unavailable, category, thread).0, claim)
  {
    SettleKeeps(st, claim, Outcome("", MessageResult("")), unavailable, category, thread);
    if Owns(st, claim) {
      InterruptKeeps(st.conversations[claim.conversationId], unavailable, category, thread);
      hide RowInv;
    }
  }

  /** While the turn of a worker is active the stored thread is the one its claim read. */
  lemma OwnerThread(s: System, turn: Token)
    requires Inv(s) && turn in s.workers
    ensures s.workers[turn].claim.turnId == turn
    ensures s.workers[turn].claim.conversationId in s.store.conversations
    ensures PhaseContinues(s.workers[turn])
    ensures Owns(s.store, s.workers[turn].claim) ==>
      s.store.conversations[s.workers[turn].claim.conversationId].thread == s.workers[turn].claim.thread
    ensures Active(s, turn) ==> Owns(s.store, s.workers[turn].claim)
  {
    assert WorkerInv(s, turn);
    assert RowInv(s.store.conversations[s.workers[turn].claim.conversationId]);
  }

  lemma NotOwnedNotActive(s: System, turn: Token)
    requires Inv(s) && turn in s.workers && !Owns(s.store, s.workers[turn].claim)
    ensures !Active(s, turn)
  {
    OwnerThread(s, turn);
  }

  lemma CompletionStep(s: System, turn: Token, next: Phase)
    requires Inv(s) && turn in s.workers && s.workers[turn].phase.Completing?
    requires PhaseContinues(s.workers[turn].(phase := next))
    ensures Inv(CommitCompletion(s, turn, next))
    ensures Grows(s, CommitCompletion(s, turn, next))
  {
    var w := s.workers[turn];
    OwnerThread(s, turn);
    CompleteSettles(s.store, w.claim, w.phase.outcome);
    var stored := s.(store := Complete(s.store, w.claim, w.phase.outcome).0);
    hide StoreSettles, Complete;
    StoreStep(s, stored.store);
    NotOwnedNotActive(stored, turn);
    MoveStep(stored, turn, next);
    hide Inv, Grows;
    GrowsTransitive(s, stored, CommitCompletion(s, turn, next));
  }

  lemma CleanupStep(s: System, turn: Token)
    requires Inv(s) && turn in s.workers && s.workers[turn].phase.Cleaning?
    ensures Inv(CommitCleanup(s, turn))
    ensures Grows(s, CommitCleanup(s, turn))
  {
    var w := s.workers[turn];
    OwnerThread(s, turn);
    InterruptSettles(s.store, w.claim, w.phase.unavailable, w.phase.category, w.phase.thread);
    var stored := s.(store := Interrupt(s.store, w.claim, w.phase.unavailable, w.phase.category, w.phase.thread).0);
    hide StoreSettles, Interrupt;
    StoreStep(s, stored.store);
    NotOwnedNotActive(stored, turn);
    MoveStep(stored, turn, Finished(true));
    hide Inv, Grows;
    GrowsTransitive(s, stored, CommitCleanup(s, turn));
  }

  lemma RepairSettles(st: Store)
    requires StoreInv(st)
    ensures StoreSettles(st, Repair(st))
  {
    forall id | id in st.conversations ensures Settles(st.conversations[id], Repair(st).conversations[id]) {
      assert RowInv(st.conversations[id]);
      if Stranded(st.conversations[id]) {
        InterruptKeeps(st.conversations[id], false, StartupRepair, None);
      }
    }
  }

  lemma RepairStep(s: System)
    requires Inv(s)
    ensures Inv(Apply(s, RepairAtStartup))
    ensures Grows(s, Apply(s, RepairAtStartup))
  {
    RepairKeeps(s.store);
    RepairSettles(s.store);
    hide Repair, StoreInv, StoreSettles;
    StoreStep(s, Repair(s.store));
  }

  /** The invariant is inductive over every step. */
  lemma StepKeeps(s: System, step: Step)
    requires Inv(s)
    ensures Inv(Apply(s, step))
    ensures Grows(s, Apply(s, step))
  {
    GrowsReflexive(s);
    hide Inv, Grows;
    match step
    case CreateConversation(key) => CreateStep(s, key);
    case SubmitMessage(id, text, key) => SubmitMessageStep(s, id, text, key);
    case SubmitAnswers(id, questionSet, answers, key) => SubmitAnswersStep(s, id, questionSet, answers, key);
    case RepairAtStartup => RepairStep(s);
    case CancelAdmission(turn) =>
      if turn in s.workers && s.workers[turn].phase.Executing? {
        MoveStep(s, turn, Cleaning(false, AdmissionCancelled, None));
      }
    case ProviderReturns(turn, outcome) =>
      if turn in s.workers && s.workers[turn].phase.Executing? {
        MoveStep(s, turn, AfterProvider(s.workers[turn].claim, outcome));
      }
    case ProviderThreadGone(turn) =>
      if turn in s.workers && s.workers[turn].phase.Executing? {
        MoveStep(s, turn, Cleaning(true, ProviderThreadUnavailable, None));
      }
    case ProviderFails(turn) =>
      if turn in s.workers && s.workers[turn].phase.Executing? {
        MoveStep(s, turn, Cleaning(false, ProviderFailure, None));
      }
    case CancelTurn(turn) =>
      if turn in s.workers && s.workers[turn].phase.Executing? {
        MoveStep(s, turn, Cleaning(false, TurnCancelled, None));
      }
    case CompletionCommits(turn) =>
      if turn in s.workers && s.workers[turn].phase.Completing? { CompletionStep(s, turn, Finished(true)); }
    case CompletionFails(turn, committed, cancelled) =>
      if turn in s.workers && s.workers[turn].phase.Completing? {
        OwnerThread(s, turn);
        var next := Cleaning(false, if cancelled then CompletionCancelled else CompletionFailed,
                             Some(s.workers[turn].phase.outcome.thread));
        CompletionStep(s, turn, next);
        MoveStep(s, turn, next);
      }
    case CleanupCommits(turn) =>
      if turn in s.workers && s.workers[turn].phase.Cleaning? { CleanupStep(s, turn); }
    case CleanupFails(turn) =>
      if turn in s.workers && s.workers[turn].phase.Cleaning? { MoveStep(s, turn, Finished(false)); }
  }

  // ---------------------------------------------------------------- every run

  lemma GrowsReflexive(s: System)
    ensures Grows(s, s)
  {}

  lemma GrowsTransitive(a: System, b: System, c: System)
    requires Grows(a, b) && Grows(b, c)
    ensures Grows(a, c)
  {
    forall id | id in a.store.conversations
      ensures id in c.store.conversations && RowGrows(a.store.conversations[id], c.store.conversations[id])
    {
      assert RowGrows(a.store.conversations[id], b.store.conversations[id]);
      assert RowGrows(b.store.conversations[id], c.store.conversations[id]);
    }
  }

  /** Every run keeps the invariant, only appends entries, never changes a set thread and never reopens a closed row. */
  lemma {:induction false} RunKeeps(s: System, steps: seq<Step>)
    requires Inv(s)
    ensures Inv(Run(s, steps))
    ensures Grows(s, Run(s, steps))
    decreases |steps|
  {
    if steps != [] {
      StepKeeps(s, steps[0]);
      RunKeeps(Apply(s, steps[0]), steps[1..]);
      GrowsTransitive(s, Apply(s, steps[0]), Run(s, steps));
    }
  }

  /** Every state reachable from the empty store satisfies the invariant. */
  lemma ReachableInv(steps: seq<Step>)
    ensures Inv(Run(INITIAL, steps))
  {
    RunKeeps(INITIAL, steps);
  }

  // ---------------------------------------------------------------- turns

  /** The response directly after the user entry of a turn. */
  predicate HasOneResponse(s: System, turn: Token)
    requires turn in s.workers && s.workers[turn].claim.conversationId in s.store.conversations
  {
    var entries := s.store.conversations[s.workers[turn].claim.conversationId].entries;
    var n := s.workers[turn].sequence;
    && 1 <= n < |entries|
    && IsUser(entries[n - 1].body)
    && !IsUser(entries[n].body)
    && (n + 1 < |entries| ==> IsUser(entries[n + 1].body))
  }

  /**
    A turn that is no longer active has exactly one response, directly after its
    user entry; an active one has none.
  */
  lemma TurnHasOneResponse(s: System, turn: Token)
    requires Inv(s) && turn in s.workers
    ensures Active(s, turn) <==> !HasOneResponse(s, turn)
    ensures Active(s, turn) ==>
      s.workers[turn].sequence == |s.store.conversations[s.workers[turn].claim.conversationId].entries|
  {
    assert WorkerInv(s, turn);
    var c := s.store.conversations[s.workers[turn].claim.conversationId];
    assert RowInv(c);
    assert IsUser(c.entries[s.workers[turn].sequence - 1].body) <==> (s.workers[turn].sequence - 1) % 2 == 0;
  }

  /**
    Whatever the provider did and however its steps interleaved with others, a
    worker whose last transaction committed leaves its turn with exactly one
    response, and no later step of any worker changes or adds to that turn.
  */
  lemma SettledTurnIsFinal(s: System, turn: Token, later: seq<Step>)
    requires Inv(s) && turn in s.workers && s.workers[turn].phase == Finished(true)
    ensures s.workers[turn].claim.conversationId in s.store.conversations
    ensures var s' := Run(s, later);
      && Inv(s') && turn in s'.workers && s'.workers[turn] == s.workers[turn]
      && s.workers[turn].claim.conversationId in s'.store.conversations
      && !Active(s', turn)
      && HasOneResponse(s, turn) && HasOneResponse(s', turn)
      && s.store.conversations[s.workers[turn].claim.conversationId].entries
         <= s'.store.conversations[s.workers[turn].claim.conversationId].entries
  {
    RunKeeps(s, later);
    EndedStaysEnded(s, turn, later);
    TurnHasOneResponse(s, turn);
    TurnHasOneResponse(Run(s, later), turn);
    hide Inv, HasOneResponse, Active, Run;
  }

  /** Once a turn has ended it stays ended: turn ids are never reused. */
  lemma {:induction false} EndedStaysEnded(s: System, turn: Token, later: seq<Step>)
    requires Inv(s) && turn in s.workers && !Active(s, turn)
    ensures Inv(Run(s, later)) && turn in Run(s, later).workers && !Active(Run(s, later), turn)
  {
    RunKeeps(s, later);
    var s' := Run(s, later);
    assert WorkerInv(s, turn);
    assert WorkerInv(s', turn);
    var id := s.workers[turn].claim.conversationId;
    assert RowGrows(s.store.conversations[id], s'.store.conversations[id]);
  }

  /** A late worker: completing or interrupting a turn that has ended leaves the store as it is. */
  lemma LateWorkerIsRefused(s: System, turn: Token, outcome: Outcome, unavailable: bool, category: Category,
                            thread: Option<string>, later: seq<Step>)
    requires Inv(s) && turn in s.workers && !Active(s, turn)
    ensures var store := Run(s, later).store;
      && Complete(store, s.workers[turn].claim, outcome) == (store, false)
      && Interrupt(store, s.workers[turn].claim, unavailable, category, thread) == (store, false)
  {
    EndedStaysEnded(s, turn, later);
    RunKeeps(s, later);
    assert WorkerInv(s, turn);
  }

  lemma NoneRunning(s: System)
    requires Inv(s)
    ensures forall id :: id in s.store.conversations ==> Repair(s.store).conversations[id].state != Running
  {
    RepairKeeps(s.store);
  }

  /** Startup repair ends every turn, one whose cleanup failed included, with its one response. */
  lemma RepairEndsEveryTurn(s: System, turn: Token)
    requires Inv(s) && turn in s.workers
    ensures var s' := Apply(s, RepairAtStartup);
      && turn in s'.workers && s'.workers[turn].claim.conversationId in s'.store.conversations
      && !Active(s', turn) && HasOneResponse(s', turn)
  {
    hide Inv, HasOneResponse, RepairRow;
    RepairStep(s);
    NoneRunning(s);
    var s' := Apply(s, RepairAtStartup);
    OwnerThread(s', turn);
    TurnHasOneResponse(s', turn);
  }

  /**
    `_return_duplicate_or_raise_conflict` and `wait_for_active_duplicate` test
    "running and the latest sequence is the duplicate's"; that holds exactly
    while the duplicate's own turn is active.
  */
  lemma DuplicateTestIsExact(s: System, turn: Token)
    requires Inv(s) && turn in s.workers
    ensures s.workers[turn].claim.conversationId in s.store.conversations
    ensures var c := s.store.conversations[s.workers[turn].claim.conversationId];
      (c.state == Running && LatestSequence(c.entries) == s.workers[turn].sequence) <==> Active(s, turn)
  {
    assert WorkerInv(s, turn);
    var c := s.store.conversations[s.workers[turn].claim.conversationId];
    assert RowInv(c);
    NumberedLatest(c.entries);
    if c.state == Running && LatestSequence(c.entries) == s.workers[turn].sequence {
      var owner := c.activeTurn.value;
      assert owner in s.workers && WorkerInv(s, owner);
      assert owner == turn;
    }
  }

  /** The request that opened a worker's turn, as the log stores it. */
  function RequestOf(s: System, turn: Token): Option<RequestIdentity>
    requires turn in s.workers
  {
    var id, n := s.workers[turn].claim.conversationId, s.workers[turn].sequence;
    if id in s.store.conversations && 1 <= n <= |s.store.conversations[id].entries|
    then s.store.conversations[id].entries[n - 1].request else None
  }

  /**
    What a request gets whose key already opened a turn: the active turn or none
    for the same request, else a refusal.
  */
  function ReplyToUsedKey(s: System, turn: Token, digest: Digest): ClaimResult
    requires turn in s.workers
  {
    if RequestOf(s, turn).Some? && RequestOf(s, turn).value.digest != digest then Rejected(IdempotencyConflict)
    else Duplicate(if Active(s, turn) then Some(s.workers[turn].sequence) else None)
  }

  lemma UsedKeyIsFound(s: System, turn: Token, key: string)
    requires Inv(s) && turn in s.workers
    requires RequestOf(s, turn).Some? && RequestOf(s, turn).value.key == key
    ensures var id := s.workers[turn].claim.conversationId;
      && id in s.store.conversations
      && 1 <= s.workers[turn].sequence <= |s.store.conversations[id].entries|
      && var entry := s.store.conversations[id].entries[s.workers[turn].sequence - 1];
      && FindKey(s.store.conversations[id].entries, key) == Some(entry)
      && entry.sequence == s.workers[turn].sequence && entry.request == RequestOf(s, turn)
  {
    assert WorkerInv(s, turn);
    var c := s.store.conversations[s.workers[turn].claim.conversationId];
    assert RowInv(c);
    FindKeyUnique(c.entries, key, s.workers[turn].sequence - 1);
  }

  /** A message with a key that opened a turn changes nothing; repeated, it names that turn while it is active. */
  lemma DuplicateClaim(s: System, turn: Token, text: string, key: string)
    requires Inv(s) && turn in s.workers
    requires RequestOf(s, turn).Some? && RequestOf(s, turn).value.key == key
    ensures ClaimMessage(s.store, s.workers[turn].claim.conversationId, text, key) ==
      (s.store, ReplyToUsedKey(s, turn, MessageDigest(text)))
  {
    UsedKeyIsFound(s, turn, key);
    DuplicateTestIsExact(s, turn);
    hide Inv, Active;
  }

  /** The same for answers. */
  lemma DuplicateAnswerClaim(s: System, turn: Token, questionSetId: Token, answers: seq<Submitted>, key: string)
    requires Inv(s) && turn in s.workers
    requires RequestOf(s, turn).Some? && RequestOf(s, turn).value.key == key
    ensures ClaimAnswer(s.store, s.workers[turn].claim.conversationId, questionSetId, answers, key) ==
      (s.store, ReplyToUsedKey(s, turn, AnswersDigest(questionSetId, answers)))
  {
    UsedKeyIsFound(s, turn, key);
    DuplicateTestIsExact(s, turn);
    hide Inv, Active;
  }

  /** An accepted key is owned by one entry for ever: no later step adds a second entry with it. */
  lemma KeyOwnsOneEntry(s: System, id: Token, key: string, i: nat, later: seq<Step>)
    requires Inv(s) && id in s.store.conversations && i < |s.store.conversations[id].entries|
    requires OwnsKey(s.store.conversations[id].entries[i], key)
    ensures id in Run(s, later).store.conversations
    ensures var entries := Run(s, later).store.conversations[id].entries;
      i < |entries| && forall j :: 0 <= j < |entries| && OwnsKey(entries[j], key) ==> j == i
  {
    RunKeeps(s, later);
    var s' := Run(s, later);
    assert RowGrows(s.store.conversations[id], s'.store.conversations[id]);
    assert RowInv(s'.store.conversations[id]);
    var entries := s'.store.conversations[id].entries;
    assert entries[i] == s.store.conversations[id].entries[i];
    forall j | 0 <= j < |entries| && OwnsKey(entries[j], key) ensures j == i {}
  }
}
