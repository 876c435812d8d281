/**
  What is stored behind the user entry of a turn, over every interleaving: the
  reply the provider gave, or the interruption that its failure calls for, with
  the thread the conversation names from then on; and the identity of question
  sets.
*/
module OperatorReplies {
  import opened Basics
  import opened OperatorProtocol
  import opened OperatorInvariant
  import opened OperatorRecords
  import opened OperatorSystem
  import opened OperatorTurns

  /** What a step does to an active turn whose worker is in this phase. */
  function StepResponse(phase: Phase, step: Step, turn: Token): Option<Response> {
    match step
    case RepairAtStartup => Some(Interruption(false, StartupRepair, None))
    case CompletionCommits(other) =>
      if other == turn && phase.Completing? then Some(Reply(phase.outcome)) else None
    case CompletionFails(other, committed, _) =>
      if other == turn && phase.Completing? && committed then Some(Reply(phase.outcome)) else None
    case CleanupCommits(other) =>
      if other == turn && phase.Cleaning?
      then Some(Interruption(phase.unavailable, phase.category, phase.thread)) else None
    case _ => None
  }

  function PhaseBehind(claim: Claim, phase: Phase, step: Step, turn: Token): Phase {
    if StepTurn(step) == Some(turn) then NextPhase(claim, phase, step) else phase
  }

  /** The response of the first step that ends the turn. */
  function FirstResponse(claim: Claim, phase: Phase, steps: seq<Step>, turn: Token): Option<Response>
    decreases |steps|
  {
    if steps == [] then None
    else if StepResponse(phase, steps[0], turn).Some? then StepResponse(phase, steps[0], turn)
    else FirstResponse(claim, PhaseBehind(claim, phase, steps[0], turn), steps[1..], turn)
  }

  // ---------------------------------------------------------------- one step

  lemma CommitRecords(s: System, step: Step, turn: Token)
    requires Inv(s) && Active(s, turn)
    requires StepTurn(step) == Some(turn) && Responds(s.workers[turn].phase, step)
    ensures var id := s.workers[turn].claim.conversationId;
      && id in Apply(s, step).store.conversations
      && StepResponse(s.workers[turn].phase, step, turn).Some?
      && EndsWith(s.store.conversations[id], Apply(s, step).store.conversations[id],
                  StepResponse(s.workers[turn].phase, step, turn).value)
  {
    var w := s.workers[turn];
    OwnerThread(s, turn);
    ResponseStore(s, step, turn);
    hide Apply, Complete, Interrupt, EndsWith;
    if w.phase.Completing? {
      CompletionRecords(s.store, w.claim, w.phase.outcome);
    } else {
      InterruptionRecords(s.store, w.claim, w.phase.unavailable, w.phase.category, w.phase.thread);
    }
  }

  /** One step leaves the row of an active turn as it is, or ends it with the step's response. */
  lemma StepRecords(s: System, step: Step, turn: Token)
    requires Inv(s) && Active(s, turn)
    ensures var w := s.workers[turn];
      var id := w.claim.conversationId;
      var response := StepResponse(w.phase, step, turn);
      && id in Apply(s, step).store.conversations
      && (response.None? ==> Apply(s, step).store.conversations[id] == s.store.conversations[id])
      && (response.Some? ==>
           EndsWith(s.store.conversations[id], Apply(s, step).store.conversations[id], response.value))
      && (response.Some? <==> !Active(Apply(s, step), turn))
  {
    StepEndsIff(s, step, turn);
    if step == RepairAtStartup {
      OwnerThread(s, turn);
      RepairRecords(s.store);
      hide EndsWith, Repair, StoreInv, WorkersInv, SequencesDistinct, ActiveKnown;
    } else if StepTurn(step) == Some(turn) && Responds(s.workers[turn].phase, step) {
      CommitRecords(s, step, turn);
      hide Inv, Active, Apply, EndsWith;
    } else {
      StepKeepsRow(s, step, turn);
      hide Inv, Apply, EndsWith;
    }
  }

  // ---------------------------------------------------------------- every run

  /** The row `after` has the log of `before`, the stored response directly behind it, and the thread it names. */
  ghost predicate Recorded(before: Conversation, after: Conversation, response: Response) {
    var n := |before.entries|;
    && n < |after.entries|
    && after.entries[..n] == before.entries
    && after.entries[n].sequence == n + 1
    && IsResponse(after.entries[n], response)
    && (ThreadBehind(before.thread, response).Some? ==> after.thread == ThreadBehind(before.thread, response))
  }

  lemma RecordStays(before: Conversation, ended: Conversation, after: Conversation, response: Response)
    requires EndsWith(before, ended, response) && RowGrows(ended, after)
    ensures Recorded(before, after, response)
  {
    var n := |before.entries|;
    assert after.entries[..n] == ended.entries[..n];
    assert after.entries[n] == ended.entries[n];
  }

  /**
    Over every run from a state in which the turn is active: the entry directly
    behind the turn's user entry is the response of the first step that ends the
    turn, and stays it; while no such step has happened the row is untouched.
  */
  lemma {:induction false} FirstResponseIsRecorded(s: System, steps: seq<Step>, turn: Token)
    requires Inv(s) && Active(s, turn)
    ensures var w := s.workers[turn];
      var id := w.claim.conversationId;
      var response := FirstResponse(w.claim, w.phase, steps, turn);
      && w.sequence == |s.store.conversations[id].entries|
      && id in Run(s, steps).store.conversations
      && (response.None? ==>
           Active(Run(s, steps), turn) && Run(s, steps).store.conversations[id] == s.store.conversations[id])
      && (response.Some? ==>
           && !Active(Run(s, steps), turn)
           && Recorded(s.store.conversations[id], Run(s, steps).store.conversations[id], response.value))
    decreases |steps|
  {
    TurnHasOneResponse(s, turn);
    if steps != [] {
      var after := Apply(s, steps[0]);
      var w := s.workers[turn];
      var id := w.claim.conversationId;
      StepRecords(s, steps[0], turn);
      TurnStep(s, steps[0], turn);
      hide Inv, Apply, Active, NextPhase, StepTurn, StepResponse, Recorded, EndsWith, HasOneResponse;
      if StepResponse(w.phase, steps[0], turn).None? {
        FirstResponseIsRecorded(after, steps[1..], turn);
      } else {
        EndedStaysEnded(after, turn, steps[1..]);
        RunKeeps(after, steps[1..]);
        RecordStays(s.store.conversations[id], after.store.conversations[id],
                    Run(after, steps[1..]).store.conversations[id],
                    StepResponse(w.phase, steps[0], turn).value);
      }
    }
  }

  // ---------------------------------------------------------------- every script

  /** An interruption that is stored only if its transaction commits. */
  function WhenCleaned(script: Script, unavailable: bool, category: Category, thread: Option<string>)
    : Option<Response>
  {
    if script.cleanupCommits then Some(Interruption(unavailable, category, thread)) else None
  }

  /** What the user of a turn gets to read, by what happens to the turn. */
  function ScriptResponse(claim: Claim, script: Script): Option<Response> {
    if script.admissionCancelled then WhenCleaned(script, false, AdmissionCancelled, None)
    else match script.provider
      case ThreadGone => WhenCleaned(script, true, ProviderThreadUnavailable, None)
      case Fails => WhenCleaned(script, false, ProviderFailure, None)
      case Cancelled => WhenCleaned(script, false, TurnCancelled, None)
      case Returns(outcome) =>
        if claim.thread.Some? && claim.thread.value != outcome.thread
        then WhenCleaned(script, false, ThreadIdentityChanged, None)
        else match script.completion
          case Commits => Some(Reply(outcome))
          case Breaks(true, _) => Some(Reply(outcome))
          case Breaks(false, cancelled) =>
            WhenCleaned(script, false, if cancelled then CompletionCancelled else CompletionFailed,
                        Some(outcome.thread))
  }

  /** Without startup repair only the turn's own steps decide its response. */
  lemma {:induction false} OthersDoNotRespond(claim: Claim, phase: Phase, steps: seq<Step>, turn: Token)
    requires RepairAtStartup !in steps
    ensures FirstResponse(claim, phase, steps, turn) == FirstResponse(claim, phase, Own(steps, turn), turn)
    decreases |steps|
  {
    if steps != [] {
      var rest := Own(steps[1..], turn);
      InTail(steps, RepairAtStartup);
      OthersDoNotRespond(claim, PhaseBehind(claim, phase, steps[0], turn), steps[1..], turn);
      if StepTurn(steps[0]) == Some(turn) {
        assert ([steps[0]] + rest)[1..] == rest;
        hide NextPhase, StepResponse;
      } else {
        assert [] + rest == rest;
        assert StepResponse(phase, steps[0], turn).None?;
      }
    }
  }

  lemma FirstOfTwo(claim: Claim, phase: Phase, a: Step, b: Step, turn: Token)
    ensures FirstResponse(claim, phase, [a, b], turn) ==
      if StepResponse(phase, a, turn).Some? then StepResponse(phase, a, turn)
      else StepResponse(PhaseBehind(claim, phase, a, turn), b, turn)
  {
    hide StepResponse, PhaseBehind;
    var second := PhaseBehind(claim, phase, a, turn);
    assert [a, b][1..] == [b];
    assert [b][1..] == [];
    assert FirstResponse(claim, PhaseBehind(claim, second, b, turn), [], turn) == None;
    assert FirstResponse(claim, second, [b], turn) == StepResponse(second, b, turn);
  }

  lemma FirstOfThree(claim: Claim, phase: Phase, a: Step, b: Step, c: Step, turn: Token)
    ensures FirstResponse(claim, phase, [a, b, c], turn) ==
      if StepResponse(phase, a, turn).Some? then StepResponse(phase, a, turn)
      else FirstResponse(claim, PhaseBehind(claim, phase, a, turn), [b, c], turn)
  {
    hide StepResponse, PhaseBehind;
    assert [a, b, c][1..] == [b, c];
  }

  /** The steps of a script store the response the script calls for, whatever other workers do. */
  lemma ScriptRespondsWith(claim: Claim, script: Script, steps: seq<Step>, turn: Token)
    requires claim.turnId == turn && RepairAtStartup !in steps
    requires Own(steps, turn) == ScriptSteps(claim, script)
    ensures FirstResponse(claim, Executing, steps, turn) == ScriptResponse(claim, script)
  {
    OthersDoNotRespond(claim, Executing, steps, turn);
    ScriptStepsRespond(claim, script);
  }

  lemma ScriptStepsRespond(claim: Claim, script: Script)
    ensures FirstResponse(claim, Executing, ScriptSteps(claim, script), claim.turnId) == ScriptResponse(claim, script)
  {
    var own, turn := ScriptSteps(claim, script), claim.turnId;
    if |own| == 2 {
      assert own == [own[0], own[1]];
      FirstOfTwo(claim, Executing, own[0], own[1], turn);
    } else {
      assert own == [own[0], own[1], own[2]];
      FirstOfThree(claim, Executing, own[0], own[1], own[2], turn);
      FirstOfTwo(claim, PhaseBehind(claim, Executing, own[0], turn), own[1], own[2], turn);
    }
  }

  lemma {:induction false} FinishedNeverResponds(claim: Claim, phase: Phase, steps: seq<Step>, turn: Token)
    requires phase.Finished?
    ensures FirstResponse(claim, phase, steps, turn) ==
      if RepairAtStartup in steps then Some(Interruption(false, StartupRepair, None)) else None
    decreases |steps|
  {
    if steps != [] {
      InTail(steps, RepairAtStartup);
      if steps[0] != RepairAtStartup { FinishedNeverResponds(claim, phase, steps[1..], turn); }
    }
  }

  /**
    Every way a turn can go, interleaved with anything: when its own steps have
    run, what stands behind its user entry is what the script calls for, for
    ever. A turn whose cleanup did not commit has nothing there until startup
    repair marks it.
  */
  lemma EveryScriptIsRecorded(s: System, steps: seq<Step>, turn: Token, script: Script, later: seq<Step>)
    requires Inv(s) && Active(s, turn) && s.workers[turn].phase == Executing
    requires Own(steps, turn) == ScriptSteps(s.workers[turn].claim, script) && RepairAtStartup !in steps
    ensures var claim := s.workers[turn].claim;
      var s' := Run(Run(s, steps), later);
      && claim.conversationId in s'.store.conversations
      && var c, c' := s.store.conversations[claim.conversationId], s'.store.conversations[claim.conversationId];
      match ScriptResponse(claim, script)
      case Some(response) => Recorded(c, c', response)
      case None =>
        if RepairAtStartup in later then Recorded(c, c', Interruption(false, StartupRepair, None)) else c' == c
  {
    var claim, middle := s.workers[turn].claim, Run(s, steps);
    var id := claim.conversationId;
    hide Inv, Active, ScriptSteps, ScriptResponse, Recorded, HasOneResponse;
    OwnerThread(s, turn);
    FirstResponseIsRecorded(s, steps, turn);
    ScriptRespondsWith(claim, script, steps, turn);
    PhaseOfInterleaving(s, steps, turn);
    ScriptResponds(claim, script);
    RunKeeps(s, steps);
    RunKeeps(middle, later);
    match ScriptResponse(claim, script)
    case Some(response) =>
      RecordGrows(s.store.conversations[id], middle.store.conversations[id],
                  Run(middle, later).store.conversations[id], response);
    case None =>
      FirstResponseIsRecorded(middle, later, turn);
      FinishedNeverResponds(claim, middle.workers[turn].phase, later, turn);
  }

  lemma RecordGrows(before: Conversation, middle: Conversation, after: Conversation, response: Response)
    requires Recorded(before, middle, response) && RowGrows(middle, after)
    ensures Recorded(before, after, response)
  {
    var n := |before.entries|;
    assert after.entries[..n] == middle.entries[..n];
    assert after.entries[n] == middle.entries[n];
  }

  lemma GoodEnding(claim: Claim, outcome: Outcome)
    requires claim.thread in {None, Some(outcome.thread)}
    ensures var script := Script(false, Returns(outcome), Commits, false);
      && ScriptSteps(claim, script) == [ProviderReturns(claim.turnId, outcome), CompletionCommits(claim.turnId)]
      && ScriptResponse(claim, script) == Some(Reply(outcome))
  {}

  /**
    A provider that returns an outcome the claim may continue with, and a
    completion that commits: the provider's words stand directly behind the
    user's entry for ever, and every later claim of the conversation continues
    the provider's thread.
  */
  lemma ReplyIsKept(s: System, steps: seq<Step>, turn: Token, outcome: Outcome, later: seq<Step>,
                    text: string, questionSetId: Token, answers: seq<Submitted>, key: string)
    requires Inv(s) && Active(s, turn) && s.workers[turn].phase == Executing
    requires Own(steps, turn) == [ProviderReturns(turn, outcome), CompletionCommits(turn)]
    requires RepairAtStartup !in steps
    requires s.workers[turn].claim.thread in {None, Some(outcome.thread)}
    ensures var w := s.workers[turn];
      var id := w.claim.conversationId;
      var st := Run(Run(s, steps), later).store;
      && id in st.conversations
      && Recorded(s.store.conversations[id], st.conversations[id], Reply(outcome))
      && w.sequence == |s.store.conversations[id].entries|
      && (var claimed := ClaimMessage(st, id, text, key).1;
          claimed.Claimed? ==> claimed.claim.thread == Some(outcome.thread))
      && (var claimed := ClaimAnswer(st, id, questionSetId, answers, key).1;
          claimed.Claimed? ==> claimed.claim.thread == Some(outcome.thread))
  {
    var claim := s.workers[turn].claim;
    hide Inv, Active, Recorded, RowGrows, ScriptSteps, ScriptResponse, ClaimMessage, ClaimAnswer, HasOneResponse;
    OwnerThread(s, turn);
    TurnHasOneResponse(s, turn);
    GoodEnding(claim, outcome);
    EveryScriptIsRecorded(s, steps, turn, Script(false, Returns(outcome), Commits, false), later);
    RunKeeps(s, steps);
    RunKeeps(Run(s, steps), later);
    var end := Run(Run(s, steps), later);
    RecordedThread(s.store.conversations[claim.conversationId], end.store.conversations[claim.conversationId], outcome);
    ClaimsOfRun(end, claim.conversationId, text, questionSetId, answers, key);
  }

  lemma RecordedThread(before: Conversation, after: Conversation, outcome: Outcome)
    requires Recorded(before, after, Reply(outcome))
    ensures after.thread == Some(outcome.thread)
  {}

  lemma ClaimsOfRun(s: System, id: Token, text: string, questionSetId: Token, answers: seq<Submitted>, key: string)
    requires Inv(s) && id in s.store.conversations
    ensures var claimed := ClaimMessage(s.store, id, text, key).1;
      claimed.Claimed? ==> claimed.claim.thread == s.store.conversations[id].thread
    ensures var claimed := ClaimAnswer(s.store, id, questionSetId, answers, key).1;
      claimed.Claimed? ==> claimed.claim.thread == s.store.conversations[id].thread
  {
    MessageClaimRecords(s.store, id, text, key);
    AnswerClaimRecords(s.store, id, questionSetId, answers, key);
    hide Inv, ClaimMessage, ClaimAnswer, OpensWith, MayClaim, AnswersLast;
  }

  // ---------------------------------------------------------------- question sets

  /** This entry of this conversation is a question set. */
  predicate HasSet(st: Store, id: Token, i: nat) {
    && id in st.conversations && i < |st.conversations[id].entries|
    && st.conversations[id].entries[i].body.QuestionSet?
  }

  function SetAt(st: Store, id: Token, i: nat): Token
    requires HasSet(st, id, i)
  {
    st.conversations[id].entries[i].body.id
  }

  /** Question set ids were drawn before, and no two question sets of any conversations share one. */
  ghost predicate SetsDistinct(st: Store) {
    && (forall id, i :: HasSet(st, id, i) ==> SetAt(st, id, i) < st.nextToken)
    && (forall id1, i1, id2, i2 ::
         HasSet(st, id1, i1) && HasSet(st, id2, i2) && SetAt(st, id1, i1) == SetAt(st, id2, i2) ==>
           id1 == id2 && i1 == i2)
  }

  /** Every question set was there before, except one at (at, n) that took the next token. */
  ghost predicate AddsSet(st: Store, st': Store, at: Token, n: nat) {
    && st.nextToken <= st'.nextToken
    && forall id, i :: HasSet(st', id, i) ==>
         || (HasSet(st, id, i) && SetAt(st', id, i) == SetAt(st, id, i))
         || (id == at && i == n && SetAt(st', id, i) == st.nextToken && st.nextToken < st'.nextToken)
  }

  lemma AddedSetKeepsDistinct(st: Store, st': Store, at: Token, n: nat)
    requires SetsDistinct(st) && AddsSet(st, st', at, n)
    ensures SetsDistinct(st')
  {
    hide HasSet;
  }

  lemma CompletionAddsSet(st: Store, claim: Claim, outcome: Outcome)
    requires StoreInv(st) && SetsDistinct(st)
    ensures SetsDistinct(Complete(st, claim, outcome).0)
  {
    CompletionRecords(st, claim, outcome);
    var st' := Complete(st, claim, outcome).0;
    if Owns(st, claim) {
      var n := |st.conversations[claim.conversationId].entries|;
      assert st'.nextToken == st.nextToken + 1;
      hide Complete, StoreInv, SetsDistinct;
      forall id: Token, i: nat | HasSet(st', id, i)
        ensures || (HasSet(st, id, i) && SetAt(st', id, i) == SetAt(st, id, i))
                || (id == claim.conversationId && i == n && SetAt(st', id, i) == st.nextToken)
      {
        if id == claim.conversationId && i < n {
          assert st'.conversations[id].entries[..n][i] == st.conversations[id].entries[i];
        }
      }
      AddedSetKeepsDistinct(st, st', claim.conversationId, n);
    }
  }

  /** A change that appends to some logs at most one entry, none of them a question set. */
  ghost predicate AddsNoSet(st: Store, st': Store) {
    && st.nextToken <= st'.nextToken
    && forall id :: id in st'.conversations ==>
         var entries := st'.conversations[id].entries;
         || entries == []
         || (id in st.conversations && entries == st.conversations[id].entries)
         || (id in st.conversations && AddsEntry(st.conversations[id].entries, entries)
             && !entries[|st.conversations[id].entries|].body.QuestionSet?)
  }

  lemma NoSetKeepsDistinct(st: Store, st': Store)
    requires SetsDistinct(st) && AddsNoSet(st, st')
    ensures SetsDistinct(st')
  {
    forall id: Token, i: nat | HasSet(st', id, i)
      ensures HasSet(st, id, i) && SetAt(st', id, i) == SetAt(st, id, i) {
      var before, after := st.conversations[id].entries, st'.conversations[id].entries;
      if after != before { assert after[..|before|][i] == before[i]; }
    }
    hide SetsDistinct;
    AddedSetKeepsDistinct(st, st', 0, 0);
  }

  lemma ClaimsAddNoSet(st: Store, id: Token, text: string, questionSetId: Token, answers: seq<Submitted>, key: string)
    requires StoreInv(st)
    ensures AddsNoSet(st, ClaimMessage(st, id, text, key).0)
    ensures AddsNoSet(st, ClaimAnswer(st, id, questionSetId, answers, key).0)
  {
    MessageClaimRecords(st, id, text, key);
    AnswerClaimRecords(st, id, questionSetId, answers, key);
    hide ClaimMessage, ClaimAnswer, MayClaim, AnswersLast, StoreInv;
  }

  lemma InterruptionsAddNoSet(st: Store, claim: Claim, unavailable: bool, category: Category, thread: Option<string>)
    requires StoreInv(st)
    ensures AddsNoSet(st, Interrupt(st, claim, unavailable, category, thread).0)
    ensures AddsNoSet(st, Repair(st))
  {
    InterruptionRecords(st, claim, unavailable, category, thread);
    RepairRecords(st);
    hide Interrupt, Repair, StoreInv;
  }

  lemma CreationAddsNoSet(st: Store, key: string)
    requires StoreInv(st)
    ensures AddsNoSet(st, Create(st, key).0)
  {
    CreationRecords(st, key);
    assert st.nextToken <= Create(st, key).0.nextToken;
    hide Create, StoreInv;
  }

  /** The stores that a worker's transactions lead to. */
  lemma CommittedStores(s: System, turn: Token, next: Phase)
    requires turn in s.workers
    ensures var w := s.workers[turn];
      && Move(s, turn, next).store == s.store
      && (w.phase.Completing? ==>
           CommitCompletion(s, turn, next).store == Complete(s.store, w.claim, w.phase.outcome).0)
      && (w.phase.Cleaning? ==>
           CommitCleanup(s, turn).store
             == Interrupt(s.store, w.claim, w.phase.unavailable, w.phase.category, w.phase.thread).0)
  {
    hide Complete, Interrupt;
  }

  lemma AdmittedStore(s: System, claimed: (Store, ClaimResult))
    ensures Admit(s, claimed).store in {s.store, claimed.0}
  {}

  lemma ClaimsKeepSets(s: System, id: Token, text: string, questionSetId: Token, answers: seq<Submitted>, key: string)
    requires StoreInv(s.store) && SetsDistinct(s.store)
    ensures SetsDistinct(Admit(s, ClaimMessage(s.store, id, text, key)).store)
    ensures SetsDistinct(Admit(s, ClaimAnswer(s.store, id, questionSetId, answers, key)).store)
  {
    hide SetsDistinct, AddsNoSet, StoreInv, ClaimMessage, ClaimAnswer, Admit;
    ClaimsAddNoSet(s.store, id, text, questionSetId, answers, key);
    NoSetKeepsDistinct(s.store, ClaimMessage(s.store, id, text, key).0);
    NoSetKeepsDistinct(s.store, ClaimAnswer(s.store, id, questionSetId, answers, key).0);
    AdmittedStore(s, ClaimMessage(s.store, id, text, key));
    AdmittedStore(s, ClaimAnswer(s.store, id, questionSetId, answers, key));
  }

  lemma WorkerKeepsSets(s: System, turn: Token, next: Phase)
    requires StoreInv(s.store) && SetsDistinct(s.store) && turn in s.workers
    ensures SetsDistinct(Move(s, turn, next).store)
    ensures s.workers[turn].phase.Completing? ==> SetsDistinct(CommitCompletion(s, turn, next).store)
    ensures s.workers[turn].phase.Cleaning? ==> SetsDistinct(CommitCleanup(s, turn).store)
  {
    hide SetsDistinct, AddsNoSet, StoreInv, Complete, Interrupt, Repair, Move, CommitCompletion, CommitCleanup;
    var w := s.workers[turn];
    CommittedStores(s, turn, next);
    if w.phase.Completing? { CompletionAddsSet(s.store, w.claim, w.phase.outcome); }
    if w.phase.Cleaning? {
      InterruptionsAddNoSet(s.store, w.claim, w.phase.unavailable, w.phase.category, w.phase.thread);
      NoSetKeepsDistinct(s.store,
        Interrupt(s.store, w.claim, w.phase.unavailable, w.phase.category, w.phase.thread).0);
    }
  }

  lemma TablesKeepSets(st: Store, key: string)
    requires StoreInv(st) && SetsDistinct(st)
    ensures SetsDistinct(Create(st, key).0)
    ensures SetsDistinct(Repair(st))
  {
    hide SetsDistinct, AddsNoSet, StoreInv, Create, Repair, Interrupt;
    CreationAddsNoSet(st, key);
    NoSetKeepsDistinct(st, Create(st, key).0);
    InterruptionsAddNoSet(st, Claim(0, 0, None), false, StartupRepair, None);
    NoSetKeepsDistinct(st, Repair(st));
  }

  /** One step keeps question set ids distinct. */
  lemma StepKeepsSets(s: System, step: Step)
    requires StoreInv(s.store) && SetsDistinct(s.store)
    ensures SetsDistinct(Apply(s, step).store)
  {
    hide SetsDistinct, StoreInv, Repair, Create, ClaimMessage, ClaimAnswer, AfterProvider, Admit, CommitCompletion,
      CommitCleanup, Move;
    match step
    case CreateConversation(key) => TablesKeepSets(s.store, key);
    case RepairAtStartup => TablesKeepSets(s.store, "");
    case SubmitMessage(id, text, key) => ClaimsKeepSets(s, id, text, 0, [], key);
    case SubmitAnswers(id, questionSetId, answers, key) => ClaimsKeepSets(s, id, "", questionSetId, answers, key);
    case CompletionFails(turn, _, cancelled) =>
      if turn in s.workers && s.workers[turn].phase.Completing? {
        var category := if cancelled then CompletionCancelled else CompletionFailed;
        WorkerKeepsSets(s, turn, Cleaning(false, category, Some(s.workers[turn].phase.outcome.thread)));
      }
    case _ =>
      var turn := StepTurn(step).value;
      if turn in s.workers { WorkerKeepsSets(s, turn, NextPhase(s.workers[turn].claim, s.workers[turn].phase, step)); }
  }

  lemma StorePart(s: System)
    requires Inv(s)
    ensures StoreInv(s.store)
  {}

  /** In every reachable state a question set id names one question set of one conversation. */
  lemma {:induction false} RunKeepsSets(s: System, steps: seq<Step>)
    requires Inv(s) && SetsDistinct(s.store)
    ensures SetsDistinct(Run(s, steps).store)
    decreases |steps|
  {
    hide SetsDistinct, Inv, Apply;
    if steps != [] {
      StepKeeps(s, steps[0]);
      StorePart(s);
      StepKeepsSets(s, steps[0]);
      RunKeepsSets(Apply(s, steps[0]), steps[1..]);
    }
  }

  lemma QuestionSetsAreDistinct(steps: seq<Step>)
    ensures SetsDistinct(Run(INITIAL, steps).store)
  {
    assert SetsDistinct(INITIAL.store);
    RunKeepsSets(INITIAL, steps);
  }
}
