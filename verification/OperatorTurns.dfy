/**
  One worker among many: what its own steps decide about its turn, whatever
  other workers do in between, and exactly when the turn ends.
*/
module OperatorTurns {
  import opened Basics
  import opened OperatorProtocol
  import opened OperatorInvariant
  import opened OperatorSystem

  /**
    What happens to one claimed turn: whether the request is cancelled while its
    claim is admitted, the provider call, the completion and the cleanup.
  */
  datatype ProviderEvent = Returns(outcome: Outcome) | ThreadGone | Fails | Cancelled
  datatype CompletionEvent = Commits | Breaks(committed: bool, cancelled: bool)
  datatype Script = Script(admissionCancelled: bool, provider: ProviderEvent, completion: CompletionEvent,
                           cleanupCommits: bool)

  function CleanupStepOf(claim: Claim, script: Script): Step {
    if script.cleanupCommits then CleanupCommits(claim.turnId) else CleanupFails(claim.turnId)
  }

  /** The steps of `_run_claimed_turn` under a script. */
  function TurnSteps(claim: Claim, script: Script): seq<Step> {
    var turn, cleanup := claim.turnId, CleanupStepOf(claim, script);
    match script.provider
    case ThreadGone => [ProviderThreadGone(turn), cleanup]
    case Fails => [ProviderFails(turn), cleanup]
    case Cancelled => [CancelTurn(turn), cleanup]
    case Returns(outcome) =>
      if !Continues(claim, outcome) then [ProviderReturns(turn, outcome), cleanup]
      else match script.completion
        case Commits => [ProviderReturns(turn, outcome), CompletionCommits(turn)]
        case Breaks(committed, cancelled) =>
          [ProviderReturns(turn, outcome), CompletionFails(turn, committed, cancelled), cleanup]
  }

  /** The steps of `_admit_and_run` for a claim that was admitted. */
  function ScriptSteps(claim: Claim, script: Script): seq<Step> {
    if script.admissionCancelled then [CancelAdmission(claim.turnId), CleanupStepOf(claim, script)]
    else TurnSteps(claim, script)
  }

  /** The completion of the turn reaches the database. */
  predicate CompletionReaches(claim: Claim, script: Script) {
    && !script.admissionCancelled
    && script.provider.Returns?
    && Continues(claim, script.provider.outcome)
    && (script.completion.Commits? || script.completion.committed)
  }

  // ---------------------------------------------------------------- one worker among many

  function StepTurn(step: Step): Option<Token> {
    match step
    case CreateConversation(_) => None
    case SubmitMessage(_, _, _) => None
    case SubmitAnswers(_, _, _, _) => None
    case RepairAtStartup => None
    case CancelAdmission(turn) => Some(turn)
    case ProviderReturns(turn, _) => Some(turn)
    case ProviderThreadGone(turn) => Some(turn)
    case ProviderFails(turn) => Some(turn)
    case CancelTurn(turn) => Some(turn)
    case CompletionCommits(turn) => Some(turn)
    case CompletionFails(turn, _, _) => Some(turn)
    case CleanupCommits(turn) => Some(turn)
    case CleanupFails(turn) => Some(turn)
  }

  /** How a worker's own step changes its phase. */
  function NextPhase(claim: Claim, phase: Phase, step: Step): Phase {
    match (phase, step)
    case (Executing, CancelAdmission(_)) => Cleaning(false, AdmissionCancelled, None)
    case (Executing, ProviderReturns(_, outcome)) => AfterProvider(claim, outcome)
    case (Executing, ProviderThreadGone(_)) => Cleaning(true, ProviderThreadUnavailable, None)
    case (Executing, ProviderFails(_)) => Cleaning(false, ProviderFailure, None)
    case (Executing, CancelTurn(_)) => Cleaning(false, TurnCancelled, None)
    case (Completing(_), CompletionCommits(_)) => Finished(true)
    case (Completing(outcome), CompletionFails(_, _, cancelled)) =>
      Cleaning(false, if cancelled then CompletionCancelled else CompletionFailed, Some(outcome.thread))
    case (Cleaning(_, _, _), CleanupCommits(_)) => Finished(true)
    case (Cleaning(_, _, _), CleanupFails(_)) => Finished(false)
    case _ => phase
  }

  function PhaseAfter(claim: Claim, phase: Phase, own: seq<Step>): Phase
    decreases |own|
  {
    if own == [] then phase else PhaseAfter(claim, NextPhase(claim, phase, own[0]), own[1..])
  }

  /** The steps of one worker within an interleaving. */
  function Own(steps: seq<Step>, turn: Token): seq<Step>
    decreases |steps|
  {
    if steps == [] then []
    else (if StepTurn(steps[0]) == Some(turn) then [steps[0]] else []) + Own(steps[1..], turn)
  }

  lemma ClaimTurnIsNext(st: Store, id: Token, text: string, questionSetId: Token, answers: seq<Submitted>,
                        key: string)
    ensures var r := ClaimMessage(st, id, text, key).1; r.Claimed? ==> r.claim.turnId == st.nextToken
    ensures var r := ClaimAnswer(st, id, questionSetId, answers, key).1; r.Claimed? ==> r.claim.turnId == st.nextToken
  {}

  lemma ApplyPhase(s: System, step: Step, turn: Token)
    requires turn in s.workers && turn < s.store.nextToken
    ensures turn in Apply(s, step).workers
    ensures Apply(s, step).workers[turn].claim == s.workers[turn].claim
    ensures Apply(s, step).workers[turn].phase ==
      if StepTurn(step) == Some(turn)
      then NextPhase(s.workers[turn].claim, s.workers[turn].phase, step)
      else s.workers[turn].phase
  {
    if StepTurn(step) == Some(turn) {
      hide Create, Repair, Complete, Interrupt, ClaimMessage, ClaimAnswer, AfterProvider;
    } else {
      match step
      case SubmitMessage(id, text, key) => ClaimTurnIsNext(s.store, id, text, 0, [], key);
      case SubmitAnswers(id, questionSetId, answers, key) =>
        ClaimTurnIsNext(s.store, id, "", questionSetId, answers, key);
      case _ =>
      hide Create, Repair, Complete, Interrupt, ClaimMessage, ClaimAnswer, AfterProvider, NextPhase;
    }
  }

  lemma OwnStep(steps: seq<Step>, turn: Token, claim: Claim, phase: Phase)
    requires steps != []
    ensures PhaseAfter(claim, phase, Own(steps, turn)) ==
      PhaseAfter(claim, if StepTurn(steps[0]) == Some(turn) then NextPhase(claim, phase, steps[0]) else phase,
                 Own(steps[1..], turn))
  {
    var rest := Own(steps[1..], turn);
    if StepTurn(steps[0]) == Some(turn) {
      assert ([steps[0]] + rest)[1..] == rest;
    } else {
      assert [] + rest == rest;
    }
  }

  /** A worker's phase depends on its own steps only, however others interleave. */
  lemma {:induction false} PhaseOfInterleaving(s: System, steps: seq<Step>, turn: Token)
    requires Inv(s) && turn in s.workers
    ensures turn in Run(s, steps).workers
    ensures Run(s, steps).workers[turn].phase ==
      PhaseAfter(s.workers[turn].claim, s.workers[turn].phase, Own(steps, turn))
    decreases |steps|
  {
    if steps != [] {
      TurnsBelow(s);
      hide Grows, WorkersInv, StoreInv, Apply, NextPhase, StepTurn;
      StepKeeps(s, steps[0]);
      ApplyPhase(s, steps[0], turn);
      hide Inv;
      PhaseOfInterleaving(Apply(s, steps[0]), steps[1..], turn);
      OwnStep(steps, turn, s.workers[turn].claim, s.workers[turn].phase);
    }
  }

  // ---------------------------------------------------------------- when a turn ends

  /** The step of a worker in this phase is a transaction that commits a response. */
  predicate Responds(phase: Phase, step: Step) {
    match step
    case CompletionCommits(_) => phase.Completing?
    case CompletionFails(_, committed, _) => phase.Completing? && committed
    case CleanupCommits(_) => phase.Cleaning?
    case _ => false
  }

  /** One of the worker's own steps commits a response. */
  predicate RespondsAmong(claim: Claim, phase: Phase, own: seq<Step>)
    decreases |own|
  {
    own != [] && (Responds(phase, own[0]) || RespondsAmong(claim, NextPhase(claim, phase, own[0]), own[1..]))
  }

  /** A change of the store that leaves one row as it is. */
  predicate RowKept(st: Store, st': Store, id: Token) {
    id in st.conversations ==> id in st'.conversations && st'.conversations[id] == st.conversations[id]
  }

  /** No claim and no other turn's transaction touches a row with an active turn. */
  lemma ClaimsKeepRow(st: Store, row: Token, id: Token, text: string, questionSetId: Token, answers: seq<Submitted>,
                      key: string)
    requires row in st.conversations && st.conversations[row].activeTurn.Some?
    ensures RowKept(st, ClaimMessage(st, id, text, key).0, row)
    ensures RowKept(st, ClaimAnswer(st, id, questionSetId, answers, key).0, row)
  {
    hide OpenTurn, ResolveAnswers, LatestQuestionSet, DuplicateOrConflict;
  }

  lemma OtherTurnKeepsRow(st: Store, row: Token, claim: Claim, outcome: Outcome, unavailable: bool,
                          category: Category, thread: Option<string>)
    requires row in st.conversations && st.conversations[row].activeTurn.Some?
    requires st.conversations[row].activeTurn != Some(claim.turnId)
    ensures RowKept(st, Complete(st, claim, outcome).0, row)
    ensures RowKept(st, Interrupt(st, claim, unavailable, category, thread).0, row)
  {}

  /** A step that reaches no transaction leaves the store alone. */
  lemma QuietStep(s: System, step: Step)
    requires StepTurn(step).Some?
    requires !step.CompletionCommits? && !step.CompletionFails? && !step.CleanupCommits?
    ensures Apply(s, step).store == s.store
  {
    hide AfterProvider;
  }

  lemma StepKeepsRow(s: System, step: Step, turn: Token)
    requires Inv(s) && Active(s, turn) && step != RepairAtStartup
    requires StepTurn(step) == Some(turn) ==> !Responds(s.workers[turn].phase, step)
    ensures RowKept(s.store, Apply(s, step).store, s.workers[turn].claim.conversationId)
  {
    var row := s.workers[turn].claim.conversationId;
    hide Create, Complete, Interrupt, ClaimMessage, ClaimAnswer, AfterProvider, Owns;
    match step
    case CreateConversation(key) => CreateKeeps(s.store, key);
    case SubmitMessage(id, text, key) =>
      hide Inv;
      ClaimsKeepRow(s.store, row, id, text, 0, [], key);
    case SubmitAnswers(id, questionSetId, answers, key) =>
      hide Inv;
      ClaimsKeepRow(s.store, row, id, "", questionSetId, answers, key);
    case CompletionCommits(other) => CompletionKeepsRow(s, other, turn, Finished(true));
    case CompletionFails(other, _, _) => CompletionKeepsRow(s, other, turn, Finished(true));
    case CleanupCommits(other) => CleanupKeepsRow(s, other, turn);
    case _ =>
      hide Inv;
      QuietStep(s, step);
  }

  lemma CompletionKeepsRow(s: System, other: Token, turn: Token, next: Phase)
    requires Inv(s) && Active(s, turn)
    ensures other in s.workers && other != turn && s.workers[other].phase.Completing? ==>
      RowKept(s.store, Complete(s.store, s.workers[other].claim, s.workers[other].phase.outcome).0,
              s.workers[turn].claim.conversationId)
  {
    if other in s.workers && other != turn && s.workers[other].phase.Completing? {
      var w := s.workers[other];
      OwnerThread(s, other);
      hide Inv, Complete, Interrupt;
      OtherTurnKeepsRow(s.store, s.workers[turn].claim.conversationId, w.claim, w.phase.outcome,
                        false, StartupRepair, None);
    }
  }

  lemma CleanupKeepsRow(s: System, other: Token, turn: Token)
    requires Inv(s) && Active(s, turn)
    ensures other in s.workers && other != turn && s.workers[other].phase.Cleaning? ==>
      var w := s.workers[other];
      RowKept(s.store, Interrupt(s.store, w.claim, w.phase.unavailable, w.phase.category, w.phase.thread).0,
              s.workers[turn].claim.conversationId)
  {
    if other in s.workers && other != turn && s.workers[other].phase.Cleaning? {
      var w := s.workers[other];
      OwnerThread(s, other);
      hide Inv, Complete, Interrupt;
      OtherTurnKeepsRow(s.store, s.workers[turn].claim.conversationId, w.claim, Outcome("", MessageResult("")),
                        w.phase.unavailable, w.phase.category, w.phase.thread);
    }
  }

  /** The store behind a step that responds. */
  lemma ResponseStore(s: System, step: Step, turn: Token)
    requires turn in s.workers && StepTurn(step) == Some(turn)
    requires Responds(s.workers[turn].phase, step)
    ensures var w, after := s.workers[turn], Apply(s, step);
      && turn in after.workers && after.workers[turn].claim == w.claim
      && after.store == if w.phase.Completing? then Complete(s.store, w.claim, w.phase.outcome).0
           else Interrupt(s.store, w.claim, w.phase.unavailable, w.phase.category, w.phase.thread).0
  {
    hide Complete, Interrupt;
  }

  lemma OwnResponseEnds(s: System, step: Step, turn: Token)
    requires Inv(s) && turn in s.workers && StepTurn(step) == Some(turn)
    requires Responds(s.workers[turn].phase, step)
    ensures !Active(Apply(s, step), turn)
  {
    var w := s.workers[turn];
    OwnerThread(s, turn);
    StepKeeps(s, step);
    ResponseStore(s, step, turn);
    ResponseSettles(s.store, w);
    hide Inv, Grows, Owns, Active, Complete, Interrupt, Apply, Responds;
    NotOwnedNotActive(Apply(s, step), turn);
  }

  lemma ResponseSettles(st: Store, w: Worker)
    requires StoreInv(st) && PhaseContinues(w)
    requires Owns(st, w.claim) ==> st.conversations[w.claim.conversationId].thread == w.claim.thread
    ensures w.phase.Completing? ==> !Owns(Complete(st, w.claim, w.phase.outcome).0, w.claim)
    ensures w.phase.Cleaning? ==>
      !Owns(Interrupt(st, w.claim, w.phase.unavailable, w.phase.category, w.phase.thread).0, w.claim)
  {
    hide StoreInv, StoreSettles, Complete, Interrupt;
    if w.phase.Completing? { CompleteSettles(st, w.claim, w.phase.outcome); }
    if w.phase.Cleaning? { InterruptSettles(st, w.claim, w.phase.unavailable, w.phase.category, w.phase.thread); }
  }

  /** One step ends an active turn exactly when it is startup repair or a response of the turn's own worker. */
  lemma StepEndsIff(s: System, step: Step, turn: Token)
    requires Inv(s) && Active(s, turn)
    ensures Active(Apply(s, step), turn) <==>
      step != RepairAtStartup && !(StepTurn(step) == Some(turn) && Responds(s.workers[turn].phase, step))
  {
    if step == RepairAtStartup {
      RepairEndsEveryTurn(s, turn);
    } else if StepTurn(step) == Some(turn) && Responds(s.workers[turn].phase, step) {
      OwnResponseEnds(s, step, turn);
    } else {
      TurnsBelow(s);
      ApplyPhase(s, step, turn);
      StepKeepsRow(s, step, turn);
      hide Inv, Apply, StepTurn, Responds, NextPhase;
    }
  }

  lemma OwnResponds(steps: seq<Step>, turn: Token, claim: Claim, phase: Phase)
    requires steps != []
    ensures RespondsAmong(claim, phase, Own(steps, turn)) <==>
      || (StepTurn(steps[0]) == Some(turn) && Responds(phase, steps[0]))
      || RespondsAmong(claim, if StepTurn(steps[0]) == Some(turn) then NextPhase(claim, phase, steps[0]) else phase,
                       Own(steps[1..], turn))
  {
    var rest := Own(steps[1..], turn);
    hide NextPhase, Responds;
    if StepTurn(steps[0]) == Some(turn) {
      assert ([steps[0]] + rest)[1..] == rest;
    } else {
      assert [] + rest == rest;
    }
  }

  /** What one step does to an active turn, to its worker and to the invariant. */
  lemma TurnStep(s: System, step: Step, turn: Token)
    requires Inv(s) && Active(s, turn)
    ensures var after := Apply(s, step);
      var w := s.workers[turn];
      var own := StepTurn(step) == Some(turn);
      && Inv(after) && turn in after.workers
      && after.workers[turn].claim == w.claim
      && after.workers[turn].phase == (if own then NextPhase(w.claim, w.phase, step) else w.phase)
      && (Active(after, turn) <==> step != RepairAtStartup && !(own && Responds(w.phase, step)))
  {
    TurnsBelow(s);
    StepKeeps(s, step);
    ApplyPhase(s, step, turn);
    StepEndsIff(s, step, turn);
    hide Inv, Grows, WorkersInv, Apply, NextPhase, StepTurn, Responds;
  }

  lemma InTail(steps: seq<Step>, step: Step)
    requires steps != []
    ensures step in steps <==> step == steps[0] || step in steps[1..]
  {
    assert steps == [steps[0]] + steps[1..];
  }

  /** An active turn ends in a run exactly when startup repair happens or its own worker commits a response. */
  lemma {:induction false} RunEndsIff(s: System, steps: seq<Step>, turn: Token)
    requires Inv(s) && Active(s, turn)
    ensures Active(Run(s, steps), turn) <==>
      RepairAtStartup !in steps && !RespondsAmong(s.workers[turn].claim, s.workers[turn].phase, Own(steps, turn))
    decreases |steps|
  {
    if steps != [] {
      var after := Apply(s, steps[0]);
      var w := s.workers[turn];
      hide Inv, Apply, Active, NextPhase, StepTurn, Responds;
      TurnStep(s, steps[0], turn);
      OwnResponds(steps, turn, w.claim, w.phase);
      InTail(steps, RepairAtStartup);
      if Active(after, turn) {
        RunEndsIff(after, steps[1..], turn);
      } else {
        EndedStaysEnded(after, turn, steps[1..]);
      }
    }
  }

  // ---------------------------------------------------------------- every script

  lemma FinishedRespondsNever(claim: Claim, phase: Phase, own: seq<Step>)
    requires phase.Finished?
    ensures !RespondsAmong(claim, phase, own)
    decreases |own|
  {
    if own != [] { FinishedRespondsNever(claim, NextPhase(claim, phase, own[0]), own[1..]); }
  }

  lemma RespondsTwo(claim: Claim, phase: Phase, a: Step, b: Step)
    ensures var second := NextPhase(claim, phase, a);
      && (RespondsAmong(claim, phase, [a, b]) <==> Responds(phase, a) || Responds(second, b))
      && PhaseAfter(claim, phase, [a, b]) == NextPhase(claim, second, b)
  {
    var second := NextPhase(claim, phase, a);
    hide NextPhase, Responds;
    assert [a, b][1..] == [b];
    assert [b][1..] == [];
    assert PhaseAfter(claim, second, [b]) == PhaseAfter(claim, NextPhase(claim, second, b), []);
    assert RespondsAmong(claim, second, [b]) <==> Responds(second, b);
  }

  lemma RespondsThree(claim: Claim, phase: Phase, a: Step, b: Step, c: Step)
    ensures var second := NextPhase(claim, phase, a);
      var third := NextPhase(claim, second, b);
      && (RespondsAmong(claim, phase, [a, b, c]) <==> Responds(phase, a) || Responds(second, b) || Responds(third, c))
      && PhaseAfter(claim, phase, [a, b, c]) == NextPhase(claim, third, c)
  {
    hide NextPhase, Responds;
    assert [a, b, c][1..] == [b, c];
    RespondsTwo(claim, NextPhase(claim, phase, a), b, c);
  }

  /** A script commits a response exactly when its completion reaches the database or its cleanup is due and commits. */
  lemma ScriptResponds(claim: Claim, script: Script)
    ensures RespondsAmong(claim, Executing, ScriptSteps(claim, script)) <==>
      script.cleanupCommits || CompletionReaches(claim, script)
    ensures PhaseAfter(claim, Executing, ScriptSteps(claim, script)).Finished?
  {
    var own := ScriptSteps(claim, script);
    if |own| == 2 {
      assert own == [own[0], own[1]];
      RespondsTwo(claim, Executing, own[0], own[1]);
    } else {
      assert own == [own[0], own[1], own[2]];
      RespondsThree(claim, Executing, own[0], own[1], own[2]);
    }
  }

  /**
    For every provider outcome, every failure and every interleaving with other
    workers: once a turn's own steps have run, the turn is still running exactly
    when neither its completion nor its cleanup reached the database and no
    startup repair has happened; otherwise it has its one response, for ever.
  */
  lemma EveryOutcomeSettles(s: System, steps: seq<Step>, turn: Token, script: Script, later: seq<Step>)
    requires Inv(s) && Active(s, turn) && s.workers[turn].phase == Executing
    requires Own(steps, turn) == ScriptSteps(s.workers[turn].claim, script)
    ensures var s' := Run(Run(s, steps), later);
      && turn in s'.workers && s'.workers[turn].claim.conversationId in s'.store.conversations
      && (Active(s', turn) <==>
            && !script.cleanupCommits
            && !CompletionReaches(s.workers[turn].claim, script)
            && RepairAtStartup !in steps
            && RepairAtStartup !in later)
      && (HasOneResponse(s', turn) <==> !Active(s', turn))
  {
    var claim := s.workers[turn].claim;
    var middle := Run(s, steps);
    hide Inv, Active, HasOneResponse, CompletionReaches, ScriptSteps, Grows;
    ScriptResponds(claim, script);
    RunEndsIff(s, steps, turn);
    RunKeeps(s, steps);
    PhaseOfInterleaving(s, steps, turn);
    if Active(middle, turn) {
      RunEndsIff(middle, later, turn);
      FinishedRespondsNever(middle.workers[turn].claim, middle.workers[turn].phase, Own(later, turn));
    } else {
      EndedStaysEnded(middle, turn, later);
    }
    RunKeeps(middle, later);
    PhaseOfInterleaving(middle, later, turn);
    OwnerThread(Run(middle, later), turn);
    TurnHasOneResponse(Run(middle, later), turn);
  }

  /** A provider failure whose interruption does not commit leaves the turn running, with no response. */
  lemma CleanupFailureStrandsTheTurn()
    ensures var steps := [CreateConversation("c"), SubmitMessage(0, "hello", "k"), ProviderFails(1), CleanupFails(1)];
      var s := Run(INITIAL, steps);
      && 1 in s.workers && s.workers[1].phase == Finished(false)
      && s.workers[1].claim.conversationId in s.store.conversations
      && Active(s, 1) && !HasOneResponse(s, 1)
  {
    var s1 := Apply(INITIAL, CreateConversation("c"));
    var s2 := Apply(s1, SubmitMessage(0, "hello", "k"));
    assert s1.store == Store(map[0 := Conversation("c", Ready, None, None, [])], 1);
    assert Claimable(s1.store, 0, "k", {Ready, Interrupted});
    assert Active(s2, 1) && s2.workers[1].phase == Executing;
  }
}
