/**
  The store as the object the service updates in place, transaction by
  transaction, and `_run_claimed_turn` as the code that drives one claim
  through it. Each method is proved against the transaction functions of
  OperatorProtocol; the turn driver is proved against the steps of
  OperatorSystem, so everything proved about runs holds of it.
*/
module OperatorService {
  import opened Basics
  import opened OperatorProtocol
  import opened OperatorInvariant
  import opened OperatorSystem
  import opened OperatorTurns

  /** The store `_run_claimed_turn` leaves behind when no other worker interferes. */
  function TurnStore(st: Store, claim: Claim, script: Script): Store {
    match script.provider
    case ThreadGone => CleanedUp(st, claim, script, true, ProviderThreadUnavailable, None)
    case Fails => CleanedUp(st, claim, script, false, ProviderFailure, None)
    case Cancelled => CleanedUp(st, claim, script, false, TurnCancelled, None)
    case Returns(outcome) =>
      if !Continues(claim, outcome) then CleanedUp(st, claim, script, false, ThreadIdentityChanged, None)
      else match script.completion
        case Commits => Complete(st, claim, outcome).0
        case Breaks(committed, cancelled) =>
          CleanedUp(if committed then Complete(st, claim, outcome).0 else st, claim, script, false,
                    if cancelled then CompletionCancelled else CompletionFailed, Some(outcome.thread))
  }

  function CleanedUp(st: Store, claim: Claim, script: Script, unavailable: bool, category: Category,
                     thread: Option<string>): Store
  {
    if script.cleanupCommits then Interrupt(st, claim, unavailable, category, thread).0 else st
  }

  lemma RunTwo(s: System, a: Step, b: Step)
    ensures Run(s, [a, b]) == Apply(Apply(s, a), b)
  {
    hide Apply;
    assert [a, b][1..] == [b];
    assert Run(Apply(s, a), [b]) == Run(Apply(Apply(s, a), b), []);
  }

  lemma RunThree(s: System, a: Step, b: Step, c: Step)
    ensures Run(s, [a, b, c]) == Apply(Apply(Apply(s, a), b), c)
  {
    hide Apply;
    assert [a, b, c][1..] == [b, c];
    RunTwo(Apply(s, a), b, c);
  }

  /** One worker alone, in a given phase. */
  function Alone(st: Store, claim: Claim, sequence: nat, phase: Phase): System {
    System(st, map[claim.turnId := Worker(claim, sequence, phase)])
  }

  lemma CleanupAlone(st: Store, claim: Claim, sequence: nat, script: Script, unavailable: bool, category: Category,
                     thread: Option<string>)
    ensures Apply(Alone(st, claim, sequence, Cleaning(unavailable, category, thread)),
                  CleanupStepOf(claim, script)).store
      == CleanedUp(st, claim, script, unavailable, category, thread)
  {
    hide Interrupt;
  }

  lemma MoveAlone(st: Store, claim: Claim, sequence: nat, before: Phase, after: Phase)
    ensures Move(Alone(st, claim, sequence, before), claim.turnId, after) == Alone(st, claim, sequence, after)
  {}

  /** A claim that ends before its completion is due: one step to the cleanup, then the cleanup. */
  lemma CleanupOnly(st: Store, claim: Claim, sequence: nat, script: Script, first: Step, unavailable: bool,
                    category: Category)
    requires Apply(Alone(st, claim, sequence, Executing), first)
      == Alone(st, claim, sequence, Cleaning(unavailable, category, None))
    ensures Run(Alone(st, claim, sequence, Executing), [first, CleanupStepOf(claim, script)]).store
      == CleanedUp(st, claim, script, unavailable, category, None)
  {
    hide Apply, CleanedUp, CleanupStepOf, Alone;
    RunTwo(Alone(st, claim, sequence, Executing), first, CleanupStepOf(claim, script));
    CleanupAlone(st, claim, sequence, script, unavailable, category, None);
  }

  lemma CompletionAlone(st: Store, claim: Claim, sequence: nat, script: Script, outcome: Outcome)
    requires script.provider == Returns(outcome) && Continues(claim, outcome)
    ensures Run(Alone(st, claim, sequence, Executing), TurnSteps(claim, script)).store == TurnStore(st, claim, script)
  {
    var s, turn := Alone(st, claim, sequence, Executing), claim.turnId;
    var returned := ProviderReturns(turn, outcome);
    MoveAlone(st, claim, sequence, Executing, Completing(outcome));
    assert Apply(s, returned) == Alone(st, claim, sequence, Completing(outcome));
    hide Complete, Interrupt, Continues;
    match script.completion
    case Commits => RunTwo(s, returned, CompletionCommits(turn));
    case Breaks(committed, cancelled) =>
      var fails := CompletionFails(turn, committed, cancelled);
      var category := if cancelled then CompletionCancelled else CompletionFailed;
      var stored := if committed then Complete(st, claim, outcome).0 else st;
      RunThree(s, returned, fails, CleanupStepOf(claim, script));
      MoveAlone(stored, claim, sequence, Completing(outcome), Cleaning(false, category, Some(outcome.thread)));
      CleanupAlone(stored, claim, sequence, script, false, category, Some(outcome.thread));
  }

  lemma TurnStoreIsRun(st: Store, claim: Claim, sequence: nat, script: Script)
    ensures Run(Alone(st, claim, sequence, Executing), TurnSteps(claim, script)).store == TurnStore(st, claim, script)
  {
    var turn := claim.turnId;
    hide CleanedUp, Run;
    match script.provider
    case ThreadGone =>
      CleanupOnly(st, claim, sequence, script, ProviderThreadGone(turn), true, ProviderThreadUnavailable);
    case Fails => CleanupOnly(st, claim, sequence, script, ProviderFails(turn), false, ProviderFailure);
    case Cancelled => CleanupOnly(st, claim, sequence, script, CancelTurn(turn), false, TurnCancelled);
    case Returns(outcome) =>
      if Continues(claim, outcome) {
        CompletionAlone(st, claim, sequence, script, outcome);
      } else {
        CleanupOnly(st, claim, sequence, script, ProviderReturns(turn, outcome), false, ThreadIdentityChanged);
      }
  }

  // ---------------------------------------------------------------- the code

  /** `_validate_and_resolve_answers`. */
  method ValidateAndResolveAnswers(questions: seq<Question>, answers: seq<Submitted>)
    returns (resolved: Option<seq<Answered>>)
    ensures resolved == ResolveAnswers(questions, answers)
  {
    var idsMatch := |questions| == |answers|;
    var k := 0;
    while idsMatch && k < |questions|
      invariant 0 <= k <= |questions|
      invariant idsMatch ==> |questions| == |answers|
      invariant idsMatch ==> forall j :: 0 <= j < k ==> answers[j].questionId == questions[j].id
      invariant !idsMatch ==> !Answerable(questions, answers)
      decreases |questions| - k, idsMatch
    {
      if answers[k].questionId != questions[k].id { idsMatch := false; } else { k := k + 1; }
    }
    if !idsMatch { return None; }
    var accepted: seq<Answered> := [];
    for i := 0 to |questions|
      invariant |accepted| == i
      invariant forall j :: 0 <= j < i ==> ResolveOne(questions[j], answers[j].answer) == Some(accepted[j])
    {
      match ResolveOne(questions[i], answers[i].answer) {
        case None => return None;
        case Some(one) => accepted := accepted + [one];
      }
    }
    assert Answerable(questions, answers);
    assert accepted == ResolveAnswers(questions, answers).value;
    return Some(accepted);
  }

  class OperatorStore {
    var conversations: map<Token, Conversation>
    var nextToken: Token

    ghost function Snapshot(): Store
      reads this
    {
      Store(conversations, nextToken)
    }

    constructor ()
      ensures Snapshot() == EMPTY_STORE
    {
      conversations, nextToken := map[], 0;
    }

    method CreateConversation(key: string) returns (id: Token)
      requires StoreInv(Snapshot())
      modifies this
      ensures (Snapshot(), id) == Create(old(Snapshot()), key)
    {
      if existing :| existing in conversations && conversations[existing].createKey == key {
        id := existing;
      } else {
        id := nextToken;
        conversations := conversations[id := Conversation(key, Ready, None, None, [])];
        nextToken := nextToken + 1;
      }
    }

    /** `_next_entry_sequence`. */
    method NextEntrySequence(id: Token) returns (sequence: nat)
      requires id in conversations
      ensures sequence == LatestSequence(conversations[id].entries) + 1
    {
      var entries := conversations[id].entries;
      var latest := 0;
      for i := 0 to |entries|
        invariant latest == LatestSequence(entries[..i])
      {
        assert entries[..i + 1][..i] == entries[..i];
        if entries[i].sequence > latest { latest := entries[i].sequence; }
      }
      assert entries[..|entries|] == entries;
      sequence := latest + 1;
    }

    method AddEntry(id: Token, body: Body, request: Option<RequestIdentity>)
      requires id in conversations
      modifies this`conversations
      ensures conversations == old(conversations)[id := old(conversations[id]).(entries :=
        Append(old(conversations[id].entries), body, request))]
    {
      var sequence := NextEntrySequence(id);
      var row := conversations[id];
      conversations := conversations[id := row.(entries := row.entries + [Entry(sequence, body, request)])];
    }

    /** The guarded UPDATE of `_claim_conversation`. */
    method ClaimConversation(id: Token, key: string, allowed: set<State>, turn: Token) returns (matched: bool)
      modifies this`conversations
      ensures matched <==> Claimable(old(Snapshot()), id, key, allowed)
      ensures matched ==> conversations == old(conversations)[id :=
        old(conversations[id]).(state := Running, activeTurn := Some(turn))]
      ensures !matched ==> conversations == old(conversations)
    {
      matched := id in conversations && conversations[id].activeTurn.None? && conversations[id].state in allowed
        && FindKey(conversations[id].entries, key).None?;
      if matched {
        conversations := conversations[id := conversations[id].(state := Running, activeTurn := Some(turn))];
      }
    }

    method ClaimMessageTurn(id: Token, text: string, key: string) returns (r: ClaimResult)
      modifies this
      ensures (Snapshot(), r) == ClaimMessage(old(Snapshot()), id, text, key)
    {
      var turn := nextToken;
      var matched := ClaimConversation(id, key, {Ready, Interrupted}, turn);
      if !matched {
        return DuplicateOrConflict(Store(conversations, nextToken), id, key, MessageDigest(text));
      }
      var thread := conversations[id].thread;
      AddEntry(id, UserMessage(text), Some(RequestIdentity(key, MessageDigest(text))));
      nextToken := turn + 1;
      r := Claimed(Claim(id, turn, thread), MessageInput(text));
      assert conversations == old(conversations)[id := OpenTurn(old(conversations)[id], turn, UserMessage(text), key)];
    }

    /** A question set that is not current, or answers that do not fit it, roll the claim back. */
    method ClaimAnswerTurn(id: Token, questionSetId: Token, answers: seq<Submitted>, key: string)
      returns (r: ClaimResult)
      modifies this
      ensures (Snapshot(), r) == ClaimAnswer(old(Snapshot()), id, questionSetId, answers, key)
    {
      var turn := nextToken;
      var saved := conversations;
      var matched := ClaimConversation(id, key, {AwaitingAnswer}, turn);
      if !matched {
        return DuplicateOrConflict(Store(conversations, nextToken), id, key, AnswersDigest(questionSetId, answers));
      }
      var current := LatestQuestionSet(conversations[id].entries);
      QuestionSetKind(conversations[id].entries);
      if current.None? || current.value.id != questionSetId {
        conversations := saved;
        return Rejected(QuestionSetNotFound);
      }
      var resolved := ValidateAndResolveAnswers(current.value.questions, answers);
      if resolved.None? {
        conversations := saved;
        return Rejected(AnswerValidation);
      }
      var thread := conversations[id].thread;
      var digest := AnswersDigest(questionSetId, answers);
      AddEntry(id, UserAnswers(questionSetId, answers), Some(RequestIdentity(key, digest)));
      nextToken := turn + 1;
      r := Claimed(Claim(id, turn, thread), AnswersInput(resolved.value));
      assert conversations == saved[id := OpenTurn(saved[id], turn, UserAnswers(questionSetId, answers), key)];
    }

    method CompleteTurn(claim: Claim, outcome: Outcome) returns (matched: bool)
      modifies this
      ensures (Snapshot(), matched) == Complete(old(Snapshot()), claim, outcome)
    {
      var id := claim.conversationId;
      matched := id in conversations && conversations[id].state == Running
        && conversations[id].activeTurn == Some(claim.turnId);
      if !matched { return; }
      conversations := conversations[id := conversations[id].(
        thread := Some(outcome.thread),
        state := if outcome.result.MessageResult? then Ready else AwaitingAnswer,
        activeTurn := None)];
      match outcome.result {
        case MessageResult(text) => AddEntry(id, AssistantMessage(text), None);
        case QuestionsResult(questions) => AddEntry(id, QuestionSet(nextToken, questions), None);
      }
      nextToken := nextToken + 1;
      assert conversations == old(conversations)[id := CompleteRow(old(conversations)[id], outcome, old(nextToken))];
    }

    method InterruptTurn(claim: Claim, unavailable: bool, category: Category, thread: Option<string>)
      returns (matched: bool)
      modifies this
      ensures (Snapshot(), matched) == Interrupt(old(Snapshot()), claim, unavailable, category, thread)
    {
      var id := claim.conversationId;
      matched := id in conversations && conversations[id].state == Running
        && conversations[id].activeTurn == Some(claim.turnId);
      if !matched { return; }
      var row := conversations[id].(state := if unavailable then Closed else Interrupted, activeTurn := None);
      if thread.Some? { row := row.(thread := thread); }
      conversations := conversations[id := row];
      AddEntry(id, TurnInterrupted(unavailable, category), None);
      assert conversations == old(conversations)[id :=
        InterruptRow(old(conversations)[id], unavailable, category, thread)];
    }

    /** One bulk UPDATE marks every stranded row, then each gets its interruption entry. */
    method RepairStrandedTurns() returns (count: nat)
      modifies this
      ensures Snapshot() == Repair(old(Snapshot()))
      ensures count == |StrandedIds(old(Snapshot()))|
    {
      var before := conversations;
      var stranded := StrandedIds(Store(conversations, nextToken));
      conversations := map id | id in before ::
        if id in stranded then before[id].(state := Interrupted, activeTurn := None) else before[id];
      var pending := stranded;
      while pending != {}
        invariant pending <= stranded && conversations.Keys == before.Keys
        invariant forall id :: id in before && id !in pending ==> conversations[id] == RepairRow(before[id])
        invariant forall id :: id in pending ==>
          conversations[id] == before[id].(state := Interrupted, activeTurn := None)
        invariant nextToken == old(nextToken)
      {
        var id :| id in pending;
        AddEntry(id, TurnInterrupted(false, StartupRepair), None);
        pending := pending - {id};
      }
      assert conversations == Repair(old(Snapshot())).conversations;
      count := |stranded|;
    }

    /**
      `_run_claimed_turn` for an owned claim: it ends in the store that the
      worker's steps lead to, for every way its provider call, completion and
      cleanup can go.
    */
    method RunClaimedTurn(claim: Claim, sequence: nat, script: Script)
      modifies this
      ensures Snapshot() ==
        Run(Alone(old(Snapshot()), claim, sequence, Executing), TurnSteps(claim, script)).store
    {
      match script.provider {
        case Cancelled => CleanUp(claim, script, false, TurnCancelled, None);
        case ThreadGone => CleanUp(claim, script, true, ProviderThreadUnavailable, None);
        case Fails => CleanUp(claim, script, false, ProviderFailure, None);
        case Returns(outcome) =>
          if !Continues(claim, outcome) {
            CleanUp(claim, script, false, ThreadIdentityChanged, None);
          } else {
            match script.completion {
              case Commits =>
                var _ := CompleteTurn(claim, outcome);
              case Breaks(committed, cancelled) =>
                if committed { var _ := CompleteTurn(claim, outcome); }
                CleanUp(claim, script, false, if cancelled then CompletionCancelled else CompletionFailed,
                        Some(outcome.thread));
            }
          }
      }
      TurnStoreIsRun(old(Snapshot()), claim, sequence, script);
      hide Run, TurnSteps, Complete, Interrupt;
    }

    /** `_admit_and_run` for a claim that was admitted: cancelled meanwhile, it is interrupted, otherwise it runs. */
    method AdmitAndRun(claim: Claim, sequence: nat, script: Script)
      modifies this
      ensures Snapshot() ==
        Run(Alone(old(Snapshot()), claim, sequence, Executing), ScriptSteps(claim, script)).store
    {
      if script.admissionCancelled {
        CleanUp(claim, script, false, AdmissionCancelled, None);
        CleanupOnly(old(Snapshot()), claim, sequence, script, CancelAdmission(claim.turnId), false, AdmissionCancelled);
        hide Run, Apply, Interrupt;
      } else {
        RunClaimedTurn(claim, sequence, script);
      }
    }

    /** The interruption transaction, or nothing when it does not commit. */
    method CleanUp(claim: Claim, script: Script, unavailable: bool, category: Category, thread: Option<string>)
      modifies this
      ensures Snapshot() ==
        if script.cleanupCommits
        then Interrupt(old(Snapshot()), claim, unavailable, category, thread).0
        else old(Snapshot())
    {
      if script.cleanupCommits { var _ := InterruptTurn(claim, unavailable, category, thread); }
    }
  }

  lemma {:induction false} QuestionSetKind(entries: seq<Entry>)
    ensures LatestQuestionSet(entries).Some? ==> LatestQuestionSet(entries).value.QuestionSet?
  {
    if entries != [] && !entries[|entries| - 1].body.QuestionSet? {
      QuestionSetKind(entries[..|entries| - 1]);
    }
  }
}
