/**
  What each Operator transaction writes, field by field: the entry it appends,
  the row it leaves, the rows it does not touch and what it reports.
*/
module OperatorRecords {
  import opened Basics
  import opened OperatorProtocol
  import opened OperatorInvariant

  /** What ends a turn: the provider's outcome, or an interruption with the thread it may report. */
  datatype Response =
    | Reply(outcome: Outcome)
    | Interruption(unavailable: bool, category: Category, thread: Option<string>)

  /** The log `after` is `before` and one more entry, numbered next. */
  ghost predicate AddsEntry(before: seq<Entry>, after: seq<Entry>) {
    && |after| == |before| + 1
    && after[..|before|] == before
    && after[|before|].sequence == |before| + 1
  }

  /** This entry is the stored form of the response. */
  predicate IsResponse(entry: Entry, response: Response) {
    && entry.request.None?
    && match response
       case Interruption(unavailable, category, _) =>
         && entry.body.TurnInterrupted?
         && entry.body.threadUnavailable == unavailable && entry.body.category == category
       case Reply(outcome) =>
         if outcome.result.MessageResult?
         then entry.body.AssistantMessage? && entry.body.text == outcome.result.text
         else entry.body.QuestionSet? && entry.body.questions == outcome.result.questions
  }

  /** The thread the row names once the response is stored. */
  function ThreadBehind(thread: Option<string>, response: Response): Option<string> {
    match response
    case Reply(outcome) => Some(outcome.thread)
    case Interruption(_, _, Some(reported)) => Some(reported)
    case Interruption(_, _, None) => thread
  }

  function StateBehind(response: Response): State {
    match response
    case Reply(Outcome(_, MessageResult(_))) => Ready
    case Reply(Outcome(_, QuestionsResult(_))) => AwaitingAnswer
    case Interruption(unavailable, _, _) => if unavailable then Closed else Interrupted
  }

  /** The row `after` is the row `before` with its turn ended by the response. */
  ghost predicate EndsWith(before: Conversation, after: Conversation, response: Response) {
    && AddsEntry(before.entries, after.entries)
    && IsResponse(after.entries[|before.entries|], response)
    && after.state == StateBehind(response)
    && after.activeTurn == None
    && after.thread == ThreadBehind(before.thread, response)
    && after.createKey == before.createKey
  }

  /** Only the row of this conversation may differ. */
  ghost predicate OtherRowsStay(st: Store, st': Store, id: Token) {
    && st'.conversations.Keys == st.conversations.Keys
    && forall other :: other in st.conversations && other != id ==>
         st'.conversations[other] == st.conversations[other]
  }

  lemma AppendAdds(entries: seq<Entry>, body: Body, request: Option<RequestIdentity>)
    requires Numbered(entries)
    ensures AddsEntry(entries, Append(entries, body, request))
    ensures Append(entries, body, request)[|entries|].body == body
    ensures Append(entries, body, request)[|entries|].request == request
  {
    NumberedLatest(entries);
  }

  // ---------------------------------------------------------------- completion and interruption

  /**
    The completion of an owned claim stores the provider's words and thread. A
    question set gets an id no token had before. A claim that is no longer owned
    changes nothing and is told so.
  */
  lemma CompletionRecords(st: Store, claim: Claim, outcome: Outcome)
    requires StoreInv(st)
    ensures var (st', matched) := Complete(st, claim, outcome);
      && (matched <==> Owns(st, claim))
      && (!matched ==> st' == st)
      && (matched ==>
           var id := claim.conversationId;
           && OtherRowsStay(st, st', id)
           && EndsWith(st.conversations[id], st'.conversations[id], Reply(outcome))
           && (outcome.result.QuestionsResult? ==>
                && st'.conversations[id].entries[|st.conversations[id].entries|].body.id == st.nextToken
                && st.nextToken < st'.nextToken))
  {
    if Owns(st, claim) {
      var c := st.conversations[claim.conversationId];
      assert RowInv(c);
      var c' := CompleteRow(c, outcome, st.nextToken);
      match outcome.result {
        case MessageResult(text) => AppendAdds(c.entries, AssistantMessage(text), None);
        case QuestionsResult(questions) => AppendAdds(c.entries, QuestionSet(st.nextToken, questions), None);
      }
      assert EndsWith(c, c', Reply(outcome));
    }
  }

  /** An interruption of an owned claim stores why, keeps a known thread and stores a reported one. */
  lemma InterruptionRecords(st: Store, claim: Claim, unavailable: bool, category: Category, thread: Option<string>)
    requires StoreInv(st)
    ensures var (st', matched) := Interrupt(st, claim, unavailable, category, thread);
      && (matched <==> Owns(st, claim))
      && (!matched ==> st' == st)
      && st'.nextToken == st.nextToken
      && (matched ==>
           var id := claim.conversationId;
           && OtherRowsStay(st, st', id)
           && EndsWith(st.conversations[id], st'.conversations[id], Interruption(unavailable, category, thread)))
  {
    if Owns(st, claim) {
      var c := st.conversations[claim.conversationId];
      assert RowInv(c);
      AppendAdds(c.entries, TurnInterrupted(unavailable, category), None);
      assert EndsWith(c, InterruptRow(c, unavailable, category, thread), Interruption(unavailable, category, thread));
    }
  }

  /** Startup repair interrupts every running row, as a repair, and touches no other. */
  lemma RepairRecords(st: Store)
    requires StoreInv(st)
    ensures Repair(st).conversations.Keys == st.conversations.Keys
    ensures Repair(st).nextToken == st.nextToken
    ensures forall id :: id in st.conversations ==>
      var c, c' := st.conversations[id], Repair(st).conversations[id];
      if c.state == Running then EndsWith(c, c', Interruption(false, StartupRepair, None)) else c' == c
  {
    forall id | id in st.conversations
      ensures var c, c' := st.conversations[id], Repair(st).conversations[id];
        if c.state == Running then EndsWith(c, c', Interruption(false, StartupRepair, None)) else c' == c
    {
      var c := st.conversations[id];
      assert RowInv(c);
      AppendAdds(c.entries, TurnInterrupted(false, StartupRepair), None);
    }
  }

  // ---------------------------------------------------------------- claims

  /** The row `after` is the row `before` with a turn opened by this user entry and request. */
  ghost predicate OpensWith(before: Conversation, after: Conversation, turn: Token, body: Body,
                            request: RequestIdentity)
  {
    && AddsEntry(before.entries, after.entries)
    && after.entries[|before.entries|].body == body
    && after.entries[|before.entries|].request == Some(request)
    && after.state == Running
    && after.activeTurn == Some(turn)
    && after.thread == before.thread
    && after.createKey == before.createKey
  }

  /** No entry of the log was requested under this key. */
  ghost predicate KeyUnused(entries: seq<Entry>, key: string) {
    forall i :: 0 <= i < |entries| && entries[i].request.Some? ==> entries[i].request.value.key != key
  }

  /** The row is there, no turn is active, its state is one of these and the key is new to it. */
  ghost predicate MayClaim(st: Store, id: Token, key: string, allowed: set<State>) {
    && id in st.conversations
    && st.conversations[id].activeTurn == None
    && st.conversations[id].state in allowed
    && KeyUnused(st.conversations[id].entries, key)
  }

  lemma ClaimableIff(st: Store, id: Token, key: string, allowed: set<State>)
    ensures Claimable(st, id, key, allowed) <==> MayClaim(st, id, key, allowed)
  {
    if id in st.conversations {
      var entries := st.conversations[id].entries;
      FindKeyFinds(entries, key);
      assert KeyUnused(entries, key) <==> forall i :: 0 <= i < |entries| ==> !OwnsKey(entries[i], key);
    }
  }

  /** What a granted claim stores and hands to its worker, whatever the input. */
  ghost predicate Grants(st: Store, id: Token, claimed: (Store, ClaimResult), body: Body, request: RequestIdentity,
                         input: TurnInput)
    requires id in st.conversations
  {
    && claimed.1 == Claimed(Claim(id, st.nextToken, st.conversations[id].thread), input)
    && st.nextToken < claimed.0.nextToken
    && OtherRowsStay(st, claimed.0, id)
    && OpensWith(st.conversations[id], claimed.0.conversations[id], st.nextToken, body, request)
  }

  /**
    A message is claimed exactly when its conversation waits for one under a new
    key; then the text is stored and the same text goes to the provider with
    the stored thread. Refused, nothing is written.
  */
  lemma MessageClaimRecords(st: Store, id: Token, text: string, key: string)
    requires StoreInv(st)
    ensures var claimed := ClaimMessage(st, id, text, key);
      && (claimed.1.Claimed? <==> MayClaim(st, id, key, {Ready, Interrupted}))
      && (claimed.1.Claimed? ==> 
           Grants(st, id, claimed, UserMessage(text), RequestIdentity(key, MessageDigest(text)), MessageInput(text)))
      && (!claimed.1.Claimed? ==> claimed.0 == st)
  {
    ClaimableIff(st, id, key, {Ready, Interrupted});
    if Claimable(st, id, key, {Ready, Interrupted}) {
      assert RowInv(st.conversations[id]);
      AppendAdds(st.conversations[id].entries, UserMessage(text), Some(RequestIdentity(key, MessageDigest(text))));
    }
  }

  /** The accepted form of an answer names the question and what was chosen, written or skipped. */
  ghost predicate Accepts(question: Question, answer: Answer, answered: Answered) {
    && answered.question == question.text
    && match answer
       case SkipAnswer => question.allowSkip && answered.answer == AcceptedSkip
       case CustomAnswer(text) => answered.answer == AcceptedCustom(text)
       case OptionAnswer(optionId) =>
         exists k :: 0 <= k < |question.options|
           && question.options[k].id == optionId
           && (forall j :: 0 <= j < k ==> question.options[j].id != optionId)
           && answered.answer == AcceptedOption(question.options[k].caption)
  }

  lemma {:induction false} FindChoiceFinds(options: seq<Choice>, id: string)
    ensures FindChoice(options, id).None? <==> forall k :: 0 <= k < |options| ==> options[k].id != id
    ensures FindChoice(options, id).Some? ==>
      exists k :: 0 <= k < |options| && options[k].id == id && (forall j :: 0 <= j < k ==> options[j].id != id)
        && FindChoice(options, id).value == options[k]
  {
    if options != [] && options[0].id != id {
      var rest := options[1..];
      FindChoiceFinds(rest, id);
      if FindChoice(options, id).Some? {
        var k :| 0 <= k < |rest| && rest[k].id == id && (forall j :: 0 <= j < k ==> rest[j].id != id)
          && FindChoice(rest, id).value == rest[k];
        assert options[k + 1] == rest[k];
        forall j | 0 <= j < k + 1 ensures options[j].id != id {
          if j > 0 { assert options[j] == rest[j - 1]; }
        }
      } else {
        forall k | 0 <= k < |options| ensures options[k].id != id {
          if k > 0 { assert options[k] == rest[k - 1]; }
        }
      }
    }
  }

  /** Resolving one answer finds its one accepted form, and fails when there is none. */
  lemma ResolvesIff(question: Question, answer: Answer, answered: Answered)
    ensures ResolveOne(question, answer) == Some(answered) <==> Accepts(question, answer, answered)
  {
    if answer.OptionAnswer? { FindChoiceFinds(question.options, answer.optionId); }
  }

  /** Every question is answered once, in order, and these are the accepted forms. */
  ghost predicate AcceptsAll(questions: seq<Question>, answers: seq<Submitted>, answered: seq<Answered>) {
    && |answers| == |questions| == |answered|
    && (forall i :: 0 <= i < |questions| ==> answers[i].questionId == questions[i].id)
    && (forall i :: 0 <= i < |questions| ==> Accepts(questions[i], answers[i].answer, answered[i]))
  }

  lemma ResolveAllIff(questions: seq<Question>, answers: seq<Submitted>, answered: seq<Answered>)
    ensures ResolveAnswers(questions, answers) == Some(answered) <==> AcceptsAll(questions, answers, answered)
  {
    var r := ResolveAnswers(questions, answers);
    hide ResolveOne, Accepts;
    if r == Some(answered) {
      forall i | 0 <= i < |questions| ensures Accepts(questions[i], answers[i].answer, answered[i]) {
        ResolvesIff(questions[i], answers[i].answer, answered[i]);
      }
    }
    if AcceptsAll(questions, answers, answered) {
      forall i | 0 <= i < |questions| ensures ResolveOne(questions[i], answers[i].answer) == Some(answered[i]) {
        ResolvesIff(questions[i], answers[i].answer, answered[i]);
      }
      assert r.Some?;
      forall i | 0 <= i < |questions| ensures r.value[i] == answered[i] {
        assert Some(r.value[i]) == ResolveOne(questions[i], answers[i].answer);
      }
      assert r.value == answered;
    }
  }

  /** The last entry of the log is this question set, and these are the accepted forms of the answers to it. */
  ghost predicate AnswersLast(entries: seq<Entry>, questionSetId: Token, answers: seq<Submitted>,
                              answered: seq<Answered>)
  {
    && entries != []
    && entries[|entries| - 1].body.QuestionSet?
    && entries[|entries| - 1].body.id == questionSetId
    && AcceptsAll(entries[|entries| - 1].body.questions, answers, answered)
  }

  /**
    Answers are claimed exactly when the conversation waits for them under a new
    key and they answer the question set at the end of its log; then the
    submitted answers are stored, and their accepted forms go to the provider
    with the stored thread. Refused, nothing is written.
  */
  lemma AnswerClaimRecords(st: Store, id: Token, questionSetId: Token, answers: seq<Submitted>, key: string)
    requires StoreInv(st)
    ensures var claimed := ClaimAnswer(st, id, questionSetId, answers, key);
      && (claimed.1.Claimed? <==>
           && MayClaim(st, id, key, {AwaitingAnswer})
           && exists answered :: AnswersLast(st.conversations[id].entries, questionSetId, answers, answered))
      && (claimed.1.Claimed? ==>
           && claimed.1.input.AnswersInput?
           && AnswersLast(st.conversations[id].entries, questionSetId, answers, claimed.1.input.answers)
           && Grants(st, id, claimed, UserAnswers(questionSetId, answers),
                     RequestIdentity(key, AnswersDigest(questionSetId, answers)), claimed.1.input))
      && (!claimed.1.Claimed? ==> claimed.0 == st)
  {
    hide ResolveAnswers, AcceptsAll;
    ClaimableIff(st, id, key, {AwaitingAnswer});
    if Claimable(st, id, key, {AwaitingAnswer}) {
      var c := st.conversations[id];
      assert RowInv(c);
      LatestQuestionSetIsLast(c.entries);
      var last := c.entries[|c.entries| - 1].body;
      AppendAdds(c.entries, UserAnswers(questionSetId, answers),
                 Some(RequestIdentity(key, AnswersDigest(questionSetId, answers))));
      var resolved := ResolveAnswers(last.questions, answers);
      if last.id == questionSetId && resolved.Some? {
        ResolveAllIff(last.questions, answers, resolved.value);
        assert AnswersLast(st.conversations[id].entries, questionSetId, answers, resolved.value);
        assert ClaimAnswer(st, id, questionSetId, answers, key).1.Claimed?;
      } else {
        assert !ClaimAnswer(st, id, questionSetId, answers, key).1.Claimed?;
        forall answered ensures !AnswersLast(st.conversations[id].entries, questionSetId, answers, answered) {
          ResolveAllIff(last.questions, answers, answered);
        }
      }
    }
  }

  /** The reply to a request whose key the entry at index i already owns. */
  predicate RepliesToUsedKey(c: Conversation, i: nat, digest: Digest, reply: ClaimResult)
    requires i < |c.entries| && c.entries[i].request.Some?
  {
    if c.entries[i].request.value.digest != digest then reply == Rejected(IdempotencyConflict)
    else if c.state == Running && i == |c.entries| - 1 then reply == Duplicate(Some(i + 1))
    else reply == Duplicate(None)
  }

  /** Why a request that could not claim its row is refused: no row, a busy row, or a key that is used already. */
  ghost predicate RefusedFor(st: Store, id: Token, key: string, digest: Digest, reply: ClaimResult) {
    && (id !in st.conversations ==> reply == Rejected(ConversationNotFound))
    && (id in st.conversations && KeyUnused(st.conversations[id].entries, key) ==>
         reply == Rejected(ConversationConflict))
    && (id in st.conversations ==>
         forall i :: 0 <= i < |st.conversations[id].entries| && OwnsKey(st.conversations[id].entries[i], key) ==>
           RepliesToUsedKey(st.conversations[id], i, digest, reply))
  }

  lemma RefusalTells(st: Store, id: Token, key: string, digest: Digest)
    requires StoreInv(st)
    ensures RefusedFor(st, id, key, digest, DuplicateOrConflict(st, id, key, digest))
  {
    if id in st.conversations {
      var c := st.conversations[id];
      assert RowInv(c);
      FindKeyFinds(c.entries, key);
      NumberedLatest(c.entries);
      forall i | 0 <= i < |c.entries| && OwnsKey(c.entries[i], key)
        ensures RepliesToUsedKey(c, i, digest, DuplicateOrConflict(st, id, key, digest))
      {
        FindKeyUnique(c.entries, key, i);
      }
    }
  }

  /** A request that could not claim its row is told why; answers that claimed theirs are told what does not fit. */
  lemma ClaimsAreRefusedFor(st: Store, id: Token, text: string, questionSetId: Token, answers: seq<Submitted>,
                            key: string)
    requires StoreInv(st)
    ensures !MayClaim(st, id, key, {Ready, Interrupted}) ==>
      RefusedFor(st, id, key, MessageDigest(text), ClaimMessage(st, id, text, key).1)
    ensures var reply := ClaimAnswer(st, id, questionSetId, answers, key).1;
      if !MayClaim(st, id, key, {AwaitingAnswer})
      then RefusedFor(st, id, key, AnswersDigest(questionSetId, answers), reply)
      else
        var entries := st.conversations[id].entries;
        && entries != [] && entries[|entries| - 1].body.QuestionSet?
        && (entries[|entries| - 1].body.id != questionSetId <==> reply == Rejected(QuestionSetNotFound))
        && (!reply.Claimed? ==> reply in {Rejected(QuestionSetNotFound), Rejected(AnswerValidation)})
  {
    ClaimableIff(st, id, key, {Ready, Interrupted});
    ClaimableIff(st, id, key, {AwaitingAnswer});
    RefusalTells(st, id, key, MessageDigest(text));
    RefusalTells(st, id, key, AnswersDigest(questionSetId, answers));
    hide DuplicateOrConflict, RefusedFor, MayClaim, ResolveAnswers, OpenTurn;
    if Claimable(st, id, key, {AwaitingAnswer}) {
      assert RowInv(st.conversations[id]);
      LatestQuestionSetIsLast(st.conversations[id].entries);
    }
  }

  /** A key creates one conversation, ready and empty; the same key finds it again and writes nothing. */
  lemma CreationRecords(st: Store, key: string)
    requires StoreInv(st)
    ensures var (st', id) := Create(st, key);
      if exists known :: known in st.conversations && st.conversations[known].createKey == key
      then st' == st && id in st.conversations && st.conversations[id].createKey == key
      else
        && id !in st.conversations && id < st'.nextToken
        && st'.conversations.Keys == st.conversations.Keys + {id}
        && (forall other :: other in st.conversations ==> st'.conversations[other] == st.conversations[other])
        && var c := st'.conversations[id];
           c.createKey == key && c.state == Ready && c.entries == [] && c.activeTurn == None && c.thread == None
  {}
}
