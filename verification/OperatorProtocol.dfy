/**
  One Operator conversation row with its append-only entry log, and the five
  transactions that change it. Every function here is one committed block of
  src/oh_my_subagents/operator/persistence.py; a rejected or rolled-back block
  returns the store it was given.

  Tokens stand for `uuid4` values: they are drawn from a counter, so a token
  drawn later never equals one drawn earlier.  A request digest is kept as the
  normalized request itself, which makes digests collision-free.
*/
module OperatorProtocol {
  import opened Basics

  type Token = nat

  datatype State = Ready | Running | AwaitingAnswer | Interrupted | Closed

  datatype Category =
    | AdmissionCancelled | CompletionCancelled | CompletionFailed | ProviderFailure
    | ProviderThreadUnavailable | StartupRepair | ThreadIdentityChanged | TurnCancelled

  datatype Choice = Choice(id: string, caption: string)
  datatype Question = Question(id: string, text: string, allowSkip: bool, options: seq<Choice>)
  datatype Answer = OptionAnswer(optionId: string) | CustomAnswer(text: string) | SkipAnswer
  datatype Submitted = Submitted(questionId: string, answer: Answer)
  datatype Accepted = AcceptedOption(caption: string) | AcceptedCustom(text: string) | AcceptedSkip
  datatype Answered = Answered(question: string, answer: Accepted)

  datatype Body =
    | UserMessage(text: string)
    | UserAnswers(questionSetId: Token, answers: seq<Submitted>)
    | AssistantMessage(text: string)
    | QuestionSet(id: Token, questions: seq<Question>)
    | TurnInterrupted(threadUnavailable: bool, category: Category)

  datatype Digest =
    | MessageDigest(text: string)
    | AnswersDigest(questionSetId: Token, answers: seq<Submitted>)

  datatype RequestIdentity = RequestIdentity(key: string, digest: Digest)

  datatype Entry = Entry(sequence: nat, body: Body, request: Option<RequestIdentity>)

  datatype Conversation = Conversation(
    createKey: string,
    state: State,
    activeTurn: Option<Token>,
    thread: Option<string>,
    entries: seq<Entry>)

  datatype Store = Store(conversations: map<Token, Conversation>, nextToken: Token)

  datatype TurnInput = MessageInput(text: string) | AnswersInput(answers: seq<Answered>)

  datatype Claim = Claim(conversationId: Token, turnId: Token, thread: Option<string>)

  datatype Error =
    | IdempotencyConflict | ConversationNotFound | ConversationConflict
    | QuestionSetNotFound | AnswerValidation

  datatype ClaimResult =
    | Claimed(claim: Claim, input: TurnInput)
    | Duplicate(activeSequence: Option<nat>)
    | Rejected(error: Error)

  datatype ProviderResult = MessageResult(text: string) | QuestionsResult(questions: seq<Question>)
  datatype Outcome = Outcome(thread: string, result: ProviderResult)

  const EMPTY_STORE := Store(map[], 0)

  // ---------------------------------------------------------------- reading the log

  predicate IsUser(body: Body) { body.UserMessage? || body.UserAnswers? }

  /** `max(sequence)` over the stored entries, 0 when there are none. */
  function LatestSequence(entries: seq<Entry>): nat {
    if entries == [] then 0
    else
      var rest := LatestSequence(entries[..|entries| - 1]);
      var last := entries[|entries| - 1].sequence;
      if last > rest then last else rest
  }

  predicate OwnsKey(entry: Entry, key: string) {
    entry.request.Some? && entry.request.value.key == key
  }

  function FindKey(entries: seq<Entry>, key: string): Option<Entry> {
    if entries == [] then None
    else if OwnsKey(entries[0], key) then Some(entries[0])
    else FindKey(entries[1..], key)
  }

  /** The question set with the greatest sequence. The log is held in sequence order. */
  function LatestQuestionSet(entries: seq<Entry>): Option<Body> {
    if entries == [] then None
    else if entries[|entries| - 1].body.QuestionSet? then Some(entries[|entries| - 1].body)
    else LatestQuestionSet(entries[..|entries| - 1])
  }

  // ---------------------------------------------------------------- answers

  function FindChoice(options: seq<Choice>, id: string): Option<Choice> {
    if options == [] then None
    else if options[0].id == id then Some(options[0])
    else FindChoice(options[1..], id)
  }

  function ResolveOne(question: Question, answer: Answer): Option<Answered> {
    match answer
    case OptionAnswer(id) =>
      (match FindChoice(question.options, id)
       case Some(choice) => Some(Answered(question.text, AcceptedOption(choice.caption)))
       case None => None)
    case CustomAnswer(text) => Some(Answered(question.text, AcceptedCustom(text)))
    case SkipAnswer =>
      if question.allowSkip then Some(Answered(question.text, AcceptedSkip)) else None
  }

  predicate Answerable(questions: seq<Question>, answers: seq<Submitted>) {
    && |questions| == |answers|
    && (forall i :: 0 <= i < |questions| ==> answers[i].questionId == questions[i].id)
    && (forall i :: 0 <= i < |questions| ==> ResolveOne(questions[i], answers[i].answer).Some?)
  }

  function ResolveAnswers(questions: seq<Question>, answers: seq<Submitted>): (r: Option<seq<Answered>>)
    ensures r.Some? <==> Answerable(questions, answers)
    ensures r.Some? ==> |r.value| == |questions|
    ensures r.Some? ==> forall i :: 0 <= i < |questions| ==>
      Some(r.value[i]) == ResolveOne(questions[i], answers[i].answer)
  {
    if Answerable(questions, answers)
    then Some(seq(|questions|, i requires 0 <= i < |questions| =>
      ResolveOne(questions[i], answers[i].answer).value))
    else None
  }

  // ---------------------------------------------------------------- row changes

  function DigestOf(body: Body): Digest
    requires IsUser(body)
  {
    match body
    case UserMessage(text) => MessageDigest(text)
    case UserAnswers(id, answers) => AnswersDigest(id, answers)
  }

  function Append(entries: seq<Entry>, body: Body, request: Option<RequestIdentity>): seq<Entry> {
    entries + [Entry(LatestSequence(entries) + 1, body, request)]
  }

  function OpenTurn(c: Conversation, turn: Token, body: Body, key: string): Conversation
    requires IsUser(body)
  {
    c.(state := Running,
       activeTurn := Some(turn),
       entries := Append(c.entries, body, Some(RequestIdentity(key, DigestOf(body)))))
  }

  function CompleteRow(c: Conversation, outcome: Outcome, questionSetId: Token): Conversation {
    c.(state := if outcome.result.MessageResult? then Ready else AwaitingAnswer,
       activeTurn := None,
       thread := Some(outcome.thread),
       entries := Append(c.entries,
         match outcome.result
         case MessageResult(text) => AssistantMessage(text)
         case QuestionsResult(questions) => QuestionSet(questionSetId, questions),
         None))
  }

  function InterruptRow(c: Conversation, unavailable: bool, category: Category, thread: Option<string>): Conversation {
    c.(state := if unavailable then Closed else Interrupted,
       activeTurn := None,
       thread := if thread.Some? then thread else c.thread,
       entries := Append(c.entries, TurnInterrupted(unavailable, category), None))
  }

  predicate Stranded(c: Conversation) { c.state == Running && c.activeTurn.Some? }

  function StrandedIds(st: Store): set<Token> {
    set id | id in st.conversations && Stranded(st.conversations[id])
  }

  function RepairRow(c: Conversation): Conversation {
    if Stranded(c) then InterruptRow(c, false, StartupRepair, None) else c
  }

  // ---------------------------------------------------------------- transactions

  /** The guarded UPDATE of `_claim_conversation` matches the row. */
  predicate Claimable(st: Store, id: Token, key: string, allowed: set<State>) {
    && id in st.conversations
    && st.conversations[id].activeTurn.None?
    && st.conversations[id].state in allowed
    && FindKey(st.conversations[id].entries, key).None?
  }

  /** `_return_duplicate_or_raise_conflict`: what a claim that matched no row reports. */
  function DuplicateOrConflict(st: Store, id: Token, key: string, digest: Digest): ClaimResult {
    if id !in st.conversations then Rejected(ConversationNotFound)
    else
      var c := st.conversations[id];
      match FindKey(c.entries, key)
      case None => Rejected(ConversationConflict)
      case Some(existing) =>
        if existing.request.Some? && existing.request.value.digest != digest then Rejected(IdempotencyConflict)
        else if c.state == Running && LatestSequence(c.entries) == existing.sequence
        then Duplicate(Some(existing.sequence))
        else Duplicate(None)
  }

  /** The unique `create_idempotency_key` makes a repeated creation return the first row. */
  ghost function Create(st: Store, key: string): (Store, Token) {
    if exists id :: id in st.conversations && st.conversations[id].createKey == key
    then
      var id :| id in st.conversations && st.conversations[id].createKey == key;
      (st, id)
    else
      (Store(st.conversations[st.nextToken := Conversation(key, Ready, None, None, [])], st.nextToken + 1),
       st.nextToken)
  }

  function ClaimMessage(st: Store, id: Token, text: string, key: string): (Store, ClaimResult) {
    if Claimable(st, id, key, {Ready, Interrupted})
    then
      var c := st.conversations[id];
      var turn := st.nextToken;
      (Store(st.conversations[id := OpenTurn(c, turn, UserMessage(text), key)], turn + 1),
       Claimed(Claim(id, turn, c.thread), MessageInput(text)))
    else (st, DuplicateOrConflict(st, id, key, MessageDigest(text)))
  }

  function ClaimAnswer(st: Store, id: Token, questionSetId: Token, answers: seq<Submitted>, key: string)
    : (Store, ClaimResult)
  {
    if Claimable(st, id, key, {AwaitingAnswer})
    then
      var c := st.conversations[id];
      var turn := st.nextToken;
      match LatestQuestionSet(c.entries)
      case Some(QuestionSet(current, questions)) =>
        if current != questionSetId then (st, Rejected(QuestionSetNotFound))
        else (match ResolveAnswers(questions, answers)
              case None => (st, Rejected(AnswerValidation))
              case Some(resolved) =>
                (Store(st.conversations[id := OpenTurn(c, turn, UserAnswers(questionSetId, answers), key)], turn + 1),
                 Claimed(Claim(id, turn, c.thread), AnswersInput(resolved))))
      case _ => (st, Rejected(QuestionSetNotFound))
    else (st, DuplicateOrConflict(st, id, key, AnswersDigest(questionSetId, answers)))
  }

  /** The compare-and-set of `complete_operator_turn` and `_interrupt_matching_turn` matches. */
  predicate Owns(st: Store, claim: Claim) {
    && claim.conversationId in st.conversations
    && st.conversations[claim.conversationId].state == Running
    && st.conversations[claim.conversationId].activeTurn == Some(claim.turnId)
  }

  function Complete(st: Store, claim: Claim, outcome: Outcome): (Store, bool) {
    if Owns(st, claim)
    then
      var id := claim.conversationId;
      (Store(st.conversations[id := CompleteRow(st.conversations[id], outcome, st.nextToken)], st.nextToken + 1),
       true)
    else (st, false)
  }

  function Interrupt(st: Store, claim: Claim, unavailable: bool, category: Category, thread: Option<string>)
    : (Store, bool)
  {
    if Owns(st, claim)
    then
      var id := claim.conversationId;
      (st.(conversations := st.conversations[id :=
         InterruptRow(st.conversations[id], unavailable, category, thread)]),
       true)
    else (st, false)
  }

  function Repair(st: Store): Store {
    st.(conversations := map id | id in st.conversations :: RepairRow(st.conversations[id]))
  }

  /** `validate_provider_thread_continuity` accepts the outcome. */
  predicate Continues(claim: Claim, outcome: Outcome) {
    claim.thread.None? || claim.thread == Some(outcome.thread)
  }
}
