/**
  What every committed transaction keeps for one conversation: the log is
  numbered 1..n, user entries and responses alternate, and the row's state and
  active turn are a function of the last entry.
*/
module OperatorInvariant {
  import opened Basics
  import opened OperatorProtocol

  ghost predicate Numbered(entries: seq<Entry>) {
    forall i :: 0 <= i < |entries| ==> entries[i].sequence == i + 1
  }

  ghost predicate Alternating(entries: seq<Entry>) {
    forall i :: 0 <= i < |entries| ==> (IsUser(entries[i].body) <==> i % 2 == 0)
  }

  ghost predicate Identified(entries: seq<Entry>) {
    forall i :: 0 <= i < |entries| ==>
      if IsUser(entries[i].body)
      then entries[i].request.Some? && entries[i].request.value.digest == DigestOf(entries[i].body)
      else entries[i].request.None?
  }

  ghost predicate KeysUnique(entries: seq<Entry>) {
    forall i, j, key :: 0 <= i < j < |entries| && OwnsKey(entries[i], key) ==> !OwnsKey(entries[j], key)
  }

  /** A user entry answers what came before it: answers the question set, messages anything else but a lost thread. */
  predicate Follows(previous: Body, next: Body) {
    match next
    case UserAnswers(id, answers) =>
      previous.QuestionSet? && previous.id == id && Answerable(previous.questions, answers)
    case UserMessage(_) =>
      previous.AssistantMessage? || (previous.TurnInterrupted? && !previous.threadUnavailable)
    case _ => IsUser(previous)
  }

  ghost predicate Dialogue(entries: seq<Entry>) {
    && (entries != [] ==> entries[0].body.UserMessage?)
    && (forall i :: 0 < i < |entries| ==> Follows(entries[i - 1].body, entries[i].body))
  }

  /** The state the last entry calls for. */
  function StateAfter(entries: seq<Entry>): State {
    if entries == [] then Ready
    else match entries[|entries| - 1].body
      case UserMessage(_) => Running
      case UserAnswers(_, _) => Running
      case AssistantMessage(_) => Ready
      case QuestionSet(_, _) => AwaitingAnswer
      case TurnInterrupted(unavailable, _) => if unavailable then Closed else Interrupted
  }

  ghost predicate LogInv(entries: seq<Entry>) {
    && Numbered(entries)
    && Alternating(entries)
    && Identified(entries)
    && KeysUnique(entries)
    && Dialogue(entries)
  }

  ghost predicate RowInv(c: Conversation) {
    && LogInv(c.entries)
    && c.state == StateAfter(c.entries)
    && (c.state == Running <==> c.activeTurn.Some?)
  }

  ghost predicate StoreInv(st: Store) {
    && (forall id :: id in st.conversations ==> RowInv(st.conversations[id]))
    && (forall id :: id in st.conversations ==> id < st.nextToken)
    && (forall id :: id in st.conversations ==>
         forall t :: st.conversations[id].activeTurn == Some(t) ==> t < st.nextToken)
    && (forall id1, id2 ::
         id1 in st.conversations && id2 in st.conversations && id1 != id2 ==>
           st.conversations[id1].createKey != st.conversations[id2].createKey)
  }

  // ---------------------------------------------------------------- the log

  lemma {:induction false} NumberedLatest(entries: seq<Entry>)
    requires Numbered(entries)
    ensures LatestSequence(entries) == |entries|
  {
    if entries != [] {
      NumberedLatest(entries[..|entries| - 1]);
    }
  }

  /** A key lookup finds an entry exactly when some stored entry owns the key. */
  lemma {:induction false} FindKeyFinds(entries: seq<Entry>, key: string)
    ensures FindKey(entries, key).None? <==> forall i :: 0 <= i < |entries| ==> !OwnsKey(entries[i], key)
    ensures FindKey(entries, key).Some? ==>
      exists i :: 0 <= i < |entries| && OwnsKey(entries[i], key) && FindKey(entries, key) == Some(entries[i])
  {
    if entries != [] && !OwnsKey(entries[0], key) {
      FindKeyFinds(entries[1..], key);
      forall i | 0 <= i < |entries| && OwnsKey(entries[i], key) ensures FindKey(entries, key).Some? {
        assert entries[1..][i - 1] == entries[i];
      }
      if FindKey(entries, key).Some? {
        var i :| 0 <= i < |entries[1..]| && OwnsKey(entries[1..][i], key)
          && FindKey(entries[1..], key) == Some(entries[1..][i]);
        assert entries[i + 1] == entries[1..][i];
      }
    }
  }

  /** With unique keys the lookup returns the one entry that owns the key. */
  lemma FindKeyUnique(entries: seq<Entry>, key: string, i: nat)
    requires KeysUnique(entries) && i < |entries| && OwnsKey(entries[i], key)
    ensures FindKey(entries, key) == Some(entries[i])
  {
    FindKeyFinds(entries, key);
    var j :| 0 <= j < |entries| && OwnsKey(entries[j], key) && FindKey(entries, key) == Some(entries[j]);
    assert i == j;
  }

  lemma {:induction false} LatestQuestionSetIsLast(entries: seq<Entry>)
    requires entries != [] && entries[|entries| - 1].body.QuestionSet?
    ensures LatestQuestionSet(entries) == Some(entries[|entries| - 1].body)
  {}

  /** Appending an entry that follows the last one keeps the log well formed. */
  lemma AppendKeeps(entries: seq<Entry>, body: Body, request: Option<RequestIdentity>)
    requires LogInv(entries)
    requires if entries == [] then body.UserMessage? else Follows(entries[|entries| - 1].body, body)
    requires if IsUser(body) then request.Some? && request.value.digest == DigestOf(body) else request.None?
    requires request.Some? ==> FindKey(entries, request.value.key).None?
    ensures LogInv(Append(entries, body, request))
    ensures |Append(entries, body, request)| == |entries| + 1
    ensures entries < Append(entries, body, request)
  {
    NumberedLatest(entries);
    if request.Some? { FindKeyFinds(entries, request.value.key); }
    var after := Append(entries, body, request);
    assert after[..|entries|] == entries;
    if entries != [] {
      assert IsUser(body) <==> !IsUser(entries[|entries| - 1].body);
    }
    assert Alternating(after);
    KeysStayUnique(entries, after[|entries|]);
    hide KeysUnique;
  }

  lemma KeysStayUnique(entries: seq<Entry>, entry: Entry)
    requires KeysUnique(entries)
    requires forall i, key :: 0 <= i < |entries| && OwnsKey(entry, key) ==> !OwnsKey(entries[i], key)
    ensures KeysUnique(entries + [entry])
  {
    var after := entries + [entry];
    forall i, j, key | 0 <= i < j < |after| && OwnsKey(after[i], key) ensures !OwnsKey(after[j], key) {
      if j < |entries| { assert OwnsKey(entries[i], key); }
    }
  }

  // ---------------------------------------------------------------- row changes

  lemma OpenTurnKeeps(c: Conversation, turn: Token, body: Body, key: string)
    requires RowInv(c) && c.activeTurn.None? && IsUser(body)
    requires FindKey(c.entries, key).None?
    requires body.UserMessage? ==> c.state in {Ready, Interrupted}
    requires body.UserAnswers? ==>
      && c.state == AwaitingAnswer
      && Follows(c.entries[|c.entries| - 1].body, body)
    ensures RowInv(OpenTurn(c, turn, body, key))
    ensures |OpenTurn(c, turn, body, key).entries| == |c.entries| + 1
    ensures c.entries < OpenTurn(c, turn, body, key).entries
  {
    AppendKeeps(c.entries, body, Some(RequestIdentity(key, DigestOf(body))));
  }

  lemma CompleteKeeps(c: Conversation, outcome: Outcome, questionSetId: Token)
    requires RowInv(c) && c.state == Running
    ensures RowInv(CompleteRow(c, outcome, questionSetId))
    ensures |CompleteRow(c, outcome, questionSetId).entries| == |c.entries| + 1
    ensures c.entries < CompleteRow(c, outcome, questionSetId).entries
  {
    assert IsUser(c.entries[|c.entries| - 1].body);
    var body := CompleteRow(c, outcome, questionSetId).entries[|c.entries|].body;
    AppendKeeps(c.entries, body, None);
  }

  lemma InterruptKeeps(c: Conversation, unavailable: bool, category: Category, thread: Option<string>)
    requires RowInv(c) && c.state == Running
    ensures RowInv(InterruptRow(c, unavailable, category, thread))
    ensures |InterruptRow(c, unavailable, category, thread).entries| == |c.entries| + 1
    ensures c.entries < InterruptRow(c, unavailable, category, thread).entries
  {
    AppendKeeps(c.entries, TurnInterrupted(unavailable, category), None);
  }

  // ---------------------------------------------------------------- transactions

  lemma CreateKeeps(st: Store, key: string)
    requires StoreInv(st)
    ensures StoreInv(Create(st, key).0)
    ensures Create(st, key).1 in Create(st, key).0.conversations
    ensures Create(st, key).0.conversations[Create(st, key).1].createKey == key
    ensures forall id :: id in st.conversations ==>
      id in Create(st, key).0.conversations && Create(st, key).0.conversations[id] == st.conversations[id]
  {
    assert RowInv(Conversation(key, Ready, None, None, []));
    hide RowInv;
  }

  lemma ClaimMessageKeeps(st: Store, id: Token, text: string, key: string)
    requires StoreInv(st)
    ensures StoreInv(ClaimMessage(st, id, text, key).0)
  {
    if Claimable(st, id, key, {Ready, Interrupted}) {
      OpenTurnKeeps(st.conversations[id], st.nextToken, UserMessage(text), key);
    }
  }

  /** A claimed answer turn answers the question set that is the last entry of the log. */
  lemma ClaimAnswerMatches(st: Store, id: Token, questionSetId: Token, answers: seq<Submitted>, key: string)
    requires StoreInv(st) && Claimable(st, id, key, {AwaitingAnswer})
    ensures var c := st.conversations[id];
      var last := c.entries[|c.entries| - 1].body;
      && last.QuestionSet?
      && (ClaimAnswer(st, id, questionSetId, answers, key).1.Claimed? <==>
           last.id == questionSetId && Answerable(last.questions, answers))
  {
    LatestQuestionSetIsLast(st.conversations[id].entries);
  }

  lemma ClaimAnswerKeeps(st: Store, id: Token, questionSetId: Token, answers: seq<Submitted>, key: string)
    requires StoreInv(st)
    ensures StoreInv(ClaimAnswer(st, id, questionSetId, answers, key).0)
  {
    if Claimable(st, id, key, {AwaitingAnswer}) {
      ClaimAnswerMatches(st, id, questionSetId, answers, key);
      LatestQuestionSetIsLast(st.conversations[id].entries);
      if ClaimAnswer(st, id, questionSetId, answers, key).1.Claimed? {
        OpenTurnKeeps(st.conversations[id], st.nextToken, UserAnswers(questionSetId, answers), key);
      }
    }
  }

  /** A granted claim opens exactly one new turn, with a fresh id, on the claimed row. */
  ghost predicate Opens(st: Store, id: Token, claimed: (Store, ClaimResult)) {
    && claimed.1.Claimed?
    && id in st.conversations && st.conversations[id].activeTurn.None? && st.conversations[id].state != Closed
    && claimed.1.claim == Claim(id, st.nextToken, st.conversations[id].thread)
    && id in claimed.0.conversations
    && claimed.0 == Store(st.conversations[id := claimed.0.conversations[id]], st.nextToken + 1)
    && var c, c' := st.conversations[id], claimed.0.conversations[id];
    && c.entries < c'.entries
    && |c'.entries| == |c.entries| + 1
    && IsUser(c'.entries[|c.entries|].body)
    && c'.activeTurn == Some(st.nextToken)
    && c'.thread == c.thread
  }

  lemma ClaimMessageOpens(st: Store, id: Token, text: string, key: string)
    requires StoreInv(st) && ClaimMessage(st, id, text, key).1.Claimed?
    ensures Opens(st, id, ClaimMessage(st, id, text, key))
  {
    OpenTurnKeeps(st.conversations[id], st.nextToken, UserMessage(text), key);
  }

  lemma ClaimAnswerOpens(st: Store, id: Token, questionSetId: Token, answers: seq<Submitted>, key: string)
    requires StoreInv(st) && ClaimAnswer(st, id, questionSetId, answers, key).1.Claimed?
    ensures Opens(st, id, ClaimAnswer(st, id, questionSetId, answers, key))
  {
    ClaimAnswerMatches(st, id, questionSetId, answers, key);
    LatestQuestionSetIsLast(st.conversations[id].entries);
    OpenTurnKeeps(st.conversations[id], st.nextToken, UserAnswers(questionSetId, answers), key);
  }

  lemma SettleKeeps(st: Store, claim: Claim, outcome: Outcome, unavailable: bool, category: Category,
                    thread: Option<string>)
    requires StoreInv(st)
    ensures StoreInv(Complete(st, claim, outcome).0)
    ensures StoreInv(Interrupt(st, claim, unavailable, category, thread).0)
  {
    if Owns(st, claim) {
      var c := st.conversations[claim.conversationId];
      CompleteKeeps(c, outcome, st.nextToken);
      InterruptKeeps(c, unavailable, category, thread);
    }
  }

  lemma RepairKeeps(st: Store)
    requires StoreInv(st)
    ensures StoreInv(Repair(st))
    ensures forall id :: id in st.conversations ==> Repair(st).conversations[id].state != Running
  {
    forall id | id in st.conversations
      ensures RowInv(RepairRow(st.conversations[id]))
      ensures RepairRow(st.conversations[id]).state != Running
    {
      if Stranded(st.conversations[id]) {
        InterruptKeeps(st.conversations[id], false, StartupRepair, None);
      }
    }
  }
}
