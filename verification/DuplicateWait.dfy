/** The back-off loop of src/oh_my_subagents/operator/duplicate_wait.py. */
module DuplicateWait {
  import opened Basics
  import opened OperatorProtocol
  import opened OperatorSystem

  const INITIAL_DELAY := 0.05
  const MAX_DELAY := 0.25
  const TIMEOUT := 2.0

  /** One read of the row: nothing, or its state with the latest entry sequence. */
  datatype Reading = Missing | Row(state: State, latest: nat)

  datatype Verdict = Ended | NotFound | StillRunning

  predicate ShowsRunning(reading: Reading, sequence: nat) {
    reading.Row? && reading.state == Running && reading.latest == sequence
  }

  function Min(a: real, b: real): real { if a < b then a else b }

  /** The delay before the (k+1)-st repeated read. */
  function Delay(k: nat): (d: real)
    ensures d > 0.0
  {
    if k == 0 then INITIAL_DELAY else Min(Delay(k - 1) * 2.0, MAX_DELAY)
  }

  function TotalDelay(k: nat): real {
    if k == 0 then 0.0 else TotalDelay(k - 1) + Delay(k - 1)
  }

  /** `now(k)` is the clock after the k-th read; a sleep lasts at least as long as was asked. */
  ghost predicate ClockAdvances(start: real, now: nat -> real) {
    && start <= now(0)
    && forall k: nat :: now(k) + Min(Delay(k), start + TIMEOUT - now(k)) <= now(k + 1)
  }

  lemma TenDelays()
    ensures TotalDelay(10) >= TIMEOUT
  {
    assert Delay(0) == 0.05 && Delay(1) == 0.1 && Delay(2) == 0.2;
    assert Delay(3) == 0.25 && Delay(4) == 0.25 && Delay(5) == 0.25;
    assert Delay(6) == 0.25 && Delay(7) == 0.25 && Delay(8) == 0.25 && Delay(9) == 0.25;
    assert TotalDelay(3) == 0.35;
    assert TotalDelay(6) == 1.1;
  }

  lemma {:induction false} ClockReaches(start: real, now: nat -> real, k: nat)
    requires ClockAdvances(start, now)
    ensures now(k) >= start + Min(TotalDelay(k), TIMEOUT)
  {
    if k > 0 {
      ClockReaches(start, now, k - 1);
      assert now(k - 1) + Min(Delay(k - 1), start + TIMEOUT - now(k - 1)) <= now(k - 1 + 1);
    }
  }

  lemma TenthRepeatIsLate(start: real, now: nat -> real)
    requires ClockAdvances(start, now)
    ensures now(10) >= start + TIMEOUT
  {
    TenDelays();
    ClockReaches(start, now, 10);
  }

  lemma DelayNext(k: nat)
    ensures Delay(0) == INITIAL_DELAY
    ensures Delay(k + 1) == Min(Delay(k) * 2.0, MAX_DELAY)
  {}

  /** How a wait with these reads and this clock ends. */
  ghost predicate WaitEnds(duplicate: Option<nat>, read: nat -> Reading, start: real, now: nat -> real,
                           verdict: Verdict, readCount: nat)
  {
    && readCount <= 11
    && (duplicate.None? ==> verdict == Ended && readCount == 0)
    && (duplicate.Some? ==>
         && readCount >= 1
         && (forall k :: 0 <= k < readCount - 1 ==> ShowsRunning(read(k), duplicate.value))
         && var last := read(readCount - 1);
         && (verdict == NotFound <==> last == Missing)
         && (verdict == Ended <==> last.Row? && !ShowsRunning(last, duplicate.value))
         && (verdict == StillRunning ==> now(readCount - 1) >= start + TIMEOUT))
  }

  /**
    Reads the row until it no longer shows the duplicate's turn, and gives up
    once the deadline has passed: after at most 11 reads.
  */
  method WaitForActiveDuplicate(duplicate: Option<nat>, read: nat -> Reading, start: real, now: nat -> real)
    returns (verdict: Verdict, readCount: nat)
    requires ClockAdvances(start, now)
    ensures WaitEnds(duplicate, read, start, now, verdict, readCount)
  {
    hide Delay, ClockAdvances;
    if duplicate.None? { return Ended, 0; }
    DelayNext(0);
    var sequence := duplicate.value;
    var deadline := start + TIMEOUT;
    var delay := INITIAL_DELAY;
    TenthRepeatIsLate(start, now);
    readCount := 0;
    while true
      invariant readCount <= 10
      invariant delay == Delay(readCount)
      invariant forall k :: 0 <= k < readCount ==> ShowsRunning(read(k), sequence)
      decreases 10 - readCount
    {
      var row := read(readCount);
      var clock := now(readCount);
      readCount := readCount + 1;
      if row.Missing? { return NotFound, readCount; }
      if row.state != Running || row.latest != sequence { return Ended, readCount; }
      var remaining := deadline - clock;
      if remaining <= 0.0 { return StillRunning, readCount; }
      // The sleep asked for here is the one the clock is required to honour.
      assert Min(delay, remaining) == Min(Delay(readCount - 1), start + TIMEOUT - now(readCount - 1));
      DelayNext(readCount - 1);
      delay := Min(delay * 2.0, MAX_DELAY);
    }
  }

  /** A read of the stored row. */
  function ReadRow(st: Store, id: Token): Reading {
    if id in st.conversations
    then Row(st.conversations[id].state, LatestSequence(st.conversations[id].entries))
    else Missing
  }

  /** The state that the k-th read sees: `between(k)` is what happens before it and after the read before. */
  ghost function StateAt(s: System, between: nat -> seq<Step>, k: nat): System {
    Run(if k == 0 then s else StateAt(s, between, k - 1), between(k))
  }

  /** The reads are reads of the conversation of a worker's turn in the course of one run. */
  ghost predicate ReadsRun(s: System, turn: Token, between: nat -> seq<Step>, read: nat -> Reading)
    requires turn in s.workers
  {
    forall k: nat :: read(k) == ReadRow(StateAt(s, between, k).store, s.workers[turn].claim.conversationId)
  }

  lemma {:induction false} StateKeeps(s: System, turn: Token, between: nat -> seq<Step>, k: nat)
    requires Inv(s) && turn in s.workers
    ensures var s' := StateAt(s, between, k);
      && Inv(s') && turn in s'.workers
      && s'.workers[turn].claim == s.workers[turn].claim && s'.workers[turn].sequence == s.workers[turn].sequence
  {
    hide Inv;
    if k > 0 { StateKeeps(s, turn, between, k - 1); }
    RunKeeps(if k == 0 then s else StateAt(s, between, k - 1), between(k));
  }

  /** A read shows the turn's row running its entry exactly while the turn is active. */
  lemma ReadShowsActive(s: System, turn: Token, between: nat -> seq<Step>, read: nat -> Reading, k: nat)
    requires Inv(s) && turn in s.workers && ReadsRun(s, turn, between, read)
    ensures Inv(StateAt(s, between, k)) && turn in StateAt(s, between, k).workers
    ensures read(k).Row?
    ensures ShowsRunning(read(k), s.workers[turn].sequence) <==> Active(StateAt(s, between, k), turn)
  {
    hide Inv, Active;
    StateKeeps(s, turn, between, k);
    DuplicateTestIsExact(StateAt(s, between, k), turn);
  }

  /** The turn has its response and is over. */
  ghost predicate Answered(s: System, turn: Token) {
    && turn in s.workers && s.workers[turn].claim.conversationId in s.store.conversations
    && !Active(s, turn) && HasOneResponse(s, turn)
  }

  /**
    What the wait means when its reads are taken in the course of a run: the row
    is always found; the wait returns normally exactly if its last read comes
    after the end of the duplicate's own turn, which then has its one response
    for ever; else every read saw the turn active and the last one came after the
    deadline.
  */
  lemma WaitMeansAnswered(s: System, turn: Token, between: nat -> seq<Step>, read: nat -> Reading,
                          start: real, now: nat -> real, verdict: Verdict, readCount: nat, later: seq<Step>)
    requires Inv(s) && turn in s.workers && ReadsRun(s, turn, between, read)
    requires WaitEnds(Some(s.workers[turn].sequence), read, start, now, verdict, readCount)
    ensures 1 <= readCount <= 11 && verdict != NotFound
    ensures forall k :: 0 <= k < readCount - 1 ==> Active(StateAt(s, between, k), turn)
    ensures verdict == Ended <==> !Active(StateAt(s, between, readCount - 1), turn)
    ensures verdict == Ended ==> Answered(Run(StateAt(s, between, readCount - 1), later), turn)
    ensures verdict == StillRunning ==> now(readCount - 1) >= start + TIMEOUT
  {
    hide Inv, Active, ReadsRun, Answered;
    forall k | 0 <= k < readCount ensures
      ShowsRunning(read(k), s.workers[turn].sequence) <==> Active(StateAt(s, between, k), turn)
    {
      ReadShowsActive(s, turn, between, read, k);
    }
    ReadShowsActive(s, turn, between, read, readCount - 1);
    if verdict == Ended { EndedIsAnswered(StateAt(s, between, readCount - 1), turn, later); }
  }

  lemma EndedIsAnswered(s: System, turn: Token, later: seq<Step>)
    requires Inv(s) && turn in s.workers && !Active(s, turn)
    ensures Answered(Run(s, later), turn)
  {
    EndedStaysEnded(s, turn, later);
    hide Run, Inv, HasOneResponse;
    OwnerThread(Run(s, later), turn);
    TurnHasOneResponse(Run(s, later), turn);
  }
}
