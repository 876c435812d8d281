/**
  Task-wide dispatch control: src/oh_my_subagents/runtime/control_transitions.py.
  Every row that a pause touches is kept in a map by its primary key.
*/
module DispatchControl {
  import opened Basics
  import Decimal
  import TaskEvents

  datatype AttemptStatus = Pending | Running | Completed | Cancelled

  datatype Attempt = Attempt(taskId: string, assignmentId: string, status: AttemptStatus,
                             currentDispatch: Option<string>, currentWait: Option<string>)

  datatype DispatchStatus = Starting | Open | Closed

  datatype Dispatch = Dispatch(taskId: string, assignmentId: string, attemptId: string, status: DispatchStatus,
                               closing: Option<Closing>, nextStartAt: Option<nat>, retryKind: Option<string>)

  datatype Closing = Closing(reason: string, at: nat)

  datatype Task = Task(status: string, controlRevision: nat, pause: Option<Pause>)

  datatype Pause = Pause(reason: string, failureCode: string, at: nat)

  type Attempts = map<string, Attempt>
  type Dispatches = map<string, Dispatch>

  datatype Store = Store(tasks: map<string, Task>, attempts: Attempts, dispatches: Dispatches, events: TaskEvents.Store)

  datatype ControlError = DispatchConflict | EventError(error: TaskEvents.AppendError)

  // ---------------------------------------------------------------- specification

  /** A running attempt of the task that holds a dispatch. */
  predicate Holds(attempts: Attempts, taskId: string, id: string) {
    && id in attempts
    && attempts[id].taskId == taskId
    && attempts[id].status == Running
    && attempts[id].currentDispatch.Some?
  }

  /** The attempt waits for nothing and its dispatch row is its own and still active. */
  predicate Closable(attempts: Attempts, dispatches: Dispatches, id: string)
    requires id in attempts
  {
    var attempt := attempts[id];
    && attempt.currentWait == None
    && attempt.currentDispatch.Some?
    && attempt.currentDispatch.value in dispatches
    && (var dispatch := dispatches[attempt.currentDispatch.value];
        && dispatch.taskId == attempt.taskId
        && dispatch.assignmentId == attempt.assignmentId
        && dispatch.attemptId == id
        && dispatch.status != Closed)
  }

  /** When `close_current_task_dispatches` succeeds. */
  predicate Settleable(attempts: Attempts, dispatches: Dispatches, taskId: string) {
    forall id :: id in attempts && Holds(attempts, taskId, id) ==> Closable(attempts, dispatches, id)
  }

  /** A row of `_read_current_task_dispatches`. */
  predicate Selected(attempts: Attempts, dispatches: Dispatches, taskId: string, id: string) {
    Holds(attempts, taskId, id) && Closable(attempts, dispatches, id)
  }

  /** A dispatch that is the current one of a selected attempt. */
  predicate SelectedDispatch(attempts: Attempts, dispatches: Dispatches, taskId: string, id: string)
    requires id in dispatches
  {
    var owner := dispatches[id].attemptId;
    Selected(attempts, dispatches, taskId, owner) && attempts[owner].currentDispatch == Some(id)
  }

  function ReasonFor(reason: string, overrides: map<string, string>, id: string): string {
    if id in overrides then overrides[id] else reason
  }

  function CloseRow(dispatch: Dispatch, reason: string, at: nat): Dispatch {
    dispatch.(status := Closed, closing := Some(Closing(reason, at)), nextStartAt := None, retryKind := None)
  }

  /** The dispatch table once the attempts in `settled` have been handled. */
  function ClosedRows(attempts: Attempts, dispatches: Dispatches, taskId: string, settled: set<string>,
                      reason: string, overrides: map<string, string>, at: nat): Dispatches
  {
    map id | id in dispatches ::
      if SelectedDispatch(attempts, dispatches, taskId, id) && dispatches[id].attemptId in settled
      then CloseRow(dispatches[id], ReasonFor(reason, overrides, id), at) else dispatches[id]
  }

  function ClearedRows(attempts: Attempts, dispatches: Dispatches, taskId: string, settled: set<string>): Attempts {
    map id | id in attempts ::
      if Selected(attempts, dispatches, taskId, id) && id in settled
      then attempts[id].(currentDispatch := None) else attempts[id]
  }

  /** Each attempt id once, in the order the query returns its rows. */
  ghost predicate Lists(order: seq<string>, attempts: Attempts) {
    && (forall id :: id in order <==> id in attempts)
    && (forall i, j :: 0 <= i < j < |order| ==> order[i] != order[j])
  }

  datatype CurrentRow = CurrentRow(assignmentId: string, attemptId: string, dispatchId: string)

  function RowOf(attempts: Attempts, id: string): CurrentRow
    requires id in attempts && attempts[id].currentDispatch.Some?
  {
    CurrentRow(attempts[id].assignmentId, id, attempts[id].currentDispatch.value)
  }

  /** The rows of the selected attempts, in query order. */
  function CurrentRows(attempts: Attempts, dispatches: Dispatches, taskId: string, order: seq<string>)
    : seq<CurrentRow>
  {
    if order == [] then []
    else
      var last := order[|order| - 1];
      var before := CurrentRows(attempts, dispatches, taskId, order[..|order| - 1]);
      if Selected(attempts, dispatches, taskId, last) then before + [RowOf(attempts, last)] else before
  }

  function Ids(rows: seq<CurrentRow>): seq<string> {
    seq(|rows|, i requires 0 <= i < |rows| => rows[i].dispatchId)
  }

  function ClosedIds(attempts: Attempts, dispatches: Dispatches, taskId: string, order: seq<string>): seq<string> {
    Ids(CurrentRows(attempts, dispatches, taskId, order))
  }

  /** The whole effect of closing, whether or not it settles everything. */
  function CloseAll(st: Store, taskId: string, reason: string, overrides: map<string, string>, at: nat): Store {
    st.(attempts := ClearedRows(st.attempts, st.dispatches, taskId, st.attempts.Keys),
        dispatches := ClosedRows(st.attempts, st.dispatches, taskId, st.attempts.Keys, reason, overrides, at))
  }

  // ---------------------------------------------------------------- properties of closing

  /** The final check of the close loop passes exactly in the settleable states. */
  lemma SettlesIff(st: Store, taskId: string, reason: string, overrides: map<string, string>, at: nat)
    ensures Settleable(st.attempts, st.dispatches, taskId)
      <==> forall id :: !Holds(CloseAll(st, taskId, reason, overrides, at).attempts, taskId, id)
  {
    var cleared := CloseAll(st, taskId, reason, overrides, at).attempts;
    if Settleable(st.attempts, st.dispatches, taskId) {
      forall id ensures !Holds(cleared, taskId, id) {
        assert Holds(st.attempts, taskId, id) ==> Selected(st.attempts, st.dispatches, taskId, id);
      }
    } else {
      var id :| id in st.attempts && Holds(st.attempts, taskId, id) && !Closable(st.attempts, st.dispatches, id);
      assert cleared[id] == st.attempts[id];
      assert Holds(cleared, taskId, id);
    }
  }

  /**
    What a successful close leaves: exactly the dispatches that running attempts
    of the task held are closed, each with its reason and no pending start; no
    running attempt of the task keeps one; nothing of another task moves.
  */
  lemma ClosesExactlyTheCurrentOnes(st: Store, taskId: string, reason: string, overrides: map<string, string>, at: nat)
    requires Settleable(st.attempts, st.dispatches, taskId)
    ensures var st' := CloseAll(st, taskId, reason, overrides, at);
      && st'.attempts.Keys == st.attempts.Keys && st'.dispatches.Keys == st.dispatches.Keys
      && (forall a :: Holds(st.attempts, taskId, a) ==>
           var d := st.attempts[a].currentDispatch.value;
           && d in st.dispatches && st.dispatches[d].status != Closed
           && st'.dispatches[d] == st.dispatches[d].(
                status := Closed, closing := Some(Closing(if d in overrides then overrides[d] else reason, at)),
                nextStartAt := None, retryKind := None)
           && st'.attempts[a] == st.attempts[a].(currentDispatch := None))
      && (forall a :: a in st.attempts && !Holds(st.attempts, taskId, a) ==> st'.attempts[a] == st.attempts[a])
      && (forall d :: d in st.dispatches &&
           !(exists a :: Holds(st.attempts, taskId, a) && st.attempts[a].currentDispatch == Some(d))
           ==> st'.dispatches[d] == st.dispatches[d])
      && (forall d :: d in st.dispatches && st.dispatches[d].taskId != taskId ==> st'.dispatches[d] == st.dispatches[d])
  {}

  /** The query lists each selected attempt once. */
  lemma {:induction false} RowsAre(attempts: Attempts, dispatches: Dispatches, taskId: string, order: seq<string>)
    requires forall i, j :: 0 <= i < j < |order| ==> order[i] != order[j]
    ensures var rows := CurrentRows(attempts, dispatches, taskId, order);
      && (forall i, j :: 0 <= i < j < |rows| ==> rows[i].attemptId != rows[j].attemptId)
      && (forall row :: row in rows ==>
           && Selected(attempts, dispatches, taskId, row.attemptId)
           && row == RowOf(attempts, row.attemptId)
           && row.attemptId in order)
      && (forall id :: id in order && Selected(attempts, dispatches, taskId, id) ==> RowOf(attempts, id) in rows)
  {
    if order != [] {
      var last := order[|order| - 1];
      var rest := order[..|order| - 1];
      RowsAre(attempts, dispatches, taskId, rest);
      assert order == rest + [last];
      assert last !in rest;
      var rows := CurrentRows(attempts, dispatches, taskId, order);
      var before := CurrentRows(attempts, dispatches, taskId, rest);
      assert rows == before
        || (Selected(attempts, dispatches, taskId, last) && rows == before + [RowOf(attempts, last)]);
    }
  }

  /** A reported dispatch id is reported once, and the reported ids are exactly the dispatches that became closed. */
  lemma ReportsWhatItCloses(st: Store, taskId: string, reason: string, overrides: map<string, string>, at: nat,
                            order: seq<string>)
    requires Lists(order, st.attempts)
    ensures var ids := ClosedIds(st.attempts, st.dispatches, taskId, order);
      var st' := CloseAll(st, taskId, reason, overrides, at);
      && (forall i, j :: 0 <= i < j < |ids| ==> ids[i] != ids[j])
      && (forall d :: d in ids <==>
           d in st.dispatches && st.dispatches[d].status != Closed && st'.dispatches[d].status == Closed)
  {
    RowsAre(st.attempts, st.dispatches, taskId, order);
    var rows := CurrentRows(st.attempts, st.dispatches, taskId, order);
    forall d | d in st.dispatches && SelectedDispatch(st.attempts, st.dispatches, taskId, d) ensures d in Ids(rows) {
      var row := RowOf(st.attempts, st.dispatches[d].attemptId);
      var i :| 0 <= i < |rows| && rows[i] == row;
      assert Ids(rows)[i] == d;
    }
  }

  /** The dispatches that running attempts of the task hold, in the order of the query. */
  function HeldInOrder(attempts: Attempts, taskId: string, order: seq<string>): seq<string> {
    if order == [] then []
    else
      (if Holds(attempts, taskId, order[0]) then [attempts[order[0]].currentDispatch.value] else []) +
      HeldInOrder(attempts, taskId, order[1..])
  }

  lemma {:induction false} HeldAppend(attempts: Attempts, taskId: string, order: seq<string>, last: string)
    ensures HeldInOrder(attempts, taskId, order + [last]) == HeldInOrder(attempts, taskId, order) +
      if Holds(attempts, taskId, last) then [attempts[last].currentDispatch.value] else []
  {
    hide Holds;
    if order == [] {
      assert [last][1..] == [];
    } else {
      HeldAppend(attempts, taskId, order[1..], last);
      assert (order + [last])[1..] == order[1..] + [last];
    }
  }

  /** A close that settles everything reports the held dispatches, in the order of the query. */
  lemma {:induction false} ReportsInOrder(attempts: Attempts, dispatches: Dispatches, taskId: string,
                                          order: seq<string>)
    requires Settleable(attempts, dispatches, taskId)
    ensures ClosedIds(attempts, dispatches, taskId, order) == HeldInOrder(attempts, taskId, order)
  {
    if order != [] {
      var last := order[|order| - 1];
      var rest := order[..|order| - 1];
      ReportsInOrder(attempts, dispatches, taskId, rest);
      HeldAppend(attempts, taskId, rest, last);
      assert order == rest + [last];
      assert Holds(attempts, taskId, last) ==> Selected(attempts, dispatches, taskId, last);
      IdsStep(CurrentRows(attempts, dispatches, taskId, rest), attempts, last);
    }
  }

  lemma IdsStep(rows: seq<CurrentRow>, attempts: Attempts, id: string)
    ensures id in attempts && attempts[id].currentDispatch.Some? ==>
      Ids(rows + [RowOf(attempts, id)]) == Ids(rows) + [attempts[id].currentDispatch.value]
  {}

  // ---------------------------------------------------------------- the loop, row by row

  /** The guard of the dispatch update. */
  predicate OwnsActive(dispatches: Dispatches, taskId: string, row: CurrentRow) {
    && row.dispatchId in dispatches
    && dispatches[row.dispatchId].taskId == taskId
    && dispatches[row.dispatchId].assignmentId == row.assignmentId
    && dispatches[row.dispatchId].attemptId == row.attemptId
    && dispatches[row.dispatchId].status != Closed
  }

  /** The guard of the attempt update. */
  predicate HoldsUnwaiting(attempts: Attempts, taskId: string, row: CurrentRow) {
    && row.attemptId in attempts
    && attempts[row.attemptId].taskId == taskId
    && attempts[row.attemptId].assignmentId == row.assignmentId
    && attempts[row.attemptId].status == Running
    && attempts[row.attemptId].currentDispatch == Some(row.dispatchId)
    && attempts[row.attemptId].currentWait == None
  }

  ghost function Handled(rows: seq<CurrentRow>): set<string> {
    set i | 0 <= i < |rows| :: rows[i].attemptId
  }

  lemma NothingSettled(st: Store, taskId: string, reason: string, overrides: map<string, string>, at: nat)
    ensures ClearedRows(st.attempts, st.dispatches, taskId, {}) == st.attempts
    ensures ClosedRows(st.attempts, st.dispatches, taskId, {}, reason, overrides, at) == st.dispatches
  {}

  /** Settling one more selected attempt is one guarded update of each table. */
  lemma SettleOne(st: Store, taskId: string, settled: set<string>, id: string,
                  reason: string, overrides: map<string, string>, at: nat)
    requires Selected(st.attempts, st.dispatches, taskId, id) && id !in settled
    ensures var row := RowOf(st.attempts, id);
      var attempts := ClearedRows(st.attempts, st.dispatches, taskId, settled);
      var dispatches := ClosedRows(st.attempts, st.dispatches, taskId, settled, reason, overrides, at);
      && OwnsActive(dispatches, taskId, row) && HoldsUnwaiting(attempts, taskId, row)
      && ClearedRows(st.attempts, st.dispatches, taskId, settled + {id})
           == attempts[id := attempts[id].(currentDispatch := None)]
      && ClosedRows(st.attempts, st.dispatches, taskId, settled + {id}, reason, overrides, at)
           == dispatches[row.dispatchId :=
                CloseRow(dispatches[row.dispatchId], ReasonFor(reason, overrides, row.dispatchId), at)]
  {}

  lemma SettleNext(st: Store, taskId: string, order: seq<string>, n: nat,
                   reason: string, overrides: map<string, string>, at: nat)
    requires Lists(order, st.attempts) && n < |CurrentRows(st.attempts, st.dispatches, taskId, order)|
    ensures var rows := CurrentRows(st.attempts, st.dispatches, taskId, order);
      var row := rows[n];
      var attempts := ClearedRows(st.attempts, st.dispatches, taskId, Handled(rows[..n]));
      var dispatches := ClosedRows(st.attempts, st.dispatches, taskId, Handled(rows[..n]), reason, overrides, at);
      && OwnsActive(dispatches, taskId, row) && HoldsUnwaiting(attempts, taskId, row)
      && row.attemptId in attempts && row.dispatchId in dispatches
      && ClearedRows(st.attempts, st.dispatches, taskId, Handled(rows[..n + 1]))
           == attempts[row.attemptId := attempts[row.attemptId].(currentDispatch := None)]
      && ClosedRows(st.attempts, st.dispatches, taskId, Handled(rows[..n + 1]), reason, overrides, at)
           == dispatches[row.dispatchId :=
                CloseRow(dispatches[row.dispatchId], ReasonFor(reason, overrides, row.dispatchId), at)]
  {
    hide ClearedRows, ClosedRows, Selected;
    RowsAre(st.attempts, st.dispatches, taskId, order);
    var rows := CurrentRows(st.attempts, st.dispatches, taskId, order);
    HandledStep(rows, n);
    SettleOne(st, taskId, Handled(rows[..n]), rows[n].attemptId, reason, overrides, at);
    OwnedRow(st, taskId, rows[n], Handled(rows[..n]), reason, overrides, at);
  }

  lemma OwnedRow(st: Store, taskId: string, row: CurrentRow, settled: set<string>,
                 reason: string, overrides: map<string, string>, at: nat)
    requires OwnsActive(ClosedRows(st.attempts, st.dispatches, taskId, settled, reason, overrides, at), taskId, row)
    requires HoldsUnwaiting(ClearedRows(st.attempts, st.dispatches, taskId, settled), taskId, row)
    ensures row.dispatchId in ClosedRows(st.attempts, st.dispatches, taskId, settled, reason, overrides, at)
    ensures row.attemptId in ClearedRows(st.attempts, st.dispatches, taskId, settled)
  {}

  lemma HandledStep(rows: seq<CurrentRow>, n: nat)
    requires n < |rows|
    requires forall i, j :: 0 <= i < j < |rows| ==> rows[i].attemptId != rows[j].attemptId
    ensures Handled(rows[..n + 1]) == Handled(rows[..n]) + {rows[n].attemptId}
    ensures rows[n].attemptId !in Handled(rows[..n])
  {
    forall id | id in Handled(rows[..n]) ensures id in Handled(rows[..n + 1]) {
      var i :| 0 <= i < n && rows[..n][i].attemptId == id;
      assert rows[..n + 1][i].attemptId == id;
    }
    assert rows[..n + 1][n].attemptId == rows[n].attemptId;
  }

  /** Settling every row of the query is the same as settling every attempt. */
  lemma EverythingSettled(st: Store, taskId: string, order: seq<string>,
                          reason: string, overrides: map<string, string>, at: nat)
    requires Lists(order, st.attempts)
    ensures var handled := Handled(CurrentRows(st.attempts, st.dispatches, taskId, order));
      && ClearedRows(st.attempts, st.dispatches, taskId, handled)
           == ClearedRows(st.attempts, st.dispatches, taskId, st.attempts.Keys)
      && ClosedRows(st.attempts, st.dispatches, taskId, handled, reason, overrides, at)
           == ClosedRows(st.attempts, st.dispatches, taskId, st.attempts.Keys, reason, overrides, at)
  {
    RowsAre(st.attempts, st.dispatches, taskId, order);
    var rows := CurrentRows(st.attempts, st.dispatches, taskId, order);
    forall id | Selected(st.attempts, st.dispatches, taskId, id) ensures id in Handled(rows) {
      var i :| 0 <= i < |rows| && rows[i] == RowOf(st.attempts, id);
      assert rows[i].attemptId == id;
    }
  }

  lemma HoldsKnown(attempts: Attempts, taskId: string)
    ensures forall id :: Holds(attempts, taskId, id) ==> id in attempts
  {}

  // ---------------------------------------------------------------- pausing

  const PAUSE_REASON := "runtime_transition_failed"

  /** The payload of the event: the reason, the raised control revision and the failure. */
  function PauseContent(failureCode: string, revision: nat): string {
    PAUSE_REASON + " " + Decimal.Format(revision) + " " + failureCode
  }

  /** The event tells which failure paused the task and at which control revision. */
  lemma PauseContentTells(c1: string, r1: nat, c2: string, r2: nat)
    requires PauseContent(c1, r1) == PauseContent(c2, r2)
    ensures c1 == c2 && r1 == r2
  {
    var d1, d2 := Decimal.Format(r1), Decimal.Format(r2);
    var head := PAUSE_REASON + " ";
    HeadDrops(head, d1, " ", c1);
    HeadDrops(head, d2, " ", c2);
    DigitsThenText(d1, " " + c1, d2, " " + c2);
    Decimal.NumberFormat(r1);
    Decimal.NumberFormat(r2);
    assert c1 == (" " + c1)[1..] && c2 == (" " + c2)[1..];
  }

  lemma HeadDrops(head: string, digits: string, space: string, text: string)
    ensures (head + digits + space + text)[|head|..] == digits + (space + text)
  {}

  lemma DigitsNotLonger(d1: string, t1: string, d2: string, t2: string)
    requires Decimal.AllDigits(d2) && t1 != [] && !Decimal.IsDigit(t1[0])
    requires d1 + t1 == d2 + t2
    ensures |d2| <= |d1|
  {
    forall i | 0 <= i < |d2| ensures Decimal.IsDigit((d2 + t2)[i]) {
      assert (d2 + t2)[i] == d2[i];
    }
    assert (d1 + t1)[|d1|] == t1[0];
  }

  /** Digits end where a text begins that does not start with a digit. */
  lemma DigitsThenText(d1: string, t1: string, d2: string, t2: string)
    requires Decimal.AllDigits(d1) && Decimal.AllDigits(d2)
    requires t1 != [] && t2 != [] && !Decimal.IsDigit(t1[0]) && !Decimal.IsDigit(t2[0])
    requires d1 + t1 == d2 + t2
    ensures d1 == d2 && t1 == t2
  {
    DigitsNotLonger(d1, t1, d2, t2);
    DigitsNotLonger(d2, t2, d1, t1);
    var s := d1 + t1;
    assert d1 == s[..|d1|] && d2 == s[..|d2|];
    assert t1 == s[|d1|..] && t2 == s[|d2|..];
  }

  /** `pause_task_for_runtime_transition_failure` for the one task that the failed source belongs to. */
  function PauseTask(st: Store, digest: TaskEvents.Digest, taskId: string, sourceIsCurrent: bool,
                     failureCode: string, at: nat, order: seq<string>): (Store, Result<seq<string>, ControlError>)
  {
    if !(taskId in st.tasks && st.tasks[taskId].status == "running" && sourceIsCurrent) then (st, Ok([]))
    else if !Settleable(st.attempts, st.dispatches, taskId) then (st, Err(DispatchConflict))
    else
      var revision := st.tasks[taskId].controlRevision + 1;
      var (events, logged) := TaskEvents.Append(st.events, digest, taskId, None, PauseContent(failureCode, revision));
      if logged.Err? then (st, Err(EventError(logged.error)))
      else
        var paused := Task("paused", revision, Some(Pause(PAUSE_REASON, failureCode, at)));
        (CloseAll(st, taskId, "paused", map[], at).(tasks := st.tasks[taskId := paused], events := events),
         Ok(ClosedIds(st.attempts, st.dispatches, taskId, order)))
  }

  /** Every dispatch that a running attempt of the task held is closed as paused and let go of; nothing else moves. */
  ghost predicate ClosesForPause(st: Store, st': Store, taskId: string, at: nat) {
    && st'.attempts.Keys == st.attempts.Keys && st'.dispatches.Keys == st.dispatches.Keys
    && (forall a :: a in st.attempts ==>
         st'.attempts[a] ==
           if Holds(st.attempts, taskId, a) then st.attempts[a].(currentDispatch := None) else st.attempts[a])
    && (forall d :: d in st.dispatches ==>
         if exists a :: Holds(st.attempts, taskId, a) && st.attempts[a].currentDispatch == Some(d)
         then st'.dispatches[d] == st.dispatches[d].(status := Closed, closing := Some(Closing("paused", at)),
                                                     nextStartAt := None, retryKind := None)
         else st'.dispatches[d] == st.dispatches[d])
  }

  /** The task's stream gained one event that tells the pause, and no other event or stream moved. */
  ghost predicate LogsPause(st: TaskEvents.Store, st': TaskEvents.Store, taskId: string, failureCode: string,
                            revision: nat)
  {
    && |st'.events| == |st.events| + 1
    && st'.events[..|st.events|] == st.events
    && (var record := st'.events[|st.events|].record;
        && record.taskId == taskId
        && record.sequence == |TaskEvents.StreamOf(st.events, taskId)| + 1
        && record.id == TaskEvents.DefaultId(taskId, record.sequence)
        && record.content == PauseContent(failureCode, revision))
    && st'.heads.Keys == st.heads.Keys
    && forall other :: other in st.heads && other != taskId ==> st'.heads[other] == st.heads[other]
  }

  lemma PauseLogs(st: TaskEvents.Store, digest: TaskEvents.Digest, taskId: string, failureCode: string, revision: nat)
    requires TaskEvents.Inv(digest, st)
    ensures var (st', r) := TaskEvents.Append(st, digest, taskId, None, PauseContent(failureCode, revision));
      r.Ok? ==> LogsPause(st, st', taskId, failureCode, revision)
  {
    hide TaskEvents.Inv, TaskEvents.Append, PauseContent, TaskEvents.DefaultId;
    TaskEvents.AppendExtends(digest, st, taskId, None, PauseContent(failureCode, revision));
  }

  /**
    What a pause records: the task is paused with its reason, failure code, time
    and raised revision; the held dispatches are closed and reported in query
    order; one event tells the failure. A task that is not running, or a source
    that is not current, is left alone.
  */
  lemma PauseRecords(st: Store, digest: TaskEvents.Digest, taskId: string, sourceIsCurrent: bool,
                     failureCode: string, at: nat, order: seq<string>)
    requires TaskEvents.Inv(digest, st.events)
    ensures var (st', r) := PauseTask(st, digest, taskId, sourceIsCurrent, failureCode, at, order);
      if !sourceIsCurrent || taskId !in st.tasks || st.tasks[taskId].status != "running"
      then st' == st && r == Ok([])
      else if !Settleable(st.attempts, st.dispatches, taskId) then st' == st && r == Err(DispatchConflict)
      else if r.Err? then st' == st && r.error.EventError?
      else
        && r.value == HeldInOrder(st.attempts, taskId, order)
        && st'.tasks.Keys == st.tasks.Keys
        && (forall other :: other in st.tasks && other != taskId ==> st'.tasks[other] == st.tasks[other])
        && st'.tasks[taskId].status == "paused"
        && st'.tasks[taskId].controlRevision == st.tasks[taskId].controlRevision + 1
        && st'.tasks[taskId].pause == Some(Pause("runtime_transition_failed", failureCode, at))
        && ClosesForPause(st, st', taskId, at)
        && LogsPause(st.events, st'.events, taskId, failureCode, st'.tasks[taskId].controlRevision)
  {
    hide TaskEvents.Inv, TaskEvents.Append, Settleable, CloseAll, ClosedIds, LogsPause, ClosesForPause, PauseContent;
    var (st', r) := PauseTask(st, digest, taskId, sourceIsCurrent, failureCode, at, order);
    if taskId in st.tasks && st.tasks[taskId].status == "running" && sourceIsCurrent
      && Settleable(st.attempts, st.dispatches, taskId)
    {
      PauseLogs(st.events, digest, taskId, failureCode, st.tasks[taskId].controlRevision + 1);
      ReportsInOrder(st.attempts, st.dispatches, taskId, order);
      PauseCloses(st, CloseAll(st, taskId, "paused", map[], at), taskId, at);
      assert r.Ok? ==> st'.tasks[taskId].controlRevision == st.tasks[taskId].controlRevision + 1;
      assert r.Ok? ==> st'.events == TaskEvents.Append(st.events, digest, taskId, None,
        PauseContent(failureCode, st.tasks[taskId].controlRevision + 1)).0;
      if r.Ok? { ClosesTables(st, CloseAll(st, taskId, "paused", map[], at), st', taskId, at); }
    }
  }

  lemma PauseCloses(st: Store, st': Store, taskId: string, at: nat)
    requires Settleable(st.attempts, st.dispatches, taskId)
    requires st' == CloseAll(st, taskId, "paused", map[], at)
    ensures ClosesForPause(st, st', taskId, at)
    ensures st'.tasks == st.tasks && st'.events == st.events
  {
    ClosesExactlyTheCurrentOnes(st, taskId, "paused", map[], at);
    hide CloseAll, Settleable;
  }

  lemma ClosesTables(st: Store, closed: Store, st': Store, taskId: string, at: nat)
    requires ClosesForPause(st, closed, taskId, at)
    requires st'.attempts == closed.attempts && st'.dispatches == closed.dispatches
    ensures ClosesForPause(st, st', taskId, at)
  {}

  /** A pause is all or nothing, and a second pause of the same task finds nothing to do. */
  lemma PauseIsAtomic(st: Store, digest: TaskEvents.Digest, taskId: string, sourceIsCurrent: bool,
                      failureCode: string, at: nat, order: seq<string>, later: nat, order': seq<string>)
    ensures var (st', r) := PauseTask(st, digest, taskId, sourceIsCurrent, failureCode, at, order);
      && (st' != st ==> r.Ok?)
      && (r == Err(DispatchConflict) ==> !Settleable(st.attempts, st.dispatches, taskId))
      && (st' != st ==>
           && taskId in st.tasks && taskId in st'.tasks
           && st'.tasks == st.tasks[taskId := st'.tasks[taskId]]
           && st'.tasks[taskId].status == "paused"
           && st'.tasks[taskId].controlRevision == st.tasks[taskId].controlRevision + 1
           && (forall id :: !Holds(st'.attempts, taskId, id))
           && |st'.events.events| == |st.events.events| + 1
           && PauseTask(st', digest, taskId, sourceIsCurrent, failureCode, later, order') == (st', Ok([])))
  {
    SettlesIff(st, taskId, "paused", map[], at);
  }

  /** With an intact event stream only an unsettleable dispatch can stop the pause of a running task. */
  lemma PauseSucceedsIff(st: Store, digest: TaskEvents.Digest, taskId: string, failureCode: string, at: nat,
                         order: seq<string>)
    requires TaskEvents.Inv(digest, st.events) && taskId in st.events.heads
    requires TaskEvents.IdsGenerated(st.events.events)
    requires taskId in st.tasks && st.tasks[taskId].status == "running"
    ensures var (st', r) := PauseTask(st, digest, taskId, true, failureCode, at, order);
      && (r.Ok? <==> Settleable(st.attempts, st.dispatches, taskId))
      && (r.Err? ==> st' == st)
      && TaskEvents.Inv(digest, st'.events) && TaskEvents.IdsGenerated(st'.events.events)
  {
    hide TaskEvents.Inv, TaskEvents.Append, TaskEvents.IdsGenerated, Settleable, CloseAll, ClosedIds;
    var content := PauseContent(failureCode, st.tasks[taskId].controlRevision + 1);
    TaskEvents.GeneratedIdsNeverCollide(digest, st.events, taskId, content);
    TaskEvents.AppendKeeps(digest, st.events, taskId, None, content);
    TaskEvents.StepKeepsIds(digest, st.events, TaskEvents.Log(taskId, None, content));
  }

  // ---------------------------------------------------------------- the stored tables

  class TaskControl {
    const digest: TaskEvents.Digest
    var tasks: map<string, Task>
    var attempts: Attempts
    var dispatches: Dispatches
    var events: TaskEvents.Store

    ghost function Snapshot(): Store
      reads this
    {
      Store(tasks, attempts, dispatches, events)
    }

    constructor (digest: TaskEvents.Digest, st: Store)
      ensures this.digest == digest && Snapshot() == st
    {
      this.digest := digest;
      tasks, attempts, dispatches, events := st.tasks, st.attempts, st.dispatches, st.events;
    }

    /** `_read_current_task_dispatches`. */
    method ReadCurrentTaskDispatches(taskId: string, order: seq<string>) returns (rows: seq<CurrentRow>)
      requires Lists(order, attempts)
      ensures rows == CurrentRows(attempts, dispatches, taskId, order)
    {
      rows := [];
      for n := 0 to |order|
        invariant rows == CurrentRows(attempts, dispatches, taskId, order[..n])
      {
        assert order[..n + 1][..n] == order[..n];
        if Selected(attempts, dispatches, taskId, order[n]) {
          rows := rows + [RowOf(attempts, order[n])];
        }
      }
      assert order[..|order|] == order;
    }

    /** `_close_current_task_dispatch`: a compare-and-set on the dispatch row. */
    method CloseCurrentTaskDispatch(taskId: string, row: CurrentRow, reason: string, at: nat) returns (closed: bool)
      modifies this`dispatches
      ensures closed == OwnsActive(old(dispatches), taskId, row)
      ensures dispatches == if closed
        then old(dispatches)[row.dispatchId := CloseRow(old(dispatches)[row.dispatchId], reason, at)]
        else old(dispatches)
    {
      var id := row.dispatchId;
      if id !in dispatches { return false; }
      var dispatch := dispatches[id];
      if !(dispatch.taskId == taskId && dispatch.assignmentId == row.assignmentId
           && dispatch.attemptId == row.attemptId && dispatch.status in {Starting, Open})
      {
        return false;
      }
      dispatches := dispatches[id := CloseRow(dispatch, reason, at)];
      return true;
    }

    /** `_clear_attempt_current_dispatch`: a compare-and-set on the attempt row. */
    method ClearAttemptCurrentDispatch(taskId: string, row: CurrentRow) returns (cleared: bool)
      modifies this`attempts
      ensures cleared == HoldsUnwaiting(old(attempts), taskId, row)
      ensures attempts == if cleared
        then old(attempts)[row.attemptId := old(attempts)[row.attemptId].(currentDispatch := None)]
        else old(attempts)
    {
      if row.attemptId !in attempts { return false; }
      var attempt := attempts[row.attemptId];
      if !(attempt.taskId == taskId && attempt.assignmentId == row.assignmentId && attempt.status == Running
           && attempt.currentDispatch == Some(row.dispatchId) && attempt.currentWait == None)
      {
        return false;
      }
      attempts := attempts[row.attemptId := attempt.(currentDispatch := None)];
      return true;
    }

    /**
      `close_current_task_dispatches`. The compare-and-sets of the loop never
      fail, for the rows were read in the same transaction; what decides is the
      check after the loop, and it passes exactly in the settleable states.
    */
    method CloseCurrentTaskDispatches(taskId: string, reason: string, overrides: map<string, string>, at: nat,
                                      order: seq<string>)
      returns (r: Result<seq<string>, ControlError>)
      requires Lists(order, attempts)
      modifies this`attempts, this`dispatches
      ensures Snapshot() == CloseAll(old(Snapshot()), taskId, reason, overrides, at)
      ensures r == if Settleable(old(attempts), old(dispatches), taskId)
        then Ok(ClosedIds(old(attempts), old(dispatches), taskId, order)) else Err(DispatchConflict)
    {
      hide ClearedRows, ClosedRows, HoldsUnwaiting, OwnsActive, Selected, Settleable, Holds, Lists;
      ghost var before := Snapshot();
      var rows := ReadCurrentTaskDispatches(taskId, order);
      var closedIds := [];
      NothingSettled(before, taskId, reason, overrides, at);
      assert Handled(rows[..0]) == {};
      for n := 0 to |rows|
        invariant attempts == ClearedRows(before.attempts, before.dispatches, taskId, Handled(rows[..n]))
        invariant dispatches ==
          ClosedRows(before.attempts, before.dispatches, taskId, Handled(rows[..n]), reason, overrides, at)
        invariant tasks == before.tasks && events == before.events
        invariant closedIds == Ids(rows[..n])
      {
        var row := rows[n];
        SettleNext(before, taskId, order, n, reason, overrides, at);
        var closed := CloseCurrentTaskDispatch(taskId, row, ReasonFor(reason, overrides, row.dispatchId), at);
        assert closed;
        var cleared := ClearAttemptCurrentDispatch(taskId, row);
        assert cleared;
        closedIds := closedIds + [row.dispatchId];
        assert rows[..n + 1] == rows[..n] + [row];
      }
      assert rows[..|rows|] == rows;
      EverythingSettled(before, taskId, order, reason, overrides, at);
      SettlesIff(before, taskId, reason, overrides, at);
      if exists id :: id in attempts && Holds(attempts, taskId, id) {
        return Err(DispatchConflict);
      }
      HoldsKnown(attempts, taskId);
      return Ok(closedIds);
    }

    /** The pause in its own transaction: a failure restores every table. */
    method PauseTaskForTransitionFailure(taskId: string, sourceIsCurrent: bool, failureCode: string, at: nat,
                                         order: seq<string>)
      returns (r: Result<seq<string>, ControlError>)
      requires Lists(order, attempts)
      modifies this
      ensures (Snapshot(), r) == PauseTask(old(Snapshot()), digest, taskId, sourceIsCurrent, failureCode, at, order)
    {
      var saved := (tasks, attempts, dispatches);
      if !(taskId in tasks && tasks[taskId].status == "running" && sourceIsCurrent) {
        return Ok([]);
      }
      var revision := tasks[taskId].controlRevision + 1;
      tasks := tasks[taskId := Task("paused", revision, Some(Pause(PAUSE_REASON, failureCode, at)))];
      r := CloseCurrentTaskDispatches(taskId, "paused", map[], at, order);
      if r.Err? {
        tasks, attempts, dispatches := saved.0, saved.1, saved.2;
        return;
      }
      var (events', logged) := TaskEvents.Append(events, digest, taskId, None, PauseContent(failureCode, revision));
      if logged.Err? {
        tasks, attempts, dispatches := saved.0, saved.1, saved.2;
        return Err(EventError(logged.error));
      }
      events := events';
    }
  }
}
