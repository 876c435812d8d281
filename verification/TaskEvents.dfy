/**
  The per-task event chronology of src/oh_my_subagents/runtime/task_events.py:
  a sequence allocator, a hash-chained log and a separately stored head.

  The digest is a parameter: any function from what is hashed to text. Only the
  commitment theorem needs it to be free of collisions.
*/
module TaskEvents {
  import opened Basics
  import opened Decimal

  /** Everything of an event that goes into its hash. */
  datatype Hashed = Hashed(id: string, sequence: nat, taskId: string, content: string, previous: Option<string>)

  datatype Event = Event(record: Hashed, hash: string)

  datatype Head = Head(revision: nat, lastSequence: nat, lastHash: Option<string>)

  /** The event table in commit order, and the head row of every task. */
  datatype Store = Store(events: seq<Event>, heads: map<string, Head>)

  type Digest = Hashed -> string

  datatype AppendError = HeadMissing | HeadMismatch | IdTaken

  const EMPTY_STORE := Store([], map[])

  /** Generated event ids start with it; ids of product actions start with `action.`. */
  const ID_PREFIX := "task-event."

  /** `task_event_id`. */
  function DefaultId(taskId: string, sequence: nat): string {
    ID_PREFIX + taskId + "." + Pad(Format(sequence), 8)
  }

  function StreamOf(events: seq<Event>, taskId: string): seq<Event> {
    if events == [] then []
    else
      var last := events[|events| - 1];
      StreamOf(events[..|events| - 1], taskId) + if last.record.taskId == taskId then [last] else []
  }

  /** ORDER BY event_seq DESC LIMIT 1. */
  function Latest(stream: seq<Event>): Option<Event> {
    if stream == [] then None
    else
      var last := stream[|stream| - 1];
      match Latest(stream[..|stream| - 1])
      case None => Some(last)
      case Some(other) => if other.record.sequence > last.record.sequence then Some(other) else Some(last)
  }

  /** The allocation checks of `_allocate_task_event_sequence`, on the head row whose revision was just raised. */
  predicate HeadMatches(head: Head, latest: Option<Event>) {
    && head.revision == head.lastSequence + 1
    && (match latest
        case None => head.lastSequence == 0 && head.lastHash == None
        case Some(event) => event.record.sequence == head.lastSequence && Some(event.hash) == head.lastHash)
  }

  function Raised(head: Head): Head {
    head.(revision := head.revision + 1)
  }

  predicate Taken(events: seq<Event>, id: string) {
    exists i :: 0 <= i < |events| && events[i].record.id == id
  }

  /** The event an append would write. */
  function NextEvent(digest: Digest, head: Head, taskId: string, id: Option<string>, content: string): Event {
    var sequence := head.revision + 1;
    var record := Hashed(
      if id.Some? && id.value != "" then id.value else DefaultId(taskId, sequence),
      sequence, taskId, content, head.lastHash);
    Event(record, digest(record))
  }

  /** `append_task_event`; an error leaves the caller's transaction to be rolled back. */
  function Append(st: Store, digest: Digest, taskId: string, id: Option<string>, content: string)
    : (Store, Result<Event, AppendError>)
  {
    if taskId !in st.heads then (st, Err(HeadMissing))
    else
      var head := st.heads[taskId];
      if !HeadMatches(Raised(head), Latest(StreamOf(st.events, taskId))) then (st, Err(HeadMismatch))
      else
        var event := NextEvent(digest, head, taskId, id, content);
        if Taken(st.events, event.record.id) then (st, Err(IdTaken))
        else
          (Store(st.events + [event],
                 st.heads[taskId := Head(head.revision + 1, event.record.sequence, Some(event.hash))]),
           Ok(event))
  }

  /** A new task gets an empty stream head. */
  function OpenStream(st: Store, taskId: string): Store {
    if taskId in st.heads then st else st.(heads := st.heads[taskId := Head(0, 0, None)])
  }

  // ---------------------------------------------------------------- chains

  /** Numbered from 1, each event hashed correctly and naming its predecessor's hash. */
  ghost predicate Chained(digest: Digest, stream: seq<Event>) {
    forall i :: 0 <= i < |stream| ==>
      && stream[i].record.sequence == i + 1
      && stream[i].hash == digest(stream[i].record)
      && stream[i].record.previous == HeadHash(stream[..i])
  }

  function HeadHash(stream: seq<Event>): Option<string> {
    if stream == [] then None else Some(stream[|stream| - 1].hash)
  }

  ghost predicate Injective(digest: Digest) {
    forall a, b :: digest(a) == digest(b) ==> a == b
  }

  /** With a collision-free digest the head hash commits to the whole history. */
  lemma {:induction false} HeadHashCommits(digest: Digest, a: seq<Event>, b: seq<Event>)
    requires Injective(digest) && Chained(digest, a) && Chained(digest, b)
    requires HeadHash(a) == HeadHash(b)
    ensures a == b
    decreases |a|
  {
    hide Chained, Injective, HeadHash;
    if a == [] {
      HeadHashIsLast(a);
      HeadHashIsLast(b);
    } else {
      var m, n := |a| - 1, |b| - 1;
      SameLast(digest, a, b);
      ChainedPrefix(digest, a, m);
      ChainedPrefix(digest, b, n);
      HeadHashCommits(digest, a[..m], b[..n]);
      LastOf(a);
      LastOf(b);
    }
  }

  lemma HeadHashIsLast(stream: seq<Event>)
    ensures HeadHash(stream) == None <==> stream == []
  {}

  lemma LastOf(stream: seq<Event>)
    requires stream != []
    ensures stream == stream[..|stream| - 1] + [stream[|stream| - 1]]
  {}

  lemma SameLast(digest: Digest, a: seq<Event>, b: seq<Event>)
    requires Injective(digest) && Chained(digest, a) && Chained(digest, b)
    requires a != [] && HeadHash(a) == HeadHash(b)
    ensures b != [] && a[|a| - 1] == b[|b| - 1]
    ensures HeadHash(a[..|a| - 1]) == HeadHash(b[..|b| - 1])
  {
    var m, n := |a| - 1, |b| - 1;
    assert a[m].hash == digest(a[m].record) && b[n].hash == digest(b[n].record);
    assert a[m].record == b[n].record;
  }

  lemma ChainedPrefix(digest: Digest, stream: seq<Event>, n: nat)
    requires Chained(digest, stream) && n <= |stream|
    ensures Chained(digest, stream[..n])
  {
    forall i | 0 <= i < n ensures stream[..n][..i] == stream[..i] {}
  }

  lemma ChainedAppend(digest: Digest, stream: seq<Event>, event: Event)
    requires Chained(digest, stream)
    requires event.record.sequence == |stream| + 1 && event.hash == digest(event.record)
    requires event.record.previous == HeadHash(stream)
    ensures Chained(digest, stream + [event])
  {
    var after := stream + [event];
    forall i | 0 <= i < |after|
      ensures after[i].record.previous == HeadHash(after[..i])
    {
      assert after[..i] == stream[..i];
      if i == |stream| { assert stream[..i] == stream; }
    }
  }

  lemma {:induction false} ChainedLatest(digest: Digest, stream: seq<Event>)
    requires Chained(digest, stream)
    ensures Latest(stream) == if stream == [] then None else Some(stream[|stream| - 1])
  {
    if stream != [] {
      ChainedPrefix(digest, stream, |stream| - 1);
      ChainedLatest(digest, stream[..|stream| - 1]);
    }
  }

  // ---------------------------------------------------------------- the invariant

  /** A stream and the head row kept for it. */
  ghost predicate HeadCovers(digest: Digest, stream: seq<Event>, head: Head) {
    && Chained(digest, stream)
    && head == Head(|stream|, |stream|, HeadHash(stream))
  }

  ghost predicate StreamInv(digest: Digest, st: Store, taskId: string)
    requires taskId in st.heads
  {
    HeadCovers(digest, StreamOf(st.events, taskId), st.heads[taskId])
  }

  /** Event ids are the table's primary key. */
  ghost predicate IdsOk(events: seq<Event>) {
    && (forall i :: 0 <= i < |events| ==> events[i].record.id != "")
    && (forall i, j :: 0 <= i < j < |events| ==> events[i].record.id != events[j].record.id)
  }

  ghost predicate Inv(digest: Digest, st: Store) {
    && (forall taskId :: taskId in st.heads ==> StreamInv(digest, st, taskId))
    && (forall i :: 0 <= i < |st.events| ==> st.events[i].record.taskId in st.heads)
    && IdsOk(st.events)
  }

  lemma StreamOfAppend(events: seq<Event>, event: Event, taskId: string)
    ensures StreamOf(events + [event], taskId) ==
      StreamOf(events, taskId) + if event.record.taskId == taskId then [event] else []
  {
    assert (events + [event])[..|events|] == events;
  }

  lemma {:induction false} NoStream(events: seq<Event>, taskId: string)
    requires forall i :: 0 <= i < |events| ==> events[i].record.taskId != taskId
    ensures StreamOf(events, taskId) == []
  {
    if events != [] { NoStream(events[..|events| - 1], taskId); }
  }

  /** Opening a stream makes the task known, and changes no event and no stream that was there. */
  lemma OpenStreamKeeps(digest: Digest, st: Store, taskId: string)
    requires Inv(digest, st)
    ensures Inv(digest, OpenStream(st, taskId))
    ensures OpenStream(st, taskId).heads.Keys == st.heads.Keys + {taskId}
    ensures forall other :: other in st.heads ==> OpenStream(st, taskId).heads[other] == st.heads[other]
    ensures OpenStream(st, taskId).events == st.events
  {
    if taskId !in st.heads {
      var st' := OpenStream(st, taskId);
      hide IdsOk, StreamInv;
      forall other | other in st'.heads ensures StreamInv(digest, st', other) {
        OpenStreamInv(digest, st, taskId, other);
      }
    }
  }

  lemma OpenStreamInv(digest: Digest, st: Store, taskId: string, other: string)
    requires Inv(digest, st) && taskId !in st.heads && other in OpenStream(st, taskId).heads
    ensures StreamInv(digest, OpenStream(st, taskId), other)
  {
    hide IdsOk;
    if other == taskId { NoStream(st.events, taskId); } else { assert StreamInv(digest, st, other); }
  }

  /** The id of a new event: the caller's, or if it gives none or an empty one, that of the task's n-th event. */
  function ChosenId(taskId: string, given: Option<string>, n: nat): string {
    match given
    case None => DefaultId(taskId, n)
    case Some(id) => if id == "" then DefaultId(taskId, n) else id
  }

  /**
    From a state that appends produced, the stored head always matches the
    chronology: an append succeeds unless the task is unknown or the event's id
    is taken, and then extends the chain by one event, which holds the given
    content under the chosen id.
  */
  lemma AppendExtends(digest: Digest, st: Store, taskId: string, id: Option<string>, content: string)
    requires Inv(digest, st)
    ensures var (st', r) := Append(st, digest, taskId, id, content);
      && r != Err(HeadMismatch)
      && (r == Err(HeadMissing) <==> taskId !in st.heads)
      && (r == Err(IdTaken) <==>
           taskId in st.heads && Taken(st.events, ChosenId(taskId, id, |StreamOf(st.events, taskId)| + 1)))
      && (r.Ok? <==>
           taskId in st.heads && !Taken(st.events, ChosenId(taskId, id, |StreamOf(st.events, taskId)| + 1)))
      && (r.Err? ==> st' == st)
      && (r.Ok? ==>
           var stream := StreamOf(st.events, taskId);
           && st'.events == st.events + [r.value]
           && r.value.record.content == content
           && r.value.record.id == ChosenId(taskId, id, |stream| + 1)
           && r.value.record.id != "" && !Taken(st.events, r.value.record.id)
           && r.value.hash == digest(r.value.record)
           && r.value.record.taskId == taskId
           && r.value.record.sequence == |stream| + 1
           && r.value.record.previous == HeadHash(stream)
           && st'.heads == st.heads[taskId := Head(|stream| + 1, |stream| + 1, Some(r.value.hash))])
  {
    hide Inv, HeadMatches, NextEvent, Taken;
    if taskId in st.heads {
      AllocationMatches(digest, st, taskId);
      NextEventFits(digest, st.heads[taskId], taskId, id, content);
    }
  }

  lemma NextEventFits(digest: Digest, head: Head, taskId: string, id: Option<string>, content: string)
    ensures var event := NextEvent(digest, head, taskId, id, content);
      && event.record.id != "" && event.hash == digest(event.record) && event.record.taskId == taskId
      && event.record.sequence == head.revision + 1 && event.record.previous == head.lastHash
      && event.record.content == content && event.record.id == ChosenId(taskId, id, head.revision + 1)
  {}

  /** The allocation checks never fire. */
  lemma AllocationMatches(digest: Digest, st: Store, taskId: string)
    requires Inv(digest, st) && taskId in st.heads
    ensures var stream := StreamOf(st.events, taskId);
      && HeadMatches(Raised(st.heads[taskId]), Latest(stream))
      && st.heads[taskId] == Head(|stream|, |stream|, HeadHash(stream))
  {
    assert StreamInv(digest, st, taskId);
    ChainedLatest(digest, StreamOf(st.events, taskId));
  }

  lemma AppendKeeps(digest: Digest, st: Store, taskId: string, id: Option<string>, content: string)
    requires Inv(digest, st)
    ensures var (st', r) := Append(st, digest, taskId, id, content);
      && Inv(digest, st')
      && (r.Ok? ==> StreamOf(st'.events, taskId) == StreamOf(st.events, taskId) + [r.value])
  {
    hide Append, HeadCovers;
    AppendExtends(digest, st, taskId, id, content);
    var (st', r) := Append(st, digest, taskId, id, content);
    if r.Ok? {
      StreamOfAppend(st.events, r.value, taskId);
      assert StreamInv(digest, st, taskId);
      CoversAppend(digest, StreamOf(st.events, taskId), st.heads[taskId], r.value);
      forall other | other in st'.heads ensures StreamInv(digest, st', other) {
        StreamOfAppend(st.events, r.value, other);
        if other != taskId {
          assert StreamInv(digest, st, other);
          assert StreamOf(st'.events, other) == StreamOf(st.events, other);
        }
      }
    }
  }

  lemma CoversAppend(digest: Digest, stream: seq<Event>, head: Head, event: Event)
    requires HeadCovers(digest, stream, head)
    requires event.record.sequence == |stream| + 1 && event.hash == digest(event.record)
    requires event.record.previous == HeadHash(stream)
    ensures HeadCovers(digest, stream + [event], Head(|stream| + 1, |stream| + 1, Some(event.hash)))
  {
    ChainedAppend(digest, stream, event);
  }

  // ---------------------------------------------------------------- runs

  datatype Step = Open(taskId: string) | Log(taskId: string, id: Option<string>, content: string)

  function Apply(st: Store, digest: Digest, step: Step): Store {
    match step
    case Open(taskId) => OpenStream(st, taskId)
    case Log(taskId, id, content) => Append(st, digest, taskId, id, content).0
  }

  function Run(st: Store, digest: Digest, steps: seq<Step>): Store
    decreases |steps|
  {
    if steps == [] then st else Run(Apply(st, digest, steps[0]), digest, steps[1..])
  }

  lemma StepKeeps(digest: Digest, st: Store, step: Step)
    requires Inv(digest, st)
    ensures Inv(digest, Apply(st, digest, step))
    ensures st.events <= Apply(st, digest, step).events
  {
    hide Inv, Append, OpenStream;
    match step {
      case Open(taskId) => OpenStreamKeeps(digest, st, taskId);
      case Log(taskId, id, content) =>
        AppendExtends(digest, st, taskId, id, content);
        AppendKeeps(digest, st, taskId, id, content);
    }
  }

  /** After any run every stream is numbered 1..n, hash-chained, and its head row is exactly (n, n, hash of event n). */
  lemma {:induction false} RunKeeps(digest: Digest, st: Store, steps: seq<Step>)
    requires Inv(digest, st)
    ensures Inv(digest, Run(st, digest, steps))
    ensures st.events <= Run(st, digest, steps).events
    decreases |steps|
  {
    if steps != [] {
      StepKeeps(digest, st, steps[0]);
      RunKeeps(digest, Apply(st, digest, steps[0]), steps[1..]);
    }
  }

  lemma ReachableInv(digest: Digest, steps: seq<Step>)
    ensures Inv(digest, Run(EMPTY_STORE, digest, steps))
  {
    RunKeeps(digest, EMPTY_STORE, steps);
  }

  function Contents(stream: seq<Event>): seq<string> {
    seq(|stream|, i requires 0 <= i < |stream| => stream[i].record.content)
  }

  /** The step appends to the stream of this task: the task is known and the id of its next event is free. */
  predicate Logs(st: Store, step: Step, taskId: string) {
    && step.Log? && step.taskId == taskId && taskId in st.heads
    && !Taken(st.events, ChosenId(taskId, step.id, |StreamOf(st.events, taskId)| + 1))
  }

  /** What the steps of a run append to the stream of one task, in order. */
  function Logged(st: Store, digest: Digest, steps: seq<Step>, taskId: string): seq<string>
    decreases |steps|
  {
    if steps == [] then []
    else
      (if Logs(st, steps[0], taskId) then [steps[0].content] else []) +
      Logged(Apply(st, digest, steps[0]), digest, steps[1..], taskId)
  }

  lemma ContentsAppend(a: seq<Event>, b: seq<Event>)
    ensures Contents(a + b) == Contents(a) + Contents(b)
  {}

  lemma StepLogs(digest: Digest, st: Store, step: Step, taskId: string)
    requires Inv(digest, st)
    ensures Contents(StreamOf(Apply(st, digest, step).events, taskId)) ==
      Contents(StreamOf(st.events, taskId)) + if Logs(st, step, taskId) then [step.content] else []
  {
    hide Inv, Append, Contents, Taken, ChosenId;
    var stream := StreamOf(st.events, taskId);
    NoContents(Contents(stream));
    match step {
      case Open(other) => OpenStreamKeeps(digest, st, other);
      case Log(logged, id, content) =>
        AppendExtends(digest, st, logged, id, content);
        var (st', r) := Append(st, digest, logged, id, content);
        if r.Ok? {
          StreamOfAppend(st.events, r.value, taskId);
          ContentsAppend(stream, [r.value]);
          ContentsAppend(stream, []);
          OneContent(r.value);
        }
    }
  }

  lemma OneContent(event: Event)
    ensures Contents([event]) == [event.record.content]
    ensures Contents([]) == []
  {}

  lemma NoContents(contents: seq<string>)
    ensures contents + [] == contents
  {}

  /** After any run the contents of a task's stream are those it had, then those of the appends to it, in order. */
  lemma {:induction false} RunLogs(digest: Digest, st: Store, steps: seq<Step>, taskId: string)
    requires Inv(digest, st)
    ensures Contents(StreamOf(Run(st, digest, steps).events, taskId)) ==
      Contents(StreamOf(st.events, taskId)) + Logged(st, digest, steps, taskId)
    decreases |steps|
  {
    hide Inv, Apply, Contents, Logs;
    if steps == [] {
      NoContents(Contents(StreamOf(st.events, taskId)));
    } else {
      var next := Apply(st, digest, steps[0]);
      StepLogs(digest, st, steps[0], taskId);
      StepKeeps(digest, st, steps[0]);
      RunLogs(digest, next, steps[1..], taskId);
    }
  }

  lemma EmptyTables(digest: Digest, taskId: string)
    ensures Inv(digest, EMPTY_STORE)
    ensures Contents(StreamOf(EMPTY_STORE.events, taskId)) == []
  {}

  /** From the empty tables a task's stream reads exactly what was appended to it. */
  lemma StreamIsLog(digest: Digest, steps: seq<Step>, taskId: string)
    ensures Contents(StreamOf(Run(EMPTY_STORE, digest, steps).events, taskId)) ==
      Logged(EMPTY_STORE, digest, steps, taskId)
  {
    EmptyTables(digest, taskId);
    hide Inv, Contents, Logs, Apply;
    RunLogs(digest, EMPTY_STORE, steps, taskId);
    NothingBefore(Logged(EMPTY_STORE, digest, steps, taskId));
  }

  lemma NothingBefore(contents: seq<string>)
    ensures [] + contents == contents
  {}

  /** Two runs, however different, that leave a task with the same head hash left it with the same history. */
  lemma EqualHeadsEqualHistories(digest: Digest, a: seq<Step>, b: seq<Step>, taskId: string)
    requires Injective(digest)
    requires var sa, sb := Run(EMPTY_STORE, digest, a), Run(EMPTY_STORE, digest, b);
      taskId in sa.heads && taskId in sb.heads && sa.heads[taskId].lastHash == sb.heads[taskId].lastHash
    ensures StreamOf(Run(EMPTY_STORE, digest, a).events, taskId) == StreamOf(Run(EMPTY_STORE, digest, b).events, taskId)
  {
    ReachableInv(digest, a);
    ReachableInv(digest, b);
    var sa, sb := Run(EMPTY_STORE, digest, a), Run(EMPTY_STORE, digest, b);
    assert StreamInv(digest, sa, taskId) && StreamInv(digest, sb, taskId);
    HeadHashCommits(digest, StreamOf(sa.events, taskId), StreamOf(sb.events, taskId));
  }

  // ---------------------------------------------------------------- generated ids

  /** A generated id reads `task-event.`, the task, a dot and the number in at least eight digits. */
  lemma DefaultIdReads(taskId: string, n: nat)
    ensures var id, p := DefaultId(taskId, n), "task-event." + taskId + ".";
      && p <= id
      && AllDigits(id[|p|..]) && Number(id[|p|..]) == n
      && |id[|p|..]| == if |Format(n)| < 8 then 8 else |Format(n)|
  {
    assert DefaultId(taskId, n)[|ID_PREFIX + taskId + "."|..] == Pad(Format(n), 8);
    NumberPad(Format(n), 8);
    NumberFormat(n);
    PadReaches(Format(n), 8);
  }

  /** Generated event ids are distinct across tasks and sequence numbers. */
  lemma DefaultIdInjective(t1: string, n1: nat, t2: string, n2: nat)
    requires DefaultId(t1, n1) == DefaultId(t2, n2)
    ensures t1 == t2 && n1 == n2
  {
    var p := ID_PREFIX;
    var x, y := Pad(Format(n1), 8), Pad(Format(n2), 8);
    LastDot(p + t1, x, p + t2, y);
    assert t1 == (p + t1)[|p|..] && t2 == (p + t2)[|p|..];
    NumberPad(Format(n1), 8);
    NumberPad(Format(n2), 8);
    NumberFormat(n1);
    NumberFormat(n2);
  }

  /** Ids of the generated form are generated: each belongs to its own event. */
  predicate IdsGenerated(events: seq<Event>) {
    forall i :: 0 <= i < |events| ==> IdGenerated(events[i].record)
  }

  predicate IdGenerated(record: Hashed) {
    record.id == DefaultId(record.taskId, record.sequence) || !(ID_PREFIX <= record.id)
  }

  /** The id a caller gives, if it gives one, does not have the generated form. */
  predicate GivenIdForeign(step: Step) {
    step.Log? && step.id.Some? ==> !(ID_PREFIX <= step.id.value)
  }

  lemma DefaultIdPrefix(taskId: string, n: nat)
    ensures ID_PREFIX <= DefaultId(taskId, n)
  {
    assert DefaultId(taskId, n)[..|ID_PREFIX|] == ID_PREFIX;
  }

  lemma StepKeepsIds(digest: Digest, st: Store, step: Step)
    requires IdsGenerated(st.events) && GivenIdForeign(step)
    ensures IdsGenerated(Apply(st, digest, step).events)
  {
    if step.Log? && step.taskId in st.heads {
      var event := NextEvent(digest, st.heads[step.taskId], step.taskId, step.id, step.content);
      assert IdGenerated(event.record);
      hide IdGenerated, NextEvent, HeadMatches, Taken;
    }
  }

  /** Runs whose callers give no ids of the generated form keep that, and then every generated id is free. */
  lemma {:induction false} RunKeepsIds(digest: Digest, st: Store, steps: seq<Step>)
    requires IdsGenerated(st.events) && forall i :: 0 <= i < |steps| ==> GivenIdForeign(steps[i])
    ensures IdsGenerated(Run(st, digest, steps).events)
    decreases |steps|
  {
    if steps != [] {
      StepKeepsIds(digest, st, steps[0]);
      RunKeepsIds(digest, Apply(st, digest, steps[0]), steps[1..]);
    }
  }

  /** While no caller has given an id of the generated form, an append to a known task under a generated id succeeds. */
  lemma GeneratedIdsNeverCollide(digest: Digest, st: Store, taskId: string, content: string)
    requires Inv(digest, st) && taskId in st.heads && IdsGenerated(st.events)
    ensures Append(st, digest, taskId, None, content).1.Ok?
  {
    hide Append;
    AppendExtends(digest, st, taskId, None, content);
    assert StreamInv(digest, st, taskId);
    var stream := StreamOf(st.events, taskId);
    var n := |stream| + 1;
    forall i | 0 <= i < |st.events| ensures st.events[i].record.id != DefaultId(taskId, n) {
      var record := st.events[i].record;
      assert IdGenerated(record);
      DefaultIdPrefix(taskId, n);
      if record.id == DefaultId(taskId, n) {
        DefaultIdInjective(record.taskId, record.sequence, taskId, n);
        InStream(st.events, taskId, i);
      }
    }
  }

  /** From the empty tables on: whatever ids of another form callers have given. */
  lemma GeneratedIdsNeverCollideInRuns(digest: Digest, steps: seq<Step>, taskId: string, content: string)
    requires forall i :: 0 <= i < |steps| ==> GivenIdForeign(steps[i])
    requires taskId in Run(EMPTY_STORE, digest, steps).heads
    ensures Append(Run(EMPTY_STORE, digest, steps), digest, taskId, None, content).1.Ok?
  {
    ReachableInv(digest, steps);
    RunKeepsIds(digest, EMPTY_STORE, steps);
    GeneratedIdsNeverCollide(digest, Run(EMPTY_STORE, digest, steps), taskId, content);
  }

  lemma {:induction false} InStream(events: seq<Event>, taskId: string, i: nat)
    requires i < |events| && events[i].record.taskId == taskId
    ensures events[i] in StreamOf(events, taskId)
  {
    if i < |events| - 1 {
      InStream(events[..|events| - 1], taskId, i);
    }
  }

  // ---------------------------------------------------------------- the stored tables

  class EventStore {
    const digest: Digest
    var events: seq<Event>
    var heads: map<string, Head>

    ghost function Snapshot(): Store
      reads this
    {
      Store(events, heads)
    }

    constructor (digest: Digest)
      ensures this.digest == digest && Snapshot() == EMPTY_STORE
    {
      this.digest := digest;
      events, heads := [], map[];
    }

    /** `_allocate_task_event_sequence`: raises the revision, then compares head and chronology. */
    method AllocateSequence(taskId: string) returns (r: Result<Head, AppendError>)
      modifies this`heads
      ensures taskId !in old(heads) ==> r == Err(HeadMissing) && heads == old(heads)
      ensures taskId in old(heads) ==>
        && heads == old(heads)[taskId := old(heads)[taskId].(revision := old(heads)[taskId].revision + 1)]
        && r == (if HeadMatches(Raised(old(heads)[taskId]), Latest(StreamOf(events, taskId)))
                 then Ok(old(heads)[taskId]) else Err(HeadMismatch))
    {
      if taskId !in heads { return Err(HeadMissing); }
      var head := heads[taskId];
      heads := heads[taskId := Raised(head)];
      var latest := Latest(StreamOf(events, taskId));
      var latestSequence := if latest.Some? then latest.value.record.sequence else 0;
      var latestHash := if latest.Some? then Some(latest.value.hash) else None;
      if heads[taskId].revision != head.lastSequence + 1
        || latestSequence != head.lastSequence
        || latestHash != head.lastHash
      {
        return Err(HeadMismatch);
      }
      return Ok(head);
    }

    /** `_advance_task_event_stream_head`: a compare-and-set on the allocated row. */
    method AdvanceStreamHead(taskId: string, allocation: Head, sequence: nat, hash: string) returns (advanced: bool)
      modifies this`heads
      ensures advanced <==> taskId in old(heads) && old(heads)[taskId] == allocation.(revision := sequence)
      ensures heads == if advanced then old(heads)[taskId := Head(sequence, sequence, Some(hash))] else old(heads)
    {
      if taskId !in heads
        || heads[taskId].revision != sequence
        || heads[taskId].lastSequence != allocation.lastSequence
        || heads[taskId].lastHash != allocation.lastHash
      {
        return false;
      }
      heads := heads[taskId := heads[taskId].(lastSequence := sequence, lastHash := Some(hash))];
      return true;
    }

    /** `append_task_event` in a transaction of its own: any failure restores the tables. */
    method AppendTaskEvent(taskId: string, id: Option<string>, content: string) returns (r: Result<Event, AppendError>)
      modifies this
      ensures (Snapshot(), r) == Append(old(Snapshot()), digest, taskId, id, content)
    {
      var savedHeads := heads;
      var allocation := AllocateSequence(taskId);
      if allocation.Err? {
        heads := savedHeads;
        return Err(allocation.error);
      }
      var head := allocation.value;
      var event := NextEvent(digest, head, taskId, id, content);
      if Taken(events, event.record.id) {
        heads := savedHeads;
        return Err(IdTaken);
      }
      events := events + [event];
      var advanced := AdvanceStreamHead(taskId, head, event.record.sequence, event.hash);
      assert advanced; // the allocation holds the row, so this compare-and-set cannot fail
      assert heads == savedHeads[taskId := Head(head.revision + 1, event.record.sequence, Some(event.hash))];
      return Ok(event);
    }
  }
}
