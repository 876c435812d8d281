/** Reading a task's events page by page: `list_task_events` of runtime/task_events.py. */
module TaskEventPages {
  import opened Basics
  import opened TaskEvents
  import opened Sequences

  /** `encode_task_event_cursor` and `decode_task_event_cursor`; decoding may reject a text. */
  datatype Codec = Codec(encode: string -> string, decode: string -> Option<string>)

  ghost predicate RoundTrips(codec: Codec) {
    forall id :: id != "" ==> codec.decode(codec.encode(id)) == Some(id)
  }

  datatype Page = Page(items: seq<Event>, next: Option<string>)

  datatype PageError = InvalidLimit | CursorResetRequired(text: string)

  const LIMIT_MAX: nat := 500

  function FindEvent(stream: seq<Event>, id: string): Option<Event> {
    if stream == [] then None
    else if stream[0].record.id == id then Some(stream[0])
    else FindEvent(stream[1..], id)
  }

  /** `_cursor_event_seq`. */
  function StartAfter(stream: seq<Event>, codec: Codec, cursor: Option<string>): Result<nat, PageError> {
    if cursor.None? then Ok(0)
    else
      match codec.decode(cursor.value)
      case None => Err(CursorResetRequired(cursor.value))
      case Some(id) =>
        match FindEvent(stream, id)
        case None => Err(CursorResetRequired(cursor.value))
        case Some(event) => Ok(event.record.sequence)
  }

  /** `_through_event_seq`. */
  function Through(stream: seq<Event>, through: Option<string>): Result<Option<nat>, PageError> {
    if through.None? then Ok(None)
    else
      match FindEvent(stream, through.value)
      case None => Err(CursorResetRequired(through.value))
      case Some(event) => Ok(Some(event.record.sequence))
  }

  /** The rows of the page statement; commit order is sequence order in a chained stream. */
  function Rows(stream: seq<Event>, after: nat, through: Option<nat>): seq<Event> {
    if stream == [] then []
    else
      var sequence := stream[0].record.sequence;
      var rest := Rows(stream[1..], after, through);
      if sequence > after && (through.None? || sequence <= through.value) then [stream[0]] + rest else rest
  }

  function PageOf(rows: seq<Event>, codec: Codec, limit: nat): Page
    requires limit >= 1
  {
    var read := Take(rows, limit + 1);
    var items := Take(read, limit);
    Page(items, if |read| > limit then Some(codec.encode(items[|items| - 1].record.id)) else None)
  }

  function ListEvents(st: Store, codec: Codec, taskId: string, cursor: Option<string>, limit: int,
                      through: Option<string>)
    : Result<Page, PageError>
  {
    if limit < 1 || limit > LIMIT_MAX then Err(InvalidLimit)
    else
      var stream := StreamOf(st.events, taskId);
      match StartAfter(stream, codec, cursor)
      case Err(e) => Err(e)
      case Ok(after) =>
        match Through(stream, through)
        case Err(e) => Err(e)
        case Ok(bound) => Ok(PageOf(Rows(stream, after, bound), codec, limit))
  }

  // ---------------------------------------------------------------- one page

  lemma {:induction false} StreamPrefix(a: seq<Event>, b: seq<Event>, taskId: string)
    requires a <= b
    ensures StreamOf(a, taskId) <= StreamOf(b, taskId)
    decreases |b|
  {
    if |a| < |b| {
      assert a <= b[..|b| - 1];
      StreamPrefix(a, b[..|b| - 1], taskId);
    } else {
      assert a == b;
    }
  }

  lemma {:induction false} FindEventAt(stream: seq<Event>, i: nat)
    requires i < |stream|
    requires forall j :: 0 <= j < |stream| && j != i ==> stream[j].record.id != stream[i].record.id
    ensures FindEvent(stream, stream[i].record.id) == Some(stream[i])
  {
    if i > 0 { FindEventAt(stream[1..], i - 1); }
  }

  function Clamp(n: int, top: nat): (r: nat)
    ensures r <= top
  {
    if n < 0 then 0 else if n > top then top else n
  }

  lemma {:induction false} RowsAreWindow(stream: seq<Event>, first: nat, after: nat, through: nat)
    requires forall i :: 0 <= i < |stream| ==> stream[i].record.sequence == first + i
    requires after <= through
    ensures var low, high := Clamp(after + 1 - first, |stream|), Clamp(through + 1 - first, |stream|);
      low <= high && Rows(stream, after, Some(through)) == stream[low..high]
  {
    if stream != [] {
      var rest := stream[1..];
      RowsAreWindow(rest, first + 1, after, through);
      var low, high := Clamp(after - first, |rest|), Clamp(through - first, |rest|);
      var tail := Rows(rest, after, Some(through));
      assert tail == rest[low..high];
      if first <= after {
        assert Rows(stream, after, Some(through)) == tail;
        TailSlice(stream, low, high);
      } else if first <= through {
        assert Rows(stream, after, Some(through)) == [stream[0]] + tail;
        HeadSlice(stream, high);
      } else {
        assert Rows(stream, after, Some(through)) == tail;
      }
    }
  }

  lemma TailSlice(stream: seq<Event>, low: nat, high: nat)
    requires stream != [] && low <= high <= |stream| - 1
    ensures stream[1..][low..high] == stream[low + 1..high + 1]
  {}

  lemma HeadSlice(stream: seq<Event>, high: nat)
    requires stream != [] && high <= |stream| - 1
    ensures [stream[0]] + stream[1..][0..high] == stream[0..high + 1]
  {}

  lemma PageOfWindow(rows: seq<Event>, codec: Codec, limit: nat)
    requires limit >= 1
    ensures PageOf(rows, codec, limit) ==
      if |rows| <= limit then Page(rows, None)
      else Page(rows[..limit], Some(codec.encode(rows[limit - 1].record.id)))
  {
    if |rows| > limit {
      assert Take(Take(rows, limit + 1), limit) == rows[..limit];
    }
  }

  /** The cursor that resumes after the first `n` events. */
  function CursorAt(stream: seq<Event>, codec: Codec, n: nat): Option<string>
    requires n <= |stream|
  {
    if n == 0 then None else Some(codec.encode(stream[n - 1].record.id))
  }

  /** A task's stream as appends leave it. */
  ghost predicate Readable(stream: seq<Event>) {
    && (forall i :: 0 <= i < |stream| ==> stream[i].record.sequence == i + 1 && stream[i].record.id != "")
    && (forall i, j :: 0 <= i < j < |stream| ==> stream[i].record.id != stream[j].record.id)
  }

  lemma CursorsResolve(stream: seq<Event>, codec: Codec, n: nat)
    requires RoundTrips(codec) && Readable(stream) && n <= |stream|
    ensures StartAfter(stream, codec, CursorAt(stream, codec, n)) == Ok(n)
    ensures n > 0 ==> Through(stream, Some(stream[n - 1].record.id)) == Ok(Some(n))
  {
    if n > 0 { FindEventAt(stream, n - 1); }
  }

  lemma PageRows(stream: seq<Event>, codec: Codec, n: nat, limit: nat, m: nat)
    requires Readable(stream) && limit >= 1 && n <= m <= |stream|
    ensures PageOf(Rows(stream, n, Some(m)), codec, limit) ==
      if m - n <= limit then Page(stream[n..m], None)
      else Page(stream[n..n + limit], CursorAt(stream, codec, n + limit))
  {
    hide PageOf;
    RowsAreWindow(stream, 1, n, m);
    PageOfWindow(stream[n..m], codec, limit);
    if m - n > limit {
      WindowPrefix(stream, n, m, limit);
    }
  }

  /** A page that starts after event n and is bounded by event m is the window of at most `limit` events from n. */
  lemma PageIsWindow(st: Store, codec: Codec, taskId: string, n: nat, limit: nat, m: nat)
    requires RoundTrips(codec) && 1 <= limit <= LIMIT_MAX
    requires var stream := StreamOf(st.events, taskId); Readable(stream) && n <= m <= |stream| && 1 <= m
    ensures var stream := StreamOf(st.events, taskId);
      ListEvents(st, codec, taskId, CursorAt(stream, codec, n), limit, Some(stream[m - 1].record.id)) ==
        if m - n <= limit then Ok(Page(stream[n..m], None))
        else Ok(Page(stream[n..n + limit], CursorAt(stream, codec, n + limit)))
  {
    hide Readable, RoundTrips, StartAfter, Through, CursorAt, PageOf;
    var stream := StreamOf(st.events, taskId);
    CursorsResolve(stream, codec, n);
    CursorsResolve(stream, codec, m);
    PageRows(stream, codec, n, limit, m);
  }

  // ---------------------------------------------------------------- following cursors

  /** All items a client collects from `request` on; `tables(k)` is the store at its k-th request. */
  function Follow(tables: nat -> Store, request: nat, codec: Codec, taskId: string,
                  cursor: Option<string>, limit: int, through: Option<string>, fuel: nat)
    : Result<seq<Event>, PageError>
    decreases fuel
  {
    match ListEvents(tables(request), codec, taskId, cursor, limit, through)
    case Err(e) => Err(e)
    case Ok(page) =>
      if page.next.None? || fuel == 0 then Ok(page.items)
      else
        match Follow(tables, request + 1, codec, taskId, page.next, limit, through, fuel - 1)
        case Err(e) => Err(e)
        case Ok(rest) => Ok(page.items + rest)
  }

  lemma SamePrefix(codec: Codec, first: seq<Event>, stream: seq<Event>, n: nat, m: nat)
    requires first <= stream && n <= m <= |first| && 1 <= m
    ensures first[n..m] == stream[n..m]
    ensures first[m - 1] == stream[m - 1]
    ensures CursorAt(first, codec, n) == CursorAt(stream, codec, n)
  {}

  lemma MoreRequests(fuel: nat, limit: nat, left: nat)
    requires (fuel + 1) * limit >= left > limit
    ensures fuel != 0 && fuel * limit >= left - limit
  {
    assert (fuel + 1) * limit == fuel * limit + limit;
  }

  /** A page of a later table, in terms of the stream the client saw first. */
  lemma PageOfFirst(st: Store, codec: Codec, taskId: string, first: seq<Event>, n: nat, limit: nat, m: nat)
    requires RoundTrips(codec) && 1 <= limit <= LIMIT_MAX
    requires n <= m <= |first| && 1 <= m && first <= StreamOf(st.events, taskId)
    requires Readable(StreamOf(st.events, taskId))
    ensures ListEvents(st, codec, taskId, CursorAt(first, codec, n), limit, Some(first[m - 1].record.id)) ==
      if m - n <= limit then Ok(Page(first[n..m], None))
      else Ok(Page(first[n..n + limit], CursorAt(first, codec, n + limit)))
  {
    hide ListEvents, Readable, RoundTrips, CursorAt;
    var stream := StreamOf(st.events, taskId);
    PageIsWindow(st, codec, taskId, n, limit, m);
    SamePrefix(codec, first, stream, n, m);
    if m - n > limit {
      SamePrefix(codec, first, stream, n, n + limit);
      SamePrefix(codec, first, stream, n + limit, m);
    }
  }

  ghost predicate Shows(st: Store, taskId: string, first: seq<Event>) {
    first <= StreamOf(st.events, taskId) && Readable(StreamOf(st.events, taskId))
  }

  lemma {:induction false} FollowCollects(tables: nat -> Store, request: nat, codec: Codec, taskId: string,
                                          first: seq<Event>, n: nat, limit: nat, m: nat, fuel: nat)
    requires RoundTrips(codec) && 1 <= limit <= LIMIT_MAX
    requires n <= m <= |first| && 1 <= m && (fuel + 1) * limit >= m - n
    requires forall j: nat :: Shows(tables(j), taskId, first)
    ensures Follow(tables, request, codec, taskId, CursorAt(first, codec, n), limit,
                   Some(first[m - 1].record.id), fuel) == Ok(first[n..m])
    decreases fuel
  {
    hide ListEvents, Readable, RoundTrips;
    assert Shows(tables(request), taskId, first);
    PageOfFirst(tables(request), codec, taskId, first, n, limit, m);
    if m - n > limit {
      MoreRequests(fuel, limit, m - n);
      FollowCollects(tables, request + 1, codec, taskId, first, n + limit, limit, m, fuel - 1);
      assert first[n..n + limit] + first[n + limit..m] == first[n..m];
    }
  }

  lemma {:induction false} StreamIds(events: seq<Event>, taskId: string)
    requires IdsOk(events)
    ensures forall i :: 0 <= i < |StreamOf(events, taskId)| ==> StreamOf(events, taskId)[i] in events
    ensures IdsOk(StreamOf(events, taskId))
  {
    if events != [] {
      StreamIds(events[..|events| - 1], taskId);
    }
  }

  lemma StreamReadable(digest: Digest, st: Store, taskId: string)
    requires Inv(digest, st) && taskId in st.heads
    ensures Readable(StreamOf(st.events, taskId))
  {
    assert StreamInv(digest, st, taskId);
    StreamIds(st.events, taskId);
  }

  /** The store at successive requests: appends may happen between any two of them. */
  ghost predicate OnlyAppended(digest: Digest, tables: nat -> Store) {
    forall j: nat :: Inv(digest, tables(j)) && tables(0).events <= tables(j).events
  }

  lemma StreamGrows(digest: Digest, tables: nat -> Store, taskId: string, j: nat)
    requires OnlyAppended(digest, tables) && taskId in tables(j).heads
    ensures StreamOf(tables(0).events, taskId) <= StreamOf(tables(j).events, taskId)
    ensures Readable(StreamOf(tables(j).events, taskId))
  {
    hide Inv, Readable;
    assert Inv(digest, tables(j)) && tables(0).events <= tables(j).events;
    StreamReadable(digest, tables(j), taskId);
    StreamPrefix(tables(0).events, tables(j).events, taskId);
  }

  /**
    Following cursors up to a fixed event returns exactly the stream up to that
    event, once and in order, within ceil(m / limit) requests, whatever is
    appended to the tables between the requests.
  */
  lemma FollowingCursorsReadsTheStream(digest: Digest, tables: nat -> Store, codec: Codec, taskId: string,
                                       m: nat, limit: nat, requests: nat)
    requires RoundTrips(codec) && 1 <= limit <= LIMIT_MAX
    requires OnlyAppended(digest, tables) && forall j: nat :: taskId in tables(j).heads
    requires 1 <= m <= |StreamOf(tables(0).events, taskId)|
    requires requests >= 1 && requests * limit >= m
    ensures var stream := StreamOf(tables(0).events, taskId);
      Follow(tables, 0, codec, taskId, None, limit, Some(stream[m - 1].record.id), requests - 1) == Ok(stream[..m])
  {
    hide OnlyAppended, Readable, RoundTrips;
    var first := StreamOf(tables(0).events, taskId);
    forall j: nat
      ensures Shows(tables(j), taskId, first)
    {
      StreamGrows(digest, tables, taskId, j);
    }
    FollowCollects(tables, 0, codec, taskId, first, 0, limit, m, requests - 1);
    assert first[0..m] == first[..m];
  }

  /** Without a bound the rows are those up to any number that no event exceeds. */
  lemma {:induction false} RowsUnbounded(stream: seq<Event>, after: nat, top: nat)
    requires forall i :: 0 <= i < |stream| ==> stream[i].record.sequence <= top
    ensures Rows(stream, after, None) == Rows(stream, after, Some(top))
  {
    if stream != [] { RowsUnbounded(stream[1..], after, top); }
  }

  /** Without a bound a page runs to the end of the stream; an empty stream has one empty page. */
  lemma PageToTheEnd(st: Store, codec: Codec, taskId: string, n: nat, limit: nat)
    requires RoundTrips(codec) && 1 <= limit <= LIMIT_MAX
    requires Readable(StreamOf(st.events, taskId)) && n <= |StreamOf(st.events, taskId)|
    ensures var stream := StreamOf(st.events, taskId);
      ListEvents(st, codec, taskId, CursorAt(stream, codec, n), limit, None) ==
        if |stream| - n <= limit then Ok(Page(stream[n..], None))
        else Ok(Page(stream[n..n + limit], CursorAt(stream, codec, n + limit)))
  {
    hide RoundTrips, StartAfter, CursorAt, PageOf;
    var stream := StreamOf(st.events, taskId);
    CursorsResolve(stream, codec, n);
    RowsUnbounded(stream, n, |stream|);
    PageRows(stream, codec, n, limit, |stream|);
    assert stream[n..] == stream[n..|stream|];
  }

  /** A limit below 1 or above 500 is refused, whatever else the request holds; no other limit is. */
  lemma LimitIsRefusedIff(st: Store, codec: Codec, taskId: string, cursor: Option<string>, limit: int,
                          through: Option<string>)
    ensures ListEvents(st, codec, taskId, cursor, limit, through) == Err(InvalidLimit) <==> limit < 1 || limit > 500
  {}

  /** A cursor or a bound the task's stream does not contain is refused. */
  lemma UnknownCursorIsRefused(st: Store, codec: Codec, taskId: string, id: string, limit: nat)
    requires RoundTrips(codec) && 1 <= limit <= LIMIT_MAX && id != ""
    ensures ListEvents(st, codec, taskId, Some(codec.encode(id)), limit, None)
      == Err(CursorResetRequired(codec.encode(id)))
      <==> forall event :: event in StreamOf(st.events, taskId) ==> event.record.id != id
    ensures ListEvents(st, codec, taskId, None, limit, Some(id)) == Err(CursorResetRequired(id))
      <==> forall event :: event in StreamOf(st.events, taskId) ==> event.record.id != id
  {
    FindsExactly(StreamOf(st.events, taskId), id);
  }

  lemma {:induction false} FindsExactly(stream: seq<Event>, id: string)
    ensures FindEvent(stream, id).Some? <==> exists event :: event in stream && event.record.id == id
  {
    if stream != [] {
      FindsExactly(stream[1..], id);
      assert stream == [stream[0]] + stream[1..];
    }
  }
}
