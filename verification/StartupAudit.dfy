/** The paging audit that runs once at startup: runtime/startup_audit.py. */
module StartupAudit {
  import opened Basics
  import opened Sequences

  const PAGE_SIZE: nat := 200
  const PAGE_GUARD: nat := 10_000

  datatype Task = Task(id: string, teamRevision: Option<string>)

  datatype Signal = Signal(taskId: string, teamRevision: string)

  datatype Page = Page(sources: seq<Signal>, next: Option<string>)

  datatype AuditError = PageGuard | TooManySources | CursorStuck | Unroutable

  datatype Outcome = Outcome(result: Result<nat, AuditError>, routed: seq<Signal>, pagesRead: nat)

  /** A page source, and an order of task ids: the database's or Python's. */
  type Fetch = (Option<string>, nat) -> Page
  type Order = (string, string) -> bool

  /** Whether the n-th publication of the audit is accepted. */
  type Publish = nat -> bool

  // ---------------------------------------------------------------- the audit of any page source

  /** The first publication from `done` on that is refused, or `end`. */
  function Accepted(publish: Publish, done: nat, end: nat): (n: nat)
    requires done <= end
    ensures done <= n <= end
    decreases end - done
  {
    if done == end || !publish(done) then done else Accepted(publish, done + 1, end)
  }

  /** `audit_startup_source_family`, from a cursor on. */
  function AuditFrom(fetch: Fetch, less: Order, publish: Publish, cursor: Option<string>, pagesRead: nat,
                     routed: seq<Signal>): Outcome
    requires pagesRead < PAGE_GUARD
    decreases PAGE_GUARD - pagesRead, |routed|
  {
    var page := fetch(cursor, PAGE_SIZE);
    var pages := pagesRead + 1;
    if pages >= PAGE_GUARD then Outcome(Err(PageGuard), routed, pages)
    else if |page.sources| > PAGE_SIZE then Outcome(Err(TooManySources), routed, pages)
    else if cursor.Some? && page.next.Some? && !less(cursor.value, page.next.value) then
      Outcome(Err(CursorStuck), routed, pages)
    else
      var n := Accepted(publish, |routed|, |routed| + |page.sources|) - |routed|;
      if n < |page.sources| then Outcome(Err(Unroutable), routed + page.sources[..n], pages)
      else if page.next.None? then Outcome(Ok(|routed| + n), routed + page.sources, pages)
      else AuditFrom(fetch, less, publish, page.next, pages, routed + page.sources)
  }

  /** The routing loop over one page: how many sources were accepted before the first refusal. */
  method RouteSources(sources: seq<Signal>, publish: Publish, done: nat) returns (n: nat)
    ensures done + n == Accepted(publish, done, done + |sources|)
  {
    n := 0;
    while n < |sources|
      invariant n <= |sources|
      invariant Accepted(publish, done, done + |sources|) == Accepted(publish, done + n, done + |sources|)
    {
      if !publish(done + n) { return; }
      n := n + 1;
    }
  }

  method AuditStartupSourceFamily(fetch: Fetch, less: Order, publish: Publish) returns (outcome: Outcome)
    ensures outcome == AuditFrom(fetch, less, publish, None, 0, [])
  {
    var cursor: Option<string> := None;
    var pagesRead := 0;
    var routed: seq<Signal> := [];
    while true
      invariant pagesRead < PAGE_GUARD
      invariant AuditFrom(fetch, less, publish, None, 0, []) ==
        AuditFrom(fetch, less, publish, cursor, pagesRead, routed)
      decreases PAGE_GUARD - pagesRead
    {
      var page := fetch(cursor, PAGE_SIZE);
      pagesRead := pagesRead + 1;
      if pagesRead >= PAGE_GUARD { return Outcome(Err(PageGuard), routed, pagesRead); }
      if |page.sources| > PAGE_SIZE { return Outcome(Err(TooManySources), routed, pagesRead); }
      var next := page.next;
      if cursor.Some? && next.Some? && !less(cursor.value, next.value) {
        return Outcome(Err(CursorStuck), routed, pagesRead);
      }
      var accepted := RouteSources(page.sources, publish, |routed|);
      routed := routed + page.sources[..accepted];
      if accepted < |page.sources| { return Outcome(Err(Unroutable), routed, pagesRead); }
      assert page.sources[..accepted] == page.sources;
      if next.None? { return Outcome(Ok(|routed|), routed, pagesRead); }
      cursor := next;
    }
  }

  // ---------------------------------------------------------------- the page source of the task table

  /** WHERE current_team_revision_id IS NOT NULL, on tasks in id order. */
  function Rows(tasks: seq<Task>): seq<Signal> {
    if tasks == [] then []
    else
      var rest := Rows(tasks[1..]);
      if tasks[0].teamRevision.Some? then [Signal(tasks[0].id, tasks[0].teamRevision.value)] + rest else rest
  }

  /** WHERE task_id > cursor. */
  function After(rows: seq<Signal>, less: Order, cursor: Option<string>): seq<Signal> {
    if rows == [] || cursor.None? then rows
    else
      var rest := After(rows[1..], less, cursor);
      if less(cursor.value, rows[0].taskId) then [rows[0]] + rest else rest
  }

  /** `_fetch_workflow_projection_page`. */
  function FetchPage(tasks: seq<Task>, less: Order, cursor: Option<string>, size: nat): Page {
    var matching := After(Rows(tasks), less, cursor);
    var rows := if size < |matching| then matching[..size] else matching;
    Page(rows, if |rows| == size && rows != [] then Some(rows[|rows| - 1].taskId) else None)
  }

  ghost predicate StrictOrder(less: Order) {
    && (forall a :: !less(a, a))
    && (forall a, b, c :: less(a, b) && less(b, c) ==> less(a, c))
  }

  ghost predicate InOrder(tasks: seq<Task>, less: Order) {
    forall i, j :: 0 <= i < j < |tasks| ==> less(tasks[i].id, tasks[j].id)
  }

  ghost predicate Sorted(rows: seq<Signal>, less: Order) {
    forall i, j :: 0 <= i < j < |rows| ==> less(rows[i].taskId, rows[j].taskId)
  }

  lemma {:induction false} RowsSorted(tasks: seq<Task>, less: Order)
    requires InOrder(tasks, less)
    ensures Sorted(Rows(tasks), less)
    ensures forall row :: row in Rows(tasks) ==> exists i :: 0 <= i < |tasks| && tasks[i].id == row.taskId
  {
    if tasks != [] {
      RowsSorted(tasks[1..], less);
      var rest := Rows(tasks[1..]);
      forall row | row in rest
        ensures less(tasks[0].id, row.taskId) && exists i :: 0 <= i < |tasks| && tasks[i].id == row.taskId
      {
        var i :| 0 <= i < |tasks[1..]| && tasks[1..][i].id == row.taskId;
        assert tasks[i + 1].id == row.taskId;
      }
    }
  }

  /** The rows are exactly the tasks that have a team revision, with that revision. */
  lemma {:induction false} RowsAreTheTasks(tasks: seq<Task>, row: Signal)
    ensures row in Rows(tasks) <==>
      exists i :: 0 <= i < |tasks| && tasks[i] == Task(row.taskId, Some(row.teamRevision))
  {
    if tasks != [] {
      RowsAreTheTasks(tasks[1..], row);
      forall i | 0 < i < |tasks| ensures tasks[i] == tasks[1..][i - 1] {}
      if row in Rows(tasks[1..]) {
        var i :| 0 <= i < |tasks[1..]| && tasks[1..][i] == Task(row.taskId, Some(row.teamRevision));
        assert tasks[i + 1] == tasks[1..][i];
      }
    }
  }

  /** The rows behind the k-th one are the rest of the table. */
  lemma {:induction false} AfterIsRest(rows: seq<Signal>, less: Order, k: nat)
    requires StrictOrder(less) && Sorted(rows, less) && k < |rows|
    ensures After(rows, less, Some(rows[k].taskId)) == rows[k + 1..]
  {
    if k == 0 {
      AllAfter(rows[1..], less, rows[0].taskId);
    } else {
      AfterIsRest(rows[1..], less, k - 1);
      assert !less(rows[k].taskId, rows[0].taskId);
    }
  }

  lemma {:induction false} AllAfter(rows: seq<Signal>, less: Order, cursor: string)
    requires forall i :: 0 <= i < |rows| ==> less(cursor, rows[i].taskId)
    ensures After(rows, less, Some(cursor)) == rows
  {
    if rows != [] { AllAfter(rows[1..], less, cursor); }
  }

  /** The cursor after the first n rows. */
  function CursorAt(rows: seq<Signal>, n: nat): Option<string>
    requires n <= |rows|
  {
    if n == 0 then None else Some(rows[n - 1].taskId)
  }

  lemma PageAt(tasks: seq<Task>, less: Order, n: nat)
    requires StrictOrder(less) && InOrder(tasks, less) && n <= |Rows(tasks)|
    ensures FetchPage(tasks, less, CursorAt(Rows(tasks), n), PAGE_SIZE) == PageOf(Rows(tasks), n)
  {
    hide InOrder, StrictOrder;
    var rows := Rows(tasks);
    RowsSorted(tasks, less);
    if n > 0 { AfterIsRest(rows, less, n - 1); }
    FirstOf(rows, n);
  }

  /** LIMIT on the rows behind the n-th. */
  lemma FirstOf(rows: seq<Signal>, n: nat)
    requires n <= |rows|
    ensures var read := if PAGE_SIZE < |rows[n..]| then rows[n..][..PAGE_SIZE] else rows[n..];
      && read == PageOf(rows, n).sources
      && (if |read| == PAGE_SIZE && read != [] then Some(read[|read| - 1].taskId) else None) == PageOf(rows, n).next
  {}

  const LIMIT: nat := (PAGE_GUARD - 1) * PAGE_SIZE

  /** How many rows the pages before the guard can hold. */
  function Reachable(rows: seq<Signal>): nat {
    if |rows| < LIMIT then |rows| else LIMIT
  }

  /** The pages that are full and come before the guard. */
  function FullPages(rows: seq<Signal>): (pages: nat)
    ensures pages < PAGE_GUARD && pages * PAGE_SIZE <= Reachable(rows)
  {
    Reachable(rows) / PAGE_SIZE
  }

  /** The cursor that full page `k` ends with does not lie behind the one it starts with. */
  predicate Stuck(rows: seq<Signal>, less: Order, k: nat)
    requires (k + 1) * PAGE_SIZE <= |rows|
  {
    k >= 1 && !less(rows[k * PAGE_SIZE - 1].taskId, rows[(k + 1) * PAGE_SIZE - 1].taskId)
  }

  /** The first stuck page from page `k` on, or the number of full pages. */
  function FirstStuck(rows: seq<Signal>, less: Order, k: nat): (stop: nat)
    requires k <= FullPages(rows)
    ensures k <= stop <= FullPages(rows)
    ensures forall j :: k <= j < stop ==> !Stuck(rows, less, j)
    ensures stop < FullPages(rows) ==> Stuck(rows, less, stop)
    decreases FullPages(rows) - k
  {
    if k == FullPages(rows) || Stuck(rows, less, k) then k else FirstStuck(rows, less, k + 1)
  }

  /** How many rows the pages before a stuck page or the guard hold. */
  function End(rows: seq<Signal>, stop: nat): nat {
    if stop < FullPages(rows) then stop * PAGE_SIZE else Reachable(rows)
  }

  /** How an audit ends of which the rows before `done` are routed and that stops at page `stop` at the latest. */
  function Expected(rows: seq<Signal>, publish: Publish, stop: nat, done: nat): Outcome
    requires done <= End(rows, stop)
  {
    var accepted := Accepted(publish, done, End(rows, stop));
    if accepted < End(rows, stop) then Outcome(Err(Unroutable), rows[..accepted], accepted / PAGE_SIZE + 1)
    else if stop < FullPages(rows) then Outcome(Err(CursorStuck), rows[..stop * PAGE_SIZE], stop + 1)
    else if |rows| / PAGE_SIZE + 1 < PAGE_GUARD then Outcome(Ok(|rows|), rows, |rows| / PAGE_SIZE + 1)
    else Outcome(Err(PageGuard), rows[..LIMIT], PAGE_GUARD)
  }

  lemma {:induction false} AcceptedSplit(publish: Publish, done: nat, middle: nat, end: nat)
    requires done <= middle <= end
    ensures Accepted(publish, done, end) ==
      if Accepted(publish, done, middle) < middle then Accepted(publish, done, middle)
      else Accepted(publish, middle, end)
    decreases middle - done
  {
    if done < middle && publish(done) { AcceptedSplit(publish, done + 1, middle, end); }
  }

  lemma PageNumber(k: nat, a: nat)
    requires a < PAGE_SIZE
    ensures (k * PAGE_SIZE + a) / PAGE_SIZE == k
  {}

  lemma ExpectedFullPage(rows: seq<Signal>, publish: Publish, stop: nat, k: nat)
    requires k < stop <= FullPages(rows)
    ensures (k + 1) * PAGE_SIZE <= End(rows, stop)
    ensures var n := k * PAGE_SIZE;
      var a := Accepted(publish, n, n + PAGE_SIZE) - n;
      Expected(rows, publish, stop, n) ==
        if a < PAGE_SIZE then Outcome(Err(Unroutable), rows[..n] + rows[n..n + PAGE_SIZE][..a], k + 1)
        else Expected(rows, publish, stop, n + PAGE_SIZE)
  {
    var n := k * PAGE_SIZE;
    var a := Accepted(publish, n, n + PAGE_SIZE) - n;
    AcceptedSplit(publish, n, n + PAGE_SIZE, End(rows, stop));
    if a < PAGE_SIZE {
      PageNumber(k, a);
      SliceJoin(rows, n, n + PAGE_SIZE, a);
    }
  }

  lemma RestJoin(rows: seq<Signal>, n: nat, a: nat)
    requires n + a <= |rows|
    ensures rows[..n] + rows[n..][..a] == rows[..n + a]
  {}

  lemma WholeJoin(rows: seq<Signal>, n: nat)
    requires n <= |rows|
    ensures rows[..n] + rows[n..] == rows
  {}

  lemma SliceJoin(rows: seq<Signal>, n: nat, m: nat, a: nat)
    requires n + a <= m <= |rows|
    ensures rows[..n] + rows[n..m][..a] == rows[..n + a]
  {}

  /** The pages that are not full: the last page of the table, or the page that meets the guard. */
  lemma LastPage(rows: seq<Signal>)
    ensures var k := FullPages(rows);
      && (k + 1 < PAGE_GUARD ==> Reachable(rows) == |rows| < (k + 1) * PAGE_SIZE && |rows| / PAGE_SIZE == k)
      && (k + 1 == PAGE_GUARD ==> |rows| >= LIMIT == k * PAGE_SIZE && |rows| / PAGE_SIZE + 1 >= PAGE_GUARD)
  {}

  lemma ExpectedAtEnd(rows: seq<Signal>, publish: Publish, k: nat)
    requires k == FullPages(rows) && k + 1 < PAGE_GUARD
    ensures k * PAGE_SIZE <= |rows| < (k + 1) * PAGE_SIZE && k * PAGE_SIZE <= End(rows, k)
    ensures var accepted := Accepted(publish, k * PAGE_SIZE, |rows|);
      Expected(rows, publish, k, k * PAGE_SIZE) ==
        if accepted < |rows| then Outcome(Err(Unroutable), rows[..accepted], accepted / PAGE_SIZE + 1)
        else Outcome(Ok(|rows|), rows, k + 1)
  {
    LastPage(rows);
    hide FullPages, Reachable;
  }

  lemma ExpectedLastPage(rows: seq<Signal>, publish: Publish, k: nat)
    requires k == FullPages(rows) && k + 1 < PAGE_GUARD
    ensures k * PAGE_SIZE <= |rows| < (k + 1) * PAGE_SIZE && k * PAGE_SIZE <= End(rows, k)
    ensures var n := k * PAGE_SIZE;
      var a := Accepted(publish, n, |rows|) - n;
      Expected(rows, publish, k, n) ==
        if a < |rows| - n then Outcome(Err(Unroutable), rows[..n] + rows[n..][..a], k + 1)
        else Outcome(Ok(|rows|), rows[..n] + rows[n..], k + 1)
  {
    ExpectedAtEnd(rows, publish, k);
    hide Expected, FullPages, End;
    var n := k * PAGE_SIZE;
    var a := Accepted(publish, n, |rows|) - n;
    if a < |rows| - n {
      PageNumber(k, a);
      RestJoin(rows, n, a);
    } else {
      WholeJoin(rows, n);
    }
  }

  /** One step of the audit, from the page it reads. */
  lemma AuditStep(fetch: Fetch, less: Order, publish: Publish, cursor: Option<string>, pagesRead: nat,
                  routed: seq<Signal>, page: Page)
    requires pagesRead + 1 < PAGE_GUARD && fetch(cursor, PAGE_SIZE) == page && |page.sources| <= PAGE_SIZE
    requires cursor.Some? && page.next.Some? ==> less(cursor.value, page.next.value)
    ensures AuditFrom(fetch, less, publish, cursor, pagesRead, routed) ==
      var n := Accepted(publish, |routed|, |routed| + |page.sources|) - |routed|;
      if n < |page.sources| then Outcome(Err(Unroutable), routed + page.sources[..n], pagesRead + 1)
      else if page.next.None? then Outcome(Ok(|routed| + n), routed + page.sources, pagesRead + 1)
      else AuditFrom(fetch, less, publish, page.next, pagesRead + 1, routed + page.sources)
  {}

  function PageOf(rows: seq<Signal>, n: nat): Page
    requires n <= |rows|
  {
    if |rows| - n >= PAGE_SIZE then Page(rows[n..n + PAGE_SIZE], CursorAt(rows, n + PAGE_SIZE))
    else Page(rows[n..], None)
  }

  /** The page source serves these rows, window by window. */
  ghost predicate Serves(fetch: Fetch, rows: seq<Signal>) {
    forall n: nat :: n <= |rows| ==> fetch(CursorAt(rows, n), PAGE_SIZE) == PageOf(rows, n)
  }

  /** The audit when n rows are routed on k pages. */
  function AuditAt(fetch: Fetch, less: Order, publish: Publish, rows: seq<Signal>, k: nat): Outcome
    requires k < PAGE_GUARD && k * PAGE_SIZE <= |rows|
  {
    AuditFrom(fetch, less, publish, CursorAt(rows, k * PAGE_SIZE), k, rows[..k * PAGE_SIZE])
  }

  lemma AuditFullPage(fetch: Fetch, less: Order, publish: Publish, rows: seq<Signal>, k: nat)
    requires Serves(fetch, rows) && k < FullPages(rows) && !Stuck(rows, less, k)
    ensures var n := k * PAGE_SIZE;
      var a := Accepted(publish, n, n + PAGE_SIZE) - n;
      AuditAt(fetch, less, publish, rows, k) ==
        if a < PAGE_SIZE then Outcome(Err(Unroutable), rows[..n] + rows[n..n + PAGE_SIZE][..a], k + 1)
        else AuditAt(fetch, less, publish, rows, k + 1)
  {
    var n := k * PAGE_SIZE;
    var page := PageOf(rows, n);
    ServedPage(fetch, rows, n);
    FullPage(rows, k);
    hide Serves, PageOf, FullPages;
    AuditStep(fetch, less, publish, CursorAt(rows, n), k, rows[..n], page);
    PrefixWindow(rows, n, n + PAGE_SIZE);
  }

  lemma FullPage(rows: seq<Signal>, k: nat)
    requires k < FullPages(rows)
    ensures var n := k * PAGE_SIZE;
      && k + 1 < PAGE_GUARD && n + PAGE_SIZE <= |rows|
      && PageOf(rows, n) == Page(rows[n..n + PAGE_SIZE], CursorAt(rows, n + PAGE_SIZE))
  {}

  /** A stuck page ends the audit before any of its rows is routed. */
  lemma AuditStuck(fetch: Fetch, less: Order, publish: Publish, rows: seq<Signal>, k: nat)
    requires Serves(fetch, rows) && k < FullPages(rows) && Stuck(rows, less, k)
    ensures AuditAt(fetch, less, publish, rows, k) == Outcome(Err(CursorStuck), rows[..k * PAGE_SIZE], k + 1)
  {
    ServedPage(fetch, rows, k * PAGE_SIZE);
    FullPage(rows, k);
    hide Serves, PageOf, FullPages;
  }

  lemma AuditLastPage(fetch: Fetch, less: Order, publish: Publish, rows: seq<Signal>, k: nat)
    requires Serves(fetch, rows) && k == FullPages(rows) && k + 1 < PAGE_GUARD
    ensures AuditAt(fetch, less, publish, rows, k) == Expected(rows, publish, k, k * PAGE_SIZE)
  {
    var n := k * PAGE_SIZE;
    ServedPage(fetch, rows, n);
    ExpectedLastPage(rows, publish, k);
    hide Serves, Expected, FullPages;
    AuditStep(fetch, less, publish, CursorAt(rows, n), k, rows[..n], PageOf(rows, n));
  }

  lemma {:induction false} AuditReads(fetch: Fetch, less: Order, publish: Publish, rows: seq<Signal>, k: nat)
    requires Serves(fetch, rows) && k <= FullPages(rows)
    ensures var stop := FirstStuck(rows, less, k);
      && k * PAGE_SIZE <= End(rows, stop)
      && AuditAt(fetch, less, publish, rows, k) == Expected(rows, publish, stop, k * PAGE_SIZE)
    decreases FullPages(rows) - k
  {
    hide Serves, Expected, AuditAt, Stuck;
    if k == FullPages(rows) {
      LastPage(rows);
      if k + 1 == PAGE_GUARD { AuditGuard(fetch, less, publish, rows, k); }
      else { AuditLastPage(fetch, less, publish, rows, k); }
    } else if Stuck(rows, less, k) {
      AuditStuck(fetch, less, publish, rows, k);
      ExpectedStuck(rows, publish, k);
    } else {
      AuditFullPage(fetch, less, publish, rows, k);
      AuditReads(fetch, less, publish, rows, k + 1);
      ExpectedFullPage(rows, publish, FirstStuck(rows, less, k + 1), k);
    }
  }

  lemma AuditGuard(fetch: Fetch, less: Order, publish: Publish, rows: seq<Signal>, k: nat)
    requires k == FullPages(rows) && k + 1 == PAGE_GUARD
    ensures AuditAt(fetch, less, publish, rows, k) == Expected(rows, publish, k, k * PAGE_SIZE)
  {
    LastPage(rows);
  }

  lemma ExpectedStuck(rows: seq<Signal>, publish: Publish, k: nat)
    requires k < FullPages(rows)
    ensures Expected(rows, publish, k, k * PAGE_SIZE) == Outcome(Err(CursorStuck), rows[..k * PAGE_SIZE], k + 1)
  {}

  lemma ServedPage(fetch: Fetch, rows: seq<Signal>, n: nat)
    requires Serves(fetch, rows) && n <= |rows|
    ensures fetch(CursorAt(rows, n), PAGE_SIZE) == PageOf(rows, n) && |PageOf(rows, n).sources| <= PAGE_SIZE
  {}

  /** The first `n` publications are accepted. */
  ghost predicate AllAccepted(publish: Publish, n: nat) {
    forall j :: 0 <= j < n ==> publish(j)
  }

  /**
    How the audit of the task table ends, whatever order Python compares cursors
    in: `stop` is its first full page whose cursor does not advance in that order,
    if there is one before the guard.
  */
  ghost predicate Ends(rows: seq<Signal>, publish: Publish, stop: nat, outcome: Outcome) {
    var stuck, guarded := stop < FullPages(rows), |rows| / PAGE_SIZE + 1 >= PAGE_GUARD;
    && (outcome.result.Ok? <==> !stuck && !guarded && AllAccepted(publish, |rows|))
    && (outcome.result.Ok? ==> outcome == Outcome(Ok(|rows|), rows, |rows| / PAGE_SIZE + 1))
    && (outcome.result == Err(CursorStuck) <==> stuck && AllAccepted(publish, stop * PAGE_SIZE))
    && (outcome.result == Err(CursorStuck) ==>
         stuck && outcome.routed == rows[..stop * PAGE_SIZE] && outcome.pagesRead == stop + 1)
    && (outcome.result == Err(PageGuard) <==> !stuck && guarded && AllAccepted(publish, LIMIT))
    && (outcome.result == Err(PageGuard) ==> |rows| >= LIMIT && outcome.routed == rows[..LIMIT])
    && outcome.result != Err(TooManySources)
    && (outcome.result == Err(Unroutable) ==>
         var n := |outcome.routed|;
         n < |rows| && outcome.routed == rows[..n] && !publish(n) && AllAccepted(publish, n))
  }

  /**
    The audit of the task table: with every publication accepted it routes each
    row's signal once, in id order, on N / 200 + 1 pages, unless a page's cursor
    does not advance in Python's order or the page count reaches the guard; then
    it fails after the rows of the pages before. A refused publication stops it
    at that row.
  */
  lemma AuditRoutesEveryRow(tasks: seq<Task>, sqlLess: Order, less: Order, publish: Publish, fetch: Fetch)
    requires StrictOrder(sqlLess) && InOrder(tasks, sqlLess)
    requires forall c, size :: fetch(c, size) == FetchPage(tasks, sqlLess, c, size)
    ensures var rows := Rows(tasks);
      Ends(rows, publish, FirstStuck(rows, less, 0), AuditFrom(fetch, less, publish, None, 0, []))
  {
    hide StrictOrder, InOrder, Expected, Ends, FetchPage;
    AuditIsExpected(tasks, sqlLess, less, publish, fetch);
    ExpectedMeans(Rows(tasks), publish, FirstStuck(Rows(tasks), less, 0));
  }

  /** When Python's order agrees with the database's, no cursor is stuck. */
  lemma SameOrderNeverSticks(tasks: seq<Task>, sqlLess: Order, less: Order)
    requires InOrder(tasks, sqlLess)
    requires forall a, b :: sqlLess(a, b) ==> less(a, b)
    ensures FirstStuck(Rows(tasks), less, 0) == FullPages(Rows(tasks))
  {
    RowsSorted(tasks, sqlLess);
  }

  lemma AuditIsExpected(tasks: seq<Task>, sqlLess: Order, less: Order, publish: Publish, fetch: Fetch)
    requires StrictOrder(sqlLess) && InOrder(tasks, sqlLess)
    requires forall c, size :: fetch(c, size) == FetchPage(tasks, sqlLess, c, size)
    ensures AuditFrom(fetch, less, publish, None, 0, []) ==
      Expected(Rows(tasks), publish, FirstStuck(Rows(tasks), less, 0), 0)
  {
    hide FetchPage, StrictOrder, InOrder, Expected;
    var rows := Rows(tasks);
    forall n: nat | n <= |rows|
      ensures fetch(CursorAt(rows, n), PAGE_SIZE) == PageOf(rows, n)
    {
      PageAt(tasks, sqlLess, n);
    }
    AuditReads(fetch, less, publish, rows, 0);
    assert rows[..0] == [];
    assert AuditAt(fetch, less, publish, rows, 0) == AuditFrom(fetch, less, publish, None, 0, []);
  }

  /** The outcome in terms of the single publications. */
  lemma ExpectedMeans(rows: seq<Signal>, publish: Publish, stop: nat)
    requires stop <= FullPages(rows)
    ensures Ends(rows, publish, stop, Expected(rows, publish, stop, 0))
  {
    AcceptedAll(publish, End(rows, stop));
    LastPage(rows);
  }

  lemma AcceptedAll(publish: Publish, end: nat)
    ensures Accepted(publish, 0, end) == end <==> forall j :: 0 <= j < end ==> publish(j)
    ensures forall j :: 0 <= j < Accepted(publish, 0, end) ==> publish(j)
    ensures Accepted(publish, 0, end) < end ==> !publish(Accepted(publish, 0, end))
  {
    AcceptedIs(publish, 0, end);
  }

  lemma {:induction false} AcceptedIs(publish: Publish, done: nat, end: nat)
    requires done <= end
    ensures var n := Accepted(publish, done, end);
      && (forall j :: done <= j < n ==> publish(j))
      && (n < end ==> !publish(n))
    decreases end - done
  {
    if done < end && publish(done) { AcceptedIs(publish, done + 1, end); }
  }
}
