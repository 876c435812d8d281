/** Reading a conversation backwards, page by page: `_read_entry_page` of operator/conversation_reads.py. */
module EntryPages {
  import opened Basics
  import opened OperatorProtocol
  import opened OperatorInvariant
  import opened Sequences

  datatype Page = Page(visible: seq<Entry>, older: Option<nat>)

  /** WHERE sequence < before. */
  function Older(entries: seq<Entry>, before: Option<nat>): seq<Entry> {
    if before.None? then entries
    else if entries == [] then []
    else (if entries[0].sequence < before.value then [entries[0]] else []) + Older(entries[1..], before)
  }

  function Reverse<T>(s: seq<T>): seq<T> {
    seq(|s|, i requires 0 <= i < |s| => s[|s| - 1 - i])
  }

  /** One page: ORDER BY sequence DESC LIMIT limit + 1, shown oldest first. */
  function ReadPage(entries: seq<Entry>, before: Option<nat>, limit: nat): Page {
    var stored := Take(Reverse(Older(entries, before)), limit + 1);
    var descending := Take(stored, limit);
    Page(Reverse(descending),
         if |stored| > limit && descending != [] then Some(descending[|descending| - 1].sequence) else None)
  }

  lemma {:induction false} OlderIsPrefix(entries: seq<Entry>, before: nat, first: nat)
    requires forall i :: 0 <= i < |entries| ==> entries[i].sequence == first + i
    ensures Older(entries, Some(before)) ==
      entries[..if before <= first then 0 else if before - first <= |entries| then before - first else |entries|]
  {
    if entries != [] {
      OlderIsPrefix(entries[1..], before, first + 1);
    }
  }

  lemma ReverseTwice<T>(s: seq<T>)
    ensures Reverse(Reverse(s)) == s
  {}

  /** The newest `n` rows, taken from the descending order. */
  lemma TakeNewest<T>(s: seq<T>, n: nat)
    ensures n < |s| ==> Take(Reverse(s), n) == Reverse(s[|s| - n..])
    ensures n >= |s| ==> Take(Reverse(s), n) == Reverse(s)
  {}

  lemma TakeTake<T>(s: seq<T>, n: nat)
    ensures Take(Take(s, n + 1), n) == Take(s, n)
  {}

  function WindowStart(end: nat, limit: nat): nat { if limit < end then end - limit else 0 }

  lemma OlderIsWindow(entries: seq<Entry>, end: nat)
    requires Numbered(entries) && end <= |entries|
    ensures Older(entries, Some(end + 1)) == entries[..end]
    ensures end == |entries| ==> Older(entries, None) == entries[..end]
  {
    OlderIsPrefix(entries, end + 1, 1);
  }

  lemma Window(rows: seq<Entry>, limit: nat)
    requires limit >= 1
    ensures var start := WindowStart(|rows|, limit);
      var stored := Take(Reverse(rows), limit + 1);
      var descending := Take(stored, limit);
      && Reverse(descending) == rows[start..]
      && (|stored| > limit <==> start > 0)
      && (start > 0 ==> descending != [] && descending[|descending| - 1] == rows[start])
  {
    var start := WindowStart(|rows|, limit);
    TakeTake(Reverse(rows), limit);
    TakeNewest(rows, limit);
    ReverseTwice(rows[start..]);
    assert rows[0..] == rows;
  }

  /** A page of a numbered log is the window that ends just before the cursor. */
  lemma PageIsWindow(entries: seq<Entry>, end: nat, limit: nat)
    requires Numbered(entries) && end <= |entries| && limit >= 1
    ensures var start := WindowStart(end, limit);
      ReadPage(entries, Some(end + 1), limit) ==
        Page(entries[start..end], if start > 0 then Some(start + 1) else None)
    ensures end == |entries| ==> ReadPage(entries, None, limit) == ReadPage(entries, Some(end + 1), limit)
  {
    hide Numbered, Take, Reverse, Older;
    OlderIsWindow(entries, end);
    var rows := entries[..end];
    Window(rows, limit);
    var start := WindowStart(end, limit);
    assert rows[start..] == entries[start..end];
    if start > 0 { SequenceAt(entries, start); }
  }

  lemma SequenceAt(entries: seq<Entry>, i: nat)
    requires Numbered(entries) && i < |entries|
    ensures entries[i].sequence == i + 1
  {}

  /** The pages a reader gets by following `older_cursor`, oldest page first; `log(k)` is the log at the k-th read. */
  function Follow(log: nat -> seq<Entry>, k: nat, before: Option<nat>, limit: nat, fuel: nat): seq<Entry>
    decreases fuel
  {
    var page := ReadPage(log(k), before, limit);
    if page.older.None? || fuel == 0 then page.visible
    else Follow(log, k + 1, page.older, limit, fuel - 1) + page.visible
  }

  lemma AppendWindow(first: seq<Entry>, log: seq<Entry>, start: nat, end: nat)
    requires start <= end <= |first| && first <= log
    ensures first[..start] + log[start..end] == first[..end]
  {}

  /**
    Following cursors backwards rebuilds exactly the log of the first read,
    whatever is appended between the reads: no entry twice, none missing.
  */
  lemma {:induction false} FollowRebuilds(log: nat -> seq<Entry>, first: seq<Entry>, k: nat, end: nat, limit: nat,
                                          fuel: nat)
    requires limit >= 1 && end <= |first| && fuel >= end
    requires forall j :: k <= j ==> Numbered(log(j)) && first <= log(j)
    ensures Follow(log, k, Some(end + 1), limit, fuel) == first[..end]
    decreases fuel
  {
    hide ReadPage, Numbered;
    PageIsWindow(log(k), end, limit);
    var start := WindowStart(end, limit);
    AppendWindow(first, log(k), start, end);
    if start > 0 {
      FollowRebuilds(log, first, k + 1, start, limit, fuel - 1);
    } else {
      assert first[..0] + log(k)[0..end] == log(k)[0..end];
    }
  }

  lemma BackwardReadingRebuildsTheLog(log: nat -> seq<Entry>, limit: nat)
    requires limit >= 1
    requires forall j: nat :: Numbered(log(j)) && log(0) <= log(j)
    ensures Follow(log, 0, None, limit, |log(0)|) == log(0)
  {
    var n := |log(0)|;
    assert Numbered(log(0));
    PageIsWindow(log(0), n, limit);
    hide ReadPage, Numbered;
    FollowRebuilds(log, log(0), 0, n, limit, n);
    assert log(0)[..n] == log(0);
  }
}
