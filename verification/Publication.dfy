/**
  Publishing workflow revisions: workflows/publication.py. A workflow's
  revisions are kept in commit order; the content hash is a parameter.
*/
module Publication {
  import opened Basics
  import opened Decimal
  import opened WorkflowEdits

  datatype Provenance = StarterSeed | User

  datatype Revision = Revision(no: nat, hash: string, content: Workflow, provenance: Provenance)

  type Hash = Workflow -> string

  /** The owner rows with their current revision, and every workflow's revisions. */
  datatype Registry = Registry(owners: map<string, Option<nat>>, revisions: map<string, seq<Revision>>)

  datatype PublishError = NoProvenance | NoNumberAllocated

  const EMPTY_REGISTRY := Registry(map[], map[])
  const MAX_COLLISION_RETRIES: nat := 8

  // ---------------------------------------------------------------- one workflow's revisions

  /** `max(revision_no)`, or 0. */
  function MaxNo(rows: seq<Revision>): nat {
    if rows == [] then 0
    else
      var rest := MaxNo(rows[..|rows| - 1]);
      var last := rows[|rows| - 1].no;
      if last > rest then last else rest
  }

  /** `_matching_revision`. */
  function Matching(rows: seq<Revision>, hash: string, provenance: Provenance): Option<Revision> {
    if rows == [] then None
    else if rows[0].hash == hash && rows[0].provenance == provenance then Some(rows[0])
    else Matching(rows[1..], hash, provenance)
  }

  /** The unique constraints: revision number, and content hash with provenance. */
  predicate Violates(rows: seq<Revision>, row: Revision) {
    exists i :: 0 <= i < |rows| &&
      (rows[i].no == row.no || (rows[i].hash == row.hash && rows[i].provenance == row.provenance))
  }

  /** Publishing into a table that nobody else writes to. */
  function Insert(rows: seq<Revision>, hash: string, content: Workflow, provenance: Provenance): (seq<Revision>, nat) {
    match Matching(rows, hash, provenance)
    case Some(row) => (rows, row.no)
    case None => (rows + [Revision(MaxNo(rows) + 1, hash, content, provenance)], MaxNo(rows) + 1)
  }

  /** Numbered 1..n, at most one revision per content hash and provenance. */
  predicate TableOk(rows: seq<Revision>) {
    && (forall i :: 0 <= i < |rows| ==> rows[i].no == i + 1)
    && (forall i, j :: 0 <= i < j < |rows| ==> rows[i].hash != rows[j].hash || rows[i].provenance != rows[j].provenance)
  }

  lemma {:induction false} MaxNoIs(rows: seq<Revision>)
    requires forall i :: 0 <= i < |rows| ==> rows[i].no == i + 1
    ensures MaxNo(rows) == |rows|
  {
    if rows != [] { MaxNoIs(rows[..|rows| - 1]); }
  }

  lemma {:induction false} MatchingIff(rows: seq<Revision>, hash: string, provenance: Provenance)
    ensures Matching(rows, hash, provenance).Some? ==>
      exists i :: 0 <= i < |rows| && rows[i] == Matching(rows, hash, provenance).value
        && rows[i].hash == hash && rows[i].provenance == provenance
    ensures Matching(rows, hash, provenance).None? ==>
      forall i :: 0 <= i < |rows| ==> rows[i].hash != hash || rows[i].provenance != provenance
  {
    if rows != [] && !(rows[0].hash == hash && rows[0].provenance == provenance) {
      MatchingIff(rows[1..], hash, provenance);
      assert rows == [rows[0]] + rows[1..];
      if Matching(rows, hash, provenance).Some? {
        var i :| 0 <= i < |rows[1..]| && rows[1..][i] == Matching(rows, hash, provenance).value;
        assert rows[i + 1] == Matching(rows, hash, provenance).value;
      }
    }
  }

  /**
    Publishing keeps every old revision, and names a revision with the published
    hash and provenance: the old one if there is one, else a new last one.
  */
  lemma InsertPublishes(rows: seq<Revision>, hash: string, content: Workflow, provenance: Provenance)
    requires TableOk(rows)
    ensures var (rows', no) := Insert(rows, hash, content, provenance);
      && TableOk(rows') && rows <= rows'
      && 1 <= no <= |rows'| && rows'[no - 1].hash == hash && rows'[no - 1].provenance == provenance
      && (rows' == rows <==> exists i :: 0 <= i < |rows| && rows[i].hash == hash && rows[i].provenance == provenance)
      && (rows' != rows ==> rows' == rows + [Revision(|rows| + 1, hash, content, provenance)])
  {
    MaxNoIs(rows);
    MatchingIff(rows, hash, provenance);
  }

  // ---------------------------------------------------------------- revision ids

  /** `_workflow_revision_id`. */
  function RevisionId(key: string, no: nat): string {
    "workflow-revision." + key + "." + Pad(Format(no), 3)
  }

  /** A revision id reads `workflow-revision.`, the workflow, a dot and the number in at least three digits. */
  lemma RevisionIdReads(key: string, no: nat)
    ensures var id, p := RevisionId(key, no), "workflow-revision." + key + ".";
      && p <= id
      && AllDigits(id[|p|..]) && Number(id[|p|..]) == no
      && |id[|p|..]| == if |Format(no)| < 3 then 3 else |Format(no)|
  {
    assert RevisionId(key, no)[|"workflow-revision." + key + "."|..] == Pad(Format(no), 3);
    NumberPad(Format(no), 3);
    NumberFormat(no);
    PadReaches(Format(no), 3);
  }

  /** The primary key never adds a conflict of its own. */
  lemma RevisionIdInjective(k1: string, n1: nat, k2: string, n2: nat)
    requires RevisionId(k1, n1) == RevisionId(k2, n2)
    ensures k1 == k2 && n1 == n2
  {
    var p := "workflow-revision.";
    var x, y := Pad(Format(n1), 3), Pad(Format(n2), 3);
    LastDot(p + k1, x, p + k2, y);
    assert k1 == (p + k1)[|p|..] && k2 == (p + k2)[|p|..];
    NumberPad(Format(n1), 3);
    NumberPad(Format(n2), 3);
    NumberFormat(n1);
    NumberFormat(n2);
  }

  // ---------------------------------------------------------------- allocating a number among rivals

  datatype Proposal = Proposal(hash: string, content: Workflow, provenance: Provenance)

  /** What other publishers of the same workflow commit, one after the other. */
  function InsertAll(rows: seq<Revision>, proposals: seq<Proposal>): seq<Revision>
    decreases |proposals|
  {
    if proposals == [] then rows
    else
      var p := proposals[0];
      InsertAll(Insert(rows, p.hash, p.content, p.provenance).0, proposals[1..])
  }

  lemma {:induction false} InsertAllKeeps(rows: seq<Revision>, proposals: seq<Proposal>)
    requires TableOk(rows)
    ensures TableOk(InsertAll(rows, proposals)) && rows <= InsertAll(rows, proposals)
    decreases |proposals|
  {
    if proposals != [] {
      var p := proposals[0];
      InsertPublishes(rows, p.hash, p.content, p.provenance);
      InsertAllKeeps(Insert(rows, p.hash, p.content, p.provenance).0, proposals[1..]);
    }
  }

  /** The outcome without rivals. */
  function Alone(rows: seq<Revision>, hash: string, content: Workflow, provenance: Provenance)
    : (seq<Revision>, Result<nat, PublishError>)
  {
    var (rows', no) := Insert(rows, hash, content, provenance);
    (rows', Ok(no))
  }

  lemma AloneIs(rows: seq<Revision>, hash: string, content: Workflow, provenance: Provenance)
    requires TableOk(rows)
    ensures Alone(rows, hash, content, provenance) ==
      match Matching(rows, hash, provenance)
      case Some(row) => (rows, Ok(row.no))
      case None => (rows + [Revision(|rows| + 1, hash, content, provenance)], Ok(|rows| + 1))
  {
    TableNumbers(rows);
  }

  /** The number belongs to a revision with this hash and provenance. */
  predicate Names(rows: seq<Revision>, no: nat, hash: string, provenance: Provenance) {
    1 <= no <= |rows| && rows[no - 1].hash == hash && rows[no - 1].provenance == provenance
  }

  class RevisionTable {
    var rows: seq<Revision>

    constructor ()
      ensures rows == []
    {
      rows := [];
    }

    /**
      The insertion loop of `publish_workflow_revision`. Before the insertion of
      attempt k, other transactions may commit `rivals(k)`. It returns the
      number of the one revision with this hash and provenance, and gives up
      only after eight attempts that all lost their number to a rival.
    */
    method AllocateRevision(hash: string, content: Workflow, provenance: Provenance, rivals: nat -> seq<Proposal>)
      returns (r: Result<nat, PublishError>)
      requires TableOk(rows)
      modifies this
      ensures TableOk(rows) && old(rows) <= rows
      ensures r.Ok? ==> Names(rows, r.value, hash, provenance)
      ensures r.Err? ==> r == Err(NoNumberAllocated) && forall k :: 0 <= k < MAX_COLLISION_RETRIES ==> rivals(k) != []
      ensures (forall k :: rivals(k) == []) ==> (rows, r) == Alone(old(rows), hash, content, provenance)
    {
      hide TableOk, Violates, Alone, Names;
      MatchingAt(rows, hash, provenance);
      AloneIs(rows, hash, content, provenance);
      var matching := Matching(rows, hash, provenance);
      if matching.Some? { return Ok(matching.value.no); }
      for attempt := 0 to MAX_COLLISION_RETRIES
        invariant TableOk(rows) && old(rows) <= rows
        invariant forall k :: 0 <= k < attempt ==> rivals(k) != []
        invariant attempt == 0 ==> rows == old(rows)
        invariant Matching(rows, hash, provenance).None?
      {
        var row := Revision(MaxNo(rows) + 1, hash, content, provenance);
        AttemptOutcome(rows, rivals(attempt), row);
        rows := InsertAll(rows, rivals(attempt));
        if !Violates(rows, row) {
          assert attempt > 0 ==> rivals(0) != [];
          rows := rows + [row];
          return Ok(row.no);
        }
        matching := Matching(rows, hash, provenance);
        if matching.Some? { return Ok(matching.value.no); }
      }
      assert rivals(0) != [];
      return Err(NoNumberAllocated);
    }
  }

  lemma TableNumbers(rows: seq<Revision>)
    requires TableOk(rows)
    ensures MaxNo(rows) == |rows|
  {
    MaxNoIs(rows);
  }

  lemma MatchingAt(rows: seq<Revision>, hash: string, provenance: Provenance)
    requires TableOk(rows)
    ensures var matching := Matching(rows, hash, provenance);
      matching.Some? ==>
        && 1 <= matching.value.no <= |rows| && rows[matching.value.no - 1] == matching.value
        && Names(rows, matching.value.no, hash, provenance)
  {
    MatchingIff(rows, hash, provenance);
  }

  /** A number that has been reached is taken. */
  lemma NumberTaken(rows: seq<Revision>, row: Revision)
    requires TableOk(rows) && 1 <= row.no <= |rows|
    ensures Violates(rows, row)
  {
    assert rows[row.no - 1].no == row.no;
  }

  /** If the number read before is still free, nobody has published since. */
  lemma FreeNumberIsLast(before: seq<Revision>, rows: seq<Revision>, row: Revision)
    requires TableOk(before) && TableOk(rows) && before <= rows
    requires row.no == |before| + 1 && !Violates(rows, row)
    ensures rows == before
    ensures TableOk(rows + [row])
    ensures (rows + [row])[row.no - 1] == row
  {
    if |rows| > |before| { NumberTaken(rows, row); }
  }

  /** One attempt: the number read before is taken by a rival, or the row goes in behind what was there. */
  lemma AttemptOutcome(before: seq<Revision>, proposals: seq<Proposal>, row: Revision)
    requires TableOk(before) && row.no == MaxNo(before) + 1
    requires Matching(before, row.hash, row.provenance).None?
    ensures row.no == |before| + 1
    ensures var rows := InsertAll(before, proposals);
      && TableOk(rows) && before <= rows
      && (Violates(rows, row) ==> proposals != [])
      && (!Violates(rows, row) ==>
           rows == before && TableOk(rows + [row]) && Names(rows + [row], row.no, row.hash, row.provenance))
      && var matching := Matching(rows, row.hash, row.provenance);
      (matching.Some? ==> Names(rows, matching.value.no, row.hash, row.provenance))
  {
    hide TableOk, Violates;
    TableNumbers(before);
    InsertAllKeeps(before, proposals);
    var rows := InsertAll(before, proposals);
    MatchingAt(rows, row.hash, row.provenance);
    if Violates(rows, row) {
      NoRivalNoConflict(before, row, proposals);
    } else {
      FreeNumberIsLast(before, rows, row);
    }
  }

  lemma NoRivalNoConflict(before: seq<Revision>, row: Revision, proposals: seq<Proposal>)
    requires TableOk(before) && row.no == |before| + 1
    requires Matching(before, row.hash, row.provenance).None?
    requires Violates(InsertAll(before, proposals), row)
    ensures proposals != []
  {
    MatchingIff(before, row.hash, row.provenance);
  }

  // ---------------------------------------------------------------- the registry

  function RevisionsOf(registry: Registry, key: string): seq<Revision> {
    if key in registry.revisions then registry.revisions[key] else []
  }

  function CurrentOf(registry: Registry, key: string): Option<nat> {
    if key in registry.owners then registry.owners[key] else None
  }

  /** `acquire_workflow_owner`. */
  function AcquireOwner(registry: Registry, key: string): Registry {
    if key in registry.owners then registry else registry.(owners := registry.owners[key := None])
  }

  function ProvenanceOf(rows: seq<Revision>, no: nat): Option<Provenance> {
    if rows == [] then None
    else if rows[0].no == no then Some(rows[0].provenance)
    else ProvenanceOf(rows[1..], no)
  }

  /** `_should_select_revision`, on an acquired owner. */
  function ShouldSelect(registry: Registry, key: string, requested: bool, guard: Option<Provenance>)
    : Result<bool, PublishError>
  {
    if !requested || guard.None? then Ok(requested)
    else
      match CurrentOf(registry, key)
      case None => Ok(RevisionsOf(registry, key) == [])
      case Some(no) =>
        match ProvenanceOf(RevisionsOf(registry, key), no)
        case None => Err(NoProvenance)
        case Some(provenance) => Ok(provenance == guard.value)
  }

  function WriteKey(registry: Registry, key: string, current: Option<nat>, rows: seq<Revision>): Registry {
    Registry(registry.owners[key := current], registry.revisions[key := rows])
  }

  ghost predicate SameElsewhere(registry: Registry, registry': Registry, key: string) {
    forall other :: other != key ==>
      && RevisionsOf(registry', other) == RevisionsOf(registry, other)
      && CurrentOf(registry', other) == CurrentOf(registry, other)
      && (other in registry'.owners <==> other in registry.owners)
  }

  lemma WriteKeyIs(registry: Registry, key: string, current: Option<nat>, rows: seq<Revision>)
    ensures var acquired := AcquireOwner(registry, key);
      var registry' := WriteKey(acquired, key, current, rows);
      && CurrentOf(acquired, key) == CurrentOf(registry, key)
      && RevisionsOf(registry', key) == rows && CurrentOf(registry', key) == current && key in registry'.owners
      && SameElsewhere(registry, registry', key)
  {}

  /** `publish_workflow_revision` as one transaction. */
  function Publish(registry: Registry, hash: Hash, w: Workflow, provenance: Provenance, requested: bool,
                   guard: Option<Provenance>)
    : Result<(Registry, nat), PublishError>
  {
    var acquired := AcquireOwner(registry, w.id);
    match ShouldSelect(acquired, w.id, requested, guard)
    case Err(e) => Err(e)
    case Ok(select) =>
      var (rows, no) := Insert(RevisionsOf(registry, w.id), hash(w), w, provenance);
      Ok((WriteKey(acquired, w.id, if select then Some(no) else CurrentOf(acquired, w.id), rows), no))
  }

  /** One workflow's part of the registry: its current revision, if any, exists. */
  predicate KeyOk(registry: Registry, hash: Hash, key: string) {
    var rows := RevisionsOf(registry, key);
    && TableOk(rows)
    && (forall i :: 0 <= i < |rows| ==> rows[i].hash == hash(rows[i].content) && rows[i].content.id == key)
    && (CurrentOf(registry, key).Some? ==> 1 <= CurrentOf(registry, key).value <= |rows|)
    && (rows != [] ==> key in registry.owners)
  }

  lemma {:induction false} ProvenanceAt(rows: seq<Revision>, first: nat, no: nat)
    requires forall i :: 0 <= i < |rows| ==> rows[i].no == first + i
    requires first <= no < first + |rows|
    ensures ProvenanceOf(rows, no) == Some(rows[no - first].provenance)
  {
    if no > first { ProvenanceAt(rows[1..], first + 1, no); }
  }

  /** Whether a publication may become current, read off the workflow's state. */
  predicate MaySelect(registry: Registry, key: string, guard: Option<Provenance>)
    requires CurrentOf(registry, key).Some? ==> 1 <= CurrentOf(registry, key).value <= |RevisionsOf(registry, key)|
  {
    guard.None? ||
    match CurrentOf(registry, key)
    case None => RevisionsOf(registry, key) == []
    case Some(no) => RevisionsOf(registry, key)[no - 1].provenance == guard.value
  }

  lemma SelectsWhenAllowed(registry: Registry, hash: Hash, key: string, requested: bool, guard: Option<Provenance>)
    requires KeyOk(registry, hash, key)
    ensures ShouldSelect(AcquireOwner(registry, key), key, requested, guard)
      == Ok(requested && MaySelect(registry, key, guard))
  {
    hide TableOk;
    NumberedRows(registry, hash, key);
    if CurrentOf(registry, key).Some? { ProvenanceAt(RevisionsOf(registry, key), 1, CurrentOf(registry, key).value); }
  }

  lemma NumberedRows(registry: Registry, hash: Hash, key: string)
    requires KeyOk(registry, hash, key)
    ensures forall i :: 0 <= i < |RevisionsOf(registry, key)| ==> RevisionsOf(registry, key)[i].no == 1 + i
  {}

  /**
    From a consistent registry publishing always succeeds. It names a revision
    with the published content hash and provenance, never a second one; it
    changes the current revision exactly when the guard lets it; every other
    workflow stays.
  */
  lemma PublishKeeps(registry: Registry, hash: Hash, w: Workflow, provenance: Provenance, requested: bool,
                     guard: Option<Provenance>)
    requires KeyOk(registry, hash, w.id)
    ensures var r := Publish(registry, hash, w, provenance, requested, guard);
      && r.Ok?
      && var (registry', no) := r.value;
         var rows, rows' := RevisionsOf(registry, w.id), RevisionsOf(registry', w.id);
         && KeyOk(registry', hash, w.id)
         && rows <= rows'
         && 1 <= no <= |rows'| && rows'[no - 1].hash == hash(w) && rows'[no - 1].provenance == provenance
         && (rows' == rows <==>
           exists i :: 0 <= i < |rows| && rows[i].hash == hash(w) && rows[i].provenance == provenance)
         && (rows' != rows ==> no == |rows| + 1 == |rows'| && rows'[|rows|] == Revision(no, hash(w), w, provenance))
         && CurrentOf(registry', w.id) ==
              (if requested && MaySelect(registry, w.id, guard) then Some(no) else CurrentOf(registry, w.id))
         && w.id in registry'.owners
         && SameElsewhere(registry, registry', w.id)
  {
    hide KeyOk, Publish, MaySelect, Insert, RevisionsOf, CurrentOf, SameElsewhere;
    var rows := RevisionsOf(registry, w.id);
    PublishWrites(registry, hash, w, provenance, requested, guard);
    KeyTable(registry, hash, w.id);
    InsertPublishes(rows, hash(w), w, provenance);
    var registry' := Publish(registry, hash, w, provenance, requested, guard).value.0;
    KeyStaysOk(registry, registry', hash, w, provenance);
  }

  lemma KeyTable(registry: Registry, hash: Hash, key: string)
    requires KeyOk(registry, hash, key)
    ensures TableOk(RevisionsOf(registry, key))
    ensures CurrentOf(registry, key).Some? ==> 1 <= CurrentOf(registry, key).value <= |RevisionsOf(registry, key)|
  {}

  /** The rows that a publication writes. */
  lemma PublishWrites(registry: Registry, hash: Hash, w: Workflow, provenance: Provenance, requested: bool,
                      guard: Option<Provenance>)
    requires KeyOk(registry, hash, w.id)
    ensures var r := Publish(registry, hash, w, provenance, requested, guard);
      && r.Ok?
      && var (registry', no) := r.value;
         && (RevisionsOf(registry', w.id), no) == Insert(RevisionsOf(registry, w.id), hash(w), w, provenance)
         && CurrentOf(registry', w.id) ==
              (if requested && MaySelect(registry, w.id, guard) then Some(no) else CurrentOf(registry, w.id))
         && w.id in registry'.owners
         && SameElsewhere(registry, registry', w.id)
  {
    hide KeyOk, ShouldSelect, MaySelect, Insert, WriteKey, CurrentOf, RevisionsOf, AcquireOwner, SameElsewhere;
    KeyTable(registry, hash, w.id);
    SelectsWhenAllowed(registry, hash, w.id, requested, guard);
    var (rows, no) := Insert(RevisionsOf(registry, w.id), hash(w), w, provenance);
    WriteKeyIs(registry, w.id, Some(no), rows);
    WriteKeyIs(registry, w.id, CurrentOf(registry, w.id), rows);
  }

  lemma KeyStaysOk(registry: Registry, registry': Registry, hash: Hash, w: Workflow, provenance: Provenance)
    requires KeyOk(registry, hash, w.id) && w.id in registry'.owners
    requires RevisionsOf(registry', w.id) == Insert(RevisionsOf(registry, w.id), hash(w), w, provenance).0
    requires CurrentOf(registry', w.id) in
      {CurrentOf(registry, w.id), Some(Insert(RevisionsOf(registry, w.id), hash(w), w, provenance).1)}
    ensures KeyOk(registry', hash, w.id)
  {
    hide TableOk, Insert, RevisionsOf, CurrentOf;
    InsertPublishes(RevisionsOf(registry, w.id), hash(w), w, provenance);
  }

  /** Seeding: `seed_starter_workflows` for one starter workflow. */
  function Seed(registry: Registry, hash: Hash, w: Workflow): Result<(Registry, nat), PublishError> {
    Publish(registry, hash, w, StarterSeed, true, Some(StarterSeed))
  }

  /**
    Seeding leaves a user-published current revision current, and leaves a
    removed workflow with revisions removed.
  */
  lemma SeedRespectsTheUser(registry: Registry, hash: Hash, w: Workflow)
    requires KeyOk(registry, hash, w.id)
    ensures Seed(registry, hash, w).Ok?
    ensures var registry' := Seed(registry, hash, w).value.0;
      var current, rows := CurrentOf(registry, w.id), RevisionsOf(registry, w.id);
      && (current.Some? && rows[current.value - 1].provenance == User ==> CurrentOf(registry', w.id) == current)
      && (current.None? && rows != [] ==> CurrentOf(registry', w.id) == None)
      && (CurrentOf(registry', w.id) != current ==>
           && CurrentOf(registry', w.id).Some?
           && ProvenanceOf(RevisionsOf(registry', w.id), CurrentOf(registry', w.id).value) == Some(StarterSeed))
  {
    hide Publish;
    PublishKeeps(registry, hash, w, StarterSeed, true, Some(StarterSeed));
    var registry' := Seed(registry, hash, w).value.0;
    if CurrentOf(registry', w.id) != CurrentOf(registry, w.id) {
      NumberedRows(registry', hash, w.id);
      ProvenanceAt(RevisionsOf(registry', w.id), 1, CurrentOf(registry', w.id).value);
    }
  }
}
