/**
  Finding, adding, changing and removing members: the tree edits of
  workflows/operations.py, related to the preorder listing.
*/
module MemberEdits {
  import opened Basics
  import opened MemberTree
  import opened Sequences

  /** `_find_member`. */
  function Find(m: Member, id: string): Option<Member>
    decreases m, 1
  {
    if m.id == id then Some(m)
    else
      match m.children
      case Omitted => None
      case Listed(members) => FindIn(members, id)
  }

  function FindIn(members: seq<Member>, id: string): Option<Member>
    decreases members, 0
  {
    if members == [] then None
    else
      match Find(members[0], id)
      case Some(found) => Some(found)
      case None => FindIn(members[1..], id)
  }

  /** Puts `news` in the place of the first member below `m` that has the id; None when there is none. */
  function Splice(m: Member, id: string, news: seq<Member>): Option<Member>
    decreases m, 1
  {
    match m.children
    case Omitted => None
    case Listed(members) =>
      match SpliceIn(members, id, news)
      case None => None
      case Some(spliced) => Some(m.(children := Listed(spliced)))
  }

  function SpliceIn(members: seq<Member>, id: string, news: seq<Member>): Option<seq<Member>>
    decreases members, 0
  {
    if members == [] then None
    else if members[0].id == id then Some(news + members[1..])
    else
      match Splice(members[0], id, news)
      case Some(changed) => Some([changed] + members[1..])
      case None =>
        match SpliceIn(members[1..], id, news)
        case None => None
        case Some(rest) => Some([members[0]] + rest)
  }

  /** `_remove_member`. */
  function Remove(m: Member, id: string): Option<Member> {
    Splice(m, id, [])
  }

  /** What changing the found member in place makes of the whole tree. */
  function Replace(m: Member, id: string, replacement: Member): Option<Member> {
    if m.id == id then Some(replacement) else Splice(m, id, [replacement])
  }

  /** `parent.setdefault("children", []).append(member)`. */
  function Append(parent: Member, member: Member): Member {
    parent.(children := Listed((match parent.children case Omitted => [] case Listed(members) => members) + [member]))
  }

  // ---------------------------------------------------------------- the same edits on a listing

  /** The first row with the id, or the length. */
  function IndexOf(rows: seq<Row>, id: string): (i: nat)
    ensures i <= |rows|
    ensures i < |rows| ==> rows[i].id == id
    ensures forall j :: 0 <= j < i ==> rows[j].id != id
  {
    if rows == [] || rows[0].id == id then 0 else 1 + IndexOf(rows[1..], id)
  }

  predicate Has(rows: seq<Row>, id: string) {
    IndexOf(rows, id) < |rows|
  }

  function UpdateRow(rows: seq<Row>, id: string, details: Details): seq<Row>
    requires Has(rows, id)
  {
    var i := IndexOf(rows, id);
    rows[i := rows[i].(details := details)]
  }

  /** Deletes the member's whole block. */
  function RemoveRows(rows: seq<Row>, id: string): seq<Row>
    requires Has(rows, id)
  {
    var i := IndexOf(rows, id);
    rows[..i] + rows[BlockEnd(rows, i)..]
  }

  /** Puts the new block right after everything below the parent. */
  function AddRows(rows: seq<Row>, id: string, member: Member): seq<Row>
    requires Has(rows, id)
  {
    var i := IndexOf(rows, id);
    var end := BlockEnd(rows, i);
    rows[..i] + [rows[i].(listsChildren := true)] + rows[i + 1..end] + Rows(member, rows[i].depth + 1) + rows[end..]
  }

  // ---------------------------------------------------------------- refinement

  /** How an edit sits in the listing: the found member's block between `before` and `after`. */
  datatype Place = Place(before: seq<Row>, depth: nat, after: seq<Row>)

  ghost predicate Frames(place: Place, rows: seq<Row>, m: Member) {
    && rows == place.before + Rows(m, place.depth) + place.after
    && Ends(place.after, place.depth)
    && (forall row :: row in place.before ==> row.id != m.id)
  }

  lemma {:induction false} FindIff(m: Member, depth: nat, id: string)
    ensures Find(m, id).Some? <==> exists row :: row in Rows(m, depth) && row.id == id
    ensures Find(m, id).Some? ==> Find(m, id).value.id == id
    decreases m, 1
  {
    var rows := Rows(m, depth);
    assert rows == [rows[0]] + rows[1..];
    match m.children
    case Omitted =>
    case Listed(members) => FindInIff(members, depth + 1, id);
  }

  lemma {:induction false} FindInIff(members: seq<Member>, depth: nat, id: string)
    ensures FindIn(members, id).Some? <==> exists row :: row in RowsOf(members, depth) && row.id == id
    ensures FindIn(members, id).Some? ==> FindIn(members, id).value.id == id
    decreases members, 0
  {
    if members != [] {
      FindIff(members[0], depth, id);
      FindInIff(members[1..], depth, id);
    }
  }

  /** The same place, seen in a longer listing. */
  function Widen(place: Place, head: seq<Row>, tail: seq<Row>): Place {
    Place(head + place.before, place.depth, place.after + tail)
  }

  /** The listing with other rows in the place. */
  function Fill(place: Place, rows: seq<Row>): seq<Row> {
    place.before + rows + place.after
  }

  lemma FrameWidens(place: Place, rows: seq<Row>, m: Member, head: seq<Row>, tail: seq<Row>)
    requires Frames(place, rows, m) && Ends(tail, place.depth)
    requires forall row :: row in head ==> row.id != m.id
    ensures Frames(Widen(place, head, tail), head + rows + tail, m)
  {
    FillWidens(place, Rows(m, place.depth), head, tail);
  }

  lemma FillWidens(place: Place, rows: seq<Row>, head: seq<Row>, tail: seq<Row>)
    ensures head + Fill(place, rows) + tail == Fill(Widen(place, head, tail), rows)
  {}

  /** An edit below `m` replaces exactly the found member's block. */
  lemma {:induction false} SpliceFrames(m: Member, depth: nat, id: string, news: seq<Member>) returns (place: Place)
    requires m.id != id && Find(m, id).Some?
    ensures Splice(m, id, news).Some?
    ensures Frames(place, Rows(m, depth), Find(m, id).value) && place.depth > depth
    ensures Rows(Splice(m, id, news).value, depth) == Fill(place, RowsOf(news, place.depth))
    ensures Splice(m, id, news).value.id == m.id
    decreases m, 1
  {
    hide Frames, Fill, Widen;
    var members := m.children.members;
    var inner := SpliceInFrames(members, depth + 1, id, news);
    var top := [Top(m, depth)];
    place := Widen(inner, top, []);
    FindIff(m, depth, id);
    FrameWidens(inner, RowsOf(members, depth + 1), Find(m, id).value, top, []) by {
      assert Ends([], inner.depth);
    }
    FillWidens(inner, RowsOf(news, inner.depth), top, []);
    WidenDepth(inner, top, []);
    assert top + RowsOf(members, depth + 1) + [] == Rows(m, depth);
    var spliced := SpliceIn(members, id, news).value;
    assert top + RowsOf(spliced, depth + 1) + [] == Rows(Splice(m, id, news).value, depth);
  }

  lemma WidenDepth(place: Place, head: seq<Row>, tail: seq<Row>)
    ensures Widen(place, head, tail).depth == place.depth
  {}

  lemma {:induction false} SpliceInFrames(members: seq<Member>, depth: nat, id: string, news: seq<Member>)
    returns (place: Place)
    requires depth >= 1 && FindIn(members, id).Some?
    ensures SpliceIn(members, id, news).Some?
    ensures Frames(place, RowsOf(members, depth), FindIn(members, id).value) && place.depth >= depth
    ensures RowsOf(SpliceIn(members, id, news).value, depth) == Fill(place, RowsOf(news, place.depth))
    decreases members, 0
  {
    hide Frames, Fill, Widen;
    var first, rest := members[0], members[1..];
    RowsOfBelow(rest, depth);
    if first.id == id {
      place := FirstFrames(first, rest, news, depth);
    } else if Find(first, id).Some? {
      var inner := SpliceFrames(first, depth, id, news);
      var tail := RowsOf(rest, depth);
      place := Widen(inner, [], tail);
      FrameWidens(inner, Rows(first, depth), Find(first, id).value, [], tail);
      FillWidens(inner, RowsOf(news, inner.depth), [], tail);
      WidenDepth(inner, [], tail);
      SpliceFirst(members, id, news, depth);
      NoHead(Rows(first, depth), tail);
      NoHead(Rows(Splice(first, id, news).value, depth), tail);
    } else {
      var inner := SpliceInFrames(rest, depth, id, news);
      var head := Rows(first, depth);
      place := Widen(inner, head, []);
      FindIff(first, depth, id);
      FindInIff(rest, depth, id);
      assert Ends([], inner.depth);
      FrameWidens(inner, RowsOf(rest, depth), FindIn(rest, id).value, head, []);
      FillWidens(inner, RowsOf(news, inner.depth), head, []);
      WidenDepth(inner, head, []);
      assert head + RowsOf(rest, depth) + [] == RowsOf(members, depth);
      SpliceRest(members, id, news, depth);
    }
  }

  lemma FirstFrames(first: Member, rest: seq<Member>, news: seq<Member>, depth: nat) returns (place: Place)
    requires Ends(RowsOf(rest, depth), depth)
    ensures Frames(place, RowsOf([first] + rest, depth), first) && place.depth == depth
    ensures RowsOf(news + rest, depth) == Fill(place, RowsOf(news, depth))
  {
    var tail := RowsOf(rest, depth);
    place := Place([], depth, tail);
    RowsOfAppend(news, rest, depth);
    NoHead(RowsOf(news, depth), tail);
    NoHead(Rows(first, depth), tail);
    var members := [first] + rest;
    assert members[0] == first && members[1..] == rest;
  }

  lemma SpliceFirst(members: seq<Member>, id: string, news: seq<Member>, depth: nat)
    requires members != [] && members[0].id != id && Splice(members[0], id, news).Some?
    ensures SpliceIn(members, id, news).Some?
    ensures RowsOf(SpliceIn(members, id, news).value, depth)
      == Rows(Splice(members[0], id, news).value, depth) + RowsOf(members[1..], depth)
  {
    var changed := Splice(members[0], id, news).value;
    var spliced := [changed] + members[1..];
    assert spliced[0] == changed && spliced[1..] == members[1..];
  }

  lemma SpliceRest(members: seq<Member>, id: string, news: seq<Member>, depth: nat)
    requires members != [] && Find(members[0], id).None? && SpliceIn(members[1..], id, news).Some?
    ensures SpliceIn(members, id, news).Some?
    ensures RowsOf(SpliceIn(members, id, news).value, depth)
      == Rows(members[0], depth) + RowsOf(SpliceIn(members[1..], id, news).value, depth) + []
  {
    NoSplice(members[0], id, news);
    var rest := SpliceIn(members[1..], id, news).value;
    assert ([members[0]] + rest)[1..] == rest;
  }

  lemma {:induction false} NoSplice(m: Member, id: string, news: seq<Member>)
    requires Find(m, id).None?
    ensures Splice(m, id, news).None?
    decreases m, 1
  {
    match m.children
    case Omitted =>
    case Listed(members) => NoSpliceIn(members, id, news);
  }

  lemma {:induction false} NoSpliceIn(members: seq<Member>, id: string, news: seq<Member>)
    requires FindIn(members, id).None?
    ensures SpliceIn(members, id, news).None?
    decreases members, 0
  {
    if members != [] {
      NoSplice(members[0], id, news);
      NoSpliceIn(members[1..], id, news);
    }
  }

  lemma NoHead(a: seq<Row>, b: seq<Row>)
    ensures [] + a + b == a + b
  {}

  // ---------------------------------------------------------------- the three edits

  lemma ReplaceFrames(m: Member, depth: nat, id: string, replacement: Member) returns (place: Place)
    requires Find(m, id).Some?
    ensures Replace(m, id, replacement).Some?
    ensures Frames(place, Rows(m, depth), Find(m, id).value)
    ensures Rows(Replace(m, id, replacement).value, depth) == Fill(place, Rows(replacement, place.depth))
  {
    if m.id == id {
      place := Place([], depth, []);
    } else {
      place := SpliceFrames(m, depth, id, [replacement]);
      assert RowsOf([replacement], place.depth) == Rows(replacement, place.depth);
    }
  }

  /** A framed subtree is the block that starts at its id's first row. */
  lemma FrameIsBlock(place: Place, rows: seq<Row>, m: Member)
    requires Frames(place, rows, m)
    ensures Has(rows, m.id)
    ensures var i := |place.before|;
      && IndexOf(rows, m.id) == i
      && rows[i] == Top(m, place.depth)
      && rows[..i] == place.before
      && BlockEnd(rows, i) == i + |Rows(m, place.depth)|
      && rows[i + 1..BlockEnd(rows, i)] == Rows(m, place.depth)[1..]
      && rows[BlockEnd(rows, i)..] == place.after
  {
    BlockOfSubtree(place.before, m, place.depth, place.after);
    var i := |place.before|;
    assert rows[i] == Top(m, place.depth);
    IndexOfIs(rows, m.id, i);
  }

  lemma {:induction false} IndexOfIs(rows: seq<Row>, id: string, i: nat)
    requires i < |rows| && rows[i].id == id
    requires forall row :: row in rows[..i] ==> row.id != id
    ensures IndexOf(rows, id) == i
  {
    assert forall j :: 0 <= j < i ==> rows[j] in rows[..i];
  }

  lemma HasIff(m: Member, depth: nat, id: string)
    ensures Has(Rows(m, depth), id) <==> Find(m, id).Some?
  {
    var rows := Rows(m, depth);
    FindIff(m, depth, id);
    if Find(m, id).Some? {
      var row :| row in rows && row.id == id;
      var j :| 0 <= j < |rows| && rows[j] == row;
    }
    if Has(rows, id) { assert rows[IndexOf(rows, id)] in rows; }
  }

  /** Changing a found member's details changes its one row. */
  lemma UpdateRefines(m: Member, depth: nat, id: string, details: Details)
    requires Find(m, id).Some?
    ensures var changed := Find(m, id).value.(details := details);
      && Has(Rows(m, depth), id)
      && Replace(m, id, changed).Some?
      && Rows(Replace(m, id, changed).value, depth) == UpdateRow(Rows(m, depth), id, details)
  {
    hide Fill, Frames, IndexOf, BlockEnd;
    var found := Find(m, id).value;
    FindIff(m, depth, id);
    var changed := found.(details := details);
    var place := ReplaceFrames(m, depth, id, changed);
    FrameIsBlock(place, Rows(m, depth), found);
    ChangedRows(found, details, place.depth);
    FillUpdates(place, Rows(found, place.depth), Top(changed, place.depth));
    FrameIsFilled(place, Rows(m, depth), found);
  }

  lemma ChangedRows(m: Member, details: Details, depth: nat)
    ensures Rows(m.(details := details), depth) == Rows(m, depth)[0 := Top(m.(details := details), depth)]
  {}

  lemma FrameIsFilled(place: Place, rows: seq<Row>, m: Member)
    requires Frames(place, rows, m)
    ensures rows == Fill(place, Rows(m, place.depth))
  {}

  lemma FillUpdates(place: Place, block: seq<Row>, top: Row)
    requires |block| >= 1
    ensures Fill(place, block[0 := top]) == Fill(place, block)[|place.before| := top]
  {}

  /** Appending a child adds its block right behind everything below the parent. */
  lemma AddRefines(m: Member, depth: nat, id: string, member: Member)
    requires Find(m, id).Some?
    ensures var changed := Append(Find(m, id).value, member);
      && Has(Rows(m, depth), id)
      && Replace(m, id, changed).Some?
      && Rows(Replace(m, id, changed).value, depth) == AddRows(Rows(m, depth), id, member)
  {
    hide Fill, Frames, Append, AddRows, IndexOf;
    var found := Find(m, id).value;
    FindIff(m, depth, id);
    var place := ReplaceFrames(m, depth, id, Append(found, member));
    AddFills(place, Rows(m, depth), found, member);
  }

  lemma AddFills(place: Place, rows: seq<Row>, found: Member, member: Member)
    requires Frames(place, rows, found)
    ensures Has(rows, found.id)
    ensures Fill(place, Rows(Append(found, member), place.depth)) == AddRows(rows, found.id, member)
  {
    hide Fill, Frames, Append, AddRows, IndexOf;
    AppendRows(found, member, place.depth);
    FillAdds(place, Top(found, place.depth).(listsChildren := true), Rows(found, place.depth)[1..],
      Rows(member, place.depth + 1));
    AddedRows(place, rows, found, member);
  }

  lemma AddedRows(place: Place, rows: seq<Row>, m: Member, member: Member)
    requires Frames(place, rows, m)
    ensures Has(rows, m.id)
    ensures AddRows(rows, m.id, member) == place.before + [Top(m, place.depth).(listsChildren := true)]
      + Rows(m, place.depth)[1..] + Rows(member, place.depth + 1) + place.after
  {
    hide Frames, IndexOf, BlockEnd;
    FrameIsBlock(place, rows, m);
  }

  lemma AppendRows(parent: Member, member: Member, depth: nat)
    ensures Rows(Append(parent, member), depth)
      == [Top(parent, depth).(listsChildren := true)] + Rows(parent, depth)[1..] + Rows(member, depth + 1)
  {
    var members := match parent.children case Omitted => [] case Listed(members) => members;
    RowsOfAppend(members, [member], depth + 1);
    assert RowsOf([member], depth + 1) == Rows(member, depth + 1);
    assert Rows(parent, depth)[1..] == RowsOf(members, depth + 1);
    Associate([Top(parent, depth).(listsChildren := true)], RowsOf(members, depth + 1), Rows(member, depth + 1));
  }

  lemma FillAdds(place: Place, top: Row, inner: seq<Row>, block: seq<Row>)
    ensures Fill(place, [top] + inner + block) == place.before + [top] + inner + block + place.after
  {}

  /** Removing a member below the lead deletes exactly its block. */
  lemma RemoveRefines(m: Member, depth: nat, id: string)
    requires m.id != id && Find(m, id).Some?
    ensures Has(Rows(m, depth), id)
    ensures Remove(m, id).Some?
    ensures Rows(Remove(m, id).value, depth) == RemoveRows(Rows(m, depth), id)
  {
    hide Fill, Frames, IndexOf, BlockEnd;
    FindIff(m, depth, id);
    var place := SpliceFrames(m, depth, id, []);
    FrameIsBlock(place, Rows(m, depth), Find(m, id).value);
    FillEmpty(place);
  }

  lemma FillEmpty(place: Place)
    ensures Fill(place, []) == place.before + place.after
  {}

  /** `_remove_member` walks the child list by index and stops at the first hit. */
  method RemoveMember(root: Member, id: string) returns (changed: Member, removed: bool)
    ensures removed <==> Remove(root, id).Some?
    ensures changed == if removed then Remove(root, id).value else root
    decreases root
  {
    match root.children {
      case Omitted => return root, false;
      case Listed(members) =>
        assert members[..0] == [] && members[0..] == members;
        for index := 0 to |members|
          invariant SpliceIn(members, id, []) == Behind(members[..index], SpliceIn(members[index..], id, []))
        {
          var child := members[index];
          RemoveStep(members, id, index);
          if child.id == id {
            return root.(children := Listed(members[..index] + members[index + 1..])), true;
          }
          var child', below := RemoveMember(child, id);
          if below {
            return root.(children := Listed(members[index := child'])), true;
          }
        }
        assert members[|members|..] == [];
        return root, false;
    }
  }

  ghost function Behind(before: seq<Member>, rest: Option<seq<Member>>): (r: Option<seq<Member>>)
    ensures before == [] ==> r == rest
  {
    if rest.Some? then assert [] + rest.value == rest.value; Some(before + rest.value) else None
  }

  /** What the index loop knows about the member it looks at. */
  lemma RemoveStep(members: seq<Member>, id: string, index: nat)
    requires index < |members|
    requires SpliceIn(members, id, []) == Behind(members[..index], SpliceIn(members[index..], id, []))
    ensures var child := members[index];
      SpliceIn(members, id, []) ==
        if child.id == id then Some(members[..index] + members[index + 1..])
        else if Remove(child, id).Some? then Some(members[index := Remove(child, id).value])
        else Behind(members[..index + 1], SpliceIn(members[index + 1..], id, []))
  {
    var child, before, rest := members[index], members[..index], members[index + 1..];
    assert members[index..][0] == child && members[index..][1..] == rest;
    if child.id == id {
      assert [] + rest == rest;
    } else if Remove(child, id).Some? {
      var child' := Remove(child, id).value;
      assert before + ([child'] + rest) == members[index := child'];
    } else if SpliceIn(rest, id, []).Some? {
      var spliced := SpliceIn(rest, id, []).value;
      assert members[..index + 1] == before + [child];
      assert before + ([child] + spliced) == before + [child] + spliced;
    }
  }
}
