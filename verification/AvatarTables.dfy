// The avatar, friend and ignore tables as the chat service sees them. A table is the sequence
// of its rows in the order a SELECT returns them; statements are functions on that sequence.
// Friend and ignore rows share one datatype; an ignore row has an empty comment.
module AvatarTables {
  import opened StringUtils

  datatype AvatarRow = AvatarRow(id: nat, userId: nat, name: Narrow, address: Narrow, attributes: nat)

  /** The row's text is what this name and address narrow to. */
  predicate StoredAs(r: AvatarRow, name: Wide, address: Wide) {
    r.name == FromWideString(name) && r.address == FromWideString(address)
  }

  datatype LinkRow = LinkRow(owner: nat, target: nat, comment: Narrow)

  datatype Tables = Tables(avatars: seq<AvatarRow>, friends: seq<LinkRow>, ignores: seq<LinkRow>, lastId: nat)
  {
    /** The primary keys in the avatar table. */
    ghost function Ids(): set<nat> {
      StoredIds(avatars)
    }

    /** Keys and foreign keys of the schema. */
    ghost predicate Keyed() {
      && AvatarsKeyed(avatars, lastId)
      && LinksKeyed(friends, Ids())
      && LinksKeyed(ignores, Ids())
      && Uncommented(ignores)
    }
  }

  /** Ids are unique and no later than the last one handed out; so is every (name, address). */
  ghost predicate AvatarsKeyed(avatars: seq<AvatarRow>, lastId: nat) {
    && (forall i, j :: 0 <= i < j < |avatars| ==> avatars[i].id != avatars[j].id)
    && (forall i, j :: 0 <= i < j < |avatars| ==>
          avatars[i].name != avatars[j].name || avatars[i].address != avatars[j].address)
    && (forall i :: 0 <= i < |avatars| ==> avatars[i].id <= lastId)
  }

  /** Links join stored avatars, and no (owner, target) occurs twice. */
  ghost predicate LinksKeyed(rows: seq<LinkRow>, stored: set<nat>) {
    && (forall i :: 0 <= i < |rows| ==> rows[i].owner in stored && rows[i].target in stored)
    && (forall i, j :: 0 <= i < j < |rows| ==> rows[i].owner != rows[j].owner || rows[i].target != rows[j].target)
  }

  ghost predicate Uncommented(rows: seq<LinkRow>) {
    forall i :: 0 <= i < |rows| ==> rows[i].comment == []
  }

  ghost function StoredIds(avatars: seq<AvatarRow>): set<nat> {
    if avatars == [] then {} else StoredIds(avatars[..|avatars| - 1]) + {avatars[|avatars| - 1].id}
  }

  lemma {:induction false} StoredIdsHold(avatars: seq<AvatarRow>, id: nat)
    ensures id in StoredIds(avatars) <==> exists i :: 0 <= i < |avatars| && avatars[i].id == id
  {
    if avatars != [] {
      StoredIdsHold(avatars[..|avatars| - 1], id);
    }
  }

  /** SELECT ... WHERE avatar_id = owner */
  function RowsOf(rows: seq<LinkRow>, owner: nat): (found: seq<LinkRow>)
    ensures forall r :: r in found <==> r in rows && r.owner == owner
  {
    if rows == [] then []
    else
      var last := rows[|rows| - 1];
      assert rows == rows[..|rows| - 1] + [last];
      var found := RowsOf(rows[..|rows| - 1], owner);
      if last.owner == owner then found + [last] else found
  }

  /** DELETE ... WHERE avatar_id = owner AND target = target */
  function DeleteLink(rows: seq<LinkRow>, owner: nat, target: nat): (kept: seq<LinkRow>)
    ensures forall r :: r in kept <==> r in rows && !(r.owner == owner && r.target == target)
  {
    if rows == [] then []
    else
      var last := rows[|rows| - 1];
      assert rows == rows[..|rows| - 1] + [last];
      var kept := DeleteLink(rows[..|rows| - 1], owner, target);
      if last.owner == owner && last.target == target then kept else kept + [last]
  }

  /** ON DELETE CASCADE: what is left of a link table once avatar `id` is gone. */
  function Cascade(rows: seq<LinkRow>, id: nat): (kept: seq<LinkRow>)
    ensures forall r :: r in kept <==> r in rows && r.owner != id && r.target != id
  {
    if rows == [] then []
    else
      var last := rows[|rows| - 1];
      assert rows == rows[..|rows| - 1] + [last];
      var kept := Cascade(rows[..|rows| - 1], id);
      if last.owner == id || last.target == id then kept else kept + [last]
  }

  function Revised(row: LinkRow, owner: nat, target: nat, comment: Narrow): LinkRow {
    if row.owner == owner && row.target == target then row.(comment := comment) else row
  }

  /** UPDATE ... SET comment = comment WHERE avatar_id = owner AND target = target */
  function SetComment(rows: seq<LinkRow>, owner: nat, target: nat, comment: Narrow): (updated: seq<LinkRow>)
    ensures |updated| == |rows|
    ensures forall i :: 0 <= i < |rows| ==> updated[i] == Revised(rows[i], owner, target, comment)
  {
    seq(|rows|, i requires 0 <= i < |rows| => Revised(rows[i], owner, target, comment))
  }

  /** The rows of one owner's list that do not name `target`. */
  function WithoutTarget(rows: seq<LinkRow>, target: nat): (kept: seq<LinkRow>)
    ensures forall r :: r in kept <==> r in rows && r.target != target
  {
    if rows == [] then []
    else
      var last := rows[|rows| - 1];
      assert rows == rows[..|rows| - 1] + [last];
      var kept := WithoutTarget(rows[..|rows| - 1], target);
      if last.target == target then kept else kept + [last]
  }

  ghost predicate DistinctTargets(rows: seq<LinkRow>) {
    forall i, j :: 0 <= i < j < |rows| ==> rows[i].target != rows[j].target
  }

  lemma {:induction false} RowsOfDeleteLink(rows: seq<LinkRow>, owner: nat, target: nat, other: nat)
    ensures RowsOf(DeleteLink(rows, owner, target), other)
         == if other == owner then WithoutTarget(RowsOf(rows, owner), target) else RowsOf(rows, other)
  {
    if rows != [] {
      var front, last := rows[..|rows| - 1], rows[|rows| - 1];
      RowsOfDeleteLink(front, owner, target, other);
      var kept, mine := DeleteLink(front, owner, target), RowsOf(front, owner);
      assert (kept + [last])[..|kept|] == kept;
      assert (mine + [last])[..|mine|] == mine;
    }
  }

  lemma {:induction false} RowsOfCascade(rows: seq<LinkRow>, id: nat, other: nat)
    ensures RowsOf(Cascade(rows, id), other)
         == if other == id then [] else WithoutTarget(RowsOf(rows, other), id)
  {
    if rows != [] {
      var front, last := rows[..|rows| - 1], rows[|rows| - 1];
      RowsOfCascade(front, id, other);
      var kept, mine := Cascade(front, id), RowsOf(front, other);
      assert (kept + [last])[..|kept|] == kept;
      assert (mine + [last])[..|mine|] == mine;
    }
  }

  lemma RowsOfInsert(rows: seq<LinkRow>, row: LinkRow, other: nat)
    ensures RowsOf(rows + [row], other)
         == if row.owner == other then RowsOf(rows, other) + [row] else RowsOf(rows, other)
  {
    assert (rows + [row])[..|rows|] == rows;
  }

  lemma NoRowsAtAll(owner: nat, target: nat, comment: Narrow, other: nat)
    ensures RowsOf(SetComment([], owner, target, comment), other) == []
    ensures SetComment(RowsOf([], other), owner, target, comment) == []
  {
  }

  lemma SetCommentOfOneMore(rows: seq<LinkRow>, row: LinkRow, owner: nat, target: nat, comment: Narrow)
    ensures SetComment(rows + [row], owner, target, comment)
         == SetComment(rows, owner, target, comment) + [Revised(row, owner, target, comment)]
  {
  }

  lemma {:induction false} RowsOfSetComment(rows: seq<LinkRow>, owner: nat, target: nat, comment: Narrow, other: nat)
    ensures RowsOf(SetComment(rows, owner, target, comment), other)
         == SetComment(RowsOf(rows, other), owner, target, comment)
  {
    hide RowsOf, SetComment;
    if rows == [] {
      NoRowsAtAll(owner, target, comment, other);
    } else {
      var front, last := rows[..|rows| - 1], rows[|rows| - 1];
      RowsOfSetComment(front, owner, target, comment, other);
      assert rows == front + [last];
      SetCommentOfOneMore(front, last, owner, target, comment);
      SetCommentOfOneMore(RowsOf(front, other), last, owner, target, comment);
      RowsOfInsert(front, last, other);
      RowsOfInsert(SetComment(front, owner, target, comment), Revised(last, owner, target, comment), other);
    }
  }

  lemma NoRowsWithoutOwner(rows: seq<LinkRow>, owner: nat)
    ensures (forall r :: r in rows ==> r.owner != owner) <==> RowsOf(rows, owner) == []
  {
    var found := RowsOf(rows, owner);
    assert found != [] ==> found[0] in found;
    assert forall r :: r in rows && r.owner == owner ==> r in found;
  }

  lemma {:induction false} RowsOfAreDistinct(rows: seq<LinkRow>, stored: set<nat>, owner: nat)
    requires LinksKeyed(rows, stored)
    ensures DistinctTargets(RowsOf(rows, owner))
  {
    if rows != [] {
      var front, last := rows[..|rows| - 1], rows[|rows| - 1];
      RowsOfAreDistinct(front, stored, owner);
      var mine := RowsOf(front, owner);
      forall i | 0 <= i < |mine| && last.owner == owner ensures mine[i].target != last.target {
        assert mine[i] in mine;
      }
    }
  }

  lemma {:induction false} WithoutTargetOfAbsent(rows: seq<LinkRow>, target: nat)
    requires forall r :: r in rows ==> r.target != target
    ensures WithoutTarget(rows, target) == rows
  {
    if rows != [] {
      var front, last := rows[..|rows| - 1], rows[|rows| - 1];
      assert rows == front + [last];
      assert last in rows;
      WithoutTargetOfAbsent(front, target);
    }
  }

  lemma {:induction false} DeletingKeepsKeys(rows: seq<LinkRow>, stored: set<nat>, owner: nat, target: nat)
    requires LinksKeyed(rows, stored)
    ensures LinksKeyed(DeleteLink(rows, owner, target), stored)
    ensures Uncommented(rows) ==> Uncommented(DeleteLink(rows, owner, target))
  {
    if rows != [] {
      var front, last := rows[..|rows| - 1], rows[|rows| - 1];
      DeletingKeepsKeys(front, stored, owner, target);
      var kept := DeleteLink(front, owner, target);
      forall i | 0 <= i < |kept| ensures kept[i].owner != last.owner || kept[i].target != last.target {
        assert kept[i] in kept;
      }
      if !(last.owner == owner && last.target == target) {
        KeyedWithLink(kept, stored, last);
      }
    }
  }

  lemma KeyedWithLink(rows: seq<LinkRow>, stored: set<nat>, row: LinkRow)
    requires LinksKeyed(rows, stored) && row.owner in stored && row.target in stored
    requires forall i :: 0 <= i < |rows| ==> rows[i].owner != row.owner || rows[i].target != row.target
    ensures LinksKeyed(rows + [row], stored)
  {
  }

  lemma {:induction false} DeletingAbsentLink(rows: seq<LinkRow>, owner: nat, target: nat)
    requires forall r :: r in RowsOf(rows, owner) ==> r.target != target
    ensures DeleteLink(rows, owner, target) == rows
  {
    if rows != [] {
      var front, last := rows[..|rows| - 1], rows[|rows| - 1];
      assert rows == front + [last];
      assert last.owner == owner ==> last in RowsOf(rows, owner);
      assert forall r :: r in RowsOf(front, owner) ==> r in RowsOf(rows, owner);
      DeletingAbsentLink(front, owner, target);
    }
  }

  lemma {:induction false} CascadingKeepsKeys(rows: seq<LinkRow>, stored: set<nat>, id: nat)
    requires LinksKeyed(rows, stored)
    ensures LinksKeyed(Cascade(rows, id), stored - {id})
    ensures Uncommented(rows) ==> Uncommented(Cascade(rows, id))
  {
    if rows != [] {
      var front, last := rows[..|rows| - 1], rows[|rows| - 1];
      CascadingKeepsKeys(front, stored, id);
      var kept := Cascade(front, id);
      forall i | 0 <= i < |kept| ensures kept[i].owner != last.owner || kept[i].target != last.target {
        assert kept[i] in kept;
      }
      if last.owner != id && last.target != id {
        KeyedWithLink(kept, stored - {id}, last);
      }
    }
  }

  lemma InsertingKeepsKeys(rows: seq<LinkRow>, stored: set<nat>, row: LinkRow)
    requires LinksKeyed(rows, stored) && row.owner in stored && row.target in stored
    requires forall r :: r in RowsOf(rows, row.owner) ==> r.target != row.target
    ensures LinksKeyed(rows + [row], stored)
  {
    forall i | 0 <= i < |rows| ensures rows[i].owner != row.owner || rows[i].target != row.target {
      assert rows[i] in rows;
    }
  }

  lemma DeletingChangesOneOwner(rows: seq<LinkRow>, owner: nat, target: nat)
    ensures forall o :: o != owner ==> RowsOf(DeleteLink(rows, owner, target), o) == RowsOf(rows, o)
    ensures RowsOf(DeleteLink(rows, owner, target), owner) == WithoutTarget(RowsOf(rows, owner), target)
  {
    forall o | o != owner ensures RowsOf(DeleteLink(rows, owner, target), o) == RowsOf(rows, o) {
      RowsOfDeleteLink(rows, owner, target, o);
    }
    RowsOfDeleteLink(rows, owner, target, owner);
  }

  lemma InsertingChangesOneOwner(rows: seq<LinkRow>, row: LinkRow)
    ensures forall o :: o != row.owner ==> RowsOf(rows + [row], o) == RowsOf(rows, o)
    ensures RowsOf(rows + [row], row.owner) == RowsOf(rows, row.owner) + [row]
  {
    forall o | o != row.owner ensures RowsOf(rows + [row], o) == RowsOf(rows, o) {
      RowsOfInsert(rows, row, o);
    }
    RowsOfInsert(rows, row, row.owner);
  }

  lemma UpdatingChangesOneOwner(rows: seq<LinkRow>, owner: nat, target: nat, comment: Narrow)
    ensures forall o :: o != owner ==> RowsOf(SetComment(rows, owner, target, comment), o) == RowsOf(rows, o)
    ensures RowsOf(SetComment(rows, owner, target, comment), owner)
        == SetComment(RowsOf(rows, owner), owner, target, comment)
  {
    forall o | o != owner ensures RowsOf(SetComment(rows, owner, target, comment), o) == RowsOf(rows, o) {
      RowsOfSetComment(rows, owner, target, comment, o);
      var mine := RowsOf(rows, o);
      assert forall i :: 0 <= i < |mine| ==> mine[i] in mine;
      assert SetComment(mine, owner, target, comment) == mine;
    }
    RowsOfSetComment(rows, owner, target, comment, owner);
  }

  lemma OneRowPerKey(db: Tables, q: AvatarRow, r: AvatarRow)
    requires db.Keyed() && q in db.avatars && r in db.avatars
    ensures q.id == r.id ==> q == r
    ensures q.name == r.name && q.address == r.address ==> q == r
  {
    var k :| 0 <= k < |db.avatars| && db.avatars[k] == q;
    var m :| 0 <= m < |db.avatars| && db.avatars[m] == r;
  }

  lemma LinksKeyedInMore(rows: seq<LinkRow>, stored: set<nat>, more: set<nat>)
    requires LinksKeyed(rows, stored) && stored <= more
    ensures LinksKeyed(rows, more)
  {
  }

  lemma UnstoredHasNoRows(rows: seq<LinkRow>, stored: set<nat>, id: nat)
    requires LinksKeyed(rows, stored) && id !in stored
    ensures RowsOf(rows, id) == []
  {
    NoRowsWithoutOwner(rows, id);
  }

  lemma NewIdIsUnused(avatars: seq<AvatarRow>, lastId: nat, row: AvatarRow)
    requires AvatarsKeyed(avatars, lastId) && row.id == lastId + 1
    requires forall r :: r in avatars ==> r.name != row.name || r.address != row.address
    ensures AvatarsKeyed(avatars + [row], row.id)
    ensures row.id !in StoredIds(avatars) && StoredIds(avatars + [row]) == StoredIds(avatars) + {row.id}
  {
    assert (avatars + [row])[..|avatars|] == avatars;
    StoredIdsHold(avatars, row.id);
    forall i | 0 <= i < |avatars| ensures avatars[i].name != row.name || avatars[i].address != row.address {
      assert avatars[i] in avatars;
    }
  }

  lemma InsertingAvatarKeepsKeys(db: Tables, row: AvatarRow)
    requires db.Keyed() && row.id == db.lastId + 1
    requires forall r :: r in db.avatars ==> r.name != row.name || r.address != row.address
    ensures var after := db.(avatars := db.avatars + [row], lastId := row.id);
            after.Keyed() && after.Ids() == db.Ids() + {row.id}
    ensures row.id !in db.Ids() && RowsOf(db.friends, row.id) == [] && RowsOf(db.ignores, row.id) == []
  {
    NewIdIsUnused(db.avatars, db.lastId, row);
    LinksKeyedInMore(db.friends, db.Ids(), db.Ids() + {row.id});
    LinksKeyedInMore(db.ignores, db.Ids(), db.Ids() + {row.id});
    UnstoredHasNoRows(db.friends, db.Ids(), row.id);
    UnstoredHasNoRows(db.ignores, db.Ids(), row.id);
  }

  /** DELETE FROM avatar WHERE id = id */
  function DeleteRow(avatars: seq<AvatarRow>, id: nat): (kept: seq<AvatarRow>)
    ensures forall r :: r in kept <==> r in avatars && r.id != id
  {
    if avatars == [] then []
    else
      var last := avatars[|avatars| - 1];
      assert avatars == avatars[..|avatars| - 1] + [last];
      var kept := DeleteRow(avatars[..|avatars| - 1], id);
      if last.id == id then kept else kept + [last]
  }

  function Deleted(db: Tables, id: nat): Tables {
    db.(avatars := DeleteRow(db.avatars, id), friends := Cascade(db.friends, id), ignores := Cascade(db.ignores, id))
  }

  lemma {:induction false} DeletingRowKeepsKeys(avatars: seq<AvatarRow>, lastId: nat, id: nat)
    requires AvatarsKeyed(avatars, lastId)
    ensures AvatarsKeyed(DeleteRow(avatars, id), lastId)
  {
    if avatars != [] {
      var front, last := avatars[..|avatars| - 1], avatars[|avatars| - 1];
      DeletingRowKeepsKeys(front, lastId, id);
      var kept := DeleteRow(front, id);
      forall i | 0 <= i < |kept| ensures kept[i].id != last.id
          && (kept[i].name != last.name || kept[i].address != last.address) {
        assert kept[i] in kept;
        var k :| 0 <= k < |front| && front[k] == kept[i];
        assert avatars[k] == front[k];
      }
      KeyedWithRow(kept, lastId, last);
    }
  }

  lemma KeyedWithRow(avatars: seq<AvatarRow>, lastId: nat, row: AvatarRow)
    requires AvatarsKeyed(avatars, lastId) && row.id <= lastId
    requires forall i :: 0 <= i < |avatars| ==>
               avatars[i].id != row.id && (avatars[i].name != row.name || avatars[i].address != row.address)
    ensures AvatarsKeyed(avatars + [row], lastId)
  {
  }

  lemma DeletingRowRemovesId(avatars: seq<AvatarRow>, id: nat)
    ensures StoredIds(DeleteRow(avatars, id)) == StoredIds(avatars) - {id}
  {
    var kept := DeleteRow(avatars, id);
    forall n ensures n in StoredIds(kept) <==> n in StoredIds(avatars) && n != id {
      StoredIdsHold(avatars, n);
      StoredIdsHold(kept, n);
      if i :| 0 <= i < |avatars| && avatars[i].id == n && n != id {
        assert avatars[i] in kept;
      }
      if i :| 0 <= i < |kept| && kept[i].id == n {
        assert kept[i] in avatars;
      }
    }
  }

  lemma DeletedIsKeyed(db: Tables, id: nat)
    requires db.Keyed()
    ensures Deleted(db, id).Keyed() && Deleted(db, id).Ids() == db.Ids() - {id}
  {
    DeletingRowKeepsKeys(db.avatars, db.lastId, id);
    DeletingRowRemovesId(db.avatars, id);
    CascadingKeepsKeys(db.friends, db.Ids(), id);
    CascadingKeepsKeys(db.ignores, db.Ids(), id);
  }
}
