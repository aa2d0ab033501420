// The requests of a run, and what a whole run of them comes to in the tables and in the list of who is online,
// said of the requests and the initial state alone.
module AvatarRequests {
  import opened StringUtils
  import opened AvatarTables

  datatype Action =
    | AddFriend(comment: Wide)
    | RemoveFriend
    | UpdateFriendComment(comment: Wide)
    | AddIgnore
    | RemoveIgnore

  datatype Request =
    | Find(name: Wide, address: Wide)
    | Create(name: Wide, address: Wide, userId: nat, attributes: nat, location: Wide)
    | Act(owner: nat, target: nat, action: Action)
    | LogIn(id: nat)
    | LogOut(id: nat)
    | Destroy(id: nat, allowed: bool)
  {
    predicate Destroys(avatarId: nat) {
      Destroy? && id == avatarId
    }

    predicate ActsOn(owner: nat, target: nat) {
      Act? && this.owner == owner && this.target == target
    }
  }

  ghost predicate DestroyedIn(requests: seq<Request>, id: nat) {
    exists i :: 0 <= i < |requests| && requests[i].Destroys(id)
  }

  predicate SafeRequest(r: Request) {
    match r
    case Find(name, address) => NarrowSafe(name) && NarrowSafe(address)
    case Create(name, address, _, _, _) => NarrowSafe(name) && NarrowSafe(address)
    case _ => true
  }

  // ----- one request -----

  /** The tables, and the ids of the avatars online. */
  datatype Books = Books(db: Tables, online: set<nat>)

  ghost predicate Linked(rows: seq<LinkRow>, owner: nat, target: nat) {
    exists r :: r in rows && r.owner == owner && r.target == target
  }

  ghost predicate NamedByAnother(db: Tables, id: nat) {
    exists r :: (r in db.friends || r in db.ignores) && r.target == id && r.owner != id
  }

  /** Which answers a request may get: found, created, both avatars stored, destroyed. A destruction may be
      refused while another avatar has a row for the one to be destroyed. */
  ghost predicate Answers(b: Books, r: Request, done: bool) {
    match r
    case Find(name, address) => done <==> exists row :: row in b.db.avatars && StoredAs(row, name, address)
    case Create(name, address, _, _, _) => done <==> forall row :: row in b.db.avatars ==> !StoredAs(row, name, address)
    case Act(owner, target, _) => done <==> owner in b.db.Ids() && target in b.db.Ids()
    case LogIn(id) => done <==> id in b.db.Ids()
    case LogOut(id) => done <==> id in b.db.Ids()
    case Destroy(id, allowed) =>
      && (done ==> id in b.db.Ids() && allowed)
      && (id in b.db.Ids() && allowed && !NamedByAnother(b.db, id) ==> done)
  }

  ghost function ActedOn(db: Tables, owner: nat, target: nat, action: Action): Tables {
    match action
    case AddFriend(comment) =>
      if Linked(db.friends, owner, target) then db
      else db.(friends := db.friends + [LinkRow(owner, target, FromWideString(comment))],
               ignores := DeleteLink(db.ignores, owner, target))
    case RemoveFriend => db.(friends := DeleteLink(db.friends, owner, target))
    case UpdateFriendComment(comment) =>
      db.(friends := SetComment(db.friends, owner, target, FromWideString(comment)))
    case AddIgnore =>
      if Linked(db.ignores, owner, target) then db
      else db.(ignores := db.ignores + [LinkRow(owner, target, [])],
               friends := DeleteLink(db.friends, owner, target))
    case RemoveIgnore => db.(ignores := DeleteLink(db.ignores, owner, target))
  }

  /** What a request that is carried out leaves; any other changes nothing. */
  ghost function CarriedOut(b: Books, r: Request, done: bool): Books {
    if !done then b
    else
      match r
      case Find(_, _) => b
      case Create(name, address, userId, attributes, _) =>
        b.(db := b.db.(
             avatars := b.db.avatars
               + [AvatarRow(b.db.lastId + 1, userId, FromWideString(name), FromWideString(address), attributes)],
             lastId := b.db.lastId + 1))
      case Act(owner, target, action) => b.(db := ActedOn(b.db, owner, target, action))
      case LogIn(id) => b.(online := b.online + {id})
      case LogOut(id) => b.(online := b.online - {id})
      case Destroy(id, _) => Books(Deleted(b.db, id), b.online - {id})
  }

  // ----- whole runs -----

  /** The books after the first `n` requests. */
  ghost function AfterRequests(b: Books, requests: seq<Request>, done: seq<bool>, n: nat): Books
    requires n <= |requests| == |done|
  {
    if n == 0 then b else CarriedOut(AfterRequests(b, requests, done, n - 1), requests[n - 1], done[n - 1])
  }

  /** Every request got an answer it may get. */
  ghost predicate AnsweredRightly(b: Books, requests: seq<Request>, done: seq<bool>)
    requires |requests| == |done|
  {
    forall k :: 0 <= k < |requests| ==> AnsweredAt(b, requests, done, k)
  }

  ghost predicate AnsweredAt(b: Books, requests: seq<Request>, done: seq<bool>, k: nat)
    requires k < |requests| == |done|
  {
    Answers(AfterRequests(b, requests, done, k), requests[k], done[k])
  }

  lemma {:induction false} SamePrefix(b: Books, requests: seq<Request>, done: seq<bool>, r: Request, answer: bool,
      n: nat)
    requires n <= |requests| == |done|
    ensures AfterRequests(b, requests + [r], done + [answer], n) == AfterRequests(b, requests, done, n)
  {
    if n > 0 {
      SamePrefix(b, requests, done, r, answer, n - 1);
    }
  }

  /** A run answered rightly, and one request more. */
  lemma OneRequestMore(b: Books, requests: seq<Request>, done: seq<bool>, r: Request, answer: bool)
    requires |requests| == |done| && AnsweredRightly(b, requests, done)
    requires Answers(AfterRequests(b, requests, done, |requests|), r, answer)
    ensures AfterRequests(b, requests + [r], done + [answer], |requests| + 1)
         == CarriedOut(AfterRequests(b, requests, done, |requests|), r, answer)
    ensures AnsweredRightly(b, requests + [r], done + [answer])
  {
    hide CarriedOut, Answers;
    SamePrefix(b, requests, done, r, answer, |requests|);
    forall k | 0 <= k < |requests| + 1 ensures AnsweredAt(b, requests + [r], done + [answer], k) {
      SamePrefix(b, requests, done, r, answer, k);
      assert k < |requests| ==> AnsweredAt(b, requests, done, k);
    }
  }

  // ----- what begins and ends a fact -----

  datatype Mark = Begins | Ends | Neither

  /** The last of the first `n` marks that is one decides; before that it is as it was. */
  function Holds(init: bool, marks: seq<Mark>, n: nat): bool
    requires n <= |marks|
  {
    if n == 0 then init
    else if marks[n - 1] == Neither then Holds(init, marks, n - 1)
    else marks[n - 1] == Begins
  }

  ghost predicate HeldFrom(init: bool, marks: seq<Mark>, k: nat, n: nat)
    requires n <= |marks|
  {
    k <= n && (if k == 0 then init else marks[k - 1] == Begins) && forall j :: k <= j < n ==> marks[j] != Ends
  }

  /** A fact holds exactly if it held to begin with or was begun at some point, and nothing has ended it since. */
  lemma {:induction false} HoldsExactly(init: bool, marks: seq<Mark>, n: nat)
    requires n <= |marks|
    ensures Holds(init, marks, n) <==> exists k: nat :: HeldFrom(init, marks, k, n)
  {
    if n == 0 {
      assert HeldFrom(init, marks, 0, 0) <==> init;
    } else {
      var m := n - 1;
      HoldsExactly(init, marks, m);
      if marks[m] != Ends {
        if k: nat :| HeldFrom(init, marks, k, m) {
          assert HeldFrom(init, marks, k, n);
        }
      }
      if k: nat :| HeldFrom(init, marks, k, n) && k < n {
        assert HeldFrom(init, marks, k, m);
      }
      assert marks[m] == Begins ==> HeldFrom(init, marks, n, n);
    }
  }

  // ----- friends and ignores of one pair -----

  /** The request takes a row of the pair away, or destroys one of the two. */
  predicate Separates(r: Request, done: bool, owner: nat, target: nat) {
    done && ((r.ActsOn(owner, target) && (r.action.RemoveFriend? || r.action.RemoveIgnore?))
             || r.Destroys(owner) || r.Destroys(target))
  }

  /** The pair had both a friend and an ignore row to begin with, and nothing before request `n` has taken one
      away. Only then do AddFriend and AddIgnore leave the other row alone. */
  ghost predicate Overlaps(b: Books, requests: seq<Request>, done: seq<bool>, n: nat, owner: nat, target: nat)
    requires n <= |requests| == |done|
  {
    && Linked(b.db.friends, owner, target) && Linked(b.db.ignores, owner, target)
    && forall i :: 0 <= i < n ==> !Separates(requests[i], done[i], owner, target)
  }

  /** What request `j` means for the friend row of the pair. */
  ghost function FriendMark(b: Books, requests: seq<Request>, done: seq<bool>, owner: nat, target: nat, j: nat): Mark
    requires j < |requests| == |done|
  {
    var r := requests[j];
    if !done[j] then Neither
    else if r.Destroys(owner) || r.Destroys(target) then Ends
    else if !r.ActsOn(owner, target) then Neither
    else
      match r.action
      case AddFriend(_) => Begins
      case RemoveFriend => Ends
      case AddIgnore => if Overlaps(b, requests, done, j, owner, target) then Neither else Ends
      case _ => Neither
  }

  ghost function IgnoreMark(b: Books, requests: seq<Request>, done: seq<bool>, owner: nat, target: nat, j: nat): Mark
    requires j < |requests| == |done|
  {
    var r := requests[j];
    if !done[j] then Neither
    else if r.Destroys(owner) || r.Destroys(target) then Ends
    else if !r.ActsOn(owner, target) then Neither
    else
      match r.action
      case AddIgnore => Begins
      case RemoveIgnore => Ends
      case AddFriend(_) => if Overlaps(b, requests, done, j, owner, target) then Neither else Ends
      case _ => Neither
  }

  ghost function FriendMarks(b: Books, requests: seq<Request>, done: seq<bool>, owner: nat, target: nat): (m: seq<Mark>)
    requires |requests| == |done|
    ensures |m| == |requests| && forall j :: 0 <= j < |m| ==> m[j] == FriendMark(b, requests, done, owner, target, j)
  {
    seq(|requests|, j requires 0 <= j < |requests| => FriendMark(b, requests, done, owner, target, j))
  }

  ghost function IgnoreMarks(b: Books, requests: seq<Request>, done: seq<bool>, owner: nat, target: nat): (m: seq<Mark>)
    requires |requests| == |done|
    ensures |m| == |requests| && forall j :: 0 <= j < |m| ==> m[j] == IgnoreMark(b, requests, done, owner, target, j)
  {
    seq(|requests|, j requires 0 <= j < |requests| => IgnoreMark(b, requests, done, owner, target, j))
  }

  lemma LinkedAfterDelete(rows: seq<LinkRow>, owner: nat, target: nat, o: nat, t: nat)
    ensures Linked(DeleteLink(rows, owner, target), o, t) <==> Linked(rows, o, t) && !(owner == o && target == t)
  {
    if r :| r in rows && r.owner == o && r.target == t && !(owner == o && target == t) {
      assert r in DeleteLink(rows, owner, target);
    }
  }

  lemma LinkedAfterInsert(rows: seq<LinkRow>, row: LinkRow, o: nat, t: nat)
    ensures Linked(rows + [row], o, t) <==> Linked(rows, o, t) || (row.owner == o && row.target == t)
  {
    if r :| r in rows && r.owner == o && r.target == t {
      assert r in rows + [row];
    }
    assert row in rows + [row];
  }

  lemma LinkedAfterCascade(rows: seq<LinkRow>, id: nat, o: nat, t: nat)
    ensures Linked(Cascade(rows, id), o, t) <==> Linked(rows, o, t) && o != id && t != id
  {
    if r :| r in rows && r.owner == o && r.target == t && o != id && t != id {
      assert r in Cascade(rows, id);
    }
  }

  /** A row of the pair has the comment after an UPDATE if it had it and is not of the pair revised, or if it is and
      the new comment is this one. */
  lemma RowAfterSetComment(rows: seq<LinkRow>, owner: nat, target: nat, comment: Narrow, row: LinkRow)
    ensures row in SetComment(rows, owner, target, comment) <==>
      if row.owner == owner && row.target == target then Linked(rows, owner, target) && row.comment == comment
      else row in rows
  {
    var updated := SetComment(rows, owner, target, comment);
    if r :| r in rows && r.owner == owner && r.target == target {
      var i :| 0 <= i < |rows| && rows[i] == r;
      assert updated[i] == LinkRow(owner, target, comment);
    }
    if row in rows && !(row.owner == owner && row.target == target) {
      var i :| 0 <= i < |rows| && rows[i] == row;
      assert updated[i] == row;
    }
    if row in updated {
      var i :| 0 <= i < |updated| && updated[i] == row;
      assert rows[i] in rows;
    }
  }

  lemma LinkedAfterSetComment(rows: seq<LinkRow>, owner: nat, target: nat, comment: Narrow, o: nat, t: nat)
    ensures Linked(SetComment(rows, owner, target, comment), o, t) <==> Linked(rows, o, t)
  {
    var updated := SetComment(rows, owner, target, comment);
    if r :| r in rows && r.owner == o && r.target == t {
      var i :| 0 <= i < |rows| && rows[i] == r;
      assert updated[i] in updated;
    }
    if r :| r in updated && r.owner == o && r.target == t {
      var i :| 0 <= i < |updated| && updated[i] == r;
      assert rows[i] in rows;
    }
  }

  /** What one action does to the rows of a pair. */
  lemma LinkedAfterAction(db: Tables, owner: nat, target: nat, action: Action, o: nat, t: nat)
    ensures var (after, here) := (ActedOn(db, owner, target, action), owner == o && target == t);
            && (Linked(after.friends, o, t) <==>
                  if !here then Linked(db.friends, o, t)
                  else if action.AddFriend? then true
                  else if action.RemoveFriend? then false
                  else if action.AddIgnore? then Linked(db.friends, o, t) && Linked(db.ignores, o, t)
                  else Linked(db.friends, o, t))
            && (Linked(after.ignores, o, t) <==>
                  if !here then Linked(db.ignores, o, t)
                  else if action.AddIgnore? then true
                  else if action.RemoveIgnore? then false
                  else if action.AddFriend? then Linked(db.friends, o, t) && Linked(db.ignores, o, t)
                  else Linked(db.ignores, o, t))
  {
    hide Linked, DeleteLink, SetComment;
    LinkedAfterDelete(db.friends, owner, target, o, t);
    LinkedAfterDelete(db.ignores, owner, target, o, t);
    match action
    case AddFriend(comment) => LinkedAfterInsert(db.friends, LinkRow(owner, target, FromWideString(comment)), o, t);
    case UpdateFriendComment(comment) =>
      LinkedAfterSetComment(db.friends, owner, target, FromWideString(comment), o, t);
    case AddIgnore => LinkedAfterInsert(db.ignores, LinkRow(owner, target, []), o, t);
    case _ =>
  }

  /** The pair's rows after one request more. */
  ghost predicate PairFollows(b: Books, requests: seq<Request>, done: seq<bool>, owner: nat, target: nat, n: nat)
    requires n <= |requests| == |done|
  {
    var db := AfterRequests(b, requests, done, n).db;
    && (Linked(db.friends, owner, target)
        <==> Holds(Linked(b.db.friends, owner, target), FriendMarks(b, requests, done, owner, target), n))
    && (Linked(db.ignores, owner, target)
        <==> Holds(Linked(b.db.ignores, owner, target), IgnoreMarks(b, requests, done, owner, target), n))
    && (Linked(db.friends, owner, target) && Linked(db.ignores, owner, target)
        <==> Overlaps(b, requests, done, n, owner, target))
  }

  lemma LinkedAfterRequest(b: Books, r: Request, done: bool, o: nat, t: nat)
    ensures var (db, after) := (b.db, CarriedOut(b, r, done).db);
            && (!done || r.Find? || r.Create? || r.LogIn? || r.LogOut? ==>
                  after.friends == db.friends && after.ignores == db.ignores)
            && (done && r.Destroy? ==>
                  && (Linked(after.friends, o, t) <==> Linked(db.friends, o, t) && o != r.id && t != r.id)
                  && (Linked(after.ignores, o, t) <==> Linked(db.ignores, o, t) && o != r.id && t != r.id))
            && (done && r.Act? ==> after == ActedOn(db, r.owner, r.target, r.action))
  {
    hide Linked, Cascade, ActedOn;
    if r.Destroy? {
      LinkedAfterCascade(b.db.friends, r.id, o, t);
      LinkedAfterCascade(b.db.ignores, r.id, o, t);
    }
  }

  lemma OverlapsNext(b: Books, requests: seq<Request>, done: seq<bool>, n: nat, o: nat, t: nat)
    requires n < |requests| == |done|
    ensures Overlaps(b, requests, done, n + 1, o, t)
       <==> Overlaps(b, requests, done, n, o, t) && !Separates(requests[n], done[n], o, t)
  {
  }

  lemma PairFollowsNext(b: Books, requests: seq<Request>, done: seq<bool>, o: nat, t: nat, n: nat)
    requires n < |requests| == |done| && PairFollows(b, requests, done, o, t, n)
    ensures PairFollows(b, requests, done, o, t, n + 1)
  {
    hide Linked, Overlaps, CarriedOut, ActedOn;
    var before, r := AfterRequests(b, requests, done, n), requests[n];
    OverlapsNext(b, requests, done, n, o, t);
    LinkedAfterRequest(before, r, done[n], o, t);
    if r.Act? {
      LinkedAfterAction(before.db, r.owner, r.target, r.action, o, t);
    }
  }

  lemma {:induction false} PairFollowsRequests(b: Books, requests: seq<Request>, done: seq<bool>, o: nat, t: nat,
      n: nat)
    requires n <= |requests| == |done|
    ensures PairFollows(b, requests, done, o, t, n)
  {
    hide PairFollows;
    if n == 0 {
      PairFollowsAtFirst(b, requests, done, o, t);
    } else {
      PairFollowsRequests(b, requests, done, o, t, n - 1);
      PairFollowsNext(b, requests, done, o, t, n - 1);
    }
  }

  lemma PairFollowsAtFirst(b: Books, requests: seq<Request>, done: seq<bool>, o: nat, t: nat)
    requires |requests| == |done|
    ensures PairFollows(b, requests, done, o, t, 0)
  {
  }

  /** After a whole run the pair has a friend row exactly if it had one, or AddFriend was carried out, and since then
      none of RemoveFriend, AddIgnore and the destruction of either was; an ignore row likewise. An avatar that was
      both to begin with stays both until one row is taken away. */
  lemma LinkedExactly(b: Books, requests: seq<Request>, done: seq<bool>, owner: nat, target: nat)
    requires |requests| == |done|
    ensures var (n, db) := (|requests|, AfterRequests(b, requests, done, |requests|).db);
            && (Linked(db.friends, owner, target) <==> exists k: nat ::
                  HeldFrom(Linked(b.db.friends, owner, target), FriendMarks(b, requests, done, owner, target), k, n))
            && (Linked(db.ignores, owner, target) <==> exists k: nat ::
                  HeldFrom(Linked(b.db.ignores, owner, target), IgnoreMarks(b, requests, done, owner, target), k, n))
  {
    hide Linked, Holds, HeldFrom, AfterRequests;
    PairFollowsRequests(b, requests, done, owner, target, |requests|);
    HoldsExactly(Linked(b.db.friends, owner, target), FriendMarks(b, requests, done, owner, target), |requests|);
    HoldsExactly(Linked(b.db.ignores, owner, target), IgnoreMarks(b, requests, done, owner, target), |requests|);
  }

  // ----- comments -----

  /** What request `j` means for a friend row with exactly this comment. AddFriend gives a comment to no friend of
      before, UpdateFriendComment to a friend only. */
  ghost function CommentMark(b: Books, requests: seq<Request>, done: seq<bool>, row: LinkRow, j: nat): Mark
    requires j < |requests| == |done|
  {
    var r := requests[j];
    var wasFriend := Holds(Linked(b.db.friends, row.owner, row.target),
                           FriendMarks(b, requests, done, row.owner, row.target), j);
    if !done[j] || !r.ActsOn(row.owner, row.target) then FriendMark(b, requests, done, row.owner, row.target, j)
    else
      match r.action
      case AddFriend(comment) =>
        if wasFriend then Neither else if FromWideString(comment) == row.comment then Begins else Ends
      case UpdateFriendComment(comment) =>
        if !wasFriend then Neither else if FromWideString(comment) == row.comment then Begins else Ends
      case _ => FriendMark(b, requests, done, row.owner, row.target, j)
  }

  ghost function CommentMarks(b: Books, requests: seq<Request>, done: seq<bool>, row: LinkRow): (m: seq<Mark>)
    requires |requests| == |done|
    ensures |m| == |requests| && forall j :: 0 <= j < |m| ==> m[j] == CommentMark(b, requests, done, row, j)
  {
    seq(|requests|, j requires 0 <= j < |requests| => CommentMark(b, requests, done, row, j))
  }

  lemma RowAfterAction(db: Tables, owner: nat, target: nat, action: Action, row: LinkRow)
    ensures var after := ActedOn(db, owner, target, action);
            row in after.friends <==>
              if !(owner == row.owner && target == row.target) then row in db.friends
              else
                match action
                case AddFriend(comment) =>
                  if Linked(db.friends, owner, target) then row in db.friends
                  else FromWideString(comment) == row.comment
                case RemoveFriend => false
                case UpdateFriendComment(comment) =>
                  Linked(db.friends, owner, target) && FromWideString(comment) == row.comment
                case AddIgnore => row in db.friends && Linked(db.ignores, owner, target)
                case RemoveIgnore => row in db.friends
  {
    match action
    case UpdateFriendComment(comment) =>
      hide Linked, SetComment;
      RowAfterSetComment(db.friends, owner, target, FromWideString(comment), row);
    case _ =>
      RowIsLinked(db.friends, row);
  }

  lemma RowIsLinked(rows: seq<LinkRow>, row: LinkRow)
    ensures row in rows ==> Linked(rows, row.owner, row.target)
  {
  }

  lemma RowAfterRequest(b: Books, r: Request, done: bool, row: LinkRow)
    ensures var (db, after) := (b.db, CarriedOut(b, r, done).db);
            && (!done || r.Find? || r.Create? || r.LogIn? || r.LogOut? ==> after.friends == db.friends)
            && (done && r.Destroy? ==>
                  (row in after.friends <==> row in db.friends && row.owner != r.id && row.target != r.id))
            && (done && r.Act? ==> after == ActedOn(db, r.owner, r.target, r.action))
  {
    hide ActedOn;
  }

  lemma RowFollowsNext(b: Books, requests: seq<Request>, done: seq<bool>, row: LinkRow, n: nat)
    requires n < |requests| == |done|
    requires PairFollows(b, requests, done, row.owner, row.target, n)
    requires row in AfterRequests(b, requests, done, n).db.friends
        <==> Holds(row in b.db.friends, CommentMarks(b, requests, done, row), n)
    ensures row in AfterRequests(b, requests, done, n + 1).db.friends
       <==> Holds(row in b.db.friends, CommentMarks(b, requests, done, row), n + 1)
  {
    hide Linked, Overlaps, CarriedOut, ActedOn;
    var before, r := AfterRequests(b, requests, done, n), requests[n];
    RowAfterRequest(before, r, done[n], row);
    RowIsLinked(before.db.friends, row);
    if r.Act? {
      RowAfterAction(before.db, r.owner, r.target, r.action, row);
    }
  }

  lemma {:induction false} RowFollowsRequests(b: Books, requests: seq<Request>, done: seq<bool>, row: LinkRow, n: nat)
    requires n <= |requests| == |done|
    ensures row in AfterRequests(b, requests, done, n).db.friends
       <==> Holds(row in b.db.friends, CommentMarks(b, requests, done, row), n)
  {
    if n > 0 {
      hide PairFollows, CommentMarks, AfterRequests, Holds;
      RowFollowsRequests(b, requests, done, row, n - 1);
      PairFollowsRequests(b, requests, done, row.owner, row.target, n - 1);
      RowFollowsNext(b, requests, done, row, n - 1);
    }
  }

  /** After a whole run a friend row is stored exactly if it was, or the request that made the pair friends or last
      updated their comment gave it this comment, and nothing has parted them or changed the comment since. */
  lemma FriendRowExactly(b: Books, requests: seq<Request>, done: seq<bool>, row: LinkRow)
    requires |requests| == |done|
    ensures row in AfterRequests(b, requests, done, |requests|).db.friends <==>
      exists k: nat :: HeldFrom(row in b.db.friends, CommentMarks(b, requests, done, row), k, |requests|)
  {
    hide CommentMarks, AfterRequests, Holds, HeldFrom;
    RowFollowsRequests(b, requests, done, row, |requests|);
    HoldsExactly(row in b.db.friends, CommentMarks(b, requests, done, row), |requests|);
  }

  // ----- who is online -----

  function OnlineMark(r: Request, done: bool, id: nat): Mark {
    if !done then Neither
    else if r == LogIn(id) then Begins
    else if r == LogOut(id) || r.Destroys(id) then Ends
    else Neither
  }

  function OnlineMarks(requests: seq<Request>, done: seq<bool>, id: nat): (m: seq<Mark>)
    requires |requests| == |done|
    ensures |m| == |requests| && forall j :: 0 <= j < |m| ==> m[j] == OnlineMark(requests[j], done[j], id)
  {
    seq(|requests|, j requires 0 <= j < |requests| => OnlineMark(requests[j], done[j], id))
  }

  lemma {:induction false} OnlineFollowsRequests(b: Books, requests: seq<Request>, done: seq<bool>, id: nat, n: nat)
    requires n <= |requests| == |done|
    ensures id in AfterRequests(b, requests, done, n).online
       <==> Holds(id in b.online, OnlineMarks(requests, done, id), n)
  {
    if n > 0 {
      hide ActedOn, Deleted;
      OnlineFollowsRequests(b, requests, done, id, n - 1);
    }
  }

  /** After a whole run an avatar is online exactly if it was, or logged in, and has neither logged out nor been
      destroyed since. */
  lemma OnlineExactly(b: Books, requests: seq<Request>, done: seq<bool>, id: nat)
    requires |requests| == |done|
    ensures id in AfterRequests(b, requests, done, |requests|).online
       <==> exists k: nat :: HeldFrom(id in b.online, OnlineMarks(requests, done, id), k, |requests|)
  {
    OnlineFollowsRequests(b, requests, done, id, |requests|);
    HoldsExactly(id in b.online, OnlineMarks(requests, done, id), |requests|);
  }

  // ----- the avatar table -----

  /** How many of the first `n` requests created an avatar. */
  function Creations(requests: seq<Request>, done: seq<bool>, n: nat): nat
    requires n <= |requests| == |done|
  {
    if n == 0 then 0 else Creations(requests, done, n - 1) + if requests[n - 1].Create? && done[n - 1] then 1 else 0
  }

  /** The row that a creation stores: the next id, everything else as supplied, text narrowed. */
  function CreatedRow(r: Request, id: nat): AvatarRow
    requires r.Create?
  {
    AvatarRow(id, r.userId, FromWideString(r.name), FromWideString(r.address), r.attributes)
  }

  function AvatarMark(lastId: nat, requests: seq<Request>, done: seq<bool>, row: AvatarRow, j: nat): Mark
    requires j < |requests| == |done|
  {
    var r := requests[j];
    if !done[j] then Neither
    else if r.Create? then
      if row == CreatedRow(r, lastId + Creations(requests, done, j) + 1) then Begins else Neither
    else if r.Destroys(row.id) then Ends
    else Neither
  }

  function AvatarMarks(lastId: nat, requests: seq<Request>, done: seq<bool>, row: AvatarRow): (m: seq<Mark>)
    requires |requests| == |done|
    ensures |m| == |requests| && forall j :: 0 <= j < |m| ==> m[j] == AvatarMark(lastId, requests, done, row, j)
  {
    seq(|requests|, j requires 0 <= j < |requests| => AvatarMark(lastId, requests, done, row, j))
  }

  lemma {:induction false} LastIdFollowsRequests(b: Books, requests: seq<Request>, done: seq<bool>, n: nat)
    requires n <= |requests| == |done|
    ensures AfterRequests(b, requests, done, n).db.lastId == b.db.lastId + Creations(requests, done, n)
  {
    if n > 0 {
      hide Linked, DeleteLink, SetComment, Cascade, DeleteRow;
      LastIdFollowsRequests(b, requests, done, n - 1);
    }
  }

  lemma AvatarFollowsNext(b: Books, requests: seq<Request>, done: seq<bool>, row: AvatarRow, n: nat)
    requires n < |requests| == |done|
    requires row in AfterRequests(b, requests, done, n).db.avatars
        <==> Holds(row in b.db.avatars, AvatarMarks(b.db.lastId, requests, done, row), n)
    ensures row in AfterRequests(b, requests, done, n + 1).db.avatars
       <==> Holds(row in b.db.avatars, AvatarMarks(b.db.lastId, requests, done, row), n + 1)
  {
    hide Linked, DeleteLink, SetComment, Cascade;
    LastIdFollowsRequests(b, requests, done, n);
    var before, r := AfterRequests(b, requests, done, n), requests[n];
    if r.Create? {
      var made := CreatedRow(r, before.db.lastId + 1);
      assert row in before.db.avatars + [made] <==> row in before.db.avatars || row == made;
    }
  }

  lemma {:induction false} AvatarFollowsRequests(b: Books, requests: seq<Request>, done: seq<bool>, row: AvatarRow,
      n: nat)
    requires n <= |requests| == |done|
    ensures row in AfterRequests(b, requests, done, n).db.avatars
       <==> Holds(row in b.db.avatars, AvatarMarks(b.db.lastId, requests, done, row), n)
  {
    if n > 0 {
      hide AfterRequests, AvatarMarks, Holds;
      AvatarFollowsRequests(b, requests, done, row, n - 1);
      AvatarFollowsNext(b, requests, done, row, n - 1);
    }
  }

  /** After a whole run an avatar row is stored exactly if it was, or a creation made it, its id counting on from the
      last one handed out, and the avatar has not been destroyed since. */
  lemma AvatarRowExactly(b: Books, requests: seq<Request>, done: seq<bool>, row: AvatarRow)
    requires |requests| == |done|
    ensures row in AfterRequests(b, requests, done, |requests|).db.avatars <==>
      exists k: nat :: HeldFrom(row in b.db.avatars, AvatarMarks(b.db.lastId, requests, done, row), k, |requests|)
  {
    hide AfterRequests, AvatarMarks, Holds, HeldFrom;
    AvatarFollowsRequests(b, requests, done, row, |requests|);
    HoldsExactly(row in b.db.avatars, AvatarMarks(b.db.lastId, requests, done, row), |requests|);
  }
}
