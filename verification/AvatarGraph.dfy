// The directed graph the friend and ignore tables describe: an edge for every row.
module AvatarGraph {
  import opened AvatarTables

  ghost predicate Lists(db: Tables, a: nat, b: nat) {
    (exists r :: r in RowsOf(db.friends, a) && r.target == b)
        || (exists r :: r in RowsOf(db.ignores, a) && r.target == b)
  }

  ghost predicate StepAt(db: Tables, p: seq<nat>, i: nat)
    requires 0 < i < |p|
  {
    Lists(db, p[i - 1], p[i])
  }

  /** A nonempty walk through stored avatars, none of them in `avoid`. */
  ghost predicate IsWalk(db: Tables, p: seq<nat>, avoid: set<nat>) {
    && p != []
    && (forall i :: 0 <= i < |p| ==> p[i] in db.Ids() && p[i] !in avoid)
    && (forall i :: 0 < i < |p| ==> StepAt(db, p, i))
  }

  ghost predicate Reaches(db: Tables, a: nat, b: nat, avoid: set<nat>) {
    exists p :: IsWalk(db, p, avoid) && p[0] == a && p[|p| - 1] == b
  }

  lemma ReachesItself(db: Tables, a: nat, avoid: set<nat>)
    requires a in db.Ids() && a !in avoid
    ensures Reaches(db, a, a, avoid)
  {
    assert IsWalk(db, [a], avoid);
  }

  lemma NothingReachedFrom(db: Tables, a: nat, avoid: set<nat>)
    ensures a in avoid || a !in db.Ids() ==> forall b :: !Reaches(db, a, b, avoid)
  {
  }

  lemma ReachesThrough(db: Tables, a: nat, b: nat, c: nat, avoid: set<nat>, more: set<nat>)
    requires a in db.Ids() && a !in avoid && Lists(db, a, b)
    requires avoid <= more && Reaches(db, b, c, more)
    ensures Reaches(db, a, c, avoid)
  {
    var p :| IsWalk(db, p, more) && p[0] == b && p[|p| - 1] == c;
    var q := [a] + p;
    forall i | 0 < i < |q| ensures StepAt(db, q, i) {
      if i > 1 {
        assert StepAt(db, p, i - 1);
      }
    }
    assert IsWalk(db, q, avoid);
  }

  lemma ReachesMore(db: Tables, a: nat, b: nat, avoid: set<nat>, more: set<nat>)
    requires avoid <= more && Reaches(db, a, b, more)
    ensures Reaches(db, a, b, avoid)
  {
    var p :| IsWalk(db, p, more) && p[0] == a && p[|p| - 1] == b;
    assert IsWalk(db, p, avoid);
  }

  /** A set that contains the start and is closed under listing outside `avoid` contains everything reached. */
  lemma ReachedIsInClosedSet(db: Tables, a: nat, b: nat, avoid: set<nat>, closed: set<nat>)
    requires a in closed && Reaches(db, a, b, avoid)
    requires forall m, n :: m in closed && m in db.Ids() && m !in avoid && Lists(db, m, n) && n in db.Ids() ==>
                              n in avoid || n in closed
    ensures b in closed
  {
    var p :| IsWalk(db, p, avoid) && p[0] == a && p[|p| - 1] == b;
    WalkStaysInClosedSet(db, p, avoid, closed, |p| - 1);
  }

  lemma {:induction false} WalkStaysInClosedSet(db: Tables, p: seq<nat>, avoid: set<nat>, closed: set<nat>, i: nat)
    requires IsWalk(db, p, avoid) && p[0] in closed && i < |p|
    requires forall m, n :: m in closed && m in db.Ids() && m !in avoid && Lists(db, m, n) && n in db.Ids() ==>
                              n in avoid || n in closed
    ensures p[i] in closed
  {
    if i > 0 {
      WalkStaysInClosedSet(db, p, avoid, closed, i - 1);
      assert StepAt(db, p, i);
    }
  }

  /** Anything reachable is either reached without touching `cached`, or lies beyond it: a set
      `cached` closed under listing, joined with what is reached around it, is all that is reachable. */
  lemma ReachAroundClosedSet(db: Tables, a: nat, b: nat, cached: set<nat>)
    requires Reaches(db, a, b, {})
    requires forall m, n :: m in cached && m in db.Ids() && Lists(db, m, n) && n in db.Ids() ==> n in cached
    ensures b in cached || Reaches(db, a, b, cached)
  {
    var p :| IsWalk(db, p, {}) && p[0] == a && p[|p| - 1] == b;
    if b !in cached {
      forall i | 0 <= i < |p| ensures p[i] !in cached {
        if p[i] in cached {
          var q := p[i..];
          forall j | 0 < j < |q| ensures StepAt(db, q, j) {
            assert StepAt(db, p, i + j);
          }
          assert IsWalk(db, q, {});
          WalkStaysInClosedSet(db, q, {}, cached, |q| - 1);
        }
      }
      assert IsWalk(db, p, cached);
    }
  }
}
