// The sections of a Catch test body as a finite tree, and where its leaves lie. A path is the
// sequence of section indices leading to a node; the empty path is the test case itself.
module SectionTree {

  datatype Section = Section(name: string, body: seq<Section>)

  type Path = seq<nat>

  /** Sibling sections have different names, at every level. */
  ghost predicate DistinctNames(secs: seq<Section>) {
    && (forall i, j :: 0 <= i < j < |secs| ==> secs[i].name != secs[j].name)
    && (forall i :: 0 <= i < |secs| ==> DistinctNames(secs[i].body))
  }

  ghost predicate IsPath(secs: seq<Section>, p: Path) {
    p == [] || (p[0] < |secs| && IsPath(secs[p[0]].body, p[1..]))
  }

  /** The sections directly inside the node at `p`. */
  ghost function At(secs: seq<Section>, p: Path): seq<Section>
    requires IsPath(secs, p)
  {
    if p == [] then secs else At(secs[p[0]].body, p[1..])
  }

  /** How many leaves lie in the first `i` sections. */
  ghost function Before(secs: seq<Section>, i: nat): nat
    requires i <= |secs|
    decreases secs, i
  {
    if i == 0 then 0 else Before(secs, i - 1) + LeafCount(secs[i - 1].body)
  }

  /** A node without sections is itself the one leaf. */
  ghost function LeafCount(secs: seq<Section>): nat
    decreases secs, |secs| + 1
  {
    if secs == [] then 1 else Before(secs, |secs|)
  }

  /** The leaves in order, each named by its path. */
  ghost function Leaves(secs: seq<Section>): seq<Path>
    decreases secs, |secs| + 1
  {
    if secs == [] then [[]] else LeavesBefore(secs, |secs|)
  }

  ghost function LeavesBefore(secs: seq<Section>, i: nat): seq<Path>
    requires i <= |secs|
    decreases secs, i
  {
    if i == 0 then [] else LeavesBefore(secs, i - 1) + Under(i - 1, Leaves(secs[i - 1].body))
  }

  ghost function Under(i: nat, paths: seq<Path>): (r: seq<Path>)
    ensures |r| == |paths| && forall k :: 0 <= k < |r| ==> r[k] == [i] + paths[k]
  {
    seq(|paths|, k requires 0 <= k < |paths| => [i] + paths[k])
  }

  /** The number of leaves that come before the node at `p`. */
  ghost function First(secs: seq<Section>, p: Path): nat
    requires IsPath(secs, p)
  {
    if p == [] then 0 else Before(secs, p[0]) + First(secs[p[0]].body, p[1..])
  }

  ghost function End(secs: seq<Section>, p: Path): nat
    requires IsPath(secs, p)
  {
    First(secs, p) + LeafCount(At(secs, p))
  }

  lemma {:induction false} LeavesAreCounted(secs: seq<Section>)
    ensures |Leaves(secs)| == LeafCount(secs) && LeafCount(secs) > 0
    decreases secs, |secs| + 1
  {
    if secs != [] {
      LeavesBeforeAreCounted(secs, |secs|);
      LeavesAreCounted(secs[|secs| - 1].body);
    }
  }

  lemma {:induction false} LeavesBeforeAreCounted(secs: seq<Section>, i: nat)
    requires i <= |secs|
    ensures |LeavesBefore(secs, i)| == Before(secs, i)
    decreases secs, i
  {
    if i > 0 {
      LeavesBeforeAreCounted(secs, i - 1);
      LeavesAreCounted(secs[i - 1].body);
    }
  }

  lemma {:induction false} BeforeGrows(secs: seq<Section>, i: nat, j: nat)
    requires i <= j <= |secs|
    ensures Before(secs, i) <= Before(secs, j)
  {
    if i < j {
      BeforeGrows(secs, i, j - 1);
    }
  }

  lemma {:induction false} Child(secs: seq<Section>, p: Path, j: nat)
    requires IsPath(secs, p) && j < |At(secs, p)|
    ensures IsPath(secs, p + [j])
    ensures At(secs, p + [j]) == At(secs, p)[j].body
    ensures First(secs, p + [j]) == First(secs, p) + Before(At(secs, p), j)
    ensures End(secs, p + [j]) == First(secs, p) + Before(At(secs, p), j + 1)
    ensures First(secs, p) <= First(secs, p + [j]) < End(secs, p + [j]) <= End(secs, p)
  {
    LeavesAreCounted(At(secs, p)[j].body);
    BeforeGrows(At(secs, p), j + 1, |At(secs, p)|);
    if p == [] {
      assert (p + [j])[1..] == [];
    } else {
      Child(secs[p[0]].body, p[1..], j);
      assert (p + [j])[1..] == p[1..] + [j];
    }
  }

  lemma {:induction false} ParentOfPath(secs: seq<Section>, p: Path)
    requires p != [] && IsPath(secs, p)
    ensures IsPath(secs, p[..|p| - 1]) && p[|p| - 1] < |At(secs, p[..|p| - 1])|
  {
    if |p| > 1 {
      ParentOfPath(secs[p[0]].body, p[1..]);
      assert p[1..][..|p| - 2] == p[..|p| - 1][1..];
    }
  }

  /** Two nodes that contain the same leaf lie on one path. */
  lemma {:induction false} SameLeafSamePath(secs: seq<Section>, p: Path, q: Path, d: nat)
    requires IsPath(secs, p) && IsPath(secs, q)
    requires First(secs, p) <= d < End(secs, p) && First(secs, q) <= d < End(secs, q)
    ensures p <= q || q <= p
  {
    if p != [] && q != [] {
      NodeWithinSection(secs, p);
      NodeWithinSection(secs, q);
      if p[0] < q[0] {
        BeforeGrows(secs, p[0] + 1, q[0]);
      } else if q[0] < p[0] {
        BeforeGrows(secs, q[0] + 1, p[0]);
      } else {
        SameLeafSamePath(secs[p[0]].body, p[1..], q[1..], d - Before(secs, p[0]));
        assert p == [p[0]] + p[1..] && q == [q[0]] + q[1..];
      }
    }
  }

  lemma {:induction false} NodeWithin(secs: seq<Section>, p: Path)
    requires IsPath(secs, p)
    ensures First(secs, p) < End(secs, p) <= LeafCount(secs)
  {
    LeavesAreCounted(At(secs, p));
    if p != [] {
      NodeWithin(secs[p[0]].body, p[1..]);
      BeforeGrows(secs, p[0] + 1, |secs|);
    }
  }

  lemma NodeWithinSection(secs: seq<Section>, p: Path)
    requires p != [] && IsPath(secs, p)
    ensures Before(secs, p[0]) <= First(secs, p) < End(secs, p) <= Before(secs, p[0] + 1)
  {
    NodeWithin(secs[p[0]].body, p[1..]);
  }

  /** Leaf number First(p) is the leaf `p` itself. */
  lemma {:induction false} LeafAtItsPlace(secs: seq<Section>, p: Path)
    requires IsPath(secs, p) && At(secs, p) == []
    ensures First(secs, p) < |Leaves(secs)| && Leaves(secs)[First(secs, p)] == p
  {
    if p == [] {
    } else {
      var i := p[0];
      LeafAtItsPlace(secs[i].body, p[1..]);
      LeavesBeforeAreCounted(secs, i);
      LeavesBeforeHolds(secs, i, |secs|, First(secs[i].body, p[1..]));
      assert p == [i] + p[1..];
    }
  }

  lemma {:induction false} LeavesBeforeHolds(secs: seq<Section>, i: nat, n: nat, k: nat)
    requires i < n <= |secs| && k < |Leaves(secs[i].body)|
    ensures |LeavesBefore(secs, i)| + k < |LeavesBefore(secs, n)|
    ensures LeavesBefore(secs, n)[|LeavesBefore(secs, i)| + k] == [i] + Leaves(secs[i].body)[k]
  {
    if i < n - 1 {
      LeavesBeforeHolds(secs, i, n - 1, k);
    }
  }

  /** Every entry of Leaves is a leaf, and stands at the number of leaves before it: none comes twice. */
  lemma {:induction false} LeafNumber(secs: seq<Section>, k: nat)
    requires k < |Leaves(secs)|
    ensures var p := Leaves(secs)[k]; IsPath(secs, p) && At(secs, p) == [] && First(secs, p) == k
    decreases secs, |secs| + 1
  {
    if secs != [] {
      LeafNumberBefore(secs, |secs|, k);
    }
  }

  lemma {:induction false} LeafNumberBefore(secs: seq<Section>, i: nat, k: nat)
    requires i <= |secs| && k < |LeavesBefore(secs, i)|
    ensures var p := LeavesBefore(secs, i)[k]; IsPath(secs, p) && At(secs, p) == [] && First(secs, p) == k
    decreases secs, i
  {
    var before := |LeavesBefore(secs, i - 1)|;
    if k < before {
      LeafNumberBefore(secs, i - 1, k);
    } else {
      var leaf := Leaves(secs[i - 1].body)[k - before];
      LeafNumber(secs[i - 1].body, k - before);
      LeavesBeforeAreCounted(secs, i - 1);
      assert ([i - 1] + leaf)[1..] == leaf;
    }
  }
}
