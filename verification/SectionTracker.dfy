// externals/catch/catch.hpp lines 5661-5871 and 6074-6312: the trackers that make a test case run
// once per leaf section, and the loop in RunContext that reruns it. The test body is a tree of
// sections with distinct sibling names whose assertions all pass.
module SectionTracker {
  import opened SectionTree

  datatype CycleState = NotStarted | Executing | ExecutingChildren | NeedsAnotherRun | CompletedSuccessfully | Failed

  datatype RunState = RunNotStarted | RunExecuting | CompletedCycle

  predicate Completes(s: CycleState) {
    s == CompletedSuccessfully || s == Failed
  }

  predicate Opens(s: CycleState) {
    s != NotStarted && !Completes(s)
  }

  /** Parents of trackers in the set are in the set, and lie nearer the root. */
  ghost predicate Closed(all: set<Tracker>) {
    forall t :: t in all && t.parent != null ==> t.parent in all && t.parent.depth < t.depth
  }

  /** The first tracker is the second, its parent, its parent's parent, and so on. */
  ghost predicate IsAbove(t: Tracker, u: Tracker)
    decreases u.depth
  {
    t == u || (u.parent != null && u.parent.depth < u.depth && IsAbove(t, u.parent))
  }

  class Tracker {
    const name: string
    const parent: Tracker?
    ghost const depth: nat
    ghost const path: Path
    var children: seq<Tracker>
    var runState: CycleState

    constructor (name: string, parent: Tracker?, ghost path: Path)
      ensures this.name == name && this.parent == parent && this.path == path
      ensures depth == if parent == null then 0 else parent.depth + 1
      ensures children == [] && runState == NotStarted
    {
      this.name, this.parent, this.path := name, parent, path;
      this.depth := if parent == null then 0 else parent.depth + 1;
      this.children, this.runState := [], NotStarted;
    }

    predicate IsComplete()
      reads this`runState
    {
      Completes(runState)
    }

    predicate IsOpen()
      reads this`runState
    {
      Opens(runState)
    }

    /** Lines 5765-5770. */
    method FindChild(name: string) returns (child: Tracker?)
      ensures child == null ==> forall i :: 0 <= i < |children| ==> children[i].name != name
      ensures child != null ==>
                FirstNamed(children, name, child)
    {
      for i := 0 to |children|
        invariant forall j :: 0 <= j < i ==> children[j].name != name
      {
        if children[i].name == name {
          return children[i];
        }
      }
      return null;
    }

    /** Lines 5776-5782. */
    method OpenChild(ghost all: set<Tracker>)
      requires this in all && Closed(all)
      modifies all`runState
      ensures runState == ExecutingChildren
      ensures forall t :: t in all && t.runState != old(t.runState) ==>
                t.runState == ExecutingChildren && t.depth <= depth && IsAbove(t, this)
      ensures parent == null || old(parent.runState) == ExecutingChildren || old(runState) == ExecutingChildren ==>
                forall t :: t in all && t != this ==> t.runState == old(t.runState)
      decreases depth
    {
      if runState != ExecutingChildren {
        runState := ExecutingChildren;
        if parent != null {
          parent.OpenChild(all);
        }
      }
    }

    /** Lines 5787-5792. */
    method Open(ctx: TrackerContext, ghost all: set<Tracker>)
      requires this in all && Closed(all)
      modifies all`runState, ctx`currentTracker
      ensures runState == Executing && ctx.currentTracker == this
      ensures parent != null ==> parent.runState == ExecutingChildren
      ensures parent != null ==> parent.parent == null || old(parent.parent.runState) == ExecutingChildren
                                 || old(parent.runState) == ExecutingChildren ==>
                forall t :: t in all && t != this && t != parent ==> t.runState == old(t.runState)
    {
      runState := Executing;
      ctx.currentTracker := this;
      if parent != null {
        parent.OpenChild(all);
      }
    }

    /** Lines 5794-5823, for the tracker that is current: no child is left open below it. */
    method Close(ctx: TrackerContext)
      requires ctx.currentTracker == this && IsOpen() && parent != null
      modifies this`runState, ctx`currentTracker, ctx`runState
      ensures runState == if old(runState) == Executing
          || (old(runState) == ExecutingChildren && (children == [] || old(children[|children| - 1].IsComplete())))
                          then CompletedSuccessfully else old(runState)
      ensures ctx.currentTracker == parent && ctx.runState == CompletedCycle
    {
      match runState {
        case NeedsAnotherRun =>
        case Executing => runState := CompletedSuccessfully;
        case ExecutingChildren =>
          if children == [] || children[|children| - 1].IsComplete() {
            runState := CompletedSuccessfully;
          }
      }
      ctx.currentTracker := parent;
      ctx.CompleteCycle();
    }
  }

  class TrackerContext {
    var rootTracker: Tracker?
    var currentTracker: Tracker?
    var runState: RunState

    constructor ()
      ensures rootTracker == null && currentTracker == null && runState == RunNotStarted
    {
      rootTracker, currentTracker, runState := null, null, RunNotStarted;
    }

    /** Lines 5922-5927. */
    method StartRun()
      modifies this
      ensures rootTracker != null && fresh(rootTracker) && currentTracker == null && runState == RunExecuting
      ensures rootTracker.parent == null && rootTracker.children == [] && rootTracker.runState == NotStarted
          && rootTracker.depth == 0
    {
      rootTracker := new Tracker("{root}", null, []);
      currentTracker := null;
      runState := RunExecuting;
    }

    /** Lines 5691-5694. */
    method StartCycle()
      modifies this`currentTracker, this`runState
      ensures currentTracker == rootTracker && runState == RunExecuting
    {
      currentTracker := rootTracker;
      runState := RunExecuting;
    }

    /** Lines 5695-5697. */
    method CompleteCycle()
      modifies this`runState
      ensures runState == CompletedCycle
    {
      runState := CompletedCycle;
    }

    /** SectionTracker::acquire, lines 5853-5870. A child that is made starts out not started; a child
        that is not complete is opened unless this cycle has completed already. */
    method Acquire(name: string, ghost all: set<Tracker>, ghost path: Path) returns (section: Tracker)
      requires currentTracker != null && currentTracker in all && Closed(all)
      requires forall c :: c in currentTracker.children ==> c in all && c.parent == currentTracker
      requires currentTracker.parent == null || currentTracker.parent.runState == ExecutingChildren
      modifies this`currentTracker, all`runState, currentTracker`children
      ensures section.parent == old(currentTracker) && section.name == name
      ensures HasChild(old(currentTracker.children), name) ==>
                && old(currentTracker).children == old(currentTracker.children)
                && section in all && FirstNamed(old(currentTracker.children), name, section)
                && Opened(old(currentTracker), old(currentTracker.runState), section, old(section.runState))
                && forall t :: t in all && t != section && t != old(currentTracker) ==> t.runState == old(t.runState)
      ensures !HasChild(old(currentTracker.children), name) ==>
                && old(currentTracker).children == old(currentTracker.children) + [section]
                && fresh(section) && section.children == [] && section.path == path
                && section.depth == old(currentTracker).depth + 1
                && Opened(old(currentTracker), old(currentTracker.runState), section, NotStarted)
                && forall t :: t in all && t != old(currentTracker) ==> t.runState == old(t.runState)
    {
      var current := currentTracker;
      var child := current.FindChild(name);
      if child != null {
        section := child;
      } else {
        section := new Tracker(name, current, path);
        current.children := current.children + [section];
      }
      if runState != CompletedCycle && !section.IsComplete() {
        section.Open(this, all + {section});
      }
    }

    /** What acquiring does to the section and its parent, given the states they had. */
    ghost predicate Opened(parent: Tracker, parentWas: CycleState, section: Tracker, sectionWas: CycleState)
      reads this, parent`runState, section`runState
    {
      if runState != CompletedCycle && !Completes(sectionWas)
      then currentTracker == section && section.runState == Executing && parent.runState == ExecutingChildren
      else currentTracker == parent && section.runState == sectionWas && parent.runState == parentWas
    }
  }

  ghost predicate HasChild(children: seq<Tracker>, name: string) {
    exists i :: 0 <= i < |children| && children[i].name == name
  }

  ghost predicate FirstNamed(children: seq<Tracker>, name: string, t: Tracker) {
    exists i :: 0 <= i < |children| && children[i] == t && t.name == name
                && forall j :: 0 <= j < i ==> children[j].name != name
  }

  // ----- what the trackers look like -----

  /** The state of a tracker that is not on the open path, once `done` leaves have run. */
  ghost function Between(secs: seq<Section>, q: Path, done: nat): CycleState
    requires IsPath(secs, q)
  {
    if End(secs, q) <= done then CompletedSuccessfully
    else if First(secs, q) < done then ExecutingChildren
    else NotStarted
  }

  /** The state of the tracker at `q` while the tracker at `p` is current, in state `current`. */
  ghost function StateOf(secs: seq<Section>, q: Path, done: nat, p: Path, current: CycleState): CycleState
    requires IsPath(secs, q)
  {
    if q == p then current else if q <= p then ExecutingChildren else Between(secs, q, done)
  }

  ghost function ChildrenOf(nodes: map<Path, Tracker>): map<Path, seq<Tracker>>
    reads nodes.Values`children
  {
    map q | q in nodes :: nodes[q].children
  }

  ghost predicate NodeShape(nodes: map<Path, Tracker>, kids: map<Path, seq<Tracker>>, root: Tracker, secs: seq<Section>,
      q: Path)
    requires q in nodes && kids.Keys == nodes.Keys
  {
    && IsPath(secs, q) && nodes[q].path == q && nodes[q].depth == |q| + 1
    && (q == [] ==> nodes[q].parent == root)
    && (q != [] ==>
          var u := q[..|q| - 1];
          && u in nodes && nodes[q].parent == nodes[u] && q[|q| - 1] < |kids[u]|
          && IsPath(secs, u) && q[|q| - 1] < |At(secs, u)| && nodes[q].name == At(secs, u)[q[|q| - 1]].name)
    && |kids[q]| <= |At(secs, q)|
    && forall j :: 0 <= j < |kids[q]| ==> q + [j] in nodes && kids[q][j] == nodes[q + [j]]
  }

  /** The trackers below the root, with these children, form the part of the section tree seen so far. */
  ghost predicate Shape(nodes: map<Path, Tracker>, kids: map<Path, seq<Tracker>>, root: Tracker, secs: seq<Section>) {
    && kids.Keys == nodes.Keys
    && root !in nodes.Values && root.parent == null && root.depth == 0
    && forall q {:trigger NodeShape(nodes, kids, root, secs, q)} :: q in nodes ==> NodeShape(nodes, kids, root, secs, q)
  }

  ghost function StatesOf(nodes: map<Path, Tracker>): map<Path, CycleState>
    reads nodes.Values`runState
  {
    map q | q in nodes :: nodes[q].runState
  }

  ghost predicate States(m: map<Path, CycleState>, secs: seq<Section>, done: nat, p: Path, current: CycleState) {
    forall q :: q in m ==> IsPath(secs, q) && m[q] == StateOf(secs, q, done, p, current)
  }

  /** No cycle is under way. */
  ghost predicate Idle(m: map<Path, CycleState>, secs: seq<Section>, done: nat) {
    forall q :: q in m ==> IsPath(secs, q) && m[q] == Between(secs, q, done)
  }

  /** Every node whose first leaf has run has its tracker. */
  ghost predicate Visited(nodes: set<Path>, secs: seq<Section>, done: nat) {
    forall q :: IsPath(secs, q) && First(secs, q) < done ==> q in nodes
  }

  lemma PrefixOfExtension(q: Path, p: Path, i: nat)
    ensures q <= p + [i] <==> q <= p || q == p + [i]
  {
    if q <= p + [i] && |q| <= |p| {
      assert q == (p + [i])[..|q|] == p[..|q|];
    }
  }

  lemma ChildOpened(m: map<Path, CycleState>, secs: seq<Section>, d: nat, p: Path, i: nat)
    requires States(m, secs, d, p, Executing) && IsPath(secs, p + [i]) && p in m
    ensures States(m[p := ExecutingChildren][p + [i] := Executing], secs, d, p + [i], Executing)
  {
    var c := p + [i];
    var after := m[p := ExecutingChildren][c := Executing];
    forall q | q in after ensures IsPath(secs, q) && after[q] == StateOf(secs, q, d, c, Executing) {
      PrefixOfExtension(q, p, i);
    }
  }

  lemma ChildMadeLate(m: map<Path, CycleState>, secs: seq<Section>, done: nat, p: Path, i: nat, current: CycleState)
    requires States(m, secs, done, p, current) && IsPath(secs, p + [i]) && done <= First(secs, p + [i])
    ensures States(m[p + [i] := NotStarted], secs, done, p, current)
  {
    NodeWithin(secs, p + [i]);
  }

  /** Running leaf `d` leaves a node that does not contain it as it was. */
  lemma BetweenUnmoved(secs: seq<Section>, q: Path, c: Path, d: nat)
    requires IsPath(secs, q) && IsPath(secs, c) && First(secs, c) <= d < End(secs, c)
    requires !(q <= c) && !(c <= q)
    ensures Between(secs, q, d) == Between(secs, q, d + 1)
  {
    NodeWithin(secs, q);
    if First(secs, q) <= d < End(secs, q) {
      SameLeafSamePath(secs, q, c, d);
    }
  }

  lemma {:induction false} NothingBelowLeaf(secs: seq<Section>, c: Path, q: Path)
    requires IsPath(secs, c) && At(secs, c) == [] && IsPath(secs, q) && c <= q
    ensures q == c
  {
    if c != [] {
      assert c[1..] <= q[1..];
      NothingBelowLeaf(secs[c[0]].body, c[1..], q[1..]);
      assert c == [c[0]] + c[1..] && q == [q[0]] + q[1..];
    }
  }

  /** Running a leaf leaves everything off its path as it was. */
  lemma LeafClosed(m: map<Path, CycleState>, secs: seq<Section>, d: nat, c: Path, q: Path)
    requires States(m, secs, d, c, Executing) && IsPath(secs, c) && At(secs, c) == []
        && First(secs, c) <= d < End(secs, c)
    requires q in m && !(q <= c)
    ensures IsPath(secs, q) && m[q] == Between(secs, q, d + 1)
  {
    if c <= q {
      NothingBelowLeaf(secs, c, q);
    }
    BetweenUnmoved(secs, q, c, d);
  }

  /** The nodes that leaf `d` newly touches all lie on the open path. */
  lemma LeafVisits(nodes: set<Path>, secs: seq<Section>, d: nat, c: Path)
    requires Visited(nodes, secs, d) && IsPath(secs, c) && At(secs, c) == [] && First(secs, c) <= d < End(secs, c)
    requires forall q :: q <= c ==> q in nodes
    ensures Visited(nodes, secs, d + 1)
  {
    forall q | IsPath(secs, q) && First(secs, q) < d + 1 ensures q in nodes {
      if First(secs, q) == d {
        NodeWithin(secs, q);
        SameLeafSamePath(secs, q, c, d);
        if c <= q {
          NothingBelowLeaf(secs, c, q);
        }
      }
    }
  }

  lemma {:induction false} AncestorsExist(nodes: map<Path, Tracker>, kids: map<Path, seq<Tracker>>, root: Tracker,
      secs: seq<Section>, c: Path, q: Path)
    requires Shape(nodes, kids, root, secs) && c in nodes && q <= c
    ensures q in nodes
  {
    if q != c {
      assert NodeShape(nodes, kids, root, secs, c);
      assert q <= c[..|c| - 1];
      AncestorsExist(nodes, kids, root, secs, c[..|c| - 1], q);
    }
  }

  lemma OneTrackerPerNode(nodes: map<Path, Tracker>, kids: map<Path, seq<Tracker>>, root: Tracker, secs: seq<Section>)
    requires Shape(nodes, kids, root, secs)
    ensures forall q :: q in nodes ==> nodes[q].path == q && nodes[q] != root && nodes[q].depth == |q| + 1
    ensures forall q :: q in nodes && q != [] ==> q[..|q| - 1] in nodes && nodes[q].parent == nodes[q[..|q| - 1]]
    ensures [] in nodes ==> nodes[[]].parent == root
  {
    forall q | q in nodes
      ensures nodes[q].path == q && nodes[q].depth == |q| + 1
      ensures q != [] ==> q[..|q| - 1] in nodes && nodes[q].parent == nodes[q[..|q| - 1]]
    {
      assert NodeShape(nodes, kids, root, secs, q);
    }
    if [] in nodes {
      assert NodeShape(nodes, kids, root, secs, []);
    }
  }

  /** Sibling names are distinct, so a child is found by its section's name exactly when it exists. */
  lemma ChildByName(nodes: map<Path, Tracker>, kids: map<Path, seq<Tracker>>, root: Tracker, secs: seq<Section>,
      p: Path, i: nat)
    requires Shape(nodes, kids, root, secs) && DistinctNames(secs) && p in nodes && IsPath(secs, p)
        && i < |At(secs, p)| && i <= |kids[p]|
    ensures HasChild(kids[p], At(secs, p)[i].name) <==> i < |kids[p]|
    ensures p + [i] in nodes <==> i < |kids[p]|
    ensures forall t :: FirstNamed(kids[p], At(secs, p)[i].name, t) ==> p + [i] in nodes && t == nodes[p + [i]]
  {
    assert NodeShape(nodes, kids, root, secs, p);
    DistinctAt(secs, p);
    forall j | 0 <= j < |kids[p]| ensures kids[p][j].name == At(secs, p)[j].name {
      assert NodeShape(nodes, kids, root, secs, p + [j]);
      assert (p + [j])[..|p|] == p;
    }
    if p + [i] in nodes {
      assert NodeShape(nodes, kids, root, secs, p + [i]);
      assert (p + [i])[..|p|] == p;
    }
    if i < |kids[p]| {
      assert kids[p][i].name == At(secs, p)[i].name;
    }
  }

  lemma {:induction false} DistinctAt(secs: seq<Section>, p: Path)
    requires DistinctNames(secs) && IsPath(secs, p)
    ensures DistinctNames(At(secs, p))
  {
    if p != [] {
      DistinctAt(secs[p[0]].body, p[1..]);
    }
  }

  lemma ShapeWithChild(nodes: map<Path, Tracker>, kids: map<Path, seq<Tracker>>, root: Tracker, secs: seq<Section>,
      p: Path, t: Tracker)
    requires Shape(nodes, kids, root, secs) && p in nodes && IsPath(secs, p)
    requires |kids[p]| < |At(secs, p)| && t != root && t.path == p + [|kids[p]|] && t.depth == |p| + 2
    requires t.parent == nodes[p] && t.name == At(secs, p)[|kids[p]|].name && p + [|kids[p]|] !in nodes
    ensures var c := p + [|kids[p]|];
            Shape(nodes[c := t], kids[p := kids[p] + [t]][c := []], root, secs)
  {
    var c := p + [|kids[p]|];
    var nodes', kids' := nodes[c := t], kids[p := kids[p] + [t]][c := []];
    Child(secs, p, |kids[p]|);
    assert c[..|c| - 1] == p;
    forall q | q in nodes' ensures NodeShape(nodes', kids', root, secs, q) {
      if q in nodes {
        assert NodeShape(nodes, kids, root, secs, q);
      }
    }
  }

  /** Closing the node at `c` turns these states into those of a node above it. */
  ghost predicate Passing(were: map<Path, CycleState>, secs: seq<Section>, d: nat, c: Path) {
    && IsPath(secs, c) && First(secs, c) <= d < End(secs, c) && Visited(were.Keys, secs, d + 1)
    && forall q :: q in were ==>
         IsPath(secs, q) && (q != c ==> were[q] == if q <= c then ExecutingChildren else Between(secs, q, d + 1))
  }

  lemma PassedStates(were: map<Path, CycleState>, secs: seq<Section>, d: nat, p: Path, i: nat)
    requires Passing(were, secs, d, p + [i])
    ensures States(were[p + [i] := Between(secs, p + [i], d + 1)], secs, d + 1, p, ExecutingChildren)
  {
    var c := p + [i];
    var after := were[c := Between(secs, c, d + 1)];
    forall q | q in after ensures IsPath(secs, q) && after[q] == StateOf(secs, q, d + 1, p, ExecutingChildren) {
      PrefixOfExtension(q, p, i);
    }
  }

  ghost predicate Rests(nodes: map<Path, Tracker>, states: map<Path, CycleState>, kids: map<Path, seq<Tracker>>,
      root: Tracker, secs: seq<Section>, d: nat) {
    Shape(nodes, kids, root, secs) && states.Keys == nodes.Keys && Idle(states, secs, d) && Visited(nodes.Keys, secs, d)
  }

  class RunContext {
    const trackerContext: TrackerContext
    var testCaseTracker: Tracker?
    var activeSections: seq<Tracker>
    /** The leaves whose code has run, in order: what the test body itself gets to observe. */
    var executed: seq<Path>
    ghost var nodes: map<Path, Tracker>

    constructor ()
      ensures activeSections == [] && executed == [] && fresh(trackerContext)
    {
      trackerContext := new TrackerContext();
      testCaseTracker, activeSections, executed, nodes := null, [], [], map[];
    }

    ghost function Trackers(): set<Tracker>
      reads this`nodes, trackerContext
    {
      nodes.Values + if trackerContext.rootTracker == null then {} else {trackerContext.rootTracker}
    }

    /** The tracker at `p` is open and current, and leaf `d` lies in it. */
    ghost predicate Inside(secs: seq<Section>, d: nat, p: Path)
      reads this`nodes, trackerContext, Trackers()
    {
      && trackerContext.rootTracker != null
      && Shape(nodes, ChildrenOf(nodes), trackerContext.rootTracker, secs)
      && trackerContext.rootTracker.runState == ExecutingChildren
      && IsPath(secs, p) && First(secs, p) <= d < End(secs, p)
      && p in nodes && trackerContext.currentTracker == nodes[p]
    }

    /** ... and no leaf has run in this cycle yet. */
    ghost predicate Ready(secs: seq<Section>, d: nat, p: Path)
      reads this`nodes, trackerContext, Trackers()
    {
      && Inside(secs, d, p)
      && trackerContext.runState == RunExecuting
      && States(StatesOf(nodes), secs, d, p, Executing) && Visited(nodes.Keys, secs, d)
    }

    /** ... and leaf `d` has run, so the cycle is complete. */
    ghost predicate Spent(secs: seq<Section>, d: nat, p: Path)
      reads this`nodes, trackerContext, Trackers()
    {
      && Inside(secs, d, p)
      && trackerContext.runState == CompletedCycle
      && States(StatesOf(nodes), secs, d + 1, p, ExecutingChildren) && Visited(nodes.Keys, secs, d + 1)
    }

    /** At section `i` of the node at `p`: leaf `d` has run already, or lies in this section or later. */
    ghost predicate Scanning(secs: seq<Section>, d: nat, p: Path, i: nat)
      reads this`nodes, trackerContext, Trackers()
    {
      && (Ready(secs, d, p) || Spent(secs, d, p))
      && i <= |At(secs, p)| && i <= |nodes[p].children|
      && (trackerContext.runState == CompletedCycle <==> d < First(secs, p) + Before(At(secs, p), i))
    }

    lemma TrackersAreClosed(secs: seq<Section>)
      requires trackerContext.rootTracker != null && Shape(nodes, ChildrenOf(nodes), trackerContext.rootTracker, secs)
      ensures Closed(Trackers())
      ensures forall q: Path, c: Tracker :: q in nodes && c in nodes[q].children ==>
                c in Trackers() && c.parent == nodes[q]
    {
      var kids, root := ChildrenOf(nodes), trackerContext.rootTracker;
      forall t | t in Trackers() && t.parent != null ensures t.parent in Trackers() && t.parent.depth < t.depth {
        if q :| q in nodes && nodes[q] == t {
          assert NodeShape(nodes, kids, root, secs, q);
          if q != [] {
            assert NodeShape(nodes, kids, root, secs, q[..|q| - 1]);
          }
        }
      }
      forall q: Path, c: Tracker | q in nodes && c in nodes[q].children ensures c in Trackers()
          && c.parent == nodes[q] {
        assert NodeShape(nodes, kids, root, secs, q);
        var j :| 0 <= j < |nodes[q].children| && nodes[q].children[j] == c;
        assert NodeShape(nodes, kids, root, secs, q + [j]);
        assert (q + [j])[..|q|] == q;
      }
    }

    /** The node at `p` is current and its parent has been told that a child is open. */
    ghost predicate Current(secs: seq<Section>, p: Path)
      reads this`nodes, trackerContext, Trackers()
    {
      && trackerContext.rootTracker != null
      && Shape(nodes, ChildrenOf(nodes), trackerContext.rootTracker, secs)
      && trackerContext.rootTracker.runState == ExecutingChildren
      && IsPath(secs, p) && p in nodes && trackerContext.currentTracker == nodes[p]
      && (p != [] ==> p[..|p| - 1] in nodes && nodes[p[..|p| - 1]].runState == ExecutingChildren)
    }

    /** What acquiring section `i` of the node at `p` does to the states of all trackers. */
    ghost predicate Acquired(were: map<Path, CycleState>, p: Path, i: nat)
      reads this`nodes, trackerContext, Trackers()
    {
      var c := p + [i];
      var was := if c in were then were[c] else NotStarted;
      && p in nodes && c in nodes
      && if trackerContext.runState != CompletedCycle && !Completes(was)
         then trackerContext.currentTracker == nodes[c]
             && StatesOf(nodes) == were[p := ExecutingChildren][c := Executing]
         else trackerContext.currentTracker == nodes[p] && StatesOf(nodes) == were[c := was]
    }

    /** The children of all trackers once `section` is there as child `i` of the node at `p`. */
    ghost function WithChild(kids: map<Path, seq<Tracker>>, p: Path, i: nat, section: Tracker): map<Path, seq<Tracker>>
      requires p in kids
    {
      if p + [i] in kids then kids else kids[p := kids[p] + [section]][p + [i] := []]
    }

    /** Acquire section `i` of the current node: its tracker is found or made, and opened or left alone. */
    method AcquireSection(name: string, ghost secs: seq<Section>, ghost p: Path, ghost i: nat)
        returns (section: Tracker)
      requires DistinctNames(secs) && Current(secs, p)
      requires i < |At(secs, p)| && i <= |nodes[p].children| && name == At(secs, p)[i].name
      modifies this`nodes, trackerContext`currentTracker, Trackers()`runState, nodes.Values`children
      ensures forall q :: q in old(nodes) ==> q in nodes && nodes[q] == old(nodes)[q]
      ensures forall t :: t in nodes.Values ==> t in old(nodes.Values) || fresh(t)
      ensures nodes.Keys == old(nodes).Keys + {p + [i]} && nodes[p + [i]] == section
      ensures Shape(nodes, ChildrenOf(nodes), trackerContext.rootTracker, secs)
      ensures trackerContext.rootTracker.runState == ExecutingChildren && i < |nodes[p].children|
      ensures Acquired(old(StatesOf(nodes)), p, i)
    {
      hide Shape, Acquired, DistinctNames, IsPath, At, TrackerContext.Opened;
      ghost var c := p + [i];
      ghost var were, kids, root, before := StatesOf(nodes), ChildrenOf(nodes), trackerContext.rootTracker, nodes;
      section := AcquireTracker(name, secs, p, i);
      nodes := nodes[c := section];
      StatesAfterAcquire(were, p, i);
      ShapeAfterAcquire(before, kids, section, secs, p, i);
    }

    lemma ShapeAfterAcquire(before: map<Path, Tracker>, kids: map<Path, seq<Tracker>>, section: Tracker,
        secs: seq<Section>, p: Path, i: nat)
      requires trackerContext.rootTracker != null && Shape(before, kids, trackerContext.rootTracker, secs)
      requires p in before && IsPath(secs, p) && i < |At(secs, p)|
      requires nodes == before[p + [i] := section]
      requires p + [i] in before ==>
                 section == before[p + [i]] && forall q :: q in before ==> nodes[q].children == kids[q]
      requires p + [i] !in before ==>
                 && section.children == [] && section.path == p + [i] && section.depth == |p| + 2
                     && section.parent == before[p]
                 && section.name == At(secs, p)[i].name && section != trackerContext.rootTracker
                 && i == |kids[p]| && nodes[p].children == kids[p] + [section]
                 && forall q :: q in before && q != p ==> nodes[q].children == kids[q]
      ensures Shape(nodes, ChildrenOf(nodes), trackerContext.rootTracker, secs) && i < |nodes[p].children|
    {
      var root, c := trackerContext.rootTracker, p + [i];
      assert ChildrenOf(nodes) == WithChild(kids, p, i, section);
      if c in before {
        assert nodes == before;
        assert NodeShape(before, kids, root, secs, c);
        assert c[..|p|] == p;
      } else {
        ShapeWithChild(before, kids, root, secs, p, section);
      }
    }

    lemma StatesAfterAcquire(were: map<Path, CycleState>, p: Path, i: nat)
      requires p in nodes && p + [i] in nodes && p in were && nodes.Keys == were.Keys + {p + [i]}
      requires forall q :: q in were && q != p && q != p + [i] ==> nodes[q].runState == were[q]
      requires trackerContext.Opened(nodes[p], were[p], nodes[p + [i]], if p + [i] in were then were[p + [i]]
          else NotStarted)
      ensures Acquired(were, p, i)
    {
    }

    /** TrackerContext.Acquire, said of the trackers by their paths. */
    method AcquireTracker(name: string, ghost secs: seq<Section>, ghost p: Path, ghost i: nat)
        returns (section: Tracker)
      requires DistinctNames(secs) && Current(secs, p)
      requires i < |At(secs, p)| && i <= |nodes[p].children| && name == At(secs, p)[i].name
      modifies trackerContext`currentTracker, Trackers()`runState, nodes.Values`children
      ensures section.parent == nodes[p] && section.name == name
      ensures p + [i] in nodes ==>
                section == nodes[p + [i]] && forall q :: q in nodes ==> nodes[q].children == old(nodes[q].children)
      ensures p + [i] !in nodes ==>
                && fresh(section) && section.children == [] && section.path == p + [i] && section.depth == |p| + 2
                && i == |old(nodes[p].children)|
                && (forall q :: q in nodes && q != p ==> nodes[q].children == old(nodes[q].children))
                && nodes[p].children == old(nodes[p].children) + [section]
      ensures forall q :: q in nodes && q != p && q != p + [i] ==> nodes[q].runState == old(nodes[q].runState)
      ensures trackerContext.Opened(nodes[p], old(nodes[p].runState), section, if p + [i] in nodes
          then old(nodes[p + [i]].runState) else NotStarted)
      ensures trackerContext.rootTracker.runState == ExecutingChildren
    {
      BeforeAcquire(name, secs, p, i);
      section := trackerContext.Acquire(name, Trackers(), p + [i]);
    }

    lemma BeforeAcquire(name: string, secs: seq<Section>, p: Path, i: nat)
      requires DistinctNames(secs) && Current(secs, p)
      requires i < |At(secs, p)| && i <= |nodes[p].children| && name == At(secs, p)[i].name
      ensures Closed(Trackers()) && nodes[p].depth == |p| + 1
      ensures forall c :: c in nodes[p].children ==> c in Trackers() && c.parent == nodes[p]
      ensures nodes[p].parent == null || nodes[p].parent.runState == ExecutingChildren
      ensures forall q :: q in nodes ==>
                nodes[q].path == q && nodes[q] in Trackers() && nodes[q] != trackerContext.rootTracker
      ensures HasChild(nodes[p].children, name) <==> p + [i] in nodes
      ensures p + [i] !in nodes ==> i == |nodes[p].children|
      ensures forall t :: FirstNamed(nodes[p].children, name, t) ==> p + [i] in nodes && t == nodes[p + [i]]
    {
      var kids, root := ChildrenOf(nodes), trackerContext.rootTracker;
      TrackersAreClosed(secs);
      ChildByName(nodes, kids, root, secs, p, i);
      OneTrackerPerNode(nodes, kids, root, secs);
    }

    /** Lines 6136-6154. */
    method SectionStarted(name: string, ghost secs: seq<Section>, ghost d: nat, ghost p: Path, ghost i: nat)
        returns (started: bool)
      requires DistinctNames(secs) && Scanning(secs, d, p, i) && i < |At(secs, p)| && name == At(secs, p)[i].name
      modifies this`activeSections, this`nodes, trackerContext`currentTracker, Trackers()`runState,
          nodes.Values`children
      ensures forall q :: q in old(nodes) ==> q in nodes && nodes[q] == old(nodes)[q]
      ensures forall t :: t in nodes.Values ==> t in old(nodes.Values) || fresh(t)
      ensures started ==> Ready(secs, d, p + [i]) && activeSections == old(activeSections) + [nodes[p + [i]]]
      ensures !started ==> Scanning(secs, d, p, i + 1) && activeSections == old(activeSections)
    {
      var section := ScanSection(name, secs, d, p, i);
      if !section.IsOpen() {
        return false;
      }
      PushSection(section, secs, d, p + [i]);
      return true;
    }

    method PushSection(section: Tracker, ghost secs: seq<Section>, ghost d: nat, ghost c: Path)
      requires Ready(secs, d, c)
      modifies this`activeSections
      ensures Ready(secs, d, c) && activeSections == old(activeSections) + [section]
    {
      activeSections := activeSections + [section];
    }

    /** The section's tracker is open exactly when leaf `d` lies in the section and has not run. */
    method ScanSection(name: string, ghost secs: seq<Section>, ghost d: nat, ghost p: Path, ghost i: nat)
        returns (section: Tracker)
      requires DistinctNames(secs) && Scanning(secs, d, p, i) && i < |At(secs, p)| && name == At(secs, p)[i].name
      modifies this`nodes, trackerContext`currentTracker, Trackers()`runState, nodes.Values`children
      ensures forall q :: q in old(nodes) ==> q in nodes && nodes[q] == old(nodes)[q]
      ensures forall t :: t in nodes.Values ==> t in old(nodes.Values) || fresh(t)
      ensures section.IsOpen() ==> Ready(secs, d, p + [i]) && nodes[p + [i]] == section
      ensures !section.IsOpen() ==> Scanning(secs, d, p, i + 1)
    {
      ghost var were := StatesOf(nodes);
      ScanIsCurrent(secs, d, p, i);
      section := AcquireSection(name, secs, p, i);
      SectionDecided(were, secs, d, p, i);
    }

    lemma ScanIsCurrent(secs: seq<Section>, d: nat, p: Path, i: nat)
      requires Scanning(secs, d, p, i)
      ensures Current(secs, p)
    {
      var kids, root := ChildrenOf(nodes), trackerContext.rootTracker;
      OneTrackerPerNode(nodes, kids, root, secs);
      if p != [] {
        var u := p[..|p| - 1];
        assert u in StatesOf(nodes) && u <= p && u != p;
      }
    }

    /** Section `i` has just been acquired as a child of the node at `p`. */
    ghost predicate JustAcquired(were: map<Path, CycleState>, secs: seq<Section>, d: nat, p: Path, i: nat)
      reads this`nodes, trackerContext, Trackers()
    {
      && trackerContext.rootTracker != null && trackerContext.rootTracker.runState == ExecutingChildren
      && Shape(nodes, ChildrenOf(nodes), trackerContext.rootTracker, secs)
      && IsPath(secs, p) && First(secs, p) <= d < End(secs, p) && i < |At(secs, p)|
      && p in were && nodes.Keys == were.Keys + {p + [i]} && i < |nodes[p].children| && Acquired(were, p, i)
    }

    lemma SectionDecided(were: map<Path, CycleState>, secs: seq<Section>, d: nat, p: Path, i: nat)
      requires JustAcquired(were, secs, d, p, i) && NotYet(were, secs, d, p, i)
      ensures nodes[p + [i]].IsOpen() ==> Ready(secs, d, p + [i])
      ensures !nodes[p + [i]].IsOpen() ==> Scanning(secs, d, p, i + 1)
    {
      if trackerContext.runState == CompletedCycle {
        SectionTooLate(were, secs, d, p, i);
      } else {
        SectionReached(were, secs, d, p, i);
      }
    }

    /** How things stood before section `i` was acquired. */
    ghost predicate NotYet(were: map<Path, CycleState>, secs: seq<Section>, d: nat, p: Path, i: nat)
      requires IsPath(secs, p) && i <= |At(secs, p)|
      reads trackerContext
    {
      if trackerContext.runState == CompletedCycle
      then d < First(secs, p) + Before(At(secs, p), i) && States(were, secs, d + 1, p, ExecutingChildren)
          && Visited(were.Keys, secs, d + 1)
      else trackerContext.runState == RunExecuting && First(secs, p) + Before(At(secs, p), i) <= d
           && States(were, secs, d, p, Executing) && Visited(were.Keys, secs, d)
    }

    lemma SectionTooLate(were: map<Path, CycleState>, secs: seq<Section>, d: nat, p: Path, i: nat)
      requires JustAcquired(were, secs, d, p, i)
      requires trackerContext.runState == CompletedCycle && d < First(secs, p) + Before(At(secs, p), i)
      requires States(were, secs, d + 1, p, ExecutingChildren) && Visited(were.Keys, secs, d + 1)
      ensures !nodes[p + [i]].IsOpen() && Scanning(secs, d, p, i + 1)
    {
      Child(secs, p, i);
      NodeWithin(secs, p + [i]);
      ChildMadeLate(were, secs, d + 1, p, i, ExecutingChildren);
    }

    lemma SectionReached(were: map<Path, CycleState>, secs: seq<Section>, d: nat, p: Path, i: nat)
      requires JustAcquired(were, secs, d, p, i)
      requires trackerContext.runState == RunExecuting && First(secs, p) + Before(At(secs, p), i) <= d
      requires States(were, secs, d, p, Executing) && Visited(were.Keys, secs, d)
      ensures nodes[p + [i]].IsOpen() ==> Ready(secs, d, p + [i])
      ensures !nodes[p + [i]].IsOpen() ==> Scanning(secs, d, p, i + 1)
    {
      var c := p + [i];
      Child(secs, p, i);
      if End(secs, c) <= d {
        assert c in were && were[c] == CompletedSuccessfully;
        assert were[c := were[c]] == were;
        assert StatesOf(nodes)[c] == CompletedSuccessfully;
      } else {
        ChildOpened(were, secs, d, p, i);
        assert StatesOf(nodes)[c] == Executing;
      }
    }

    /** The node at `c` is done for this cycle: a leaf that has just run, or a node all of whose
        sections have been passed and in which leaf `d` has run. */
    ghost predicate Closable(secs: seq<Section>, d: nat, c: Path)
      reads this`nodes, trackerContext, Trackers()
    {
      || (Ready(secs, d, c) && At(secs, c) == [])
      || (Spent(secs, d, c) && At(secs, c) != [] && |nodes[c].children| == |At(secs, c)|)
    }

    lemma StateBeforeClose(secs: seq<Section>, d: nat, c: Path)
      requires Closable(secs, d, c)
      ensures
        || (nodes[c].runState == Executing && Between(secs, c, d + 1) == CompletedSuccessfully)
        || (nodes[c].runState == ExecutingChildren && nodes[c].children != []
            && Between(secs, c, d + 1) == if nodes[c].children[|nodes[c].children| - 1].IsComplete()
                then CompletedSuccessfully else ExecutingChildren)
    {
      assert nodes[c].runState == StatesOf(nodes)[c];
      if At(secs, c) != [] {
        var m := |At(secs, c)| - 1;
        var kids := ChildrenOf(nodes);
        assert NodeShape(nodes, kids, trackerContext.rootTracker, secs, c);
        Child(secs, c, m);
        assert kids[c][m] == nodes[c + [m]];
        assert StatesOf(nodes)[c + [m]] == Between(secs, c + [m], d + 1);
      }
    }

    lemma ParentBeforeClose(secs: seq<Section>, d: nat, c: Path)
      requires Closable(secs, d, c)
      ensures nodes[c].parent != null
      ensures nodes[c].parent == if c == [] then trackerContext.rootTracker else if c[..|c| - 1] in nodes
          then nodes[c[..|c| - 1]] else null
      ensures forall q :: q in nodes ==> nodes[q].path == q && nodes[q] != trackerContext.rootTracker
    {
      OneTrackerPerNode(nodes, ChildrenOf(nodes), trackerContext.rootTracker, secs);
    }

    /** Closing a node leaves it as the leaves run so far require, and moves to its parent. */
    method CloseNode(node: Tracker, ghost secs: seq<Section>, ghost d: nat, ghost c: Path)
      requires Closable(secs, d, c) && node == nodes[c]
      modifies trackerContext`currentTracker, trackerContext`runState, node`runState
      ensures trackerContext.currentTracker == node.parent && trackerContext.runState == CompletedCycle
      ensures node.runState == Between(secs, c, d + 1)
    {
      StateBeforeClose(secs, d, c);
      ParentBeforeClose(secs, d, c);
      node.Close(trackerContext);
    }

    /** Lines 6167-6178. */
    method SectionEnded(ghost secs: seq<Section>, ghost d: nat, ghost p: Path, ghost i: nat)
      requires Closable(secs, d, p + [i]) && p in nodes && i < |nodes[p].children|
      requires activeSections != [] && activeSections[|activeSections| - 1] == nodes[p + [i]]
      modifies this`activeSections, trackerContext`currentTracker, trackerContext`runState, Trackers()`runState
      ensures Scanning(secs, d, p, i + 1) && trackerContext.runState == CompletedCycle
      ensures activeSections == old(activeSections[..|activeSections| - 1])
    {
      CloseSection(activeSections[|activeSections| - 1], secs, d, p, i);
      PopSection(secs, d, p);
    }

    method CloseSection(section: Tracker, ghost secs: seq<Section>, ghost d: nat, ghost p: Path, ghost i: nat)
      requires Closable(secs, d, p + [i]) && p in nodes && i < |nodes[p].children| && section == nodes[p + [i]]
      modifies trackerContext`currentTracker, trackerContext`runState, Trackers()`runState
      ensures Spent(secs, d, p) && Scanning(secs, d, p, i + 1)
    {
      ghost var c, were := p + [i], StatesOf(nodes);
      ParentBeforeClose(secs, d, c);
      BeforePass(secs, d, p, i);
      CloseNode(section, secs, d, c);
      StatesAfterClose(were, c);
      SectionPassed(were, secs, d, p, i);
    }

    lemma StatesAfterClose(were: map<Path, CycleState>, c: Path)
      requires c in nodes && nodes.Keys == were.Keys
      requires forall q :: q in nodes && q != c ==> nodes[q].runState == were[q]
      ensures StatesOf(nodes) == were[c := nodes[c].runState]
    {
    }

    method PopSection(ghost secs: seq<Section>, ghost d: nat, ghost p: Path)
      requires activeSections != [] && Spent(secs, d, p)
      modifies this`activeSections
      ensures Spent(secs, d, p) && activeSections == old(activeSections[..|activeSections| - 1])
    {
      activeSections := activeSections[..|activeSections| - 1];
    }

    lemma ClosableIsPassing(secs: seq<Section>, d: nat, c: Path)
      requires Closable(secs, d, c)
      ensures Passing(StatesOf(nodes), secs, d, c)
    {
      var were := StatesOf(nodes);
      if At(secs, c) == [] {
        forall q | q <= c ensures q in nodes {
          AncestorsExist(nodes, ChildrenOf(nodes), trackerContext.rootTracker, secs, c, q);
        }
        LeafVisits(nodes.Keys, secs, d, c);
        forall q | q in were && !(q <= c) ensures were[q] == Between(secs, q, d + 1) {
          LeafClosed(were, secs, d, c, q);
        }
      }
    }

    lemma BeforePass(secs: seq<Section>, d: nat, p: Path, i: nat)
      requires Closable(secs, d, p + [i]) && p in nodes && i < |nodes[p].children|
      ensures Passing(StatesOf(nodes), secs, d, p + [i]) && nodes[p + [i]].parent == nodes[p]
      ensures IsPath(secs, p) && i < |At(secs, p)|
    {
      ClosableIsPassing(secs, d, p + [i]);
      ParentBeforeClose(secs, d, p + [i]);
      assert (p + [i])[..|p|] == p;
      ParentOfPath(secs, p + [i]);
    }

    lemma SectionPassed(were: map<Path, CycleState>, secs: seq<Section>, d: nat, p: Path, i: nat)
      requires trackerContext.rootTracker != null && trackerContext.rootTracker.runState == ExecutingChildren
      requires Shape(nodes, ChildrenOf(nodes), trackerContext.rootTracker, secs)
      requires p in nodes && IsPath(secs, p) && i < |At(secs, p)| && i < |nodes[p].children|
      requires trackerContext.currentTracker == nodes[p] && trackerContext.runState == CompletedCycle
      requires Passing(were, secs, d, p + [i]) && nodes.Keys == were.Keys
      requires StatesOf(nodes) == were[p + [i] := Between(secs, p + [i], d + 1)]
      ensures Spent(secs, d, p) && d < First(secs, p) + Before(At(secs, p), i + 1)
    {
      var c := p + [i];
      Child(secs, p, i);
      PassedStates(were, secs, d, p, i);
    }

    /** The test body below the node at `path`: each section runs if the tracker lets it start, and a
        node without sections is a leaf whose code runs. Exactly leaf `d` runs. */
    method RunBody(body: seq<Section>, path: Path, ghost secs: seq<Section>, ghost d: nat)
      requires DistinctNames(secs) && Ready(secs, d, path) && body == At(secs, path) && d < |Leaves(secs)|
      modifies this`activeSections, this`nodes, this`executed
      modifies trackerContext`currentTracker, trackerContext`runState, Trackers()`runState, nodes.Values`children
      ensures Closable(secs, d, path)
      ensures activeSections == old(activeSections) && executed == old(executed) + [Leaves(secs)[d]]
      ensures forall q :: q in old(nodes) ==> q in nodes && nodes[q] == old(nodes)[q]
      ensures forall t :: t in nodes.Values ==> t in old(nodes.Values) || fresh(t)
      decreases body, 1
    {
      if body == [] {
        RunLeaf(path, secs, d);
      } else {
        RunSections(body, path, secs, d);
      }
    }

    method RunSections(body: seq<Section>, path: Path, ghost secs: seq<Section>, ghost d: nat)
      requires DistinctNames(secs) && Ready(secs, d, path) && body == At(secs, path) && d < |Leaves(secs)| && body != []
      modifies this`activeSections, this`nodes, this`executed
      modifies trackerContext`currentTracker, trackerContext`runState, Trackers()`runState, nodes.Values`children
      ensures Closable(secs, d, path)
      ensures activeSections == old(activeSections) && executed == old(executed) + [Leaves(secs)[d]]
      ensures forall q :: q in old(nodes) ==> q in nodes && nodes[q] == old(nodes)[q]
      ensures forall t :: t in nodes.Values ==> t in old(nodes.Values) || fresh(t)
      decreases body, 0
    {
      hide Scanning, Ready, Spent, Closable;
      ReadyIsScanning(secs, d, path);
      for i := 0 to |body|
        invariant Scanning(secs, d, path, i)
        invariant activeSections == old(activeSections)
        invariant executed == old(executed) + if trackerContext.runState == CompletedCycle then [Leaves(secs)[d]]
            else []
        invariant forall q :: q in old(nodes) ==> q in nodes && nodes[q] == old(nodes)[q]
        invariant forall t :: t in nodes.Values ==> t in old(nodes.Values) || fresh(t)
      {
        RunSection(body[i], path, i, secs, d);
      }
      AllSectionsPassed(secs, d, path);
    }

    lemma ReadyIsScanning(secs: seq<Section>, d: nat, p: Path)
      requires Ready(secs, d, p)
      ensures Scanning(secs, d, p, 0) && trackerContext.runState == RunExecuting && IsPath(secs, p) && p in nodes
    {
    }

    lemma ScanningIsOnPath(secs: seq<Section>, d: nat, p: Path, i: nat)
      requires Scanning(secs, d, p, i)
      ensures IsPath(secs, p)
    {
    }

    lemma AllSectionsPassed(secs: seq<Section>, d: nat, p: Path)
      requires IsPath(secs, p) && At(secs, p) != [] && Scanning(secs, d, p, |At(secs, p)|)
      ensures trackerContext.runState == CompletedCycle && Closable(secs, d, p)
    {
      assert NodeShape(nodes, ChildrenOf(nodes), trackerContext.rootTracker, secs, p);
    }

    method RunLeaf(path: Path, ghost secs: seq<Section>, ghost d: nat)
      requires Ready(secs, d, path) && At(secs, path) == [] && d < |Leaves(secs)|
      modifies this`executed
      ensures Closable(secs, d, path) && executed == old(executed) + [Leaves(secs)[d]]
    {
      LeafAtItsPlace(secs, path);
      executed := executed + [path];
    }

    /** `if (Section s = ...) { body }` */
    method RunSection(section: Section, path: Path, i: nat, ghost secs: seq<Section>, ghost d: nat)
      requires DistinctNames(secs) && Scanning(secs, d, path, i) && i < |At(secs, path)| && section == At(secs, path)[i]
      requires d < |Leaves(secs)|
      modifies this`activeSections, this`nodes, this`executed
      modifies trackerContext`currentTracker, trackerContext`runState, Trackers()`runState, nodes.Values`children
      ensures Scanning(secs, d, path, i + 1)
      ensures activeSections == old(activeSections)
      ensures executed == old(executed) + if old(trackerContext.runState) != CompletedCycle
          && trackerContext.runState == CompletedCycle then [Leaves(secs)[d]] else []
      ensures old(trackerContext.runState) == CompletedCycle ==> trackerContext.runState == CompletedCycle
      ensures forall q :: q in old(nodes) ==> q in nodes && nodes[q] == old(nodes)[q]
      ensures forall t :: t in nodes.Values ==> t in old(nodes.Values) || fresh(t)
      decreases section
    {
      hide Scanning, Ready, Spent, Closable;
      ScanningIsOnPath(secs, d, path, i);
      Child(secs, path, i);
      var started := SectionStarted(section.name, secs, d, path, i);
      if started {
        RunStarted(section.body, path, i, secs, d);
      }
    }

    method RunStarted(body: seq<Section>, path: Path, i: nat, ghost secs: seq<Section>, ghost d: nat)
      requires DistinctNames(secs) && Ready(secs, d, path + [i]) && body == At(secs, path + [i]) && d < |Leaves(secs)|
      requires activeSections != [] && activeSections[|activeSections| - 1] == nodes[path + [i]]
      modifies this`activeSections, this`nodes, this`executed
      modifies trackerContext`currentTracker, trackerContext`runState, Trackers()`runState, nodes.Values`children
      ensures Scanning(secs, d, path, i + 1) && trackerContext.runState == CompletedCycle
      ensures activeSections == old(activeSections)[..|old(activeSections)| - 1] && executed == old(executed)
          + [Leaves(secs)[d]]
      ensures forall q :: q in old(nodes) ==> q in nodes && nodes[q] == old(nodes)[q]
      ensures forall t :: t in nodes.Values ==> t in old(nodes.Values) || fresh(t)
      decreases body, 2
    {
      hide Scanning, Ready, Spent, Closable;
      ReadyIsScanning(secs, d, path + [i]);
      RunBody(body, path + [i], secs, d);
      ClosableHasParent(secs, d, path, i);
      SectionEnded(secs, d, path, i);
    }

    lemma ClosableHasParent(secs: seq<Section>, d: nat, p: Path, i: nat)
      requires Closable(secs, d, p + [i])
      ensures p in nodes && i < |nodes[p].children|
    {
      assert NodeShape(nodes, ChildrenOf(nodes), trackerContext.rootTracker, secs, p + [i]);
      assert (p + [i])[..|p|] == p;
    }

    /** Between cycles: `d` leaves have run, and the test case's tracker, if made, is the root's only child. */
    ghost predicate Resting(name: string, secs: seq<Section>, d: nat)
      reads this`nodes, trackerContext, Trackers()
    {
      && trackerContext.rootTracker != null
      && Rests(nodes, StatesOf(nodes), ChildrenOf(nodes), trackerContext.rootTracker, secs, d)
      && trackerContext.rootTracker.children == (if [] in nodes then [nodes[[]]] else [])
      && ([] in nodes ==> nodes[[]].name == name)
      && ([] !in nodes ==> nodes == map[])
    }

    /** Lines 6089-6090: a new cycle, with the test case's tracker acquired and open. */
    method StartCase(name: string, ghost secs: seq<Section>, ghost d: nat)
      requires Resting(name, secs, d) && d < LeafCount(secs)
      modifies this`nodes, this`testCaseTracker, trackerContext`currentTracker, trackerContext`runState, Trackers()
      ensures Ready(secs, d, []) && [] in nodes && testCaseTracker == nodes[[]] && nodes[[]].name == name
      ensures trackerContext.rootTracker != null && trackerContext.rootTracker !in nodes.Values
      ensures trackerContext.rootTracker.children == [nodes[[]]]
      ensures forall t :: t in nodes.Values ==> t in old(nodes.Values) || fresh(t)
    {
      hide Rests, Ready;
      ghost var before, were, kids := nodes, StatesOf(nodes), ChildrenOf(nodes);
      RestingRoot(name, secs, d);
      trackerContext.StartCycle();
      testCaseTracker := AcquireCase(name, secs, d);
      nodes := nodes[[] := testCaseTracker];
      CaseReady(before, were, kids, secs, d);
    }

    lemma RestingRoot(name: string, secs: seq<Section>, d: nat)
      requires Resting(name, secs, d)
      ensures trackerContext.rootTracker !in nodes.Values && forall q :: q in nodes ==> nodes[q].path == q
    {
      OneTrackerPerNode(nodes, ChildrenOf(nodes), trackerContext.rootTracker, secs);
    }

    /** The test case's tracker has been acquired and opened, and nothing else has changed. */
    ghost predicate CaseAcquired(before: map<Path, Tracker>, were: map<Path, CycleState>, kids: map<Path, seq<Tracker>>)
      requires were.Keys == kids.Keys == before.Keys
      reads this`nodes, trackerContext, Trackers()
    {
      && trackerContext.rootTracker != null && trackerContext.rootTracker.runState == ExecutingChildren
      && [] in nodes && trackerContext.currentTracker == nodes[[]] && trackerContext.runState == RunExecuting
      && nodes[[]].runState == Executing && nodes == before[[] := nodes[[]]]
      && (forall q :: q in before && q != [] ==> nodes[q].runState == were[q])
      && (forall q :: q in before ==> nodes[q].children == kids[q])
      && if [] in before then nodes[[]] == before[[]]
         else before == map[] && nodes[[]].children == [] && nodes[[]].path == [] && nodes[[]].depth == 1
              && nodes[[]].parent == trackerContext.rootTracker && nodes[[]] != trackerContext.rootTracker
    }

    lemma CaseReady(before: map<Path, Tracker>, were: map<Path, CycleState>, kids: map<Path, seq<Tracker>>,
        secs: seq<Section>, d: nat)
      requires were.Keys == kids.Keys == before.Keys && CaseAcquired(before, were, kids) && d < LeafCount(secs)
      requires Rests(before, were, kids, trackerContext.rootTracker, secs, d)
      ensures Ready(secs, d, []) && trackerContext.rootTracker !in nodes.Values
    {
      if [] in before {
        assert nodes == before && ChildrenOf(nodes) == kids;
      }
      assert Shape(nodes, ChildrenOf(nodes), trackerContext.rootTracker, secs);
      CaseStates(were, secs, d);
    }

    lemma CaseStates(were: map<Path, CycleState>, secs: seq<Section>, d: nat)
      requires [] in nodes && nodes[[]].runState == Executing && nodes.Keys == were.Keys + {[]}
      requires forall q :: q in were && q != [] ==> nodes[q].runState == were[q]
      requires Idle(were, secs, d)
      ensures States(StatesOf(nodes), secs, d, [], Executing)
    {
      var m := StatesOf(nodes);
      forall q | q in m ensures IsPath(secs, q) && m[q] == StateOf(secs, q, d, [], Executing) {
        assert q != [] ==> q in were;
      }
    }

    method AcquireCase(name: string, ghost secs: seq<Section>, ghost d: nat) returns (t: Tracker)
      requires Resting(name, secs, d) && d < LeafCount(secs)
      requires trackerContext.currentTracker == trackerContext.rootTracker && trackerContext.runState == RunExecuting
      modifies trackerContext`currentTracker, Trackers()
      ensures t.name == name && t.parent == trackerContext.rootTracker && t.runState == Executing
          && trackerContext.currentTracker == t
      ensures [] in nodes ==> t == nodes[[]] && t.children == old(nodes[[]].children)
      ensures [] !in nodes ==> fresh(t) && t.children == [] && t.path == [] && t.depth == 1
      ensures trackerContext.rootTracker.children == [t] && trackerContext.rootTracker.runState == ExecutingChildren
      ensures forall q :: q in nodes && q != [] ==>
                nodes[q].runState == old(nodes[q].runState) && nodes[q].children == old(nodes[q].children)
    {
      hide Rests;
      BeforeCase(name, secs, d);
      t := trackerContext.Acquire(name, Trackers(), []);
    }

    lemma BeforeCase(name: string, secs: seq<Section>, d: nat)
      requires Resting(name, secs, d) && d < LeafCount(secs)
      ensures var root := trackerContext.rootTracker;
              && root.parent == null && root.depth == 0 && root !in nodes.Values
              && (forall c :: c in root.children ==> c in Trackers() && c.parent == root)
              && (HasChild(root.children, name) <==> [] in nodes)
              && (forall t :: FirstNamed(root.children, name, t) ==> [] in nodes && t == nodes[[]])
      ensures Closed(Trackers())
      ensures [] in nodes ==> !Completes(nodes[[]].runState)
      ensures forall q :: q in nodes ==> nodes[q].path == q
    {
      TrackersAreClosed(secs);
      OneTrackerPerNode(nodes, ChildrenOf(nodes), trackerContext.rootTracker, secs);
      if [] in nodes {
        assert nodes[[]].runState == StatesOf(nodes)[[]];
        assert trackerContext.rootTracker.children[0].name == name;
      }
    }

    /** Lines 6087-6092 for one cycle: exactly leaf `d` runs, and the test case's tracker completes
        exactly when no leaf is left. */
    method RunCycle(name: string, secs: seq<Section>, ghost d: nat)
      requires DistinctNames(secs) && Resting(name, secs, d) && d < LeafCount(secs) == |Leaves(secs)|
      modifies this, trackerContext`currentTracker, trackerContext`runState, Trackers()
      ensures Resting(name, secs, d + 1)
      ensures executed == old(executed) + [Leaves(secs)[d]] && activeSections == old(activeSections)
      ensures testCaseTracker != null && (testCaseTracker.runState == CompletedSuccessfully
          <==> d + 1 == LeafCount(secs))
      ensures forall t :: t in nodes.Values ==> t in old(nodes.Values) || fresh(t)
    {
      hide Resting, Ready, Closable;
      StartCase(name, secs, d);
      ghost var node, root := nodes[[]], trackerContext.rootTracker;
      RunBody(secs, [], secs, d);
      assert root.children == [node];
      FinishCase(name, secs, d);
    }

    /** Line 6272. */
    method FinishCase(name: string, ghost secs: seq<Section>, ghost d: nat)
      requires Closable(secs, d, []) && testCaseTracker == nodes[[]] && nodes[[]].name == name
      requires trackerContext.rootTracker.children == [nodes[[]]]
      modifies trackerContext`currentTracker, trackerContext`runState, testCaseTracker`runState
      ensures Resting(name, secs, d + 1)
      ensures testCaseTracker.runState == CompletedSuccessfully <==> d + 1 == LeafCount(secs)
    {
      ghost var were := StatesOf(nodes);
      ClosableIsPassing(secs, d, []);
      ParentBeforeClose(secs, d, []);
      CloseNode(testCaseTracker, secs, d, []);
      StatesAfterClose(were, []);
    }

    /** Lines 6074-6095 for a body whose assertions all pass and which uses no generators: every leaf of
        the body runs exactly once, in order, one to a cycle. */
    method RunTest(name: string, secs: seq<Section>) returns (cycles: nat)
      requires DistinctNames(secs)
      modifies this, trackerContext
      ensures executed == old(executed) + Leaves(secs)
      ensures cycles == LeafCount(secs) == |Leaves(secs)|
      ensures activeSections == old(activeSections)
    {
      hide Resting, Leaves, LeafCount;
      LeavesAreCounted(secs);
      trackerContext.StartRun();
      nodes, cycles := map[], 0;
      NothingRun(name, secs);
      var again := true;
      while again
        invariant cycles <= LeafCount(secs) && (again <==> cycles < LeafCount(secs))
        invariant Resting(name, secs, cycles)
        invariant executed == old(executed) + Leaves(secs)[..cycles] && activeSections == old(activeSections)
        invariant trackerContext.rootTracker != null && fresh(trackerContext.rootTracker)
        invariant forall t :: t in nodes.Values ==> fresh(t)
        decreases LeafCount(secs) - cycles
      {
        RunCycle(name, secs, cycles);
        assert Leaves(secs)[..cycles + 1] == Leaves(secs)[..cycles] + [Leaves(secs)[cycles]];
        cycles := cycles + 1;
        again := testCaseTracker.runState != CompletedSuccessfully;
      }
      assert Leaves(secs)[..cycles] == Leaves(secs);
    }

    lemma NothingRun(name: string, secs: seq<Section>)
      requires trackerContext.rootTracker != null && trackerContext.rootTracker.children == []
      requires trackerContext.rootTracker.parent == null && trackerContext.rootTracker.depth == 0 && nodes == map[]
      ensures Resting(name, secs, 0)
    {
    }
  }
}
