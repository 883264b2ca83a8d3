/** The execution half of a replica: trackers, the Tarjan traversal, readiness and tryExecute. */
module Executor {
  import opened Types
  import opened Graph
  import opened Execution
  import T = Tarjan

  /** A lane's instances occupy the positions first <= i < last of the sorted view. */
  datatype Window = Window(first: nat, last: nat)

  datatype View = View(refs: seq<InstanceRef>, lanes: map<Lane, Window>)

  ghost predicate Sorted(refs: seq<InstanceRef>) {
    forall i, j | 0 <= i < j < |refs| :: LessRef(refs[i], refs[j])
  }

  ghost predicate WindowOf(refs: seq<InstanceRef>, lane: Lane, w: Window) {
    && w.first < w.last <= |refs|
    && forall i | 0 <= i < |refs| :: LaneFor(refs[i]) == lane <==> w.first <= i < w.last
  }

  ghost predicate ViewOf(view: View, instances: Instances) {
    && Sorted(view.refs) && Members(view.refs) == instances.Keys
    && (forall lane :: LaneIndexed(view, lane))
  }

  ghost predicate LaneIndexed(view: View, lane: Lane) {
    if lane in view.lanes then WindowOf(view.refs, lane, view.lanes[lane])
    else forall i | 0 <= i < |view.refs| :: LaneFor(view.refs[i]) != lane
  }

  /** Insertion keeps a reference list sorted; the view is built one reference at a time. */
  method InsertSorted(refs: seq<InstanceRef>, ref: InstanceRef) returns (out: seq<InstanceRef>)
    requires Sorted(refs) && ref !in refs
    ensures Sorted(out) && Members(out) == Members(refs) + {ref}
  {
    var i := 0;
    while i < |refs| && LessRef(refs[i], ref)
      invariant 0 <= i <= |refs|
      invariant forall j | 0 <= j < i :: LessRef(refs[j], ref)
    {
      i := i + 1;
    }
    out := refs[..i] + [ref] + refs[i..];
    assert refs == refs[..i] + refs[i..];
    if i < |refs| {
      assert refs[i] != ref;
    }
  }

  method SortedRefs(instances: Instances) returns (refs: seq<InstanceRef>)
    ensures Sorted(refs) && Members(refs) == instances.Keys
  {
    refs := [];
    var rest := instances.Keys;
    while rest != {}
      invariant Sorted(refs) && Members(refs) !! rest && Members(refs) + rest == instances.Keys
    {
      var ref :| ref in rest;
      assert ref !in Members(refs);
      refs := InsertSorted(refs, ref);
      rest := rest - {ref};
    }
  }

  method NewExecutionView(instances: Instances) returns (view: View)
    ensures ViewOf(view, instances)
  {
    var refs := SortedRefs(instances);
    var lanes: map<Lane, Window> := map[];
    var first := 0;
    while first < |refs|
      invariant 0 <= first <= |refs|
      invariant first < |refs| ==> forall i | 0 <= i < first :: LaneFor(refs[i]) != LaneFor(refs[first])
      invariant forall lane <- lanes :: WindowOf(refs, lane, lanes[lane])
      invariant forall i | 0 <= i < first :: LaneFor(refs[i]) in lanes
      invariant forall i | first <= i < |refs| :: LaneFor(refs[i]) !in lanes
    {
      var lane := LaneFor(refs[first]);
      var last := first + 1;
      while last < |refs| && LaneFor(refs[last]) == lane
        invariant first < last <= |refs|
        invariant forall i | first <= i < last :: LaneFor(refs[i]) == lane
      {
        last := last + 1;
      }
      forall i | last <= i < |refs|
        ensures LaneFor(refs[i]) != lane
      {
        assert LessRef(refs[first], refs[last]);
        assert last < i ==> LessRef(refs[last], refs[i]);
      }
      lanes := lanes[lane := Window(first, last)];
      if last < |refs| {
        forall i | 0 <= i < last
          ensures LaneFor(refs[i]) != LaneFor(refs[last])
        {
          assert i < first ==> LessRef(refs[i], refs[first]) && LessRef(refs[first], refs[last]);
        }
      }
      first := last;
    }
    view := View(refs, lanes);
  }

  /** sort.Search over a lane window: the first position whose instance number exceeds through. */
  method SearchWindow(refs: seq<InstanceRef>, w: Window, through: InstanceNum) returns (end: nat)
    requires Sorted(refs) && w.first < w.last <= |refs|
    requires forall i | w.first <= i < w.last :: LaneFor(refs[i]) == LaneFor(refs[w.first])
    ensures w.first <= end <= w.last
    ensures forall i | w.first <= i < w.last :: refs[i].inst <= through <==> i < end
  {
    var lo, hi := w.first, w.last;
    while lo < hi
      invariant w.first <= lo <= hi <= w.last
      invariant forall i | w.first <= i < lo :: refs[i].inst <= through
      invariant forall i | hi <= i < w.last :: refs[i].inst > through
    {
      var mid := (lo + hi) / 2;
      if refs[mid].inst > through {
        forall i | mid <= i < w.last
          ensures refs[i].inst > through
        {
          assert mid < i ==> LessRef(refs[mid], refs[i]);
        }
        hi := mid;
      } else {
        forall i | w.first <= i <= mid
          ensures refs[i].inst <= through
        {
          assert i < mid ==> LessRef(refs[i], refs[mid]);
        }
        lo := mid + 1;
      }
    }
    end := lo;
  }

  /** The instances of one lane up to through, base left out. */
  method WindowRefs(view: View, instances: Instances, lane: Lane, through: InstanceNum, base: InstanceRef)
    returns (out: seq<InstanceRef>)
    requires ViewOf(view, instances)
    ensures forall x :: x in out <==> x in instances && LaneFor(x) == lane && x.inst <= through && x != base
  {
    out := [];
    assert LaneIndexed(view, lane);
    if lane !in view.lanes {
      assert forall x :: x in instances ==> x in Members(view.refs);
      return;
    }
    var w := view.lanes[lane];
    var end := SearchWindow(view.refs, w, through);
    var current := w.first;
    while current < end
      invariant w.first <= current <= end
      invariant forall x <- out :: x in Members(view.refs) && LaneFor(x) == lane && x.inst <= through && x != base
      invariant forall i | w.first <= i < current :: view.refs[i] == base || view.refs[i] in out
    {
      if view.refs[current] != base {
        out := out + [view.refs[current]];
      }
      current := current + 1;
    }
    forall x | x in instances && LaneFor(x) == lane && x.inst <= through && x != base
      ensures x in out
    {
      assert x in Members(view.refs);
      var i :| 0 <= i < |view.refs| && view.refs[i] == x;
    }
  }

  /** Everything the dependency iterator of base yields: the materialized instances its prefixes cover. */
  method DependencyRefs(view: View, instances: Instances, confs: Confs,
                        base: InstanceRef) returns (out: seq<InstanceRef>)
    requires ViewOf(view, instances) && base in instances
    ensures forall x :: x in out <==>
              && x in instances && x != base && x.conf == base.conf
              && CoveredBelow(Voters(confs, base.conf), instances[base].deps, |instances[base].deps|, x)
  {
    var deps, voters := instances[base].deps, Voters(confs, base.conf);
    out := [];
    var slot := 0;
    while slot < |deps| && slot < |voters|
      invariant 0 <= slot <= |deps| && slot <= |voters|
      invariant forall x :: x in out <==>
                  x in instances && x != base && x.conf == base.conf && CoveredBelow(voters, deps, slot, x)
    {
      CoveredStep(voters, deps, slot);
      if deps[slot] != 0 {
        var more := WindowRefs(view, instances, Lane(base.conf, voters[slot]), deps[slot], base);
        out := out + more;
      }
      slot := slot + 1;
    }
    assert forall x, k :: CoveredBy(voters, deps, slot, x, k) <==> CoveredBy(voters, deps, |deps|, x, k);
  }

  /** Covered by one of the first limit prefixes, empty prefixes ignored as the iterator does. */
  ghost predicate CoveredBelow(voters: seq<ReplicaID>, deps: seq<InstanceNum>, limit: int, x: InstanceRef) {
    exists slot :: CoveredBy(voters, deps, limit, x, slot)
  }

  ghost predicate CoveredBy(voters: seq<ReplicaID>, deps: seq<InstanceNum>, limit: int, x: InstanceRef, slot: int) {
    && 0 <= slot < limit && slot < |deps| && slot < |voters|
    && deps[slot] != 0 && voters[slot] == x.replica && x.inst <= deps[slot]
  }

  lemma CoveredStep(voters: seq<ReplicaID>, deps: seq<InstanceNum>, slot: nat)
    requires slot < |deps| && slot < |voters|
    ensures forall x :: CoveredBelow(voters, deps, slot + 1, x) <==>
              CoveredBelow(voters, deps, slot, x) || CoveredBy(voters, deps, slot + 1, x, slot)
  {
    var next := slot + 1;
    forall x
      ensures CoveredBelow(voters, deps, next, x) <==>
              CoveredBelow(voters, deps, slot, x) || CoveredBy(voters, deps, next, x, slot)
    {
      if k :| CoveredBy(voters, deps, next, x, k) {
        assert k < slot ==> CoveredBy(voters, deps, slot, x, k);
      }
      if k :| CoveredBy(voters, deps, slot, x, k) {
        assert CoveredBy(voters, deps, next, x, k);
      }
    }
  }

  lemma CoveredIs(voters: seq<ReplicaID>, deps: seq<InstanceNum>, x: InstanceRef)
    requires x.inst != 0
    ensures CoveredBelow(voters, deps, |deps|, x) <==> Covers(voters, deps, x)
  {
    if Covers(voters, deps, x) {
      var k :| 0 <= k < |deps| && k < |voters| && voters[k] == x.replica && x.inst <= deps[k];
      assert CoveredBy(voters, deps, |deps|, x, k);
    }
  }

  /** What is left of the traversal once its numbering is fixed: iterators to drain, then frames to leave. */
  function Remaining(dfs: seq<T.Frame>): nat {
    if dfs == [] then 0
    else Remaining(dfs[..|dfs| - 1]) + 2 * |dfs[|dfs| - 1].todo| + 1
  }

  /** The traversal's edge test: a committed, unexecuted dependency that is not known to come after. */
  predicate Follows(s: State, base: InstanceRef, dep: InstanceRef) {
    && !s.executed.Contains(dep) && IsFinal(s, dep)
    && !(KnownAfter(s, base, dep, Committed)
         && base in s.instances && !s.instances[base].kind.Checkpoint? && !s.instances[dep].kind.Checkpoint?)
  }

  lemma FollowsIsEdge(s: State, base: InstanceRef, dep: InstanceRef)
    requires WellFormed(s) && Pending(s, base) && dep in s.instances && dep != base && dep.conf == base.conf
    requires CoveredBelow(Voters(s.confs, base.conf), s.instances[base].deps, |s.instances[base].deps|, dep)
    ensures Follows(s, base, dep) <==> Edge(PendingGraph(s), base, dep)
  {
    CoveredIs(Voters(s.confs, base.conf), s.instances[base].deps, dep);
  }

  ghost predicate Yields(s: State, base: InstanceRef, dep: InstanceRef) {
    && base in s.instances && dep in s.instances && dep != base && dep.conf == base.conf
    && CoveredBelow(Voters(s.confs, base.conf), s.instances[base].deps, |s.instances[base].deps|, dep)
  }

  /** Every dependency an iterator still holds is one its frame's vertex covers. */
  ghost predicate Iterators(s: State, dfs: seq<T.Frame>) {
    forall i, y :: IteratorAt(s, dfs, i, y)
  }

  ghost predicate IteratorAt(s: State, dfs: seq<T.Frame>, i: int, y: InstanceRef) {
    0 <= i < |dfs| && y in dfs[i].todo ==> Yields(s, dfs[i].vertex, y)
  }

  /** The scan of the top frame's iterator: it stops at the first unseen edge or runs dry. */
  method Scan(s: State, w0: T.Workspace) returns (w: T.Workspace, advanced: bool)
    requires WellFormed(s) && T.Invariant(PendingGraph(s), w0) && Iterators(s, w0.dfs)
    requires w0.dfs != [] && T.Top(w0).entered && T.Top(w0).child.None?
    ensures T.Invariant(PendingGraph(s), w) && Iterators(s, w.dfs) && w.index == w0.index && w.dfs != []
    ensures advanced ==> Remaining(w.dfs) < Remaining(w0.dfs)
    ensures !advanced ==> T.Finished(PendingGraph(s), w) && Remaining(w.dfs) <= Remaining(w0.dfs)
  {
    w := w0;
    while T.Top(w).todo != []
      invariant T.Invariant(PendingGraph(s), w) && Iterators(s, w.dfs) && w.index == w0.index
      invariant w.dfs != [] && T.Top(w).entered && T.Top(w).child.None?
      invariant Remaining(w.dfs) <= Remaining(w0.dfs)
      decreases |T.Top(w).todo|
    {
      var base, dep := T.Top(w).vertex, T.Top(w).todo[0];
      assert IteratorAt(s, w.dfs, |w.dfs| - 1, dep) && T.OnStack(w, |w.dfs| - 1);
      assert T.NumberedBelow(PendingGraph(s), w, base);
      FollowsIsEdge(s, base, dep);
      ghost var prev := w;
      if !Follows(s, base, dep) {
        T.SkipInvariant(PendingGraph(s), w);
        w := T.Skip(w);
      } else if dep !in w.index {
        T.DescendInvariant(PendingGraph(s), w);
        w := T.Descend(w);
        DescendRemaining(s, prev);
        return w, true;
      } else {
        T.RelaxInvariant(PendingGraph(s), w);
        w := T.Relax(w);
      }
      TopRemaining(s, prev, w);
    }
    assert T.OnStack(w, |w.dfs| - 1);
    advanced := false;
  }

  lemma TopRemaining(s: State, w: T.Workspace, w': T.Workspace)
    requires w.dfs != [] && w'.dfs != [] && T.Top(w).todo != [] && Iterators(s, w.dfs)
    requires w'.dfs == w.dfs[|w.dfs| - 1 := T.Top(w')] && T.Top(w').todo == T.Top(w).todo[1..]
    requires T.Top(w').vertex == T.Top(w).vertex
    ensures Remaining(w'.dfs) < Remaining(w.dfs) && Iterators(s, w'.dfs)
  {
    assert w'.dfs[..|w'.dfs| - 1] == w.dfs[..|w.dfs| - 1];
    forall i, y
      ensures IteratorAt(s, w'.dfs, i, y)
    {
      assert IteratorAt(s, w.dfs, i, y);
    }
  }

  lemma DescendRemaining(s: State, w: T.Workspace)
    requires w.dfs != [] && T.Top(w).todo != [] && Iterators(s, w.dfs)
    ensures var w' := T.Descend(w); Remaining(w'.dfs) < Remaining(w.dfs) && Iterators(s, w'.dfs)
  {
    var w' := T.Descend(w);
    var k := |w.dfs| - 1;
    assert w'.dfs[..k + 1][..k] == w.dfs[..k];
    forall i, y
      ensures IteratorAt(s, w'.dfs, i, y)
    {
      assert IteratorAt(s, w.dfs, i, y);
    }
  }

  lemma StackedOnce(w: T.Workspace, k: nat)
    requires T.StackOrder(w) && k < |w.stack|
    ensures w.stack[k] !in Members(w.stack[k + 1..])
  {
    forall i | k < i < |w.stack|
      ensures w.stack[i] != w.stack[k]
    {
      assert T.StackedBelow(w, k, i);
    }
  }

  /** The pop loop: everything above the finished vertex leaves the stack, the vertex last. */
  method PopComponent(w: T.Workspace) returns (k: nat, component: seq<InstanceRef>)
    requires T.StackOrder(w) && w.dfs != [] && T.Top(w).vertex in w.stack
    ensures T.Popped(w, k, component)
  {
    var v := T.Top(w).vertex;
    k := |w.stack|;
    component := [];
    ghost var top :| 0 <= top < |w.stack| && w.stack[top] == v;
    while true
      invariant top < k <= |w.stack|
      invariant Members(component) == Members(w.stack[k..]) && |component| == |w.stack| - k
      invariant NoDuplicates(component)
      decreases k
    {
      k := k - 1;
      var member := w.stack[k];
      assert w.stack[k..] == [member] + w.stack[k + 1..];
      StackedOnce(w, k);
      MembersConcat([member], w.stack[k + 1..]);
      MembersConcat(component, [member]);
      component := component + [member];
      if member == v {
        return;
      }
    }
  }

  /** A vertex met for the first time is numbered and its iterator opened. */
  method Open(s: State, view: View, w0: T.Workspace) returns (w: T.Workspace)
    requires WellFormed(s) && ViewOf(view, s.instances)
    requires T.Invariant(PendingGraph(s), w0) && Iterators(s, w0.dfs) && w0.dfs != [] && !T.Top(w0).entered
    ensures T.Invariant(PendingGraph(s), w) && Iterators(s, w.dfs)
    ensures w.dfs != [] && T.Top(w).entered && T.Top(w).child.None?
    ensures w0.index.Keys < w.index.Keys && T.Top(w0).vertex in w.index
  {
    var v := T.Top(w0).vertex;
    var deps := DependencyRefs(view, s.instances, s.confs, v);
    DependenciesYield(s, v, deps);
    T.EnterInvariant(PendingGraph(s), w0, deps);
    w := T.Enter(w0, deps);
    EnterIterators(s, w0, deps);
  }

  /** The start of a round: number the top vertex and open its iterator, or take over what its child reached. */
  method Begin(s: State, view: View, w0: T.Workspace) returns (w: T.Workspace)
    requires WellFormed(s) && ViewOf(view, s.instances)
    requires T.Invariant(PendingGraph(s), w0) && Iterators(s, w0.dfs) && w0.dfs != []
    ensures T.Invariant(PendingGraph(s), w) && Iterators(s, w.dfs)
    ensures w.dfs != [] && T.Top(w).entered && T.Top(w).child.None?
    ensures w0.index.Keys < w.index.Keys || (w.index == w0.index && Remaining(w.dfs) == Remaining(w0.dfs))
    ensures !T.Top(w0).entered ==> T.Top(w0).vertex in w.index
  {
    ghost var g := PendingGraph(s);
    w := w0;
    if !T.Top(w).entered {
      w := Open(s, view, w0);
    } else if T.Top(w).child.Some? {
      T.AbsorbInvariant(g, w);
      w := T.Absorb(w);
      AbsorbRemaining(s, w0);
    }
  }

  /** The end of a round whose iterator ran dry: emit the component of a root, or return to the parent. */
  method Leave(s: State, w0: T.Workspace) returns (w: T.Workspace)
    requires WellFormed(s) && T.Finished(PendingGraph(s), w0) && Iterators(s, w0.dfs)
    ensures T.Invariant(PendingGraph(s), w) && Iterators(s, w.dfs)
    ensures w.index == w0.index && Remaining(w.dfs) < Remaining(w0.dfs)
  {
    ghost var g := PendingGraph(s);
    var v := T.Top(w0).vertex;
    if w0.low[v] == w0.index[v] {
      assert T.OnStack(w0, |w0.dfs| - 1);
      var k, component := PopComponent(w0);
      T.EmitInvariant(g, w0, k, component);
      w := T.Emit(w0, k, component);
    } else {
      T.ReturnInvariant(g, w0);
      w := T.Return(w0);
    }
    LeaveIterators(s, w0, w);
  }

  /** One round of the traversal loop: enter or resume the top frame, scan it, and leave it when it runs dry. */
  method Visit(s: State, view: View, w0: T.Workspace) returns (w: T.Workspace)
    requires WellFormed(s) && ViewOf(view, s.instances)
    requires T.Invariant(PendingGraph(s), w0) && Iterators(s, w0.dfs) && w0.dfs != []
    ensures T.Invariant(PendingGraph(s), w) && Iterators(s, w.dfs)
    ensures w.index.Keys <= PendingGraph(s).Keys
    ensures w0.index.Keys < w.index.Keys || (w.index == w0.index && Remaining(w.dfs) < Remaining(w0.dfs))
    ensures !T.Top(w0).entered ==> T.Top(w0).vertex in w.index
  {
    w := Begin(s, view, w0);
    NumberedArePending(s, w);
    var advanced;
    w, advanced := Scan(s, w);
    if !advanced {
      w := Leave(s, w);
    }
  }

  /** The traversal from one root. */
  method Explore(s: State, view: View, w0: T.Workspace, root: InstanceRef) returns (w: T.Workspace)
    requires WellFormed(s) && ViewOf(view, s.instances) && Pending(s, root)
    requires T.Invariant(PendingGraph(s), w0) && w0.dfs == [] && root !in w0.index
    ensures T.Invariant(PendingGraph(s), w) && w.dfs == [] && w0.index.Keys + {root} <= w.index.Keys
  {
    ghost var g := PendingGraph(s);
    T.PushRoot(g, w0, root);
    w := T.Push(w0, root);
    while w.dfs != []
      invariant T.Invariant(g, w) && Iterators(s, w.dfs) && w0.index.Keys <= w.index.Keys
      invariant root in w.index || (w.dfs != [] && !T.Top(w).entered && T.Top(w).vertex == root)
      decreases g.Keys - w.index.Keys, Remaining(w.dfs)
    {
      w := Visit(s, view, w);
    }
  }

  lemma NumberedArePending(s: State, w: T.Workspace)
    requires T.Numbering(PendingGraph(s), w)
    ensures w.index.Keys <= PendingGraph(s).Keys
  {
    forall x <- w.index
      ensures x in PendingGraph(s)
    {
      assert T.NumberedBelow(PendingGraph(s), w, x);
    }
  }

  lemma DependenciesYield(s: State, v: InstanceRef, deps: seq<InstanceRef>)
    requires WellFormed(s) && v in PendingGraph(s)
    requires forall x :: x in deps <==>
               && x in s.instances && x != v && x.conf == v.conf
               && CoveredBelow(Voters(s.confs, v.conf), s.instances[v].deps, |s.instances[v].deps|, x)
    ensures forall y <- PendingGraph(s)[v] :: y in deps
    ensures forall y <- deps :: Yields(s, v, y)
  {
    forall y <- PendingGraph(s)[v]
      ensures y in deps
    {
      CoveredIs(Voters(s.confs, v.conf), s.instances[v].deps, y);
    }
  }

  lemma EnterIterators(s: State, w: T.Workspace, deps: seq<InstanceRef>)
    requires w.dfs != [] && Iterators(s, w.dfs) && forall y <- deps :: Yields(s, T.Top(w).vertex, y)
    ensures Iterators(s, T.Enter(w, deps).dfs)
  {
    forall i, y
      ensures IteratorAt(s, T.Enter(w, deps).dfs, i, y)
    {
      assert IteratorAt(s, w.dfs, i, y);
    }
  }

  lemma AbsorbRemaining(s: State, w: T.Workspace)
    requires w.dfs != [] && T.Top(w).child.Some? && Iterators(s, w.dfs)
    requires T.Top(w).child.value in w.low && T.Top(w).vertex in w.low
    ensures Remaining(T.Absorb(w).dfs) == Remaining(w.dfs) && Iterators(s, T.Absorb(w).dfs)
  {
    var w' := T.Absorb(w);
    assert w'.dfs[..|w'.dfs| - 1] == w.dfs[..|w.dfs| - 1];
    forall i, y
      ensures IteratorAt(s, w'.dfs, i, y)
    {
      assert IteratorAt(s, w.dfs, i, y);
    }
  }

  lemma LeaveIterators(s: State, w: T.Workspace, w': T.Workspace)
    requires w.dfs != [] && w'.dfs == w.dfs[..|w.dfs| - 1] && Iterators(s, w.dfs)
    ensures Remaining(w'.dfs) < Remaining(w.dfs) && Iterators(s, w'.dfs)
  {
    forall i, y
      ensures IteratorAt(s, w'.dfs, i, y)
    {
      assert IteratorAt(s, w.dfs, i, y);
    }
  }

  /** The components partition the committed unexecuted instances and decompose the pruned graph. */
  ghost predicate Decomposes(s: State, components: seq<seq<InstanceRef>>) {
    && T.Components(PendingGraph(s), components)
    && forall x :: PartOf(s, components, x)
  }

  ghost predicate PartOf(s: State, components: seq<seq<InstanceRef>>, x: InstanceRef) {
    Pending(s, x) <==> exists d :: T.Among(components, d, x)
  }

  /** executionComponents: the traversal from every committed unexecuted root in reference order. */
  method ExecutionComponents(s: State, view: View) returns (components: seq<seq<InstanceRef>>)
    requires WellFormed(s) && ViewOf(view, s.instances)
    ensures Decomposes(s, components)
  {
    ghost var g := PendingGraph(s);
    var w := T.EMPTY;
    T.EmptyInvariant(g);
    var r := 0;
    while r < |view.refs|
      invariant 0 <= r <= |view.refs|
      invariant T.Invariant(g, w) && w.dfs == []
      invariant forall i | 0 <= i < r :: Pending(s, view.refs[i]) ==> view.refs[i] in w.index
    {
      var root := view.refs[r];
      if Pending(s, root) && root !in w.index {
        w := Explore(s, view, w, root);
      }
      r := r + 1;
    }
    T.StackDrained(g, w);
    forall x
      ensures PartOf(s, w.components, x)
    {
      assert T.EmittedIs(w, x) && T.NumberedBelow(g, w, x);
      if Pending(s, x) {
        assert x in Members(view.refs);
        var i :| 0 <= i < |view.refs| && view.refs[i] == x;
      }
    }
    components := w.components;
  }
}
