/**
 The workspace of the iterative Tarjan traversal: one step function per branch of the
 traversal loop, and the invariant every step keeps.
 */
module Tarjan {
  import opened Types
  import opened Graph

  /** One frame of the explicit depth-first stack; todo holds the dependencies its iterator has yet to yield. */
  datatype Frame = Frame(vertex: InstanceRef, entered: bool, todo: seq<InstanceRef>, child: Option<InstanceRef>)

  /** Numbering, the Tarjan stack, the depth-first stack and the components emitted so far. */
  datatype Workspace = Workspace(
    index: map<InstanceRef, nat>,
    low: map<InstanceRef, nat>,
    onStack: set<InstanceRef>,
    emitted: set<InstanceRef>,
    stack: seq<InstanceRef>,
    dfs: seq<Frame>,
    components: seq<seq<InstanceRef>>,
    next: nat)

  const EMPTY := Workspace(map[], map[], {}, {}, [], [], [], 0)

  function Push(w: Workspace, v: InstanceRef): Workspace {
    w.(dfs := w.dfs + [Frame(v, false, [], None)])
  }

  function Top(w: Workspace): Frame
    requires w.dfs != []
  {
    w.dfs[|w.dfs| - 1]
  }

  function SetTop(w: Workspace, f: Frame): Workspace
    requires w.dfs != []
  {
    w.(dfs := w.dfs[|w.dfs| - 1 := f])
  }

  /** First visit of the top frame: number the vertex and push it on the Tarjan stack. */
  function Enter(w: Workspace, deps: seq<InstanceRef>): Workspace
    requires w.dfs != []
  {
    var v := Top(w).vertex;
    Workspace(w.index[v := w.next], w.low[v := w.next], w.onStack + {v}, w.emitted, w.stack + [v],
              w.dfs[|w.dfs| - 1 := Frame(v, true, deps, None)], w.components, w.next + 1)
  }

  /** The traversal returned from the pending child: fold its low link into the parent's. */
  function Absorb(w: Workspace): Workspace
    requires w.dfs != [] && Top(w).child.Some?
    requires Top(w).child.value in w.low && Top(w).vertex in w.low
  {
    var f := Top(w);
    var w' := SetTop(w, f.(child := None));
    if w.low[f.child.value] < w.low[f.vertex]
    then w'.(low := w.low[f.vertex := w.low[f.child.value]])
    else w'
  }

  /** The iterator yielded a dependency that is not an edge of the pruned graph. */
  function Skip(w: Workspace): Workspace
    requires w.dfs != [] && Top(w).todo != []
  {
    var f := Top(w);
    SetTop(w, f.(todo := f.todo[1..]))
  }

  /** The iterator yielded an unseen dependency: descend. */
  function Descend(w: Workspace): Workspace
    requires w.dfs != [] && Top(w).todo != []
  {
    var f := Top(w);
    Push(SetTop(w, f.(todo := f.todo[1..], child := Some(f.todo[0]))), f.todo[0])
  }

  /** The iterator yielded a numbered dependency: it lowers the link when still on the stack. */
  function Relax(w: Workspace): Workspace
    requires w.dfs != [] && Top(w).todo != []
    requires Top(w).vertex in w.low && Top(w).todo[0] in w.index
  {
    var f := Top(w);
    var d := f.todo[0];
    var w' := Skip(w);
    if d in w.onStack && w.index[d] < w.low[f.vertex]
    then w'.(low := w.low[f.vertex := w.index[d]])
    else w'
  }

  /** Return from the top frame without closing a component. */
  function Return(w: Workspace): Workspace
    requires w.dfs != []
  {
    w.(dfs := w.dfs[..|w.dfs| - 1])
  }

  /** Return from the top frame and emit everything above stack position k as a component. */
  function Emit(w: Workspace, k: nat, component: seq<InstanceRef>): Workspace
    requires w.dfs != [] && k <= |w.stack|
  {
    Return(w).(
      stack := w.stack[..k],
      onStack := w.onStack - Members(component),
      emitted := w.emitted + Members(component),
      components := w.components + [component])
  }

  /** The number of entered frames; only the last frame can be unentered. */
  function Depth(dfs: seq<Frame>): nat {
    if dfs != [] && !dfs[|dfs| - 1].entered then |dfs| - 1 else |dfs|
  }

  /** Vertices are numbered injectively below next; numbered vertices are on the stack or emitted. */
  ghost predicate Numbering(g: Graph, w: Workspace) {
    && w.index.Keys == w.low.Keys == w.onStack + w.emitted
    && w.onStack !! w.emitted
    && (forall x :: NumberedBelow(g, w, x))
    && (forall x, y :: NumberedApart(w, x, y))
  }

  ghost predicate NumberedBelow(g: Graph, w: Workspace, x: InstanceRef) {
    x in w.index ==> x in g && w.index[x] < w.next
  }

  ghost predicate NumberedApart(w: Workspace, x: InstanceRef, y: InstanceRef) {
    x in w.index && y in w.index && w.index[x] == w.index[y] ==> x == y
  }

  ghost predicate StackOrder(w: Workspace) {
    && w.onStack == Members(w.stack)
    && (forall i, j :: StackedBelow(w, i, j))
  }

  ghost predicate StackedBelow(w: Workspace, i: int, j: int) {
    0 <= i < j < |w.stack| ==>
      && w.stack[i] in w.index && w.stack[j] in w.index
      && w.index[w.stack[i]] < w.index[w.stack[j]]
  }

  /** The entered frames are on the stack in order; each frame waits for the next one's vertex. */
  ghost predicate Frames(g: Graph, w: Workspace) {
    && (forall i :: OnStack(w, i))
    && (forall i, j :: FramedBelow(w, i, j))
    && (forall i :: Waits(g, w.dfs, i))
    && (Depth(w.dfs) < |w.dfs| ==> Top(w).vertex in g && Top(w).vertex !in w.index)
  }

  ghost predicate OnStack(w: Workspace, i: int) {
    0 <= i < Depth(w.dfs) ==>
      w.dfs[i].entered && w.dfs[i].vertex in w.onStack && w.dfs[i].vertex in w.index && w.dfs[i].vertex in w.low
  }

  ghost predicate FramedBelow(w: Workspace, i: int, j: int) {
    0 <= i < j < Depth(w.dfs) ==>
      && w.dfs[i].vertex in w.index && w.dfs[j].vertex in w.index
      && w.index[w.dfs[i].vertex] < w.index[w.dfs[j].vertex]
  }

  ghost predicate Waits(g: Graph, dfs: seq<Frame>, i: int) {
    0 <= i < |dfs| - 1 ==> dfs[i].child == Some(dfs[i + 1].vertex) && Edge(g, dfs[i].vertex, dfs[i + 1].vertex)
  }

  /** A gray vertex reaches everything numbered after it that is still on the stack. */
  ghost predicate GrayReaches(g: Graph, w: Workspace) {
    forall i, x :: GrayReach(g, w, i, x)
  }

  ghost predicate GrayReach(g: Graph, w: Workspace, i: int, x: InstanceRef) {
    (&& 0 <= i < Depth(w.dfs) && x in w.onStack && x in w.index && w.dfs[i].vertex in w.index
     && w.index[w.dfs[i].vertex] <= w.index[x])
    ==> Reach(g, w.dfs[i].vertex, x)
  }

  /** Everything on the stack reaches a gray vertex numbered no later. */
  ghost predicate ReachesGray(g: Graph, w: Workspace) {
    forall x :: ReachesFrame(g, w, x)
  }

  ghost predicate ReachesFrame(g: Graph, w: Workspace, x: InstanceRef) {
    x in w.onStack ==> exists i :: FrameWitness(g, w, x, i)
  }

  ghost predicate FrameWitness(g: Graph, w: Workspace, x: InstanceRef, i: int) {
    && 0 <= i < Depth(w.dfs) && x in w.index && w.dfs[i].vertex in w.index
    && w.index[w.dfs[i].vertex] <= w.index[x] && Reach(g, x, w.dfs[i].vertex)
  }

  /** A low link is the number of a reachable stack vertex. */
  ghost predicate LowSound(g: Graph, w: Workspace) {
    forall x :: LowReached(g, w, x)
  }

  ghost predicate LowReached(g: Graph, w: Workspace, x: InstanceRef) {
    x in w.onStack ==>
      && x in w.low && x in w.index && w.low[x] <= w.index[x]
      && exists y :: LowWitness(g, w, x, y)
  }

  ghost predicate LowWitness(g: Graph, w: Workspace, x: InstanceRef, y: InstanceRef) {
    x in w.low && y in w.onStack && y in w.index && w.index[y] == w.low[x] && Reach(g, x, y)
  }

  /** Every successor of a numbered vertex is numbered, or a gray frame still owes it. */
  ghost predicate Scanned(g: Graph, w: Workspace) {
    forall x, y :: Covered(g, w, x, y)
  }

  ghost predicate Covered(g: Graph, w: Workspace, x: InstanceRef, y: InstanceRef) {
    x in w.index && Edge(g, x, y) ==> y in w.index || exists i :: OwedBy(w.dfs, i, x, y)
  }

  ghost predicate OwedBy(dfs: seq<Frame>, i: int, x: InstanceRef, y: InstanceRef) {
    0 <= i < Depth(dfs) && dfs[i].vertex == x && (y in dfs[i].todo || dfs[i].child == Some(y))
  }

  /** A stack vertex belongs to the deepest gray vertex numbered no later. */
  ghost predicate InSegment(w: Workspace, i: int, x: InstanceRef) {
    && 0 <= i < Depth(w.dfs) && x in w.onStack && x in w.index && w.dfs[i].vertex in w.index
    && w.index[w.dfs[i].vertex] <= w.index[x]
    && (i + 1 < Depth(w.dfs) && w.dfs[i + 1].vertex in w.index ==> w.index[x] < w.index[w.dfs[i + 1].vertex])
  }

  /** The low link frame i will have once a returned child is absorbed. */
  ghost predicate EffectiveLowAtMost(w: Workspace, i: int, bound: nat) {
    && 0 <= i < |w.dfs| && w.dfs[i].vertex in w.low
    && (|| w.low[w.dfs[i].vertex] <= bound
        || (i == |w.dfs| - 1 && w.dfs[i].child.Some? && w.dfs[i].child.value in w.low
            && w.low[w.dfs[i].child.value] <= bound))
  }

  /** No scanned edge inside a segment goes below the segment's low link. */
  ghost predicate LowComplete(g: Graph, w: Workspace) {
    forall i, x, y :: AboveLow(g, w, i, x, y)
  }

  ghost predicate AboveLow(g: Graph, w: Workspace, i: int, x: InstanceRef, y: InstanceRef) {
    InSegment(w, i, x) && y in w.onStack && Edge(g, x, y) ==>
      || (x == w.dfs[i].vertex && y in w.dfs[i].todo)
      || (y in w.index && EffectiveLowAtMost(w, i, w.index[y]))
  }

  ghost predicate PendingChild(g: Graph, w: Workspace) {
    w.dfs != [] && Top(w).entered && Top(w).child.Some? ==>
      var v, c := Top(w).vertex, Top(w).child.value;
      && Edge(g, v, c) && c in w.index && c in w.low && v in w.index
      && (c in w.onStack || w.index[v] < w.low[c])
  }

  /** The emitted components are disjoint, strongly connected, and their edges lead to earlier ones. */
  ghost predicate Components(g: Graph, components: seq<seq<InstanceRef>>) {
    && (forall c :: IsComponent(g, components, c))
    && (forall c, d, x :: ApartIn(components, c, d, x))
    && (forall c, x, y :: LeadsEarlier(g, components, c, x, y))
  }

  ghost predicate IsComponent(g: Graph, components: seq<seq<InstanceRef>>, c: int) {
    0 <= c < |components| ==>
      components[c] != [] && NoDuplicates(components[c]) && StronglyConnected(g, Members(components[c]))
  }

  ghost predicate ApartIn(components: seq<seq<InstanceRef>>, c: int, d: int, x: InstanceRef) {
    0 <= c < d < |components| && x in components[c] ==> x !in components[d]
  }

  ghost predicate LeadsEarlier(g: Graph, components: seq<seq<InstanceRef>>, c: int, x: InstanceRef, y: InstanceRef) {
    0 <= c < |components| && x in components[c] && Edge(g, x, y) ==> exists d :: At(components, c, d, y)
  }

  ghost predicate At(components: seq<seq<InstanceRef>>, c: int, d: int, x: InstanceRef) {
    0 <= d <= c < |components| && x in components[d]
  }

  ghost predicate Among(components: seq<seq<InstanceRef>>, d: int, x: InstanceRef) {
    0 <= d < |components| && x in components[d]
  }

  ghost predicate EmittedAre(w: Workspace) {
    forall x :: EmittedIs(w, x)
  }

  ghost predicate EmittedIs(w: Workspace, x: InstanceRef) {
    x in w.emitted <==> exists d :: Among(w.components, d, x)
  }

  ghost predicate Structure(g: Graph, w: Workspace) {
    Closed(g) && Numbering(g, w) && StackOrder(w) && Frames(g, w)
  }

  ghost predicate Invariant(g: Graph, w: Workspace) {
    && Structure(g, w)
    && GrayReaches(g, w) && ReachesGray(g, w) && LowSound(g, w)
    && Scanned(g, w) && LowComplete(g, w) && PendingChild(g, w)
    && Components(g, w.components) && EmittedAre(w)
  }

  lemma EmptyInvariant(g: Graph)
    requires Closed(g)
    ensures Invariant(g, EMPTY)
  {
  }

  /** Between two roots the stack is empty. */
  lemma StackDrained(g: Graph, w: Workspace)
    requires ReachesGray(g, w) && w.dfs == []
    ensures w.onStack == {}
  {
    forall x
      ensures x !in w.onStack
    {
      assert ReachesFrame(g, w, x);
    }
  }

  lemma PushRoot(g: Graph, w: Workspace, v: InstanceRef)
    requires Invariant(g, w) && w.dfs == [] && v in g && v !in w.index
    ensures Invariant(g, Push(w, v))
  {
    StackDrained(g, w);
    var w' := Push(w, v);
    forall x, y
      ensures Covered(g, w', x, y)
    {
      assert Covered(g, w, x, y);
    }
    assert forall x :: EmittedIs(w, x) ==> EmittedIs(w', x);
    assert forall x :: NumberedBelow(g, w, x) ==> NumberedBelow(g, w', x);
    assert forall x, y :: NumberedApart(w, x, y) ==> NumberedApart(w', x, y);
    assert forall i, j :: StackedBelow(w, i, j) ==> StackedBelow(w', i, j);
  }

  lemma EnterStructure(g: Graph, w: Workspace, deps: seq<InstanceRef>)
    requires Structure(g, w) && w.dfs != [] && !Top(w).entered
    ensures Structure(g, Enter(w, deps))
  {
    var w' := Enter(w, deps);
    var v := Top(w).vertex;
    assert forall x :: x in w'.stack <==> x in w.stack || x == v;
    forall x
      ensures NumberedBelow(g, w', x)
    {
      assert NumberedBelow(g, w, x);
    }
    forall x, y
      ensures NumberedApart(w', x, y)
    {
      assert NumberedApart(w, x, y) && NumberedBelow(g, w, x) && NumberedBelow(g, w, y);
    }
    forall i, j
      ensures StackedBelow(w', i, j)
    {
      assert StackedBelow(w, i, j);
      if 0 <= i < |w.stack| {
        assert w.stack[i] in w.onStack && NumberedBelow(g, w, w.stack[i]);
      }
    }
    forall i
      ensures OnStack(w', i) && Waits(g, w'.dfs, i)
    {
      assert OnStack(w, i) && Waits(g, w.dfs, i);
    }
    forall i, j
      ensures FramedBelow(w', i, j)
    {
      assert FramedBelow(w, i, j);
      if 0 <= i < Depth(w.dfs) {
        assert OnStack(w, i) && NumberedBelow(g, w, w.dfs[i].vertex);
      }
    }
  }

  lemma EnterGrayReaches(g: Graph, w: Workspace, deps: seq<InstanceRef>)
    requires Numbering(g, w) && Frames(g, w) && GrayReaches(g, w) && w.dfs != [] && !Top(w).entered
    ensures GrayReaches(g, Enter(w, deps))
  {
    var w' := Enter(w, deps);
    var v := Top(w).vertex;
    var k := Depth(w.dfs);
    ReachRefl(g, v);
    forall i, x
      ensures GrayReach(g, w', i, x)
    {
      assert GrayReach(g, w, i, x);
      assert NumberedBelow(g, w, x);
      if 0 <= i < k && x == v {
        var p := w.dfs[k - 1].vertex;
        assert Waits(g, w.dfs, k - 1) && OnStack(w, i) && OnStack(w, k - 1) && FramedBelow(w, i, k - 1);
        ReachEdge(g, p, v);
        assert GrayReach(g, w, i, p);
        ReachTrans(g, w.dfs[i].vertex, p, v);
      }
    }
  }

  lemma EnterReachesGray(g: Graph, w: Workspace, deps: seq<InstanceRef>)
    requires Numbering(g, w) && Frames(g, w) && ReachesGray(g, w) && w.dfs != [] && !Top(w).entered
    ensures ReachesGray(g, Enter(w, deps))
  {
    var w' := Enter(w, deps);
    var v := Top(w).vertex;
    forall x
      ensures ReachesFrame(g, w', x)
    {
      if x == v {
        ReachRefl(g, v);
        assert FrameWitness(g, w', x, Depth(w.dfs));
      } else if x in w.onStack {
        assert ReachesFrame(g, w, x);
        var i :| FrameWitness(g, w, x, i);
        assert OnStack(w, i);
        assert FrameWitness(g, w', x, i);
      }
    }
  }

  lemma EnterLowSound(g: Graph, w: Workspace, deps: seq<InstanceRef>)
    requires Numbering(g, w) && LowSound(g, w) && w.dfs != [] && Top(w).vertex !in w.index
    ensures LowSound(g, Enter(w, deps))
  {
    var w' := Enter(w, deps);
    var v := Top(w).vertex;
    forall x
      ensures LowReached(g, w', x)
    {
      if x == v {
        ReachRefl(g, v);
        assert LowWitness(g, w', x, v);
      } else if x in w.onStack {
        assert LowReached(g, w, x);
        var y :| LowWitness(g, w, x, y);
        assert LowWitness(g, w', x, y);
      }
    }
  }

  lemma EnterScanned(g: Graph, w: Workspace, deps: seq<InstanceRef>)
    requires Numbering(g, w) && Frames(g, w) && Scanned(g, w) && w.dfs != [] && !Top(w).entered
    requires forall y <- g[Top(w).vertex] :: y in deps
    ensures Scanned(g, Enter(w, deps))
  {
    var w' := Enter(w, deps);
    var v := Top(w).vertex;
    var k := Depth(w.dfs);
    forall x, y
      ensures Covered(g, w', x, y)
    {
      if x == v && Edge(g, x, y) {
        assert OwedBy(w'.dfs, k, x, y);
      } else if x in w.index && Edge(g, x, y) && y !in w'.index {
        assert Covered(g, w, x, y);
        var i :| OwedBy(w.dfs, i, x, y);
        assert OwedBy(w'.dfs, i, x, y);
      }
    }
  }

  lemma EnterLowComplete(g: Graph, w: Workspace, deps: seq<InstanceRef>)
    requires Numbering(g, w) && Frames(g, w) && LowComplete(g, w) && LowSound(g, w) && w.dfs != [] && !Top(w).entered
    requires forall y <- g[Top(w).vertex] :: y in deps
    ensures LowComplete(g, Enter(w, deps))
  {
    var w' := Enter(w, deps);
    var v := Top(w).vertex;
    var k := Depth(w.dfs);
    forall i, x, y
      ensures AboveLow(g, w', i, x, y)
    {
      assert NumberedBelow(g, w, x);
      if 0 <= i < k && InSegment(w', i, x) {
        if i + 1 < k {
          assert OnStack(w, i + 1) && NumberedBelow(g, w, w.dfs[i + 1].vertex);
        }
        assert OnStack(w, i) && LowReached(g, w, w.dfs[i].vertex) && NumberedBelow(g, w, w.dfs[i].vertex);
        assert AboveLow(g, w, i, x, y);
      }
    }
  }

  lemma EnterInvariant(g: Graph, w: Workspace, deps: seq<InstanceRef>)
    requires Invariant(g, w) && w.dfs != [] && !Top(w).entered
    requires forall y <- g[Top(w).vertex] :: y in deps
    ensures Invariant(g, Enter(w, deps))
  {
    EnterStructure(g, w, deps);
    EnterGrayReaches(g, w, deps);
    EnterReachesGray(g, w, deps);
    EnterLowSound(g, w, deps);
    EnterScanned(g, w, deps);
    EnterLowComplete(g, w, deps);
    assert forall x :: EmittedIs(w, x) ==> EmittedIs(Enter(w, deps), x);
  }

  /**
   Steps that only rewrite the top frame's iterator, its pending child or its low link leave numbering,
   stack, gray vertices and components alone.
   */
  ghost predicate TopOnly(w: Workspace, w': Workspace) {
    && w'.index == w.index && w'.onStack == w.onStack && w'.emitted == w.emitted && w'.stack == w.stack
    && w'.next == w.next && w'.components == w.components
    && w.dfs != [] && w'.dfs != [] && w'.dfs == w.dfs[|w.dfs| - 1 := Top(w')]
    && Top(w).entered && Top(w').entered && Top(w').vertex == Top(w).vertex
    && Top(w).vertex in w.low && Top(w).vertex in w'.low
    && w'.low == w.low[Top(w).vertex := w'.low[Top(w).vertex]]
  }

  lemma TopOnlyKeeps(g: Graph, w: Workspace, w': Workspace)
    requires Structure(g, w) && GrayReaches(g, w) && ReachesGray(g, w) && EmittedAre(w) && TopOnly(w, w')
    ensures Structure(g, w') && GrayReaches(g, w') && ReachesGray(g, w') && EmittedAre(w')
  {
    forall x
      ensures NumberedBelow(g, w', x) && EmittedIs(w', x) && ReachesFrame(g, w', x)
    {
      assert NumberedBelow(g, w, x) && EmittedIs(w, x) && ReachesFrame(g, w, x);
      if x in w.onStack {
        var i :| FrameWitness(g, w, x, i);
        assert FrameWitness(g, w', x, i);
      }
    }
    assert forall x, y :: NumberedApart(w, x, y) ==> NumberedApart(w', x, y);
    assert forall i, j :: StackedBelow(w, i, j) ==> StackedBelow(w', i, j);
    assert forall i, j :: FramedBelow(w, i, j) ==> FramedBelow(w', i, j);
    assert forall i, x :: GrayReach(g, w, i, x) ==> GrayReach(g, w', i, x);
    assert forall i :: OnStack(w, i) ==> OnStack(w', i);
    assert forall i :: Waits(g, w.dfs, i) ==> Waits(g, w'.dfs, i);
  }

  /** A new low link of the top vertex that is itself witnessed keeps every low link witnessed. */
  lemma TopLowSound(g: Graph, w: Workspace, w': Workspace, y: InstanceRef)
    requires LowSound(g, w) && TopOnly(w, w') && Top(w).vertex in w'.low && Top(w).vertex in w.index
    requires w'.low[Top(w).vertex] <= w.index[Top(w).vertex] && LowWitness(g, w', Top(w).vertex, y)
    ensures LowSound(g, w')
  {
    forall x
      ensures LowReached(g, w', x)
    {
      assert LowReached(g, w, x);
      if x in w.onStack && x != Top(w).vertex {
        var z :| LowWitness(g, w, x, z);
        assert LowWitness(g, w', x, z);
      }
    }
  }

  lemma AbsorbLowSound(g: Graph, w: Workspace)
    requires Invariant(g, w) && w.dfs != [] && Top(w).entered && Top(w).child.Some?
    requires Top(w).child.value in w.low && Top(w).vertex in w.low
    requires TopOnly(w, Absorb(w))
    ensures LowSound(g, Absorb(w))
  {
    var w' := Absorb(w);
    var v, c := Top(w).vertex, Top(w).child.value;
    assert OnStack(w, |w.dfs| - 1) && LowReached(g, w, v) && LowReached(g, w, c);
    if w.low[c] < w.low[v] {
      var y :| LowWitness(g, w, c, y);
      ReachEdge(g, v, c);
      ReachTrans(g, v, c, y);
      assert LowWitness(g, w', v, y);
      TopLowSound(g, w, w', y);
    } else {
      var y :| LowWitness(g, w, v, y);
      assert LowWitness(g, w', v, y);
      TopLowSound(g, w, w', y);
    }
  }

  lemma AbsorbInvariant(g: Graph, w: Workspace)
    requires Invariant(g, w) && w.dfs != [] && Top(w).entered && Top(w).child.Some?
    ensures Top(w).child.value in w.low && Top(w).vertex in w.low
    ensures Invariant(g, Absorb(w))
  {
    var v := Top(w).vertex;
    assert OnStack(w, |w.dfs| - 1);
    var w' := Absorb(w);
    assert w.low == w.low[v := w.low[v]];
    assert TopOnly(w, w');
    TopOnlyKeeps(g, w, w');
    AbsorbLowSound(g, w);
    forall x, y
      ensures Covered(g, w', x, y)
    {
      assert Covered(g, w, x, y);
      if x in w.index && Edge(g, x, y) && y !in w.index {
        var i :| OwedBy(w.dfs, i, x, y);
        assert OwedBy(w'.dfs, i, x, y);
      }
    }
    forall i, x, y
      ensures AboveLow(g, w', i, x, y)
    {
      assert AboveLow(g, w, i, x, y);
      assert OnStack(w, i) && FramedBelow(w, i, |w.dfs| - 1);
    }
  }

  /** The top frame is entered and its iterator has a dependency left to yield. */
  ghost predicate Scanning(g: Graph, w: Workspace) {
    Invariant(g, w) && w.dfs != [] && Top(w).entered && Top(w).child.None? && Top(w).todo != []
  }

  lemma SkipInvariant(g: Graph, w: Workspace)
    requires Scanning(g, w) && !Edge(g, Top(w).vertex, Top(w).todo[0])
    ensures Invariant(g, Skip(w))
  {
    var w' := Skip(w);
    var v := Top(w).vertex;
    assert OnStack(w, |w.dfs| - 1);
    assert TopOnly(w, w');
    TopOnlyKeeps(g, w, w');
    assert LowReached(g, w, v);
    var z :| LowWitness(g, w, v, z);
    assert LowWitness(g, w', v, z);
    TopLowSound(g, w, w', z);
    assert Top(w).todo == [Top(w).todo[0]] + Top(w').todo;
    forall x, y
      ensures Covered(g, w', x, y)
    {
      assert Covered(g, w, x, y);
      if x in w.index && Edge(g, x, y) && y !in w.index {
        var i :| OwedBy(w.dfs, i, x, y);
        assert OwedBy(w'.dfs, i, x, y);
      }
    }
    forall i, x, y
      ensures AboveLow(g, w', i, x, y)
    {
      assert AboveLow(g, w, i, x, y);
      assert OnStack(w, i) && FramedBelow(w, i, |w.dfs| - 1);
    }
  }

  lemma RelaxLowSound(g: Graph, w: Workspace)
    requires Scanning(g, w) && Edge(g, Top(w).vertex, Top(w).todo[0]) && Top(w).todo[0] in w.index
    requires Top(w).vertex in w.low && TopOnly(w, Relax(w)) && OnStack(w, |w.dfs| - 1)
    ensures LowSound(g, Relax(w))
  {
    var w' := Relax(w);
    var v, d := Top(w).vertex, Top(w).todo[0];
    assert LowReached(g, w, v);
    if d in w.onStack && w.index[d] < w.low[v] {
      ReachEdge(g, v, d);
      assert LowWitness(g, w', v, d);
      TopLowSound(g, w, w', d);
    } else {
      var z :| LowWitness(g, w, v, z);
      assert LowWitness(g, w', v, z);
      TopLowSound(g, w, w', z);
    }
  }

  lemma RelaxInvariant(g: Graph, w: Workspace)
    requires Scanning(g, w) && Edge(g, Top(w).vertex, Top(w).todo[0]) && Top(w).todo[0] in w.index
    ensures Top(w).vertex in w.low
    ensures Invariant(g, Relax(w))
  {
    assert OnStack(w, |w.dfs| - 1);
    var w' := Relax(w);
    var v := Top(w).vertex;
    assert w.low == w.low[v := w.low[v]];
    assert TopOnly(w, w');
    TopOnlyKeeps(g, w, w');
    RelaxLowSound(g, w);
    assert Top(w).todo == [Top(w).todo[0]] + Top(w').todo;
    forall x, y
      ensures Covered(g, w', x, y)
    {
      RelaxCovered(g, w, w', x, y);
    }
    forall i, x, y
      ensures AboveLow(g, w', i, x, y)
    {
      RelaxAboveLow(g, w, i, x, y);
    }
  }

  lemma RelaxAboveLow(g: Graph, w: Workspace, i: int, x: InstanceRef, y: InstanceRef)
    requires Scanning(g, w) && Edge(g, Top(w).vertex, Top(w).todo[0]) && Top(w).todo[0] in w.index
             && Top(w).vertex in w.low
    ensures AboveLow(g, Relax(w), i, x, y)
  {
    var w' := Relax(w);
    assert Top(w).todo == [Top(w).todo[0]] + Top(w').todo;
    assert OnStack(w, |w.dfs| - 1) && AboveLow(g, w, i, x, y);
    assert OnStack(w, i) && FramedBelow(w, i, |w.dfs| - 1);
  }

  /** Reading an edge to a numbered vertex leaves every other edge owed as before. */
  lemma RelaxCovered(g: Graph, w: Workspace, w': Workspace, x: InstanceRef, y: InstanceRef)
    requires TopOnly(w, w') && w.dfs != [] && Top(w).todo != [] && Top(w).todo[0] in w.index && Covered(g, w, x, y)
    requires Top(w).todo == [Top(w).todo[0]] + Top(w').todo && Top(w').child == Top(w).child
    ensures Covered(g, w', x, y)
  {
    if x in w.index && Edge(g, x, y) && y !in w.index {
      var i :| OwedBy(w.dfs, i, x, y);
      assert OwedBy(w'.dfs, i, x, y);
    }
  }

  lemma DescendInvariant(g: Graph, w: Workspace)
    requires Scanning(g, w) && Edge(g, Top(w).vertex, Top(w).todo[0]) && Top(w).todo[0] !in w.index
    ensures Invariant(g, Descend(w))
  {
    var w' := Descend(w);
    var k := |w.dfs| - 1;
    var v, d := Top(w).vertex, Top(w).todo[0];
    assert Depth(w'.dfs) == Depth(w.dfs) == k + 1;
    assert forall i | 0 <= i < k :: w'.dfs[i] == w.dfs[i];
    assert w'.dfs[k] == Frame(v, true, Top(w).todo[1..], Some(d));
    assert Top(w).todo == [d] + w'.dfs[k].todo;
    forall x
      ensures NumberedBelow(g, w', x) && EmittedIs(w', x) && ReachesFrame(g, w', x) && LowReached(g, w', x)
    {
      DescendVertex(g, w, x);
    }
    assert forall x, y :: NumberedApart(w, x, y) ==> NumberedApart(w', x, y);
    assert forall i, j :: StackedBelow(w, i, j) ==> StackedBelow(w', i, j);
    assert forall i, j :: FramedBelow(w, i, j) ==> FramedBelow(w', i, j);
    assert forall i, x :: GrayReach(g, w, i, x) ==> GrayReach(g, w', i, x);
    assert forall i :: OnStack(w, i) ==> OnStack(w', i);
    assert forall i :: Waits(g, w.dfs, i) ==> Waits(g, w'.dfs, i);
    forall x, y
      ensures Covered(g, w', x, y)
    {
      DescendCovered(g, w, x, y);
    }
    forall i, x, y
      ensures AboveLow(g, w', i, x, y)
    {
      assert AboveLow(g, w, i, x, y);
      assert NumberedBelow(g, w, d);
    }
  }

  lemma DescendVertex(g: Graph, w: Workspace, x: InstanceRef)
    requires Scanning(g, w) && Top(w).todo[0] !in w.index
    ensures NumberedBelow(g, Descend(w), x) && EmittedIs(Descend(w), x) && ReachesFrame(g, Descend(w), x)
            && LowReached(g, Descend(w), x)
  {
    var w' := Descend(w);
    assert NumberedBelow(g, w, x) && EmittedIs(w, x) && ReachesFrame(g, w, x) && LowReached(g, w, x);
    if x in w.onStack {
      var i :| FrameWitness(g, w, x, i);
      assert FrameWitness(g, w', x, i);
      var z :| LowWitness(g, w, x, z);
      assert LowWitness(g, w', x, z);
    }
  }

  lemma DescendCovered(g: Graph, w: Workspace, x: InstanceRef, y: InstanceRef)
    requires Scanning(g, w)
    ensures Covered(g, Descend(w), x, y)
  {
    var w' := Descend(w);
    assert Covered(g, w, x, y);
    if x in w.index && Edge(g, x, y) && y !in w.index {
      var i :| OwedBy(w.dfs, i, x, y);
      assert Top(w).todo == [Top(w).todo[0]] + w'.dfs[|w.dfs| - 1].todo;
      assert OwedBy(w'.dfs, i, x, y);
    }
  }

  /** The top frame has been scanned completely. */
  ghost predicate Finished(g: Graph, w: Workspace) {
    && Invariant(g, w) && w.dfs != [] && Top(w).entered && Top(w).child.None? && Top(w).todo == []
    && Top(w).vertex in w.low && Top(w).vertex in w.index
  }

  lemma ReturnReachesGray(g: Graph, w: Workspace)
    requires Finished(g, w) && w.low[Top(w).vertex] != w.index[Top(w).vertex]
    ensures ReachesGray(g, Return(w))
  {
    var w' := Return(w);
    var k, v := |w.dfs| - 1, Top(w).vertex;
    assert OnStack(w, k) && LowReached(g, w, v);
    var y :| LowWitness(g, w, v, y);
    assert ReachesFrame(g, w, y);
    var j :| FrameWitness(g, w, y, j);
    assert j < k;
    ReachTrans(g, v, y, w.dfs[j].vertex);
    forall x
      ensures ReachesFrame(g, w', x)
    {
      if x in w.onStack {
        assert ReachesFrame(g, w, x);
        var i :| FrameWitness(g, w, x, i);
        if i < k {
          assert OnStack(w, i);
          assert FrameWitness(g, w', x, i);
        } else {
          ReachTrans(g, x, v, w.dfs[j].vertex);
          assert OnStack(w, j);
          assert FrameWitness(g, w', x, j);
        }
      }
    }
  }

  lemma ReturnLowComplete(g: Graph, w: Workspace)
    requires Finished(g, w) && w.dfs[..|w.dfs| - 1] != []
    ensures LowComplete(g, Return(w))
  {
    var w' := Return(w);
    var k, v := |w.dfs| - 1, Top(w).vertex;
    assert Waits(g, w.dfs, k - 1) && OnStack(w, k - 1) && OnStack(w, k) && FramedBelow(w, k - 1, k);
    assert Depth(w'.dfs) == k;
    forall i, x, y
      ensures AboveLow(g, w', i, x, y)
    {
      assert AboveLow(g, w, i, x, y);
      if i == k - 1 && InSegment(w', i, x) && !InSegment(w, i, x) {
        assert InSegment(w, k, x);
        assert AboveLow(g, w, k, x, y);
      }
    }
  }

  lemma ReturnInvariant(g: Graph, w: Workspace)
    requires Finished(g, w) && w.low[Top(w).vertex] != w.index[Top(w).vertex]
    ensures Invariant(g, Return(w))
  {
    var w' := Return(w);
    var k, v := |w.dfs| - 1, Top(w).vertex;
    assert OnStack(w, k) && OnStack(w, k - 1) && Waits(g, w.dfs, k - 1);
    assert Depth(w'.dfs) == k;
    ReturnReachesGray(g, w);
    if k > 0 {
      ReturnLowComplete(g, w);
    }
    forall x
      ensures NumberedBelow(g, w', x) && EmittedIs(w', x) && LowReached(g, w', x)
    {
      assert NumberedBelow(g, w, x) && EmittedIs(w, x) && LowReached(g, w, x);
      if x in w.onStack {
        var z :| LowWitness(g, w, x, z);
        assert LowWitness(g, w', x, z);
      }
    }
    assert forall x, y :: NumberedApart(w, x, y) ==> NumberedApart(w', x, y);
    assert forall i, j :: StackedBelow(w, i, j) ==> StackedBelow(w', i, j);
    assert forall i, j :: FramedBelow(w, i, j) ==> FramedBelow(w', i, j);
    assert forall i, x :: GrayReach(g, w, i, x) ==> GrayReach(g, w', i, x);
    assert forall i :: OnStack(w, i) ==> OnStack(w', i);
    assert forall i :: Waits(g, w.dfs, i) ==> Waits(g, w'.dfs, i);
    forall x, y
      ensures Covered(g, w', x, y)
    {
      assert Covered(g, w, x, y);
      if x in w.index && Edge(g, x, y) && y !in w.index {
        var i :| OwedBy(w.dfs, i, x, y);
        assert OwedBy(w'.dfs, i, x, y);
      }
    }
  }

  /** component lists, without repetition, the stack from position k on, where the finished vertex sits. */
  ghost predicate Popped(w: Workspace, k: nat, component: seq<InstanceRef>) {
    && w.dfs != [] && k < |w.stack| && w.stack[k] == Top(w).vertex
    && Members(component) == Members(w.stack[k..]) && NoDuplicates(component)
  }

  /** Popping down to the finished vertex takes exactly the stack vertices numbered no earlier. */
  lemma PoppedAre(g: Graph, w: Workspace, k: nat, component: seq<InstanceRef>, x: InstanceRef)
    requires StackOrder(w) && Popped(w, k, component) && Top(w).vertex in w.index && w.onStack <= w.index.Keys
    ensures x in Members(component) <==> x in w.onStack && w.index[Top(w).vertex] <= w.index[x]
    ensures x in Members(w.stack[..k]) <==> x in w.onStack && w.index[x] < w.index[Top(w).vertex]
  {
    assert w.stack == w.stack[..k] + w.stack[k..];
    if x in w.stack {
      var i :| 0 <= i < |w.stack| && w.stack[i] == x;
      assert StackedBelow(w, i, k) && StackedBelow(w, k, i);
      if i < k {
        assert w.stack[..k][i] == x;
      } else {
        assert w.stack[k..][i - k] == x;
      }
    }
    if x in w.stack[..k] {
      var i :| 0 <= i < k && w.stack[i] == x;
      assert StackedBelow(w, i, k);
    }
    if x in w.stack[k..] {
      var i :| 0 <= i < |w.stack[k..]| && w.stack[k..][i] == x;
      assert StackedBelow(w, k, k + i);
    }
  }

  /** The workspace is about to emit: the finished vertex is the root of its component. */
  ghost predicate Emitting(g: Graph, w: Workspace, k: nat, component: seq<InstanceRef>) {
    Finished(g, w) && w.low[Top(w).vertex] == w.index[Top(w).vertex] && Popped(w, k, component)
  }

  /** What is popped is strongly connected through the root. */
  lemma EmitConnected(g: Graph, w: Workspace, k: nat, component: seq<InstanceRef>)
    requires Emitting(g, w, k, component)
    ensures StronglyConnected(g, Members(component))
  {
    var t, v := |w.dfs| - 1, Top(w).vertex;
    assert OnStack(w, t);
    forall x | x in Members(component)
      ensures Reach(g, v, x) && Reach(g, x, v)
    {
      PoppedAre(g, w, k, component, x);
      assert GrayReach(g, w, t, x) && ReachesFrame(g, w, x);
      var i :| FrameWitness(g, w, x, i);
      assert FramedBelow(w, i, t) && OnStack(w, i) && GrayReach(g, w, i, v);
      ReachTrans(g, x, w.dfs[i].vertex, v);
    }
    forall x, y | x in Members(component) && y in Members(component)
      ensures Reach(g, x, y)
    {
      ReachTrans(g, x, v, y);
    }
  }

  /** No frame still has to look at an edge out of what is popped. */
  lemma NothingOwed(g: Graph, w: Workspace, k: nat, component: seq<InstanceRef>, x: InstanceRef, y: InstanceRef, i: int)
    requires Emitting(g, w, k, component) && x in component
    ensures !OwedBy(w.dfs, i, x, y)
  {
    var t := |w.dfs| - 1;
    assert x in Members(component) && OnStack(w, t);
    PoppedAre(g, w, k, component, x);
    assert InSegment(w, t, x);
    assert FramedBelow(w, i, t);
  }

  /** Every edge out of what is popped stays inside it or leads to a component emitted before. */
  lemma EmitLeadsEarlier(g: Graph, w: Workspace, k: nat, component: seq<InstanceRef>, x: InstanceRef, y: InstanceRef)
    requires Emitting(g, w, k, component) && x in component && Edge(g, x, y)
    ensures y in component || y in w.emitted
  {
    var t, v := |w.dfs| - 1, Top(w).vertex;
    assert x in Members(component) && OnStack(w, t);
    PoppedAre(g, w, k, component, x);
    assert InSegment(w, t, x);
    assert y in w.index by {
      assert Covered(g, w, x, y);
      forall i
        ensures !OwedBy(w.dfs, i, x, y)
      {
        NothingOwed(g, w, k, component, x, y, i);
      }
    }
    if y in w.onStack {
      assert AboveLow(g, w, t, x, y);
      PoppedAre(g, w, k, component, y);
      assert y in Members(component);
    }
  }

  lemma EmitComponents(g: Graph, w: Workspace, k: nat, component: seq<InstanceRef>)
    requires Emitting(g, w, k, component)
    ensures Components(g, Emit(w, k, component).components) && EmittedAre(Emit(w, k, component))
  {
    var w' := Emit(w, k, component);
    var n := |w.components|;
    EmitConnected(g, w, k, component);
    PoppedAre(g, w, k, component, Top(w).vertex);
    assert OnStack(w, |w.dfs| - 1);
    assert component != [];
    forall c
      ensures IsComponent(g, w'.components, c)
    {
      assert IsComponent(g, w.components, c);
    }
    forall x
      ensures EmittedIs(w', x)
      ensures x in component ==> x !in w.emitted
    {
      assert EmittedIs(w, x);
      if x in component {
        assert x in Members(component);
        PoppedAre(g, w, k, component, x);
        assert Among(w'.components, n, x);
      }
      if x in w.emitted {
        var d :| Among(w.components, d, x);
        assert Among(w'.components, d, x);
      }
      if d :| Among(w'.components, d, x) {
        assert d < n ==> Among(w.components, d, x);
      }
    }
    forall c, d, x
      ensures ApartIn(w'.components, c, d, x)
    {
      assert ApartIn(w.components, c, d, x);
      if 0 <= c < n && x in w.components[c] {
        assert Among(w.components, c, x) && EmittedIs(w, x);
      }
    }
    forall c, x, y
      ensures LeadsEarlier(g, w'.components, c, x, y)
    {
      assert LeadsEarlier(g, w.components, c, x, y);
      if 0 <= c <= n && x in w'.components[c] && Edge(g, x, y) {
        if c < n {
          var d :| At(w.components, c, d, y);
          assert At(w'.components, c, d, y);
        } else {
          EmitLeadsEarlier(g, w, k, component, x, y);
          if y in component {
            assert At(w'.components, c, n, y);
          } else {
            assert EmittedIs(w, y);
            var d :| Among(w.components, d, y);
            assert At(w'.components, c, d, y);
          }
        }
      }
    }
  }

  lemma EmitStructure(g: Graph, w: Workspace, k: nat, component: seq<InstanceRef>)
    requires Emitting(g, w, k, component)
    ensures Structure(g, Emit(w, k, component))
  {
    var w' := Emit(w, k, component);
    var t, v := |w.dfs| - 1, Top(w).vertex;
    assert OnStack(w, t) && Depth(w'.dfs) == t by {
      assert OnStack(w, t - 1);
    }
    forall x
      ensures NumberedBelow(g, w', x)
      ensures x in w'.onStack <==> x in Members(w'.stack)
      ensures x in component ==> x in w.onStack
    {
      assert NumberedBelow(g, w, x);
      PoppedAre(g, w, k, component, x);
      assert x in component <==> x in Members(component);
    }
    assert forall x, y :: NumberedApart(w, x, y) ==> NumberedApart(w', x, y);
    assert forall i, j :: StackedBelow(w, i, j) ==> StackedBelow(w', i, j);
    assert forall i, j :: FramedBelow(w, i, j) ==> FramedBelow(w', i, j);
    assert forall i :: Waits(g, w.dfs, i) ==> Waits(g, w'.dfs, i);
    forall i
      ensures OnStack(w', i)
    {
      assert OnStack(w, i) && FramedBelow(w, i, t);
      if 0 <= i < t {
        PoppedAre(g, w, k, component, w.dfs[i].vertex);
      }
    }
  }

  lemma EmitLinks(g: Graph, w: Workspace, k: nat, component: seq<InstanceRef>)
    requires Emitting(g, w, k, component)
    ensures var w' := Emit(w, k, component); GrayReaches(g, w') && ReachesGray(g, w') && LowSound(g, w')
  {
    var w' := Emit(w, k, component);
    var t, v := |w.dfs| - 1, Top(w).vertex;
    assert OnStack(w, t) && Depth(w'.dfs) == t by {
      assert OnStack(w, t - 1);
    }
    assert forall i, x :: GrayReach(g, w, i, x) ==> GrayReach(g, w', i, x);
    forall x
      ensures ReachesFrame(g, w', x) && LowReached(g, w', x)
    {
      assert ReachesFrame(g, w, x) && LowReached(g, w, x);
      PoppedAre(g, w, k, component, x);
      if x in w'.onStack {
        var i :| FrameWitness(g, w, x, i);
        assert i < t;
        assert FrameWitness(g, w', x, i);
        var y :| LowWitness(g, w, x, y);
        PoppedAre(g, w, k, component, y);
        assert LowWitness(g, w', x, y);
      }
    }
  }

  lemma EmitScans(g: Graph, w: Workspace, k: nat, component: seq<InstanceRef>)
    requires Emitting(g, w, k, component)
    ensures var w' := Emit(w, k, component); Scanned(g, w') && LowComplete(g, w') && PendingChild(g, w')
  {
    var w' := Emit(w, k, component);
    var t, v := |w.dfs| - 1, Top(w).vertex;
    assert OnStack(w, t) && OnStack(w, t - 1) && Waits(g, w.dfs, t - 1) && FramedBelow(w, t - 1, t);
    assert Depth(w'.dfs) == t;
    PoppedAre(g, w, k, component, v);
    forall x, y
      ensures Covered(g, w', x, y)
    {
      assert Covered(g, w, x, y);
      if x in w.index && Edge(g, x, y) && y !in w.index {
        var i :| OwedBy(w.dfs, i, x, y);
        assert OwedBy(w'.dfs, i, x, y);
      }
    }
    forall i, x, y
      ensures AboveLow(g, w', i, x, y)
    {
      assert AboveLow(g, w, i, x, y);
      PoppedAre(g, w, k, component, x);
      if i == t - 1 && InSegment(w', i, x) {
        assert InSegment(w, i, x);
      }
    }
  }

  lemma EmitInvariant(g: Graph, w: Workspace, k: nat, component: seq<InstanceRef>)
    requires Emitting(g, w, k, component)
    ensures Invariant(g, Emit(w, k, component))
  {
    EmitStructure(g, w, k, component);
    EmitLinks(g, w, k, component);
    EmitScans(g, w, k, component);
    EmitComponents(g, w, k, component);
  }
}
