/**
 Whole execution histories of one replica, and the order two replicas execute dependent
 instances in when their committed records agree.
 */
module ExecutionRuns {
  import opened Types
  import opened Graph
  import opened Execution
  import F = Footprint

  /** A replica's state and the components it has executed, in order. */
  datatype Replica = Replica(state: State, blocks: seq<seq<InstanceRef>>)

  /** The decided record of every committed instance, shared by all replicas. */
  datatype Decided = Decided(records: Instances, confs: Confs)

  ghost predicate Fresh(r: Replica) {
    r.blocks == [] && forall x :: !r.state.executed.Contains(x)
  }

  ghost predicate SameExecuted(s: State, s': State, more: set<InstanceRef>) {
    forall x :: s'.executed.Contains(x) <==> s.executed.Contains(x) || x in more
  }

  /** No committed instance outside the component has retained edges both ways with a member. */
  ghost predicate MutualClosed(s: State, component: seq<InstanceRef>) {
    forall x, y | x in component && Pending(s, y) && Retained(s, x, y) && Retained(s, y, x) :: y in component
  }

  function Finish(rec: Record): Record {
    rec.(status := Executed)
  }

  /** One component of a tryExecute pass is executed as a block. */
  ghost predicate Executes(r: Replica, r': Replica, component: seq<InstanceRef>) {
    && component != []
    && (forall x <- component :: Pending(r.state, x))
    && InOrder(r.state.instances, component)
    && StronglyConnected(FinalGraph(r.state), Members(component))
    && MutualClosed(r.state, component)
    && Ready(r.state, component)
    && r'.blocks == r.blocks + [component]
    && SameExecuted(r.state, r'.state, Members(component))
    && r'.state.confs == r.state.confs
    && r'.state.instances == map x | x in r.state.instances ::
         if x in component then Finish(r.state.instances[x]) else r.state.instances[x]
  }

  /** Anything but execution: records are learned, overwritten, or retired once executed. */
  ghost predicate Learns(r: Replica, r': Replica) {
    r'.blocks == r.blocks && SameExecuted(r.state, r'.state, {})
  }

  ghost predicate ExecutesSome(r: Replica, r': Replica) {
    exists component :: Executes(r, r', component)
  }

  ghost predicate Step(r: Replica, r': Replica) {
    Learns(r, r') || ExecutesSome(r, r')
  }

  ghost predicate StepAt(trace: seq<Replica>, i: int) {
    0 <= i < |trace| - 1 ==> Step(trace[i], trace[i + 1])
  }

  ghost predicate ExecutesAt(trace: seq<Replica>, i: int) {
    0 <= i < |trace| - 1 ==> ExecutesSome(trace[i], trace[i + 1])
  }

  ghost predicate ExecutesAlong(trace: seq<Replica>, r: Replica, r': Replica) {
    trace != [] && trace[0] == r && trace[|trace| - 1] == r' && forall i :: ExecutesAt(trace, i)
  }

  /** r' is r after executing some blocks one after another. */
  ghost predicate ExecutesMany(r: Replica, r': Replica) {
    exists trace :: ExecutesAlong(trace, r, r')
  }

  lemma ExecutesNone(r: Replica)
    ensures ExecutesMany(r, r)
  {
    assert ExecutesAlong([r], r, r);
  }

  lemma ExecutesOneMore(r: Replica, mid: Replica, r': Replica)
    requires ExecutesMany(r, mid) && ExecutesSome(mid, r')
    ensures ExecutesMany(r, r')
  {
    var trace :| ExecutesAlong(trace, r, mid);
    var longer := trace + [r'];
    forall i
      ensures ExecutesAt(longer, i)
    {
      assert ExecutesAt(trace, i);
    }
    assert ExecutesAlong(longer, r, r');
  }

  lemma ExecutesManyTransitive(r: Replica, mid: Replica, r': Replica)
    requires ExecutesMany(r, mid) && ExecutesMany(mid, r')
    ensures ExecutesMany(r, r')
  {
    var t1 :| ExecutesAlong(t1, r, mid);
    var t2 :| ExecutesAlong(t2, mid, r');
    var joined := t1 + t2[1..];
    forall i
      ensures ExecutesAt(joined, i)
    {
      assert ExecutesAt(t1, i) && ExecutesAt(t2, i - (|t1| - 1));
    }
    assert ExecutesAlong(joined, r, r');
  }

  /** Every final record is the decided one, under the decided voters of its configuration. */
  ghost predicate Agrees(s: State, d: Decided) {
    forall x :: AgreesAt(s, d, x)
  }

  ghost predicate AgreesAt(s: State, d: Decided, x: InstanceRef) {
    IsFinal(s, x) ==>
      && x in d.records && s.instances[x].(status := Committed) == d.records[x].(status := Committed)
      && Voters(s.confs, x.conf) == Voters(d.confs, x.conf) && Distinct(Voters(d.confs, x.conf))
  }

  ghost predicate AgreesThroughout(trace: seq<Replica>, d: Decided, i: int) {
    0 <= i < |trace| ==> Agrees(trace[i].state, d)
  }

  /** A replica's history from a fresh start, every state of which agrees with the decided records. */
  ghost predicate Run(trace: seq<Replica>, d: Decided) {
    && trace != [] && Fresh(trace[0])
    && (forall i :: StepAt(trace, i))
    && (forall i :: AgreesThroughout(trace, d, i))
  }

  ghost function DecidedGraph(d: Decided): Graph {
    map u | u in d.records ::
      set v | v in d.records && RetainedBetween(Voters(d.confs, u.conf), u, d.records[u], v, d.records[v])
  }

  ghost predicate InBlock(blocks: seq<seq<InstanceRef>>, b: int, x: InstanceRef) {
    0 <= b < |blocks| && x in blocks[b]
  }

  ghost predicate ExecutedAt(r: Replica, x: InstanceRef) {
    r.state.executed.Contains(x) <==> exists b :: InBlock(r.blocks, b, x)
  }

  ghost predicate OnceAt(blocks: seq<seq<InstanceRef>>, b: int, c: int, x: InstanceRef) {
    InBlock(blocks, b, x) && InBlock(blocks, c, x) ==> b == c
  }

  ghost predicate NoLater(blocks: seq<seq<InstanceRef>>, b: int, c: int, y: InstanceRef) {
    c <= b && InBlock(blocks, c, y)
  }

  ghost predicate ClosedAt(d: Decided, blocks: seq<seq<InstanceRef>>, b: int, x: InstanceRef, y: InstanceRef) {
    InBlock(blocks, b, x) && Edge(DecidedGraph(d), x, y) ==> exists c :: NoLater(blocks, b, c, y)
  }

  ghost predicate BlockAt(d: Decided, blocks: seq<seq<InstanceRef>>, b: int) {
    0 <= b < |blocks| ==> StronglyConnected(DecidedGraph(d), Members(blocks[b])) && InOrder(d.records, blocks[b])
  }

  /** What every history satisfies: executed means in exactly one block, and blocks are closed and ordered. */
  ghost predicate History(r: Replica, d: Decided) {
    && (forall x :: ExecutedAt(r, x))
    && (forall b, c, x :: OnceAt(r.blocks, b, c, x))
    && (forall b, x, y :: ClosedAt(d, r.blocks, b, x, y))
    && (forall b :: BlockAt(d, r.blocks, b))
  }

  /** Retention depends only on decided content, so a replica's committed graph is part of the decided one. */
  lemma FinalGraphDecided(s: State, d: Decided)
    requires Agrees(s, d)
    ensures Subgraph(FinalGraph(s), DecidedGraph(d))
  {
    forall u <- FinalGraph(s)
      ensures u in DecidedGraph(d) && FinalGraph(s)[u] <= DecidedGraph(d)[u]
    {
      assert AgreesAt(s, d, u);
      forall v <- FinalGraph(s)[u]
        ensures v in DecidedGraph(d)[u]
      {
        assert AgreesAt(s, d, v);
      }
    }
  }

  lemma InOrderDecided(s: State, d: Decided, component: seq<InstanceRef>)
    requires Agrees(s, d) && InOrder(s.instances, component) && forall x <- component :: IsFinal(s, x)
    ensures InOrder(d.records, component)
  {
    forall x <- component
      ensures x in d.records
    {
      assert AgreesAt(s, d, x);
    }
    forall i, j | 0 <= i < j < |component|
      ensures Before(component[i], d.records[component[i]], component[j], d.records[component[j]])
    {
      assert AgreesAt(s, d, component[i]) && AgreesAt(s, d, component[j]);
    }
  }

  /** A decided edge out of an executing member leads to an executed instance or stays in the component. */
  lemma ReadyCloses(r: Replica, component: seq<InstanceRef>, d: Decided, x: InstanceRef, y: InstanceRef)
    requires Agrees(r.state, d) && Ready(r.state, component) && MutualClosed(r.state, component)
    requires forall z <- component :: Pending(r.state, z)
    requires x in component && Edge(DecidedGraph(d), x, y) && y.inst != 0
    ensures y in component || r.state.executed.Contains(y)
  {
    var s := r.state;
    var inside := set z | z in component;
    var voters := Voters(s.confs, x.conf);
    assert Pending(s, x) && AgreesAt(s, d, x) && MemberReady(s, x, inside);
    var deps := s.instances[x].deps;
    var slot :| 0 <= slot < |deps| && slot < |voters| && voters[slot] == y.replica && y.inst <= deps[slot];
    assert LaneDischarged(s, x, Lane(x.conf, voters[slot]), deps[slot], inside);
    assert RefIn(Lane(x.conf, voters[slot]), y.inst) == y;
    assert Discharged(s, x, y, inside);
    if y !in component && !s.executed.Contains(y) {
      assert KnownAfter(s, x, y, Committed) && AgreesAt(s, d, y);
      AfterIsCover(voters, x, s.instances[x], s.instances[y]);
      AfterIsCover(voters, y, s.instances[y], s.instances[x]);
      assert Retained(s, x, y) && Retained(s, y, x);
      assert false;
    }
  }

  lemma ExecutesKeepsHistory(r: Replica, r': Replica, component: seq<InstanceRef>, d: Decided)
    requires History(r, d) && Agrees(r.state, d) && Executes(r, r', component)
    requires forall y <- d.records :: y.inst != 0
    ensures History(r', d)
  {
    var n := |r.blocks|;
    assert r'.blocks[n] == component;
    forall x
      ensures ExecutedAt(r', x)
    {
      assert ExecutedAt(r, x);
      if x in component {
        assert InBlock(r'.blocks, n, x);
      }
      if b :| InBlock(r.blocks, b, x) {
        assert InBlock(r'.blocks, b, x);
      }
      if b :| InBlock(r'.blocks, b, x) {
        assert b < n ==> InBlock(r.blocks, b, x);
      }
    }
    forall b, c, x
      ensures OnceAt(r'.blocks, b, c, x)
    {
      assert OnceAt(r.blocks, b, c, x) && ExecutedAt(r, x);
      assert b < n && InBlock(r'.blocks, b, x) ==> InBlock(r.blocks, b, x);
      assert c < n && InBlock(r'.blocks, c, x) ==> InBlock(r.blocks, c, x);
    }
    forall b, x, y
      ensures ClosedAt(d, r'.blocks, b, x, y)
    {
      if InBlock(r'.blocks, b, x) && Edge(DecidedGraph(d), x, y) {
        if b < n {
          assert InBlock(r.blocks, b, x) && ClosedAt(d, r.blocks, b, x, y);
          var c :| NoLater(r.blocks, b, c, y);
          assert NoLater(r'.blocks, b, c, y);
        } else {
          ReadyCloses(r, component, d, x, y);
          if y in component {
            assert NoLater(r'.blocks, b, n, y);
          } else {
            assert ExecutedAt(r, y);
            var c :| InBlock(r.blocks, c, y);
            assert NoLater(r'.blocks, b, c, y);
          }
        }
      }
    }
    FinalGraphDecided(r.state, d);
    InOrderDecided(r.state, d, component);
    forall b
      ensures BlockAt(d, r'.blocks, b)
    {
      assert BlockAt(d, r.blocks, b);
      if b == n {
        forall u, v | u in Members(component) && v in Members(component)
          ensures Reach(DecidedGraph(d), u, v)
        {
          ReachMonotone(FinalGraph(r.state), DecidedGraph(d), u, v);
        }
      }
    }
  }

  lemma {:induction false} RunHistory(trace: seq<Replica>, d: Decided, n: nat)
    requires Run(trace, d) && n < |trace| && forall y <- d.records :: y.inst != 0
    ensures History(trace[n], d)
  {
    if n > 0 {
      RunHistory(trace, d, n - 1);
      assert StepAt(trace, n - 1) && AgreesThroughout(trace, d, n - 1);
      var r, r' := trace[n - 1], trace[n];
      if Learns(r, r') {
        assert forall x :: ExecutedAt(r, x) ==> ExecutedAt(r', x);
      } else {
        var component :| Executes(r, r', component);
        ExecutesKeepsHistory(r, r', component, d);
      }
    }
  }

  ghost predicate Position(blocks: seq<seq<InstanceRef>>, b: int, i: int, x: InstanceRef) {
    0 <= b < |blocks| && 0 <= i < |blocks[b]| && blocks[b][i] == x
  }

  /** a is executed before b. */
  ghost predicate Precedes(blocks: seq<seq<InstanceRef>>, a: InstanceRef, b: InstanceRef) {
    exists p, i, q, j :: Position(blocks, p, i, a) && Position(blocks, q, j, b) && (p < q || (p == q && i < j))
  }

  /** Everything reachable from a block in the decided graph is in that block or an earlier one. */
  lemma ReachNoLater(r: Replica, d: Decided, b: int, x: InstanceRef, y: InstanceRef)
    requires History(r, d) && InBlock(r.blocks, b, x) && Reach(DecidedGraph(d), x, y)
    ensures exists c :: NoLater(r.blocks, b, c, y)
  {
    var g := DecidedGraph(d);
    var p :| PathBetween(g, p, x, y);
    assert NoLater(r.blocks, b, b, x);
    var i := 0;
    while i < |p| - 1
      invariant 0 <= i < |p|
      invariant exists c :: NoLater(r.blocks, b, c, p[i])
    {
      assert Hop(g, p, i);
      var c :| NoLater(r.blocks, b, c, p[i]);
      assert ClosedAt(d, r.blocks, c, p[i], p[i + 1]);
      var e :| NoLater(r.blocks, c, e, p[i + 1]);
      assert NoLater(r.blocks, b, e, p[i + 1]);
      i := i + 1;
    }
  }

  /** Blocks are exactly the strongly connected components of the decided graph. */
  lemma SameBlockIffMutual(r: Replica, d: Decided, b: int, x: InstanceRef, c: int, y: InstanceRef)
    requires History(r, d) && InBlock(r.blocks, b, x) && InBlock(r.blocks, c, y)
    ensures b == c <==> Reach(DecidedGraph(d), x, y) && Reach(DecidedGraph(d), y, x)
  {
    if b == c {
      assert BlockAt(d, r.blocks, b);
    }
    if Reach(DecidedGraph(d), x, y) && Reach(DecidedGraph(d), y, x) {
      ReachNoLater(r, d, b, x, y);
      ReachNoLater(r, d, c, y, x);
      var e :| NoLater(r.blocks, b, e, y);
      var f :| NoLater(r.blocks, c, f, x);
      assert OnceAt(r.blocks, e, c, y) && OnceAt(r.blocks, f, b, x);
    }
  }

  /** Where a retained edge leads from a to b, the order of the two is settled by the decided records alone. */
  lemma EdgeOrder(r: Replica, d: Decided, a: InstanceRef, b: InstanceRef)
    requires History(r, d) && a != b && Edge(DecidedGraph(d), a, b)
    requires r.state.executed.Contains(a) && r.state.executed.Contains(b)
    ensures Precedes(r.blocks, a, b) <==>
            Reach(DecidedGraph(d), b, a) && Before(a, d.records[a], b, d.records[b])
    ensures Precedes(r.blocks, b, a) <==> !Precedes(r.blocks, a, b)
  {
    assert ExecutedAt(r, a) && ExecutedAt(r, b);
    var p :| InBlock(r.blocks, p, a);
    var q :| InBlock(r.blocks, q, b);
    assert ClosedAt(d, r.blocks, p, a, b);
    var c :| NoLater(r.blocks, p, c, b);
    assert OnceAt(r.blocks, c, q, b);
    ReachEdge(DecidedGraph(d), a, b);
    SameBlockIffMutual(r, d, p, a, q, b);
    var i :| 0 <= i < |r.blocks[p]| && r.blocks[p][i] == a;
    var j :| 0 <= j < |r.blocks[q]| && r.blocks[q][j] == b;
    assert Position(r.blocks, p, i, a) && Position(r.blocks, q, j, b);
    assert BlockAt(d, r.blocks, p);
    BeforeTotal(a, d.records[a], b, d.records[b]);
    forall p', i', q', j' | Position(r.blocks, p', i', a) && Position(r.blocks, q', j', b)
      ensures p' == p && q' == q && (p == q ==> (i' < j' <==> Before(a, d.records[a], b, d.records[b])) && i' != j')
    {
      assert InBlock(r.blocks, p', a) && InBlock(r.blocks, q', b);
      assert OnceAt(r.blocks, p', p, a) && OnceAt(r.blocks, q', q, b);
    }
  }

  /**
   Execution consistency: two replicas whose committed records agree execute any two instances of which
   one depends on the other in the same relative order, however their commits arrived.
   */
  lemma SameRelativeOrder(t1: seq<Replica>, t2: seq<Replica>, d: Decided, a: InstanceRef, b: InstanceRef)
    requires Run(t1, d) && Run(t2, d) && forall y <- d.records :: y.inst != 0
    requires a in d.records && b in d.records && a != b && a.conf == b.conf && Distinct(Voters(d.confs, a.conf))
    requires Covers(Voters(d.confs, a.conf), d.records[a].deps, b)
             || Covers(Voters(d.confs, a.conf), d.records[b].deps, a)
    requires var r1, r2 := t1[|t1| - 1], t2[|t2| - 1];
             && r1.state.executed.Contains(a) && r1.state.executed.Contains(b)
             && r2.state.executed.Contains(a) && r2.state.executed.Contains(b)
    ensures Precedes(t1[|t1| - 1].blocks, a, b) <==> Precedes(t2[|t2| - 1].blocks, a, b)
    ensures Precedes(t1[|t1| - 1].blocks, a, b) <==> !Precedes(t1[|t1| - 1].blocks, b, a)
  {
    var r1, r2 := t1[|t1| - 1], t2[|t2| - 1];
    RunHistory(t1, d, |t1| - 1);
    RunHistory(t2, d, |t2| - 1);
    var voters := Voters(d.confs, a.conf);
    if Covers(voters, d.records[a].deps, b) {
      SomeEdgeRetained(voters, a, d.records[a], b, d.records[b]);
    } else {
      SomeEdgeRetained(voters, b, d.records[b], a, d.records[a]);
    }
    if Edge(DecidedGraph(d), a, b) {
      EdgeOrder(r1, d, a, b);
      EdgeOrder(r2, d, a, b);
    } else {
      EdgeOrder(r1, d, b, a);
      EdgeOrder(r2, d, b, a);
    }
  }

  /** No instance is emitted twice. */
  lemma EmittedOnce(trace: seq<Replica>, d: Decided, n: nat, p: int, i: int, q: int, j: int, x: InstanceRef)
    requires Run(trace, d) && n < |trace| && forall y <- d.records :: y.inst != 0
    requires Position(trace[n].blocks, p, i, x) && Position(trace[n].blocks, q, j, x)
    ensures p == q && i == j
  {
    var blocks := trace[n].blocks;
    RunHistory(trace, d, n);
    assert InBlock(blocks, p, x) && InBlock(blocks, q, x) && OnceAt(blocks, p, q, x) && BlockAt(d, blocks, p);
    ByteOrder.LessIrreflexive(CycleKey(d.records[x]));
  }

  /**
   Execution safety: when base executes, every instance of each of its dependency prefixes has been
   executed in an earlier block, executes in the same block, or is committed with a higher Seq and
   depends back on base.
   */
  lemma DependenciesSettled(trace: seq<Replica>, d: Decided, k: nat, component: seq<InstanceRef>,
                            base: InstanceRef, slot: nat, n: InstanceNum)
    requires Run(trace, d) && k + 1 < |trace| && Executes(trace[k], trace[k + 1], component)
    requires forall y <- d.records :: y.inst != 0
    requires base in component && base in d.records
    requires base.conf in d.confs && slot < |d.records[base].deps| && slot < |d.confs[base.conf]|
             && 1 <= n <= d.records[base].deps[slot]
    ensures var ref := InstanceRef(d.confs[base.conf][slot], n, base.conf);
            || (exists b :: InBlock(trace[k].blocks, b, ref))
            || ref in component
            || (&& ref in d.records && d.records[base].seqNo < d.records[ref].seqNo
                && Covers(d.confs[base.conf], d.records[ref].deps, base))
  {
    var s := trace[k].state;
    var ref := InstanceRef(d.confs[base.conf][slot], n, base.conf);
    var inside := set z | z in component;
    RunHistory(trace, d, k);
    assert AgreesThroughout(trace, d, k) && ExecutedAt(trace[k], ref);
    assert Pending(s, base) && AgreesAt(s, d, base) && AgreesAt(s, d, ref) && MemberReady(s, base, inside);
    var lane := Lane(base.conf, Voters(s.confs, base.conf)[slot]);
    assert LaneDischarged(s, base, lane, s.instances[base].deps[slot], inside);
    assert RefIn(lane, n) == ref && Discharged(s, base, ref, inside);
    if KnownAfter(s, base, ref, Committed) {
      AfterIsCover(Voters(s.confs, base.conf), base, s.instances[base], s.instances[ref]);
    }
  }

  /**
   Where the decided b covers a and has the higher Seq, a executes first: in an earlier block, or
   earlier in the same one. This is the order that pruning presumes.
   */
  lemma LowerSeqFirst(trace: seq<Replica>, d: Decided, n: nat, a: InstanceRef, b: InstanceRef)
    requires Run(trace, d) && n < |trace| && forall y <- d.records :: y.inst != 0
    requires a in d.records && b in d.records && a.conf == b.conf && Distinct(Voters(d.confs, a.conf))
    requires Covers(Voters(d.confs, a.conf), d.records[b].deps, a) && d.records[a].seqNo < d.records[b].seqNo
    requires trace[n].state.executed.Contains(a) && trace[n].state.executed.Contains(b)
    ensures Precedes(trace[n].blocks, a, b) && !Precedes(trace[n].blocks, b, a)
  {
    RunHistory(trace, d, n);
    AfterIsCover(Voters(d.confs, a.conf), b, d.records[b], d.records[a]);
    assert Edge(DecidedGraph(d), b, a);
    EdgeOrder(trace[n], d, b, a);
  }

  /** The key that breaks ties: only application commands have one. */
  function TieKey(rec: Record): ByteOrder.Bytes {
    if rec.kind.Application? then rec.cycleKey else []
  }

  /**
   The order inside a block: by Seq; for equal Seq by cycle key, decided at the first differing byte;
   for equal keys by configuration, then replica, then instance.
   */
  lemma BlockOrder(trace: seq<Replica>, d: Decided, n: nat, p: int, i: int, a: InstanceRef, j: int, b: InstanceRef)
    requires Run(trace, d) && n < |trace| && forall y <- d.records :: y.inst != 0
    requires Position(trace[n].blocks, p, i, a) && Position(trace[n].blocks, p, j, b)
    ensures a in d.records && b in d.records
    ensures var x, y := d.records[a], d.records[b];
            i < j <==>
              || x.seqNo < y.seqNo
              || (x.seqNo == y.seqNo && exists k :: ByteOrder.LowerAt(TieKey(x), TieKey(y), k))
              || (&& x.seqNo == y.seqNo && TieKey(x) == TieKey(y)
                  && (|| a.conf < b.conf
                      || (a.conf == b.conf && a.replica < b.replica)
                      || (a.conf == b.conf && a.replica == b.replica && a.inst < b.inst)))
  {
    var blocks := trace[n].blocks;
    RunHistory(trace, d, n);
    assert BlockAt(d, blocks, p) && a in blocks[p] && b in blocks[p];
    var x, y := d.records[a], d.records[b];
    ByteOrder.LessMeaning(TieKey(x), TieKey(y));
    ByteOrder.LessTrichotomy(TieKey(x), TieKey(y));
    if a == b {
      EmittedOnce(trace, d, n, p, i, p, j, a);
    } else {
      BeforeTotal(a, x, b, y);
    }
  }

  /** Both do something, and one of them is of global kind or both name the key. */
  ghost predicate Clash(a: Record, b: Record, k: ByteOrder.Bytes) {
    && a.kind in {Application, Kind.ConfChange, Membership, Checkpoint}
    && b.kind in {Application, Kind.ConfChange, Membership, Checkpoint}
    && (|| a.kind in {Kind.ConfChange, Membership, Checkpoint} || b.kind in {Kind.ConfChange, Membership, Checkpoint}
        || (&& F.Proper(a.footprint) && F.Proper(b.footprint)
            && F.Denotes(a.footprint, k) && F.Denotes(b.footprint, k)))
  }

  /**
   Execution waits for conflicts too: when base executes, every known undecided instance that shares a
   key with it, or is of global kind, was executed, executes in the same block, or has a higher Seq and
   depends back on base.
   */
  lemma ConflictsSettled(trace: seq<Replica>, d: Decided, k: nat, component: seq<InstanceRef>,
                         base: InstanceRef, other: InstanceRef, key: ByteOrder.Bytes)
    requires Run(trace, d) && k + 1 < |trace| && Executes(trace[k], trace[k + 1], component)
    requires forall y <- d.records :: y.inst != 0
    requires base in component && base in d.records && other in trace[k].state.instances && other != base
    requires var o := trace[k].state.instances[other];
             (o.status.PreAccepted? || o.status.Accepted?) && Clash(d.records[base], o, key)
    ensures var o := trace[k].state.instances[other];
            || (exists b :: InBlock(trace[k].blocks, b, other))
            || other in component
            || (&& other.conf == base.conf && d.records[base].seqNo < o.seqNo
                && Covers(Voters(d.confs, base.conf), o.deps, base))
  {
    var s := trace[k].state;
    var o, inside := s.instances[other], set z | z in component;
    RunHistory(trace, d, k);
    assert AgreesThroughout(trace, d, k) && ExecutedAt(trace[k], other);
    assert Pending(s, base) && AgreesAt(s, d, base) && MemberReady(s, base, inside);
    if F.Proper(s.instances[base].footprint) && F.Proper(o.footprint) {
      F.ConflictMeaning(s.instances[base].footprint, o.footprint);
    }
    assert RecordsConflict(s.instances[base], o);
    assert !UnresolvedConflict(s, base, other, inside);
    if KnownAfter(s, base, other, PreAccepted) {
      AfterIsCover(Voters(s.confs, base.conf), base, s.instances[base], o);
    }
  }
}
