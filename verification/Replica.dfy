/** Component readiness and the tryExecute loop over a replica's mutable execution state. */
module Replica {
  import opened Types
  import opened Graph
  import opened Execution
  import opened Executor
  import P = Progress
  import T = Tarjan
  import R = ExecutionRuns

  /** The smallest prefix slot that holds base up. */
  ghost predicate FirstBlocker(s: State, base: InstanceRef, lane: Lane, through: InstanceNum, inside: set<InstanceRef>,
                               n: InstanceNum) {
    && 1 <= n <= through && !Discharged(s, base, RefIn(lane, n), inside)
    && forall i: InstanceNum | 1 <= i < n :: Discharged(s, base, RefIn(lane, i), inside)
  }

  /** firstPrefixBlocker: scan one dependency prefix above the executed one. */
  method FirstPrefixBlocker(s: State, base: InstanceRef, lane: Lane, through: InstanceNum, inside: set<InstanceRef>)
    returns (blocked: bool, recover: Option<InstanceRef>)
    requires base in s.instances
    ensures !blocked <==> LaneDischarged(s, base, lane, through, inside)
    ensures !blocked ==> recover == None
    ensures blocked ==> exists n: InstanceNum ::
              && FirstBlocker(s, base, lane, through, inside, n)
              && recover == if IsFinal(s, RefIn(lane, n)) then None else Some(RefIn(lane, n))
  {
    var prefix := s.executed.Prefix(lane);
    assert forall i: InstanceNum | 1 <= i <= prefix :: s.executed.Contains(RefIn(lane, i));
    if through == 0 || prefix >= through {
      return false, None;
    }
    var current: InstanceNum := prefix + 1;
    while true
      invariant prefix < current <= through
      invariant forall i: InstanceNum | 1 <= i < current :: Discharged(s, base, RefIn(lane, i), inside)
      decreases through - current
    {
      var ref := RefIn(lane, current);
      if ref != base && ref !in inside && !s.executed.Contains(ref) {
        if !IsFinal(s, ref) {
          assert FirstBlocker(s, base, lane, through, inside, current);
          return true, Some(ref);
        }
        if !KnownAfter(s, base, ref, Committed) {
          assert FirstBlocker(s, base, lane, through, inside, current);
          return true, None;
        }
      }
      if current == through {
        return false, None;
      }
      current := current + 1;
    }
  }

  /** hasUnresolvedKnownConflict: the known undecided conflicts that hold base up, in reference order. */
  method UnresolvedConflicts(s: State, refs: seq<InstanceRef>, base: InstanceRef, inside: set<InstanceRef>)
    returns (blocking: seq<InstanceRef>)
    requires Members(refs) == s.instances.Keys && base in s.instances
    ensures forall x :: x in blocking <==> UnresolvedConflict(s, base, x, inside)
  {
    blocking := [];
    for i := 0 to |refs|
      invariant forall x <- blocking :: UnresolvedConflict(s, base, x, inside)
      invariant forall j | 0 <= j < i :: UnresolvedConflict(s, base, refs[j], inside) ==> refs[j] in blocking
    {
      if UnresolvedConflict(s, base, refs[i], inside) {
        blocking := blocking + [refs[i]];
      }
    }
    forall x | UnresolvedConflict(s, base, x, inside)
      ensures x in blocking
    {
      assert x in Members(refs);
      var j :| 0 <= j < |refs| && refs[j] == x;
    }
  }

  /** Whether every dependency prefix of one member is discharged, and what to recover when not. */
  method MemberPrefixes(s: State, base: InstanceRef, inside: set<InstanceRef>)
    returns (ready: bool, recover: seq<InstanceRef>)
    requires base in s.instances
    ensures ready <==> PrefixesDischarged(s, base, inside)
    ensures forall x <- recover :: !IsFinal(s, x) && !s.executed.Contains(x) && x !in inside
  {
    var deps, voters := s.instances[base].deps, Voters(s.confs, base.conf);
    ready, recover := true, [];
    var slot := 0;
    while slot < |deps| && slot < |voters|
      invariant 0 <= slot <= |deps| && slot <= |voters|
      invariant ready <==>
                forall k | 0 <= k < slot :: LaneDischarged(s, base, Lane(base.conf, voters[k]), deps[k], inside)
      invariant forall x <- recover :: !IsFinal(s, x) && !s.executed.Contains(x) && x !in inside
    {
      var blocked, ref := FirstPrefixBlocker(s, base, Lane(base.conf, voters[slot]), deps[slot], inside);
      if blocked {
        ready := false;
        if ref.Some? {
          recover := recover + [ref.value];
        }
      }
      slot := slot + 1;
    }
  }

  /** componentReady. */
  method ComponentReady(s: State, view: View, component: seq<InstanceRef>) returns (ready: bool,
      candidates: seq<InstanceRef>)
    requires ViewOf(view, s.instances) && forall x <- component :: x in s.instances
    ensures ready <==> Ready(s, component)
  {
    var inside := set x | x in component;
    ready, candidates := true, [];
    for i := 0 to |component|
      invariant ready <==> forall j | 0 <= j < i :: MemberReady(s, component[j], inside)
    {
      var base := component[i];
      var blocking := UnresolvedConflicts(s, view.refs, base, inside);
      var prefixes, recover := MemberPrefixes(s, base, inside);
      if blocking != [] {
        assert UnresolvedConflict(s, base, blocking[0], inside);
      }
      ready := ready && blocking == [] && prefixes;
      candidates := candidates + blocking + recover;
    }
    assert forall x :: x in component <==> exists j | 0 <= j < |component| :: component[j] == x;
  }

  /** Insert one reference where it belongs in the execution order. */
  method InsertInOrder(instances: Instances, sorted: seq<InstanceRef>, ref: InstanceRef) returns (out: seq<InstanceRef>)
    requires InOrder(instances, sorted) && ref in instances && ref !in sorted
    ensures InOrder(instances, out) && Members(out) == Members(sorted) + {ref}
  {
    var i := 0;
    while i < |sorted| && Before(sorted[i], instances[sorted[i]], ref, instances[ref])
      invariant 0 <= i <= |sorted|
      invariant forall j | 0 <= j < i :: Before(sorted[j], instances[sorted[j]], ref, instances[ref])
    {
      i := i + 1;
    }
    forall j | i <= j < |sorted|
      ensures Before(ref, instances[ref], sorted[j], instances[sorted[j]])
    {
      BeforeTotal(ref, instances[ref], sorted[i], instances[sorted[i]]);
      if i < j {
        BeforeTransitive(ref, instances[ref], sorted[i], instances[sorted[i]], sorted[j], instances[sorted[j]]);
      }
    }
    out := sorted[..i] + [ref] + sorted[i..];
    assert sorted == sorted[..i] + sorted[i..];
  }

  /** The order a component executes in. */
  method SortComponent(instances: Instances, component: seq<InstanceRef>) returns (sorted: seq<InstanceRef>)
    requires NoDuplicates(component) && forall x <- component :: x in instances
    ensures InOrder(instances, sorted) && Members(sorted) == Members(component)
  {
    sorted := [];
    for i := 0 to |component|
      invariant InOrder(instances, sorted) && Members(sorted) == Members(component[..i])
    {
      assert component[i] !in Members(component[..i]);
      sorted := InsertInOrder(instances, sorted, component[i]);
      assert component[..i + 1] == component[..i] + [component[i]];
      MembersConcat(component[..i], [component[i]]);
    }
    assert component[..|component|] == component;
  }

  /** What may be executed as a block in state s. */
  ghost predicate Runnable(s: State, block: seq<InstanceRef>) {
    && block != [] && InOrder(s.instances, block) && (forall x <- block :: Pending(s, x))
    && StronglyConnected(FinalGraph(s), Members(block)) && R.MutualClosed(s, block) && Ready(s, block)
  }

  /** A component tryExecute does not pass over. */
  ghost predicate WouldRun(s: State, component: seq<InstanceRef>, checkpointClosed: seq<InstanceRef> -> bool) {
    && Ready(s, component)
    && ((exists x <- component :: x in s.instances && s.instances[x].kind.Checkpoint?) ==> checkpointClosed(component))
  }

  /** Nothing left to execute: no component of the pending graph would run. */
  ghost predicate Quiescent(s: State, checkpointClosed: seq<InstanceRef> -> bool) {
    exists components :: Decomposes(s, components) && NoneRun(s, components, |components|, checkpointClosed)
  }

  ghost predicate NoneRun(s: State, components: seq<seq<InstanceRef>>, n: nat,
                          checkpointClosed: seq<InstanceRef> -> bool) {
    n <= |components| && forall c | 0 <= c < n :: !WouldRun(s, components[c], checkpointClosed)
  }

  /** Decide whether a component runs now, and in which order. */
  method BlockToRun(s: State, view: View, component: seq<InstanceRef>, checkpointClosed: seq<InstanceRef> -> bool)
    returns (run: bool, barrier: bool, sorted: seq<InstanceRef>)
    requires ViewOf(view, s.instances) && component != [] && NoDuplicates(component)
    requires forall x <- component :: Pending(s, x) && x in s.instances
    requires StronglyConnected(FinalGraph(s), Members(component)) && R.MutualClosed(s, component)
    ensures run <==> WouldRun(s, component, checkpointClosed)
    ensures barrier <==> exists x <- component :: s.instances[x].kind.Checkpoint?
    ensures run ==> Runnable(s, sorted) && Members(sorted) == Members(component)
  {
    var ready, candidates := ComponentReady(s, view, component);
    barrier := exists x <- component :: s.instances[x].kind.Checkpoint?;
    run, sorted := ready && (!barrier || checkpointClosed(component)), [];
    if run {
      sorted := SortComponent(s.instances, component);
      SameMembers(s, component, sorted);
    }
  }

  /** State s during a pass that started in s0: the members of done have been executed since. */
  ghost predicate DuringPass(s0: State, s: State, done: set<InstanceRef>) {
    && s.confs == s0.confs && s.instances.Keys == s0.instances.Keys
    && (forall x :: SameContent(s0, s, done, x))
  }

  ghost predicate SameContent(s0: State, s: State, done: set<InstanceRef>, x: InstanceRef) {
    && (x in s0.instances && x in s.instances ==>
          s.instances[x] == if x in done then R.Finish(s0.instances[x]) else s0.instances[x])
    && (x in done ==> IsFinal(s0, x))
    && (s.executed.Contains(x) <==> s0.executed.Contains(x) || x in done)
  }

  lemma PassRetained(s0: State, s: State, done: set<InstanceRef>, x: InstanceRef, y: InstanceRef)
    requires DuringPass(s0, s, done)
    ensures Retained(s, x, y) <==> Retained(s0, x, y)
    ensures Pending(s, x) <==> Pending(s0, x) && x !in done
  {
    assert SameContent(s0, s, done, x) && SameContent(s0, s, done, y);
  }

  lemma PassFinalGraph(s0: State, s: State, done: set<InstanceRef>)
    requires DuringPass(s0, s, done)
    ensures Subgraph(PendingGraph(s0), FinalGraph(s))
  {
    forall u <- PendingGraph(s0)
      ensures u in FinalGraph(s) && PendingGraph(s0)[u] <= FinalGraph(s)[u]
    {
      assert SameContent(s0, s, done, u);
      forall v <- PendingGraph(s0)[u]
        ensures v in FinalGraph(s)[u]
      {
        PassRetained(s0, s, done, u, v);
      }
    }
  }

  /** A component of the pass's decomposition is still strongly connected and mutually closed when its turn comes. */
  lemma PassComponent(s0: State, s: State, done: set<InstanceRef>, components: seq<seq<InstanceRef>>, c: nat)
    requires Decomposes(s0, components) && c < |components| && DuringPass(s0, s, done)
    ensures StronglyConnected(FinalGraph(s), Members(components[c])) && R.MutualClosed(s, components[c])
  {
    var g := PendingGraph(s0);
    assert T.IsComponent(g, components, c);
    PassFinalGraph(s0, s, done);
    forall u, v | u in Members(components[c]) && v in Members(components[c])
      ensures Reach(FinalGraph(s), u, v)
    {
      ReachMonotone(g, FinalGraph(s), u, v);
    }
    forall x, y | x in components[c] && Pending(s, y) && Retained(s, x, y) && Retained(s, y, x)
      ensures y in components[c]
    {
      PassRetained(s0, s, done, x, y);
      PassRetained(s0, s, done, y, x);
      assert T.Among(components, c, x) && PartOf(s0, components, x);
      assert Edge(g, x, y) && Edge(g, y, x);
      assert T.LeadsEarlier(g, components, c, x, y);
      var d :| T.At(components, c, d, y);
      assert T.LeadsEarlier(g, components, d, y, x);
      var e :| T.At(components, d, e, x);
      assert T.ApartIn(components, e, c, x);
    }
  }

  // The committed prefixes.

  function PrefixOf(through: map<Lane, InstanceNum>, lane: Lane): InstanceNum {
    if lane in through then through[lane] else 0
  }

  /** Committed, or committed before and since executed and retired. */
  ghost predicate WasCommitted(s: State, ref: InstanceRef) {
    IsFinal(s, ref) || s.executed.Contains(ref)
  }

  ghost predicate CommittedUpTo(s: State, through: map<Lane, InstanceNum>, lane: Lane) {
    forall i: InstanceNum | 1 <= i <= PrefixOf(through, lane) :: WasCommitted(s, RefIn(lane, i))
  }

  ghost predicate CommittedMaximal(s: State, through: map<Lane, InstanceNum>, lane: Lane) {
    PrefixOf(through, lane) == MAX_U64 || !IsFinal(s, RefIn(lane, PrefixOf(through, lane) + 1))
  }

  /** Every lane's prefix is fully committed and cannot be extended. */
  ghost predicate Tracks(s: State, through: map<Lane, InstanceNum>) {
    forall lane :: CommittedUpTo(s, through, lane) && CommittedMaximal(s, through, lane)
  }

  /** Nothing newly final, nothing committed forgotten: the prefixes stay right. */
  lemma TracksKept(s: State, s': State, through: map<Lane, InstanceNum>)
    requires Tracks(s, through)
    requires forall ref :: (WasCommitted(s, ref) ==> WasCommitted(s', ref)) && (IsFinal(s', ref) ==> IsFinal(s, ref))
    ensures Tracks(s', through)
  {
    forall lane
      ensures CommittedUpTo(s', through, lane) && CommittedMaximal(s', through, lane)
    {
      assert CommittedUpTo(s, through, lane) && CommittedMaximal(s, through, lane);
    }
  }

  ghost predicate HoldsCheckpoint(r: R.Replica, b: int) {
    0 <= b < |r.blocks| && exists x <- r.blocks[b] :: x in r.state.instances && r.state.instances[x].kind.Checkpoint?
  }

  /** The last block executed holds a checkpoint. */
  ghost predicate LastHoldsCheckpoint(r: R.Replica) {
    HoldsCheckpoint(r, |r.blocks| - 1)
  }

  lemma CheckpointRan(r: R.Replica, r': R.Replica, component: seq<InstanceRef>, sorted: seq<InstanceRef>)
    requires R.Executes(r, r', sorted) && Members(sorted) == Members(component)
    requires exists x <- component :: x in r.state.instances && r.state.instances[x].kind.Checkpoint?
    ensures LastHoldsCheckpoint(r')
  {
    var x :| x in component && x in r.state.instances && r.state.instances[x].kind.Checkpoint?;
    assert x in Members(sorted);
    assert x in r'.blocks[|r'.blocks| - 1] && r'.state.instances[x].kind.Checkpoint?;
  }

  /** What a turn that executed a block leaves. */
  lemma TurnDone(s0: State, r: R.Replica, r': R.Replica, done: set<InstanceRef>, components: seq<seq<InstanceRef>>,
                 c: nat,
                 sorted: seq<InstanceRef>)
    requires c < |components| && R.Executes(r, r', sorted) && Members(sorted) == Members(components[c])
    requires DuringPass(s0, r.state, done) && AllPending(s0, done) && AllDoneBefore(components, c, done)
    ensures var more := done + Members(sorted);
            more != {} && DuringPass(s0, r'.state, more) && AllPending(s0, more)
                && AllDoneBefore(components, c + 1, more)
    ensures r'.state.instances.Keys == r.state.instances.Keys
    ensures (exists x <- components[c] :: x in r.state.instances && r.state.instances[x].kind.Checkpoint?) ==>
              LastHoldsCheckpoint(r')
  {
    BlockDone(s0, r.state, r'.state, done, sorted);
    BlockDoneBefore(components, c, done, sorted);
    if exists x <- components[c] :: x in r.state.instances && r.state.instances[x].kind.Checkpoint? {
      CheckpointRan(r, r', components[c], sorted);
    }
    assert sorted[0] in done + Members(sorted);
  }

  lemma DuringTransitive(s0: State, s1: State, s2: State, a: set<InstanceRef>, b: set<InstanceRef>)
    requires DuringPass(s0, s1, a) && DuringPass(s1, s2, b)
    ensures DuringPass(s0, s2, a + b)
  {
    forall x
      ensures SameContent(s0, s2, a + b, x)
    {
      assert SameContent(s0, s1, a, x) && SameContent(s1, s2, b, x);
    }
  }

  /** When no component would run, every set that was self-contained at the start has been executed. */
  lemma NothingLeft(s0: State, s: State, done: set<InstanceRef>, components: seq<seq<InstanceRef>>,
                    checkpointClosed: seq<InstanceRef> -> bool)
    requires WellFormed(s) && DuringPass(s0, s, done) && Decomposes(s, components)
    requires NoneRun(s, components, |components|, checkpointClosed)
    ensures forall c | P.SelfContained(s0, c) :: forall x <- c :: s.executed.Contains(x)
  {
    forall c | P.SelfContained(s0, c)
      ensures forall x <- c :: s.executed.Contains(x)
    {
      forall x
        ensures P.Same(s0, s, done, x)
      {
        assert SameContent(s0, s, done, x);
      }
      P.StillContained(s0, s, done, c);
      if c - done != {} {
        var k := P.SomeReady(s, c - done, components);
        assert WouldRun(s, components[k], checkpointClosed);
      }
      forall x <- c
        ensures s.executed.Contains(x)
      {
        assert x in c - done || x in done;
        assert P.Same(s0, s, done, x);
      }
    }
  }

  class ExecutionState {
    var instances: Instances
    var executed: Tracker
    var confs: Confs
    var committedThrough: map<Lane, InstanceNum>
    var paused: bool
    ghost var blocks: seq<seq<InstanceRef>>

    function Now(): State
      reads this
    {
      State(instances, executed, confs)
    }

    ghost function Snapshot(): R.Replica
      reads this
    {
      R.Replica(Now(), blocks)
    }

    ghost predicate Valid()
      reads this
    {
      WellFormed(Now()) && executed.Maximal() && Tracks(Now(), committedThrough)
    }

    /** A replica that knows its configurations and nothing else. */
    constructor (confs: Confs)
      requires forall c <- confs :: Distinct(confs[c])
      ensures Valid() && R.Fresh(Snapshot()) && this.confs == confs && instances == map[] && committedThrough == map[]
    {
      instances, executed, this.confs := map[], Tracker({}, map[]), confs;
      committedThrough, paused, blocks := map[], false, [];
    }

    /** executedTracker.add: record one execution and extend the lane's executed prefix as far as it goes. */
    method AddExecuted(ref: InstanceRef)
      requires executed.Maximal()
      modifies this`executed
      ensures executed.Maximal()
      ensures forall x :: executed.Contains(x) <==> old(executed).Contains(x) || (x == ref && ref.inst != 0)
      ensures old(Tracks(Now(), committedThrough)) ==> Tracks(Now(), committedThrough)
    {
      if ref.inst == 0 {
        return;
      }
      var lane := LaneFor(ref);
      ghost var before := executed;
      executed := executed.(exact := executed.exact + {ref});
      while executed.Prefix(lane) != MAX_U64 && RefIn(lane, executed.Prefix(lane) + 1) in executed.exact
        invariant executed.exact == before.exact + {ref}
        invariant forall other :: other != lane ==> executed.Prefix(other) == before.Prefix(other)
        invariant forall x :: executed.Contains(x) <==> before.Contains(x) || x == ref
        decreases MAX_U64 - executed.Prefix(lane)
      {
        var next: InstanceNum := executed.Prefix(lane) + 1;
        executed := executed.(through := executed.through[lane := next]);
      }
      forall other
        ensures executed.MaximalAt(other)
      {
        assert before.MaximalAt(other);
      }
      if old(Tracks(Now(), committedThrough)) {
        TracksKept(old(Now()), Now(), committedThrough);
      }
    }

    /** forgetExactThrough: exact entries the lane prefix already covers are dropped. */
    method ForgetExactThrough(lane: Lane, through: InstanceNum)
      requires Valid() && through <= executed.Prefix(lane)
      modifies this`executed
      ensures Valid() && executed.through == old(executed).through
      ensures forall x :: executed.Contains(x) <==> old(executed).Contains(x)
      ensures forall x <- old(executed).exact :: x in executed.exact <==> LaneFor(x) != lane || x.inst > through
      ensures executed.exact <= old(executed).exact
    {
      ghost var before := executed;
      executed := executed.(exact := set x | x in executed.exact && !(LaneFor(x) == lane && x.inst <= through));
      forall other
        ensures executed.MaximalAt(other)
      {
        assert before.MaximalAt(other);
      }
      TracksKept(old(Now()), Now(), committedThrough);
    }

    /** noteCommitted: after ref became final, extend its lane's committed prefix as far as it goes. */
    method NoteCommitted(ref: InstanceRef)
      requires ref.inst != 0 && IsFinal(Now(), ref)
      requires forall lane :: CommittedUpTo(Now(), committedThrough, lane)
      requires forall lane :: CommittedMaximal(Now(), committedThrough, lane)
                              || (PrefixOf(committedThrough, lane) + 1 == ref.inst && lane == LaneFor(ref))
      modifies this`committedThrough
      ensures Tracks(Now(), committedThrough)
    {
      var lane := LaneFor(ref);
      var through := PrefixOf(committedThrough, lane);
      if ref.inst <= through || through == MAX_U64 || ref.inst != through + 1 {
        assert forall other :: CommittedMaximal(Now(), committedThrough, other);
        return;
      }
      ghost var before := committedThrough;
      assert CommittedUpTo(Now(), before, lane);
      var next: InstanceNum := through + 1;
      while true
        invariant next == PrefixOf(committedThrough, lane) + 1
        invariant forall other :: other != lane ==> PrefixOf(committedThrough, other) == PrefixOf(before, other)
        invariant forall i: InstanceNum | 1 <= i < next :: WasCommitted(Now(), RefIn(lane, i))
        decreases MAX_U64 - next
      {
        if !IsFinal(Now(), RefIn(lane, next)) {
          break;
        }
        committedThrough := committedThrough[lane := next];
        if next == MAX_U64 {
          break;
        }
        next := next + 1;
      }
      forall other
        ensures CommittedUpTo(Now(), committedThrough, other) && CommittedMaximal(Now(), committedThrough, other)
      {
        assert CommittedUpTo(Now(), before, other) && (CommittedMaximal(Now(), before, other) || other == lane);
      }
    }

    /**
     installInstance: a record is learned or overwritten. A final record is only ever replaced by a
     final one. An executed record, as loaded at a restart, also joins the executed set.
     */
    method Install(ref: InstanceRef, rec: Record)
      requires Valid() && ref.inst != 0 && (IsFinal(Now(), ref) ==> rec.status.Final())
      modifies this
      ensures Valid() && instances == old(instances)[ref := rec] && confs == old(confs) && blocks == old(blocks)
      ensures forall x :: executed.Contains(x) <==> old(executed).Contains(x) || (x == ref && rec.status.Executed?)
      ensures !rec.status.Executed? ==> R.Learns(old(Snapshot()), Snapshot())
    {
      ghost var s0 := Now();
      instances := instances[ref := rec];
      InstallTracks(s0, committedThrough, ref, rec);
      if rec.status.Final() {
        NoteCommitted(ref);
      }
      if rec.status.Executed? {
        AddExecuted(ref);
      }
    }

    /** retireExecuted, of one instance: an executed record leaves memory. */
    method Retire(ref: InstanceRef)
      requires Valid() && executed.Contains(ref)
      modifies this`instances
      ensures Valid() && instances == old(instances) - {ref} && R.Learns(old(Snapshot()), Snapshot())
    {
      instances := instances - {ref};
      TracksKept(old(Now()), Now(), committedThrough);
    }

    method ExecuteOne(ref: InstanceRef)
      requires WellFormed(Now()) && executed.Maximal() && ref in instances && ref.inst != 0
      modifies this`executed, this`instances
      ensures WellFormed(Now()) && executed.Maximal()
              && instances == old(instances)[ref := R.Finish(old(instances)[ref])]
      ensures forall x :: executed.Contains(x) <==> old(executed).Contains(x) || x == ref
    {
      AddExecuted(ref);
      instances := instances[ref := R.Finish(instances[ref])];
    }

    /** Execute the members of one ready component in order. */
    method ExecuteBlock(component: seq<InstanceRef>)
      requires Valid() && Runnable(Now(), component)
      modifies this
      ensures Valid() && paused == old(paused)
      ensures R.Executes(old(Snapshot()), Snapshot(), component) && R.ExecutesSome(old(Snapshot()), Snapshot())
    {
      ghost var s0 := Now();
      for i := 0 to |component|
        invariant WellFormed(Now()) && executed.Maximal() && confs == s0.confs && blocks == old(blocks)
        invariant paused == old(paused) && committedThrough == old(committedThrough)
        invariant instances == map x | x in s0.instances ::
                                 if x in component[..i] then R.Finish(s0.instances[x]) else s0.instances[x]
        invariant forall x :: executed.Contains(x) <==> s0.executed.Contains(x) || x in component[..i]
      {
        var ref := component[i];
        assert Pending(s0, ref);
        assert component[..i + 1] == component[..i] + [ref];
        ExecuteOne(ref);
      }
      assert component[..|component|] == component;
      TracksKept(s0, Now(), committedThrough);
      blocks := blocks + [component];
      assert R.Executes(old(Snapshot()), Snapshot(), component);
    }

    /**
     The turn of one component: execute it as a block when it is ready. checkpointClosed stands for
     the extra test a component holding a checkpoint barrier must pass.
     */
    method ExecuteTurn(view: View, components: seq<seq<InstanceRef>>, c: nat,
                       checkpointClosed: seq<InstanceRef> -> bool,
                       ghost s0: State, ghost done: set<InstanceRef>)
      returns (executes: bool, barrier: bool, ghost done': set<InstanceRef>)
      requires Valid() && ViewOf(view, instances) && c < |components|
      requires Decomposes(s0, components) && DuringPass(s0, Now(), done) && AllPending(s0, done)
      requires AllDoneBefore(components, c, done)
      modifies this
      ensures Valid() && instances.Keys == old(instances.Keys)
      ensures DuringPass(s0, Now(), done') && AllPending(s0, done') && AllDoneBefore(components, c + 1, done')
      ensures executes ==> done' != {} && R.ExecutesSome(old(Snapshot()), Snapshot())
      ensures paused == (old(paused) || barrier) && (barrier ==> executes && LastHoldsCheckpoint(Snapshot()))
      ensures !executes ==>
                done' == done && Snapshot() == old(Snapshot()) && !WouldRun(Now(), components[c], checkpointClosed)
    {
      ComponentTurn(s0, Now(), done, components, c);
      ghost var sorted;
      executes, barrier, sorted := RunComponent(view, components[c], checkpointClosed);
      if !executes {
        NotDoneBefore(components, c, done);
        return false, false, done;
      }
      TurnDone(s0, old(Snapshot()), Snapshot(), done, components, c, sorted);
      done' := done + Members(sorted);
    }

    /** Execute a component if it is ready and closed; a checkpoint in it pauses the replica. */
    method RunComponent(view: View, component: seq<InstanceRef>, checkpointClosed: seq<InstanceRef> -> bool)
      returns (executes: bool, barrier: bool, ghost sorted: seq<InstanceRef>)
      requires Valid() && ViewOf(view, instances) && component != [] && NoDuplicates(component)
      requires forall x <- component :: Pending(Now(), x) && x in instances
      requires StronglyConnected(FinalGraph(Now()), Members(component)) && R.MutualClosed(Now(), component)
      modifies this
      ensures Valid() && paused == (old(paused) || (executes && barrier))
      ensures barrier <==> exists x <- component :: x in old(instances) && old(instances)[x].kind.Checkpoint?
      ensures executes ==> Members(sorted) == Members(component) && R.Executes(old(Snapshot()), Snapshot(), sorted)
                           && R.ExecutesSome(old(Snapshot()), Snapshot())
      ensures !executes ==> Snapshot() == old(Snapshot()) && !WouldRun(Now(), component, checkpointClosed)
    {
      var block;
      executes, barrier, block := BlockToRun(Now(), view, component, checkpointClosed);
      sorted := block;
      if executes {
        ExecuteBlock(block);
        paused := paused || barrier;
      }
    }

    /** One pass of tryExecute over a decomposition taken at its start; a checkpoint barrier ends it. */
    method ExecutePass(view: View, components: seq<seq<InstanceRef>>, checkpointClosed: seq<InstanceRef> -> bool)
      returns (progress: bool, barrier: bool, ghost done: set<InstanceRef>)
      requires Valid() && ViewOf(view, instances) && Decomposes(Now(), components)
      modifies this
      ensures Valid() && instances.Keys == old(instances.Keys)
      ensures R.ExecutesMany(old(Snapshot()), Snapshot())
      ensures DuringPass(old(Now()), Now(), done) && AllPending(old(Now()), done) && (progress ==> done != {})
      ensures paused == (old(paused) || (progress && barrier))
              && (progress && barrier ==> LastHoldsCheckpoint(Snapshot()))
      ensures !progress ==> Now() == old(Now()) && NoneRun(Now(), components, |components|, checkpointClosed)
    {
      ghost var s0 := Now();
      done := {};
      progress, barrier := false, false;
      R.ExecutesNone(Snapshot());
      for c := 0 to |components|
        invariant Valid() && instances.Keys == s0.instances.Keys
        invariant DuringPass(s0, Now(), done) && AllPending(s0, done) && AllDoneBefore(components, c, done)
        invariant (progress ==> done != {}) && paused == old(paused) && !barrier
        invariant !progress ==> Now() == s0 && NoneRun(s0, components, c, checkpointClosed)
        invariant R.ExecutesMany(old(Snapshot()), Snapshot())
      {
        ghost var mid := Snapshot();
        var executes;
        executes, barrier, done := ExecuteTurn(view, components, c, checkpointClosed, s0, done);
        if executes {
          R.ExecutesOneMore(old(Snapshot()), mid, Snapshot());
          progress := true;
          if barrier {
            return;
          }
        }
      }
    }

    /**
     tryExecute: passes over the committed unexecuted instances until one makes no progress or a
     checkpoint barrier ends it. The replica executes blocks and changes nothing else. Unless it is
     paused by a checkpoint it executed, it leaves no component that could run, and has executed
     every set of committed instances that waited for nothing outside itself.
     */
    method TryExecute(checkpointClosed: seq<InstanceRef> -> bool) returns (stopped: bool)
      requires Valid()
      modifies this
      ensures Valid() && instances.Keys == old(instances.Keys)
      ensures R.ExecutesMany(old(Snapshot()), Snapshot())
      ensures stopped <==> paused
      ensures old(paused) ==> paused && Snapshot() == old(Snapshot())
      ensures paused && !old(paused) ==> LastHoldsCheckpoint(Snapshot())
      ensures !stopped ==> Quiescent(Now(), checkpointClosed)
      ensures !stopped ==> forall c | P.SelfContained(old(Now()), c) :: forall x <- c :: executed.Contains(x)
    {
      R.ExecutesNone(Snapshot());
      if paused {
        return true;
      }
      var view := NewExecutionView(instances);
      ghost var all := {};
      while true
        invariant Valid() && instances.Keys == old(instances.Keys) && ViewOf(view, instances)
        invariant R.ExecutesMany(old(Snapshot()), Snapshot())
        invariant !paused && DuringPass(old(Now()), Now(), all)
        decreases PendingSet(Now())
      {
        ghost var before := Snapshot();
        var components := ExecutionComponents(Now(), view);
        var progress, barrier;
        ghost var done;
        progress, barrier, done := ExecutePass(view, components, checkpointClosed);
        R.ExecutesManyTransitive(old(Snapshot()), before, Snapshot());
        DuringTransitive(old(Now()), before.state, Now(), all, done);
        all := all + done;
        if !progress {
          assert NoneRun(Now(), components, |components|, checkpointClosed);
          NothingLeft(old(Now()), Now(), all, components, checkpointClosed);
          return false;
        }
        if barrier {
          return true;
        }
        PendingShrinks(before.state, Now(), done);
      }
    }
  }

  /** After a record is installed the prefixes are right, but for its own lane where it comes next. */
  lemma InstallTracks(s: State, through: map<Lane, InstanceNum>, ref: InstanceRef, rec: Record)
    requires Tracks(s, through) && ref.inst != 0 && (IsFinal(s, ref) ==> rec.status.Final())
    ensures var s' := s.(instances := s.instances[ref := rec]);
            forall lane :: CommittedUpTo(s', through, lane)
                           && (CommittedMaximal(s', through, lane)
                               || (rec.status.Final() && PrefixOf(through, lane) + 1 == ref.inst
                                   && lane == LaneFor(ref)))
  {
    var s' := s.(instances := s.instances[ref := rec]);
    forall lane
      ensures CommittedUpTo(s', through, lane)
      ensures CommittedMaximal(s', through, lane)
              || (rec.status.Final() && PrefixOf(through, lane) + 1 == ref.inst && lane == LaneFor(ref))
    {
      assert CommittedUpTo(s, through, lane) && CommittedMaximal(s, through, lane);
      forall i: InstanceNum | 1 <= i <= PrefixOf(through, lane)
        ensures WasCommitted(s', RefIn(lane, i))
      {
        assert WasCommitted(s, RefIn(lane, i));
      }
    }
  }

  ghost function PendingSet(s: State): set<InstanceRef> {
    set x | x in s.instances && Pending(s, x)
  }

  lemma PendingShrinks(s0: State, s: State, done: set<InstanceRef>)
    requires DuringPass(s0, s, done) && AllPending(s0, done) && done != {}
    ensures PendingSet(s) < PendingSet(s0)
  {
    forall x
      ensures Pending(s, x) <==> Pending(s0, x) && x !in done
    {
      PassRetained(s0, s, done, x, x);
    }
    var x :| x in done;
    assert x in PendingSet(s0) && x !in PendingSet(s);
  }

  ghost predicate AllPending(s: State, done: set<InstanceRef>) {
    forall x <- done :: Pending(s, x)
  }

  /** Nothing executed in this pass sits in a component whose turn is still to come. */
  ghost predicate DoneBefore(components: seq<seq<InstanceRef>>, c: int, done: set<InstanceRef>, x: InstanceRef) {
    x in done ==> exists d :: d < c && T.Among(components, d, x)
  }

  ghost predicate AllDoneBefore(components: seq<seq<InstanceRef>>, c: int, done: set<InstanceRef>) {
    forall x :: DoneBefore(components, c, done, x)
  }

  lemma NotDoneBefore(components: seq<seq<InstanceRef>>, c: nat, done: set<InstanceRef>)
    requires AllDoneBefore(components, c, done)
    ensures AllDoneBefore(components, c + 1, done)
  {
    var next := c + 1;
    forall x
      ensures DoneBefore(components, next, done, x)
    {
      assert DoneBefore(components, c, done, x);
    }
  }

  lemma BlockDoneBefore(components: seq<seq<InstanceRef>>, c: nat, done: set<InstanceRef>, sorted: seq<InstanceRef>)
    requires c < |components| && Members(sorted) == Members(components[c])
    requires AllDoneBefore(components, c, done)
    ensures AllDoneBefore(components, c + 1, done + Members(sorted))
  {
    var next := c + 1;
    forall x
      ensures DoneBefore(components, next, done + Members(sorted), x)
    {
      assert DoneBefore(components, c, done, x);
      if x in Members(sorted) {
        assert x in Members(components[c]);
        assert T.Among(components, c, x);
      }
    }
  }

  /** When its turn comes a component is nonempty, pending, connected and closed. */
  lemma ComponentTurn(s0: State, s: State, done: set<InstanceRef>, components: seq<seq<InstanceRef>>, c: nat)
    requires Decomposes(s0, components) && c < |components| && DuringPass(s0, s, done)
    requires AllDoneBefore(components, c, done)
    ensures components[c] != [] && NoDuplicates(components[c])
    ensures forall x <- components[c] :: Pending(s, x) && Pending(s0, x) && x in s.instances
    ensures StronglyConnected(FinalGraph(s), Members(components[c])) && R.MutualClosed(s, components[c])
  {
    assert T.IsComponent(PendingGraph(s0), components, c);
    PassComponent(s0, s, done, components, c);
    forall x <- components[c]
      ensures Pending(s, x) && Pending(s0, x) && x in s.instances
    {
      assert T.Among(components, c, x) && PartOf(s0, components, x);
      forall d | d < c
        ensures !T.Among(components, d, x)
      {
        assert T.ApartIn(components, d, c, x);
      }
      assert DoneBefore(components, c, done, x);
      PassRetained(s0, s, done, x, x);
    }
  }

  /** Readiness, connection and closure only depend on the members of a component. */
  lemma SameMembers(s: State, component: seq<InstanceRef>, sorted: seq<InstanceRef>)
    requires Members(sorted) == Members(component) && component != []
    requires Ready(s, component) && R.MutualClosed(s, component) && forall x <- component :: Pending(s, x)
    ensures sorted != [] && Ready(s, sorted) && R.MutualClosed(s, sorted) && forall x <- sorted :: Pending(s, x)
  {
    assert forall x :: x in sorted <==> x in Members(sorted);
    assert forall x :: x in component <==> x in Members(component);
    assert component[0] in sorted;
    assert (set x | x in sorted) == (set x | x in component);
  }

  lemma BlockDone(s0: State, s: State, s': State, done: set<InstanceRef>, block: seq<InstanceRef>)
    requires DuringPass(s0, s, done) && AllPending(s0, done) && forall x <- block :: Pending(s, x)
    requires s'.confs == s.confs && R.SameExecuted(s, s', Members(block))
    requires s'.instances == map x | x in s.instances :: if x in block then R.Finish(s.instances[x]) else s.instances[x]
    ensures DuringPass(s0, s', done + Members(block)) && AllPending(s0, done + Members(block))
  {
    forall x
      ensures SameContent(s0, s', done + Members(block), x)
      ensures x in block ==> Pending(s0, x)
    {
      assert SameContent(s0, s, done, x);
      PassRetained(s0, s, done, x, x);
    }
  }
}
