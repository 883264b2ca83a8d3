/**
 Execution gets on: among committed instances that wait for nothing outside themselves, some
 component of the pruned graph is always ready.
 */
module Progress {
  import opened Types
  import opened Graph
  import opened Execution
  import opened Executor
  import F = Footprint
  import T = Tarjan

  predicate Decided(s: State, x: InstanceRef) {
    x in s.instances && (s.instances[x].status.Committed? || s.instances[x].status.Executed?)
  }

  /** y follows x: it has the higher Seq and depends back on x. */
  ghost predicate Follows(s: State, x: InstanceRef, y: InstanceRef) {
    && x in s.instances && y in s.instances && x.conf == y.conf && s.instances[x].seqNo < s.instances[y].seqNo
    && Covers(Voters(s.confs, x.conf), s.instances[y].deps, x)
  }

  predicate Everywhere(rec: Record) {
    rec.kind in {ConfChange, Membership, Checkpoint} || (rec.kind.Application? && rec.footprint.all)
  }

  predicate Acts(rec: Record) {
    rec.kind in {Application, ConfChange, Membership, Checkpoint}
  }

  /** Both do something, and one of them does it everywhere or their footprints conflict. */
  predicate Interfere(a: Record, b: Record) {
    Acts(a) && Acts(b) && (Everywhere(a) || Everywhere(b) || F.Conflict(a.footprint, b.footprint))
  }

  /** The n-th instance of a dependency prefix of x is executed, in c, or decided and following x. */
  ghost predicate PrefixSettled(s: State, c: set<InstanceRef>, x: InstanceRef, slot: int, n: InstanceNum) {
    x in s.instances && 0 <= slot < |s.instances[x].deps| && slot < |Voters(s.confs, x.conf)|
    && 1 <= n <= s.instances[x].deps[slot] ==>
      var y := InstanceRef(Voters(s.confs, x.conf)[slot], n, x.conf);
      || s.executed.Contains(y) || y in c
      || (Decided(s, y) && Follows(s, x, y) && !s.instances[y].kind.Checkpoint?)
  }

  /** A known undecided instance that interferes with x is executed or follows it. */
  ghost predicate ConflictSettled(s: State, x: InstanceRef, y: InstanceRef) {
    && x in s.instances && y in s.instances && (s.instances[y].status.PreAccepted? || s.instances[y].status.Accepted?)
    && Interfere(s.instances[x], s.instances[y]) ==>
      s.executed.Contains(y) || Follows(s, x, y)
  }

  /** The member is committed, unexecuted and no checkpoint, and waits for nothing outside c. */
  ghost predicate MemberSettled(s: State, c: set<InstanceRef>, x: InstanceRef) {
    x in c ==>
      && Decided(s, x) && !s.executed.Contains(x) && !s.instances[x].kind.Checkpoint?
      && (forall slot, n :: PrefixSettled(s, c, x, slot, n)) && forall y :: ConflictSettled(s, x, y)
  }

  ghost predicate SelfContained(s: State, c: set<InstanceRef>) {
    forall x :: MemberSettled(s, c, x)
  }

  /** Retained edges from a self-contained set lead back into it. */
  lemma EdgesStay(s: State, c: set<InstanceRef>, x: InstanceRef, y: InstanceRef)
    requires WellFormed(s) && SelfContained(s, c) && x in c && Edge(PendingGraph(s), x, y)
    ensures y in c
  {
    var voters, rec := Voters(s.confs, x.conf), s.instances[x];
    assert MemberSettled(s, c, x);
    var slot :| 0 <= slot < |rec.deps| && slot < |voters| && voters[slot] == y.replica && y.inst <= rec.deps[slot];
    assert PrefixSettled(s, c, x, slot, y.inst);
    assert InstanceRef(voters[slot], y.inst, x.conf) == y;
    assert Distinct(voters);
    AfterIsCover(voters, x, rec, s.instances[y]);
  }

  lemma ReachStays(s: State, c: set<InstanceRef>, x: InstanceRef, y: InstanceRef)
    requires WellFormed(s) && SelfContained(s, c) && x in c && Reach(PendingGraph(s), x, y)
    ensures y in c
  {
    var g := PendingGraph(s);
    var p :| PathBetween(g, p, x, y);
    var i := 0;
    while i < |p| - 1
      invariant 0 <= i < |p| && p[i] in c
    {
      assert Hop(g, p, i);
      EdgesStay(s, c, p[i], p[i + 1]);
      i := i + 1;
    }
  }

  ghost predicate Meets(components: seq<seq<InstanceRef>>, k: int, c: set<InstanceRef>) {
    exists x :: x in c && T.Among(components, k, x)
  }

  /** The first component that meets the set. */
  lemma {:induction false} FirstMeeting(components: seq<seq<InstanceRef>>, k: int,
                                        c: set<InstanceRef>) returns (first: int)
    requires 0 <= k < |components| && Meets(components, k, c)
    ensures 0 <= first <= k && Meets(components, first, c) && forall j | 0 <= j < first :: !Meets(components, j, c)
    decreases k
  {
    if j :| 0 <= j < k && Meets(components, j, c) {
      first := FirstMeeting(components, j, c);
    } else {
      first := k;
    }
  }

  lemma WholeInside(s: State, c: set<InstanceRef>, components: seq<seq<InstanceRef>>, k: int)
    requires WellFormed(s) && SelfContained(s, c) && Decomposes(s, components) && Meets(components, k, c)
    ensures forall y <- components[k] :: y in c
  {
    var x :| x in c && T.Among(components, k, x);
    assert T.IsComponent(PendingGraph(s), components, k);
    forall y <- components[k]
      ensures y in c
    {
      assert x in Members(components[k]) && y in Members(components[k]);
      ReachStays(s, c, x, y);
    }
  }

  /** In the first component that meets a self-contained set, no dependency holds a member up. */
  lemma PrefixDischarged(s: State, c: set<InstanceRef>, components: seq<seq<InstanceRef>>, k: int,
                         x: InstanceRef, slot: int, n: InstanceNum)
    requires WellFormed(s) && SelfContained(s, c) && Decomposes(s, components) && 0 <= k < |components|
    requires (forall j | 0 <= j < k :: !Meets(components, j, c)) && x in components[k] && x in c
    requires x in s.instances && 0 <= slot < |s.instances[x].deps| && slot < |Voters(s.confs, x.conf)|
    requires 1 <= n <= s.instances[x].deps[slot]
    ensures Discharged(s, x, InstanceRef(Voters(s.confs, x.conf)[slot], n, x.conf), set z | z in components[k])
  {
    var voters, rec := Voters(s.confs, x.conf), s.instances[x];
    var y := InstanceRef(voters[slot], n, x.conf);
    assert MemberSettled(s, c, x) && PrefixSettled(s, c, x, slot, n) && Distinct(voters);
    if y in c && y != x {
      assert MemberSettled(s, c, y);
      AfterIsCover(voters, x, rec, s.instances[y]);
      assert Covers(voters, rec.deps, y);
      if Retained(s, x, y) {
        assert Edge(PendingGraph(s), x, y) && T.LeadsEarlier(PendingGraph(s), components, k, x, y);
        var d :| T.At(components, k, d, y);
        assert T.Among(components, d, y);
        assert Meets(components, d, c);
      }
    } else if y !in c && !s.executed.Contains(y) {
      AfterIsCover(voters, x, rec, s.instances[y]);
    }
  }

  lemma NoConflict(s: State, c: set<InstanceRef>, x: InstanceRef, y: InstanceRef, inside: set<InstanceRef>)
    requires WellFormed(s) && SelfContained(s, c) && x in c
    ensures !UnresolvedConflict(s, x, y, inside)
  {
    assert MemberSettled(s, c, x) && ConflictSettled(s, x, y);
    if y in s.instances {
      var voters := Voters(s.confs, x.conf);
      assert Distinct(voters);
      AfterIsCover(voters, x, s.instances[x], s.instances[y]);
    }
  }

  /** A nonempty self-contained set always holds a whole component that is ready and without a checkpoint. */
  lemma SomeReady(s: State, c: set<InstanceRef>, components: seq<seq<InstanceRef>>) returns (k: int)
    requires WellFormed(s) && SelfContained(s, c) && c != {} && Decomposes(s, components)
    ensures 0 <= k < |components| && Ready(s, components[k])
    ensures forall x <- components[k] :: x in c && x in s.instances && !s.instances[x].kind.Checkpoint?
  {
    var x :| x in c;
    assert MemberSettled(s, c, x) && PartOf(s, components, x);
    var d :| T.Among(components, d, x);
    assert Meets(components, d, c);
    k := FirstMeeting(components, d, c);
    WholeInside(s, c, components, k);
    var inside := set z | z in components[k];
    forall base <- components[k]
      ensures MemberReady(s, base, inside) && base in s.instances && !s.instances[base].kind.Checkpoint?
    {
      assert MemberSettled(s, c, base);
      MemberIsReady(s, c, components, k, base);
    }
  }

  lemma MemberIsReady(s: State, c: set<InstanceRef>, components: seq<seq<InstanceRef>>, k: int, base: InstanceRef)
    requires WellFormed(s) && SelfContained(s, c) && Decomposes(s, components) && 0 <= k < |components|
    requires (forall j | 0 <= j < k :: !Meets(components, j, c)) && base in components[k] && base in c
    ensures MemberReady(s, base, set z | z in components[k])
  {
    var inside := set z | z in components[k];
    var voters := Voters(s.confs, base.conf);
    assert MemberSettled(s, c, base);
    forall slot | 0 <= slot < |s.instances[base].deps| && slot < |voters|
      ensures LaneDischarged(s, base, Lane(base.conf, voters[slot]), s.instances[base].deps[slot], inside)
    {
      forall i: InstanceNum | 1 <= i <= s.instances[base].deps[slot]
        ensures Discharged(s, base, RefIn(Lane(base.conf, voters[slot]), i), inside)
      {
        PrefixDischarged(s, c, components, k, base, slot, i);
      }
    }
    forall other
      ensures !UnresolvedConflict(s, base, other, inside)
    {
      NoConflict(s, c, base, other, inside);
    }
  }

  ghost predicate Same(s: State, s': State, done: set<InstanceRef>, x: InstanceRef) {
    && (x in s'.instances <==> x in s.instances)
    && (x in s.instances && x in s'.instances ==>
          s'.instances[x] == if x in done then s.instances[x].(status := Executed) else s.instances[x])
    && (s'.executed.Contains(x) <==> s.executed.Contains(x) || x in done)
  }

  /** What is left of a self-contained set after part of it, and others, were executed is self-contained. */
  lemma StillContained(s: State, s': State, done: set<InstanceRef>, c: set<InstanceRef>)
    requires SelfContained(s, c) && s'.confs == s.confs && forall x :: Same(s, s', done, x)
    ensures SelfContained(s', c - done)
  {
    var rest := c - done;
    forall x
      ensures MemberSettled(s', rest, x)
    {
      assert MemberSettled(s, c, x) && Same(s, s', done, x);
      if x in rest {
        forall slot, n
          ensures PrefixSettled(s', rest, x, slot, n)
        {
          assert PrefixSettled(s, c, x, slot, n);
          if 0 <= slot < |Voters(s.confs, x.conf)| {
            assert Same(s, s', done, InstanceRef(Voters(s.confs, x.conf)[slot], n, x.conf));
          }
        }
        forall y
          ensures ConflictSettled(s', x, y)
        {
          assert ConflictSettled(s, x, y) && Same(s, s', done, y);
        }
      }
    }
  }
}
