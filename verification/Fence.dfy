/** Admission fences: what each old voter has seen, and the union frontier of a fence quorum. */
module Fence {
  import opened Types

  datatype LaneFrontier = LaneFrontier(replica: ReplicaID, observed: nat, committed: nat, executed: nat,
                                       compacted: nat, sparse: seq<nat>)

  datatype Frontier = Frontier(conf: ConfID, lanes: seq<LaneFrontier>)

  datatype Base = Base(conf: ConfID, voters: seq<ReplicaID>)

  datatype Check = Good | BadCertificate | CompactionEvidence | TooLarge

  const MAX_LANES := 7
  const MAX_SPARSE := 0x1_0000

  ghost predicate RisesAt(s: seq<nat>, i: int, j: int) {
    0 <= i < j < |s| ==> s[i] < s[j]
  }

  ghost predicate Rising(s: seq<nat>) {
    forall i, j :: RisesAt(s, i, j)
  }

  // What makes a frontier valid for its base.

  ghost predicate SparseFits(lane: LaneFrontier, x: nat) {
    x in lane.sparse ==> 0 < x && lane.compacted < x <= lane.observed
  }

  ghost predicate LaneSound(lane: LaneFrontier, voter: ReplicaID) {
    && lane.replica == voter && lane.compacted == 0 && lane.executed <= lane.observed && lane.committed <= lane.observed
    && Rising(lane.sparse) && forall x: nat :: SparseFits(lane, x)
  }

  ghost predicate LaneSoundAt(f: Frontier, base: Base, i: int) {
    0 <= i < |f.lanes| && i < |base.voters| ==> LaneSound(f.lanes[i], base.voters[i])
  }

  /** Everything but the size bounds. */
  ghost predicate Sound(f: Frontier, base: Base) {
    && f.conf == base.conf && |f.lanes| == |base.voters| <= MAX_LANES
    && forall i :: LaneSoundAt(f, base, i)
  }

  function Observed(lanes: seq<LaneFrontier>): nat {
    if lanes == [] then 0 else Observed(lanes[..|lanes| - 1]) + lanes[|lanes| - 1].observed
  }

  function Sparse(lanes: seq<LaneFrontier>): nat {
    if lanes == [] then 0 else Sparse(lanes[..|lanes| - 1]) + |lanes[|lanes| - 1].sparse|
  }

  ghost predicate Small(f: Frontier) {
    Observed(f.lanes) <= MAX_SPARSE && Sparse(f.lanes) <= MAX_SPARSE
  }

  /** The checks on one lane: order of its fields, then that nothing was compacted, then its sparse list. */
  method CheckLane(lane: LaneFrontier, voter: ReplicaID) returns (c: Check)
    ensures c.Good? <==> LaneSound(lane, voter)
    ensures c != TooLarge
  {
    if lane.replica != voter || lane.compacted > lane.executed || lane.executed > lane.observed
        || lane.committed > lane.observed {
      return BadCertificate;
    }
    if lane.compacted != 0 {
      return CompactionEvidence;
    }
    for j := 0 to |lane.sparse|
      invariant Rising(lane.sparse[..j]) && forall k | 0 <= k < j :: 0 < lane.sparse[k] <= lane.observed
    {
      var x := lane.sparse[j];
      if x == 0 || x > lane.observed || (j > 0 && lane.sparse[j - 1] >= x) {
        assert !SparseFits(lane, x) || !RisesAt(lane.sparse, j - 1, j);
        return BadCertificate;
      }
      RisingAppend(lane.sparse, j);
    }
    assert lane.sparse[..|lane.sparse|] == lane.sparse;
    c := Good;
  }

  lemma RisingAppend(s: seq<nat>, j: nat)
    requires j < |s| && Rising(s[..j]) && (j > 0 ==> s[j - 1] < s[j])
    ensures Rising(s[..j] + [s[j]]) && s[..j + 1] == s[..j] + [s[j]]
  {
    var init, more := s[..j], s[..j] + [s[j]];
    var last := j - 1;
    forall a, b
      ensures RisesAt(more, a, b)
    {
      assert RisesAt(init, a, b) && RisesAt(init, a, last);
    }
  }

  /** validateBootstrapFrontier. */
  method Validate(f: Frontier, base: Base) returns (c: Check)
    ensures c.Good? <==> Sound(f, base) && Small(f)
    ensures Sound(f, base) ==> c.Good? || c.TooLarge?
  {
    if f.conf != base.conf || |f.lanes| != |base.voters| || |f.lanes| > MAX_LANES {
      return BadCertificate;
    }
    var coverage, sparse := 0, 0;
    for i := 0 to |f.lanes|
      invariant coverage == Observed(f.lanes[..i]) <= MAX_SPARSE && sparse == Sparse(f.lanes[..i]) <= MAX_SPARSE
      invariant forall j | 0 <= j < i :: LaneSound(f.lanes[j], base.voters[j])
    {
      var lane := f.lanes[i];
      Totals(f.lanes, i);
      var checked := CheckLane(lane, base.voters[i]);
      if checked != Good {
        assert !LaneSoundAt(f, base, i);
        return checked;
      }
      if lane.observed > MAX_SPARSE - coverage {
        return TooLarge;
      }
      coverage := coverage + lane.observed;
      sparse := sparse + |lane.sparse|;
      if sparse > MAX_SPARSE {
        return TooLarge;
      }
    }
    assert f.lanes[..|f.lanes|] == f.lanes;
    forall i
      ensures LaneSoundAt(f, base, i)
    {
    }
    c := Good;
  }

  lemma {:induction false} Totals(lanes: seq<LaneFrontier>, i: nat)
    requires i < |lanes|
    ensures Observed(lanes[..i + 1]) == Observed(lanes[..i]) + lanes[i].observed <= Observed(lanes)
    ensures Sparse(lanes[..i + 1]) == Sparse(lanes[..i]) + |lanes[i].sparse| <= Sparse(lanes)
    decreases |lanes|
  {
    assert lanes[..i + 1][..i] == lanes[..i];
    if i + 1 < |lanes| {
      var init := lanes[..|lanes| - 1];
      Totals(init, i);
      assert init[..i + 1] == lanes[..i + 1] && init[..i] == lanes[..i];
    } else {
      assert lanes[..i + 1] == lanes;
    }
  }

  // Regression between frontiers.

  ghost predicate Carried(a: LaneFrontier, b: LaneFrontier, x: nat) {
    x in a.sparse ==> x in b.sparse
  }

  /** b has seen everything a has. */
  ghost predicate LaneCovers(a: LaneFrontier, b: LaneFrontier) {
    && a.replica == b.replica && a.observed <= b.observed && a.committed <= b.committed && a.executed <= b.executed
    && a.compacted <= b.compacted && forall x: nat :: Carried(a, b, x)
  }

  ghost predicate LaneCoversAt(a: Frontier, b: Frontier, i: int) {
    0 <= i < |a.lanes| && i < |b.lanes| ==> LaneCovers(a.lanes[i], b.lanes[i])
  }

  ghost predicate Covers(a: Frontier, b: Frontier) {
    a.conf == b.conf && |a.lanes| == |b.lanes| && forall i :: LaneCoversAt(a, b, i)
  }

  /** One pass over two rising lists decides whether the first is contained in the second. */
  method Contained(a: LaneFrontier, b: LaneFrontier) returns (yes: bool)
    requires Rising(a.sparse) && Rising(b.sparse)
    ensures yes <==> forall x: nat :: Carried(a, b, x)
  {
    var next := 0;
    for k := 0 to |a.sparse|
      invariant 0 <= next <= |b.sparse|
      invariant forall j | 0 <= j < k :: a.sparse[j] in b.sparse
      invariant k < |a.sparse| ==> forall j | 0 <= j < next :: b.sparse[j] < a.sparse[k]
    {
      var x := a.sparse[k];
      while next < |b.sparse| && b.sparse[next] < x
        invariant 0 <= next <= |b.sparse| && forall j | 0 <= j < next :: b.sparse[j] < x
      {
        next := next + 1;
      }
      if next == |b.sparse| || b.sparse[next] != x {
        NotBeyond(b.sparse, next, x);
        assert !Carried(a, b, x);
        return false;
      }
      if k + 1 < |a.sparse| {
        assert RisesAt(a.sparse, k, k + 1);
      }
    }
    yes := true;
  }

  lemma NotBeyond(s: seq<nat>, next: nat, x: nat)
    requires Rising(s) && next <= |s| && (forall j | 0 <= j < next :: s[j] < x) && (next < |s| ==> s[next] > x)
    ensures x !in s
  {
    forall j | 0 <= j < |s|
      ensures s[j] != x
    {
      assert RisesAt(s, next, j);
    }
  }

  /** frontierRegresses, on frontiers whose sparse lists rise. */
  method Regresses(current: Frontier, next: Frontier) returns (yes: bool)
    requires (forall lane <- current.lanes :: Rising(lane.sparse)) && forall lane <- next.lanes :: Rising(lane.sparse)
    ensures yes <==> !Covers(current, next)
  {
    if current.conf != next.conf || |current.lanes| != |next.lanes| {
      return true;
    }
    for i := 0 to |current.lanes|
      invariant forall j | 0 <= j < i :: LaneCovers(current.lanes[j], next.lanes[j])
    {
      var a, b := current.lanes[i], next.lanes[i];
      if a.replica != b.replica || b.observed < a.observed || b.committed < a.committed || b.executed < a.executed
          || b.compacted < a.compacted {
        assert !LaneCoversAt(current, next, i);
        return true;
      }
      var contained := Contained(a, b);
      if !contained {
        assert !LaneCoversAt(current, next, i);
        return true;
      }
    }
    yes := false;
  }

  // The union of a quorum's fences.

  function Max(a: nat, b: nat): nat {
    if a < b then b else a
  }

  function Joined(out: LaneFrontier, lane: LaneFrontier): LaneFrontier {
    LaneFrontier(out.replica, Max(out.observed, lane.observed), Max(out.committed, lane.committed),
                 Max(out.executed, lane.executed),
         out.compacted, out.sparse + lane.sparse)
  }

  /** LaneFrontier i of the first fences, joined one after the other. */
  function Gathered(fences: seq<Frontier>, voter: ReplicaID, i: nat): LaneFrontier {
    if fences == [] then LaneFrontier(voter, 0, 0, 0, 0, [])
    else
      var prior, f := Gathered(fences[..|fences| - 1], voter, i), fences[|fences| - 1];
      if i < |f.lanes| then Joined(prior, f.lanes[i]) else prior
  }

  /** Fence k is below the lane in every field, and its sparse entries are in it. */
  ghost predicate Under(fences: seq<Frontier>, i: nat, lane: LaneFrontier, k: int) {
    0 <= k < |fences| && i < |fences[k].lanes| ==>
      var l := fences[k].lanes[i];
      && l.observed <= lane.observed && l.committed <= lane.committed && l.executed <= lane.executed
      && forall x: nat :: Carried(l, lane, x)
  }

  ghost predicate ReachesObserved(fences: seq<Frontier>, i: nat, v: nat, k: int) {
    0 <= k < |fences| && i < |fences[k].lanes| && fences[k].lanes[i].observed == v
  }

  ghost predicate ReachesCommitted(fences: seq<Frontier>, i: nat, v: nat, k: int) {
    0 <= k < |fences| && i < |fences[k].lanes| && fences[k].lanes[i].committed == v
  }

  ghost predicate ReachesExecuted(fences: seq<Frontier>, i: nat, v: nat, k: int) {
    0 <= k < |fences| && i < |fences[k].lanes| && fences[k].lanes[i].executed == v
  }

  ghost predicate HasSparse(fences: seq<Frontier>, i: nat, x: nat, k: int) {
    0 <= k < |fences| && i < |fences[k].lanes| && x in fences[k].lanes[i].sparse
  }

  ghost predicate SparseFrom(fences: seq<Frontier>, i: nat, lane: LaneFrontier, x: nat) {
    x in lane.sparse ==> exists k :: HasSparse(fences, i, x, k)
  }

  /** The lane holds the field-wise maxima and the union of the sparse lists, and nothing else. */
  ghost predicate IsUnionLane(fences: seq<Frontier>, i: nat, voter: ReplicaID, lane: LaneFrontier) {
    && lane.replica == voter && lane.compacted == 0
    && (forall k :: Under(fences, i, lane, k))
    && (lane.observed == 0 || exists k :: ReachesObserved(fences, i, lane.observed, k))
    && (lane.committed == 0 || exists k :: ReachesCommitted(fences, i, lane.committed, k))
    && (lane.executed == 0 || exists k :: ReachesExecuted(fences, i, lane.executed, k))
    && forall x: nat :: SparseFrom(fences, i, lane, x)
  }

  lemma {:induction false} GatheredIsUnion(fences: seq<Frontier>, voter: ReplicaID, i: nat)
    ensures IsUnionLane(fences, i, voter, Gathered(fences, voter, i))
  {
    if fences == [] {
    } else {
      var init, f := fences[..|fences| - 1], fences[|fences| - 1];
      var prior, lane := Gathered(init, voter, i), Gathered(fences, voter, i);
      GatheredIsUnion(init, voter, i);
      var last := |init|;
      forall k
        ensures Under(fences, i, lane, k)
      {
        assert Under(init, i, prior, k);
        if 0 <= k < |fences| && i < |fences[k].lanes| {
          forall x: nat
            ensures Carried(fences[k].lanes[i], lane, x)
          {
            assert k < last ==> Carried(init[k].lanes[i], prior, x);
          }
        }
      }
      ReachingObserved(init, fences, voter, i);
      ReachingCommitted(init, fences, voter, i);
      ReachingExecuted(init, fences, voter, i);
      forall x: nat
        ensures SparseFrom(fences, i, lane, x)
      {
        assert SparseFrom(init, i, prior, x);
        if x in lane.sparse {
          if x in prior.sparse {
            var k :| HasSparse(init, i, x, k);
            assert HasSparse(fences, i, x, k);
          } else {
            assert HasSparse(fences, i, x, last);
          }
        }
      }
    }
  }

  lemma ReachingObserved(init: seq<Frontier>, fences: seq<Frontier>, voter: ReplicaID, i: nat)
    requires fences != [] && init == fences[..|fences| - 1]
    requires var v := Gathered(init, voter, i).observed;
             v == 0 || exists k :: ReachesObserved(init, i, v, k)
    ensures var v := Gathered(fences, voter, i).observed;
            v == 0 || exists k :: ReachesObserved(fences, i, v, k)
  {
    var p, v := Gathered(init, voter, i).observed, Gathered(fences, voter, i).observed;
    if v > 0 && v == p {
      var k :| ReachesObserved(init, i, p, k);
      assert ReachesObserved(fences, i, v, k);
    } else if v > 0 {
      var last := |init|;
      assert ReachesObserved(fences, i, v, last);
    }
  }

  lemma ReachingCommitted(init: seq<Frontier>, fences: seq<Frontier>, voter: ReplicaID, i: nat)
    requires fences != [] && init == fences[..|fences| - 1]
    requires var v := Gathered(init, voter, i).committed;
             v == 0 || exists k :: ReachesCommitted(init, i, v, k)
    ensures var v := Gathered(fences, voter, i).committed;
            v == 0 || exists k :: ReachesCommitted(fences, i, v, k)
  {
    var p, v := Gathered(init, voter, i).committed, Gathered(fences, voter, i).committed;
    if v > 0 && v == p {
      var k :| ReachesCommitted(init, i, p, k);
      assert ReachesCommitted(fences, i, v, k);
    } else if v > 0 {
      var last := |init|;
      assert ReachesCommitted(fences, i, v, last);
    }
  }

  lemma ReachingExecuted(init: seq<Frontier>, fences: seq<Frontier>, voter: ReplicaID, i: nat)
    requires fences != [] && init == fences[..|fences| - 1]
    requires var v := Gathered(init, voter, i).executed;
             v == 0 || exists k :: ReachesExecuted(init, i, v, k)
    ensures var v := Gathered(fences, voter, i).executed;
            v == 0 || exists k :: ReachesExecuted(fences, i, v, k)
  {
    var p, v := Gathered(init, voter, i).executed, Gathered(fences, voter, i).executed;
    if v > 0 && v == p {
      var k :| ReachesExecuted(init, i, p, k);
      assert ReachesExecuted(fences, i, v, k);
    } else if v > 0 {
      var last := |init|;
      assert ReachesExecuted(fences, i, v, last);
    }
  }

  function Insert(s: seq<nat>, x: nat): seq<nat> {
    if s == [] || x <= s[0] then [x] + s else [s[0]] + Insert(s[1..], x)
  }

  function Sort(s: seq<nat>): seq<nat> {
    if s == [] then [] else Insert(Sort(s[1..]), s[0])
  }

  ghost predicate LevelAt(s: seq<nat>, i: int, j: int) {
    0 <= i < j < |s| ==> s[i] <= s[j]
  }

  ghost predicate Level(s: seq<nat>) {
    forall i, j :: LevelAt(s, i, j)
  }

  lemma {:induction false} InsertMembers(s: seq<nat>, x: nat, y: nat)
    ensures y in Insert(s, x) <==> y == x || y in s
  {
    if s != [] && x > s[0] {
      InsertMembers(s[1..], x, y);
    }
  }

  lemma {:induction false} InsertLevel(s: seq<nat>, x: nat)
    requires Level(s)
    ensures Level(Insert(s, x))
  {
    if s == [] || x <= s[0] {
      forall i, j
        ensures LevelAt([x] + s, i, j)
      {
        assert LevelAt(s, i - 1, j - 1) && LevelAt(s, 0, j - 1);
      }
    } else {
      forall i, j
        ensures LevelAt(s[1..], i, j)
      {
        assert LevelAt(s, i + 1, j + 1);
      }
      InsertLevel(s[1..], x);
      var rest := Insert(s[1..], x);
      forall i, j
        ensures LevelAt([s[0]] + rest, i, j)
      {
        assert LevelAt(rest, i - 1, j - 1);
        if 0 == i < j <= |rest| {
          var y := rest[j - 1];
          InsertMembers(s[1..], x, y);
          if y in s[1..] {
            var k :| 0 <= k < |s| - 1 && s[1..][k] == y;
            assert LevelAt(s, 0, k + 1);
          }
        }
      }
    }
  }

  lemma {:induction false} SortLevel(s: seq<nat>)
    ensures Level(Sort(s))
  {
    if s != [] {
      SortLevel(s[1..]);
      InsertLevel(Sort(s[1..]), s[0]);
    }
  }

  lemma {:induction false} SortMembers(s: seq<nat>, y: nat)
    ensures y in Sort(s) <==> y in s
  {
    if s != [] {
      SortMembers(s[1..], y);
      InsertMembers(Sort(s[1..]), s[0], y);
    }
  }

  ghost predicate SameMember(a: seq<nat>, b: seq<nat>, x: nat) {
    x in a <==> x in b
  }

  /** Sort the gathered sparse list and drop its repeats. */
  method SortAndDedup(s: seq<nat>) returns (out: seq<nat>)
    ensures Rising(out) && forall x: nat :: SameMember(out, s, x)
  {
    var sorted := Sort(s);
    SortLevel(s);
    out := [];
    for i := 0 to |sorted|
      invariant Rising(out) && forall x: nat :: SameMember(out, sorted[..i], x)
      invariant if i == 0 then out == [] else out != [] && out[|out| - 1] == sorted[i - 1]
    {
      assert sorted[..i + 1] == sorted[..i] + [sorted[i]];
      var before := out;
      if out == [] || out[|out| - 1] != sorted[i] {
        assert i > 0 ==> LevelAt(sorted, i - 1, i);
        RisingSnoc(out, sorted[i]);
        out := out + [sorted[i]];
      }
      ghost var upto := sorted[..i + 1];
      forall x: nat
        ensures SameMember(out, upto, x)
      {
        assert SameMember(before, sorted[..i], x);
      }
    }
    assert sorted[..|sorted|] == sorted;
    forall x: nat
      ensures SameMember(out, s, x)
    {
      assert SameMember(out, sorted, x);
      SortMembers(s, x);
    }
  }

  lemma RisingSnoc(s: seq<nat>, x: nat)
    requires Rising(s) && (s != [] ==> s[|s| - 1] < x)
    ensures Rising(s + [x])
  {
    var last := |s| - 1;
    forall a, b
      ensures RisesAt(s + [x], a, b)
    {
      assert RisesAt(s, a, b) && RisesAt(s, a, last);
    }
  }

  /** The same maxima with the sparse list in canonical form are still the union. */
  lemma CanonicalUnion(fences: seq<Frontier>, i: nat, voter: ReplicaID, lane: LaneFrontier, sparse: seq<nat>)
    requires IsUnionLane(fences, i, voter, lane) && forall x: nat :: SameMember(sparse, lane.sparse, x)
    ensures IsUnionLane(fences, i, voter, lane.(sparse := sparse))
  {
    var out := lane.(sparse := sparse);
    forall k
      ensures Under(fences, i, out, k)
    {
      assert Under(fences, i, lane, k);
      if 0 <= k < |fences| && i < |fences[k].lanes| {
        forall x: nat
          ensures Carried(fences[k].lanes[i], out, x)
        {
          assert Carried(fences[k].lanes[i], lane, x) && SameMember(sparse, lane.sparse, x);
        }
      }
    }
    forall x: nat
      ensures SparseFrom(fences, i, out, x)
    {
      assert SparseFrom(fences, i, lane, x) && SameMember(sparse, lane.sparse, x);
    }
  }

  ghost predicate UnionLaneAt(base: Base, fences: seq<Frontier>, f: Frontier, i: int) {
    0 <= i < |f.lanes| && i < |base.voters| ==>
      IsUnionLane(fences, i, base.voters[i], f.lanes[i]) && Rising(f.lanes[i].sparse)
  }

  /** f is the union of the fences over the base's lanes. */
  ghost predicate IsUnion(base: Base, fences: seq<Frontier>, f: Frontier) {
    f.conf == base.conf && |f.lanes| == |base.voters| && forall i :: UnionLaneAt(base, fences, f, i)
  }

  ghost predicate SoundAt(base: Base, fences: seq<Frontier>, k: int) {
    0 <= k < |fences| ==> Sound(fences[k], base) && Small(fences[k])
  }

  /** unionFrontier. */
  method Union(base: Base, fences: seq<Frontier>) returns (c: Check, f: Frontier)
    requires |base.voters| <= MAX_LANES
    ensures (forall k :: SoundAt(base, fences, k)) ==>
              IsUnion(base, fences, f) && Sound(f, base) && (if Small(f) then c.Good? else c.TooLarge?)
    ensures c.Good? ==> forall k :: SoundAt(base, fences, k)
  {
    f := Frontier(base.conf, []);
    for k := 0 to |fences|
      invariant forall j | 0 <= j < k :: Sound(fences[j], base) && Small(fences[j])
    {
      c := Validate(fences[k], base);
      if c != Good {
        assert !SoundAt(base, fences, k);
        return;
      }
    }
    forall k
      ensures SoundAt(base, fences, k)
    {
    }
    var lanes := [];
    for i := 0 to |base.voters|
      invariant |lanes| == i && forall j | 0 <= j < i ::
                IsUnionLane(fences, j, base.voters[j], lanes[j]) && Rising(lanes[j].sparse)
    {
      var lane := Gather(fences, base.voters[i], i);
      GatheredIsUnion(fences, base.voters[i], i);
      var sparse := SortAndDedup(lane.sparse);
      CanonicalUnion(fences, i, base.voters[i], lane, sparse);
      lanes := lanes + [lane.(sparse := sparse)];
    }
    f := Frontier(base.conf, lanes);
    forall i
      ensures UnionLaneAt(base, fences, f, i)
    {
    }
    UnionSound(base, fences, f);
    c := Validate(f, base);
  }

  method Gather(fences: seq<Frontier>, voter: ReplicaID, i: nat) returns (lane: LaneFrontier)
    ensures lane == Gathered(fences, voter, i)
  {
    lane := LaneFrontier(voter, 0, 0, 0, 0, []);
    for k := 0 to |fences|
      invariant lane == Gathered(fences[..k], voter, i)
    {
      assert fences[..k + 1][..k] == fences[..k];
      if i < |fences[k].lanes| {
        lane := Joined(lane, fences[k].lanes[i]);
      }
    }
    assert fences[..|fences|] == fences;
  }

  /** The union of valid fences is valid but for its size. */
  lemma UnionSound(base: Base, fences: seq<Frontier>, f: Frontier)
    requires IsUnion(base, fences, f) && |base.voters| <= MAX_LANES && forall k :: SoundAt(base, fences, k)
    ensures Sound(f, base)
  {
    forall i
      ensures LaneSoundAt(f, base, i)
    {
      if 0 <= i < |f.lanes| {
        assert UnionLaneAt(base, fences, f, i);
        UnionLaneSound(base, fences, i, f.lanes[i]);
      }
    }
  }

  lemma UnionLaneSound(base: Base, fences: seq<Frontier>, i: nat, lane: LaneFrontier)
    requires i < |base.voters| && IsUnionLane(fences, i, base.voters[i], lane) && Rising(lane.sparse)
    requires forall k :: SoundAt(base, fences, k)
    ensures LaneSound(lane, base.voters[i])
  {
    if lane.executed > 0 {
      var k :| ReachesExecuted(fences, i, lane.executed, k);
      assert SoundAt(base, fences, k) && LaneSoundAt(fences[k], base, i) && Under(fences, i, lane, k);
    }
    if lane.committed > 0 {
      var k :| ReachesCommitted(fences, i, lane.committed, k);
      assert SoundAt(base, fences, k) && LaneSoundAt(fences[k], base, i) && Under(fences, i, lane, k);
    }
    forall x: nat
      ensures SparseFits(lane, x)
    {
      if x in lane.sparse {
        assert SparseFrom(fences, i, lane, x);
        var k :| HasSparse(fences, i, x, k);
        assert SoundAt(base, fences, k) && LaneSoundAt(fences[k], base, i) && SparseFits(fences[k].lanes[i], x)
               && Under(fences, i, lane, k);
      }
    }
  }

  /** No fence regresses from the union. */
  lemma UnionCovers(base: Base, fences: seq<Frontier>, f: Frontier, k: nat)
    requires IsUnion(base, fences, f) && k < |fences| && Sound(fences[k], base)
    ensures Covers(fences[k], f)
  {
    forall i
      ensures LaneCoversAt(fences[k], f, i)
    {
      if 0 <= i < |f.lanes| {
        assert UnionLaneAt(base, fences, f, i) && LaneSoundAt(fences[k], base, i) && Under(fences, i, f.lanes[i], k);
      }
    }
  }

  /** The union is the least such frontier: whatever covers every fence covers it. */
  lemma UnionIsLeast(base: Base, fences: seq<Frontier>, f: Frontier, g: Frontier)
    requires IsUnion(base, fences, f) && g.conf == base.conf && |g.lanes| == |base.voters|
    requires forall i | 0 <= i < |g.lanes| :: g.lanes[i].replica == base.voters[i]
    requires forall k | 0 <= k < |fences| :: Covers(fences[k], g)
    ensures Covers(f, g)
  {
    forall i
      ensures LaneCoversAt(f, g, i)
    {
      if 0 <= i < |f.lanes| {
        assert UnionLaneAt(base, fences, f, i);
        LaneIsLeast(base, fences, f.lanes[i], g, i);
      }
    }
  }

  lemma LaneIsLeast(base: Base, fences: seq<Frontier>, lane: LaneFrontier, g: Frontier, i: nat)
    requires i < |base.voters| == |g.lanes| && IsUnionLane(fences, i, base.voters[i], lane)
             && g.lanes[i].replica == base.voters[i]
    requires forall k | 0 <= k < |fences| :: Covers(fences[k], g)
    ensures LaneCovers(lane, g.lanes[i])
  {
    if lane.observed > 0 {
      var k :| ReachesObserved(fences, i, lane.observed, k);
      assert LaneCoversAt(fences[k], g, i);
    }
    if lane.committed > 0 {
      var k :| ReachesCommitted(fences, i, lane.committed, k);
      assert LaneCoversAt(fences[k], g, i);
    }
    if lane.executed > 0 {
      var k :| ReachesExecuted(fences, i, lane.executed, k);
      assert LaneCoversAt(fences[k], g, i);
    }
    forall x: nat
      ensures Carried(lane, g.lanes[i], x)
    {
      assert SparseFrom(fences, i, lane, x);
      if x in lane.sparse {
        var k :| HasSparse(fences, i, x, k);
        assert LaneCoversAt(fences[k], g, i) && Carried(fences[k].lanes[i], g.lanes[i], x);
      }
    }
  }

  lemma {:induction false} SameRising(a: seq<nat>, b: seq<nat>)
    requires Rising(a) && Rising(b) && forall x: nat :: SameMember(a, b, x)
    ensures a == b
    decreases |a|
  {
    assert b != [] ==> SameMember(a, b, b[|b| - 1]);
    assert a != [] ==> SameMember(a, b, a[|a| - 1]);
    if a != [] {
      var x, y := a[|a| - 1], b[|b| - 1];
      LastIsMost(a, y);
      LastIsMost(b, x);
      var c, d := a[..|a| - 1], b[..|b| - 1];
      Shorter(a);
      Shorter(b);
      forall z: nat
        ensures SameMember(c, d, z)
      {
        assert SameMember(a, b, z);
      }
      SameRising(c, d);
      assert a == c + [x] && b == d + [y];
    }
  }

  lemma LastIsMost(a: seq<nat>, y: nat)
    requires a != [] && Rising(a) && y in a
    ensures y <= a[|a| - 1]
  {
    var k :| 0 <= k < |a| && a[k] == y;
    assert RisesAt(a, k, |a| - 1);
  }

  lemma Shorter(a: seq<nat>)
    requires a != [] && Rising(a)
    ensures Rising(a[..|a| - 1]) && forall z: nat :: z in a[..|a| - 1] <==> z in a && z != a[|a| - 1]
  {
    var c, last := a[..|a| - 1], |a| - 1;
    forall i, j
      ensures RisesAt(c, i, j)
    {
      assert RisesAt(a, i, j);
    }
    forall k | 0 <= k < |c|
      ensures c[k] != a[last]
    {
      assert RisesAt(a, k, last);
    }
  }

  /** The order in which the fences are given does not matter. */
  lemma UnionUnordered(base: Base, fences: seq<Frontier>, others: seq<Frontier>, f: Frontier, g: Frontier)
    requires IsUnion(base, fences, f) && IsUnion(base, others, g) && multiset(fences) == multiset(others)
    requires forall k :: SoundAt(base, fences, k)
    ensures f == g
  {
    forall h <- fences
      ensures Covers(h, g)
    {
      assert h in multiset(fences);
      var k :| 0 <= k < |others| && others[k] == h;
      SoundMember(base, fences, h);
      UnionCovers(base, others, g, k);
    }
    forall h <- others
      ensures Covers(h, f)
    {
      assert h in multiset(others);
      var k :| 0 <= k < |fences| && fences[k] == h;
      assert SoundAt(base, fences, k);
      UnionCovers(base, fences, f, k);
    }
    forall i | 0 <= i < |f.lanes|
      ensures f.lanes[i].replica == base.voters[i] && g.lanes[i].replica == base.voters[i]
      ensures Rising(f.lanes[i].sparse) && Rising(g.lanes[i].sparse) && f.lanes[i].compacted == g.lanes[i].compacted
    {
      assert UnionLaneAt(base, fences, f, i) && UnionLaneAt(base, others, g, i);
    }
    UnionIsLeast(base, fences, f, g);
    UnionIsLeast(base, others, g, f);
    forall i | 0 <= i < |f.lanes|
      ensures f.lanes[i] == g.lanes[i]
    {
      assert LaneCoversAt(f, g, i) && LaneCoversAt(g, f, i);
      forall x: nat
        ensures SameMember(f.lanes[i].sparse, g.lanes[i].sparse, x)
      {
        assert Carried(f.lanes[i], g.lanes[i], x) && Carried(g.lanes[i], f.lanes[i], x);
      }
      SameRising(f.lanes[i].sparse, g.lanes[i].sparse);
    }
  }

  lemma SoundMember(base: Base, fences: seq<Frontier>, h: Frontier)
    requires h in fences && forall k :: SoundAt(base, fences, k)
    ensures Sound(h, base)
  {
    var k :| 0 <= k < |fences| && fences[k] == h;
    assert SoundAt(base, fences, k);
  }
}
