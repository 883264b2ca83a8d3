/** Configurations and their succession: at most one successor each, one voter apart, with quorums that meet. */
module Configuration {
  import opened Types
  import Q = Quorum

  type Voters = seq<ReplicaID>

  const MAX_VOTERS := 7

  ghost predicate RisesAt(vs: Voters, i: int, j: int) {
    0 <= i < j < |vs| ==> vs[i] < vs[j]
  }

  ghost predicate Rising(vs: Voters) {
    forall i, j :: RisesAt(vs, i, j)
  }

  /** The canonical form newQuorum leaves: one to seven nonzero voters in strictly rising order. */
  ghost predicate Canonical(vs: Voters) {
    1 <= |vs| <= MAX_VOTERS && 0 !in vs && Rising(vs)
  }

  ghost function Members(vs: Voters): set<ReplicaID> {
    set id | id in vs
  }

  ghost predicate Distinct(vs: Voters) {
    forall i, j | 0 <= i < j < |vs| :: vs[i] != vs[j]
  }

  function Insert(vs: Voters, id: ReplicaID): Voters {
    if vs == [] || id <= vs[0] then [id] + vs else [vs[0]] + Insert(vs[1..], id)
  }

  function Sort(vs: Voters): Voters {
    if vs == [] then [] else Insert(Sort(vs[1..]), vs[0])
  }

  ghost predicate Level(vs: Voters, i: int, j: int) {
    0 <= i < j < |vs| ==> vs[i] <= vs[j]
  }

  lemma {:induction false} InsertAdds(vs: Voters, id: ReplicaID)
    ensures multiset(Insert(vs, id)) == multiset(vs) + multiset{id}
  {
    if vs != [] && id > vs[0] {
      InsertAdds(vs[1..], id);
      assert vs == [vs[0]] + vs[1..];
    }
  }

  lemma {:induction false} InsertSorted(vs: Voters, id: ReplicaID)
    requires forall i, j :: Level(vs, i, j)
    ensures forall i, j :: Level(Insert(vs, id), i, j)
  {
    if vs == [] || id <= vs[0] {
      forall i, j
        ensures Level([id] + vs, i, j)
      {
        assert Level(vs, i - 1, j - 1) && Level(vs, 0, j - 1);
      }
    } else {
      var rest := Insert(vs[1..], id);
      forall i, j
        ensures Level(vs[1..], i, j)
      {
        assert Level(vs, i + 1, j + 1);
      }
      InsertSorted(vs[1..], id);
      forall i, j
        ensures Level([vs[0]] + rest, i, j)
      {
        assert Level(rest, i - 1, j - 1);
        if 0 == i < j <= |rest| {
          InsertedAbove(vs, id, rest[j - 1]);
        }
      }
    }
  }

  lemma InsertedAbove(vs: Voters, id: ReplicaID, x: ReplicaID)
    requires vs != [] && (forall i, j :: Level(vs, i, j)) && id > vs[0] && x in Insert(vs[1..], id)
    ensures vs[0] <= x
  {
    InsertAdds(vs[1..], id);
    assert x in multiset(Insert(vs[1..], id));
    if x in vs[1..] {
      var k :| 0 <= k < |vs| - 1 && vs[1..][k] == x;
      assert Level(vs, 0, k + 1);
    }
  }

  lemma {:induction false} SortSorted(vs: Voters)
    ensures forall i, j :: Level(Sort(vs), i, j)
    ensures multiset(Sort(vs)) == multiset(vs)
  {
    if vs != [] {
      SortSorted(vs[1..]);
      InsertSorted(Sort(vs[1..]), vs[0]);
      InsertAdds(Sort(vs[1..]), vs[0]);
      assert vs == [vs[0]] + vs[1..];
    }
  }

  /** newQuorum: sort a copy, then look for zero and for equal neighbours. */
  method NewQuorum(voters: Voters) returns (r: Option<Voters>)
    ensures r.Some? <==> 1 <= |voters| <= MAX_VOTERS && 0 !in voters && Distinct(voters)
    ensures r.Some? ==> Canonical(r.value) && multiset(r.value) == multiset(voters)
  {
    if |voters| == 0 || |voters| > MAX_VOTERS {
      return None;
    }
    var vv := Sort(voters);
    SortSorted(voters);
    assert |vv| == |multiset(vv)| && |voters| == |multiset(voters)|;
    for i := 0 to |vv|
      invariant 0 !in vv[..i] && Rising(vv[..i])
    {
      if vv[i] == 0 {
        assert vv[i] in multiset(vv);
        return None;
      }
      if i > 0 && vv[i - 1] == vv[i] {
        Repeated(voters, vv, i);
        return None;
      }
      StillRising(vv, i);
    }
    assert vv[..|vv|] == vv;
    assert 0 in voters ==> 0 in multiset(voters);
    RisingDistinct(voters, vv);
    r := Some(vv);
  }

  lemma StillRising(vv: Voters, i: nat)
    requires i < |vv| && (forall a, b :: Level(vv, a, b)) && Rising(vv[..i]) && (i > 0 ==> vv[i - 1] != vv[i])
    ensures Rising(vv[..i] + [vv[i]])
    ensures vv[..i + 1] == vv[..i] + [vv[i]]
  {
    var more := vv[..i] + [vv[i]];
    var last := i - 1;
    forall a, b
      ensures RisesAt(more, a, b)
    {
      assert RisesAt(vv[..i], a, b) && RisesAt(vv[..i], a, last) && Level(vv, last, i);
    }
  }

  lemma Repeated(voters: Voters, vv: Voters, i: nat)
    requires multiset(vv) == multiset(voters) && 0 < i < |vv| && vv[i - 1] == vv[i]
    ensures !Distinct(voters)
  {
    assert vv == vv[..i - 1] + [vv[i - 1], vv[i]] + vv[i + 1..];
    assert multiset(voters)[vv[i]] >= 2;
    if Distinct(voters) {
      OnceOnly(voters, vv[i]);
    }
  }

  lemma {:induction false} OnceOnly(vs: Voters, id: ReplicaID)
    requires Distinct(vs)
    ensures multiset(vs)[id] <= 1
  {
    if vs != [] {
      assert vs == [vs[0]] + vs[1..];
      OnceOnly(vs[1..], id);
      if vs[0] == id {
        assert id !in vs[1..];
        assert id !in multiset(vs[1..]);
      }
    }
  }

  lemma RisingDistinct(voters: Voters, vv: Voters)
    requires multiset(vv) == multiset(voters) && Rising(vv)
    ensures Distinct(voters)
  {
    forall i, j | 0 <= i < j < |voters|
      ensures voters[i] != voters[j]
    {
      if voters[i] == voters[j] {
        assert voters == voters[..i] + [voters[i]] + voters[i + 1..j] + [voters[j]] + voters[j + 1..];
        assert multiset(vv)[voters[i]] >= 2;
        forall a, b | 0 <= a < b < |vv|
          ensures vv[a] != vv[b]
        {
          assert RisesAt(vv, a, b);
        }
        OnceOnly(vv, voters[i]);
        assert false;
      }
    }
  }

  datatype Change = AddVoter(replica: ReplicaID) | RemoveVoter(replica: ReplicaID) | UnknownChange

  /** The changes a configuration accepts. */
  ghost predicate Allowed(base: Voters, change: Change) {
    match change
    case AddVoter(id) => id != 0 && id !in base && |base| < MAX_VOTERS
    case RemoveVoter(id) => id in base && |base| > 1
    case UnknownChange => false
  }

  ghost function Changed(base: Voters, change: Change): set<ReplicaID> {
    match change
    case AddVoter(id) => Members(base) + {id}
    case RemoveVoter(id) => Members(base) - {id}
    case UnknownChange => Members(base)
  }

  /** confChangeQuorumFrom. */
  method ChangeVoters(base: Voters, change: Change) returns (r: Option<Voters>)
    requires Canonical(base)
    ensures r.Some? <==> Allowed(base, change)
    ensures r.Some? ==> Canonical(r.value) && Members(r.value) == Changed(base, change)
  {
    match change
    case AddVoter(id) =>
      if id == 0 || id in base {
        return None;
      }
      AddedDistinct(base, id);
      r := NewQuorum(base + [id]);
      if r.Some? {
        SameMembers(r.value, base + [id]);
      }
    case RemoveVoter(id) =>
      if id !in base {
        return None;
      }
      var filtered := [];
      for i := 0 to |base|
        invariant filtered == Without(base[..i], id)
      {
        assert base[..i + 1][..i] == base[..i];
        if base[i] != id {
          filtered := filtered + [base[i]];
        }
      }
      assert base[..|base|] == base;
      WithoutDistinct(base, id);
      assert |filtered| == |base| - 1;
      r := NewQuorum(filtered);
      if r.Some? {
        SameMembers(r.value, filtered);
      }
    case UnknownChange =>
      return None;
  }

  function Without(vs: Voters, id: ReplicaID): Voters {
    if vs == [] then []
    else
      var init := Without(vs[..|vs| - 1], id);
      if vs[|vs| - 1] == id then init else init + [vs[|vs| - 1]]
  }

  lemma SameMembers(a: Voters, b: Voters)
    requires multiset(a) == multiset(b)
    ensures Members(a) == Members(b)
  {
    forall id
      ensures id in a <==> id in b
    {
      assert id in a <==> id in multiset(a);
      assert id in b <==> id in multiset(b);
    }
  }

  lemma AddedDistinct(base: Voters, id: ReplicaID)
    requires Canonical(base) && id !in base
    ensures Distinct(base + [id]) && Members(base + [id]) == Members(base) + {id}
  {
    forall i, j | 0 <= i < j < |base + [id]|
      ensures (base + [id])[i] != (base + [id])[j]
    {
      assert RisesAt(base, i, j);
    }
  }

  lemma {:induction false} WithoutMembers(vs: Voters, id: ReplicaID)
    requires Rising(vs)
    ensures (forall i, j :: RisesAt(Without(vs, id), i, j)) && Members(Without(vs, id)) == Members(vs) - {id}
  {
    if vs != [] {
      var init, last := vs[..|vs| - 1], vs[|vs| - 1];
      InitRises(vs);
      WithoutMembers(init, id);
      var out := Without(init, id);
      forall i, j
        ensures RisesAt(out + [last], i, j)
      {
        assert RisesAt(out, i, j);
        if 0 <= i < j == |out| {
          assert out[i] in Members(out);
          var k :| 0 <= k < |init| && init[k] == out[i];
          assert RisesAt(vs, k, |vs| - 1);
        }
      }
      assert vs == init + [last] && Members(out + [last]) == Members(out) + {last};
    }
  }

  /** Removing a voter leaves a proper list of the others. */
  lemma WithoutDistinct(vs: Voters, id: ReplicaID)
    requires Canonical(vs) && id in vs
    ensures Distinct(Without(vs, id)) && Members(Without(vs, id)) == Members(vs) - {id}
    ensures |Without(vs, id)| == |vs| - 1 && 0 !in Without(vs, id)
  {
    var out := Without(vs, id);
    WithoutMembers(vs, id);
    MembersCounted(vs);
    MembersCounted(out);
    forall i, j | 0 <= i < j < |out|
      ensures out[i] != out[j]
    {
      assert RisesAt(out, i, j);
    }
    assert 0 in out ==> 0 in Members(out);
  }

  /** Two configurations one voter apart. */
  ghost predicate Adjacent(a: Voters, b: Voters) {
    || (exists id :: id !in Members(a) && Members(b) == Members(a) + {id})
    || (exists id :: id in Members(a) && Members(b) == Members(a) - {id})
  }

  lemma {:induction false} MembersCounted(vs: Voters)
    requires Rising(vs)
    ensures |Members(vs)| == |vs|
  {
    if vs != [] {
      var init, last := vs[..|vs| - 1], vs[|vs| - 1];
      assert vs == init + [last];
      forall i, j
        ensures RisesAt(init, i, j)
      {
        assert RisesAt(vs, i, j);
      }
      MembersCounted(init);
      LastIsNew(vs);
      assert Members(vs) == Members(init) + {last};
    }
  }

  /** Any slow quorum of a configuration meets any slow quorum of an adjacent one. */
  lemma AdjacentQuorumsMeet(a: Voters, b: Voters, p: set<ReplicaID>, q: set<ReplicaID>)
    requires Canonical(a) && Canonical(b) && Adjacent(a, b)
    requires p <= Members(a) && |p| >= Q.Slow(|a|) && q <= Members(b) && |q| >= Q.Slow(|b|)
    ensures exists id :: id in p && id in q
  {
    if id :| id !in Members(a) && Members(b) == Members(a) + {id} {
      WiderQuorumsMeet(a, b, p, q, id);
    } else {
      var id :| id in Members(a) && Members(b) == Members(a) - {id};
      assert Members(a) == Members(b) + {id};
      WiderQuorumsMeet(b, a, q, p, id);
    }
  }

  lemma WiderQuorumsMeet(a: Voters, b: Voters, p: set<ReplicaID>, q: set<ReplicaID>, id: ReplicaID)
    requires Canonical(a) && Canonical(b) && id !in Members(a) && Members(b) == Members(a) + {id}
    requires p <= Members(a) && |p| >= Q.Slow(|a|) && q <= Members(b) && |q| >= Q.Slow(|b|)
    ensures exists v :: v in p && v in q
  {
    MembersCounted(a);
    MembersCounted(b);
    Q.Overlap(Members(b), p, q);
    var v :| v in p * q;
  }

  datatype Outcome = Applied(id: ConfID) | RejectedInvalid | RejectedSuperseded

  /** The configurations a node knows, and the command that gave each base its successor. */
  class History {
    const first: ConfID
    var voters: map<ConfID, Voters>
    var appliedBy: map<ConfID, InstanceRef>
    var current: ConfID

    ghost predicate Valid()
      reads this
    {
      && first in voters && current in voters
      && Chain(voters, appliedBy, first, current)
    }

    constructor (id: ConfID, vs: Voters)
      requires Canonical(vs)
      ensures Valid() && voters == map[id := vs] && appliedBy == map[] && current == id
    {
      first, current := id, id;
      voters, appliedBy := map[id := vs], map[];
    }

    /** applyConfChange, under the configuration the command was ordered in. */
    method ApplyChange(ref: InstanceRef, change: Change) returns (outcome: Outcome)
      requires Valid()
      modifies this
      ensures Valid() && Kept(old(voters), voters) && KeptRefs(old(appliedBy), appliedBy)
      ensures outcome.Applied? <==>
              && ref.conf in old(voters) && ref.conf < MAX_U64 && Allowed(old(voters)[ref.conf], change)
              && ref.conf !in old(appliedBy) && ref.conf + 1 !in old(voters)
      ensures outcome.Applied? ==>
                && outcome.id == ref.conf + 1 && appliedBy == old(appliedBy)[ref.conf := ref] && current == outcome.id
                && voters.Keys == old(voters).Keys + {outcome.id}
                && Members(voters[outcome.id]) == Changed(old(voters)[ref.conf], change)
      ensures !outcome.Applied? ==> voters == old(voters) && appliedBy == old(appliedBy) && current == old(current)
    {
      if ref.conf !in voters || ref.conf == MAX_U64 {
        return RejectedInvalid;
      }
      assert KnownAt(voters, first, current, ref.conf);
      var successor := ChangeVoters(voters[ref.conf], change);
      if successor.None? {
        return RejectedInvalid;
      }
      if ref.conf in appliedBy || ref.conf + 1 in voters {
        return RejectedSuperseded;
      }
      ChangedAdjacent(voters[ref.conf], successor.value, change);
      Install(ref, successor.value);
      outcome := Applied(ref.conf + 1);
    }

    /** applyMembershipControl, activation: the certified plan adds one voter to its base. */
    method Activate(ref: InstanceRef, target: ReplicaID, successor: Voters) returns (outcome: Outcome)
      requires Valid()
      modifies this
      ensures Valid() && Kept(old(voters), voters) && KeptRefs(old(appliedBy), appliedBy)
      ensures outcome.Applied? <==>
              && ref.conf in old(voters) && ref.conf < MAX_U64 && ref.conf !in old(appliedBy)
              && PlanFits(old(voters)[ref.conf], target, successor) && ref.conf + 1 !in old(voters)
      ensures outcome.Applied? ==>
                && outcome.id == ref.conf + 1 && voters == old(voters)[outcome.id := successor]
                && appliedBy == old(appliedBy)[ref.conf := ref] && current == outcome.id
      ensures !outcome.Applied? ==> voters == old(voters) && appliedBy == old(appliedBy) && current == old(current)
    {
      if ref.conf !in voters || ref.conf == MAX_U64 {
        return RejectedInvalid;
      }
      assert KnownAt(voters, first, current, ref.conf);
      var fits := ValidatePlan(voters[ref.conf], target, successor);
      if !fits {
        return RejectedInvalid;
      }
      if ref.conf in appliedBy || ref.conf + 1 in voters {
        return RejectedSuperseded;
      }
      Install(ref, successor);
      outcome := Applied(ref.conf + 1);
    }

    method Install(ref: InstanceRef, successor: Voters)
      requires Valid() && ref.conf in voters && ref.conf < MAX_U64 && ref.conf !in appliedBy && ref.conf + 1 !in voters
      requires Canonical(successor) && Adjacent(voters[ref.conf], successor)
      modifies this
      ensures Valid() && voters == old(voters)[ref.conf + 1 := successor]
              && appliedBy == old(appliedBy)[ref.conf := ref]
      ensures current == ref.conf + 1
    {
      assert KnownAt(voters, first, current, ref.conf);
      if ref.conf < current {
        NoGap(voters, appliedBy, first, current, ref.conf);
        assert false;
      }
      ghost var vs, refs := voters, appliedBy;
      voters := voters[ref.conf + 1 := successor];
      appliedBy := appliedBy[ref.conf := ref];
      current := ref.conf + 1;
      InstalledValid(vs, refs, first, ref, successor);
    }
  }

  lemma InstalledValid(voters: map<ConfID, Voters>, appliedBy: map<ConfID, InstanceRef>, first: ConfID,
                       ref: InstanceRef, successor: Voters)
    requires ref.conf in voters && ref.conf < MAX_U64 && ref.conf !in appliedBy && ref.conf + 1 !in voters
    requires Canonical(successor) && Adjacent(voters[ref.conf], successor)
    requires Chain(voters, appliedBy, first, ref.conf)
    ensures Chain(voters[ref.conf + 1 := successor], appliedBy[ref.conf := ref], first, ref.conf + 1)
  {
    var top: ConfID := ref.conf + 1;
    var vs, refs := voters[top := successor], appliedBy[ref.conf := ref];
    assert KnownAt(voters, first, ref.conf, ref.conf);
    forall id: ConfID
      ensures KnownAt(vs, first, top, id) && LinkedAt(vs, refs, first, id) && AppliedAt(vs, refs, id)
    {
      assert KnownAt(voters, first, ref.conf, id) && LinkedAt(voters, appliedBy, first, id)
             && AppliedAt(voters, appliedBy, id);
      assert Succeeds(vs, refs, ref.conf);
    }
  }

  /** All known configurations, in order, each with the command that made the next. */
  ghost predicate Chain(voters: map<ConfID, Voters>, appliedBy: map<ConfID, InstanceRef>, first: ConfID,
                        current: ConfID) {
    && (forall id: ConfID :: KnownAt(voters, first, current, id))
    && (forall id: ConfID :: LinkedAt(voters, appliedBy, first, id))
    && (forall id: ConfID :: AppliedAt(voters, appliedBy, id))
  }

  ghost predicate KnownAt(voters: map<ConfID, Voters>, first: ConfID, current: ConfID, id: ConfID) {
    id in voters ==> Canonical(voters[id]) && first <= id <= current
  }

  /** Every configuration but the first is the successor of the one before it. */
  ghost predicate LinkedAt(voters: map<ConfID, Voters>, appliedBy: map<ConfID, InstanceRef>, first: ConfID,
                           id: ConfID) {
    id in voters && id != first ==> id > first && Succeeds(voters, appliedBy, id - 1)
  }

  ghost predicate AppliedAt(voters: map<ConfID, Voters>, appliedBy: map<ConfID, InstanceRef>, id: ConfID) {
    id in appliedBy ==> Succeeds(voters, appliedBy, id)
  }

  /** Below the newest configuration every known one already has its successor. */
  lemma {:induction false} NoGap(voters: map<ConfID, Voters>, appliedBy: map<ConfID, InstanceRef>, first: ConfID,
                                 top: ConfID, id: ConfID)
    requires top in voters && first <= id < top
    requires forall c: ConfID :: LinkedAt(voters, appliedBy, first, c)
    ensures id in appliedBy
    decreases top
  {
    assert LinkedAt(voters, appliedBy, first, top);
    if id < top - 1 {
      NoGap(voters, appliedBy, first, top - 1, id);
    }
  }

  lemma ChangedAdjacent(base: Voters, successor: Voters, change: Change)
    requires Allowed(base, change) && Members(successor) == Changed(base, change)
    ensures Adjacent(base, successor)
  {
    match change
    case AddVoter(id) => assert id !in Members(base);
    case RemoveVoter(id) => assert id in Members(base);
  }

  /** validateVoterPlan: the successor is the base with the target added, in canonical order. */
  ghost predicate PlanFits(base: Voters, target: ReplicaID, successor: Voters) {
    && |base| < MAX_VOTERS && target != 0 && target !in base && Canonical(successor)
    && Members(successor) == Members(base) + {target}
  }

  method ValidatePlan(base: Voters, target: ReplicaID, successor: Voters) returns (ok: bool)
    requires Canonical(base)
    ensures ok <==> PlanFits(base, target, successor)
    ensures ok ==> Adjacent(base, successor)
  {
    var canonical := NewQuorum(successor);
    if canonical.None? || canonical.value != successor {
      if Canonical(successor) {
        CanonicalKept(successor, canonical);
      }
      return false;
    }
    if |base| >= MAX_VOTERS || target == 0 || target in base || |successor| != |base| + 1 {
      SizesDiffer(base, target, successor);
      return false;
    }
    AddedDistinct(base, target);
    var expected := NewQuorum(base + [target]);
    SameMembers(expected.value, base + [target]);
    if expected.value != successor {
      if Members(successor) == Members(base) + {target} {
        SameCanonical(expected.value, successor);
      }
      return false;
    }
    assert target !in Members(base);
    ok := true;
  }

  /** The base id has a successor, one voter apart, made by a command ordered under it. */
  ghost predicate Succeeds(voters: map<ConfID, Voters>, appliedBy: map<ConfID, InstanceRef>, id: int) {
    && id in voters && id in appliedBy && appliedBy[id].conf == id
    && id + 1 in voters && Adjacent(voters[id], voters[id + 1])
  }

  /** Recorded configurations and their successors never change. */
  ghost predicate Kept(before: map<ConfID, Voters>, after: map<ConfID, Voters>) {
    forall id <- before :: id in after && after[id] == before[id]
  }

  ghost predicate KeptRefs(before: map<ConfID, InstanceRef>, after: map<ConfID, InstanceRef>) {
    forall id <- before :: id in after && after[id] == before[id]
  }

  /** A canonical list is what sorting its members gives. */
  lemma {:induction false} SameCanonical(a: Voters, b: Voters)
    requires Rising(a) && Rising(b) && Members(a) == Members(b)
    ensures a == b
    decreases |a|
  {
    MembersCounted(a);
    MembersCounted(b);
    if a != [] {
      var x, y := a[|a| - 1], b[|b| - 1];
      LastIsGreatest(a, y);
      LastIsGreatest(b, x);
      var c, d := a[..|a| - 1], b[..|b| - 1];
      assert a == c + [x] && b == d + [y];
      InitRises(a);
      InitRises(b);
      SameCanonical(c, d);
    }
  }

  lemma LastIsGreatest(a: Voters, y: ReplicaID)
    requires a != [] && Rising(a) && y in Members(a)
    ensures y <= a[|a| - 1]
  {
    var k :| 0 <= k < |a| && a[k] == y;
    assert RisesAt(a, k, |a| - 1);
  }

  lemma InitRises(a: Voters)
    requires a != [] && Rising(a)
    ensures Rising(a[..|a| - 1]) && Members(a[..|a| - 1]) == Members(a) - {a[|a| - 1]}
  {
    var c, x := a[..|a| - 1], a[|a| - 1];
    forall i, j
      ensures RisesAt(c, i, j)
    {
      assert RisesAt(a, i, j);
    }
    assert a == c + [x];
    LastIsNew(a);
  }

  lemma LastIsNew(a: Voters)
    requires a != [] && Rising(a)
    ensures a[|a| - 1] !in a[..|a| - 1]
  {
    forall k | 0 <= k < |a| - 1
      ensures a[k] != a[|a| - 1]
    {
      assert RisesAt(a, k, |a| - 1);
    }
  }

  lemma CanonicalKept(vs: Voters, r: Option<Voters>)
    requires Canonical(vs) && (r.Some? <==> Distinct(vs))
             && (r.Some? ==> Canonical(r.value) && multiset(r.value) == multiset(vs))
    ensures r == Some(vs)
  {
    forall i, j | 0 <= i < j < |vs|
      ensures vs[i] != vs[j]
    {
      assert RisesAt(vs, i, j);
    }
    SameMembers(r.value, vs);
    SameCanonical(r.value, vs);
  }

  lemma SizesDiffer(base: Voters, target: ReplicaID, successor: Voters)
    requires Canonical(base) && (|base| >= MAX_VOTERS || target == 0 || target in base || |successor| != |base| + 1)
    ensures !PlanFits(base, target, successor)
  {
    MembersCounted(base);
    assert target in Members(base) <==> target in base;
    if PlanFits(base, target, successor) {
      MembersCounted(successor);
    }
  }
}
