/** The loops over votes and answers, in configuration order, behind the fast path and recovery. */
module Voting {
  import opened Types
  import opened Ballots
  import opened Attributes
  import opened Protocol
  import opened Recovery
  import FP = FastPath
  import H = Handlers
  import Q = Quorum

  function Zeros(n: nat): (s: seq<InstanceNum>)
    ensures |s| == n && forall i | 0 <= i < n :: s[i] == 0
  {
    if n == 0 then [] else Zeros(n - 1) + [0]
  }

  /** mergeAttrs: the copy of a is grown to b's length and raised slot by slot. */
  method MergeAttrs(a: Attrs, b: Attrs) returns (out: Attrs)
    ensures out == Merge(a, b)
  {
    var seqNo, deps := a.seqNo, a.deps;
    if b.seqNo > seqNo {
      seqNo := b.seqNo;
    }
    if |b.deps| > |deps| {
      deps := deps + Zeros(|b.deps| - |deps|);
    }
    ghost var grown := deps;
    for i := 0 to |b.deps|
      invariant |deps| == |grown|
      invariant forall j | 0 <= j < i :: deps[j] == Max(grown[j], b.deps[j])
      invariant forall j | i <= j < |grown| :: deps[j] == grown[j]
    {
      if b.deps[i] > deps[i] {
        deps := deps[i := b.deps[i]];
      }
    }
    if seqNo == 0 {
      seqNo := 1;
    }
    MergeDepsAt(a.deps, b.deps);
    assert deps == MergeDeps(a.deps, b.deps);
    out := Attrs(seqNo, deps);
  }

  ghost predicate Distinct(voters: seq<ReplicaID>) {
    forall i, j | 0 <= i < j < |voters| :: voters[i] != voters[j]
  }

  ghost function Among(voters: seq<ReplicaID>, s: set<ReplicaID>): set<ReplicaID> {
    set id | id in voters && id in s
  }

  lemma AmongNext(voters: seq<ReplicaID>, i: nat, s: set<ReplicaID>)
    requires Distinct(voters) && i < |voters|
    ensures Among(voters[..i + 1], s) == Among(voters[..i], s) + (if voters[i] in s then {voters[i]} else {})
    ensures voters[i] !in Among(voters[..i], s)
  {
    assert voters[..i + 1] == voters[..i] + [voters[i]];
  }

  lemma AmongAll(voters: seq<ReplicaID>, s: set<ReplicaID>)
    requires forall id <- s :: id in voters
    ensures Among(voters[..|voters|], s) == s
  {
    assert voters[..|voters|] == voters;
  }

  /** How many other voters match the attributes, and which dependencies they saw committed. */
  method CountMatching(p: FP.Proposal, voters: seq<ReplicaID>, votes: FP.Votes, attrs: Attrs)
    returns (count: nat, covered: set<nat>)
    requires Distinct(voters) && forall id <- votes :: id in voters
    ensures count == |FP.Matching(p, votes, attrs)|
    ensures forall i: nat :: i in covered <==> exists id <- FP.Matching(p, votes, attrs) :: i in votes[id].committed
  {
    ghost var all := FP.Matching(p, votes, attrs);
    count, covered := 0, {};
    for k := 0 to |voters|
      invariant count == |Among(voters[..k], all)|
      invariant forall i: nat :: i in covered <==> exists id <- Among(voters[..k], all) :: i in votes[id].committed
    {
      var id := voters[k];
      AmongNext(voters, k, all);
      if id in votes && id != p.self && votes[id].attrs == attrs && votes[id].eligible {
        count := count + 1;
        covered := covered + votes[id].committed;
      }
    }
    AmongAll(voters, all);
  }

  /** canFastCommitPreAccept. */
  method CanFastCommit(p: FP.Proposal, voters: seq<ReplicaID>, votes: FP.Votes, attrs: Attrs,
                       through: seq<InstanceNum>) returns (yes: bool)
    requires |voters| >= 1 && Distinct(voters) && forall id <- votes :: id in voters
    ensures yes == FP.CanFastCommit(p, |voters|, votes, attrs, through)
  {
    if !p.eligible || !p.initial || (attrs != p.attrs && !Cover(p.attrs, attrs)) {
      return false;
    }
    var count, seen := CountMatching(p, voters, votes, attrs);
    var covered := seen + FP.CommittedSlots(attrs, through);
    yes := 1 + count >= Q.Fast(|voters|) && forall i | 0 <= i < |attrs.deps| :: attrs.deps[i] != 0 ==> i in covered;
  }

  /** fastCommitAttrsPreAccept. */
  method FastCommitAttrs(p: FP.Proposal, voters: seq<ReplicaID>, votes: FP.Votes,
                         through: seq<InstanceNum>) returns (r: Option<Attrs>)
    requires |voters| >= 1 && Distinct(voters) && forall id <- votes :: id in voters
    ensures r == FP.FastCommitAttrs(p, voters, votes, through)
  {
    var own := CanFastCommit(p, voters, votes, p.attrs, through);
    if own {
      return Some(p.attrs);
    }
    if !p.initial {
      return None;
    }
    var n := |voters|;
    for i := 0 to |voters|
      invariant FP.FirstCovering(p, n, voters, votes, through) == FP.FirstCovering(p, n, voters[i..], votes, through)
    {
      var id := voters[i];
      assert voters[i..][1..] == voters[i + 1..];
      if id != p.self && id in votes && votes[id].attrs != p.attrs && Cover(p.attrs, votes[id].attrs) {
        var can := CanFastCommit(p, voters, votes, votes[id].attrs, through);
        if can {
          return Some(votes[id].attrs);
        }
      }
    }
    r := None;
  }

  method CanReach(p: FP.Proposal, voters: seq<ReplicaID>, votes: FP.Votes, candidate: Attrs) returns (yes: bool)
    requires |voters| >= 1 && Distinct(voters) && forall id <- votes :: id in voters
    ensures yes == FP.CanReach(p, |voters|, votes, candidate)
  {
    var unanswered := |voters| - |votes|;
    if unanswered < 0 {
      unanswered := 0;
    }
    if candidate != p.attrs && !Cover(p.attrs, candidate) {
      return false;
    }
    var count, _ := CountMatching(p, voters, votes, candidate);
    yes := 1 + count + unanswered >= Q.Fast(|voters|);
  }

  /** canStillFastCommitPreAccept. */
  method CanStill(p: FP.Proposal, voters: seq<ReplicaID>, votes: FP.Votes) returns (yes: bool)
    requires |voters| >= 1 && Distinct(voters) && forall id <- votes :: id in voters
    ensures yes == FP.CanStill(p, |voters|, votes)
  {
    if !p.eligible || !p.initial {
      return false;
    }
    yes := CanReach(p, voters, votes, p.attrs);
    if yes {
      return;
    }
    for i := 0 to |voters|
      invariant forall j | 0 <= j < i && voters[j] in votes && voters[j] != p.self && votes[voters[j]].eligible ::
                  !FP.CanReach(p, |voters|, votes, votes[voters[j]].attrs)
    {
      var id := voters[i];
      if id in votes && id != p.self && votes[id].eligible {
        yes := CanReach(p, voters, votes, votes[id].attrs);
        if yes {
          return;
        }
      }
    }
    forall id <- votes | id != p.self && votes[id].eligible
      ensures !FP.CanReach(p, |voters|, votes, votes[id].attrs)
    {
      var j :| 0 <= j < |voters| && voters[j] == id;
    }
    yes := false;
  }

  /** attrsFromVotes. */
  method AttrsFromVotes(voters: seq<ReplicaID>, votes: FP.Votes) returns (attrs: Attrs)
    ensures attrs == H.MergedVotes(voters, votes)
  {
    attrs := NO_ATTRS;
    for i := 0 to |voters|
      invariant attrs == H.MergedVotes(voters[..i], votes)
    {
      var upto := voters[..i + 1];
      assert upto[..|upto| - 1] == voters[..i] && upto[|upto| - 1] == voters[i];
      if voters[i] in votes {
        attrs := MergeAttrs(attrs, votes[voters[i]].attrs);
      }
      assert attrs == H.MergedVotes(upto, votes);
    }
    assert voters[..|voters|] == voters;
  }

  // Recovery.

  lemma {:induction false} FirstIs(voters: seq<ReplicaID>, s: set<ReplicaID>, k: nat)
    requires k < |voters| && voters[k] in s && forall j | 0 <= j < k :: voters[j] !in s
    ensures First(voters, s) == Some(voters[k])
  {
    if k > 0 {
      assert voters[0] !in s;
      FirstIs(voters[1..], s, k - 1);
    }
  }

  lemma {:induction false} FirstNone(voters: seq<ReplicaID>, s: set<ReplicaID>)
    requires forall j | 0 <= j < |voters| :: voters[j] !in s
    ensures First(voters, s) == None
  {
    if voters != [] {
      assert voters[0] !in s;
      FirstNone(voters[1..], s);
    }
  }

  function Finals(answers: Answers): set<ReplicaID> {
    set j | j in answers && answers[j].status.Final()
  }

  /** The first final answer in configuration order. */
  method FirstFinal(voters: seq<ReplicaID>, answers: Answers) returns (r: Option<ReplicaID>)
    ensures r == First(voters, Finals(answers))
  {
    for i := 0 to |voters|
      invariant forall j | 0 <= j < i :: voters[j] !in Finals(answers)
    {
      if voters[i] in answers && answers[voters[i]].status.Final() {
        FirstIs(voters, Finals(answers), i);
        return Some(voters[i]);
      }
    }
    FirstNone(voters, Finals(answers));
    r := None;
  }

  /** The accepted answer of the highest record ballot; equal ballots with the same value are merged. */
  method HighestAccepted(voters: seq<ReplicaID>, answers: Answers) returns (r: Option<Best>)
    ensures r == BestAccepted(voters, answers)
  {
    r := None;
    for i := 0 to |voters|
      invariant r == BestAccepted(voters[..i], answers)
    {
      var upto := voters[..i + 1];
      assert upto[..|upto| - 1] == voters[..i] && upto[|upto| - 1] == voters[i];
      if voters[i] in answers && answers[voters[i]].status.Accepted? {
        var rec := answers[voters[i]];
        if r.None? || r.value.rec.recordBallot.Less(rec.recordBallot) {
          r := Some(Best(rec, rec.tuple.attrs));
        } else if rec.recordBallot == r.value.rec.recordBallot && rec.tuple.value == r.value.rec.tuple.value {
          var merged := MergeAttrs(r.value.attrs, rec.tuple.attrs);
          r := Some(r.value.(attrs := merged));
        }
      }
      assert r == BestAccepted(upto, answers);
    }
    assert voters[..|voters|] == voters;
  }

  method HighestPreAccepted(voters: seq<ReplicaID>, answers: Answers) returns (top: Ballot)
    ensures top == TopPreAccepted(voters, answers)
  {
    top := ZERO;
    for i := 0 to |voters|
      invariant top == TopPreAccepted(voters[..i], answers)
    {
      var upto := voters[..i + 1];
      assert upto[..|upto| - 1] == voters[..i] && upto[|upto| - 1] == voters[i];
      if voters[i] in answers && answers[voters[i]].status.PreAccepted? && top.Less(answers[voters[i]].recordBallot) {
        top := answers[voters[i]].recordBallot;
      }
      assert top == TopPreAccepted(upto, answers);
    }
    assert voters[..|voters|] == voters;
  }

  /** The merged attributes of the answers at the top ballot, and the first of them. */
  method MergeTop(voters: seq<ReplicaID>, answers: Answers, top: Ballot) returns (attrs: Attrs,
      first: Option<ReplicaID>)
    ensures attrs == MergedAt(voters, answers, top) && first == First(voters, PreAcceptedAt(answers, top))
  {
    attrs, first := NO_ATTRS, None;
    for i := 0 to |voters|
      invariant attrs == MergedAt(voters[..i], answers, top)
      invariant first.None? ==> forall j | 0 <= j < i :: voters[j] !in PreAcceptedAt(answers, top)
      invariant first.Some? ==> first == First(voters, PreAcceptedAt(answers, top))
    {
      var id, upto := voters[i], voters[..i + 1];
      assert upto[..|upto| - 1] == voters[..i] && upto[|upto| - 1] == voters[i];
      if id in answers && answers[id].status.PreAccepted? && answers[id].recordBallot == top {
        attrs := MergeAttrs(attrs, answers[id].tuple.attrs);
        if first.None? {
          FirstIs(voters, PreAcceptedAt(answers, top), i);
          first := Some(id);
        }
      }
      assert attrs == MergedAt(upto, answers, top);
    }
    assert voters[..|voters|] == voters;
    if first.None? {
      FirstNone(voters, PreAcceptedAt(answers, top));
    }
  }

  // The tuples that eligible answers at the top ballot agree on, in the order they are first met.

  datatype Candidate = Candidate(tuple: Tuple, voters: set<ReplicaID>)

  predicate EligibleAt(answers: Answers, top: Ballot, j: ReplicaID) {
    j in PreAcceptedAt(answers, top) && answers[j].eligible
  }

  /** A candidate holds exactly the first upto voters that share its tuple, and was met at voter lead. */
  ghost predicate GroupOf(voters: seq<ReplicaID>, answers: Answers, top: Ballot, upto: nat, c: Candidate, lead: nat) {
    && upto <= |voters| && lead < upto && voters[lead] in c.voters
    && (forall j | 0 <= j < upto :: voters[j] in c.voters <==>
        EligibleAt(answers, top, voters[j]) && answers[voters[j]].tuple == c.tuple)
    && (forall j | 0 <= j < lead :: voters[j] !in c.voters)
    && (forall id <- c.voters :: id in voters[..upto])
  }

  ghost predicate GroupAt(voters: seq<ReplicaID>, answers: Answers, top: Ballot, upto: nat, cs: seq<Candidate>,
                          leads: seq<nat>, c: int) {
    0 <= c < |cs| && c < |leads| ==> GroupOf(voters, answers, top, upto, cs[c], leads[c])
  }

  ghost predicate GroupsApart(cs: seq<Candidate>, leads: seq<nat>, c: int, d: int) {
    0 <= c < d < |cs| && d < |leads| ==> cs[c].tuple != cs[d].tuple && leads[c] < leads[d]
  }

  ghost predicate Holds(cs: seq<Candidate>, t: Tuple, c: int) {
    0 <= c < |cs| && cs[c].tuple == t
  }

  ghost predicate Placed(voters: seq<ReplicaID>, answers: Answers, top: Ballot, upto: nat, cs: seq<Candidate>, j: int) {
    0 <= j < upto <= |voters| && EligibleAt(answers, top, voters[j]) ==>
      exists c :: Holds(cs, answers[voters[j]].tuple, c)
  }

  ghost predicate Grouped(voters: seq<ReplicaID>, answers: Answers, top: Ballot, upto: nat, cs: seq<Candidate>,
                          leads: seq<nat>) {
    && |cs| == |leads| && upto <= |voters|
    && (forall c :: GroupAt(voters, answers, top, upto, cs, leads, c))
    && (forall c, d :: GroupsApart(cs, leads, c, d))
    && (forall j :: Placed(voters, answers, top, upto, cs, j))
  }

  /** addTryCandidate; the voter joins group at. */
  method AddCandidate(cs: seq<Candidate>, tuple: Tuple, voter: ReplicaID) returns (r: seq<Candidate>, ghost at: nat)
    ensures at <= |cs| && forall c | 0 <= c < at :: cs[c].tuple != tuple
    ensures at < |cs| ==> cs[at].tuple == tuple && r == cs[at := Candidate(tuple, cs[at].voters + {voter})]
    ensures at == |cs| ==> r == cs + [Candidate(tuple, {voter})]
  {
    for i := 0 to |cs|
      invariant forall c | 0 <= c < i :: cs[c].tuple != tuple
    {
      if cs[i].tuple == tuple {
        r, at := cs[i := Candidate(tuple, cs[i].voters + {voter})], i;
        return;
      }
    }
    r, at := cs + [Candidate(tuple, {voter})], |cs|;
  }

  /** A voter that is not eligible leaves every group as it was. */
  lemma GroupSkips(voters: seq<ReplicaID>, answers: Answers, top: Ballot, i: nat, c: Candidate, lead: nat)
    requires Distinct(voters) && i < |voters| && GroupOf(voters, answers, top, i, c, lead)
    requires !(EligibleAt(answers, top, voters[i]) && answers[voters[i]].tuple == c.tuple)
    ensures GroupOf(voters, answers, top, i + 1, c, lead)
  {
    assert voters[..i + 1] == voters[..i] + [voters[i]];
    assert voters[i] !in voters[..i];
  }

  lemma GroupJoins(voters: seq<ReplicaID>, answers: Answers, top: Ballot, i: nat, c: Candidate, lead: nat)
    requires Distinct(voters) && i < |voters| && GroupOf(voters, answers, top, i, c, lead)
    requires EligibleAt(answers, top, voters[i]) && answers[voters[i]].tuple == c.tuple
    ensures GroupOf(voters, answers, top, i + 1, c.(voters := c.voters + {voters[i]}), lead)
  {
    assert voters[..i + 1] == voters[..i] + [voters[i]];
  }

  lemma GroupOpens(voters: seq<ReplicaID>, answers: Answers, top: Ballot, i: nat)
    requires Distinct(voters) && i < |voters| && EligibleAt(answers, top, voters[i])
    requires forall j | 0 <= j < i && EligibleAt(answers, top, voters[j]) ::
             answers[voters[j]].tuple != answers[voters[i]].tuple
    ensures GroupOf(voters, answers, top, i + 1, Candidate(answers[voters[i]].tuple, {voters[i]}), i)
  {
    assert voters[..i + 1] == voters[..i] + [voters[i]];
  }

  lemma NotEligible(voters: seq<ReplicaID>, answers: Answers, top: Ballot, i: nat, cs: seq<Candidate>, leads: seq<nat>)
    requires Distinct(voters) && i < |voters| && Grouped(voters, answers, top, i, cs, leads)
             && !EligibleAt(answers, top, voters[i])
    ensures Grouped(voters, answers, top, i + 1, cs, leads)
  {
    var next: nat := i + 1;
    forall c
      ensures GroupAt(voters, answers, top, next, cs, leads, c)
    {
      assert GroupAt(voters, answers, top, i, cs, leads, c);
      if 0 <= c < |cs| {
        GroupSkips(voters, answers, top, i, cs[c], leads[c]);
      }
    }
    forall j
      ensures Placed(voters, answers, top, next, cs, j)
    {
      assert Placed(voters, answers, top, i, cs, j);
    }
  }

  /** Voter i joins group at. */
  lemma JoinsGroup(voters: seq<ReplicaID>, answers: Answers, top: Ballot, i: nat, cs: seq<Candidate>, leads: seq<nat>,
                   at: nat, r: seq<Candidate>)
    requires Distinct(voters) && i < |voters| && Grouped(voters, answers, top, i, cs, leads)
             && EligibleAt(answers, top, voters[i])
    requires at < |cs| && cs[at].tuple == answers[voters[i]].tuple
    requires r == cs[at := Candidate(cs[at].tuple, cs[at].voters + {voters[i]})]
    ensures Grouped(voters, answers, top, i + 1, r, leads)
  {
    var next: nat := i + 1;
    forall c
      ensures GroupAt(voters, answers, top, next, r, leads, c)
    {
      assert GroupAt(voters, answers, top, i, cs, leads, c) && GroupsApart(cs, leads, c, at)
             && GroupsApart(cs, leads, at, c);
      if c == at {
        GroupJoins(voters, answers, top, i, cs[c], leads[c]);
      } else if 0 <= c < |cs| {
        GroupSkips(voters, answers, top, i, cs[c], leads[c]);
      }
    }
    forall c, d
      ensures GroupsApart(r, leads, c, d)
    {
      assert GroupsApart(cs, leads, c, d);
    }
    forall j
      ensures Placed(voters, answers, top, next, r, j)
    {
      StillPlaced(voters, answers, top, i, cs, r, j);
      assert Holds(r, answers[voters[i]].tuple, at);
    }
  }

  lemma StillPlaced(voters: seq<ReplicaID>, answers: Answers, top: Ballot, i: nat, cs: seq<Candidate>,
                    r: seq<Candidate>, j: int)
    requires i < |voters| && Placed(voters, answers, top, i, cs, j) && |cs| <= |r| && forall c | 0 <= c < |cs| ::
             r[c].tuple == cs[c].tuple
    ensures Placed(voters, answers, top, i, r, j)
  {
    if 0 <= j < i && EligibleAt(answers, top, voters[j]) {
      var c :| Holds(cs, answers[voters[j]].tuple, c);
      assert Holds(r, answers[voters[j]].tuple, c);
    }
  }

  /** Voter i opens a group of its own. */
  lemma OpensGroup(voters: seq<ReplicaID>, answers: Answers, top: Ballot, i: nat, cs: seq<Candidate>, leads: seq<nat>,
                   r: seq<Candidate>)
    requires Distinct(voters) && i < |voters| && Grouped(voters, answers, top, i, cs, leads)
             && EligibleAt(answers, top, voters[i])
    requires forall c | 0 <= c < |cs| :: cs[c].tuple != answers[voters[i]].tuple
    requires r == cs + [Candidate(answers[voters[i]].tuple, {voters[i]})]
    ensures Grouped(voters, answers, top, i + 1, r, leads + [i])
  {
    var next: nat := i + 1;
    var more := leads + [i];
    forall j | 0 <= j < i && EligibleAt(answers, top, voters[j])
      ensures answers[voters[j]].tuple != answers[voters[i]].tuple
    {
      assert Placed(voters, answers, top, i, cs, j);
      var c :| Holds(cs, answers[voters[j]].tuple, c);
    }
    GroupOpens(voters, answers, top, i);
    forall c
      ensures GroupAt(voters, answers, top, next, r, more, c)
    {
      assert GroupAt(voters, answers, top, i, cs, leads, c);
      if 0 <= c < |cs| {
        GroupSkips(voters, answers, top, i, cs[c], leads[c]);
      }
    }
    forall c, d
      ensures GroupsApart(r, more, c, d)
    {
      assert GroupsApart(cs, leads, c, d) && GroupAt(voters, answers, top, i, cs, leads, c);
    }
    forall j
      ensures Placed(voters, answers, top, next, r, j)
    {
      assert Placed(voters, answers, top, i, cs, j);
      StillPlaced(voters, answers, top, i, cs, r, j);
      assert Holds(r, answers[voters[i]].tuple, |cs|);
    }
  }

  /** One more voter is added to the groups. */
  method GroupNext(voters: seq<ReplicaID>, answers: Answers, top: Ballot, i: nat, cs: seq<Candidate>,
                   ghost leads: seq<nat>)
    returns (r: seq<Candidate>, ghost more: seq<nat>)
    requires Distinct(voters) && i < |voters| && Grouped(voters, answers, top, i, cs, leads)
    ensures Grouped(voters, answers, top, i + 1, r, more)
  {
    var id := voters[i];
    if !EligibleAt(answers, top, id) {
      NotEligible(voters, answers, top, i, cs, leads);
      r, more := cs, leads;
      return;
    }
    ghost var at;
    r, at := AddCandidate(cs, answers[id].tuple, id);
    if at < |cs| {
      JoinsGroup(voters, answers, top, i, cs, leads, at, r);
      more := leads;
    } else {
      OpensGroup(voters, answers, top, i, cs, leads, r);
      more := leads + [i];
    }
  }

  lemma GroupIsWitnesses(voters: seq<ReplicaID>, answers: Answers, top: Ballot, c: Candidate, lead: nat)
    requires GroupOf(voters, answers, top, |voters|, c, lead) && forall id <- answers :: id in voters
    ensures c.voters == Witnesses(answers, top, c.tuple)
  {
    assert voters[..|voters|] == voters;
    forall id: ReplicaID
      ensures id in c.voters <==> id in Witnesses(answers, top, c.tuple)
    {
      if id in voters {
        var j :| 0 <= j < |voters| && voters[j] == id;
      }
    }
  }

  /** The first candidate with enough voters is the one of the first voter in the pool. */
  lemma FirstCandidate(voters: seq<ReplicaID>, answers: Answers, top: Ballot, cs: seq<Candidate>, leads: seq<nat>,
                       c: nat)
    requires |voters| >= 1 && Grouped(voters, answers, top, |voters|, cs, leads)
             && (forall id <- answers :: id in voters) && c < |cs|
    requires |cs[c].voters| >= Q.Witness(|voters|) && forall d | 0 <= d < c :: |cs[d].voters| < Q.Witness(|voters|)
    ensures var pool := First(voters, TryPool(|voters|, answers, top));
            && pool.Some? && pool.value in answers && answers[pool.value].tuple == cs[c].tuple
            && cs[c].voters == Witnesses(answers, top, cs[c].tuple)
  {
    var pool := TryPool(|voters|, answers, top);
    assert GroupAt(voters, answers, top, |voters|, cs, leads, c);
    GroupIsWitnesses(voters, answers, top, cs[c], leads[c]);
    forall j | 0 <= j < leads[c]
      ensures voters[j] !in pool
    {
      assert Placed(voters, answers, top, |voters|, cs, j);
      if EligibleAt(answers, top, voters[j]) {
        var d :| Holds(cs, answers[voters[j]].tuple, d);
        assert GroupAt(voters, answers, top, |voters|, cs, leads, d) && GroupsApart(cs, leads, c, d);
        GroupIsWitnesses(voters, answers, top, cs[d], leads[d]);
      }
    }
    FirstIs(voters, pool, leads[c]);
  }

  lemma NoCandidate(voters: seq<ReplicaID>, answers: Answers, top: Ballot, cs: seq<Candidate>, leads: seq<nat>)
    requires |voters| >= 1 && Grouped(voters, answers, top, |voters|, cs, leads)
             && (forall id <- answers :: id in voters)
    requires forall d | 0 <= d < |cs| :: |cs[d].voters| < Q.Witness(|voters|)
    ensures First(voters, TryPool(|voters|, answers, top)) == None
  {
    var pool := TryPool(|voters|, answers, top);
    forall j | 0 <= j < |voters|
      ensures voters[j] !in pool
    {
      assert Placed(voters, answers, top, |voters|, cs, j);
      if EligibleAt(answers, top, voters[j]) {
        var d :| Holds(cs, answers[voters[j]].tuple, d);
        assert GroupAt(voters, answers, top, |voters|, cs, leads, d);
        GroupIsWitnesses(voters, answers, top, cs[d], leads[d]);
      }
    }
    FirstNone(voters, pool);
  }

  /** The tuple to try, with its witnesses, when there is one. */
  method PickCandidate(voters: seq<ReplicaID>, answers: Answers, top: Ballot) returns (r: Option<Candidate>)
    requires |voters| >= 1 && Distinct(voters) && forall id <- answers :: id in voters
    ensures var pool := First(voters, TryPool(|voters|, answers, top));
            && (r.Some? <==> pool.Some?)
            && (r.Some? ==>
                pool.value in answers
                    && r.value == Candidate(answers[pool.value].tuple,
                                            Witnesses(answers, top, answers[pool.value].tuple)))
  {
    var cs := [];
    ghost var leads := [];
    for i := 0 to |voters|
      invariant Grouped(voters, answers, top, i, cs, leads)
    {
      cs, leads := GroupNext(voters, answers, top, i, cs, leads);
    }
    for c := 0 to |cs|
      invariant forall d | 0 <= d < c :: |cs[d].voters| < Q.Witness(|voters|)
    {
      if |cs[c].voters| >= Q.Witness(|voters|) {
        FirstCandidate(voters, answers, top, cs, leads, c);
        return Some(cs[c]);
      }
    }
    NoCandidate(voters, answers, top, cs, leads);
    r := None;
  }

  /** What handlePrepareResp makes of a slow quorum of answers. */
  method Choose(g: Group, answers: Answers, local: Attrs, fallback: Option<Value>) returns (plan: Plan)
    requires |g.voters| >= 1 && Distinct(g.voters) && forall id <- answers :: id in g.voters
    ensures plan == Decide(g, answers, local, fallback)
  {
    var final := FirstFinal(g.voters, answers);
    if final.Some? {
      return Adopt(answers[final.value]);
    }
    var best := HighestAccepted(g.voters, answers);
    if best.Some? {
      return Accepting(Tuple(best.value.attrs, best.value.rec.tuple.value));
    }
    var top := HighestPreAccepted(g.voters, answers);
    var attrs, first := MergeTop(g.voters, answers, top);
    var candidate := PickCandidate(g.voters, answers, top);
    if candidate.Some? {
      return Trying(candidate.value.tuple, candidate.value.voters);
    }
    if first.Some? {
      attrs := MergeAttrs(attrs, local);
      return Accepting(Tuple(attrs, answers[first.value].tuple.value));
    }
    if fallback.None? {
      return Refuse;
    }
    plan := Accepting(Tuple(Attrs(1, seq(|g.voters|, _ => 0)), fallback.value));
  }
}
