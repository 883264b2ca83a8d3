/** The owner's fast-path decision over PreAccept votes, and its lookahead. */
module FastPath {
  import opened Types
  import opened Attributes
  import Q = Quorum

  /** A PreAccept reply: its attributes, its eligibility, and the dependency slots its sender saw committed. */
  datatype Vote = Vote(attrs: Attrs, eligible: bool, committed: set<nat>)

  type Votes = map<ReplicaID, Vote>

  /** The owner's side of the decision: its own durable tuple and whether its ballot is the initial one. */
  datatype Proposal = Proposal(self: ReplicaID, attrs: Attrs, eligible: bool, initial: bool)

  /** The dependency slots whose prefix is committed locally; through gives the committed prefix per slot. */
  function CommittedSlots(attrs: Attrs, through: seq<InstanceNum>): set<nat> {
    set i: nat | i < |attrs.deps| && i < |through| && attrs.deps[i] != 0 && attrs.deps[i] <= through[i]
  }

  function Matching(p: Proposal, votes: Votes, attrs: Attrs): set<ReplicaID> {
    set id | id in votes && id != p.self && votes[id].eligible && votes[id].attrs == attrs
  }

  predicate Candidate(p: Proposal, attrs: Attrs) {
    attrs == p.attrs || Cover(p.attrs, attrs)
  }

  /** Every nonempty dependency prefix was seen committed by the owner or by a matching voter. */
  predicate Covered(p: Proposal, votes: Votes, attrs: Attrs, through: seq<InstanceNum>) {
    forall i: nat | i < |attrs.deps| && attrs.deps[i] != 0 ::
      i in CommittedSlots(attrs, through) || exists id <- Matching(p, votes, attrs) :: i in votes[id].committed
  }

  /** canFastCommitPreAccept. */
  predicate CanFastCommit(p: Proposal, n: nat, votes: Votes, attrs: Attrs, through: seq<InstanceNum>)
    requires n >= 1
  {
    && p.eligible && p.initial && Candidate(p, attrs)
    && 1 + |Matching(p, votes, attrs)| >= Q.Fast(n)
    && Covered(p, votes, attrs, through)
  }

  /** The first voter, in slot order, whose strictly covering attributes can be committed fast. */
  function FirstCovering(p: Proposal, n: nat, voters: seq<ReplicaID>, votes: Votes,
                         through: seq<InstanceNum>): (r: Option<Attrs>)
    requires n >= 1
    ensures r.Some? ==> CanFastCommit(p, n, votes, r.value, through) && r.value != p.attrs
                        && exists id <- voters :: id in votes && id != p.self && votes[id].attrs == r.value
    ensures r.None? ==> forall id <- voters | id in votes && id != p.self && votes[id].attrs != p.attrs ::
                          !CanFastCommit(p, n, votes, votes[id].attrs, through)
  {
    if voters == [] then None
    else
      var id := voters[0];
      if id != p.self && id in votes && votes[id].attrs != p.attrs && Cover(p.attrs, votes[id].attrs)
         && CanFastCommit(p, n, votes, votes[id].attrs, through)
      then Some(votes[id].attrs)
      else FirstCovering(p, n, voters[1..], votes, through)
  }

  /** fastCommitAttrsPreAccept: the owner's own attributes first, then a covering reply. */
  function FastCommitAttrs(p: Proposal, voters: seq<ReplicaID>, votes: Votes,
                           through: seq<InstanceNum>): (r: Option<Attrs>)
    requires |voters| >= 1
    ensures r.Some? ==> CanFastCommit(p, |voters|, votes, r.value, through)
  {
    if CanFastCommit(p, |voters|, votes, p.attrs, through) then Some(p.attrs)
    else if !p.initial then None
    else FirstCovering(p, |voters|, voters, votes, through)
  }

  predicate CanReach(p: Proposal, n: nat, votes: Votes, candidate: Attrs)
    requires n >= 1
  {
    var unanswered := if |votes| <= n then n - |votes| else 0;
    Candidate(p, candidate) && 1 + |Matching(p, votes, candidate)| + unanswered >= Q.Fast(n)
  }

  /** canStillFastCommitPreAccept. */
  predicate CanStill(p: Proposal, n: nat, votes: Votes)
    requires n >= 1
  {
    && p.eligible && p.initial
    && (CanReach(p, n, votes, p.attrs)
        || exists id <- votes :: id != p.self && votes[id].eligible && CanReach(p, n, votes, votes[id].attrs))
  }

  /** more adds replies of voters that had not answered, with any content. */
  ghost predicate Extends(voters: seq<ReplicaID>, votes: Votes, more: Votes) {
    && votes.Keys <= more.Keys && (forall id <- more :: id in voters)
    && (forall id <- votes :: more[id] == votes[id])
  }

  ghost function VoterSet(voters: seq<ReplicaID>): set<ReplicaID> {
    set id | id in voters
  }

  lemma {:induction false} VoterSetSize(voters: seq<ReplicaID>)
    requires forall i, j | 0 <= i < j < |voters| :: voters[i] != voters[j]
    ensures |VoterSet(voters)| == |voters|
  {
    if voters != [] {
      VoterSetSize(voters[1..]);
      assert VoterSet(voters) == {voters[0]} + VoterSet(voters[1..]);
    }
  }

  /** New replies add at most one match per unanswered voter. */
  lemma MatchingGrows(p: Proposal, voters: seq<ReplicaID>, votes: Votes, more: Votes, attrs: Attrs)
    requires forall i, j | 0 <= i < j < |voters| :: voters[i] != voters[j]
    requires Extends(voters, votes, more)
    ensures |votes| <= |voters|
    ensures |Matching(p, more, attrs)| <= |Matching(p, votes, attrs)| + |voters| - |votes|
  {
    var unanswered := VoterSet(voters) - votes.Keys;
    VoterSetSize(voters);
    Q.SubsetSize(votes.Keys, VoterSet(voters));
    assert |unanswered| == |voters| - |votes|;
    var bound := Matching(p, votes, attrs) + unanswered;
    Q.SubsetSize(Matching(p, more, attrs), bound);
  }

  /**
   Lookahead soundness: when the owner gives the fast path up, no replies of the voters still to
   answer, whatever they carry, would have completed it.
   */
  lemma LookaheadSound(p: Proposal, voters: seq<ReplicaID>, votes: Votes, more: Votes, through: seq<InstanceNum>)
    requires |voters| >= 1 && forall i, j | 0 <= i < j < |voters| :: voters[i] != voters[j]
    requires Extends(voters, votes, more) && !CanStill(p, |voters|, votes)
    ensures FastCommitAttrs(p, voters, more, through).None?
  {
    var r := FastCommitAttrs(p, voters, more, through);
    if r.Some? {
      CommitWasReachable(p, voters, votes, more, r.value, through);
    }
  }

  /** What more replies commit fast was still in reach before them. */
  lemma CommitWasReachable(p: Proposal, voters: seq<ReplicaID>, votes: Votes, more: Votes, attrs: Attrs,
                           through: seq<InstanceNum>)
    requires |voters| >= 1 && forall i, j | 0 <= i < j < |voters| :: voters[i] != voters[j]
    requires Extends(voters, votes, more) && CanFastCommit(p, |voters|, more, attrs, through)
    ensures CanStill(p, |voters|, votes)
  {
    var n := |voters|;
    MatchingGrows(p, voters, votes, more, attrs);
    MatchingGrows(p, voters, votes, more, p.attrs);
    if Matching(p, votes, attrs) == {} {
      assert CanReach(p, n, votes, p.attrs);
    } else {
      var id :| id in Matching(p, votes, attrs);
      assert CanReach(p, n, votes, votes[id].attrs);
    }
  }

  ghost function NonemptySlots(attrs: Attrs): set<nat> {
    set i: nat | i < |attrs.deps| && attrs.deps[i] != 0
  }

  /** The best the unanswered voters can do for a candidate: all match it and saw all its dependencies committed. */
  ghost function Favour(voters: seq<ReplicaID>, votes: Votes, candidate: Attrs): Votes {
    map id | id in voters || id in votes ::
      if id in votes then votes[id] else Vote(candidate, true, NonemptySlots(candidate))
  }

  lemma FavourMatching(p: Proposal, voters: seq<ReplicaID>, votes: Votes, candidate: Attrs)
    requires forall i, j | 0 <= i < j < |voters| :: voters[i] != voters[j]
    requires (forall id <- votes :: id in voters) && p.self in votes
    ensures Extends(voters, votes, Favour(voters, votes, candidate))
    ensures |Matching(p, Favour(voters, votes, candidate), candidate)|
            == |Matching(p, votes, candidate)| + |voters| - |votes|
    ensures forall id <- voters | id !in votes :: id in Matching(p, Favour(voters, votes, candidate), candidate)
    ensures |votes| <= |voters| == |VoterSet(voters)|
  {
    var unanswered := VoterSet(voters) - votes.Keys;
    VoterSetSize(voters);
    Q.SubsetSize(votes.Keys, VoterSet(voters));
    assert |unanswered| == |voters| - |votes|;
    assert Matching(p, Favour(voters, votes, candidate), candidate) == Matching(p, votes, candidate) + unanswered;
  }

  lemma FavourCommits(p: Proposal, voters: seq<ReplicaID>, votes: Votes, candidate: Attrs, through: seq<InstanceNum>)
    requires |voters| >= 1 && forall i, j | 0 <= i < j < |voters| :: voters[i] != voters[j]
    requires (forall id <- votes :: id in voters) && p.self in votes && |votes| < |voters|
    requires p.eligible && p.initial && CanReach(p, |voters|, votes, candidate)
    ensures Extends(voters, votes, Favour(voters, votes, candidate))
    ensures CanFastCommit(p, |voters|, Favour(voters, votes, candidate), candidate, through)
  {
    FavourMatching(p, voters, votes, candidate);
    if VoterSet(voters) <= votes.Keys {
      Q.SubsetSize(VoterSet(voters), votes.Keys);
    }
    var late :| late in voters && late !in votes;
    assert Favour(voters, votes, candidate)[late].committed == NonemptySlots(candidate);
  }

  /**
   While a voter has yet to answer, the lookahead is exact: the owner keeps waiting if and only if
   some replies of the remaining voters would complete the fast path.
   */
  lemma LookaheadExact(p: Proposal, voters: seq<ReplicaID>, votes: Votes, through: seq<InstanceNum>)
    requires |voters| >= 1 && forall i, j | 0 <= i < j < |voters| :: voters[i] != voters[j]
    requires (forall id <- votes :: id in voters) && p.self in votes && |votes| < |voters|
    ensures CanStill(p, |voters|, votes) <==>
            exists more :: Extends(voters, votes, more) && FastCommitAttrs(p, voters, more, through).Some?
  {
    var n := |voters|;
    if CanStill(p, n, votes) {
      var candidate := p.attrs;
      if !CanReach(p, n, votes, p.attrs) {
        var id :| id in votes && id != p.self && votes[id].eligible && CanReach(p, n, votes, votes[id].attrs);
        candidate := votes[id].attrs;
        FavourCommits(p, voters, votes, candidate, through);
        assert Favour(voters, votes, candidate)[id].attrs == candidate;
      }
      FavourCommits(p, voters, votes, candidate, through);
      var more := Favour(voters, votes, candidate);
      assert FastCommitAttrs(p, voters, more, through).Some?;
    }
    forall more | Extends(voters, votes, more) && FastCommitAttrs(p, voters, more, through).Some?
      ensures CanStill(p, n, votes)
    {
      if !CanStill(p, n, votes) {
        LookaheadSound(p, voters, votes, more, through);
      }
    }
  }

  // The fast path, counted by hand.

  ghost predicate Supports(p: Proposal, votes: Votes, attrs: Attrs, id: ReplicaID) {
    id in votes && id != p.self && votes[id].eligible && votes[id].attrs == attrs
  }

  /** A dependency is settled when the owner, or a voter for the same attributes, saw its prefix committed. */
  ghost predicate SettledAt(p: Proposal, votes: Votes, attrs: Attrs, through: seq<InstanceNum>, i: nat) {
    i < |attrs.deps| && attrs.deps[i] != 0 ==>
      || (i < |through| && attrs.deps[i] <= through[i])
      || exists id :: Supports(p, votes, attrs, id) && i in votes[id].committed
  }

  ghost predicate AllSupport(p: Proposal, votes: Votes, attrs: Attrs, q: set<ReplicaID>) {
    forall id <- q :: Supports(p, votes, attrs, id)
  }

  /**
   The owner, unchanged at its initial ballot, makes a fast quorum with voters for exactly these
   attributes, which cover its own, and between them they saw every dependency committed.
   */
  ghost predicate FastQuorumFor(p: Proposal, n: nat, votes: Votes, attrs: Attrs, through: seq<InstanceNum>)
    requires n >= 1
  {
    && p.eligible && p.initial && Cover(p.attrs, attrs)
    && (exists q :: AllSupport(p, votes, attrs, q) && 1 + |q| >= Q.Fast(n))
    && forall i: nat :: SettledAt(p, votes, attrs, through, i)
  }

  lemma CanFastCommitExact(p: Proposal, n: nat, votes: Votes, attrs: Attrs, through: seq<InstanceNum>)
    requires n >= 1
    ensures CanFastCommit(p, n, votes, attrs, through) <==> FastQuorumFor(p, n, votes, attrs, through)
  {
    var matching := Matching(p, votes, attrs);
    assert AllSupport(p, votes, attrs, matching);
    forall i: nat
      ensures SettledAt(p, votes, attrs, through, i) <==>
                (i < |attrs.deps| && attrs.deps[i] != 0 ==>
                   i in CommittedSlots(attrs, through) || exists id <- matching :: i in votes[id].committed)
    {
    }
    if FastQuorumFor(p, n, votes, attrs, through) {
      var q :| AllSupport(p, votes, attrs, q) && 1 + |q| >= Q.Fast(n);
      Q.SubsetSize(q, matching);
    }
  }

  /** The voter at slot k carries other attributes than the owner's that could be committed. */
  ghost predicate CoveringAt(p: Proposal, n: nat, voters: seq<ReplicaID>, votes: Votes, through: seq<InstanceNum>,
                             k: int)
    requires n >= 1
  {
    && 0 <= k < |voters| && voters[k] in votes && voters[k] != p.self && votes[voters[k]].attrs != p.attrs
    && FastQuorumFor(p, n, votes, votes[voters[k]].attrs, through)
  }

  lemma {:induction false} FirstCoveringExact(p: Proposal, n: nat, voters: seq<ReplicaID>, votes: Votes,
                                              through: seq<InstanceNum>, k: int)
    requires n >= 1 && CoveringAt(p, n, voters, votes, through, k)
    requires forall j | 0 <= j < k :: !CoveringAt(p, n, voters, votes, through, j)
    ensures FirstCovering(p, n, voters, votes, through) == Some(votes[voters[k]].attrs)
  {
    if voters[0] in votes {
      CanFastCommitExact(p, n, votes, votes[voters[0]].attrs, through);
    }
    if k > 0 {
      var rest := voters[1..];
      assert !CoveringAt(p, n, voters, votes, through, 0);
      forall j | 0 <= j < k - 1
        ensures !CoveringAt(p, n, rest, votes, through, j)
      {
        assert !CoveringAt(p, n, voters, votes, through, j + 1);
      }
      FirstCoveringExact(p, n, rest, votes, through, k - 1);
    }
  }

  /**
   What is committed fast: the owner's attributes if a fast quorum is for them, else those of the
   first voter in slot order whose attributes have one, else nothing.
   */
  lemma FastCommitExact(p: Proposal, voters: seq<ReplicaID>, votes: Votes, through: seq<InstanceNum>)
    requires |voters| >= 1
    ensures var r := FastCommitAttrs(p, voters, votes, through);
            && (FastQuorumFor(p, |voters|, votes, p.attrs, through) ==> r == Some(p.attrs))
            && (!FastQuorumFor(p, |voters|, votes, p.attrs, through) ==>
                  && (forall k | CoveringAt(p, |voters|, voters, votes, through, k)
                                 && forall j | 0 <= j < k :: !CoveringAt(p, |voters|, voters, votes, through, j) ::
                        r == Some(votes[voters[k]].attrs))
                  && ((forall k :: !CoveringAt(p, |voters|, voters, votes, through, k)) ==> r.None?))
  {
    var n, r := |voters|, FastCommitAttrs(p, voters, votes, through);
    CanFastCommitExact(p, n, votes, p.attrs, through);
    if !FastQuorumFor(p, n, votes, p.attrs, through) {
      forall k | CoveringAt(p, |voters|, voters, votes, through, k)
                 && forall j | 0 <= j < k :: !CoveringAt(p, |voters|, voters, votes, through, j)
        ensures r == Some(votes[voters[k]].attrs)
      {
        FirstCoveringExact(p, n, voters, votes, through, k);
      }
      if r.Some? {
        var id :| id in voters && id in votes && id != p.self && votes[id].attrs == r.value;
        var k :| 0 <= k < n && voters[k] == id;
        CanFastCommitExact(p, n, votes, r.value, through);
        assert CoveringAt(p, |voters|, voters, votes, through, k);
      }
    }
  }
}
