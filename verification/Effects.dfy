/**
 What a delivered message or a timer brings about at a replica: the record it holds afterwards, the
 round it is in, and what it has to say. Safety holds of a replica that does nothing; this does not.
 */
module Effects {
  import opened Types
  import opened Ballots
  import opened Attributes
  import opened Protocol
  import opened Handlers
  import FP = FastPath
  import Q = Quorum

  /** The replica only queues one message, behind every record it has. */
  ghost predicate Says(n: Node, r: Node, m: Message) {
    r == n.(outbox := n.outbox + {Outgoing(m, |n.log|)})
  }

  /** The replica queues one record, and behind it one message. */
  ghost predicate Stores(n: Node, r: Node, rec: Rec, m: Message) {
    && r.log == n.log + [rec] && r.durable == n.durable
    && r.outbox == n.outbox + {Outgoing(m, |n.log| + 1)}
  }

  /** No round is in progress and no vote is counted. */
  ghost predicate Resting(r: Node) {
    r.phase.Idle? && r.preOK == map[] && r.accOK == {} && r.tryOK == {} && r.prepareOK == map[]
  }

  /** The least attributes with a sequence number that cover both. */
  ghost predicate IsJoin(r: Attrs, a: Attrs, b: Attrs) {
    && Cover(a, r) && Cover(b, r) && r.seqNo >= 1
    && forall c: Attrs :: Cover(a, c) && Cover(b, c) && c.seqNo >= 1 ==> Cover(r, c)
  }

  lemma MergeJoins(a: Attrs, b: Attrs)
    ensures IsJoin(Merge(a, b), a, b)
  {
    forall c: Attrs
      ensures Cover(a, c) && Cover(b, c) && c.seqNo >= 1 ==> Cover(Merge(a, b), c)
    {
      MergeIsLeast(a, b, c);
    }
    MergeIsLeast(a, b, a);
  }

  /** Exactly the dependencies whose whole prefix the replica has seen committed. */
  ghost predicate SlotsSeen(slots: set<nat>, attrs: Attrs, through: seq<InstanceNum>) {
    forall i: nat :: i in slots <==> i < |attrs.deps| && i < |through| && 0 < attrs.deps[i] <= through[i]
  }

  /** A final record answers with what it decided. */
  function Decision(self: ReplicaID, mem: Rec): Message {
    Commit(self, mem.ballot, mem.recordBallot, mem.tuple)
  }

  // Requests.

  /** PreAccept, on a replica without a record at this ballot and without a promise above it. */
  lemma PreAcceptStored(g: Group, self: ReplicaID, n: Node, m: Message, env: Local)
    requires |g.voters| >= 1 && m.PreAccept? && !Mem(n).status.Final() && !Mem(n).status.Accepted?
    requires n.log == [] || Mem(n).ballot.Less(m.ballot)
             || (Mem(n).status.Empty? && m.tuple.value == Mem(n).tuple.value)
    requires !m.ballot.Less(Mem(n).ballot)
    ensures var r := Handle(g, self, n, m, env);
            && Resting(r) && r.log != []
            && var rec := r.log[|r.log| - 1];
            && IsJoin(rec.tuple.attrs, env.attrs, m.tuple.attrs) && rec.tuple.value == m.tuple.value
            && rec.status.PreAccepted? && rec.ballot == rec.recordBallot == m.ballot
            && (rec.eligible <==> m.ballot.IsInitialFor(g.owner) && rec.tuple.attrs == m.tuple.attrs)
            && exists slots :: SlotsSeen(slots, rec.tuple.attrs, env.through)
                 && Stores(n, r, rec,
                           PreAcceptResp(self, m.ballot, rec.tuple.attrs, m.ballot.IsInitialFor(g.owner), slots))
  {
    MergeJoins(env.attrs, m.tuple.attrs);
    var slots := FP.CommittedSlots(Merge(env.attrs, m.tuple.attrs), env.through);
    assert SlotsSeen(slots, Merge(env.attrs, m.tuple.attrs), env.through);
  }

  /** PreAccept, where it is not new: repeated, overtaken, rejected, or already decided. */
  lemma PreAcceptAnswered(g: Group, self: ReplicaID, n: Node, m: Message, env: Local)
    requires |g.voters| >= 1 && m.PreAccept?
    ensures var r, mem := Handle(g, self, n, m, env), Mem(n);
            && (mem.status.Final() ==>
                  if mem.recordBallot == m.ballot && mem.tuple.value != m.tuple.value then r == n
                  else Says(n, r, Decision(self, mem)))
            && (!mem.status.Final() && m.ballot.Less(mem.ballot) ==>
                Says(n, r, Reject(self, mem.ballot, PreAcceptRound)))
            && (!mem.status.Final() && m.ballot == mem.ballot && n.log != [] && mem.tuple.value != m.tuple.value ==>
                r == n)
            && (mem.status.PreAccepted? && m.ballot == mem.ballot && mem.tuple.value == m.tuple.value ==>
                  exists slots :: SlotsSeen(slots, mem.tuple.attrs, env.through)
                    && Says(n, r, PreAcceptResp(self, m.ballot, mem.tuple.attrs, mem.eligible, slots)))
            && (mem.status.Accepted? && m.ballot == mem.ballot && mem.tuple.value == m.tuple.value ==>
                  Says(n, r, PreAcceptResp(self, m.ballot, mem.tuple.attrs, false, {})))
            && (mem.status.Accepted? && mem.ballot.Less(m.ballot) ==> r == n)
  {
    var slots := FP.CommittedSlots(Mem(n).tuple.attrs, env.through);
    assert SlotsSeen(slots, Mem(n).tuple.attrs, env.through);
    assert n.log == [] ==> Mem(n).status.Empty?;
  }

  /** Prepare at or above the promise is promised and answered with the record held; below it, it is rejected. */
  lemma PrepareAnswered(g: Group, self: ReplicaID, n: Node, m: Message, env: Local)
    requires |g.voters| >= 1 && m.Prepare?
    ensures var r, mem := Handle(g, self, n, m, env), Mem(n);
            && (m.ballot.Less(mem.ballot) ==> Says(n, r, Reject(self, mem.ballot, PrepareRound)))
            && (!m.ballot.Less(mem.ballot) ==>
                  var shown := Rec(m.ballot, mem.recordBallot, mem.status, mem.tuple, mem.eligible);
                  if n.log != [] && m.ballot == mem.ballot then Says(n, r, PrepareResp(self, m.ballot, shown))
                  else Stores(n, r, shown, PrepareResp(self, m.ballot, shown)) && Resting(r))
  {
  }

  /** The Accept contradicts what is held at its ballot. */
  predicate AcceptContradicts(mem: Rec, b: Ballot, t: Tuple) {
    && mem.recordBallot == b
    && (|| (mem.status.Final() && mem.tuple != t)
        || (mem.status.Accepted? && mem.ballot == b && mem.tuple != t)
        || (mem.status.PreAccepted? && mem.tuple.value != t.value))
  }

  /** Accept at or above the promise that contradicts nothing is stored and acknowledged. */
  lemma AcceptAnswered(g: Group, self: ReplicaID, n: Node, m: Message, env: Local)
    requires |g.voters| >= 1 && m.Accept?
    ensures var r, mem, b, t := Handle(g, self, n, m, env), Mem(n), m.ballot, m.tuple;
            && (mem.status.Final() && !AcceptContradicts(mem, b, t) ==> Says(n, r, Decision(self, mem)))
            && (!mem.status.Final() && b.Less(mem.ballot) ==> Says(n, r, Reject(self, mem.ballot, AcceptRound)))
            && (AcceptContradicts(mem, b, t) && !b.Less(mem.ballot) ==> r == n)
            && (!mem.status.Final() && !b.Less(mem.ballot) && !AcceptContradicts(mem, b, t) ==>
                  if mem.status.Accepted? && mem.ballot == mem.recordBallot == b
                  then Says(n, r, AcceptResp(self, b, b, t.attrs))
                  else Stores(n, r, Rec(b, b, Accepted, t, false), AcceptResp(self, b, b, t.attrs)) && Resting(r))
  {
  }

  /** The Commit contradicts what is held at its record ballot. */
  predicate CommitContradicts(mem: Rec, rb: Ballot, t: Tuple) {
    mem.recordBallot == rb
    && ((mem.status.Accepted? && mem.tuple != t) || (mem.status.PreAccepted? && mem.tuple.value != t.value))
  }

  /** A Commit is learned, unless the replica knows a decision or the Commit contradicts its record. */
  lemma CommitLearned(g: Group, self: ReplicaID, n: Node, m: Message, env: Local)
    requires |g.voters| >= 1 && m.Commit?
    ensures var r, mem := Handle(g, self, n, m, env), Mem(n);
            if mem.status.Final() || m.recordBallot == ZERO || CommitContradicts(mem, m.recordBallot, m.tuple)
                then r == n
            else
              && |r.log| == |n.log| + 1 && n.log <= r.log && r.outbox == n.outbox && r.durable == n.durable
              && var rec := r.log[|n.log|];
              && rec.status.Committed? && rec.recordBallot == m.recordBallot && rec.tuple == m.tuple && !rec.eligible
              && !rec.ballot.Less(mem.ballot) && !rec.ballot.Less(m.ballot) && rec.ballot in {mem.ballot, m.ballot}
              && r.phase.CommittedPhase?
  {
  }

  /** A Try request is answered with the decision, rejected, refused, reported as a conflict, or confirmed. */
  lemma TryAnswered(g: Group, self: ReplicaID, n: Node, m: Message, env: Local)
    requires |g.voters| >= 1 && m.TryPreAccept?
    ensures var r, mem, b, t := Handle(g, self, n, m, env), Mem(n), m.ballot, m.tuple;
            var held := mem.recordBallot == b && mem.ballot == b;
            if mem.status.Final() then
              if mem.recordBallot == b && mem.tuple != t then r == n else Says(n, r, Decision(self, mem))
            else if b.Less(mem.ballot) then Says(n, r, Reject(self, mem.ballot, TryRound))
            else if (mem.status.Accepted? || mem.status.PreAccepted?) && held && mem.tuple != t then r == n
            else if mem.status.Accepted? && mem.ballot == b then Says(n, r, TryRefused(self, b))
            else if mem.status.Accepted? then Stores(n, r, mem.(ballot := b), TryRefused(self, b)) && Resting(r)
            else if mem.status.PreAccepted? && held then Says(n, r, TryPreAcceptResp(self, b, t.attrs))
            else if env.conflict then Says(n, r, TryConflict(self, b))
            else Stores(n, r, Rec(b, b, PreAccepted, t, false), TryPreAcceptResp(self, b, t.attrs)) && Resting(r)
  {
  }

  // The owner's first round.

  /** attrs is the least cover of the counted votes. */
  ghost predicate JoinsVotes(attrs: Attrs, voters: seq<ReplicaID>, votes: FP.Votes) {
    && (forall id <- voters | id in votes :: Cover(votes[id].attrs, attrs))
    && forall c: Attrs :: c.seqNo >= 1 && CoversVotes(c, voters, votes) ==> Cover(attrs, c)
  }

  ghost predicate CoversVotes(c: Attrs, voters: seq<ReplicaID>, votes: FP.Votes) {
    forall id <- voters | id in votes :: Cover(votes[id].attrs, c)
  }

  lemma CoverTransitive(a: Attrs, b: Attrs, c: Attrs)
    requires Cover(a, b) && Cover(b, c)
    ensures Cover(a, c)
  {
    forall i | 0 <= i < |a.deps|
      ensures a.deps[i] <= c.deps[i]
    {
      assert a.deps[i] <= b.deps[i] <= c.deps[i];
    }
  }

  lemma {:induction false} MergedJoins(voters: seq<ReplicaID>, votes: FP.Votes)
    ensures JoinsVotes(MergedVotes(voters, votes), voters, votes)
  {
    if voters != [] {
      var init, id := voters[..|voters| - 1], voters[|voters| - 1];
      var prior, merged := MergedVotes(init, votes), MergedVotes(voters, votes);
      MergedJoins(init, votes);
      assert forall v <- voters :: v in init || v == id;
      assert id in voters && forall v <- init :: v in voters;
      if id in votes {
        MergeIsLeast(prior, votes[id].attrs, merged);
        forall v <- voters | v in votes
          ensures Cover(votes[v].attrs, merged)
        {
          if v in init {
            CoverTransitive(votes[v].attrs, prior, merged);
          }
        }
        forall c: Attrs | c.seqNo >= 1 && CoversVotes(c, voters, votes)
          ensures Cover(merged, c)
        {
          assert CoversVotes(c, init, votes);
          MergeIsLeast(prior, votes[id].attrs, c);
        }
      } else {
        forall c: Attrs | c.seqNo >= 1 && CoversVotes(c, voters, votes)
          ensures Cover(merged, c)
        {
          assert CoversVotes(c, init, votes);
        }
      }
    }
  }

  /** The replica starts an Accept round for t at its ballot, with its own vote. */
  ghost predicate StartsAccept(self: ReplicaID, n: Node, r: Node, t: Tuple) {
    var b := Mem(n).ballot;
    && Stores(n, r, Rec(b, b, Accepted, t, false), Accept(self, b, t)) && r.phase.AcceptPhase? && r.accOK == {self}
    && r.preOK == map[] && r.tryOK == {} && r.prepareOK == map[]
  }

  /** The replica commits t, at the ballots given, and says so. */
  ghost predicate CommitsTuple(self: ReplicaID, n: Node, r: Node, b: Ballot, rb: Ballot, t: Tuple) {
    Stores(n, r, Rec(b, rb, Committed, t, false), Commit(self, b, rb, t)) && r.phase.CommittedPhase?
  }

  /** A reply the owner counts: for its round, from a voter that has not answered, of the right width. */
  predicate CountsReply(g: Group, self: ReplicaID, n: Node, m: Message)
    requires m.PreAcceptResp?
  {
    && n.phase.PreAcceptPhase? && self == g.owner && Mem(n).ballot.replica == self && m.ballot == Mem(n).ballot
    && m.from !in n.preOK && m.from in g.voters && |m.attrs.deps| == |g.voters|
  }

  /**
   A counted reply commits what a fast quorum agrees on, the owner's attributes first; else, with a
   slow quorum and no hope or a full fast quorum of replies, the least cover of all replies is put to
   an Accept round; else the owner waits.
   */
  lemma ReplyCounted(g: Group, self: ReplicaID, n: Node, m: Message, env: Local)
    requires |g.voters| >= 1 && m.PreAcceptResp?
    ensures var r, mem := Handle(g, self, n, m, env), Mem(n);
            var votes := n.preOK[m.from := FP.Vote(m.attrs, m.eligible, m.committed)];
            var p := FP.Proposal(self, mem.tuple.attrs, mem.eligible, mem.ballot.IsInitialFor(g.owner));
            var fast := FP.FastCommitAttrs(p, g.voters, votes, env.through);
            if !CountsReply(g, self, n, m) then r == n
            else if fast.Some? then
              CommitsTuple(self, n, r, mem.ballot, mem.recordBallot, Tuple(fast.value, mem.tuple.value))
            else if |votes| < Q.Slow(|g.voters|) || (|votes| < Q.Fast(|g.voters|) && FP.CanStill(p, |g.voters|, votes))
            then r == n.(preOK := votes)
            else exists attrs :: JoinsVotes(attrs, g.voters, votes)
                   && StartsAccept(self, n, r, Tuple(attrs, mem.tuple.value))
  {
    var votes := n.preOK[m.from := FP.Vote(m.attrs, m.eligible, m.committed)];
    MergedJoins(g.voters, votes);
  }

  /** The pre-accept timer, with a slow quorum of replies, puts their least cover to an Accept round. */
  lemma FastGivenUp(g: Group, self: ReplicaID, n: Node)
    ensures var r := GiveUpFast(g, self, n);
            if !n.phase.PreAcceptPhase? || |n.preOK| < Q.Slow(|g.voters|) then r == n
            else exists attrs :: JoinsVotes(attrs, g.voters, n.preOK)
                   && StartsAccept(self, n, r, Tuple(attrs, Mem(n).tuple.value))
  {
    MergedJoins(g.voters, n.preOK);
  }

  lemma ProposalMade(g: Group, self: ReplicaID, n: Node, t: Tuple, env: Local)
    ensures var r, b := Propose(g, self, n, t, env), g.Initial();
            if self != g.owner || n.log != [] || t.attrs.seqNo == 0 then r == n
            else
              && Stores(n, r, Rec(b, b, PreAccepted, t, true), PreAccept(self, b, t)) && r.phase.PreAcceptPhase?
              && r.accOK == {} && r.tryOK == {} && r.prepareOK == map[] && r.preOK.Keys == {self}
              && r.preOK[self].attrs == t.attrs && r.preOK[self].eligible
              && SlotsSeen(r.preOK[self].committed, t.attrs, env.through)
  {
  }

  // Acknowledgements.

  /** The replica runs the Accept or Try round of the instance. */
  predicate Leads(g: Group, self: ReplicaID, n: Node) {
    self == g.owner || (Mem(n).ballot.replica == self && (Mem(n).ballot.epoch != 0 || Mem(n).ballot.number != 0))
  }

  /** The acknowledgement that completes a slow quorum commits the accepted tuple; one before it is counted. */
  lemma AckCounted(g: Group, self: ReplicaID, n: Node, m: Message, env: Local)
    requires |g.voters| >= 1 && m.AcceptResp?
    ensures var r, mem := Handle(g, self, n, m, env), Mem(n);
            var counts := n.phase.AcceptPhase? && Leads(g, self, n) && m.ballot == mem.ballot
              && m.recordBallot == mem.recordBallot && m.attrs == mem.tuple.attrs && m.from !in n.accOK
              && m.from in g.voters;
            if !counts then r == n
            else if |n.accOK| + 1 >= Q.Slow(|g.voters|) then
              CommitsTuple(self, n, r, mem.ballot, mem.recordBallot, mem.tuple)
            else r == n.(accOK := n.accOK + {m.from})
  {
  }

  /** The confirmation that completes a slow quorum puts the tried tuple to an Accept round. */
  lemma ConfirmationCounted(g: Group, self: ReplicaID, n: Node, m: Message, env: Local)
    requires |g.voters| >= 1 && m.TryPreAcceptResp?
    ensures var r, mem := Handle(g, self, n, m, env), Mem(n);
            var counts := n.phase.TryPhase? && Leads(g, self, n) && m.ballot == mem.ballot && m.attrs == mem.tuple.attrs
              && m.from !in n.tryOK && m.from in g.voters;
            if !counts then r == n
            else if |n.tryOK| + 1 >= Q.Slow(|g.voters|) then StartsAccept(self, n, r, mem.tuple)
            else r == n.(tryOK := n.tryOK + {m.from})
  {
  }

  /** A conflict met by a Try round is joined to the tried attributes and put to an Accept round. */
  lemma ConflictJoined(g: Group, self: ReplicaID, n: Node, m: Message, env: Local)
    requires |g.voters| >= 1 && m.TryConflict?
    ensures var r, mem := Handle(g, self, n, m, env), Mem(n);
            if !n.phase.TryPhase? || !Leads(g, self, n) || !env.conflict then r == n
            else exists attrs :: IsJoin(attrs, env.attrs, mem.tuple.attrs)
                   && StartsAccept(self, n, r, Tuple(attrs, mem.tuple.value))
  {
    MergeJoins(env.attrs, Mem(n).tuple.attrs);
  }

  // New ballots.

  /** The replica takes a ballot of its own above base and above its promise, and asks for promises; or none is left. */
  ghost predicate Prepares(self: ReplicaID, n: Node, r: Node, base: Ballot) {
    var mem := Mem(n);
    if r == n then Spent(base) || Spent(mem.ballot)
    else exists b :: PreparesAt(self, n, r, base, b)
  }

  ghost predicate PreparesAt(self: ReplicaID, n: Node, r: Node, base: Ballot, b: Ballot) {
    var rec := Mem(n).(ballot := b);
    && b.replica == self && base.Less(b) && Mem(n).ballot.Less(b) && (b.epoch != 0 || b.number != 0)
    && (b.epoch <= base.epoch + 1 || b.epoch <= Mem(n).ballot.epoch + 1)
    && Stores(n, r, rec, Prepare(self, b)) && r.phase.PreparePhase? && r.prepareOK == map[self := rec]
    && r.preOK == map[] && r.accOK == {} && r.tryOK == {}
  }

  predicate Spent(b: Ballot) {
    b.epoch == MAX_U64 && b.number == MAX_U64
  }

  lemma StartPrepares(self: ReplicaID, n: Node, base: Ballot)
    ensures Prepares(self, n, StartPrepare(self, n, base), base)
  {
    var next := Higher(base, Mem(n).ballot).Next(self);
    if next.Some? {
      assert PreparesAt(self, n, StartPrepare(self, n, base), base, next.value);
    }
  }

  /** A rejection of the round in progress with a higher promise starts a ballot above it. */
  lemma RejectionHeeded(g: Group, self: ReplicaID, n: Node, m: Message, env: Local)
    requires |g.voters| >= 1 && m.Reject?
    ensures var r, mem := Handle(g, self, n, m, env), Mem(n);
            var awaited := match m.round
              case PreAcceptRound => n.phase.PreAcceptPhase? && self == g.owner && mem.ballot.replica == self
              case PrepareRound =>
                n.phase.PreparePhase? && mem.ballot.replica == self && (mem.ballot.epoch != 0 || mem.ballot.number != 0)
              case TryRound => n.phase.TryPhase? && Leads(g, self, n)
              case AcceptRound => n.phase.AcceptPhase? && Leads(g, self, n);
            if awaited && mem.ballot.Less(m.ballot) then Prepares(self, n, r, m.ballot) else r == n
  {
    StartPrepares(self, n, m.ballot);
  }

  /** A Try round refused for an accepted record prepares again. */
  lemma RefusalHeeded(g: Group, self: ReplicaID, n: Node, m: Message, env: Local)
    requires |g.voters| >= 1 && m.TryRefused?
    ensures var r, mem := Handle(g, self, n, m, env), Mem(n);
            if n.phase.TryPhase? && Leads(g, self, n) && m.ballot == mem.ballot then Prepares(self, n, r, m.ballot)
            else r == n
  {
    StartPrepares(self, n, m.ballot);
  }

  /** The recovery timer prepares an undecided instance that is not being prepared. */
  lemma RecoveryStarted(self: ReplicaID, n: Node)
    ensures if Mem(n).status.Final() || n.phase.PreparePhase? then Recover(self, n) == n
            else Prepares(self, n, Recover(self, n), Mem(n).ballot)
  {
    StartPrepares(self, n, Mem(n).ballot);
  }

  // The rest.

  /** A retry timer repeats the request of the round in progress. */
  lemma RequestRepeated(g: Group, self: ReplicaID, n: Node)
    ensures var r, mem := Retransmit(g, self, n), Mem(n);
            && (n.phase.PreparePhase? ==> Says(n, r, Prepare(self, mem.ballot)))
            && (n.phase.TryPhase? ==> Says(n, r, TryPreAccept(self, mem.ballot, mem.tuple)))
            && (n.phase.AcceptPhase? ==>
                  if mem.ballot.replica == self then Says(n, r, Accept(self, mem.ballot, mem.tuple)) else r == n)
            && (n.phase.PreAcceptPhase? ==>
                  if self == g.owner && mem.ballot.IsInitialFor(self)
                      then Says(n, r, PreAccept(self, mem.ballot, mem.tuple))
                  else r == n)
            && (n.phase.Idle? || n.phase.CommittedPhase? ==> r == n)
  {
  }

  /** A restart keeps the durable records, says nothing, and takes the round up again from the last record. */
  lemma RestartResumes(g: Group, self: ReplicaID, n: Node)
    requires n.durable <= |n.log|
    ensures var r, mem := Restart(g, self, n), Previous(n.log, n.durable);
            && r.log == n.log[..n.durable] && r.durable == n.durable && r.outbox == {} && r.tryOK == {}
            && (mem.status.Final() <==> r.phase.CommittedPhase?)
            && (r.phase.PreparePhase? <==>
                  !mem.status.Final() && mem.ballot.replica == self
                      && (mem.ballot.epoch != 0 || mem.ballot.number != 0))
            && r.prepareOK == (if r.phase.PreparePhase? then map[self := mem] else map[])
            && (r.phase.AcceptPhase? <==> mem.status.Accepted? && !r.phase.PreparePhase?)
            && (r.phase.PreAcceptPhase? <==> mem.status.PreAccepted? && !r.phase.PreparePhase?)
            && r.accOK == (if r.phase.AcceptPhase? && self == g.owner == mem.ballot.replica then {self} else {})
            && r.preOK == (if r.phase.PreAcceptPhase? && self == g.owner && mem.ballot.IsInitialFor(self)
                           then map[self := FP.Vote(mem.tuple.attrs, false, {})] else map[])
  {
    assert n.durable > 0 ==> n.log[..n.durable][n.durable - 1] == n.log[n.durable - 1];
  }
}
