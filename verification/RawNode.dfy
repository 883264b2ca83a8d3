/**
 The replica's side of one instance, updated in place. Every method does what its function in Handlers
 says, and the entry points keep whatever cluster the replica is part of safe.
 */
module RawNode {
  import opened Types
  import opened Ballots
  import opened Attributes
  import opened Protocol
  import opened Recovery
  import A = Agreement
  import C = Cluster
  import E = Effects
  import FP = FastPath
  import H = Handlers
  import Q = Quorum
  import R = ClusterRuns
  import V = Voting

  /** A cluster that keeps every run's invariant, with replica i in state n and the messages sent by others. */
  ghost predicate PartOf(g: Group, w: C.World, i: ReplicaID, n: H.Node, heard: set<Message>) {
    C.Inv(g, w) && i in w.nodes && w.nodes[i] == n && forall m <- heard :: m in w.net && m.from != i
  }

  /** Whatever cluster the replica is part of, its new state keeps the invariant. */
  ghost predicate Safe(g: Group, i: ReplicaID, n: H.Node, r: H.Node, heard: set<Message>) {
    forall w :: PartOf(g, w, i, n, heard) ==> C.Inv(g, C.Put(w, i, r))
  }

  /** And its record moves forward: no promise is lowered, no status undone, no decided tuple changed. */
  ghost predicate Ahead(g: Group, i: ReplicaID, n: H.Node, r: H.Node, heard: set<Message>) {
    forall w :: PartOf(g, w, i, n, heard) ==> A.Forward(H.Mem(n), H.Mem(r))
  }

  lemma StepAhead(g: Group, w: C.World, i: ReplicaID, r: H.Node)
    requires g.Valid() && C.Inv(g, w) && i in w.nodes && H.Onward(w.nodes[i], r) && C.Inv(g, C.Put(w, i, r))
    ensures A.Forward(H.Mem(w.nodes[i]), H.Mem(r))
  {
    var n, l := w.nodes[i], C.LedgerOf(C.Put(w, i, r));
    assert i in g.Set();
    assert Log(l, i) == r.log;
    if n.log != [] {
      A.LogForward(g, l, i, |n.log| - 1, |r.log| - 1);
    }
  }

  lemma StepSafe(g: Group, n: H.Node, s: R.Step, heard: set<Message>)
    requires g.Valid() && !s.Persisting? && !s.Sending? && !s.Crashing? && (s.Delivering? ==> s.m in heard)
    ensures Safe(g, s.i, n, R.Acts(g, n, s), heard) && Ahead(g, s.i, n, R.Acts(g, n, s), heard)
  {
    var r := R.Acts(g, n, s);
    forall w | PartOf(g, w, s.i, n, heard)
      ensures C.Inv(g, C.Put(w, s.i, r)) && A.Forward(H.Mem(n), H.Mem(r))
    {
      R.ActsKeeps(g, w, s);
      StepAhead(g, w, s.i, r);
    }
  }

  lemma RestartSafe(g: Group, i: ReplicaID, n: H.Node)
    requires g.Valid() && n.durable <= |n.log|
    ensures Safe(g, i, n, H.Restart(g, i, n), {})
  {
    forall w | PartOf(g, w, i, n, {})
      ensures C.Inv(g, C.Put(w, i, H.Restart(g, i, n)))
    {
      R.CrashKeeps(g, w, i);
    }
  }

  class Instance {
    const g: Group
    const self: ReplicaID

    var log: seq<Rec>
    var durable: nat
    var outbox: set<H.Outgoing>
    var phase: H.Phase
    var preOK: FP.Votes
    var accOK: set<ReplicaID>
    var tryOK: set<ReplicaID>
    var prepareOK: Answers

    function State(): H.Node
      reads this
    {
      H.Node(log, durable, outbox, phase, preOK, accOK, tryOK, prepareOK)
    }

    /** Votes and answers are only counted for voters. */
    ghost predicate Valid()
      reads this
    {
      && g.Valid() && self in g.voters && durable <= |log|
      && (forall id <- preOK :: id in g.voters) && (forall id <- prepareOK :: id in g.voters)
    }

    constructor (g: Group, self: ReplicaID)
      requires g.Valid() && self in g.voters
      ensures Valid() && State() == H.NEW_NODE && this.g == g && this.self == self
    {
      this.g, this.self := g, self;
      log, durable, outbox, phase := [], 0, {}, H.Idle;
      preOK, accOK, tryOK, prepareOK := map[], {}, {}, map[];
    }

    /** The record in memory. */
    function Current(): Rec
      reads this
    {
      Previous(log, |log|)
    }

    /** releaseInstanceVolatile. */
    method Release()
      modifies this
      ensures State() == old(State()).(preOK := map[], accOK := {}, tryOK := {}, prepareOK := map[])
    {
      preOK, accOK, tryOK, prepareOK := map[], {}, {}, map[];
    }

    /** A new record replaces the one in memory and is queued for storage. */
    method Store(rec: Rec, next: H.Phase)
      requires Valid()
      modifies this
      ensures Valid() && State() == H.Store(old(State()), rec, next)
    {
      Release();
      log := log + [rec];
      phase := next;
    }

    method Say(m: Message)
      requires Valid()
      modifies this
      ensures Valid() && State() == H.Say(old(State()), m)
    {
      outbox := outbox + {H.Outgoing(m, |log|)};
    }

    method SayCommit()
      requires Valid()
      modifies this
      ensures Valid() && State() == H.SayCommit(old(State()), self)
    {
      Say(Commit(self, Current().ballot, Current().recordBallot, Current().tuple));
    }

    method Propose(t: Tuple, env: H.Local)
      requires Valid()
      modifies this
      ensures Valid() && State() == H.Propose(g, self, old(State()), t, env)
      ensures Safe(g, self, old(State()), State(), {}) && Ahead(g, self, old(State()), State(), {})
    {
      StepSafe(g, State(), R.Proposing(self, t, env), {});
      if self != g.owner || log != [] || t.attrs.seqNo == 0 {
        return;
      }
      Store(Rec(g.Initial(), g.Initial(), PreAccepted, t, true), H.PreAcceptPhase);
      preOK := map[self := FP.Vote(t.attrs, true, FP.CommittedSlots(t.attrs, env.through))];
      Say(PreAccept(self, g.Initial(), t));
    }

    method HandlePreAccept(b: Ballot, t: Tuple, env: H.Local)
      requires Valid()
      modifies this
      ensures Valid() && State() == H.HandlePreAccept(g, self, old(State()), b, t, env)
    {
      var mem := Current();
      if mem.status.Final() {
        if mem.recordBallot != b || mem.tuple.value == t.value {
          SayCommit();
        }
        return;
      }
      if b.Less(mem.ballot) {
        Say(Reject(self, mem.ballot, PreAcceptRound));
        return;
      }
      if log != [] && b == mem.ballot && mem.tuple.value != t.value {
        return;
      }
      if mem.status.Accepted? {
        if b == mem.ballot {
          Say(PreAcceptResp(self, b, mem.tuple.attrs, false, {}));
        }
        return;
      }
      if mem.status.PreAccepted? && b == mem.ballot {
        Say(PreAcceptResp(self, b, mem.tuple.attrs, mem.eligible, FP.CommittedSlots(mem.tuple.attrs, env.through)));
        return;
      }
      var attrs := V.MergeAttrs(env.attrs, t.attrs);
      var initial := b.IsInitialFor(g.owner);
      Store(Rec(b, b, PreAccepted, Tuple(attrs, t.value), initial && attrs == t.attrs), H.Idle);
      Say(PreAcceptResp(self, b, attrs, initial, FP.CommittedSlots(attrs, env.through)));
    }

    method StartAccept(t: Tuple)
      requires Valid()
      modifies this
      ensures Valid() && State() == H.StartAccept(self, old(State()), t)
    {
      if phase.CommittedPhase? {
        return;
      }
      var ballot := Current().ballot;
      Store(Rec(ballot, ballot, Accepted, t, false), H.AcceptPhase);
      accOK := {self};
      Say(Accept(self, ballot, t));
    }

    method CommitRecord(rec: Rec)
      requires Valid()
      modifies this
      ensures Valid() && State() == H.DoCommit(self, old(State()), rec)
    {
      Store(rec.(status := Committed, eligible := false), H.CommittedPhase);
      SayCommit();
    }

    /** maybeFinalizePreAccept. */
    method FinalizePreAccept(env: H.Local)
      requires Valid()
      modifies this
      ensures Valid() && State() == H.FinalizePreAccept(g, self, old(State()), env)
    {
      var mem := Current();
      var p := FP.Proposal(self, mem.tuple.attrs, mem.eligible, mem.ballot.IsInitialFor(g.owner));
      var fast := V.FastCommitAttrs(p, g.voters, preOK, env.through);
      if fast.Some? {
        CommitRecord(mem.(tuple := Tuple(fast.value, mem.tuple.value)));
        return;
      }
      if |preOK| < Q.Slow(|g.voters|) {
        return;
      }
      var still := V.CanStill(p, g.voters, preOK);
      if |preOK| >= Q.Fast(|g.voters|) || !still {
        var attrs := V.AttrsFromVotes(g.voters, preOK);
        StartAccept(Tuple(attrs, mem.tuple.value));
      }
    }

    method HandlePreAcceptResp(from: ReplicaID, b: Ballot, vote: FP.Vote, env: H.Local)
      requires Valid()
      modifies this
      ensures Valid() && State() == H.HandlePreAcceptResp(g, self, old(State()), from, b, vote, env)
    {
      if !phase.PreAcceptPhase? || self != g.owner || Current().ballot.replica != self || b != Current().ballot {
        return;
      }
      if from in preOK || from !in g.voters || |vote.attrs.deps| != |g.voters| {
        return;
      }
      preOK := preOK[from := vote];
      FinalizePreAccept(env);
    }

    method HandleAccept(b: Ballot, t: Tuple)
      requires Valid()
      modifies this
      ensures Valid() && State() == H.HandleAccept(self, old(State()), b, t)
    {
      var mem := Current();
      if mem.status.Final() {
        if mem.recordBallot != b || mem.tuple == t {
          SayCommit();
        }
        return;
      }
      if b.Less(mem.ballot) {
        Say(Reject(self, mem.ballot, AcceptRound));
        return;
      }
      if mem.status.Accepted? && b == mem.ballot && mem.recordBallot == b {
        if mem.tuple == t {
          Say(AcceptResp(self, b, b, mem.tuple.attrs));
        }
        return;
      }
      if mem.status.PreAccepted? && mem.recordBallot == b && mem.tuple.value != t.value {
        return;
      }
      Store(Rec(b, b, Accepted, t, false), H.Idle);
      Say(AcceptResp(self, b, b, t.attrs));
    }

    method HandleAcceptResp(from: ReplicaID, b: Ballot, rb: Ballot, attrs: Attrs)
      requires Valid()
      modifies this
      ensures Valid() && State() == H.HandleAcceptResp(g, self, old(State()), from, b, rb, attrs)
    {
      var mem := Current();
      if !phase.AcceptPhase? || !H.Coordinates(g, self, State()) {
        return;
      }
      if b != mem.ballot || rb != mem.recordBallot || attrs != mem.tuple.attrs || from in accOK || from !in g.voters {
        return;
      }
      accOK := accOK + {from};
      if |accOK| >= Q.Slow(|g.voters|) {
        CommitRecord(mem);
      }
    }

    method HandleCommit(b: Ballot, rb: Ballot, t: Tuple)
      requires Valid()
      modifies this
      ensures Valid() && State() == H.HandleCommit(old(State()), b, rb, t)
    {
      var mem := Current();
      if mem.status.Final() || rb == ZERO {
        return;
      }
      if mem.recordBallot == rb && mem.status.Accepted? && mem.tuple != t {
        return;
      }
      if mem.recordBallot == rb && mem.status.PreAccepted? && mem.tuple.value != t.value {
        return;
      }
      Store(Rec(Higher(mem.ballot, b), rb, Committed, t, false), H.CommittedPhase);
    }

    method HandlePrepare(b: Ballot)
      requires Valid()
      modifies this
      ensures Valid() && State() == H.HandlePrepare(self, old(State()), b)
    {
      var mem := Current();
      if b.Less(mem.ballot) {
        Say(Reject(self, mem.ballot, PrepareRound));
        return;
      }
      if log == [] || mem.ballot.Less(b) {
        Store(mem.(ballot := b), H.Idle);
      }
      Say(PrepareResp(self, b, Current()));
    }

    /** startPrepareFrom. */
    method StartPrepare(base: Ballot)
      requires Valid()
      modifies this
      ensures Valid() && State() == H.StartPrepare(self, old(State()), base)
    {
      var next := Higher(base, Current().ballot).Next(self);
      if next.None? {
        return;
      }
      var rec := Current().(ballot := next.value);
      Store(rec, H.PreparePhase);
      prepareOK := map[self := rec];
      Say(Prepare(self, next.value));
    }

    method HandlePrepareResp(from: ReplicaID, b: Ballot, rec: Rec, env: H.Local)
      requires Valid()
      modifies this
      ensures Valid() && State() == H.HandlePrepareResp(g, self, old(State()), from, b, rec, env)
    {
      var mem := Current();
      if !phase.PreparePhase? || !mem.ballot.IsRecovery() || mem.ballot.replica != self || b.Less(mem.ballot) {
        return;
      }
      if mem.ballot.Less(b) {
        StartPrepare(b);
        return;
      }
      if from in prepareOK || from !in g.voters || (!rec.status.Empty? && rec.recordBallot == ZERO) {
        return;
      }
      prepareOK := prepareOK[from := rec];
      if |prepareOK| >= Q.Slow(|g.voters|) {
        var plan := V.Choose(g, prepareOK, env.attrs, H.FallbackValue(g, env));
        Carry(plan);
      }
    }

    method Carry(plan: Plan)
      requires Valid()
      modifies this
      ensures Valid() && State() == H.Carry(g, self, old(State()), plan)
    {
      match plan {
        case Refuse =>
        case Adopt(rec) => CommitRecord(rec);
        case Accepting(t) => StartAccept(t);
        case Trying(t, witnesses) => StartTry(t, witnesses);
      }
    }

    /** startTryPreAccept. */
    method StartTry(t: Tuple, witnesses: set<ReplicaID>)
      requires Valid()
      modifies this
      ensures Valid() && State() == H.StartTry(g, self, old(State()), t, witnesses)
    {
      if phase.CommittedPhase? {
        return;
      }
      var ballot := Current().ballot;
      Store(Rec(ballot, ballot, PreAccepted, t, false), H.TryPhase);
      tryOK := witnesses + {g.owner};
      if |tryOK| >= Q.Slow(|g.voters|) {
        StartAccept(t);
      } else {
        Say(TryPreAccept(self, ballot, t));
      }
    }

    method HandleTry(b: Ballot, t: Tuple, env: H.Local)
      requires Valid()
      modifies this
      ensures Valid() && State() == H.HandleTry(self, old(State()), b, t, env)
    {
      var mem := Current();
      if mem.status.Final() {
        if mem.recordBallot != b || mem.tuple == t {
          SayCommit();
        }
        return;
      }
      if b.Less(mem.ballot) {
        Say(Reject(self, mem.ballot, TryRound));
        return;
      }
      if mem.status.Accepted? {
        if b == mem.ballot && mem.recordBallot == b && mem.tuple != t {
          return;
        }
        if mem.ballot.Less(b) {
          Store(mem.(ballot := b), H.Idle);
        }
        Say(TryRefused(self, b));
        return;
      }
      if mem.status.PreAccepted? && b == mem.ballot && mem.recordBallot == b {
        if mem.tuple == t {
          Say(TryPreAcceptResp(self, b, t.attrs));
        }
        return;
      }
      if env.conflict {
        Say(TryConflict(self, b));
        return;
      }
      Store(Rec(b, b, PreAccepted, t, false), H.Idle);
      Say(TryPreAcceptResp(self, b, t.attrs));
    }

    method HandleTryResp(from: ReplicaID, b: Ballot, attrs: Attrs)
      requires Valid()
      modifies this
      ensures Valid() && State() == H.HandleTryResp(g, self, old(State()), from, b, attrs)
    {
      var mem := Current();
      if !phase.TryPhase? || !H.Coordinates(g, self, State()) || b != mem.ballot || attrs != mem.tuple.attrs {
        return;
      }
      if from in tryOK || from !in g.voters {
        return;
      }
      tryOK := tryOK + {from};
      if |tryOK| >= Q.Slow(|g.voters|) {
        StartAccept(mem.tuple);
      }
    }

    method HandleTryConflict(env: H.Local)
      requires Valid()
      modifies this
      ensures Valid() && State() == H.HandleTryConflict(g, self, old(State()), env)
    {
      if phase.TryPhase? && H.Coordinates(g, self, State()) && env.conflict {
        var mem := Current();
        var attrs := V.MergeAttrs(env.attrs, mem.tuple.attrs);
        StartAccept(Tuple(attrs, mem.tuple.value));
      }
    }

    method HandleTryRefused(b: Ballot)
      requires Valid()
      modifies this
      ensures Valid() && State() == H.HandleTryRefused(g, self, old(State()), b)
    {
      if phase.TryPhase? && H.Coordinates(g, self, State()) && b == Current().ballot {
        StartPrepare(b);
      }
    }

    method HandleReject(round: Round, hint: Ballot)
      requires Valid()
      modifies this
      ensures Valid() && State() == H.HandleReject(g, self, old(State()), round, hint)
    {
      if H.Awaits(g, self, State(), round) && Current().ballot.Less(hint) {
        StartPrepare(hint);
      }
    }

    /** Step: one received message. */
    method Handle(m: Message, env: H.Local)
      requires Valid()
      modifies this
      ensures Valid() && State() == H.Handle(g, self, old(State()), m, env)
      ensures Safe(g, self, old(State()), State(), {m}) && Ahead(g, self, old(State()), State(), {m})
      ensures m.Commit? && !old(Current()).status.Final() && m.recordBallot != ZERO
              && !E.CommitContradicts(old(Current()), m.recordBallot, m.tuple) ==>
                Current().status.Committed? && Current().recordBallot == m.recordBallot && Current().tuple == m.tuple
    {
      if m.Commit? {
        E.CommitLearned(g, self, State(), m, env);
      }
      StepSafe(g, State(), R.Delivering(self, m, env), {m});
      match m {
        case PreAccept(_, b, t) => HandlePreAccept(b, t, env);
        case PreAcceptResp(from, b, attrs, eligible, committed) => HandlePreAcceptResp(from, b,
            FP.Vote(attrs, eligible, committed), env);
        case Prepare(_, b) => HandlePrepare(b);
        case PrepareResp(from, b, rec) => HandlePrepareResp(from, b, rec, env);
        case Accept(_, b, t) => HandleAccept(b, t);
        case AcceptResp(from, b, rb, attrs) => HandleAcceptResp(from, b, rb, attrs);
        case Commit(_, b, rb, t) => HandleCommit(b, rb, t);
        case TryPreAccept(_, b, t) => HandleTry(b, t, env);
        case TryPreAcceptResp(from, b, attrs) => HandleTryResp(from, b, attrs);
        case TryConflict(_, _) => HandleTryConflict(env);
        case TryRefused(_, b) => HandleTryRefused(b);
        case Reject(_, hint, round) => HandleReject(round, hint);
      }
    }

    method Recover()
      requires Valid()
      modifies this
      ensures Valid() && State() == H.Recover(self, old(State()))
      ensures Safe(g, self, old(State()), State(), {}) && Ahead(g, self, old(State()), State(), {})
    {
      StepSafe(g, State(), R.Recovering(self), {});
      if !Current().status.Final() && !phase.PreparePhase? {
        StartPrepare(Current().ballot);
      }
    }

    method GiveUpFast()
      requires Valid()
      modifies this
      ensures Valid() && State() == H.GiveUpFast(g, self, old(State()))
      ensures Safe(g, self, old(State()), State(), {}) && Ahead(g, self, old(State()), State(), {})
    {
      StepSafe(g, State(), R.GivingUpFast(self), {});
      if phase.PreAcceptPhase? && |preOK| >= Q.Slow(|g.voters|) {
        var attrs := V.AttrsFromVotes(g.voters, preOK);
        StartAccept(Tuple(attrs, Current().tuple.value));
      }
    }

    method Retransmit()
      requires Valid()
      modifies this
      ensures Valid() && State() == H.Retransmit(g, self, old(State()))
      ensures Safe(g, self, old(State()), State(), {}) && Ahead(g, self, old(State()), State(), {})
    {
      StepSafe(g, State(), R.Retransmitting(self), {});
      var mem := Current();
      if phase.PreAcceptPhase? && self == g.owner && mem.ballot.IsInitialFor(self) {
        Say(PreAccept(self, mem.ballot, mem.tuple));
      } else if phase.PreparePhase? {
        Say(Prepare(self, mem.ballot));
      } else if phase.TryPhase? {
        Say(TryPreAccept(self, mem.ballot, mem.tuple));
      } else if phase.AcceptPhase? && mem.ballot.replica == self {
        Say(Accept(self, mem.ballot, mem.tuple));
      }
    }

    method MarkExecuted()
      requires Valid()
      modifies this
      ensures Valid() && State() == H.MarkExecuted(old(State()))
      ensures Safe(g, self, old(State()), State(), {}) && Ahead(g, self, old(State()), State(), {})
    {
      StepSafe(g, State(), R.Executing(self), {});
      if Current().status.Committed? {
        log := log + [Current().(status := Executed)];
      }
    }

    /** A crash and the restart from storage. */
    method Restart()
      requires Valid()
      modifies this
      ensures Valid() && State() == H.Restart(g, self, old(State()))
      ensures log == old(log[..durable]) && Safe(g, self, old(State()), State(), {})
    {
      RestartSafe(g, self, State());
      log, outbox, phase := log[..durable], {}, H.Idle;
      Release();
      var mem := Current();
      if mem.status.Final() {
        phase := H.CommittedPhase;
      } else if mem.ballot.IsRecovery() && mem.ballot.replica == self {
        phase, prepareOK := H.PreparePhase, map[self := mem];
      } else if mem.status.Accepted? {
        phase := H.AcceptPhase;
        if self == g.owner && mem.ballot.replica == self {
          accOK := {self};
        }
      } else if mem.status.PreAccepted? {
        phase := H.PreAcceptPhase;
        if self == g.owner && mem.ballot.IsInitialFor(self) {
          preOK := map[self := FP.Vote(mem.tuple.attrs, false, {})];
        }
      }
    }
  }
}
