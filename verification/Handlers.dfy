/** What a replica does with one instance when a message or a timer arrives, as functions of its state. */
module Handlers {
  import opened Types
  import opened Ballots
  import opened Attributes
  import opened Protocol
  import opened Recovery
  import FP = FastPath
  import Q = Quorum

  datatype Phase = Idle | PreAcceptPhase | PreparePhase | TryPhase | AcceptPhase | CommittedPhase

  /** A message and the number of queued records that must be durable before it may leave. */
  datatype Outgoing = Outgoing(m: Message, after: nat)

  /** The queued records, how many of them are durable, the queued messages, and the volatile round state. */
  datatype Node = Node(
    log: seq<Rec>, durable: nat, outbox: set<Outgoing>,
    phase: Phase, preOK: FP.Votes, accOK: set<ReplicaID>, tryOK: set<ReplicaID>, prepareOK: Answers)

  /**
   What the surroundings contribute: locally computed attributes, committed prefixes, a conflict
   found by a Try, and the control payload of a reference a known voter plan reserves, if it has one.
   */
  datatype Local = Local(attrs: Attrs, through: seq<InstanceNum>, conflict: bool, control: Option<Option<seq<nat>>>)

  /** What an empty survey is completed with: a no-op, or the membership command of a reserved reference. */
  function FallbackValue(g: Group, env: Local): (r: Option<Value>)
    ensures r.Some? ==> Fallback(g, r.value)
    ensures r.None? ==> g.reserved
  {
    if !g.reserved || env.control.None? then Some(NoOp)
    else if env.control.value.None? then None
    else Some(Entry(MEMBERSHIP, env.control.value.value))
  }

  const NEW_NODE := Node([], 0, {}, Idle, map[], {}, {}, map[])

  /** Nothing queued is dropped: records and messages are only added, and persisting is not a handler's business. */
  ghost predicate Onward(n: Node, r: Node) {
    n.log <= r.log && r.durable == n.durable && n.outbox <= r.outbox
  }

  function Mem(n: Node): Rec {
    Previous(n.log, |n.log|)
  }

  /** Queue a record and enter a phase with empty round state. */
  function Store(n: Node, rec: Rec, phase: Phase): (r: Node)
    ensures Onward(n, r)
  {
    Node(n.log + [rec], n.durable, n.outbox, phase, map[], {}, {}, map[])
  }

  /** Queue a message behind every record queued so far. */
  function Say(n: Node, m: Message): (r: Node)
    ensures Onward(n, r)
  {
    n.(outbox := n.outbox + {Outgoing(m, |n.log|)})
  }

  function Propose(g: Group, self: ReplicaID, n: Node, t: Tuple, env: Local): (r: Node)
    ensures Onward(n, r)
  {
    if self != g.owner || n.log != [] || t.attrs.seqNo == 0 then n
    else
      var rec := Rec(g.Initial(), g.Initial(), PreAccepted, t, true);
      var stored := Store(n, rec, PreAcceptPhase);
      Say(stored.(preOK := map[self := FP.Vote(t.attrs, true, FP.CommittedSlots(t.attrs, env.through))]),
          PreAccept(self, g.Initial(), t))
  }

  function SayCommit(n: Node, self: ReplicaID): (r: Node)
    ensures Onward(n, r)
  {
    Say(n, Commit(self, Mem(n).ballot, Mem(n).recordBallot, Mem(n).tuple))
  }

  /** handlePreAccept. */
  function HandlePreAccept(g: Group, self: ReplicaID, n: Node, b: Ballot, t: Tuple, env: Local): (r: Node)
    ensures Onward(n, r)
  {
    var mem := Mem(n);
    if mem.status.Final() then
      if mem.recordBallot == b && mem.tuple.value != t.value then n else SayCommit(n, self)
    else if b.Less(mem.ballot) then Say(n, Reject(self, mem.ballot, PreAcceptRound))
    else if n.log != [] && b == mem.ballot && mem.tuple.value != t.value then n
    else if mem.status.Accepted? then
      if b == mem.ballot then Say(n, PreAcceptResp(self, b, mem.tuple.attrs, false, {})) else n
    else if mem.status.PreAccepted? && b == mem.ballot then
      Say(n, PreAcceptResp(self, b, mem.tuple.attrs, mem.eligible, FP.CommittedSlots(mem.tuple.attrs, env.through)))
    else
      var attrs := Merge(env.attrs, t.attrs);
      var initial := b.IsInitialFor(g.owner);
      var rec := Rec(b, b, PreAccepted, Tuple(attrs, t.value), initial && attrs == t.attrs);
      Say(Store(n, rec, Idle), PreAcceptResp(self, b, attrs, initial, FP.CommittedSlots(attrs, env.through)))
  }

  function MergedVotes(voters: seq<ReplicaID>, votes: FP.Votes): (attrs: Attrs)
    ensures (exists id <- voters :: id in votes) ==> attrs.seqNo >= 1
  {
    if voters == [] then NO_ATTRS
    else
      var prior := MergedVotes(voters[..|voters| - 1], votes);
      var id := voters[|voters| - 1];
      assert forall v <- voters :: v in voters[..|voters| - 1] || v == id;
      if id in votes then Merge(prior, votes[id].attrs) else prior
  }

  /** startAccept, for two or more voters. */
  function StartAccept(self: ReplicaID, n: Node, t: Tuple): (r: Node)
    ensures Onward(n, r)
  {
    var mem := Mem(n);
    if n.phase.CommittedPhase? then n
    else
      var stored := Store(n, Rec(mem.ballot, mem.ballot, Accepted, t, false), AcceptPhase);
      Say(stored.(accOK := {self}), Accept(self, mem.ballot, t))
  }

  /** commit. */
  function DoCommit(self: ReplicaID, n: Node, rec: Rec): (r: Node)
    ensures Onward(n, r)
  {
    SayCommit(Store(n, rec.(status := Committed, eligible := false), CommittedPhase), self)
  }

  /** maybeFinalizePreAccept in untimed mode. */
  function FinalizePreAccept(g: Group, self: ReplicaID, n: Node, env: Local): (r: Node)
    requires |g.voters| >= 1
    ensures Onward(n, r)
  {
    var mem := Mem(n);
    var p := FP.Proposal(self, mem.tuple.attrs, mem.eligible, mem.ballot.IsInitialFor(g.owner));
    var fast := FP.FastCommitAttrs(p, g.voters, n.preOK, env.through);
    if fast.Some? then DoCommit(self, n, mem.(tuple := Tuple(fast.value, mem.tuple.value)))
    else if |n.preOK| < Q.Slow(|g.voters|) then n
    else if |n.preOK| >= Q.Fast(|g.voters|) || !FP.CanStill(p, |g.voters|, n.preOK)
    then StartAccept(self, n, Tuple(MergedVotes(g.voters, n.preOK), mem.tuple.value))
    else n
  }

  /** handlePreAcceptResp. */
  function HandlePreAcceptResp(g: Group, self: ReplicaID, n: Node, from: ReplicaID, b: Ballot, vote: FP.Vote,
                               env: Local): (r: Node)
    requires |g.voters| >= 1
    ensures Onward(n, r)
  {
    var mem := Mem(n);
    if !n.phase.PreAcceptPhase? || self != g.owner || mem.ballot.replica != self || b != mem.ballot then n
    else if from in n.preOK || from !in g.voters || |vote.attrs.deps| != |g.voters| then n
    else FinalizePreAccept(g, self, n.(preOK := n.preOK[from := vote]), env)
  }

  /** handleAccept. */
  function HandleAccept(self: ReplicaID, n: Node, b: Ballot, t: Tuple): (r: Node)
    ensures Onward(n, r)
  {
    var mem := Mem(n);
    if mem.status.Final() then
      if mem.recordBallot == b && mem.tuple != t then n else SayCommit(n, self)
    else if b.Less(mem.ballot) then Say(n, Reject(self, mem.ballot, AcceptRound))
    else if mem.status.Accepted? && b == mem.ballot && mem.recordBallot == b then
      if mem.tuple != t then n else Say(n, AcceptResp(self, b, b, mem.tuple.attrs))
    else if mem.status.PreAccepted? && mem.recordBallot == b && mem.tuple.value != t.value then n
    else Say(Store(n, Rec(b, b, Accepted, t, false), Idle), AcceptResp(self, b, b, t.attrs))
  }

  predicate Coordinates(g: Group, self: ReplicaID, n: Node) {
    self == g.owner || (Mem(n).ballot.IsRecovery() && Mem(n).ballot.replica == self)
  }

  /** handleAcceptResp. */
  function HandleAcceptResp(g: Group, self: ReplicaID, n: Node, from: ReplicaID, b: Ballot, rb: Ballot,
                            attrs: Attrs): (r: Node)
    ensures Onward(n, r)
  {
    var mem := Mem(n);
    if !n.phase.AcceptPhase? || !Coordinates(g, self, n) then n
    else if b != mem.ballot || rb != mem.recordBallot || attrs != mem.tuple.attrs then n
    else if from in n.accOK || from !in g.voters then n
    else
      var counted := n.(accOK := n.accOK + {from});
      if |counted.accOK| >= Q.Slow(|g.voters|) then DoCommit(self, counted, mem) else counted
  }

  /** handleCommit. */
  function HandleCommit(n: Node, b: Ballot, rb: Ballot, t: Tuple): (r: Node)
    ensures Onward(n, r)
  {
    var mem := Mem(n);
    if mem.status.Final() || rb == ZERO then n
    else if mem.recordBallot == rb && mem.status.Accepted? && mem.tuple != t then n
    else if mem.recordBallot == rb && mem.status.PreAccepted? && mem.tuple.value != t.value then n
    else Store(n, Rec(Higher(mem.ballot, b), rb, Committed, t, false), CommittedPhase)
  }

  /** handlePrepare. */
  function HandlePrepare(self: ReplicaID, n: Node, b: Ballot): (r: Node)
    ensures Onward(n, r)
  {
    var mem := Mem(n);
    if b.Less(mem.ballot) then Say(n, Reject(self, mem.ballot, PrepareRound))
    else
      var promised := if n.log == [] || mem.ballot.Less(b) then Store(n, mem.(ballot := b), Idle) else n;
      Say(promised, PrepareResp(self, b, Mem(promised)))
  }

  /** startPrepareFrom, for two or more voters. */
  function StartPrepare(self: ReplicaID, n: Node, base: Ballot): (r: Node)
    ensures Onward(n, r)
  {
    var next := Higher(base, Mem(n).ballot).Next(self);
    if next.None? then n
    else
      var rec := Mem(n).(ballot := next.value);
      Say(Store(n, rec, PreparePhase).(prepareOK := map[self := rec]), Prepare(self, next.value))
  }

  /** handlePrepareResp. */
  function HandlePrepareResp(g: Group, self: ReplicaID, n: Node, from: ReplicaID, b: Ballot, rec: Rec,
                             env: Local): (r: Node)
    requires |g.voters| >= 1
    ensures Onward(n, r)
  {
    var mem := Mem(n);
    if !n.phase.PreparePhase? || !mem.ballot.IsRecovery() || mem.ballot.replica != self || b.Less(mem.ballot) then n
    else if mem.ballot.Less(b) then StartPrepare(self, n, b)
    else if from in n.prepareOK || from !in g.voters || (!rec.status.Empty? && rec.recordBallot == ZERO) then n
    else
      var answered := n.(prepareOK := n.prepareOK[from := rec]);
      if |answered.prepareOK| < Q.Slow(|g.voters|) then answered
      else Carry(g, self, answered, Decide(g, answered.prepareOK, env.attrs, FallbackValue(g, env)))
  }

  function Carry(g: Group, self: ReplicaID, n: Node, plan: Plan): (r: Node)
    ensures Onward(n, r)
  {
    match plan
    case Refuse => n
    case Adopt(rec) => DoCommit(self, n, rec)
    case Accepting(t) => StartAccept(self, n, t)
    case Trying(t, witnesses) => StartTry(g, self, n, t, witnesses)
  }

  /** startTryPreAccept: the witnesses and the owner count as confirmed. */
  function StartTry(g: Group, self: ReplicaID, n: Node, t: Tuple, witnesses: set<ReplicaID>): (r: Node)
    ensures Onward(n, r)
  {
    if n.phase.CommittedPhase? then n
    else
      var tried := TryRecord(g, n, t, witnesses);
      if |tried.tryOK| >= Q.Slow(|g.voters|) then StartAccept(self, tried, t)
      else Say(tried, TryPreAccept(self, Mem(n).ballot, t))
  }

  function TryRecord(g: Group, n: Node, t: Tuple, witnesses: set<ReplicaID>): (r: Node)
    ensures Onward(n, r)
  {
    Store(n, Rec(Mem(n).ballot, Mem(n).ballot, PreAccepted, t, false), TryPhase).(tryOK := witnesses + {g.owner})
  }

  /** handleTryPreAccept; env.conflict says whether the local conflict search found a blocker. */
  function HandleTry(self: ReplicaID, n: Node, b: Ballot, t: Tuple, env: Local): (r: Node)
    ensures Onward(n, r)
  {
    var mem := Mem(n);
    if mem.status.Final() then
      if mem.recordBallot == b && mem.tuple != t then n else SayCommit(n, self)
    else if b.Less(mem.ballot) then Say(n, Reject(self, mem.ballot, TryRound))
    else if mem.status.Accepted? then
      if b == mem.ballot && mem.recordBallot == b && mem.tuple != t then n
      else
        var promised := if mem.ballot.Less(b) then Store(n, mem.(ballot := b), Idle) else n;
        Say(promised, TryRefused(self, b))
    else if mem.status.PreAccepted? && b == mem.ballot && mem.recordBallot == b then
      if mem.tuple != t then n else Say(n, TryPreAcceptResp(self, b, t.attrs))
    else if env.conflict then Say(n, TryConflict(self, b))
    else Say(Store(n, Rec(b, b, PreAccepted, t, false), Idle), TryPreAcceptResp(self, b, t.attrs))
  }

  /** handleTryPreAcceptResp, confirmation. */
  function HandleTryResp(g: Group, self: ReplicaID, n: Node, from: ReplicaID, b: Ballot, attrs: Attrs): (r: Node)
    ensures Onward(n, r)
  {
    var mem := Mem(n);
    if !n.phase.TryPhase? || !Coordinates(g, self, n) || b != mem.ballot || attrs != mem.tuple.attrs then n
    else if from in n.tryOK || from !in g.voters then n
    else
      var counted := n.(tryOK := n.tryOK + {from});
      if |counted.tryOK| >= Q.Slow(|g.voters|) then StartAccept(self, counted, mem.tuple) else counted
  }

  /** handleTryPreAcceptResp, conflict: the round waits, or accepts with the dependencies the conflict adds. */
  function HandleTryConflict(g: Group, self: ReplicaID, n: Node, env: Local): (r: Node)
    ensures Onward(n, r)
  {
    if !n.phase.TryPhase? || !Coordinates(g, self, n) || !env.conflict then n
    else StartAccept(self, n, Tuple(Merge(env.attrs, Mem(n).tuple.attrs), Mem(n).tuple.value))
  }

  /** handleTryPreAcceptResp, accepted target: prepare again. */
  function HandleTryRefused(g: Group, self: ReplicaID, n: Node, b: Ballot): (r: Node)
    ensures Onward(n, r)
  {
    if !n.phase.TryPhase? || !Coordinates(g, self, n) || b != Mem(n).ballot then n else StartPrepare(self, n, b)
  }

  predicate Awaits(g: Group, self: ReplicaID, n: Node, round: Round) {
    match round
    case PreAcceptRound => n.phase.PreAcceptPhase? && self == g.owner && Mem(n).ballot.replica == self
    case PrepareRound => n.phase.PreparePhase? && Mem(n).ballot.IsRecovery() && Mem(n).ballot.replica == self
    case TryRound => n.phase.TryPhase? && Coordinates(g, self, n)
    case AcceptRound => n.phase.AcceptPhase? && Coordinates(g, self, n)
  }

  /** A rejection of the round in progress with a higher promise restarts the instance above it. */
  function HandleReject(g: Group, self: ReplicaID, n: Node, round: Round, hint: Ballot): (r: Node)
    ensures Onward(n, r)
  {
    if Awaits(g, self, n, round) && Mem(n).ballot.Less(hint) then StartPrepare(self, n, hint) else n
  }

  function Handle(g: Group, self: ReplicaID, n: Node, m: Message, env: Local): (r: Node)
    requires |g.voters| >= 1
    ensures Onward(n, r)
  {
    match m
    case PreAccept(_, b, t) => HandlePreAccept(g, self, n, b, t, env)
    case PreAcceptResp(from, b, attrs, eligible, committed) =>
      HandlePreAcceptResp(g, self, n, from, b, FP.Vote(attrs, eligible, committed), env)
    case Prepare(_, b) => HandlePrepare(self, n, b)
    case PrepareResp(from, b, rec) => HandlePrepareResp(g, self, n, from, b, rec, env)
    case Accept(_, b, t) => HandleAccept(self, n, b, t)
    case AcceptResp(from, b, rb, attrs) => HandleAcceptResp(g, self, n, from, b, rb, attrs)
    case Commit(_, b, rb, t) => HandleCommit(n, b, rb, t)
    case TryPreAccept(_, b, t) => HandleTry(self, n, b, t, env)
    case TryPreAcceptResp(from, b, attrs) => HandleTryResp(g, self, n, from, b, attrs)
    case TryConflict(_, _) => HandleTryConflict(g, self, n, env)
    case TryRefused(_, b) => HandleTryRefused(g, self, n, b)
    case Reject(_, hint, round) => HandleReject(g, self, n, round, hint)
  }

  /** timerPrepare outside the Prepare phase: an undecided instance is recovered. */
  function Recover(self: ReplicaID, n: Node): (r: Node)
    ensures Onward(n, r)
  {
    if Mem(n).status.Final() || n.phase.PreparePhase? then n else StartPrepare(self, n, Mem(n).ballot)
  }

  /** timerPreAccept: with a slow quorum of replies the fast path is given up. */
  function GiveUpFast(g: Group, self: ReplicaID, n: Node): (r: Node)
    ensures Onward(n, r)
  {
    if !n.phase.PreAcceptPhase? || |n.preOK| < Q.Slow(|g.voters|) then n
    else StartAccept(self, n, Tuple(MergedVotes(g.voters, n.preOK), Mem(n).tuple.value))
  }

  /** The retry timers repeat the message of the round in progress. */
  function Retransmit(g: Group, self: ReplicaID, n: Node): (r: Node)
    ensures Onward(n, r)
  {
    var mem := Mem(n);
    match n.phase
    case PreAcceptPhase => if self == g.owner && mem.ballot.IsInitialFor(self)
        then Say(n, PreAccept(self, mem.ballot, mem.tuple)) else n
    case PreparePhase => Say(n, Prepare(self, mem.ballot))
    case TryPhase => Say(n, TryPreAccept(self, mem.ballot, mem.tuple))
    case AcceptPhase => if mem.ballot.replica == self then Say(n, Accept(self, mem.ballot, mem.tuple)) else n
    case _ => n
  }

  function MarkExecuted(n: Node): (r: Node)
    ensures Onward(n, r)
  {
    if Mem(n).status.Committed? then n.(log := n.log + [Mem(n).(status := Executed)]) else n
  }

  /** A crash loses what was not persisted; the restart derives phase and own vote from the last durable record. */
  function Restart(g: Group, self: ReplicaID, n: Node): Node
    requires n.durable <= |n.log|
  {
    var kept := Node(n.log[..n.durable], n.durable, {}, Idle, map[], {}, {}, map[]);
    var mem := Mem(kept);
    if mem.status.Final() then kept.(phase := CommittedPhase)
    else if mem.ballot.IsRecovery() && mem.ballot.replica == self
        then kept.(phase := PreparePhase, prepareOK := map[self := mem])
    else if mem.status.Accepted? then
      kept.(phase := AcceptPhase, accOK := if self == g.owner && mem.ballot.replica == self then {self} else {})
    else if mem.status.PreAccepted? then
      kept.(phase := PreAcceptPhase,
            preOK := if self == g.owner && mem.ballot.IsInitialFor(self)
                then map[self := FP.Vote(mem.tuple.attrs, false, {})] else map[])
    else kept
  }
}
