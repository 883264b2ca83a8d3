/** Runs of the cluster: what holds in every state any run can reach. */
module ClusterRuns {
  import opened Types
  import opened Ballots
  import opened Protocol
  import opened Agreement
  import opened Handlers
  import opened Cluster
  import opened ClusterSteps
  import opened ClusterRecovery
  import L = LedgerSteps
  import W = Witness
  import N = Nontriviality

  datatype Step =
    | Proposing(i: ReplicaID, tuple: Tuple, env: Local)
    | Delivering(i: ReplicaID, m: Message, env: Local)
    | Recovering(i: ReplicaID)
    | GivingUpFast(i: ReplicaID)
    | Retransmitting(i: ReplicaID)
    | Executing(i: ReplicaID)
    | Persisting(i: ReplicaID)
    | Sending(i: ReplicaID, o: Outgoing)
    | Crashing(i: ReplicaID)

  /** A step is possible: its message was sent by another, its record is queued, what it waits for is durable. */
  ghost predicate Enabled(w: World, s: Step) {
    && s.i in w.nodes
    && (s.Delivering? ==> s.m in w.net && s.m.from != s.i)
    && (s.Persisting? ==> w.nodes[s.i].durable < |w.nodes[s.i].log|)
    && (s.Sending? ==> s.o in w.nodes[s.i].outbox && s.o.after <= w.nodes[s.i].durable)
    && (s.Crashing? ==> w.nodes[s.i].durable <= |w.nodes[s.i].log|)
  }

  /** What a handler or a timer makes of the acting replica. */
  ghost function Acts(g: Group, n: Node, s: Step): (r: Node)
    requires |g.voters| >= 1 && !s.Persisting? && !s.Sending? && !s.Crashing?
    ensures Onward(n, r)
  {
    match s
    case Proposing(i, t, env) => Propose(g, i, n, t, env)
    case Delivering(i, m, env) => Handle(g, i, n, m, env)
    case Recovering(i) => Recover(i, n)
    case GivingUpFast(i) => GiveUpFast(g, i, n)
    case Retransmitting(i) => Retransmit(g, i, n)
    case Executing(i) => MarkExecuted(n)
  }

  ghost function Next(g: Group, w: World, s: Step): World
    requires Enabled(w, s) && |g.voters| >= 1
  {
    var n := w.nodes[s.i];
    match s
    case Persisting(i) => Put(w, i, Persisted(n))
    case Sending(i, o) => w.(net := w.net + {o.m})
    case Crashing(i) => Put(w, i, Restart(g, i, n))
    case _ => Put(w, s.i, Acts(g, n, s))
  }

  ghost function Start(g: Group): World {
    World(map i | i in g.Set() :: NEW_NODE, {})
  }

  ghost predicate Run(g: Group, trace: seq<World>) {
    |trace| > 0 && trace[0] == Start(g) && forall k :: StepAt(g, trace, k)
  }

  ghost predicate StepAt(g: Group, trace: seq<World>, k: int) {
    0 < k < |trace| ==> exists s :: Takes(g, trace, k, s)
  }

  ghost predicate Takes(g: Group, trace: seq<World>, k: int, s: Step) {
    0 < k < |trace| && Enabled(trace[k - 1], s) && |g.voters| >= 1 && trace[k] == Next(g, trace[k - 1], s)
  }

  lemma StartInv(g: Group)
    requires g.Valid()
    ensures Inv(g, Start(g))
  {
    var w := Start(g);
    var l := LedgerOf(w);
    forall i, k
      ensures EvolvesAt(g, l, i, k) && Decided(g, l, i, k)
    {
      assert Log(l, i) == [];
    }
    forall m
      ensures Backed(g, l, m)
    {
    }
    forall i
      ensures NodeOK(g, w, i)
    {
      if i in w.nodes {
        forall o
          ensures Vouched(g, i, NEW_NODE, o)
        {
        }
        forall j
          ensures Counted(g, w.net, i, NEW_NODE, j)
        {
        }
      }
    }
  }

  lemma HandleKeeps(g: Group, w: World, i: ReplicaID, m: Message, env: Local)
    requires g.Valid() && Inv(g, w) && i in w.nodes && m in w.net && m.from != i
    ensures Inv(g, Put(w, i, Handle(g, i, w.nodes[i], m, env)))
  {
    match m {
      case PreAccept(_, _, _) => PreAcceptKeeps(g, w, i, m, env);
      case PreAcceptResp(_, _, _, _, _) => PreAcceptRespKeeps(g, w, i, m, env);
      case Prepare(_, _) => PrepareKeeps(g, w, i, m);
      case PrepareResp(_, _, _) => PrepareRespKeeps(g, w, i, m, env);
      case Accept(_, _, _) => AcceptKeeps(g, w, i, m);
      case AcceptResp(_, _, _, _) => AcceptRespKeeps(g, w, i, m);
      case Commit(_, _, _, _) => CommitKeeps(g, w, i, m);
      case TryPreAccept(_, _, _) => TryKeeps(g, w, i, m, env);
      case TryPreAcceptResp(from, b, attrs) => TryRespKeeps(g, w, i, from, b, attrs);
      case TryConflict(_, _) => TryConflictKeeps(g, w, i, env);
      case TryRefused(_, b) => TryRefusedKeeps(g, w, i, b);
      case Reject(_, hint, round) => RejectKeeps(g, w, i, round, hint);
    }
  }

  lemma RetransmitKeeps(g: Group, w: World, i: ReplicaID)
    requires g.Valid() && Inv(g, w) && i in w.nodes
    ensures Inv(g, Put(w, i, Retransmit(g, i, w.nodes[i])))
  {
    var n := w.nodes[i];
    var mem := Mem(n);
    assert NodeOK(g, w, i);
    MemShaped(g, w, i);
    KeepsSame(g, w, i);
    match n.phase {
      case PreAcceptPhase =>
        if i == g.owner && mem.ballot.IsInitialFor(i) {
          SaysOnly(g, w, i, PreAccept(i, mem.ballot, mem.tuple));
        }
      case PreparePhase => SaysOnly(g, w, i, Prepare(i, mem.ballot));
      case TryPhase => SaysOnly(g, w, i, TryPreAccept(i, mem.ballot, mem.tuple));
      case AcceptPhase =>
        if mem.ballot.replica == i {
          SaysOnly(g, w, i, Accept(i, mem.ballot, mem.tuple));
        }
      case _ =>
    }
  }

  lemma ExecuteKeeps(g: Group, w: World, i: ReplicaID)
    requires g.Valid() && Inv(g, w) && i in w.nodes
    ensures Inv(g, Put(w, i, MarkExecuted(w.nodes[i])))
  {
    var n := w.nodes[i];
    assert NodeOK(g, w, i);
    MemShaped(g, w, i);
    KeepsSame(g, w, i);
    if Mem(n).status.Committed? {
      var done := MarkExecuted(n);
      forall o
        ensures Vouched(g, i, done, o)
      {
        assert Vouched(g, i, n, o);
      }
      forall j
        ensures Counted(g, w.net, i, done, j)
      {
        assert Counted(g, w.net, i, n, j);
      }
      assert Executes(Mem(n), Mem(n).(status := Executed));
      StoresRecord(g, w, i, done, Mem(n).(status := Executed));
    }
  }

  function Persisted(n: Node): Node {
    n.(durable := n.durable + 1)
  }

  lemma PersistedSound(g: Group, w: World, i: ReplicaID)
    requires g.Valid() && Sound(g, LedgerOf(w)) && i in w.nodes && w.nodes[i].durable < |w.nodes[i].log|
    ensures Sound(g, LedgerOf(Put(w, i, Persisted(w.nodes[i]))))
  {
    L.PersistSound(g, LedgerOf(w), i);
    LedgerPut(w, i, Persisted(w.nodes[i]));
  }

  lemma PersistKeeps(g: Group, w: World, i: ReplicaID)
    requires g.Valid() && Inv(g, w) && i in w.nodes && w.nodes[i].durable < |w.nodes[i].log|
    ensures Inv(g, Put(w, i, Persisted(w.nodes[i])))
  {
    assert NodeOK(g, w, i);
    SameVolatile(g, w.net, i, w.nodes[i], Persisted(w.nodes[i]));
    PersistedSound(g, w, i);
    PutInv(g, w, i, Persisted(w.nodes[i]));
  }

  lemma SameVolatile(g: Group, net: set<Message>, i: ReplicaID, n: Node, d: Node)
    requires NodeInv(g, net, i, n) && d == n.(durable := d.durable) && d.durable <= |n.log|
    ensures NodeInv(g, net, i, d)
  {
    forall o
      ensures Vouched(g, i, d, o)
    {
      assert Vouched(g, i, n, o);
    }
    forall j
      ensures Counted(g, net, i, d, j)
    {
      assert Counted(g, net, i, n, j);
    }
  }

  lemma SendKeeps(g: Group, w: World, i: ReplicaID, o: Outgoing)
    requires g.Valid() && Inv(g, w) && i in w.nodes && o in w.nodes[i].outbox && o.after <= w.nodes[i].durable
    ensures Inv(g, w.(net := w.net + {o.m}))
  {
    var after := w.(net := w.net + {o.m});
    assert NodeOK(g, w, i) && Vouched(g, i, w.nodes[i], o) && i in g.Set();
    if !o.m.TryConflict? {
      assert BackedAt(g, LedgerOf(w), o.m, o.after - 1);
    }
    L.SendSound(g, LedgerOf(w), o.m, o.after - 1);
    assert LedgerOf(after) == LedgerOf(w).(net := w.net + {o.m});
    forall j
      ensures NodeOK(g, after, j)
    {
      assert NodeOK(g, w, j);
      if j in w.nodes {
        MoreMessages(g, w.net, after.net, j, w.nodes[j]);
      }
    }
  }

  lemma MoreMessages(g: Group, net: set<Message>, more: set<Message>, i: ReplicaID, n: Node)
    requires NodeInv(g, net, i, n) && net <= more
    ensures NodeInv(g, more, i, n)
  {
    forall j
      ensures Counted(g, more, i, n, j)
    {
      assert Counted(g, net, i, n, j);
    }
  }

  lemma RestartedInv(g: Group, w: World, i: ReplicaID)
    requires g.Valid() && Inv(g, w) && i in w.nodes && w.nodes[i].durable <= |w.nodes[i].log|
    ensures NodeInv(g, w.net, i, Restart(g, i, w.nodes[i]))
  {
    var n, l := w.nodes[i], LedgerOf(w);
    var d := Restart(g, i, n);
    assert NodeOK(g, w, i) && i in g.Set();
    if n.durable > 0 {
      LogShaped(g, l, i, n.durable - 1);
    }
    forall o
      ensures Vouched(g, i, d, o)
    {
    }
    forall j
      ensures Counted(g, w.net, i, d, j)
    {
    }
  }

  lemma CrashKeeps(g: Group, w: World, i: ReplicaID)
    requires g.Valid() && Inv(g, w) && i in w.nodes && w.nodes[i].durable <= |w.nodes[i].log|
    ensures Inv(g, Put(w, i, Restart(g, i, w.nodes[i])))
  {
    RestartedInv(g, w, i);
    L.CrashSound(g, LedgerOf(w), i);
    LedgerPut(w, i, Restart(g, i, w.nodes[i]));
    PutInv(g, w, i, Restart(g, i, w.nodes[i]));
  }

  lemma ActsKeeps(g: Group, w: World, s: Step)
    requires g.Valid() && Inv(g, w) && Enabled(w, s) && !s.Persisting? && !s.Sending? && !s.Crashing?
    ensures Inv(g, Put(w, s.i, Acts(g, w.nodes[s.i], s)))
  {
    match s {
      case Proposing(i, t, env) => ProposeKeeps(g, w, i, t, env);
      case Delivering(i, m, env) => HandleKeeps(g, w, i, m, env);
      case Recovering(i) => RecoverKeeps(g, w, i);
      case GivingUpFast(i) => GiveUpFastKeeps(g, w, i);
      case Retransmitting(i) => RetransmitKeeps(g, w, i);
      case Executing(i) => ExecuteKeeps(g, w, i);
    }
  }

  lemma NextKeeps(g: Group, w: World, s: Step)
    requires g.Valid() && Inv(g, w) && Enabled(w, s)
    ensures Inv(g, Next(g, w, s))
  {
    if s.Persisting? {
      PersistKeeps(g, w, s.i);
    } else if s.Sending? {
      SendKeeps(g, w, s.i, s.o);
    } else if s.Crashing? {
      CrashKeeps(g, w, s.i);
    } else {
      ActsKeeps(g, w, s);
    }
  }

  /** Every state of every run satisfies the invariant. */
  lemma {:induction false} RunInv(g: Group, trace: seq<World>, k: nat)
    requires g.Valid() && Run(g, trace) && k < |trace|
    ensures Inv(g, trace[k])
  {
    StartInv(g);
    if k > 0 {
      RunInv(g, trace, k - 1);
      assert StepAt(g, trace, k);
      var s :| Takes(g, trace, k, s);
      NextKeeps(g, trace[k - 1], s);
    }
  }

  /** A step loses nothing that is durable or sent. */
  lemma NextDurable(g: Group, w: World, s: Step, i: ReplicaID)
    requires g.Valid() && Inv(g, w) && Enabled(w, s)
    ensures DurableGrows(LedgerOf(w), LedgerOf(Next(g, w, s)), i) && w.net <= Next(g, w, s).net
  {
    assert NodeOK(g, w, i) && NodeOK(g, w, s.i);
    if s.Persisting? {
      PutDurable(w, s.i, Persisted(w.nodes[s.i]), i);
    } else if s.Crashing? {
      PutDurable(w, s.i, Restart(g, s.i, w.nodes[s.i]), i);
    } else if !s.Sending? {
      ActsDurable(g, w, s, i);
    }
  }

  lemma ActsDurable(g: Group, w: World, s: Step, i: ReplicaID)
    requires g.Valid() && Inv(g, w) && Enabled(w, s) && !s.Persisting? && !s.Sending? && !s.Crashing?
    ensures DurableGrows(LedgerOf(w), LedgerOf(Put(w, s.i, Acts(g, w.nodes[s.i], s))), i)
  {
    assert NodeOK(g, w, i) && NodeOK(g, w, s.i);
    PutDurable(w, s.i, Acts(g, w.nodes[s.i], s), i);
  }

  /** A node that keeps its durable records leaves the durable part of the ledger as it was. */
  lemma PutDurable(w: World, at: ReplicaID, r: Node, i: ReplicaID)
    requires at in w.nodes && w.nodes[at].durable <= |w.nodes[at].log|
             && (i in w.nodes ==> w.nodes[i].durable <= |w.nodes[i].log|)
    requires w.nodes[at].durable <= r.durable && w.nodes[at].log[..w.nodes[at].durable] <= r.log
    ensures DurableGrows(LedgerOf(w), LedgerOf(Put(w, at, r)), i)
  {
  }

  ghost predicate DurableGrows(k: Ledger, l: Ledger, i: ReplicaID) {
    && Durable(k, i) <= Durable(l, i) && Durable(k, i) <= |Log(k, i)| && Durable(k, i) <= |Log(l, i)|
    && Log(k, i)[..Durable(k, i)] == Log(l, i)[..Durable(k, i)]
  }

  /** What is durable or sent stays so for the rest of the run, through every crash. */
  lemma {:induction false} RunDurable(g: Group, trace: seq<World>, j: nat, k: nat, i: ReplicaID)
    requires g.Valid() && Run(g, trace) && j <= k < |trace|
    ensures DurableGrows(LedgerOf(trace[j]), LedgerOf(trace[k]), i) && trace[j].net <= trace[k].net
  {
    if j == k {
      RunInv(g, trace, j);
      assert NodeOK(g, trace[j], i);
    } else {
      RunDurable(g, trace, j, k - 1, i);
      RunInv(g, trace, k - 1);
      assert StepAt(g, trace, k);
      var s :| Takes(g, trace, k, s);
      NextDurable(g, trace[k - 1], s, i);
      DurableTransitive(LedgerOf(trace[j]), LedgerOf(trace[k - 1]), LedgerOf(trace[k]), i);
    }
  }

  lemma DurableTransitive(a: Ledger, b: Ledger, c: Ledger, i: ReplicaID)
    requires DurableGrows(a, b, i) && DurableGrows(b, c, i)
    ensures DurableGrows(a, c, i)
  {
    var d := Durable(a, i);
    assert Log(b, i)[..d] == Log(b, i)[..Durable(b, i)][..d];
    assert Log(c, i)[..d] == Log(c, i)[..Durable(b, i)][..d];
  }

  /** A chosen tuple stays chosen. */
  lemma RunChosen(g: Group, trace: seq<World>, j: nat, k: nat, b: Ballot, t: Tuple)
    requires g.Valid() && Run(g, trace) && j <= k < |trace| && Chosen(g, LedgerOf(trace[j]), b, t)
    ensures Chosen(g, LedgerOf(trace[k]), b, t)
  {
    var q :| ChosenBy(g, LedgerOf(trace[j]), b, t, q);
    forall h
      ensures HoldsDurably(LedgerOf(trace[k]), b, t, q, h)
    {
      assert HoldsDurably(LedgerOf(trace[j]), b, t, q, h);
      if h in q {
        RunDurable(g, trace, j, k, h);
        StillVotes(LedgerOf(trace[j]), LedgerOf(trace[k]), h, b, t);
      }
    }
    assert ChosenBy(g, LedgerOf(trace[k]), b, t, q);
  }

  lemma StillVotes(a: Ledger, c: Ledger, h: ReplicaID, b: Ballot, t: Tuple)
    requires DurableGrows(a, c, h) && exists v :: v < Durable(a, h) && Votes(a, h, v, b, t)
    ensures exists v :: v < Durable(c, h) && Votes(c, h, v, b, t)
  {
    var v :| v < Durable(a, h) && Votes(a, h, v, b, t);
    assert Log(a, h)[..Durable(a, h)][v] == Log(c, h)[..Durable(a, h)][v];
    assert Votes(c, h, v, b, t);
  }

  /**
   Slow-path agreement, over every run: once a slow quorum durably accepted t at ballot b, then ever
   after every vote at a higher ballot carries t, every tuple ever chosen is t, and every commit
   that rests on an Accept quorum is of t.
   */
  lemma SlowPathAgreement(g: Group, trace: seq<World>, j: nat, k: nat, b: Ballot, t: Tuple)
    requires g.Valid() && Run(g, trace) && j <= k < |trace| && Chosen(g, LedgerOf(trace[j]), b, t)
    ensures forall i, v, c, u | i in g.voters && Votes(LedgerOf(trace[k]), i, v, c, u) && b.Less(c) :: u == t
    ensures forall c, u | Chosen(g, LedgerOf(trace[k]), c, u) :: u == t
    ensures forall i, v | AcceptQuorumCommit(g, LedgerOf(trace[k]), i, v) :: Log(LedgerOf(trace[k]), i)[v].tuple == t
  {
    var l := LedgerOf(trace[k]);
    RunInv(g, trace, k);
    RunChosen(g, trace, j, k, b, t);
    forall i, v, c, u | i in g.voters && Votes(l, i, v, c, u) && b.Less(c)
      ensures u == t
    {
      ChosenBinds(g, l, b, t, i, v, c, u);
    }
    forall c, u | Chosen(g, l, c, u)
      ensures u == t
    {
      ChosenAgree(g, l, b, t, c, u);
    }
    forall i, v | AcceptQuorumCommit(g, l, i, v)
      ensures Log(l, i)[v].tuple == t
    {
      L.AcceptedChosen(g, l, i, v - 1, Log(l, i)[v]);
    }
  }

  /** Entry v of i's log is a commit on a slow quorum of acknowledgements. */
  ghost predicate AcceptQuorumCommit(g: Group, l: Ledger, i: ReplicaID, v: int) {
    i in g.voters && 0 < v < |Log(l, i)| && CommitsAccepted(g, l.net, i, Log(l, i)[v - 1], Log(l, i)[v])
  }

  /**
   Agreement of all commits, over every run in which fast commits and Try rounds add nothing to the
   owner's proposal: any two Commit messages ever sent, and any two committed or executed records,
   carry the same tuple.
   */
  lemma CommitsAgree(g: Group, trace: seq<World>, k: nat)
    requires g.Valid() && Run(g, trace) && k < |trace| && W.NothingAdded(g, LedgerOf(trace[k]))
    ensures forall m, o | m in trace[k].net && o in trace[k].net && m.Commit? && o.Commit? :: m.tuple == o.tuple
    ensures forall i, v, j, u | FinalAt(g, LedgerOf(trace[k]), i, v) && FinalAt(g, LedgerOf(trace[k]), j, u) ::
              Log(LedgerOf(trace[k]), i)[v].tuple == Log(LedgerOf(trace[k]), j)[u].tuple
  {
    var l := LedgerOf(trace[k]);
    RunInv(g, trace, k);
    forall m, o | m in trace[k].net && o in trace[k].net && m.Commit? && o.Commit?
      ensures m.tuple == o.tuple
    {
      assert Backed(g, l, m) && Backed(g, l, o);
      var v :| BackedAt(g, l, m, v);
      var u :| BackedAt(g, l, o, u);
      W.FinalsAgree(g, l, m.from, v, o.from, u);
    }
    forall i, v, j, u | FinalAt(g, l, i, v) && FinalAt(g, l, j, u)
      ensures Log(l, i)[v].tuple == Log(l, j)[u].tuple
    {
      W.FinalsAgree(g, l, i, v, j, u);
    }
  }

  /** With two voters the premise is not needed. */
  lemma PairCommitsAgree(g: Group, trace: seq<World>, k: nat)
    requires g.Valid() && |g.voters| == 2 && Run(g, trace) && k < |trace|
    ensures forall m, o | m in trace[k].net && o in trace[k].net && m.Commit? && o.Commit? :: m.tuple == o.tuple
    ensures forall i, v, j, u | FinalAt(g, LedgerOf(trace[k]), i, v) && FinalAt(g, LedgerOf(trace[k]), j, u) ::
              Log(LedgerOf(trace[k]), i)[v].tuple == Log(LedgerOf(trace[k]), j)[u].tuple
  {
    var l := LedgerOf(trace[k]);
    RunInv(g, trace, k);
    forall m, o | m in trace[k].net && o in trace[k].net && m.Commit? && o.Commit?
      ensures m.tuple == o.tuple
    {
      assert Backed(g, l, m) && Backed(g, l, o);
      var v :| BackedAt(g, l, m, v);
      var u :| BackedAt(g, l, o, u);
      W.PairFinalsAgree(g, l, m.from, v, o.from, u);
    }
    forall i, v, j, u | FinalAt(g, l, i, v) && FinalAt(g, l, j, u)
      ensures Log(l, i)[v].tuple == Log(l, j)[u].tuple
    {
      W.PairFinalsAgree(g, l, i, v, j, u);
    }
  }

  ghost predicate FinalAt(g: Group, l: Ledger, i: ReplicaID, v: int) {
    i in g.voters && 0 <= v < |Log(l, i)| && Log(l, i)[v].status.Final()
  }

  /**
   Nontriviality, over every run: what is committed was proposed by the owner, or a recovering voter
   supplied it when no survey answer knew a value. Outside the reserved references that is a no-op.
   */
  lemma OnlyProposedCommitted(g: Group, trace: seq<World>, k: nat, i: ReplicaID, v: nat)
    requires g.Valid() && Run(g, trace) && k < |trace| && FinalAt(g, LedgerOf(trace[k]), i, v)
    ensures N.Proposed(g, LedgerOf(trace[k]), Log(LedgerOf(trace[k]), i)[v].tuple.value)
    ensures !g.reserved ==>
              || N.OwnersProposal(g, LedgerOf(trace[k]), Log(LedgerOf(trace[k]), i)[v].tuple.value)
              || Log(LedgerOf(trace[k]), i)[v].tuple.value == NoOp
  {
    RunInv(g, trace, k);
    N.FinalValue(g, LedgerOf(trace[k]), i, v);
  }

  /**
   The fast-commit witness, over every run: once the owner has fast-committed its own proposal, a
   coordinator that surveys a slow quorum and finds nothing beyond the initial ballot always finds
   enough eligible records, all of that proposal, to try it.
   */
  lemma FastCommitFound(g: Group, trace: seq<World>, k: nat, m: int, i: ReplicaID)
    requires g.Valid() && Run(g, trace) && k < |trace| && W.ExactFastCommit(g, LedgerOf(trace[k]), m)
    requires i in trace[k].nodes && Surveyed(g, trace[k].net, i, Mem(trace[k].nodes[i]), trace[k].nodes[i].prepareOK)
    requires forall j :: PlainAnswer(g, trace[k].nodes[i].prepareOK, j)
    ensures TryCandidate(g, trace[k].nodes[i].prepareOK)
    ensures forall j <- trace[k].nodes[i].prepareOK | trace[k].nodes[i].prepareOK[j].eligible ::
              trace[k].nodes[i].prepareOK[j].tuple == Log(LedgerOf(trace[k]), g.owner)[m].tuple
  {
    var l, n := LedgerOf(trace[k]), trace[k].nodes[i];
    RunInv(g, trace, k);
    MemShaped(g, trace[k], i);
    W.PlainSurveyTries(g, l, m, i, |n.log|, n.prepareOK);
    forall j <- n.prepareOK | n.prepareOK[j].eligible
      ensures n.prepareOK[j].tuple == Log(l, g.owner)[m].tuple
    {
      var at := AnswerInLog(g, l, i, |n.log|, n.prepareOK, j);
      W.EligibleTuple(g, l, j, at);
      W.CommittedProposal(g, l, m);
    }
  }
}
