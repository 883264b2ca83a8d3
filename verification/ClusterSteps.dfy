/** Every handler keeps the cluster invariant. */
module ClusterSteps {
  import opened Types
  import opened Ballots
  import opened Attributes
  import opened Protocol
  import opened Handlers
  import opened Cluster
  import FP = FastPath
  import Q = Quorum

  lemma ProposeKeeps(g: Group, w: World, i: ReplicaID, t: Tuple, env: Local)
    requires g.Valid() && Inv(g, w) && i in w.nodes
    ensures Inv(g, Put(w, i, Propose(g, i, w.nodes[i], t, env)))
  {
    var n := w.nodes[i];
    assert NodeOK(g, w, i) && i in g.Set();
    if Propose(g, i, n, t, env) == n {
      KeepsSame(g, w, i);
    } else {
      var rec := Rec(g.Initial(), g.Initial(), PreAccepted, t, true);
      var stored := Store(n, rec, PreAcceptPhase);
      StoreInv(g, w.net, i, n, rec, PreAcceptPhase);
      var counted := stored.(preOK := map[i := FP.Vote(t.attrs, true, FP.CommittedSlots(t.attrs, env.through))]);
      forall o
        ensures Vouched(g, i, counted, o)
      {
        assert Vouched(g, i, stored, o);
      }
      forall j
        ensures Counted(g, w.net, i, counted, j)
      {
      }
      SayInv(g, w.net, i, counted, PreAccept(i, g.Initial(), t));
      StoresRecord(g, w, i, Propose(g, i, n, t, env), rec);
    }
  }

  lemma PreAcceptKeeps(g: Group, w: World, i: ReplicaID, m: Message, env: Local)
    requires g.Valid() && Inv(g, w) && i in w.nodes && m in w.net && m.PreAccept? && m.from != i
    ensures Inv(g, Put(w, i, HandlePreAccept(g, i, w.nodes[i], m.ballot, m.tuple, env)))
  {
    var n, b, t := w.nodes[i], m.ballot, m.tuple;
    var mem := Mem(n);
    var r := SenderRecord(g, w, m);
    MemShaped(g, w, i);
    KeepsSame(g, w, i);
    if mem.status.Final() {
      SaysCommit(g, w, i);
    } else if b.Less(mem.ballot) {
      SaysOnly(g, w, i, Reject(i, mem.ballot, PreAcceptRound));
    } else if n.log != [] && b == mem.ballot && mem.tuple.value != t.value {
    } else if mem.status.Accepted? {
      if b == mem.ballot {
        SaysOnly(g, w, i, PreAcceptResp(i, b, mem.tuple.attrs, false, {}));
      }
    } else if mem.status.PreAccepted? && b == mem.ballot {
      SaysOnly(g, w, i, PreAcceptResp(i, b, mem.tuple.attrs, mem.eligible,
                                      FP.CommittedSlots(mem.tuple.attrs, env.through)));
    } else {
      var attrs := Merge(env.attrs, t.attrs);
      var rec := Rec(b, b, PreAccepted, Tuple(attrs, t.value), attrs == t.attrs);
      assert PreAcceptsFrom(g, w.net, i, mem, rec, t);
      StoresAndSays(g, w, i, rec, Idle, PreAcceptResp(i, b, attrs, true, FP.CommittedSlots(attrs, env.through)));
    }
  }

  /** Accepting at the node's own ballot, once the record is justified. */
  lemma StartAcceptKeeps(g: Group, w: World, i: ReplicaID, t: Tuple)
    requires g.Valid() && Inv(g, w) && i in w.nodes && Mem(w.nodes[i]).ballot.replica == i
    requires Evolves(g, w.net, i, |w.nodes[i].log|, Mem(w.nodes[i]),
                     Rec(Mem(w.nodes[i]).ballot, Mem(w.nodes[i]).ballot, Accepted, t, false))
    ensures Inv(g, Put(w, i, StartAccept(i, w.nodes[i], t)))
  {
    var n := w.nodes[i];
    assert NodeOK(g, w, i) && i in g.Set();
    if n.phase.CommittedPhase? {
      KeepsSame(g, w, i);
    } else {
      var rec := Rec(Mem(n).ballot, Mem(n).ballot, Accepted, t, false);
      var stored := Store(n, rec, AcceptPhase);
      StoreInv(g, w.net, i, n, rec, AcceptPhase);
      var counted := stored.(accOK := {i});
      forall o
        ensures Vouched(g, i, counted, o)
      {
        assert Vouched(g, i, stored, o);
      }
      forall j
        ensures Counted(g, w.net, i, counted, j)
      {
      }
      SayInv(g, w.net, i, counted, Accept(i, rec.ballot, t));
      StoresRecord(g, w, i, StartAccept(i, n, t), rec);
    }
  }

  lemma DoCommitKeeps(g: Group, w: World, i: ReplicaID, rec: Rec)
    requires g.Valid() && Inv(g, w) && i in w.nodes
    requires Evolves(g, w.net, i, |w.nodes[i].log|, Mem(w.nodes[i]), rec.(status := Committed, eligible := false))
    ensures Inv(g, Put(w, i, DoCommit(i, w.nodes[i], rec)))
  {
    var done := rec.(status := Committed, eligible := false);
    StoresAndSays(g, w, i, done, CommittedPhase, Commit(i, done.ballot, done.recordBallot, done.tuple));
  }

  /** A fast quorum of counted replies backs the commit. */
  lemma CountedBacks(g: Group, net: set<Message>, n: Node, p: FP.Proposal, attrs: Attrs)
    requires g.Valid() && p.self == g.owner && 1 + |FP.Matching(p, n.preOK, attrs)| >= Q.Fast(|g.voters|)
    requires forall j :: Counted(g, net, g.owner, n, j)
    ensures FastBacked(g, net, attrs)
  {
    var q := {g.owner} + FP.Matching(p, n.preOK, attrs);
    forall j
      ensures j in q ==> j in g.Set()
      ensures Backs(g, net, attrs, q, j)
    {
      assert Counted(g, net, g.owner, n, j);
    }
    assert BackedBy(g, net, attrs, q);
  }

  /** Giving up the fast path: the owner accepts its own value. */
  lemma OwnAcceptKeeps(g: Group, w: World, i: ReplicaID)
    requires g.Valid() && Inv(g, w) && i in w.nodes && w.nodes[i].phase.PreAcceptPhase? && w.nodes[i].preOK != map[]
    ensures Inv(g, Put(w, i,
                       StartAccept(i, w.nodes[i],
                                   Tuple(MergedVotes(g.voters, w.nodes[i].preOK), Mem(w.nodes[i]).tuple.value))))
  {
    var n := w.nodes[i];
    assert NodeOK(g, w, i);
    var j :| j in n.preOK;
    assert Counted(g, w.net, i, n, j);
    var t := Tuple(MergedVotes(g.voters, n.preOK), Mem(n).tuple.value);
    assert AcceptsOwn(g, i, Mem(n), Rec(Mem(n).ballot, Mem(n).ballot, Accepted, t, false));
    StartAcceptKeeps(g, w, i, t);
  }

  /** Counting one more reply. */
  lemma CountsReply(g: Group, w: World, i: ReplicaID, m: Message)
    requires g.Valid() && Inv(g, w) && i in w.nodes && m in w.net && m.PreAcceptResp? && m.from != i
             && m.from in g.voters
    requires w.nodes[i].phase.PreAcceptPhase? && i == g.owner && Mem(w.nodes[i]).ballot.replica == i
             && m.ballot == Mem(w.nodes[i]).ballot
    ensures Inv(g, Put(w, i,
                       w.nodes[i].(preOK := w.nodes[i].preOK[m.from := FP.Vote(m.attrs, m.eligible, m.committed)])))
    ensures Mem(w.nodes[i]).ballot == g.Initial()
  {
    var n := w.nodes[i];
    var counted := n.(preOK := n.preOK[m.from := FP.Vote(m.attrs, m.eligible, m.committed)]);
    assert NodeOK(g, w, i);
    MemShaped(g, w, i);
    forall o
      ensures Vouched(g, i, counted, o)
    {
      assert Vouched(g, i, n, o);
    }
    forall j
      ensures Counted(g, w.net, i, counted, j)
    {
      assert Counted(g, w.net, i, n, j);
    }
    KeepsNode(g, w, i, counted);
  }

  lemma FinalizeKeeps(g: Group, w: World, i: ReplicaID, env: Local)
    requires g.Valid() && Inv(g, w) && i in w.nodes && i == g.owner && w.nodes[i].phase.PreAcceptPhase?
    requires Mem(w.nodes[i]).ballot == g.Initial() && w.nodes[i].preOK != map[]
    ensures Inv(g, Put(w, i, FinalizePreAccept(g, i, w.nodes[i], env)))
  {
    var n := w.nodes[i];
    var mem := Mem(n);
    assert NodeOK(g, w, i);
    MemShaped(g, w, i);
    KeepsSame(g, w, i);
    var p := FP.Proposal(i, mem.tuple.attrs, mem.eligible, mem.ballot.IsInitialFor(g.owner));
    var fast := FP.FastCommitAttrs(p, g.voters, n.preOK, env.through);
    if fast.Some? {
      CountedBacks(g, w.net, n, p, fast.value);
      var rec := mem.(tuple := Tuple(fast.value, mem.tuple.value));
      assert CommitsFast(g, w.net, i, mem, rec.(status := Committed, eligible := false));
      DoCommitKeeps(g, w, i, rec);
    } else {
      OwnAcceptKeeps(g, w, i);
    }
  }

  lemma PreAcceptRespKeeps(g: Group, w: World, i: ReplicaID, m: Message, env: Local)
    requires g.Valid() && Inv(g, w) && i in w.nodes && m in w.net && m.PreAcceptResp? && m.from != i
    ensures Inv(g, Put(w, i,
                       HandlePreAcceptResp(g, i, w.nodes[i], m.from, m.ballot,
                                           FP.Vote(m.attrs, m.eligible, m.committed), env)))
  {
    var n := w.nodes[i];
    var vote := FP.Vote(m.attrs, m.eligible, m.committed);
    if HandlePreAcceptResp(g, i, n, m.from, m.ballot, vote, env) == n {
      KeepsSame(g, w, i);
    } else {
      CountsReply(g, w, i, m);
      var counted := n.(preOK := n.preOK[m.from := vote]);
      assert m.from in counted.preOK;
      FinalizeKeeps(g, Put(w, i, counted), i, env);
      PutTwice(w, i, counted, HandlePreAcceptResp(g, i, n, m.from, m.ballot, vote, env));
    }
  }

  lemma PutTwice(w: World, i: ReplicaID, a: Node, b: Node)
    ensures Put(Put(w, i, a), i, b) == Put(w, i, b)
  {
  }

  lemma GiveUpFastKeeps(g: Group, w: World, i: ReplicaID)
    requires g.Valid() && Inv(g, w) && i in w.nodes
    ensures Inv(g, Put(w, i, GiveUpFast(g, i, w.nodes[i])))
  {
    if GiveUpFast(g, i, w.nodes[i]) == w.nodes[i] {
      KeepsSame(g, w, i);
    } else {
      OwnAcceptKeeps(g, w, i);
    }
  }

  lemma AcceptKeeps(g: Group, w: World, i: ReplicaID, m: Message)
    requires g.Valid() && Inv(g, w) && i in w.nodes && m in w.net && m.Accept? && m.from != i
    ensures Inv(g, Put(w, i, HandleAccept(i, w.nodes[i], m.ballot, m.tuple)))
  {
    var n, b, t := w.nodes[i], m.ballot, m.tuple;
    var mem := Mem(n);
    var r := SenderRecord(g, w, m);
    KeepsSame(g, w, i);
    if mem.status.Final() {
      SaysCommit(g, w, i);
    } else if b.Less(mem.ballot) {
      SaysOnly(g, w, i, Reject(i, mem.ballot, AcceptRound));
    } else if mem.status.Accepted? && b == mem.ballot && mem.recordBallot == b {
      SaysOnly(g, w, i, AcceptResp(i, b, b, mem.tuple.attrs));
    } else if mem.status.PreAccepted? && mem.recordBallot == b && mem.tuple.value != t.value {
    } else {
      var rec := Rec(b, b, Accepted, t, false);
      assert Accepts(g, w.net, i, mem, rec);
      StoresAndSays(g, w, i, rec, Idle, AcceptResp(i, b, b, t.attrs));
    }
  }

  lemma AcceptRespKeeps(g: Group, w: World, i: ReplicaID, m: Message)
    requires g.Valid() && Inv(g, w) && i in w.nodes && m in w.net && m.AcceptResp? && m.from != i
    ensures Inv(g, Put(w, i, HandleAcceptResp(g, i, w.nodes[i], m.from, m.ballot, m.recordBallot, m.attrs)))
  {
    var n := w.nodes[i];
    var mem := Mem(n);
    var result := HandleAcceptResp(g, i, n, m.from, m.ballot, m.recordBallot, m.attrs);
    if result == n {
      KeepsSame(g, w, i);
    } else {
      var r := SenderRecord(g, w, m);
      var counted := n.(accOK := n.accOK + {m.from});
      CountsAcknowledgement(g, w, i, m);
      if |counted.accOK| >= Q.Slow(|g.voters|) {
        var after := Put(w, i, counted);
        AllAcknowledged(g, after, i);
        MemShaped(g, w, i);
        DoCommitKeeps(g, after, i, mem);
        PutTwice(w, i, counted, result);
      }
    }
  }

  lemma CountsAcknowledgement(g: Group, w: World, i: ReplicaID, m: Message)
    requires g.Valid() && Inv(g, w) && i in w.nodes && m in w.net && m.AcceptResp? && m.from != i && m.from in g.voters
    requires w.nodes[i].phase.AcceptPhase? && m.ballot == Mem(w.nodes[i]).ballot
    requires m.recordBallot == Mem(w.nodes[i]).recordBallot && m.attrs == Mem(w.nodes[i]).tuple.attrs
    ensures Inv(g, Put(w, i, w.nodes[i].(accOK := w.nodes[i].accOK + {m.from})))
  {
    var n := w.nodes[i];
    var counted := n.(accOK := n.accOK + {m.from});
    assert NodeOK(g, w, i);
    forall o
      ensures Vouched(g, i, counted, o)
    {
      assert Vouched(g, i, n, o);
    }
    forall j
      ensures Counted(g, w.net, i, counted, j)
    {
      assert Counted(g, w.net, i, n, j);
    }
    KeepsNode(g, w, i, counted);
  }

  lemma AllAcknowledged(g: Group, w: World, i: ReplicaID)
    requires g.Valid() && Inv(g, w) && i in w.nodes && w.nodes[i].phase.AcceptPhase?
    requires Mem(w.nodes[i]).recordBallot == Mem(w.nodes[i]).ballot && |w.nodes[i].accOK| >= Q.Slow(|g.voters|)
    ensures CommitsAccepted(g, w.net, i, Mem(w.nodes[i]), Mem(w.nodes[i]).(status := Committed, eligible := false))
  {
    var n := w.nodes[i];
    assert NodeOK(g, w, i);
    forall j
      ensures Acknowledged(w.net, i, Mem(n), n.accOK, j)
      ensures j in n.accOK ==> j in g.Set() && (j == i ==> i == Mem(n).ballot.replica)
    {
      assert Counted(g, w.net, i, n, j);
    }
    assert AcceptedBy(g, w.net, i, Mem(n), Mem(n).(status := Committed, eligible := false), n.accOK);
  }

  lemma CommitKeeps(g: Group, w: World, i: ReplicaID, m: Message)
    requires g.Valid() && Inv(g, w) && i in w.nodes && m in w.net && m.Commit?
    ensures Inv(g, Put(w, i, HandleCommit(w.nodes[i], m.ballot, m.recordBallot, m.tuple)))
  {
    var n := w.nodes[i];
    var result := HandleCommit(n, m.ballot, m.recordBallot, m.tuple);
    if result == n {
      KeepsSame(g, w, i);
    } else {
      var r := SenderRecord(g, w, m);
      MemShaped(g, w, i);
      var rec := Rec(Higher(Mem(n).ballot, m.ballot), m.recordBallot, Committed, m.tuple, false);
      assert Teaches(m, rec);
      assert CommitsLearned(g, w.net, Mem(n), rec);
      assert NodeOK(g, w, i);
      StoreInv(g, w.net, i, n, rec, CommittedPhase);
      StoresRecord(g, w, i, result, rec);
    }
  }

  lemma PrepareKeeps(g: Group, w: World, i: ReplicaID, m: Message)
    requires g.Valid() && Inv(g, w) && i in w.nodes && m in w.net && m.Prepare?
    ensures Inv(g, Put(w, i, HandlePrepare(i, w.nodes[i], m.ballot)))
  {
    var n, b := w.nodes[i], m.ballot;
    var mem := Mem(n);
    var r := SenderRecord(g, w, m);
    MemShaped(g, w, i);
    if b.Less(mem.ballot) {
      SaysOnly(g, w, i, Reject(i, mem.ballot, PrepareRound));
    } else if n.log == [] || mem.ballot.Less(b) {
      var rec := mem.(ballot := b);
      assert Promises(mem, rec);
      StoresAndSays(g, w, i, rec, Idle, PrepareResp(i, b, rec));
    } else {
      SaysOnly(g, w, i, PrepareResp(i, b, mem));
    }
  }

  lemma StartPrepareKeeps(g: Group, w: World, i: ReplicaID, base: Ballot)
    requires g.Valid() && Inv(g, w) && i in w.nodes && !Mem(w.nodes[i]).status.Final()
    ensures Inv(g, Put(w, i, StartPrepare(i, w.nodes[i], base)))
  {
    var n := w.nodes[i];
    assert NodeOK(g, w, i);
    MemShaped(g, w, i);
    var next := Higher(base, Mem(n).ballot).Next(i);
    if next.None? {
      KeepsSame(g, w, i);
    } else {
      var rec := Mem(n).(ballot := next.value);
      assert Promises(Mem(n), rec);
      var stored := Store(n, rec, PreparePhase).(prepareOK := map[i := rec]);
      PreparingInv(g, w.net, i, n, rec);
      SayInv(g, w.net, i, stored, Prepare(i, next.value));
      StoresRecord(g, w, i, StartPrepare(i, n, base), rec);
    }
  }

  lemma PreparingInv(g: Group, net: set<Message>, i: ReplicaID, n: Node, rec: Rec)
    requires NodeInv(g, net, i, n) && i in g.voters && rec.ballot.IsRecovery() && rec.ballot.replica == i
             && !rec.status.Final()
    ensures NodeInv(g, net, i, Store(n, rec, PreparePhase).(prepareOK := map[i := rec]))
  {
    var stored := Store(n, rec, PreparePhase).(prepareOK := map[i := rec]);
    forall o
      ensures Vouched(g, i, stored, o)
    {
      assert Vouched(g, i, n, o);
    }
    forall j
      ensures Counted(g, net, i, stored, j)
    {
    }
  }

  lemma RejectKeeps(g: Group, w: World, i: ReplicaID, round: Round, hint: Ballot)
    requires g.Valid() && Inv(g, w) && i in w.nodes
    ensures Inv(g, Put(w, i, HandleReject(g, i, w.nodes[i], round, hint)))
  {
    KeepsSame(g, w, i);
    if Awaits(g, i, w.nodes[i], round) {
      assert NodeOK(g, w, i);
      StartPrepareKeeps(g, w, i, hint);
    }
  }

  lemma RecoverKeeps(g: Group, w: World, i: ReplicaID)
    requires g.Valid() && Inv(g, w) && i in w.nodes
    ensures Inv(g, Put(w, i, Recover(i, w.nodes[i])))
  {
    KeepsSame(g, w, i);
    if !Mem(w.nodes[i]).status.Final() {
      StartPrepareKeeps(g, w, i, Mem(w.nodes[i]).ballot);
    }
  }
}
