/** Recovery and Try rounds keep the cluster invariant. */
module ClusterRecovery {
  import opened Types
  import opened Ballots
  import opened Attributes
  import opened Protocol
  import opened Agreement
  import opened Recovery
  import opened Handlers
  import opened Cluster
  import opened ClusterSteps
  import Q = Quorum

  /** An answer the coordinator holds is a well-shaped entry of the answerer's log, at the surveying ballot. */
  ghost predicate Known(g: Group, l: Ledger, b: Ballot, answers: Answers, j: ReplicaID) {
    j in answers ==>
      j in g.voters && Shaped(g, answers[j]) && answers[j].ballot == b && exists k :: At(l, j, k, answers[j])
  }

  lemma AnswersKnown(g: Group, w: World, i: ReplicaID, j: ReplicaID)
    requires g.Valid() && Inv(g, w) && i in w.nodes && w.nodes[i].phase.PreparePhase?
    ensures Known(g, LedgerOf(w), Mem(w.nodes[i]).ballot, w.nodes[i].prepareOK, j)
  {
    var n, l := w.nodes[i], LedgerOf(w);
    assert NodeOK(g, w, i);
    assert Counted(g, w.net, i, n, j);
    MemShaped(g, w, i);
    if j == i {
      assert n.log != [] && At(l, i, |n.log| - 1, Mem(n));
    } else if j in n.prepareOK {
      var m := PrepareResp(j, Mem(n).ballot, n.prepareOK[j]);
      assert Backed(g, l, m);
      var k :| BackedAt(g, l, m, k);
      LogShaped(g, l, j, k);
      assert At(l, j, k, n.prepareOK[j]);
    }
  }

  /** Accepted answers of one record ballot carry one tuple. */
  lemma KnownConsistent(g: Group, l: Ledger, b: Ballot, answers: Answers)
    requires g.Valid() && Justified(g, l) && forall j :: Known(g, l, b, answers, j)
    ensures OneTupleEach(answers)
  {
    forall j, h
      ensures SameTuple(answers, j, h)
    {
      assert Known(g, l, b, answers, j) && Known(g, l, b, answers, h);
      if j in answers && h in answers && answers[j].status.Accepted? && answers[h].status.Accepted?
         && answers[j].recordBallot == answers[h].recordBallot {
        var k :| At(l, j, k, answers[j]);
        var m :| At(l, h, m, answers[h]);
        OneTuplePerBallot(g, l, j, k, h, m, answers[j].recordBallot, answers[j].tuple, answers[h].tuple);
      }
    }
  }

  /** Nobody has accepted at a recovery ballot before its owner. */
  lemma NoneBeforeOwner(g: Group, l: Ledger, i: ReplicaID, answers: Answers, j: ReplicaID)
    requires g.Valid() && Justified(g, l) && i in g.voters && Log(l, i) != []
    requires Log(l, i)[|Log(l, i)| - 1].ballot.replica == i && !Log(l, i)[|Log(l, i)| - 1].status.Final()
    requires !(Log(l, i)[|Log(l, i)| - 1].status.Accepted?
               && Log(l, i)[|Log(l, i)| - 1].recordBallot == Log(l, i)[|Log(l, i)| - 1].ballot)
    requires Known(g, l, Log(l, i)[|Log(l, i)| - 1].ballot, answers, j) && j in answers && answers[j].status.Accepted?
    ensures answers[j].recordBallot.Less(Log(l, i)[|Log(l, i)| - 1].ballot)
  {
    var last := |Log(l, i)| - 1;
    var b := Log(l, i)[last].ballot;
    if answers[j].recordBallot == b {
      var k :| At(l, j, k, answers[j]);
      var own := VoteOrigin(g, l, j, k, b, answers[j].tuple);
      LogForward(g, l, i, own, last);
      assert false;
    }
  }

  /** What the coordinator holds is a survey, unless it already accepted at this ballot. */
  lemma HeldSurvey(g: Group, w: World, i: ReplicaID)
    requires g.Valid() && Inv(g, w) && i in w.nodes && w.nodes[i].phase.PreparePhase?
    requires |w.nodes[i].prepareOK| >= Q.Slow(|g.voters|)
    requires !(Mem(w.nodes[i]).status.Accepted? && Mem(w.nodes[i]).recordBallot == Mem(w.nodes[i]).ballot)
    requires forall j <- g.voters :: j in w.nodes[i].prepareOK ==> !w.nodes[i].prepareOK[j].status.Final()
    ensures Surveyed(g, w.net, i, Mem(w.nodes[i]), w.nodes[i].prepareOK)
  {
    var n, l := w.nodes[i], LedgerOf(w);
    var mem, answers := Mem(n), n.prepareOK;
    assert NodeOK(g, w, i) && i in g.Set();
    forall j
      ensures AnswerSafe(g, w.net, i, mem.ballot, answers, j) && (j in answers ==> j in g.Set())
    {
      assert Counted(g, w.net, i, n, j);
      AnswersKnown(g, w, i, j);
      if j in answers && answers[j].status.Accepted? {
        assert n.log != [];
        NoneBeforeOwner(g, l, i, answers, j);
      }
    }
  }

  /** Following the highest accepted answer. */
  lemma FollowsBest(g: Group, w: World, i: ReplicaID, best: Best)
    requires g.Valid() && Inv(g, w) && i in w.nodes && w.nodes[i].phase.PreparePhase?
    requires |w.nodes[i].prepareOK| >= Q.Slow(|g.voters|)
    requires forall j <- g.voters :: j in w.nodes[i].prepareOK ==> !w.nodes[i].prepareOK[j].status.Final()
    requires BestAccepted(g.voters, w.nodes[i].prepareOK) == Some(best)
    ensures Inv(g, Put(w, i, StartAccept(i, w.nodes[i], Tuple(best.attrs, best.rec.tuple.value))))
  {
    var n, l := w.nodes[i], LedgerOf(w);
    var mem, answers := Mem(n), n.prepareOK;
    assert NodeOK(g, w, i);
    forall j
      ensures Known(g, l, mem.ballot, answers, j)
    {
      AnswersKnown(g, w, i, j);
    }
    KnownConsistent(g, l, mem.ballot, answers);
    BestIsHighest(g.voters, answers);
    var h :| IsBest(g.voters, answers, best, h);
    assert Known(g, l, mem.ballot, answers, h) && Known(g, l, mem.ballot, answers, i) && SameTuple(answers, h, i);
    var t := Tuple(best.attrs, best.rec.tuple.value);
    var rec := Rec(mem.ballot, mem.ballot, Accepted, t, false);
    if mem.status.Accepted? && mem.recordBallot == mem.ballot {
      assert OutrankedBy(answers, best.rec.recordBallot, i);
      assert AcceptsAgain(mem, rec);
    } else {
      HeldSurvey(g, w, i);
      forall j
        ensures AnswerFollowed(answers, t, j)
      {
        assert Known(g, l, mem.ballot, answers, j);
        if j in answers && answers[j].status.Accepted? {
          assert OutrankedBy(answers, best.rec.recordBallot, j);
          assert Outranks(answers, t, j, h);
        }
      }
      assert CarriesValue(answers, t.value, h) && !PlainAnswer(g, answers, h);
      assert RecoveredFrom(g, w.net, i, mem, rec, answers);
    }
    StartAcceptKeeps(g, w, i, t);
  }

  /** With all answers plain, no tuple passed over has enough eligible records. */
  lemma PassedOver(g: Group, l: Ledger, b: Ballot, answers: Answers)
    requires g.Valid() && forall j :: Known(g, l, b, answers, j)
    requires forall j :: PlainAnswer(g, answers, j)
    requires First(g.voters, TryPool(|g.voters|, answers, TopPreAccepted(g.voters, answers))).None?
    ensures !TryCandidate(g, answers)
  {
    if TryCandidate(g, answers) {
      CandidateInPool(g, l, b, answers);
    }
  }

  /** A tuple enough eligible answers agree on is in the pool of the top ballot. */
  lemma CandidateInPool(g: Group, l: Ledger, b: Ballot, answers: Answers)
    requires g.Valid() && forall j :: Known(g, l, b, answers, j)
    requires TryCandidate(g, answers) && forall j :: PlainAnswer(g, answers, j)
    ensures exists j <- g.voters :: j in TryPool(|g.voters|, answers, TopPreAccepted(g.voters, answers))
  {
    var top := TopPreAccepted(g.voters, answers);
    TopIsHighest(g.voters, answers);
    var j :| j in answers && answers[j].eligible && |EligibleIn(answers, answers[j].tuple)| >= Q.Witness(|g.voters|);
    var t := answers[j].tuple;
    assert Known(g, l, b, answers, j) && PlainAnswer(g, answers, j);
    assert top == g.Initial() by {
      assert j in g.voters && answers[j].recordBallot.AtMost(top);
      var h :| h in g.voters && h in PreAcceptedAt(answers, top);
      assert PlainAnswer(g, answers, h);
    }
    forall h
      ensures h in EligibleIn(answers, t) <==> h in Witnesses(answers, top, t)
    {
      assert Known(g, l, b, answers, h);
    }
    assert EligibleIn(answers, t) == Witnesses(answers, top, t);
    assert j in TryPool(|g.voters|, answers, top);
  }

  /** Without a pre-accepted answer at the top ballot every answer is empty. */
  lemma AllEmpty(g: Group, l: Ledger, b: Ballot, answers: Answers, h: ReplicaID)
    requires g.Valid() && Known(g, l, b, answers, h) && NotAccepted(answers, h)
             && (h in answers ==> !answers[h].status.Final())
    requires First(g.voters, PreAcceptedAt(answers, TopPreAccepted(g.voters, answers))).None?
    ensures EmptyAnswer(answers, h)
  {
    TopIsHighest(g.voters, answers);
  }

  /** Accepting the pre-accepted value, or the fallback, when nothing was accepted and nothing can be tried. */
  lemma AcceptsUnaccepted(g: Group, w: World, i: ReplicaID, t: Tuple, env: Local)
    requires g.Valid() && Inv(g, w) && i in w.nodes && Surveyed(g, w.net, i, Mem(w.nodes[i]), w.nodes[i].prepareOK)
    requires w.nodes[i].phase.PreparePhase? && forall j :: NotAccepted(w.nodes[i].prepareOK, j)
    requires DecideUnaccepted(g, w.nodes[i].prepareOK, env.attrs, FallbackValue(g, env)) == Accepting(t)
    ensures Inv(g, Put(w, i, StartAccept(i, w.nodes[i], t)))
  {
    var n, l := w.nodes[i], LedgerOf(w);
    var mem, answers := Mem(n), n.prepareOK;
    forall j
      ensures Known(g, l, mem.ballot, answers, j) && AnswerFollowed(answers, t, j)
    {
      AnswersKnown(g, w, i, j);
      assert NotAccepted(answers, j);
    }
    var rec := Rec(mem.ballot, mem.ballot, Accepted, t, false);
    if forall j :: PlainAnswer(g, answers, j) {
      PassedOver(g, l, mem.ballot, answers);
    }
    var first := First(g.voters, PreAcceptedAt(answers, TopPreAccepted(g.voters, answers)));
    if first.Some? {
      assert CarriesValue(answers, t.value, first.value);
    } else {
      forall h
        ensures EmptyAnswer(answers, h)
      {
        assert AnswerSafe(g, w.net, i, mem.ballot, answers, h) && Known(g, l, mem.ballot, answers, h)
               && NotAccepted(answers, h);
        AllEmpty(g, l, mem.ballot, answers, h);
      }
    }
    assert RecoveredFrom(g, w.net, i, mem, rec, answers);
    StartAcceptKeeps(g, w, i, t);
  }

  /** A tuple that may have been committed fast may be tried. */
  lemma TryJustified(g: Group, w: World, i: ReplicaID, t: Tuple, witnesses: set<ReplicaID>, env: Local)
    requires g.Valid() && Inv(g, w) && i in w.nodes && Surveyed(g, w.net, i, Mem(w.nodes[i]), w.nodes[i].prepareOK)
    requires w.nodes[i].phase.PreparePhase? && forall j :: NotAccepted(w.nodes[i].prepareOK, j)
    requires DecideUnaccepted(g, w.nodes[i].prepareOK, env.attrs, FallbackValue(g, env)) == Trying(t, witnesses)
    ensures TriesOwn(g, w.net, i, Mem(w.nodes[i]),
                     Rec(Mem(w.nodes[i]).ballot, Mem(w.nodes[i]).ballot, PreAccepted, t, false))
    ensures t.attrs.seqNo >= 1
  {
    var mem, answers := Mem(w.nodes[i]), w.nodes[i].prepareOK;
    var top := TopPreAccepted(g.voters, answers);
    TopIsHighest(g.voters, answers);
    var pool := First(g.voters, TryPool(|g.voters|, answers, top)).value;
    AnswersKnown(g, w, i, pool);
    AnswersKnown(g, w, i, i);
    assert NotAccepted(answers, i) && EligibleAnswer(answers, t, pool);
    assert TriedFrom(g, w.net, i, mem, Rec(mem.ballot, mem.ballot, PreAccepted, t, false), answers);
  }

  lemma TriesUnaccepted(g: Group, w: World, i: ReplicaID, t: Tuple, witnesses: set<ReplicaID>, env: Local)
    requires g.Valid() && Inv(g, w) && i in w.nodes && Surveyed(g, w.net, i, Mem(w.nodes[i]), w.nodes[i].prepareOK)
    requires w.nodes[i].phase.PreparePhase? && forall j :: NotAccepted(w.nodes[i].prepareOK, j)
    requires DecideUnaccepted(g, w.nodes[i].prepareOK, env.attrs, FallbackValue(g, env)) == Trying(t, witnesses)
    ensures Inv(g, Put(w, i, StartTry(g, i, w.nodes[i], t, witnesses)))
  {
    TryJustified(g, w, i, t, witnesses, env);
    StartTryKeeps(g, w, i, t, witnesses);
  }

  lemma StartTryKeeps(g: Group, w: World, i: ReplicaID, t: Tuple, witnesses: set<ReplicaID>)
    requires g.Valid() && Inv(g, w) && i in w.nodes && w.nodes[i].phase.PreparePhase? && t.attrs.seqNo >= 1
    requires TriesOwn(g, w.net, i, Mem(w.nodes[i]),
                      Rec(Mem(w.nodes[i]).ballot, Mem(w.nodes[i]).ballot, PreAccepted, t, false))
    ensures Inv(g, Put(w, i, StartTry(g, i, w.nodes[i], t, witnesses)))
  {
    var n := w.nodes[i];
    assert NodeOK(g, w, i);
    TryRecordKeeps(g, w, i, t, witnesses);
    var tried := TryRecord(g, n, t, witnesses);
    AsksToTry(g, Put(w, i, tried), i);
    TryStarts(g, i, n, t, witnesses);
    PutTwice(w, i, tried, AskedToTry(g, i, tried));
  }

  /** What follows the try record. */
  function AskedToTry(g: Group, i: ReplicaID, n: Node): Node {
    if |n.tryOK| >= Q.Slow(|g.voters|) then StartAccept(i, n, Mem(n).tuple)
    else Say(n, TryPreAccept(i, Mem(n).ballot, Mem(n).tuple))
  }

  lemma TryStarts(g: Group, i: ReplicaID, n: Node, t: Tuple, witnesses: set<ReplicaID>)
    requires !n.phase.CommittedPhase?
    ensures StartTry(g, i, n, t, witnesses) == AskedToTry(g, i, TryRecord(g, n, t, witnesses))
  {
  }

  /** The Try round either has its quorum at once or asks the voters. */
  lemma AsksToTry(g: Group, w: World, i: ReplicaID)
    requires g.Valid() && Inv(g, w) && i in w.nodes && w.nodes[i].phase.TryPhase?
    ensures Inv(g, Put(w, i, AskedToTry(g, i, w.nodes[i])))
  {
    var n := w.nodes[i];
    assert NodeOK(g, w, i);
    if |n.tryOK| >= Q.Slow(|g.voters|) {
      MemShaped(g, w, i);
      AcceptsAfterTry(g, w, i, Mem(n).tuple.attrs);
    } else {
      SaysOnly(g, w, i, TryPreAccept(i, Mem(n).ballot, Mem(n).tuple));
    }
  }

  lemma TryRecordKeeps(g: Group, w: World, i: ReplicaID, t: Tuple, witnesses: set<ReplicaID>)
    requires g.Valid() && Inv(g, w) && i in w.nodes && Mem(w.nodes[i]).ballot.IsRecovery()
             && Mem(w.nodes[i]).ballot.replica == i
    requires TriesOwn(g, w.net, i, Mem(w.nodes[i]),
                      Rec(Mem(w.nodes[i]).ballot, Mem(w.nodes[i]).ballot, PreAccepted, t, false))
    requires t.attrs.seqNo >= 1
    ensures Inv(g, Put(w, i, TryRecord(g, w.nodes[i], t, witnesses)))
  {
    var n := w.nodes[i];
    var rec := Rec(Mem(n).ballot, Mem(n).ballot, PreAccepted, t, false);
    assert NodeOK(g, w, i);
    StoreInv(g, w.net, i, n, rec, TryPhase);
    CountsTries(g, w.net, i, Store(n, rec, TryPhase), witnesses + {g.owner});
    StoresRecord(g, w, i, TryRecord(g, n, t, witnesses), rec);
  }

  lemma CountsTries(g: Group, net: set<Message>, i: ReplicaID, n: Node, ok: set<ReplicaID>)
    requires NodeInv(g, net, i, n)
    ensures NodeInv(g, net, i, n.(tryOK := ok))
  {
    forall o
      ensures Vouched(g, i, n.(tryOK := ok), o)
    {
      assert Vouched(g, i, n, o);
    }
    forall j
      ensures Counted(g, net, i, n.(tryOK := ok), j)
    {
      assert Counted(g, net, i, n, j);
    }
  }

  /** Adopting a final answer. */
  lemma AdoptsFinal(g: Group, w: World, i: ReplicaID, f: ReplicaID)
    requires g.Valid() && Inv(g, w) && i in w.nodes && w.nodes[i].phase.PreparePhase?
    requires f in w.nodes[i].prepareOK && w.nodes[i].prepareOK[f].status.Final()
    ensures Inv(g, Put(w, i, DoCommit(i, w.nodes[i], w.nodes[i].prepareOK[f])))
  {
    var n := w.nodes[i];
    var rec := n.prepareOK[f];
    assert NodeOK(g, w, i);
    AnswersKnown(g, w, i, f);
    assert Counted(g, w.net, i, n, f);
    var done := rec.(status := Committed, eligible := false);
    var m := PrepareResp(f, Mem(n).ballot, rec);
    assert m in w.net && Teaches(m, done);
    assert CommitsLearned(g, w.net, Mem(n), done);
    DoCommitKeeps(g, w, i, rec);
  }

  lemma CarryKeeps(g: Group, w: World, i: ReplicaID, env: Local)
    requires g.Valid() && Inv(g, w) && i in w.nodes && w.nodes[i].phase.PreparePhase?
    requires |w.nodes[i].prepareOK| >= Q.Slow(|g.voters|)
    ensures Inv(g, Put(w, i,
                       Carry(g, i, w.nodes[i], Decide(g, w.nodes[i].prepareOK, env.attrs, FallbackValue(g, env)))))
  {
    var n, l := w.nodes[i], LedgerOf(w);
    var mem, answers := Mem(n), n.prepareOK;
    var final := First(g.voters, set j | j in answers && answers[j].status.Final());
    if final.Some? {
      AdoptsFinal(g, w, i, final.value);
    } else {
      var best := BestAccepted(g.voters, answers);
      if best.Some? {
        FollowsBest(g, w, i, best.value);
      } else {
        UnacceptedKeeps(g, w, i, env);
      }
    }
  }

  lemma NoneAccepted(g: Group, w: World, i: ReplicaID)
    requires g.Valid() && Inv(g, w) && i in w.nodes && w.nodes[i].phase.PreparePhase?
    requires BestAccepted(g.voters, w.nodes[i].prepareOK).None?
    ensures forall j :: NotAccepted(w.nodes[i].prepareOK, j)
  {
    var l, answers := LedgerOf(w), w.nodes[i].prepareOK;
    var b := Mem(w.nodes[i]).ballot;
    forall j
      ensures Known(g, l, b, answers, j)
    {
      AnswersKnown(g, w, i, j);
    }
    KnownConsistent(g, l, b, answers);
    BestIsHighest(g.voters, answers);
    forall j
      ensures NotAccepted(answers, j)
    {
      assert Known(g, l, b, answers, j);
    }
  }

  lemma UnacceptedKeeps(g: Group, w: World, i: ReplicaID, env: Local)
    requires g.Valid() && Inv(g, w) && i in w.nodes && w.nodes[i].phase.PreparePhase?
    requires |w.nodes[i].prepareOK| >= Q.Slow(|g.voters|)
    requires forall j <- g.voters :: j in w.nodes[i].prepareOK ==> !w.nodes[i].prepareOK[j].status.Final()
    requires BestAccepted(g.voters, w.nodes[i].prepareOK).None?
    ensures Inv(g, Put(w, i,
                       Carry(g, i, w.nodes[i],
                             DecideUnaccepted(g, w.nodes[i].prepareOK, env.attrs, FallbackValue(g, env)))))
  {
    assert NodeOK(g, w, i);
    NoneAccepted(g, w, i);
    assert NotAccepted(w.nodes[i].prepareOK, i);
    HeldSurvey(g, w, i);
    match DecideUnaccepted(g, w.nodes[i].prepareOK, env.attrs, FallbackValue(g, env)) {
      case Refuse => KeepsSame(g, w, i);
      case Accepting(t) => AcceptsUnaccepted(g, w, i, t, env);
      case Trying(t, witnesses) => TriesUnaccepted(g, w, i, t, witnesses, env);
    }
  }

  lemma PrepareRespKeeps(g: Group, w: World, i: ReplicaID, m: Message, env: Local)
    requires g.Valid() && Inv(g, w) && i in w.nodes && m in w.net && m.PrepareResp? && m.from != i
    ensures Inv(g, Put(w, i, HandlePrepareResp(g, i, w.nodes[i], m.from, m.ballot, m.rec, env)))
  {
    var n := w.nodes[i];
    var mem := Mem(n);
    var result := HandlePrepareResp(g, i, n, m.from, m.ballot, m.rec, env);
    if result == n {
      KeepsSame(g, w, i);
    } else if mem.ballot.Less(m.ballot) {
      assert NodeOK(g, w, i);
      StartPrepareKeeps(g, w, i, m.ballot);
    } else {
      CountsAnswer(g, w, i, m);
      var answered := n.(prepareOK := n.prepareOK[m.from := m.rec]);
      if |answered.prepareOK| >= Q.Slow(|g.voters|) {
        CarryKeeps(g, Put(w, i, answered), i, env);
        PutTwice(w, i, answered, result);
      }
    }
  }

  lemma CountsAnswer(g: Group, w: World, i: ReplicaID, m: Message)
    requires g.Valid() && Inv(g, w) && i in w.nodes && m in w.net && m.PrepareResp? && m.from != i && m.from in g.voters
    requires w.nodes[i].phase.PreparePhase? && m.ballot == Mem(w.nodes[i]).ballot
    ensures Inv(g, Put(w, i, w.nodes[i].(prepareOK := w.nodes[i].prepareOK[m.from := m.rec])))
  {
    var n := w.nodes[i];
    var answered := n.(prepareOK := n.prepareOK[m.from := m.rec]);
    assert NodeOK(g, w, i);
    forall o
      ensures Vouched(g, i, answered, o)
    {
      assert Vouched(g, i, n, o);
    }
    forall j
      ensures Counted(g, w.net, i, answered, j)
    {
      assert Counted(g, w.net, i, n, j);
    }
    KeepsNode(g, w, i, answered);
  }

  lemma TryKeeps(g: Group, w: World, i: ReplicaID, m: Message, env: Local)
    requires g.Valid() && Inv(g, w) && i in w.nodes && m in w.net && m.TryPreAccept? && m.from != i
    ensures Inv(g, Put(w, i, HandleTry(i, w.nodes[i], m.ballot, m.tuple, env)))
  {
    var n, b, t := w.nodes[i], m.ballot, m.tuple;
    var mem := Mem(n);
    var r := SenderRecord(g, w, m);
    MemShaped(g, w, i);
    KeepsSame(g, w, i);
    if mem.status.Final() {
      SaysCommit(g, w, i);
    } else if b.Less(mem.ballot) {
      SaysOnly(g, w, i, Reject(i, mem.ballot, TryRound));
    } else if mem.status.Accepted? {
      if mem.ballot.Less(b) {
        assert Promises(mem, mem.(ballot := b));
        StoresAndSays(g, w, i, mem.(ballot := b), Idle, TryRefused(i, b));
      } else {
        SaysOnly(g, w, i, TryRefused(i, b));
      }
    } else if mem.status.PreAccepted? && b == mem.ballot && mem.recordBallot == b {
      SaysOnly(g, w, i, TryPreAcceptResp(i, b, t.attrs));
    } else if env.conflict {
      SaysOnly(g, w, i, TryConflict(i, b));
    } else {
      assert Tries(w.net, i, mem, Rec(b, b, PreAccepted, t, false));
      StoresAndSays(g, w, i, Rec(b, b, PreAccepted, t, false), Idle, TryPreAcceptResp(i, b, t.attrs));
    }
  }

  /** Accepting after a Try round, with the tried tuple or with more attributes. */
  lemma AcceptsAfterTry(g: Group, w: World, i: ReplicaID, attrs: Attrs)
    requires g.Valid() && Inv(g, w) && i in w.nodes && w.nodes[i].phase.TryPhase? && attrs.seqNo >= 1
    ensures Inv(g, Put(w, i, StartAccept(i, w.nodes[i], Tuple(attrs, Mem(w.nodes[i]).tuple.value))))
  {
    var n := w.nodes[i];
    assert NodeOK(g, w, i);
    var t := Tuple(attrs, Mem(n).tuple.value);
    assert AcceptsTried(i, Mem(n), Rec(Mem(n).ballot, Mem(n).ballot, Accepted, t, false));
    StartAcceptKeeps(g, w, i, t);
  }

  lemma TryRespKeeps(g: Group, w: World, i: ReplicaID, from: ReplicaID, b: Ballot, attrs: Attrs)
    requires g.Valid() && Inv(g, w) && i in w.nodes
    ensures Inv(g, Put(w, i, HandleTryResp(g, i, w.nodes[i], from, b, attrs)))
  {
    var n := w.nodes[i];
    var result := HandleTryResp(g, i, n, from, b, attrs);
    if result == n {
      KeepsSame(g, w, i);
    } else {
      var counted := n.(tryOK := n.tryOK + {from});
      assert NodeOK(g, w, i);
      CountsTries(g, w.net, i, n, n.tryOK + {from});
      KeepsNode(g, w, i, counted);
      if |counted.tryOK| >= Q.Slow(|g.voters|) {
        MemShaped(g, w, i);
        AcceptsAfterTry(g, Put(w, i, counted), i, Mem(n).tuple.attrs);
        PutTwice(w, i, counted, result);
      }
    }
  }

  lemma TryConflictKeeps(g: Group, w: World, i: ReplicaID, env: Local)
    requires g.Valid() && Inv(g, w) && i in w.nodes
    ensures Inv(g, Put(w, i, HandleTryConflict(g, i, w.nodes[i], env)))
  {
    KeepsSame(g, w, i);
    if w.nodes[i].phase.TryPhase? {
      AcceptsAfterTry(g, w, i, Merge(env.attrs, Mem(w.nodes[i]).tuple.attrs));
    }
  }

  lemma TryRefusedKeeps(g: Group, w: World, i: ReplicaID, b: Ballot)
    requires g.Valid() && Inv(g, w) && i in w.nodes
    ensures Inv(g, Put(w, i, HandleTryRefused(g, i, w.nodes[i], b)))
  {
    KeepsSame(g, w, i);
    if w.nodes[i].phase.TryPhase? {
      assert NodeOK(g, w, i);
      StartPrepareKeeps(g, w, i, b);
    }
  }
}
