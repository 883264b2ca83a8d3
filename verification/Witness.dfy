/** What a fast commit leaves behind: enough eligible records in every slow quorum of Prepare answers. */
module Witness {
  import opened Types
  import opened Ballots
  import opened Protocol
  import opened Agreement
  import Q = Quorum

  /** Every pre-accepted entry of the owner's log repeats the proposal it starts with. */
  lemma {:induction false} OwnerProposal(g: Group, l: Ledger, k: nat)
    requires g.Valid() && Justified(g, l) && k < |Log(l, g.owner)| && Log(l, g.owner)[k].status.PreAccepted?
    requires Log(l, g.owner)[k].recordBallot == g.Initial()
    ensures Log(l, g.owner)[0].tuple == Log(l, g.owner)[k].tuple
  {
    assert EvolvesAt(g, l, g.owner, k);
    if k > 0 {
      assert Promises(Log(l, g.owner)[k - 1], Log(l, g.owner)[k]);
      OwnerProposal(g, l, k - 1);
    }
  }

  /** What the owner holds when it commits fast is its proposal. */
  lemma CommittedProposal(g: Group, l: Ledger, m: nat)
    requires g.Valid() && Justified(g, l) && 0 < m < |Log(l, g.owner)|
    requires CommitsFast(g, l.net, g.owner, Log(l, g.owner)[m - 1], Log(l, g.owner)[m])
    ensures Log(l, g.owner)[0].tuple == Log(l, g.owner)[m - 1].tuple
  {
    LogShaped(g, l, g.owner, m - 1);
    OwnerProposal(g, l, m - 1);
  }

  /** A PreAccept message carries the owner's proposal. */
  lemma ProposedTuple(g: Group, l: Ledger, t: Tuple)
    requires g.Valid() && Justified(g, l) && PreAccept(g.owner, g.Initial(), t) in l.net
    ensures Log(l, g.owner) != [] && Log(l, g.owner)[0].tuple == t
  {
    var m := PreAccept(g.owner, g.Initial(), t);
    assert Backed(g, l, m);
    var k :| BackedAt(g, l, m, k);
    OwnerProposal(g, l, k);
  }

  /** There is only ever one eligible tuple: the owner's proposal. */
  lemma {:induction false} EligibleTuple(g: Group, l: Ledger, i: ReplicaID, k: nat)
    requires g.Valid() && Justified(g, l) && i in g.voters && k < |Log(l, i)| && Log(l, i)[k].eligible
    ensures Log(l, g.owner) != [] && Log(l, i)[k].tuple == Log(l, g.owner)[0].tuple
  {
    assert EvolvesAt(g, l, i, k);
    LogShaped(g, l, i, k);
    var prev, next := Previous(Log(l, i), k), Log(l, i)[k];
    if PreAccepts(g, l.net, i, prev, next) {
      var t :| PreAcceptsFrom(g, l.net, i, prev, next, t);
      ProposedTuple(g, l, t);
    } else if k > 0 {
      assert Promises(prev, next);
      EligibleTuple(g, l, i, k - 1);
    }
  }

  /** A voter that backed the owner's exact attributes stored them as an eligible record. */
  lemma BackingRecord(g: Group, l: Ledger, j: ReplicaID, committed: set<nat>) returns (k: nat)
    requires g.Valid() && Justified(g, l) && Log(l, g.owner) != [] && j != g.owner
    requires PreAcceptResp(j, g.Initial(), Log(l, g.owner)[0].tuple.attrs, true, committed) in l.net
    ensures j in g.voters && k < |Log(l, j)| && Log(l, j)[k].eligible && Log(l, j)[k].status.PreAccepted?
    ensures Log(l, j)[k].ballot == g.Initial()
  {
    var m := PreAcceptResp(j, g.Initial(), Log(l, g.owner)[0].tuple.attrs, true, committed);
    assert Backed(g, l, m);
    var a :| BackedAt(g, l, m, a);
    k := a;
    assert EvolvesAt(g, l, j, k);
    var prev, next := Previous(Log(l, j), k), Log(l, j)[k];
    assert PreAccepts(g, l.net, j, prev, next);
    var t :| PreAcceptsFrom(g, l.net, j, prev, next, t);
    ProposedTuple(g, l, t);
  }

  /** rec is what j held when it had promised ballot b. */
  ghost predicate Answers(l: Ledger, j: ReplicaID, b: Ballot, rec: Rec) {
    rec.ballot == b && exists k :: At(l, j, k, rec)
  }

  ghost predicate InconclusiveAnswer(g: Group, l: Ledger, b: Ballot, answers: map<ReplicaID, Rec>, j: ReplicaID) {
    j in answers ==> Answers(l, j, b, answers[j]) && Plain(g, answers[j])
  }

  /** A voter that backed the fast commit shows an eligible record in any later inconclusive answer. */
  lemma BackerShowsEligible(g: Group, l: Ledger, b: Ballot, answers: map<ReplicaID, Rec>, j: ReplicaID,
                            committed: set<nat>)
    requires g.Valid() && Justified(g, l) && Log(l, g.owner) != [] && j != g.owner && b.IsRecovery()
    requires PreAcceptResp(j, g.Initial(), Log(l, g.owner)[0].tuple.attrs, true, committed) in l.net
    requires j in answers && InconclusiveAnswer(g, l, b, answers, j)
    ensures answers[j].eligible && answers[j].tuple == Log(l, g.owner)[0].tuple
  {
    var k := BackingRecord(g, l, j, committed);
    var at :| At(l, j, at, answers[j]);
    if at <= k {
      LogForward(g, l, j, at, k);
      assert false;
    }
    LogForward(g, l, j, k, at);
    EligibleTuple(g, l, j, at);
  }

  /** After its fast commit the owner only gives final answers. */
  lemma OwnerAnswersFinal(g: Group, l: Ledger, k: nat, b: Ballot, rec: Rec)
    requires g.Valid() && Justified(g, l) && 0 < k < |Log(l, g.owner)| && b.IsRecovery()
    requires CommitsFast(g, l.net, g.owner, Log(l, g.owner)[k - 1], Log(l, g.owner)[k])
    requires Answers(l, g.owner, b, rec)
    ensures rec.status.Final()
  {
    var at :| At(l, g.owner, at, rec);
    if at <= k {
      LogForward(g, l, g.owner, at, k);
      assert false;
    }
    LogForward(g, l, g.owner, k, at);
  }

  /**
   Fast-commit witness: once the owner has fast-committed its own tuple, every slow quorum of
   inconclusive Prepare answers at any recovery ballot holds at least a witness quorum of eligible
   records of that tuple, and no other tuple is eligible anywhere.
   */
  lemma FastCommitWitness(g: Group, l: Ledger, k: nat, b: Ballot, answers: map<ReplicaID, Rec>)
    requires g.Valid() && Justified(g, l) && 0 < k < |Log(l, g.owner)| && b.IsRecovery()
    requires CommitsFast(g, l.net, g.owner, Log(l, g.owner)[k - 1], Log(l, g.owner)[k])
    requires Log(l, g.owner)[k].tuple == Log(l, g.owner)[k - 1].tuple
    requires g.SlowQuorum(answers.Keys) && forall j :: InconclusiveAnswer(g, l, b, answers, j)
    ensures |EligibleIn(answers, Log(l, g.owner)[k].tuple)| >= Q.Witness(|g.voters|)
    ensures forall i, m | i in g.voters && 0 <= m < |Log(l, i)| && Log(l, i)[m].eligible ::
              Log(l, i)[m].tuple == Log(l, g.owner)[k].tuple
  {
    var t := Log(l, g.owner)[k].tuple;
    CommittedProposal(g, l, k);
    var q :| BackedBy(g, l.net, t.attrs, q);
    forall j | j in q * answers.Keys
      ensures j in EligibleIn(answers, t)
    {
      assert InconclusiveAnswer(g, l, b, answers, j) && Backs(g, l.net, t.attrs, q, j);
      if j == g.owner {
        OwnerAnswersFinal(g, l, k, b, answers[j]);
        assert false;
      }
      var committed :| PreAcceptResp(j, g.Initial(), t.attrs, true, committed) in l.net;
      BackerShowsEligible(g, l, b, answers, j, committed);
    }
    VotersCounted(g);
    Q.Overlap(g.Set(), q, answers.Keys);
    Q.SubsetSize(q * answers.Keys, EligibleIn(answers, t));
    forall i, m | i in g.voters && 0 <= m < |Log(l, i)| && Log(l, i)[m].eligible
      ensures Log(l, i)[m].tuple == t
    {
      EligibleTuple(g, l, i, m);
    }
  }

  /** Every try record carries the owner's proposal: it may only be the tuple some eligible record shows. */
  lemma {:induction false} TryTuple(g: Group, l: Ledger, i: ReplicaID, k: nat)
    requires g.Valid() && Justified(g, l) && i in g.voters && k < |Log(l, i)| && IsTry(g, Log(l, i)[k])
    ensures Log(l, g.owner) != [] && Log(l, i)[k].tuple == Log(l, g.owner)[0].tuple
    decreases if Log(l, i)[k].recordBallot.replica == i then 0 else 1, k
  {
    assert EvolvesAt(g, l, i, k);
    LogShaped(g, l, i, k);
    var prev, next := Previous(Log(l, i), k), Log(l, i)[k];
    if TriesOwn(g, l.net, i, prev, next) {
      var answers :| TriedFrom(g, l.net, i, prev, next, answers);
      var j :| EligibleAnswer(answers, next.tuple, j);
      var at := AnswerInLog(g, l, i, k, answers, j);
      EligibleTuple(g, l, j, at);
    } else if Tries(l.net, i, prev, next) {
      var m := TryPreAccept(next.ballot.replica, next.ballot, next.tuple);
      assert Backed(g, l, m);
      var at :| BackedAt(g, l, m, at);
      TryTuple(g, l, m.from, at);
    } else {
      assert Promises(prev, next);
      TryTuple(g, l, i, k - 1);
    }
  }

  ghost predicate IsTry(g: Group, r: Rec) {
    r.status.PreAccepted? && r.recordBallot != g.Initial()
  }

  /** The owner's log commits its own proposal fast, unchanged, at entry m. */
  ghost predicate ExactFastCommit(g: Group, l: Ledger, m: int) {
    0 < m < |Log(l, g.owner)| && FastCommitAt(g, l, m, Log(l, g.owner)[m - 1].tuple)
  }

  /** What is accepted after a Try round, by its coordinator or one that meets a try record, is the tried tuple. */
  ghost predicate TryKept(g: Group, l: Ledger, i: ReplicaID, k: int) {
    i in g.voters && 0 <= k < |Log(l, i)| ==>
      && (AcceptsTried(i, Previous(Log(l, i), k), Log(l, i)[k]) ==> Log(l, i)[k].tuple == Previous(Log(l, i), k).tuple)
      && forall answers :: TryFollowed(g, l, i, k, answers)
  }

  ghost predicate TryFollowed(g: Group, l: Ledger, i: ReplicaID, k: int, answers: map<ReplicaID, Rec>) {
    && i in g.voters && 0 <= k < |Log(l, i)|
    && RecoveredFrom(g, l.net, i, Previous(Log(l, i), k), Log(l, i)[k], answers)
    && (forall j :: NotAccepted(answers, j)) && !(forall j :: PlainAnswer(g, answers, j))
    ==> exists j :: j in answers && IsTry(g, answers[j]) && answers[j].tuple == Log(l, i)[k].tuple
  }

  /** A coordinator whose survey shows neither an accepted nor a try record cannot pass over an exact fast commit. */
  lemma PlainSurveyTries(g: Group, l: Ledger, m: int, p: ReplicaID, k: nat, answers: map<ReplicaID, Rec>)
    requires g.Valid() && Justified(g, l) && ExactFastCommit(g, l, m)
    requires p in g.voters && k <= |Log(l, p)| && Surveyed(g, l.net, p, Previous(Log(l, p), k), answers)
    requires forall j :: PlainAnswer(g, answers, j)
    ensures TryCandidate(g, answers)
  {
    var b := Previous(Log(l, p), k).ballot;
    forall j
      ensures InconclusiveAnswer(g, l, b, answers, j)
    {
      if j in answers {
        assert PlainAnswer(g, answers, j) && AnswerSafe(g, l.net, p, b, answers, j);
        var at := AnswerInLog(g, l, p, k, answers, j);
        assert At(l, j, at, answers[j]);
      }
    }
    FastCommitWitness(g, l, m, b, answers);
    Q.SizesOrdered(|g.voters|);
    var e :| e in EligibleIn(answers, Log(l, g.owner)[m].tuple);
  }

  /** The owner never votes in an instance it fast-commits. */
  lemma OwnerNeverVotes(g: Group, l: Ledger, m: int, k: nat, t: Tuple, b: Ballot, u: Tuple)
    requires g.Valid() && Justified(g, l) && FastCommitAt(g, l, m, t)
    ensures !Votes(l, g.owner, k, b, u)
  {
    if Votes(l, g.owner, k, b, u) {
      if k < m {
        LogForward(g, l, g.owner, k, m - 1);
      } else {
        LogForward(g, l, g.owner, m, k);
      }
    }
  }

  /** Recovery without an accepted answer, beside an exact fast commit, goes by a try record and so keeps the tuple. */
  lemma UnvotedRecovery(g: Group, l: Ledger, m: int, p: ReplicaID, k: nat, answers: map<ReplicaID, Rec>)
    requires g.Valid() && Justified(g, l) && ExactFastCommit(g, l, m)
    requires p in g.voters && k < |Log(l, p)|
             && RecoveredFrom(g, l.net, p, Previous(Log(l, p), k), Log(l, p)[k], answers)
    requires (forall j :: NotAccepted(answers, j)) && TryKept(g, l, p, k)
    ensures Log(l, p)[k].tuple == Log(l, g.owner)[m].tuple
  {
    if forall j :: PlainAnswer(g, answers, j) {
      PlainSurveyTries(g, l, m, p, k, answers);
      assert false;
    }
    assert TryFollowed(g, l, p, k, answers);
    var j :| j in answers && IsTry(g, answers[j]) && answers[j].tuple == Log(l, p)[k].tuple;
    var at := AnswerInLog(g, l, p, k, answers, j);
    TryTuple(g, l, j, at);
    CommittedProposal(g, l, m);
  }

  /** Beside an exact fast commit every vote carries its tuple, if accepts after a Try round keep the tried tuple. */
  lemma {:induction false} FastCommitBinds(g: Group, l: Ledger, m: int, j: ReplicaID, k: nat, c: Ballot, u: Tuple)
    requires g.Valid() && Justified(g, l) && ExactFastCommit(g, l, m)
    requires forall i, k :: TryKept(g, l, i, k)
    requires j in g.voters && Votes(l, j, k, c, u)
    ensures u == Log(l, g.owner)[m].tuple
    decreases c.epoch, c.number, c.replica, if j == c.replica then 0 else 1, k
  {
    var t := Log(l, g.owner)[m].tuple;
    var p := c.replica;
    if j != p {
      var own := VoteOrigin(g, l, j, k, c, u);
      FastCommitBinds(g, l, m, p, own, c, u);
    } else if c == g.Initial() {
      OwnerNeverVotes(g, l, m, k, t, c, u);
      assert false;
    } else {
      assert EvolvesAt(g, l, p, k) && TryKept(g, l, p, k);
      var prev, next := Previous(Log(l, p), k), Log(l, p)[k];
      if AcceptsRecovered(g, l.net, p, prev, next) {
        var answers: map<ReplicaID, Rec> :| RecoveredFrom(g, l.net, p, prev, next, answers);
        if forall h :: NotAccepted(answers, h) {
          UnvotedRecovery(g, l, m, p, k, answers);
        } else {
          var h :| !NotAccepted(answers, h);
          assert AnswerFollowed(answers, u, h);
          var top :| Outranks(answers, u, h, top);
          assert AnswerSafe(g, l.net, p, c, answers, top);
          var at := AnswerInLog(g, l, p, k, answers, top);
          FastCommitBinds(g, l, m, top, at, answers[top].recordBallot, u);
        }
      } else if AcceptsTried(p, prev, next) {
        CommittedProposal(g, l, m);
        TryTuple(g, l, p, k - 1);
      } else {
        assert Promises(prev, next) || AcceptsAgain(prev, next);
        FastCommitBinds(g, l, m, p, k - 1, c, u);
      }
    }
  }

  /** The owner fast-commits at most once. */
  lemma OneFastCommit(g: Group, l: Ledger, m: int, t: Tuple, n: int, u: Tuple)
    requires g.Valid() && Justified(g, l) && FastCommitAt(g, l, m, t) && FastCommitAt(g, l, n, u)
    ensures m == n && t == u
  {
    if m < n {
      LogForward(g, l, g.owner, m, n - 1);
    } else if n < m {
      LogForward(g, l, g.owner, n, m - 1);
    }
  }

  /** Fast commits take the owner's proposal as it is, and accepts after a Try round take the tried tuple as it is. */
  ghost predicate NothingAdded(g: Group, l: Ledger) {
    (forall m, t :: FastCommitExact(g, l, m, t)) && forall i, k :: TryKept(g, l, i, k)
  }

  ghost predicate FastCommitExact(g: Group, l: Ledger, m: int, t: Tuple) {
    FastCommitAt(g, l, m, t) ==> Log(l, g.owner)[m - 1].tuple == t
  }

  /**
   Agreement of every commit: any two final records, fast or slow, at any replicas, carry the same
   tuple, provided fast commits and Try rounds add nothing to what the owner proposed.
   */
  lemma FinalsAgree(g: Group, l: Ledger, i: ReplicaID, k: nat, j: ReplicaID, n: nat)
    requires g.Valid() && Sound(g, l) && NothingAdded(g, l) && i in g.voters && j in g.voters
    requires k < |Log(l, i)| && Log(l, i)[k].status.Final() && n < |Log(l, j)| && Log(l, j)[n].status.Final()
    ensures Log(l, i)[k].tuple == Log(l, j)[n].tuple
  {
    var r, s := Log(l, i)[k], Log(l, j)[n];
    assert Decided(g, l, i, k) && Decided(g, l, j, n);
    if Chosen(g, l, r.recordBallot, r.tuple) {
      BesideChosen(g, l, r.recordBallot, r.tuple, j, n);
    } else if Chosen(g, l, s.recordBallot, s.tuple) {
      BesideChosen(g, l, s.recordBallot, s.tuple, i, k);
    } else {
      var m :| FastDecidedAt(g, l, i, k, r.tuple, m);
      var o :| FastDecidedAt(g, l, j, n, s.tuple, o);
      OneFastCommit(g, l, m, r.tuple, o, s.tuple);
    }
  }

  /** Beside a chosen tuple, every final record carries it. */
  lemma BesideChosen(g: Group, l: Ledger, b: Ballot, t: Tuple, j: ReplicaID, n: nat)
    requires g.Valid() && Sound(g, l) && NothingAdded(g, l) && j in g.voters && Chosen(g, l, b, t)
    requires n < |Log(l, j)| && Log(l, j)[n].status.Final()
    ensures Log(l, j)[n].tuple == t
  {
    var s := Log(l, j)[n];
    assert Decided(g, l, j, n);
    if Chosen(g, l, s.recordBallot, s.tuple) {
      ChosenAgree(g, l, b, t, s.recordBallot, s.tuple);
    } else {
      var m :| FastDecidedAt(g, l, j, n, s.tuple, m);
      assert FastCommitExact(g, l, m, s.tuple);
      var h, v := ChosenVote(g, l, b, t);
      FastCommitBinds(g, l, m, h, v, b, t);
    }
  }

  /** With two voters every quorum holds the owner, so an instance is committed fast or chosen, never both. */
  lemma PairFinalsAgree(g: Group, l: Ledger, i: ReplicaID, k: nat, j: ReplicaID, n: nat)
    requires g.Valid() && |g.voters| == 2 && Sound(g, l) && i in g.voters && j in g.voters
    requires k < |Log(l, i)| && Log(l, i)[k].status.Final() && n < |Log(l, j)| && Log(l, j)[n].status.Final()
    ensures Log(l, i)[k].tuple == Log(l, j)[n].tuple
  {
    var r, s := Log(l, i)[k], Log(l, j)[n];
    assert Decided(g, l, i, k) && Decided(g, l, j, n);
    if Chosen(g, l, r.recordBallot, r.tuple) && Chosen(g, l, s.recordBallot, s.tuple) {
      ChosenAgree(g, l, r.recordBallot, r.tuple, s.recordBallot, s.tuple);
    } else if Chosen(g, l, r.recordBallot, r.tuple) {
      var o :| FastDecidedAt(g, l, j, n, s.tuple, o);
      NotBoth(g, l, r.recordBallot, r.tuple, o, s.tuple);
    } else if Chosen(g, l, s.recordBallot, s.tuple) {
      var m :| FastDecidedAt(g, l, i, k, r.tuple, m);
      NotBoth(g, l, s.recordBallot, s.tuple, m, r.tuple);
    } else {
      var m :| FastDecidedAt(g, l, i, k, r.tuple, m);
      var o :| FastDecidedAt(g, l, j, n, s.tuple, o);
      OneFastCommit(g, l, m, r.tuple, o, s.tuple);
    }
  }

  lemma NotBoth(g: Group, l: Ledger, b: Ballot, t: Tuple, m: int, u: Tuple)
    requires g.Valid() && |g.voters| == 2 && Justified(g, l) && Chosen(g, l, b, t)
    ensures !FastCommitAt(g, l, m, u)
  {
    if FastCommitAt(g, l, m, u) {
      var q :| ChosenBy(g, l, b, t, q);
      VotersCounted(g);
      assert g.owner in q by {
        if g.owner !in q {
          Q.SubsetSize(q, g.Set() - {g.owner});
        }
      }
      assert HoldsDurably(l, b, t, q, g.owner);
      var k :| k < Durable(l, g.owner) && Votes(l, g.owner, k, b, t);
      OwnerNeverVotes(g, l, m, k, u, b, t);
    }
  }
}
