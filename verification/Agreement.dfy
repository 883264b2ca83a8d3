/** Agreement of the Prepare/Accept path, from the justification of every log entry and message. */
module Agreement {
  import opened Types
  import opened Ballots
  import opened Protocol
  import FP = FastPath
  import Q = Quorum

  /** Record ballots never exceed promises, and values carry at least the initial ballot. */
  ghost predicate Shaped(g: Group, r: Rec) {
    && r.recordBallot.AtMost(r.ballot)
    && (r.status.Empty? ==> r.recordBallot == ZERO)
    && (r.status.PreAccepted? || r.status.Accepted? ==> g.Initial().AtMost(r.recordBallot))
    && (r.eligible ==> r.status.PreAccepted? && r.recordBallot == g.Initial())
    && (r.status.Empty? || r.tuple.attrs.seqNo >= 1)
    && (r.ballot == ZERO || r.ballot == g.Initial() || r.ballot.IsRecovery())
  }

  /** No step lowers a promise, undoes a status, or changes a pre-accepted or final tuple in place. */
  ghost predicate Forward(prev: Rec, next: Rec) {
    && prev.ballot.AtMost(next.ballot)
    && (prev.status.Final() ==>
        next.status.Final() && next.tuple == prev.tuple && next.recordBallot == prev.recordBallot)
    && (prev.status.Accepted? ==>
          next.status.Final() || (next.status.Accepted? && prev.recordBallot.AtMost(next.recordBallot)))
    && (prev.status.PreAccepted? ==>
          && !next.status.Empty?
          && (next.status.PreAccepted? ==> prev.recordBallot.AtMost(next.recordBallot))
          && (next.status.PreAccepted? && next.recordBallot == prev.recordBallot ==>
                next.tuple == prev.tuple && next.eligible == prev.eligible))
  }

  lemma StepForward(g: Group, net: set<Message>, i: ReplicaID, k: nat, prev: Rec, next: Rec)
    requires g.Valid() && Shaped(g, prev) && (k == 0 ==> prev == BLANK) && Evolves(g, net, i, k, prev, next)
    ensures Shaped(g, next) && Forward(prev, next)
  {
  }

  lemma {:induction false} LogShaped(g: Group, l: Ledger, i: ReplicaID, k: nat)
    requires g.Valid() && Justified(g, l) && i in g.voters && k < |Log(l, i)|
    ensures Shaped(g, Previous(Log(l, i), k)) && Shaped(g, Log(l, i)[k])
            && Forward(Previous(Log(l, i), k), Log(l, i)[k])
  {
    assert EvolvesAt(g, l, i, k);
    if k > 0 {
      LogShaped(g, l, i, k - 1);
    }
    StepForward(g, l.net, i, k, Previous(Log(l, i), k), Log(l, i)[k]);
  }

  /** The one-step facts hold between any two entries of a log. */
  lemma {:induction false} LogForward(g: Group, l: Ledger, i: ReplicaID, k: nat, m: nat)
    requires g.Valid() && Justified(g, l) && i in g.voters && k <= m < |Log(l, i)|
    ensures Shaped(g, Log(l, i)[k]) && Shaped(g, Log(l, i)[m]) && Forward(Log(l, i)[k], Log(l, i)[m])
    decreases m - k
  {
    LogShaped(g, l, i, m);
    if k < m {
      LogForward(g, l, i, k, m - 1);
    }
  }

  /** Every vote at a ballot repeats a vote of the ballot's owner, durable unless it is the vote itself. */
  lemma {:induction false} VoteOrigin(g: Group, l: Ledger, j: ReplicaID, k: nat, b: Ballot, t: Tuple) returns (own: int)
    requires g.Valid() && Justified(g, l) && j in g.voters && Votes(l, j, k, b, t)
    ensures b.replica in g.voters && Votes(l, b.replica, own, b, t)
    ensures j != b.replica ==> own < Durable(l, b.replica)
  {
    assert EvolvesAt(g, l, j, k);
    var prev, next := Previous(Log(l, j), k), Log(l, j)[k];
    if j == b.replica {
      own := k;
    } else if Accepts(g, l.net, j, prev, next) {
      var m := Accept(b.replica, b, t);
      assert Backed(g, l, m);
      own :| BackedAt(g, l, m, own);
    } else {
      assert Promises(prev, next) || AcceptsAgain(prev, next);
      assert k > 0 && Votes(l, j, k - 1, b, t);
      own := VoteOrigin(g, l, j, k - 1, b, t);
    }
  }

  /** The owner of a ballot accepts at most one tuple at it. */
  lemma {:induction false} OwnerVotesOnce(g: Group, l: Ledger, k: nat, m: nat, b: Ballot, t: Tuple, u: Tuple)
    requires g.Valid() && Justified(g, l) && b.replica in g.voters && k <= m
    requires Votes(l, b.replica, k, b, t) && Votes(l, b.replica, m, b, u)
    ensures t == u
    decreases m
  {
    if k < m {
      var c := b.replica;
      LogForward(g, l, c, k, m - 1);
      LogForward(g, l, c, m - 1, m);
      assert EvolvesAt(g, l, c, m);
      var prev, next := Log(l, c)[m - 1], Log(l, c)[m];
      assert Votes(l, c, m - 1, b, prev.tuple);
      OwnerVotesOnce(g, l, k, m - 1, b, t, prev.tuple);
      if AcceptsRecovered(g, l.net, c, prev, next) {
        var answers :| RecoveredFrom(g, l.net, c, prev, next, answers);
        UnvotedBefore(g, l.net, c, prev, next, answers);
      }
    }
  }

  /** A coordinator that recovers has not accepted at its ballot yet. */
  lemma UnvotedBefore(g: Group, net: set<Message>, i: ReplicaID, prev: Rec, next: Rec, answers: map<ReplicaID, Rec>)
    requires RecoveredFrom(g, net, i, prev, next, answers)
    ensures !(prev.status.Accepted? && prev.recordBallot == prev.ballot)
  {
    assert AnswerSafe(g, net, i, prev.ballot, answers, i);
  }

  /** All votes at one ballot carry one tuple. */
  lemma OneTuplePerBallot(g: Group, l: Ledger, i: ReplicaID, k: nat, j: ReplicaID, m: nat, b: Ballot, t: Tuple,
                          u: Tuple)
    requires g.Valid() && Justified(g, l) && i in g.voters && j in g.voters
    requires Votes(l, i, k, b, t) && Votes(l, j, m, b, u)
    ensures t == u
  {
    var x := VoteOrigin(g, l, i, k, b, t);
    var y := VoteOrigin(g, l, j, m, b, u);
    if x <= y {
      OwnerVotesOnce(g, l, x, y, b, t, u);
    } else {
      OwnerVotesOnce(g, l, y, x, b, u, t);
    }
  }

  /** A coordinator's own try record was stored on the strength of a survey that met no accepted record. */
  lemma TryOrigin(g: Group, l: Ledger, i: ReplicaID, k: nat)
    requires g.Valid() && Justified(g, l) && i in g.voters && k < |Log(l, i)| && Log(l, i)[k].status.PreAccepted?
    requires Log(l, i)[k].recordBallot == Log(l, i)[k].ballot && Log(l, i)[k].ballot.replica == i
             && Log(l, i)[k].ballot.IsRecovery()
    ensures TriesOwn(g, l.net, i, Previous(Log(l, i), k), Log(l, i)[k])
  {
    assert EvolvesAt(g, l, i, k);
    if k > 0 {
      LogShaped(g, l, i, k - 1);
    }
  }

  /** A vote of the ballot's owner at a recovery ballot goes back to a survey that it follows. */
  lemma {:induction false} VoteRoot(g: Group, l: Ledger, k: nat, b: Ballot, t: Tuple)
    returns (root: nat, answers: map<ReplicaID, Rec>)
    requires g.Valid() && Justified(g, l) && b.replica in g.voters && Votes(l, b.replica, k, b, t) && b != g.Initial()
    ensures root < |Log(l, b.replica)| && Previous(Log(l, b.replica), root).ballot == b
    ensures Surveyed(g, l.net, b.replica, Previous(Log(l, b.replica), root), answers)
    ensures forall j :: AnswerFollowed(answers, t, j)
  {
    var c := b.replica;
    assert EvolvesAt(g, l, c, k);
    var prev, next := Previous(Log(l, c), k), Log(l, c)[k];
    if AcceptsRecovered(g, l.net, c, prev, next) {
      root := k;
      answers :| RecoveredFrom(g, l.net, c, prev, next, answers);
    } else if AcceptsTried(c, prev, next) {
      assert k > 0;
      root := k - 1;
      TryOrigin(g, l, c, root);
      answers :| TriedFrom(g, l.net, c, Previous(Log(l, c), root), Log(l, c)[root], answers);
      forall j
        ensures AnswerFollowed(answers, t, j)
      {
        assert NotAccepted(answers, j);
      }
    } else {
      assert Promises(prev, next) || AcceptsAgain(prev, next);
      assert k > 0 && Votes(l, c, k - 1, b, t);
      root, answers := VoteRoot(g, l, k - 1, b, t);
    }
  }

  /** A vote at b was first cast while the promise was exactly b. */
  lemma {:induction false} VoteEarly(g: Group, l: Ledger, j: ReplicaID, k: nat, b: Ballot,
                                     t: Tuple) returns (first: nat)
    requires g.Valid() && Justified(g, l) && j in g.voters && Votes(l, j, k, b, t)
    ensures first <= k && Votes(l, j, first, b, t) && Log(l, j)[first].ballot == b
  {
    assert EvolvesAt(g, l, j, k);
    if Log(l, j)[k].ballot == b {
      first := k;
    } else {
      assert Promises(Previous(Log(l, j), k), Log(l, j)[k]);
      assert k > 0 && Votes(l, j, k - 1, b, t);
      first := VoteEarly(g, l, j, k - 1, b, t);
    }
  }

  /** A surveyed answer is an entry of its sender's log, given at the surveying ballot. */
  lemma AnswerInLog(g: Group, l: Ledger, i: ReplicaID, k: nat, answers: map<ReplicaID, Rec>,
                    h: ReplicaID) returns (at: nat)
    requires g.Valid() && Justified(g, l) && i in g.voters && k <= |Log(l, i)| && h in answers
    requires Surveyed(g, l.net, i, Previous(Log(l, i), k), answers)
    ensures h in g.voters && at < |Log(l, h)| && Log(l, h)[at] == answers[h]
    ensures answers[h].ballot == Previous(Log(l, i), k).ballot
  {
    var b := Previous(Log(l, i), k).ballot;
    assert AnswerSafe(g, l.net, i, b, answers, h);
    if h == i {
      assert k > 0;
      at := k - 1;
    } else {
      var m := PrepareResp(h, b, answers[h]);
      assert Backed(g, l, m);
      var a :| BackedAt(g, l, m, a);
      at := a;
    }
  }

  /**
   A coordinator that recovers above b meets the quorum that chose t at b in a replica that voted
   before it promised. What the coordinator accepts was therefore accepted by one of its
   answerers between b and the new ballot.
   */
  lemma RecoveryFollows(g: Group, l: Ledger, b: Ballot, t: Tuple, p: ReplicaID, k: nat, u: Tuple,
                        answers: map<ReplicaID, Rec>)
    returns (top: ReplicaID, at: nat, d: Ballot)
    requires g.Valid() && Justified(g, l) && Chosen(g, l, b, t) && p in g.voters && k <= |Log(l, p)|
    requires Surveyed(g, l.net, p, Previous(Log(l, p), k), answers) && b.Less(Previous(Log(l, p), k).ballot)
    requires forall j :: AnswerFollowed(answers, u, j)
    ensures top in g.voters && Votes(l, top, at, d, u) && b.AtMost(d) && d.Less(Previous(Log(l, p), k).ballot)
  {
    var voted :| ChosenBy(g, l, b, t, voted);
    var c := Previous(Log(l, p), k).ballot;
    var h := QuorumsMeet(g, voted, answers.Keys);
    assert HoldsDurably(l, b, t, voted, h);
    var v :| v < Durable(l, h) && Votes(l, h, v, b, t);
    var seen := AnswerInLog(g, l, p, k, answers, h);
    var first := VoteEarly(g, l, h, v, b, t);
    if seen <= first {
      LogForward(g, l, h, seen, first);
      assert false;
    }
    LogForward(g, l, h, first, seen);
    assert AnswerSafe(g, l.net, p, c, answers, h) && AnswerFollowed(answers, u, h);
    top :| Outranks(answers, u, h, top);
    assert AnswerSafe(g, l.net, p, c, answers, top);
    at := AnswerInLog(g, l, p, k, answers, top);
    d := answers[top].recordBallot;
  }

  /** The heart of agreement: once t is chosen at b, every vote at a higher ballot carries t. */
  lemma {:induction false} ChosenBinds(g: Group, l: Ledger, b: Ballot, t: Tuple, j: ReplicaID, k: nat, c: Ballot,
                                       u: Tuple)
    requires g.Valid() && Justified(g, l) && Chosen(g, l, b, t) && j in g.voters && Votes(l, j, k, c, u) && b.Less(c)
    ensures u == t
    decreases c.epoch, c.number, c.replica
  {
    var own := VoteOrigin(g, l, j, k, c, u);
    VotedAtInitialOrLater(g, l, b, t);
    var root, answers := VoteRoot(g, l, own, c, u);
    var top, at, d := RecoveryFollows(g, l, b, t, c.replica, root, u, answers);
    if d == b {
      var h, v := ChosenVote(g, l, b, t);
      OneTuplePerBallot(g, l, top, at, h, v, b, u, t);
    } else {
      ChosenBinds(g, l, b, t, top, at, d, u);
    }
  }

  /** Some voter durably voted for a chosen tuple. */
  lemma ChosenVote(g: Group, l: Ledger, b: Ballot, t: Tuple) returns (h: ReplicaID, v: int)
    requires g.Valid() && Chosen(g, l, b, t)
    ensures h in g.voters && v < Durable(l, h) && Votes(l, h, v, b, t)
  {
    var q :| ChosenBy(g, l, b, t, q);
    h := QuorumsMeet(g, q, q);
    assert HoldsDurably(l, b, t, q, h);
    v :| v < Durable(l, h) && Votes(l, h, v, b, t);
  }

  lemma VotedAtInitialOrLater(g: Group, l: Ledger, b: Ballot, t: Tuple)
    requires g.Valid() && Justified(g, l) && Chosen(g, l, b, t)
    ensures g.Initial().AtMost(b)
  {
    var h, v := ChosenVote(g, l, b, t);
    LogShaped(g, l, h, v);
  }

  lemma QuorumsMeet(g: Group, a: set<ReplicaID>, b: set<ReplicaID>) returns (h: ReplicaID)
    requires g.Valid() && g.SlowQuorum(a) && g.SlowQuorum(b)
    ensures h in a && h in b && h in g.voters
  {
    VotersCounted(g);
    Q.SlowQuorumsMeet(g.Set(), a, b);
    h :| h in a && h in b;
  }

  lemma VotersCounted(g: Group)
    requires g.Valid()
    ensures |g.Set()| == |g.voters|
  {
    FP.VoterSetSize(g.voters);
    assert g.Set() == FP.VoterSet(g.voters);
  }

  /** Two chosen tuples are equal, whatever their ballots. */
  lemma ChosenAgree(g: Group, l: Ledger, b: Ballot, t: Tuple, c: Ballot, u: Tuple)
    requires g.Valid() && Justified(g, l) && Chosen(g, l, b, t) && Chosen(g, l, c, u)
    ensures t == u
  {
    var h, v := ChosenVote(g, l, b, t);
    var i, w := ChosenVote(g, l, c, u);
    if b.Less(c) {
      ChosenBinds(g, l, b, t, i, w, c, u);
    } else if c.Less(b) {
      ChosenBinds(g, l, c, u, h, v, b, t);
    } else {
      OneTuplePerBallot(g, l, h, v, i, w, b, t, u);
    }
  }
}
