/** What can happen to the ledger, and why it stays sound: a record is queued, persisted, lost, or a message leaves. */
module LedgerSteps {
  import opened Types
  import opened Ballots
  import opened Protocol
  import opened Agreement

  ghost function WithHistory(l: Ledger, i: ReplicaID, h: History): Ledger {
    l.(histories := l.histories[i := h])
  }

  /** A replica queues one more record. */
  ghost function Appended(l: Ledger, i: ReplicaID, rec: Rec): Ledger {
    WithHistory(l, i, History(Log(l, i) + [rec], Durable(l, i)))
  }

  /** Every log of k is a prefix of the one in l, durable entries included. */
  ghost predicate Grows(k: Ledger, l: Ledger, i: ReplicaID) {
    Log(k, i) <= Log(l, i) && Durable(k, i) <= Durable(l, i)
  }

  ghost predicate Extends(k: Ledger, l: Ledger) {
    k.net <= l.net && forall i :: Grows(k, l, i)
  }

  lemma ChosenStable(g: Group, k: Ledger, l: Ledger, b: Ballot, t: Tuple)
    requires Extends(k, l) && Chosen(g, k, b, t)
    ensures Chosen(g, l, b, t)
  {
    var q :| ChosenBy(g, k, b, t, q);
    forall j
      ensures HoldsDurably(l, b, t, q, j)
    {
      assert HoldsDurably(k, b, t, q, j) && Grows(k, l, j);
      if j in q {
        var v :| v < Durable(k, j) && Votes(k, j, v, b, t);
        assert Votes(l, j, v, b, t);
      }
    }
    assert ChosenBy(g, l, b, t, q);
  }

  lemma SurveyStable(g: Group, net: set<Message>, more: set<Message>, i: ReplicaID, prev: Rec, answers: map<ReplicaID,
                     Rec>)
    requires net <= more && Surveyed(g, net, i, prev, answers)
    ensures Surveyed(g, more, i, prev, answers)
  {
    forall j
      ensures AnswerSafe(g, more, i, prev.ballot, answers, j)
    {
      assert AnswerSafe(g, net, i, prev.ballot, answers, j);
    }
  }

  lemma FastStable(g: Group, net: set<Message>, more: set<Message>, attrs: Protocol.Attributes.Attrs)
    requires net <= more && FastBacked(g, net, attrs)
    ensures FastBacked(g, more, attrs)
  {
    var q :| BackedBy(g, net, attrs, q);
    forall j
      ensures Backs(g, more, attrs, q, j)
    {
      assert Backs(g, net, attrs, q, j);
    }
    assert BackedBy(g, more, attrs, q);
  }

  lemma AcceptedStable(g: Group, net: set<Message>, more: set<Message>, i: ReplicaID, prev: Rec, next: Rec)
    requires net <= more && CommitsAccepted(g, net, i, prev, next)
    ensures CommitsAccepted(g, more, i, prev, next)
  {
    var q :| AcceptedBy(g, net, i, prev, next, q);
    forall j
      ensures Acknowledged(more, i, prev, q, j)
    {
      assert Acknowledged(net, i, prev, q, j);
    }
    assert AcceptedBy(g, more, i, prev, next, q);
  }

  /** A justified step stays justified as more messages are sent. */
  lemma EvolvesStable(g: Group, net: set<Message>, more: set<Message>, i: ReplicaID, k: nat, prev: Rec, next: Rec)
    requires net <= more && Evolves(g, net, i, k, prev, next)
    ensures Evolves(g, more, i, k, prev, next)
  {
    if AcceptsRecovered(g, net, i, prev, next) {
      var answers :| RecoveredFrom(g, net, i, prev, next, answers);
      SurveyStable(g, net, more, i, prev, answers);
      assert RecoveredFrom(g, more, i, prev, next, answers);
    } else if TriesOwn(g, net, i, prev, next) {
      var answers :| TriedFrom(g, net, i, prev, next, answers);
      SurveyStable(g, net, more, i, prev, answers);
      assert TriedFrom(g, more, i, prev, next, answers);
    } else if PreAccepts(g, net, i, prev, next) {
      var t :| PreAcceptsFrom(g, net, i, prev, next, t);
      assert PreAcceptsFrom(g, more, i, prev, next, t);
    } else if CommitsAccepted(g, net, i, prev, next) {
      AcceptedStable(g, net, more, i, prev, next);
    } else if CommitsFast(g, net, i, prev, next) {
      FastStable(g, net, more, next.tuple.attrs);
    }
  }

  /** A final record of k stays decided in an extension of k. */
  lemma DecidedStable(g: Group, k: Ledger, l: Ledger, i: ReplicaID, n: int)
    requires Extends(k, l) && Decided(g, k, i, n) && i in g.voters && 0 <= n < |Log(k, i)|
    ensures Decided(g, l, i, n)
  {
    assert Grows(k, l, i) && Grows(k, l, g.owner);
    var r := Log(k, i)[n];
    if r.status.Final() {
      if Chosen(g, k, r.recordBallot, r.tuple) {
        ChosenStable(g, k, l, r.recordBallot, r.tuple);
      } else {
        var m :| FastDecidedAt(g, k, i, n, r.tuple, m);
        FastStable(g, k.net, l.net, r.tuple.attrs);
        assert FastDecidedAt(g, l, i, n, r.tuple, m);
      }
    }
  }

  /** A learned commit was decided where it was learned from. */
  lemma LearnedDecided(g: Group, l: Ledger, i: ReplicaID, m: Message, n: int, next: Rec)
    requires g.Valid() && Sound(g, l) && m in l.net && Teaches(m, next) && (i == g.owner ==> n == |Log(l, i)|)
    ensures Chosen(g, l, next.recordBallot, next.tuple) || FastDecided(g, l, i, n, next.tuple)
  {
    assert Backed(g, l, m);
    var k :| BackedAt(g, l, m, k);
    assert Decided(g, l, m.from, k);
    if !Chosen(g, l, next.recordBallot, next.tuple) {
      var f :| FastDecidedAt(g, l, m.from, k, next.tuple, f);
      assert FastDecidedAt(g, l, i, n, next.tuple, f);
    }
  }

  /** Committing on a slow quorum of acknowledgements means the tuple is chosen. */
  lemma AcceptedChosen(g: Group, l: Ledger, i: ReplicaID, k: nat, next: Rec)
    requires g.Valid() && Justified(g, l) && i in g.voters && k < |Log(l, i)|
             && CommitsAccepted(g, l.net, i, Log(l, i)[k], next)
    ensures Chosen(g, l, next.recordBallot, next.tuple)
  {
    var prev := Log(l, i)[k];
    var b, t := prev.ballot, prev.tuple;
    var q :| AcceptedBy(g, l.net, i, prev, next, q);
    assert Votes(l, i, k, b, t);
    forall j | j in q && j != i
      ensures exists v :: v < Durable(l, j) && Votes(l, j, v, b, t)
    {
      AcknowledgedVote(g, l, i, k, q, j);
    }
    if i in q {
      assert q - {i} != {} by {
        assert q == q - {i} + {i};
      }
      var j :| j in q - {i};
      assert j in g.Set();
      var v :| v < Durable(l, j) && Votes(l, j, v, b, t);
      var own := VoteOrigin(g, l, j, v, b, t);
    }
    forall j
      ensures HoldsDurably(l, b, t, q, j)
    {
    }
    assert ChosenBy(g, l, b, t, q);
  }

  lemma AcknowledgedVote(g: Group, l: Ledger, i: ReplicaID, k: nat, q: set<ReplicaID>, j: ReplicaID)
    requires g.Valid() && Justified(g, l) && i in g.voters && k < |Log(l, i)| && Log(l, i)[k].status.Accepted?
    requires Log(l, i)[k].recordBallot == Log(l, i)[k].ballot && j in q && j != i
             && Acknowledged(l.net, i, Log(l, i)[k], q, j)
    ensures exists v :: v < Durable(l, j) && Votes(l, j, v, Log(l, i)[k].ballot, Log(l, i)[k].tuple)
  {
    var prev := Log(l, i)[k];
    var m := AcceptResp(j, prev.ballot, prev.ballot, prev.tuple.attrs);
    assert Backed(g, l, m);
    var v :| BackedAt(g, l, m, v);
    assert Votes(l, i, k, prev.ballot, prev.tuple) && Votes(l, j, v, prev.ballot, Log(l, j)[v].tuple);
    OneTuplePerBallot(g, l, i, k, j, v, prev.ballot, prev.tuple, Log(l, j)[v].tuple);
  }

  /** Whatever a replica does next, a final outcome is a decided one. */
  lemma NewDecided(g: Group, l: Ledger, i: ReplicaID, rec: Rec)
    requires g.Valid() && Sound(g, l) && i in g.voters
    requires Evolves(g, l.net, i, |Log(l, i)|, Previous(Log(l, i), |Log(l, i)|), rec)
    ensures Decided(g, Appended(l, i, rec), i, |Log(l, i)|)
  {
    var n := |Log(l, i)|;
    var after := Appended(l, i, rec);
    AppendExtends(l, i, rec);
    var prev := Previous(Log(l, i), n);
    if rec.status.Final() {
      if prev.status.Final() {
        assert Decided(g, l, i, n - 1);
        DecidedStable(g, l, after, i, n - 1);
        if !Chosen(g, after, rec.recordBallot, rec.tuple) {
          var m :| FastDecidedAt(g, after, i, n - 1, rec.tuple, m);
          assert FastDecidedAt(g, after, i, n, rec.tuple, m);
        }
      } else if CommitsAccepted(g, l.net, i, prev, rec) {
        AcceptedChosen(g, l, i, n - 1, rec);
        ChosenStable(g, l, after, rec.recordBallot, rec.tuple);
      } else if CommitsFast(g, l.net, i, prev, rec) {
        assert FastDecidedAt(g, after, i, n, rec.tuple, n);
      } else {
        var m :| m in l.net && Teaches(m, rec);
        LearnedDecided(g, l, i, m, n, rec);
        if Chosen(g, l, rec.recordBallot, rec.tuple) {
          ChosenStable(g, l, after, rec.recordBallot, rec.tuple);
        } else {
          var f :| FastDecidedAt(g, l, i, n, rec.tuple, f);
          assert Grows(l, after, g.owner);
          assert FastDecidedAt(g, after, i, n, rec.tuple, f);
        }
      }
    }
  }

  lemma AppendExtends(l: Ledger, i: ReplicaID, rec: Rec)
    ensures Extends(l, Appended(l, i, rec))
  {
    forall j
      ensures Grows(l, Appended(l, i, rec), j)
    {
    }
  }

  /** Queueing a justified record keeps the ledger sound. */
  lemma AppendSound(g: Group, l: Ledger, i: ReplicaID, rec: Rec)
    requires g.Valid() && Sound(g, l) && i in g.voters
    requires Evolves(g, l.net, i, |Log(l, i)|, Previous(Log(l, i), |Log(l, i)|), rec)
    ensures Sound(g, Appended(l, i, rec))
  {
    var after := Appended(l, i, rec);
    AppendExtends(l, i, rec);
    forall j, k
      ensures EvolvesAt(g, after, j, k) && Decided(g, after, j, k)
    {
      assert EvolvesAt(g, l, j, k) && Decided(g, l, j, k);
      if j == i && k == |Log(l, i)| {
        NewDecided(g, l, i, rec);
      } else if j in g.voters && 0 <= k < |Log(l, j)| {
        DecidedStable(g, l, after, j, k);
      }
    }
    forall m
      ensures Backed(g, after, m)
    {
      assert Backed(g, l, m) && Grows(l, after, m.from);
      if m in l.net && !m.TryConflict? {
        var k :| BackedAt(g, l, m, k);
        assert BackedAt(g, after, m, k);
      }
    }
    forall j
      ensures Durable(after, j) <= |Log(after, j)|
    {
      assert Grows(l, after, j);
    }
  }

  /** Persisting queued records and sending backed messages keep the ledger sound. */
  lemma ExtendSound(g: Group, l: Ledger, after: Ledger)
    requires g.Valid() && Sound(g, l) && Extends(l, after)
    requires forall j :: SameLog(l, after, j)
    requires forall m :: NewlyBacked(g, l, after, m)
    ensures Sound(g, after)
  {
    forall j, k
      ensures EvolvesAt(g, after, j, k) && Decided(g, after, j, k)
    {
      assert EvolvesAt(g, l, j, k) && Decided(g, l, j, k) && SameLog(l, after, j);
      if j in g.voters && 0 <= k < |Log(l, j)| {
        EvolvesStable(g, l.net, after.net, j, k, Previous(Log(l, j), k), Log(l, j)[k]);
        DecidedStable(g, l, after, j, k);
      }
    }
    forall m
      ensures Backed(g, after, m)
    {
      assert Backed(g, l, m) && NewlyBacked(g, l, after, m) && Grows(l, after, m.from) && SameLog(l, after, m.from);
      if m in l.net && !m.TryConflict? {
        var k :| BackedAt(g, l, m, k);
        assert BackedAt(g, after, m, k);
      }
    }
    forall j
      ensures Durable(after, j) <= |Log(after, j)|
    {
      assert SameLog(l, after, j);
    }
  }

  ghost predicate SameLog(l: Ledger, after: Ledger, j: ReplicaID) {
    Log(after, j) == Log(l, j) && Durable(after, j) <= |Log(after, j)|
  }

  ghost predicate NewlyBacked(g: Group, l: Ledger, after: Ledger, m: Message) {
    m in after.net && m !in l.net ==> m.from in g.voters && (m.TryConflict? || exists k :: BackedAt(g, after, m, k))
  }

  lemma PersistSound(g: Group, l: Ledger, i: ReplicaID)
    requires g.Valid() && Sound(g, l) && Durable(l, i) < |Log(l, i)|
    ensures Sound(g, WithHistory(l, i, History(Log(l, i), Durable(l, i) + 1)))
  {
    var after := WithHistory(l, i, History(Log(l, i), Durable(l, i) + 1));
    forall j
      ensures SameLog(l, after, j) && Grows(l, after, j)
    {
    }
    ExtendSound(g, l, after);
  }

  lemma SendSound(g: Group, l: Ledger, m: Message, k: int)
    requires g.Valid() && Sound(g, l) && m.from in g.voters && (m.TryConflict? || BackedAt(g, l, m, k))
    ensures Sound(g, l.(net := l.net + {m}))
  {
    var after := l.(net := l.net + {m});
    forall j
      ensures SameLog(l, after, j) && Grows(l, after, j)
    {
    }
    assert m.TryConflict? || BackedAt(g, after, m, k);
    ExtendSound(g, l, after);
  }

  /** A replica loses what it had not persisted. */
  ghost function Crashed(l: Ledger, i: ReplicaID): Ledger
    requires Durable(l, i) <= |Log(l, i)|
  {
    WithHistory(l, i, History(Log(l, i)[..Durable(l, i)], Durable(l, i)))
  }

  /** What was decided does not depend on anything a crash can lose. */
  lemma CrashDecided(g: Group, l: Ledger, i: ReplicaID, j: ReplicaID, k: int)
    requires g.Valid() && Justified(g, l) && Decided(g, l, j, k)
    ensures Decided(g, Crashed(l, i), j, k)
  {
    var after := Crashed(l, i);
    if j in g.voters && 0 <= k < |Log(after, j)| && Log(after, j)[k].status.Final() {
      var r := Log(l, j)[k];
      assert Log(after, j)[k] == r;
      if Chosen(g, l, r.recordBallot, r.tuple) {
        var q :| ChosenBy(g, l, r.recordBallot, r.tuple, q);
        forall h
          ensures HoldsDurably(after, r.recordBallot, r.tuple, q, h)
        {
          assert HoldsDurably(l, r.recordBallot, r.tuple, q, h);
          if h in q {
            var v :| v < Durable(l, h) && Votes(l, h, v, r.recordBallot, r.tuple);
            assert Votes(after, h, v, r.recordBallot, r.tuple);
          }
        }
        assert ChosenBy(g, after, r.recordBallot, r.tuple, q);
      } else {
        var m :| FastDecidedAt(g, l, j, k, r.tuple, m);
        assert FastDecidedAt(g, after, j, k, r.tuple, m);
      }
    }
  }

  lemma CrashSound(g: Group, l: Ledger, i: ReplicaID)
    requires g.Valid() && Sound(g, l)
    ensures Sound(g, Crashed(l, i))
  {
    var after := Crashed(l, i);
    forall j, k
      ensures EvolvesAt(g, after, j, k) && Decided(g, after, j, k)
    {
      assert EvolvesAt(g, l, j, k) && Decided(g, l, j, k);
      CrashDecided(g, l, i, j, k);
    }
    forall m
      ensures Backed(g, after, m)
    {
      assert Backed(g, l, m);
      if m in l.net && !m.TryConflict? {
        var k :| BackedAt(g, l, m, k);
        assert BackedAt(g, after, m, k);
      }
    }
    forall j
      ensures Durable(after, j) <= |Log(after, j)|
    {
      assert Durable(l, j) <= |Log(l, j)|;
    }
  }
}
