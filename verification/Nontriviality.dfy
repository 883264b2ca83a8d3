/** Only what the owner proposed, or a recovering voter supplied on an empty survey, is ever stored or committed. */
module Nontriviality {
  import opened Types
  import opened Ballots
  import opened Protocol
  import opened Agreement
  import opened Witness

  /** The value the owner's log starts with. */
  ghost predicate OwnersProposal(g: Group, l: Ledger, value: Value) {
    Log(l, g.owner) != [] && value == Log(l, g.owner)[0].tuple.value
  }

  /** A recovering voter whose survey met no value accepted the fallback value. */
  ghost predicate SuppliedAt(g: Group, l: Ledger, p: ReplicaID, k: int, value: Value) {
    && p in g.voters && 0 <= k < |Log(l, p)| && Log(l, p)[k].tuple.value == value && Fallback(g, value)
    && exists answers :: EmptySurvey(g, l, p, k, answers)
  }

  ghost predicate EmptySurvey(g: Group, l: Ledger, p: ReplicaID, k: int, answers: map<ReplicaID, Rec>) {
    && 0 <= k < |Log(l, p)| && RecoveredFrom(g, l.net, p, Previous(Log(l, p), k), Log(l, p)[k], answers)
    && forall h :: EmptyAnswer(answers, h)
  }

  /** The value is the owner's, or one that a voter supplied on an empty survey. */
  ghost predicate Proposed(g: Group, l: Ledger, value: Value) {
    OwnersProposal(g, l, value) || exists p, k :: SuppliedAt(g, l, p, k, value)
  }

  /** Outside the reserved references a supplied value is a no-op; at one it is that or a membership command. */
  lemma SuppliedIs(g: Group, l: Ledger, value: Value)
    requires Proposed(g, l, value) && !OwnersProposal(g, l, value)
    ensures value == NoOp || (g.reserved && value.Entry? && value.kind == MEMBERSHIP)
  {
  }

  ghost function Rank(r: Rec, i: ReplicaID): nat {
    (if r.status.Accepted? then 2 else 0) + (if r.recordBallot.replica == i then 0 else 1)
  }

  lemma {:induction false} StoredValue(g: Group, l: Ledger, i: ReplicaID, k: nat)
    requires g.Valid() && Justified(g, l) && i in g.voters && k < |Log(l, i)|
    requires Log(l, i)[k].status.PreAccepted? || Log(l, i)[k].status.Accepted?
    ensures Proposed(g, l, Log(l, i)[k].tuple.value)
    decreases Log(l, i)[k].recordBallot.epoch, Log(l, i)[k].recordBallot.number, Log(l, i)[k].recordBallot.replica,
              Rank(Log(l, i)[k], i), k
  {
    assert EvolvesAt(g, l, i, k);
    LogShaped(g, l, i, k);
    var prev, next := Previous(Log(l, i), k), Log(l, i)[k];
    if next.status.PreAccepted? {
      PreAcceptedValue(g, l, i, k);
    } else if Accepts(g, l.net, i, prev, next) {
      var at := AcceptSource(g, l, i, k);
      StoredValue(g, l, next.ballot.replica, at);
    } else if AcceptsRecovered(g, l.net, i, prev, next) {
      if !(exists p, m :: SuppliedAt(g, l, p, m, next.tuple.value)) {
        var h, at := RecoveredSource(g, l, i, k);
        StoredValue(g, l, h, at);
      }
    } else {
      assert k > 0 && prev.tuple.value == next.tuple.value;
      StoredValue(g, l, i, k - 1);
    }
  }

  /** An accepted record repeats the record of the ballot's owner. */
  lemma AcceptSource(g: Group, l: Ledger, i: ReplicaID, k: nat) returns (at: nat)
    requires g.Valid() && Justified(g, l) && k < |Log(l, i)|
             && Accepts(g, l.net, i, Previous(Log(l, i), k), Log(l, i)[k])
    ensures Log(l, i)[k].ballot.replica in g.voters && at < |Log(l, Log(l, i)[k].ballot.replica)|
    ensures var r, next := Log(l, Log(l, i)[k].ballot.replica)[at], Log(l, i)[k];
            r.status.Accepted? && r.recordBallot == next.recordBallot && r.tuple == next.tuple
  {
    var next := Log(l, i)[k];
    var m := Accept(next.ballot.replica, next.ballot, next.tuple);
    assert Backed(g, l, m);
    at :| BackedAt(g, l, m, at);
  }

  /** A recovered value is that of an answer, given for an earlier ballot or only pre-accepted. */
  lemma RecoveredSource(g: Group, l: Ledger, i: ReplicaID, k: nat) returns (h: ReplicaID, at: nat)
    requires g.Valid() && Justified(g, l) && i in g.voters && k < |Log(l, i)|
    requires !(exists p, m :: SuppliedAt(g, l, p, m, Log(l, i)[k].tuple.value))
    requires AcceptsRecovered(g, l.net, i, Previous(Log(l, i), k), Log(l, i)[k])
    ensures h in g.voters && at < |Log(l, h)|
    ensures var r, next := Log(l, h)[at], Log(l, i)[k];
            && r.tuple.value == next.tuple.value
            && (r.status.PreAccepted? || (r.status.Accepted? && r.recordBallot != next.recordBallot))
            && r.recordBallot.AtMost(next.recordBallot)
  {
    var prev, next := Previous(Log(l, i), k), Log(l, i)[k];
    var answers :| RecoveredFrom(g, l.net, i, prev, next, answers);
    assert (forall h :: EmptyAnswer(answers, h)) ==> EmptySurvey(g, l, i, k, answers);
    assert !SuppliedAt(g, l, i, k, next.tuple.value);
    h :| CarriesValue(answers, next.tuple.value, h);
    at := AnswerInLog(g, l, i, k, answers, h);
    LogShaped(g, l, h, at);
    assert AnswerSafe(g, l.net, i, prev.ballot, answers, h);
  }

  lemma {:induction false} PreAcceptedValue(g: Group, l: Ledger, i: ReplicaID, k: nat)
    requires g.Valid() && Justified(g, l) && i in g.voters && k < |Log(l, i)| && Log(l, i)[k].status.PreAccepted?
    ensures Proposed(g, l, Log(l, i)[k].tuple.value)
  {
    assert EvolvesAt(g, l, i, k);
    var prev, next := Previous(Log(l, i), k), Log(l, i)[k];
    if IsTry(g, next) {
      TryTuple(g, l, i, k);
    } else if PreAccepts(g, l.net, i, prev, next) {
      var t :| PreAcceptsFrom(g, l.net, i, prev, next, t);
      ProposedTuple(g, l, t);
    } else if k > 0 {
      LogShaped(g, l, i, k);
      PreAcceptedValue(g, l, i, k - 1);
    }
  }

  /** Nontriviality: a committed or executed value is the owner's proposal or one supplied on an empty survey. */
  lemma FinalValue(g: Group, l: Ledger, i: ReplicaID, k: nat)
    requires g.Valid() && Sound(g, l) && i in g.voters && k < |Log(l, i)| && Log(l, i)[k].status.Final()
    ensures Proposed(g, l, Log(l, i)[k].tuple.value)
  {
    var r := Log(l, i)[k];
    assert Decided(g, l, i, k);
    if Chosen(g, l, r.recordBallot, r.tuple) {
      var h, v := ChosenVote(g, l, r.recordBallot, r.tuple);
      StoredValue(g, l, h, v);
    } else {
      var m :| FastDecidedAt(g, l, i, k, r.tuple, m);
      CommittedProposal(g, l, m);
    }
  }
}
