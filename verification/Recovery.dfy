/** How a coordinator chooses, from a slow quorum of Prepare answers, what to commit, accept or try. */
module Recovery {
  import opened Types
  import opened Ballots
  import opened Attributes
  import opened Protocol
  import Q = Quorum

  type Answers = map<ReplicaID, Rec>

  /** The first voter, in configuration order, that is in the set. */
  function First(voters: seq<ReplicaID>, s: set<ReplicaID>): (r: Option<ReplicaID>)
    ensures r.Some? ==> r.value in voters && r.value in s
    ensures r.None? ==> forall v <- voters :: v !in s
  {
    if voters == [] then None
    else if voters[0] in s then Some(voters[0])
    else First(voters[1..], s)
  }

  /** The accepted record of the highest record ballot seen so far, and the attributes merged for it. */
  datatype Best = Best(rec: Rec, attrs: Attrs)

  function BestAccepted(voters: seq<ReplicaID>, answers: Answers): Option<Best> {
    if voters == [] then None
    else
      var prior := BestAccepted(voters[..|voters| - 1], answers);
      var id := voters[|voters| - 1];
      if id !in answers || !answers[id].status.Accepted? then prior
      else
        var rec := answers[id];
        if prior.None? || prior.value.rec.recordBallot.Less(rec.recordBallot) then Some(Best(rec, rec.tuple.attrs))
        else if rec.recordBallot == prior.value.rec.recordBallot && rec.tuple.value == prior.value.rec.tuple.value
        then Some(prior.value.(attrs := Merge(prior.value.attrs, rec.tuple.attrs)))
        else prior
  }

  /** The highest record ballot of the pre-accepted answers. */
  function TopPreAccepted(voters: seq<ReplicaID>, answers: Answers): Ballot {
    if voters == [] then ZERO
    else
      var prior := TopPreAccepted(voters[..|voters| - 1], answers);
      var id := voters[|voters| - 1];
      if id in answers && answers[id].status.PreAccepted? && prior.Less(answers[id].recordBallot)
          then answers[id].recordBallot else prior
  }

  function PreAcceptedAt(answers: Answers, top: Ballot): set<ReplicaID> {
    set j | j in answers && answers[j].status.PreAccepted? && answers[j].recordBallot == top
  }

  function MergedAt(voters: seq<ReplicaID>, answers: Answers, top: Ballot): Attrs {
    if voters == [] then NO_ATTRS
    else
      var prior := MergedAt(voters[..|voters| - 1], answers, top);
      var id := voters[|voters| - 1];
      if id in PreAcceptedAt(answers, top) then Merge(prior, answers[id].tuple.attrs) else prior
  }

  /** The voters whose eligible record at the top ballot carries t. */
  function Witnesses(answers: Answers, top: Ballot, t: Tuple): set<ReplicaID> {
    set j | j in PreAcceptedAt(answers, top) && answers[j].eligible && answers[j].tuple == t
  }

  /** The voters whose tuple enough eligible records share. */
  function TryPool(n: nat, answers: Answers, top: Ballot): set<ReplicaID>
    requires n >= 1
  {
    set j | j in PreAcceptedAt(answers, top) && answers[j].eligible
        && |Witnesses(answers, top, answers[j].tuple)| >= Q.Witness(n)
  }

  datatype Plan =
    | Refuse
    | Adopt(rec: Rec)
    | Accepting(tuple: Tuple)
    | Trying(tuple: Tuple, witnesses: set<ReplicaID>)

  /**
   A final answer is adopted; else the highest accepted tuple is accepted again; else a tuple that
   may have been committed fast is tried; else the pre-accepted value is accepted with what is
   known locally; else the fallback value is accepted, and without one nothing is done.
   */
  function Decide(g: Group, answers: Answers, local: Attrs, fallback: Option<Value>): Plan
    requires |g.voters| >= 1
  {
    var final := First(g.voters, set j | j in answers && answers[j].status.Final());
    if final.Some? then Adopt(answers[final.value])
    else
      var best := BestAccepted(g.voters, answers);
      if best.Some? then Accepting(Tuple(best.value.attrs, best.value.rec.tuple.value))
      else DecideUnaccepted(g, answers, local, fallback)
  }

  function DecideUnaccepted(g: Group, answers: Answers, local: Attrs, fallback: Option<Value>): Plan
    requires |g.voters| >= 1
  {
    var top := TopPreAccepted(g.voters, answers);
    var pool := First(g.voters, TryPool(|g.voters|, answers, top));
    var first := First(g.voters, PreAcceptedAt(answers, top));
    if pool.Some? then Trying(answers[pool.value].tuple, Witnesses(answers, top, answers[pool.value].tuple))
    else if first.Some? then Accepting(Tuple(Merge(MergedAt(g.voters, answers, top), local),
                                             answers[first.value].tuple.value))
    else if fallback.None? then Refuse
    else Accepting(Tuple(Attrs(1, seq(|g.voters|, _ => 0)), fallback.value))
  }

  /** Accepted answers of one record ballot carry one tuple, with a sequence number. */
  ghost predicate OneTupleEach(answers: Answers) {
    forall j, h :: SameTuple(answers, j, h)
  }

  ghost predicate SameTuple(answers: Answers, j: ReplicaID, h: ReplicaID) {
    j in answers && h in answers && answers[j].status.Accepted? && answers[h].status.Accepted? ==>
      && answers[j].tuple.attrs.seqNo >= 1
      && (answers[j].recordBallot == answers[h].recordBallot ==> answers[j].tuple == answers[h].tuple)
  }

  /** best is an accepted answer of one of the voters, its own attributes unchanged by the merging. */
  ghost predicate IsBest(voters: seq<ReplicaID>, answers: Answers, best: Best, h: ReplicaID) {
    h in voters && h in answers && answers[h] == best.rec && best.rec.status.Accepted?
        && best.attrs == best.rec.tuple.attrs
  }

  ghost predicate OutrankedBy(answers: Answers, b: Ballot, j: ReplicaID) {
    j in answers && answers[j].status.Accepted? ==> answers[j].recordBallot.AtMost(b)
  }

  /** The merging never changes the tuple: the result is an accepted answer that outranks all others. */
  lemma {:induction false} BestIsHighest(voters: seq<ReplicaID>, answers: Answers)
    requires OneTupleEach(answers)
    ensures BestAccepted(voters, answers).Some? ==>
              && (exists h :: IsBest(voters, answers, BestAccepted(voters, answers).value, h))
              && forall j <- voters :: OutrankedBy(answers, BestAccepted(voters, answers).value.rec.recordBallot, j)
    ensures BestAccepted(voters, answers).None? ==> forall j <- voters :: NotAccepted(answers, j)
  {
    if voters != [] {
      var init, id := voters[..|voters| - 1], voters[|voters| - 1];
      BestIsHighest(init, answers);
      var prior, best := BestAccepted(init, answers), BestAccepted(voters, answers);
      assert forall j <- voters :: j in init || j == id;
      if prior.Some? {
        var h :| IsBest(init, answers, prior.value, h);
        assert SameTuple(answers, h, id) && SameTuple(answers, h, h);
        MergeIdempotent(prior.value.rec.tuple.attrs);
        assert IsBest(voters, answers, best.value, if best.value.rec == prior.value.rec then h else id);
      } else if best.Some? {
        assert IsBest(voters, answers, best.value, id);
      }
    }
  }

  /** The top ballot is the one of a pre-accepted answer, and none is higher. */
  lemma {:induction false} TopIsHighest(voters: seq<ReplicaID>, answers: Answers)
    ensures forall j <- voters | j in answers && answers[j].status.PreAccepted? ::
              answers[j].recordBallot.AtMost(TopPreAccepted(voters, answers))
    ensures TopPreAccepted(voters, answers) == ZERO
            || exists j <- voters :: j in PreAcceptedAt(answers, TopPreAccepted(voters, answers))
  {
    if voters != [] {
      var init, id := voters[..|voters| - 1], voters[|voters| - 1];
      TopIsHighest(init, answers);
      assert forall j <- voters :: j in init || j == id;
      assert id in voters && forall j <- init :: j in voters;
    }
  }
}
