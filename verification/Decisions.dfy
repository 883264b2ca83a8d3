/** What a slow quorum of Prepare answers is decided to mean, answer by answer. */
module Decisions {
  import opened Types
  import opened Ballots
  import opened Attributes
  import opened Protocol
  import opened Recovery
  import opened Handlers
  import opened Effects
  import Q = Quorum

  /** Slot k is the first whose voter is in the set. */
  ghost predicate FirstAt(voters: seq<ReplicaID>, s: set<ReplicaID>, k: int) {
    0 <= k < |voters| && voters[k] in s && forall j | 0 <= j < k :: voters[j] !in s
  }

  lemma {:induction false} FirstMeaning(voters: seq<ReplicaID>, s: set<ReplicaID>)
    ensures First(voters, s).Some? ==> exists k :: FirstAt(voters, s, k) && First(voters, s).value == voters[k]
    ensures First(voters, s).None? <==> forall k :: !FirstAt(voters, s, k)
  {
    if voters != [] {
      var rest := voters[1..];
      FirstMeaning(rest, s);
      if voters[0] in s {
        assert FirstAt(voters, s, 0);
      } else {
        forall k
          ensures FirstAt(rest, s, k) <==> FirstAt(voters, s, k + 1)
        {
          if FirstAt(voters, s, k + 1) {
            assert forall j | 0 <= j < k :: rest[j] == voters[j + 1];
          }
        }
        if k :| FirstAt(rest, s, k) && First(rest, s).value == rest[k] {
          assert FirstAt(voters, s, k + 1);
        }
        if k :| FirstAt(voters, s, k) {
          assert FirstAt(rest, s, k - 1);
        }
      }
    }
  }

  // Accepted answers.

  predicate AcceptedIn(answers: Answers, j: ReplicaID) {
    j in answers && answers[j].status.Accepted?
  }

  ghost predicate NoHigher(answers: Answers, b: Ballot, j: ReplicaID) {
    AcceptedIn(answers, j) ==> answers[j].recordBallot.AtMost(b)
  }

  ghost predicate Lower(answers: Answers, b: Ballot, j: ReplicaID) {
    AcceptedIn(answers, j) ==> answers[j].recordBallot.Less(b)
  }

  /** Slot k is the first that holds an accepted answer of the highest record ballot. */
  ghost predicate HighestAt(voters: seq<ReplicaID>, answers: Answers, k: int) {
    && 0 <= k < |voters| && AcceptedIn(answers, voters[k])
    && (forall j <- voters :: NoHigher(answers, answers[voters[k]].recordBallot, j))
    && forall j | 0 <= j < k :: Lower(answers, answers[voters[k]].recordBallot, voters[j])
  }

  predicate Alike(answers: Answers, rec: Rec, j: ReplicaID) {
    AcceptedIn(answers, j) && answers[j].recordBallot == rec.recordBallot && answers[j].tuple.value == rec.tuple.value
  }

  ghost predicate CoversAlike(c: Attrs, voters: seq<ReplicaID>, answers: Answers, rec: Rec) {
    forall j <- voters | Alike(answers, rec, j) :: Cover(answers[j].tuple.attrs, c)
  }

  /** attrs is the least cover of the accepted answers like rec. */
  ghost predicate JoinsAlike(attrs: Attrs, voters: seq<ReplicaID>, answers: Answers, rec: Rec) {
    && CoversAlike(attrs, voters, answers, rec)
    && forall c: Attrs :: c.seqNo >= 1 && CoversAlike(c, voters, answers, rec) ==> Cover(attrs, c)
  }

  ghost predicate BestIs(voters: seq<ReplicaID>, answers: Answers, best: Best) {
    && (exists k :: HighestAt(voters, answers, k) && answers[voters[k]] == best.rec)
    && JoinsAlike(best.attrs, voters, answers, best.rec)
  }

  lemma JoinsOne(voters: seq<ReplicaID>, answers: Answers, rec: Rec, id: ReplicaID)
    requires id in voters && id in answers && answers[id] == rec && rec.status.Accepted?
    requires forall j <- voters :: Alike(answers, rec, j) ==> j == id
    ensures JoinsAlike(rec.tuple.attrs, voters, answers, rec)
  {
    assert Alike(answers, rec, id);
  }

  lemma JoinsMore(init: seq<ReplicaID>, answers: Answers, rec: Rec, attrs: Attrs, id: ReplicaID)
    requires JoinsAlike(attrs, init, answers, rec) && Alike(answers, rec, id)
    ensures JoinsAlike(Merge(attrs, answers[id].tuple.attrs), init + [id], answers, rec)
  {
    var more, merged := init + [id], Merge(attrs, answers[id].tuple.attrs);
    MergeIsLeast(attrs, answers[id].tuple.attrs, merged);
    forall j <- more | Alike(answers, rec, j)
      ensures Cover(answers[j].tuple.attrs, merged)
    {
      if j in init {
        CoverTransitive(answers[j].tuple.attrs, attrs, merged);
      }
    }
    forall c: Attrs | c.seqNo >= 1 && CoversAlike(c, more, answers, rec)
      ensures Cover(merged, c)
    {
      assert id in more && forall j <- init :: j in more;
      assert CoversAlike(c, init, answers, rec);
      MergeIsLeast(attrs, answers[id].tuple.attrs, c);
    }
  }

  lemma JoinsSame(init: seq<ReplicaID>, answers: Answers, rec: Rec, attrs: Attrs, id: ReplicaID)
    requires JoinsAlike(attrs, init, answers, rec) && !Alike(answers, rec, id)
    ensures JoinsAlike(attrs, init + [id], answers, rec)
  {
    var more := init + [id];
    assert forall j <- more :: j in init || j == id;
    forall c: Attrs | c.seqNo >= 1 && CoversAlike(c, more, answers, rec)
      ensures Cover(attrs, c)
    {
      assert forall j <- init :: j in more;
      assert CoversAlike(c, init, answers, rec);
    }
  }

  lemma HighestStays(init: seq<ReplicaID>, answers: Answers, id: ReplicaID, k: int)
    requires HighestAt(init, answers, k) && NoHigher(answers, answers[init[k]].recordBallot, id)
    ensures HighestAt(init + [id], answers, k)
  {
    var more := init + [id];
    assert forall j <- more :: j in init || j == id;
    assert forall j | 0 <= j < k :: more[j] == init[j];
  }

  lemma HighestMoves(init: seq<ReplicaID>, answers: Answers, id: ReplicaID, k: int)
    requires HighestAt(init, answers, k) && AcceptedIn(answers, id)
    requires answers[init[k]].recordBallot.Less(answers[id].recordBallot)
    ensures HighestAt(init + [id], answers, |init|)
    ensures JoinsAlike(answers[id].tuple.attrs, init + [id], answers, answers[id])
  {
    var more, b := init + [id], answers[id].recordBallot;
    forall j <- init
      ensures Lower(answers, b, j)
    {
      assert NoHigher(answers, answers[init[k]].recordBallot, j);
    }
    assert forall j | 0 <= j < |init| :: more[j] == init[j] && init[j] in init;
    assert forall j <- more :: j in init || j == id;
    JoinsOne(more, answers, answers[id], id);
  }

  /** The choice among accepted answers: the first of the highest record ballot, with the cover of those like it. */
  lemma {:induction false} BestMeaning(voters: seq<ReplicaID>, answers: Answers)
    ensures BestAccepted(voters, answers).None? <==> forall j <- voters :: !AcceptedIn(answers, j)
    ensures BestAccepted(voters, answers).Some? ==> BestIs(voters, answers, BestAccepted(voters, answers).value)
  {
    if voters != [] {
      var init, id := voters[..|voters| - 1], voters[|voters| - 1];
      BestMeaning(init, answers);
      assert voters == init + [id];
      assert forall j <- voters :: j in init || j == id;
      var prior := BestAccepted(init, answers);
      if prior.Some? {
        var k :| HighestAt(init, answers, k) && answers[init[k]] == prior.value.rec;
        if AcceptedIn(answers, id) && prior.value.rec.recordBallot.Less(answers[id].recordBallot) {
          HighestMoves(init, answers, id, k);
        } else {
          HighestStays(init, answers, id, k);
          if Alike(answers, prior.value.rec, id) {
            JoinsMore(init, answers, prior.value.rec, prior.value.attrs, id);
          } else {
            JoinsSame(init, answers, prior.value.rec, prior.value.attrs, id);
          }
        }
      } else if AcceptedIn(answers, id) {
        assert HighestAt(voters, answers, |init|) by {
          assert forall j | 0 <= j < |init| :: voters[j] == init[j] && init[j] in init;
        }
        JoinsOne(voters, answers, answers[id], id);
      }
    }
  }

  // Pre-accepted answers.

  predicate PreAcceptedIn(answers: Answers, j: ReplicaID) {
    j in answers && answers[j].status.PreAccepted?
  }

  /** top is the highest record ballot of the pre-accepted answers; zero when there is none. */
  ghost predicate IsTop(voters: seq<ReplicaID>, answers: Answers, top: Ballot) {
    && (forall j <- voters | PreAcceptedIn(answers, j) :: answers[j].recordBallot.AtMost(top))
    && (top == ZERO || exists j <- voters :: PreAcceptedIn(answers, j) && answers[j].recordBallot == top)
  }

  predicate AtTop(answers: Answers, top: Ballot, j: ReplicaID) {
    PreAcceptedIn(answers, j) && answers[j].recordBallot == top
  }

  ghost predicate CoversTop(c: Attrs, voters: seq<ReplicaID>, answers: Answers, top: Ballot) {
    forall j <- voters | AtTop(answers, top, j) :: Cover(answers[j].tuple.attrs, c)
  }

  /** attrs is the least cover of the answers at the top and of what is known locally. */
  ghost predicate JoinsTop(attrs: Attrs, voters: seq<ReplicaID>, answers: Answers, top: Ballot, local: Attrs) {
    && CoversTop(attrs, voters, answers, top) && Cover(local, attrs) && attrs.seqNo >= 1
    && forall c: Attrs :: c.seqNo >= 1 && CoversTop(c, voters, answers, top) && Cover(local, c) ==> Cover(attrs, c)
  }

  lemma {:induction false} MergedTop(voters: seq<ReplicaID>, answers: Answers, top: Ballot)
    ensures CoversTop(MergedAt(voters, answers, top), voters, answers, top)
    ensures forall c: Attrs :: c.seqNo >= 1 && CoversTop(c, voters, answers, top) ==>
              Cover(MergedAt(voters, answers, top), c)
  {
    if voters != [] {
      var init, id := voters[..|voters| - 1], voters[|voters| - 1];
      var prior, merged := MergedAt(init, answers, top), MergedAt(voters, answers, top);
      MergedTop(init, answers, top);
      assert forall j <- voters :: j in init || j == id;
      assert id in voters && forall j <- init :: j in voters;
      if AtTop(answers, top, id) {
        MergeIsLeast(prior, answers[id].tuple.attrs, merged);
        forall j <- voters | AtTop(answers, top, j)
          ensures Cover(answers[j].tuple.attrs, merged)
        {
          if j in init {
            CoverTransitive(answers[j].tuple.attrs, prior, merged);
          }
        }
      }
      forall c: Attrs | c.seqNo >= 1 && CoversTop(c, voters, answers, top)
        ensures Cover(merged, c)
      {
        assert CoversTop(c, init, answers, top);
        if AtTop(answers, top, id) {
          MergeIsLeast(prior, answers[id].tuple.attrs, c);
        }
      }
    }
  }

  lemma MergedWithLocal(voters: seq<ReplicaID>, answers: Answers, top: Ballot, local: Attrs)
    ensures JoinsTop(Merge(MergedAt(voters, answers, top), local), voters, answers, top, local)
  {
    var merged := MergedAt(voters, answers, top);
    var all := Merge(merged, local);
    MergedTop(voters, answers, top);
    MergeIsLeast(merged, local, all);
    forall j <- voters | AtTop(answers, top, j)
      ensures Cover(answers[j].tuple.attrs, all)
    {
      CoverTransitive(answers[j].tuple.attrs, merged, all);
    }
    forall c: Attrs | c.seqNo >= 1 && CoversTop(c, voters, answers, top) && Cover(local, c)
      ensures Cover(all, c)
    {
      MergeIsLeast(merged, local, c);
    }
  }

  /** The voters that hold t, eligible, at the top. */
  function Holders(answers: Answers, top: Ballot, t: Tuple): set<ReplicaID> {
    set j | j in answers && AtTop(answers, top, j) && answers[j].eligible && answers[j].tuple == t
  }

  /** Slot k holds an eligible record at the top whose tuple enough voters hold. */
  ghost predicate TriableAt(g: Group, answers: Answers, top: Ballot, k: int)
    requires |g.voters| >= 1
  {
    && 0 <= k < |g.voters| && g.voters[k] in answers && AtTop(answers, top, g.voters[k])
    && answers[g.voters[k]].eligible
    && |Holders(answers, top, answers[g.voters[k]].tuple)| >= Q.Witness(|g.voters|)
  }

  // The decision.

  ghost predicate FinalAt(voters: seq<ReplicaID>, answers: Answers, k: int) {
    0 <= k < |voters| && voters[k] in answers && answers[voters[k]].status.Final()
  }

  ghost predicate FirstFinal(voters: seq<ReplicaID>, answers: Answers, k: int) {
    FinalAt(voters, answers, k) && forall j | 0 <= j < k :: !FinalAt(voters, answers, j)
  }

  ghost predicate FirstTriable(g: Group, answers: Answers, top: Ballot, k: int)
    requires |g.voters| >= 1
  {
    TriableAt(g, answers, top, k) && forall j | 0 <= j < k :: !TriableAt(g, answers, top, j)
  }

  ghost predicate FirstAtTop(voters: seq<ReplicaID>, answers: Answers, top: Ballot, k: int) {
    && 0 <= k < |voters| && AtTop(answers, top, voters[k])
    && forall j | 0 <= j < k :: !AtTop(answers, top, voters[j])
  }

  /** The first final answer is adopted. */
  lemma FinalAdopted(g: Group, answers: Answers, local: Attrs, fallback: Option<Value>, k: int)
    requires |g.voters| >= 1 && FirstFinal(g.voters, answers, k)
    ensures Decide(g, answers, local, fallback) == Adopt(answers[g.voters[k]])
  {
    var finals := set j | j in answers && answers[j].status.Final();
    FirstMeaning(g.voters, finals);
    forall j | 0 <= j < k
      ensures g.voters[j] !in finals
    {
      assert !FinalAt(g.voters, answers, j);
    }
    assert FirstAt(g.voters, finals, k);
    var i :| FirstAt(g.voters, finals, i) && First(g.voters, finals).value == g.voters[i];
  }

  ghost predicate NoFinal(voters: seq<ReplicaID>, answers: Answers) {
    forall k :: !FinalAt(voters, answers, k)
  }

  lemma NoneFinal(g: Group, answers: Answers)
    requires NoFinal(g.voters, answers)
    ensures First(g.voters, set j | j in answers && answers[j].status.Final()).None?
  {
    var finals := set j | j in answers && answers[j].status.Final();
    var first := First(g.voters, finals);
    if first.Some? {
      var k :| 0 <= k < |g.voters| && g.voters[k] == first.value;
      assert FinalAt(g.voters, answers, k);
    }
  }

  /** Else the first accepted answer of the highest record ballot is accepted, joined with those like it. */
  lemma AcceptedFollowed(g: Group, answers: Answers, local: Attrs, fallback: Option<Value>, k: int)
    requires |g.voters| >= 1 && NoFinal(g.voters, answers) && HighestAt(g.voters, answers, k)
    ensures exists attrs :: JoinsAlike(attrs, g.voters, answers, answers[g.voters[k]])
              && Decide(g, answers, local, fallback) == Plan.Accepting(Tuple(attrs, answers[g.voters[k]].tuple.value))
  {
    NoneFinal(g, answers);
    BestMeaning(g.voters, answers);
    assert g.voters[k] in g.voters;
    var best := BestAccepted(g.voters, answers).value;
    var i :| HighestAt(g.voters, answers, i) && answers[g.voters[i]] == best.rec;
    OneHighest(g.voters, answers, i, k);
  }

  lemma OneHighest(voters: seq<ReplicaID>, answers: Answers, i: int, k: int)
    requires HighestAt(voters, answers, i) && HighestAt(voters, answers, k)
    ensures i == k
  {
    assert voters[i] in voters && voters[k] in voters;
    assert NoHigher(answers, answers[voters[k]].recordBallot, voters[i]);
    assert NoHigher(answers, answers[voters[i]].recordBallot, voters[k]);
  }

  ghost predicate Inconclusive(voters: seq<ReplicaID>, answers: Answers) {
    NoFinal(voters, answers) && forall j <- voters :: !AcceptedIn(answers, j)
  }

  lemma Unaccepted(g: Group, answers: Answers, local: Attrs, fallback: Option<Value>, top: Ballot)
    requires |g.voters| >= 1 && Inconclusive(g.voters, answers) && IsTop(g.voters, answers, top)
    ensures Decide(g, answers, local, fallback) == DecideUnaccepted(g, answers, local, fallback)
    ensures TopPreAccepted(g.voters, answers) == top
  {
    NoneFinal(g, answers);
    BestMeaning(g.voters, answers);
    TopIsHighest(g.voters, answers);
    var found := TopPreAccepted(g.voters, answers);
    if found != ZERO {
      var j :| j in g.voters && j in PreAcceptedAt(answers, found);
      assert PreAcceptedIn(answers, j);
    }
  }

  /** Else the first tuple that enough eligible answers at the top share is tried, with exactly those as witnesses. */
  lemma SharedTried(g: Group, answers: Answers, local: Attrs, fallback: Option<Value>, top: Ballot, k: int)
    requires |g.voters| >= 1 && Inconclusive(g.voters, answers) && IsTop(g.voters, answers, top)
    requires FirstTriable(g, answers, top, k)
    ensures var t := answers[g.voters[k]].tuple;
            Decide(g, answers, local, fallback) == Plan.Trying(t, Holders(answers, top, t))
  {
    Unaccepted(g, answers, local, fallback, top);
    var pool := TryPool(|g.voters|, answers, top);
    PoolIsTriable(g, answers, top);
    FirstMeaning(g.voters, pool);
    forall j | 0 <= j < k
      ensures g.voters[j] !in pool
    {
      assert !TriableAt(g, answers, top, j);
    }
    assert FirstAt(g.voters, pool, k);
    var i :| FirstAt(g.voters, pool, i) && First(g.voters, pool).value == g.voters[i];
    assert Witnesses(answers, top, answers[g.voters[k]].tuple) == Holders(answers, top, answers[g.voters[k]].tuple);
  }

  lemma PoolIsTriable(g: Group, answers: Answers, top: Ballot)
    requires |g.voters| >= 1
    ensures forall k | 0 <= k < |g.voters| ::
              g.voters[k] in TryPool(|g.voters|, answers, top) <==> TriableAt(g, answers, top, k)
  {
    forall k | 0 <= k < |g.voters|
      ensures g.voters[k] in TryPool(|g.voters|, answers, top) <==> TriableAt(g, answers, top, k)
    {
      if g.voters[k] in answers {
        var t := answers[g.voters[k]].tuple;
        assert Witnesses(answers, top, t) == Holders(answers, top, t);
      }
    }
  }

  ghost predicate NothingTriable(g: Group, answers: Answers, top: Ballot)
    requires |g.voters| >= 1
  {
    forall k :: !TriableAt(g, answers, top, k)
  }

  lemma NoPool(g: Group, answers: Answers, top: Ballot)
    requires |g.voters| >= 1 && NothingTriable(g, answers, top)
    ensures First(g.voters, TryPool(|g.voters|, answers, top)).None?
  {
    PoolIsTriable(g, answers, top);
  }

  /** Else the value of the first answer at the top is accepted, covering all of them and local knowledge. */
  lemma TopAccepted(g: Group, answers: Answers, local: Attrs, fallback: Option<Value>, top: Ballot, k: int)
    requires |g.voters| >= 1 && Inconclusive(g.voters, answers) && IsTop(g.voters, answers, top)
    requires NothingTriable(g, answers, top) && FirstAtTop(g.voters, answers, top, k)
    ensures exists attrs :: JoinsTop(attrs, g.voters, answers, top, local)
              && Decide(g, answers, local, fallback) == Plan.Accepting(Tuple(attrs, answers[g.voters[k]].tuple.value))
  {
    Unaccepted(g, answers, local, fallback, top);
    NoPool(g, answers, top);
    MergedWithLocal(g.voters, answers, top, local);
    var at := PreAcceptedAt(answers, top);
    FirstMeaning(g.voters, at);
    assert FirstAt(g.voters, at, k);
    var i :| FirstAt(g.voters, at, i) && First(g.voters, at).value == g.voters[i];
  }

  ghost predicate Independent(attrs: Attrs, n: nat) {
    attrs.seqNo == 1 && |attrs.deps| == n && forall i | 0 <= i < n :: attrs.deps[i] == 0
  }

  /** Else, nobody knowing a value, the fallback is accepted without dependencies; without one nothing is done. */
  lemma FallbackTaken(g: Group, answers: Answers, local: Attrs, fallback: Option<Value>)
    requires |g.voters| >= 1 && Inconclusive(g.voters, answers) && forall j <- g.voters :: !PreAcceptedIn(answers, j)
    requires forall j <- answers :: j in g.voters
    ensures fallback.None? ==> Decide(g, answers, local, fallback) == Refuse
    ensures fallback.Some? ==>
              exists attrs :: Independent(attrs, |g.voters|)
                && Decide(g, answers, local, fallback) == Plan.Accepting(Tuple(attrs, fallback.value))
  {
    Unaccepted(g, answers, local, fallback, ZERO);
    assert NothingTriable(g, answers, ZERO);
    NoPool(g, answers, ZERO);
    assert PreAcceptedAt(answers, ZERO) == {};
    assert Independent(Attrs(1, seq(|g.voters|, _ => 0)), |g.voters|);
  }

  // Carrying the decision out.

  /** The replica stores t as tried and asks the others to try it, unless witnesses and owner are a slow quorum. */
  ghost predicate TriesTuple(g: Group, self: ReplicaID, n: Node, r: Node, t: Tuple, witnesses: set<ReplicaID>) {
    var b := Mem(n).ballot;
    var tried, accepted := Rec(b, b, PreAccepted, t, false), Rec(b, b, Accepted, t, false);
    && r.durable == n.durable && r.preOK == map[] && r.prepareOK == map[]
    && if |witnesses + {g.owner}| >= Q.Slow(|g.voters|)
       then
         && r.log == n.log + [tried, accepted] && r.outbox == n.outbox + {Outgoing(Accept(self, b, t), |n.log| + 2)}
         && r.phase.AcceptPhase? && r.accOK == {self} && r.tryOK == {}
       else
         && Stores(n, r, tried, TryPreAccept(self, b, t)) && r.phase.TryPhase? && r.tryOK == witnesses + {g.owner}
         && r.accOK == {}
  }

  ghost predicate CarriesOut(g: Group, self: ReplicaID, n: Node, r: Node, plan: Plan) {
    match plan
    case Refuse => r == n
    case Adopt(rec) => CommitsTuple(self, n, r, rec.ballot, rec.recordBallot, rec.tuple)
    case Accepting(t) => StartsAccept(self, n, r, t)
    case Trying(t, witnesses) => TriesTuple(g, self, n, r, t, witnesses)
  }

  lemma CarriedOut(g: Group, self: ReplicaID, n: Node, plan: Plan)
    requires n.phase.PreparePhase?
    ensures CarriesOut(g, self, n, Carry(g, self, n, plan), plan)
  {
    if plan.Trying? {
      var b := Mem(n).ballot;
      var tried, accepted := Rec(b, b, PreAccepted, plan.tuple, false), Rec(b, b, Accepted, plan.tuple, false);
      assert n.log + [tried, accepted] == (n.log + [tried]) + [accepted];
    }
  }

  /** An answer to the replica's own Prepare, from a voter not heard yet. */
  predicate CountsAnswer(g: Group, self: ReplicaID, n: Node, m: Message)
    requires m.PrepareResp?
  {
    && n.phase.PreparePhase? && Mem(n).ballot.replica == self && (Mem(n).ballot.epoch != 0 || Mem(n).ballot.number != 0)
    && m.ballot == Mem(n).ballot && m.from !in n.prepareOK && m.from in g.voters
    && (m.rec.status.Empty? || m.rec.recordBallot != ZERO)
  }

  /** Answers are counted, and the one that completes a slow quorum is followed by the decision on all of them. */
  lemma AnswerCounted(g: Group, self: ReplicaID, n: Node, m: Message, env: Local)
    requires |g.voters| >= 1 && m.PrepareResp?
    ensures var r, mem := Handle(g, self, n, m, env), Mem(n);
            var heard := n.(prepareOK := n.prepareOK[m.from := m.rec]);
            var leads := n.phase.PreparePhase? && mem.ballot.replica == self
                && (mem.ballot.epoch != 0 || mem.ballot.number != 0);
            if leads && mem.ballot.Less(m.ballot) then Prepares(self, n, r, m.ballot)
            else if !CountsAnswer(g, self, n, m) then r == n
            else if |heard.prepareOK| < Q.Slow(|g.voters|) then r == heard
            else CarriesOut(g, self, heard, r, Decide(g, heard.prepareOK, env.attrs, FallbackValue(g, env)))
  {
    StartPrepares(self, n, m.ballot);
    var heard := n.(prepareOK := n.prepareOK[m.from := m.rec]);
    if heard.phase.PreparePhase? {
      CarriedOut(g, self, heard, Decide(g, heard.prepareOK, env.attrs, FallbackValue(g, env)));
    }
  }

  /** What a coordinator supplies: a no-op, or at a reserved reference the membership command, if it has it. */
  lemma FallbackMeaning(g: Group, env: Local)
    ensures FallbackValue(g, env)
            == match env.control
               case None => Some(NoOp)
               case Some(payload) =>
                 if !g.reserved then Some(NoOp)
                 else if payload.Some? then Some(Entry(4, payload.value)) else None
  {
  }
}
