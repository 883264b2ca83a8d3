/** A run in which an interrupted Try round loses a proposal that was committed fast as it was. */
module Interrupted {
  import opened Types
  import opened Ballots
  import opened Attributes
  import opened Protocol
  import opened Recovery
  import opened Handlers
  import opened Cluster
  import opened ClusterRuns
  import D = Divergence
  import FP = FastPath
  import Q = Quorum

  const FIVE := Group(1, [1, 2, 3, 4, 5], false)
  const OWN := FIVE.Initial()
  const FOURTH := Ballot(0, 1, 4)
  const FIFTH := Ballot(0, 2, 5)

  /** The owner's proposal t and what the last coordinator knows itself. */
  datatype Case = Case(t: Tuple, c: Attrs) {
    ghost predicate Valid() {
      t.attrs.seqNo >= 1 && |t.attrs.deps| == 5
    }

    function Seen(): Local {
      Local(t.attrs, t.attrs.deps, false, None)
    }

    function Slots(): set<nat> {
      FP.CommittedSlots(t.attrs, t.attrs.deps)
    }

    function Vote(): FP.Vote {
      FP.Vote(t.attrs, true, Slots())
    }

    function Reply(i: ReplicaID): Message {
      PreAcceptResp(i, OWN, t.attrs, true, Slots())
    }

    /** The record of a voter that pre-accepted t unchanged and has promised b. */
    function Exact(b: Ballot): Rec {
      Rec(b, OWN, PreAccepted, t, true)
    }

    /** The record of a Try round at the fourth voter's ballot, under promise b. */
    function Tried(b: Ballot): Rec {
      Rec(b, FOURTH, PreAccepted, t, false)
    }

    function Final(): Tuple {
      Tuple(Merge(t.attrs, c), t.value)
    }
  }

  function Asking(b: Ballot): Rec {
    BLANK.(ballot := b)
  }

  /** The answer that completes a slow quorum is decided on at once. */
  lemma LastAnswer(g: Group, self: ReplicaID, n: Node, from: ReplicaID, rec: Rec, env: Local)
    requires |g.voters| >= 1 && n.phase.PreparePhase? && Mem(n).ballot.IsRecovery() && Mem(n).ballot.replica == self
    requires from in g.voters && from !in n.prepareOK && (rec.status.Empty? || rec.recordBallot != ZERO)
    requires |n.prepareOK[from := rec]| >= Q.Slow(|g.voters|)
    ensures HandlePrepareResp(g, self, n, from, Mem(n).ballot, rec, env)
            == Carry(g, self, n.(prepareOK := n.prepareOK[from := rec]),
                     Decide(g, n.prepareOK[from := rec], env.attrs, FallbackValue(g, env)))
  {
  }

  // The owner proposes, voters 2 and 3 agree, and the owner commits fast.

  function Owner(k: Case, votes: FP.Votes): Node {
    Node([k.Exact(OWN)], 1, {Outgoing(PreAccept(1, OWN, k.t), 1)}, PreAcceptPhase, votes, {}, {}, map[])
  }

  function Voter(k: Case, i: ReplicaID): Node {
    Node([k.Exact(OWN)], 1, {Outgoing(k.Reply(i), 1)}, Idle, map[], {}, {}, map[])
  }

  lemma Agrees(k: Case, i: ReplicaID)
    requires k.Valid()
    ensures Handle(FIVE, i, NEW_NODE, PreAccept(1, OWN, k.t), k.Seen()) == Voter(k, i).(durable := 0)
  {
    MergeIdempotent(k.t.attrs);
  }

  lemma FirstReply(k: Case)
    requires k.Valid()
    ensures Handle(FIVE, 1, Owner(k, map[1 := k.Vote()]), k.Reply(2), k.Seen())
            == Owner(k, map[1 := k.Vote(), 2 := k.Vote()])
  {
    var votes := map[1 := k.Vote()][2 := k.Vote()];
    assert votes == map[1 := k.Vote(), 2 := k.Vote()] && votes.Keys == {1, 2};
    var p := FP.Proposal(1, k.t.attrs, true, true);
    assert FP.Matching(p, votes, k.t.attrs) == {2};
    assert |votes| == |votes.Keys| == 2;
    NoneCovering(k, votes, FIVE.voters);
  }

  lemma {:induction false} NoneCovering(k: Case, votes: FP.Votes, voters: seq<ReplicaID>)
    requires forall i <- votes :: votes[i].attrs == k.t.attrs
    ensures FP.FirstCovering(FP.Proposal(1, k.t.attrs, true, true), 5, voters, votes, k.t.attrs.deps) == None
  {
    if voters != [] {
      NoneCovering(k, votes, voters[1..]);
    }
  }

  function FastCommit(k: Case): Message {
    Commit(1, OWN, OWN, k.t)
  }

  lemma SecondReply(k: Case)
    requires k.Valid()
    ensures var r := Handle(FIVE, 1, Owner(k, map[1 := k.Vote(), 2 := k.Vote()]), k.Reply(3), k.Seen());
            |r.log| == 2 && r.durable == 1 && Outgoing(FastCommit(k), 2) in r.outbox
  {
    var votes := map[1 := k.Vote(), 2 := k.Vote()][3 := k.Vote()];
    var p := FP.Proposal(1, k.t.attrs, true, true);
    assert FP.Matching(p, votes, k.t.attrs) == {2, 3};
    assert FP.CanFastCommit(p, 5, votes, k.t.attrs, k.t.attrs.deps);
  }

  ghost predicate AllFive(w: World) {
    D.Reached(FIVE, w) && w.nodes.Keys == {1, 2, 3, 4, 5}
  }

  lemma ProposalSent(k: Case) returns (w: World)
    requires k.Valid()
    ensures AllFive(w) && PreAccept(1, OWN, k.t) in w.net && w.nodes[1] == Owner(k, map[1 := k.Vote()])
    ensures w.nodes[2] == w.nodes[3] == w.nodes[4] == w.nodes[5] == NEW_NODE
  {
    D.StartReached(FIVE);
    var made := Propose(FIVE, 1, NEW_NODE, k.t, k.Seen());
    assert made == Owner(k, map[1 := k.Vote()]).(durable := 0);
    w := D.Acted(FIVE, Start(FIVE), Proposing(1, k.t, k.Seen()), made, PreAccept(1, OWN, k.t));
  }

  lemma RepliesSent(k: Case) returns (w: World)
    requires k.Valid()
    ensures AllFive(w) && k.Reply(2) in w.net && k.Reply(3) in w.net
    ensures w.nodes[1] == Owner(k, map[1 := k.Vote()]) && w.nodes[2] == Voter(k, 2)
            && w.nodes[4] == w.nodes[5] == NEW_NODE
  {
    var asked := ProposalSent(k);
    Agrees(k, 2);
    Agrees(k, 3);
    var m := PreAccept(1, OWN, k.t);
    var one := D.Delivered(FIVE, asked, 2, m, k.Seen(), Voter(k, 2).(durable := 0), k.Reply(2));
    w := D.Delivered(FIVE, one, 3, m, k.Seen(), Voter(k, 3).(durable := 0), k.Reply(3));
  }

  lemma CommitSent(k: Case) returns (w: World)
    requires k.Valid()
    ensures AllFive(w) && FastCommit(k) in w.net && w.nodes[2] == Voter(k, 2) && w.nodes[4] == w.nodes[5] == NEW_NODE
  {
    var replied := RepliesSent(k);
    FirstReply(k);
    var both := map[1 := k.Vote(), 2 := k.Vote()];
    var counted := D.Heard(FIVE, replied, 1, k.Reply(2), k.Seen(), Owner(k, both));
    w := OwnerStep(k, counted);
  }

  lemma OwnerStep(k: Case, w: World) returns (v: World)
    requires k.Valid() && AllFive(w) && w.nodes[1] == Owner(k, map[1 := k.Vote(), 2 := k.Vote()]) && k.Reply(3) in w.net
    ensures AllFive(v) && v.nodes == w.nodes[1 := v.nodes[1]] && FastCommit(k) in v.net
  {
    SecondReply(k);
    v := D.Delivered(FIVE, w, 1, k.Reply(3), k.Seen(), Handle(FIVE, 1, w.nodes[1], k.Reply(3), k.Seen()),
                     FastCommit(k));
  }

  // Voter 4 recovers with voters 2 and 5, tries the proposal, and stops there.

  function Asker(answers: Answers): Node {
    Node([Asking(FOURTH)], 1, {Outgoing(Prepare(4, FOURTH), 1)}, PreparePhase, map[], {}, {}, answers)
  }

  lemma ShowsExact(k: Case, n: Node, held: Ballot, b: Ballot)
    requires n.log != [] && Mem(n) == k.Exact(held) && held.Less(b)
    ensures var r := HandlePrepare(2, n, b);
            && r.log == n.log + [k.Exact(b)] && r.durable == n.durable
            && Outgoing(PrepareResp(2, b, k.Exact(b)), |r.log|) in r.outbox
  {
  }

  lemma ShowsNothing()
    ensures var r := HandlePrepare(5, NEW_NODE, FOURTH);
            && r.log == [Asking(FOURTH)] && r.durable == 0
            && Outgoing(PrepareResp(5, FOURTH, Asking(FOURTH)), 1) in r.outbox
            && r.phase == Idle
  {
  }

  function Surveyed(k: Case): Answers {
    map[4 := Asking(FOURTH), 2 := k.Exact(FOURTH), 5 := Asking(FOURTH)]
  }

  lemma Prefixes()
    ensures FIVE.voters[..4] == [1, 2, 3, 4] && [1, 2, 3, 4][..3] == [1, 2, 3] && [1, 2, 3][..2] == [1, 2]
            && [1, 2][..1] == [1] && [1][..0] == []
    ensures FIVE.voters[1..] == [2, 3, 4, 5] && [2, 3, 4, 5][1..] == [3, 4, 5] && [3, 4, 5][1..] == [4, 5]
            && [4, 5][1..] == [5] && [5][1..] == []
  {
  }

  /** Five voters are looked at one after the other. */
  lemma {:induction false} NothingAccepted(voters: seq<ReplicaID>, answers: Answers)
    requires forall i <- answers :: !answers[i].status.Accepted?
    ensures BestAccepted(voters, answers) == None
  {
    if voters != [] {
      NothingAccepted(voters[..|voters| - 1], answers);
    }
  }

  /** The survey shows one eligible record, enough of a witness among five. */
  lemma SurveyTries(k: Case)
    ensures Decide(FIVE, Surveyed(k), k.t.attrs, Some(NoOp)) == Trying(k.t, {2})
  {
    var answers := Surveyed(k);
    Prefixes();
    NothingAccepted(FIVE.voters, answers);
    assert (set j | j in answers && answers[j].status.Final()) == {};
    assert TopPreAccepted([], answers) == ZERO;
    assert TopPreAccepted([1], answers) == ZERO && TopPreAccepted([1, 2], answers) == OWN;
    assert TopPreAccepted([1, 2, 3], answers) == OWN && TopPreAccepted([1, 2, 3, 4], answers) == OWN;
    var top := TopPreAccepted(FIVE.voters, answers);
    assert top == OWN && PreAcceptedAt(answers, top) == {2};
    assert Witnesses(answers, top, k.t) == {2};
    assert TryPool(5, answers, top) == {2};
    assert First(FIVE.voters, {2}) == First([2, 3, 4, 5], {2}) == Some(2);
  }

  /** The state of voter 4 when it has stored the try record. */
  ghost predicate Trying4(k: Case, n: Node) {
    n.log == [Asking(FOURTH), k.Tried(FOURTH)] && n.durable == 2
  }

  lemma FirstAnswer(k: Case)
    ensures Handle(FIVE, 4, Asker(map[4 := Asking(FOURTH)]), PrepareResp(2, FOURTH, k.Exact(FOURTH)), k.Seen())
            == Asker(map[4 := Asking(FOURTH), 2 := k.Exact(FOURTH)])
  {
    var answers := map[4 := Asking(FOURTH)][2 := k.Exact(FOURTH)];
    assert answers == map[4 := Asking(FOURTH), 2 := k.Exact(FOURTH)];
    assert answers.Keys == {2, 4} && |answers| == |answers.Keys|;
  }

  /** With the third answer the coordinator decides. */
  lemma Decides(k: Case)
    ensures Handle(FIVE, 4, Asker(map[4 := Asking(FOURTH), 2 := k.Exact(FOURTH)]),
                   PrepareResp(5, FOURTH, Asking(FOURTH)), k.Seen())
            == Carry(FIVE, 4, Asker(Surveyed(k)), Decide(FIVE, Surveyed(k), k.t.attrs, Some(NoOp)))
  {
    var answers := map[4 := Asking(FOURTH), 2 := k.Exact(FOURTH)][5 := Asking(FOURTH)];
    assert answers == Surveyed(k) && answers.Keys == {2, 4, 5} && |answers| == |answers.Keys|;
    LastAnswer(FIVE, 4, Asker(map[4 := Asking(FOURTH), 2 := k.Exact(FOURTH)]), 5, Asking(FOURTH), k.Seen());
  }

  lemma SecondAnswer(k: Case)
    ensures var r := Handle(FIVE, 4, Asker(map[4 := Asking(FOURTH), 2 := k.Exact(FOURTH)]),
                            PrepareResp(5, FOURTH, Asking(FOURTH)), k.Seen());
            && r.log == [Asking(FOURTH), k.Tried(FOURTH)] && r.durable == 1
            && Outgoing(TryPreAccept(4, FOURTH, k.t), 2) in r.outbox
  {
    Decides(k);
    SurveyTries(k);
    StartsTry(k, Asker(Surveyed(k)));
  }

  lemma StartsTry(k: Case, n: Node)
    requires n == Asker(n.prepareOK)
    ensures var r := StartTry(FIVE, 4, n, k.t, {2});
            && r.log == [Asking(FOURTH), k.Tried(FOURTH)] && r.durable == 1
            && Outgoing(TryPreAccept(4, FOURTH, k.t), 2) in r.outbox
  {
    assert {2} + {1} == {1, 2};
  }

  lemma FourthAsks(k: Case) returns (w: World)
    requires k.Valid()
    ensures AllFive(w) && FastCommit(k) in w.net && Prepare(4, FOURTH) in w.net
    ensures w.nodes[4] == Asker(map[4 := Asking(FOURTH)]) && w.nodes[2] == Voter(k, 2) && w.nodes[5] == NEW_NODE
  {
    var committed := CommitSent(k);
    var made := Recover(4, NEW_NODE);
    assert made == Asker(map[4 := Asking(FOURTH)]).(durable := 0);
    w := D.Acted(FIVE, committed, Recovering(4), made, Prepare(4, FOURTH));
  }

  lemma FourthAnswered(k: Case) returns (w: World)
    requires k.Valid()
    ensures AllFive(w) && FastCommit(k) in w.net && w.nodes[4] == Asker(map[4 := Asking(FOURTH)])
    ensures PrepareResp(2, FOURTH, k.Exact(FOURTH)) in w.net && PrepareResp(5, FOURTH, Asking(FOURTH)) in w.net
    ensures w.nodes[2].log != [] && Mem(w.nodes[2]) == k.Exact(FOURTH) && w.nodes[2].durable == |w.nodes[2].log|
    ensures w.nodes[5].log == [Asking(FOURTH)] && w.nodes[5].durable == 1 && w.nodes[5].phase == Idle
  {
    var asked := FourthAsks(k);
    ShowsExact(k, Voter(k, 2), OWN, FOURTH);
    ShowsNothing();
    var one := D.Delivered(FIVE, asked, 2, Prepare(4, FOURTH), k.Seen(), HandlePrepare(2, Voter(k, 2), FOURTH),
                           PrepareResp(2, FOURTH, k.Exact(FOURTH)));
    w := D.Delivered(FIVE, one, 5, Prepare(4, FOURTH), k.Seen(), HandlePrepare(5, NEW_NODE, FOURTH),
                     PrepareResp(5, FOURTH, Asking(FOURTH)));
  }

  lemma FourthTries(k: Case) returns (w: World)
    requires k.Valid()
    ensures AllFive(w) && FastCommit(k) in w.net && Trying4(k, w.nodes[4])
    ensures w.nodes[2].log != [] && Mem(w.nodes[2]) == k.Exact(FOURTH) && w.nodes[2].durable == |w.nodes[2].log|
    ensures w.nodes[5].log == [Asking(FOURTH)] && w.nodes[5].durable == 1 && w.nodes[5].phase == Idle
  {
    var answered := FourthAnswered(k);
    FirstAnswer(k);
    var half := Asker(map[4 := Asking(FOURTH), 2 := k.Exact(FOURTH)]);
    var one := D.Heard(FIVE, answered, 4, PrepareResp(2, FOURTH, k.Exact(FOURTH)), k.Seen(), half);
    w := TryStep(k, one);
  }

  lemma TryStep(k: Case, w: World) returns (v: World)
    requires AllFive(w) && w.nodes[4] == Asker(map[4 := Asking(FOURTH), 2 := k.Exact(FOURTH)])
    requires PrepareResp(5, FOURTH, Asking(FOURTH)) in w.net
    ensures AllFive(v) && v.nodes == w.nodes[4 := v.nodes[4]] && w.net <= v.net && Trying4(k, v.nodes[4])
  {
    SecondAnswer(k);
    var m := PrepareResp(5, FOURTH, Asking(FOURTH));
    v := D.Delivered(FIVE, w, 4, m, k.Seen(), Handle(FIVE, 4, w.nodes[4], m, k.Seen()), TryPreAccept(4, FOURTH, k.t));
  }

  // Voter 5 recovers with voters 4 and 2: the try record outranks the eligible one and hides it.

  function Second(answers: Answers, outbox: set<Outgoing>): Node {
    Node([Asking(FOURTH), Asking(FIFTH)], 2, outbox, PreparePhase, map[], {}, {}, answers)
  }

  function Hidden(k: Case): Answers {
    map[5 := Asking(FIFTH), 4 := k.Tried(FIFTH), 2 := k.Exact(FIFTH)]
  }

  lemma {:induction false} OnlyFourth(voters: seq<ReplicaID>, answers: Answers, t: Attrs)
    requires PreAcceptedAt(answers, FOURTH) == {4} && answers[4].tuple.attrs == t && t.seqNo >= 1
    ensures MergedAt(voters, answers, FOURTH) == if 4 in voters then t else NO_ATTRS
  {
    if voters != [] {
      OnlyFourth(voters[..|voters| - 1], answers, t);
      MergeIdempotent(t);
      assert Merge(NO_ATTRS, t) == t;
      assert 4 in voters <==> 4 in voters[..|voters| - 1] || voters[|voters| - 1] == 4;
    }
  }

  lemma SurveyAdds(k: Case)
    requires k.Valid()
    ensures Decide(FIVE, Hidden(k), k.c, Some(NoOp)) == Accepting(k.Final())
  {
    var answers := Hidden(k);
    Prefixes();
    NothingAccepted(FIVE.voters, answers);
    assert (set j | j in answers && answers[j].status.Final()) == {};
    assert TopPreAccepted([], answers) == ZERO;
    assert TopPreAccepted([1], answers) == ZERO && TopPreAccepted([1, 2], answers) == OWN;
    assert TopPreAccepted([1, 2, 3], answers) == OWN && TopPreAccepted([1, 2, 3, 4], answers) == FOURTH;
    var top := TopPreAccepted(FIVE.voters, answers);
    assert top == FOURTH && PreAcceptedAt(answers, top) == {4};
    assert TryPool(5, answers, top) == {};
    OnlyFourth(FIVE.voters, answers, k.t.attrs);
    assert First(FIVE.voters, {4}) == First([2, 3, 4, 5], {4}) == First([3, 4, 5], {4}) == First([4, 5], {4})
           == Some(4);
  }

  ghost predicate Ready2(k: Case, w: World, b: Ballot) {
    2 in w.nodes && w.nodes[2].log != [] && Mem(w.nodes[2]) == k.Exact(b) && w.nodes[2].durable == |w.nodes[2].log|
  }

  ghost predicate Ready4(k: Case, w: World, b: Ballot) {
    4 in w.nodes && w.nodes[4].log != [] && Mem(w.nodes[4]) == k.Tried(b) && w.nodes[4].durable == |w.nodes[4].log|
  }

  lemma AsksAgain(n: Node)
    requires n.log == [Asking(FOURTH)] && n.durable == 1 && n.phase == Idle
    ensures var r := Recover(5, n);
            && r == Second(map[5 := Asking(FIFTH)], r.outbox).(durable := 1)
            && Outgoing(Prepare(5, FIFTH), 2) in r.outbox
  {
  }

  lemma FifthAsks(k: Case) returns (w: World)
    requires k.Valid()
    ensures AllFive(w) && FastCommit(k) in w.net && Prepare(5, FIFTH) in w.net && Ready2(k, w, FOURTH)
            && Ready4(k, w, FOURTH)
    ensures w.nodes[5] == Second(map[5 := Asking(FIFTH)], w.nodes[5].outbox)
  {
    var tried := FourthTries(k);
    AsksAgain(tried.nodes[5]);
    w := D.Acted(FIVE, tried, Recovering(5), Recover(5, tried.nodes[5]), Prepare(5, FIFTH));
  }

  lemma ShowsTry(k: Case, n: Node)
    requires n.log != [] && Mem(n) == k.Tried(FOURTH)
    ensures var r := HandlePrepare(4, n, FIFTH);
            && r.log == n.log + [k.Tried(FIFTH)] && r.durable == n.durable
            && Outgoing(PrepareResp(4, FIFTH, k.Tried(FIFTH)), |r.log|) in r.outbox
  {
  }

  lemma FifthAnswered(k: Case) returns (w: World)
    requires k.Valid()
    ensures AllFive(w) && FastCommit(k) in w.net && Ready2(k, w, FIFTH) && Ready4(k, w, FIFTH)
    ensures PrepareResp(4, FIFTH, k.Tried(FIFTH)) in w.net && PrepareResp(2, FIFTH, k.Exact(FIFTH)) in w.net
    ensures w.nodes[5] == Second(map[5 := Asking(FIFTH)], w.nodes[5].outbox)
  {
    var asked := FifthAsks(k);
    ShowsTry(k, asked.nodes[4]);
    ShowsExact(k, asked.nodes[2], FOURTH, FIFTH);
    var ask := Prepare(5, FIFTH);
    var one := D.Delivered(FIVE, asked, 4, ask, k.Seen(), HandlePrepare(4, asked.nodes[4], FIFTH),
                           PrepareResp(4, FIFTH, k.Tried(FIFTH)));
    w := D.Delivered(FIVE, one, 2, ask, k.Seen(), HandlePrepare(2, asked.nodes[2], FIFTH),
                     PrepareResp(2, FIFTH, k.Exact(FIFTH)));
  }

  function Local5(k: Case): Local {
    Local(k.c, [], false, None)
  }

  lemma ThirdAnswer(k: Case, outbox: set<Outgoing>)
    ensures Handle(FIVE, 5, Second(map[5 := Asking(FIFTH)], outbox), PrepareResp(4, FIFTH, k.Tried(FIFTH)), Local5(k))
            == Second(map[5 := Asking(FIFTH), 4 := k.Tried(FIFTH)], outbox)
  {
    var answers := map[5 := Asking(FIFTH)][4 := k.Tried(FIFTH)];
    assert answers == map[5 := Asking(FIFTH), 4 := k.Tried(FIFTH)];
    assert answers.Keys == {4, 5} && |answers| == |answers.Keys|;
  }

  function Taken(k: Case): Rec {
    Rec(FIFTH, FIFTH, Accepted, k.Final(), false)
  }

  ghost predicate Accepting5(k: Case, n: Node) {
    n.log == [Asking(FOURTH), Asking(FIFTH), Taken(k)] && n.phase == AcceptPhase
  }

  lemma FourthAnswer(k: Case, outbox: set<Outgoing>)
    requires k.Valid()
    ensures var r := Handle(FIVE, 5, Second(map[5 := Asking(FIFTH), 4 := k.Tried(FIFTH)], outbox),
                            PrepareResp(2, FIFTH, k.Exact(FIFTH)), Local5(k));
            && Accepting5(k, r) && r.durable == 2 && r.accOK == {5}
            && Outgoing(Accept(5, FIFTH, k.Final()), 3) in r.outbox
  {
    var answers := map[5 := Asking(FIFTH), 4 := k.Tried(FIFTH)][2 := k.Exact(FIFTH)];
    assert answers == Hidden(k) && answers.Keys == {2, 4, 5} && |answers| == |answers.Keys|;
    LastAnswer(FIVE, 5, Second(map[5 := Asking(FIFTH), 4 := k.Tried(FIFTH)], outbox), 2, k.Exact(FIFTH), Local5(k));
    SurveyAdds(k);
  }

  lemma FifthAccepts(k: Case) returns (w: World)
    requires k.Valid()
    ensures AllFive(w) && FastCommit(k) in w.net && Ready2(k, w, FIFTH) && Ready4(k, w, FIFTH)
            && Accept(5, FIFTH, k.Final()) in w.net
    ensures Accepting5(k, w.nodes[5]) && w.nodes[5].durable == 3 && w.nodes[5].accOK == {5}
  {
    var answered := FifthAnswered(k);
    ThirdAnswer(k, answered.nodes[5].outbox);
    var half := Second(map[5 := Asking(FIFTH), 4 := k.Tried(FIFTH)], answered.nodes[5].outbox);
    var one := D.Heard(FIVE, answered, 5, PrepareResp(4, FIFTH, k.Tried(FIFTH)), Local5(k), half);
    w := AcceptStep(k, one);
  }

  lemma AcceptStep(k: Case, w: World) returns (v: World)
    requires k.Valid() && AllFive(w) && PrepareResp(2, FIFTH, k.Exact(FIFTH)) in w.net
    requires w.nodes[5] == Second(map[5 := Asking(FIFTH), 4 := k.Tried(FIFTH)], w.nodes[5].outbox)
    ensures AllFive(v) && v.nodes == w.nodes[5 := v.nodes[5]] && v.net == w.net + {Accept(5, FIFTH, k.Final())}
    ensures Accepting5(k, v.nodes[5]) && v.nodes[5].durable == 3 && v.nodes[5].accOK == {5}
  {
    FourthAnswer(k, w.nodes[5].outbox);
    var m := PrepareResp(2, FIFTH, k.Exact(FIFTH));
    v := D.Delivered(FIVE, w, 5, m, Local5(k), Handle(FIVE, 5, w.nodes[5], m, Local5(k)), Accept(5, FIFTH, k.Final()));
  }

  function Yes(k: Case, i: ReplicaID): Message {
    AcceptResp(i, FIFTH, FIFTH, k.Final().attrs)
  }

  lemma Joins(k: Case, i: ReplicaID, n: Node)
    requires n.log != [] && (Mem(n) == k.Tried(FIFTH) || Mem(n) == k.Exact(FIFTH)) && n.durable == |n.log|
    ensures var r := HandleAccept(i, n, FIFTH, k.Final());
            |r.log| == r.durable + 1 && Outgoing(Yes(k, i), |r.log|) in r.outbox
  {
  }

  lemma VotersJoin(k: Case) returns (w: World)
    requires k.Valid()
    ensures AllFive(w) && FastCommit(k) in w.net && Yes(k, 4) in w.net && Yes(k, 2) in w.net
    ensures Accepting5(k, w.nodes[5]) && w.nodes[5].durable == 3 && w.nodes[5].accOK == {5}
  {
    var accepting := FifthAccepts(k);
    Joins(k, 4, accepting.nodes[4]);
    Joins(k, 2, accepting.nodes[2]);
    var m := Accept(5, FIFTH, k.Final());
    var one := D.Delivered(FIVE, accepting, 4, m, k.Seen(), HandleAccept(4, accepting.nodes[4], FIFTH, k.Final()),
                           Yes(k, 4));
    w := D.Delivered(FIVE, one, 2, m, k.Seen(), HandleAccept(2, accepting.nodes[2], FIFTH, k.Final()), Yes(k, 2));
  }

  function SlowCommit(k: Case): Message {
    Commit(5, FIFTH, FIFTH, k.Final())
  }

  lemma FirstYes(k: Case, n: Node)
    requires Accepting5(k, n) && n.accOK == {5}
    ensures Handle(FIVE, 5, n, Yes(k, 4), Local5(k)) == n.(accOK := {4, 5})
  {
    assert {5} + {4} == {4, 5};
  }

  lemma SecondYes(k: Case, n: Node)
    requires Accepting5(k, n) && n.accOK == {4, 5} && n.durable == 3
    ensures var r := Handle(FIVE, 5, n, Yes(k, 2), Local5(k));
            |r.log| == 4 && r.durable == 3 && Outgoing(SlowCommit(k), 4) in r.outbox
  {
    assert {4, 5} + {2} == {2, 4, 5};
  }

  /**
   An interrupted Try round loses even a proposal committed fast as it was: for every proposal t of
   five voters and every local knowledge c of the last coordinator, a run reaches two commits, of t
   and of t merged with c; they agree if and only if t covers c.
   */
  lemma TriedCommitLost(k: Case) returns (w: World)
    requires k.Valid()
    ensures FIVE.Valid() && D.Reached(FIVE, w) && FastCommit(k) in w.net && SlowCommit(k) in w.net
    ensures k.t == k.Final() <==> Cover(k.c, k.t.attrs)
  {
    var joined := VotersJoin(k);
    FirstYes(k, joined.nodes[5]);
    var n := joined.nodes[5].(accOK := {4, 5});
    var one := D.Heard(FIVE, joined, 5, Yes(k, 4), Local5(k), n);
    SecondYes(k, n);
    w := D.Delivered(FIVE, one, 5, Yes(k, 2), Local5(k), Handle(FIVE, 5, n, Yes(k, 2), Local5(k)), SlowCommit(k));
    MergeIsLeast(k.t.attrs, k.c, k.t.attrs);
    if Cover(k.c, k.t.attrs) {
      D.MergeCovering(k.c, k.t.attrs);
    }
  }
}
