/** Runs in which two replicas commit different attributes for one instance. */
module Divergence {
  import opened Types
  import opened Ballots
  import opened Attributes
  import opened Protocol
  import opened Recovery
  import opened Handlers
  import opened Cluster
  import opened ClusterRuns
  import FP = FastPath
  import Q = Quorum
  import R = Reaching

  ghost predicate Reached(g: Group, w: World) {
    R.LeadsTo(g, Start(g), w)
  }

  /** The replica acts, queueing one record and one message; the record is persisted and the message sent. */
  lemma Acted(g: Group, w: World, s: Step, r: Node, m: Message) returns (v: World)
    requires g.Valid() && Reached(g, w) && Enabled(w, s) && !s.Persisting? && !s.Sending? && !s.Crashing?
    requires r == Acts(g, w.nodes[s.i], s) && |r.log| == r.durable + 1 && Outgoing(m, |r.log|) in r.outbox
    ensures v == World(w.nodes[s.i := r.(durable := |r.log|)], w.net + {m}) && Reached(g, v)
  {
    v := R.Acted(g, Start(g), w, s, r, Outgoing(m, |r.log|));
  }

  /** Delivery of a message that was sent by another replica. */
  lemma Delivered(g: Group, w: World, i: ReplicaID, m: Message, env: Local, r: Node, answer: Message) returns (v: World)
    requires g.Valid() && Reached(g, w) && i in w.nodes && m in w.net && m.from != i
    requires r == Handle(g, i, w.nodes[i], m, env) && |r.log| == r.durable + 1 && Outgoing(answer, |r.log|) in r.outbox
    ensures v == World(w.nodes[i := r.(durable := |r.log|)], w.net + {answer}) && Reached(g, v)
  {
    v := Acted(g, w, Delivering(i, m, env), r, answer);
  }

  /** Delivery of a message that only changes what the receiver has counted. */
  lemma Heard(g: Group, w: World, i: ReplicaID, m: Message, env: Local, r: Node) returns (v: World)
    requires g.Valid() && Reached(g, w) && i in w.nodes && m in w.net && m.from != i
    requires r == Handle(g, i, w.nodes[i], m, env)
    ensures v == World(w.nodes[i := r], w.net) && Reached(g, v)
  {
    v := R.Heard(g, Start(g), w, i, m, env, r);
  }

  lemma StartReached(g: Group)
    requires g.Valid()
    ensures Reached(g, Start(g))
  {
    R.LeadsNowhere(g, Start(g));
  }

  lemma MergeCovering(a: Attrs, b: Attrs)
    requires Cover(a, b) && b.seqNo >= 1
    ensures Merge(b, a) == b && Merge(a, b) == b
  {
    MergeDepsAt(a.deps, b.deps);
    MergeDepsAt(b.deps, a.deps);
    assert MergeDeps(a.deps, b.deps) == b.deps && MergeDeps(b.deps, a.deps) == b.deps;
  }

  // A covering reply, committed fast by the owner, is not found again.

  /**
   The owner proposes a, every other voter replies with a strictly covering b, and the first of the
   others, recovering, knows c.
   */
  datatype Case = Case(g: Group, others: seq<ReplicaID>, value: Value, a: Attrs, b: Attrs, c: Attrs) {
    ghost predicate Valid() {
      && g.Valid() && |g.voters| >= 3 && |others| == |g.voters| - 1
      && (forall x <- others :: x in g.voters && x != g.owner)
      && (forall i, j | 0 <= i < j < |others| :: others[i] != others[j])
      && a.seqNo >= 1 && |a.deps| == |b.deps| == |g.voters| && Cover(a, b) && a != b
    }

    function Held(): Rec {
      Rec(g.Initial(), g.Initial(), PreAccepted, Tuple(b, value), false)
    }

    function Later(): Ballot
      requires others != []
    {
      Ballot(0, 1, others[0])
    }

    function Shown(): Rec
      requires others != []
    {
      Held().(ballot := Later())
    }

    function Added(): Rec
      requires others != []
    {
      Rec(Later(), Later(), Accepted, Tuple(Merge(b, c), value), false)
    }

    function Ask(): Message {
      PreAccept(g.owner, g.Initial(), Tuple(a, value))
    }

    function Reply(x: ReplicaID): Message {
      PreAcceptResp(x, g.Initial(), b, true, FP.CommittedSlots(b, b.deps))
    }

    function FastCommit(): Message {
      Commit(g.owner, g.Initial(), g.Initial(), Tuple(b, value))
    }

    function SlowCommit(): Message
      requires others != []
    {
      Commit(others[0], Later(), Later(), Tuple(Merge(b, c), value))
    }
  }

  lemma Others(g: Group) returns (others: seq<ReplicaID>)
    requires g.Valid()
    ensures |others| == |g.voters| - 1 && (forall x <- others :: x in g.voters && x != g.owner)
    ensures forall i, j | 0 <= i < j < |others| :: others[i] != others[j]
  {
    var o :| 0 <= o < |g.voters| && g.voters[o] == g.owner;
    others := g.voters[..o] + g.voters[o + 1..];
  }

  /** The first i of the others, as a set. */
  ghost function Upto(k: Case, i: nat): set<ReplicaID>
    requires i <= |k.others|
  {
    if i == 0 then {} else Upto(k, i - 1) + {k.others[i - 1]}
  }

  lemma {:induction false} UptoBefore(k: Case, i: nat, j: nat)
    requires k.Valid() && i <= j <= |k.others|
    ensures j < |k.others| ==> k.others[j] !in Upto(k, i)
    ensures k.g.owner !in Upto(k, i) && (i > 0 ==> k.others[0] in Upto(k, i))
  {
    if i > 0 {
      UptoBefore(k, i - 1, j);
      assert k.others[i - 1] in k.others;
    }
  }

  lemma {:induction false} UptoSize(k: Case, i: nat)
    requires k.Valid() && i <= |k.others|
    ensures |Upto(k, i)| == i
  {
    if i > 0 {
      UptoSize(k, i - 1);
      UptoBefore(k, i - 1, i - 1);
    }
  }

  /** A replica sees committed all that it knows of. */
  function Knows(b: Attrs): Local {
    Local(b, b.deps, false, None)
  }

  /** Everything in a replica's log is persisted. */
  ghost predicate Logs(w: World, x: ReplicaID, log: seq<Rec>) {
    x in w.nodes && w.nodes[x].log == log && w.nodes[x].durable == |log|
  }

  // All others pre-accept.

  ghost function Votes(k: Case, i: nat): FP.Votes
    requires i <= |k.others|
  {
    map x | x in Upto(k, i) + {k.g.owner} ::
      if x == k.g.owner then FP.Vote(k.a, true, FP.CommittedSlots(k.a, k.a.deps))
      else FP.Vote(k.b, true, FP.CommittedSlots(k.b, k.b.deps))
  }

  /** The owner after its proposal, having counted i replies. */
  ghost function Owner(k: Case, i: nat): Node
    requires i <= |k.others|
  {
    Node([Rec(k.g.Initial(), k.g.Initial(), PreAccepted, Tuple(k.a, k.value), true)], 1,
         {Outgoing(k.Ask(), 1)}, PreAcceptPhase, Votes(k, i), {}, {}, map[])
  }

  ghost predicate RepliedAt(k: Case, w: World, i: nat, j: nat) {
    j < |k.others| ==>
      if j < i then Logs(w, k.others[j], [k.Held()]) && w.nodes[k.others[j]].phase.Idle?
          && k.Reply(k.others[j]) in w.net
      else k.others[j] in w.nodes && w.nodes[k.others[j]] == NEW_NODE
  }

  ghost predicate Replying(k: Case, w: World, heard: nat, i: nat)
    requires heard <= |k.others|
  {
    && Reached(k.g, w) && k.g.owner in w.nodes && w.nodes[k.g.owner] == Owner(k, heard) && k.Ask() in w.net
    && forall j :: RepliedAt(k, w, i, j)
  }

  lemma Proposes(k: Case) returns (w: World)
    requires k.Valid()
    ensures Replying(k, w, 0, 0)
  {
    var g, made := k.g, Propose(k.g, k.g.owner, NEW_NODE, Tuple(k.a, k.value), Knows(k.a));
    StartReached(g);
    assert Votes(k, 0) == map[g.owner := FP.Vote(k.a, true, FP.CommittedSlots(k.a, k.a.deps))];
    w := Acted(g, Start(g), Proposing(g.owner, Tuple(k.a, k.value), Knows(k.a)), made, k.Ask());
    assert w.nodes[g.owner] == Owner(k, 0);
  }

  lemma ReplyCovers(k: Case, x: ReplicaID)
    requires k.Valid()
    ensures var r := Handle(k.g, x, NEW_NODE, k.Ask(), Knows(k.b));
            r.log == [k.Held()] && r.durable == 0 && r.phase.Idle? && Outgoing(k.Reply(x), 1) in r.outbox
  {
    MergeCovering(k.a, k.b);
  }

  lemma {:induction false} AllReply(k: Case, i: nat) returns (w: World)
    requires k.Valid() && i <= |k.others|
    ensures Replying(k, w, 0, i)
  {
    if i == 0 {
      w := Proposes(k);
    } else {
      var v := AllReply(k, i - 1);
      var x := k.others[i - 1];
      assert RepliedAt(k, v, i - 1, i - 1);
      ReplyCovers(k, x);
      w := Delivered(k.g, v, x, k.Ask(), Knows(k.b), Handle(k.g, x, NEW_NODE, k.Ask(), Knows(k.b)), k.Reply(x));
      forall j: nat
        ensures RepliedAt(k, w, i, j)
      {
        assert RepliedAt(k, v, i - 1, j);
      }
    }
  }

  // The owner hears the replies until it commits fast.

  /** The replies match each other and not the owner. */
  lemma MatchingReplies(k: Case, p: FP.Proposal, i: nat)
    requires k.Valid() && i <= |k.others| && p.self == k.g.owner
    ensures FP.Matching(p, Votes(k, i), k.a) == {} && FP.Matching(p, Votes(k, i), k.b) == Upto(k, i)
            && |Upto(k, i)| == i
    ensures |Votes(k, i)| == i + 1
  {
    UptoSize(k, i);
    UptoBefore(k, i, i);
    assert Votes(k, i).Keys == Upto(k, i) + {k.g.owner};
  }

  /** Short of a fast quorum nothing can be committed yet, and the missing replies could still match. */
  lemma Undecided(k: Case, i: nat)
    requires k.Valid() && 1 <= i && i + 1 < Q.Fast(|k.g.voters|)
    ensures var p := FP.Proposal(k.g.owner, k.a, true, true);
            && FP.FastCommitAttrs(p, k.g.voters, Votes(k, i), k.a.deps).None?
            && FP.CanStill(p, |k.g.voters|, Votes(k, i)) && |Votes(k, i)| < Q.Fast(|k.g.voters|)
  {
    var p := FP.Proposal(k.g.owner, k.a, true, true);
    MatchingReplies(k, p, i);
    var votes := Votes(k, i);
    assert forall id <- votes :: votes[id].attrs == k.a || votes[id].attrs == k.b;
    assert FP.FastCommitAttrs(p, k.g.voters, votes, k.a.deps).None?;
    UptoBefore(k, i, i);
    assert k.others[0] in votes && FP.CanReach(p, |k.g.voters|, votes, votes[k.others[0]].attrs);
  }

  /** A reply that settles nothing is only counted. */
  lemma WaitsOn(g: Group, n: Node, from: ReplicaID, vote: FP.Vote, env: Local, votes: FP.Votes)
    requires |g.voters| >= 1 && n.phase.PreAcceptPhase? && Mem(n).ballot.replica == g.owner
    requires from !in n.preOK && from in g.voters && |vote.attrs.deps| == |g.voters| && votes == n.preOK[from := vote]
    requires var p := FP.Proposal(g.owner, Mem(n).tuple.attrs, Mem(n).eligible, Mem(n).ballot.IsInitialFor(g.owner));
             && FP.FastCommitAttrs(p, g.voters, votes, env.through).None?
             && |votes| < Q.Fast(|g.voters|) && FP.CanStill(p, |g.voters|, votes)
    ensures HandlePreAcceptResp(g, g.owner, n, from, Mem(n).ballot, vote, env) == n.(preOK := votes)
  {
  }

  lemma OwnerDecides(k: Case, i: nat)
    requires k.Valid() && i + 1 == Q.Fast(|k.g.voters|)
    ensures FP.FastCommitAttrs(FP.Proposal(k.g.owner, k.a, true, true), k.g.voters, Votes(k, i), k.a.deps) == Some(k.b)
  {
    var p, votes := FP.Proposal(k.g.owner, k.a, true, true), Votes(k, i);
    MatchingReplies(k, p, i);
    var x := k.others[0];
    UptoBefore(k, i, i);
    assert FP.CanFastCommit(p, |k.g.voters|, votes, k.b, k.a.deps) by {
      assert x in FP.Matching(p, votes, k.b);
    }
    assert x in k.g.voters && votes[x].attrs == k.b;
  }

  lemma VotesGrow(k: Case, i: nat)
    requires k.Valid() && i < |k.others|
    ensures k.others[i] !in Votes(k, i) && k.others[i] in k.g.voters && k.others[i] != k.g.owner
    ensures Votes(k, i)[k.others[i] := FP.Vote(k.b, true, FP.CommittedSlots(k.b, k.b.deps))] == Votes(k, i + 1)
  {
    UptoBefore(k, i, i);
    var x := k.others[i];
    assert x in k.others;
    var more := Votes(k, i)[x := FP.Vote(k.b, true, FP.CommittedSlots(k.b, k.b.deps))];
    assert Upto(k, i + 1) == Upto(k, i) + {x};
    assert more.Keys == Votes(k, i + 1).Keys;
  }

  lemma Counts(k: Case, i: nat)
    requires k.Valid() && i < |k.others|
    ensures Handle(k.g, k.g.owner, Owner(k, i), k.Reply(k.others[i]), Knows(k.a))
            == FinalizePreAccept(k.g, k.g.owner, Owner(k, i + 1), Knows(k.a))
  {
    VotesGrow(k, i);
  }

  lemma OwnerProposes(k: Case, i: nat)
    requires k.Valid() && i <= |k.others|
    ensures var mem := Mem(Owner(k, i));
            && mem.ballot == k.g.Initial() && mem.ballot.replica == k.g.owner
            && FP.Proposal(k.g.owner, mem.tuple.attrs, mem.eligible, mem.ballot.IsInitialFor(k.g.owner))
               == FP.Proposal(k.g.owner, k.a, true, true)
  {
  }

  lemma KeepsWaiting(k: Case, i: nat)
    requires k.Valid() && i + 2 < Q.Fast(|k.g.voters|) && i < |k.others|
    ensures Handle(k.g, k.g.owner, Owner(k, i), k.Reply(k.others[i]), Knows(k.a)) == Owner(k, i + 1)
  {
    var n, votes := Owner(k, i), Votes(k, i + 1);
    var vote := FP.Vote(k.b, true, FP.CommittedSlots(k.b, k.b.deps));
    assert HandlePreAcceptResp(k.g, k.g.owner, n, k.others[i], Mem(n).ballot, vote, Knows(k.a))
           == n.(preOK := votes) by {
      VotesGrow(k, i);
      Undecided(k, i + 1);
      OwnerProposes(k, i);
      WaitsOn(k.g, n, k.others[i], vote, Knows(k.a), votes);
    }
    OwnerProposes(k, i);
  }

  lemma CommitsReply(k: Case, i: nat)
    requires k.Valid() && i + 2 == Q.Fast(|k.g.voters|)
    ensures var r := Handle(k.g, k.g.owner, Owner(k, i), k.Reply(k.others[i]), Knows(k.a));
            |r.log| == 2 && r.durable == 1 && Outgoing(k.FastCommit(), 2) in r.outbox
  {
    Counts(k, i);
    OwnerDecides(k, i + 1);
  }

  lemma {:induction false} OwnerHears(k: Case, i: nat) returns (w: World)
    requires k.Valid() && i + 1 < Q.Fast(|k.g.voters|)
    ensures Replying(k, w, i, |k.others|)
  {
    if i == 0 {
      w := AllReply(k, |k.others|);
    } else {
      var v := OwnerHears(k, i - 1);
      var x := k.others[i - 1];
      assert RepliedAt(k, v, |k.others|, i - 1);
      assert x in k.others;
      assert Q.Fast(|k.g.voters|) <= |k.g.voters|;
      KeepsWaiting(k, i - 1);
      w := Heard(k.g, v, k.g.owner, k.Reply(x), Knows(k.a), Owner(k, i));
      RepliesStay(k, v, w);
    }
  }

  lemma RepliesStay(k: Case, v: World, w: World)
    requires k.Valid() && (forall j :: RepliedAt(k, v, |k.others|, j)) && v.net <= w.net
    requires k.g.owner in w.nodes && w.nodes == v.nodes[k.g.owner := w.nodes[k.g.owner]]
    ensures forall j :: RepliedAt(k, w, |k.others|, j)
  {
    forall j: nat
      ensures RepliedAt(k, w, |k.others|, j)
    {
      assert RepliedAt(k, v, |k.others|, j);
      assert j < |k.others| ==> k.others[j] in k.others;
    }
  }

  lemma OwnerCommits(k: Case) returns (w: World)
    requires k.Valid()
    ensures Reached(k.g, w) && k.FastCommit() in w.net && forall j :: RepliedAt(k, w, |k.others|, j)
  {
    var i := Q.Fast(|k.g.voters|) - 2;
    var v := OwnerHears(k, i);
    assert RepliedAt(k, v, |k.others|, i);
    assert k.others[i] in k.others;
    CommitsReply(k, i);
    var made := Handle(k.g, k.g.owner, Owner(k, i), k.Reply(k.others[i]), Knows(k.a));
    w := Delivered(k.g, v, k.g.owner, k.Reply(k.others[i]), Knows(k.a), made, k.FastCommit());
    RepliesStay(k, v, w);
  }

  // The first of the others surveys a slow quorum without the owner.

  ghost predicate LogsAt(k: Case, w: World, i: nat, done: seq<Rec>, todo: seq<Rec>, j: nat) {
    1 <= j < Q.Slow(|k.g.voters|) && j < |k.others| ==> Logs(w, k.others[j], if j <= i then done else todo)
  }

  /** The first of the others has gathered what it needs from others 1 to i, the next have not been asked. */
  ghost predicate Round(k: Case, w: World, i: nat, done: seq<Rec>, todo: seq<Rec>)
    requires i < |k.others|
  {
    && Reached(k.g, w) && k.FastCommit() in w.net && k.others[0] in w.nodes
    && forall j :: LogsAt(k, w, i, done, todo, j)
  }

  /** One more voter answers the round's request. */
  lemma Answers(k: Case, w: World, i: nat, done: seq<Rec>, todo: seq<Rec>, m: Message, r: Node,
                answer: Message) returns (v: World)
    requires k.Valid() && 1 <= i < Q.Slow(|k.g.voters|) && Round(k, w, i - 1, done, todo)
    requires m in w.net && m.from == k.others[0] && Logs(w, k.others[i], todo)
    requires r == Handle(k.g, k.others[i], w.nodes[k.others[i]], m, Knows(k.c)) && r.log == done
             && |done| == r.durable + 1
    requires Outgoing(answer, |done|) in r.outbox
    ensures Round(k, v, i, done, todo) && v.net == w.net + {answer} && v.nodes[k.others[0]] == w.nodes[k.others[0]]
  {
    v := Delivered(k.g, w, k.others[i], m, Knows(k.c), r, answer);
    forall j: nat
      ensures LogsAt(k, v, i, done, todo, j)
    {
      assert LogsAt(k, w, i - 1, done, todo, j);
    }
  }

  /** The first of the others acts; the rest keep their logs. */
  lemma RoundStays(k: Case, w: World, v: World, i: nat, done: seq<Rec>, todo: seq<Rec>)
    requires k.Valid() && i < |k.others| && Round(k, w, i, done, todo) && Reached(k.g, v) && w.net <= v.net
    requires k.others[0] in v.nodes && v.nodes == w.nodes[k.others[0] := v.nodes[k.others[0]]]
    ensures Round(k, v, i, done, todo)
  {
    forall j: nat
      ensures LogsAt(k, v, i, done, todo, j)
    {
      assert LogsAt(k, w, i, done, todo, j);
    }
  }

  ghost function Survey(k: Case, i: nat): Answers
    requires i <= |k.others| && k.others != []
  {
    map x | x in Upto(k, i) :: k.Shown()
  }

  ghost predicate Surveys(k: Case, n: Node, i: nat)
    requires k.Valid() && i < |k.others|
  {
    n.log == [k.Held(), k.Shown()] && n.durable == 2 && n.phase == PreparePhase && n.prepareOK == Survey(k, i + 1)
  }

  ghost predicate Surveying(k: Case, w: World, i: nat)
    requires k.Valid() && i < |k.others|
  {
    && Round(k, w, i, [k.Held(), k.Shown()], [k.Held()]) && Surveys(k, w.nodes[k.others[0]], i)
    && Prepare(k.others[0], k.Later()) in w.net
  }

  lemma Recovers(k: Case, n: Node)
    requires k.Valid() && n.log == [k.Held()] && n.durable == 1 && !n.phase.PreparePhase?
    ensures var r := Recover(k.others[0], n);
            && r.log == [k.Held(), k.Shown()] && r.durable == 1 && r.phase == PreparePhase
            && r.prepareOK == map[k.others[0] := k.Shown()]
            && Outgoing(Prepare(k.others[0], k.Later()), 2) in r.outbox
  {
  }

  lemma SurveyStarts(k: Case) returns (w: World)
    requires k.Valid()
    ensures Surveying(k, w, 0)
  {
    var p := k.others[0];
    var v := OwnerCommits(k);
    assert RepliedAt(k, v, |k.others|, 0);
    var made := Recover(p, v.nodes[p]);
    assert Upto(k, 1) == {p};
    assert Survey(k, 1) == map[p := k.Shown()];
    Recovers(k, v.nodes[p]);
    w := Acted(k.g, v, Recovering(p), made, Prepare(p, k.Later()));
    forall j: nat
      ensures LogsAt(k, w, 0, [k.Held(), k.Shown()], [k.Held()], j)
    {
      assert RepliedAt(k, v, |k.others|, j);
    }
  }

  lemma Promises(k: Case, n: Node, x: ReplicaID)
    requires k.Valid() && n.log == [k.Held()] && n.durable == 1
    ensures var r := HandlePrepare(x, n, k.Later());
            && r.log == [k.Held(), k.Shown()] && r.durable == 1
            && Outgoing(PrepareResp(x, k.Later(), k.Shown()), 2) in r.outbox
  {
  }

  /** One more voter promises and shows its record. */
  lemma Shows(k: Case, w: World, i: nat) returns (v: World)
    requires k.Valid() && 1 <= i < Q.Slow(|k.g.voters|) && Surveying(k, w, i - 1)
    ensures Round(k, v, i, [k.Held(), k.Shown()], [k.Held()]) && v.nodes[k.others[0]] == w.nodes[k.others[0]]
    ensures v.net == w.net + {PrepareResp(k.others[i], k.Later(), k.Shown())}
  {
    var x := k.others[i];
    assert LogsAt(k, w, i - 1, [k.Held(), k.Shown()], [k.Held()], i);
    Promises(k, w.nodes[x], x);
    var m, r := Prepare(k.others[0], k.Later()), HandlePrepare(x, w.nodes[x], k.Later());
    v := Answers(k, w, i, [k.Held(), k.Shown()], [k.Held()], m, r, PrepareResp(x, k.Later(), k.Shown()));
  }

  lemma SurveyGrows(k: Case, i: nat)
    requires k.Valid() && i < |k.others|
    ensures Survey(k, i)[k.others[i] := k.Shown()] == Survey(k, i + 1) && k.others[i] !in Survey(k, i)
    ensures |Survey(k, i)| == i && |Survey(k, i + 1)| == i + 1
  {
    UptoSize(k, i);
    UptoBefore(k, i, i);
    UptoSize(k, i + 1);
    assert Upto(k, i + 1) == Upto(k, i) + {k.others[i]};
    assert Survey(k, i).Keys == Upto(k, i) && Survey(k, i + 1).Keys == Upto(k, i + 1);
  }

  lemma AnswerCounts(k: Case, n: Node, i: nat)
    requires k.Valid() && 1 <= i < |k.others| && Surveys(k, n, i - 1)
    ensures var made := n.(prepareOK := Survey(k, i + 1));
            HandlePrepareResp(k.g, k.others[0], n, k.others[i], k.Later(), k.Shown(), Knows(k.c))
            == if i + 1 < Q.Slow(|k.g.voters|) then made
               else Carry(k.g, k.others[0], made, Decide(k.g, Survey(k, i + 1), k.c, FallbackValue(k.g, Knows(k.c))))
  {
    SurveyGrows(k, i);
    assert k.others[i] in k.others;
  }

  lemma {:induction false} SurveyGoesOn(k: Case, i: nat) returns (w: World)
    requires k.Valid() && i + 1 < Q.Slow(|k.g.voters|)
    ensures Surveying(k, w, i)
  {
    if i == 0 {
      w := SurveyStarts(k);
    } else {
      var v := SurveyGoesOn(k, i - 1);
      var u := Shows(k, v, i);
      var p, n := k.others[0], u.nodes[k.others[0]];
      AnswerCounts(k, n, i);
      var made := n.(prepareOK := Survey(k, i + 1));
      w := Heard(k.g, u, p, PrepareResp(k.others[i], k.Later(), k.Shown()), Knows(k.c), made);
      RoundStays(k, u, w, i, [k.Held(), k.Shown()], [k.Held()]);
    }
  }

  // What a survey of equal ineligible records decides.

  ghost predicate AllShow(answers: Answers, r: Rec) {
    && (forall j <- answers :: answers[j] == r)
    && r.status.PreAccepted? && !r.eligible && r.tuple.attrs.seqNo >= 1 && ZERO.Less(r.recordBallot)
  }

  lemma {:induction false} NoneAccepted(voters: seq<ReplicaID>, answers: Answers, r: Rec)
    requires AllShow(answers, r)
    ensures BestAccepted(voters, answers).None?
  {
    if voters != [] {
      NoneAccepted(voters[..|voters| - 1], answers, r);
    }
  }

  lemma {:induction false} MergedSame(voters: seq<ReplicaID>, answers: Answers, r: Rec)
    requires AllShow(answers, r)
    ensures MergedAt(voters, answers, r.recordBallot)
            == if exists v <- voters :: v in answers then r.tuple.attrs else NO_ATTRS
  {
    if voters != [] {
      var init, id := voters[..|voters| - 1], voters[|voters| - 1];
      MergedSame(init, answers, r);
      assert forall v <- voters :: v in init || v == id;
      assert id in voters && forall v <- init :: v in voters;
      MergeIdempotent(r.tuple.attrs);
    }
  }

  lemma SurveyDecides(g: Group, answers: Answers, r: Rec, x: ReplicaID, c: Attrs, fallback: Option<Value>)
    requires |g.voters| >= 1 && AllShow(answers, r) && x in g.voters && x in answers
    ensures Decide(g, answers, c, fallback) == Plan.Accepting(Tuple(Merge(r.tuple.attrs, c), r.tuple.value))
  {
    NoneAccepted(g.voters, answers, r);
    TopIsHighest(g.voters, answers);
    var top := TopPreAccepted(g.voters, answers);
    assert top == r.recordBallot;
    MergedSame(g.voters, answers, r);
    assert x in PreAcceptedAt(answers, top);
    assert TryPool(|g.voters|, answers, top) == {};
  }

  // The merged tuple is accepted and committed.

  lemma CoordinatorAccepts(k: Case, n: Node, i: nat)
    requires k.Valid() && i + 1 == Q.Slow(|k.g.voters|) && Surveys(k, n, i - 1)
    ensures var r := Handle(k.g, k.others[0], n, PrepareResp(k.others[i], k.Later(), k.Shown()), Knows(k.c));
            && r.log == [k.Held(), k.Shown(), k.Added()] && r.durable == 2 && r.phase == AcceptPhase
            && r.accOK == {k.others[0]}
            && Outgoing(Accept(k.others[0], k.Later(), k.Added().tuple), 3) in r.outbox
  {
    AnswerCounts(k, n, i);
    var p, answers := k.others[0], Survey(k, i + 1);
    UptoBefore(k, i + 1, i + 1);
    assert p in k.others;
    SurveyDecides(k.g, answers, k.Shown(), p, k.c, FallbackValue(k.g, Knows(k.c)));
  }

  ghost predicate Accepts(k: Case, n: Node, i: nat)
    requires k.Valid() && i < |k.others|
  {
    n.log == [k.Held(), k.Shown(), k.Added()] && n.durable == 3 && n.phase == AcceptPhase && n.accOK == Upto(k, i + 1)
  }

  ghost predicate Accepting(k: Case, w: World, i: nat)
    requires k.Valid() && i < |k.others|
  {
    && Round(k, w, i, [k.Held(), k.Shown(), k.Added()], [k.Held(), k.Shown()]) && Accepts(k, w.nodes[k.others[0]], i)
    && Accept(k.others[0], k.Later(), k.Added().tuple) in w.net
  }

  lemma AcceptStarts(k: Case) returns (w: World)
    requires k.Valid()
    ensures Accepting(k, w, 0)
  {
    var i, p := Q.Slow(|k.g.voters|) - 1, k.others[0];
    var v := SurveyGoesOn(k, i - 1);
    var u := Shows(k, v, i);
    CoordinatorAccepts(k, u.nodes[p], i);
    var m := PrepareResp(k.others[i], k.Later(), k.Shown());
    var made := Handle(k.g, p, u.nodes[p], m, Knows(k.c));
    w := Delivered(k.g, u, p, m, Knows(k.c), made, Accept(p, k.Later(), k.Added().tuple));
    assert Upto(k, 1) == {p};
    forall j: nat
      ensures LogsAt(k, w, 0, [k.Held(), k.Shown(), k.Added()], [k.Held(), k.Shown()], j)
    {
      assert LogsAt(k, u, i, [k.Held(), k.Shown()], [k.Held()], j);
    }
  }

  lemma Joins(k: Case, n: Node, x: ReplicaID)
    requires k.Valid() && n.log == [k.Held(), k.Shown()] && n.durable == 2
    ensures var r := HandleAccept(x, n, k.Later(), k.Added().tuple);
            && r.log == [k.Held(), k.Shown(), k.Added()] && r.durable == 2
            && Outgoing(AcceptResp(x, k.Later(), k.Later(), k.Added().tuple.attrs), 3) in r.outbox
  {
  }

  /** One more voter accepts. */
  lemma Agrees(k: Case, w: World, i: nat) returns (v: World)
    requires k.Valid() && 1 <= i < Q.Slow(|k.g.voters|) && Accepting(k, w, i - 1)
    ensures Round(k, v, i, [k.Held(), k.Shown(), k.Added()], [k.Held(), k.Shown()])
    ensures v.nodes[k.others[0]] == w.nodes[k.others[0]]
    ensures v.net == w.net + {AcceptResp(k.others[i], k.Later(), k.Later(), k.Added().tuple.attrs)}
  {
    var x := k.others[i];
    assert LogsAt(k, w, i - 1, [k.Held(), k.Shown(), k.Added()], [k.Held(), k.Shown()], i);
    Joins(k, w.nodes[x], x);
    var m, r := Accept(k.others[0], k.Later(), k.Added().tuple),
        HandleAccept(x, w.nodes[x], k.Later(), k.Added().tuple);
    v := Answers(k, w, i, [k.Held(), k.Shown(), k.Added()], [k.Held(), k.Shown()], m, r,
                 AcceptResp(x, k.Later(), k.Later(), k.Added().tuple.attrs));
  }

  lemma {:induction false} AcceptGoesOn(k: Case, i: nat) returns (w: World)
    requires k.Valid() && i + 1 < Q.Slow(|k.g.voters|)
    ensures Accepting(k, w, i)
  {
    if i == 0 {
      w := AcceptStarts(k);
    } else {
      var v := AcceptGoesOn(k, i - 1);
      var u := Agrees(k, v, i);
      var p, n := k.others[0], u.nodes[k.others[0]];
      AckCounts(k, n, i);
      var made := n.(accOK := Upto(k, i + 1));
      w := Heard(k.g, u, p, AcceptResp(k.others[i], k.Later(), k.Later(), k.Added().tuple.attrs), Knows(k.c), made);
      RoundStays(k, u, w, i, [k.Held(), k.Shown(), k.Added()], [k.Held(), k.Shown()]);
    }
  }

  lemma AckCounts(k: Case, n: Node, i: nat)
    requires k.Valid() && 1 <= i < |k.others| && Accepts(k, n, i - 1)
    ensures var made := n.(accOK := Upto(k, i + 1));
            HandleAcceptResp(k.g, k.others[0], n, k.others[i], k.Later(), k.Later(), k.Added().tuple.attrs)
            == if i + 1 < Q.Slow(|k.g.voters|) then made else DoCommit(k.others[0], made, k.Added())
  {
    UptoBefore(k, i, i);
    UptoSize(k, i + 1);
    assert k.others[i] in k.others;
    assert Upto(k, i + 1) == Upto(k, i) + {k.others[i]};
  }

  lemma CoordinatorCommits(k: Case, n: Node, i: nat)
    requires k.Valid() && i + 1 == Q.Slow(|k.g.voters|) && Accepts(k, n, i - 1)
    ensures var r := Handle(k.g, k.others[0], n, AcceptResp(k.others[i], k.Later(), k.Later(), k.Added().tuple.attrs),
                            Knows(k.c));
            |r.log| == 4 && r.durable == 3 && Outgoing(k.SlowCommit(), 4) in r.outbox
  {
    AckCounts(k, n, i);
  }

  /**
   Agreement of commits fails once a reply that strictly covers the proposal is committed fast: for
   three or more voters, every such reply, and every local knowledge c of a recovering voter, a run
   reaches two commits, of the reply and of the reply merged with c; they agree if and only if the
   reply covers c.
   */
  lemma CoveringCommitLost(k: Case) returns (w: World)
    requires k.Valid()
    ensures Reached(k.g, w) && k.FastCommit() in w.net && k.SlowCommit() in w.net
    ensures k.FastCommit().tuple == k.SlowCommit().tuple <==> Cover(k.c, k.b)
  {
    var i, p := Q.Slow(|k.g.voters|) - 1, k.others[0];
    var v := AcceptGoesOn(k, i - 1);
    var u := Agrees(k, v, i);
    CoordinatorCommits(k, u.nodes[p], i);
    var m := AcceptResp(k.others[i], k.Later(), k.Later(), k.Added().tuple.attrs);
    w := Delivered(k.g, u, p, m, Knows(k.c), Handle(k.g, p, u.nodes[p], m, Knows(k.c)), k.SlowCommit());
    MergeIsLeast(k.b, k.c, k.b);
    if Cover(k.c, k.b) {
      MergeCovering(k.c, k.b);
    }
  }

  ghost predicate OneOutcome(w: World) {
    forall m, o | m in w.net && o in w.net && m.Commit? && o.Commit? :: m.tuple == o.tuple
  }

  /** Every run of a group sends commits of one tuple only, exactly when the group has two voters. */
  lemma AgreementExact(g: Group)
    requires g.Valid()
    ensures (forall w | Reached(g, w) :: OneOutcome(w)) <==> |g.voters| == 2
  {
    if |g.voters| == 2 {
      forall w | Reached(g, w)
        ensures OneOutcome(w)
      {
        var trace :| R.PathTo(g, trace, Start(g), w);
        assert Run(g, trace);
        PairCommitsAgree(g, trace, |trace| - 1);
      }
    } else {
      var none := seq(|g.voters|, _ => 0);
      var others := Others(g);
      var k := Case(g, others, NoOp, Attrs(1, none), Attrs(2, none), Attrs(3, none));
      var w := CoveringCommitLost(k);
      assert !OneOutcome(w);
    }
  }
}
