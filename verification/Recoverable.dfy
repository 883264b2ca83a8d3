/**
 No run gets stuck: from every reachable state that has not spent its ballots, some continuation
 decides the instance. One voter takes a ballot above every promise, surveys a slow quorum, and
 carries its decision through an Accept round.
 */
module Recoverable {
  import opened Types
  import opened Ballots
  import opened Attributes
  import opened Protocol
  import opened Recovery
  import opened Handlers
  import opened Cluster
  import opened ClusterRuns
  import opened Effects
  import opened Reaching
  import Dn = Decisions
  import Q = Quorum

  // Everything is persisted and nothing is decided.

  ghost predicate QuietAt(w: World, x: ReplicaID) {
    x in w.nodes ==> w.nodes[x].durable == |w.nodes[x].log| && !Mem(w.nodes[x]).status.Final()
  }

  ghost predicate Quiet(g: Group, w: World) {
    w.nodes.Keys == g.Set() && forall x :: QuietAt(w, x)
  }

  ghost predicate StoredAt(w: World, v: World, voters: seq<ReplicaID>, x: ReplicaID) {
    x in w.nodes ==> x in v.nodes && v.nodes[x] == if x in voters then Stored(w.nodes[x]) else w.nodes[x]
  }

  lemma {:induction false} AllPersist(g: Group, o: World, w: World, voters: seq<ReplicaID>) returns (v: World)
    requires g.Valid() && LeadsTo(g, o, w) && forall x <- w.nodes :: w.nodes[x].durable <= |w.nodes[x].log|
    ensures LeadsTo(g, o, v) && v.net == w.net && v.nodes.Keys == w.nodes.Keys
    ensures forall x :: StoredAt(w, v, voters, x)
  {
    if voters == [] {
      v := w;
    } else {
      var init, last := voters[..|voters| - 1], voters[|voters| - 1];
      var u := AllPersist(g, o, w, init);
      if last in w.nodes {
        assert StoredAt(w, u, init, last);
        v := Persists(g, o, u, last);
      } else {
        v := u;
      }
      forall x
        ensures StoredAt(w, v, voters, x)
      {
        assert StoredAt(w, u, init, x);
        assert x in voters <==> x in init || x == last;
      }
    }
  }

  // The highest promise.

  ghost predicate PromiseAtMost(w: World, b: Ballot, x: ReplicaID) {
    x in w.nodes ==> Mem(w.nodes[x]).ballot.AtMost(b)
  }

  lemma {:induction false} HighestPromise(w: World, voters: seq<ReplicaID>) returns (top: ReplicaID)
    requires voters != [] && forall x <- voters :: x in w.nodes
    ensures top in voters && forall x <- voters :: PromiseAtMost(w, Mem(w.nodes[top]).ballot, x)
  {
    var last := voters[|voters| - 1];
    if |voters| == 1 {
      top := last;
    } else {
      var init := voters[..|voters| - 1];
      var best := HighestPromise(w, init);
      assert forall x <- voters :: x in init || x == last;
      top := if Mem(w.nodes[best]).ballot.Less(Mem(w.nodes[last]).ballot) then last else best;
      forall x <- voters
        ensures PromiseAtMost(w, Mem(w.nodes[top]).ballot, x)
      {
        assert x in init ==> PromiseAtMost(w, Mem(w.nodes[best]).ballot, x);
      }
    }
  }

  lemma AnotherVoter(g: Group, id: ReplicaID) returns (p: ReplicaID)
    requires g.Valid()
    ensures p in g.voters && p != id
  {
    p := if g.voters[0] == id then g.voters[1] else g.voters[0];
  }

  // A ballot above every promise.

  /** Replica p prepares at ballot b, with its own answer only. */
  ghost predicate PreparesWith(w: World, p: ReplicaID, b: Ballot) {
    && p in w.nodes && w.nodes[p].phase.PreparePhase? && Mem(w.nodes[p]).ballot == b && w.nodes[p].log != []
    && b.replica == p && b.IsRecovery() && Prepare(p, b) in w.net
  }

  /** And it is fresh: above every other promise. */
  ghost predicate Above(w: World, p: ReplicaID, b: Ballot, x: ReplicaID) {
    x in w.nodes && x != p ==> Mem(w.nodes[x]).ballot.Less(b)
  }

  ghost predicate FreshBallot(w: World, p: ReplicaID, b: Ballot) {
    PreparesWith(w, p, b) && w.nodes[p].prepareOK == map[p := Mem(w.nodes[p])] && forall x :: Above(w, p, b, x)
  }

  ghost predicate RoomAt(w: World, x: ReplicaID, k: nat) {
    x in w.nodes ==> Mem(w.nodes[x]).ballot.epoch + k <= MAX_U64
  }

  /** No promise is within k epochs of the last. */
  ghost predicate Room(w: World, k: nat) {
    forall x :: RoomAt(w, x, k)
  }

  /** Only replica p changed, and not its decision. */
  ghost predicate Beside(w: World, v: World, p: ReplicaID) {
    && p in w.nodes && p in v.nodes && v.nodes == w.nodes[p := v.nodes[p]] && w.net <= v.net
    && Mem(v.nodes[p]).status == Mem(w.nodes[p]).status && Mem(v.nodes[p]).recordBallot == Mem(w.nodes[p]).recordBallot
    && v.nodes[p].durable == |v.nodes[p].log|
  }

  lemma BesideQuiet(g: Group, w: World, v: World, p: ReplicaID)
    requires Quiet(g, w) && Beside(w, v, p)
    ensures Quiet(g, v)
  {
    forall x
      ensures QuietAt(v, x)
    {
      assert QuietAt(w, x) && QuietAt(w, p);
    }
  }

  /** A ballot taken above base, with its Prepare sent. */
  lemma Takes1(g: Group, o: World, w: World, p: ReplicaID, s: Step, base: Ballot) returns (v: World, b: Ballot)
    requires g.Valid() && LeadsTo(g, o, w) && Enabled(w, s) && !s.Persisting? && !s.Sending? && !s.Crashing? && s.i == p
    requires w.nodes[p].durable == |w.nodes[p].log| && Prepares(p, w.nodes[p], Acts(g, w.nodes[p], s), base)
    requires !Spent(base) && !Spent(Mem(w.nodes[p]).ballot)
    ensures LeadsTo(g, o, v) && Beside(w, v, p) && PreparesWith(v, p, b)
    ensures v.nodes[p].prepareOK == map[p := Mem(v.nodes[p])] && base.Less(b) && Mem(w.nodes[p]).ballot.Less(b)
    ensures b.epoch <= base.epoch + 1 || b.epoch <= Mem(w.nodes[p]).ballot.epoch + 1
  {
    var n, r := w.nodes[p], Acts(g, w.nodes[p], s);
    b :| PreparesAt(p, n, r, base, b);
    assert |r.log| == |n.log| + 1 && Mem(r) == Mem(n).(ballot := b);
    v := Acted(g, o, w, s, r, Outgoing(Prepare(p, b), |n.log| + 1));
    assert Mem(v.nodes[p]) == Mem(r);
  }

  /** Replica p is preparing: it takes a ballot, or repeats its request. */
  lemma Asks(g: Group, o: World, w: World, p: ReplicaID) returns (v: World, b: Ballot)
    requires g.Valid() && Inv(g, o) && LeadsTo(g, o, w) && Quiet(g, w) && p in w.nodes && Room(w, 1)
    ensures LeadsTo(g, o, v) && Beside(w, v, p) && PreparesWith(v, p, b)
    ensures Mem(w.nodes[p]).ballot.AtMost(b) && b.epoch <= Mem(w.nodes[p]).ballot.epoch + 1
    ensures !w.nodes[p].phase.PreparePhase? ==>
              v.nodes[p].prepareOK == map[p := Mem(v.nodes[p])] && Mem(w.nodes[p]).ballot.Less(b)
    ensures w.nodes[p].phase.PreparePhase? ==> Mem(w.nodes[p]).ballot == b
  {
    var n := w.nodes[p];
    assert QuietAt(w, p) && RoomAt(w, p, 1);
    if n.phase.PreparePhase? {
      LeadsInv(g, o, w);
      assert NodeOK(g, w, p);
      b := Mem(n).ballot;
      RequestRepeated(g, p, n);
      v := Acted(g, o, w, Retransmitting(p), Retransmit(g, p, n), Outgoing(Prepare(p, b), |n.log|));
    } else {
      RecoveryStarted(p, n);
      v, b := Takes1(g, o, w, p, Recovering(p), Mem(n).ballot);
    }
  }

  /** A rejected Prepare is answered with the higher promise, and a ballot above that is taken. */
  lemma AsksAgain(g: Group, o: World, w: World, p: ReplicaID, b: Ballot, x: ReplicaID) returns (v: World, c: Ballot)
    requires g.Valid() && LeadsTo(g, o, w) && Quiet(g, w) && PreparesWith(w, p, b) && x in w.nodes && x != p
    requires b.Less(Mem(w.nodes[x]).ballot) && !Spent(b) && !Spent(Mem(w.nodes[x]).ballot)
    ensures LeadsTo(g, o, v) && Quiet(g, v) && PreparesWith(v, p, c)
            && v.nodes[p].prepareOK == map[p := Mem(v.nodes[p])]
    ensures Mem(w.nodes[x]).ballot.Less(c) && p in v.nodes && SameMems(w, v, p)
  {
    var n, hint := w.nodes[x], Mem(w.nodes[x]).ballot;
    assert QuietAt(w, x) && QuietAt(w, p);
    PrepareAnswered(g, x, n, Prepare(p, b), CALM);
    var no := Reject(x, hint, PrepareRound);
    var told := Delivered(g, o, w, x, Prepare(p, b), CALM, Handle(g, x, n, Prepare(p, b), CALM), Outgoing(no, |n.log|));
    assert Mem(told.nodes[x]) == Mem(n);
    assert Quiet(g, told) by {
      forall y
        ensures QuietAt(told, y)
      {
        assert QuietAt(w, y);
      }
    }
    RejectionHeeded(g, p, told.nodes[p], no, CALM);
    v, c := Takes1(g, o, told, p, Delivering(p, no, CALM), hint);
    BesideQuiet(g, told, v, p);
    forall y
      ensures SameMem(w, v, p, y)
    {
    }
  }

  ghost predicate SameMem(w: World, v: World, p: ReplicaID, y: ReplicaID) {
    y in w.nodes && y != p ==> y in v.nodes && Mem(v.nodes[y]) == Mem(w.nodes[y])
  }

  /** No other replica has another record. */
  ghost predicate SameMems(w: World, v: World, p: ReplicaID) {
    v.nodes.Keys == w.nodes.Keys && forall y :: SameMem(w, v, p, y)
  }

  /** Nothing stands in the way: no conflict, and a payload for a reserved reference. */
  const CALM := Local(NO_ATTRS, [], false, Some(Some([])))

  lemma TakesFresh(g: Group, o: World, w: World) returns (v: World, p: ReplicaID, b: Ballot)
    requires g.Valid() && Inv(g, o) && LeadsTo(g, o, w) && Quiet(g, w) && Room(w, 2)
    ensures LeadsTo(g, o, v) && Quiet(g, v) && p in g.voters && FreshBallot(v, p, b)
  {
    assert forall x <- g.voters :: x in g.Set();
    var top := HighestPromise(w, g.voters);
    var high := Mem(w.nodes[top]).ballot;
    p := AnotherVoter(g, high.replica);
    assert p in g.Set() && PromiseAtMost(w, high, p) && RoomAt(w, p, 2) && RoomAt(w, top, 2);
    assert Room(w, 1) by {
      forall x
        ensures RoomAt(w, x, 1)
      {
        assert RoomAt(w, x, 2);
      }
    }
    LeadsInv(g, o, w);
    assert NodeOK(g, w, p);
    var asked, first := Asks(g, o, w, p);
    BesideQuiet(g, w, asked, p);
    if high.Less(first) {
      v, b := asked, first;
      AllBelow(g, w, asked, p, high, first);
    } else {
      assert top != p;
      var again, second := AsksAgain(g, o, asked, p, first, top);
      v, b := again, second;
      assert asked.nodes[top] == w.nodes[top];
      BelowAgain(g, w, asked, again, p, high, second);
    }
  }

  lemma AllBelow(g: Group, w: World, v: World, p: ReplicaID, high: Ballot, b: Ballot)
    requires w.nodes.Keys == g.Set() && (forall x <- g.voters :: PromiseAtMost(w, high, x)) && Beside(w, v, p)
             && high.Less(b)
    ensures forall x :: Above(v, p, b, x)
  {
    forall x
      ensures Above(v, p, b, x)
    {
      if x in w.nodes && x != p {
        assert x in g.Set() && PromiseAtMost(w, high, x);
      }
    }
  }

  lemma BelowAgain(g: Group, w: World, asked: World, v: World, p: ReplicaID, high: Ballot, b: Ballot)
    requires w.nodes.Keys == g.Set() && (forall x <- g.voters :: PromiseAtMost(w, high, x)) && Beside(w, asked, p)
    requires SameMems(asked, v, p) && high.Less(b)
    ensures forall x :: Above(v, p, b, x)
  {
    forall x
      ensures Above(v, p, b, x)
    {
      if x in v.nodes && x != p {
        assert SameMem(asked, v, p, x) && x in g.Set() && PromiseAtMost(w, high, x);
      }
    }
  }

  // The survey.

  /** From w, a continuation of o, voter p prepares at the fresh ballot b; others are the other voters. */
  datatype Case = Case(g: Group, o: World, w: World, p: ReplicaID, b: Ballot, others: seq<ReplicaID>) {
    ghost predicate Valid() {
      && g.Valid() && LeadsTo(g, o, w) && p in g.voters && PreparesWith(w, p, b)
      && w.nodes[p].prepareOK == map[p := Mem(w.nodes[p])] && (forall x :: VoterAt(x))
      && |others| == |g.voters| - 1 && (forall x <- others :: x in g.voters && x != p)
      && (forall i, j | 0 <= i < j < |others| :: others[i] != others[j])
    }

    /** Every voter has persisted its records and is undecided; the others are below b. */
    ghost predicate VoterAt(x: ReplicaID) {
      x in g.voters ==>
        && x in w.nodes && w.nodes[x].durable == |w.nodes[x].log|
        && var mem := Mem(w.nodes[x]);
        && !mem.status.Final() && (mem.status.Empty? || mem.recordBallot != ZERO)
        && (x != p ==> mem.ballot.Less(b) && mem.recordBallot.Less(b))
    }

    /** The record of a voter once it has promised b. */
    function Shown(x: ReplicaID): Rec
      requires x in w.nodes
    {
      Mem(w.nodes[x]).(ballot := b)
    }
  }

  lemma OtherVoters(g: Group, p: ReplicaID) returns (others: seq<ReplicaID>)
    requires g.Valid() && p in g.voters
    ensures |others| == |g.voters| - 1 && (forall x <- others :: x in g.voters && x != p)
    ensures forall i, j | 0 <= i < j < |others| :: others[i] != others[j]
  {
    var at :| 0 <= at < |g.voters| && g.voters[at] == p;
    others := g.voters[..at] + g.voters[at + 1..];
  }

  lemma CaseValid(k: Case)
    requires k.g.Valid() && Inv(k.g, k.o) && LeadsTo(k.g, k.o, k.w) && Quiet(k.g, k.w) && FreshBallot(k.w, k.p, k.b)
    requires k.p in k.g.voters && |k.others| == |k.g.voters| - 1
             && (forall x <- k.others :: x in k.g.voters && x != k.p)
    requires forall i, j | 0 <= i < j < |k.others| :: k.others[i] != k.others[j]
    ensures k.Valid()
  {
    LeadsInv(k.g, k.o, k.w);
    forall x
      ensures k.VoterAt(x)
    {
      if x in k.g.voters {
        assert x in k.g.Set() && QuietAt(k.w, x) && Above(k.w, k.p, k.b, x);
        MemShaped(k.g, k.w, x);
      }
    }
  }

  /** The first i of the others and p. */
  ghost function Upto(k: Case, i: nat): set<ReplicaID>
    requires i <= |k.others|
  {
    if i == 0 then {k.p} else Upto(k, i - 1) + {k.others[i - 1]}
  }

  lemma {:induction false} UptoBefore(k: Case, i: nat, j: nat)
    requires k.Valid() && i <= j <= |k.others|
    ensures j < |k.others| ==> k.others[j] !in Upto(k, i)
    ensures k.p in Upto(k, i) && forall x <- Upto(k, i) :: x in k.g.voters && x in k.w.nodes
  {
    assert k.VoterAt(k.p);
    if i > 0 {
      UptoBefore(k, i - 1, j);
      assert k.others[i - 1] in k.others;
      assert k.VoterAt(k.others[i - 1]);
    }
    if j < |k.others| {
      assert k.others[j] in k.others;
    }
  }

  lemma {:induction false} UptoSize(k: Case, i: nat)
    requires k.Valid() && i <= |k.others|
    ensures |Upto(k, i)| == i + 1
  {
    if i > 0 {
      UptoSize(k, i - 1);
      UptoBefore(k, i - 1, i - 1);
    }
  }

  ghost function Survey(k: Case, i: nat): Answers
    requires i <= |k.others|
  {
    map x | x in Upto(k, i) && x in k.w.nodes :: k.Shown(x)
  }

  lemma NextOther(k: Case, i: nat)
    requires k.Valid() && i < |k.others|
    ensures k.others[i] in k.g.voters && k.others[i] in k.w.nodes && k.others[i] != k.p && k.others[i] !in Upto(k, i)
  {
    assert k.others[i] in k.others;
    assert k.VoterAt(k.others[i]);
    UptoBefore(k, i, i);
  }

  lemma SurveySize(k: Case, i: nat)
    requires k.Valid() && i <= |k.others|
    ensures Survey(k, i).Keys == Upto(k, i) && |Survey(k, i)| == i + 1
  {
    UptoBefore(k, i, i);
    SurveyKeys(k, i);
    UptoSize(k, i);
  }

  lemma SurveyKeys(k: Case, i: nat)
    requires i <= |k.others| && forall x <- Upto(k, i) :: x in k.w.nodes
    ensures Survey(k, i).Keys == Upto(k, i) && |Survey(k, i)| == |Upto(k, i)|
  {
    var answers, keys := Survey(k, i), Upto(k, i);
    assert answers.Keys == keys;
    assert |answers| == |answers.Keys|;
  }

  lemma SurveyGrows(k: Case, i: nat)
    requires k.Valid() && i < |k.others|
    ensures var x := k.others[i];
            && x !in Survey(k, i) && x in k.g.voters && x in k.w.nodes && x != k.p
            && Survey(k, i)[x := k.Shown(x)] == Survey(k, i + 1)
    ensures |Survey(k, i + 1)| == i + 2
  {
    NextOther(k, i);
    SurveySize(k, i);
    SurveySize(k, i + 1);
    assert Upto(k, i + 1) == Upto(k, i) + {k.others[i]};
  }

  ghost predicate Holds(w: World, x: ReplicaID, rec: Rec) {
    x in w.nodes && w.nodes[x].log != [] && Mem(w.nodes[x]) == rec && w.nodes[x].durable == |w.nodes[x].log|
  }

  ghost predicate OtherAt(k: Case, w: World, i: nat, j: nat) {
    j < |k.others| && k.others[j] in k.w.nodes ==>
      if j < i then Holds(w, k.others[j], k.Shown(k.others[j]))
      else k.others[j] in w.nodes && w.nodes[k.others[j]] == k.w.nodes[k.others[j]]
  }

  ghost predicate Surveyed(k: Case, w: World, asked: nat, heard: nat)
    requires heard <= |k.others|
  {
    && LeadsTo(k.g, k.o, w) && Prepare(k.p, k.b) in w.net && k.p in k.w.nodes && k.p in w.nodes
    && w.nodes[k.p] == k.w.nodes[k.p].(prepareOK := Survey(k, heard))
    && forall j: nat :: OtherAt(k, w, asked, j)
  }

  function Answer(k: Case, x: ReplicaID): Message
    requires x in k.w.nodes
  {
    PrepareResp(x, k.b, k.Shown(x))
  }

  lemma SurveyStarts(k: Case)
    requires k.Valid()
    ensures Surveyed(k, k.w, 0, 0)
  {
    assert k.VoterAt(k.p);
    assert Upto(k, 0) == {k.p};
    assert Survey(k, 0) == map[k.p := k.Shown(k.p)];
    assert k.w.nodes[k.p] == k.w.nodes[k.p].(prepareOK := Survey(k, 0));
  }

  /** One more voter promises and shows its record. */
  lemma Shows(k: Case, w: World, i: nat) returns (v: World)
    requires k.Valid() && i < |k.others| && Surveyed(k, w, i, i)
    ensures k.others[i] in k.w.nodes && Surveyed(k, v, i + 1, i) && Answer(k, k.others[i]) in v.net
  {
    var x := k.others[i];
    assert x in k.others;
    assert k.VoterAt(x);
    assert OtherAt(k, w, i, i);
    var n, m := w.nodes[x], Prepare(k.p, k.b);
    PrepareAnswered(k.g, x, n, m, CALM);
    var r := Handle(k.g, x, n, m, CALM);
    v := Delivered(k.g, k.o, w, x, m, CALM, r, Outgoing(Answer(k, x), |n.log| + 1));
    assert Mem(r) == k.Shown(x);
    var next := i + 1;
    forall j: nat
      ensures OtherAt(k, v, next, j)
    {
      assert OtherAt(k, w, i, j);
    }
  }

  /** The voter p counts an answer that does not complete a slow quorum. */
  lemma CountsOn(k: Case, w: World, i: nat) returns (v: World)
    requires k.Valid() && i + 2 < Q.Slow(|k.g.voters|) && i < |k.others| && Surveyed(k, w, i + 1, i)
    requires k.others[i] in k.w.nodes && Answer(k, k.others[i]) in w.net
    ensures Surveyed(k, v, i + 1, i + 1)
  {
    var x, n := k.others[i], w.nodes[k.p];
    SurveyGrows(k, i);
    assert k.VoterAt(x);
    var m := Answer(k, x);
    Dn.AnswerCounted(k.g, k.p, n, m, CALM);
    assert Dn.CountsAnswer(k.g, k.p, n, m);
    v := Heard(k.g, k.o, w, k.p, m, CALM, n.(prepareOK := Survey(k, i + 1)));
    var next := i + 1;
    forall j: nat
      ensures OtherAt(k, v, next, j)
    {
      assert OtherAt(k, w, next, j);
      assert j < |k.others| ==> k.others[j] in k.others;
    }
  }

  lemma {:induction false} SurveyGoesOn(k: Case, i: nat) returns (w: World)
    requires k.Valid() && i + 1 < Q.Slow(|k.g.voters|)
    ensures Surveyed(k, w, i, i)
  {
    if i == 0 {
      w := k.w;
      SurveyStarts(k);
    } else {
      var v := SurveyGoesOn(k, i - 1);
      var u := Shows(k, v, i - 1);
      w := CountsOn(k, u, i - 1);
    }
  }

  // The decision.

  /** How many of the others make a slow quorum with p. */
  function Enough(k: Case): int {
    Q.Slow(|k.g.voters|) - 1
  }

  ghost predicate WaitsAt(k: Case, w: World, i: nat, j: nat) {
    i <= j < Enough(k) && j < |k.others| && k.others[j] in k.w.nodes ==> Holds(w, k.others[j], k.Shown(k.others[j]))
  }

  ghost predicate AllWait(k: Case, w: World, i: nat) {
    forall j: nat :: WaitsAt(k, w, i, j)
  }

  /** p runs an Accept round for t, has i acknowledgements, and the next of the others still hold what they showed. */
  ghost predicate Accepting(k: Case, w: World, t: Tuple, i: nat)
    requires i <= |k.others|
  {
    && LeadsTo(k.g, k.o, w) && Accept(k.p, k.b, t) in w.net && Holds(w, k.p, Rec(k.b, k.b, Accepted, t, false))
    && w.nodes[k.p].phase.AcceptPhase? && w.nodes[k.p].accOK == Upto(k, i) && forall j: nat :: WaitsAt(k, w, i, j)
  }

  ghost function PlanOf(k: Case): Plan
    requires k.Valid() && Enough(k) <= |k.others|
  {
    Decide(k.g, Survey(k, Enough(k)), NO_ATTRS, FallbackValue(k.g, CALM))
  }

  lemma AnswersOpen(k: Case, i: nat)
    requires k.Valid() && i <= |k.others|
    ensures forall x <- Survey(k, i) :: x in k.g.voters && !Survey(k, i)[x].status.Final()
  {
    UptoBefore(k, i, i);
    forall x <- Survey(k, i)
      ensures x in k.g.voters && !Survey(k, i)[x].status.Final()
    {
      assert k.VoterAt(x);
    }
  }

  /** With a fallback and no final answer, something is accepted or tried, and tried only without an accepted answer. */
  lemma PlanKind(k: Case)
    requires k.Valid() && Enough(k) <= |k.others|
    ensures PlanOf(k).Accepting? || PlanOf(k).Trying?
    ensures PlanOf(k).Trying? ==> forall x <- Survey(k, Enough(k)) :: !k.Shown(x).status.Accepted?
  {
    var answers := Survey(k, Enough(k));
    AnswersOpen(k, Enough(k));
    Dn.BestMeaning(k.g.voters, answers);
  }

  /** Everyone needed has answered; the last answer is on its way. */
  lemma LastAnswer(k: Case) returns (w: World)
    requires k.Valid()
    ensures 1 <= Enough(k) <= |k.others| && k.others[Enough(k) - 1] in k.w.nodes
    ensures Surveyed(k, w, Enough(k), Enough(k) - 1) && Answer(k, k.others[Enough(k) - 1]) in w.net
  {
    var i := Enough(k) - 1;
    var v := SurveyGoesOn(k, i);
    w := Shows(k, v, i);
  }

  /** Hearing it carries the decision out. */
  lemma Outcome(k: Case, n: Node)
    requires k.Valid() && 1 <= Enough(k) <= |k.others| && k.others[Enough(k) - 1] in k.w.nodes && k.p in k.w.nodes
    requires n == k.w.nodes[k.p].(prepareOK := Survey(k, Enough(k) - 1))
    ensures var r := Handle(k.g, k.p, n, Answer(k, k.others[Enough(k) - 1]), CALM);
            Dn.CarriesOut(k.g, k.p, n.(prepareOK := Survey(k, Enough(k))), r, PlanOf(k))
  {
    var i := Enough(k) - 1;
    var m := Answer(k, k.others[i]);
    SurveyGrows(k, i);
    assert k.VoterAt(k.others[i]);
    Dn.AnswerCounted(k.g, k.p, n, m, CALM);
    assert Dn.CountsAnswer(k.g, k.p, n, m);
  }

  lemma StillWait(k: Case, w: World, v: World)
    requires k.Valid() && Enough(k) <= |k.others| && (forall j: nat :: OtherAt(k, w, Enough(k), j))
    requires k.p in v.nodes && v.nodes == w.nodes[k.p := v.nodes[k.p]]
    ensures forall j: nat :: WaitsAt(k, v, 0, j)
  {
    forall j: nat
      ensures WaitsAt(k, v, 0, j)
    {
      assert OtherAt(k, w, Enough(k), j);
      assert j < |k.others| ==> k.others[j] in k.others;
    }
  }

  /** The node starts an Accept round for t. */
  ghost predicate StartsRound(k: Case, r: Node, t: Tuple) {
    && r.log != [] && r.durable <= |r.log| && Mem(r) == Rec(k.b, k.b, Accepted, t, false)
    && r.phase.AcceptPhase? && r.accOK == {k.p} && Outgoing(Accept(k.p, k.b, t), |r.log|) in r.outbox
  }

  /** The node asks for a try of t. */
  ghost predicate StartsTry(k: Case, r: Node, t: Tuple) {
    && r.log != [] && r.durable <= |r.log| && Mem(r) == Rec(k.b, k.b, PreAccepted, t, false)
    && r.phase.TryPhase? && Outgoing(TryPreAccept(k.p, k.b, t), |r.log|) in r.outbox
  }

  lemma PlanStarts(k: Case, n: Node, r: Node, plan: Plan)
    requires Dn.CarriesOut(k.g, k.p, n, r, plan) && (plan.Accepting? || plan.Trying?)
    requires Mem(n).ballot == k.b && n.durable <= |n.log|
    ensures StartsRound(k, r, plan.tuple) || (plan.Trying? && StartsTry(k, r, plan.tuple))
  {
  }

  /** p has decided: it accepts, or asks for a try. */
  lemma Decided(k: Case) returns (v: World, t: Tuple)
    requires k.Valid()
    ensures Enough(k) <= |k.others| && (Accepting(k, v, t, 0) || Trying(k, v, t))
  {
    var w := LastAnswer(k);
    var n, m := w.nodes[k.p], Answer(k, k.others[Enough(k) - 1]);
    Outcome(k, n);
    PlanKind(k);
    assert k.VoterAt(k.p) && k.others[Enough(k) - 1] in k.others;
    var r := Handle(k.g, k.p, n, m, CALM);
    t := PlanOf(k).tuple;
    PlanStarts(k, n.(prepareOK := Survey(k, Enough(k))), r, PlanOf(k));
    if StartsRound(k, r, t) {
      v := DecidedRound(k, w, m, r, t);
    } else {
      NoneAccepted(k);
      v := DecidedTry(k, w, m, r, t);
    }
  }

  lemma DecidedRound(k: Case, w: World, m: Message, r: Node, t: Tuple) returns (v: World)
    requires k.Valid() && Enough(k) <= |k.others| && LeadsTo(k.g, k.o, w) && k.p in w.nodes && m in w.net
             && m.from != k.p
    requires r == Handle(k.g, k.p, w.nodes[k.p], m, CALM) && StartsRound(k, r, t)
    requires forall j: nat :: OtherAt(k, w, Enough(k), j)
    ensures Accepting(k, v, t, 0)
  {
    v := Delivered(k.g, k.o, w, k.p, m, CALM, r, Outgoing(Accept(k.p, k.b, t), |r.log|));
    StillWait(k, w, v);
    assert Mem(v.nodes[k.p]) == Mem(r);
    assert Upto(k, 0) == {k.p};
  }

  lemma DecidedTry(k: Case, w: World, m: Message, r: Node, t: Tuple) returns (v: World)
    requires k.Valid() && Enough(k) <= |k.others| && LeadsTo(k.g, k.o, w) && k.p in w.nodes && m in w.net
             && m.from != k.p
    requires r == Handle(k.g, k.p, w.nodes[k.p], m, CALM) && StartsTry(k, r, t)
    requires forall j: nat :: OtherAt(k, w, Enough(k), j)
    requires |k.others| > 0 && k.others[0] in k.w.nodes && !k.Shown(k.others[0]).status.Accepted?
    ensures Trying(k, v, t)
  {
    v := Delivered(k.g, k.o, w, k.p, m, CALM, r, Outgoing(TryPreAccept(k.p, k.b, t), |r.log|));
    StillWait(k, w, v);
    assert Mem(v.nodes[k.p]) == Mem(r);
  }

  /** p asks for a try of t, and none of those it surveyed has accepted anything. */
  ghost predicate Trying(k: Case, w: World, t: Tuple) {
    && LeadsTo(k.g, k.o, w) && TryPreAccept(k.p, k.b, t) in w.net && Holds(w, k.p, Rec(k.b, k.b, PreAccepted, t, false))
    && w.nodes[k.p].phase.TryPhase? && (forall j: nat :: WaitsAt(k, w, 0, j))
    && |k.others| > 0 && k.others[0] in k.w.nodes && !k.Shown(k.others[0]).status.Accepted?
  }

  lemma NoneAccepted(k: Case)
    requires k.Valid() && 1 <= Enough(k) <= |k.others| && PlanOf(k).Trying?
    ensures k.others[0] in k.w.nodes && !k.Shown(k.others[0]).status.Accepted?
  {
    PlanKind(k);
    assert k.others[0] in k.others && k.VoterAt(k.others[0]);
    FirstIn(k, Enough(k));
  }

  lemma {:induction false} FirstIn(k: Case, i: nat)
    requires 1 <= i <= |k.others|
    ensures k.others[0] in Upto(k, i)
  {
    if i > 1 {
      FirstIn(k, i - 1);
    }
  }

  const BLOCKED := CALM.(conflict := true)

  /** A try that meets a conflict goes on to an Accept round. */
  lemma TryEnds(k: Case, w: World, t: Tuple) returns (v: World, u: Tuple)
    requires k.Valid() && 1 <= Enough(k) <= |k.others| && Trying(k, w, t)
    ensures Accepting(k, v, u, 0)
  {
    var x := k.others[0];
    assert x in k.others && k.VoterAt(x) && WaitsAt(k, w, 0, 0);
    var n, m, no := w.nodes[x], TryPreAccept(k.p, k.b, t), TryConflict(x, k.b);
    TryAnswered(k.g, x, n, m, BLOCKED);
    var told := Delivered(k.g, k.o, w, x, m, BLOCKED, Handle(k.g, x, n, m, BLOCKED), Outgoing(no, |n.log|));
    var own := told.nodes[k.p];
    ConflictJoined(k.g, k.p, own, no, BLOCKED);
    var r := Handle(k.g, k.p, own, no, BLOCKED);
    var attrs :| IsJoin(attrs, BLOCKED.attrs, Mem(own).tuple.attrs)
                 && StartsAccept(k.p, own, r, Tuple(attrs, Mem(own).tuple.value));
    u := Tuple(attrs, Mem(own).tuple.value);
    v := Delivered(k.g, k.o, told, k.p, no, BLOCKED, r, Outgoing(Accept(k.p, k.b, u), |r.log|));
    assert Mem(v.nodes[k.p]) == Mem(r);
    forall j: nat
      ensures WaitsAt(k, v, 0, j)
    {
      assert WaitsAt(k, w, 0, j);
      assert j < |k.others| ==> k.others[j] in k.others;
    }
    assert Upto(k, 0) == {k.p};
  }

  // The Accept round.

  lemma AcceptStarts(k: Case) returns (v: World, t: Tuple)
    requires k.Valid()
    ensures 1 <= Enough(k) <= |k.others| && Accepting(k, v, t, 0)
  {
    var w;
    w, t := Decided(k);
    v := w;
    if Trying(k, w, t) {
      v, t := TryEnds(k, w, t);
    }
  }

  function Ack(k: Case, x: ReplicaID, t: Tuple): Message {
    AcceptResp(x, k.b, k.b, t.attrs)
  }

  /** One more of the others accepts. */
  lemma Joins(k: Case, w: World, t: Tuple, i: nat) returns (v: World)
    requires k.Valid() && i < Enough(k) <= |k.others| && Accepting(k, w, t, i)
    ensures LeadsTo(k.g, k.o, v) && v.net == w.net + {Ack(k, k.others[i], t)}
    ensures k.p in v.nodes && v.nodes[k.p] == w.nodes[k.p] && AllWait(k, v, i + 1)
  {
    var x := k.others[i];
    assert x in k.others && k.VoterAt(x) && WaitsAt(k, w, i, i);
    var n, m := w.nodes[x], Accept(k.p, k.b, t);
    AcceptAnswered(k.g, x, n, m, CALM);
    v := Delivered(k.g, k.o, w, x, m, CALM, Handle(k.g, x, n, m, CALM), Outgoing(Ack(k, x, t), |n.log| + 1));
    var next := i + 1;
    forall j: nat
      ensures WaitsAt(k, v, next, j)
    {
      assert WaitsAt(k, w, i, j);
    }
  }

  lemma AckHeard(k: Case, n: Node, t: Tuple, i: nat)
    requires k.Valid() && i < |k.others| && n.log != [] && Mem(n) == Rec(k.b, k.b, Accepted, t, false)
    requires n.phase.AcceptPhase? && n.accOK == Upto(k, i)
    ensures var r := Handle(k.g, k.p, n, Ack(k, k.others[i], t), CALM);
            if i + 1 < Enough(k) then r == n.(accOK := Upto(k, i + 1)) else CommitsTuple(k.p, n, r, k.b, k.b, t)
  {
    assert k.others[i] in k.others;
    UptoBefore(k, i, i);
    UptoSize(k, i);
    AckCounted(k.g, k.p, n, Ack(k, k.others[i], t), CALM);
  }

  /** An acknowledgement that does not complete a slow quorum is counted. */
  lemma AckGoesOn(k: Case, u: World, t: Tuple, i: nat) returns (w: World)
    requires k.Valid() && i + 1 < Enough(k) <= |k.others| && LeadsTo(k.g, k.o, u) && AllWait(k, u, i + 1)
    requires Accept(k.p, k.b, t) in u.net && Ack(k, k.others[i], t) in u.net
    requires Holds(u, k.p, Rec(k.b, k.b, Accepted, t, false)) && u.nodes[k.p].phase.AcceptPhase?
    requires u.nodes[k.p].accOK == Upto(k, i)
    ensures Accepting(k, w, t, i + 1)
  {
    var n, x, next := u.nodes[k.p], k.others[i], i + 1;
    assert x in k.others;
    AckHeard(k, n, t, i);
    w := Heard(k.g, k.o, u, k.p, Ack(k, x, t), CALM, n.(accOK := Upto(k, next)));
    forall j: nat
      ensures WaitsAt(k, w, next, j)
    {
      assert WaitsAt(k, u, next, j);
      assert j < |k.others| ==> k.others[j] in k.others;
    }
  }

  lemma {:induction false} AcceptGoesOn(k: Case, i: nat) returns (w: World, t: Tuple)
    requires k.Valid() && i < Enough(k)
    ensures Enough(k) <= |k.others| && Accepting(k, w, t, i)
  {
    if i == 0 {
      w, t := AcceptStarts(k);
    } else {
      var v;
      v, t := AcceptGoesOn(k, i - 1);
      var u := Joins(k, v, t, i - 1);
      w := AckGoesOn(k, u, t, i - 1);
    }
  }

  lemma Commits(k: Case) returns (w: World)
    requires k.Valid()
    ensures LeadsTo(k.g, k.o, w) && k.p in w.nodes && Mem(w.nodes[k.p]).status.Final()
  {
    var i := Enough(k) - 1;
    var v, t := AcceptGoesOn(k, i);
    var u := Joins(k, v, t, i);
    var n, x := u.nodes[k.p], k.others[i];
    assert x in k.others;
    AckHeard(k, n, t, i);
    w := Heard(k.g, k.o, u, k.p, Ack(k, x, t), CALM, Handle(k.g, k.p, n, Ack(k, x, t), CALM));
  }

  // No reachable state is a dead end.

  ghost predicate DecidedAt(w: World, i: ReplicaID) {
    i in w.nodes && Mem(w.nodes[i]).status.Final()
  }

  /**
   From every state of every run, as long as no promise is within two epochs of the last ballot, some
   continuation leaves the instance decided at some replica.
   */
  lemma CanStillDecide(g: Group, trace: seq<World>, at: nat) returns (v: World)
    requires g.Valid() && Run(g, trace) && at < |trace| && Room(trace[at], 2)
    ensures LeadsTo(g, trace[at], v) && exists i :: DecidedAt(v, i)
  {
    var o := trace[at];
    RunInv(g, trace, at);
    LeadsNowhere(g, o);
    if i :| DecidedAt(o, i) {
      v := o;
    } else {
      assert forall x <- o.nodes :: NodeOK(g, o, x);
      var w := AllPersist(g, o, o, g.voters);
      QuietNow(g, o, w);
      var u, p, b := TakesFresh(g, o, w);
      var others := OtherVoters(g, p);
      var k := Case(g, o, u, p, b, others);
      CaseValid(k);
      v := Commits(k);
      assert DecidedAt(v, p);
    }
  }

  lemma QuietNow(g: Group, o: World, w: World)
    requires o.nodes.Keys == g.Set() == w.nodes.Keys && (forall i :: !DecidedAt(o, i)) && Room(o, 2)
    requires forall x :: StoredAt(o, w, g.voters, x)
    ensures Quiet(g, w) && Room(w, 2)
  {
    forall x
      ensures QuietAt(w, x) && RoomAt(w, x, 2)
    {
      if x in w.nodes {
        assert x in g.Set() && StoredAt(o, w, g.voters, x) && !DecidedAt(o, x) && RoomAt(o, x, 2);
      }
    }
  }
}
