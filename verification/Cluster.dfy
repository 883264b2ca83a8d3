/**
 All replicas of one instance over a network that loses, repeats, delays and reorders messages, with
 crashes at any point. Every step keeps the ledger sound.
 */
module Cluster {
  import opened Types
  import opened Ballots
  import opened Protocol
  import opened Agreement
  import opened Handlers
  import L = LedgerSteps

  datatype World = World(nodes: map<ReplicaID, Node>, net: set<Message>)

  ghost function LedgerOf(w: World): Ledger {
    Ledger(map i | i in w.nodes :: History(w.nodes[i].log, w.nodes[i].durable), w.net)
  }

  function Put(w: World, i: ReplicaID, n: Node): World {
    w.(nodes := w.nodes[i := n])
  }

  /** A queued message is vouched for by the record it waits for. */
  ghost predicate Vouched(g: Group, i: ReplicaID, n: Node, o: Outgoing) {
    o in n.outbox ==>
      && o.m.from == i && o.after <= |n.log|
      && (o.m.TryConflict? || (o.after > 0 && Vouches(g, o.m, n.log[o.after - 1])))
  }

  /** Votes a node has counted were sent at its current ballot. */
  ghost predicate Counted(g: Group, net: set<Message>, i: ReplicaID, n: Node, j: ReplicaID) {
    && (j in n.preOK ==> j in g.voters && n.phase.PreAcceptPhase? && i == g.owner && Mem(n).ballot == g.Initial())
    && (j in n.preOK && j != i ==>
          PreAcceptResp(j, g.Initial(), n.preOK[j].attrs, n.preOK[j].eligible, n.preOK[j].committed) in net)
    && (j in n.prepareOK ==> j in g.voters && n.phase.PreparePhase?)
    && (j in n.prepareOK && j != i ==> PrepareResp(j, Mem(n).ballot, n.prepareOK[j]) in net)
    && (j in n.accOK ==> j in g.voters && n.phase.AcceptPhase? && (j == i ==> Mem(n).ballot.replica == i))
    && (j in n.accOK && j != i ==> AcceptResp(j, Mem(n).ballot, Mem(n).recordBallot, Mem(n).tuple.attrs) in net)
  }

  /** The phase agrees with the last record. */
  ghost predicate InPhase(g: Group, i: ReplicaID, n: Node) {
    var mem := Mem(n);
    match n.phase
    case PreAcceptPhase => mem.status.PreAccepted? && !(mem.ballot.IsRecovery() && mem.ballot.replica == i)
    case PreparePhase =>
      mem.ballot.IsRecovery() && mem.ballot.replica == i && !mem.status.Final() && i in n.prepareOK
          && n.prepareOK[i] == mem
    case TryPhase => mem.status.PreAccepted? && mem.ballot.IsRecovery() && mem.ballot.replica == i
        && mem.recordBallot == mem.ballot
    case AcceptPhase => mem.status.Accepted? && (mem.ballot.replica == i ==> mem.recordBallot == mem.ballot)
    case _ => true
  }

  ghost predicate NodeInv(g: Group, net: set<Message>, i: ReplicaID, n: Node) {
    && n.durable <= |n.log| && InPhase(g, i, n)
    && (forall o :: Vouched(g, i, n, o))
    && (forall j :: Counted(g, net, i, n, j))
  }

  ghost predicate NodeOK(g: Group, w: World, i: ReplicaID) {
    i in w.nodes ==> NodeInv(g, w.net, i, w.nodes[i])
  }

  ghost predicate Inv(g: Group, w: World) {
    w.nodes.Keys == g.Set() && Sound(g, LedgerOf(w)) && forall i :: NodeOK(g, w, i)
  }

  // Keeping the invariant when one node changes.

  lemma MemShaped(g: Group, w: World, i: ReplicaID)
    requires g.Valid() && Inv(g, w) && i in w.nodes
    ensures i in g.voters && Shaped(g, Mem(w.nodes[i]))
  {
    assert i in g.Set();
    var l := LedgerOf(w);
    if w.nodes[i].log != [] {
      LogShaped(g, l, i, |w.nodes[i].log| - 1);
    }
  }

  lemma LedgerPut(w: World, i: ReplicaID, n: Node)
    ensures LedgerOf(Put(w, i, n)) == L.WithHistory(LedgerOf(w), i, History(n.log, n.durable))
  {
    assert LedgerOf(Put(w, i, n)).histories == LedgerOf(w).histories[i := History(n.log, n.durable)];
  }

  lemma PutInv(g: Group, w: World, i: ReplicaID, n: Node)
    requires Inv(g, w) && i in w.nodes && NodeInv(g, w.net, i, n) && Sound(g, LedgerOf(Put(w, i, n)))
    ensures Inv(g, Put(w, i, n))
  {
    assert Put(w, i, n).nodes.Keys == w.nodes.Keys;
    forall j
      ensures NodeOK(g, Put(w, i, n), j)
    {
      assert NodeOK(g, w, j);
    }
  }

  /** Only queued messages and counted votes change. */
  lemma KeepsNode(g: Group, w: World, i: ReplicaID, n: Node)
    requires g.Valid() && Inv(g, w) && i in w.nodes && NodeInv(g, w.net, i, n)
    requires n.log == w.nodes[i].log && n.durable == w.nodes[i].durable
    ensures Inv(g, Put(w, i, n))
  {
    assert LedgerOf(Put(w, i, n)) == LedgerOf(w);
    PutInv(g, w, i, n);
  }

  /** One justified record is queued. */
  lemma StoresRecord(g: Group, w: World, i: ReplicaID, n: Node, rec: Rec)
    requires g.Valid() && Inv(g, w) && i in w.nodes && NodeInv(g, w.net, i, n)
    requires n.log == w.nodes[i].log + [rec] && n.durable == w.nodes[i].durable
    requires Evolves(g, w.net, i, |w.nodes[i].log|, Mem(w.nodes[i]), rec)
    ensures Inv(g, Put(w, i, n))
  {
    assert i in g.Set();
    L.AppendSound(g, LedgerOf(w), i, rec);
    LedgerPut(w, i, n);
    PutInv(g, w, i, n);
  }

  lemma SayInv(g: Group, net: set<Message>, i: ReplicaID, n: Node, m: Message)
    requires NodeInv(g, net, i, n) && m.from == i && (m.TryConflict? || (n.log != [] && Vouches(g, m, Mem(n))))
    ensures NodeInv(g, net, i, Say(n, m))
  {
    forall o
      ensures Vouched(g, i, Say(n, m), o)
    {
      assert Vouched(g, i, n, o);
    }
    forall j
      ensures Counted(g, net, i, Say(n, m), j)
    {
      assert Counted(g, net, i, n, j);
    }
  }

  /** Storing a record keeps the queued messages vouched for and starts with no votes. */
  lemma StoreInv(g: Group, net: set<Message>, i: ReplicaID, n: Node, rec: Rec, phase: Phase)
    requires NodeInv(g, net, i, n) && InPhase(g, i, Store(n, rec, phase))
    ensures NodeInv(g, net, i, Store(n, rec, phase)) && Mem(Store(n, rec, phase)) == rec
  {
    forall o
      ensures Vouched(g, i, Store(n, rec, phase), o)
    {
      assert Vouched(g, i, n, o);
    }
    forall j
      ensures Counted(g, net, i, Store(n, rec, phase), j)
    {
    }
  }

  lemma SaysOnly(g: Group, w: World, i: ReplicaID, m: Message)
    requires g.Valid() && Inv(g, w) && i in w.nodes && m.from == i
    requires m.TryConflict? || (w.nodes[i].log != [] && Vouches(g, m, Mem(w.nodes[i])))
    ensures Inv(g, Put(w, i, Say(w.nodes[i], m)))
  {
    assert NodeOK(g, w, i);
    SayInv(g, w.net, i, w.nodes[i], m);
    KeepsNode(g, w, i, Say(w.nodes[i], m));
  }

  lemma SaysCommit(g: Group, w: World, i: ReplicaID)
    requires g.Valid() && Inv(g, w) && i in w.nodes && Mem(w.nodes[i]).status.Final()
    ensures Inv(g, Put(w, i, SayCommit(w.nodes[i], i)))
  {
    SaysOnly(g, w, i, Commit(i, Mem(w.nodes[i]).ballot, Mem(w.nodes[i]).recordBallot, Mem(w.nodes[i]).tuple));
  }

  /** Store a record, then say what it vouches for. */
  lemma StoresAndSays(g: Group, w: World, i: ReplicaID, rec: Rec, phase: Phase, m: Message)
    requires g.Valid() && Inv(g, w) && i in w.nodes && InPhase(g, i, Store(w.nodes[i], rec, phase))
    requires Evolves(g, w.net, i, |w.nodes[i].log|, Mem(w.nodes[i]), rec) && m.from == i && Vouches(g, m, rec)
    ensures Inv(g, Put(w, i, Say(Store(w.nodes[i], rec, phase), m)))
  {
    assert NodeOK(g, w, i);
    StoreInv(g, w.net, i, w.nodes[i], rec, phase);
    SayInv(g, w.net, i, Store(w.nodes[i], rec, phase), m);
    StoresRecord(g, w, i, Say(Store(w.nodes[i], rec, phase), m), rec);
  }

  lemma KeepsSame(g: Group, w: World, i: ReplicaID)
    requires i in w.nodes
    ensures Put(w, i, w.nodes[i]) == w
  {
    assert w.nodes[i := w.nodes[i]] == w.nodes;
  }

  /** A message in the network was vouched for by a well-shaped record of its sender. */
  lemma SenderRecord(g: Group, w: World, m: Message) returns (r: Rec)
    requires g.Valid() && Inv(g, w) && m in w.net && !m.TryConflict?
    ensures m.from in g.voters && Vouches(g, m, r) && Shaped(g, r)
  {
    var l := LedgerOf(w);
    assert Backed(g, l, m);
    var k :| BackedAt(g, l, m, k);
    LogShaped(g, l, m.from, k);
    r := Log(l, m.from)[k];
  }
}
