/** Continuations of a cluster's state, built step by step. */
module Reaching {
  import opened Types
  import opened Protocol
  import opened Handlers
  import opened Cluster
  import opened ClusterRuns

  ghost predicate PathTo(g: Group, trace: seq<World>, o: World, v: World) {
    |trace| > 0 && trace[0] == o && trace[|trace| - 1] == v && forall k :: StepAt(g, trace, k)
  }

  ghost predicate LeadsTo(g: Group, o: World, v: World) {
    exists trace :: PathTo(g, trace, o, v)
  }

  lemma LeadsNowhere(g: Group, o: World)
    ensures LeadsTo(g, o, o)
  {
    assert PathTo(g, [o], o, o);
  }

  lemma Moved(g: Group, o: World, w: World, s: Step)
    requires g.Valid() && LeadsTo(g, o, w) && Enabled(w, s)
    ensures LeadsTo(g, o, Next(g, w, s))
  {
    var trace :| PathTo(g, trace, o, w);
    var more := trace + [Next(g, w, s)];
    forall k
      ensures StepAt(g, more, k)
    {
      assert StepAt(g, trace, k);
      if 0 < k < |trace| {
        var t :| Takes(g, trace, k, t);
        assert Takes(g, more, k, t);
      } else if k == |trace| {
        assert Takes(g, more, k, s);
      }
    }
    assert PathTo(g, more, o, Next(g, w, s));
  }

  lemma {:induction false} PathInv(g: Group, trace: seq<World>, o: World, v: World, k: nat)
    requires g.Valid() && Inv(g, o) && PathTo(g, trace, o, v) && k < |trace|
    ensures Inv(g, trace[k])
  {
    if k > 0 {
      PathInv(g, trace, o, v, k - 1);
      assert StepAt(g, trace, k);
      var s :| Takes(g, trace, k, s);
      NextKeeps(g, trace[k - 1], s);
    }
  }

  lemma LeadsInv(g: Group, o: World, v: World)
    requires g.Valid() && Inv(g, o) && LeadsTo(g, o, v)
    ensures Inv(g, v)
  {
    var trace :| PathTo(g, trace, o, v);
    PathInv(g, trace, o, v, |trace| - 1);
  }

  // Steps taken together.

  function Stored(n: Node): Node {
    n.(durable := |n.log|)
  }

  lemma {:induction false} Persists(g: Group, o: World, w: World, i: ReplicaID) returns (v: World)
    requires g.Valid() && LeadsTo(g, o, w) && i in w.nodes && w.nodes[i].durable <= |w.nodes[i].log|
    ensures LeadsTo(g, o, v) && v == World(w.nodes[i := Stored(w.nodes[i])], w.net)
    decreases |w.nodes[i].log| - w.nodes[i].durable
  {
    if w.nodes[i].durable == |w.nodes[i].log| {
      v := w;
      assert w.nodes[i := Stored(w.nodes[i])] == w.nodes;
    } else {
      Moved(g, o, w, Persisting(i));
      v := Persists(g, o, Next(g, w, Persisting(i)), i);
    }
  }

  /** The replica acts, persists what it queued, and sends one of its messages. */
  lemma Acted(g: Group, o: World, w: World, s: Step, r: Node, m: Outgoing) returns (v: World)
    requires g.Valid() && LeadsTo(g, o, w) && Enabled(w, s) && !s.Persisting? && !s.Sending? && !s.Crashing?
    requires r == Acts(g, w.nodes[s.i], s) && r.durable <= |r.log| && m in r.outbox && m.after <= |r.log|
    ensures LeadsTo(g, o, v) && v == World(w.nodes[s.i := Stored(r)], w.net + {m.m})
  {
    Moved(g, o, w, s);
    var a := Next(g, w, s);
    var b := Persists(g, o, a, s.i);
    Moved(g, o, b, Sending(s.i, m));
    v := Next(g, b, Sending(s.i, m));
    assert b.nodes == w.nodes[s.i := Stored(r)];
  }

  lemma Delivered(g: Group, o: World, w: World, i: ReplicaID, m: Message, env: Local, r: Node, answer: Outgoing)
    returns (v: World)
    requires g.Valid() && LeadsTo(g, o, w) && i in w.nodes && m in w.net && m.from != i
    requires r == Handle(g, i, w.nodes[i], m, env) && r.durable <= |r.log| && answer in r.outbox
             && answer.after <= |r.log|
    ensures LeadsTo(g, o, v) && v == World(w.nodes[i := Stored(r)], w.net + {answer.m})
  {
    v := Acted(g, o, w, Delivering(i, m, env), r, answer);
  }

  lemma Heard(g: Group, o: World, w: World, i: ReplicaID, m: Message, env: Local, r: Node) returns (v: World)
    requires g.Valid() && LeadsTo(g, o, w) && i in w.nodes && m in w.net && m.from != i
    requires r == Handle(g, i, w.nodes[i], m, env)
    ensures LeadsTo(g, o, v) && v == World(w.nodes[i := r], w.net)
  {
    Moved(g, o, w, Delivering(i, m, env));
    v := Next(g, w, Delivering(i, m, env));
  }
}
