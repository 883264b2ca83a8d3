/**
 The Ready/Advance hand-off: work is queued, frozen into a batch, and acknowledged prefix by
 prefix, while new work gathers behind it. Nothing is lost, repeated or reordered, and a durable
 configuration is never ahead of the record that installed it.
 */
module ReadyQueue {
  import opened Types

  /** What is durable besides the streams: the current configuration's number, and the logical clock. */
  datatype Hard = Hard(conf: nat, tick: nat)

  /** One batch: the hard state if it changed, and the three streams. */
  datatype Batch<R, M, A> = Batch(hard: Option<Hard>, records: seq<R>, messages: seq<M>, apply: seq<A>) {
    predicate Empty() {
      hard.None? && records == [] && messages == [] && apply == []
    }

    predicate Payload() {
      records != [] || messages != [] || apply != []
    }
  }

  function NoWork<R, M, A>(): Batch<R, M, A> {
    Batch(None, [], [], [])
  }

  /** The record installs a configuration above low and up to high; installs is 0 for a record that installs none. */
  predicate Between<R>(installs: R -> nat, r: R, low: nat, high: nat) {
    low < installs(r) <= high
  }

  /** The shortest prefix of the records that holds all that install a configuration above low and up to high. */
  function Needed<R>(installs: R -> nat, records: seq<R>, low: nat, high: nat): (k: nat)
    ensures k <= |records|
    ensures forall i | k <= i < |records| :: !Between(installs, records[i], low, high)
    ensures k > 0 ==> Between(installs, records[k - 1], low, high)
  {
    if records == [] then 0
    else if Between(installs, records[|records| - 1], low, high) then |records|
    else Needed(installs, records[..|records| - 1], low, high)
  }

  lemma NeededIs<R>(installs: R -> nat, records: seq<R>, low: nat, high: nat, k: nat)
    requires k <= |records| && (forall i | k <= i < |records| :: !Between(installs, records[i], low, high))
    requires k > 0 ==> Between(installs, records[k - 1], low, high)
    ensures k == Needed(installs, records, low, high)
  {
  }

  /** The loop of validateReadyAck over the frozen records. */
  method RequiredRecords<R>(installs: R -> nat, records: seq<R>, low: nat, high: nat) returns (k: nat)
    ensures k == Needed(installs, records, low, high)
  {
    k := 0;
    for i := 0 to |records|
      invariant k <= i && (k > 0 ==> Between(installs, records[k - 1], low, high))
      invariant forall j | k <= j < i :: !Between(installs, records[j], low, high)
    {
      if Between(installs, records[i], low, high) {
        k := i + 1;
      }
    }
    NeededIs(installs, records, low, high, k);
  }

  predicate AcknowledgesStreams<R(==), M(==), A(==)>(rd: Batch<R, M, A>, frozen: Batch<R, M, A>) {
    && !rd.Empty()
    && (if rd.hard.Some? then rd.hard == frozen.hard else frozen.hard.None? || !rd.Payload())
    && rd.records <= frozen.records && rd.messages <= frozen.messages && rd.apply <= frozen.apply
    && (rd.messages != [] || rd.apply != [] ==> rd.records == frozen.records)
  }

  /**
   validateReadyAck: a prefix of the frozen batch, the hard state first, every record with any message
   or apply, and with a later configuration the records that installed it.
   */
  predicate Acknowledges<R(==), M(==),
      A(==)>(rd: Batch<R, M, A>, frozen: Batch<R, M, A>, installs: R -> nat, durable: Hard) {
    && AcknowledgesStreams(rd, frozen)
    && (rd.hard.Some? && rd.hard.value.conf > durable.conf ==>
          |rd.records| >= Needed(installs, frozen.records, durable.conf, rd.hard.value.conf))
  }

  ghost predicate LaterAt<R>(installs: R -> nat, records: seq<R>, from: nat, conf: nat, i: int) {
    from <= i < |records| ==> installs(records[i]) == 0 || installs(records[i]) > conf
  }

  /** From the given position on, records install only configurations later than conf. */
  ghost predicate Later<R>(installs: R -> nat, records: seq<R>, from: nat, conf: nat) {
    forall i :: LaterAt(installs, records, from, conf, i)
  }

  lemma LaterQueued<R>(installs: R -> nat, records: seq<R>, from: nat, conf: nat, r: R)
    requires Later(installs, records, from, conf) && (installs(r) == 0 || installs(r) > conf)
    ensures Later(installs, records + [r], from, conf)
  {
    forall i
      ensures LaterAt(installs, records + [r], from, conf, i)
    {
      assert LaterAt(installs, records, from, conf, i);
    }
  }

  lemma LaterFrom<R>(installs: R -> nat, records: seq<R>, from: nat, conf: nat, to: nat)
    requires Later(installs, records, from, conf) && from <= to
    ensures Later(installs, records, to, conf)
  {
    forall i
      ensures LaterAt(installs, records, to, conf, i)
    {
      assert LaterAt(installs, records, from, conf, i);
    }
  }

  /** Acknowledging the needed prefix of the frozen records leaves only later configurations behind. */
  lemma LaterAcknowledged<R>(
    installs: R -> nat, acked: seq<R>, frozen: seq<R>, rest: seq<R>, k: nat, low: nat, high: nat)
    requires Needed(installs, frozen, low, high) <= k <= |frozen|
    requires Later(installs, acked + frozen + rest, |acked|, low)
    requires Later(installs, acked + frozen + rest, |acked| + |frozen|, high)
    ensures Later(installs, acked + frozen + rest, |acked| + k, high)
  {
    var records, from := acked + frozen + rest, |acked| + k;
    forall i
      ensures LaterAt(installs, records, from, high, i)
    {
      assert LaterAt(installs, records, |acked|, low, i) && LaterAt(installs, records, |acked| + |frozen|, high, i);
      if from <= i < |acked| + |frozen| {
        assert !Between(installs, frozen[i - |acked|], low, high);
      }
    }
  }

  /** consumeReadyPrefix for every stream of the batch. */
  function Consumed<R, M, A>(rd: Batch<R, M, A>, frozen: Batch<R, M, A>): Batch<R, M, A>
    requires |rd.records| <= |frozen.records| && |rd.messages| <= |frozen.messages| && |rd.apply| <= |frozen.apply|
  {
    Batch(if rd.hard.Some? then None else frozen.hard,
          frozen.records[|rd.records|..], frozen.messages[|rd.messages|..], frozen.apply[|rd.apply|..])
  }

  /** Each entry of a stream with the number of records queued before it. */
  ghost predicate BehindAt(before: seq<nat>, k: nat, bound: nat, i: int) {
    0 <= i < k <= |before| ==> before[i] <= bound
  }

  /** The first k entries of the stream wait for at most bound records. */
  ghost predicate Behind(before: seq<nat>, k: nat, bound: nat) {
    forall i :: BehindAt(before, k, bound, i)
  }

  lemma BehindMore(before: seq<nat>, k: nat, bound: nat, j: nat, higher: nat)
    requires Behind(before, k, bound) && j <= k <= |before| && bound <= higher
    ensures Behind(before, j, higher)
  {
    forall i
      ensures BehindAt(before, j, higher, i)
    {
      assert BehindAt(before, k, bound, i);
    }
  }

  lemma BehindExtend(before: seq<nat>, x: nat, k: nat, bound: nat)
    requires Behind(before, k, bound) && k <= |before|
    ensures Behind(before + [x], k, bound)
    ensures k == |before| && x <= bound ==> Behind(before + [x], k + 1, bound)
  {
    var more, next := before + [x], k + 1;
    forall i
      ensures BehindAt(more, k, bound, i) && (k == |before| && x <= bound ==> BehindAt(more, next, bound, i))
    {
      assert BehindAt(before, k, bound, i);
    }
  }

  /** How far the stream and the records have come: acknowledged, with the frozen and pending batches, and in all. */
  ghost predicate Ordered(before: seq<nat>, acked: nat, batched: nat, ackedRecords: nat, batchedRecords: nat,
                          records: nat) {
    && acked <= batched <= |before| && ackedRecords <= batchedRecords <= records
    && Behind(before, acked, ackedRecords) && Behind(before, batched, batchedRecords)
    && Behind(before, |before|, records)
  }

  /** More records queued, in the batches or behind them. */
  lemma MoreRecords(before: seq<nat>, acked: nat, batched: nat, ackedRecords: nat, batchedRecords: nat, records: nat,
                    b: nat, r: nat)
    requires Ordered(before, acked, batched, ackedRecords, batchedRecords, records) && batchedRecords <= b <= r
             && records <= r
    ensures Ordered(before, acked, batched, ackedRecords, b, r)
  {
    BehindMore(before, batched, batchedRecords, batched, b);
    BehindMore(before, |before|, records, |before|, r);
  }

  /** One more entry, in the batches when they hold everything, behind them otherwise. */
  lemma MoreEntries(before: seq<nat>, acked: nat, batched: nat, ackedRecords: nat, batchedRecords: nat, records: nat)
    requires Ordered(before, acked, batched, ackedRecords, batchedRecords, records)
    ensures Ordered(before + [records], acked, batched, ackedRecords, batchedRecords, records)
    ensures batched == |before| && batchedRecords == records ==>
              Ordered(before + [records], acked, batched + 1, ackedRecords, batchedRecords, records)
  {
    BehindExtend(before, records, acked, ackedRecords);
    BehindExtend(before, records, batched, batchedRecords);
    BehindExtend(before, records, |before|, records);
  }

  /** Acknowledging records, and entries only once all the batched records are acknowledged. */
  lemma MoreAcknowledged(before: seq<nat>, acked: nat, batched: nat, ackedRecords: nat, batchedRecords: nat,
                         records: nat, a: nat, ar: nat)
    requires Ordered(before, acked, batched, ackedRecords, batchedRecords, records)
    requires acked <= a <= batched && ackedRecords <= ar <= batchedRecords && (a > acked ==> ar == batchedRecords)
    ensures Ordered(before, a, batched, ar, batchedRecords, records)
  {
    if a > acked {
      BehindMore(before, batched, batchedRecords, a, ar);
    } else {
      BehindMore(before, acked, ackedRecords, acked, ar);
    }
  }

  /** A prefix moves from the frozen part of a stream to the acknowledged part. */
  lemma Shifts<T>(acked: seq<T>, prefix: seq<T>, frozen: seq<T>, pending: seq<T>, next: seq<T>)
    requires prefix <= frozen
    ensures acked + frozen + pending + next == (acked + prefix) + frozen[|prefix|..] + pending + next
  {
    assert frozen == prefix + frozen[|prefix|..];
    assert acked + (prefix + frozen[|prefix|..]) == (acked + prefix) + frozen[|prefix|..];
  }

  /** All of the messages, or the first limit of them when a limit is set and exceeded. */
  function FirstMessages<M>(messages: seq<M>, limit: nat): (r: seq<M>)
    ensures r <= messages && (limit > 0 ==> |r| <= limit)
    ensures limit == 0 || |messages| <= limit || |r| == limit
    ensures |r| < limit || limit == 0 ==> r == messages
  {
    if limit == 0 || |messages| <= limit then messages else messages[..limit]
  }

  /** The whole frozen batch may always be acknowledged. */
  lemma WholeAcknowledges<R, M, A>(frozen: Batch<R, M, A>, installs: R -> nat, durable: Hard)
    requires !frozen.Empty()
    ensures Acknowledges(frozen, frozen, installs, durable)
  {
  }

  /** rd is the hard state, if there is one, and i records, j messages and k applies of the frozen batch. */
  ghost predicate AnswersWith<R(!new), M, A>(
    rd: Batch<R, M, A>, frozen: Batch<R, M, A>, installs: R -> nat, durable: Hard, i: nat, j: nat, k: nat)
  {
    && i <= |frozen.records| && j <= |frozen.messages| && k <= |frozen.apply|
    && rd == Batch(frozen.hard, frozen.records[..i], frozen.messages[..j], frozen.apply[..k])
    && (i > 0 || j > 0 || k > 0 || frozen.hard.Some?) && (j > 0 || k > 0 ==> i == |frozen.records|)
    && (frozen.hard.Some? ==> forall n | i <= n < |frozen.records| ::
          !(durable.conf < installs(frozen.records[n]) <= frozen.hard.value.conf))
  }

  /**
   Exactly these are acknowledged: the hard state, if there is one, first; any prefix of the records
   that holds those its configuration needs; and with all records any prefixes of the messages and
   applies. Something must be acknowledged.
   */
  lemma AcknowledgedExactly<R(!new), M,
      A>(rd: Batch<R, M, A>, frozen: Batch<R, M, A>, installs: R -> nat, durable: Hard)
    ensures Acknowledges(rd, frozen, installs, durable) <==>
            exists i: nat, j: nat, k: nat :: AnswersWith(rd, frozen, installs, durable, i, j, k)
  {
    if Acknowledges(rd, frozen, installs, durable) {
      var i, j, k := |rd.records|, |rd.messages|, |rd.apply|;
      if frozen.hard.Some? {
        var low, high := durable.conf, frozen.hard.value.conf;
        var needed := Needed(installs, frozen.records, low, high);
        assert forall n | needed <= n < |frozen.records| :: !Between(installs, frozen.records[n], low, high);
      }
      assert AnswersWith(rd, frozen, installs, durable, i, j, k);
    }
    if i: nat, j: nat, k: nat :| AnswersWith(rd, frozen, installs, durable, i, j, k) {
      if frozen.hard.Some? {
        var low, high := durable.conf, frozen.hard.value.conf;
        var needed := Needed(installs, frozen.records, low, high);
        assert needed > 0 ==> Between(installs, frozen.records[needed - 1], low, high);
      }
    }
  }

  class Queues<R(==), M(==), A(==)> {
    const maxMessages: nat
    const installs: R -> nat
    var pending: Batch<R, M, A>
    var frozen: Batch<R, M, A>
    var next: Batch<R, M, A>
    var awaiting: bool
    var current: Hard
    var acknowledged: Hard

    // Everything ever queued and everything acknowledged, stream by stream.
    ghost var records: seq<R>
    ghost var messages: seq<M>
    ghost var apply: seq<A>
    ghost var ackedRecords: seq<R>
    ghost var ackedMessages: seq<M>
    ghost var ackedApply: seq<A>
    // For each message and apply, how many records were queued before it.
    ghost var messageBefore: seq<nat>
    ghost var applyBefore: seq<nat>

    /** Acknowledged, frozen, pending and next work is exactly what was queued, in order. */
    ghost predicate Conserved()
      reads this
    {
      && records == ackedRecords + frozen.records + pending.records + next.records
      && messages == ackedMessages + frozen.messages + pending.messages + next.messages
      && apply == ackedApply + frozen.apply + pending.apply + next.apply
    }

    /** No message or apply is acknowledged ahead of a record queued before it. */
    ghost predicate InOrder()
      reads this
    {
      && |messageBefore| == |messages| && |applyBefore| == |apply|
      && Ordered(messageBefore, |ackedMessages|, |ackedMessages| + |frozen.messages| + |pending.messages|,
                 |ackedRecords|, |ackedRecords| + |frozen.records| + |pending.records|, |records|)
      && Ordered(applyBefore, |ackedApply|, |ackedApply| + |frozen.apply| + |pending.apply|,
                 |ackedRecords|, |ackedRecords| + |frozen.records| + |pending.records|, |records|)
    }

    /** Every queued record that installs the durable configuration, or one before it, is acknowledged. */
    ghost predicate Installed()
      reads this
    {
      && acknowledged.conf <= current.conf && Later(installs, records, |ackedRecords|, acknowledged.conf)
      && (frozen.hard.Some? ==>
            && acknowledged.conf <= frozen.hard.value.conf <= current.conf
            && Later(installs, records, |ackedRecords| + |frozen.records|, frozen.hard.value.conf))
    }

    ghost predicate Valid()
      reads this
    {
      && Conserved() && InOrder() && Installed()
      && pending.hard.None? && next.hard.None?
      && (if awaiting then !frozen.Empty() && pending.records == [] && pending.apply == []
          else frozen.Empty() && next.Empty())
    }

    constructor (limit: nat, hard: Hard, installs: R -> nat)
      ensures this.installs == installs && current == acknowledged == hard
      ensures Valid() && !awaiting && records == [] && messages == [] && apply == []
    {
      maxMessages, this.installs := limit, installs;
      pending, frozen, next := NoWork(), NoWork(), NoWork();
      awaiting, current, acknowledged := false, hard, hard;
      records, messages, apply := [], [], [];
      ackedRecords, ackedMessages, ackedApply := [], [], [];
      messageBefore, applyBefore := [], [];
    }

    /** The clock. */
    method SetTick(tick: nat)
      requires Valid()
      modifies this`current
      ensures Valid() && current == old(current).(tick := tick)
    {
      current := current.(tick := tick);
    }

    /** enqueueRecord; executing a configuration change makes its successor current and queues the record. */
    method EnqueueRecord(r: R)
      requires Valid() && (installs(r) == 0 || installs(r) > current.conf)
      modifies this
      ensures Valid() && records == old(records) + [r] && messages == old(messages) && apply == old(apply)
      ensures ackedRecords == old(ackedRecords) && ackedMessages == old(ackedMessages) && ackedApply == old(ackedApply)
      ensures frozen == old(frozen) && awaiting == old(awaiting) && acknowledged == old(acknowledged)
      ensures current == if installs(r) == 0 then old(current) else old(current).(conf := installs(r))
      ensures messageBefore == old(messageBefore) && applyBefore == old(applyBefore)
    {
      KeepsQueued(r, if awaiting then 0 else 1);
      if awaiting {
        next := next.(records := next.records + [r]);
      } else {
        pending := pending.(records := pending.records + [r]);
      }
      records := records + [r];
      if installs(r) != 0 {
        current := current.(conf := installs(r));
      }
    }

    /** A record joins the batches or, when more is 0, waits behind them. */
    lemma KeepsQueued(r: R, more: nat)
      requires Conserved() && InOrder() && Installed() && (installs(r) == 0 || installs(r) > current.conf) && more <= 1
      ensures Later(installs, records + [r], |ackedRecords|, acknowledged.conf)
      ensures frozen.hard.Some? ==>
                Later(installs, records + [r], |ackedRecords| + |frozen.records|, frozen.hard.value.conf)
      ensures Ordered(messageBefore, |ackedMessages|, |ackedMessages| + |frozen.messages| + |pending.messages|,
                      |ackedRecords|, |ackedRecords| + |frozen.records| + |pending.records| + more, |records| + 1)
      ensures Ordered(applyBefore, |ackedApply|, |ackedApply| + |frozen.apply| + |pending.apply|,
                      |ackedRecords|, |ackedRecords| + |frozen.records| + |pending.records| + more, |records| + 1)
    {
      var br := |ackedRecords| + |frozen.records| + |pending.records|;
      MoreRecords(messageBefore, |ackedMessages|, |ackedMessages| + |frozen.messages| + |pending.messages|,
                  |ackedRecords|, br, |records|, br + more, |records| + 1);
      MoreRecords(applyBefore, |ackedApply|, |ackedApply| + |frozen.apply| + |pending.apply|,
                  |ackedRecords|, br, |records|, br + more, |records| + 1);
      LaterQueued(installs, records, |ackedRecords|, acknowledged.conf, r);
      if frozen.hard.Some? {
        LaterQueued(installs, records, |ackedRecords| + |frozen.records|, frozen.hard.value.conf, r);
      }
    }

    /** enqueueMessage. */
    method EnqueueMessage(m: M)
      requires Valid()
      modifies this
      ensures Valid() && messages == old(messages) + [m] && records == old(records) && apply == old(apply)
      ensures ackedRecords == old(ackedRecords) && ackedMessages == old(ackedMessages) && ackedApply == old(ackedApply)
      ensures frozen == old(frozen) && awaiting == old(awaiting) && acknowledged == old(acknowledged)
              && current == old(current)
      ensures messageBefore == old(messageBefore) + [|records|] && applyBefore == old(applyBefore)
    {
      MoreEntries(messageBefore, |ackedMessages|, |ackedMessages| + |frozen.messages| + |pending.messages|,
                  |ackedRecords|, |ackedRecords| + |frozen.records| + |pending.records|, |records|);
      if awaiting {
        next := next.(messages := next.messages + [m]);
      } else {
        pending := pending.(messages := pending.messages + [m]);
      }
      messages := messages + [m];
      messageBefore := messageBefore + [|records|];
    }

    /** enqueueApply. */
    method EnqueueApply(a: A)
      requires Valid()
      modifies this
      ensures Valid() && apply == old(apply) + [a] && records == old(records) && messages == old(messages)
      ensures ackedRecords == old(ackedRecords) && ackedMessages == old(ackedMessages) && ackedApply == old(ackedApply)
      ensures frozen == old(frozen) && awaiting == old(awaiting) && acknowledged == old(acknowledged)
              && current == old(current)
      ensures applyBefore == old(applyBefore) + [|records|] && messageBefore == old(messageBefore)
    {
      MoreEntries(applyBefore, |ackedApply|, |ackedApply| + |frozen.apply| + |pending.apply|,
                  |ackedRecords|, |ackedRecords| + |frozen.records| + |pending.records|, |records|);
      if awaiting {
        next := next.(apply := next.apply + [a]);
      } else {
        pending := pending.(apply := pending.apply + [a]);
      }
      apply := apply + [a];
      applyBefore := applyBefore + [|records|];
    }

    /** ReadyInto: freeze the pending work unless a batch is still out. */
    method Ready() returns (rd: Batch<R, M, A>)
      requires Valid()
      modifies this
      ensures Valid() && rd == frozen
      ensures records == old(records) && messages == old(messages) && apply == old(apply)
      ensures ackedRecords == old(ackedRecords) && ackedMessages == old(ackedMessages) && ackedApply == old(ackedApply)
      ensures current == old(current) && acknowledged == old(acknowledged)
      ensures old(awaiting) ==> frozen == old(frozen) && pending == old(pending) && next == old(next) && awaiting
      ensures awaiting <==> old(awaiting) || !old(pending).Empty() || current != acknowledged
      ensures !awaiting ==> frozen == old(frozen) && pending == old(pending) && next == old(next)
      ensures awaiting && !old(awaiting) ==>
                && next == old(next) && rd.hard == (if current == acknowledged then None else Some(current))
                && rd.records == old(pending).records && rd.apply == old(pending).apply
                && rd.messages == FirstMessages(old(pending).messages, maxMessages)
      ensures messageBefore == old(messageBefore) && applyBefore == old(applyBefore)
    {
      if !awaiting {
        if pending.Empty() && current == acknowledged {
          return frozen;
        }
        Freeze();
      }
      rd := frozen;
    }

    /** freezeReady: a long message stream is split. */
    method Freeze()
      requires Valid() && !awaiting && !(pending.Empty() && current == acknowledged)
      modifies this`pending, this`frozen, this`awaiting
      ensures Valid() && awaiting && frozen.hard == if current == acknowledged then None else Some(current)
      ensures frozen.records == old(pending).records && frozen.apply == old(pending).apply
      ensures frozen.messages == FirstMessages(old(pending).messages, maxMessages)
    {
      var hard := if current == acknowledged then None else Some(current);
      if 0 < maxMessages < |pending.messages| {
        frozen := pending.(hard := hard, messages := pending.messages[..maxMessages]);
        pending := NoWork().(messages := pending.messages[maxMessages..]);
        assert old(pending).messages == frozen.messages + pending.messages;
      } else {
        frozen := pending.(hard := hard);
        pending := NoWork();
      }
      awaiting := true;
    }

    /** Advance: a refused acknowledgement changes nothing; executed are the records of the applied commands. */
    method Advance(rd: Batch<R, M, A>, executed: seq<R>) returns (ok: bool)
      requires Valid() && forall r <- executed :: installs(r) == 0
      modifies this
      ensures Valid() && (ok <==> if old(awaiting) then Acknowledges(rd, old(frozen), installs, old(acknowledged))
                          else rd.Empty())
      ensures !ok || !old(awaiting) ==>
                && pending == old(pending) && frozen == old(frozen) && next == old(next) && awaiting == old(awaiting)
                && acknowledged == old(acknowledged) && current == old(current) && records == old(records)
                && ackedRecords == old(ackedRecords) && ackedMessages == old(ackedMessages)
                && ackedApply == old(ackedApply)
      ensures ok && old(awaiting) ==>
                && ackedRecords == old(ackedRecords) + rd.records && ackedMessages == old(ackedMessages) + rd.messages
                && ackedApply == old(ackedApply) + rd.apply && records == old(records) + executed
                && (awaiting <==> !Consumed(rd, old(frozen)).Empty())
                && acknowledged == (if rd.hard.Some? then rd.hard.value else old(acknowledged))
                && current == old(current)
      ensures messages == old(messages) && apply == old(apply)
      ensures messageBefore == old(messageBefore) && applyBefore == old(applyBefore)
    {
      if !awaiting {
        return rd.Empty();
      }
      ok := ValidateAck(rd);
      if !ok {
        return;
      }
      Acknowledge(rd);
      QueueExecuted(executed);
      if frozen.Empty() {
        MergeNext();
      }
    }

    /** validateReadyAck. */
    method ValidateAck(rd: Batch<R, M, A>) returns (ok: bool)
      ensures ok == Acknowledges(rd, frozen, installs, acknowledged)
    {
      var required := 0;
      if rd.hard.Some? && rd.hard.value.conf > acknowledged.conf {
        required := RequiredRecords(installs, frozen.records, acknowledged.conf, rd.hard.value.conf);
      }
      ok := |rd.records| >= required && AcknowledgesStreams(rd, frozen);
    }

    lemma KeepsInstalled(rd: Batch<R, M, A>)
      requires Valid() && Acknowledges(rd, frozen, installs, acknowledged)
      ensures Later(installs, records, |ackedRecords| + |rd.records|, if rd.hard.Some? then rd.hard.value.conf
                    else acknowledged.conf)
    {
      LaterFrom(installs, records, |ackedRecords|, acknowledged.conf, |ackedRecords| + |rd.records|);
      if rd.hard.Some? && rd.hard.value.conf > acknowledged.conf {
        var rest := pending.records + next.records;
        assert records == ackedRecords + frozen.records + rest;
        LaterAcknowledged(installs, ackedRecords, frozen.records, rest, |rd.records|, acknowledged.conf,
                          rd.hard.value.conf);
      }
    }

    lemma KeepsOrdered(rd: Batch<R, M, A>)
      requires Valid() && AcknowledgesStreams(rd, frozen) && pending.records == []
      ensures Ordered(messageBefore, |ackedMessages| + |rd.messages|,
                      |ackedMessages| + |frozen.messages| + |pending.messages|,
                      |ackedRecords| + |rd.records|, |ackedRecords| + |frozen.records| + |pending.records|, |records|)
      ensures Ordered(applyBefore, |ackedApply| + |rd.apply|, |ackedApply| + |frozen.apply| + |pending.apply|,
                      |ackedRecords| + |rd.records|, |ackedRecords| + |frozen.records| + |pending.records|, |records|)
    {
      var br := |ackedRecords| + |frozen.records| + |pending.records|;
      MoreAcknowledged(messageBefore, |ackedMessages|, |ackedMessages| + |frozen.messages| + |pending.messages|,
                       |ackedRecords|, br, |records|, |ackedMessages| + |rd.messages|, |ackedRecords| + |rd.records|);
      MoreAcknowledged(applyBefore, |ackedApply|, |ackedApply| + |frozen.apply| + |pending.apply|,
                       |ackedRecords|, br, |records|, |ackedApply| + |rd.apply|, |ackedRecords| + |rd.records|);
    }

    lemma KeepsStreams(rd: Batch<R, M, A>)
      requires Conserved() && AcknowledgesStreams(rd, frozen)
      ensures var rest := Consumed(rd, frozen);
              && records == (ackedRecords + rd.records) + rest.records + pending.records + next.records
              && messages == (ackedMessages + rd.messages) + rest.messages + pending.messages + next.messages
              && apply == (ackedApply + rd.apply) + rest.apply + pending.apply + next.apply
    {
      Shifts(ackedRecords, rd.records, frozen.records, pending.records, next.records);
      Shifts(ackedMessages, rd.messages, frozen.messages, pending.messages, next.messages);
      Shifts(ackedApply, rd.apply, frozen.apply, pending.apply, next.apply);
    }

    /** The state change of an accepted acknowledgement. */
    method Acknowledge(rd: Batch<R, M, A>)
      requires Valid() && awaiting && Acknowledges(rd, frozen, installs, acknowledged)
      modifies this
      ensures acknowledged == (if rd.hard.Some? then rd.hard.value else old(acknowledged)) && current == old(current)
      ensures Conserved() && InOrder() && Installed() && awaiting && frozen == Consumed(rd, old(frozen))
              && pending == old(pending) && next == old(next)
      ensures records == old(records) && messages == old(messages) && apply == old(apply)
      ensures ackedRecords == old(ackedRecords) + rd.records && ackedMessages == old(ackedMessages) + rd.messages
      ensures ackedApply == old(ackedApply) + rd.apply
      ensures messageBefore == old(messageBefore) && applyBefore == old(applyBefore)
    {
      KeepsInstalled(rd);
      KeepsOrdered(rd);
      KeepsStreams(rd);
      if rd.hard.Some? {
        acknowledged := rd.hard.value;
      }
      frozen := Consumed(rd, frozen);
      ackedRecords, ackedMessages, ackedApply := ackedRecords + rd.records, ackedMessages + rd.messages,
          ackedApply + rd.apply;
    }

    /** A record queued while the batch is still out. */
    method Behindhand(r: R)
      requires Conserved() && InOrder() && Installed() && awaiting && installs(r) == 0
      modifies this
      ensures acknowledged == old(acknowledged) && current == old(current)
      ensures Conserved() && InOrder() && Installed() && awaiting && frozen == old(frozen) && pending == old(pending)
              && next.hard == old(next.hard)
      ensures records == old(records) + [r] && messages == old(messages) && apply == old(apply)
      ensures ackedRecords == old(ackedRecords) && ackedMessages == old(ackedMessages) && ackedApply == old(ackedApply)
      ensures messageBefore == old(messageBefore) && applyBefore == old(applyBefore)
    {
      KeepsQueued(r, 0);
      next := next.(records := next.records + [r]);
      records := records + [r];
    }

    /** enqueueExecutedRecords, while the batch is still out. */
    method QueueExecuted(executed: seq<R>)
      requires Conserved() && InOrder() && Installed() && awaiting && forall r <- executed :: installs(r) == 0
      modifies this
      ensures acknowledged == old(acknowledged) && current == old(current)
      ensures Conserved() && InOrder() && Installed() && awaiting && frozen == old(frozen) && pending == old(pending)
              && next.hard == old(next.hard)
      ensures records == old(records) + executed && messages == old(messages) && apply == old(apply)
      ensures ackedRecords == old(ackedRecords) && ackedMessages == old(ackedMessages) && ackedApply == old(ackedApply)
      ensures messageBefore == old(messageBefore) && applyBefore == old(applyBefore)
    {
      for k := 0 to |executed|
        invariant acknowledged == old(acknowledged) && current == old(current)
        invariant Conserved() && InOrder() && Installed() && awaiting && frozen == old(frozen)
                  && pending == old(pending)
        invariant next.hard == old(next.hard) && records == old(records) + executed[..k]
        invariant ackedRecords == old(ackedRecords) && ackedMessages == old(ackedMessages)
                  && ackedApply == old(ackedApply)
        invariant messages == old(messages) && apply == old(apply)
        invariant messageBefore == old(messageBefore) && applyBefore == old(applyBefore)
      {
        Behindhand(executed[k]);
        assert executed[..k + 1] == executed[..k] + [executed[k]];
      }
      assert executed[..|executed|] == executed;
    }

    /** mergeNextReady. */
    method MergeNext()
      requires Conserved() && InOrder() && Installed() && awaiting && frozen.Empty() && pending.hard.None?
               && next.hard.None?
      requires pending.records == [] && pending.apply == []
      modifies this
      ensures acknowledged == old(acknowledged) && current == old(current)
      ensures Valid() && !awaiting && records == old(records) && messages == old(messages) && apply == old(apply)
      ensures ackedRecords == old(ackedRecords) && ackedMessages == old(ackedMessages) && ackedApply == old(ackedApply)
      ensures messageBefore == old(messageBefore) && applyBefore == old(applyBefore)
    {
      awaiting := false;
      pending := Batch(None, pending.records + next.records, pending.messages + next.messages,
                       pending.apply + next.apply);
      next := NoWork();
    }

    /** HasReady. */
    predicate HasReady()
      reads this
    {
      awaiting || !pending.Empty() || current != acknowledged
    }

    /** What is left to hand out and acknowledge. */
    ghost function Work(): nat
      requires Conserved()
      reads this
    {
      |records| - |ackedRecords| + |messages| - |ackedMessages| + |apply| - |ackedApply|
      + (if frozen.hard.Some? then 1 else 0)
      + (if (if frozen.hard.Some? then frozen.hard.value else acknowledged) != current then 2 else 0)
    }

    /** Every round of Ready and Advance gets on, so the embedder's loop hands out and acknowledges everything. */
    method Drain()
      requires Valid()
      modifies this
      ensures Valid() && !HasReady() && acknowledged == current && current == old(current)
      ensures records == old(records) && messages == old(messages) && apply == old(apply)
      ensures ackedRecords == records && ackedMessages == messages && ackedApply == apply
    {
      while HasReady()
        invariant Valid() && current == old(current)
        invariant records == old(records) && messages == old(messages) && apply == old(apply)
        decreases Work()
      {
        Round();
      }
    }

    method Round()
      requires Valid() && HasReady()
      modifies this
      ensures Valid() && current == old(current) && Work() < old(Work())
      ensures records == old(records) && messages == old(messages) && apply == old(apply)
    {
      var rd := Ready();
      WholeAcknowledges(rd, installs, acknowledged);
      var ok := Advance(rd, []);
    }
  }
}
