/** The message codec: encoding and decoding are inverse, and the pre-scan accepts exactly what decoding accepts. */
module Codec {
  import opened Types
  import opened ByteOrder
  import opened Wire
  import F = Footprint

  const MAX_DEPS := 128
  const MAX_EVIDENCE := 128
  const MAX_PAYLOAD := 0x10_0000
  const MAX_CONTROL := 0x10_0000
  const MAX_POINTS := 128
  const MAX_SPANS := 128
  const MAX_FOOTPRINT := 0x10_0000
  const MAX_CYCLE_KEY := 0x1_0000

  datatype Command = Command(client: U64, sequence: U64, payload: Bytes, footprint: F.Footprint, cycleKey: Bytes)

  predicate CommandEmpty(c: Command) {
    c.client == 0 && c.sequence == 0 && c.payload == [] && c.footprint == F.Footprint([], [], false) && c.cycleKey == []
  }

  function Ends(spans: seq<F.Span>): seq<Bytes> {
    if spans == [] then [] else [spans[0].start, spans[0].end] + Ends(spans[1..])
  }

  function SpansOf(ends: seq<Bytes>): seq<F.Span> {
    if |ends| < 2 then [] else [F.Span(ends[0], ends[1])] + SpansOf(ends[2..])
  }

  lemma {:induction false} EndsBack(spans: seq<F.Span>)
    ensures SpansOf(Ends(spans)) == spans && |Ends(spans)| == 2 * |spans|
    ensures forall x :: x in Ends(spans) <==> exists s <- spans :: x == s.start || x == s.end
  {
    if spans != [] {
      EndsBack(spans[1..]);
      assert Ends(spans)[2..] == Ends(spans[1..]);
      assert spans == [spans[0]] + spans[1..];
    }
  }

  /** appendCommand. */
  function EncodeCommand(c: Command): Bytes {
    Numbers([c.client, c.sequence]) + (Blob(c.payload) + (Flag(c.footprint.all) + EncodeFootprintTail(c)))
  }

  /** The footprint's own limits, which only the decoder checks. */
  predicate FootprintFits(f: F.Footprint) {
    |f.points| <= MAX_POINTS && |f.spans| <= MAX_SPANS
        && F.TotalPoints(f.points) + F.TotalSpans(f.spans) <= MAX_FOOTPRINT
  }

  /** parser.command. */
  ghost function TakeCommand(b: Bytes): Parsed<Command> {
    var ids :- TakeNumbers(b, 2);
    var payload :- TakeBlob(ids.1, MAX_PAYLOAD);
    var all :- TakeFlag(payload.1);
    TakeFootprintTail(all.1, ids.0, payload.0, all.0)
  }

  /** Lengths are machine integers. */
  ghost predicate Sized(c: Command) {
    && |c.payload| < TWO_64 && |c.cycleKey| < TWO_64 && |c.footprint.points| < TWO_64 && |c.footprint.spans| < TWO_64
    && (forall p <- c.footprint.points :: |p| < TWO_64)
    && forall s <- c.footprint.spans :: |s.start| < TWO_64 && |s.end| < TWO_64
  }

  /** What EncodeMessage requires of the command. */
  ghost predicate CommandEncodes(c: Command) {
    Sized(c) && |c.payload| <= MAX_PAYLOAD && |c.cycleKey| <= MAX_CYCLE_KEY
        && (CommandEmpty(c) || F.Canonical(c.footprint))
  }

  lemma {:induction false} PointWithinTotal(points: seq<Bytes>, p: Bytes)
    requires p in points
    ensures |p| <= F.TotalPoints(points)
  {
    if p != points[|points| - 1] {
      PointWithinTotal(points[..|points| - 1], p);
    }
  }

  lemma {:induction false} EndsWithinTotal(spans: seq<F.Span>, s: F.Span)
    requires s in spans
    ensures |s.start| + |s.end| <= F.TotalSpans(spans)
  {
    if s != spans[|spans| - 1] {
      EndsWithinTotal(spans[..|spans| - 1], s);
    }
  }

  /** Entries within the footprint limit are within the per-entry limit. */
  lemma FitsEntries(f: F.Footprint)
    ensures FootprintFits(f) ==>
              (forall p <- f.points :: |p| <= MAX_FOOTPRINT) && forall x <- Ends(f.spans) :: |x| <= MAX_FOOTPRINT
  {
    EndsBack(f.spans);
    if FootprintFits(f) {
      forall p | p in f.points
        ensures |p| <= MAX_FOOTPRINT
      {
        PointWithinTotal(f.points, p);
      }
      forall x | x in Ends(f.spans)
        ensures |x| <= MAX_FOOTPRINT
      {
        var s :| s in f.spans && (x == s.start || x == s.end);
        EndsWithinTotal(f.spans, s);
      }
    }
  }

  /** The part of the command behind its flag. */
  function EncodeFootprintTail(c: Command): Bytes {
    Uvarint(|c.footprint.points|) + (Blobs(c.footprint.points) + EncodeSpanTail(c))
  }

  ghost function TakeFootprintTail(b: Bytes, ids: seq<U64>, payload: Bytes, all: bool): Parsed<Command>
    requires |ids| == 2
  {
    var pointCount :- TakeUvarint(b);
    if pointCount.0 > MAX_POINTS then Fail
    else
      var points :- TakeBlobs(pointCount.1, pointCount.0, MAX_FOOTPRINT);
      TakeSpanTail(points.1, ids, payload, all, points.0)
  }

  ghost function TakeSpanTail(b: Bytes, ids: seq<U64>, payload: Bytes, all: bool, points: seq<Bytes>): Parsed<Command>
    requires |ids| == 2
  {
    var spanCount :- TakeUvarint(b);
    if spanCount.0 > MAX_SPANS then Fail
    else
      var ends :- TakeBlobs(spanCount.1, 2 * spanCount.0, MAX_FOOTPRINT);
      var f := F.Footprint(points, SpansOf(ends.0), all);
      if F.TotalPoints(f.points) + F.TotalSpans(f.spans) > MAX_FOOTPRINT then Fail
      else
        var key :- TakeBlob(ends.1, MAX_CYCLE_KEY);
        var c := Command(ids[0], ids[1], payload, f, key.0);
        if CommandEmpty(c) || F.Canonical(f) then Done(c, key.1) else Fail
  }

  function EncodeSpanTail(c: Command): Bytes {
    Uvarint(|c.footprint.spans|) + (Blobs(Ends(c.footprint.spans)) + Blob(c.cycleKey))
  }

  /** The bytes the span part leaves to each of its readers. */
  lemma SpanTailBytes(c: Command, rest: Bytes)
    requires Sized(c)
    ensures var blobs := Blobs(Ends(c.footprint.spans)) + (Blob(c.cycleKey) + rest);
            TakeUvarint(EncodeSpanTail(c) + rest) == Done(|c.footprint.spans|, blobs)
  {
    var blobs := Blobs(Ends(c.footprint.spans)) + (Blob(c.cycleKey) + rest);
    assert EncodeSpanTail(c) + rest == Uvarint(|c.footprint.spans|) + blobs;
    UvarintRoundTrip(|c.footprint.spans|, blobs);
  }

  lemma SpanTailRoundTrip(c: Command, rest: Bytes)
    requires CommandEncodes(c) && |c.footprint.points| <= MAX_POINTS
    ensures TakeSpanTail(EncodeSpanTail(c) + rest, [c.client, c.sequence], c.payload, c.footprint.all,
                         c.footprint.points)
         == if FootprintFits(c.footprint) then Done(c, rest) else Fail
  {
    SpanTailBytes(c, rest);
    FitsEntries(c.footprint);
    if |c.footprint.spans| <= MAX_SPANS {
      SpanBlobs(c, rest);
      BlobRoundTrip(c.cycleKey, MAX_CYCLE_KEY, rest);
    }
  }

  lemma SpanBlobs(c: Command, rest: Bytes)
    requires Sized(c)
    ensures var ends := Ends(c.footprint.spans);
            && SpansOf(ends) == c.footprint.spans && |ends| == 2 * |c.footprint.spans|
            && TakeBlobs(Blobs(ends) + (Blob(c.cycleKey) + rest), 2 * |c.footprint.spans|, MAX_FOOTPRINT)
               == if forall x <- ends :: |x| <= MAX_FOOTPRINT then Done(ends, Blob(c.cycleKey) + rest) else Fail
  {
    EndsBack(c.footprint.spans);
    BlobsRoundTrip(Ends(c.footprint.spans), MAX_FOOTPRINT, Blob(c.cycleKey) + rest);
  }

  lemma FootprintTailRoundTrip(c: Command, rest: Bytes)
    requires CommandEncodes(c)
    ensures TakeFootprintTail(EncodeFootprintTail(c) + rest, [c.client, c.sequence], c.payload, c.footprint.all)
         == if FootprintFits(c.footprint) then Done(c, rest) else Fail
  {
    var f := c.footprint;
    var after := EncodeSpanTail(c) + rest;
    var blobs := Blobs(f.points) + after;
    assert EncodeFootprintTail(c) + rest == Uvarint(|f.points|) + blobs;
    UvarintRoundTrip(|f.points|, blobs);
    FitsEntries(f);
    if |f.points| <= MAX_POINTS {
      BlobsRoundTrip(f.points, MAX_FOOTPRINT, after);
      SpanTailRoundTrip(c, rest);
    }
  }

  /** A command is read back exactly when its footprint fits the wire limits. */
  lemma CommandRoundTrip(c: Command, rest: Bytes)
    requires CommandEncodes(c)
    ensures TakeCommand(EncodeCommand(c) + rest) == if FootprintFits(c.footprint) then Done(c, rest) else Fail
  {
    var tail := EncodeFootprintTail(c) + rest;
    var flagged := Flag(c.footprint.all) + tail;
    var blobbed := Blob(c.payload) + flagged;
    assert EncodeCommand(c) + rest == Numbers([c.client, c.sequence]) + blobbed;
    NumbersRoundTrip([c.client, c.sequence], blobbed);
    BlobRoundTrip(c.payload, MAX_PAYLOAD, flagged);
    FlagRoundTrip(c.footprint.all, tail);
    FootprintTailRoundTrip(c, rest);
  }

  // The message, in the four stretches the encoder writes.

  datatype Head = Head(kind: nat, from: U64, to: U64, fromIncarnation: U64, toIncarnation: U64, ref: InstanceRef,
                       processAt: U64,
                       toq: bool, ballot: (U64, U64, U64), recordBallot: (U64, U64, U64), seqNo: U64)

  datatype Evidence = Evidence(sender: U64, seqNo: U64, deps: seq<U64>)

  datatype Order = Order(deps: seq<U64>, acceptSeq: U64, acceptDeps: seq<U64>, evidence: seq<Evidence>,
                         ignore: InstanceRef)

  datatype Value = Value(entry: nat, change: nat, changed: U64, control: Bytes, command: Command)

  datatype Tail = Tail(reject: bool, hint: (U64, U64, U64), reason: nat, conflict: InstanceRef, conflictStatus: nat,
                       eligible: bool, depsCommitted: U64, recordStatus: nat)

  datatype Message = Message(head: Head, order: Order, value: Value, tail: Tail)

  function EncodeHead(h: Head): Bytes {
    Uvarint(h.kind)
    + (Numbers([h.from, h.to, h.fromIncarnation, h.toIncarnation, h.ref.replica, h.ref.inst, h.ref.conf, h.processAt])
    + (Flag(h.toq)
    + Numbers([h.ballot.0, h.ballot.1, h.ballot.2, h.recordBallot.0, h.recordBallot.1, h.recordBallot.2, h.seqNo])))
  }

  function TakeHead(b: Bytes): Parsed<Head> {
    var kind :- TakeSmall(b);
    var a :- TakeNumbers(kind.1, 8);
    var toq :- TakeFlag(a.1);
    var n :- TakeNumbers(toq.1, 7);
    Done(Head(kind.0, a.0[0], a.0[1], a.0[2], a.0[3], InstanceRef(a.0[4], a.0[5], a.0[6]), a.0[7], toq.0,
              (n.0[0], n.0[1], n.0[2]), (n.0[3], n.0[4], n.0[5]), n.0[6]), n.1)
  }

  lemma HeadRoundTrip(h: Head, rest: Bytes)
    requires h.kind < 256
    ensures TakeHead(EncodeHead(h) + rest) == Done(h, rest)
  {
    var ids := [h.from, h.to, h.fromIncarnation, h.toIncarnation, h.ref.replica, h.ref.inst, h.ref.conf, h.processAt];
    var ballots := [h.ballot.0, h.ballot.1, h.ballot.2, h.recordBallot.0, h.recordBallot.1, h.recordBallot.2, h.seqNo];
    var c := Numbers(ballots) + rest;
    var b := Flag(h.toq) + c;
    var a := Numbers(ids) + b;
    assert EncodeHead(h) + rest == Uvarint(h.kind) + a;
    SmallRoundTrip(h.kind, a);
    NumbersRoundTrip(ids, b);
    FlagRoundTrip(h.toq, c);
    NumbersRoundTrip(ballots, rest);
  }

  function EncodeEvidence(es: seq<Evidence>): Bytes {
    if es == [] then []
    else Numbers([es[0].sender, es[0].seqNo]) + (NumberList(es[0].deps) + EncodeEvidence(es[1..]))
  }

  function TakeEvidence(b: Bytes, k: nat): (p: Parsed<seq<Evidence>>)
    ensures p.Done? ==> |p.value| == k
    decreases k
  {
    if k == 0 then Done([], b)
    else
      var ids :- TakeNumbers(b, 2);
      var deps :- TakeNumberList(ids.1, MAX_DEPS);
      var others :- TakeEvidence(deps.1, k - 1);
      Done([Evidence(ids.0[0], ids.0[1], deps.0)] + others.0, others.1)
  }

  lemma {:induction false} EvidenceRoundTrip(es: seq<Evidence>, rest: Bytes)
    requires forall e <- es :: |e.deps| <= MAX_DEPS
    ensures TakeEvidence(EncodeEvidence(es) + rest, |es|) == Done(es, rest)
  {
    if es == [] {
      assert EncodeEvidence(es) + rest == rest;
    } else {
      var c := EncodeEvidence(es[1..]) + rest;
      var b := NumberList(es[0].deps) + c;
      assert EncodeEvidence(es) + rest == Numbers([es[0].sender, es[0].seqNo]) + b;
      NumbersRoundTrip([es[0].sender, es[0].seqNo], b);
      NumberListRoundTrip(es[0].deps, MAX_DEPS, c);
      EvidenceRoundTrip(es[1..], rest);
      assert es == [es[0]] + es[1..];
    }
  }

  function EncodeOrder(o: Order): Bytes {
    NumberList(o.deps) + (Numbers([o.acceptSeq]) + (NumberList(o.acceptDeps) + (Uvarint(|o.evidence|)
    + (EncodeEvidence(o.evidence) + Numbers([o.ignore.replica, o.ignore.inst, o.ignore.conf])))))
  }

  function TakeOrder(b: Bytes): Parsed<Order> {
    var deps :- TakeNumberList(b, MAX_DEPS);
    var accept :- TakeNumbers(deps.1, 1);
    var acceptDeps :- TakeNumberList(accept.1, MAX_DEPS);
    var count :- TakeUvarint(acceptDeps.1);
    if count.0 > MAX_EVIDENCE then Fail
    else
      var evidence :- TakeEvidence(count.1, count.0);
      var ignore :- TakeNumbers(evidence.1, 3);
      Done(Order(deps.0, accept.0[0], acceptDeps.0, evidence.0, InstanceRef(ignore.0[0], ignore.0[1], ignore.0[2])),
           ignore.1)
  }

  ghost predicate OrderFits(o: Order) {
    |o.deps| <= MAX_DEPS && |o.acceptDeps| <= MAX_DEPS && |o.evidence| <= MAX_EVIDENCE && forall e <- o.evidence ::
        |e.deps| <= MAX_DEPS
  }

  lemma OrderRoundTrip(o: Order, rest: Bytes)
    requires OrderFits(o)
    ensures TakeOrder(EncodeOrder(o) + rest) == Done(o, rest)
  {
    var ignore := [o.ignore.replica, o.ignore.inst, o.ignore.conf];
    var e := Numbers(ignore) + rest;
    var d := EncodeEvidence(o.evidence) + e;
    var c := Uvarint(|o.evidence|) + d;
    var b := NumberList(o.acceptDeps) + c;
    var a := Numbers([o.acceptSeq]) + b;
    assert EncodeOrder(o) + rest == NumberList(o.deps) + a;
    NumberListRoundTrip(o.deps, MAX_DEPS, a);
    NumbersRoundTrip([o.acceptSeq], b);
    NumberListRoundTrip(o.acceptDeps, MAX_DEPS, c);
    UvarintRoundTrip(|o.evidence|, d);
    EvidenceRoundTrip(o.evidence, e);
    NumbersRoundTrip(ignore, rest);
  }

  function EncodeValue(v: Value): Bytes {
    Uvarint(v.entry) + (Uvarint(v.change) + (Numbers([v.changed]) + (Blob(v.control) + EncodeCommand(v.command))))
  }

  ghost function TakeValue(b: Bytes): Parsed<Value> {
    var entry :- TakeSmall(b);
    var change :- TakeSmall(entry.1);
    var changed :- TakeNumbers(change.1, 1);
    var control :- TakeBlob(changed.1, MAX_CONTROL);
    var command :- TakeCommand(control.1);
    Done(Value(entry.0, change.0, changed.0[0], control.0, command.0), command.1)
  }

  ghost predicate ValueFits(v: Value) {
    v.entry < 256 && v.change < 256 && |v.control| <= MAX_CONTROL && CommandEncodes(v.command)
  }

  lemma ValueRoundTrip(v: Value, rest: Bytes)
    requires ValueFits(v)
    ensures TakeValue(EncodeValue(v) + rest) == if FootprintFits(v.command.footprint) then Done(v, rest) else Fail
  {
    var d := EncodeCommand(v.command) + rest;
    var c := Blob(v.control) + d;
    var b := Numbers([v.changed]) + c;
    var a := Uvarint(v.change) + b;
    assert EncodeValue(v) + rest == Uvarint(v.entry) + a;
    SmallRoundTrip(v.entry, a);
    SmallRoundTrip(v.change, b);
    NumbersRoundTrip([v.changed], c);
    BlobRoundTrip(v.control, MAX_CONTROL, d);
    CommandRoundTrip(v.command, rest);
  }

  function EncodeRejection(t: Tail): Bytes {
    Flag(t.reject) + (Numbers([t.hint.0, t.hint.1, t.hint.2]) + Uvarint(t.reason))
  }

  function TakeRejection(b: Bytes): Parsed<(bool, (U64, U64, U64), nat)> {
    var reject :- TakeFlag(b);
    var hint :- TakeNumbers(reject.1, 3);
    var reason :- TakeSmall(hint.1);
    Done((reject.0, (hint.0[0], hint.0[1], hint.0[2]), reason.0), reason.1)
  }

  lemma RejectionRoundTrip(t: Tail, rest: Bytes)
    requires t.reason < 256
    ensures TakeRejection(EncodeRejection(t) + rest) == Done((t.reject, t.hint, t.reason), rest)
  {
    var hint := [t.hint.0, t.hint.1, t.hint.2];
    var b := Uvarint(t.reason) + rest;
    var a := Numbers(hint) + b;
    assert EncodeRejection(t) + rest == Flag(t.reject) + a;
    FlagRoundTrip(t.reject, a);
    NumbersRoundTrip(hint, b);
    SmallRoundTrip(t.reason, rest);
  }

  function EncodeTail(t: Tail): Bytes {
    EncodeRejection(t)
    + (Numbers([t.conflict.replica, t.conflict.inst, t.conflict.conf]) + (Uvarint(t.conflictStatus)
    + (Flag(t.eligible) + (Numbers([t.depsCommitted]) + Uvarint(t.recordStatus)))))
  }

  function TakeTail(b: Bytes): Parsed<Tail> {
    var rejection :- TakeRejection(b);
    var conflict :- TakeNumbers(rejection.1, 3);
    var status :- TakeSmall(conflict.1);
    var eligible :- TakeFlag(status.1);
    var committed :- TakeNumbers(eligible.1, 1);
    var record :- TakeSmall(committed.1);
    Done(Tail(rejection.0.0, rejection.0.1, rejection.0.2, InstanceRef(conflict.0[0], conflict.0[1], conflict.0[2]),
              status.0, eligible.0, committed.0[0], record.0), record.1)
  }

  /** The part of the tail behind the conflict. */
  lemma StatusRoundTrip(t: Tail, rest: Bytes)
    requires t.conflictStatus < 256 && t.recordStatus < 256
    ensures var e := Uvarint(t.recordStatus) + rest;
            var d := Numbers([t.depsCommitted]) + e;
            var c := Flag(t.eligible) + d;
            && TakeSmall(Uvarint(t.conflictStatus) + c) == Done(t.conflictStatus, c)
            && TakeFlag(c) == Done(t.eligible, d) && TakeNumbers(d, 1) == Done([t.depsCommitted], e)
            && TakeSmall(e) == Done(t.recordStatus, rest)
  {
    var e := Uvarint(t.recordStatus) + rest;
    var d := Numbers([t.depsCommitted]) + e;
    var c := Flag(t.eligible) + d;
    SmallRoundTrip(t.conflictStatus, c);
    FlagRoundTrip(t.eligible, d);
    NumbersRoundTrip([t.depsCommitted], e);
    SmallRoundTrip(t.recordStatus, rest);
  }

  lemma TailRoundTrip(t: Tail, rest: Bytes)
    requires t.reason < 256 && t.conflictStatus < 256 && t.recordStatus < 256
    ensures TakeTail(EncodeTail(t) + rest) == Done(t, rest)
  {
    var conflict := [t.conflict.replica, t.conflict.inst, t.conflict.conf];
    var c := Flag(t.eligible) + (Numbers([t.depsCommitted]) + (Uvarint(t.recordStatus) + rest));
    var b := Uvarint(t.conflictStatus) + c;
    var a := Numbers(conflict) + b;
    assert EncodeTail(t) + rest == EncodeRejection(t) + a;
    RejectionRoundTrip(t, a);
    NumbersRoundTrip(conflict, b);
    StatusRoundTrip(t, rest);
  }

  // Whole messages, between the magic bytes and the checksum.

  const MAGIC: Bytes := [77, 69, 80, 51]

  /** The checksum of a message: any function to 32 bytes. */
  type Checksum = f: Message -> Bytes | forall m :: |f(m)| == 32 witness (m: Message) => Zeros(32)

  function Zeros(k: nat): (z: Bytes)
    ensures |z| == k
  {
    if k == 0 then [] else Zeros(k - 1) + [0]
  }

  function EncodeBody(m: Message): Bytes {
    EncodeHead(m.head) + (EncodeOrder(m.order) + (EncodeValue(m.value) + EncodeTail(m.tail)))
  }

  /** EncodeMessage, for messages it accepts. */
  function Encode(m: Message, sum: Checksum): Bytes {
    MAGIC + EncodeBody(m) + sum(m)
  }

  ghost function TakeBody(b: Bytes): Parsed<Message> {
    var head :- TakeHead(b);
    var order :- TakeOrder(head.1);
    var value :- TakeValue(order.1);
    var tail :- TakeTail(value.1);
    Done(Message(head.0, order.0, value.0, tail.0), tail.1)
  }

  ghost predicate Framed(src: Bytes) {
    |src| >= |MAGIC| + 32 && src[..|MAGIC|] == MAGIC
  }

  /** DecodeMessage: the body must be used up, and the checksum must be the decoded message's. */
  ghost function Decode(src: Bytes, sum: Checksum): Option<Message> {
    if !Framed(src) then None
    else
      var p := TakeBody(src[|MAGIC|..|src| - 32]);
      if p.Done? && p.rest == [] && sum(p.value) == src[|src| - 32..] then Some(p.value) else None
  }

  /** What EncodeMessage accepts, with fields in their machine widths. */
  ghost predicate Encodes(m: Message) {
    && m.head.kind < 256 && OrderFits(m.order) && ValueFits(m.value)
    && m.tail.reason < 256 && m.tail.conflictStatus < 256 && m.tail.recordStatus < 256
  }

  lemma BodyRoundTrip(m: Message)
    requires Encodes(m)
    ensures TakeBody(EncodeBody(m)) == if FootprintFits(m.value.command.footprint) then Done(m, []) else Fail
  {
    var c := EncodeTail(m.tail) + [];
    var b := EncodeValue(m.value) + c;
    var a := EncodeOrder(m.order) + b;
    assert EncodeTail(m.tail) == c;
    assert EncodeBody(m) == EncodeHead(m.head) + a;
    HeadRoundTrip(m.head, a);
    OrderRoundTrip(m.order, b);
    ValueRoundTrip(m.value, c);
    TailRoundTrip(m.tail, []);
  }

  lemma Slices(a: Bytes, b: Bytes, c: Bytes)
    ensures var all := a + b + c;
            all[..|a|] == a && all[|a|..|all| - |c|] == b && all[|all| - |c|..] == c
  {
  }

  /**
   Wire round trip: what the encoder accepts is decoded to the same message if and only if its
   footprint is within the decoder's limits; otherwise decoding refuses it.
   */
  lemma RoundTrip(m: Message, sum: Checksum)
    requires Encodes(m)
    ensures Decode(Encode(m, sum), sum) == if FootprintFits(m.value.command.footprint) then Some(m) else None
  {
    BodyRoundTrip(m);
    Slices(MAGIC, EncodeBody(m), sum(m));
  }

  // Whatever is decoded could have been encoded.

  lemma {:induction false} SpansOfHalf(ends: seq<Bytes>)
    ensures |SpansOf(ends)| == |ends| / 2
    decreases |ends|
  {
    if |ends| >= 2 {
      SpansOfHalf(ends[2..]);
    }
  }

  lemma SpanTailSound(b: Bytes, ids: seq<U64>, payload: Bytes, all: bool, points: seq<Bytes>)
    requires |ids| == 2 && |points| <= MAX_POINTS && |payload| <= MAX_PAYLOAD
    ensures var p := TakeSpanTail(b, ids, payload, all, points);
            p.Done? ==> CommandEncodes(p.value) && FootprintFits(p.value.footprint)
  {
    var p := TakeSpanTail(b, ids, payload, all, points);
    if p.Done? {
      var spanCount := TakeUvarint(b);
      SpansOfHalf(TakeBlobs(spanCount.rest, 2 * spanCount.value, MAX_FOOTPRINT).value);
      var f := p.value.footprint;
      assert FootprintFits(f);
      forall x <- f.points
        ensures |x| < TWO_64
      {
        PointWithinTotal(f.points, x);
      }
      forall s <- f.spans
        ensures |s.start| < TWO_64 && |s.end| < TWO_64
      {
        EndsWithinTotal(f.spans, s);
      }
    }
  }

  lemma CommandSound(b: Bytes)
    ensures TakeCommand(b).Done? ==>
              CommandEncodes(TakeCommand(b).value) && FootprintFits(TakeCommand(b).value.footprint)
  {
    if TakeCommand(b).Done? {
      var ids := TakeNumbers(b, 2);
      var payload := TakeBlob(ids.rest, MAX_PAYLOAD);
      var all := TakeFlag(payload.rest);
      var count := TakeUvarint(all.rest);
      var points := TakeBlobs(count.rest, count.value, MAX_FOOTPRINT);
      SpanTailSound(points.rest, ids.value, payload.value, all.value, points.value);
    }
  }

  lemma {:induction false} EvidenceSound(b: Bytes, k: nat)
    ensures TakeEvidence(b, k).Done? ==> forall e <- TakeEvidence(b, k).value :: |e.deps| <= MAX_DEPS
    decreases k
  {
    if k > 0 && TakeEvidence(b, k).Done? {
      var ids := TakeNumbers(b, 2);
      EvidenceSound(TakeNumberList(ids.rest, MAX_DEPS).rest, k - 1);
    }
  }

  lemma OrderSound(b: Bytes)
    ensures TakeOrder(b).Done? ==> OrderFits(TakeOrder(b).value)
  {
    if TakeOrder(b).Done? {
      var deps := TakeNumberList(b, MAX_DEPS);
      var accept := TakeNumbers(deps.rest, 1);
      var acceptDeps := TakeNumberList(accept.rest, MAX_DEPS);
      var count := TakeUvarint(acceptDeps.rest);
      EvidenceSound(count.rest, count.value);
    }
  }

  lemma ValueSound(b: Bytes)
    ensures TakeValue(b).Done? ==>
              ValueFits(TakeValue(b).value) && FootprintFits(TakeValue(b).value.command.footprint)
  {
    if TakeValue(b).Done? {
      var entry := TakeSmall(b);
      var change := TakeSmall(entry.rest);
      var changed := TakeNumbers(change.rest, 1);
      var control := TakeBlob(changed.rest, MAX_CONTROL);
      CommandSound(control.rest);
    }
  }

  lemma HeadSound(b: Bytes)
    ensures TakeHead(b).Done? ==> TakeHead(b).value.kind < 256
  {
  }

  lemma TailSound(b: Bytes)
    ensures TakeTail(b).Done? ==>
              var t := TakeTail(b).value;
              t.reason < 256 && t.conflictStatus < 256 && t.recordStatus < 256
  {
  }

  /** The four parts a body is read as. */
  lemma BodyParts(b: Bytes)
    ensures TakeBody(b).Done? ==>
              && TakeHead(b).Done? && TakeOrder(TakeHead(b).rest).Done?
              && var order := TakeOrder(TakeHead(b).rest);
              && TakeValue(order.rest).Done? && TakeTail(TakeValue(order.rest).rest).Done?
              && TakeBody(b).value == Message(TakeHead(b).value, order.value, TakeValue(order.rest).value,
                                              TakeTail(TakeValue(order.rest).rest).value)
  {
  }

  lemma BodySound(b: Bytes)
    ensures TakeBody(b).Done? ==>
              Encodes(TakeBody(b).value) && FootprintFits(TakeBody(b).value.value.command.footprint)
  {
    if TakeBody(b).Done? {
      BodyParts(b);
      var head := TakeHead(b);
      var order := TakeOrder(head.rest);
      HeadSound(b);
      OrderSound(head.rest);
      ValueSound(order.rest);
      TailSound(TakeValue(order.rest).rest);
    }
  }

  /**
   On every byte string: what decodes is a message the encoder accepts, every field within its width
   and every list within its limit, and encoding it again decodes to the same message.
   */
  lemma DecodedEncodes(src: Bytes, sum: Checksum)
    ensures Decode(src, sum).Some? ==>
              var m := Decode(src, sum).value;
              && Encodes(m) && FootprintFits(m.value.command.footprint)
              && Decode(Encode(m, sum), sum) == Some(m)
  {
    if Decode(src, sum).Some? {
      BodySound(src[|MAGIC|..|src| - 32]);
      RoundTrip(Decode(src, sum).value, sum);
    }
  }

  // Decoding into reused buffers: the body is scanned first, without keeping anything.

  function SkipNumbers(b: Bytes, k: nat): Parsed<()>
    decreases k
  {
    if k == 0 then Done((), b)
    else
      var first :- TakeUvarint(b);
      SkipNumbers(first.1, k - 1)
  }

  lemma {:induction false} SkipNumbersSame(b: Bytes, k: nat)
    ensures SkipNumbers(b, k) == TakeNumbers(b, k).Forget()
    decreases k
  {
    if k > 0 && TakeUvarint(b).Done? {
      SkipNumbersSame(TakeUvarint(b).rest, k - 1);
    }
  }

  function SkipNumberList(b: Bytes): Parsed<()> {
    var count :- TakeUvarint(b);
    if count.0 > MAX_DEPS then Fail else SkipNumbers(count.1, count.0)
  }

  lemma SkipNumberListSame(b: Bytes)
    ensures SkipNumberList(b) == TakeNumberList(b, MAX_DEPS).Forget()
  {
    if TakeUvarint(b).Done? {
      SkipNumbersSame(TakeUvarint(b).rest, TakeUvarint(b).value);
    }
  }

  function SkipEvidence(b: Bytes, k: nat): Parsed<()>
    decreases k
  {
    if k == 0 then Done((), b)
    else
      var ids :- SkipNumbers(b, 2);
      var deps :- SkipNumberList(ids.1);
      SkipEvidence(deps.1, k - 1)
  }

  lemma {:induction false} SkipEvidenceSame(b: Bytes, k: nat)
    ensures SkipEvidence(b, k) == TakeEvidence(b, k).Forget()
    decreases k
  {
    if k > 0 {
      SkipNumbersSame(b, 2);
      var ids := TakeNumbers(b, 2);
      if ids.Done? {
        SkipNumberListSame(ids.rest);
        var deps := TakeNumberList(ids.rest, MAX_DEPS);
        if deps.Done? {
          SkipEvidenceSame(deps.rest, k - 1);
        }
      }
    }
  }

  /** scanAcceptEvidence: the total number of dependencies, for one arena that holds them all. */
  function EvidenceTotal(b: Bytes, k: nat): Parsed<nat>
    decreases k
  {
    if k == 0 then Done(0, b)
    else
      var ids :- SkipNumbers(b, 2);
      var count :- TakeUvarint(ids.1);
      if count.0 > MAX_DEPS then Fail
      else
        var deps :- SkipNumbers(count.1, count.0);
        var others :- EvidenceTotal(deps.1, k - 1);
        Done(count.0 + others.0, others.1)
  }

  function DepsIn(es: seq<Evidence>): nat {
    if es == [] then 0 else |es[0].deps| + DepsIn(es[1..])
  }

  /** The arena is exactly as large as the evidence read into it, and the count fails only where reading does. */
  lemma {:induction false} ArenaExact(b: Bytes, k: nat)
    ensures TakeEvidence(b, k).Fail? <==> EvidenceTotal(b, k).Fail?
    ensures TakeEvidence(b, k).Done? ==>
              EvidenceTotal(b, k) == Done(DepsIn(TakeEvidence(b, k).value), TakeEvidence(b, k).rest)
    decreases k
  {
    if k > 0 {
      SkipNumbersSame(b, 2);
      var ids := TakeNumbers(b, 2);
      if ids.Done? && TakeUvarint(ids.rest).Done? {
        var count := TakeUvarint(ids.rest);
        SkipNumbersSame(count.rest, count.value);
        var deps := TakeNumberList(ids.rest, MAX_DEPS);
        if deps.Done? {
          ArenaExact(deps.rest, k - 1);
          var others := TakeEvidence(deps.rest, k - 1);
          if others.Done? {
            var e := Evidence(ids.value[0], ids.value[1], deps.value);
            assert ([e] + others.value)[1..] == others.value;
          }
        }
      }
    }
  }

  /** scanMessageBody up to the command, with its counts checked as it goes. */
  function ScanFront(b: Bytes): Parsed<()> {
    var kind :- TakeSmall(b);
    var ids :- SkipNumbers(kind.1, 8);
    var toq :- TakeFlag(ids.1);
    var ballots :- SkipNumbers(toq.1, 7);
    var deps :- SkipNumberList(ballots.1);
    var accept :- SkipNumbers(deps.1, 1);
    var acceptDeps :- SkipNumberList(accept.1);
    var count :- TakeUvarint(acceptDeps.1);
    if count.0 > MAX_EVIDENCE then Fail
    else
      var evidence :- SkipEvidence(count.1, count.0);
      SkipNumbers(evidence.1, 3)
  }

  function ScanTail(b: Bytes): Parsed<()> {
    var reject :- TakeFlag(b);
    var hint :- SkipNumbers(reject.1, 3);
    var reason :- TakeSmall(hint.1);
    var conflict :- SkipNumbers(reason.1, 3);
    var status :- TakeSmall(conflict.1);
    var eligible :- TakeFlag(status.1);
    var committed :- SkipNumbers(eligible.1, 1);
    var record :- TakeSmall(committed.1);
    Done((), record.1)
  }

  /** scanCommand: the limit on the footprint's bytes is checked last, and nothing but the footprint is kept. */
  ghost function ScanCommand(b: Bytes): Parsed<()> {
    var ids :- TakeNumbers(b, 2);
    var payload :- TakeBlob(ids.1, MAX_PAYLOAD);
    var all :- TakeFlag(payload.1);
    var pointCount :- TakeUvarint(all.1);
    if pointCount.0 > MAX_POINTS then Fail
    else
      var points :- TakeBlobs(pointCount.1, pointCount.0, MAX_FOOTPRINT);
      var spanCount :- TakeUvarint(points.1);
      if spanCount.0 > MAX_SPANS then Fail
      else
        var ends :- TakeBlobs(spanCount.1, 2 * spanCount.0, MAX_FOOTPRINT);
        var key :- TakeBlob(ends.1, MAX_CYCLE_KEY);
        var f := F.Footprint(points.0, SpansOf(ends.0), all.0);
        if F.TotalPoints(f.points) + F.TotalSpans(f.spans) > MAX_FOOTPRINT then Fail
        else if ids.0[0] == 0 && ids.0[1] == 0 && payload.0 == [] && !f.all && f.points == [] && f.spans == []
            && key.0 == []
        then Done((), key.1)
        else if F.Canonical(f) then Done((), key.1) else Fail
  }

  lemma ScanCommandSame(b: Bytes)
    ensures ScanCommand(b) == TakeCommand(b).Forget()
  {
  }

  ghost function ScanValue(b: Bytes): Parsed<()> {
    var entry :- TakeSmall(b);
    var change :- TakeSmall(entry.1);
    var changed :- SkipNumbers(change.1, 1);
    var control :- TakeBlob(changed.1, MAX_CONTROL);
    ScanCommand(control.1)
  }

  lemma ScanValueSame(b: Bytes)
    ensures ScanValue(b) == TakeValue(b).Forget()
  {
    var entry := TakeSmall(b);
    if entry.Done? && TakeSmall(entry.rest).Done? {
      var change := TakeSmall(entry.rest);
      SkipNumbersSame(change.rest, 1);
      var changed := TakeNumbers(change.rest, 1);
      if changed.Done? && TakeBlob(changed.rest, MAX_CONTROL).Done? {
        ScanCommandSame(TakeBlob(changed.rest, MAX_CONTROL).rest);
      }
    }
  }

  ghost predicate Scan(b: Bytes) {
    var front := ScanFront(b);
    && front.Done?
    && ScanValue(front.rest).Done?
    && var tail := ScanTail(ScanValue(front.rest).rest); tail.Done? && tail.rest == []
  }

  lemma ScanHeadSame(b: Bytes)
    ensures TakeHead(b).Fail? ==> ScanFront(b).Fail?
    ensures TakeHead(b).Done? ==> ScanFront(b) == ScanOrder(TakeHead(b).rest)
  {
    var kind := TakeSmall(b);
    if kind.Done? {
      SkipNumbersSame(kind.rest, 8);
      var ids := TakeNumbers(kind.rest, 8);
      if ids.Done? && TakeFlag(ids.rest).Done? {
        SkipNumbersSame(TakeFlag(ids.rest).rest, 7);
      }
    }
  }

  function ScanOrder(b: Bytes): Parsed<()> {
    var deps :- SkipNumberList(b);
    var accept :- SkipNumbers(deps.1, 1);
    var acceptDeps :- SkipNumberList(accept.1);
    var count :- TakeUvarint(acceptDeps.1);
    if count.0 > MAX_EVIDENCE then Fail
    else
      var evidence :- SkipEvidence(count.1, count.0);
      SkipNumbers(evidence.1, 3)
  }

  lemma ScanOrderSame(b: Bytes)
    ensures ScanOrder(b) == TakeOrder(b).Forget()
  {
    SkipNumberListSame(b);
    var deps := TakeNumberList(b, MAX_DEPS);
    if deps.Done? {
      SkipNumbersSame(deps.rest, 1);
      var accept := TakeNumbers(deps.rest, 1);
      if accept.Done? {
        SkipNumberListSame(accept.rest);
        var acceptDeps := TakeNumberList(accept.rest, MAX_DEPS);
        if acceptDeps.Done? {
          ScanEvidenceSame(acceptDeps.rest);
        }
      }
    }
  }

  lemma ScanEvidenceSame(b: Bytes)
    ensures var count := TakeUvarint(b);
            count.Done? && count.value <= MAX_EVIDENCE ==>
              && SkipEvidence(count.rest, count.value) == TakeEvidence(count.rest, count.value).Forget()
              && (TakeEvidence(count.rest, count.value).Done? ==>
                    var after := TakeEvidence(count.rest, count.value).rest;
                    SkipNumbers(after, 3) == TakeNumbers(after, 3).Forget())
  {
    var count := TakeUvarint(b);
    if count.Done? {
      SkipEvidenceSame(count.rest, count.value);
      var evidence := TakeEvidence(count.rest, count.value);
      if evidence.Done? {
        SkipNumbersSame(evidence.rest, 3);
      }
    }
  }

  lemma ScanTailSame(b: Bytes)
    ensures ScanTail(b) == TakeTail(b).Forget()
  {
    var reject := TakeFlag(b);
    if reject.Done? {
      SkipNumbersSame(reject.rest, 3);
      var hint := TakeNumbers(reject.rest, 3);
      if hint.Done? && TakeSmall(hint.rest).Done? {
        SkipNumbersSame(TakeSmall(hint.rest).rest, 3);
        var conflict := TakeNumbers(TakeSmall(hint.rest).rest, 3);
        if conflict.Done? && TakeSmall(conflict.rest).Done? && TakeFlag(TakeSmall(conflict.rest).rest).Done? {
          SkipNumbersSame(TakeFlag(TakeSmall(conflict.rest).rest).rest, 1);
        }
      }
    }
  }

  /** On every byte string the pre-scan succeeds exactly when decoding the body does. */
  lemma ScanExact(b: Bytes)
    ensures Scan(b) <==> TakeBody(b).Done? && TakeBody(b).rest == []
  {
    ScanHeadSame(b);
    if TakeHead(b).Done? {
      ScanOrderSame(TakeHead(b).rest);
      var order := TakeOrder(TakeHead(b).rest);
      if order.Done? {
        ScanValueSame(order.rest);
        if TakeValue(order.rest).Done? {
          ScanTailSame(TakeValue(order.rest).rest);
        }
      }
    }
  }

  /** DecodeMessageWithScratch with a scratch: refused by the scan, or decoded as without one. */
  ghost function DecodeScanned(src: Bytes, sum: Checksum): Option<Message> {
    if !Framed(src) || !Scan(src[|MAGIC|..|src| - 32]) then None else Decode(src, sum)
  }

  /** With or without the scratch the same inputs are accepted, with equal results. */
  lemma ScratchChangesNothing(src: Bytes, sum: Checksum)
    ensures DecodeScanned(src, sum) == Decode(src, sum)
  {
    if Framed(src) {
      ScanExact(src[|MAGIC|..|src| - 32]);
    }
  }
}
