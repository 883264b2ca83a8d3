/** The codec as it runs: a buffer that grows, and a byte slice consumed under an error flag that sticks. */
module Parser {
  import opened Types
  import opened ByteOrder
  import opened Wire
  import opened Codec
  import F = Footprint

  // Reading one more at the end.

  lemma {:induction false} NumbersSnoc(b: Bytes, k: nat)
    ensures var p := TakeNumbers(b, k);
            TakeNumbers(b, k + 1) ==
            if p.Fail? || TakeUvarint(p.rest).Fail? then Fail
            else Done(p.value + [TakeUvarint(p.rest).value], TakeUvarint(p.rest).rest)
    decreases k
  {
    var first := TakeUvarint(b);
    TakeBounded(b);
    if k == 0 {
      assert first.Done? ==> [first.value] + [] == [] + [first.value];
    } else if first.Done? {
      NumbersSnoc(first.rest, k - 1);
      var p, q := TakeNumbers(first.rest, k - 1), TakeNumbers(first.rest, k);
      if q.Done? {
        assert [first.value] + q.value == [first.value] + p.value + [TakeUvarint(p.rest).value];
      }
    }
  }

  lemma {:induction false} BlobsSnoc(b: Bytes, k: nat, limit: nat)
    ensures var p := TakeBlobs(b, k, limit);
            TakeBlobs(b, k + 1, limit) ==
            if p.Fail? || TakeBlob(p.rest, limit).Fail? then Fail
            else Done(p.value + [TakeBlob(p.rest, limit).value], TakeBlob(p.rest, limit).rest)
    decreases k
  {
    var first := TakeBlob(b, limit);
    if k == 0 {
      assert first.Done? ==> [first.value] + [] == [] + [first.value];
    } else if first.Done? {
      BlobsSnoc(first.rest, k - 1, limit);
      var p, q := TakeBlobs(first.rest, k - 1, limit), TakeBlobs(first.rest, k, limit);
      if q.Done? {
        assert [first.value] + q.value == [first.value] + p.value + [TakeBlob(p.rest, limit).value];
      }
    }
  }

  function TakeOne(b: Bytes): Parsed<Evidence> {
    var ids :- TakeNumbers(b, 2);
    var deps :- TakeNumberList(ids.1, MAX_DEPS);
    Done(Evidence(ids.0[0], ids.0[1], deps.0), deps.1)
  }

  lemma {:induction false} EvidenceSnoc(b: Bytes, k: nat)
    ensures var p := TakeEvidence(b, k);
            TakeEvidence(b, k + 1) ==
            if p.Fail? || TakeOne(p.rest).Fail? then Fail
            else Done(p.value + [TakeOne(p.rest).value], TakeOne(p.rest).rest)
    decreases k
  {
    var first := TakeOne(b);
    if k == 0 {
      assert first.Done? ==> [first.value] + [] == [] + [first.value];
    } else if first.Done? {
      EvidenceSnoc(first.rest, k - 1);
      var p, q := TakeEvidence(first.rest, k - 1), TakeEvidence(first.rest, k);
      if q.Done? {
        assert [first.value] + q.value == [first.value] + p.value + [TakeOne(p.rest).value];
      }
    }
  }

  class Reader {
    var b: Bytes
    var failed: bool

    constructor (src: Bytes)
      ensures b == src && !failed
    {
      b, failed := src, false;
    }

    /** From the given state a read gave v, or failed as p says; a failure is never taken back. */
    ghost predicate Took<T>(before: bool, p: Parsed<T>, v: T)
      reads this
    {
      if before || p.Fail? then failed else !failed && v == p.value && b == p.rest
    }

    /** parser.uvarint over binary.Uvarint. */
    method Uvarint() returns (x: U64)
      modifies this
      ensures Took(old(failed), TakeUvarint(old(b)), x)
    {
      x := 0;
      if failed {
        return;
      }
      TakeBounded(b);
      var i: nat, m: nat, acc: nat, rest: Bytes := 0, 1, 0, b;
      while i <= 9 && rest != [] && rest[0] >= 128
        invariant ReadUvarint(b, 0, 1, 0) == ReadUvarint(rest, i, m, acc)
        invariant failed == old(failed) && b == old(b)
        decreases |rest|
      {
        i, m, acc, rest := i + 1, m * 128, acc + (rest[0] - 128) * m, rest[1..];
      }
      if rest == [] || i > 9 || (i == 9 && rest[0] > 1) {
        failed := true;
        return;
      }
      x := acc + rest[0] * m;
      b := rest[1..];
    }

    /** parser.uvarint8. */
    method Small() returns (x: nat)
      modifies this
      ensures Took(old(failed), TakeSmall(old(b)), x)
    {
      x := Uvarint();
      if x > 255 {
        failed, x := true, 0;
      }
    }

    /** parser.byte, compared with one. */
    method Flag() returns (x: bool)
      modifies this
      ensures Took(old(failed), TakeFlag(old(b)), x)
    {
      if b == [] {
        failed, x := true, false;
        return;
      }
      x, b := b[0] == 1, b[1..];
    }

    /** parser.bytesBound. */
    method Blob(limit: nat) returns (x: Bytes)
      modifies this
      ensures Took(old(failed), TakeBlob(old(b), limit), x)
    {
      var n := Uvarint();
      if n > limit || n > |b| {
        failed, x := true, [];
        return;
      }
      x, b := b[..n], b[n..];
    }

    method Numbers(k: nat) returns (xs: seq<U64>)
      modifies this
      ensures |xs| == k && Took(old(failed), TakeNumbers(old(b), k), xs)
    {
      xs := [];
      for i := 0 to k
        invariant |xs| == i && Took(old(failed), TakeNumbers(old(b), i), xs)
      {
        NumbersSnoc(old(b), i);
        var x := Uvarint();
        xs := xs + [x];
      }
    }

    method NumberList(limit: nat) returns (xs: seq<U64>)
      modifies this
      ensures Took(old(failed), TakeNumberList(old(b), limit), xs)
    {
      var k := Uvarint();
      if k > limit {
        failed, xs := true, [];
        return;
      }
      xs := Numbers(k);
    }

    method Blobs(k: nat, limit: nat) returns (xs: seq<Bytes>)
      modifies this
      ensures |xs| == k && Took(old(failed), TakeBlobs(old(b), k, limit), xs)
    {
      xs := [];
      for i := 0 to k
        invariant |xs| == i && Took(old(failed), TakeBlobs(old(b), i, limit), xs)
      {
        BlobsSnoc(old(b), i, limit);
        var x := Blob(limit);
        xs := xs + [x];
      }
    }

    method EvidenceList(k: nat) returns (es: seq<Evidence>)
      modifies this
      ensures |es| == k && Took(old(failed), TakeEvidence(old(b), k), es)
    {
      es := [];
      for i := 0 to k
        invariant |es| == i && Took(old(failed), TakeEvidence(old(b), i), es)
      {
        EvidenceSnoc(old(b), i);
        var ids := Numbers(2);
        var deps := NumberList(MAX_DEPS);
        es := es + [Evidence(ids[0], ids[1], deps)];
      }
    }

    /** parser.command. */
    method Command() returns (c: Command)
      modifies this
      ensures Took(old(failed), TakeCommand(old(b)), c)
    {
      var ids := Numbers(2);
      var payload := Blob(MAX_PAYLOAD);
      var all := Flag();
      c := FootprintTail(ids, payload, all);
    }

    method FootprintTail(ids: seq<U64>, payload: Bytes, all: bool) returns (c: Command)
      requires |ids| == 2
      modifies this
      ensures Took(old(failed), TakeFootprintTail(old(b), ids, payload, all), c)
    {
      var count := Uvarint();
      if count > MAX_POINTS {
        failed, c := true, Codec.Command(0, 0, [], F.Footprint([], [], false), []);
        return;
      }
      var points := Blobs(count, MAX_FOOTPRINT);
      c := SpanTail(ids, payload, all, points);
    }

    method SpanTail(ids: seq<U64>, payload: Bytes, all: bool, points: seq<Bytes>) returns (c: Command)
      requires |ids| == 2
      modifies this
      ensures Took(old(failed), TakeSpanTail(old(b), ids, payload, all, points), c)
    {
      c := Codec.Command(0, 0, [], F.Footprint([], [], false), []);
      var count := Uvarint();
      if count > MAX_SPANS {
        failed := true;
        return;
      }
      var ends := Blobs(2 * count, MAX_FOOTPRINT);
      var f := F.Footprint(points, SpansOf(ends), all);
      if F.TotalPoints(f.points) + F.TotalSpans(f.spans) > MAX_FOOTPRINT {
        failed := true;
      }
      var key := Blob(MAX_CYCLE_KEY);
      c := Codec.Command(ids[0], ids[1], payload, f, key);
      var canonical := F.FootprintCanonical(f);
      if !failed && !CommandEmpty(c) && !canonical {
        failed := true;
      }
    }

    method Head() returns (h: Head)
      modifies this
      ensures Took(old(failed), TakeHead(old(b)), h)
    {
      var kind := Small();
      var a := Numbers(8);
      var toq := Flag();
      var n := Numbers(7);
      h := Codec.Head(kind, a[0], a[1], a[2], a[3], InstanceRef(a[4], a[5], a[6]), a[7], toq, (n[0], n[1], n[2]),
                      (n[3], n[4], n[5]), n[6]);
    }

    method Order() returns (o: Order)
      modifies this
      ensures Took(old(failed), TakeOrder(old(b)), o)
    {
      var deps := NumberList(MAX_DEPS);
      var accept := Numbers(1);
      var acceptDeps := NumberList(MAX_DEPS);
      var count := Uvarint();
      if count > MAX_EVIDENCE {
        failed, o := true, Codec.Order([], 0, [], [], InstanceRef(0, 0, 0));
        return;
      }
      var evidence := EvidenceList(count);
      var ignore := Numbers(3);
      o := Codec.Order(deps, accept[0], acceptDeps, evidence, InstanceRef(ignore[0], ignore[1], ignore[2]));
    }

    method Value() returns (v: Value)
      modifies this
      ensures Took(old(failed), TakeValue(old(b)), v)
    {
      var entry := Small();
      var change := Small();
      var changed := Numbers(1);
      var control := Blob(MAX_CONTROL);
      var command := Command();
      v := Codec.Value(entry, change, changed[0], control, command);
    }

    method Tail() returns (t: Tail)
      modifies this
      ensures Took(old(failed), TakeTail(old(b)), t)
    {
      var reject := Flag();
      var hint := Numbers(3);
      var reason := Small();
      var conflict := Numbers(3);
      var status := Small();
      var eligible := Flag();
      var committed := Numbers(1);
      var record := Small();
      t := Codec.Tail(reject, (hint[0], hint[1], hint[2]), reason, InstanceRef(conflict[0], conflict[1], conflict[2]),
                      status, eligible, committed[0], record);
    }

    method Body() returns (m: Message)
      modifies this
      ensures Took(old(failed), TakeBody(old(b)), m)
    {
      var head := Head();
      var order := Order();
      var value := Value();
      var tail := Tail();
      m := Message(head, order, value, tail);
    }
  }

  /** DecodeMessage. */
  method DecodeMessage(src: Bytes, sum: Checksum) returns (r: Option<Message>)
    ensures r == Decode(src, sum)
  {
    if |src| < |MAGIC| + 32 || src[..|MAGIC|] != MAGIC {
      return None;
    }
    var p := new Reader(src[|MAGIC|..|src| - 32]);
    var m := p.Body();
    if p.failed || p.b != [] || sum(m) != src[|src| - 32..] {
      return None;
    }
    r := Some(m);
  }

  lemma Nest(o: Bytes, a: Bytes, b: Bytes, c: Bytes)
    ensures o + a + b + c == o + (a + (b + c))
  {
  }

  lemma NestFour(o: Bytes, a: Bytes, b: Bytes, c: Bytes, d: Bytes)
    ensures o + a + b + c + d == o + (a + (b + (c + d)))
  {
    Nest(o, a, b, c + d);
  }

  lemma Flat(o: Bytes, a: Bytes, b: Bytes, c: Bytes)
    ensures o + a + b + c == o + (a + b + c)
  {
  }

  class Writer {
    var dst: Bytes

    constructor (dst: Bytes)
      ensures this.dst == dst
    {
      this.dst := dst;
    }

    /** binary.AppendUvarint. */
    method Uvarint(x: nat)
      modifies this
      ensures dst == old(dst) + Wire.Uvarint(x)
    {
      var left := x;
      while left >= 128
        invariant dst + Wire.Uvarint(left) == old(dst) + Wire.Uvarint(x)
      {
        assert dst + Wire.Uvarint(left) == dst + [left % 128 + 128] + Wire.Uvarint(left / 128);
        dst := dst + [left % 128 + 128];
        left := left / 128;
      }
      dst := dst + [left];
    }

    method Flag(x: bool)
      modifies this
      ensures dst == old(dst) + Wire.Flag(x)
    {
      if x {
        dst := dst + [1];
      } else {
        dst := dst + [0];
      }
    }

    method Numbers(xs: seq<U64>)
      modifies this
      ensures dst == old(dst) + Wire.Numbers(xs)
    {
      for i := 0 to |xs|
        invariant dst + Wire.Numbers(xs[i..]) == old(dst) + Wire.Numbers(xs)
      {
        assert xs[i..][1..] == xs[i + 1..];
        assert dst + Wire.Numbers(xs[i..]) == dst + Wire.Uvarint(xs[i]) + Wire.Numbers(xs[i + 1..]);
        Uvarint(xs[i]);
      }
    }

    method NumberList(xs: seq<U64>)
      modifies this
      ensures dst == old(dst) + Wire.NumberList(xs)
    {
      Uvarint(|xs|);
      Numbers(xs);
    }

    method Blob(x: Bytes)
      modifies this
      ensures dst == old(dst) + Wire.Blob(x)
    {
      Uvarint(|x|);
      dst := dst + x;
    }

    method Blobs(xs: seq<Bytes>)
      modifies this
      ensures dst == old(dst) + Wire.Blobs(xs)
    {
      for i := 0 to |xs|
        invariant dst + Wire.Blobs(xs[i..]) == old(dst) + Wire.Blobs(xs)
      {
        assert xs[i..][1..] == xs[i + 1..];
        assert dst + Wire.Blobs(xs[i..]) == dst + Wire.Blob(xs[i]) + Wire.Blobs(xs[i + 1..]);
        Blob(xs[i]);
      }
    }

    method EvidenceList(es: seq<Evidence>)
      modifies this
      ensures dst == old(dst) + EncodeEvidence(es)
    {
      for i := 0 to |es|
        invariant dst + EncodeEvidence(es[i..]) == old(dst) + EncodeEvidence(es)
      {
        ghost var before := dst;
        assert es[i..][1..] == es[i + 1..];
        Numbers([es[i].sender, es[i].seqNo]);
        NumberList(es[i].deps);
        assert before + EncodeEvidence(es[i..]) == dst + EncodeEvidence(es[i + 1..]);
      }
    }

    /** appendCommand. */
    method Command(c: Command)
      modifies this
      ensures dst == old(dst) + EncodeCommand(c)
    {
      Numbers([c.client, c.sequence]);
      Blob(c.payload);
      Flag(c.footprint.all);
      FootprintTail(c);
    }

    method FootprintTail(c: Command)
      modifies this
      ensures dst == old(dst) + EncodeFootprintTail(c)
    {
      Uvarint(|c.footprint.points|);
      Blobs(c.footprint.points);
      SpanTail(c);
    }

    method SpanTail(c: Command)
      modifies this
      ensures dst == old(dst) + EncodeSpanTail(c)
    {
      Uvarint(|c.footprint.spans|);
      Blobs(Ends(c.footprint.spans));
      Blob(c.cycleKey);
    }

    method Head(h: Head)
      modifies this
      ensures dst == old(dst) + EncodeHead(h)
    {
      Uvarint(h.kind);
      Numbers([h.from, h.to, h.fromIncarnation, h.toIncarnation, h.ref.replica, h.ref.inst, h.ref.conf, h.processAt]);
      Flag(h.toq);
      Numbers([h.ballot.0, h.ballot.1, h.ballot.2, h.recordBallot.0, h.recordBallot.1, h.recordBallot.2, h.seqNo]);
    }

    method Order(o: Order)
      modifies this
      ensures dst == old(dst) + EncodeOrder(o)
    {
      ghost var start := dst;
      NumberList(o.deps);
      Numbers([o.acceptSeq]);
      NumberList(o.acceptDeps);
      ghost var middle := dst;
      Uvarint(|o.evidence|);
      EvidenceList(o.evidence);
      Numbers([o.ignore.replica, o.ignore.inst, o.ignore.conf]);
      ghost var more := Wire.Uvarint(|o.evidence|) + (EncodeEvidence(o.evidence) + Wire.Numbers([o.ignore.replica,
          o.ignore.inst, o.ignore.conf]));
      assert dst == middle + more;
      Nest(start, Wire.NumberList(o.deps), Wire.Numbers([o.acceptSeq]), Wire.NumberList(o.acceptDeps) + more);
    }

    method Value(v: Value)
      modifies this
      ensures dst == old(dst) + EncodeValue(v)
    {
      Uvarint(v.entry);
      Uvarint(v.change);
      Numbers([v.changed]);
      Blob(v.control);
      Command(v.command);
    }

    method Tail(t: Tail)
      modifies this
      ensures dst == old(dst) + EncodeTail(t)
    {
      Rejection(t);
      ghost var middle := dst;
      Numbers([t.conflict.replica, t.conflict.inst, t.conflict.conf]);
      Uvarint(t.conflictStatus);
      Flag(t.eligible);
      Numbers([t.depsCommitted]);
      Uvarint(t.recordStatus);
      ghost var more := Wire.Flag(t.eligible) + (Wire.Numbers([t.depsCommitted]) + Wire.Uvarint(t.recordStatus));
      Nest(middle, Wire.Numbers([t.conflict.replica, t.conflict.inst, t.conflict.conf]),
           Wire.Uvarint(t.conflictStatus), more);
    }

    method Rejection(t: Tail)
      modifies this
      ensures dst == old(dst) + EncodeRejection(t)
    {
      Flag(t.reject);
      Numbers([t.hint.0, t.hint.1, t.hint.2]);
      Uvarint(t.reason);
    }

    method Body(m: Message)
      modifies this
      ensures dst == old(dst) + EncodeBody(m)
    {
      NestFour(dst, EncodeHead(m.head), EncodeOrder(m.order), EncodeValue(m.value), EncodeTail(m.tail));
      Head(m.head);
      Order(m.order);
      Value(m.value);
      Tail(m.tail);
    }

    /** EncodeMessage: a message it refuses leaves the buffer as it was. */
    method EncodeMessage(m: Message, sum: Checksum) returns (ok: bool)
      requires InWidths(m)
      modifies this
      ensures ok <==> Accepted(m)
      ensures dst == if ok then old(dst) + Encode(m, sum) else old(dst)
    {
      ok := IsAccepted(m);
      if ok {
        Flat(dst, MAGIC, EncodeBody(m), sum(m));
        dst := dst + MAGIC;
        Body(m);
        dst := dst + sum(m);
      }
    }
  }

  /** Fields and lengths in their machine widths. */
  ghost predicate InWidths(m: Message) {
    && m.head.kind < 256 && m.value.entry < 256 && m.value.change < 256 && Sized(m.value.command)
    && m.tail.reason < 256 && m.tail.conflictStatus < 256 && m.tail.recordStatus < 256
  }

  /** entryValueCanonical, for the kinds command, no-op, configuration change, membership and checkpoint. */
  ghost predicate EntryCanonical(v: Value) {
    var plain := v.change == 0 && v.changed == 0;
    if v.entry == 1 then plain && v.control == [] && F.Canonical(v.command.footprint)
        && |v.command.cycleKey| <= MAX_CYCLE_KEY
    else
      && v.entry <= 5 && CommandEmpty(v.command)
      && (v.entry == 3 ==> v.control == [] && (v.change == 1 || v.change == 2) && v.changed != 0)
      && (v.entry == 0 || v.entry == 2 ==> plain && v.control == [])
      && (v.entry == 4 || v.entry == 5 ==> plain && v.control != [] && |v.control| <= MAX_CONTROL)
  }

  /** What EncodeMessage checks before it writes anything. */
  ghost predicate Accepted(m: Message) {
    && OrderFits(m.order) && EntryCanonical(m.value)
    && |m.value.command.payload| <= MAX_PAYLOAD && |m.value.command.cycleKey| <= MAX_CYCLE_KEY
    && |m.value.control| <= MAX_CONTROL
  }

  method IsAccepted(m: Message) returns (ok: bool)
    ensures ok <==> Accepted(m)
  {
    var o, v := m.order, m.value;
    if |o.deps| > MAX_DEPS || |o.acceptDeps| > MAX_DEPS || |o.evidence| > MAX_EVIDENCE {
      return false;
    }
    if |v.command.payload| > MAX_PAYLOAD || |v.command.cycleKey| > MAX_CYCLE_KEY || |v.control| > MAX_CONTROL {
      return false;
    }
    var canonical := IsEntryCanonical(v);
    if !canonical {
      return false;
    }
    for i := 0 to |o.evidence|
      invariant forall j | 0 <= j < i :: |o.evidence[j].deps| <= MAX_DEPS
    {
      if |o.evidence[i].deps| > MAX_DEPS {
        return false;
      }
    }
    ok := true;
  }

  method IsEntryCanonical(v: Value) returns (ok: bool)
    ensures ok <==> EntryCanonical(v)
  {
    var plain := v.change == 0 && v.changed == 0;
    match v.entry {
      case 0 => ok := CommandEmpty(v.command) && plain && v.control == [];
      case 1 =>
        var canonical := F.FootprintCanonical(v.command.footprint);
        ok := plain && v.control == [] && canonical && |v.command.cycleKey| <= MAX_CYCLE_KEY;
      case 2 => ok := CommandEmpty(v.command) && plain && v.control == [];
      case 3 => ok := CommandEmpty(v.command) && v.control == [] && (v.change == 1 || v.change == 2) && v.changed != 0;
      case 4 => ok := CommandEmpty(v.command) && plain && v.control != [] && |v.control| <= MAX_CONTROL;
      case 5 => ok := CommandEmpty(v.command) && plain && v.control != [] && |v.control| <= MAX_CONTROL;
      case _ => ok := false;
    }
  }

  lemma AcceptedEncodes(m: Message)
    requires InWidths(m) && Accepted(m)
    ensures Encodes(m)
  {
  }

  /** A message sent: what the encoder accepts is decoded to the same message, within the footprint limits. */
  method Transmit(m: Message, sum: Checksum) returns (sent: bool, r: Option<Message>)
    requires InWidths(m)
    ensures sent <==> Accepted(m)
    ensures sent ==> r == if FootprintFits(m.value.command.footprint) then Some(m) else None
  {
    var w := new Writer([]);
    sent := w.EncodeMessage(m, sum);
    r := None;
    if sent {
      AcceptedEncodes(m);
      RoundTrip(m, sum);
      assert [] + Encode(m, sum) == Encode(m, sum);
      r := DecodeMessage(w.dst, sum);
    }
  }
}
