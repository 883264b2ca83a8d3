/** The byte-level pieces of the wire format: variable-length integers, bounded byte strings and lists. */
module Wire {
  import opened Types
  import opened ByteOrder

  /** A parser either fails for good or yields a value and the remaining bytes. */
  datatype Parsed<+T> = Fail | Done(value: T, rest: Bytes) {
    predicate IsFailure() {
      Fail?
    }

    function PropagateFailure<U>(): Parsed<U>
      requires Fail?
    {
      Fail
    }

    function Extract(): (T, Bytes)
      requires Done?
    {
      (value, rest)
    }

    /** The same outcome without the value. */
    function Forget(): Parsed<()> {
      if Fail? then Fail else Done((), rest)
    }
  }

  const TWO_64 := 0x1_0000_0000_0000_0000

  /** binary.AppendUvarint. */
  function Uvarint(x: nat): Bytes {
    if x < 128 then [x] else [x % 128 + 128] + Uvarint(x / 128)
  }

  /** binary.Uvarint from the i-th byte on; m is 128^i. A tenth byte above one overflows. */
  function ReadUvarint(b: Bytes, i: nat, m: nat, acc: nat): Parsed<nat>
    decreases |b|
  {
    if b == [] || i > 9 then Fail
    else if b[0] < 128 then (if i == 9 && b[0] > 1 then Fail else Done(acc + b[0] * m, b[1..]))
    else ReadUvarint(b[1..], i + 1, m * 128, acc + (b[0] - 128) * m)
  }

  /** parser.uvarint. */
  function TakeUvarint(b: Bytes): Parsed<nat> {
    ReadUvarint(b, 0, 1, 0)
  }

  function Pow128(i: nat): nat {
    if i == 0 then 1 else 128 * Pow128(i - 1)
  }

  lemma ShiftUp(x: nat, m: nat)
    ensures (x % 128) * m + (x / 128) * (m * 128) == x * m
    ensures (x / 128) * (m * 128) <= x * m
  {
    var q, r := x / 128, x % 128;
    Split(q, r, m);
    assert r * m >= 0;
  }

  lemma Split(q: nat, r: nat, m: nat)
    ensures (128 * q + r) * m == q * (m * 128) + r * m
  {
  }

  lemma {:induction false} ReadBack(x: nat, rest: Bytes, i: nat, acc: nat)
    requires x * Pow128(i) < TWO_64 && (x >= 1 || i == 0)
    ensures ReadUvarint(Uvarint(x) + rest, i, Pow128(i), acc) == Done(acc + x * Pow128(i), rest)
    decreases x
  {
    var m := Pow128(i);
    TenBytes(x, i);
    var b := Uvarint(x) + rest;
    if x < 128 {
      assert b[0] == x && b[1..] == rest;
    } else {
      ShiftUp(x, m);
      assert b[0] == x % 128 + 128 && b[1..] == Uvarint(x / 128) + rest;
      ReadBack(x / 128, rest, i + 1, acc + (x % 128) * m);
    }
  }

  /** A value below 2^64 never needs an eleventh byte, nor a tenth above one. */
  lemma TenBytes(x: nat, i: nat)
    requires x * Pow128(i) < TWO_64 && (x >= 1 || i == 0)
    ensures i <= 9 && (i == 9 ==> x <= 1)
  {
    assert Pow128(9) == 0x8000_0000_0000_0000;
    assert Pow128(10) == 128 * Pow128(9);
    AtLeast(x, 1, Pow128(i));
    AtLeast(x, 2, Pow128(i));
    if i >= 9 {
      PowRises(9, i);
    }
    if i >= 10 {
      PowRises(10, i);
    }
  }

  lemma AtLeast(x: nat, k: nat, p: nat)
    ensures x >= k ==> x * p >= k * p
  {
  }

  lemma {:induction false} PowRises(i: nat, j: nat)
    requires i <= j
    ensures Pow128(i) <= Pow128(j)
  {
    if i < j {
      PowRises(i, j - 1);
    }
  }

  /** What is written as a variable-length integer is read back, and nothing behind it is touched. */
  lemma UvarintRoundTrip(x: U64, rest: Bytes)
    ensures TakeUvarint(Uvarint(x) + rest) == Done(x, rest)
  {
    assert Pow128(0) == 1;
    ReadBack(x, rest, 0, 0);
  }

  /** A value read is below 2^64 and consumes at least one byte. */
  lemma {:induction false} ReadBounded(b: Bytes, i: nat, m: nat, acc: nat)
    requires m == Pow128(i) && acc < m && i <= 9
    ensures ReadUvarint(b, i, m, acc).Done? ==>
              ReadUvarint(b, i, m, acc).value < TWO_64 && |ReadUvarint(b, i, m, acc).rest| < |b|
    decreases |b|
  {
    assert Pow128(9) == 0x8000_0000_0000_0000;
    if b != [] {
      if b[0] < 128 {
        PowRises(i, 9);
        if i < 9 {
          PowRises(i + 1, 9);
          assert b[0] * m <= 127 * m;
        } else {
          assert b[0] <= 1 ==> b[0] * m <= m;
        }
      } else if i < 9 {
        assert (b[0] - 128) * m <= 127 * m;
        ReadBounded(b[1..], i + 1, m * 128, acc + (b[0] - 128) * m);
      }
    }
  }

  lemma TakeBounded(b: Bytes)
    ensures TakeUvarint(b).Done? ==> TakeUvarint(b).value < TWO_64 && |TakeUvarint(b).rest| < |b|
  {
    assert Pow128(0) == 1;
    ReadBounded(b, 0, 1, 0);
  }

  /** parser.uvarint8. */
  function TakeSmall(b: Bytes): Parsed<nat> {
    var p := TakeUvarint(b);
    if p.Done? && p.value > 255 then Fail else p
  }

  /** parser.byte, read as a flag. */
  function TakeFlag(b: Bytes): Parsed<bool> {
    if b == [] then Fail else Done(b[0] == 1, b[1..])
  }

  function Flag(x: bool): Bytes {
    if x then [1] else [0]
  }

  lemma FlagRoundTrip(x: bool, rest: Bytes)
    ensures TakeFlag(Flag(x) + rest) == Done(x, rest)
  {
    assert (Flag(x) + rest)[1..] == rest;
  }

  lemma SmallRoundTrip(x: nat, rest: Bytes)
    requires x < 256
    ensures TakeSmall(Uvarint(x) + rest) == Done(x, rest)
  {
    UvarintRoundTrip(x, rest);
  }

  /** A run of integers, one after the other. */
  function Numbers(xs: seq<U64>): Bytes {
    if xs == [] then [] else Uvarint(xs[0]) + Numbers(xs[1..])
  }

  function TakeNumbers(b: Bytes, k: nat): (p: Parsed<seq<U64>>)
    ensures p.Done? ==> |p.value| == k
    decreases k
  {
    if k == 0 then Done([], b)
    else
      var first := TakeUvarint(b);
      if first.Fail? then Fail
      else
        TakeBounded(b);
        var others := TakeNumbers(first.rest, k - 1);
        if others.Fail? then Fail else Done([first.value] + others.value, others.rest)
  }

  lemma {:induction false} NumbersRoundTrip(xs: seq<U64>, rest: Bytes)
    ensures TakeNumbers(Numbers(xs) + rest, |xs|) == Done(xs, rest)
  {
    if xs == [] {
      assert Numbers(xs) + rest == rest;
    } else {
      var tail := Numbers(xs[1..]) + rest;
      assert Numbers(xs) + rest == Uvarint(xs[0]) + tail;
      UvarintRoundTrip(xs[0], tail);
      NumbersRoundTrip(xs[1..], rest);
      assert [xs[0]] + xs[1..] == xs;
    }
  }

  /** A length and that many integers, no more than the limit. */
  function NumberList(xs: seq<U64>): Bytes {
    Uvarint(|xs|) + Numbers(xs)
  }

  function TakeNumberList(b: Bytes, limit: nat): (p: Parsed<seq<U64>>)
    ensures p.Done? ==> |p.value| <= limit
  {
    var count := TakeUvarint(b);
    if count.Fail? || count.value > limit then Fail else TakeNumbers(count.rest, count.value)
  }

  lemma NumberListRoundTrip(xs: seq<U64>, limit: nat, rest: Bytes)
    requires |xs| <= limit < TWO_64
    ensures TakeNumberList(NumberList(xs) + rest, limit) == Done(xs, rest)
  {
    assert NumberList(xs) + rest == Uvarint(|xs|) + (Numbers(xs) + rest);
    UvarintRoundTrip(|xs|, Numbers(xs) + rest);
    NumbersRoundTrip(xs, rest);
  }

  /** A length and that many bytes. */
  function Blob(x: Bytes): Bytes {
    Uvarint(|x|) + x
  }

  /** parser.bytesBound. */
  function TakeBlob(b: Bytes, limit: nat): (p: Parsed<Bytes>)
    ensures p.Done? ==> |p.value| <= limit
  {
    var count := TakeUvarint(b);
    if count.Fail? || count.value > limit || count.value > |count.rest| then Fail
    else Done(count.rest[..count.value], count.rest[count.value..])
  }

  lemma BlobRoundTrip(x: Bytes, limit: nat, rest: Bytes)
    requires |x| <= limit < TWO_64
    ensures TakeBlob(Blob(x) + rest, limit) == Done(x, rest)
  {
    assert Blob(x) + rest == Uvarint(|x|) + (x + rest);
    UvarintRoundTrip(|x|, x + rest);
    assert (x + rest)[..|x|] == x && (x + rest)[|x|..] == rest;
  }

  /** A byte string beyond the limit is refused, whatever follows. */
  lemma BlobTooLong(x: Bytes, limit: nat, rest: Bytes)
    requires limit < |x| < TWO_64
    ensures TakeBlob(Blob(x) + rest, limit).Fail?
  {
    assert Blob(x) + rest == Uvarint(|x|) + (x + rest);
    UvarintRoundTrip(|x|, x + rest);
  }

  function Blobs(xs: seq<Bytes>): Bytes {
    if xs == [] then [] else Blob(xs[0]) + Blobs(xs[1..])
  }

  function TakeBlobs(b: Bytes, k: nat, limit: nat): (p: Parsed<seq<Bytes>>)
    ensures p.Done? ==> |p.value| == k
    decreases k
  {
    if k == 0 then Done([], b)
    else
      var first := TakeBlob(b, limit);
      if first.Fail? then Fail
      else
        var others := TakeBlobs(first.rest, k - 1, limit);
        if others.Fail? then Fail else Done([first.value] + others.value, others.rest)
  }

  /** All are within the limit, or reading stops at the first that is not. */
  lemma {:induction false} BlobsRoundTrip(xs: seq<Bytes>, limit: nat, rest: Bytes)
    requires limit < TWO_64 && forall x <- xs :: |x| < TWO_64
    ensures TakeBlobs(Blobs(xs) + rest, |xs|, limit) == if forall x <- xs :: |x| <= limit then Done(xs, rest) else Fail
  {
    if xs == [] {
      assert Blobs(xs) + rest == rest;
    } else {
      var tail := Blobs(xs[1..]) + rest;
      assert Blobs(xs) + rest == Blob(xs[0]) + tail;
      assert xs == [xs[0]] + xs[1..];
      BlobsRoundTrip(xs[1..], limit, rest);
      if |xs[0]| <= limit {
        BlobRoundTrip(xs[0], limit, tail);
      } else {
        BlobTooLong(xs[0], limit, tail);
      }
    }
  }
}
