/** Byte strings under the lexicographic order of bytes.Compare. */
module ByteOrder {

  type Byte = b: int | 0 <= b < 256

  type Bytes = seq<Byte>

  /** Strict lexicographic order: bytes.Compare(a, b) < 0. */
  predicate Less(a: Bytes, b: Bytes)
    decreases |a|
  {
    if b == [] then false
    else if a == [] then true
    else if a[0] != b[0] then a[0] < b[0]
    else Less(a[1..], b[1..])
  }

  /** bytes.Compare(a, b) <= 0. */
  predicate LessEq(a: Bytes, b: Bytes) {
    !Less(b, a)
  }

  lemma {:induction false} LessIrreflexive(a: Bytes)
    ensures !Less(a, a)
    decreases |a|
  {
    if a != [] {
      LessIrreflexive(a[1..]);
    }
  }

  lemma {:induction false} LessTransitive(a: Bytes, b: Bytes, c: Bytes)
    requires Less(a, b) && Less(b, c)
    ensures Less(a, c)
    decreases |a|
  {
    if a != [] && a[0] == b[0] && b[0] == c[0] {
      LessTransitive(a[1..], b[1..], c[1..]);
    }
  }

  lemma {:induction false} LessTrichotomy(a: Bytes, b: Bytes)
    ensures Less(a, b) || a == b || Less(b, a)
    ensures Less(a, b) ==> a != b && !Less(b, a)
    decreases |a|
  {
    if a != [] && b != [] && a[0] == b[0] {
      LessTrichotomy(a[1..], b[1..]);
      assert a == [a[0]] + a[1..] && b == [b[0]] + b[1..];
    }
  }

  /** a and b agree before position k, where a ends or has the smaller byte. */
  ghost predicate LowerAt(a: Bytes, b: Bytes, k: nat) {
    k <= |a| && k < |b| && a[..k] == b[..k] && (k == |a| || a[k] < b[k])
  }

  /** The order is decided at the first difference; a proper prefix comes first. */
  lemma {:induction false} LessMeaning(a: Bytes, b: Bytes)
    ensures Less(a, b) <==> exists k :: LowerAt(a, b, k)
    decreases |a|
  {
    if b != [] && a == [] {
      assert LowerAt(a, b, 0);
    } else if b != [] && a[0] != b[0] {
      if a[0] < b[0] {
        assert LowerAt(a, b, 0);
      } else {
        forall k: nat
          ensures !LowerAt(a, b, k)
        {
          if 0 < k <= |a| && k < |b| {
            assert a[..k][0] == a[0] && b[..k][0] == b[0];
          }
        }
      }
    } else if b != [] {
      LessMeaning(a[1..], b[1..]);
      LowerBehind(a, b);
    }
  }

  lemma LowerBehind(a: Bytes, b: Bytes)
    requires a != [] && b != [] && a[0] == b[0]
    ensures (exists k :: LowerAt(a, b, k)) <==> exists k :: LowerAt(a[1..], b[1..], k)
  {
    if k: nat :| LowerAt(a, b, k) {
      assert k > 0;
      assert a[1..][..k - 1] == a[..k][1..] && b[1..][..k - 1] == b[..k][1..];
      assert LowerAt(a[1..], b[1..], k - 1);
    }
    if k: nat :| LowerAt(a[1..], b[1..], k) {
      assert a[..k + 1] == [a[0]] + a[1..][..k] && b[..k + 1] == [b[0]] + b[1..][..k];
      assert LowerAt(a, b, k + 1);
    }
  }

  /** The order laws at three points, in the mixed strict and non-strict forms the indexes use. */
  lemma OrderLaws(a: Bytes, b: Bytes, c: Bytes)
    ensures Less(a, b) && Less(b, c) ==> Less(a, c)
    ensures LessEq(a, b) && Less(b, c) ==> Less(a, c)
    ensures Less(a, b) && LessEq(b, c) ==> Less(a, c)
    ensures LessEq(a, b) && LessEq(b, c) ==> LessEq(a, c)
    ensures LessEq(a, b) && LessEq(b, a) ==> a == b
    ensures LessEq(a, a)
    ensures Less(a, b) ==> LessEq(a, b) && a != b
    ensures a == b || Less(a, b) || Less(b, a)
  {
    LessIrreflexive(a);
    LessTrichotomy(a, b);
    LessTrichotomy(b, c);
    LessTrichotomy(a, c);
    if Less(a, b) && Less(b, c) { LessTransitive(a, b, c); }
    if Less(c, a) && Less(a, b) { LessTransitive(c, a, b); }
    if Less(b, c) && Less(c, a) { LessTransitive(b, c, a); }
    if Less(c, b) && Less(b, a) { LessTransitive(c, b, a); }
  }

  /** Every key has an immediate successor: appending the zero byte leaves no key in between. */
  lemma {:induction false} NoKeyBelowSuccessor(a: Bytes, k: Bytes)
    ensures Less(a, a + [0])
    ensures Less(k, a + [0]) <==> LessEq(k, a)
    decreases |a|
  {
    if a == [] {
      assert a + [0] == [0];
      if k != [] {
        assert !Less(k[1..], []);
      }
    } else {
      assert (a + [0])[1..] == a[1..] + [0];
      NoKeyBelowSuccessor(a[1..], if k == [] then [] else k[1..]);
    }
  }
}
