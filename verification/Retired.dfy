/**
 The summary of retired sequence numbers: a short list of breakpoints that never reports less than
 the true prefix maximum of everything added, and reports exactly that until it is compressed.
 */
module Retired {

  datatype Breakpoint = Breakpoint(through: nat, maxSeq: nat)

  const CAP := 64

  ghost predicate RisesAt(bs: seq<Breakpoint>, i: int, j: int) {
    0 <= i < j < |bs| ==> bs[i].through < bs[j].through && bs[i].maxSeq < bs[j].maxSeq
  }

  /** Strictly increasing in both fields. */
  ghost predicate Rising(bs: seq<Breakpoint>) {
    forall i, j :: RisesAt(bs, i, j)
  }

  function Max(a: nat, b: nat): nat {
    if a < b then b else a
  }

  /** The largest sequence number added at or below the bound. */
  function PrefixMax(s: seq<Breakpoint>, t: nat): nat {
    if s == [] then 0 else Max(if s[0].through <= t then s[0].maxSeq else 0, PrefixMax(s[1..], t))
  }

  lemma {:induction false} PrefixMaxConcat(a: seq<Breakpoint>, b: seq<Breakpoint>, t: nat)
    ensures PrefixMax(a + b, t) == Max(PrefixMax(a, t), PrefixMax(b, t))
  {
    if a == [] {
      assert a + b == b;
    } else {
      assert (a + b)[1..] == a[1..] + b;
      PrefixMaxConcat(a[1..], b, t);
    }
  }

  lemma {:induction false} PrefixMaxBound(s: seq<Breakpoint>, t: nat, v: nat)
    requires forall x <- s :: x.through <= t ==> x.maxSeq <= v
    ensures PrefixMax(s, t) <= v
  {
    if s != [] {
      PrefixMaxBound(s[1..], t, v);
    }
  }

  lemma {:induction false} PrefixMaxCovers(s: seq<Breakpoint>, t: nat, i: nat)
    requires i < |s| && s[i].through <= t
    ensures s[i].maxSeq <= PrefixMax(s, t)
  {
    if i > 0 {
      PrefixMaxCovers(s[1..], t, i - 1);
    }
  }

  lemma {:induction false} PrefixMaxRises(s: seq<Breakpoint>, t: nat, u: nat)
    requires t <= u
    ensures PrefixMax(s, t) <= PrefixMax(s, u)
  {
    if s != [] {
      PrefixMaxRises(s[1..], t, u);
    }
  }

  /** What a compressed list still knows of the entries it dropped. */
  function Floor(bs: seq<Breakpoint>, compressed: bool): nat {
    if compressed && bs != [] then bs[0].maxSeq else 0
  }

  function Answer(bs: seq<Breakpoint>, compressed: bool, t: nat): nat {
    Max(Floor(bs, compressed), PrefixMax(bs, t))
  }

  /** In a rising list the entries at or below the bound are a prefix, and the last of them has the maximum. */
  lemma RisingPrefixMax(bs: seq<Breakpoint>, t: nat, lo: nat)
    requires Rising(bs) && lo <= |bs| && (forall i | 0 <= i < lo :: bs[i].through <= t) && forall i | lo <= i < |bs| ::
             bs[i].through > t
    ensures PrefixMax(bs, t) == if lo == 0 then 0 else bs[lo - 1].maxSeq
  {
    var v := if lo == 0 then 0 else bs[lo - 1].maxSeq;
    forall x | x in bs && x.through <= t
      ensures x.maxSeq <= v
    {
      var i :| 0 <= i < |bs| && bs[i] == x;
      assert RisesAt(bs, i, lo - 1);
    }
    PrefixMaxBound(bs, t, v);
    if lo > 0 {
      PrefixMaxCovers(bs, t, lo - 1);
    }
  }

  /** An entry replaces the ones at or above it that are no larger. */
  lemma Replaces(a: seq<Breakpoint>, m: seq<Breakpoint>, b: seq<Breakpoint>, x: Breakpoint, t: nat)
    requires forall y <- m :: y.through >= x.through && y.maxSeq <= x.maxSeq
    ensures PrefixMax(a + [x] + b, t) == Max(PrefixMax(a + m + b, t), PrefixMax([x], t))
  {
    PrefixMaxConcat(a + [x], b, t);
    PrefixMaxConcat(a, [x], t);
    PrefixMaxConcat(a + m, b, t);
    PrefixMaxConcat(a, m, t);
    PrefixMaxBound(m, t, PrefixMax([x], t));
  }

  class Summary {
    var breakpoints: seq<Breakpoint>
    var compressed: bool
    ghost var added: seq<Breakpoint>

    ghost predicate Valid()
      reads this
    {
      && Rising(breakpoints) && |breakpoints| <= CAP
      && forall t: nat :: Faithful(breakpoints, compressed, added, t)
    }

    constructor ()
      ensures Valid() && added == []
    {
      breakpoints, compressed, added := [], false, [];
    }

    /** retiredPrefixMaxSeq: a binary search for the last breakpoint at or below the bound. */
    method Query(t: nat) returns (v: nat)
      requires Valid()
      ensures v == Answer(breakpoints, compressed, t)
      ensures v >= PrefixMax(added, t) && (!compressed ==> v == PrefixMax(added, t))
    {
      assert Faithful(breakpoints, compressed, added, t);
      if breakpoints == [] {
        return 0;
      }
      if t < breakpoints[0].through {
        forall i | 0 <= i < |breakpoints|
          ensures breakpoints[i].through > t
        {
          assert RisesAt(breakpoints, 0, i);
        }
        RisingPrefixMax(breakpoints, t, 0);
        return if compressed then breakpoints[0].maxSeq else 0;
      }
      var lo, hi := 0, |breakpoints|;
      while lo < hi
        invariant 0 <= lo <= hi <= |breakpoints|
        invariant forall i | 0 <= i < lo :: breakpoints[i].through <= t
        invariant forall i | hi <= i < |breakpoints| :: breakpoints[i].through > t
      {
        var mid := (lo + hi) / 2;
        if breakpoints[mid].through <= t {
          forall i | 0 <= i <= mid
            ensures breakpoints[i].through <= t
          {
            assert RisesAt(breakpoints, i, mid);
          }
          lo := mid + 1;
        } else {
          forall i | mid <= i < |breakpoints|
            ensures breakpoints[i].through > t
          {
            assert RisesAt(breakpoints, mid, i);
          }
          hi := mid;
        }
      }
      RisingPrefixMax(breakpoints, t, lo);
      assert RisesAt(breakpoints, 0, lo - 1);
      v := breakpoints[lo - 1].maxSeq;
    }

    /** addRetiredSeq. */
    method Add(through: nat, maxSeq: nat)
      requires Valid()
      modifies this
      ensures Valid() && added == old(added) + [Breakpoint(through, maxSeq)]
      ensures old(compressed) ==> compressed
      ensures forall t: nat :: NotLower(old(breakpoints), old(compressed), breakpoints, compressed, t)
    {
      var x := Breakpoint(through, maxSeq);
      var prior := Query(through);
      added := added + [x];
      if maxSeq <= prior {
        Ignored(breakpoints, compressed, old(added), x);
        return;
      }
      var pos, end := Span(breakpoints, x, prior);
      var spliced := breakpoints[..pos] + [x] + breakpoints[end..];
      SplicedFaithful(breakpoints, compressed, old(added), x, pos, end, prior);
      breakpoints := spliced;
      if |breakpoints| > CAP {
        var drop := |breakpoints| - CAP;
        DroppedFaithful(spliced, compressed, added, drop);
        breakpoints := breakpoints[drop..];
        compressed := true;
        forall t: nat
          ensures NotLower(old(breakpoints), old(compressed), breakpoints, compressed, t)
        {
          assert NotLower(old(breakpoints), old(compressed), spliced, old(compressed), t);
          assert NotLower(spliced, old(compressed), breakpoints, true, t);
        }
      }
    }
  }

  /** The new list answers at least what the old one did. */
  ghost predicate NotLower(bs: seq<Breakpoint>, compressed: bool, after: seq<Breakpoint>, squeezed: bool, t: nat) {
    Answer(bs, compressed, t) <= Answer(after, squeezed, t)
  }

  /** At the bound t the answer covers what was added, and is exact while nothing was dropped. */
  ghost predicate Faithful(bs: seq<Breakpoint>, compressed: bool, added: seq<Breakpoint>, t: nat) {
    Answer(bs, compressed, t) >= PrefixMax(added, t) && (!compressed ==> PrefixMax(bs, t) == PrefixMax(added, t))
  }

  /** An addition the list already covers changes no answer. */
  lemma Ignored(bs: seq<Breakpoint>, compressed: bool, added: seq<Breakpoint>, x: Breakpoint)
    requires x.maxSeq <= Answer(bs, compressed, x.through) && forall t: nat :: Faithful(bs, compressed, added, t)
    ensures forall t: nat :: Faithful(bs, compressed, added + [x], t)
  {
    forall t: nat
      ensures Faithful(bs, compressed, added + [x], t)
    {
      assert Faithful(bs, compressed, added, t);
      PrefixMaxConcat(added, [x], t);
      if x.through <= t {
        PrefixMaxRises(bs, x.through, t);
      }
    }
  }

  /** The entries an addition makes redundant: from the first at or above it, while they are no larger. */
  method Span(bs: seq<Breakpoint>, x: Breakpoint, prior: nat) returns (pos: nat, end: nat)
    requires Rising(bs) && PrefixMax(bs, x.through) <= prior < x.maxSeq
    ensures Cut(bs, x, pos, end)
  {
    pos := 0;
    while pos < |bs| && bs[pos].through < x.through
      invariant pos <= |bs| && forall i | 0 <= i < pos :: bs[i].through < x.through
    {
      pos := pos + 1;
    }
    end := pos;
    while end < |bs| && bs[end].maxSeq <= x.maxSeq
      invariant pos <= end <= |bs| && forall i | pos <= i < end :: bs[i].maxSeq <= x.maxSeq
    {
      end := end + 1;
    }
    CutHolds(bs, x, pos, end);
  }

  ghost predicate CutAt(bs: seq<Breakpoint>, x: Breakpoint, pos: nat, end: nat, i: int) {
    && (0 <= i < pos <= |bs| ==> bs[i].through < x.through && bs[i].maxSeq < x.maxSeq)
    && (pos <= i < end <= |bs| ==> bs[i].through >= x.through && bs[i].maxSeq <= x.maxSeq)
    && (end <= i < |bs| ==> bs[i].through > x.through && bs[i].maxSeq > x.maxSeq)
  }

  ghost predicate Cut(bs: seq<Breakpoint>, x: Breakpoint, pos: nat, end: nat) {
    pos <= end <= |bs| && forall i :: CutAt(bs, x, pos, end, i)
  }

  lemma CutHolds(bs: seq<Breakpoint>, x: Breakpoint, pos: nat, end: nat)
    requires Rising(bs) && pos <= end <= |bs| && PrefixMax(bs, x.through) < x.maxSeq
    requires (forall i | 0 <= i < pos :: bs[i].through < x.through) && (pos < |bs| ==> bs[pos].through >= x.through)
    requires (forall i | pos <= i < end :: bs[i].maxSeq <= x.maxSeq) && (end < |bs| ==> bs[end].maxSeq > x.maxSeq)
    ensures Cut(bs, x, pos, end)
  {
    forall i
      ensures CutAt(bs, x, pos, end, i)
    {
      assert RisesAt(bs, pos, i) && RisesAt(bs, end, i);
      if 0 <= i < |bs| && bs[i].through <= x.through {
        PrefixMaxCovers(bs, x.through, i);
      }
    }
  }

  lemma SplicedFaithful(bs: seq<Breakpoint>, compressed: bool, added: seq<Breakpoint>, x: Breakpoint, pos: nat,
                        end: nat, prior: nat)
    requires Rising(bs) && Cut(bs, x, pos, end) && prior == Answer(bs, compressed, x.through) < x.maxSeq
    requires forall t: nat :: Faithful(bs, compressed, added, t)
    ensures Rising(bs[..pos] + [x] + bs[end..])
    ensures forall t: nat :: Faithful(bs[..pos] + [x] + bs[end..], compressed, added + [x], t)
    ensures forall t: nat :: NotLower(bs, compressed, bs[..pos] + [x] + bs[end..], compressed, t)
  {
    var s := bs[..pos] + [x] + bs[end..];
    var shift := end - pos - 1;
    forall i, j
      ensures RisesAt(s, i, j)
    {
      assert RisesAt(bs, i, j) && RisesAt(bs, i, j + shift) && RisesAt(bs, i + shift, j + shift);
      assert CutAt(bs, x, pos, end, i) && CutAt(bs, x, pos, end, j + shift);
    }
    assert bs == bs[..pos] + bs[pos..end] + bs[end..];
    forall y | y in bs[pos..end]
      ensures y.through >= x.through && y.maxSeq <= x.maxSeq
    {
      var i :| 0 <= i < end - pos && bs[pos..end][i] == y;
      assert CutAt(bs, x, pos, end, pos + i);
    }
    forall t: nat
      ensures Faithful(s, compressed, added + [x], t) && NotLower(bs, compressed, s, compressed, t)
    {
      assert Faithful(bs, compressed, added, t);
      PrefixMaxConcat(added, [x], t);
      Replaces(bs[..pos], bs[pos..end], bs[end..], x, t);
      assert pos > 0 ==> s[0] == bs[0];
    }
  }

  /** Dropping the lowest entries only raises answers. */
  lemma DroppedFaithful(bs: seq<Breakpoint>, compressed: bool, added: seq<Breakpoint>, drop: nat)
    requires Rising(bs) && drop < |bs| && forall t: nat :: Faithful(bs, compressed, added, t)
    ensures Rising(bs[drop..]) && forall t: nat :: Faithful(bs[drop..], true, added, t)
    ensures forall t: nat :: NotLower(bs, compressed, bs[drop..], true, t)
  {
    var s := bs[drop..];
    forall i, j
      ensures RisesAt(s, i, j)
    {
      assert RisesAt(bs, i + drop, j + drop);
    }
    assert bs == bs[..drop] + s;
    forall t: nat
      ensures Faithful(s, true, added, t) && NotLower(bs, compressed, s, true, t)
    {
      assert Faithful(bs, compressed, added, t);
      PrefixMaxConcat(bs[..drop], s, t);
      forall x | x in bs[..drop]
        ensures x.maxSeq <= s[0].maxSeq
      {
        var i :| 0 <= i < drop && bs[..drop][i] == x;
        assert RisesAt(bs, i, drop);
      }
      PrefixMaxBound(bs[..drop], t, s[0].maxSeq);
      assert RisesAt(bs, 0, drop);
    }
  }
}
