/** Sequence numbers with dependency vectors, and the merge and cover operations on them. */
module Attributes {
  import opened Types

  datatype Attrs = Attrs(seqNo: U64, deps: seq<InstanceNum>)

  const NO_ATTRS := Attrs(0, [])

  function Max(a: U64, b: U64): U64 {
    if a < b then b else a
  }

  function MergeDeps(a: seq<InstanceNum>, b: seq<InstanceNum>): seq<InstanceNum> {
    if a == [] then b
    else if b == [] then a
    else [Max(a[0], b[0])] + MergeDeps(a[1..], b[1..])
  }

  /** mergeAttrs: pointwise maximum, with the sequence number raised to at least one. */
  function Merge(a: Attrs, b: Attrs): Attrs {
    Attrs(Max(1, Max(a.seqNo, b.seqNo)), MergeDeps(a.deps, b.deps))
  }

  /** attrsCover: candidate is at least base in every component. */
  predicate Cover(base: Attrs, candidate: Attrs) {
    && base.seqNo <= candidate.seqNo && |base.deps| <= |candidate.deps|
    && forall i | 0 <= i < |base.deps| :: base.deps[i] <= candidate.deps[i]
  }

  lemma {:induction false} MergeDepsAt(a: seq<InstanceNum>, b: seq<InstanceNum>)
    ensures |MergeDeps(a, b)| == if |a| < |b| then |b| else |a|
    ensures forall i | 0 <= i < |MergeDeps(a, b)| ::
              MergeDeps(a, b)[i] == Max(if i < |a| then a[i] else 0, if i < |b| then b[i] else 0)
  {
    if a != [] && b != [] {
      MergeDepsAt(a[1..], b[1..]);
    }
  }

  /** Merging is the least upper bound in the cover order, above one. */
  lemma MergeIsLeast(a: Attrs, b: Attrs, c: Attrs)
    ensures Cover(a, Merge(a, b)) && Cover(b, Merge(a, b)) && Merge(a, b).seqNo >= 1
    ensures c.seqNo >= 1 ==> (Cover(Merge(a, b), c) <==> Cover(a, c) && Cover(b, c))
  {
    MergeDepsAt(a.deps, b.deps);
    if c.seqNo >= 1 && Cover(Merge(a, b), c) {
      forall i | 0 <= i < |a.deps|
        ensures a.deps[i] <= c.deps[i]
      {
        assert MergeDeps(a.deps, b.deps)[i] <= c.deps[i];
      }
      forall i | 0 <= i < |b.deps|
        ensures b.deps[i] <= c.deps[i]
      {
        assert MergeDeps(a.deps, b.deps)[i] <= c.deps[i];
      }
    }
  }

  /** Merging a tuple with itself changes nothing once it carries a sequence number. */
  lemma MergeIdempotent(a: Attrs)
    requires a.seqNo >= 1
    ensures Merge(a, a) == a
  {
    MergeDepsAt(a.deps, a.deps);
    assert MergeDeps(a.deps, a.deps) == a.deps;
  }
}
