/** Queries of the radix tree: counts, prefix maxima and descending walks, against the slots below a node. */
module RadixQueries {
  import opened Types
  import opened Radix

  // Counting.

  ghost function LeafKeys(slots: seq<Option<Slot>>, prefix: nat, k: nat): set<nat>
    requires k <= |slots|
  {
    if k == 0 then {}
    else if slots[k - 1].None? then LeafKeys(slots, prefix, k - 1)
    else LeafKeys(slots, prefix, k - 1) + {prefix + k - 1}
  }

  ghost function InnerKeys(children: seq<Node>, level: nat, prefix: nat, k: nat): set<nat>
    requires k <= |children| && level >= 1
    decreases level, k
  {
    if k == 0 then {} else InnerKeys(children, level, prefix, k - 1) + Keys(children[k - 1], level - 1,
        ChildPrefix(prefix, level, k - 1))
  }

  /** The instances that have a slot below the node. */
  ghost function Keys(n: Node, level: nat, prefix: nat): set<nat>
    decreases level, FANOUT + 1
  {
    if n.Nil? then {}
    else if level == 0 then LeafKeys(Slots(n), prefix, FANOUT)
    else InnerKeys(Children(n), level, prefix, FANOUT)
  }

  lemma {:induction false} LeafMember(slots: seq<Option<Slot>>, prefix: nat, k: nat, j: nat)
    requires k <= |slots|
    ensures j in LeafKeys(slots, prefix, k) <==> prefix <= j < prefix + k && slots[j - prefix].Some?
  {
    if k > 0 {
      LeafMember(slots, prefix, k - 1, j);
    }
  }

  lemma {:induction false} LeafCount(slots: seq<Option<Slot>>, prefix: nat, k: nat)
    requires k <= |slots|
    ensures |LeafKeys(slots, prefix, k)| == LeafAgg(slots, prefix, k).count
  {
    if k > 0 {
      LeafCount(slots, prefix, k - 1);
      LeafMember(slots, prefix, k - 1, prefix + k - 1);
    }
  }

  /** The instances below a node lie in its range. */
  ghost predicate Ranged(n: Node, level: nat, prefix: nat, j: nat) {
    j in Keys(n, level, prefix) ==> Within(j, prefix, level)
  }

  ghost predicate ChildRanged(children: seq<Node>, level: nat, prefix: nat, d: int, j: nat) {
    level >= 1 && 0 <= d < |children| ==> Ranged(children[d], level - 1, ChildPrefix(prefix, level, d), j)
  }

  /** An instance is found below the child its digit names, and nowhere else. */
  lemma {:induction false} InnerMember(children: seq<Node>, level: nat, prefix: nat, k: nat, j: nat)
    requires k <= |children| == FANOUT && level >= 1 && Aligned(prefix, level)
    requires forall d :: ChildRanged(children, level, prefix, d, j)
    ensures j in InnerKeys(children, level, prefix, k) <==>
            && Digit(j, level) < k && Within(j, prefix, level)
            && j in Keys(children[Digit(j, level)], level - 1, ChildPrefix(prefix, level, Digit(j, level)))
    decreases k
  {
    if k > 0 {
      var d := k - 1;
      InnerMember(children, level, prefix, d, j);
      assert ChildRanged(children, level, prefix, d, j);
      ChildRange(prefix, level, d, j);
      if Within(j, prefix, level) {
        Locate(j, prefix, level);
      }
    }
  }

  /** The d-th child adds only instances that no earlier child has, and as many as it counts. */
  ghost predicate Adds(children: seq<Node>, level: nat, prefix: nat, d: int) {
    level >= 1 && 0 <= d < |children| ==>
      && InnerKeys(children, level, prefix, d) !! Keys(children[d], level - 1, ChildPrefix(prefix, level, d))
      && |Keys(children[d], level - 1, ChildPrefix(prefix, level, d))| == AggOf(children[d]).count
  }

  lemma ChildAdds(children: seq<Node>, level: nat, prefix: nat, d: nat)
    requires d < |children| == FANOUT && level >= 1 && Aligned(prefix, level)
    requires forall e, j :: ChildRanged(children, level, prefix, e, j)
    requires |Keys(children[d], level - 1, ChildPrefix(prefix, level, d))| == AggOf(children[d]).count
    ensures Adds(children, level, prefix, d)
  {
    forall j | j in Keys(children[d], level - 1, ChildPrefix(prefix, level, d))
      ensures j !in InnerKeys(children, level, prefix, d)
    {
      InnerMember(children, level, prefix, d, j);
      assert ChildRanged(children, level, prefix, d, j);
      ChildRange(prefix, level, d, j);
    }
  }

  lemma {:induction false} InnerCount(children: seq<Node>, level: nat, prefix: nat, k: nat)
    requires k <= |children| && level >= 1 && forall d :: Adds(children, level, prefix, d)
    ensures |InnerKeys(children, level, prefix, k)| == InnerAgg(children, k).count
    decreases k
  {
    if k > 0 {
      var d := k - 1;
      assert Adds(children, level, prefix, d);
      InnerCount(children, level, prefix, d);
      var before, last := InnerKeys(children, level, prefix, d),
          Keys(children[d], level - 1, ChildPrefix(prefix, level, d));
      assert |before + last| == |before| + |last|;
    }
  }

  lemma {:induction false} KeysRanged(n: Node, level: nat, prefix: nat, j: nat)
    requires Shape(n, level, prefix) && Aligned(prefix, level)
    ensures Ranged(n, level, prefix, j)
    decreases level
  {
    if !n.Nil? {
      if level == 0 {
        LeafMember(n.slots, prefix, FANOUT, j);
      } else {
        forall d
          ensures ChildRanged(n.children, level, prefix, d, j)
        {
          if 0 <= d < FANOUT {
            ChildrenShape(n, level, prefix, d);
            ChildRange(prefix, level, d, j);
            KeysRanged(n.children[d], level - 1, ChildPrefix(prefix, level, d), j);
          }
        }
        InnerMember(n.children, level, prefix, FANOUT, j);
      }
    }
  }

  lemma ChildrenRanged(n: Node, level: nat, prefix: nat)
    requires Shape(n, level, prefix) && Aligned(prefix, level) && level >= 1 && !n.Nil?
    ensures forall d, j :: ChildRanged(n.children, level, prefix, d, j)
  {
    forall d, j
      ensures ChildRanged(n.children, level, prefix, d, j)
    {
      if 0 <= d < FANOUT {
        ChildrenShape(n, level, prefix, d);
        ChildRange(prefix, level, d, j);
        KeysRanged(n.children[d], level - 1, ChildPrefix(prefix, level, d), j);
      }
    }
  }

  /** The count of a node is the number of instances below it. */
  lemma {:induction false} Counted(n: Node, level: nat, prefix: nat)
    requires Shape(n, level, prefix) && Aligned(prefix, level)
    ensures |Keys(n, level, prefix)| == AggOf(n).count
    decreases level
  {
    if !n.Nil? {
      if level == 0 {
        LeafCount(n.slots, prefix, FANOUT);
      } else {
        ChildrenRanged(n, level, prefix);
        forall d
          ensures Adds(n.children, level, prefix, d)
        {
          if 0 <= d < FANOUT {
            ChildrenShape(n, level, prefix, d);
            ChildRange(prefix, level, d, 0);
            Counted(n.children[d], level - 1, ChildPrefix(prefix, level, d));
            ChildAdds(n.children, level, prefix, d);
          }
        }
        InnerCount(n.children, level, prefix, FANOUT);
      }
    }
  }

  /** The instances below a node are those whose lookup finds a slot. */
  lemma {:induction false} KeysAreSlots(n: Node, level: nat, prefix: nat, j: nat)
    requires Shape(n, level, prefix) && Aligned(prefix, level) && Within(j, prefix, level)
    ensures j in Keys(n, level, prefix) <==> Get(n, level, j).Some?
    decreases level
  {
    if !n.Nil? {
      var e := Digit(j, level);
      Locate(j, prefix, level);
      if level == 0 {
        ChildPrefixIs(prefix, 0, e);
        LeafMember(n.slots, prefix, FANOUT, j);
      } else {
        ChildrenRanged(n, level, prefix);
        InnerMember(n.children, level, prefix, FANOUT, j);
        ChildrenShape(n, level, prefix, e);
        ChildRange(prefix, level, e, j);
        KeysAreSlots(n.children[e], level - 1, ChildPrefix(prefix, level, e), j);
      }
    }
  }

  // The largest eligible sequence number at or below a bound.

  /** prefixMaxRadix; limited says that through lies in the node's own range. */
  function PrefixMax(n: Node, level: nat, through: nat, limited: bool): nat
    decreases level, FANOUT + 1
  {
    if n.Nil? then 0
    else if !limited then n.agg.maxSeq
    else if level == 0 then LeafAgg(Slots(n), 0, Digit(through, 0) + 1).maxSeq
    else InnerPrefixMax(Children(n), level, through, Digit(through, level), Digit(through, level) + 1)
  }

  function InnerPrefixMax(children: seq<Node>, level: nat, through: nat, last: nat, k: nat): nat
    requires k <= |children| && level >= 1
    decreases level, k
  {
    if k == 0 then 0
    else Max(InnerPrefixMax(children, level, through, last, k - 1),
             PrefixMax(children[k - 1], level - 1, through, k - 1 == last))
  }

  /** The slot at j counts: it is eligible and not beyond the bound. */
  ghost predicate Counts(n: Node, level: nat, prefix: nat, through: nat, limited: bool, j: nat) {
    EligibleAt(n, level, prefix, j) && (limited ==> j <= through)
  }

  ghost predicate IsPrefixMax(n: Node, level: nat, prefix: nat, through: nat, limited: bool, v: nat) {
    Bounded(n, level, prefix, through, limited, v) && (v == 0 || Attained(n, level, prefix, through, limited, v))
  }

  ghost predicate Bounded(n: Node, level: nat, prefix: nat, through: nat, limited: bool, v: nat) {
    forall j :: BoundedAt(n, level, prefix, through, limited, v, j)
  }

  ghost predicate BoundedAt(n: Node, level: nat, prefix: nat, through: nat, limited: bool, v: nat, j: nat) {
    Counts(n, level, prefix, through, limited, j) ==> Get(n, level, j).value.seqNo <= v
  }

  ghost predicate Attained(n: Node, level: nat, prefix: nat, through: nat, limited: bool, v: nat) {
    exists j :: AttainedAt(n, level, prefix, through, limited, v, j)
  }

  ghost predicate AttainedAt(n: Node, level: nat, prefix: nat, through: nat, limited: bool, v: nat, j: nat) {
    Counts(n, level, prefix, through, limited, j) && Get(n, level, j).value.seqNo == v
  }

  lemma {:induction false} LeafSeqBound(slots: seq<Option<Slot>>, prefix: nat, k: nat)
    requires k <= |slots|
    ensures LeafAgg(slots, prefix, k).maxSeq == LeafAgg(slots, 0, k).maxSeq
  {
    if k > 0 {
      LeafSeqBound(slots, prefix, k - 1);
    }
  }

  lemma LeafPrefixMax(n: Node, prefix: nat, through: nat)
    requires Shape(n, 0, prefix) && !n.Nil? && Aligned(prefix, 0) && Within(through, prefix, 0)
    ensures IsPrefixMax(n, 0, prefix, through, true, PrefixMax(n, 0, through, true))
  {
    var last := Digit(through, 0);
    var v := PrefixMax(n, 0, through, true);
    LeafDigit(prefix, through);
    LeafSeqBound(n.slots, prefix, last + 1);
    forall j
      ensures BoundedAt(n, 0, prefix, through, true, v, j)
    {
      if Counts(n, 0, prefix, through, true, j) {
        LeafDigit(prefix, j);
        LeafBound(n.slots, prefix, last + 1, Digit(j, 0));
      }
    }
    if v > 0 {
      var s, a, g := LeafAttained(n.slots, prefix, last + 1);
      LeafDigit(prefix, prefix + s);
      assert AttainedAt(n, 0, prefix, through, true, v, prefix + s);
    }
  }

  /** All instances of an earlier child lie below those of a later one. */
  lemma ChildBelow(prefix: nat, level: nat, d: nat, e: nat, i: nat, j: nat)
    requires level >= 1 && d < e
    requires Within(i, ChildPrefix(prefix, level, d), level - 1) && Within(j, ChildPrefix(prefix, level, e), level - 1)
    ensures i < j
  {
    ChildPrefixRises(prefix, level, d, e);
  }

  /** What the first k children contribute to a limited query. */
  ghost predicate IsInnerMax(children: seq<Node>, level: nat, prefix: nat, through: nat, last: nat, k: nat, v: nat)
    requires level >= 1
  {
    && (forall d :: ChildBounded(children, level, prefix, through, last, k, v, d))
    && (v == 0 || exists d :: ChildAttains(children, level, prefix, through, last, k, v, d))
  }

  ghost predicate ChildBounded(children: seq<Node>, level: nat, prefix: nat, through: nat, last: nat, k: nat, v: nat,
                               d: int)
    requires level >= 1
  {
    0 <= d < k <= |children| ==> Bounded(children[d], level - 1, ChildPrefix(prefix, level, d), through, d == last, v)
  }

  ghost predicate ChildAttains(children: seq<Node>, level: nat, prefix: nat, through: nat, last: nat, k: nat, v: nat,
                               d: int)
    requires level >= 1
  {
    0 <= d < k <= |children| && Attained(children[d], level - 1, ChildPrefix(prefix, level, d), through, d == last, v)
  }

  lemma BoundedMore(n: Node, level: nat, prefix: nat, through: nat, limited: bool, v: nat, w: nat)
    requires Bounded(n, level, prefix, through, limited, v) && v <= w
    ensures Bounded(n, level, prefix, through, limited, w)
  {
    forall j
      ensures BoundedAt(n, level, prefix, through, limited, w, j)
    {
      assert BoundedAt(n, level, prefix, through, limited, v, j);
    }
  }

  lemma {:induction false} InnerMax(children: seq<Node>, level: nat, prefix: nat, through: nat, last: nat, k: nat)
    requires level >= 1 && k <= |children|
    requires forall d | 0 <= d < k ::
               IsPrefixMax(children[d], level - 1, ChildPrefix(prefix, level, d), through, d == last,
                           PrefixMax(children[d], level - 1, through, d == last))
    ensures IsInnerMax(children, level, prefix, through, last, k, InnerPrefixMax(children, level, through, last, k))
    decreases k
  {
    if k > 0 {
      var e := k - 1;
      InnerMax(children, level, prefix, through, last, e);
      var prior, own := InnerPrefixMax(children, level, through, last, e),
          PrefixMax(children[e], level - 1, through, e == last);
      var v := InnerPrefixMax(children, level, through, last, k);
      forall d
        ensures ChildBounded(children, level, prefix, through, last, k, v, d)
      {
        assert ChildBounded(children, level, prefix, through, last, e, prior, d);
        if 0 <= d < k {
          BoundedMore(children[d], level - 1, ChildPrefix(prefix, level, d), through, d == last, if d == e then own
                      else prior, v);
        }
      }
      if v > 0 {
        if v == own {
          assert ChildAttains(children, level, prefix, through, last, k, v, e);
        } else {
          var d :| ChildAttains(children, level, prefix, through, last, e, prior, d);
          assert ChildAttains(children, level, prefix, through, last, k, v, d);
        }
      }
    }
  }

  lemma UnlimitedMax(n: Node, level: nat, prefix: nat, through: nat)
    requires Shape(n, level, prefix) && Aligned(prefix, level)
    ensures IsPrefixMax(n, level, prefix, through, false, AggOf(n).maxSeq)
  {
    AggAttained(n, level, prefix);
    var v := AggOf(n).maxSeq;
    forall j
      ensures BoundedAt(n, level, prefix, through, false, v, j)
    {
      if Counts(n, level, prefix, through, false, j) {
        AggBounds(n, level, prefix, j);
      }
    }
    if v > 0 {
      var j :| EligibleAt(n, level, prefix, j) && Get(n, level, j).value.seqNo == v;
      assert AttainedAt(n, level, prefix, through, false, v, j);
    }
  }

  /** The prefix query returns the largest eligible sequence number at or below the bound, zero when there is none. */
  lemma {:induction false} PrefixMaxExact(n: Node, level: nat, prefix: nat, through: nat, limited: bool)
    requires Shape(n, level, prefix) && Aligned(prefix, level) && (limited ==> Within(through, prefix, level))
    ensures IsPrefixMax(n, level, prefix, through, limited, PrefixMax(n, level, through, limited))
    decreases level
  {
    if n.Nil? {
    } else if !limited {
      UnlimitedMax(n, level, prefix, through);
    } else if level == 0 {
      LeafPrefixMax(n, prefix, through);
    } else {
      var last := Digit(through, level);
      Locate(through, prefix, level);
      forall d | 0 <= d <= last
        ensures IsPrefixMax(n.children[d], level - 1, ChildPrefix(prefix, level, d), through, d == last,
                            PrefixMax(n.children[d], level - 1, through, d == last))
      {
        ChildrenShape(n, level, prefix, d);
        ChildRange(prefix, level, d, 0);
        PrefixMaxExact(n.children[d], level - 1, ChildPrefix(prefix, level, d), through, d == last);
      }
      InnerMax(n.children, level, prefix, through, last, last + 1);
      LimitedFromChildren(n, level, prefix, through);
    }
  }

  lemma LimitedFromChildren(n: Node, level: nat, prefix: nat, through: nat)
    requires Shape(n, level, prefix) && !n.Nil? && level >= 1 && Aligned(prefix, level)
             && Within(through, prefix, level)
    requires IsInnerMax(n.children, level, prefix, through, Digit(through, level), Digit(through, level) + 1,
                        PrefixMax(n, level, through, true))
    ensures IsPrefixMax(n, level, prefix, through, true, PrefixMax(n, level, through, true))
  {
    var last, v := Digit(through, level), PrefixMax(n, level, through, true);
    Locate(through, prefix, level);
    var upto := last + 1;
    forall j
      ensures BoundedAt(n, level, prefix, through, true, v, j)
    {
      if Counts(n, level, prefix, through, true, j) {
        var d := Digit(j, level);
        Locate(j, prefix, level);
        if d > last {
          ChildBelow(prefix, level, last, d, through, j);
        }
        assert ChildBounded(n.children, level, prefix, through, last, upto, v, d);
        assert BoundedAt(n.children[d], level - 1, ChildPrefix(prefix, level, d), through, d == last, v, j);
      }
    }
    if v > 0 {
      var d :| ChildAttains(n.children, level, prefix, through, last, upto, v, d);
      var j :| AttainedAt(n.children[d], level - 1, ChildPrefix(prefix, level, d), through, d == last, v, j);
      ChildEligible(n, level, prefix, d, j);
      if d < last {
        ChildBelow(prefix, level, d, last, j, through);
      }
      assert AttainedAt(n, level, prefix, through, true, v, j);
    }
  }

  // Walking the slots from a bound downwards.

  datatype Entry = Entry(instance: nat, slot: Slot)

  /** walkRadixDesc, for a callback that takes everything. */
  function Walk(n: Node, level: nat, prefix: nat, from: nat, limited: bool): seq<Entry>
    decreases level, FANOUT + 1
  {
    var last := if limited then Digit(from, level) else FANOUT - 1;
    if n.Nil? then []
    else if level == 0 then LeafWalk(Slots(n), prefix, last + 1)
    else InnerWalk(Children(n), level, prefix, from, limited, last, last + 1)
  }

  function LeafWalk(slots: seq<Option<Slot>>, prefix: nat, k: nat): seq<Entry>
    requires k <= |slots|
  {
    if k == 0 then []
    else if slots[k - 1].None? then LeafWalk(slots, prefix, k - 1)
    else [Entry(prefix + k - 1, slots[k - 1].value)] + LeafWalk(slots, prefix, k - 1)
  }

  function InnerWalk(children: seq<Node>, level: nat, prefix: nat, from: nat, limited: bool, last: nat,
                     k: nat): seq<Entry>
    requires k <= |children| && level >= 1
    decreases level, k
  {
    if k == 0 then []
    else
      Walk(children[k - 1], level - 1, ChildPrefix(prefix, level, k - 1), from, limited && k - 1 == last)
      + InnerWalk(children, level, prefix, from, limited, last, k - 1)
  }

  ghost predicate Falls(s: seq<Entry>, a: int, b: int) {
    0 <= a < b < |s| ==> s[a].instance > s[b].instance
  }

  ghost predicate Descending(s: seq<Entry>) {
    forall a, b :: Falls(s, a, b)
  }

  /** e is an entry below the node and not beyond the bound. */
  ghost predicate Due(n: Node, level: nat, prefix: nat, from: nat, limited: bool, e: Entry) {
    Within(e.instance, prefix, level) && (limited ==> e.instance <= from) && Get(n, level, e.instance) == Some(e.slot)
  }

  /** The list holds exactly the entries that are due, largest instance first, each once. */
  ghost predicate Lists(s: seq<Entry>, n: Node, level: nat, prefix: nat, from: nat, limited: bool) {
    Descending(s) && forall e :: ListedIff(s, n, level, prefix, from, limited, e)
  }

  ghost predicate ListedIff(s: seq<Entry>, n: Node, level: nat, prefix: nat, from: nat, limited: bool, e: Entry) {
    e in s <==> Due(n, level, prefix, from, limited, e)
  }

  lemma DescendingConcat(a: seq<Entry>, b: seq<Entry>)
    requires Descending(a) && Descending(b) && forall x <- a, y <- b :: x.instance > y.instance
    ensures Descending(a + b)
  {
    forall i, j
      ensures Falls(a + b, i, j)
    {
      assert Falls(a, i, j) && Falls(b, i - |a|, j - |a|);
      if 0 <= i < |a| <= j < |a| + |b| {
        assert a[i] in a && b[j - |a|] in b;
      }
    }
  }

  lemma {:induction false} LeafWalkLists(slots: seq<Option<Slot>>, prefix: nat, k: nat)
    requires k <= |slots|
    ensures Descending(LeafWalk(slots, prefix, k))
    ensures forall e <- LeafWalk(slots, prefix, k) ::
            prefix <= e.instance < prefix + k && slots[e.instance - prefix] == Some(e.slot)
    ensures forall d | 0 <= d < k && slots[d].Some? :: Entry(prefix + d, slots[d].value) in LeafWalk(slots, prefix, k)
  {
    if k > 0 {
      LeafWalkLists(slots, prefix, k - 1);
      if slots[k - 1].Some? {
        var first := [Entry(prefix + k - 1, slots[k - 1].value)];
        forall i, j
          ensures Falls(first, i, j)
        {
        }
        DescendingConcat(first, LeafWalk(slots, prefix, k - 1));
      }
    }
  }

  lemma LeafNodeLists(n: Node, prefix: nat, from: nat, limited: bool)
    requires Shape(n, 0, prefix) && !n.Nil? && Aligned(prefix, 0) && (limited ==> Within(from, prefix, 0))
    ensures Lists(Walk(n, 0, prefix, from, limited), n, 0, prefix, from, limited)
  {
    var s := Walk(n, 0, prefix, from, limited);
    var last := if limited then Digit(from, 0) else FANOUT - 1;
    LeafWalkLists(n.slots, prefix, last + 1);
    if limited {
      LeafDigit(prefix, from);
    }
    forall e
      ensures ListedIff(s, n, 0, prefix, from, limited, e)
    {
      if Within(e.instance, prefix, 0) {
        LeafDigit(prefix, e.instance);
      }
    }
  }

  /** The entries of the d-th child, as the parent's walk visits it. */
  ghost predicate ChildLists(children: seq<Node>, level: nat, prefix: nat, from: nat, limited: bool, last: nat,
                             d: int) {
    level >= 1 && 0 <= d < |children| ==>
      Lists(Walk(children[d], level - 1, ChildPrefix(prefix, level, d), from, limited && d == last),
            children[d], level - 1, ChildPrefix(prefix, level, d), from, limited && d == last)
  }

  /** e is due below the child its digit names, which is one of the first k. */
  ghost predicate DueBelow(children: seq<Node>, level: nat, prefix: nat, from: nat, limited: bool, last: nat, k: nat,
                           e: Entry)
    requires level >= 1 && k <= |children|
  {
    var d := Digit(e.instance, level);
    && Within(e.instance, prefix, level) && d < k
    && Due(children[d], level - 1, ChildPrefix(prefix, level, d), from, limited && d == last, e)
  }

  lemma {:induction false} InnerWalkHas(children: seq<Node>, level: nat, prefix: nat, from: nat, limited: bool,
                                        last: nat, k: nat, e: Entry)
    requires level >= 1 && k <= |children| == FANOUT && Aligned(prefix, level) && k <= last + 1
    requires forall d :: ChildLists(children, level, prefix, from, limited, last, d) || d >= k
    ensures e in InnerWalk(children, level, prefix, from, limited, last, k) <==>
            DueBelow(children, level, prefix, from, limited, last, k, e)
    decreases k
  {
    if k > 0 {
      var d := k - 1;
      InnerWalkHas(children, level, prefix, from, limited, last, d, e);
      assert ChildLists(children, level, prefix, from, limited, last, d);
      var own := Walk(children[d], level - 1, ChildPrefix(prefix, level, d), from, limited && d == last);
      assert ListedIff(own, children[d], level - 1, ChildPrefix(prefix, level, d), from, limited && d == last, e);
      ChildRange(prefix, level, d, e.instance);
    }
  }

  lemma {:induction false} InnerWalkFalls(children: seq<Node>, level: nat, prefix: nat, from: nat, limited: bool,
                                          last: nat, k: nat)
    requires level >= 1 && k <= |children| == FANOUT && Aligned(prefix, level) && k <= last + 1
    requires forall d :: ChildLists(children, level, prefix, from, limited, last, d) || d >= k
    ensures Descending(InnerWalk(children, level, prefix, from, limited, last, k))
    decreases k
  {
    if k > 0 {
      var d := k - 1;
      InnerWalkFalls(children, level, prefix, from, limited, last, d);
      assert ChildLists(children, level, prefix, from, limited, last, d);
      var own := Walk(children[d], level - 1, ChildPrefix(prefix, level, d), from, limited && d == last);
      var rest := InnerWalk(children, level, prefix, from, limited, last, d);
      forall x, y | x in own && y in rest
        ensures x.instance > y.instance
      {
        InnerWalkHas(children, level, prefix, from, limited, last, d, y);
        assert ListedIff(own, children[d], level - 1, ChildPrefix(prefix, level, d), from, limited && d == last, x);
        ChildBelow(prefix, level, Digit(y.instance, level), d, y.instance, x.instance);
      }
      DescendingConcat(own, rest);
    }
  }

  /** The walk lists exactly the slots at or below the bound, largest instance first, each once. */
  lemma {:induction false} WalkExact(n: Node, level: nat, prefix: nat, from: nat, limited: bool)
    requires Shape(n, level, prefix) && Aligned(prefix, level) && (limited ==> Within(from, prefix, level))
    ensures Lists(Walk(n, level, prefix, from, limited), n, level, prefix, from, limited)
    decreases level
  {
    if n.Nil? {
      forall a, b
        ensures Falls([], a, b)
      {
      }
      forall e
        ensures ListedIff([], n, level, prefix, from, limited, e)
      {
      }
    } else if level == 0 {
      LeafNodeLists(n, prefix, from, limited);
    } else {
      var last := if limited then Digit(from, level) else FANOUT - 1;
      if limited {
        Locate(from, prefix, level);
      }
      forall d
        ensures ChildLists(n.children, level, prefix, from, limited, last, d) || d >= last + 1
      {
        if 0 <= d <= last {
          ChildrenShape(n, level, prefix, d);
          ChildRange(prefix, level, d, 0);
          WalkExact(n.children[d], level - 1, ChildPrefix(prefix, level, d), from, limited && d == last);
        }
      }
      InnerWalkFalls(n.children, level, prefix, from, limited, last, last + 1);
      forall e
        ensures ListedIff(Walk(n, level, prefix, from, limited), n, level, prefix, from, limited, e)
      {
        InnerWalkHas(n.children, level, prefix, from, limited, last, last + 1, e);
        DueFromChild(n, level, prefix, from, limited, last, e);
      }
    }
  }

  lemma DueFromChild(n: Node, level: nat, prefix: nat, from: nat, limited: bool, last: nat, e: Entry)
    requires Shape(n, level, prefix) && !n.Nil? && level >= 1 && Aligned(prefix, level)
             && (limited ==> Within(from, prefix, level))
    requires last == if limited then Digit(from, level) else FANOUT - 1
    ensures DueBelow(n.children, level, prefix, from, limited, last, last + 1, e) <==>
            Due(n, level, prefix, from, limited, e)
  {
    var j := e.instance;
    if Within(j, prefix, level) {
      var d := Digit(j, level);
      Locate(j, prefix, level);
      if limited {
        Locate(from, prefix, level);
        if d > last {
          ChildBelow(prefix, level, last, d, from, j);
        } else if d < last {
          ChildBelow(prefix, level, d, last, j, from);
        }
      }
    }
  }

  // Walking only the slots with global scope.

  predicate GlobalEntry(e: Entry) {
    e.slot.global && e.slot.eligible
  }

  function GlobalOnly(s: seq<Entry>): seq<Entry> {
    if s == [] then [] else (if GlobalEntry(s[0]) then [s[0]] else []) + GlobalOnly(s[1..])
  }

  lemma {:induction false} GlobalOnlyConcat(a: seq<Entry>, b: seq<Entry>)
    ensures GlobalOnly(a + b) == GlobalOnly(a) + GlobalOnly(b)
  {
    if a == [] {
      assert a + b == b;
    } else {
      var head := if GlobalEntry(a[0]) then [a[0]] else [];
      var rest, other := GlobalOnly(a[1..]), GlobalOnly(b);
      GlobalOnlyConcat(a[1..], b);
      assert (a + b)[0] == a[0] && (a + b)[1..] == a[1..] + b;
      assert head + (rest + other) == head + rest + other;
    }
  }

  lemma {:induction false} GlobalOnlyNone(s: seq<Entry>)
    requires forall e <- s :: !GlobalEntry(e)
    ensures GlobalOnly(s) == []
  {
    if s != [] {
      GlobalOnlyNone(s[1..]);
    }
  }

  /** walkGlobalRadixDesc: subtrees without a global slot are not entered. */
  function GlobalWalk(n: Node, level: nat, prefix: nat, from: nat, limited: bool): seq<Entry>
    decreases level, FANOUT + 1
  {
    var last := if limited then Digit(from, level) else FANOUT - 1;
    if n.Nil? || n.agg.maxGlobal == 0 then []
    else if level == 0 then GlobalOnly(LeafWalk(Slots(n), prefix, last + 1))
    else InnerGlobalWalk(Children(n), level, prefix, from, limited, last, last + 1)
  }

  function InnerGlobalWalk(children: seq<Node>, level: nat, prefix: nat, from: nat, limited: bool, last: nat,
                           k: nat): seq<Entry>
    requires k <= |children| && level >= 1
    decreases level, k
  {
    if k == 0 then []
    else
      GlobalWalk(children[k - 1], level - 1, ChildPrefix(prefix, level, k - 1), from, limited && k - 1 == last)
      + InnerGlobalWalk(children, level, prefix, from, limited, last, k - 1)
  }

  /** Instance zero, which no record has, is not below the node. */
  ghost predicate NoZero(n: Node, level: nat, prefix: nat) {
    prefix == 0 ==> Get(n, level, 0).None?
  }

  ghost predicate GlobalSame(children: seq<Node>, level: nat, prefix: nat, from: nat, limited: bool, last: nat,
                             d: int) {
    level >= 1 && 0 <= d < |children| ==>
      GlobalWalk(children[d], level - 1, ChildPrefix(prefix, level, d), from, limited && d == last)
      == GlobalOnly(Walk(children[d], level - 1, ChildPrefix(prefix, level, d), from, limited && d == last))
  }

  lemma {:induction false} InnerGlobal(children: seq<Node>, level: nat, prefix: nat, from: nat, limited: bool,
                                       last: nat, k: nat)
    requires level >= 1 && k <= |children| && k <= last + 1
    requires forall d :: GlobalSame(children, level, prefix, from, limited, last, d) || d >= k
    ensures InnerGlobalWalk(children, level, prefix, from, limited, last, k)
         == GlobalOnly(InnerWalk(children, level, prefix, from, limited, last, k))
    decreases k
  {
    if k > 0 {
      var d := k - 1;
      InnerGlobal(children, level, prefix, from, limited, last, d);
      assert GlobalSame(children, level, prefix, from, limited, last, d);
      GlobalOnlyConcat(Walk(children[d], level - 1, ChildPrefix(prefix, level, d), from, limited && d == last),
                       InnerWalk(children, level, prefix, from, limited, last, d));
    }
  }

  lemma PrunedHasNone(n: Node, level: nat, prefix: nat, from: nat, limited: bool)
    requires Shape(n, level, prefix) && Aligned(prefix, level) && (limited ==> Within(from, prefix, level))
    requires NoZero(n, level, prefix) && AggOf(n).maxGlobal == 0
    ensures GlobalOnly(Walk(n, level, prefix, from, limited)) == []
  {
    var s := Walk(n, level, prefix, from, limited);
    WalkExact(n, level, prefix, from, limited);
    forall e | e in s
      ensures !GlobalEntry(e)
    {
      assert ListedIff(s, n, level, prefix, from, limited, e);
      AggBounds(n, level, prefix, e.instance);
    }
    GlobalOnlyNone(s);
  }

  lemma ChildNoZero(n: Node, level: nat, prefix: nat, d: nat)
    requires level >= 1 && Shape(n, level, prefix) && !n.Nil? && Aligned(prefix, level) && NoZero(n, level, prefix)
             && d < FANOUT
    ensures NoZero(n.children[d], level - 1, ChildPrefix(prefix, level, d))
  {
    ChildRange(prefix, level, d, 0);
    ChildPrefixAbove(prefix, level, d);
  }

  lemma {:induction false} ChildPrefixAbove(prefix: nat, level: nat, d: nat)
    ensures prefix <= ChildPrefix(prefix, level, d)
  {
    if d > 0 {
      ChildPrefixAbove(prefix, level, d - 1);
    }
  }

  /** Skipping subtrees loses nothing: the global walk is the full walk, filtered. */
  lemma {:induction false} GlobalWalkExact(n: Node, level: nat, prefix: nat, from: nat, limited: bool)
    requires Shape(n, level, prefix) && Aligned(prefix, level) && (limited ==> Within(from, prefix, level))
             && NoZero(n, level, prefix)
    ensures GlobalWalk(n, level, prefix, from, limited) == GlobalOnly(Walk(n, level, prefix, from, limited))
    decreases level
  {
    if AggOf(n).maxGlobal == 0 {
      PrunedHasNone(n, level, prefix, from, limited);
    } else if level > 0 {
      var last := if limited then Digit(from, level) else FANOUT - 1;
      if limited {
        Locate(from, prefix, level);
      }
      forall d
        ensures GlobalSame(n.children, level, prefix, from, limited, last, d) || d >= last + 1
      {
        if 0 <= d <= last {
          ChildrenShape(n, level, prefix, d);
          ChildRange(prefix, level, d, 0);
          ChildNoZero(n, level, prefix, d);
          GlobalWalkExact(n.children[d], level - 1, ChildPrefix(prefix, level, d), from, limited && d == last);
        }
      }
      InnerGlobal(n.children, level, prefix, from, limited, last, last + 1);
    }
  }
}
