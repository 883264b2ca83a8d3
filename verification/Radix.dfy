/**
 The 64-way radix tree that holds a lane's slots, with aggregates at every node. Updates and
 queries are compared with the plain map from instance number to slot.
 */
module Radix {
  import opened Types

  /** The slot of one instance; seqNo only matters while the slot is eligible. */
  datatype Slot = Slot(seqNo: nat, eligible: bool, global: bool)

  /** What a node remembers of the slots below it. */
  datatype Agg = Agg(count: nat, maxSeq: nat, maxAny: nat, maxGlobal: nat)

  datatype Node =
    | Nil
    | Leaf(slots: seq<Option<Slot>>, agg: Agg)
    | Inner(level: nat, children: seq<Node>, agg: Agg)

  const FANOUT := 64
  const MAX_LEVEL := 10

  function Pow(level: nat): (p: nat)
    ensures p >= 1
  {
    if level == 0 then 1 else FANOUT * Pow(level - 1)
  }

  /** The number of instances a node of the level covers. */
  function Width(level: nat): nat {
    FANOUT * Pow(level)
  }

  function Digit(instance: nat, level: nat): (d: nat)
    ensures d < FANOUT
  {
    (instance / Pow(level)) % FANOUT
  }

  /** A node of the level may stand at prefix. */
  predicate Aligned(prefix: nat, level: nat) {
    prefix % Width(level) == 0
  }

  predicate Within(instance: nat, prefix: nat, level: nat) {
    prefix <= instance < prefix + Width(level)
  }

  lemma Euclid(a: nat, q: nat, p: nat, r: nat)
    requires p >= 1 && r < p && a == q * p + r
    ensures a / p == q && a % p == r
  {
    var d := a / p - q;
    assert a == (a / p) * p + a % p;
    Minus(a / p, q, p);
    AtLeastOne(d, p);
  }

  lemma AtLeastOne(d: int, p: nat)
    ensures d >= 1 ==> d * p >= p
    ensures d <= -1 ==> d * p + p <= 0
  {
    if d >= 1 {
      assert d * p == (d - 1) * p + p;
      assert (d - 1) * p >= 0;
    } else if d <= -1 {
      assert d * p + p == -((-d - 1) * p);
      assert (-d - 1) * p >= 0;
    }
  }

  /** Where the d-th child of a node starts: prefix + d * 64^level. */
  function ChildPrefix(prefix: nat, level: nat, d: nat): nat {
    if d == 0 then prefix else ChildPrefix(prefix, level, d - 1) + Pow(level)
  }

  lemma {:induction false} ChildPrefixIs(prefix: nat, level: nat, d: nat)
    ensures ChildPrefix(prefix, level, d) == prefix + d * Pow(level)
  {
    if d > 0 {
      ChildPrefixIs(prefix, level, d - 1);
      assert d * Pow(level) == (d - 1) * Pow(level) + Pow(level);
    }
  }

  lemma {:induction false} ChildPrefixRises(prefix: nat, level: nat, d: nat, e: nat)
    requires d < e
    ensures ChildPrefix(prefix, level, d) + Pow(level) <= ChildPrefix(prefix, level, e)
  {
    if d < e - 1 {
      ChildPrefixRises(prefix, level, d, e - 1);
    }
  }

  lemma DigitArithmetic(k: nat, d: nat, p: nat, o: nat)
    requires p >= 1 && d < FANOUT && o < p
    ensures var i := k * (FANOUT * p) + d * p + o;
            i / p == k * FANOUT + d && i % p == o && (i / p) % FANOUT == d && d * p + o < FANOUT * p
  {
    var q := k * FANOUT + d;
    Distribute(k, d, p);
    Euclid(q * p + o, q, p, o);
    Euclid(q, k, FANOUT, d);
    AtLeastOne(FANOUT - d, p);
    Minus(FANOUT, d, p);
  }

  lemma Distribute(k: nat, d: nat, p: nat)
    ensures (k * FANOUT + d) * p == k * (FANOUT * p) + d * p
  {
  }

  lemma Minus(a: int, b: int, p: nat)
    ensures (a - b) * p == a * p - b * p
  {
  }

  /** The child an instance belongs to: its digit, and the child's own range. */
  lemma Locate(instance: nat, prefix: nat, level: nat)
    requires Aligned(prefix, level) && Within(instance, prefix, level)
    ensures var child := ChildPrefix(prefix, level, Digit(instance, level));
            child <= instance < child + Pow(level)
  {
    var p := Pow(level);
    var k, o := prefix / Width(level), instance - prefix;
    LocateArithmetic(k, p, o);
    assert prefix == k * (FANOUT * p) by {
      assert prefix == k * Width(level) + 0;
    }
    ChildPrefixIs(prefix, level, o / p);
  }

  lemma LocateArithmetic(k: nat, p: nat, o: nat)
    requires p >= 1 && o < FANOUT * p
    ensures var i := k * (FANOUT * p) + o;
            (i / p) % FANOUT == o / p && o == (o / p) * p + o % p
  {
    var d, r := o / p, o % p;
    AtLeastOne(d - (FANOUT - 1), p);
    Minus(d, FANOUT - 1, p);
    DigitArithmetic(k, d, p, r);
  }

  /** The ranges of two different children do not meet, and a child's range is aligned. */
  lemma ChildRange(prefix: nat, level: nat, d: nat, instance: nat)
    requires level >= 1 && d < FANOUT && Aligned(prefix, level)
    ensures Aligned(ChildPrefix(prefix, level, d), level - 1)
    ensures Within(instance, ChildPrefix(prefix, level, d), level - 1) ==>
              Within(instance, prefix, level) && Digit(instance, level) == d
  {
    var p := Pow(level);
    ChildPrefixIs(prefix, level, d);
    var k := prefix / Width(level);
    assert prefix == k * (FANOUT * p) by {
      assert prefix == k * Width(level) + 0;
    }
    DigitArithmetic(k, d, p, 0);
    if Within(instance, prefix + d * p, level - 1) {
      DigitArithmetic(k, d, p, instance - (prefix + d * p));
    }
  }

  function Max(a: nat, b: nat): nat {
    if a < b then b else a
  }

  const EMPTY := Agg(0, 0, 0, 0)

  function AggOf(n: Node): Agg {
    if n.Nil? then EMPTY else n.agg
  }

  function Join(a: Agg, b: Agg): Agg {
    Agg(a.count + b.count, Max(a.maxSeq, b.maxSeq), Max(a.maxAny, b.maxAny), Max(a.maxGlobal, b.maxGlobal))
  }

  function SlotAgg(slot: Option<Slot>, instance: nat): Agg {
    if slot.None? then EMPTY
    else if !slot.value.eligible then Agg(1, 0, 0, 0)
    else Agg(1, slot.value.seqNo, instance, if slot.value.global then instance else 0)
  }

  /** recomputeRadixNode, over the first k slots or children. */
  function LeafAgg(slots: seq<Option<Slot>>, prefix: nat, k: nat): Agg
    requires k <= |slots|
  {
    if k == 0 then EMPTY else Join(LeafAgg(slots, prefix, k - 1), SlotAgg(slots[k - 1], prefix + k - 1))
  }

  function InnerAgg(children: seq<Node>, k: nat): Agg
    requires k <= |children|
  {
    if k == 0 then EMPTY else Join(InnerAgg(children, k - 1), AggOf(children[k - 1]))
  }

  /** The aggregate of a node is recomputed by walking its 64 entries. */
  method RecomputeLeaf(slots: seq<Option<Slot>>, prefix: nat) returns (agg: Agg)
    requires |slots| == FANOUT
    ensures agg == LeafAgg(slots, prefix, FANOUT)
  {
    var count, maxSeq, maxAny, maxGlobal := 0, 0, 0, 0;
    for d := 0 to FANOUT
      invariant Agg(count, maxSeq, maxAny, maxGlobal) == LeafAgg(slots, prefix, d)
    {
      if slots[d].None? {
        continue;
      }
      count := count + 1;
      var slot := slots[d].value;
      if !slot.eligible {
        continue;
      }
      maxSeq, maxAny := Max(maxSeq, slot.seqNo), Max(maxAny, prefix + d);
      if slot.global {
        maxGlobal := Max(maxGlobal, prefix + d);
      }
    }
    agg := Agg(count, maxSeq, maxAny, maxGlobal);
  }

  method RecomputeInner(children: seq<Node>) returns (agg: Agg)
    requires |children| == FANOUT
    ensures agg == InnerAgg(children, FANOUT)
  {
    agg := EMPTY;
    for d := 0 to FANOUT
      invariant agg == InnerAgg(children, d)
    {
      if children[d].Nil? {
        continue;
      }
      agg := Join(agg, children[d].agg);
    }
  }

  function LeafOf(slots: seq<Option<Slot>>, prefix: nat): Node
    requires |slots| == FANOUT
  {
    Leaf(slots, LeafAgg(slots, prefix, FANOUT))
  }

  function InnerOf(level: nat, children: seq<Node>): Node
    requires |children| == FANOUT
  {
    Inner(level, children, InnerAgg(children, FANOUT))
  }

  /** The node invariant: levels descend by one, and every aggregate is the recomputed one. */
  ghost predicate Shape(n: Node, level: nat, prefix: nat)
    decreases level
  {
    n.Nil? ||
    (if level == 0 then n.Leaf? && |n.slots| == FANOUT && n.agg == LeafAgg(n.slots, prefix, FANOUT)
     else
       && n.Inner? && n.level == level && |n.children| == FANOUT && n.agg == InnerAgg(n.children, FANOUT)
       && forall d | 0 <= d < FANOUT :: Shape(n.children[d], level - 1, ChildPrefix(prefix, level, d)))
  }

  function Copies<T>(x: T, k: nat): (s: seq<T>)
    ensures |s| == k && forall i | 0 <= i < k :: s[i] == x
  {
    if k == 0 then [] else Copies(x, k - 1) + [x]
  }

  function Slots(n: Node): (s: seq<Option<Slot>>)
    ensures |s| == FANOUT
  {
    if n.Leaf? && |n.slots| == FANOUT then n.slots else Copies(None, FANOUT)
  }

  function Children(n: Node): (s: seq<Node>)
    ensures |s| == FANOUT
  {
    if n.Inner? && |n.children| == FANOUT then n.children else Copies(Nil, FANOUT)
  }

  lemma ChildrenShape(n: Node, level: nat, prefix: nat, d: nat)
    requires level >= 1 && Shape(n, level, prefix) && d < FANOUT
    ensures Shape(Children(n)[d], level - 1, ChildPrefix(prefix, level, d))
  {
  }

  /** laneTree.slot below a node. */
  function Get(n: Node, level: nat, instance: nat): Option<Slot>
    decreases level
  {
    if n.Nil? then None
    else if level == 0 then Slots(n)[Digit(instance, 0)]
    else Get(Children(n)[Digit(instance, level)], level - 1, instance)
  }

  /** setRadixSlot, creating the nodes on the way. */
  function SetSlot(n: Node, level: nat, prefix: nat, instance: nat, slot: Slot): Node
    decreases level
  {
    var d := Digit(instance, level);
    if level == 0 then LeafOf(Slots(n)[d := Some(slot)], prefix)
    else InnerOf(level, Children(n)[d := SetSlot(Children(n)[d], level - 1, ChildPrefix(prefix, level, d), instance,
                                                 slot)])
  }

  /** removeRadixSlot: an emptied child is cut off. */
  function RemoveSlot(n: Node, level: nat, prefix: nat, instance: nat): (r: (Node, bool))
    ensures !r.1 ==> r.0 == n
    ensures r.0.Nil? <==> n.Nil?
    decreases level
  {
    var d := Digit(instance, level);
    if n.Nil? then (n, false)
    else if level == 0 then
      if Slots(n)[d].None? then (n, false) else (LeafOf(Slots(n)[d := None], prefix), true)
    else
      var child := RemoveSlot(Children(n)[d], level - 1, ChildPrefix(prefix, level, d), instance);
      if !child.1 then (n, false)
      else (InnerOf(level, Children(n)[d := if AggOf(child.0).count == 0 then Nil else child.0]), true)
  }

  lemma ReplaceChild(n: Node, level: nat, prefix: nat, d: nat, child: Node)
    requires level >= 1 && d < FANOUT && Shape(n, level, prefix)
             && Shape(child, level - 1, ChildPrefix(prefix, level, d))
    ensures Shape(InnerOf(level, Children(n)[d := child]), level, prefix)
  {
    var replaced := Children(n)[d := child];
    forall e | 0 <= e < FANOUT
      ensures Shape(replaced[e], level - 1, ChildPrefix(prefix, level, e))
    {
      ChildrenShape(n, level, prefix, e);
    }
  }

  lemma {:induction false} SetShape(n: Node, level: nat, prefix: nat, instance: nat, slot: Slot)
    requires Shape(n, level, prefix)
    ensures Shape(SetSlot(n, level, prefix, instance, slot), level, prefix)
    decreases level
  {
    if level > 0 {
      var d := Digit(instance, level);
      ChildrenShape(n, level, prefix, d);
      SetShape(Children(n)[d], level - 1, ChildPrefix(prefix, level, d), instance, slot);
      ReplaceChild(n, level, prefix, d,
                   SetSlot(Children(n)[d], level - 1, ChildPrefix(prefix, level, d), instance, slot));
    }
  }

  lemma {:induction false} RemoveShape(n: Node, level: nat, prefix: nat, instance: nat)
    requires Shape(n, level, prefix)
    ensures Shape(RemoveSlot(n, level, prefix, instance).0, level, prefix)
    decreases level
  {
    if level > 0 && !n.Nil? {
      var d := Digit(instance, level);
      ChildrenShape(n, level, prefix, d);
      RemoveShape(Children(n)[d], level - 1, ChildPrefix(prefix, level, d), instance);
      var child := RemoveSlot(Children(n)[d], level - 1, ChildPrefix(prefix, level, d), instance);
      ReplaceChild(n, level, prefix, d, if AggOf(child.0).count == 0 then Nil else child.0);
    }
  }

  /** The slot written is read back, and every other slot is unchanged. */
  lemma {:induction false} SetGet(n: Node, level: nat, prefix: nat, i: nat, slot: Slot, j: nat)
    requires Shape(n, level, prefix) && Aligned(prefix, level) && Within(i, prefix, level) && Within(j, prefix, level)
    ensures Get(SetSlot(n, level, prefix, i, slot), level, j) == if i == j then Some(slot) else Get(n, level, j)
    decreases level
  {
    Locate(i, prefix, level);
    Locate(j, prefix, level);
    var d, e := Digit(i, level), Digit(j, level);
    if level > 0 {
      ChildrenShape(n, level, prefix, d);
      ChildRange(prefix, level, d, i);
      var childPrefix := ChildPrefix(prefix, level, d);
      var children := Children(n);
      var child := SetSlot(children[d], level - 1, childPrefix, i, slot);
      assert SetSlot(n, level, prefix, i, slot) == InnerOf(level, children[d := child]);
      assert Get(n, level, j) == Get(children[e], level - 1, j);
      if e == d {
        SetGet(children[d], level - 1, childPrefix, i, slot, j);
      }
    } else {
      assert Get(n, 0, j) == Slots(n)[e];
    }
  }

  /** An aggregate without a count has nothing below it. */
  lemma {:induction false} EmptyLeaf(slots: seq<Option<Slot>>, prefix: nat, k: nat, d: nat)
    requires d < k <= |slots| && LeafAgg(slots, prefix, k).count == 0
    ensures slots[d].None?
  {
    if d < k - 1 {
      EmptyLeaf(slots, prefix, k - 1, d);
    }
  }

  lemma {:induction false} EmptyInner(children: seq<Node>, k: nat, d: nat)
    requires d < k <= |children| && InnerAgg(children, k).count == 0
    ensures AggOf(children[d]).count == 0
  {
    if d < k - 1 {
      EmptyInner(children, k - 1, d);
    }
  }

  lemma {:induction false} CountZero(n: Node, level: nat, prefix: nat, j: nat)
    requires Shape(n, level, prefix) && AggOf(n).count == 0
    ensures Get(n, level, j).None?
    decreases level
  {
    if !n.Nil? {
      var d := Digit(j, level);
      if level == 0 {
        EmptyLeaf(n.slots, prefix, FANOUT, d);
      } else {
        ChildrenShape(n, level, prefix, d);
        EmptyInner(n.children, FANOUT, d);
        CountZero(n.children[d], level - 1, ChildPrefix(prefix, level, d), j);
      }
    }
  }

  /** The slot removed is gone, every other slot is unchanged, and the answer says whether it was there. */
  lemma {:induction false} RemoveGet(n: Node, level: nat, prefix: nat, i: nat, j: nat)
    requires Shape(n, level, prefix) && Aligned(prefix, level) && Within(i, prefix, level) && Within(j, prefix, level)
    ensures Get(RemoveSlot(n, level, prefix, i).0, level, j) == if i == j then None else Get(n, level, j)
    ensures RemoveSlot(n, level, prefix, i).1 <==> Get(n, level, i).Some?
    decreases level
  {
    Locate(i, prefix, level);
    Locate(j, prefix, level);
    if level > 0 && !n.Nil? {
      var d := Digit(i, level);
      ChildrenShape(n, level, prefix, d);
      ChildRange(prefix, level, d, i);
      var childPrefix := ChildPrefix(prefix, level, d);
      var child := RemoveSlot(Children(n)[d], level - 1, childPrefix, i);
      RemoveShape(Children(n)[d], level - 1, childPrefix, i);
      RemoveGet(Children(n)[d], level - 1, childPrefix, i, i);
      if Digit(j, level) == d {
        RemoveGet(Children(n)[d], level - 1, childPrefix, i, j);
        if AggOf(child.0).count == 0 {
          CountZero(child.0, level - 1, childPrefix, j);
        }
      }
    }
  }

  // What the aggregates mean.

  lemma {:induction false} LeafBound(slots: seq<Option<Slot>>, prefix: nat, k: nat, d: nat)
    requires d < k <= |slots| && slots[d].Some?
    ensures LeafAgg(slots, prefix, k).count >= 1
    ensures slots[d].value.eligible ==>
              && slots[d].value.seqNo <= LeafAgg(slots, prefix, k).maxSeq
              && prefix + d <= LeafAgg(slots, prefix, k).maxAny
              && (slots[d].value.global ==> prefix + d <= LeafAgg(slots, prefix, k).maxGlobal)
  {
    if d < k - 1 {
      LeafBound(slots, prefix, k - 1, d);
    }
  }

  predicate AggLE(a: Agg, b: Agg) {
    a.count <= b.count && a.maxSeq <= b.maxSeq && a.maxAny <= b.maxAny && a.maxGlobal <= b.maxGlobal
  }

  lemma {:induction false} InnerBound(children: seq<Node>, k: nat, d: nat)
    requires d < k <= |children|
    ensures AggLE(AggOf(children[d]), InnerAgg(children, k))
  {
    if d < k - 1 {
      InnerBound(children, k - 1, d);
    }
  }

  /** No slot below a node exceeds its aggregate. */
  lemma {:induction false} AggBounds(n: Node, level: nat, prefix: nat, j: nat)
    requires Shape(n, level, prefix) && Aligned(prefix, level) && Within(j, prefix, level) && Get(n, level, j).Some?
    ensures AggOf(n).count >= 1
    ensures var s := Get(n, level, j).value;
            s.eligible ==> s.seqNo <= AggOf(n).maxSeq && j <= AggOf(n).maxAny && (s.global ==> j <= AggOf(n).maxGlobal)
    decreases level
  {
    var d := Digit(j, level);
    if level == 0 {
      LeafDigit(prefix, j);
      LeafBound(n.slots, prefix, FANOUT, d);
    } else {
      Locate(j, prefix, level);
      ChildrenShape(n, level, prefix, d);
      ChildRange(prefix, level, d, j);
      AggBounds(n.children[d], level - 1, ChildPrefix(prefix, level, d), j);
      InnerBound(n.children, FANOUT, d);
    }
  }

  /** An eligible slot of the node stands at j. */
  ghost predicate EligibleAt(n: Node, level: nat, prefix: nat, j: nat) {
    Within(j, prefix, level) && Get(n, level, j).Some? && Get(n, level, j).value.eligible
  }

  ghost predicate SeqAttained(n: Node, level: nat, prefix: nat) {
    AggOf(n).maxSeq == 0 || exists j ::
        EligibleAt(n, level, prefix, j) && Get(n, level, j).value.seqNo == AggOf(n).maxSeq
  }

  ghost predicate PlacesAttained(n: Node, level: nat, prefix: nat) {
    && (AggOf(n).maxAny == 0 || EligibleAt(n, level, prefix, AggOf(n).maxAny))
    && (AggOf(n).maxGlobal == 0
        || (EligibleAt(n, level, prefix, AggOf(n).maxGlobal) && Get(n, level, AggOf(n).maxGlobal).value.global))
  }

  lemma {:induction false} LeafAttained(slots: seq<Option<Slot>>, prefix: nat, k: nat)
    returns (s: nat, a: nat, g: nat)
    requires k <= |slots|
    ensures LeafAgg(slots, prefix, k).maxSeq > 0 ==>
              s < k && slots[s].Some? && slots[s].value.eligible
                  && slots[s].value.seqNo == LeafAgg(slots, prefix, k).maxSeq
    ensures LeafAgg(slots, prefix, k).maxAny > 0 ==>
              a < k && slots[a].Some? && slots[a].value.eligible && prefix + a == LeafAgg(slots, prefix, k).maxAny
    ensures LeafAgg(slots, prefix, k).maxGlobal > 0 ==>
              && g < k && slots[g].Some? && slots[g].value.eligible && slots[g].value.global
              && prefix + g == LeafAgg(slots, prefix, k).maxGlobal
  {
    s, a, g := 0, 0, 0;
    if k > 0 {
      s, a, g := LeafAttained(slots, prefix, k - 1);
      var prior, now := LeafAgg(slots, prefix, k - 1), LeafAgg(slots, prefix, k);
      s := if now.maxSeq > prior.maxSeq then k - 1 else s;
      a := if now.maxAny > prior.maxAny then k - 1 else a;
      g := if now.maxGlobal > prior.maxGlobal then k - 1 else g;
    }
  }

  lemma {:induction false} InnerAttained(children: seq<Node>, k: nat)
    returns (s: nat, a: nat, g: nat)
    requires k <= |children|
    ensures InnerAgg(children, k).maxSeq > 0 ==> s < k && AggOf(children[s]).maxSeq == InnerAgg(children, k).maxSeq
    ensures InnerAgg(children, k).maxAny > 0 ==> a < k && AggOf(children[a]).maxAny == InnerAgg(children, k).maxAny
    ensures InnerAgg(children, k).maxGlobal > 0 ==>
              g < k && AggOf(children[g]).maxGlobal == InnerAgg(children, k).maxGlobal
  {
    s, a, g := 0, 0, 0;
    if k > 0 {
      s, a, g := InnerAttained(children, k - 1);
      var prior, now := InnerAgg(children, k - 1), InnerAgg(children, k);
      s := if now.maxSeq > prior.maxSeq then k - 1 else s;
      a := if now.maxAny > prior.maxAny then k - 1 else a;
      g := if now.maxGlobal > prior.maxGlobal then k - 1 else g;
    }
  }

  /** What is eligible below a child is eligible below the node. */
  lemma ChildEligible(n: Node, level: nat, prefix: nat, d: nat, j: nat)
    requires level >= 1 && Shape(n, level, prefix) && !n.Nil? && Aligned(prefix, level) && d < FANOUT
    requires EligibleAt(n.children[d], level - 1, ChildPrefix(prefix, level, d), j)
    ensures EligibleAt(n, level, prefix, j) && Get(n, level, j) == Get(n.children[d], level - 1, j)
  {
    ChildRange(prefix, level, d, j);
  }

  lemma {:induction false} AggAttained(n: Node, level: nat, prefix: nat)
    requires Shape(n, level, prefix) && Aligned(prefix, level)
    ensures SeqAttained(n, level, prefix) && PlacesAttained(n, level, prefix)
    decreases level
  {
    if !n.Nil? {
      if level == 0 {
        LeafNodeAttained(n, prefix);
      } else {
        forall d | 0 <= d < FANOUT
          ensures SeqAttained(n.children[d], level - 1, ChildPrefix(prefix, level, d))
          ensures PlacesAttained(n.children[d], level - 1, ChildPrefix(prefix, level, d))
        {
          ChildrenShape(n, level, prefix, d);
          ChildRange(prefix, level, d, 0);
          AggAttained(n.children[d], level - 1, ChildPrefix(prefix, level, d));
        }
        InnerNodeAttained(n, level, prefix);
      }
    }
  }

  /** Below a leaf the digit of an instance is its distance from the prefix. */
  lemma LeafDigit(prefix: nat, j: nat)
    requires Aligned(prefix, 0) && Within(j, prefix, 0)
    ensures prefix + Digit(j, 0) == j
  {
    Locate(j, prefix, 0);
    ChildPrefixIs(prefix, 0, Digit(j, 0));
  }

  lemma LeafNodeAttained(n: Node, prefix: nat)
    requires Shape(n, 0, prefix) && !n.Nil? && Aligned(prefix, 0)
    ensures SeqAttained(n, 0, prefix) && PlacesAttained(n, 0, prefix)
  {
    var s, a, g := LeafAttained(n.slots, prefix, FANOUT);
    if n.agg.maxSeq > 0 {
      LeafDigit(prefix, prefix + s);
      assert EligibleAt(n, 0, prefix, prefix + s);
    }
    if n.agg.maxAny > 0 {
      LeafDigit(prefix, prefix + a);
    }
    if n.agg.maxGlobal > 0 {
      LeafDigit(prefix, prefix + g);
    }
  }

  lemma InnerNodeAttained(n: Node, level: nat, prefix: nat)
    requires level >= 1 && Shape(n, level, prefix) && !n.Nil? && Aligned(prefix, level)
    requires forall d | 0 <= d < FANOUT :: SeqAttained(n.children[d], level - 1, ChildPrefix(prefix, level, d))
    requires forall d | 0 <= d < FANOUT :: PlacesAttained(n.children[d], level - 1, ChildPrefix(prefix, level, d))
    ensures SeqAttained(n, level, prefix) && PlacesAttained(n, level, prefix)
  {
    var s, a, g := InnerAttained(n.children, FANOUT);
    if n.agg.maxSeq > 0 {
      var c := n.children[s];
      assert SeqAttained(c, level - 1, ChildPrefix(prefix, level, s));
      var j :| EligibleAt(c, level - 1, ChildPrefix(prefix, level, s), j)
          && Get(c, level - 1, j).value.seqNo == AggOf(c).maxSeq;
      ChildEligible(n, level, prefix, s, j);
    }
    if n.agg.maxAny > 0 {
      assert PlacesAttained(n.children[a], level - 1, ChildPrefix(prefix, level, a));
      ChildEligible(n, level, prefix, a, n.agg.maxAny);
    }
    if n.agg.maxGlobal > 0 {
      assert PlacesAttained(n.children[g], level - 1, ChildPrefix(prefix, level, g));
      ChildEligible(n, level, prefix, g, n.agg.maxGlobal);
    }
  }
}
