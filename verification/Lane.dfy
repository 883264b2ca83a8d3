/** A lane's radix tree and the posting sets, as objects whose root grows and collapses in place. */
module Lane {
  import opened Types
  import opened Radix
  import opened RadixQueries

  /** radixLevel: the least level whose nodes can hold the value. */
  method RadixLevel(value: U64) returns (level: nat)
    ensures level <= MAX_LEVEL && value < Width(level)
    ensures level == 0 || value >= Width(level - 1)
  {
    level := 0;
    while level < MAX_LEVEL
      invariant level <= MAX_LEVEL && (level == 0 || value >= Width(level - 1))
    {
      if value < Width(level) {
        return;
      }
      level := level + 1;
    }
    TopWidth();
  }

  lemma TopWidth()
    ensures Width(MAX_LEVEL) == 0x4_0000_0000_0000_0000
  {
    assert Pow(5) == 0x4000_0000;
    assert Pow(10) == 0x1000_0000_0000_0000;
  }

  lemma {:induction false} WidthRises(a: nat, b: nat)
    requires a < b
    ensures Width(a) < Width(b) && Width(a) <= Pow(b)
  {
    if a < b - 1 {
      WidthRises(a, b - 1);
    }
  }

  function Top(root: Node): nat {
    if root.Inner? then root.level else 0
  }

  ghost predicate ValidRoot(root: Node) {
    Top(root) <= MAX_LEVEL && Shape(root, Top(root), 0)
  }

  /** The plain map the tree stands for. */
  function SlotOf(root: Node, instance: nat): Option<Slot> {
    if instance < Width(Top(root)) then Get(root, Top(root), instance) else None
  }

  /** A new root above the old one. */
  function Grown(root: Node): Node {
    InnerOf(Top(root) + 1, [root] + Copies(Nil, FANOUT - 1))
  }

  lemma LowDigit(level: nat, j: nat)
    requires level >= 1 && j < Width(level)
    ensures Digit(j, level) == 0 <==> j < Width(level - 1)
  {
    Locate(j, 0, level);
    if Digit(j, level) > 0 {
      ChildPrefixRises(0, level, 0, Digit(j, level));
    }
  }

  lemma GrownSame(root: Node, j: nat)
    requires ValidRoot(root) && Top(root) < MAX_LEVEL
    ensures ValidRoot(Grown(root)) && Top(Grown(root)) == Top(root) + 1
    ensures SlotOf(Grown(root), j) == SlotOf(root, j)
  {
    var level := Top(root) + 1;
    var grown := Grown(root);
    forall d | 0 <= d < FANOUT
      ensures Shape(grown.children[d], level - 1, ChildPrefix(0, level, d))
    {
    }
    WidthRises(level - 1, level);
    if j < Width(level) {
      LowDigit(level, j);
      var d := Digit(j, level);
      assert Get(grown, level, j) == Get(grown.children[d], level - 1, j);
      assert d > 0 ==> grown.children[d].Nil?;
    }
  }

  lemma {:induction false} OthersEmpty(children: seq<Node>, k: nat, d: nat)
    requires 1 <= d < k <= |children| && InnerAgg(children, k).count == AggOf(children[0]).count
    ensures AggOf(children[d]).count == 0
  {
    FirstCounts(children, k - 1);
    if d < k - 1 {
      OthersEmpty(children, k - 1, d);
    }
  }

  lemma {:induction false} FirstCounts(children: seq<Node>, k: nat)
    requires 1 <= k <= |children|
    ensures AggOf(children[0]).count <= InnerAgg(children, k).count
  {
    if k > 1 {
      FirstCounts(children, k - 1);
    }
  }

  lemma CollapsedSame(root: Node, j: nat)
    requires ValidRoot(root) && root.Inner? && !root.children[0].Nil? && root.agg.count == root.children[0].agg.count
    ensures ValidRoot(root.children[0]) && Top(root.children[0]) == Top(root) - 1
    ensures SlotOf(root.children[0], j) == SlotOf(root, j)
  {
    var level := root.level;
    ChildrenShape(root, level, 0, 0);
    WidthRises(level - 1, level);
    if j < Width(level) {
      LowDigit(level, j);
      var d := Digit(j, level);
      if d > 0 {
        OthersEmpty(root.children, FANOUT, d);
        ChildrenShape(root, level, 0, d);
        CountZero(root.children[d], level - 1, ChildPrefix(0, level, d), j);
      }
    }
  }

  ghost predicate SameSlot(a: Node, b: Node, j: nat) {
    SlotOf(a, j) == SlotOf(b, j)
  }

  ghost predicate SameSlots(a: Node, b: Node) {
    forall j: nat :: SameSlot(a, b, j)
  }

  ghost predicate SetTo(before: Node, after: Node, instance: nat, slot: Option<Slot>) {
    forall j: nat :: SetAt(before, after, instance, slot, j)
  }

  ghost predicate SetAt(before: Node, after: Node, instance: nat, slot: Option<Slot>, j: nat) {
    SlotOf(after, j) == if j == instance then slot else SlotOf(before, j)
  }

  /** A tree without slots is no tree at all. */
  ghost predicate Tight(root: Node) {
    root.Nil? || exists j: nat :: SlotOf(root, j).Some?
  }

  lemma CountedSome(root: Node)
    requires ValidRoot(root) && !root.Nil? && root.agg.count > 0
    ensures Tight(root)
  {
    var keys := Keys(root, Top(root), 0);
    Counted(root, Top(root), 0);
    var j :| j in keys;
    KeysRanged(root, Top(root), 0, j);
    KeysAreSlots(root, Top(root), 0, j);
    assert SlotOf(root, j).Some?;
  }

  lemma SameTight(before: Node, after: Node, instance: nat)
    requires SetTo(before, after, instance, None) && SlotOf(before, instance).None? && !before.Nil?
    ensures Tight(before) ==> Tight(after)
  {
    if Tight(before) {
      var j: nat :| SlotOf(before, j).Some?;
      assert SetAt(before, after, instance, None, j);
    }
  }

  class LaneTree {
    var root: Node

    ghost predicate Valid()
      reads this
    {
      ValidRoot(root)
    }

    constructor ()
      ensures Valid() && forall j: nat :: SlotOf(root, j).None?
    {
      root := Nil;
    }

    /** laneTree.set: the root grows until it covers the instance. */
    method Set(instance: U64, slot: Slot)
      requires Valid()
      modifies this
      ensures Valid() && SetTo(old(root), root, instance, Some(slot))
    {
      var level := RadixLevel(instance);
      if root.Nil? {
        SetEmpty(level, instance, slot);
        root := SetSlot(Nil, level, 0, instance, slot);
        return;
      }
      while Top(root) < level
        invariant Valid() && SameSlots(old(root), root) && !root.Nil?
        decreases level - Top(root)
      {
        GrowStep(old(root), root);
        root := Grown(root);
      }
      if level < Top(root) {
        WidthRises(level, Top(root));
      }
      SetStep(old(root), root, instance, slot);
      root := SetSlot(root, Top(root), 0, instance, slot);
    }

    /** laneTree.remove: an emptied root disappears, and a root with a single low child collapses. */
    method Remove(instance: U64) returns (removed: bool)
      requires Valid()
      modifies this
      ensures Valid() && (removed <==> SlotOf(old(root), instance) != None)
      ensures SetTo(old(root), root, instance, None) && (Tight(old(root)) ==> Tight(root))
    {
      var level := RadixLevel(instance);
      if root.Nil? || level > Top(root) {
        if !root.Nil? && level > Top(root) + 1 {
          WidthRises(Top(root), level - 1);
        }
        return false;
      }
      if level < Top(root) {
        WidthRises(level, Top(root));
      }
      RemoveStep(root, instance);
      var result := RemoveSlot(root, Top(root), 0, instance);
      root, removed := result.0, result.1;
      if !removed {
        SameTight(old(root), root, instance);
        return;
      }
      if root.agg.count == 0 {
        EmptyStep(old(root), root, instance);
        root := Nil;
        return;
      }
      while Top(root) > 0 && !root.children[0].Nil? && root.agg.count == root.children[0].agg.count
        invariant Valid() && SetTo(old(root), root, instance, None) && !root.Nil? && root.agg.count > 0
        decreases Top(root)
      {
        CollapseStep(old(root), root, instance);
        root := root.children[0];
      }
      CountedSome(root);
    }

    /** laneTree.slot. */
    method Find(instance: U64) returns (slot: Option<Slot>)
      requires Valid()
      ensures slot == SlotOf(root, instance)
    {
      var level := RadixLevel(instance);
      Reaches(root, instance, level);
      if root.Nil? || level > Top(root) {
        return None;
      }
      var node, at := root, Top(root);
      ghost var prefix := 0;
      while at > 0
        invariant Shape(node, at, prefix) && !node.Nil? && Get(node, at, instance) == SlotOf(root, instance)
        decreases at
      {
        var d := Digit(instance, at);
        ChildrenShape(node, at, prefix, d);
        prefix := ChildPrefix(prefix, at, d);
        node, at := node.children[d], at - 1;
        if node.Nil? {
          return None;
        }
      }
      slot := node.slots[Digit(instance, 0)];
    }

    /** laneTree.prefixMaxSeq. */
    method PrefixMaxSeq(through: U64) returns (v: nat)
      requires Valid()
      ensures LanePrefixMax(root, through, v)
    {
      var level := RadixLevel(through);
      Reaches(root, through, level);
      v := PrefixMax(root, Top(root), through, level <= Top(root));
      PrefixMaxExact(root, Top(root), 0, through, level <= Top(root));
      PrefixFromNode(root, through, level <= Top(root), v);
    }

    /** laneTree.walkDesc, for a callback that takes everything. */
    method WalkDesc(from: U64) returns (s: seq<Entry>)
      requires Valid()
      ensures Descending(s) && forall e :: LaneListed(root, from, s, e)
    {
      var level := RadixLevel(from);
      Reaches(root, from, level);
      s := Walk(root, Top(root), 0, from, level <= Top(root));
      WalkFromRoot(root, from);
    }

    /** conflictEngine.walkGlobalDesc: the same list, restricted to eligible slots of global scope. */
    method WalkGlobalDesc(from: U64) returns (s: seq<Entry>)
      requires Valid() && SlotOf(root, 0).None?
      ensures exists all :: Descending(all) && (forall e :: LaneListed(root, from, all, e)) && s == GlobalOnly(all)
    {
      var level := RadixLevel(from);
      Reaches(root, from, level);
      s := GlobalWalk(root, Top(root), 0, from, level <= Top(root));
      GlobalWalkExact(root, Top(root), 0, from, level <= Top(root));
      WalkFromRoot(root, from);
    }

    /** The root aggregates: the greatest eligible and the greatest global instance, and the number of slots. */
    method Aggregates() returns (any: nat, global: nat, count: nat)
      requires Valid()
      ensures forall j: nat :: BoundedBy(root, any, global, j)
      ensures any == 0 || (SlotOf(root, any).Some? && SlotOf(root, any).value.eligible)
      ensures global == 0 || (SlotOf(root, global).Some? && SlotOf(root, global).value.eligible
                              && SlotOf(root, global).value.global)
      ensures count == |Keys(root, Top(root), 0)| && forall j: nat :: KeyIff(root, j)
    {
      any, global, count := AggOf(root).maxAny, AggOf(root).maxGlobal, AggOf(root).count;
      AggAttained(root, Top(root), 0);
      Counted(root, Top(root), 0);
      forall j: nat
        ensures BoundedBy(root, any, global, j) && KeyIff(root, j)
      {
        KeysRanged(root, Top(root), 0, j);
        if j < Width(Top(root)) {
          KeysAreSlots(root, Top(root), 0, j);
          if SlotOf(root, j).Some? {
            AggBounds(root, Top(root), 0, j);
          }
        }
      }
    }
  }

  lemma SetEmpty(level: nat, instance: nat, slot: Slot)
    requires level <= MAX_LEVEL && instance < Width(level)
    ensures ValidRoot(SetSlot(Nil, level, 0, instance, slot))
            && SetTo(Nil, SetSlot(Nil, level, 0, instance, slot), instance, Some(slot))
  {
    var after := SetSlot(Nil, level, 0, instance, slot);
    SetShape(Nil, level, 0, instance, slot);
    assert Top(after) == level;
    forall j: nat
      ensures SetAt(Nil, after, instance, Some(slot), j)
    {
      if j < Width(level) {
        SetGet(Nil, level, 0, instance, slot, j);
      }
    }
  }

  lemma GrowStep(before: Node, root: Node)
    requires ValidRoot(root) && Top(root) < MAX_LEVEL && SameSlots(before, root)
    ensures ValidRoot(Grown(root)) && Top(Grown(root)) == Top(root) + 1 && SameSlots(before, Grown(root))
  {
    forall j: nat
      ensures SameSlot(before, Grown(root), j)
    {
      assert SameSlot(before, root, j);
      GrownSame(root, j);
    }
    GrownSame(root, 0);
  }

  lemma SetStep(before: Node, root: Node, instance: nat, slot: Slot)
    requires ValidRoot(root) && !root.Nil? && SameSlots(before, root) && instance < Width(Top(root))
    ensures ValidRoot(SetSlot(root, Top(root), 0, instance, slot))
    ensures SetTo(before, SetSlot(root, Top(root), 0, instance, slot), instance, Some(slot))
  {
    var level := Top(root);
    var after := SetSlot(root, level, 0, instance, slot);
    SetShape(root, level, 0, instance, slot);
    assert Top(after) == level;
    forall j: nat
      ensures SetAt(before, after, instance, Some(slot), j)
    {
      assert SameSlot(before, root, j);
      if j < Width(level) {
        SetGet(root, level, 0, instance, slot, j);
      }
    }
  }

  lemma RemoveStep(root: Node, instance: nat)
    requires ValidRoot(root) && !root.Nil? && instance < Width(Top(root))
    ensures var r := RemoveSlot(root, Top(root), 0, instance);
            && ValidRoot(r.0) && !r.0.Nil? && (r.1 <==> SlotOf(root, instance).Some?)
            && SetTo(root, r.0, instance, None)
  {
    var level := Top(root);
    var r := RemoveSlot(root, level, 0, instance);
    RemoveShape(root, level, 0, instance);
    RemoveGet(root, level, 0, instance, instance);
    assert Top(r.0) == level;
    forall j: nat
      ensures SetAt(root, r.0, instance, None, j)
    {
      if j < Width(level) {
        RemoveGet(root, level, 0, instance, j);
      }
    }
  }

  lemma EmptyStep(before: Node, root: Node, instance: nat)
    requires ValidRoot(root) && !root.Nil? && root.agg.count == 0 && SetTo(before, root, instance, None)
    ensures ValidRoot(Nil) && SetTo(before, Nil, instance, None)
  {
    forall j: nat
      ensures SetAt(before, Nil, instance, None, j)
    {
      assert SetAt(before, root, instance, None, j);
      CountZero(root, Top(root), 0, j);
    }
  }

  lemma CollapseStep(before: Node, root: Node, instance: nat)
    requires ValidRoot(root) && root.Inner? && !root.children[0].Nil? && root.agg.count == root.children[0].agg.count
    requires SetTo(before, root, instance, None)
    ensures ValidRoot(root.children[0]) && Top(root.children[0]) == Top(root) - 1
    ensures SetTo(before, root.children[0], instance, None)
  {
    forall j: nat
      ensures SetAt(before, root.children[0], instance, None, j)
    {
      assert SetAt(before, root, instance, None, j);
      CollapsedSame(root, j);
    }
    CollapsedSame(root, 0);
  }

  /** A level beyond the root's means the instance is beyond the root's range. */
  lemma Reaches(root: Node, instance: nat, level: nat)
    requires instance < Width(level) && (level == 0 || instance >= Width(level - 1))
    ensures level <= Top(root) <==> instance < Width(Top(root))
  {
    if level < Top(root) {
      WidthRises(level, Top(root));
    } else if level > Top(root) + 1 {
      WidthRises(Top(root), level - 1);
    }
  }

  /** The slot of j counts towards a prefix query. */
  ghost predicate InPrefix(root: Node, through: nat, j: nat) {
    j <= through && SlotOf(root, j).Some? && SlotOf(root, j).value.eligible
  }

  ghost predicate SeqAtMost(root: Node, through: nat, v: nat, j: nat) {
    InPrefix(root, through, j) ==> SlotOf(root, j).value.seqNo <= v
  }

  ghost predicate SeqIs(root: Node, through: nat, v: nat, j: nat) {
    InPrefix(root, through, j) && SlotOf(root, j).value.seqNo == v
  }

  /** v is the largest sequence number of the eligible slots up to the bound, zero when there is none. */
  ghost predicate LanePrefixMax(root: Node, through: nat, v: nat) {
    (forall j: nat :: SeqAtMost(root, through, v, j)) && (v == 0 || exists j: nat :: SeqIs(root, through, v, j))
  }

  lemma PrefixFromNode(root: Node, through: nat, limited: bool, v: nat)
    requires ValidRoot(root) && (limited <==> through < Width(Top(root)))
             && IsPrefixMax(root, Top(root), 0, through, limited, v)
    ensures LanePrefixMax(root, through, v)
  {
    forall j: nat
      ensures SeqAtMost(root, through, v, j)
    {
      assert BoundedAt(root, Top(root), 0, through, limited, v, j);
    }
    if v > 0 {
      var j :| AttainedAt(root, Top(root), 0, through, limited, v, j);
      assert SeqIs(root, through, v, j);
    }
  }

  lemma WalkFromRoot(root: Node, from: nat)
    requires ValidRoot(root)
    ensures var s := Walk(root, Top(root), 0, from, from < Width(Top(root)));
            Descending(s) && forall e :: LaneListed(root, from, s, e)
  {
    var s := Walk(root, Top(root), 0, from, from < Width(Top(root)));
    WalkExact(root, Top(root), 0, from, from < Width(Top(root)));
    forall e
      ensures LaneListed(root, from, s, e)
    {
      assert ListedIff(s, root, Top(root), 0, from, from < Width(Top(root)), e);
    }
  }

  ghost predicate LaneListed(root: Node, from: nat, s: seq<Entry>, e: Entry) {
    e in s <==> e.instance <= from && SlotOf(root, e.instance) == Some(e.slot)
  }

  ghost predicate BoundedBy(root: Node, any: nat, global: nat, j: nat) {
    SlotOf(root, j).Some? && SlotOf(root, j).value.eligible ==>
      j <= any && (SlotOf(root, j).value.global ==> j <= global)
  }

  ghost predicate KeyIff(root: Node, j: nat) {
    j in Keys(root, Top(root), 0) <==> SlotOf(root, j).Some?
  }

  const POSTED := Slot(0, true, false)

  /** A posting set: the same tree with one kind of slot. */
  class PostingSet {
    const tree: LaneTree

    ghost predicate Valid()
      reads this, tree
    {
      GoodPostings(tree.root)
    }

    ghost predicate Has(j: nat)
      reads this, tree
    {
      SlotOf(tree.root, j).Some?
    }

    constructor ()
      ensures Valid() && fresh(tree) && forall j: nat :: !Has(j)
    {
      tree := new LaneTree();
    }

    /** postingSet.insert. */
    method Insert(instance: U64)
      requires Valid()
      modifies tree
      ensures Valid() && forall j: nat :: Has(j) <==> j == instance || old(Has(j))
    {
      ghost var before := tree.root;
      tree.Set(instance, POSTED);
      forall j: nat
        ensures Posted(tree.root, j) && (Has(j) <==> j == instance || old(Has(j)))
      {
        assert SetAt(before, tree.root, instance, Some(POSTED), j) && Posted(before, j);
      }
    }

    /** postingSet.remove. */
    method Remove(instance: U64) returns (removed: bool)
      requires Valid()
      modifies tree
      ensures Valid() && (removed <==> old(Has(instance))) && forall j: nat :: Has(j) <==> j != instance && old(Has(j))
      ensures Tight(old(tree.root)) ==> Tight(tree.root)
    {
      ghost var before := tree.root;
      removed := tree.Remove(instance);
      forall j: nat
        ensures Posted(tree.root, j) && (Has(j) <==> j != instance && old(Has(j)))
      {
        assert SetAt(before, tree.root, instance, None, j) && Posted(before, j);
      }
    }

    /** postingSet.max: zero when empty. */
    method Maximum() returns (m: nat)
      requires Valid()
      ensures (forall j: nat :: Has(j) ==> j <= m) && (m == 0 || Has(m))
    {
      var any, global, count := tree.Aggregates();
      m := any;
      forall j: nat | Has(j)
        ensures j <= m
      {
        assert BoundedBy(tree.root, any, global, j) && Posted(tree.root, j);
      }
    }

    /** postingSet.predecessor: the greatest member at or below the bound. */
    method Predecessor(from: U64) returns (found: Option<nat>)
      requires Valid()
      ensures found.Some? ==> Has(found.value) && found.value <= from && forall j: nat :: Has(j) && j <= from ==>
                j <= found.value
      ensures found.None? ==> forall j: nat :: Has(j) ==> from < j
    {
      var s := tree.WalkDesc(from);
      forall j: nat | Has(j) && j <= from
        ensures s != [] && j <= s[0].instance
      {
        var e := Entry(j, SlotOf(tree.root, j).value);
        assert LaneListed(tree.root, from, s, e);
        var k :| 0 <= k < |s| && s[k] == e;
        assert Falls(s, 0, k);
      }
      if s == [] {
        return None;
      }
      assert LaneListed(tree.root, from, s, s[0]);
      found := Some(s[0].instance);
    }

    /** postingSet.contains. */
    method Contains(instance: U64) returns (yes: bool)
      requires Valid()
      ensures yes <==> Has(instance)
    {
      var found := Predecessor(instance);
      yes := found == Some(instance);
    }
  }

  ghost predicate Posted(root: Node, j: nat) {
    SlotOf(root, j).Some? ==> SlotOf(root, j).value == POSTED
  }

  /** What a posting set's tree looks like. */
  ghost predicate GoodPostings(root: Node) {
    ValidRoot(root) && forall j: nat :: Posted(root, j)
  }
}
