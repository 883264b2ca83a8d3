/**
 The conflict engine of one configuration: a tree of slots for every lane beside the resource index.
 Whatever was applied, removed and folded, its queries answer what the plain record map would.
 */
module Engine {
  import opened Types
  import opened ResourceIndex
  import C = Conflicts
  import F = Footprint
  import I = IntervalIndex
  import L = Lane
  import R = Radix
  import T = IntervalTree

  type Trees = map<nat, R.Node>

  function TreeOf(trees: Trees, lane: nat): R.Node {
    if lane in trees then trees[lane] else R.Nil
  }

  /** slotForRecord. */
  function SlotFor(rec: C.Record): R.Slot {
    R.Slot(rec.seqNo, rec.eligible, rec.global)
  }

  ghost predicate SlotAt(trees: Trees, records: Records, lane: nat, j: nat) {
    L.SlotOf(TreeOf(trees, lane), j) == if (lane, j) in records then Some(SlotFor(records[(lane, j)])) else None
  }

  /** The slots are those of the records. */
  ghost predicate Slotted(trees: Trees, records: Records) {
    (forall lane :: L.ValidRoot(TreeOf(trees, lane))) && forall lane, j :: SlotAt(trees, records, lane, j)
  }

  lemma SlotChanged(trees: Trees, records: Records, more: Records, lane: nat, instance: nat, next: R.Node)
    requires Slotted(trees, records) && L.ValidRoot(next)
    requires more == records - {(lane, instance)}
             || ((lane, instance) in more && more == records[(lane, instance) := more[(lane, instance)]])
    requires L.SetTo(TreeOf(trees, lane), next, instance,
                     if (lane, instance) in more then Some(SlotFor(more[(lane, instance)])) else None)
    ensures Slotted(trees[lane := next], more)
  {
    var after := trees[lane := next];
    var slot := if (lane, instance) in more then Some(SlotFor(more[(lane, instance)])) else None;
    forall l, j
      ensures SlotAt(after, more, l, j)
    {
      assert SlotAt(trees, records, l, j);
      assert L.SetAt(TreeOf(trees, lane), next, instance, slot, j);
    }
    forall l
      ensures L.ValidRoot(TreeOf(after, l))
    {
      assert L.ValidRoot(TreeOf(trees, l));
    }
  }

  lemma LaneWithout(records: Records, lane: nat, instance: nat, l: nat)
    ensures LaneRecords(records - {(lane, instance)}, l)
            == if l == lane then LaneRecords(records, l) - {instance} else LaneRecords(records, l)
  {
  }

  lemma FloorsSame(a: Entries, b: Entries, lane: nat)
    requires SameFloors(a, b)
    ensures LaneFloors(a, lane) == LaneFloors(b, lane)
  {
    var x, y := LaneFloors(a, lane), LaneFloors(b, lane);
    forall r
      ensures (r in x <==> r in y) && (r in x ==> x[r] == y[r])
    {
      assert SameFloor(a, b, lane, r);
    }
  }

  lemma FloorsRaised(a: Entries, b: Entries, lane: nat, resources: set<T.Resource>, instance: nat, l: nat)
    requires RaisedAll(a, b, lane, resources, instance) && instance >= 1
    ensures LaneFloors(b, l)
            == if l == lane then C.Raised(LaneFloors(a, l), resources, instance) else LaneFloors(a, l)
  {
    var x, y := LaneFloors(b, l), if l == lane then C.Raised(LaneFloors(a, l), resources, instance)
        else LaneFloors(a, l);
    forall r
      ensures (r in x <==> r in y) && (r in x ==> x[r] == y[r])
    {
      assert RaisedIn(a, b, lane, resources, instance, l, r);
    }
  }

  /** What the footprint queries of a lane look at. */
  ghost function LaneView(records: Records, e: Entries, lane: nat): C.View {
    C.View(LaneRecords(records, lane), LaneFloors(e, lane), 0, 0, [], false)
  }

  ghost predicate SameAnswer(records: Records, e: Entries, less: Records, more: Entries, lane: nat, f: F.Footprint) {
    C.SameFor(LaneView(records, e, lane), LaneView(less, more, lane), f)
  }

  /** No footprint query tells that a record was folded. */
  lemma FoldAnswers(records: Records, e: Entries, more: Entries, lane: nat, instance: nat, rec: C.Record)
    requires (lane, instance) in records && records[(lane, instance)] == rec && instance >= 1
    requires if C.Posted(rec) then RaisedAll(e, more, lane, rec.resources, instance) else SameFloors(e, more)
    ensures forall l, f :: SameAnswer(records, e, records - {(lane, instance)}, more, l, f)
  {
    var less := records - {(lane, instance)};
    forall l, f
      ensures SameAnswer(records, e, less, more, l, f)
    {
      LaneWithout(records, lane, instance, l);
      if C.Posted(rec) {
        FloorsRaised(e, more, lane, rec.resources, instance, l);
      } else {
        FloorsSame(e, more, l);
      }
      if l == lane {
        C.FoldKeepsFootprint(LaneView(records, e, l), instance, f);
      }
    }
  }

  /** A record as it was indexed, with its resources in order. */
  datatype Indexed = Indexed(rec: C.Record, resources: seq<T.Resource>) {
    ghost predicate Proper() {
      rec.resources == Members(resources) && forall r <- resources :: r.Proper()
    }
  }

  method RemoveFrom(root: R.Node, instance: U64) returns (next: R.Node, removed: bool)
    requires L.ValidRoot(root)
    ensures L.ValidRoot(next) && L.SetTo(root, next, instance, None)
    ensures removed <==> L.SlotOf(root, instance) != None
  {
    var tree := new L.LaneTree();
    tree.root := root;
    removed := tree.Remove(instance);
    next := tree.root;
  }

  method PlaceIn(root: R.Node, instance: U64, slot: R.Slot) returns (next: R.Node)
    requires L.ValidRoot(root)
    ensures L.ValidRoot(next) && L.SetTo(root, next, instance, Some(slot))
  {
    var tree := new L.LaneTree();
    tree.root := root;
    tree.Set(instance, slot);
    next := tree.root;
  }

  class Engine {
    const index: Index
    var trees: Trees

    ghost predicate Valid()
      reads this, index, index.root, I.Nodes(index.root)
    {
      index.Valid() && Slotted(trees, index.records) && Lean(index.entries)
    }

    /** The records of a lane that are resident. */
    ghost function Resident(lane: nat): map<nat, C.Record>
      reads this, index
    {
      LaneRecords(index.records, lane)
    }

    /** The retired floors of a lane. */
    ghost function Floors(lane: nat): map<T.Resource, nat>
      reads this, index
    {
      LaneFloors(index.entries, lane)
    }

    constructor ()
      ensures Valid() && fresh(index) && index.root == null && index.records == map[] && forall lane ::
              Floors(lane) == map[]
    {
      index := new Index();
      trees := map[];
    }

    /** remove, given the record the index holds, if it holds one. */
    method Remove(lane: nat, instance: U64, prev: Indexed)
      requires Valid() && prev.Proper()
               && ((lane, instance) in index.records ==> index.records[(lane, instance)] == prev.rec)
      modifies this, index, I.Nodes(index.root)
      ensures Valid() && I.Nodes(index.root) <= old(I.Nodes(index.root))
      ensures index.records == old(index.records) - {(lane, instance)} && SameFloors(old(index.entries), index.entries)
    {
      assert L.ValidRoot(TreeOf(trees, lane)) && SlotAt(trees, index.records, lane, instance);
      var next, removed := RemoveFrom(TreeOf(trees, lane), instance);
      if !removed {
        assert index.records == index.records - {(lane, instance)};
        return;
      }
      SlotChanged(trees, index.records, index.records - {(lane, instance)}, lane, instance, next);
      trees := trees[lane := next];
      index.Leave(lane, instance, prev.rec, prev.resources);
    }

    /** apply: the record replaces the one the index holds. */
    method Apply(lane: nat, instance: U64, prev: Option<Indexed>, next: Indexed)
      requires Valid() && next.Proper() && (prev.Some? ==> prev.value.Proper())
      requires if (lane, instance) in index.records
               then prev.Some? && index.records[(lane, instance)] == prev.value.rec else prev.None?
      modifies this, index, I.Nodes(index.root)
      ensures Valid() && fresh(I.Nodes(index.root) - old(I.Nodes(index.root)))
      ensures index.records == old(index.records)[(lane, instance) := next.rec]
              && SameFloors(old(index.entries), index.entries)
    {
      if prev.Some? {
        Remove(lane, instance, prev.value);
      }
      ghost var between := index.entries;
      Place(lane, instance, next);
      FloorsTransitive(old(index.entries), between, index.entries);
    }

    method Place(lane: nat, instance: U64, next: Indexed)
      requires Valid() && next.Proper() && (lane, instance) !in index.records
      modifies this, index, I.Nodes(index.root)
      ensures Valid() && fresh(I.Nodes(index.root) - old(I.Nodes(index.root)))
      ensures index.records == old(index.records)[(lane, instance) := next.rec]
              && SameFloors(old(index.entries), index.entries)
    {
      assert L.ValidRoot(TreeOf(trees, lane));
      var tree := PlaceIn(TreeOf(trees, lane), instance, SlotFor(next.rec));
      SlotChanged(trees, index.records, index.records[(lane, instance) := next.rec], lane, instance, tree);
      trees := trees[lane := tree];
      index.Enter(lane, instance, next.rec, next.resources);
    }

    /** foldRecord's part in the index: the record leaves and, above the watermark, its floors stay. */
    method Fold(lane: nat, instance: U64, prev: Indexed, above: bool)
      requires Valid() && prev.Proper()
               && ((lane, instance) in index.records ==> index.records[(lane, instance)] == prev.rec)
      requires instance >= 1
      modifies this, index, I.Nodes(index.root)
      ensures Valid() && fresh(I.Nodes(index.root) - old(I.Nodes(index.root)))
      ensures index.records == old(index.records) - {(lane, instance)}
      ensures if above && C.Posted(prev.rec)
              then RaisedAll(old(index.entries), index.entries, lane, prev.rec.resources, instance)
              else SameFloors(old(index.entries), index.entries)
      ensures above && (lane, instance) in old(index.records) ==>
                forall l, f :: SameAnswer(old(index.records), old(index.entries), index.records, index.entries, l, f)
    {
      Remove(lane, instance, prev);
      ghost var between := index.entries;
      if above && C.Posted(prev.rec) {
        index.RaiseAll(lane, instance, prev.resources);
        RaisedFrom(old(index.entries), between, index.entries, lane, prev.rec.resources, instance);
      }
      if above && (lane, instance) in old(index.records) {
        FoldAnswers(old(index.records), old(index.entries), index.entries, lane, instance, prev.rec);
      }
    }

    /** maxEligibleAny and globalMax, the resident part. */
    method Scopes(lane: nat) returns (any: nat, global: nat)
      requires Valid()
      ensures any == C.Greatest(C.AnyHits(Resident(lane))) && global == C.Greatest(C.GlobalHits(Resident(lane)))
    {
      var tree := new L.LaneTree();
      assert L.ValidRoot(TreeOf(trees, lane));
      tree.root := TreeOf(trees, lane);
      var count;
      any, global, count := tree.Aggregates();
      ScopesExact(trees, index.records, lane, any, global);
    }

    /** prefixMaxSeq, the resident part. */
    method PrefixMaxSeq(lane: nat, through: U64) returns (v: nat)
      requires Valid()
      ensures v == C.Greatest(C.SeqHits(Resident(lane), through))
    {
      var tree := new L.LaneTree();
      assert L.ValidRoot(TreeOf(trees, lane));
      tree.root := TreeOf(trees, lane);
      v := tree.PrefixMaxSeq(through);
      PrefixExact(trees, index.records, lane, through, v);
    }
  }

  lemma RaisedFrom(a: Entries, b: Entries, c: Entries, lane: nat, resources: set<T.Resource>, instance: nat)
    requires SameFloors(a, b) && RaisedAll(b, c, lane, resources, instance)
    ensures RaisedAll(a, c, lane, resources, instance)
  {
    forall l, q
      ensures RaisedIn(a, c, lane, resources, instance, l, q)
    {
      assert SameFloor(a, b, l, q) && RaisedIn(b, c, lane, resources, instance, l, q);
    }
  }

  lemma ScopesExact(trees: Trees, records: Records, lane: nat, any: nat, global: nat)
    requires Slotted(trees, records)
    requires var root := TreeOf(trees, lane);
             && (forall j: nat :: L.BoundedBy(root, any, global, j))
             && (any == 0 || (L.SlotOf(root, any).Some? && L.SlotOf(root, any).value.eligible))
             && (global == 0
                 || (L.SlotOf(root, global).Some? && L.SlotOf(root, global).value.eligible
                     && L.SlotOf(root, global).value.global))
    ensures any == C.Greatest(C.AnyHits(LaneRecords(records, lane)))
    ensures global == C.Greatest(C.GlobalHits(LaneRecords(records, lane)))
  {
    var root, resident := TreeOf(trees, lane), LaneRecords(records, lane);
    assert SlotAt(trees, records, lane, any) && SlotAt(trees, records, lane, global);
    forall j | j in resident
      ensures resident[j].eligible ==> j <= any && (resident[j].global ==> j <= global)
    {
      assert SlotAt(trees, records, lane, j) && L.BoundedBy(root, any, global, j);
    }
    C.GreatestIs(C.AnyHits(resident), any);
    C.GreatestIs(C.GlobalHits(resident), global);
  }

  lemma PrefixExact(trees: Trees, records: Records, lane: nat, through: nat, v: nat)
    requires Slotted(trees, records) && L.LanePrefixMax(TreeOf(trees, lane), through, v)
    ensures v == C.Greatest(C.SeqHits(LaneRecords(records, lane), through))
  {
    var root, resident := TreeOf(trees, lane), LaneRecords(records, lane);
    var hits := C.SeqHits(resident, through);
    forall x | x in hits
      ensures x <= v
    {
      var j :| j in resident && j <= through && resident[j].eligible && resident[j].seqNo == x;
      assert SlotAt(trees, records, lane, j) && L.SeqAtMost(root, through, v, j);
    }
    if v > 0 {
      var j :| L.SeqIs(root, through, v, j);
      assert SlotAt(trees, records, lane, j) && j in resident;
    }
    C.GreatestIs(hits, v);
  }
}
