/**
 The conflict engine's resource index of one configuration: an interval tree of resources, a table of
 the point resources, and under every resource a posting set and a retired floor for each lane. A
 footprint query answers what a scan of the indexed records would.
 */
module ResourceIndex {
  import opened Types
  import opened ByteOrder
  import C = Conflicts
  import F = Footprint
  import I = IntervalIndex
  import L = Lane
  import R = Radix
  import T = IntervalTree

  /** keyLane: the posting set's root and the greatest folded instance. */
  datatype KeyLane = KeyLane(root: R.Node, floor: nat)

  type Entries = map<T.Resource, map<nat, KeyLane>>

  /** The indexed records, by lane and instance. */
  type Records = map<(nat, nat), C.Record>

  function Point(p: Bytes): T.Resource {
    T.Resource(p, p, true)
  }

  predicate Present(e: Entries, lane: nat, r: T.Resource) {
    r in e && lane in e[r]
  }

  function Floor(e: Entries, lane: nat, r: T.Resource): nat {
    if Present(e, lane, r) then e[r][lane].floor else 0
  }

  ghost predicate Holds(e: Entries, lane: nat, r: T.Resource, j: nat) {
    Present(e, lane, r) && L.SlotOf(e[r][lane].root, j).Some?
  }

  ghost predicate Lists(records: Records, lane: nat, r: T.Resource, j: nat) {
    (lane, j) in records && C.Posted(records[(lane, j)]) && r in records[(lane, j)].resources
  }

  /** A posting stands for a record that lists the resource. */
  ghost predicate Agrees(e: Entries, records: Records, lane: nat, r: T.Resource, j: nat) {
    Holds(e, lane, r, j) <==> Lists(records, lane, r, j)
  }

  ghost predicate GoodLane(e: Entries, lane: nat, r: T.Resource) {
    Present(e, lane, r) ==> L.GoodPostings(e[r][lane].root)
  }

  /** The tree and the table hold the resources some lane has an entry for. */
  ghost predicate Indexed(tree: T.Tree, points: map<Bytes, T.Resource>, e: Entries, r: T.Resource) {
    && (r in T.List(tree) <==> r in e) && (r in e ==> e[r] != map[])
    && (r.point && r.Proper() ==> (r.start in points <==> r in e))
  }

  ghost predicate PointAt(points: map<Bytes, T.Resource>, p: Bytes) {
    p in points ==> points[p] == Point(p)
  }

  ghost predicate Sound(tree: T.Tree, points: map<Bytes, T.Resource>, e: Entries, records: Records) {
    && (forall r :: Indexed(tree, points, e, r)) && (forall p :: PointAt(points, p))
    && (forall lane, r :: GoodLane(e, lane, r))
    && (forall lane, r, j :: Agrees(e, records, lane, r, j))
  }

  ghost predicate SameFloor(a: Entries, b: Entries, lane: nat, r: T.Resource) {
    Floor(a, lane, r) == Floor(b, lane, r)
  }

  ghost predicate SameFloors(a: Entries, b: Entries) {
    forall lane, r :: SameFloor(a, b, lane, r)
  }

  // One posting set.

  ghost predicate Added(root: R.Node, next: R.Node, instance: nat, j: nat) {
    L.SlotOf(next, j).Some? <==> j == instance || L.SlotOf(root, j).Some?
  }

  ghost predicate Taken(root: R.Node, next: R.Node, instance: nat, j: nat) {
    L.SlotOf(next, j).Some? <==> j != instance && L.SlotOf(root, j).Some?
  }

  method InsertPosting(root: R.Node, instance: U64) returns (next: R.Node)
    requires L.GoodPostings(root)
    ensures L.GoodPostings(next) && !next.Nil? && L.Tight(next) && forall j: nat :: Added(root, next, instance, j)
  {
    var s := new L.PostingSet();
    s.tree.root := root;
    s.Insert(instance);
    next := s.tree.root;
    forall j: nat
      ensures Added(root, next, instance, j)
    {
      assert s.Has(j) <==> j == instance || L.SlotOf(root, j).Some?;
    }
    assert Added(root, next, instance, instance);
  }

  method RemovePosting(root: R.Node, instance: U64) returns (next: R.Node)
    requires L.GoodPostings(root)
    ensures L.GoodPostings(next) && forall j: nat :: Taken(root, next, instance, j)
    ensures L.Tight(root) ==> L.Tight(next)
  {
    var s := new L.PostingSet();
    s.tree.root := root;
    var removed := s.Remove(instance);
    next := s.tree.root;
    forall j: nat
      ensures Taken(root, next, instance, j)
    {
      assert s.Has(j) <==> j != instance && L.SlotOf(root, j).Some?;
    }
  }

  method MaxPosting(root: R.Node) returns (m: nat)
    requires L.GoodPostings(root)
    ensures (forall j: nat :: L.SlotOf(root, j).Some? ==> j <= m) && (m == 0 || L.SlotOf(root, m).Some?)
  {
    var s := new L.PostingSet();
    s.tree.root := root;
    m := s.Maximum();
    forall j: nat | L.SlotOf(root, j).Some?
      ensures j <= m
    {
      assert s.Has(j);
    }
    assert m == 0 || s.Has(m);
  }

  // What a change to one resource's lane does to the whole.

  function SetLane(e: Entries, lane: nat, r: T.Resource, next: KeyLane): Entries
    requires r in e
  {
    var lanes: map<nat, KeyLane> := e[r][lane := next];
    e[r := lanes]
  }

  /** The record of the lane's instance with other resources. */
  function Relisted(records: Records, lane: nat, instance: nat, resources: set<T.Resource>): Records
    requires (lane, instance) in records
  {
    records[(lane, instance) := records[(lane, instance)].(resources := resources)]
  }

  lemma RelistedTwice(records: Records, lane: nat, instance: nat, a: set<T.Resource>, b: set<T.Resource>)
    requires (lane, instance) in records
    ensures Relisted(Relisted(records, lane, instance, a), lane, instance, b) == Relisted(records, lane, instance, b)
  {
  }

  lemma PostedAgrees(e: Entries, records: Records, lane: nat, r: T.Resource, instance: nat, next: KeyLane)
    requires (forall l, q, j :: Agrees(e, records, l, q, j)) && Present(e, lane, r)
    requires (lane, instance) in records && C.Posted(records[(lane, instance)])
    requires forall j: nat :: Added(e[r][lane].root, next.root, instance, j)
    ensures var more := SetLane(e, lane, r, next);
            var listed := Relisted(records, lane, instance, records[(lane, instance)].resources + {r});
            forall l, q, j :: Agrees(more, listed, l, q, j)
  {
    var more := SetLane(e, lane, r, next);
    var listed := Relisted(records, lane, instance, records[(lane, instance)].resources + {r});
    forall l, q, j
      ensures Agrees(more, listed, l, q, j)
    {
      assert Agrees(e, records, l, q, j) && Added(e[r][lane].root, next.root, instance, j);
    }
  }

  lemma UnpostedAgrees(e: Entries, records: Records, lane: nat, r: T.Resource, instance: nat, next: KeyLane)
    requires (forall l, q, j :: Agrees(e, records, l, q, j)) && Present(e, lane, r)
    requires (lane, instance) in records && C.Posted(records[(lane, instance)])
    requires forall j: nat :: Taken(e[r][lane].root, next.root, instance, j)
    ensures var more := SetLane(e, lane, r, next);
            var listed := Relisted(records, lane, instance, records[(lane, instance)].resources - {r});
            forall l, q, j :: Agrees(more, listed, l, q, j)
  {
    var more := SetLane(e, lane, r, next);
    var listed := Relisted(records, lane, instance, records[(lane, instance)].resources - {r});
    forall l, q, j
      ensures Agrees(more, listed, l, q, j)
    {
      assert Agrees(e, records, l, q, j) && Taken(e[r][lane].root, next.root, instance, j);
    }
  }

  /** An empty lane of a resource can be left out. */
  lemma DroppedAgrees(e: Entries, less: Entries, records: Records, lane: nat, r: T.Resource)
    requires (forall l, q, j :: Agrees(e, records, l, q, j)) && Present(e, lane, r) && e[r][lane] == KeyLane(R.Nil, 0)
    requires less == e[r := e[r] - {lane}] || (less == e - {r} && forall l <- e[r] :: l == lane)
    ensures (forall l, q, j :: Agrees(less, records, l, q, j)) && SameFloors(e, less)
    ensures (forall l, q :: GoodLane(e, l, q)) ==> forall l, q :: GoodLane(less, l, q)
  {
    forall l, q, j
      ensures Agrees(less, records, l, q, j)
    {
      assert Agrees(e, records, l, q, j);
    }
    forall l, q
      ensures SameFloor(e, less, l, q)
    {
    }
    if forall l, q :: GoodLane(e, l, q) {
      forall l, q
        ensures GoodLane(less, l, q)
      {
        assert GoodLane(e, l, q);
      }
    }
  }

  function Ensured(e: Entries, lane: nat, r: T.Resource): Entries {
    if Present(e, lane, r) then e else SetLane(if r in e then e else e[r := map[]], lane, r, KeyLane(R.Nil, 0))
  }

  lemma EnsuredAgrees(e: Entries, records: Records, lane: nat, r: T.Resource)
    requires (forall l, q, j :: Agrees(e, records, l, q, j)) && forall l, q :: GoodLane(e, l, q)
    ensures var more := Ensured(e, lane, r);
            && (forall l, q, j :: Agrees(more, records, l, q, j)) && (forall l, q :: GoodLane(more, l, q))
            && SameFloors(e, more) && Present(more, lane, r)
  {
    var more := Ensured(e, lane, r);
    forall l, q, j
      ensures Agrees(more, records, l, q, j)
    {
      assert Agrees(e, records, l, q, j);
    }
    forall l, q
      ensures GoodLane(more, l, q) && SameFloor(e, more, l, q)
    {
      assert GoodLane(e, l, q);
    }
  }

  lemma SetGood(e: Entries, lane: nat, r: T.Resource, next: KeyLane)
    requires (forall l, q :: GoodLane(e, l, q)) && r in e && L.GoodPostings(next.root)
    ensures forall l, q :: GoodLane(SetLane(e, lane, r, next), l, q)
  {
    var more := SetLane(e, lane, r, next);
    forall l, q
      ensures GoodLane(more, l, q)
    {
      assert GoodLane(e, l, q);
    }
  }

  lemma SetIndexed(tree: T.Tree, points: map<Bytes, T.Resource>, e: Entries, lane: nat, r: T.Resource, next: KeyLane)
    requires (forall q :: Indexed(tree, points, e, q)) && r in e
    ensures forall q :: Indexed(tree, points, SetLane(e, lane, r, next), q)
  {
    var more := SetLane(e, lane, r, next);
    forall q
      ensures Indexed(tree, points, more, q)
    {
      assert Indexed(tree, points, e, q);
      assert lane in more[r];
    }
  }

  /** The tree and the table after the resource was added to them, if it was missing. */
  lemma EnsuredIndexed(
    tree: T.Tree, tree': T.Tree, points: map<Bytes, T.Resource>, points': map<Bytes, T.Resource>, e: Entries,
    lane: nat, r: T.Resource)
    requires (forall q :: Indexed(tree, points, e, q)) && (forall p :: PointAt(points, p)) && r.Proper()
    requires forall q :: q in T.List(tree') <==> q in T.List(tree) || q == r
    requires points' == if r !in e && r.point then points[r.start := r] else points
    ensures (forall q :: Indexed(tree', points', Ensured(e, lane, r), q)) && forall p :: PointAt(points', p)
  {
    var more := Ensured(e, lane, r);
    forall q
      ensures Indexed(tree', points', more, q)
    {
      assert Indexed(tree, points, e, q) && Indexed(tree, points, e, r);
      assert lane in more[r];
    }
    forall p
      ensures PointAt(points', p)
    {
      assert PointAt(points, p);
    }
  }

  /** And after it was taken out of them. */
  lemma DeletedIndexed(
    tree: T.Tree, tree': T.Tree, points: map<Bytes, T.Resource>, points': map<Bytes, T.Resource>, e: Entries,
        r: T.Resource)
    requires (forall q :: Indexed(tree, points, e, q)) && (forall p :: PointAt(points, p)) && r.Proper()
    requires forall q :: q in T.List(tree') <==> q in T.List(tree) && q != r
    requires points' == if r.point then points - {r.start} else points
    ensures (forall q :: Indexed(tree', points', e - {r}, q)) && forall p :: PointAt(points', p)
  {
    var less := e - {r};
    forall q
      ensures Indexed(tree', points', less, q)
    {
      assert Indexed(tree, points, e, q);
    }
    forall p
      ensures PointAt(points', p)
    {
      assert PointAt(points, p);
    }
  }

  lemma ThinnedIndexed(tree: T.Tree, points: map<Bytes, T.Resource>, e: Entries, less: Entries, lane: nat,
                       r: T.Resource)
    requires (forall q :: Indexed(tree, points, e, q)) && r in e && e[r] - {lane} != map[]
             && less == e[r := e[r] - {lane}]
    ensures forall q :: Indexed(tree, points, less, q)
  {
    forall q
      ensures Indexed(tree, points, less, q)
    {
      assert Indexed(tree, points, e, q);
    }
  }

  function Max(a: nat, b: nat): nat {
    if a < b then b else a
  }

  /** The floors after the lane's floor under one resource was raised. */
  ghost predicate RaisedAt(a: Entries, b: Entries, lane: nat, r: T.Resource, instance: nat, l: nat, q: T.Resource) {
    Floor(b, l, q) == if l == lane && q == r then Max(Floor(a, l, q), instance) else Floor(a, l, q)
  }

  lemma FloorsTransitive(a: Entries, b: Entries, c: Entries)
    requires SameFloors(a, b) && SameFloors(b, c)
    ensures SameFloors(a, c)
  {
    forall l, q
      ensures SameFloor(a, c, l, q)
    {
      assert SameFloor(a, b, l, q) && SameFloor(b, c, l, q);
    }
  }

  /** Only a posting set changes. */
  lemma SetFloors(a: Entries, e: Entries, lane: nat, r: T.Resource, next: KeyLane)
    requires SameFloors(a, e) && Present(e, lane, r) && next.floor == e[r][lane].floor
    ensures SameFloors(a, SetLane(e, lane, r, next))
  {
    var more := SetLane(e, lane, r, next);
    forall l, q
      ensures SameFloor(a, more, l, q)
    {
      assert SameFloor(a, e, l, q);
    }
  }

  /** Only a floor changes. */
  lemma FloorAgrees(e: Entries, records: Records, lane: nat, r: T.Resource, next: KeyLane)
    requires (forall l, q, j :: Agrees(e, records, l, q, j)) && Present(e, lane, r) && next.root == e[r][lane].root
    ensures forall l, q, j :: Agrees(SetLane(e, lane, r, next), records, l, q, j)
  {
    var more := SetLane(e, lane, r, next);
    forall l, q, j
      ensures Agrees(more, records, l, q, j)
    {
      assert Agrees(e, records, l, q, j);
    }
  }

  ghost function Members(s: seq<T.Resource>): set<T.Resource> {
    set r | r in s
  }

  lemma MembersNext(s: seq<T.Resource>, k: nat)
    requires k < |s|
    ensures Members(s[..k + 1]) == Members(s[..k]) + {s[k]}
  {
    assert s[..k + 1] == s[..k] + [s[k]];
  }

  /** A record without postings can come and go. */
  lemma EnteredAgrees(e: Entries, records: Records, more: Records, lane: nat, instance: nat, rec: C.Record)
    requires (forall l, q, j :: Agrees(e, records, l, q, j)) && (lane, instance) !in records
    requires (!C.Posted(rec) || rec.resources == {}) && more == records[(lane, instance) := rec]
    ensures forall l, q, j :: Agrees(e, more, l, q, j)
  {
    forall l, q, j
      ensures Agrees(e, more, l, q, j)
    {
      assert Agrees(e, records, l, q, j);
    }
  }

  lemma LeftAgrees(e: Entries, records: Records, lane: nat, instance: nat)
    requires (forall l, q, j :: Agrees(e, records, l, q, j)) && (lane, instance) in records
    requires !C.Posted(records[(lane, instance)]) || records[(lane, instance)].resources == {}
    ensures forall l, q, j :: Agrees(e, records - {(lane, instance)}, l, q, j)
  {
    var less := records - {(lane, instance)};
    forall l, q, j
      ensures Agrees(e, less, l, q, j)
    {
      assert Agrees(e, records, l, q, j);
    }
  }

  ghost predicate RaisedIn(a: Entries, b: Entries, lane: nat, resources: set<T.Resource>, instance: nat, l: nat,
                           q: T.Resource) {
    Floor(b, l, q) == if l == lane && q in resources then Max(Floor(a, l, q), instance) else Floor(a, l, q)
  }

  ghost predicate RaisedAll(a: Entries, b: Entries, lane: nat, resources: set<T.Resource>, instance: nat) {
    forall l, q :: RaisedIn(a, b, lane, resources, instance, l, q)
  }

  lemma RaisedMore(a: Entries, b: Entries, c: Entries, lane: nat, s: seq<T.Resource>, k: nat, instance: nat)
    requires k < |s| && RaisedAll(a, b, lane, Members(s[..k]), instance)
    requires forall l, q :: RaisedAt(b, c, lane, s[k], instance, l, q)
    ensures RaisedAll(a, c, lane, Members(s[..k + 1]), instance)
  {
    MembersNext(s, k);
    var before, after := Members(s[..k]), Members(s[..k + 1]);
    forall l, q
      ensures RaisedIn(a, c, lane, after, instance, l, q)
    {
      assert RaisedIn(a, b, lane, before, instance, l, q) && RaisedAt(b, c, lane, s[k], instance, l, q);
    }
  }

  // Queries.

  ghost predicate Met(s: seq<T.Resource>, e: Entries, f: F.Footprint, r: T.Resource) {
    r in s <==> r in e && C.Touches(f, r)
  }

  /** The resources a part of the footprint touches, each once. */
  ghost predicate Visits(s: seq<T.Resource>, e: Entries, points: seq<Bytes>, spans: seq<F.Span>) {
    Distinct(s) && forall r :: Met(s, e, F.Footprint(points, spans, false), r)
  }

  ghost predicate Apart(s: seq<T.Resource>, i: int, j: int) {
    0 <= i < j < |s| ==> s[i] != s[j]
  }

  ghost predicate Distinct(s: seq<T.Resource>) {
    forall i, j :: Apart(s, i, j)
  }

  /** What the callback sees of a list for the first time. */
  method Unique(visited: seq<T.Resource>, more: seq<T.Resource>) returns (all: seq<T.Resource>)
    requires Distinct(visited)
    ensures Distinct(all) && forall r :: r in all <==> r in visited || r in more
  {
    all := visited;
    for k := 0 to |more|
      invariant Distinct(all) && forall r :: r in all <==> r in visited || r in more[..k]
    {
      assert more[..k + 1] == more[..k] + [more[k]];
      if more[k] !in all {
        DistinctMore(all, more[k]);
        all := all + [more[k]];
      }
    }
    assert more[..|more|] == more;
  }

  lemma DistinctMore(s: seq<T.Resource>, r: T.Resource)
    requires Distinct(s) && r !in s
    ensures Distinct(s + [r])
  {
    forall i, j
      ensures Apart(s + [r], i, j)
    {
      assert Apart(s, i, j);
    }
  }

  ghost function LaneRecords(records: Records, lane: nat): map<nat, C.Record> {
    map k | k in records && k.0 == lane :: k.1 := records[k]
  }

  ghost function LaneFloors(e: Entries, lane: nat): map<T.Resource, nat> {
    map r | r in e && Floor(e, lane, r) > 0 :: Floor(e, lane, r)
  }

  ghost predicate HeldBelow(e: Entries, lane: nat, s: seq<T.Resource>, v: nat, r: T.Resource, j: nat) {
    r in s && Holds(e, lane, r, j) ==> j <= v
  }

  ghost predicate HeldAt(e: Entries, lane: nat, s: seq<T.Resource>, v: nat, r: T.Resource) {
    r in s && Holds(e, lane, r, v)
  }

  /** The greatest posting of the lane under the resources, zero when there is none. */
  ghost predicate TopHeld(e: Entries, lane: nat, s: seq<T.Resource>, v: nat) {
    (forall r, j :: HeldBelow(e, lane, s, v, r, j)) && (v == 0 || exists r :: HeldAt(e, lane, s, v, r))
  }

  /** The greatest floor of the lane under the resources. */
  ghost predicate TopFloor(e: Entries, lane: nat, s: seq<T.Resource>, v: nat) {
    (forall r <- s :: Floor(e, lane, r) <= v) && (v == 0 || exists r <- s :: Floor(e, lane, r) == v)
  }

  lemma TopHeldMore(e: Entries, lane: nat, s: seq<T.Resource>, r: T.Resource, v: nat, m: nat)
    requires TopHeld(e, lane, s, v)
    requires (forall j: nat :: Holds(e, lane, r, j) ==> j <= m) && (m == 0 || Holds(e, lane, r, m))
    ensures TopHeld(e, lane, s + [r], Max(v, m))
  {
    var more, w := s + [r], Max(v, m);
    forall q, j
      ensures HeldBelow(e, lane, more, w, q, j)
    {
      assert HeldBelow(e, lane, s, v, q, j);
    }
    if w == m && m > 0 {
      assert HeldAt(e, lane, more, w, r);
    } else if w > 0 {
      var q :| HeldAt(e, lane, s, v, q);
      assert HeldAt(e, lane, more, w, q);
    }
  }

  lemma TopFloorMore(e: Entries, lane: nat, s: seq<T.Resource>, r: T.Resource, v: nat)
    requires TopFloor(e, lane, s, v)
    ensures TopFloor(e, lane, s + [r], Max(v, Floor(e, lane, r)))
  {
    var more := s + [r];
    assert forall q <- s :: q in more;
    assert r in more;
  }

  lemma TopsMore(e: Entries, lane: nat, s: seq<T.Resource>, k: nat, v: nat, w: nat, m: nat)
    requires k < |s| && TopHeld(e, lane, s[..k], v) && TopFloor(e, lane, s[..k], w)
    requires (forall j: nat :: Holds(e, lane, s[k], j) ==> j <= m) && (m == 0 || Holds(e, lane, s[k], m))
    ensures TopHeld(e, lane, s[..k + 1], Max(v, m)) && TopFloor(e, lane, s[..k + 1], Max(w, Floor(e, lane, s[k])))
  {
    assert s[..k + 1] == s[..k] + [s[k]];
    TopHeldMore(e, lane, s[..k], s[k], v, m);
    TopFloorMore(e, lane, s[..k], s[k], w);
  }

  /** The greatest posting under the touched resources is the greatest record the footprint meets. */
  lemma ResidentExact(e: Entries, records: Records, lane: nat, f: F.Footprint, s: seq<T.Resource>, v: nat)
    requires (forall l, q, j :: Agrees(e, records, l, q, j)) && Visits(s, e, f.points, f.spans)
             && TopHeld(e, lane, s, v)
    ensures v == C.Greatest(C.ResidentHits(LaneRecords(records, lane), f))
  {
    var hits := C.ResidentHits(LaneRecords(records, lane), f);
    var g := F.Footprint(f.points, f.spans, false);
    assert forall r :: C.Touches(g, r) <==> C.Touches(f, r);
    forall j | j in hits
      ensures j <= v
    {
      var r :| r in records[(lane, j)].resources && C.Touches(f, r);
      assert Lists(records, lane, r, j) && Agrees(e, records, lane, r, j) && Met(s, e, g, r)
             && HeldBelow(e, lane, s, v, r, j);
    }
    if v > 0 {
      var r :| HeldAt(e, lane, s, v, r);
      assert Agrees(e, records, lane, r, v) && Met(s, e, g, r);
      assert C.TouchesAny(f, records[(lane, v)]);
      assert v in hits;
    }
    C.GreatestIs(hits, v);
  }

  lemma RetiredExact(e: Entries, lane: nat, f: F.Footprint, s: seq<T.Resource>, v: nat)
    requires Visits(s, e, f.points, f.spans) && TopFloor(e, lane, s, v)
    ensures v == C.Greatest(C.FloorHits(LaneFloors(e, lane), f))
  {
    var floors := LaneFloors(e, lane);
    var hits := C.FloorHits(floors, f);
    var g := F.Footprint(f.points, f.spans, false);
    assert forall r :: C.Touches(g, r) <==> C.Touches(f, r);
    forall j | j in hits
      ensures j <= v
    {
      var r :| r in floors && C.Touches(f, r) && floors[r] == j;
      assert Met(s, e, g, r);
    }
    if v > 0 {
      var r :| r in s && Floor(e, lane, r) == v;
      assert Met(s, e, g, r) && r in floors;
    }
    C.GreatestIs(hits, v);
  }

  // Nothing is kept that stands for nothing.

  predicate Husk(k: KeyLane) {
    k.root.Nil? && k.floor == 0
  }

  ghost predicate LeanAt(e: Entries, l: nat, q: T.Resource) {
    Present(e, l, q) ==> L.Tight(e[q][l].root) && !Husk(e[q][l])
  }

  /** Every lane entry has a posting or a floor. */
  ghost predicate Lean(e: Entries) {
    forall l, q :: LeanAt(e, l, q)
  }

  ghost predicate LeanBut(e: Entries, lane: nat, r: T.Resource) {
    && (Present(e, lane, r) ==> L.Tight(e[r][lane].root))
    && forall l, q :: (l == lane && q == r) || LeanAt(e, l, q)
  }

  lemma LeanEnsured(e: Entries, lane: nat, r: T.Resource)
    requires Lean(e)
    ensures LeanBut(Ensured(e, lane, r), lane, r)
  {
    var more := Ensured(e, lane, r);
    assert LeanAt(e, lane, r);
    forall l, q
      ensures (l == lane && q == r) || LeanAt(more, l, q)
    {
      assert LeanAt(e, l, q);
    }
  }

  lemma LeanSet(e: Entries, lane: nat, r: T.Resource, next: KeyLane)
    requires LeanBut(e, lane, r) && r in e && L.Tight(next.root)
    ensures LeanBut(SetLane(e, lane, r, next), lane, r)
    ensures !Husk(next) ==> Lean(SetLane(e, lane, r, next))
  {
    var more := SetLane(e, lane, r, next);
    forall l, q
      ensures ((l == lane && q == r) || LeanAt(more, l, q)) && (!Husk(next) ==> LeanAt(more, l, q))
    {
      assert (l == lane && q == r) || LeanAt(e, l, q);
    }
  }

  lemma LeanThinned(e: Entries, less: Entries, lane: nat, r: T.Resource)
    requires LeanBut(e, lane, r) && Present(e, lane, r)
    requires less == e[r := e[r] - {lane}] || less == e - {r}
    ensures Lean(less)
  {
    forall l, q
      ensures LeanAt(less, l, q)
    {
      assert (l == lane && q == r) || LeanAt(e, l, q);
    }
  }

  lemma SomethingHeld(e: Entries, lane: nat, r: T.Resource)
    requires Present(e, lane, r) && LeanAt(e, lane, r) && Floor(e, lane, r) == 0
    ensures exists j: nat :: Holds(e, lane, r, j)
  {
    var j: nat :| L.SlotOf(e[r][lane].root, j).Some?;
    assert Holds(e, lane, r, j);
  }

  lemma PresentSomewhere(tree: T.Tree, points: map<Bytes, T.Resource>, e: Entries, r: T.Resource)
    requires Indexed(tree, points, e, r) && r in e
    ensures exists lane :: Present(e, lane, r)
  {
    var lane :| lane in e[r];
    assert Present(e, lane, r);
  }

  /** An index with no records and no floors is empty, tree and table included. */
  lemma EmptyAgain(tree: T.Tree, points: map<Bytes, T.Resource>, e: Entries, records: Records)
    requires Sound(tree, points, e, records) && Lean(e) && records == map[] && forall lane, r :: Floor(e, lane, r) == 0
    ensures e == map[] && T.List(tree) == [] && points == map[]
  {
    forall lane, r, j
      ensures !Holds(e, lane, r, j)
    {
      assert Agrees(e, records, lane, r, j);
    }
    forall lane, r
      ensures !Present(e, lane, r)
    {
      assert LeanAt(e, lane, r) && Floor(e, lane, r) == 0;
      if Present(e, lane, r) {
        SomethingHeld(e, lane, r);
      }
    }
    forall r
      ensures r !in e && r !in T.List(tree)
    {
      assert Indexed(tree, points, e, r);
      if r in e {
        PresentSomewhere(tree, points, e, r);
      }
    }
    assert T.List(tree) != [] ==> T.List(tree)[0] in T.List(tree);
    forall p
      ensures p !in points
    {
      assert PointAt(points, p) && Indexed(tree, points, e, Point(p));
    }
  }

  class Index {
    var root: I.IntervalNode?
    var points: map<Bytes, T.Resource>
    var entries: Entries
    ghost var records: Records

    ghost predicate Valid()
      reads this, root, I.Nodes(root)
    {
      I.Ok(root) && T.Valid(I.Value(root)) && Sound(I.Value(root), points, entries, records)
    }

    constructor ()
      ensures Valid() && root == null && entries == map[] && records == map[]
    {
      root, points, entries, records := null, map[], map[], map[];
    }

    /** ensureResource, the resource: it is in the tree and, if a point, in the table. */
    method EnsureNode(r: T.Resource)
      requires I.Ok(root) && T.Valid(I.Value(root)) && r.Proper()
      modifies this`root, this`points, I.Nodes(root)
      ensures I.Ok(root) && T.Valid(I.Value(root)) && fresh(I.Nodes(root) - old(I.Nodes(root)))
      ensures forall q :: q in T.List(I.Value(root)) <==> q in T.List(old(I.Value(root))) || q == r
      ensures points == if r !in T.List(old(I.Value(root))) && r.point then old(points)[r.start := r] else old(points)
    {
      var found := I.Find(root, r);
      if !found {
        T.InsertKeeps(I.Value(root), r);
        root := I.Insert(root, r);
        if r.point {
          points := points[r.start := r];
        }
      }
    }

    /** ensureResource: the resource is in the tree and, if a point, in the table; the lane has an entry under it. */
    method Ensure(lane: nat, r: T.Resource)
      requires Valid() && r.Proper()
      modifies this, I.Nodes(root)
      ensures Valid() && records == old(records) && entries == Ensured(old(entries), lane, r)
      ensures Present(entries, lane, r) && SameFloors(old(entries), entries)
              && fresh(I.Nodes(root) - old(I.Nodes(root)))
      ensures Lean(old(entries)) ==> LeanBut(entries, lane, r)
    {
      EnsuredAgrees(entries, records, lane, r);
      if Lean(entries) {
        LeanEnsured(entries, lane, r);
      }
      assert Indexed(I.Value(root), points, entries, r);
      EnsureNode(r);
      EnsuredIndexed(old(I.Value(root)), I.Value(root), old(points), points, entries, lane, r);
      entries := Ensured(entries, lane, r);
    }

    /** A posting is added, and the record lists the resource. */
    method Post(lane: nat, r: T.Resource, instance: U64)
      requires Valid() && r.Proper() && (lane, instance) in records && C.Posted(records[(lane, instance)])
      modifies this, I.Nodes(root)
      ensures Valid() && SameFloors(old(entries), entries) && fresh(I.Nodes(root) - old(I.Nodes(root)))
      ensures records == Relisted(old(records), lane, instance, old(records[(lane, instance)].resources) + {r})
      ensures Lean(old(entries)) ==> Lean(entries)
    {
      Ensure(lane, r);
      ghost var between := entries;
      Add(lane, r, instance);
      FloorsTransitive(old(entries), between, entries);
    }

    method Add(lane: nat, r: T.Resource, instance: U64)
      requires Valid() && Present(entries, lane, r) && (lane, instance) in records
               && C.Posted(records[(lane, instance)])
      modifies this`entries, this`records
      ensures Valid() && SameFloors(old(entries), entries)
      ensures records == Relisted(old(records), lane, instance, old(records[(lane, instance)].resources) + {r})
      ensures LeanBut(old(entries), lane, r) ==> Lean(entries)
    {
      assert GoodLane(entries, lane, r);
      var postings := InsertPosting(entries[r][lane].root, instance);
      var next := entries[r][lane].(root := postings);
      PostedAgrees(entries, records, lane, r, instance, next);
      SetGood(entries, lane, r, next);
      SetIndexed(I.Value(root), points, entries, lane, r, next);
      SetFloors(entries, entries, lane, r, next);
      if LeanBut(entries, lane, r) {
        LeanSet(entries, lane, r, next);
      }
      entries := SetLane(entries, lane, r, next);
      records := Relisted(records, lane, instance, records[(lane, instance)].resources + {r});
    }

    /** removeResourcePosting: the posting goes, with the lane's entry and the resource if nothing is left of them. */
    method Unpost(lane: nat, r: T.Resource, instance: U64)
      requires Valid() && r.Proper() && (lane, instance) in records && C.Posted(records[(lane, instance)])
      modifies this, I.Nodes(root)
      ensures Valid() && SameFloors(old(entries), entries) && I.Nodes(root) <= old(I.Nodes(root))
      ensures records == Relisted(old(records), lane, instance, old(records[(lane, instance)].resources) - {r})
      ensures Lean(old(entries)) ==> Lean(entries)
    {
      assert Indexed(I.Value(root), points, entries, r) && Agrees(entries, records, lane, r, instance);
      var found := I.Find(root, r);
      if !found || lane !in entries[r] {
        assert !Lists(records, lane, r, instance);
        assert records[(lane, instance)].resources - {r} == records[(lane, instance)].resources;
        return;
      }
      Take(lane, r, instance);
      ghost var between := entries;
      Prune(lane, r);
      FloorsTransitive(old(entries), between, entries);
    }

    method Take(lane: nat, r: T.Resource, instance: U64)
      requires Valid() && Present(entries, lane, r) && (lane, instance) in records
               && C.Posted(records[(lane, instance)])
      modifies this`entries, this`records
      ensures Valid() && Present(entries, lane, r) && SameFloors(old(entries), entries)
      ensures records == Relisted(old(records), lane, instance, old(records[(lane, instance)].resources) - {r})
      ensures Lean(old(entries)) ==> LeanBut(entries, lane, r)
    {
      assert GoodLane(entries, lane, r);
      var postings := RemovePosting(entries[r][lane].root, instance);
      var next := entries[r][lane].(root := postings);
      UnpostedAgrees(entries, records, lane, r, instance, next);
      SetGood(entries, lane, r, next);
      SetIndexed(I.Value(root), points, entries, lane, r, next);
      SetFloors(entries, entries, lane, r, next);
      if Lean(entries) {
        assert LeanAt(entries, lane, r);
        LeanSet(entries, lane, r, next);
      }
      entries := SetLane(entries, lane, r, next);
      records := Relisted(records, lane, instance, records[(lane, instance)].resources - {r});
    }

    method Prune(lane: nat, r: T.Resource)
      requires Valid() && r.Proper() && Present(entries, lane, r)
      modifies this, I.Nodes(root)
      ensures Valid() && SameFloors(old(entries), entries) && I.Nodes(root) <= old(I.Nodes(root))
              && records == old(records)
      ensures LeanBut(old(entries), lane, r) ==> Lean(entries)
    {
      if entries[r][lane] != KeyLane(R.Nil, 0) {
        assert LeanBut(entries, lane, r) ==> Lean(entries) by {
          assert forall l, q :: LeanBut(entries, lane, r) ==> LeanAt(entries, l, q);
        }
        return;
      }
      var lanes := entries[r] - {lane};
      if LeanBut(entries, lane, r) {
        LeanThinned(entries, if lanes != map[] then entries[r := lanes] else entries - {r}, lane, r);
      }
      if lanes != map[] {
        DroppedAgrees(entries, entries[r := lanes], records, lane, r);
        ThinnedIndexed(I.Value(root), points, entries, entries[r := lanes], lane, r);
        entries := entries[r := lanes];
      } else {
        assert forall l <- entries[r] :: l == lane || l in lanes;
        DroppedAgrees(entries, entries - {r}, records, lane, r);
        Discard(r);
      }
    }

    /** The resource leaves the tree and the table. */
    method Discard(r: T.Resource)
      requires I.Ok(root) && T.Valid(I.Value(root)) && r.Proper()
      requires (forall q :: Indexed(I.Value(root), points, entries, q)) && forall p :: PointAt(points, p)
      modifies this`root, this`points, this`entries, I.Nodes(root)
      ensures I.Ok(root) && T.Valid(I.Value(root)) && I.Nodes(root) <= old(I.Nodes(root))
              && entries == old(entries) - {r}
      ensures (forall q :: Indexed(I.Value(root), points, entries, q)) && forall p :: PointAt(points, p)
    {
      ghost var tree := I.Value(root);
      T.DeleteKeeps(tree, r);
      root := I.Delete(root, r);
      if r.point {
        points := points - {r.start};
      }
      DeletedIndexed(tree, I.Value(root), old(points), points, entries, r);
      entries := entries - {r};
    }

    /** The lane's retired floor under the resource rises to the instance. */
    method Raise(lane: nat, r: T.Resource, instance: nat)
      requires Valid() && r.Proper()
      modifies this, I.Nodes(root)
      ensures Valid() && records == old(records) && fresh(I.Nodes(root) - old(I.Nodes(root)))
      ensures forall l, q :: RaisedAt(old(entries), entries, lane, r, instance, l, q)
      ensures Lean(old(entries)) && instance >= 1 ==> Lean(entries)
    {
      Ensure(lane, r);
      ghost var between := entries;
      Lift(lane, r, instance);
      forall l, q
        ensures RaisedAt(old(entries), entries, lane, r, instance, l, q)
      {
        assert SameFloor(old(entries), between, l, q) && RaisedAt(between, entries, lane, r, instance, l, q);
      }
    }

    method Lift(lane: nat, r: T.Resource, instance: nat)
      requires Valid() && Present(entries, lane, r)
      modifies this`entries
      ensures Valid() && forall l, q :: RaisedAt(old(entries), entries, lane, r, instance, l, q)
      ensures LeanBut(old(entries), lane, r) && instance >= 1 ==> Lean(entries)
    {
      assert GoodLane(entries, lane, r);
      var next := entries[r][lane].(floor := Max(entries[r][lane].floor, instance));
      SetGood(entries, lane, r, next);
      SetIndexed(I.Value(root), points, entries, lane, r, next);
      FloorAgrees(entries, records, lane, r, next);
      if LeanBut(entries, lane, r) {
        LeanSet(entries, lane, r, next);
      }
      entries := SetLane(entries, lane, r, next);
    }

    /** The loops of apply over the points and the spans of a record. */
    method PostAll(lane: nat, instance: U64, resources: seq<T.Resource>)
      requires Valid() && (lane, instance) in records && C.Posted(records[(lane, instance)])
      requires records[(lane, instance)].resources == {} && forall r <- resources :: r.Proper()
      modifies this, I.Nodes(root)
      ensures Valid() && SameFloors(old(entries), entries) && fresh(I.Nodes(root) - old(I.Nodes(root)))
      ensures records == Relisted(old(records), lane, instance, Members(resources))
      ensures Lean(old(entries)) ==> Lean(entries)
    {
      assert Members(resources[..0]) == {};
      for k := 0 to |resources|
        invariant Valid() && SameFloors(old(entries), entries) && fresh(I.Nodes(root) - old(I.Nodes(root)))
        invariant records == Relisted(old(records), lane, instance, Members(resources[..k]))
        invariant Lean(old(entries)) ==> Lean(entries)
      {
        ghost var between := entries;
        Post(lane, resources[k], instance);
        FloorsTransitive(old(entries), between, entries);
        MembersNext(resources, k);
        RelistedTwice(old(records), lane, instance, Members(resources[..k]), Members(resources[..k + 1]));
      }
      assert resources[..|resources|] == resources;
    }

    /** The postings of a new record. */
    method Enter(lane: nat, instance: U64, rec: C.Record, resources: seq<T.Resource>)
      requires Valid() && (lane, instance) !in records && rec.resources == Members(resources)
      requires forall r <- resources :: r.Proper()
      modifies this, I.Nodes(root)
      ensures Valid() && SameFloors(old(entries), entries) && fresh(I.Nodes(root) - old(I.Nodes(root)))
      ensures records == old(records)[(lane, instance) := rec]
      ensures Lean(old(entries)) ==> Lean(entries)
    {
      ghost var blank := if C.Posted(rec) then rec.(resources := {}) else rec;
      EnteredAgrees(entries, records, records[(lane, instance) := blank], lane, instance, blank);
      records := records[(lane, instance) := blank];
      if C.Posted(rec) {
        PostAll(lane, instance, resources);
      }
    }

    /** The loops of remove over the points and the spans of a record. */
    method UnpostAll(lane: nat, instance: U64, resources: seq<T.Resource>)
      requires Valid() && (lane, instance) in records && C.Posted(records[(lane, instance)])
      requires records[(lane, instance)].resources == Members(resources) && forall r <- resources :: r.Proper()
      modifies this, I.Nodes(root)
      ensures Valid() && SameFloors(old(entries), entries) && I.Nodes(root) <= old(I.Nodes(root))
      ensures records == Relisted(old(records), lane, instance, {})
      ensures Lean(old(entries)) ==> Lean(entries)
    {
      ghost var all := Members(resources);
      assert all - Members(resources[..0]) == all;
      for k := 0 to |resources|
        invariant Valid() && SameFloors(old(entries), entries) && I.Nodes(root) <= old(I.Nodes(root))
        invariant records == Relisted(old(records), lane, instance, all - Members(resources[..k]))
        invariant Lean(old(entries)) ==> Lean(entries)
      {
        ghost var between := entries;
        Unpost(lane, resources[k], instance);
        FloorsTransitive(old(entries), between, entries);
        MembersNext(resources, k);
        assert all - Members(resources[..k]) - {resources[k]} == all - Members(resources[..k + 1]);
        RelistedTwice(old(records), lane, instance, all - Members(resources[..k]), all - Members(resources[..k + 1]));
      }
      assert resources[..|resources|] == resources;
      assert all - all == {};
    }

    /** The postings of a record that leaves. */
    method Leave(lane: nat, instance: U64, rec: C.Record, resources: seq<T.Resource>)
      requires Valid() && (lane, instance) in records && records[(lane, instance)] == rec
               && rec.resources == Members(resources)
      requires forall r <- resources :: r.Proper()
      modifies this, I.Nodes(root)
      ensures Valid() && SameFloors(old(entries), entries) && I.Nodes(root) <= old(I.Nodes(root))
      ensures records == old(records) - {(lane, instance)}
      ensures Lean(old(entries)) ==> Lean(entries)
    {
      if C.Posted(rec) {
        UnpostAll(lane, instance, resources);
      }
      LeftAgrees(entries, records, lane, instance);
      records := records - {(lane, instance)};
    }

    /** The loops of foldRecord over the points and the spans of a record. */
    method RaiseAll(lane: nat, instance: nat, resources: seq<T.Resource>)
      requires Valid() && forall r <- resources :: r.Proper()
      modifies this, I.Nodes(root)
      ensures Valid() && records == old(records) && fresh(I.Nodes(root) - old(I.Nodes(root)))
      ensures RaisedAll(old(entries), entries, lane, Members(resources), instance)
      ensures Lean(old(entries)) && instance >= 1 ==> Lean(entries)
    {
      for k := 0 to |resources|
        invariant Valid() && records == old(records) && fresh(I.Nodes(root) - old(I.Nodes(root)))
        invariant RaisedAll(old(entries), entries, lane, Members(resources[..k]), instance)
        invariant Lean(old(entries)) && instance >= 1 ==> Lean(entries)
      {
        ghost var between := entries;
        Raise(lane, resources[k], instance);
        RaisedMore(old(entries), between, entries, lane, resources, k, instance);
      }
      assert resources[..|resources|] == resources;
    }

    /** The spans around a point. */
    method Containing(p: Bytes) returns (s: seq<T.Resource>)
      requires Valid()
      ensures forall r :: r in s <==> r in entries && T.Contains(r, p)
    {
      var q := I.QueryContaining(root, p, _ => true);
      T.UpToAll(T.Around(T.List(I.Value(root)), p), _ => true);
      s := q.0;
      forall r
        ensures r in s <==> r in entries && T.Contains(r, p)
      {
        assert Indexed(I.Value(root), points, entries, r);
        T.FilterHas(T.List(I.Value(root)), x => T.Contains(x, p), r);
      }
    }

    /** The resources that overlap a span. */
    method Meeting(span: F.Span) returns (s: seq<T.Resource>)
      requires Valid()
      ensures forall r :: r in s <==> r in entries && T.Overlaps(r, span.start, span.end)
    {
      var q := I.QueryOverlap(root, span.start, span.end, _ => true);
      T.UpToAll(T.Overlapping(T.List(I.Value(root)), span.start, span.end), _ => true);
      s := q.0;
      forall r
        ensures r in s <==> r in entries && T.Overlaps(r, span.start, span.end)
      {
        assert Indexed(I.Value(root), points, entries, r);
        T.FilterHas(T.List(I.Value(root)), x => T.Overlaps(x, span.start, span.end), r);
      }
    }

    /** eachFootprintResource, for the points. */
    method VisitPoints(points: seq<Bytes>) returns (visited: seq<T.Resource>)
      requires Valid()
      ensures Visits(visited, entries, points, [])
    {
      visited := [];
      for k := 0 to |points|
        invariant Visits(visited, entries, points[..k], [])
      {
        ghost var before := visited;
        var p := points[k];
        var own := if p in this.points then [this.points[p]] else [];
        var around := Containing(p);
        visited := Unique(visited, own + around);
        PointVisited(before, visited, own, around, points, k);
      }
      assert points[..|points|] == points;
    }

    lemma PointVisited(
      before: seq<T.Resource>, after: seq<T.Resource>, own: seq<T.Resource>, around: seq<T.Resource>,
          points: seq<Bytes>, k: nat)
      requires Valid() && k < |points| && Visits(before, entries, points[..k], []) && Distinct(after)
      requires own == if points[k] in this.points then [this.points[points[k]]] else []
      requires forall r :: r in around <==> r in entries && T.Contains(r, points[k])
      requires forall r :: r in after <==> r in before || r in own + around
      ensures Visits(after, entries, points[..k + 1], [])
    {
      var f, g := F.Footprint(points[..k], [], false), F.Footprint(points[..k + 1], [], false);
      assert points[..k + 1] == points[..k] + [points[k]];
      forall r
        ensures Met(after, entries, g, r)
      {
        assert Met(before, entries, f, r) && Indexed(I.Value(root), this.points, entries, r);
        assert PointAt(this.points, points[k]) && Indexed(I.Value(root), this.points, entries, Point(points[k]));
        assert C.Touches(g, r) <==> C.Touches(f, r) || (r.point && r.start == points[k]) || T.Contains(r, points[k]);
      }
    }

    /** eachFootprintResource: the resources the footprint touches, each once. */
    method EachResource(f: F.Footprint) returns (visited: seq<T.Resource>)
      requires Valid()
      ensures Visits(visited, entries, f.points, f.spans)
    {
      visited := VisitPoints(f.points);
      for k := 0 to |f.spans|
        invariant Visits(visited, entries, f.points, f.spans[..k])
      {
        ghost var before := visited;
        var met := Meeting(f.spans[k]);
        visited := Unique(visited, met);
        SpanVisited(before, visited, met, f.points, f.spans, k);
      }
      assert f.spans[..|f.spans|] == f.spans;
    }

    lemma SpanVisited(
      before: seq<T.Resource>, after: seq<T.Resource>, met: seq<T.Resource>, points: seq<Bytes>, spans: seq<F.Span>,
          k: nat)
      requires k < |spans| && Visits(before, entries, points, spans[..k]) && Distinct(after)
      requires forall r :: r in met <==> r in entries && T.Overlaps(r, spans[k].start, spans[k].end)
      requires forall r :: r in after <==> r in before || r in met
      ensures Visits(after, entries, points, spans[..k + 1])
    {
      var f, g := F.Footprint(points, spans[..k], false), F.Footprint(points, spans[..k + 1], false);
      assert spans[..k + 1] == spans[..k] + [spans[k]];
      forall r
        ensures Met(after, entries, g, r)
      {
        assert Met(before, entries, f, r);
        assert C.Touches(g, r) <==> C.Touches(f, r) || T.Overlaps(r, spans[k].start, spans[k].end);
      }
    }

    /** footprintMax: the greatest resident and the greatest folded instance of the lane that meet the footprint. */
    method FootprintMax(lane: nat, f: F.Footprint) returns (resident: nat, retired: nat)
      requires Valid()
      ensures resident == C.Greatest(C.ResidentHits(LaneRecords(records, lane), f))
      ensures retired == C.Greatest(C.FloorHits(LaneFloors(entries, lane), f))
    {
      var visited := EachResource(f);
      resident, retired := LaneMax(lane, visited);
      ResidentExact(entries, records, lane, f, visited, resident);
      RetiredExact(entries, lane, f, visited, retired);
    }

    method LaneMax(lane: nat, visited: seq<T.Resource>) returns (resident: nat, retired: nat)
      requires Valid()
      ensures TopHeld(entries, lane, visited, resident) && TopFloor(entries, lane, visited, retired)
    {
      resident, retired := 0, 0;
      for k := 0 to |visited|
        invariant TopHeld(entries, lane, visited[..k], resident) && TopFloor(entries, lane, visited[..k], retired)
      {
        var r := visited[k];
        var top := TopOf(lane, r);
        TopsMore(entries, lane, visited, k, resident, retired, top);
        resident, retired := Max(resident, top), Max(retired, Floor(entries, lane, r));
      }
      assert visited[..|visited|] == visited;
    }

    /** The greatest posting of the lane under one resource, zero when there is none. */
    method TopOf(lane: nat, r: T.Resource) returns (m: nat)
      requires Valid()
      ensures (forall j: nat :: Holds(entries, lane, r, j) ==> j <= m) && (m == 0 || Holds(entries, lane, r, m))
    {
      m := 0;
      assert GoodLane(entries, lane, r);
      if Present(entries, lane, r) {
        m := MaxPosting(entries[r][lane].root);
      }
    }
  }
}
