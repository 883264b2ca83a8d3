/**
 What the conflict index is asked, over plain maps: the greatest instance a footprint meets, the
 greatest of any and of global scope, and the largest sequence number of a prefix.
 */
module Conflicts {
  import opened ByteOrder
  import T = IntervalTree
  import F = Footprint
  import R = Retired

  /** What the index keeps of a record: its resources unless its scope is global. */
  datatype Record = Record(seqNo: nat, eligible: bool, global: bool, resources: set<T.Resource>)

  /** One lane: its resident records, and what remains of the folded ones. */
  datatype View = View(
    resident: map<nat, Record>, floors: map<T.Resource, nat>, any: nat, global: nat,
    breakpoints: seq<R.Breakpoint>, compressed: bool)

  /** eachFootprintResource: the resources a query with footprint f visits. */
  predicate Touches(f: F.Footprint, r: T.Resource) {
    || (r.point && r.start in f.points)
    || (exists p <- f.points :: T.Contains(r, p))
    || (exists s <- f.spans :: T.Overlaps(r, s.start, s.end))
  }

  predicate TouchesAny(f: F.Footprint, rec: Record) {
    exists r <- rec.resources :: Touches(f, r)
  }

  /** A record that is indexed under its resources. */
  predicate Posted(rec: Record) {
    rec.eligible && !rec.global
  }

  /** The resident instances a footprint query finds. */
  function ResidentHits(resident: map<nat, Record>, f: F.Footprint): set<nat> {
    set i | i in resident && Posted(resident[i]) && TouchesAny(f, resident[i])
  }

  /** The retired floors a footprint query finds. */
  function FloorHits(floors: map<T.Resource, nat>, f: F.Footprint): set<nat> {
    set r | r in floors && Touches(f, r) :: floors[r]
  }

  function AnyHits(resident: map<nat, Record>): set<nat> {
    set i | i in resident && resident[i].eligible
  }

  function GlobalHits(resident: map<nat, Record>): set<nat> {
    set i | i in resident && resident[i].eligible && resident[i].global
  }

  function SeqHits(resident: map<nat, Record>, t: nat): set<nat> {
    set i | i in resident && i <= t && resident[i].eligible :: resident[i].seqNo
  }

  /** The greatest member, zero when there is none. */
  ghost function Greatest(s: set<nat>): (v: nat)
    ensures (v == 0 || v in s) && forall x <- s :: x <= v
  {
    if s == {} then 0
    else
      var x :| x in s;
      assert forall y <- s :: y == x || y in s - {x};
      R.Max(x, Greatest(s - {x}))
  }

  lemma GreatestIs(s: set<nat>, v: nat)
    requires (v == 0 || v in s) && forall x <- s :: x <= v
    ensures Greatest(s) == v
  {
  }

  // The four questions: each is the larger of the resident and the retired answer.

  ghost function FootprintMax(v: View, f: F.Footprint): nat {
    Greatest(ResidentHits(v.resident, f) + FloorHits(v.floors, f))
  }

  ghost function AnyMax(v: View): nat {
    Greatest(AnyHits(v.resident) + {v.any})
  }

  ghost function GlobalMax(v: View): nat {
    Greatest(GlobalHits(v.resident) + {v.global})
  }

  ghost function PrefixSeq(v: View, t: nat): nat {
    R.Max(Greatest(SeqHits(v.resident, t)), R.Answer(v.breakpoints, v.compressed, t))
  }

  ghost predicate SameFor(a: View, b: View, f: F.Footprint) {
    FootprintMax(a, f) == FootprintMax(b, f)
  }

  ghost predicate SameScopes(a: View, b: View) {
    AnyMax(a) == AnyMax(b) && GlobalMax(a) == GlobalMax(b)
  }

  /** No query tells the two apart. */
  ghost predicate SameMaxima(a: View, b: View) {
    (forall f :: SameFor(a, b, f)) && SameScopes(a, b)
  }

  ghost predicate SeqKeptAt(a: View, b: View, t: nat) {
    PrefixSeq(a, t) <= PrefixSeq(b, t)
  }

  /** No prefix is answered lower. */
  ghost predicate SeqKept(a: View, b: View) {
    forall t: nat :: SeqKeptAt(a, b, t)
  }

  lemma SameTransitive(a: View, b: View, c: View)
    requires SameMaxima(a, b) && SameMaxima(b, c) && SeqKept(a, b) && SeqKept(b, c)
    ensures SameMaxima(a, c) && SeqKept(a, c)
  {
    forall f
      ensures SameFor(a, c, f)
    {
      assert SameFor(a, b, f) && SameFor(b, c, f);
    }
    forall t: nat
      ensures SeqKeptAt(a, c, t)
    {
      assert SeqKeptAt(a, b, t) && SeqKeptAt(b, c, t);
    }
  }

  // Touching a resource means sharing a key with it.

  predicate KeyIn(k: Bytes, r: T.Resource) {
    if r.point then k == r.start else LessEq(r.start, k) && Less(k, r.end)
  }

  predicate KeyOf(f: F.Footprint, k: Bytes) {
    k in f.points || F.InSpans(k, f.spans)
  }

  lemma TouchesMeaning(f: F.Footprint, r: T.Resource)
    requires r.Proper() && forall s <- f.spans :: s.Proper()
    ensures Touches(f, r) <==> exists k :: KeyOf(f, k) && KeyIn(k, r)
  {
    if Touches(f, r) {
      var k := TouchedKey(f, r);
    }
    forall k | KeyOf(f, k) && KeyIn(k, r)
      ensures Touches(f, r)
    {
      if k !in f.points {
        var s :| s in f.spans && F.InSpan(k, s);
        if !r.point {
          F.SpansMeetMeaning(s, F.Span(r.start, r.end));
          assert F.InSpan(k, F.Span(r.start, r.end));
        }
        assert T.Overlaps(r, s.start, s.end);
      } else if !r.point {
        assert T.Contains(r, k);
      }
    }
  }

  lemma TouchedKey(f: F.Footprint, r: T.Resource) returns (k: Bytes)
    requires r.Proper() && (forall s <- f.spans :: s.Proper()) && Touches(f, r)
    ensures KeyOf(f, k) && KeyIn(k, r)
  {
    if r.point && r.start in f.points {
      k := r.start;
    } else if p :| p in f.points && T.Contains(r, p) {
      k := p;
    } else {
      var s :| s in f.spans && T.Overlaps(r, s.start, s.end);
      if r.point {
        k := r.start;
        assert F.InSpan(k, s);
      } else {
        var q := F.Span(r.start, r.end);
        F.SpansMeetMeaning(s, q);
        k :| F.InSpan(k, s) && F.InSpan(k, q);
      }
    }
  }

  /** The resources apply indexes a footprint under. */
  function Resources(h: F.Footprint): set<T.Resource> {
    (set p | p in h.points :: T.Resource(p, p, true)) + (set s | s in h.spans :: T.Resource(s.start, s.end, false))
  }

  /** The index finds exactly the records whose footprint conflicts. */
  lemma IndexFindsConflicts(f: F.Footprint, h: F.Footprint)
    requires !f.all && !h.all && (forall s <- h.spans :: s.Proper()) && forall s <- f.spans :: s.Proper()
    ensures (exists r <- Resources(h) :: Touches(f, r)) <==> F.Conflict(h, f)
  {
    if r :| r in Resources(h) && Touches(f, r) {
      if r.point {
        if exists s <- f.spans :: T.Overlaps(r, s.start, s.end) {
          var s :| s in f.spans && T.Overlaps(r, s.start, s.end);
          assert F.InSpan(r.start, s);
        }
      } else {
        var s := F.Span(r.start, r.end);
        assert s in h.spans;
        if p :| p in f.points && T.Contains(r, p) {
          assert F.InSpan(p, s);
        } else {
          var q :| q in f.spans && T.Overlaps(r, q.start, q.end);
          assert F.SpansMeet(s, q);
        }
      }
    }
    if F.Conflict(h, f) {
      TouchesConflict(f, h);
    }
  }

  lemma TouchesConflict(f: F.Footprint, h: F.Footprint)
    requires !f.all && !h.all && F.Conflict(h, f)
    ensures exists r <- Resources(h) :: Touches(f, r)
  {
    if p :| p in h.points && p in f.points {
      assert T.Resource(p, p, true) in Resources(h);
    } else if p, s :| p in h.points && s in f.spans && F.InSpan(p, s) {
      var r := T.Resource(p, p, true);
      assert r in Resources(h) && T.Overlaps(r, s.start, s.end);
    } else if p, s :| p in f.points && s in h.spans && F.InSpan(p, s) {
      var r := T.Resource(s.start, s.end, false);
      assert r in Resources(h) && T.Contains(r, p);
    } else {
      var s, q :| s in h.spans && q in f.spans && F.SpansMeet(s, q);
      var r := T.Resource(s.start, s.end, false);
      assert r in Resources(h) && T.Overlaps(r, q.start, q.end);
    }
  }

  /** The record was indexed under the resources of its command's footprint. */
  ghost predicate IndexedAs(resident: map<nat, Record>, commands: map<nat, F.Footprint>, i: nat) {
    i in resident && Posted(resident[i]) ==>
      && i in commands && !commands[i].all && (forall s <- commands[i].spans :: s.Proper())
      && resident[i].resources == Resources(commands[i])
  }

  /** A footprint query finds the records of conflicting commands and no other. */
  lemma HitsAreConflicts(resident: map<nat, Record>, commands: map<nat, F.Footprint>, f: F.Footprint)
    requires !f.all && (forall s <- f.spans :: s.Proper()) && forall i :: IndexedAs(resident, commands, i)
    ensures ResidentHits(resident, f)
            == set i | i in resident && Posted(resident[i]) && i in commands && F.Conflict(commands[i], f)
  {
    forall i | i in resident && Posted(resident[i])
      ensures i in commands && (TouchesAny(f, resident[i]) <==> F.Conflict(commands[i], f))
    {
      assert IndexedAs(resident, commands, i);
      IndexFindsConflicts(f, commands[i]);
    }
  }

  // Folding above the watermark.

  function Raised(floors: map<T.Resource, nat>, resources: set<T.Resource>, instance: nat): map<T.Resource, nat> {
    map r | r in floors.Keys + resources ::
      if r !in floors then instance else if r in resources && floors[r] < instance then instance else floors[r]
  }

  /** What foldRecord makes of a lane, but for the sequence summary. */
  function Folded(v: View, instance: nat, rec: Record): View {
    View(
      v.resident - {instance}, if Posted(rec) then Raised(v.floors, rec.resources, instance) else v.floors,
      if rec.eligible then R.Max(v.any, instance) else v.any,
      if rec.eligible && rec.global then R.Max(v.global, instance) else v.global, v.breakpoints, v.compressed)
  }

  /** b answers as a does when each has a match at least as large in the other. */
  lemma SameGreatest(a: set<nat>, b: set<nat>)
    requires (forall x <- a :: exists y <- b :: x <= y) && forall y <- b :: exists x <- a :: y <= x
    ensures Greatest(a) == Greatest(b)
  {
    var v, w := Greatest(a), Greatest(b);
    if v > 0 {
      var y :| y in b && v <= y;
    }
    if w > 0 {
      var x :| x in a && w <= x;
    }
  }

  /** Folding a resident record leaves the greatest hit of every footprint query as it was. */
  lemma FoldKeepsFootprint(v: View, instance: nat, f: F.Footprint)
    requires instance in v.resident
    ensures SameFor(v, Folded(v, instance, v.resident[instance]), f)
  {
    var rec := v.resident[instance];
    var w := Folded(v, instance, rec);
    var a, b := ResidentHits(v.resident, f) + FloorHits(v.floors, f),
        ResidentHits(w.resident, f) + FloorHits(w.floors, f);
    if Posted(rec) {
      forall x | x in a
        ensures exists y <- b :: x <= y
      {
        HitMatched(v, instance, f, x);
      }
      forall y | y in b
        ensures exists x <- a :: y <= x
      {
        if y in FloorHits(w.floors, f) {
          var r :| r in w.floors && Touches(f, r) && w.floors[r] == y;
          if r in v.floors && v.floors[r] == y {
            assert y in FloorHits(v.floors, f);
          } else {
            assert y == instance && instance in ResidentHits(v.resident, f);
          }
        } else {
          assert y in ResidentHits(v.resident, f);
        }
      }
      SameGreatest(a, b);
    } else {
      assert a == b;
    }
  }

  lemma HitMatched(v: View, instance: nat, f: F.Footprint, x: nat)
    requires instance in v.resident && Posted(v.resident[instance])
    requires x in ResidentHits(v.resident, f) + FloorHits(v.floors, f)
    ensures var w := Folded(v, instance, v.resident[instance]);
            exists y <- ResidentHits(w.resident, f) + FloorHits(w.floors, f) :: x <= y
  {
    var w := Folded(v, instance, v.resident[instance]);
    var b := ResidentHits(w.resident, f) + FloorHits(w.floors, f);
    if x in FloorHits(v.floors, f) {
      var r :| r in v.floors && Touches(f, r) && v.floors[r] == x;
      assert w.floors[r] in b && x <= w.floors[r];
    } else if x != instance {
      assert x in b;
    } else {
      var r :| r in v.resident[instance].resources && Touches(f, r);
      assert w.floors[r] in b && x <= w.floors[r];
    }
  }

  /** Nor does it change the greatest instance of any scope, or of global scope. */
  lemma FoldKeepsScopes(v: View, instance: nat)
    requires instance in v.resident
    ensures SameScopes(v, Folded(v, instance, v.resident[instance]))
  {
    var rec, w := v.resident[instance], Folded(v, instance, v.resident[instance]);
    MaxMoves(AnyHits(v.resident), AnyHits(w.resident), v.any, instance, rec.eligible);
    MaxMoves(GlobalHits(v.resident), GlobalHits(w.resident), v.global, instance, rec.eligible && rec.global);
  }

  /** Taking x out of a set and into a running maximum keeps the greatest of both. */
  lemma MaxMoves(a: set<nat>, b: set<nat>, floor: nat, x: nat, moves: bool)
    requires b == a - {x} && (moves <==> x in a)
    ensures Greatest(a + {floor}) == Greatest(b + {if moves then R.Max(floor, x) else floor})
  {
    var c := b + {if moves then R.Max(floor, x) else floor};
    var v := Greatest(a + {floor});
    assert forall y <- c :: y <= v;
    assert v in a || v == floor || v == 0;
    if v in a && v != x {
      assert v in c;
    }
    GreatestIs(c, v);
  }

  /** The prefix sequence numbers never fall when the summary takes the record over. */
  lemma FoldKeepsSeq(v: View, w: View, added: seq<R.Breakpoint>, instance: nat, t: nat)
    requires instance in v.resident && w.resident == v.resident - {instance}
    requires R.NotLower(v.breakpoints, v.compressed, w.breakpoints, w.compressed, t)
    requires v.resident[instance].eligible ==>
               R.Faithful(w.breakpoints, w.compressed, added + [R.Breakpoint(instance, v.resident[instance].seqNo)], t)
    ensures SeqKeptAt(v, w, t)
  {
    var x := R.Breakpoint(instance, v.resident[instance].seqNo);
    R.PrefixMaxConcat(added, [x], t);
    var s := Greatest(SeqHits(v.resident, t));
    if s > 0 {
      var i :| i in v.resident && i <= t && v.resident[i].eligible && v.resident[i].seqNo == s;
      if i != instance {
        assert i in w.resident && s in SeqHits(w.resident, t);
      }
    }
  }

  // Folding at or below the watermark only drops the resident record.

  function Dropped(v: View, instance: nat): View {
    v.(resident := v.resident - {instance})
  }

  ghost predicate HoldsKey(rec: Record, k: Bytes) {
    exists r <- rec.resources :: KeyIn(k, r)
  }

  /** Another resident record or a floor, at least as high, holds the key too. */
  ghost predicate KeyCovered(v: View, instance: nat, k: Bytes) {
    instance in v.resident && HoldsKey(v.resident[instance], k) ==>
      || (exists j <- v.resident :: j > instance && Posted(v.resident[j]) && HoldsKey(v.resident[j], k))
      || (exists r <- v.floors :: v.floors[r] >= instance && KeyIn(k, r))
  }

  /** What remains without the record reaches as high as it does, in its scope and at each of its keys. */
  ghost predicate Covered(v: View, instance: nat)
    requires instance in v.resident
  {
    v.resident[instance].eligible ==>
      && ((exists j <- AnyHits(v.resident) :: j > instance) || v.any >= instance)
      && (v.resident[instance].global ==> (exists j <- GlobalHits(v.resident) :: j > instance) || v.global >= instance)
      && (!v.resident[instance].global ==> forall k :: KeyCovered(v, instance, k))
  }

  ghost predicate ProperView(v: View) {
    && (forall i <- v.resident, r <- v.resident[i].resources :: r.Proper())
    && (forall r <- v.floors :: r.Proper())
  }

  ghost predicate ProperSpans(f: F.Footprint) {
    forall s <- f.spans :: s.Proper()
  }

  ghost predicate SameForProper(a: View, b: View, f: F.Footprint) {
    ProperSpans(f) ==> SameFor(a, b, f)
  }

  lemma GreatestWithout(a: set<nat>, b: set<nat>, x: nat)
    requires a == b + {x} && x >= 1
    ensures Greatest(a) == Greatest(b) <==> exists y <- b :: y >= x
  {
    if y :| y in b && y >= x {
      GreatestIs(a, Greatest(b));
    }
  }

  lemma TouchesByKey(f: F.Footprint, rec: Record)
    requires ProperSpans(f) && forall r <- rec.resources :: r.Proper()
    ensures TouchesAny(f, rec) <==> exists k :: KeyOf(f, k) && HoldsKey(rec, k)
  {
    if TouchesAny(f, rec) {
      var r :| r in rec.resources && Touches(f, r);
      var k := TouchedKey(f, r);
      assert HoldsKey(rec, k);
    }
    forall k | KeyOf(f, k) && HoldsKey(rec, k)
      ensures TouchesAny(f, rec)
    {
      var r :| r in rec.resources && KeyIn(k, r);
      TouchesMeaning(f, r);
    }
  }

  /** While every key of the record is covered, dropping it changes no footprint query. */
  lemma CoveredKeeps(v: View, instance: nat, f: F.Footprint)
    requires ProperView(v) && instance in v.resident && Posted(v.resident[instance]) && instance >= 1 && ProperSpans(f)
    requires forall k :: KeyCovered(v, instance, k)
    ensures SameFor(v, Dropped(v, instance), f)
  {
    var rec, w := v.resident[instance], Dropped(v, instance);
    var a, b := ResidentHits(v.resident, f) + FloorHits(v.floors, f),
        ResidentHits(w.resident, f) + FloorHits(w.floors, f);
    TouchesByKey(f, rec);
    if TouchesAny(f, rec) {
      assert a == b + {instance};
      var k :| KeyOf(f, k) && HoldsKey(rec, k);
      assert KeyCovered(v, instance, k);
      if j :| j in v.resident && j > instance && Posted(v.resident[j]) && HoldsKey(v.resident[j], k) {
        TouchesByKey(f, v.resident[j]);
        assert j in b;
      } else {
        var r :| r in v.floors && v.floors[r] >= instance && KeyIn(k, r);
        TouchesMeaning(f, r);
        assert v.floors[r] in b;
      }
      GreatestWithout(a, b, instance);
    } else {
      assert a == b;
    }
  }

  /** A key that is not covered tells the two apart: ask for that key alone. */
  lemma UncoveredShows(v: View, instance: nat, k: Bytes)
    requires ProperView(v) && instance in v.resident && Posted(v.resident[instance]) && instance >= 1
             && !KeyCovered(v, instance, k)
    ensures var f := F.Footprint([k], [], false);
            ProperSpans(f) && FootprintMax(Dropped(v, instance), f) < instance <= FootprintMax(v, f)
  {
    var f, rec, w := F.Footprint([k], [], false), v.resident[instance], Dropped(v, instance);
    assert KeyOf(f, k) && forall other :: KeyOf(f, other) <==> other == k;
    TouchesByKey(f, rec);
    assert instance in ResidentHits(v.resident, f);
    var b := ResidentHits(w.resident, f) + FloorHits(w.floors, f);
    forall x | x in b
      ensures x < instance
    {
      if x in FloorHits(w.floors, f) {
        var r :| r in w.floors && Touches(f, r) && w.floors[r] == x;
        TouchesMeaning(f, r);
      } else {
        TouchesByKey(f, v.resident[x]);
      }
    }
  }

  /**
   At or below the watermark foldRecord drops the record and raises nothing. No query with proper
   spans tells, and neither scope does, if and only if the record is covered by what remains.
   */
  lemma DroppedExact(v: View, instance: nat)
    requires ProperView(v) && instance in v.resident && instance >= 1
    ensures (forall f :: SameForProper(v, Dropped(v, instance), f)) && SameScopes(v, Dropped(v, instance)) <==>
            Covered(v, instance)
  {
    var rec, w := v.resident[instance], Dropped(v, instance);
    ScopesWithout(v, instance);
    if !Posted(rec) {
      forall f
        ensures SameForProper(v, w, f)
      {
        assert ResidentHits(v.resident, f) == ResidentHits(w.resident, f);
      }
    } else if forall k :: KeyCovered(v, instance, k) {
      forall f
        ensures SameForProper(v, w, f)
      {
        if ProperSpans(f) {
          CoveredKeeps(v, instance, f);
        }
      }
    } else {
      var k :| !KeyCovered(v, instance, k);
      UncoveredShows(v, instance, k);
      assert !SameForProper(v, w, F.Footprint([k], [], false));
    }
  }

  lemma ScopesWithout(v: View, instance: nat)
    requires instance in v.resident && instance >= 1
    ensures var rec, w := v.resident[instance], Dropped(v, instance);
            && (AnyMax(v) == AnyMax(w) <==>
                (rec.eligible ==> (exists j <- AnyHits(v.resident) :: j > instance) || v.any >= instance))
            && (GlobalMax(v) == GlobalMax(w) <==>
                (rec.eligible && rec.global ==>
                 (exists j <- GlobalHits(v.resident) :: j > instance) || v.global >= instance))
  {
    var rec, w := v.resident[instance], Dropped(v, instance);
    ScopeWithout(AnyHits(v.resident), AnyHits(w.resident), v.any, instance, rec.eligible);
    ScopeWithout(GlobalHits(v.resident), GlobalHits(w.resident), v.global, instance, rec.eligible && rec.global);
  }

  lemma ScopeWithout(a: set<nat>, b: set<nat>, floor: nat, x: nat, held: bool)
    requires b == a - {x} && (held <==> x in a) && x >= 1
    ensures Greatest(a + {floor}) == Greatest(b + {floor}) <==> (held ==> (exists j <- a :: j > x) || floor >= x)
  {
    if held {
      assert a + {floor} == (b + {floor}) + {x};
      GreatestWithout(a + {floor}, b + {floor}, x);
      assert floor >= x ==> floor in b + {floor};
      forall j | j in a && j > x
        ensures j in b + {floor}
      {
      }
      forall y | y in b + {floor} && y >= x
        ensures y == floor || (y in a && y > x)
      {
      }
    } else {
      assert a == b;
    }
  }

  /** The sequence numbers: no prefix falls exactly when the prefix up to the record itself does not fall below it. */
  lemma DroppedSeqExact(v: View, instance: nat)
    requires instance in v.resident
    ensures SeqKept(v, Dropped(v, instance)) <==>
            (v.resident[instance].eligible ==> PrefixSeq(Dropped(v, instance), instance) >= v.resident[instance].seqNo)
  {
    var rec, w := v.resident[instance], Dropped(v, instance);
    if rec.eligible {
      assert rec.seqNo in SeqHits(v.resident, instance);
      assert SeqKept(v, w) ==> SeqKeptAt(v, w, instance);
    }
    if rec.eligible ==> PrefixSeq(w, instance) >= rec.seqNo {
      forall t: nat
        ensures SeqKeptAt(v, w, t)
      {
        PrefixRises(w, instance, t);
        var s := Greatest(SeqHits(v.resident, t));
        if s > 0 {
          var i :| i in v.resident && i <= t && v.resident[i].eligible && v.resident[i].seqNo == s;
          if i != instance {
            assert i in w.resident && s in SeqHits(w.resident, t);
          }
        }
      }
    }
  }

  lemma PrefixRises(v: View, t: nat, u: nat)
    ensures t <= u ==> PrefixSeq(v, t) <= PrefixSeq(v, u)
  {
    if t <= u {
      R.PrefixMaxRises(v.breakpoints, t, u);
      var s := Greatest(SeqHits(v.resident, t));
      assert s > 0 ==> s in SeqHits(v.resident, u);
    }
  }

  // What the retired part promises of a folded record.

  /** The floors, the maxima and the summary cover the record. */
  ghost predicate Covers(v: View, instance: nat, rec: Record) {
    rec.eligible ==>
      && instance <= v.any && (rec.global ==> instance <= v.global)
      && (!rec.global ==> forall r <- rec.resources :: r in v.floors && instance <= v.floors[r])
      && rec.seqNo <= R.Answer(v.breakpoints, v.compressed, instance)
  }

  /** A record that was folded before, as it is now, can be folded again below the watermark: nothing tells. */
  lemma RefoldKeeps(v: View, instance: nat)
    requires instance in v.resident && instance >= 1 && Covers(v, instance, v.resident[instance])
    ensures SeqKept(v, Dropped(v, instance)) && SameMaxima(v, Dropped(v, instance))
  {
    DroppedSeqExact(v, instance);
    ScopesWithout(v, instance);
    forall f
      ensures SameFor(v, Dropped(v, instance), f)
    {
      RefoldKeepsFootprint(v, instance, f);
    }
  }

  lemma RefoldKeepsFootprint(v: View, instance: nat, f: F.Footprint)
    requires instance in v.resident && instance >= 1 && Covers(v, instance, v.resident[instance])
    ensures SameFor(v, Dropped(v, instance), f)
  {
    var rec, w := v.resident[instance], Dropped(v, instance);
    var a, b := ResidentHits(v.resident, f) + FloorHits(v.floors, f),
        ResidentHits(w.resident, f) + FloorHits(w.floors, f);
    if Posted(rec) && TouchesAny(f, rec) {
      var r :| r in rec.resources && Touches(f, r);
      assert a == b + {instance} && v.floors[r] in b;
      GreatestWithout(a, b, instance);
    } else {
      assert a == b;
    }
  }
}
