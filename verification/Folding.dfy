/**
 Folding executed records out of a lane: the record leaves the resident index and only maxima of
 it remain. No query is answered lower afterwards, and the fold watermark covers a gapless prefix.
 */
module Folding {
  import opened ByteOrder
  import opened Conflicts
  import T = IntervalTree
  import F = Footprint
  import R = Retired

  ghost predicate FoldedIff(gone: map<nat, Record>, folded: nat, pending: set<nat>, i: nat) {
    i in gone <==> 1 <= i <= folded || i in pending
  }

  ghost predicate CoversAt(v: View, gone: map<nat, Record>, i: nat) {
    i in gone ==> Covers(v, i, gone[i])
  }

  class LaneIndex {
    var resident: map<nat, Record>
    var floors: map<T.Resource, nat>
    var retiredAny: nat
    var retiredGlobal: nat
    const summary: R.Summary
    var pending: set<nat>
    var folded: nat
    /** The records that were folded, as they were folded last. */
    ghost var gone: map<nat, Record>

    ghost function Now(): View
      reads this, summary
    {
      View(resident, floors, retiredAny, retiredGlobal, summary.breakpoints, summary.compressed)
    }

    /**
     Every instance up to the watermark has been folded and the other folded ones wait in pending;
     the floors, the maxima and the summary cover every folded record.
     */
    ghost predicate Valid()
      reads this, summary
    {
      && summary.Valid() && 0 !in pending && 0 !in resident
      && (forall i <- pending :: i > folded)
      && (forall i: nat :: FoldedIff(gone, folded, pending, i))
      && (forall i: nat :: CoversAt(Now(), gone, i))
    }

    constructor ()
      ensures Valid() && fresh(summary) && resident == map[] && floors == map[] && folded == 0 && gone == map[]
      ensures retiredAny == retiredGlobal == 0
    {
      resident, floors := map[], map[];
      retiredAny, retiredGlobal, folded := 0, 0, 0;
      pending, gone := {}, map[];
      summary := new R.Summary();
    }

    /** apply, given the record the index holds for the instance. */
    method Apply(instance: nat, rec: Record)
      requires Valid() && instance >= 1
      modifies this
      ensures Valid() && folded == old(folded) && gone == old(gone)
      ensures Now() == old(Now()).(resident := old(resident)[instance := rec])
    {
      resident := resident[instance := rec];
      SameRetired(old(Now()), Now(), gone);
    }

    /** remove. */
    method Remove(instance: nat)
      requires Valid()
      modifies this
      ensures Valid() && folded == old(folded) && gone == old(gone) && Now() == Dropped(old(Now()), instance)
    {
      resident := resident - {instance};
      SameRetired(old(Now()), Now(), gone);
    }

    /**
     foldRecord, of a record the index holds as it is given, or does not hold. Above the watermark a
     held record moves into the summaries and no query tells. At or below the watermark it is only
     dropped: no query tells if and only if what remains covers it, and so never when the record was
     folded before as it is.
     */
    method FoldRecord(instance: nat, rec: Record)
      requires Valid() && instance >= 1 && (instance in resident ==> resident[instance] == rec)
      modifies this, summary
      ensures Valid() && folded == old(folded)
      ensures gone == if instance > folded then old(gone)[instance := rec] else old(gone)
      ensures instance > folded ==> Takes(old(Now()), Now(), instance, rec)
      ensures instance > folded && instance in old(resident) ==>
                SameMaxima(old(Now()), Now()) && SeqKept(old(Now()), Now())
      ensures instance <= folded ==> Now() == Dropped(old(Now()), instance)
      ensures instance <= folded && instance in old(resident) && ProperView(old(Now())) ==>
                (SameProper(old(Now()), Now()) <==> Covered(old(Now()), instance))
      ensures instance <= folded && instance in old(resident) && instance in old(gone) && old(gone)[instance] == rec ==>
                SameMaxima(old(Now()), Now()) && SeqKept(old(Now()), Now())
    {
      ghost var before := Now();
      assert FoldedIff(gone, folded, pending, instance);
      resident := resident - {instance};
      if instance <= folded {
        SameRetired(before, Now(), gone);
        DropAnswers(before, gone, instance);
        return;
      }
      pending := pending + {instance};
      gone := gone[instance := rec];
      forall i: nat
        ensures FoldedIff(gone, folded, pending, i)
      {
        assert FoldedIff(old(gone), folded, old(pending), i);
      }
      if rec.eligible {
        retiredAny := R.Max(retiredAny, instance);
        if rec.global {
          retiredGlobal := R.Max(retiredGlobal, instance);
        } else {
          floors := Raised(floors, rec.resources, instance);
        }
        summary.Add(instance, rec.seqNo);
      }
      FoldCovers(before, Now(), old(summary.added), old(gone), instance, rec);
      FoldAnswers(before, Now(), old(summary.added), instance, rec);
    }

    /** canAdvanceFold: every instance above the watermark up to the target waits in pending. */
    method CanAdvance(through: nat) returns (yes: bool)
      requires Valid()
      ensures yes <==> folded <= through && forall i | folded < i <= through :: i in gone
    {
      if through <= folded {
        return through == folded;
      }
      var i := folded + 1;
      while true
        invariant folded < i <= through && forall j | folded < j < i :: j in gone
        decreases through - i
      {
        assert FoldedIff(gone, folded, pending, i);
        if i !in pending {
          return false;
        }
        if i == through {
          return true;
        }
        i := i + 1;
      }
    }

    /** advanceFold, called where canAdvanceFold allows it. */
    method Advance(through: nat)
      requires Valid() && folded <= through && forall i | folded < i <= through :: i in gone
      modifies this
      ensures Valid() && folded == through && gone == old(gone) && Now() == old(Now())
    {
      var i := folded;
      while i < through
        invariant folded <= i <= through
        invariant pending == set j | j in old(pending) && j > i
        invariant folded == old(folded) && gone == old(gone) && Now() == old(Now())
      {
        i := i + 1;
        assert FoldedIff(old(gone), old(folded), old(pending), i);
        pending := pending - {i};
      }
      folded := through;
      forall j: nat
        ensures FoldedIff(gone, folded, pending, j)
      {
        assert FoldedIff(old(gone), old(folded), old(pending), j);
      }
    }

    /**
     retireExecuted, for one lane: the given resident records above the watermark up to the target
     are folded and no query tells; the watermark moves to the end of the gapless folded prefix, no
     further than the target.
     */
    method Retire(items: seq<(nat, Record)>, target: nat)
      requires Valid() && (forall i, j | 0 <= i < j < |items| :: items[i].0 != items[j].0)
      requires forall it <- items :: it.0 in resident && resident[it.0] == it.1
      modifies this, summary
      ensures Valid() && SameMaxima(old(Now()), Now()) && SeqKept(old(Now()), Now())
      ensures old(gone).Keys <= gone.Keys && old(folded) <= folded <= R.Max(old(folded), target)
      ensures forall it <- items | old(folded) < it.0 <= target ::
              it.0 in gone && gone[it.0] == it.1 && it.0 !in resident
      ensures forall i | i in resident :: i in old(resident) && resident[i] == old(resident)[i]
      ensures old(folded) < target && folded < target ==> folded + 1 !in gone
    {
      SameSelf(Now());
      if target <= folded {
        return;
      }
      FoldItems(items, target);
      var contiguous := folded;
      while contiguous < target
        invariant folded <= contiguous <= target && forall i | folded < i <= contiguous :: i in gone
        modifies {}
      {
        var next := contiguous + 1;
        var yes := CanAdvance(next);
        if !yes {
          assert next !in gone;
          break;
        }
        contiguous := next;
      }
      if contiguous > folded {
        Advance(contiguous);
      }
    }

    method FoldItems(items: seq<(nat, Record)>, target: nat)
      requires Valid() && (forall i, j | 0 <= i < j < |items| :: items[i].0 != items[j].0)
      requires forall it <- items :: it.0 in resident && resident[it.0] == it.1
      modifies this, summary
      ensures Valid() && folded == old(folded) && SameMaxima(old(Now()), Now()) && SeqKept(old(Now()), Now())
      ensures old(gone).Keys <= gone.Keys
      ensures forall it <- items | folded < it.0 <= target :: it.0 in gone && gone[it.0] == it.1 && it.0 !in resident
      ensures forall i | i in resident :: i in old(resident) && resident[i] == old(resident)[i]
    {
      SameSelf(Now());
      for k := 0 to |items|
        invariant Valid() && folded == old(folded) && SameMaxima(old(Now()), Now()) && SeqKept(old(Now()), Now())
        invariant old(gone).Keys <= gone.Keys
        invariant forall j | 0 <= j < k && folded < items[j].0 <= target ::
                    items[j].0 in gone && gone[items[j].0] == items[j].1 && items[j].0 !in resident
        invariant forall j | k <= j < |items| :: items[j].0 in resident && resident[items[j].0] == items[j].1
        invariant forall i | i in resident :: i in old(resident) && resident[i] == old(resident)[i]
      {
        if folded < items[k].0 <= target {
          ghost var before := Now();
          FoldRecord(items[k].0, items[k].1);
          SameTransitive(old(Now()), before, Now());
        }
      }
    }
  }

  /** The record leaves the residents and the retired part takes it over. */
  ghost predicate Takes(v: View, w: View, instance: nat, rec: Record) {
    && w == Folded(v, instance, rec).(breakpoints := w.breakpoints, compressed := w.compressed)
    && forall t: nat :: R.NotLower(v.breakpoints, v.compressed, w.breakpoints, w.compressed, t)
  }

  ghost predicate SameProper(v: View, w: View) {
    (forall f :: SameForProper(v, w, f)) && SameScopes(v, w)
  }

  /** Changing residents leaves what covers the folded records. */
  lemma SameRetired(v: View, w: View, gone: map<nat, Record>)
    requires w == v.(resident := w.resident) && forall i: nat :: CoversAt(v, gone, i)
    ensures forall i: nat :: CoversAt(w, gone, i)
  {
    forall i: nat
      ensures CoversAt(w, gone, i)
    {
      assert CoversAt(v, gone, i);
    }
  }

  lemma SameSelf(v: View)
    ensures SameMaxima(v, v) && SeqKept(v, v)
  {
  }

  lemma DropAnswers(v: View, gone: map<nat, Record>, instance: nat)
    requires instance >= 1 && forall i: nat :: CoversAt(v, gone, i)
    ensures instance in v.resident && ProperView(v) ==> (SameProper(v, Dropped(v, instance)) <==> Covered(v, instance))
    ensures instance in v.resident && instance in gone && gone[instance] == v.resident[instance] ==>
              SameMaxima(v, Dropped(v, instance)) && SeqKept(v, Dropped(v, instance))
  {
    assert CoversAt(v, gone, instance);
    if instance in v.resident {
      if ProperView(v) {
        DroppedExact(v, instance);
      }
      if instance in gone && gone[instance] == v.resident[instance] {
        RefoldKeeps(v, instance);
      }
    }
  }

  lemma FoldCovers(v: View, w: View, added: seq<R.Breakpoint>, gone: map<nat, Record>, instance: nat, rec: Record)
    requires Takes(v, w, instance, rec) && forall i: nat :: CoversAt(v, gone, i)
    requires rec.eligible ==>
               R.Faithful(w.breakpoints, w.compressed, added + [R.Breakpoint(instance, rec.seqNo)], instance)
    ensures var more := gone[instance := rec]; forall i: nat :: CoversAt(w, more, i)
  {
    R.PrefixMaxConcat(added, [R.Breakpoint(instance, rec.seqNo)], instance);
    var more := gone[instance := rec];
    forall i: nat
      ensures CoversAt(w, more, i)
    {
      assert CoversAt(v, gone, i) && R.NotLower(v.breakpoints, v.compressed, w.breakpoints, w.compressed, i);
    }
  }

  lemma FoldAnswers(v: View, w: View, added: seq<R.Breakpoint>, instance: nat, rec: Record)
    requires Takes(v, w, instance, rec) && (instance in v.resident ==> v.resident[instance] == rec)
    requires rec.eligible ==>
               forall t: nat :: R.Faithful(w.breakpoints, w.compressed, added + [R.Breakpoint(instance, rec.seqNo)], t)
    ensures instance in v.resident ==> SameMaxima(v, w) && SeqKept(v, w)
  {
    if instance in v.resident {
      FoldKeepsScopes(v, instance);
      forall f
        ensures SameFor(v, w, f)
      {
        FoldKeepsFootprint(v, instance, f);
      }
      forall t: nat
        ensures SeqKeptAt(v, w, t)
      {
        assert R.NotLower(v.breakpoints, v.compressed, w.breakpoints, w.compressed, t);
        FoldKeepsSeq(v, w, added, instance, t);
      }
    }
  }

  /**
   The index does lose an answer below its watermark when the record differs from what was folded:
   instance 1 is folded while it is not eligible, applied again as a command at key, and folded again.
   */
  method UnlikeRefoldLoses(key: Bytes) returns (index: LaneIndex, ghost before: View)
    ensures index.Valid() && 1 in before.resident && index.Now() == Dropped(before, 1)
    ensures FootprintMax(before, F.Footprint([key], [], false)) == 1
            && FootprintMax(index.Now(), F.Footprint([key], [], false)) == 0
  {
    var idle, command := Record(1, false, false, {}), Record(1, true, false, {T.Resource(key, key, true)});
    index := new LaneIndex();
    index.Apply(1, idle);
    index.FoldRecord(1, idle);
    index.Advance(1);
    index.Apply(1, command);
    before := index.Now();
    assert before.floors == map[];
    KeyCoveredNowhere(before, key);
    index.FoldRecord(1, command);
  }

  lemma KeyCoveredNowhere(v: View, key: Bytes)
    requires v.resident == map[1 := Record(1, true, false, {T.Resource(key, key, true)})] && v.floors == map[]
    ensures FootprintMax(v, F.Footprint([key], [], false)) == 1
    ensures FootprintMax(Dropped(v, 1), F.Footprint([key], [], false)) == 0
  {
    var f := F.Footprint([key], [], false);
    assert T.Resource(key, key, true) in v.resident[1].resources && Touches(f, T.Resource(key, key, true));
    assert ResidentHits(v.resident, f) + FloorHits(v.floors, f) == {1};
    var w := Dropped(v, 1);
    assert ResidentHits(w.resident, f) + FloorHits(w.floors, f) == {};
  }
}
