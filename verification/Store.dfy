/** The in-memory storage: a batch is worked out beside the stored state and installed only when nothing refuses it. */
module Store {
  import Batches
  import opened Types
  import opened Storage
  import opened Durability
  import Configuration
  import Fence

  method IsComplete(id: ConfID, e: Entry) returns (yes: bool)
    ensures yes <==> Complete(id, e)
  {
    var canonical := Configuration.NewQuorum(e.voters);
    if Configuration.Canonical(e.voters) {
      Configuration.RisingDistinct(e.voters, e.voters);
      SameMembers(canonical.value, e.voters);
      Configuration.SameCanonical(canonical.value, e.voters);
    }
    yes := id != 0 && canonical == Some(e.voters) && (e.appliedBy.None? || e.appliedBy.value.conf + 1 == id);
  }

  lemma SameMembers(a: Voters, b: Voters)
    requires multiset(a) == multiset(b)
    ensures Configuration.Members(a) == Configuration.Members(b)
  {
    forall id: ReplicaID
      ensures id in a <==> id in b
    {
      assert id in a <==> id in multiset(a);
      assert id in b <==> id in multiset(b);
    }
  }

  method RememberEntry(h: History, id: ConfID, e: Entry) returns (r: Option<History>)
    ensures r == Remember(h, id, e)
  {
    var complete := IsComplete(id, e);
    if !complete {
      return None;
    }
    if id !in h {
      return Some(h[id := e]);
    }
    if !Compatible(h[id], e) {
      return None;
    }
    var merged := h[id];
    if merged.appliedBy.None? {
      merged := merged.(appliedBy := e.appliedBy);
    }
    r := Some(h[id := merged]);
  }

  method RememberEntries(h: History, entries: seq<(ConfID, Entry)>) returns (r: Option<History>)
    ensures r == RememberAll(h, entries)
  {
    var known := h;
    for i := 0 to |entries|
      invariant RememberAll(h, entries) == RememberAll(known, entries[i..])
      invariant i > 0 && i < |entries| ==> entries[i - 1].0 < entries[i].0
    {
      var left := entries[i..];
      assert left[1..] == entries[i + 1..];
      if i + 1 < |entries| && entries[i].0 >= entries[i + 1].0 {
        assert left[1].0 == entries[i + 1].0;
        return None;
      }
      var next := RememberEntry(known, entries[i].0, entries[i].1);
      if next.None? {
        return None;
      }
      known := next.value;
    }
    r := Some(known);
  }

  method RememberHardState(h: History, hard: Option<Hard>) returns (r: Option<History>)
    ensures r == RememberHard(h, hard)
  {
    if hard.None? {
      return Some(h);
    }
    r := RememberEntry(h, hard.value.conf, Entry(hard.value.voters, None));
  }

  /** last names, for each reference written, the last write to it. */
  ghost predicate IsLast(writes: seq<Write>, last: map<InstanceRef, nat>, upto: nat, ref: InstanceRef) {
    && (ref in last ==> last[ref] < upto <= |writes| && writes[last[ref]].0 == ref)
    && forall i | 0 <= i < upto && i < |writes| && writes[i].0 == ref :: ref in last && i <= last[ref]
  }

  /** The first pass over the records: none below the compacted frontier, and where each reference is written last. */
  method IndexRecords(e: Execution, writes: seq<Write>) returns (ok: bool, last: map<InstanceRef, nat>)
    ensures ok <==> forall w <- writes :: !Covered(e, w.0)
    ensures ok ==> forall ref :: IsLast(writes, last, |writes|, ref)
  {
    last := map[];
    for i := 0 to |writes|
      invariant forall j | 0 <= j < i :: !Covered(e, writes[j].0)
      invariant forall ref :: IsLast(writes, last, i, ref)
    {
      if Covered(e, writes[i].0) {
        return false, last;
      }
      var upto: nat := i + 1;
      ghost var before := last;
      last := last[writes[i].0 := i];
      forall ref
        ensures IsLast(writes, last, upto, ref)
      {
        assert IsLast(writes, before, i, ref);
      }
    }
    ok := true;
  }

  lemma LastMeansUnmentioned(writes: seq<Write>, last: map<InstanceRef, nat>, i: nat)
    requires i < |writes| && IsLast(writes, last, |writes|, writes[i].0)
    ensures writes[i].0 in last
    ensures last[writes[i].0] != i <==> Mentions(writes[i + 1..], writes[i].0)
  {
    var rest := writes[i + 1..];
    var at := last[writes[i].0];
    if at > i {
      assert rest[at - i - 1].0 == writes[i].0;
    }
  }

  /** The second pass: each last write against what is stored, remembering the configurations they made. */
  method SettleRecords(stored: map<InstanceRef, Record>, h: History, writes: seq<Write>, last: map<InstanceRef, nat>)
    returns (r: Option<History>)
    requires forall ref :: IsLast(writes, last, |writes|, ref)
    ensures r == Settle(stored, h, writes)
  {
    var known := h;
    for i := 0 to |writes|
      invariant Settle(stored, h, writes) == Settle(stored, known, writes[i..])
    {
      var left := writes[i..];
      assert left[0] == writes[i] && left[1..] == writes[i + 1..];
      assert IsLast(writes, last, |writes|, writes[i].0);
      LastMeansUnmentioned(writes, last, i);
      var (ref, rec) := writes[i];
      if last[ref] == i {
        if ref in stored && !MayReplace(stored[ref], rec) {
          return None;
        }
        if rec.result.Applied? {
          var next := RememberEntry(known, rec.result.conf, Entry(rec.result.voters, Some(ref)));
          if next.None? {
            return None;
          }
          known := next.value;
        }
      }
    }
    r := Some(known);
  }

  method WriteRecords(stored: map<InstanceRef, Record>, writes: seq<Write>) returns (out: map<InstanceRef, Record>)
    ensures out == Written(stored, writes)
  {
    out := stored;
    for i := 0 to |writes|
      invariant Written(stored, writes) == Written(out, writes[i..])
    {
      var left := writes[i..];
      assert left[0] == writes[i] && left[1..] == writes[i + 1..];
      out := out[writes[i].0 := writes[i].1];
    }
  }

  ghost predicate Ordered(p: Progress) {
    forall id: ConfID :: OrderedAt(p.frontiers, id)
  }

  ghost predicate OrderedAt(f: Frontiers, id: ConfID) {
    id in f ==> forall lane <- f[id].lanes :: Fence.Rising(lane.sparse)
  }

  lemma FitsOrdered(h: History, f: Fence.Frontier)
    requires Fits(h, f)
    ensures forall lane <- f.lanes :: Fence.Rising(lane.sparse)
  {
    forall i | 0 <= i < |f.lanes|
      ensures Fence.Rising(f.lanes[i].sparse)
    {
      assert Fence.LaneSoundAt(f, Fence.Base(f.conf, h[f.conf].voters), i);
    }
  }

  method UpdateFrontier(h: History, p: Progress, u: Update) returns (r: Option<Progress>)
    requires Ordered(p)
    ensures r == Updated(h, p, u)
    ensures r.Some? ==> Ordered(r.value)
  {
    var f := u.frontier;
    if (u.allocatorFloor != 0 && u.allocatorFloor < p.allocatorFloor) || u.toqClosed < p.toqClosed || f.conf !in h {
      return None;
    }
    var checked := Fence.Validate(f, Fence.Base(f.conf, h[f.conf].voters));
    if checked != Fence.Good {
      return None;
    }
    FitsOrdered(h, f);
    if f.conf in p.frontiers {
      assert OrderedAt(p.frontiers, f.conf);
      var back := Fence.Regresses(p.frontiers[f.conf], f);
      if back {
        return None;
      }
    }
    r := Some(Progress(p.frontiers[f.conf := f], Max(p.allocatorFloor, u.allocatorFloor), u.toqClosed));
    forall id: ConfID
      ensures OrderedAt(r.value.frontiers, id)
    {
      assert OrderedAt(p.frontiers, id);
    }
  }

  method UpdateFrontiers(h: History, p: Progress, updates: seq<Update>) returns (r: Option<Progress>)
    requires Ordered(p)
    ensures r == UpdatedAll(h, p, updates)
  {
    var progress := p;
    for i := 0 to |updates|
      invariant Ordered(progress) && UpdatedAll(h, p, updates) == UpdatedAll(h, progress, updates[i..])
    {
      var left := updates[i..];
      assert left[0] == updates[i] && left[1..] == updates[i + 1..];
      var next := UpdateFrontier(h, progress, updates[i]);
      if next.None? {
        return None;
      }
      progress := next.value;
    }
    r := Some(progress);
  }

  lemma ValidOrdered(s: State)
    requires Valid(s)
    ensures Ordered(s.progress)
  {
    forall id: ConfID
      ensures OrderedAt(s.progress.frontiers, id)
    {
      assert FrontierFits(s.history, s.progress.frontiers, id);
      if id in s.progress.frontiers {
        FitsOrdered(s.history, s.progress.frontiers[id]);
      }
    }
  }

  class MemoryStorage {
    var failWrites: bool
    var hard: Option<Hard>
    var history: History
    var records: map<InstanceRef, Record>
    var progress: Progress
    var checkpoint: Option<Checkpoint>

    function Contents(): State
      reads this
    {
      State(hard, history, records, progress, checkpoint)
    }

    /** An empty storage. */
    constructor ()
      ensures Valid(Contents()) && !failWrites && history == map[] && records == map[] && hard == None
    {
      failWrites := false;
      hard, history, records := None, map[], map[];
      progress := Progress(map[], 0, 0);
      checkpoint := None;
    }

    /** The history the batch would leave. */
    method NextHistory(rd: Ready) returns (r: Option<History>)
      ensures r.Some? <==> HistoryAfter(Contents(), rd).Some? && AboveCompaction(Contents(), rd.records)
      ensures r.Some? ==> r == HistoryAfter(Contents(), rd)
    {
      var known := RememberHardState(history, hard);
      if known.None? {
        return None;
      }
      known := RememberEntries(known.value, rd.history);
      if known.None? || !HardAllowed(hard, rd.hard) {
        return None;
      }
      known := RememberHardState(known.value, rd.hard);
      if known.None? {
        return None;
      }
      var above, last := IndexRecords(Compacted(checkpoint), rd.records);
      if !above {
        return None;
      }
      r := SettleRecords(records, known.value, rd.records, last);
    }

    /** The floors and frontiers the batch would leave. */
    method NextProgress(h: History, rd: Ready) returns (r: Option<Progress>)
      requires Valid(Contents())
      ensures r == ProgressAfter(h, progress, rd)
    {
      var floored := Floored(progress, rd.allocatorFloor);
      if floored.None? {
        return None;
      }
      ValidOrdered(Contents());
      forall id: ConfID
        ensures OrderedAt(floored.value.frontiers, id)
      {
        assert OrderedAt(progress.frontiers, id);
      }
      r := UpdateFrontiers(h, floored.value, rd.updates);
    }

    /** The state the batch would leave, worked out without touching the stored one. */
    method Candidate(rd: Ready) returns (r: Option<State>)
      requires Valid(Contents())
      ensures r == Apply(Contents(), rd)
    {
      var known := NextHistory(rd);
      if known.None? {
        return None;
      }
      var next := NextProgress(known.value, rd);
      var advanced := Advanced(checkpoint, rd);
      if next.None? || advanced.None? {
        return None;
      }
      var written := WriteRecords(records, rd.records);
      if rd.compact != map[] {
        written := Kept(written, Compacted(advanced.value));
      }
      r := Some(State(if rd.hard.Some? then rd.hard else hard, known.value, written, next.value, advanced.value));
    }

    /** ApplyReady: the batch is applied as a whole, or the storage stays as it was. */
    method ApplyReady(rd: Ready) returns (ok: bool)
      requires Valid(Contents())
      modifies this
      ensures failWrites == old(failWrites) && Valid(Contents())
      ensures ok <==> !old(failWrites) && Batches.Acceptable(old(Contents()), rd)
      ensures ok ==> Batches.Leaves(old(Contents()), rd, Contents())
      ensures ok <==> !old(failWrites) && Apply(old(Contents()), rd).Some?
      ensures Contents() == if ok then Apply(old(Contents()), rd).value else old(Contents())
      ensures Monotone(old(Contents()), Contents())
    {
      MonotoneSelf(Contents());
      if failWrites {
        return false;
      }
      Batches.AcceptedExactly(Contents(), rd);
      var candidate := Candidate(rd);
      if candidate.None? {
        return false;
      }
      ApplyMonotone(Contents(), rd);
      Batches.AcceptedLeaves(Contents(), rd);
      var next := candidate.value;
      hard, history, records := next.hard, next.history, next.records;
      progress, checkpoint := next.progress, next.checkpoint;
      ok := true;
    }

    method LoadInstance(ref: InstanceRef) returns (r: Option<Record>)
      ensures r == Load(Contents(), ref)
    {
      if Covered(Compacted(checkpoint), ref) || ref !in records {
        return None;
      }
      r := Some(records[ref]);
    }
  }
}
