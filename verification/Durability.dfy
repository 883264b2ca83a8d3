/** Nothing durable ever goes back, over every batch and every run of batches. */
module Durability {
  import opened Types
  import opened Ballots
  import opened Storage
  import Fence

  // What may not go back.

  /** A known configuration keeps its voters, and a known winner stays. */
  ghost predicate EntryKept(a: History, b: History, id: ConfID) {
    id in a ==>
      id in b && b[id].voters == a[id].voters && (a[id].appliedBy.Some? ==> b[id].appliedBy == a[id].appliedBy)
  }

  ghost predicate HistoryKept(a: History, b: History) {
    forall id: ConfID :: EntryKept(a, b, id)
  }

  /** Status and promise do not fall, and what was executed keeps its order and its command. */
  ghost predicate RecordGrows(a: Record, b: Record) {
    && a.status <= b.status && a.ballot.AtMost(b.ballot)
    && (a.status == EXECUTED ==>
          b.status == EXECUTED && b.seqNo == a.seqNo && b.deps == a.deps && b.command == a.command
              && b.recordBallot == a.recordBallot)
  }

  ghost predicate Gone(s: State, ref: InstanceRef) {
    Covered(Compacted(s.checkpoint), ref)
  }

  /** A readable record stays readable and grows, until compaction covers it; what is covered stays covered. */
  ghost predicate RecordKept(a: State, b: State, ref: InstanceRef) {
    ref.inst != 0 ==>
    && (Gone(a, ref) ==> Gone(b, ref))
    && (Load(a, ref).Some? ==>
        Gone(b, ref) || (Load(b, ref).Some? && RecordGrows(Load(a, ref).value, Load(b, ref).value)))
  }

  ghost predicate FrontierKept(a: Frontiers, b: Frontiers, id: ConfID) {
    id in a ==> id in b && Fence.Covers(a[id], b[id])
  }

  ghost predicate ProgressGrows(a: Progress, b: Progress) {
    && a.allocatorFloor <= b.allocatorFloor && a.toqClosed <= b.toqClosed
    && forall id: ConfID :: FrontierKept(a.frontiers, b.frontiers, id)
  }

  ghost predicate HardGrows(a: Option<Hard>, b: Option<Hard>) {
    a.Some? ==> b.Some? && a.value.tick <= b.value.tick && a.value.conf <= b.value.conf
                && (a.value.conf == b.value.conf ==> a.value.voters == b.value.voters)
  }

  ghost predicate Monotone(a: State, b: State) {
    && HardGrows(a.hard, b.hard) && HistoryKept(a.history, b.history) && ProgressGrows(a.progress, b.progress)
    && forall ref: InstanceRef :: RecordKept(a, b, ref)
  }

  /** What every stored state satisfies. */
  ghost predicate Valid(s: State) {
    && (s.checkpoint.Some? ==> Grows(s.checkpoint.value.compacted, s.checkpoint.value.through))
    && forall id: ConfID :: FrontierFits(s.history, s.progress.frontiers, id)
  }

  ghost predicate FrontierFits(h: History, f: Frontiers, id: ConfID) {
    id in f ==> f[id].conf == id && Fits(h, f[id])
  }

  // Histories.

  lemma HistoryTransitive(a: History, b: History, c: History)
    requires HistoryKept(a, b) && HistoryKept(b, c)
    ensures HistoryKept(a, c)
  {
    forall id: ConfID
      ensures EntryKept(a, c, id)
    {
      assert EntryKept(a, b, id) && EntryKept(b, c, id);
    }
  }

  lemma RememberKeeps(h: History, id: ConfID, e: Entry)
    requires Remember(h, id, e).Some?
    ensures HistoryKept(h, Remember(h, id, e).value)
    ensures id in Remember(h, id, e).value && Remember(h, id, e).value[id].voters == e.voters
  {
    forall other: ConfID
      ensures EntryKept(h, Remember(h, id, e).value, other)
    {
    }
  }

  lemma RememberHardKeeps(h: History, hard: Option<Hard>)
    requires RememberHard(h, hard).Some?
    ensures HistoryKept(h, RememberHard(h, hard).value)
    ensures hard.Some? ==> hard.value.conf in RememberHard(h, hard).value
                           && RememberHard(h, hard).value[hard.value.conf].voters == hard.value.voters
  {
    if hard.Some? {
      RememberKeeps(h, hard.value.conf, Entry(hard.value.voters, None));
    } else {
      forall id: ConfID
        ensures EntryKept(h, h, id)
      {
      }
    }
  }

  lemma {:induction false} RememberAllKeeps(h: History, entries: seq<(ConfID, Entry)>)
    requires RememberAll(h, entries).Some?
    ensures HistoryKept(h, RememberAll(h, entries).value)
    decreases |entries|
  {
    if entries == [] {
      RememberHardKeeps(h, None);
    } else {
      var next := Remember(h, entries[0].0, entries[0].1).value;
      RememberKeeps(h, entries[0].0, entries[0].1);
      RememberAllKeeps(next, entries[1..]);
      HistoryTransitive(h, next, RememberAll(h, entries).value);
    }
  }

  lemma {:induction false} SettleKeeps(stored: map<InstanceRef, Record>, h: History, writes: seq<Write>)
    requires Settle(stored, h, writes).Some?
    ensures HistoryKept(h, Settle(stored, h, writes).value)
    decreases |writes|
  {
    if writes == [] {
      RememberHardKeeps(h, None);
    } else if Mentions(writes[1..], writes[0].0) {
      SettleKeeps(stored, h, writes[1..]);
    } else {
      var (ref, rec) := writes[0];
      var next := RememberResult(h, ref, rec).value;
      if rec.result.Applied? {
        RememberKeeps(h, rec.result.conf, Entry(rec.result.voters, Some(ref)));
      } else {
        RememberHardKeeps(h, None);
      }
      SettleKeeps(stored, next, writes[1..]);
      HistoryTransitive(h, next, Settle(stored, h, writes).value);
    }
  }

  lemma HistoryAfterKeeps(s: State, rd: Ready)
    requires HistoryAfter(s, rd).Some?
    ensures HistoryKept(s.history, HistoryAfter(s, rd).value)
    ensures HardGrows(s.hard, if rd.hard.Some? then rd.hard else s.hard)
  {
    var first := RememberHard(s.history, s.hard).value;
    var listed := RememberAll(first, rd.history).value;
    var hard := RememberHard(listed, rd.hard).value;
    var final := HistoryAfter(s, rd).value;
    RememberHardKeeps(s.history, s.hard);
    RememberAllKeeps(first, rd.history);
    RememberHardKeeps(listed, rd.hard);
    SettleKeeps(s.records, hard, rd.records);
    HistoryTransitive(first, listed, hard);
    HistoryTransitive(s.history, first, hard);
    HistoryTransitive(s.history, hard, final);
    if s.hard.Some? {
      assert EntryKept(first, hard, s.hard.value.conf);
    }
  }

  // Records.

  lemma MentionsSplit(writes: seq<Write>, ref: InstanceRef)
    requires writes != []
    ensures Mentions(writes, ref) <==> writes[0].0 == ref || Mentions(writes[1..], ref)
  {
    var rest := writes[1..];
    assert forall i | 0 <= i < |rest| :: rest[i] == writes[i + 1];
    if Mentions(writes, ref) && writes[0].0 != ref {
      var i :| 0 <= i < |writes| && writes[i].0 == ref;
      assert rest[i - 1].0 == ref;
    }
  }

  /** Writing gives a mentioned reference a value that does not depend on what was stored, and leaves the others. */
  lemma {:induction false} WrittenAt(a: map<InstanceRef, Record>, b: map<InstanceRef, Record>, writes: seq<Write>,
                                     ref: InstanceRef)
    ensures Mentions(writes, ref) ==>
              ref in Written(a, writes) && ref in Written(b, writes)
                  && Written(a, writes)[ref] == Written(b, writes)[ref]
    ensures !Mentions(writes, ref) ==>
              (ref in Written(a, writes) <==> ref in a) && (ref in a ==> Written(a, writes)[ref] == a[ref])
    decreases |writes|
  {
    if writes != [] {
      var (first, rec) := writes[0];
      var rest := writes[1..];
      WrittenAt(a[first := rec], b[first := rec], rest, ref);
      WrittenAt(b[first := rec], b[first := rec], rest, ref);
      MentionsSplit(writes, ref);
    }
  }

  /** What the batch leaves at a stored reference was allowed to replace what was there. */
  lemma {:induction false} SettleAllows(stored: map<InstanceRef, Record>, h: History, writes: seq<Write>,
                                        base: map<InstanceRef, Record>, ref: InstanceRef)
    requires Settle(stored, h, writes).Some? && ref in stored && Mentions(writes, ref)
    ensures ref in Written(base, writes) && MayReplace(stored[ref], Written(base, writes)[ref])
    decreases |writes|
  {
    var (first, rec) := writes[0];
    var rest := writes[1..];
    MentionsSplit(writes, ref);
    WrittenAt(base[first := rec], base[first := rec], rest, ref);
    if Mentions(rest, ref) {
      var next := if Mentions(rest, first) then h else RememberResult(h, first, rec).value;
      SettleAllows(stored, next, rest, base[first := rec], ref);
    }
  }

  lemma ReplaceGrows(a: Record, b: Record)
    requires MayReplace(a, b)
    ensures RecordGrows(a, b)
  {
  }

  lemma CoveredGrows(a: Execution, b: Execution, ref: InstanceRef)
    requires Grows(a, b) && ref.inst != 0 && Covered(a, ref)
    ensures Covered(b, ref)
  {
    assert GrowsAt(a, b, LaneFor(ref));
  }

  lemma AdvancedGrows(c: Option<Checkpoint>, rd: Ready)
    requires Advanced(c, rd).Some? && (c.Some? ==> Grows(c.value.compacted, c.value.through))
    ensures Grows(Compacted(c), Compacted(Advanced(c, rd).value))
    ensures Advanced(c, rd).value.Some? ==>
              Grows(Advanced(c, rd).value.value.compacted, Advanced(c, rd).value.value.through)
  {
    var next := Advanced(c, rd).value;
    if c.Some? {
      forall lane <- c.value.compacted
        ensures GrowsAt(c.value.compacted, Compacted(next), lane)
      {
        assert GrowsAt(c.value.compacted, c.value.through, lane);
        if rd.snapshot.Some? {
          var d := rd.snapshot.value;
          assert GrowsAt(c.value.compacted, d.compacted, lane);
          if c.value.compacted[lane] != 0 {
            assert GrowsAt(d.compacted, d.through, lane);
          }
        }
      }
    }
  }

  lemma RecordsKept(s: State, rd: Ready, ref: InstanceRef)
    requires Apply(s, rd).Some? && Valid(s)
    ensures RecordKept(s, Apply(s, rd).value, ref)
  {
    var next := Apply(s, rd).value;
    AdvancedGrows(s.checkpoint, rd);
    if ref.inst != 0 && Gone(s, ref) {
      CoveredGrows(Compacted(s.checkpoint), Compacted(next.checkpoint), ref);
    }
    if Load(s, ref).Some? {
      WrittenAt(s.records, s.records, rd.records, ref);
      if Mentions(rd.records, ref) {
        var h := RememberHard(RememberAll(RememberHard(s.history, s.hard).value, rd.history).value, rd.hard).value;
        SettleAllows(s.records, h, rd.records, s.records, ref);
        ReplaceGrows(s.records[ref], Written(s.records, rd.records)[ref]);
      }
    }
  }

  lemma {:induction false} LastWritten(stored: map<InstanceRef, Record>, writes: seq<Write>, i: nat)
    requires i < |writes| && forall j | i < j < |writes| :: writes[j].0 != writes[i].0
    ensures writes[i].0 in Written(stored, writes) && Written(stored, writes)[writes[i].0] == writes[i].1
    decreases |writes|
  {
    var rest := writes[1..];
    var more := stored[writes[0].0 := writes[0].1];
    assert forall j | 0 <= j < |rest| :: rest[j] == writes[j + 1];
    if i > 0 {
      LastWritten(more, rest, i - 1);
    } else {
      WrittenAt(more, more, rest, writes[0].0);
    }
  }

  /** An accepted batch makes its last write to each reference readable, or compacts it at once. */
  lemma ReadBack(s: State, rd: Ready, i: nat)
    requires Apply(s, rd).Some? && i < |rd.records| && forall j | i < j < |rd.records| ::
             rd.records[j].0 != rd.records[i].0
    ensures Load(Apply(s, rd).value, rd.records[i].0) == Some(rd.records[i].1)
            || Gone(Apply(s, rd).value, rd.records[i].0)
  {
    LastWritten(s.records, rd.records, i);
  }

  /** A reference the batch does not write reads as before, or is compacted. */
  lemma OthersUntouched(s: State, rd: Ready, ref: InstanceRef)
    requires Apply(s, rd).Some? && Valid(s) && ref.inst != 0 && !Mentions(rd.records, ref)
    ensures Load(Apply(s, rd).value, ref) == Load(s, ref) || Gone(Apply(s, rd).value, ref)
  {
    WrittenAt(s.records, s.records, rd.records, ref);
    RecordsKept(s, rd, ref);
  }

  // Frontiers and floors.

  lemma CoversSelf(a: Fence.Frontier)
    ensures Fence.Covers(a, a)
  {
    forall i
      ensures Fence.LaneCoversAt(a, a, i)
    {
    }
  }

  lemma CoversTransitive(a: Fence.Frontier, b: Fence.Frontier, c: Fence.Frontier)
    requires Fence.Covers(a, b) && Fence.Covers(b, c)
    ensures Fence.Covers(a, c)
  {
    forall i
      ensures Fence.LaneCoversAt(a, c, i)
    {
      assert Fence.LaneCoversAt(a, b, i) && Fence.LaneCoversAt(b, c, i);
      if 0 <= i < |a.lanes| {
        forall x: nat
          ensures Fence.Carried(a.lanes[i], c.lanes[i], x)
        {
          assert Fence.Carried(a.lanes[i], b.lanes[i], x) && Fence.Carried(b.lanes[i], c.lanes[i], x);
        }
      }
    }
  }

  lemma ProgressTransitive(a: Progress, b: Progress, c: Progress)
    requires ProgressGrows(a, b) && ProgressGrows(b, c)
    ensures ProgressGrows(a, c)
  {
    forall id: ConfID
      ensures FrontierKept(a.frontiers, c.frontiers, id)
    {
      assert FrontierKept(a.frontiers, b.frontiers, id) && FrontierKept(b.frontiers, c.frontiers, id);
      if id in a.frontiers {
        CoversTransitive(a.frontiers[id], b.frontiers[id], c.frontiers[id]);
      }
    }
  }

  ghost predicate AllFit(h: History, f: Frontiers) {
    forall id: ConfID :: FrontierFits(h, f, id)
  }

  lemma UpdatedGrows(h: History, p: Progress, u: Update)
    requires AllFit(h, p.frontiers) && Updated(h, p, u).Some?
    ensures ProgressGrows(p, Updated(h, p, u).value) && AllFit(h, Updated(h, p, u).value.frontiers)
  {
    var next := Updated(h, p, u).value;
    forall id: ConfID
      ensures FrontierKept(p.frontiers, next.frontiers, id) && FrontierFits(h, next.frontiers, id)
    {
      assert FrontierFits(h, p.frontiers, id);
      if id in p.frontiers {
        CoversSelf(p.frontiers[id]);
      }
    }
  }

  lemma {:induction false} UpdatedAllGrows(h: History, p: Progress, updates: seq<Update>)
    requires AllFit(h, p.frontiers) && UpdatedAll(h, p, updates).Some?
    ensures ProgressGrows(p, UpdatedAll(h, p, updates).value) && AllFit(h, UpdatedAll(h, p, updates).value.frontiers)
    decreases |updates|
  {
    if updates == [] {
      forall id: ConfID
        ensures FrontierKept(p.frontiers, p.frontiers, id)
      {
        if id in p.frontiers {
          CoversSelf(p.frontiers[id]);
        }
      }
    } else {
      var next := Updated(h, p, updates[0]).value;
      UpdatedGrows(h, p, updates[0]);
      UpdatedAllGrows(h, next, updates[1..]);
      ProgressTransitive(p, next, UpdatedAll(h, p, updates).value);
    }
  }

  lemma FitsKept(a: History, b: History, f: Frontiers)
    requires HistoryKept(a, b) && AllFit(a, f)
    ensures AllFit(b, f)
  {
    forall id: ConfID
      ensures FrontierFits(b, f, id)
    {
      assert FrontierFits(a, f, id) && EntryKept(a, b, id);
    }
  }

  // The theorems.

  /** One accepted batch takes nothing back and leaves a valid state. */
  lemma ApplyMonotone(s: State, rd: Ready)
    requires Valid(s) && Apply(s, rd).Some?
    ensures Monotone(s, Apply(s, rd).value) && Valid(Apply(s, rd).value)
  {
    var next := Apply(s, rd).value;
    HistoryAfterKeeps(s, rd);
    FitsKept(s.history, next.history, s.progress.frontiers);
    var floored := Floored(s.progress, rd.allocatorFloor).value;
    UpdatedAllGrows(next.history, floored, rd.updates);
    AdvancedGrows(s.checkpoint, rd);
    forall ref: InstanceRef
      ensures RecordKept(s, next, ref)
    {
      RecordsKept(s, rd, ref);
    }
  }

  lemma MonotoneSelf(s: State)
    ensures Monotone(s, s)
  {
    RememberHardKeeps(s.history, None);
    forall id: ConfID
      ensures FrontierKept(s.progress.frontiers, s.progress.frontiers, id)
    {
      if id in s.progress.frontiers {
        CoversSelf(s.progress.frontiers[id]);
      }
    }
  }

  lemma MonotoneTransitive(a: State, b: State, c: State)
    requires Monotone(a, b) && Monotone(b, c)
    ensures Monotone(a, c)
  {
    HistoryTransitive(a.history, b.history, c.history);
    ProgressTransitive(a.progress, b.progress, c.progress);
    forall ref: InstanceRef
      ensures RecordKept(a, c, ref)
    {
      assert RecordKept(a, b, ref) && RecordKept(b, c, ref);
    }
  }

  /** A refused batch leaves the state as it was. */
  ghost function Step(s: State, rd: Ready): State {
    var next := Apply(s, rd);
    if next.Some? then next.value else s
  }

  ghost function Run(s: State, batches: seq<Ready>): State {
    if batches == [] then s else Step(Run(s, batches[..|batches| - 1]), batches[|batches| - 1])
  }

  /** Over every run of batches, from any point of it to any later one, nothing durable goes back. */
  lemma {:induction false} RunMonotone(s: State, batches: seq<Ready>, from: nat)
    requires Valid(s) && from <= |batches|
    ensures Monotone(Run(s, batches[..from]), Run(s, batches)) && Valid(Run(s, batches))
    decreases |batches|
  {
    if batches == [] {
      MonotoneSelf(s);
    } else {
      var init := batches[..|batches| - 1];
      var rd := batches[|batches| - 1];
      var upto := if from == |batches| then |init| else from;
      RunMonotone(s, init, upto);
      var middle := Run(s, init);
      if Apply(middle, rd).Some? {
        ApplyMonotone(middle, rd);
      } else {
        MonotoneSelf(middle);
      }
      if from == |batches| {
        assert batches[..from] == batches;
        MonotoneSelf(Run(s, batches));
      } else {
        assert init[..from] == batches[..from];
        MonotoneTransitive(Run(s, batches[..from]), middle, Run(s, batches));
      }
    }
  }

  /** After an executed record was read, every later read gives the same order and command, until compaction. */
  lemma ExecutedForever(s: State, batches: seq<Ready>, from: nat, ref: InstanceRef)
    requires Valid(s) && from <= |batches| && ref.inst != 0
    requires Load(Run(s, batches[..from]), ref).Some? && Load(Run(s, batches[..from]), ref).value.status == EXECUTED
    ensures var before, after := Load(Run(s, batches[..from]), ref).value, Load(Run(s, batches), ref);
            || (after.None? && Gone(Run(s, batches), ref))
            || (after.Some? && after.value.seqNo == before.seqNo && after.value.deps == before.deps
                && after.value.command == before.command)
  {
    RunMonotone(s, batches, from);
    assert RecordKept(Run(s, batches[..from]), Run(s, batches), ref);
  }
}
