/**
 Which batches the storage accepts, and what an accepted batch leaves in every field, stated over the
 batch as a whole: what it claims about configurations, its last write to each reference, its last
 update of each frontier.
 */
module Batches {
  import opened Types
  import opened Ballots
  import opened Storage
  import opened Durability
  import Configuration
  import Fence

  type Claim = (ConfID, Entry)

  // Configurations: everything the batch claims about them, in order.

  function HardClaim(hard: Option<Hard>): seq<Claim> {
    if hard.None? then [] else [(hard.value.conf, Entry(hard.value.voters, None))]
  }

  /** What the last write to each reference says was made by it. */
  function ResultClaims(writes: seq<Write>): seq<Claim> {
    if writes == [] then []
    else
      var (ref, rec) := writes[0];
      if Mentions(writes[1..], ref) || !rec.result.Applied? then ResultClaims(writes[1..])
      else [(rec.result.conf, Entry(rec.result.voters, Some(ref)))] + ResultClaims(writes[1..])
  }

  function Claims(s: State, rd: Ready): seq<Claim> {
    HardClaim(s.hard) + (rd.history + (HardClaim(rd.hard) + ResultClaims(rd.records)))
  }

  ghost function Learn(h: History, claims: seq<Claim>): Option<History>
    decreases |claims|
  {
    if claims == [] then Some(h)
    else
      var next := Remember(h, claims[0].0, claims[0].1);
      if next.None? then None else Learn(next.value, claims[1..])
  }

  ghost function Then(h: Option<History>, claims: seq<Claim>): Option<History> {
    if h.None? then None else Learn(h.value, claims)
  }

  lemma {:induction false} LearnConcat(h: History, a: seq<Claim>, b: seq<Claim>)
    ensures Learn(h, a + b) == Then(Learn(h, a), b)
    decreases |a|
  {
    if a == [] {
      assert a + b == b;
    } else {
      assert (a + b)[0] == a[0] && (a + b)[1..] == a[1..] + b;
      var next := Remember(h, a[0].0, a[0].1);
      if next.Some? {
        LearnConcat(next.value, a[1..], b);
      }
    }
  }

  lemma LearnOne(h: History, c: Claim)
    ensures Learn(h, [c]) == Remember(h, c.0, c.1)
  {
    var next := Remember(h, c.0, c.1);
    assert [c][1..] == [];
    assert next.Some? ==> Learn(next.value, []) == next;
  }

  ghost predicate RisesAt(claims: seq<Claim>, i: int) {
    0 <= i < |claims| - 1 ==> claims[i].0 < claims[i + 1].0
  }

  ghost predicate Rising(claims: seq<Claim>) {
    forall i :: RisesAt(claims, i)
  }

  lemma {:induction false} ListedLearn(h: History, claims: seq<Claim>)
    ensures RememberAll(h, claims) == if Rising(claims) then Learn(h, claims) else None
    decreases |claims|
  {
    if claims == [] {
    } else {
      var rest := claims[1..];
      assert Rising(claims) <==> Rising(rest) && (|claims| > 1 ==> claims[0].0 < claims[1].0) by {
        if Rising(claims) {
          assert RisesAt(claims, 0);
          assert forall i :: RisesAt(rest, i) by {
            forall i
              ensures RisesAt(rest, i)
            {
              assert RisesAt(claims, i + 1);
            }
          }
        } else if |claims| > 1 && claims[0].0 < claims[1].0 {
          var i :| !RisesAt(claims, i);
          assert !RisesAt(rest, i - 1);
        }
      }
      var next := Remember(h, claims[0].0, claims[0].1);
      if next.Some? {
        ListedLearn(next.value, rest);
      }
    }
  }

  // Records: only the last write to a reference is checked.

  ghost predicate LastAt(writes: seq<Write>, i: int) {
    0 <= i < |writes| && forall j | i < j < |writes| :: writes[j].0 != writes[i].0
  }

  ghost predicate WriteAllowed(stored: map<InstanceRef, Record>, writes: seq<Write>, i: int) {
    LastAt(writes, i) && writes[i].0 in stored ==> MayReplace(stored[writes[i].0], writes[i].1)
  }

  ghost predicate WritesAllowed(stored: map<InstanceRef, Record>, writes: seq<Write>) {
    forall i :: WriteAllowed(stored, writes, i)
  }

  lemma LastBehind(writes: seq<Write>, i: int)
    requires writes != []
    ensures i >= 1 ==> (LastAt(writes, i) <==> LastAt(writes[1..], i - 1))
    ensures LastAt(writes, 0) <==> !Mentions(writes[1..], writes[0].0)
  {
    var rest := writes[1..];
    assert forall j | 0 <= j < |rest| :: rest[j] == writes[j + 1];
    if i >= 1 && i < |writes| {
      if LastAt(rest, i - 1) {
        forall j | i < j < |writes|
          ensures writes[j].0 != writes[i].0
        {
          assert rest[j - 1].0 != rest[i - 1].0;
        }
      }
    }
  }

  lemma WritesAllowedBehind(stored: map<InstanceRef, Record>, writes: seq<Write>)
    requires writes != []
    ensures WritesAllowed(stored, writes) <==> WriteAllowed(stored, writes, 0) && WritesAllowed(stored, writes[1..])
  {
    var rest := writes[1..];
    if WritesAllowed(stored, writes) {
      forall i
        ensures WriteAllowed(stored, rest, i)
      {
        if i >= 0 {
          LastBehind(writes, i + 1);
          assert WriteAllowed(stored, writes, i + 1);
        }
      }
    }
    if WriteAllowed(stored, writes, 0) && WritesAllowed(stored, rest) {
      forall i
        ensures WriteAllowed(stored, writes, i)
      {
        if i >= 1 {
          LastBehind(writes, i);
          assert WriteAllowed(stored, rest, i - 1);
        }
      }
    }
  }

  lemma {:induction false} SettleLearn(stored: map<InstanceRef, Record>, h: History, writes: seq<Write>)
    ensures Settle(stored, h, writes) == if WritesAllowed(stored, writes) then Learn(h, ResultClaims(writes)) else None
    decreases |writes|
  {
    if writes == [] {
    } else {
      var (ref, rec) := writes[0];
      var rest := writes[1..];
      WritesAllowedBehind(stored, writes);
      LastBehind(writes, 0);
      if Mentions(rest, ref) {
        SettleLearn(stored, h, rest);
      } else {
        var next := RememberResult(h, ref, rec);
        if next.Some? {
          SettleLearn(stored, next.value, rest);
        }
        if rec.result.Applied? {
          var c := (rec.result.conf, Entry(rec.result.voters, Some(ref)));
          LearnOne(h, c);
          LearnConcat(h, [c], ResultClaims(rest));
        }
      }
    }
  }

  /** The history of a batch is its claims, learned in order. */
  lemma HistoryLearns(s: State, rd: Ready)
    ensures HistoryAfter(s, rd)
            == if Rising(rd.history) && HardAllowed(s.hard, rd.hard) && WritesAllowed(s.records, rd.records)
               then Learn(s.history, Claims(s, rd)) else None
  {
    var a, b, c, d := HardClaim(s.hard), rd.history, HardClaim(rd.hard), ResultClaims(rd.records);
    LearnConcat(s.history, a, b + (c + d));
    HardLearn(s.history, s.hard);
    var first := RememberHard(s.history, s.hard);
    if first.Some? {
      LearnConcat(first.value, b, c + d);
      ListedLearn(first.value, b);
      var listed := Learn(first.value, b);
      if listed.Some? {
        LearnConcat(listed.value, c, d);
        HardLearn(listed.value, rd.hard);
        var hard := RememberHard(listed.value, rd.hard);
        if hard.Some? {
          SettleLearn(s.records, hard.value, rd.records);
        }
      }
    }
  }

  lemma HardLearn(h: History, hard: Option<Hard>)
    ensures RememberHard(h, hard) == Learn(h, HardClaim(hard))
  {
    if hard.Some? {
      LearnOne(h, (hard.value.conf, Entry(hard.value.voters, None)));
    }
  }

  // When claims can be learned, and what is known afterwards.

  ghost predicate Proper(c: Claim) {
    && c.0 != 0 && Configuration.Canonical(c.1.voters)
    && (c.1.appliedBy.Some? ==> c.1.appliedBy.value.conf + 1 == c.0)
  }

  /** Two descriptions of one configuration have the same voters and, where both know it, the same winner. */
  ghost predicate SameConf(a: Entry, b: Entry) {
    a.voters == b.voters && (a.appliedBy.Some? && b.appliedBy.Some? ==> a.appliedBy == b.appliedBy)
  }

  ghost predicate ProperAt(h: History, claims: seq<Claim>, i: int) {
    0 <= i < |claims| ==> Proper(claims[i]) && (claims[i].0 in h ==> SameConf(h[claims[i].0], claims[i].1))
  }

  ghost predicate PairAt(claims: seq<Claim>, i: int, j: int) {
    0 <= i < j < |claims| && claims[i].0 == claims[j].0 ==> SameConf(claims[i].1, claims[j].1)
  }

  /** The claims contradict neither the history nor each other. */
  ghost predicate Consistent(h: History, claims: seq<Claim>) {
    (forall i :: ProperAt(h, claims, i)) && forall i, j :: PairAt(claims, i, j)
  }

  lemma ConsistentFirst(h: History, claims: seq<Claim>)
    requires claims != [] && Remember(h, claims[0].0, claims[0].1).Some?
    ensures Consistent(h, claims) <==> Consistent(Remember(h, claims[0].0, claims[0].1).value, claims[1..])
  {
    var c, rest := claims[0], claims[1..];
    var next := Remember(h, c.0, c.1).value;
    if Consistent(h, claims) {
      forall i
        ensures ProperAt(next, rest, i)
      {
        assert ProperAt(h, claims, i + 1) && PairAt(claims, 0, i + 1);
      }
      forall i, j
        ensures PairAt(rest, i, j)
      {
        assert PairAt(claims, i + 1, j + 1);
      }
    }
    if Consistent(next, rest) {
      forall i
        ensures ProperAt(h, claims, i)
      {
        assert ProperAt(next, rest, i - 1);
      }
      forall i, j
        ensures PairAt(claims, i, j)
      {
        assert PairAt(rest, i - 1, j - 1) && ProperAt(next, rest, j - 1);
      }
    }
  }

  /** Claims are learned exactly when they contradict nothing. */
  lemma {:induction false} LearnExact(h: History, claims: seq<Claim>)
    ensures Learn(h, claims).Some? <==> Consistent(h, claims)
    decreases |claims|
  {
    if claims != [] {
      var next := Remember(h, claims[0].0, claims[0].1);
      if next.Some? {
        ConsistentFirst(h, claims);
        LearnExact(next.value, claims[1..]);
      } else {
        assert !ProperAt(h, claims, 0);
      }
    }
  }

  ghost predicate ClaimedAt(claims: seq<Claim>, i: int, id: ConfID) {
    0 <= i < |claims| && claims[i].0 == id
  }

  ghost predicate WinnerAt(claims: seq<Claim>, i: int, id: ConfID, winner: Option<InstanceRef>) {
    ClaimedAt(claims, i, id) && claims[i].1.appliedBy == winner
  }

  /** A configuration is known exactly when it was known or claimed, as it was known and claimed. */
  ghost predicate KnownAs(h: History, claims: seq<Claim>, r: History, id: ConfID) {
    && (id in r <==> id in h || exists i :: ClaimedAt(claims, i, id))
    && (id in h && id in r ==>
          r[id].voters == h[id].voters && (h[id].appliedBy.Some? ==> r[id].appliedBy == h[id].appliedBy))
    && (id in r ==> forall i | ClaimedAt(claims, i, id) ::
          r[id].voters == claims[i].1.voters
              && (claims[i].1.appliedBy.Some? ==> r[id].appliedBy == claims[i].1.appliedBy))
    && (id in r && r[id].appliedBy.Some? ==>
          (id in h && h[id].appliedBy == r[id].appliedBy) || exists i :: WinnerAt(claims, i, id, r[id].appliedBy))
  }

  lemma {:induction false} LearnKnows(h: History, claims: seq<Claim>, id: ConfID)
    requires Learn(h, claims).Some?
    ensures KnownAs(h, claims, Learn(h, claims).value, id)
    decreases |claims|
  {
    if claims != [] {
      var c, rest := claims[0], claims[1..];
      var next, r := Remember(h, c.0, c.1).value, Learn(h, claims).value;
      LearnKnows(next, rest, id);
      forall i
        ensures ClaimedAt(claims, i + 1, id) <==> (ClaimedAt(rest, i, id) || (i == -1 && c.0 == id))
      {
      }
      assert ClaimedAt(claims, 0, id) <==> c.0 == id;
      if i :| ClaimedAt(rest, i, id) {
        assert ClaimedAt(claims, i + 1, id);
      }
      if i :| ClaimedAt(claims, i, id) {
        assert i > 0 ==> ClaimedAt(rest, i - 1, id);
      }
      if id in r && r[id].appliedBy.Some? {
        if i :| WinnerAt(rest, i, id, r[id].appliedBy) {
          assert WinnerAt(claims, i + 1, id, r[id].appliedBy);
        } else if !(id in h && h[id].appliedBy == r[id].appliedBy) {
          assert WinnerAt(claims, 0, id, r[id].appliedBy);
        }
      }
      if id in r {
        forall i | ClaimedAt(claims, i, id)
          ensures r[id].voters == claims[i].1.voters
          ensures claims[i].1.appliedBy.Some? ==> r[id].appliedBy == claims[i].1.appliedBy
        {
          assert i > 0 ==> ClaimedAt(rest, i - 1, id);
        }
      }
    }
  }

  // Floors and frontiers.

  ghost predicate UpdateAllowed(h: History, p: Progress, us: seq<Update>, i: int) {
    0 <= i < |us| ==>
      && (us[i].allocatorFloor != 0 ==>
            p.allocatorFloor <= us[i].allocatorFloor && forall j | 0 <= j < i ::
                us[j].allocatorFloor <= us[i].allocatorFloor)
      && (if i == 0 then p.toqClosed else us[i - 1].toqClosed) <= us[i].toqClosed
      && Fits(h, us[i].frontier) && FirstCovers(p, us[i]) && forall j :: EarlierCovered(us, j, i)
  }

  ghost predicate FirstCovers(p: Progress, u: Update) {
    u.frontier.conf in p.frontiers ==> Fence.Covers(p.frontiers[u.frontier.conf], u.frontier)
  }

  ghost predicate EarlierCovered(us: seq<Update>, j: int, i: int) {
    0 <= j < i < |us| && us[j].frontier.conf == us[i].frontier.conf ==> Fence.Covers(us[j].frontier, us[i].frontier)
  }

  ghost predicate UpdatesAllowed(h: History, p: Progress, us: seq<Update>) {
    forall i :: UpdateAllowed(h, p, us, i)
  }

  lemma AllowedBehind(h: History, p: Progress, us: seq<Update>, i: int)
    requires us != [] && Updated(h, p, us[0]).Some? && UpdateAllowed(h, p, us, i + 1) && i >= 0
    ensures UpdateAllowed(h, Updated(h, p, us[0]).value, us[1..], i)
  {
    var next, rest := Updated(h, p, us[0]).value, us[1..];
    if i < |rest| {
      assert rest[i] == us[i + 1];
      assert EarlierCovered(us, 0, i + 1);
      forall j
        ensures EarlierCovered(rest, j, i)
      {
        assert EarlierCovered(us, j + 1, i + 1);
      }
      forall j | 0 <= j < i
        ensures us[i + 1].allocatorFloor != 0 ==> rest[j].allocatorFloor <= rest[i].allocatorFloor
      {
        assert rest[j] == us[j + 1];
      }
    }
  }

  lemma AllowedAhead(h: History, p: Progress, us: seq<Update>, i: int)
    requires us != [] && Updated(h, p, us[0]).Some? && i >= 0
    requires UpdateAllowed(h, Updated(h, p, us[0]).value, us[1..], i)
    ensures UpdateAllowed(h, p, us, i + 1)
  {
    var next, rest := Updated(h, p, us[0]).value, us[1..];
    if i < |rest| {
      assert rest[i] == us[i + 1];
      if us[0].frontier.conf == us[i + 1].frontier.conf && us[0].frontier.conf in p.frontiers {
        CoversTransitive(p.frontiers[us[0].frontier.conf], us[0].frontier, us[i + 1].frontier);
      }
      var at := i + 1;
      forall j
        ensures EarlierCovered(us, j, at)
      {
        assert EarlierCovered(rest, j - 1, i);
      }
      forall j | 0 <= j < i + 1
        ensures us[i + 1].allocatorFloor != 0 ==> us[j].allocatorFloor <= us[i + 1].allocatorFloor
      {
        assert j > 0 ==> us[j] == rest[j - 1];
      }
    }
  }

  /** Updates are taken exactly when no floor falls and every frontier fits and covers those before it. */
  lemma {:induction false} UpdatesExact(h: History, p: Progress, us: seq<Update>)
    ensures UpdatedAll(h, p, us).Some? <==> UpdatesAllowed(h, p, us)
    decreases |us|
  {
    if us != [] {
      var next := Updated(h, p, us[0]);
      assert next.Some? <==> UpdateAllowed(h, p, us, 0) by {
        assert forall j :: EarlierCovered(us, j, 0);
      }
      if next.Some? {
        UpdatesExact(h, next.value, us[1..]);
        if UpdatesAllowed(h, p, us) {
          forall i
            ensures UpdateAllowed(h, next.value, us[1..], i)
          {
            if i >= 0 {
              assert UpdateAllowed(h, p, us, i + 1);
              AllowedBehind(h, p, us, i);
            }
          }
        }
        if UpdatesAllowed(h, next.value, us[1..]) {
          forall i
            ensures UpdateAllowed(h, p, us, i)
          {
            if i > 0 {
              assert UpdateAllowed(h, next.value, us[1..], i - 1);
              AllowedAhead(h, p, us, i - 1);
            }
          }
        }
      }
    }
  }

  ghost predicate LastOf(us: seq<Update>, i: int, id: ConfID) {
    0 <= i < |us| && us[i].frontier.conf == id && forall j | i < j < |us| :: us[j].frontier.conf != id
  }

  /** The stored frontier of a configuration is its last update, and without one it stays. */
  ghost predicate LastKept(p: Progress, us: seq<Update>, r: Progress, id: ConfID) {
    && (forall i | LastOf(us, i, id) :: id in r.frontiers && r.frontiers[id] == us[i].frontier)
    && ((forall i :: !LastOf(us, i, id)) ==>
          (id in r.frontiers <==> id in p.frontiers) && (id in p.frontiers ==> r.frontiers[id] == p.frontiers[id]))
  }

  lemma LastOfBehind(us: seq<Update>, i: int, id: ConfID)
    requires us != []
    ensures i >= 0 ==> (LastOf(us[1..], i, id) <==> LastOf(us, i + 1, id))
  {
    var rest := us[1..];
    assert forall j | 0 <= j < |rest| :: rest[j] == us[j + 1];
    if i >= 0 && LastOf(rest, i, id) {
      forall j | i + 1 < j < |us|
        ensures us[j].frontier.conf != id
      {
        assert rest[j - 1].frontier.conf != id;
      }
    }
  }

  lemma {:induction false} SomeLast(us: seq<Update>, k: int, id: ConfID) returns (i: int)
    requires 0 <= k < |us| && us[k].frontier.conf == id
    ensures LastOf(us, i, id)
    decreases |us| - k
  {
    if j :| k < j < |us| && us[j].frontier.conf == id {
      i := SomeLast(us, j, id);
    } else {
      i := k;
    }
  }

  lemma {:induction false} UpdatesKeep(h: History, p: Progress, us: seq<Update>, id: ConfID)
    requires UpdatedAll(h, p, us).Some?
    ensures LastKept(p, us, UpdatedAll(h, p, us).value, id)
    decreases |us|
  {
    if us != [] {
      var next, rest, r := Updated(h, p, us[0]).value, us[1..], UpdatedAll(h, p, us).value;
      UpdatesKeep(h, next, rest, id);
      forall i | LastOf(us, i, id)
        ensures id in r.frontiers && r.frontiers[id] == us[i].frontier
      {
        if i > 0 {
          LastOfBehind(us, i - 1, id);
        } else {
          NoneBehind(us, id);
        }
      }
      if forall i :: !LastOf(us, i, id) {
        forall i
          ensures !LastOf(rest, i, id)
        {
          if i >= 0 {
            LastOfBehind(us, i, id);
          }
        }
        if us[0].frontier.conf == id {
          var i := SomeLast(us, 0, id);
        }
      }
    }
  }

  lemma NoneBehind(us: seq<Update>, id: ConfID)
    requires LastOf(us, 0, id)
    ensures forall i :: !LastOf(us[1..], i, id)
  {
    forall i
      ensures !LastOf(us[1..], i, id)
    {
      if i >= 0 {
        LastOfBehind(us, i, id);
      }
    }
  }

  function HighestFloor(floor: nat, us: seq<Update>): nat
    decreases |us|
  {
    if us == [] then floor else HighestFloor(Max(floor, us[0].allocatorFloor), us[1..])
  }

  lemma {:induction false} HighestIs(floor: nat, us: seq<Update>)
    ensures floor <= HighestFloor(floor, us) && forall u <- us :: u.allocatorFloor <= HighestFloor(floor, us)
    ensures HighestFloor(floor, us) == floor || exists u <- us :: u.allocatorFloor == HighestFloor(floor, us)
    decreases |us|
  {
    if us != [] {
      HighestIs(Max(floor, us[0].allocatorFloor), us[1..]);
      assert us == [us[0]] + us[1..];
    }
  }

  /** The floors: the highest one asked for, and the last closed one. */
  lemma {:induction false} UpdatesFloors(h: History, p: Progress, us: seq<Update>)
    requires UpdatedAll(h, p, us).Some?
    ensures UpdatedAll(h, p, us).value.allocatorFloor == HighestFloor(p.allocatorFloor, us)
    ensures UpdatedAll(h, p, us).value.toqClosed == if us == [] then p.toqClosed else us[|us| - 1].toqClosed
    decreases |us|
  {
    if us != [] {
      UpdatesFloors(h, Updated(h, p, us[0]).value, us[1..]);
    }
  }

  // The whole batch.

  /** The prefix of a lane, zero when the lane is not listed. */
  function Prefix(e: Execution, lane: Lane): nat {
    if lane in e then e[lane] else 0
  }

  ghost predicate NoFurther(a: Execution, b: Execution, lane: Lane) {
    Prefix(a, lane) <= Prefix(b, lane)
  }

  ghost predicate Within(a: Execution, b: Execution) {
    forall lane :: NoFurther(a, b, lane)
  }

  lemma GrowsIsWithin(a: Execution, b: Execution)
    ensures Grows(a, b) <==> Within(a, b)
  {
    if Grows(a, b) {
      forall lane
        ensures NoFurther(a, b, lane)
      {
        assert lane in a ==> GrowsAt(a, b, lane);
      }
    }
    if Within(a, b) {
      forall lane <- a
        ensures GrowsAt(a, b, lane)
      {
        assert NoFurther(a, b, lane);
      }
    }
  }

  /** An executed record may only raise its promise or gain a result; any other may not go back. */
  predicate Replaceable(a: Record, b: Record) {
    if a.status != EXECUTED then a.status <= b.status && !b.ballot.Less(a.ballot)
    else
      || (b == a.(ballot := b.ballot) && !b.ballot.Less(a.ballot))
      || (a.result.Unset? && b == a.(result := b.result, rest := b.rest))
  }

  ghost predicate ReplaceableAt(s: State, rd: Ready, i: int) {
    LastAt(rd.records, i) && rd.records[i].0 in s.records ==> Replaceable(s.records[rd.records[i].0], rd.records[i].1)
  }

  /** The write is above what is compacted. */
  ghost predicate AboveAt(s: State, rd: Ready, i: int) {
    0 <= i < |rd.records| ==>
      var lane := LaneFor(rd.records[i].0);
      lane in Compacted(s.checkpoint) ==> rd.records[i].0.inst > Compacted(s.checkpoint)[lane]
  }

  function Asked(s: State, rd: Ready): Progress {
    s.progress.(allocatorFloor := if rd.allocatorFloor == 0 then s.progress.allocatorFloor else rd.allocatorFloor)
  }

  ghost predicate SnapshotAllowed(s: State, rd: Ready) {
    rd.snapshot.Some? ==>
      var next := rd.snapshot.value;
      && (rd.installs ==> next.certified) && Within(next.compacted, next.through)
      && (s.checkpoint.Some? ==>
            var c := s.checkpoint.value;
            && Within(c.through, next.through) && Within(c.compacted, next.compacted)
            && (c.id == next.id && c.certified ==> next.certified))
  }

  function Standing(s: State, rd: Ready): Option<Checkpoint> {
    if rd.snapshot.Some? then rd.snapshot else s.checkpoint
  }

  ghost predicate RangeAt(c: Checkpoint, ranges: Execution, lane: Lane) {
    && (lane in ranges <==> Prefix(c.through, lane) > 0)
    && (lane in ranges ==> ranges[lane] == c.through[lane])
  }

  /** Only a certified checkpoint is compacted, and all of it at once. */
  ghost predicate CompactionAllowed(s: State, rd: Ready) {
    rd.compact != map[] ==>
      && Standing(s, rd).Some? && Standing(s, rd).value.certified
      && forall lane :: RangeAt(Standing(s, rd).value, rd.compact, lane)
  }

  /** The batches that are accepted. */
  ghost predicate Acceptable(s: State, rd: Ready) {
    && (s.hard.Some? && rd.hard.Some? ==>
          s.hard.value.tick <= rd.hard.value.tick && s.hard.value.conf <= rd.hard.value.conf)
    && Rising(rd.history) && Consistent(s.history, Claims(s, rd))
    && (forall i :: ReplaceableAt(s, rd, i)) && (forall i :: AboveAt(s, rd, i))
    && (rd.allocatorFloor != 0 ==> s.progress.allocatorFloor <= rd.allocatorFloor)
    && (Learn(s.history, Claims(s, rd)).Some? ==>
          UpdatesAllowed(Learn(s.history, Claims(s, rd)).value, Asked(s, rd), rd.updates))
    && SnapshotAllowed(s, rd) && CompactionAllowed(s, rd)
  }

  /** What is read at a reference: its last write, or what was stored, unless it is compacted. */
  ghost predicate ReadsAs(s: State, rd: Ready, t: State, ref: InstanceRef) {
    && (Gone(t, ref) ==> Load(t, ref).None?)
    && (!Gone(t, ref) ==>
          && (forall i | LastAt(rd.records, i) && rd.records[i].0 == ref :: Load(t, ref) == Some(rd.records[i].1))
          && (!Mentions(rd.records, ref) ==> Load(t, ref) == if ref in s.records then Some(s.records[ref]) else None))
    && (rd.compact != map[] && Gone(t, ref) ==> ref !in t.records)
  }

  /** What an accepted batch leaves. */
  ghost predicate Leaves(s: State, rd: Ready, t: State) {
    && t.hard == (if rd.hard.Some? then rd.hard else s.hard)
    && (forall id: ConfID :: KnownAs(s.history, Claims(s, rd), t.history, id))
    && (forall id: ConfID :: LastKept(s.progress, rd.updates, t.progress, id))
    && t.progress.allocatorFloor == HighestFloor(Asked(s, rd).allocatorFloor, rd.updates)
    && t.progress.toqClosed
        == (if rd.updates == [] then s.progress.toqClosed else rd.updates[|rd.updates| - 1].toqClosed)
    && (rd.compact == map[] ==> t.checkpoint == Standing(s, rd))
    && (rd.compact != map[] ==>
          Standing(s, rd).Some?
          && t.checkpoint == Some(Standing(s, rd).value.(compacted := Standing(s, rd).value.through)))
    && forall ref :: ReadsAs(s, rd, t, ref)
  }

  lemma CheckpointExact(s: State, rd: Ready)
    ensures Advanced(s.checkpoint, rd).Some? <==> SnapshotAllowed(s, rd) && CompactionAllowed(s, rd)
  {
    if rd.snapshot.Some? {
      var next := rd.snapshot.value;
      GrowsIsWithin(next.compacted, next.through);
      if s.checkpoint.Some? {
        GrowsIsWithin(s.checkpoint.value.through, next.through);
        GrowsIsWithin(s.checkpoint.value.compacted, next.compacted);
      }
    }
    var c := Standing(s, rd);
    if c.Some? {
      RangesExact(c.value, rd.compact);
    }
  }

  lemma RangesExact(c: Checkpoint, ranges: Execution)
    ensures ranges == Ranges(c.through) <==> forall lane :: RangeAt(c, ranges, lane)
  {
    var all := Ranges(c.through);
    if forall lane :: RangeAt(c, ranges, lane) {
      forall lane
        ensures (lane in ranges <==> lane in all) && (lane in ranges ==> ranges[lane] == all[lane])
      {
        assert RangeAt(c, ranges, lane);
      }
    }
  }

  lemma WritesExact(s: State, rd: Ready)
    ensures WritesAllowed(s.records, rd.records) <==> forall i :: ReplaceableAt(s, rd, i)
    ensures AboveCompaction(s, rd.records) <==> forall i :: AboveAt(s, rd, i)
  {
    forall i
      ensures WriteAllowed(s.records, rd.records, i) <==> ReplaceableAt(s, rd, i)
    {
      if 0 <= i < |rd.records| && rd.records[i].0 in s.records {
        ReplaceExact(s.records[rd.records[i].0], rd.records[i].1);
      }
    }
    if AboveCompaction(s, rd.records) {
      forall i
        ensures AboveAt(s, rd, i)
      {
        assert 0 <= i < |rd.records| ==> rd.records[i] in rd.records;
      }
    }
    if forall i :: AboveAt(s, rd, i) {
      forall w <- rd.records
        ensures !Covered(Compacted(s.checkpoint), w.0)
      {
        var i :| 0 <= i < |rd.records| && rd.records[i] == w;
        assert AboveAt(s, rd, i);
      }
    }
  }

  lemma ReplaceExact(a: Record, b: Record)
    ensures MayReplace(a, b) <==> Replaceable(a, b)
  {
  }

  /** A batch is accepted if and only if it takes nothing back and contradicts nothing. */
  lemma AcceptedExactly(s: State, rd: Ready)
    ensures Apply(s, rd).Some? <==> Acceptable(s, rd)
  {
    HistoryLearns(s, rd);
    LearnExact(s.history, Claims(s, rd));
    WritesExact(s, rd);
    CheckpointExact(s, rd);
    if Learn(s.history, Claims(s, rd)).Some? {
      UpdatesExact(Learn(s.history, Claims(s, rd)).value, Asked(s, rd), rd.updates);
    }
  }

  /** An accepted batch leaves in every field what it asked for, and elsewhere what was there. */
  lemma AcceptedLeaves(s: State, rd: Ready)
    requires Apply(s, rd).Some?
    ensures Leaves(s, rd, Apply(s, rd).value)
  {
    var t := Apply(s, rd).value;
    HistoryLearns(s, rd);
    forall id: ConfID
      ensures KnownAs(s.history, Claims(s, rd), t.history, id) && LastKept(s.progress, rd.updates, t.progress, id)
    {
      LearnKnows(s.history, Claims(s, rd), id);
      UpdatesKeep(t.history, Asked(s, rd), rd.updates, id);
    }
    UpdatesFloors(t.history, Asked(s, rd), rd.updates);
    forall ref
      ensures ReadsAs(s, rd, t, ref)
    {
      RecordsRead(s, rd, ref);
    }
  }

  lemma RecordsRead(s: State, rd: Ready, ref: InstanceRef)
    requires Apply(s, rd).Some?
    ensures ReadsAs(s, rd, Apply(s, rd).value, ref)
  {
    WrittenAt(s.records, s.records, rd.records, ref);
    forall i | LastAt(rd.records, i) && rd.records[i].0 == ref
      ensures ref in Written(s.records, rd.records) && Written(s.records, rd.records)[ref] == rd.records[i].1
    {
      LastWritten(s.records, rd.records, i);
    }
  }
}
