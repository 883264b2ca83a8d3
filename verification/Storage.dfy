/** What a durable batch does to the stored state: it is refused, or the next state is determined. */
module Storage {
  import opened Types
  import opened Ballots
  import Configuration
  import Fence

  type Voters = Configuration.Voters

  /** A configuration with the instance that made it, where known. */
  datatype Entry = Entry(voters: Voters, appliedBy: Option<InstanceRef>)

  type History = map<ConfID, Entry>

  datatype Hard = Hard(tick: nat, conf: ConfID, voters: Voters)

  /** The outcome a configuration command stored with its record. */
  datatype Result = Unset | Applied(conf: ConfID, voters: Voters) | Settled(outcome: nat)

  const EXECUTED := 4

  /** status runs from none (0) to executed; rest stands for every field no rule mentions. */
  datatype Record = Record(
    status: nat, ballot: Ballot, recordBallot: Ballot, seqNo: nat, deps: seq<nat>, command: nat, result: Result,
        rest: nat)

  type Write = (InstanceRef, Record)

  datatype Update = Update(frontier: Fence.Frontier, allocatorFloor: nat, toqClosed: nat)

  /** The executed prefix of each lane. */
  type Execution = map<Lane, nat>

  datatype Checkpoint = Checkpoint(id: nat, certified: bool, through: Execution, compacted: Execution)

  type Frontiers = map<ConfID, Fence.Frontier>

  datatype Progress = Progress(frontiers: Frontiers, allocatorFloor: nat, toqClosed: nat)

  datatype State = State(
    hard: Option<Hard>, history: History, records: map<InstanceRef, Record>, progress: Progress,
        checkpoint: Option<Checkpoint>)

  /** An absent hard state or snapshot, a zero floor and no ranges to compact ask for nothing. */
  datatype Ready = Ready(
    hard: Option<Hard>, history: seq<(ConfID, Entry)>, records: seq<Write>, updates: seq<Update>, allocatorFloor: nat,
    snapshot: Option<Checkpoint>, installs: bool, compact: Execution)

  // Execution frontiers.

  /** frontierCovers. */
  predicate Covered(e: Execution, ref: InstanceRef) {
    LaneFor(ref) in e && ref.inst <= e[LaneFor(ref)]
  }

  predicate GrowsAt(a: Execution, b: Execution, lane: Lane) {
    lane in a && a[lane] != 0 ==> lane in b && a[lane] <= b[lane]
  }

  /** Not frontierRegressesExecution. */
  predicate Grows(a: Execution, b: Execution) {
    forall lane <- a :: GrowsAt(a, b, lane)
  }

  function Compacted(c: Option<Checkpoint>): Execution {
    if c.Some? then c.value.compacted else map[]
  }

  // The configuration history.

  /** validateConfigHistoryEntry. */
  ghost predicate Complete(id: ConfID, e: Entry) {
    id != 0 && Configuration.Canonical(e.voters) && (e.appliedBy.Some? ==> e.appliedBy.value.conf + 1 == id)
  }

  /** configHistoryEntryCompatible. */
  predicate Compatible(a: Entry, b: Entry) {
    a.voters == b.voters && (a.appliedBy.None? || b.appliedBy.None? || a.appliedBy == b.appliedBy)
  }

  /** remember: a known configuration must agree, and may only gain its winner. */
  ghost function Remember(h: History, id: ConfID, e: Entry): Option<History> {
    if !Complete(id, e) then None
    else if id !in h then Some(h[id := e])
    else if !Compatible(h[id], e) then None
    else Some(h[id := if h[id].appliedBy.None? then h[id].(appliedBy := e.appliedBy) else h[id]])
  }

  ghost function RememberAll(h: History, entries: seq<(ConfID, Entry)>): Option<History>
    decreases |entries|
  {
    if entries == [] then Some(h)
    else if |entries| > 1 && entries[0].0 >= entries[1].0 then None
    else
      var next := Remember(h, entries[0].0, entries[0].1);
      if next.None? then None else RememberAll(next.value, entries[1..])
  }

  ghost function RememberHard(h: History, hard: Option<Hard>): Option<History> {
    if hard.None? then Some(h) else Remember(h, hard.value.conf, Entry(hard.value.voters, None))
  }

  // Records.

  /** terminalRecordPromiseUpdate: an executed record may raise its promise and nothing else. */
  predicate PromiseUpdate(a: Record, b: Record) {
    a.ballot.Less(b.ballot) && b == a.(ballot := b.ballot)
  }

  /** terminalRecordMigration: an executed record without a result may gain one. */
  predicate Migration(a: Record, b: Record) {
    a.result.Unset? && b == a.(result := b.result, rest := b.rest)
  }

  /** What a batch may write over a stored record. */
  predicate MayReplace(a: Record, b: Record) {
    && a.status <= b.status && (a.ballot.Less(b.ballot) || a.ballot == b.ballot)
    && (a.status == EXECUTED ==> a == b || PromiseUpdate(a, b) || Migration(a, b))
  }

  predicate Mentions(writes: seq<Write>, ref: InstanceRef) {
    exists i | 0 <= i < |writes| :: writes[i].0 == ref
  }

  /** The last write to each reference must be allowed; the configurations they made are remembered. */
  ghost function Settle(stored: map<InstanceRef, Record>, h: History, writes: seq<Write>): Option<History>
    decreases |writes|
  {
    if writes == [] then Some(h)
    else
      var (ref, rec) := writes[0];
      if Mentions(writes[1..], ref) then Settle(stored, h, writes[1..])
      else if ref in stored && !MayReplace(stored[ref], rec) then None
      else
        var next := RememberResult(h, ref, rec);
        if next.None? then None else Settle(stored, next.value, writes[1..])
  }

  ghost function RememberResult(h: History, ref: InstanceRef, rec: Record): Option<History> {
    if !rec.result.Applied? then Some(h) else Remember(h, rec.result.conf, Entry(rec.result.voters, Some(ref)))
  }

  function Written(stored: map<InstanceRef, Record>, writes: seq<Write>): map<InstanceRef, Record>
    decreases |writes|
  {
    if writes == [] then stored else Written(stored[writes[0].0 := writes[0].1], writes[1..])
  }

  function Kept(stored: map<InstanceRef, Record>, e: Execution): map<InstanceRef, Record> {
    map ref | ref in stored && !Covered(e, ref) :: stored[ref]
  }

  // Bootstrap frontiers and floors.

  ghost predicate Fits(h: History, f: Fence.Frontier) {
    f.conf in h && Fence.Sound(f, Fence.Base(f.conf, h[f.conf].voters)) && Fence.Small(f)
  }

  function Max(a: nat, b: nat): nat {
    if a > b then a else b
  }

  ghost function Updated(h: History, p: Progress, u: Update): Option<Progress> {
    if u.allocatorFloor != 0 && u.allocatorFloor < p.allocatorFloor then None
    else if u.toqClosed < p.toqClosed || !Fits(h, u.frontier) then None
    else if u.frontier.conf in p.frontiers && !Fence.Covers(p.frontiers[u.frontier.conf], u.frontier) then None
    else Some(Progress(p.frontiers[u.frontier.conf := u.frontier], Max(p.allocatorFloor, u.allocatorFloor),
                       u.toqClosed))
  }

  ghost function UpdatedAll(h: History, p: Progress, updates: seq<Update>): Option<Progress>
    decreases |updates|
  {
    if updates == [] then Some(p)
    else
      var next := Updated(h, p, updates[0]);
      if next.None? then None else UpdatedAll(h, next.value, updates[1..])
  }

  function Floored(p: Progress, floor: nat): Option<Progress> {
    if floor == 0 then Some(p)
    else if p.allocatorFloor != 0 && floor < p.allocatorFloor then None
    else Some(p.(allocatorFloor := floor))
  }

  // Checkpoints.

  predicate MayInstall(old_: Option<Checkpoint>, next: Checkpoint, installs: bool) {
    && (installs ==> next.certified) && Grows(next.compacted, next.through)
    && (old_.Some? ==>
          && Grows(old_.value.through, next.through) && Grows(old_.value.compacted, next.compacted)
          && (old_.value.id == next.id && old_.value.certified ==> next.certified))
  }

  /** canonicalCompactionRanges: the nonempty prefixes. */
  function Ranges(e: Execution): Execution {
    map lane | lane in e && e[lane] != 0 :: e[lane]
  }

  /** The checkpoint after the batch; None when it is refused. */
  function Advanced(old_: Option<Checkpoint>, rd: Ready): Option<Option<Checkpoint>> {
    if rd.snapshot.Some? && !MayInstall(old_, rd.snapshot.value, rd.installs) then None
    else
      var c := if rd.snapshot.Some? then rd.snapshot else old_;
      if rd.compact == map[] then Some(c)
      else if c.None? || !c.value.certified || rd.compact != Ranges(c.value.through) then None
      else Some(Some(c.value.(compacted := c.value.through)))
  }

  // The whole batch.

  predicate HardAllowed(old_: Option<Hard>, next: Option<Hard>) {
    old_.Some? && next.Some? ==> old_.value.tick <= next.value.tick && old_.value.conf <= next.value.conf
  }

  /** The history after the batch's configurations, hard state and records. */
  ghost function HistoryAfter(s: State, rd: Ready): Option<History> {
    var first := RememberHard(s.history, s.hard);
    if first.None? then None
    else
      var listed := RememberAll(first.value, rd.history);
      if listed.None? || !HardAllowed(s.hard, rd.hard) then None
      else
        var hard := RememberHard(listed.value, rd.hard);
        if hard.None? then None else Settle(s.records, hard.value, rd.records)
  }

  predicate AboveCompaction(s: State, writes: seq<Write>) {
    forall w <- writes :: !Covered(Compacted(s.checkpoint), w.0)
  }

  ghost function ProgressAfter(h: History, p: Progress, rd: Ready): Option<Progress> {
    var floored := Floored(p, rd.allocatorFloor);
    if floored.None? then None else UpdatedAll(h, floored.value, rd.updates)
  }

  /** applyReadyValidated: the next state, or None when the batch is refused. */
  ghost function Apply(s: State, rd: Ready): Option<State> {
    var h := HistoryAfter(s, rd);
    if h.None? || !AboveCompaction(s, rd.records) then None
    else
      var p, c := ProgressAfter(h.value, s.progress, rd), Advanced(s.checkpoint, rd);
      if p.None? || c.None? then None
      else
        var records := Written(s.records, rd.records);
        Some(State(
               if rd.hard.Some? then rd.hard else s.hard, h.value,
               if rd.compact == map[] then records else Kept(records, Compacted(c.value)), p.value, c.value))
  }

  /** LoadInstance. */
  function Load(s: State, ref: InstanceRef): Option<Record> {
    if Covered(Compacted(s.checkpoint), ref) || ref !in s.records then None else Some(s.records[ref])
  }
}
