/**
 What execution looks at: committed records, the executed tracker, the pruned dependency graph,
 component readiness, and the order inside a component.
 */
module Execution {
  import opened Types
  import opened ByteOrder
  import opened Graph
  import F = Footprint

  datatype Status = Unknown | PreAccepted | Accepted | Committed | Executed {
    predicate Final() {
      Committed? || Executed?
    }
  }

  datatype Kind = Unset | Application | Noop | ConfChange | Membership | Checkpoint

  datatype Record = Record(
    status: Status,
    seqNo: U64,
    deps: seq<InstanceNum>,
    kind: Kind,
    cycleKey: Bytes,
    footprint: F.Footprint)

  type Instances = map<InstanceRef, Record>
  type Confs = map<ConfID, seq<ReplicaID>>

  /** The executed set: a fully executed prefix per lane and exact entries above it. */
  datatype Tracker = Tracker(exact: set<InstanceRef>, through: map<Lane, InstanceNum>) {
    function Prefix(lane: Lane): InstanceNum {
      if lane in through then through[lane] else 0
    }

    predicate Contains(ref: InstanceRef) {
      ref.inst != 0 && (ref.inst <= Prefix(LaneFor(ref)) || ref in exact)
    }

    /** through is the longest executed prefix of every lane. */
    ghost predicate Maximal() {
      forall lane: Lane :: MaximalAt(lane)
    }

    ghost predicate MaximalAt(lane: Lane) {
      Prefix(lane) == MAX_U64 || RefIn(lane, Prefix(lane) + 1) !in exact
    }
  }

  datatype State = State(instances: Instances, executed: Tracker, confs: Confs)

  function Voters(confs: Confs, conf: ConfID): seq<ReplicaID> {
    if conf in confs then confs[conf] else []
  }

  predicate Distinct(voters: seq<ReplicaID>) {
    forall i, j | 0 <= i < j < |voters| :: voters[i] != voters[j]
  }

  /** Instance numbers start at one; voters of a configuration are distinct. */
  predicate WellFormed(s: State) {
    && (forall ref <- s.instances :: ref.inst != 0)
    && (forall conf <- s.confs :: Distinct(s.confs[conf]))
  }

  /** ConfState.Index: the dependency slot of a replica. */
  function Index(voters: seq<ReplicaID>, id: ReplicaID): (slot: Option<nat>)
    ensures slot.Some? ==> slot.value < |voters| && voters[slot.value] == id
    ensures slot.None? ==> id !in voters
  {
    if voters == [] then None
    else if voters[0] == id then Some(0)
    else match Index(voters[1..], id)
         case None => None
         case Some(i) => Some(i + 1)
  }

  /** other lies inside one of the compact dependency prefixes. */
  predicate Covers(voters: seq<ReplicaID>, deps: seq<InstanceNum>, other: InstanceRef) {
    exists slot | 0 <= slot < |deps| && slot < |voters| :: voters[slot] == other.replica && other.inst <= deps[slot]
  }

  /** The sequence-number and dependency half of dependencyKnownAfter. */
  predicate After(voters: seq<ReplicaID>, base: InstanceRef, baseRec: Record, otherRec: Record) {
    && baseRec.seqNo < otherRec.seqNo
    && var slot := Index(voters, base.replica);
       slot.Some? && slot.value < |otherRec.deps| && base.inst <= otherRec.deps[slot.value]
  }

  predicate AtLeast(status: Status, min: Status) {
    match min
    case Unknown => true
    case PreAccepted => !status.Unknown?
    case Accepted => status.Accepted? || status.Final()
    case Committed => status.Final()
    case Executed => status.Executed?
  }

  /** dependencyKnownAfter: other follows base by sequence number and depends back on it. */
  predicate KnownAfter(s: State, base: InstanceRef, other: InstanceRef, min: Status) {
    && base.conf == other.conf && base in s.instances && other in s.instances
    && AtLeast(s.instances[other].status, min)
    && After(Voters(s.confs, base.conf), base, s.instances[base], s.instances[other])
  }

  predicate IsFinal(s: State, ref: InstanceRef) {
    ref in s.instances && s.instances[ref].status.Final()
  }

  /** base depends on other and the edge is not pruned. */
  predicate RetainedBetween(voters: seq<ReplicaID>, base: InstanceRef, baseRec: Record, other: InstanceRef,
                            otherRec: Record) {
    && base != other && base.conf == other.conf
    && Covers(voters, baseRec.deps, other)
    && !(After(voters, base, baseRec, otherRec) && !baseRec.kind.Checkpoint? && !otherRec.kind.Checkpoint?)
  }

  predicate Retained(s: State, base: InstanceRef, other: InstanceRef) {
    && IsFinal(s, base) && IsFinal(s, other)
    && RetainedBetween(Voters(s.confs, base.conf), base, s.instances[base], other, s.instances[other])
  }

  /** The vertices of the traversal: committed and not executed. */
  predicate Pending(s: State, ref: InstanceRef) {
    IsFinal(s, ref) && !s.executed.Contains(ref)
  }

  ghost function PendingGraph(s: State): Graph {
    map u | u in s.instances && Pending(s, u) :: set v | v in s.instances && Pending(s, v) && Retained(s, u, v)
  }

  /** The retained edges among all committed records, executed ones included. */
  ghost function FinalGraph(s: State): Graph {
    map u | u in s.instances && IsFinal(s, u) :: set v | v in s.instances && Retained(s, u, v)
  }

  /** A prefix slot that does not hold up the execution of base together with inside. */
  predicate Discharged(s: State, base: InstanceRef, ref: InstanceRef, inside: set<InstanceRef>) {
    || ref == base || ref in inside || s.executed.Contains(ref)
    || KnownAfter(s, base, ref, Committed)
  }

  ghost predicate LaneDischarged(s: State, base: InstanceRef, lane: Lane, through: InstanceNum,
                                 inside: set<InstanceRef>) {
    forall i: InstanceNum | 1 <= i <= through :: Discharged(s, base, RefIn(lane, i), inside)
  }

  /** Every dependency prefix of base is discharged. */
  ghost predicate PrefixesDischarged(s: State, base: InstanceRef, inside: set<InstanceRef>) {
    base in s.instances &&
    var voters := Voters(s.confs, base.conf);
    forall slot | 0 <= slot < |s.instances[base].deps| && slot < |voters| ::
      LaneDischarged(s, base, Lane(base.conf, voters[slot]), s.instances[base].deps[slot], inside)
  }

  predicate GlobalScope(rec: Record) {
    || rec.kind.ConfChange? || rec.kind.Membership? || rec.kind.Checkpoint?
    || (rec.kind.Application? && rec.footprint.all)
  }

  predicate RecordsConflict(a: Record, b: Record) {
    && !a.kind.Noop? && !b.kind.Noop? && !a.kind.Unset? && !b.kind.Unset?
    && (GlobalScope(a) || GlobalScope(b) || F.Conflict(a.footprint, b.footprint))
  }

  /** A known, undecided, conflicting instance that is not already ordered after base. */
  predicate UnresolvedConflict(s: State, base: InstanceRef, other: InstanceRef, inside: set<InstanceRef>) {
    && base in s.instances && other in s.instances && other != base
    && other !in inside && !s.executed.Contains(other)
    && !s.instances[other].status.Unknown? && !s.instances[other].status.Final()
    && RecordsConflict(s.instances[base], s.instances[other])
    && !KnownAfter(s, base, other, PreAccepted)
  }

  ghost predicate Ready(s: State, component: seq<InstanceRef>) {
    var inside := set x | x in component;
    forall base <- component :: MemberReady(s, base, inside)
  }

  ghost predicate MemberReady(s: State, base: InstanceRef, inside: set<InstanceRef>) {
    PrefixesDischarged(s, base, inside) && forall other :: !UnresolvedConflict(s, base, other, inside)
  }

  /** The order inside a component: Seq, then CycleKey, then reference. */
  predicate Before(a: InstanceRef, aRec: Record, b: InstanceRef, bRec: Record) {
    if aRec.seqNo != bRec.seqNo then aRec.seqNo < bRec.seqNo
    else if CycleKey(aRec) != CycleKey(bRec) then Less(CycleKey(aRec), CycleKey(bRec))
    else LessRef(a, b)
  }

  function CycleKey(rec: Record): Bytes {
    if rec.kind.Application? then rec.cycleKey else []
  }

  ghost predicate InOrder(instances: Instances, component: seq<InstanceRef>) {
    && (forall x <- component :: x in instances)
    && forall i, j | 0 <= i < j < |component| ::
         Before(component[i], instances[component[i]], component[j], instances[component[j]])
  }

  lemma BeforeTransitive(a: InstanceRef, aRec: Record, b: InstanceRef, bRec: Record, c: InstanceRef, cRec: Record)
    requires Before(a, aRec, b, bRec) && Before(b, bRec, c, cRec)
    ensures Before(a, aRec, c, cRec)
  {
    OrderLaws(CycleKey(aRec), CycleKey(bRec), CycleKey(cRec));
    LessTrichotomy(CycleKey(aRec), CycleKey(cRec));
  }

  lemma BeforeTotal(a: InstanceRef, aRec: Record, b: InstanceRef, bRec: Record)
    requires a != b
    ensures Before(a, aRec, b, bRec) <==> !Before(b, bRec, a, aRec)
  {
    LessTrichotomy(CycleKey(aRec), CycleKey(bRec));
  }

  /** With distinct voters, dependencyKnownAfter says exactly: higher Seq, and other covers base. */
  lemma AfterIsCover(voters: seq<ReplicaID>, base: InstanceRef, baseRec: Record, otherRec: Record)
    requires Distinct(voters)
    ensures After(voters, base, baseRec, otherRec) <==>
            baseRec.seqNo < otherRec.seqNo && Covers(voters, otherRec.deps, base)
  {
    var slot := Index(voters, base.replica);
    if Covers(voters, otherRec.deps, base) {
      var k :| 0 <= k < |otherRec.deps| && k < |voters| && voters[k] == base.replica && base.inst <= otherRec.deps[k];
      assert slot.Some?;
      assert slot.value == k;
    }
  }

  /** Of two committed instances, one depending on the other, at least one direction is retained. */
  lemma SomeEdgeRetained(voters: seq<ReplicaID>, a: InstanceRef, aRec: Record, b: InstanceRef, bRec: Record)
    requires Distinct(voters) && a != b && a.conf == b.conf
    requires Covers(voters, aRec.deps, b)
    ensures RetainedBetween(voters, a, aRec, b, bRec) || RetainedBetween(voters, b, bRec, a, aRec)
  {
    AfterIsCover(voters, a, aRec, bRec);
    AfterIsCover(voters, b, bRec, aRec);
  }
}
