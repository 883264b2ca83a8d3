/** Identifiers and the ballot order shared by every component. */
module Types {

  const MAX_U64: nat := 0xFFFF_FFFF_FFFF_FFFF

  type U64 = n: nat | n <= MAX_U64

  type ReplicaID = U64
  type InstanceNum = U64
  type ConfID = U64

  /** The globally unique name of an instance. */
  datatype InstanceRef = InstanceRef(replica: ReplicaID, inst: InstanceNum, conf: ConfID) {
    predicate IsZero() {
      replica == 0 && inst == 0 && conf == 0
    }
  }

  /** One replica's instance space inside one configuration. */
  datatype Lane = Lane(conf: ConfID, replica: ReplicaID)

  function LaneFor(ref: InstanceRef): Lane {
    Lane(ref.conf, ref.replica)
  }

  function RefIn(lane: Lane, inst: InstanceNum): InstanceRef {
    InstanceRef(lane.replica, inst, lane.conf)
  }

  /** lessRef: configuration, then replica, then instance number. */
  predicate LessRef(a: InstanceRef, b: InstanceRef) {
    if a.conf != b.conf then a.conf < b.conf
    else if a.replica != b.replica then a.replica < b.replica
    else a.inst < b.inst
  }

  datatype Option<+T> = None | Some(value: T)
}
