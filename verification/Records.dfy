/** The records the control plane replicates and schedules.

    Identifiers are strings, instants are integers counting nanoseconds, and an instant that the
    program may leave at its zero value is an `Option<Time>`.  The sandbox specification is reduced
    to its name, the kind of its root image and its mounts.
 */
module Records {

  datatype Option<+T> = None | Some(value: T)

  type Time = int

  const SECOND: Time := 1_000_000_000

  /** A map from label to label value. */
  type Labels = map<string, string>

  // ---------------------------------------------------------------- nodes

  datatype Role = Worker | Manager

  datatype Membership = Accepted | Pending | OtherMembership(text: string)

  datatype Availability = Unset | Active | Pause | Drain | OtherAvailability(text: string) {

    /** An unset availability reads as active. */
    function Effective(): Availability {
      if Unset? then Active else this
    }

    /** Whether new sandboxes may be placed here. */
    predicate Schedulable() {
      !Effective().Pause? && !Effective().Drain?
    }
  }

  datatype Node = Node(
    id: string,
    role: Role,
    membership: Membership,
    availability: Availability,
    labels: Labels,
    grpcAddr: string,
    heartbeatAt: Option<Time>,
    sandboxCount: int)

  // ---------------------------------------------------------------- sandboxes

  datatype DesiredState = DesiredRunning | DesiredStopped | DesiredRemoved | DesiredOther(text: string)

  datatype Phase =
    PhaseCreated | PhaseStarting | PhaseRunning | PhaseStopping | PhaseStopped | PhaseFailed

  datatype ImageKind = OciImage | BindImage | DiskImage

  datatype MountKind = BindMount | NamedMount | TmpfsMount | DiskImageMount

  datatype Mount = Mount(kind: MountKind, name: string)

  datatype Spec = Spec(name: string, image: ImageKind, mounts: seq<Mount>) {

    /** Whether the root image or any mount binds a host path, which blocks rescheduling. */
    predicate HasHostMounts() {
      || image.BindImage?
      || image.DiskImage?
      || exists m :: m in mounts && (m.kind.BindMount? || m.kind.DiskImageMount?)
    }

    /** The names of the named-volume mounts, in mount order. */
    function NamedVolumeNames(): seq<string> {
      NamedVolumesOf(mounts)
    }
  }

  function NamedVolumesOf(mounts: seq<Mount>): (names: seq<string>)
    ensures forall n :: n in names <==> n != "" && Mount(NamedMount, n) in mounts
  {
    if |mounts| == 0 then []
    else
      var rest := NamedVolumesOf(mounts[1..]);
      if mounts[0].kind.NamedMount? && mounts[0].name != "" then [mounts[0].name] + rest else rest
  }

  datatype Status = Status(
    phase: Phase,
    message: string,
    localName: string,
    startedAt: Option<Time>,
    stoppedAt: Option<Time>,
    updatedAt: Option<Time>)

  datatype Sandbox = Sandbox(
    id: string,
    name: string,
    spec: Spec,
    nodeID: string,
    desired: DesiredState,
    status: Status,
    labels: Labels,
    createdAt: Time,
    updatedAt: Time,
    generation: int)

  datatype FenceVerdict = Current | StaleAssignment

  /** The fencing test: a stored generation of zero or less accepts every report. */
  function CheckAssignmentGeneration(stored: int, reported: int): FenceVerdict {
    if stored > 0 && reported != stored then StaleAssignment else Current
  }

  // ---------------------------------------------------------------- the other replicated records

  datatype VolumeKind = DefaultVolume | NamedVolume

  datatype Volume = Volume(id: string, name: string, kind: VolumeKind, nodeID: string, labels: Labels)

  datatype ApiKey = ApiKey(id: string, name: string, keyHash: string, disabled: bool)

  datatype Peer = Peer(nodeID: string, raftAddr: string, grpcAddr: string)

  datatype Cluster = Cluster(clusterID: string, caKey: seq<bv8>, caCert: seq<bv8>, validity: int)
}
