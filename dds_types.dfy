/** Value types shared by the subscriber-side instance model: the DDS
    instance-state bits, durations with their "infinite" sentinel, GUIDs,
    and the two records that flow between a stored sample and the read path. */
module DdsTypes {

  datatype Option<+T> = None | Some(value: T)

  /** DDS::InstanceStateKind and DDS::InstanceStateMask: an unsigned 32-bit mask. */
  type StateMask = m: int | 0 <= m < 0x1_0000_0000

  const AliveState: StateMask := 0x0001
  const NotAliveDisposedState: StateMask := 0x0002
  const NotAliveNoWritersState: StateMask := 0x0004
  /** Query-only composites, never stored in an instance. */
  const NotAliveState: StateMask := 0x0006
  const AnyState: StateMask := 0xffff

  /** The three single-bit states an instance can hold. */
  predicate IsStateBit(bit: StateMask) {
    bit == AliveState || bit == NotAliveDisposedState || bit == NotAliveNoWritersState
  }

  /** `mask & bit` is non-zero, for one of the three state bits. */
  predicate HasBit(mask: StateMask, bit: StateMask)
    requires IsStateBit(bit)
  {
    (mask / bit) % 2 == 1
  }

  /** None of the three state bits is set in `mask`. */
  predicate NoStateBits(mask: StateMask) {
    mask % 8 == 0
  }

  predicate IsAlive(s: StateMask) {
    HasBit(s, AliveState)
  }

  /** DDS::InstanceHandle_t; 0 is the nil handle. */
  type InstanceHandle = int
  const HandleNil: InstanceHandle := 0

  /** A publication id (GUID_t): sixteen opaque bytes. */
  datatype Guid = Guid(bytes: seq<bv8>)
  const GuidUnknown: Guid := Guid(seq(16, _ => 0 as bv8))

  /** DDS::Duration_t. Either part may hold the "infinite" sentinel. */
  datatype Duration = Duration(sec: int, nanosec: nat)
  const DurationInfiniteSec: int := 0x7fffffff
  const DurationInfiniteNsec: nat := 0x7fffffff

  /** An autopurge delay is acted on only when NEITHER part is the sentinel:
      a delay with just one infinite part counts as infinite. */
  predicate IsFinite(d: Duration) {
    d.sec != DurationInfiniteSec && d.nanosec != DurationInfiniteNsec
  }

  /** The READER_DATA_LIFECYCLE part of the reader's QoS. */
  datatype ReaderDataLifecycle = ReaderDataLifecycle(
    autopurgeNowriterSamplesDelay: Duration,
    autopurgeDisposedSamplesDelay: Duration)

  datatype Time = Time(sec: int, nanosec: nat)

  /** The read-only view of a stored sample that the projection consults:
      its own read state, timestamp, publisher, validity, the generation
      counters saved when it was stored, and its publication sequence number. */
  datatype ReceivedDataElement = ReceivedDataElement(
    sampleState: StateMask,
    sourceTimestamp: Time,
    pub: Guid,
    validData: bool,
    disposedGenerationCount: nat,
    noWritersGenerationCount: nat,
    sequence: int)

  /** DDS::SampleInfo, as filled in for one sample. */
  datatype SampleInfo = SampleInfo(
    sampleState: StateMask,
    viewState: StateMask,
    instanceState: StateMask,
    disposedGenerationCount: int,
    noWritersGenerationCount: int,
    sourceTimestamp: Time,
    instanceHandle: InstanceHandle,
    publicationHandle: InstanceHandle,
    validData: bool,
    sampleRank: int,
    generationRank: int,
    absoluteGenerationRank: int,
    publicationSeq: int)
}
