/** The owning data reader and its ownership manager, reduced to what an
    instance asks of them. Calls that leave this core (release an instance,
    drop a writer as owner candidate, reset ownership) are recorded in order,
    so that what an instance operation asked for can be stated exactly. */
module DataReader {
  import opened DdsTypes

  /** The ownership arbiter of an exclusive-ownership reader. */
  class OwnershipManager {
    /** The current owner of each instance the arbiter tracks. */
    var owners: map<InstanceHandle, Guid>
    /** remove_writer(instance, writer) calls, oldest first. */
    var removedWriters: seq<(InstanceHandle, Guid)>

    constructor (owners: map<InstanceHandle, Guid>)
      ensures this.owners == owners && removedWriters == []
    {
      this.owners := owners;
      removedWriters := [];
    }

    predicate IsOwner(instance: InstanceHandle, writerId: Guid)
      reads this
    {
      instance in owners && owners[instance] == writerId
    }

    /** Re-election among the remaining writers is the arbiter's own affair;
        only the request is recorded. */
    method RemoveWriter(instance: InstanceHandle, writerId: Guid)
      modifies this`removedWriters
      ensures removedWriters == old(removedWriters) + [(instance, writerId)]
    {
      removedWriters := removedWriters + [(instance, writerId)];
    }
  }

  class Reader {
    /** The READER_DATA_LIFECYCLE QoS as get_qos currently reports it. */
    var qos: ReaderDataLifecycle
    /** The ownership QoS kind is EXCLUSIVE. */
    const exclusiveOwnership: bool
    /** The ownership manager, absent when the reader has none. */
    const ownershipManager: OwnershipManager?
    /** The participant's publication-id-to-handle lookup, None once the
        participant is gone. */
    var participant: Option<Guid -> InstanceHandle>
    /** release_instance(handle) calls, oldest first. */
    var released: seq<InstanceHandle>
    /** reset_ownership(handle) calls, oldest first. */
    var ownershipResets: seq<InstanceHandle>

    constructor (qos: ReaderDataLifecycle, exclusiveOwnership: bool,
                 ownershipManager: OwnershipManager?, participant: Option<Guid -> InstanceHandle>)
      ensures this.qos == qos && this.exclusiveOwnership == exclusiveOwnership
      ensures this.ownershipManager == ownershipManager && this.participant == participant
      ensures released == [] && ownershipResets == []
    {
      this.qos := qos;
      this.exclusiveOwnership := exclusiveOwnership;
      this.ownershipManager := ownershipManager;
      this.participant := participant;
      released := [];
      ownershipResets := [];
    }

    method ReleaseInstance(instance: InstanceHandle)
      modifies this`released
      ensures released == old(released) + [instance]
    {
      released := released + [instance];
    }

    method ResetOwnership(instance: InstanceHandle)
      modifies this`ownershipResets
      ensures ownershipResets == old(ownershipResets) + [instance]
    {
      ownershipResets := ownershipResets + [instance];
    }
  }
}
