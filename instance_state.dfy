/** The subscriber-side record of one DDS instance (OpenDDS InstanceState):
    its instance state, the set of live writers, the autopurge release
    bookkeeping (pending flag and timer slot) and the exclusive-ownership flags.
    Timer commands run synchronously and the reader's lock is not modelled. */
module InstanceStates {
  import opened DdsTypes
  import opened Lifecycle
  import opened DataReader

  /** One scheduled one-shot timer: the event handler it will call back, and its delay. */
  datatype TimerEntry = TimerEntry(handler: InstanceState, delay: Duration)

  /** The reactor's timer queue, as far as an instance uses it. Whether a new
      timer can be had is the environment's choice (`accepting`); when it
      cannot, schedule_timer answers -1. */
  class Reactor {
    var timers: map<int, TimerEntry>
    var nextId: nat
    var accepting: bool

    ghost predicate Valid()
      reads this
    {
      forall id :: id in timers ==> 0 <= id < nextId
    }

    constructor (accepting: bool)
      ensures Valid() && timers == map[] && this.accepting == accepting
    {
      timers := map[];
      nextId := 0;
      this.accepting := accepting;
    }

    /** The timer queue without the timers of `handler`. */
    function TimersWithout(handler: InstanceState): map<int, TimerEntry>
      reads this
    {
      map id | id in timers && timers[id].handler != handler :: timers[id]
    }

    method ScheduleTimer(handler: InstanceState, delay: Duration) returns (id: int)
      requires Valid()
      modifies this`timers, this`nextId
      ensures Valid()
      ensures accepting ==> id == old(nextId) && timers == old(timers)[id := TimerEntry(handler, delay)]
      ensures !accepting ==> id == -1 && timers == old(timers) && nextId == old(nextId)
    {
      if accepting {
        id := nextId;
        timers := timers[id := TimerEntry(handler, delay)];
        nextId := nextId + 1;
      } else {
        id := -1;
      }
    }

    method CancelTimer(handler: InstanceState)
      modifies this`timers
      ensures timers == old(TimersWithout(handler))
    {
      timers := TimersWithout(handler);
    }
  }

  class InstanceState {
    const reader: Reader
    const reactor: Reactor
    const handle: InstanceHandle
    const exclusive: bool

    var instanceState: StateMask
    var viewState: StateMask
    /** Only read here: nothing in this class increments them. */
    var disposedGenerationCount: nat
    var noWritersGenerationCount: nat
    /** Maintained by the sample queue: no buffered samples remain. */
    var empty: bool
    var releasePending: bool
    /** The reactor's id of this instance's release timer, -1 for none. */
    var releaseTimerId: int
    var owner: Guid
    var registered: bool
    var writers: set<Guid>

    /** The ids of the reactor timers that will call this instance back. */
    ghost function LiveTimers(): set<int>
      reads this, reactor
    {
      set id | id in reactor.timers && reactor.timers[id].handler == this
    }

    /** Every live timer of this instance is the one recorded in the slot,
        so there is at most one. */
    ghost predicate Valid()
      reads this, reactor
    {
      reactor.Valid() && -1 <= releaseTimerId && LiveTimers() <= {releaseTimerId}
    }

    constructor (reader: Reader, reactor: Reactor, handle: InstanceHandle)
      requires reactor.Valid()
      ensures Valid()
      ensures this.reader == reader && this.reactor == reactor && this.handle == handle
      ensures exclusive == reader.exclusiveOwnership
      ensures instanceState == 0 && viewState == 0
      ensures disposedGenerationCount == 0 && noWritersGenerationCount == 0
      ensures empty && !releasePending && releaseTimerId == -1
      ensures owner == GuidUnknown && !registered && writers == {}
    {
      this.reader := reader;
      this.reactor := reactor;
      this.handle := handle;
      exclusive := reader.exclusiveOwnership;
      instanceState := 0;
      viewState := 0;
      disposedGenerationCount := 0;
      noWritersGenerationCount := 0;
      empty := true;
      releasePending := false;
      releaseTimerId := -1;
      owner := GuidUnknown;
      registered := false;
      writers := {};
      new;
      // The reactor's timers were all armed before this instance existed.
      assert LiveTimers() == {} by {
        forall id | id in reactor.timers ensures reactor.timers[id].handler != this {
          assert old(allocated(reactor.timers[id].handler));
        }
      }
    }

    lemma AtMostOneLiveTimer()
      requires Valid()
      ensures |LiveTimers()| <= 1
      ensures releaseTimerId == -1 ==> LiveTimers() == {}
    {
      if releaseTimerId == -1 {
        assert LiveTimers() == {};
      } else {
        assert LiveTimers() == {} || LiveTimers() == {releaseTimerId};
      }
    }

    // ---- Release bookkeeping -------------------------------------------

    /** The release bookkeeping and the reactor's queue are as they were. */
    twostate predicate ReleaseUntouched()
      reads this, reactor
    {
      releasePending == old(releasePending) && releaseTimerId == old(releaseTimerId)
      && reactor.timers == old(reactor.timers) && reactor.nextId == old(reactor.nextId)
    }

    /** After a finite autopurge delay: the pending flag is cleared, every
        earlier timer of this instance is cancelled, and a new timer with
        `delay` is armed unless the reactor refused one (then the slot is -1). */
    twostate predicate TimerArmed(delay: Duration)
      reads this, reactor
    {
      !releasePending
      && releaseTimerId == (if old(reactor.accepting) then old(reactor.nextId) else -1)
      && reactor.timers == (if releaseTimerId == -1 then old(reactor.TimersWithout(this))
                            else old(reactor.TimersWithout(this))[releaseTimerId := TimerEntry(this, delay)])
    }

    /** What schedule_release does with the delay chosen for the current
        state: nothing for an unsupported state, a timer for a finite delay,
        the pending flag alone (slot and queue untouched) for an infinite one. */
    twostate predicate ReleaseScheduled(delay: Option<Duration>)
      reads this, reactor
    {
      match delay
      case None => ReleaseUntouched()
      case Some(d) =>
        if IsFinite(d) then TimerArmed(d)
        else releasePending && releaseTimerId == old(releaseTimerId)
             && reactor.timers == old(reactor.timers) && reactor.nextId == old(reactor.nextId)
    }

    /** The autopurge delay for the current state; None for a state that has none. */
    function AutopurgeDelay(): (d: Option<Duration>)
      reads this, reader
      ensures d.Some? <==> instanceState == NotAliveNoWritersState || instanceState == NotAliveDisposedState
      ensures instanceState == NotAliveNoWritersState ==> d == Some(reader.qos.autopurgeNowriterSamplesDelay)
      ensures instanceState == NotAliveDisposedState ==> d == Some(reader.qos.autopurgeDisposedSamplesDelay)
    {
      if instanceState == NotAliveNoWritersState then Some(reader.qos.autopurgeNowriterSamplesDelay)
      else if instanceState == NotAliveDisposedState then Some(reader.qos.autopurgeDisposedSamplesDelay)
      else None
    }

    method SchedulePending()
      modifies this`releasePending
      ensures releasePending
    {
      releasePending := true;
    }

    /** CancelCommand::execute. */
    method ExecuteCancel()
      requires Valid()
      modifies this`releaseTimerId, reactor`timers
      ensures Valid() && releaseTimerId == -1 && LiveTimers() == {}
      ensures reactor.timers == old(reactor.TimersWithout(this))
    {
      if releaseTimerId != -1 {
        reactor.CancelTimer(this);
        releaseTimerId := -1;
      } else {
        AtMostOneLiveTimer();
        assert reactor.timers == reactor.TimersWithout(this) by {
          forall id | id in reactor.timers ensures reactor.timers[id].handler != this {
            assert id !in LiveTimers();
          }
        }
      }
    }

    /** ScheduleCommand::execute: the slot receives whatever the reactor
        answers. Run when the slot is empty, it keeps the one-timer invariant;
        run over a live timer, it would orphan that timer. */
    method ExecuteSchedule(delay: Duration)
      requires Valid()
      modifies this`releaseTimerId, reactor`timers, reactor`nextId
      ensures reactor.Valid() && -1 <= releaseTimerId
      ensures old(releaseTimerId) == -1 ==> Valid()
      ensures releaseTimerId == (if old(reactor.accepting) then old(reactor.nextId) else -1)
      ensures reactor.timers == if releaseTimerId == -1 then old(reactor.timers)
                                else old(reactor.timers)[releaseTimerId := TimerEntry(this, delay)]
    {
      ghost var before := LiveTimers();
      if old(releaseTimerId) == -1 {
        AtMostOneLiveTimer();
      }
      releaseTimerId := reactor.ScheduleTimer(this, delay);
      assert LiveTimers() <= before + {releaseTimerId};
    }

    method CancelRelease()
      requires Valid()
      modifies this`releasePending, this`releaseTimerId, reactor`timers
      ensures Valid() && !releasePending && releaseTimerId == -1 && LiveTimers() == {}
      ensures reactor.timers == old(reactor.TimersWithout(this))
    {
      releasePending := false;
      ExecuteCancel();
    }

    method ScheduleRelease()
      requires Valid()
      modifies this`releasePending, this`releaseTimerId, reactor`timers, reactor`nextId
      ensures Valid()
      ensures ReleaseScheduled(AutopurgeDelay())
    {
      var delay := AutopurgeDelay();
      match delay
      case None =>
        // An unsupported state is reported and nothing is scheduled.
      case Some(d) =>
        if IsFinite(d) {
          CancelRelease();
          ExecuteSchedule(d);
        } else {
          SchedulePending();
        }
    }

    // ---- Writer notifications -------------------------------------------

    /** Disposal is honoured for a non-exclusive reader, or when the
        ownership manager names the disposing writer as owner. */
    predicate DisposeAuthorized(writerId: Guid)
      reads this, reader, reader.ownershipManager
    {
      !exclusive
      || (reader.ownershipManager != null && reader.ownershipManager.IsOwner(handle, writerId))
    }

    method DisposeWasReceived(writerId: Guid) returns (r: bool)
      requires Valid()
      modifies this`writers, this`instanceState, this`releasePending, this`releaseTimerId
      modifies reactor`timers, reactor`nextId
      ensures Valid()
      ensures writers == old(writers) - {writerId}
      ensures r == (IsAlive(old(instanceState)) && DisposeAuthorized(writerId))
      ensures r ==> instanceState == NotAliveDisposedState
                    && ReleaseScheduled(Some(reader.qos.autopurgeDisposedSamplesDelay))
      ensures !r ==> instanceState == old(instanceState) && ReleaseUntouched()
      ensures StateStep(old(instanceState), instanceState)
      ensures forall de: ReceivedDataElement :: MostRecentGeneration(de) == old(MostRecentGeneration(de))
    {
      writers := writers - {writerId};
      if IsAlive(instanceState) {
        var manager := reader.ownershipManager;
        if !exclusive || (manager != null && manager.IsOwner(handle, writerId)) {
          instanceState := NotAliveDisposedState;
          ScheduleRelease();
          return true;
        }
      }
      return false;
    }

    method UnregisterWasReceived(writerId: Guid) returns (r: bool)
      requires Valid()
      modifies this`writers, this`instanceState, this`releasePending, this`releaseTimerId
      modifies reactor`timers, reactor`nextId, reader.ownershipManager
      ensures Valid()
      ensures writers == old(writers) - {writerId}
      ensures reader.ownershipManager != null ==>
                reader.ownershipManager.removedWriters
                == old(reader.ownershipManager.removedWriters) + (if exclusive then [(handle, writerId)] else [])
      ensures !exclusive && reader.ownershipManager != null ==>
                reader.ownershipManager.owners == old(reader.ownershipManager.owners)
      ensures r == (writers == {} && IsAlive(old(instanceState)))
      ensures r ==> instanceState == NotAliveNoWritersState
                    && ReleaseScheduled(Some(reader.qos.autopurgeNowriterSamplesDelay))
      ensures !r ==> instanceState == old(instanceState) && ReleaseUntouched()
      ensures StateStep(old(instanceState), instanceState)
      ensures forall de: ReceivedDataElement :: MostRecentGeneration(de) == old(MostRecentGeneration(de))
    {
      writers := writers - {writerId};
      if exclusive {
        var manager := reader.ownershipManager;
        if manager != null {
          manager.RemoveWriter(handle, writerId);
        }
      }
      if writers == {} && IsAlive(instanceState) {
        instanceState := NotAliveNoWritersState;
        ScheduleRelease();
        return true;
      }
      return false;
    }

    /** Liveliness loss: the writer removal and NO_WRITERS transition of
        unregistration, without consulting the ownership manager. */
    method WriterBecameDead(writerId: Guid)
      requires Valid()
      modifies this`writers, this`instanceState, this`releasePending, this`releaseTimerId
      modifies reactor`timers, reactor`nextId
      ensures Valid()
      ensures writers == old(writers) - {writerId}
      ensures writers == {} && IsAlive(old(instanceState)) ==>
                instanceState == NotAliveNoWritersState
                && ReleaseScheduled(Some(reader.qos.autopurgeNowriterSamplesDelay))
      ensures !(writers == {} && IsAlive(old(instanceState))) ==>
                instanceState == old(instanceState) && ReleaseUntouched()
      ensures StateStep(old(instanceState), instanceState)
      ensures forall de: ReceivedDataElement :: MostRecentGeneration(de) == old(MostRecentGeneration(de))
    {
      writers := writers - {writerId};
      if writers == {} && IsAlive(instanceState) {
        instanceState := NotAliveNoWritersState;
        ScheduleRelease();
      }
    }

    // ---- Release ---------------------------------------------------------

    /** Asks the reader to erase this instance. */
    method Release()
      modifies reader`released
      ensures reader.released == old(reader.released) + [handle]
    {
      reader.ReleaseInstance(handle);
    }

    /** The timer callback releases unconditionally. */
    method HandleTimeout() returns (r: int)
      modifies reader`released
      ensures r == 0
      ensures reader.released == old(reader.released) + [handle]
    {
      Release();
      r := 0;
    }

    method ReleaseIfEmpty() returns (released: bool)
      modifies this`releasePending, reader`released
      ensures released == (empty && writers == {})
      ensures released ==> reader.released == old(reader.released) + [handle]
                           && releasePending == old(releasePending)
      ensures !released ==> reader.released == old(reader.released) && releasePending
    {
      released := false;
      if empty && writers == {} {
        Release();
        released := true;
      } else {
        SchedulePending();
      }
    }

    // ---- Ownership flags ------------------------------------------------

    method SetOwner(writerId: Guid)
      modifies this`owner
      ensures owner == writerId
    {
      owner := writerId;
    }

    method GetOwner() returns (o: Guid)
      ensures o == owner
    {
      o := owner;
    }

    /** Register-once: answers whether the instance was already registered
        and leaves it registered, so every later call answers true. */
    method Registered() returns (was: bool)
      modifies this`registered
      ensures was == old(registered) && registered
    {
      was := registered;
      registered := true;
    }

    method SetRegistered(flag: bool)
      modifies this`registered
      ensures registered == flag
    {
      registered := flag;
    }

    method ResetOwnership(instance: InstanceHandle)
      modifies this`owner, this`registered, reader`ownershipResets
      ensures owner == GuidUnknown && !registered
      ensures reader.ownershipResets == old(reader.ownershipResets) + [instance]
    {
      owner := GuidUnknown;
      registered := false;
      reader.ResetOwnership(instance);
    }

    // ---- Read-path projection --------------------------------------------

    /** The sample was stored in the instance's current generation: both of
        its saved counters are the instance's. Such a sample carries the
        instance's counter sum, the value its generation rank is built from. */
    function MostRecentGeneration(item: ReceivedDataElement): (r: bool)
      reads this
      ensures r ==> item.disposedGenerationCount + item.noWritersGenerationCount
                    == disposedGenerationCount + noWritersGenerationCount
    {
      item.disposedGenerationCount == disposedGenerationCount
      && item.noWritersGenerationCount == noWritersGenerationCount
    }

    /** The publication handle of a sample's writer, HandleNil once the
        participant is gone. */
    function PublicationHandle(pub: Guid): InstanceHandle
      reads reader
    {
      match reader.participant
      case None => HandleNil
      case Some(idToHandle) => idToHandle(pub)
    }

    /** sample_info: instance-side fields from the instance, sample-side
        fields from the sample, and provisional ranks for the read path's
        later pass. */
    function SampleInfoOf(de: ReceivedDataElement): (si: SampleInfo)
      reads this, reader
      ensures si.sampleRank == 0
      ensures si.generationRank == si.absoluteGenerationRank
              == de.disposedGenerationCount + de.noWritersGenerationCount
      ensures si.instanceHandle == handle && si.instanceState == instanceState
    {
      SampleInfo(
        sampleState := de.sampleState,
        viewState := viewState,
        instanceState := instanceState,
        disposedGenerationCount := disposedGenerationCount,
        noWritersGenerationCount := noWritersGenerationCount,
        sourceTimestamp := de.sourceTimestamp,
        instanceHandle := handle,
        publicationHandle := PublicationHandle(de.pub),
        validData := de.validData,
        sampleRank := 0,
        generationRank := de.disposedGenerationCount + de.noWritersGenerationCount,
        absoluteGenerationRank := de.disposedGenerationCount + de.noWritersGenerationCount,
        publicationSeq := de.sequence)
    }

    /** The converse fails: once the instance has left any generation, a
        sample can carry the current counter sum without being of the
        current generation, so the rank sum cannot replace the test. */
    lemma RankSumDoesNotDecideGeneration()
      requires disposedGenerationCount + noWritersGenerationCount > 0
      ensures exists de: ReceivedDataElement ::
        !MostRecentGeneration(de)
        && SampleInfoOf(de).generationRank
           == SampleInfoOf(de).disposedGenerationCount + SampleInfoOf(de).noWritersGenerationCount
    {
      var de := if disposedGenerationCount > 0
        then ReceivedDataElement(0, Time(0, 0), GuidUnknown, false,
                                 disposedGenerationCount - 1, noWritersGenerationCount + 1, 0)
        else ReceivedDataElement(0, Time(0, 0), GuidUnknown, false,
                                 disposedGenerationCount + 1, noWritersGenerationCount - 1, 0);
      assert !MostRecentGeneration(de);
      assert SampleInfoOf(de).generationRank
             == SampleInfoOf(de).disposedGenerationCount + SampleInfoOf(de).noWritersGenerationCount;
    }
  }

  /** Disposal moves an instance at most once: after an honoured disposal
      any further disposal is a no-op that answers false. */
  method DisposeIsOneShot(inst: InstanceState, first: Guid, second: Guid) returns (r1: bool, r2: bool)
    requires inst.Valid()
    modifies inst, inst.reactor
    ensures inst.Valid()
    ensures r1 ==> !r2 && inst.instanceState == NotAliveDisposedState
    ensures inst.writers == old(inst.writers) - {first, second}
  {
    r1 := inst.DisposeWasReceived(first);
    r2 := inst.DisposeWasReceived(second);
  }

  /** Registration happens once: whatever the first call answers, the
      second answers true. */
  method RegisteredTwice(inst: InstanceState) returns (first: bool, second: bool)
    modifies inst
    ensures first == old(inst.registered) && second && inst.registered
  {
    first := inst.Registered();
    second := inst.Registered();
  }
}
