# OpenDDS InstanceState, modelled in Dafny

This project models the subscriber-side record of one DDS instance in OpenDDS
(`InstanceState`, dds/DCPS/InstanceState.cpp). For each instance a data reader
tracks:

- the instance state (ALIVE, NOT_ALIVE_DISPOSED, NOT_ALIVE_NO_WRITERS, a bit mask);
- the set of writers still alive for it;
- the autopurge release bookkeeping: a pending flag and the id of at most one
  reactor timer;
- the exclusive-ownership flags (owner, registered).

It also models the read-path helpers: the SampleInfo projection, the
most-recent-generation test and the two state formatters. The rules are those
of the OMG DDS specification, section 2.2.2.5.1 (interpretation of
SampleInfo), with the autopurge delays of the READER_DATA_LIFECYCLE QoS
(section 2.2.3.21).

Files and modules:

- `dds_types.dfy` (`DdsTypes`): the instance-state constants (ALIVE = 1,
  DISPOSED = 2, NO_WRITERS = 4, NOT_ALIVE = 6, ANY = 0xffff). Also durations
  with the infinite sentinel (0x7fffffff in both parts), GUIDs, the stored
  sample view and the SampleInfo record.
- `instance_state_strings.dfy` (`InstanceStateStrings`): `instance_state_string`,
  `instance_state_mask_string` and the decimal rendering used for unknown values.
- `lifecycle.dfy` (`Lifecycle`): the one-way step relation that every writer
  notification obeys, and what it implies for any sequence of notifications.
- `data_reader.dfy` (`DataReader`): the owning reader and the ownership manager,
  reduced to what an instance asks of them. Outgoing calls (`release_instance`,
  `remove_writer`, `reset_ownership`) are recorded in order.
- `instance_state.dfy` (`InstanceStates`): the reactor's timer queue and the
  `InstanceState` class.

External collaborators become parameters of the model:

- The reader's QoS is a field holding the two autopurge delays.
- The ownership manager is optional and answers `is_owner` from its owner map.
- The participant's id-to-handle lookup is an optional function; when it is
  absent the handle is 0.
- `schedule_timer` succeeds with the reactor's next id, or answers -1 when the
  environment's `accepting` flag is off.
- Timers are keyed by the instance object, as ACE keys them by event handler.

The class invariant `Valid()` says that every reactor timer calling this
instance back has the id stored in `releaseTimerId`. So there is at most one
live timer per instance. Every public operation keeps this true. The one
exception is the scheduling command `ExecuteSchedule` when it runs while a
timer is still live. `ScheduleRelease` never does that, because it always
cancels first.

The generation counters are only read in this file. Lines 125, 158 and 179
only assign the state, and the counters are incremented outside this file.
The model does not increment them either. The three writer notifications
state that they leave the most-recent-generation test unchanged for every
sample.

## Model

| member | source | states |
|---|---|---|
| InstanceStateStrings.NatToDecimal | dds/DCPS/InstanceState.cpp:338 | the rendering of an unknown value is a non-empty string of decimal digits with no leading zero |
| InstanceStateStrings.DecimalRoundTrip | dds/DCPS/InstanceState.cpp:338 | reading the decimal rendering back gives the rendered value |
| InstanceStateStrings.DecimalInjective | dds/DCPS/InstanceState.cpp:338 | distinct values render differently |
| InstanceStateStrings.InstanceStateString | dds/DCPS/InstanceState.cpp:318-340 | the result is non-empty, and it starts with "(" exactly when the value is not one of the five named states |
| InstanceStateStrings.InstanceStateStringInjective | dds/DCPS/InstanceState.cpp:318-340 | two values with the same string are equal, named or unknown |
| InstanceStateStrings.MaskString | dds/DCPS/InstanceState.cpp:342-363 | ANY and NOT_ALIVE get their composite names; the result is empty exactly when none of the three state bits is set |
| InstanceStateStrings.JoinSnoc | dds/DCPS/InstanceState.cpp:354-361 | one "separator if non-empty, then name" step extends the bar-separated join of the names so far by one name |
| InstanceStateStrings.MaskStringJoinsSetBits | dds/DCPS/InstanceState.cpp:350-362 | for every other mask, the result is the bar-separated join of the set bits' names in ALIVE, DISPOSED, NO_WRITERS order |
| InstanceStateStrings.SingleStateMaskString | dds/DCPS/InstanceState.cpp:350-362 | a mask with exactly one state bit is named like that state |
| Lifecycle.StepNeverRevives | dds/DCPS/InstanceState.cpp:109-182 | no notification produces the ALIVE bit: if it is set afterwards, the state did not move |
| Lifecycle.RunLeavesAliveOnly | dds/DCPS/InstanceState.cpp:109-182 | every state in a sequence of notifications is the first state, or a NOT_ALIVE kind reached from an ALIVE first state |
| Lifecycle.RunSettles | dds/DCPS/InstanceState.cpp:109-182 | once the state has changed it is NOT_ALIVE and never changes again, so it moves at most once |
| InstanceStates.InstanceState.constructor | dds/DCPS/InstanceState.cpp:28-48 | state 0, counters 0, empty, nothing pending, no timer, owner GUID_UNKNOWN, not registered, no writers, exclusive from the reader's ownership QoS; the one-timer invariant holds |
| InstanceStates.InstanceState.AtMostOneLiveTimer | dds/DCPS/InstanceState.cpp:299-316 | under the invariant at most one reactor timer calls this instance back, and none when the slot is -1 |
| InstanceStates.InstanceState.AutopurgeDelay | dds/DCPS/InstanceState.cpp:196-211 | a delay is chosen exactly in the NO_WRITERS and DISPOSED states: the QoS's nowriter delay in NO_WRITERS, its disposed delay in DISPOSED |
| InstanceStates.InstanceState.SchedulePending | dds/DCPS/InstanceState.cpp:184-187 | sets the pending flag and nothing else |
| InstanceStates.InstanceState.ExecuteCancel | dds/DCPS/InstanceState.cpp:299-305 | cancels every timer of this instance, leaves other instances' timers, empties the slot; the invariant makes the guarded cancel equal to an unconditional one |
| InstanceStates.InstanceState.ExecuteSchedule | dds/DCPS/InstanceState.cpp:307-316 | the slot receives the reactor's answer (new id, or -1 on failure) and the queue gains exactly that timer; keeps the invariant when the slot was empty before; run over a still-live timer it orphans that timer |
| InstanceStates.InstanceState.CancelRelease | dds/DCPS/InstanceState.cpp:229-234 | clears the pending flag and removes this instance's timers; the slot becomes -1 |
| InstanceStates.InstanceState.ScheduleRelease | dds/DCPS/InstanceState.cpp:189-227 | unsupported state: nothing changes; finite delay (both parts non-infinite): pending cleared, old timer cancelled, one new timer or -1; otherwise only pending set, slot and queue untouched; keeps at most one timer |
| InstanceStates.InstanceState.DisposeWasReceived | dds/DCPS/InstanceState.cpp:109-134 | always removes the writer; returns true iff ALIVE was set and (non-exclusive, or a manager exists and names the writer owner); then DISPOSED and release scheduled with the disposed delay; otherwise state and release bookkeeping unchanged; the most-recent-generation test of every sample is unchanged |
| InstanceStates.InstanceState.UnregisterWasReceived | dds/DCPS/InstanceState.cpp:136-164 | removes the writer; asks the manager to drop it exactly when exclusive and a manager exists; leaves the manager's owner map alone when not exclusive; returns true iff no writers remain and ALIVE was set, then NO_WRITERS with the nowriter delay; otherwise nothing else changes; the most-recent-generation test of every sample is unchanged |
| InstanceStates.InstanceState.WriterBecameDead | dds/DCPS/InstanceState.cpp:166-182 | the same removal and NO_WRITERS transition as unregistration, without touching the ownership manager; the most-recent-generation test of every sample is unchanged |
| InstanceStates.InstanceState.Release | dds/DCPS/InstanceState.cpp:248-251 | asks the reader to release this instance's handle, once |
| InstanceStates.InstanceState.HandleTimeout | dds/DCPS/InstanceState.cpp:95-107 | the timer callback releases the instance unconditionally and returns 0 |
| InstanceStates.InstanceState.ReleaseIfEmpty | dds/DCPS/InstanceState.cpp:236-246 | returns true iff the queue is empty and no writers remain, and then releases exactly once; otherwise releases nothing and sets the pending flag |
| InstanceStates.InstanceState.SetOwner | dds/DCPS/InstanceState.cpp:253-256 | the owner becomes the given writer |
| InstanceStates.InstanceState.GetOwner | dds/DCPS/InstanceState.cpp:258-261 | answers the stored owner, changing nothing |
| InstanceStates.InstanceState.Registered | dds/DCPS/InstanceState.cpp:268-273 | answers the previous registered flag and leaves it true |
| InstanceStates.InstanceState.SetRegistered | dds/DCPS/InstanceState.cpp:275-278 | the registered flag becomes the given value |
| InstanceStates.InstanceState.ResetOwnership | dds/DCPS/InstanceState.cpp:280-286 | owner becomes GUID_UNKNOWN and registered false, then the reader is asked to reset ownership of the given handle |
| InstanceStates.InstanceState.SampleInfoOf | dds/DCPS/InstanceState.cpp:60-91 | sample_rank is 0; generation_rank and absolute_generation_rank both equal the sample's saved disposed + no_writers sum; handle and instance state are the instance's |
| InstanceStates.InstanceState.MostRecentGeneration | dds/DCPS/InstanceState.cpp:288-292 | a sample of the current generation carries the instance's disposed + no_writers sum, the value its generation rank is built from |
| InstanceStates.InstanceState.RankSumDoesNotDecideGeneration | dds/DCPS/InstanceState.cpp:288-292 | the converse fails as soon as either counter is non-zero: a sample can carry the current sum without being of the current generation, so both counters must be compared |
| InstanceStates.DisposeIsOneShot | dds/DCPS/InstanceState.cpp:119-131 | after an honoured disposal a second disposal answers false and the state stays DISPOSED |
| InstanceStates.RegisteredTwice | dds/DCPS/InstanceState.cpp:268-273 | a second registered() call answers true whatever the first answered |

## Left out

- The recursive mutex guards (lines 111, 145, 175) and the ACE reactor
  marshalling (`ReactorInterceptor`, `execute_or_enqueue`): commands run
  synchronously and concurrency is not modelled.
- The reactor's real timer queue: it is reduced to an id-to-(handler, delay)
  map. The removal of a fired one-shot timer from the queue is ACE's work and
  is not modelled; `HandleTimeout` is the callback alone.
- The ownership manager's re-election after `remove_writer`, and the
  destructor's `remove_instance` call (lines 50-58): only the `remove_writer`
  request is recorded.
- `duration_to_time_value`: the timer entry keeps the DDS duration itself.
- Debug and error logging, `reactor_is_shut_down` and `TheServiceParticipant`.
- `writer_became_dead`'s unused writer count and timestamp parameters.
- The CORBA::Long casts of the counters: counters are unbounded and assumed to fit.
- `is_exclusive` (lines 263-266) is the constant field `exclusive` read directly.
  With ownership support compiled out, the model is the same as `exclusive == false`.
- The inline accessors and transitions of InstanceState.inl (`data_was_received`,
  `lively`, `accessed`, the `empty` setter) that move an instance to ALIVE:
  InstanceState.inl is not part of this model. The class's fields are public,
  so a caller can set them.
- InstanceStates.InstanceState.SampleInfoOf: the contract states the rank
  fields, handle and instance state. The other copied fields (sample and view
  state, counters, timestamp, publication handle, validity, sequence) are
  given only by the body.
- InstanceStates.InstanceState.GetOwner: returns the owner by value. The C++
  `get_owner` returns a mutable reference, through which a caller can overwrite
  the owner; that aliasing is not modelled, and `SetOwner` is the only write path.
