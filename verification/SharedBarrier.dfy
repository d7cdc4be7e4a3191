/** The barrier calls as the code makes them, field by field, for any arguments. As long as the calls are those the
    server loop and its clients make (`follows`), the ghost field `core` (and a client handle's ghost field `client`)
    follow the transition system statement by statement, so each call is shown to take exactly the steps the
    interleavings are made of. */
module SharedBarrier {
  import opened Frames
  import opened Barrier

  class BarrierState {
    var generation: U64
    var sequence: nat
    var timeNs: nat
    var phase: nat
    var participantMask: set<nat>
    var completionMask: set<nat>
    var stopping: bool
    ghost var core: Core
    ghost var follows: bool

    ghost predicate Valid()
      reads this
    {
      follows ==>
        && core.generation == generation
        && core.frame == Frame(sequence, timeNs, phase)
        && core.participants == participantMask
        && core.completion == completionMask
        && core.stopping == stopping
    }

    constructor (cfg: Config)
      requires ValidConfig(cfg)
      ensures Valid() && follows && core == Core(cfg, 0, Frame(0, 0, 0), {}, {}, false, Free, Ready, 0, {})
    {
      generation, sequence, timeNs, phase := 0, 0, 0, 0;
      participantMask, completionMask, stopping := {}, {}, false;
      core := Core(cfg, 0, Frame(0, 0, 0), {}, {}, false, Free, Ready, 0, {});
      follows := true;
    }

    /** One step of the transition system by the server; only the ghost state moves. */
    ghost method Take(step: Step)
      requires IsServerStep(step) && (follows ==> ServerEnabled(core, step))
      modifies this`core
      ensures core == if follows then ServerCore(old(core), step) else old(core)
    {
      if follows {
        core := ServerCore(core, step);
      }
    }

    /** These are the arguments the server loop publishes next. */
    ghost predicate IsNext(frame: Frame, participantMask: set<nat>)
      reads this
    {
      && core.server.Ready? && Representable(core.cfg, core.count + 1)
      && frame == FrameAt(core.cfg, core.count + 1)
      && participantMask == ParticipantsAt(core.cfg, core.count + 1)
    }

    /** simulith_shared_barrier_publish. */
    method Publish(sequence: nat, timeNs: nat, phase: nat, participantMask: set<nat>)
      requires Valid() && (follows ==> core.holder.Free?)
      modifies this
      ensures Valid() && follows == old(follows && IsNext(Frame(sequence, timeNs, phase), participantMask))
      ensures this.sequence == sequence && this.timeNs == timeNs && this.phase == phase
      ensures this.participantMask == participantMask && completionMask == {}
      ensures generation == Wrap(old(generation) + 1) && stopping == old(stopping)
      ensures follows ==> core == Published(old(core))
    {
      follows := follows && IsNext(Frame(sequence, timeNs, phase), participantMask);
      Take(PublishLock);
      StorePayload(sequence, timeNs, phase);
      StoreMasks(participantMask);
      Announce();
    }

    method StorePayload(sequence: nat, timeNs: nat, phase: nat)
      requires Valid()
      requires follows ==>
                 core.server == Storing(0) && Frame(sequence, timeNs, phase) == FrameAt(core.cfg, core.count + 1)
      modifies this`sequence, this`timeNs, this`phase, this`core
      ensures Valid() && this.sequence == sequence && this.timeNs == timeNs && this.phase == phase
      ensures follows ==> core == old(core).(frame := Frame(sequence, timeNs, phase), server := Storing(3))
    {
      this.sequence := sequence;
      Take(PublishStore);
      assert follows ==> core == old(core).(frame := old(core).frame.(sequence := sequence), server := Storing(1));
      this.timeNs := timeNs;
      Take(PublishStore);
      assert follows ==>
          core == old(core).(frame := old(core).frame.(sequence := sequence, time := timeNs), server := Storing(2));
      this.phase := phase;
      Take(PublishStore);
    }

    method StoreMasks(participantMask: set<nat>)
      requires Valid()
      requires follows ==> core.server == Storing(3) && participantMask == ParticipantsAt(core.cfg, core.count + 1)
      modifies this`participantMask, this`completionMask, this`core
      ensures Valid() && this.participantMask == participantMask && completionMask == {}
      ensures follows ==> core == old(core).(participants := participantMask, completion := {}, server := Storing(5))
    {
      this.participantMask := participantMask;
      Take(PublishStore);
      assert follows ==> core == old(core).(participants := participantMask, server := Storing(4));
      completionMask := {};
      Take(PublishStore);
    }

    method Announce()
      requires Valid() && (follows ==> core.server == Storing(5))
      modifies this`generation, this`core
      ensures Valid() && generation == Wrap(old(generation) + 1)
      ensures follows ==>
                core == old(core).(generation := generation, count := old(core).count + 1, server := Checking({}),
                                   holder := Free)
    {
      generation := (generation + 1) % WORD64;
      Take(PublishBump);
      ghost var bumped := core;
      ghost var slots := |core.cfg.masks|;
      for slot := 0 to slots
        invariant Valid() && generation == Wrap(old(generation) + 1)
        invariant follows ==> core == bumped.(server := Signalling(slot))
      {
        Take(PublishSignal);
      }
      Take(PublishUnlock);
    }

    /** simulith_shared_barrier_complete by the client `c` of this slot; it follows the protocol if the frame is that of
        one of the client's receipts. */
    method Complete(slot: nat, sequence: nat, phase: nat, ghost c: Client, ghost receipt: nat) returns (status: int)
      requires Valid() && (follows ==> core.holder.Free?)
      modifies this`completionMask, this`core, this`follows
      ensures Valid()
      ensures status == 0 || status == -1
      ensures status == 0 <==> !stopping && slot in participantMask && this.sequence == sequence && this.phase == phase
                               && slot !in old(completionMask)
      ensures completionMask == if status == 0 then old(completionMask) + {slot} else old(completionMask)
      ensures old(follows) && receipt < |c.receipts|
              && c.receipts[receipt].frame.sequence == sequence && c.receipts[receipt].frame.phase == phase ==>
                && follows
                && ClientEnabled(old(core), slot, c, Step.Complete(slot, receipt))
                && var entered := ClientCore(old(core), slot, c, Step.Complete(slot, receipt));
                   core == if status == 0 then ClientCore(entered, slot, c, CompleteExit(slot)) else entered
    {
      follows := follows && receipt < |c.receipts|
                 && c.receipts[receipt].frame.sequence == sequence && c.receipts[receipt].frame.phase == phase;
      if follows {
        core := ClientCore(core, slot, c, Step.Complete(slot, receipt));
      }
      if stopping || slot !in participantMask || this.sequence != sequence || this.phase != phase
         || slot in completionMask {
        return -1;
      }
      completionMask := completionMask + {slot};
      if follows {
        core := ClientCore(core, slot, c, CompleteExit(slot));
      }
      return 0;
    }

    /** The unlocked load of simulith_shared_barrier_wait: its result covers the required mask or is discarded. */
    method WaitFast(required: set<nat>) returns (done: bool, ready: set<nat>)
      requires Valid()
      ensures ready == completionMask && (done <==> required <= completionMask)
      ensures follows && core.count > 0 && core.server.Checking? && required == ParticipantsAt(core.cfg, core.count) ==>
                (done <==> ServerEnabled(core, Step.WaitFast))
    {
      ready := completionMask;
      done := ready * required == required;
      assert ready * required == required <==> required <= ready;
    }

    /** The lock section of simulith_shared_barrier_stop; whom it wakes is in the step. */
    method Stop()
      requires Valid() && (follows ==> core.holder.Free?)
      modifies this`stopping, this`core
      ensures Valid() && stopping
      ensures follows ==> core == ServerCore(old(core), Step.Stop)
    {
      stopping := true;
      Take(Step.Stop);
    }
  }

  /** What a receiver finds whenever it gets the mutex. */
  datatype Moment = Moment(generation: U64, sequence: nat, timeNs: nat, phase: nat, participantMask: set<nat>,
                           completionMask: set<nat>, stopping: bool, interrupted: bool)
  {
    function Payload(): Frame {
      Frame(sequence, timeNs, phase)
    }

    /** There is something for a receiver to return. */
    predicate Ends(lastGeneration: U64) {
      stopping || generation != lastGeneration || interrupted
    }
  }

  /** The first moment at which a receiver need not go on sleeping; |moments| if there is none. */
  function FirstEnd(moments: seq<Moment>, lastGeneration: U64): (k: nat)
    ensures k <= |moments| && (k < |moments| ==> moments[k].Ends(lastGeneration))
    ensures forall j :: 0 <= j < k ==> !moments[j].Ends(lastGeneration)
  {
    if moments == [] || moments[0].Ends(lastGeneration) then 0 else 1 + FirstEnd(moments[1..], lastGeneration)
  }

  lemma FirstEndIs(moments: seq<Moment>, lastGeneration: U64, k: nat)
    requires k <= |moments| && (k < |moments| ==> moments[k].Ends(lastGeneration))
    requires forall j :: 0 <= j < k ==> !moments[j].Ends(lastGeneration)
    ensures FirstEnd(moments, lastGeneration) == k
  {
    var first := FirstEnd(moments, lastGeneration);
  }

  /** The state of the transition system at a moment. */
  ghost predicate Shows(core: Core, m: Moment) {
    && core.holder.Free? && core.generation == m.generation && core.frame == m.Payload()
    && core.participants == m.participantMask && core.completion == m.completionMask && core.stopping == m.stopping
  }

  ghost predicate AllShow(cores: seq<Core>, moments: seq<Moment>) {
    |cores| == |moments| && forall k :: 0 <= k < |moments| ==> Shows(cores[k], moments[k])
  }

  /** Stands for a call that has not returned. */
  const SLEEPING := 2

  class BarrierHandle {
    const slot: nat
    const state: BarrierState
    var connected: bool
    var fastReceiveSafe: bool
    var interrupted: bool
    var lastGeneration: U64
    ghost var client: Client

    ghost predicate Valid()
      reads this, state
    {
      && state.Valid()
      && state.follows
      && client.connected == connected
      && client.fast == fastReceiveSafe
      && client.interrupted == interrupted
      && client.lastGeneration == lastGeneration
    }

    constructor (slot: nat, state: BarrierState)
      requires state.Valid() && state.follows
      ensures Valid() && this.slot == slot && this.state == state
      ensures client == Client(false, false, false, 0, Outside, 0, 0, [])
    {
      this.slot, this.state := slot, state;
      connected, fastReceiveSafe, interrupted, lastGeneration := false, false, false, 0;
      client := Client(false, false, false, 0, Outside, 0, 0, []);
    }

    /** simulith_shared_barrier_connect followed by the handshake's setting of fast_receive_safe. */
    method Connect(phaseMask: set<nat>)
      requires Valid() && ClientEnabled(state.core, slot, client, Step.Connect(slot, phaseMask == ALL_PHASES))
      modifies this
      ensures Valid()
      ensures client == ClientNext(state.core, slot, old(client), Step.Connect(slot, phaseMask == ALL_PHASES))
    {
      connected := true;
      lastGeneration := if state.generation > 0 then state.generation - 1 else 0;
      fastReceiveSafe := phaseMask == {PREPARE, EXECUTE, COMMIT};
      client := ClientNext(state.core, slot, client, Step.Connect(slot, phaseMask == ALL_PHASES));
    }

    /** The client as other threads leave it: only interrupters touch it. */
    ghost function Touched(c: Client, m: Moment, pending: nat): Client {
      c.(interrupted := m.interrupted, pendingInterrupts := pending)
    }

    /** simulith_shared_barrier_receive. Other threads move while it waits for the mutex and while it sleeps: `moments`
        are what it finds each time it gets the mutex. The unlocked path does not look at `stopping`; the other one ends
        at the first moment with a reason to, however often it is woken before. */
    method Receive(moments: seq<Moment>, ghost cores: seq<Core>, ghost pending: seq<nat>)
        returns (status: int, frame: Frame)
      requires Valid() && connected && client.receiver.Outside?
      requires AllShow(cores, moments) && |pending| == |moments|
      modifies this, state
      ensures Valid()
      ensures old(fastReceiveSafe && state.generation != lastGeneration && !interrupted) ==>
                && status == 0 && frame == old(state.core.frame) && state.core == old(state.core)
                && client == Handed(state.core, old(client))
      ensures !old(fastReceiveSafe && state.generation != lastGeneration && !interrupted) ==>
                LockedResult(status, frame, old(client), old(lastGeneration), moments, cores, pending)
    {
      Take(ReceiveStart(slot));
      var published := state.generation;
      Take(Load(slot));
      assert client == old(client).(receiver := Loaded(published, state.core.count));
      Take(Decide(slot));
      if fastReceiveSafe && published != lastGeneration && !interrupted {
        status := 0;
        frame := ReadPayload(published);
      } else {
        status, frame := ReceiveLocked(moments, cores, pending);
      }
    }

    method ReadPayload(published: U64) returns (frame: Frame)
      requires Valid() && client.receiver == ReadingSequence(published, state.core.count)
      requires published == state.core.generation
      modifies this, state`core
      ensures Valid() && state.core == old(state.core)
      ensures frame == state.core.frame && client == Handed(state.core, old(client))
    {
      var sequence := state.sequence;
      Take(ReadSequence(slot));
      var timeNs := state.timeNs;
      Take(ReadTime(slot));
      assert client.receiver == ReadingPhase(published, state.core.count, sequence, timeNs);
      var phase := state.phase;
      Take(ReadPhase(slot));
      lastGeneration := published;
      Take(Return(slot));
      frame := Frame(sequence, timeNs, phase);
    }

    /** The outcome of the locked path of a receive begun by a client like `c`. */
    ghost predicate LockedResult(status: int, frame: Frame, c: Client, last: U64, moments: seq<Moment>,
                                 cores: seq<Core>, pending: seq<nat>)
      requires |cores| == |moments| == |pending|
      reads this, state
    {
      var k := FirstEnd(moments, last);
      if k == |moments| then status == SLEEPING && lastGeneration == last
      else
        var outside := Touched(c, moments[k], pending[k]).(receiver := Outside);
        && state.core == cores[k]
        && status == (if moments[k].interrupted then -1 else if moments[k].stopping then 1 else 0)
        && (status == 0 ==> frame == moments[k].Payload() && client == Handed(cores[k], outside))
        && (status != 0 ==> client == outside)
    }

    /** The locked path: its wait loop, and the tests behind it. */
    method ReceiveLocked(moments: seq<Moment>, ghost cores: seq<Core>, ghost pending: seq<nat>)
        returns (status: int, frame: Frame)
      requires Valid() && client.receiver.Locking?
      requires AllShow(cores, moments) && |pending| == |moments|
      modifies this, state
      ensures Valid()
      ensures LockedResult(status, frame, old(client), old(lastGeneration), moments, cores, pending)
    {
      frame := Frame(0, 0, 0);
      var k := 0;
      if k == |moments| {
        return SLEEPING, frame;
      }
      GetMutex(moments[k], cores[k], pending[k]);
      while !state.stopping && state.generation == lastGeneration && !interrupted
        invariant k < |moments| && Valid() && Holds(moments[k], cores[k])
        invariant client == Touched(old(client), moments[k], pending[k]).(receiver := LoopTop)
        invariant forall j :: 0 <= j < k ==> !moments[j].Ends(lastGeneration)
        decreases |moments| - k
      {
        GoToSleep();
        k := k + 1;
        if k == |moments| {
          FirstEndIs(moments, lastGeneration, k);
          return SLEEPING, frame;
        }
        GetMutex(moments[k], cores[k], pending[k]);
      }
      FirstEndIs(moments, lastGeneration, k);
      status, frame := Leave(moments[k], cores[k]);
    }

    /** The mutex is held by this receiver at this moment. */
    ghost predicate Holds(m: Moment, core: Core)
      reads this, state
    {
      && state.core == core.(holder := ByReceiver(slot))
      && state.generation == m.generation && Frame(state.sequence, state.timeNs, state.phase) == m.Payload()
      && state.stopping == m.stopping && interrupted == m.interrupted
    }

    /** Gets the mutex, first or after a sleep; by then other threads have brought about the moment. */
    method GetMutex(m: Moment, ghost core: Core, ghost pending: nat)
      requires Valid() && Shows(core, m) && (client.receiver.Locking? || client.receiver.Asleep?)
      modifies this`interrupted, this`client, state
      ensures Valid() && Holds(m, core)
      ensures client == Touched(old(client), m, pending).(receiver := LoopTop)
    {
      OthersMove(m, core, pending);
      LockNow();
    }

    method OthersMove(m: Moment, ghost core: Core, ghost pending: nat)
      requires Valid() && Shows(core, m)
      modifies this`interrupted, this`client, state
      ensures Valid() && state.core == core
      ensures Frame(state.sequence, state.timeNs, state.phase) == m.Payload() && interrupted == m.interrupted
      ensures client == Touched(old(client), m, pending)
    {
      state.generation, state.sequence, state.timeNs, state.phase := m.generation, m.sequence, m.timeNs, m.phase;
      state.participantMask, state.completionMask, state.stopping := m.participantMask, m.completionMask, m.stopping;
      interrupted := m.interrupted;
      state.core := core;
      client := Touched(client, m, pending);
    }

    ghost method LockNow()
      requires Valid() && state.core.holder.Free? && (client.receiver.Locking? || client.receiver.Asleep?)
      modifies this`client, state`core
      ensures Valid() && client == old(client).(receiver := LoopTop)
      ensures state.core == old(state.core).(holder := ByReceiver(slot))
    {
      if client.receiver.Asleep? {
        Take(Wake(slot));
      }
      Take(Lock(slot));
    }

    /** pthread_cond_wait gives the mutex back. */
    ghost method GoToSleep()
      requires Valid() && client.receiver.LoopTop?
      requires !state.stopping && state.generation == lastGeneration && !interrupted
      modifies this`client, state`core
      ensures Valid() && client == old(client).(receiver := Asleep)
    {
      Take(TestLoop(slot));
      Take(TestInterrupt(slot));
      Take(Sleep(slot));
    }

    /** What follows the wait loop, up to the unlock. */
    method Leave(m: Moment, ghost core: Core) returns (status: int, frame: Frame)
      requires Valid() && Shows(core, m) && Holds(m, core) && client.receiver.LoopTop? && m.Ends(lastGeneration)
      modifies this`lastGeneration, this`client, state`core
      ensures Valid() && state.core == core
      ensures status == (if m.interrupted then -1 else if m.stopping then 1 else 0)
      ensures status == 0 ==> frame == m.Payload() && client == Handed(core, old(client))
      ensures status != 0 ==> client == old(client).(receiver := Outside)
    {
      frame := Frame(0, 0, 0);
      Take(TestLoop(slot));
      if !state.stopping && state.generation == lastGeneration {
        Take(TestInterrupt(slot));
      }
      Take(TestExit(slot));
      if interrupted {
        status := -1;
      } else if state.stopping {
        Take(Exit(slot));
        status := 1;
      } else {
        lastGeneration := state.generation;
        frame := Frame(state.sequence, state.timeNs, state.phase);
        Take(Exit(slot));
        status := 0;
      }
    }

    /** One step of the transition system by this client; only the ghost state moves. */
    ghost method Take(step: Step)
      requires !IsServerStep(step) && ClientEnabled(state.core, slot, client, step)
      modifies this`client, state`core
      ensures client == ClientNext(old(state.core), slot, old(client), step)
      ensures state.core == ClientCore(old(state.core), slot, old(client), step)
    {
      var core := state.core;
      state.core := ClientCore(core, slot, client, step);
      client := ClientNext(core, slot, client, step);
    }

    /** The unlocked store that begins simulith_shared_barrier_interrupt. */
    method InterruptStore()
      requires Valid() && connected
      modifies this
      ensures Valid()
      ensures client == ClientNext(state.core, slot, old(client), Step.InterruptStore(slot))
    {
      interrupted := true;
      client := ClientNext(state.core, slot, client, Step.InterruptStore(slot));
    }
  }
}
