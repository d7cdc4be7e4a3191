/** The process-shared phase barrier and the server loop that drives it, as a transition system.

    Each step is one atomic load or store outside the mutex, one store of the publisher, or a stretch of a lock
    section whose effects no other thread can tell apart from a single step. `count`, `done`, `seen` and
    `receipts` (and the publication index carried beside a loaded generation) are history: no step tests them
    to decide what a thread does. */
module Barrier {
  import opened Frames

  // ---------------------------------------------------------------- state

  /** A frame returned by a receive, with the publication it was returned for. */
  datatype Receipt = Receipt(at: nat, frame: Frame)

  /** Where a client's receiving thread is. `published` is the generation it loaded, `at` that generation's
      publication index. */
  datatype Receiver =
    | Outside
    | Loading
    | Loaded(published: U64, at: nat)
    | ReadingSequence(published: U64, at: nat)
    | ReadingTime(published: U64, at: nat, sequence: nat)
    | ReadingPhase(published: U64, at: nat, sequence: nat, time: nat)
    | Returning(published: U64, at: nat, sequence: nat, time: nat, phase: nat)
    | Locking
    | LoopTop
    | LoopInterrupt
    | GoingToSleep
    | Asleep
    | Woken
    | ExitInterrupt
    | ExitRest

  datatype Client = Client(
    connected: bool,
    fast: bool,
    interrupted: bool,
    lastGeneration: U64,
    receiver: Receiver,
    pendingInterrupts: nat,   // interrupt calls that have stored the flag and not yet taken the mutex
    seen: nat,
    receipts: seq<Receipt>)

  datatype Holder = Free | ByServer | ByReceiver(slot: nat) | ByCompleter(slot: nat)

  /** Where the server loop is. In `Storing(stage)` it has made the first `stage` stores of a publish, in
      `Signalling(next)` it has signalled the slots below `next`. */
  datatype Server =
    | Ready
    | Storing(stage: nat)
    | Signalling(next: nat)
    | Checking(responded: set<nat>)
    | WaitAsleep(responded: set<nat>)
    | WaitWoken(responded: set<nat>)

  datatype Core = Core(
    cfg: Config,
    generation: U64,
    frame: Frame,
    participants: set<nat>,
    completion: set<nat>,
    stopping: bool,
    holder: Holder,
    server: Server,
    count: nat,
    done: set<(nat, nat)>)   // (slot, publication) pairs that were completed

  datatype System = System(core: Core, clients: seq<Client>)

  function Wrap(n: nat): U64 {
    n % WORD64
  }

  lemma CloseWrapsDiffer(a: nat, b: nat)
    requires a <= b <= a + 3
    ensures Wrap(a) == Wrap(b) <==> a == b
  {
    if Wrap(a) == Wrap(b) {
      assert (b - a) % WORD64 == 0;
    }
  }

  lemma WrapSuccessor(n: nat)
    ensures Wrap(Wrap(n) + 1) == Wrap(n + 1)
  {
  }

  ghost predicate Init(s: System) {
    && ValidConfig(s.core.cfg)
    && s.core == Core(s.core.cfg, 0, Frame(0, 0, 0), {}, {}, false, Free, Ready, 0, {})
    && |s.clients| == |s.core.cfg.masks|
    && forall i :: 0 <= i < |s.clients| ==>
         s.clients[i] == Client(false, false, false, 0, Outside, 0, 0, [])
  }

  // ---------------------------------------------------------------- steps

  datatype Step =
    | PublishLock | PublishStore | PublishBump | PublishSignal | PublishUnlock
    | PhaseDone | WaitFast | WaitLock | WaitWake | WaitReturn
    | Stop
    | Connect(slot: nat, fastSafe: bool)
    | ReceiveStart(slot: nat) | Load(slot: nat) | Decide(slot: nat)
    | ReadSequence(slot: nat) | ReadTime(slot: nat) | ReadPhase(slot: nat) | Return(slot: nat)
    | Lock(slot: nat) | TestLoop(slot: nat) | TestInterrupt(slot: nat) | Sleep(slot: nat) | Wake(slot: nat)
    | TestExit(slot: nat) | Exit(slot: nat)
    | InterruptStore(slot: nat) | InterruptLock(slot: nat)
    | Complete(slot: nat, receipt: nat) | CompleteExit(slot: nat)

  ghost predicate IsServerStep(step: Step) {
    || step.PublishLock? || step.PublishStore? || step.PublishBump? || step.PublishSignal?
    || step.PublishUnlock? || step.PhaseDone? || step.WaitFast? || step.WaitLock? || step.WaitWake?
    || step.WaitReturn? || step.Stop?
  }

  ghost predicate ServerEnabled(core: Core, step: Step)
    requires IsServerStep(step)
  {
    match step
    case PublishLock => core.server.Ready? && core.holder.Free? && Representable(core.cfg, core.count + 1)
    case PublishStore => core.server.Storing? && core.server.stage < 5
    case PublishBump => core.server.Storing? && core.server.stage == 5
    case PublishSignal => core.server.Signalling? && core.server.next < |core.cfg.masks|
    case PublishUnlock => core.server.Signalling? && core.server.next >= |core.cfg.masks|
    // all_phase_participants_responded
    case PhaseDone => core.count > 0 && core.server.Checking?
                      && ParticipantsAt(core.cfg, core.count) <= core.server.responded
    // the unlocked load of the completion mask, tested against the required mask
    case WaitFast => core.count > 0 && core.server.Checking?
                     && ParticipantsAt(core.cfg, core.count) <= core.completion
    case WaitLock => core.count > 0 && core.server.Checking? && core.holder.Free?
    case WaitWake => core.server.WaitAsleep?
    case WaitReturn => core.count > 0 && core.server.WaitWoken? && core.holder.Free?
    case Stop => core.holder.Free?
  }

  /** record_shared_completions keeps the bits that belong to participants of the current phase. */
  ghost function Recorded(core: Core, responded: set<nat>): set<nat>
    requires core.count > 0
  {
    responded + core.completion * ParticipantsAt(core.cfg, core.count)
  }

  ghost function ServerCore(core: Core, step: Step): Core
    requires IsServerStep(step) && ServerEnabled(core, step)
  {
    match step
    case PublishLock => core.(server := Storing(0), holder := ByServer)
    case PublishStore =>
      var next := FrameAt(core.cfg, core.count + 1);
      var stored := core.(server := Storing(core.server.stage + 1));
      if core.server.stage == 0 then stored.(frame := core.frame.(sequence := next.sequence))
      else if core.server.stage == 1 then stored.(frame := core.frame.(time := next.time))
      else if core.server.stage == 2 then stored.(frame := core.frame.(phase := next.phase))
      else if core.server.stage == 3 then stored.(participants := ParticipantsAt(core.cfg, core.count + 1))
      else stored.(completion := {})
    case PublishBump =>
      core.(generation := Wrap(core.generation + 1), count := core.count + 1, server := Signalling(0))
    case PublishSignal => core.(server := Signalling(core.server.next + 1))
    case PublishUnlock => core.(server := Checking({}), holder := Free)
    case PhaseDone => core.(server := Ready)
    case WaitFast => core.(server := Checking(Recorded(core, core.server.responded)))
    case WaitLock =>
      if ParticipantsAt(core.cfg, core.count) <= core.completion || core.stopping
      then core.(server := Checking(Recorded(core, core.server.responded)))
      else core.(server := WaitAsleep(core.server.responded))
    case WaitWake => core.(server := WaitWoken(core.server.responded))
    case WaitReturn => core.(server := Checking(Recorded(core, core.server.responded)))
    case Stop =>
      core.(stopping := true,
            server := if core.server.WaitAsleep? then WaitWoken(core.server.responded) else core.server)
  }

  function WakeUp(c: Client): Client {
    if c.receiver.Asleep? then c.(receiver := Woken) else c
  }

  ghost function ServerClients(s: System, step: Step): seq<Client>
    requires IsServerStep(step) && ServerEnabled(s.core, step)
  {
    if step.PublishSignal? && s.core.server.next in s.core.participants && s.core.server.next < |s.clients| then
      s.clients[s.core.server.next := WakeUp(s.clients[s.core.server.next])]
    else if step.Stop? then
      seq(|s.clients|, i requires 0 <= i < |s.clients| => WakeUp(s.clients[i]))
    else s.clients
  }

  /** complete accepts only a participant that has not completed, and only the published sequence and phase. */
  predicate CompletionAllowed(core: Core, i: nat, sequence: nat, phase: nat) {
    && !core.stopping
    && i in core.participants
    && core.frame.sequence == sequence
    && core.frame.phase == phase
    && i !in core.completion
  }

  /** Steps of slot i's client: its receiver, the threads that complete its frames, its interrupters. */
  ghost predicate ClientEnabled(core: Core, i: nat, c: Client, step: Step)
    requires !IsServerStep(step)
  {
    match step
    case Connect(_, _) => !c.connected && core.holder.Free?
    case ReceiveStart(_) => c.connected && c.receiver.Outside?
    case Load(_) => c.receiver.Loading?
    case Decide(_) => c.receiver.Loaded?
    case ReadSequence(_) => c.receiver.ReadingSequence?
    case ReadTime(_) => c.receiver.ReadingTime?
    case ReadPhase(_) => c.receiver.ReadingPhase?
    case Return(_) => c.receiver.Returning?
    case Lock(_) => (c.receiver.Locking? || c.receiver.Woken?) && core.holder.Free?
    case TestLoop(_) => c.receiver.LoopTop?
    case TestInterrupt(_) => c.receiver.LoopInterrupt?
    case Sleep(_) => c.receiver.GoingToSleep?
    case Wake(_) => c.receiver.Asleep?
    case TestExit(_) => c.receiver.ExitInterrupt?
    case Exit(_) => c.receiver.ExitRest?
    case InterruptStore(_) => c.connected
    case InterruptLock(_) => c.pendingInterrupts > 0 && core.holder.Free?
    // the client layer completes only frames it was given
    case Complete(_, r) => r < |c.receipts| && core.holder.Free?
    case CompleteExit(_) => core.holder == ByCompleter(i)
    case _ => false
  }

  ghost function ClientNext(core: Core, i: nat, c: Client, step: Step): Client
    requires !IsServerStep(step) && ClientEnabled(core, i, c, step)
  {
    match step
    case Connect(_, fastSafe) =>
      c.(connected := true,
         fast := fastSafe,
         lastGeneration := if core.generation > 0 then core.generation - 1 else 0,
         seen := if core.generation > 0 && core.count > 0 then core.count - 1 else core.count)
    case ReceiveStart(_) => c.(receiver := Loading)
    case Load(_) => c.(receiver := Loaded(core.generation, core.count))
    case Decide(_) =>
      if c.fast && c.receiver.published != c.lastGeneration && !c.interrupted
      then c.(receiver := ReadingSequence(c.receiver.published, c.receiver.at))
      else c.(receiver := Locking)
    case ReadSequence(_) => c.(receiver := ReadingTime(c.receiver.published, c.receiver.at, core.frame.sequence))
    case ReadTime(_) =>
      c.(receiver := ReadingPhase(c.receiver.published, c.receiver.at, c.receiver.sequence, core.frame.time))
    case ReadPhase(_) =>
      c.(receiver := Returning(c.receiver.published, c.receiver.at, c.receiver.sequence, c.receiver.time,
                               core.frame.phase))
    case Return(_) =>
      var r := c.receiver;
      c.(receiver := Outside, lastGeneration := r.published, seen := r.at,
         receipts := c.receipts + [Receipt(r.at, Frame(r.sequence, r.time, r.phase))])
    case Lock(_) => c.(receiver := LoopTop)
    case TestLoop(_) =>
      if core.stopping || core.generation != c.lastGeneration
      then c.(receiver := ExitInterrupt)
      else c.(receiver := LoopInterrupt)
    case TestInterrupt(_) => c.(receiver := if c.interrupted then ExitInterrupt else GoingToSleep)
    case Sleep(_) => c.(receiver := Asleep)
    case Wake(_) => c.(receiver := Woken)
    case TestExit(_) => c.(receiver := if c.interrupted then Outside else ExitRest)
    case Exit(_) =>
      if core.stopping then c.(receiver := Outside)
      else c.(receiver := Outside, lastGeneration := core.generation, seen := core.count,
              receipts := c.receipts + [Receipt(core.count, core.frame)])
    case InterruptStore(_) => c.(interrupted := true, pendingInterrupts := c.pendingInterrupts + 1)
    case InterruptLock(_) => WakeUp(c).(pendingInterrupts := c.pendingInterrupts - 1)
    case Complete(_, _) => c
    case CompleteExit(_) => c
  }

  ghost function ClientCore(core: Core, i: nat, c: Client, step: Step): Core
    requires !IsServerStep(step) && ClientEnabled(core, i, c, step)
  {
    match step
    case Lock(_) => core.(holder := ByReceiver(i))
    case Sleep(_) => core.(holder := Free)
    case TestExit(_) => if c.interrupted then core.(holder := Free) else core
    case Exit(_) => core.(holder := Free)
    case Complete(_, r) =>
      var f := c.receipts[r].frame;
      if CompletionAllowed(core, i, f.sequence, f.phase)
      then core.(completion := core.completion + {i}, done := core.done + {(i, core.count)},
                 holder := ByCompleter(i))
      else core
    case CompleteExit(_) =>
      core.(holder := Free,
            server := if core.server.WaitAsleep? then WaitWoken(core.server.responded) else core.server)
    case _ => core
  }

  ghost predicate Enabled(s: System, step: Step) {
    if IsServerStep(step) then ServerEnabled(s.core, step)
    else step.slot < |s.clients| && ClientEnabled(s.core, step.slot, s.clients[step.slot], step)
  }

  ghost function Apply(s: System, step: Step): System
    requires Enabled(s, step)
  {
    if IsServerStep(step) then System(ServerCore(s.core, step), ServerClients(s, step))
    else
      var i := step.slot;
      System(ClientCore(s.core, i, s.clients[i], step),
             s.clients[i := ClientNext(s.core, i, s.clients[i], step)])
  }

  /** Any finite interleaving: an initial state, then one enabled step after another. */
  ghost predicate Interleaving(states: seq<System>, steps: seq<Step>) {
    && |states| == |steps| + 1
    && Init(states[0])
    && forall k :: 0 <= k < |steps| ==> Enabled(states[k], steps[k]) && states[k + 1] == Apply(states[k], steps[k])
  }

  /** The handshake sets fast_receive_safe exactly for a client that takes part in all three phases. */
  ghost predicate HandshakeRule(cfg: Config, step: Step) {
    step.Connect? ==>
      (step.fastSafe <==> step.slot < |cfg.masks| && cfg.masks[step.slot] == ALL_PHASES)
  }

  /** No client with a partial mask gets the unlocked receive. */
  ghost predicate SafeConnection(cfg: Config, step: Step) {
    step.Connect? && step.fastSafe ==> step.slot < |cfg.masks| && cfg.masks[step.slot] == ALL_PHASES
  }

  /** A run of the system: an interleaving in which every connection follows the handshake rule. */
  ghost predicate Run(states: seq<System>, steps: seq<Step>) {
    && Interleaving(states, steps)
    && forall k :: 0 <= k < |steps| ==> HandshakeRule(states[k].core.cfg, steps[k])
  }

  ghost predicate Reachable(s: System) {
    exists states: seq<System>, steps: seq<Step> :: Run(states, steps) && states[|steps|] == s
  }

  // ---------------------------------------------------------------- whole calls

  /** The state after one whole publish. */
  ghost function Published(core: Core): Core {
    var k := core.count + 1;
    core.(generation := Wrap(core.generation + 1), frame := FrameAt(core.cfg, k),
          participants := ParticipantsAt(core.cfg, k), completion := {}, count := k,
          server := Checking({}), holder := Free)
  }

  /** The client once it has been handed the current publication. */
  function Handed(core: Core, c: Client): Client {
    c.(receiver := Outside, lastGeneration := core.generation, seen := core.count,
       receipts := c.receipts + [Receipt(core.count, core.frame)])
  }
}
