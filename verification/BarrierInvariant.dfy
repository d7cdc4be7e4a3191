/** The inductive invariant of the barrier protocol and the proof that every step keeps it. */
module BarrierInvariant {
  import opened Frames
  import opened Barrier

  ghost predicate Has(receipts: seq<Receipt>, k: nat) {
    exists j :: 0 <= j < |receipts| && receipts[j].at == k
  }

  /** Slot i has completed the k-th publication. */
  ghost predicate Completed(core: Core, i: nat, k: nat) {
    (i, k) in core.done
  }

  ghost predicate AllCompleted(core: Core, k: nat)
    requires k > 0
  {
    forall i :: i in ParticipantsAt(core.cfg, k) ==> Completed(core, i, k)
  }

  ghost predicate BeforePublication(server: Server) {
    server.Ready? || server.Storing?
  }

  /** How many of the five stores of a publish have been made; outside a publish, none. */
  ghost function Stage(server: Server): nat {
    if server.Storing? then server.stage else 0
  }

  /** The shared payload holds the last publication, with the first stores of the next one on top. */
  ghost predicate PayloadInv(core: Core) {
    && (Stage(core.server) > 0 ==> core.frame.sequence == FrameAt(core.cfg, core.count + 1).sequence)
    && (Stage(core.server) > 1 ==> core.frame.time == FrameAt(core.cfg, core.count + 1).time)
    && (Stage(core.server) > 2 ==> core.frame.phase == FrameAt(core.cfg, core.count + 1).phase)
    && (Stage(core.server) > 3 ==> core.participants == ParticipantsAt(core.cfg, core.count + 1))
    && (Stage(core.server) > 4 ==> core.completion == {})
    && (core.count > 0 ==>
          && (Stage(core.server) == 0 ==> core.frame == FrameAt(core.cfg, core.count))
          && (Stage(core.server) <= 3 ==> core.participants == ParticipantsAt(core.cfg, core.count)))
    && (core.count == 0 ==>
          && BeforePublication(core.server)
          && core.completion == {}
          && (Stage(core.server) <= 3 ==> core.participants == {}))
  }

  ghost predicate CompletionInv(core: Core) {
    && (forall i, k :: (i, k) in core.done ==> 1 <= k <= core.count && Owns(core.cfg, i, k))
    && (core.count > 0 && Stage(core.server) <= 4 ==>
          forall i :: i in core.completion <==> (i, core.count) in core.done)
    && (forall k :: 1 <= k < core.count ==> AllCompleted(core, k))
    && (core.count > 0 && BeforePublication(core.server) ==> AllCompleted(core, core.count))
  }

  ghost predicate ServerInv(core: Core) {
    && (core.holder.ByServer? <==> core.server.Storing? || core.server.Signalling?)
    && (core.server.Storing? ==> core.server.stage <= 5 && Representable(core.cfg, core.count + 1))
    && (core.server.Checking? || core.server.WaitAsleep? || core.server.WaitWoken? ==>
          forall i :: i in core.server.responded ==> (i, core.count) in core.done)
    && (core.holder.ByCompleter? ==> core.holder.slot < |core.cfg.masks|)
    && (core.server.WaitAsleep? ==>
          !core.stopping && core.count > 0
          && (core.holder.ByCompleter? || !(ParticipantsAt(core.cfg, core.count) <= core.completion)))
    && (core.count > 0 ==> Representable(core.cfg, core.count))
  }

  ghost predicate CoreInv(core: Core) {
    && ValidConfig(core.cfg)
    && core.generation == Wrap(core.count)
    && PayloadInv(core)
    && CompletionInv(core)
    && ServerInv(core)
  }

  /** What a client's history says: its receipts are publications in order, each carrying that publication's
      frame, and it has skipped none that it owns. */
  ghost predicate HistoryInv(core: Core, i: nat, c: Client) {
    && c.seen <= core.count
    && c.lastGeneration == Wrap(c.seen)
    && (forall j :: 0 <= j < |c.receipts| ==>
          && 1 <= c.receipts[j].at <= c.seen
          && c.receipts[j].frame == FrameAt(core.cfg, c.receipts[j].at))
    && (forall j, k :: 0 <= j < k < |c.receipts| ==> c.receipts[j].at < c.receipts[k].at)
    && (forall k :: 1 <= k <= c.seen && Owns(core.cfg, i, k) ==> Has(c.receipts, k))
    && (forall k :: (i, k) in core.done ==> Has(c.receipts, k))
    && (!c.connected ==> c.receipts == [] && c.seen == 0 && c.receiver.Outside? && !c.interrupted && !c.fast)
    && (c.fast ==> i < |core.cfg.masks| && core.cfg.masks[i] == ALL_PHASES)
  }

  /** The fast path holds a publication that cannot be replaced while it reads. */
  ghost predicate FastInv(core: Core, i: nat, c: Client) {
    var r := c.receiver;
    && (r.Loaded? ==> r.published == Wrap(r.at) && c.seen <= r.at <= core.count
                      && (c.fast && c.seen < r.at ==> r.at == core.count))
    && (r.ReadingSequence? || r.ReadingTime? || r.ReadingPhase? || r.Returning? ==>
          c.fast && r.published == Wrap(r.at) && c.seen < r.at == core.count)
    && (r.ReadingTime? || r.ReadingPhase? || r.Returning? ==>
          r.sequence == FrameAt(core.cfg, core.count).sequence)
    && (r.ReadingPhase? || r.Returning? ==> r.time == FrameAt(core.cfg, core.count).time)
    && (r.Returning? ==> r.phase == FrameAt(core.cfg, core.count).phase)
  }

  ghost predicate InLockSection(r: Receiver) {
    r.LoopTop? || r.LoopInterrupt? || r.GoingToSleep? || r.ExitInterrupt? || r.ExitRest?
  }

  /** The slow path: what it knows at each point of its lock section, and why a sleeper will be woken. */
  ghost predicate SlowInv(core: Core, i: nat, c: Client) {
    var r := c.receiver;
    && (core.holder == ByReceiver(i) <==> InLockSection(r))
    && (r.LoopInterrupt? || r.GoingToSleep? ==> !core.stopping && core.generation == c.lastGeneration)
    && (r.GoingToSleep? ==> (c.interrupted ==> c.pendingInterrupts > 0))
    && (r.ExitInterrupt? ==> core.stopping || core.generation != c.lastGeneration || c.interrupted)
    && (r.ExitRest? ==> core.stopping || core.generation != c.lastGeneration)
    && (r.Asleep? ==> AsleepInv(core, i, c))
  }

  /** A sleeper with a reason to be awake has a wake-up on its way. */
  ghost predicate AsleepInv(core: Core, i: nat, c: Client) {
    && !core.stopping
    && (c.interrupted ==> c.pendingInterrupts > 0)
    && (core.count > 0 && Owns(core.cfg, i, core.count) && core.generation != c.lastGeneration ==>
          core.server.Signalling? && core.server.next <= i)
  }

  ghost predicate ClientInv(core: Core, i: nat, c: Client) {
    && HistoryInv(core, i, c)
    && FastInv(core, i, c)
    && SlowInv(core, i, c)
  }

  ghost predicate Inv(s: System) {
    && CoreInv(s.core)
    && |s.clients| == |s.core.cfg.masks|
    && (forall i :: 0 <= i < |s.clients| ==> ClientInv(s.core, i, s.clients[i]))
    && (s.core.holder.ByReceiver? ==> s.core.holder.slot < |s.clients|)
  }

  lemma InitKeeps(s: System)
    requires Init(s)
    ensures Inv(s)
  {
  }

  lemma CompletedIsSeen(core: Core, i: nat, c: Client, k: nat)
    requires CoreInv(core) && HistoryInv(core, i, c)
    requires 1 <= k && Owns(core.cfg, i, k)
    requires k < core.count || (k == core.count && BeforePublication(core.server))
    ensures Has(c.receipts, k) && k <= c.seen
  {
    assert AllCompleted(core, k);
    assert i in ParticipantsAt(core.cfg, k);
    assert Completed(core, i, k);
  }

  /** A client that has not yet seen the last publication it owns keeps the server from the next one. */
  lemma UnseenBlocksServer(core: Core, i: nat, c: Client)
    requires CoreInv(core) && HistoryInv(core, i, c)
    requires core.count > 0 && Owns(core.cfg, i, core.count) && c.seen < core.count
    ensures !BeforePublication(core.server)
  {
    if BeforePublication(core.server) {
      CompletedIsSeen(core, i, c, core.count);
    }
  }

  /** No registered client is ever more than three publications behind, so comparing wrapped 64-bit
      generations is as good as comparing the counts. */
  lemma AtMostThreeBehind(core: Core, i: nat, c: Client)
    requires CoreInv(core) && HistoryInv(core, i, c) && i < |core.cfg.masks|
    ensures core.count <= c.seen + 3
    ensures core.generation == c.lastGeneration <==> core.count == c.seen
  {
    var owned := OwnsOneOfThree(core.cfg, i, c.seen + 1);
    if core.count > c.seen + 3 {
      CompletedIsSeen(core, i, c, owned);
    }
    CloseWrapsDiffer(c.seen, core.count);
  }

  // ---------------------------------------------------------------- server steps

  lemma StoreKeepsCore(core: Core)
    requires CoreInv(core) && ServerEnabled(core, PublishStore)
    ensures CoreInv(ServerCore(core, PublishStore))
  {
    var next := ServerCore(core, PublishStore);
    assert forall k :: 1 <= k <= core.count && AllCompleted(core, k) ==> AllCompleted(next, k);
    assert PayloadInv(next);
    assert CompletionInv(next);
    assert ServerInv(next);
  }

  lemma BumpKeepsCore(core: Core)
    requires CoreInv(core) && ServerEnabled(core, PublishBump)
    ensures CoreInv(ServerCore(core, PublishBump))
  {
    var next := ServerCore(core, PublishBump);
    WrapSuccessor(core.count);
    assert next.frame == FrameAt(next.cfg, next.count);
    forall k | 1 <= k < next.count
      ensures AllCompleted(next, k)
    {
      assert AllCompleted(core, k);
    }
    assert CompletionInv(next);
  }

  lemma ServerStepKeepsCore(core: Core, step: Step)
    requires CoreInv(core) && IsServerStep(step) && ServerEnabled(core, step)
    ensures CoreInv(ServerCore(core, step))
  {
    if step.PublishStore? {
      StoreKeepsCore(core);
    } else if step.PublishBump? {
      BumpKeepsCore(core);
    } else {
      var next := ServerCore(core, step);
      assert forall k :: 1 <= k <= core.count && AllCompleted(core, k) ==> AllCompleted(next, k);
      if step.PhaseDone? {
        assert AllCompleted(next, next.count);
      }
    }
  }

  /** What a server step does to slot i's client: a signal or a stop may wake it. */
  ghost function AfterServer(core: Core, step: Step, i: nat, c: Client): Client
    requires IsServerStep(step) && ServerEnabled(core, step)
  {
    if step.Stop? || (step.PublishSignal? && core.server.next == i && i in core.participants) then WakeUp(c) else c
  }

  lemma BumpKeepsClient(core: Core, i: nat, c: Client)
    requires CoreInv(core) && i < |core.cfg.masks| && ClientInv(core, i, c) && ServerEnabled(core, PublishBump)
    ensures ClientInv(ServerCore(core, PublishBump), i, c)
  {
    var next := ServerCore(core, PublishBump);
    WrapSuccessor(core.count);
    if core.count > 0 && c.seen < core.count && Owns(core.cfg, i, core.count) {
      UnseenBlocksServer(core, i, c);
    }
    if c.fast && core.count > 0 {
      assert PhaseAt(core.count) in ALL_PHASES;
      assert c.seen == core.count;
    }
    assert HistoryInv(next, i, c);
    assert FastInv(next, i, c);
    assert SlowInv(next, i, c);
  }

  lemma SignalKeepsClient(core: Core, i: nat, c: Client)
    requires CoreInv(core) && i < |core.cfg.masks| && ClientInv(core, i, c) && ServerEnabled(core, PublishSignal)
    ensures ClientInv(ServerCore(core, PublishSignal), i, AfterServer(core, PublishSignal, i, c))
  {
    var next := ServerCore(core, PublishSignal);
    var after := AfterServer(core, PublishSignal, i, c);
    assert HistoryInv(next, i, after);
    if after.receiver.Asleep? && core.count > 0 && Owns(core.cfg, i, core.count) {
      assert i in ParticipantsAt(core.cfg, core.count);
      assert core.participants == ParticipantsAt(core.cfg, core.count);
    }
    assert SlowInv(next, i, after);
  }

  lemma ServerStepKeepsClient(core: Core, step: Step, i: nat, c: Client)
    requires CoreInv(core) && i < |core.cfg.masks| && ClientInv(core, i, c)
    requires IsServerStep(step) && ServerEnabled(core, step)
    ensures ClientInv(ServerCore(core, step), i, AfterServer(core, step, i, c))
  {
    if step.PublishBump? {
      BumpKeepsClient(core, i, c);
    } else if step.PublishSignal? {
      SignalKeepsClient(core, i, c);
    } else {
      OtherKeepsHistory(core, step, i, c);
      OtherKeepsFast(core, step, i, c);
      OtherKeepsSlow(core, step, i, c);
    }
  }

  lemma OtherKeepsHistory(core: Core, step: Step, i: nat, c: Client)
    requires CoreInv(core) && i < |core.cfg.masks| && ClientInv(core, i, c)
    requires IsServerStep(step) && ServerEnabled(core, step) && !step.PublishBump? && !step.PublishSignal?
    ensures HistoryInv(ServerCore(core, step), i, AfterServer(core, step, i, c))
  {
    hide FastInv, SlowInv;
  }

  lemma OtherKeepsFast(core: Core, step: Step, i: nat, c: Client)
    requires CoreInv(core) && i < |core.cfg.masks| && ClientInv(core, i, c)
    requires IsServerStep(step) && ServerEnabled(core, step) && !step.PublishBump? && !step.PublishSignal?
    ensures FastInv(ServerCore(core, step), i, AfterServer(core, step, i, c))
  {
    hide SlowInv;
  }

  lemma OtherKeepsSlow(core: Core, step: Step, i: nat, c: Client)
    requires CoreInv(core) && i < |core.cfg.masks| && ClientInv(core, i, c)
    requires IsServerStep(step) && ServerEnabled(core, step) && !step.PublishBump? && !step.PublishSignal?
    ensures SlowInv(ServerCore(core, step), i, AfterServer(core, step, i, c))
  {
    hide FastInv;
  }

  // ---------------------------------------------------------------- client steps

  lemma CompleteKeepsCore(core: Core, i: nat, c: Client, step: Step)
    requires CoreInv(core) && i < |core.cfg.masks| && ClientInv(core, i, c)
    requires step.Complete? && ClientEnabled(core, i, c, step)
    ensures CoreInv(ClientCore(core, i, c, step))
    ensures ClientCore(core, i, c, step).done != core.done ==> c.receipts[step.receipt].at == core.count
  {
    var f := c.receipts[step.receipt].frame;
    var next := ClientCore(core, i, c, step);
    if CompletionAllowed(core, i, f.sequence, f.phase) {
      FramesAreDistinct(core.cfg, c.receipts[step.receipt].at, core.count);
      assert i in ParticipantsAt(core.cfg, core.count);
      assert forall k :: 1 <= k <= core.count && AllCompleted(core, k) ==> AllCompleted(next, k);
    }
  }

  lemma ClientStepKeepsCore(core: Core, i: nat, c: Client, step: Step)
    requires CoreInv(core) && i < |core.cfg.masks| && ClientInv(core, i, c)
    requires !IsServerStep(step) && ClientEnabled(core, i, c, step)
    ensures CoreInv(ClientCore(core, i, c, step))
  {
    if step.Complete? {
      CompleteKeepsCore(core, i, c, step);
    } else {
      var next := ClientCore(core, i, c, step);
      assert forall k :: 1 <= k <= core.count && AllCompleted(core, k) ==> AllCompleted(next, k);
    }
  }

  lemma ClientStepKeepsOther(core: Core, i: nat, c: Client, step: Step, j: nat, d: Client)
    requires CoreInv(core) && i < |core.cfg.masks| && ClientInv(core, i, c)
    requires j != i && ClientInv(core, j, d)
    requires !IsServerStep(step) && ClientEnabled(core, i, c, step)
    ensures ClientInv(ClientCore(core, i, c, step), j, d)
  {
    var next := ClientCore(core, i, c, step);
    assert HistoryInv(next, j, d);
    assert FastInv(next, j, d);
    assert SlowInv(next, j, d);
  }

  /** Appending a receipt for the current publication, unseen so far, keeps the history. */
  lemma DeliveryKeepsHistory(core: Core, i: nat, c: Client, c': Client)
    requires CoreInv(core) && i < |core.cfg.masks| && HistoryInv(core, i, c) && c.connected
    requires c.seen < core.count && c'.seen == core.count && c'.lastGeneration == core.generation
    requires c'.connected && c'.fast == c.fast
    requires c'.receipts == c.receipts + [Receipt(core.count, FrameAt(core.cfg, core.count))]
    ensures HistoryInv(core, i, c')
  {
    var n := |c.receipts|;
    assert c'.receipts[n].at == core.count;
    assert forall j :: 0 <= j < n ==> c'.receipts[j] == c.receipts[j];
    forall k | Has(c.receipts, k)
      ensures Has(c'.receipts, k)
    {
      var j :| 0 <= j < n && c.receipts[j].at == k;
      assert c'.receipts[j].at == k;
    }
    forall k | 1 <= k <= c'.seen && Owns(core.cfg, i, k)
      ensures Has(c'.receipts, k)
    {
      if k < core.count {
        CompletedIsSeen(core, i, c, k);
      }
    }
  }

  lemma ReturnKeepsOwn(core: Core, i: nat, c: Client, step: Step)
    requires CoreInv(core) && i < |core.cfg.masks| && ClientInv(core, i, c)
    requires step.Return? && ClientEnabled(core, i, c, step)
    ensures ClientInv(core, i, ClientNext(core, i, c, step))
  {
    DeliveryKeepsHistory(core, i, c, ClientNext(core, i, c, step));
  }

  lemma ExitKeepsOwn(core: Core, i: nat, c: Client, step: Step)
    requires CoreInv(core) && i < |core.cfg.masks| && ClientInv(core, i, c)
    requires step.Exit? && ClientEnabled(core, i, c, step)
    ensures ClientInv(ClientCore(core, i, c, step), i, ClientNext(core, i, c, step))
  {
    AtMostThreeBehind(core, i, c);
    var c' := ClientNext(core, i, c, step);
    var next := ClientCore(core, i, c, step);
    if !core.stopping {
      DeliveryKeepsHistory(core, i, c, c');
    }
    assert HistoryInv(next, i, c');
  }

  lemma ConnectKeepsOwn(core: Core, i: nat, c: Client, step: Step)
    requires CoreInv(core) && i < |core.cfg.masks| && ClientInv(core, i, c)
    requires step.Connect? && step.slot == i && ClientEnabled(core, i, c, step) && SafeConnection(core.cfg, step)
    ensures ClientInv(core, i, ClientNext(core, i, c, step))
  {
    AtMostThreeBehind(core, i, c);
    var c' := ClientNext(core, i, c, step);
    forall k | 1 <= k <= c'.seen && Owns(core.cfg, i, k)
      ensures Has(c'.receipts, k)
    {
      CompletedIsSeen(core, i, c, k);
    }
    assert HistoryInv(core, i, c');
  }

  lemma DecideKeepsOwn(core: Core, i: nat, c: Client, step: Step)
    requires CoreInv(core) && i < |core.cfg.masks| && ClientInv(core, i, c)
    requires step.Decide? && ClientEnabled(core, i, c, step)
    ensures ClientInv(core, i, ClientNext(core, i, c, step))
  {
  }

  lemma CompleteKeepsOwn(core: Core, i: nat, c: Client, step: Step)
    requires CoreInv(core) && i < |core.cfg.masks| && ClientInv(core, i, c)
    requires step.Complete? && ClientEnabled(core, i, c, step)
    ensures ClientInv(ClientCore(core, i, c, step), i, c)
  {
    CompleteKeepsCore(core, i, c, step);
    var next := ClientCore(core, i, c, step);
    if next.done != core.done {
      assert Has(c.receipts, core.count);
    }
    assert HistoryInv(next, i, c);
    assert FastInv(next, i, c);
    assert SlowInv(next, i, c);
  }

  ghost predicate IsSlowPathStep(step: Step) {
    || step.Lock? || step.TestLoop? || step.TestInterrupt? || step.Sleep? || step.Wake? || step.TestExit?
  }

  lemma SlowStepKeepsHistory(core: Core, i: nat, c: Client, step: Step)
    requires CoreInv(core) && i < |core.cfg.masks| && ClientInv(core, i, c)
    requires IsSlowPathStep(step) && ClientEnabled(core, i, c, step)
    ensures HistoryInv(ClientCore(core, i, c, step), i, ClientNext(core, i, c, step))
  {
  }

  lemma SlowStepKeepsFast(core: Core, i: nat, c: Client, step: Step)
    requires CoreInv(core) && i < |core.cfg.masks| && ClientInv(core, i, c)
    requires IsSlowPathStep(step) && ClientEnabled(core, i, c, step)
    ensures FastInv(ClientCore(core, i, c, step), i, ClientNext(core, i, c, step))
  {
  }

  lemma SlowStepKeepsSlow(core: Core, i: nat, c: Client, step: Step)
    requires CoreInv(core) && i < |core.cfg.masks| && ClientInv(core, i, c)
    requires IsSlowPathStep(step) && ClientEnabled(core, i, c, step)
    ensures SlowInv(ClientCore(core, i, c, step), i, ClientNext(core, i, c, step))
  {
  }

  lemma SlowStepKeepsOwn(core: Core, i: nat, c: Client, step: Step)
    requires CoreInv(core) && i < |core.cfg.masks| && ClientInv(core, i, c)
    requires IsSlowPathStep(step) && ClientEnabled(core, i, c, step)
    ensures ClientInv(ClientCore(core, i, c, step), i, ClientNext(core, i, c, step))
  {
    hide HistoryInv, FastInv, SlowInv, ClientCore, ClientNext;
    SlowStepKeepsHistory(core, i, c, step);
    SlowStepKeepsFast(core, i, c, step);
    SlowStepKeepsSlow(core, i, c, step);
  }

  lemma InterruptKeepsOwn(core: Core, i: nat, c: Client, step: Step)
    requires CoreInv(core) && i < |core.cfg.masks| && ClientInv(core, i, c)
    requires step.InterruptStore? || step.InterruptLock? || step.CompleteExit?
    requires ClientEnabled(core, i, c, step)
    ensures ClientInv(ClientCore(core, i, c, step), i, ClientNext(core, i, c, step))
  {
    var c' := ClientNext(core, i, c, step);
    var next := ClientCore(core, i, c, step);
    assert HistoryInv(next, i, c');
    assert FastInv(next, i, c');
    assert SlowInv(next, i, c');
  }

  lemma ReadKeepsOwn(core: Core, i: nat, c: Client, step: Step)
    requires CoreInv(core) && i < |core.cfg.masks| && ClientInv(core, i, c)
    requires step.ReceiveStart? || step.Load? || step.ReadSequence? || step.ReadTime? || step.ReadPhase?
    requires ClientEnabled(core, i, c, step)
    ensures ClientInv(core, i, ClientNext(core, i, c, step))
  {
    var c' := ClientNext(core, i, c, step);
    if !step.ReceiveStart? && !step.Load? {
      assert PhaseAt(core.count) in ALL_PHASES;
      UnseenBlocksServer(core, i, c);
      assert core.frame == FrameAt(core.cfg, core.count);
    }
    assert HistoryInv(core, i, c');
    assert FastInv(core, i, c');
    assert SlowInv(core, i, c');
  }

  lemma ClientStepKeepsOwn(core: Core, i: nat, c: Client, step: Step)
    requires CoreInv(core) && i < |core.cfg.masks| && ClientInv(core, i, c)
    requires !IsServerStep(step) && step.slot == i && ClientEnabled(core, i, c, step)
    requires SafeConnection(core.cfg, step)
    ensures ClientInv(ClientCore(core, i, c, step), i, ClientNext(core, i, c, step))
  {
    if step.Return? {
      ReturnKeepsOwn(core, i, c, step);
    } else if step.Exit? {
      ExitKeepsOwn(core, i, c, step);
    } else if step.Connect? {
      ConnectKeepsOwn(core, i, c, step);
    } else if step.Decide? {
      DecideKeepsOwn(core, i, c, step);
    } else if step.Complete? {
      CompleteKeepsOwn(core, i, c, step);
    } else if IsSlowPathStep(step) {
      SlowStepKeepsOwn(core, i, c, step);
    } else if step.InterruptStore? || step.InterruptLock? || step.CompleteExit? {
      InterruptKeepsOwn(core, i, c, step);
    } else {
      ReadKeepsOwn(core, i, c, step);
    }
  }

  // ---------------------------------------------------------------- whole runs

  lemma ServerStepKeeps(s: System, step: Step)
    requires Inv(s) && Enabled(s, step) && IsServerStep(step)
    ensures Inv(Apply(s, step))
  {
    var s' := Apply(s, step);
    ServerStepKeepsCore(s.core, step);
    forall i | 0 <= i < |s'.clients|
      ensures ClientInv(s'.core, i, s'.clients[i])
    {
      ServerStepKeepsClient(s.core, step, i, s.clients[i]);
      assert s'.clients[i] == AfterServer(s.core, step, i, s.clients[i]);
    }
  }

  lemma ClientStepKeeps(s: System, step: Step)
    requires Inv(s) && Enabled(s, step) && !IsServerStep(step) && SafeConnection(s.core.cfg, step)
    ensures Inv(Apply(s, step))
  {
    var s' := Apply(s, step);
    var i := step.slot;
    ClientStepKeepsCore(s.core, i, s.clients[i], step);
    ClientStepKeepsOwn(s.core, i, s.clients[i], step);
    forall j | 0 <= j < |s'.clients| && j != i
      ensures ClientInv(s'.core, j, s'.clients[j])
    {
      ClientStepKeepsOther(s.core, i, s.clients[i], step, j, s.clients[j]);
    }
  }

  lemma StepKeeps(s: System, step: Step)
    requires Inv(s) && Enabled(s, step) && SafeConnection(s.core.cfg, step)
    ensures Inv(Apply(s, step))
  {
    if IsServerStep(step) {
      ServerStepKeeps(s, step);
    } else {
      ClientStepKeeps(s, step);
    }
  }

  lemma {:induction false} RunKeeps(states: seq<System>, steps: seq<Step>, k: nat)
    requires Run(states, steps) && k <= |steps|
    ensures Inv(states[k])
  {
    if k == 0 {
      InitKeeps(states[0]);
    } else {
      RunKeeps(states, steps, k - 1);
      StepKeeps(states[k - 1], steps[k - 1]);
    }
  }

  lemma ReachableKeeps(s: System)
    requires Reachable(s)
    ensures Inv(s)
  {
    var states, steps :| Run(states, steps) && states[|steps|] == s;
    RunKeeps(states, steps, |steps|);
  }
}
