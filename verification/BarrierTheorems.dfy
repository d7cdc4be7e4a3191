/** What the barrier guarantees in every reachable state, whatever the interleaving. */
module BarrierTheorems {
  import opened Frames
  import opened Barrier
  import opened BarrierInvariant

  /** The unlocked fast receive returns exactly the publication whose generation it loaded. */
  lemma FastReceiveIsExact(s: System, i: nat)
    requires Reachable(s) && Enabled(s, Return(i))
    ensures s.core.count > 0
    ensures var before, after := s.clients[i], Apply(s, Return(i)).clients[i];
            && after.receipts == before.receipts + [Receipt(s.core.count, FrameAt(s.core.cfg, s.core.count))]
            && after.lastGeneration == before.receiver.published == s.core.generation
            && after.seen == s.core.count
  {
    ReachableKeeps(s);
  }

  /** Nothing is stored into the published payload while a fast receive is reading it. */
  lemma FastReadIsUndisturbed(s: System, i: nat, step: Step)
    requires Reachable(s) && i < |s.clients| && Enabled(s, step) && HandshakeRule(s.core.cfg, step)
    requires var r := s.clients[i].receiver;
             r.ReadingSequence? || r.ReadingTime? || r.ReadingPhase? || r.Returning?
    ensures s.core.count > 0
    ensures Apply(s, step).core.frame == s.core.frame == FrameAt(s.core.cfg, s.core.count)
    ensures Apply(s, step).core.generation == s.core.generation
  {
    ReachableKeeps(s);
    assert ClientInv(s.core, i, s.clients[i]);
    assert PhaseAt(s.core.count) in ALL_PHASES;
    UnseenBlocksServer(s.core, i, s.clients[i]);
  }

  /** Every client is handed publications in order, each with that publication's own frame, and every
      publication it owns up to the last one but one: exactly once each. */
  lemma ReceiptsAreExact(s: System, i: nat)
    requires Reachable(s) && i < |s.clients|
    ensures var receipts := s.clients[i].receipts;
            && (forall j :: 0 <= j < |receipts| ==>
                  1 <= receipts[j].at <= s.core.count && receipts[j].frame == FrameAt(s.core.cfg, receipts[j].at))
            && (forall j, k :: 0 <= j < k < |receipts| ==> receipts[j].at < receipts[k].at)
            && (forall k :: 1 <= k < s.core.count && Owns(s.core.cfg, i, k) ==> Has(receipts, k))
  {
    ReachableKeeps(s);
    assert ClientInv(s.core, i, s.clients[i]);
    forall k | 1 <= k < s.core.count && Owns(s.core.cfg, i, k)
      ensures Has(s.clients[i].receipts, k)
    {
      CompletedIsSeen(s.core, i, s.clients[i], k);
    }
  }

  /** A sleeping receiver that has a reason to be awake is about to be woken: the server is still signalling
      its slot, or an interrupter has yet to take the mutex. No receiver sleeps through a stop. */
  lemma NoLostWakeup(s: System, i: nat)
    requires Reachable(s) && i < |s.clients| && s.clients[i].receiver.Asleep?
    ensures !s.core.stopping
    ensures s.clients[i].interrupted ==> s.clients[i].pendingInterrupts > 0
    ensures s.core.count > s.clients[i].seen && Owns(s.core.cfg, i, s.core.count) ==>
              s.core.server.Signalling? && s.core.server.next <= i && i in s.core.participants
  {
    ReachableKeeps(s);
    assert ClientInv(s.core, i, s.clients[i]);
    AtMostThreeBehind(s.core, i, s.clients[i]);
    if s.core.count > 0 && Owns(s.core.cfg, i, s.core.count) {
      assert i in ParticipantsAt(s.core.cfg, s.core.count);
    }
  }

  /** Once the barrier is stopping nobody sleeps on it, neither a receiver nor the server, and nobody is about to. */
  lemma NobodySleepsOnceStopping(s: System, i: nat)
    requires Reachable(s) && s.core.stopping && i < |s.clients|
    ensures !s.core.server.WaitAsleep?
    ensures var receiver := s.clients[i].receiver;
            !receiver.LoopInterrupt? && !receiver.GoingToSleep? && !receiver.Asleep?
  {
    ReachableKeeps(s);
    assert ClientInv(s.core, i, s.clients[i]);
  }

  /** The server does not sleep through the last completion: while it sleeps in its wait, some participant has yet to
      complete, or the one that just did still holds the mutex and wakes it on the way out. */
  lemma ServerIsWoken(s: System)
    requires Reachable(s) && s.core.server.WaitAsleep?
    ensures s.core.count > 0
    ensures s.core.holder.Free? ==>
              exists i :: i in ParticipantsAt(s.core.cfg, s.core.count) && !Completed(s.core, i, s.core.count)
    ensures s.core.holder.ByCompleter? ==>
              Enabled(s, CompleteExit(s.core.holder.slot)) && s.core.holder.slot < |s.clients|
              && Apply(s, CompleteExit(s.core.holder.slot)).core.server == WaitWoken(s.core.server.responded)
  {
    ReachableKeeps(s);
    if s.core.holder.Free? {
      CompletionMaskIsSound(s);
      var i :| i in ParticipantsAt(s.core.cfg, s.core.count) && i !in s.core.completion;
    }
  }

  /** What any of the three ways out of a wait tells the server: exactly who has completed the published phase, so that
      once everybody has, the phase is done. */
  lemma WaitTellsAll(s: System, step: Step)
    requires Reachable(s) && Enabled(s, step) && s.core.holder.Free?
    requires step.WaitFast? || step.WaitLock? || step.WaitReturn?
    requires Apply(s, step).core.server.Checking?
    ensures s.core.count > 0
    ensures var next := Apply(s, step);
            && (forall i :: i in next.core.server.responded <==> Completed(s.core, i, s.core.count))
            && (AllCompleted(s.core, s.core.count) ==> Enabled(next, PhaseDone))
  {
    ReachableKeeps(s);
    CompletionMaskIsSound(s);
    var responded := Apply(s, step).core.server.responded;
    forall i
      ensures i in responded <==> Completed(s.core, i, s.core.count)
    {
      if i in s.core.server.responded {
        RespondedHaveCompleted(s, i);
      }
      if Completed(s.core, i, s.core.count) {
        assert i in ParticipantsAt(s.core.cfg, s.core.count);
      }
    }
  }

  /** A client that connects while a phase is published still has it to receive. */
  lemma ConnectedHasCurrentToReceive(s: System, i: nat, fast: bool)
    requires Reachable(s) && Enabled(s, Connect(i, fast)) && s.core.generation > 0
    ensures var c := Apply(s, Connect(i, fast)).clients[i];
            && c.connected && c.lastGeneration != s.core.generation && c.seen + 1 == s.core.count
            && c.fast == fast && c.receipts == s.clients[i].receipts
  {
    ReachableKeeps(s);
  }

  /** The 64-bit generation may wrap, but a client that compares it with its own last generation always learns
      whether there is a publication it has not seen. */
  lemma GenerationComparisonIsExact(s: System, i: nat)
    requires Reachable(s) && i < |s.clients|
    ensures s.core.generation == s.clients[i].lastGeneration <==> s.clients[i].seen == s.core.count
  {
    ReachableKeeps(s);
    AtMostThreeBehind(s.core, i, s.clients[i]);
  }

  /** While the mutex is free, the completion mask holds participants of the published phase only, and exactly
      the slots that completed it. */
  lemma CompletionMaskIsSound(s: System)
    requires Reachable(s) && s.core.holder.Free?
    ensures s.core.completion <= s.core.participants
    ensures s.core.count > 0 ==> s.core.participants == ParticipantsAt(s.core.cfg, s.core.count)
    ensures s.core.count > 0 ==> forall i :: i in s.core.completion <==> Completed(s.core, i, s.core.count)
  {
    ReachableKeeps(s);
    forall i | i in s.core.completion
      ensures i in s.core.participants
    {
      assert Completed(s.core, i, s.core.count);
      assert i in ParticipantsAt(s.core.cfg, s.core.count);
    }
  }

  /** A complete call that succeeds is the slot's first for this publication, and was made for the very
      publication the client had been handed. */
  lemma CompletionHappensOnce(s: System, i: nat, r: nat)
    requires Reachable(s) && Enabled(s, Complete(i, r))
    requires Apply(s, Complete(i, r)).core.done != s.core.done
    ensures s.clients[i].receipts[r].at == s.core.count
    ensures !Completed(s.core, i, s.core.count)
    ensures Apply(s, Complete(i, r)).core.done == s.core.done + {(i, s.core.count)}
  {
    ReachableKeeps(s);
    CompleteKeepsCore(s.core, i, s.clients[i], Complete(i, r));
  }

  /** A complete call succeeds exactly if the barrier is not stopping, the slot takes part in the phase it was handed,
      and has not completed it: then that phase is still the current one, and the completion is recorded. */
  lemma CompletionSucceedsExactly(s: System, i: nat, r: nat)
    requires Reachable(s) && Enabled(s, Complete(i, r))
    ensures 0 < s.clients[i].receipts[r].at <= s.core.count
    ensures var at, next := s.clients[i].receipts[r].at, Apply(s, Complete(i, r)).core;
            && (next.done != s.core.done
                <==> !s.core.stopping && Owns(s.core.cfg, i, at) && !Completed(s.core, i, at))
            && (next.done != s.core.done ==>
                  at == s.core.count && next.done == s.core.done + {(i, at)}
                  && next.completion == s.core.completion + {i})
  {
    ReachableKeeps(s);
    var c := s.clients[i];
    assert ClientInv(s.core, i, c);
    var at := c.receipts[r].at;
    assert c.receipts[r].frame == FrameAt(s.core.cfg, at);
    if Owns(s.core.cfg, i, at) && !Completed(s.core, i, at) {
      assert i in ParticipantsAt(s.core.cfg, at);
      assert at < s.core.count ==> AllCompleted(s.core, at);
    }
    CompleteKeepsCore(s.core, i, c, Complete(i, r));
  }

  /** The server counts a slot as responded only if that slot completed the current publication. */
  lemma RespondedHaveCompleted(s: System, i: nat)
    requires Reachable(s)
    requires s.core.server.Checking? || s.core.server.WaitAsleep? || s.core.server.WaitWoken?
    requires i in s.core.server.responded
    ensures Completed(s.core, i, s.core.count)
  {
    ReachableKeeps(s);
  }

  /** Lockstep: every participant of every earlier publication received it and completed it, and the server may
      start a new one only when the same holds for the current one. */
  lemma PublishNeedsEveryCompletion(s: System, i: nat, k: nat)
    requires Reachable(s) && k > 0 && Owns(s.core.cfg, i, k)
    requires k < s.core.count || (k == s.core.count && Enabled(s, PublishLock))
    ensures Completed(s.core, i, k)
    ensures i < |s.clients| && Has(s.clients[i].receipts, k)
  {
    ReachableKeeps(s);
    assert AllCompleted(s.core, k);
    assert i in ParticipantsAt(s.core.cfg, k);
    assert ClientInv(s.core, i, s.clients[i]);
  }

  /** A participant that withholds its completion stops the server at that publication for the rest of the run. */
  lemma WithheldCompletionStopsTheServer(states: seq<System>, steps: seq<Step>, i: nat, k: nat, m: nat)
    requires Run(states, steps) && m <= |steps|
    requires k > 0 && Owns(states[m].core.cfg, i, k) && !Completed(states[m].core, i, k)
    ensures states[m].core.count <= k
  {
    RunKeeps(states, steps, m);
    assert i in ParticipantsAt(states[m].core.cfg, k);
    assert k < states[m].core.count ==> AllCompleted(states[m].core, k);
  }

  // ---------------------------------------------------------------- progress of a receive

  /** Steps left until the receive returns, for a client that owes the current publication. */
  function Remaining(r: Receiver): nat {
    match r
    case Outside => 0
    case Loading => 9
    case Loaded(_, _) => 8
    case ReadingSequence(_, _) => 4
    case ReadingTime(_, _, _) => 3
    case ReadingPhase(_, _, _, _) => 2
    case Returning(_, _, _, _, _) => 1
    case Asleep => 7
    case Woken => 6
    case Locking => 6
    case LoopTop => 5
    case LoopInterrupt => 10
    case GoingToSleep => 11
    case ExitInterrupt => 2
    case ExitRest => 1
  }

  function OwnStep(i: nat, r: Receiver): Step {
    match r
    case Outside => ReceiveStart(i)
    case Loading => Load(i)
    case Loaded(_, _) => Decide(i)
    case ReadingSequence(_, _) => ReadSequence(i)
    case ReadingTime(_, _, _) => ReadTime(i)
    case ReadingPhase(_, _, _, _) => ReadPhase(i)
    case Returning(_, _, _, _, _) => Return(i)
    case Asleep => Wake(i)
    case Woken => Lock(i)
    case Locking => Lock(i)
    case LoopTop => TestLoop(i)
    case LoopInterrupt => TestInterrupt(i)
    case GoingToSleep => Sleep(i)
    case ExitInterrupt => TestExit(i)
    case ExitRest => Exit(i)
  }

  lemma OwnStepApproaches(core: Core, i: nat, c: Client)
    requires CoreInv(core) && i < |core.cfg.masks| && ClientInv(core, i, c)
    requires c.seen < core.count && !c.receiver.Outside?
    ensures !c.receiver.LoopInterrupt? && !c.receiver.GoingToSleep?
    ensures c.receiver.Locking? || c.receiver.Woken? || ClientEnabled(core, i, c, OwnStep(i, c.receiver))
    ensures ClientEnabled(core, i, c, OwnStep(i, c.receiver)) ==>
              Remaining(ClientNext(core, i, c, OwnStep(i, c.receiver)).receiver) < Remaining(c.receiver)
  {
    AtMostThreeBehind(core, i, c);
  }

  /** With an unseen publication, a receive under way never goes to sleep again: its next step is enabled unless
      it waits for the mutex or for the wake-up NoLostWakeup promises, and each step brings the return closer. */
  lemma ReceiveMakesProgress(s: System, i: nat)
    requires Reachable(s) && i < |s.clients|
    requires s.clients[i].seen < s.core.count && !s.clients[i].receiver.Outside?
    ensures var r := s.clients[i].receiver;
            && !r.LoopInterrupt? && !r.GoingToSleep?
            && (r.Locking? || r.Woken? || Enabled(s, OwnStep(i, r)))
            && (Enabled(s, OwnStep(i, r)) ==>
                  Remaining(Apply(s, OwnStep(i, r)).clients[i].receiver) < Remaining(r))
  {
    ReachableKeeps(s);
    assert ClientInv(s.core, i, s.clients[i]);
    OwnStepApproaches(s.core, i, s.clients[i]);
    assert !IsServerStep(OwnStep(i, s.clients[i].receiver));
  }

  /** Steps of other threads never undo that progress. */
  lemma OthersKeepProgress(s: System, i: nat, step: Step)
    requires Reachable(s) && i < |s.clients| && Enabled(s, step)
    requires IsServerStep(step) || step.slot != i || step.InterruptLock? || step.InterruptStore? || step.Complete?
             || step.CompleteExit?
    ensures Remaining(Apply(s, step).clients[i].receiver) <= Remaining(s.clients[i].receiver)
    ensures Apply(s, step).clients[i].seen == s.clients[i].seen
  {
    hide Reachable, ServerCore, ClientCore;
    if IsServerStep(step) {
      ServerKeepsProgress(s, i, step);
    } else if step.slot == i {
      OwnOthersKeepProgress(s.core, i, s.clients[i], step);
    }
  }

  lemma ServerKeepsProgress(s: System, i: nat, step: Step)
    requires i < |s.clients| && IsServerStep(step) && ServerEnabled(s.core, step)
    ensures |ServerClients(s, step)| == |s.clients|
    ensures ServerClients(s, step)[i] == s.clients[i] || ServerClients(s, step)[i] == WakeUp(s.clients[i])
  {
  }

  lemma OwnOthersKeepProgress(core: Core, i: nat, c: Client, step: Step)
    requires step.InterruptLock? || step.InterruptStore? || step.Complete? || step.CompleteExit?
    requires ClientEnabled(core, i, c, step)
    ensures Remaining(ClientNext(core, i, c, step).receiver) <= Remaining(c.receiver)
    ensures ClientNext(core, i, c, step).seen == c.seen
  {
  }
}
