/** The phased loop over the barrier: what its turns come to when the frames, their acceptance and the answers to its
    completions are those of a reachable state of the lockstep. */
module LockstepLoop {
  import opened Frames
  import opened Barrier
  import opened BarrierInvariant
  import opened BarrierTheorems
  import opened Lockstep
  import PhaseClient

  /** What the barrier answers to the loop's completion of a receipt: 0 if the slot has completed it, or would complete
      it now; otherwise -1. */
  ghost function Answer(core: Core, i: nat, r: Receipt): int {
    if Completed(core, i, r.at) || CompletionAllowed(core, i, r.frame.sequence, r.frame.phase) then 0 else -1
  }

  /** As long as nobody stops the barrier, the answer depends on nothing but the client's own mask. */
  lemma AnswerExactly(s: System, i: nat, r: nat)
    requires Reachable(s) && i < |s.clients| && r < |s.clients[i].receipts|
    requires s.core.holder.Free? && !s.core.stopping
    ensures s.clients[i].receipts[r].at > 0
    ensures Answer(s.core, i, s.clients[i].receipts[r]) == 0 <==> Owns(s.core.cfg, i, s.clients[i].receipts[r].at)
  {
    ReachableKeeps(s);
    assert ClientInv(s.core, i, s.clients[i]);
    var at := s.clients[i].receipts[r].at;
    assert s.clients[i].receipts[r].frame == FrameAt(s.core.cfg, at);
    if Owns(s.core.cfg, i, at) {
      assert i in ParticipantsAt(s.core.cfg, at);
      assert at < s.core.count ==> AllCompleted(s.core, at);
    } else if CompletionAllowed(s.core, i, FrameAt(s.core.cfg, at).sequence, FrameAt(s.core.cfg, at).phase) {
      FramesAreDistinct(s.core.cfg, at, s.core.count);
    }
  }

  /** The loop's turns: one for each frame it was handed, with its callback's result and the barrier's answer. */
  ghost function TurnsOf(core: Core, i: nat, receipts: seq<Receipt>, callbacks: seq<bool>)
    : (events: seq<PhaseClient.Event>)
    requires Carried(receipts) && |callbacks| == |receipts|
    ensures |events| == |receipts|
    ensures forall j :: 0 <= j < |events| ==>
              events[j] == PhaseClient.Event(TickOf(receipts[j].frame), callbacks[j], Answer(core, i, receipts[j]))
  {
    seq(|receipts|, j requires 0 <= j < |receipts| =>
      PhaseClient.Event(TickOf(receipts[j].frame), callbacks[j], Answer(core, i, receipts[j])))
  }

  lemma {:induction false} AllTurnsAccepted(receipts: seq<Receipt>, rate: U64,
                                            events: seq<PhaseClient.Event>, j: nat)
    requires Carried(receipts) && AcceptsAll(receipts, rate) && j <= |receipts| == |events|
    requires forall n :: 0 <= n < |events| ==> events[n].tick == TickOf(receipts[n].frame)
    ensures PhaseClient.AcceptedTurns(LastBefore(receipts, j), rate, events[j..]) == events[j..]
    decreases |receipts| - j
  {
    hide PhaseClient.Judge, TickOf;
    if j < |receipts| {
      AllTurnsAccepted(receipts, rate, events, j + 1);
      assert events[j..][1..] == events[j + 1..];
      assert [events[j]] + events[j + 1..] == events[j..];
      assert PhaseClient.Judge(LastBefore(receipts, j), rate, TickOf(receipts[j].frame)) == PhaseClient.Accept;
    }
  }

  /** Over the lockstep server, with the server's interval as its rate, the loop fails exactly if a callback fails or
      the barrier hands it a phase it takes no part in; up to the first such turn it completes every frame in order. */
  lemma LoopFailsExactly(s: System, i: nat, callbacks: seq<bool>)
    requires Reachable(s) && i < |s.clients| && s.core.holder.Free? && !s.core.stopping && s.core.cfg.interval > 0
    requires |callbacks| == |s.clients[i].receipts|
    ensures Carried(s.clients[i].receipts) && i < |s.core.cfg.masks|
    ensures forall j :: 0 <= j < |callbacks| ==> s.clients[i].receipts[j].at > 0
    ensures var receipts, cfg := s.clients[i].receipts, s.core.cfg;
            var result := PhaseClient.Loop(PhaseClient.NOTHING_RECEIVED, cfg.interval, cfg.masks[i], true, false,
                                           TurnsOf(s.core, i, receipts, callbacks));
            && result.0 == (if exists j :: 0 <= j < |callbacks| && !Goes(cfg, i, receipts[j], callbacks[j])
                            then -1 else 0)
            && |result.1| <= |receipts|
            && (forall j :: 0 <= j < |result.1| ==>
                  result.1[j] == TickOf(receipts[j].frame) && Goes(cfg, i, receipts[j], callbacks[j]))
            && (|result.1| < |receipts| ==> !Goes(cfg, i, receipts[|result.1|], callbacks[|result.1|]))
  {
    hide Reachable, PhaseClient.Loop, PhaseClient.AcceptedTurns, Answer, TickOf, AcceptsAll, LastBefore, FrameAt;
    ReachableKeeps(s);
    var receipts, cfg := s.clients[i].receipts, s.core.cfg;
    EveryFrameIsAccepted(s, i, cfg.interval);
    ReceiptsAreExact(s, i);
    var events := TurnsOf(s.core, i, receipts, callbacks);
    FirstLast(receipts);
    AllTurnsAccepted(receipts, cfg.interval, events, 0);
    assert events[0..] == events;
    PhaseClient.LoopCompletesUntilFailure(PhaseClient.NOTHING_RECEIVED, cfg.interval, cfg.masks[i], true, events);
    forall j | 0 <= j < |events|
      ensures PhaseClient.TurnSucceeds(cfg.masks[i], true, events[j]) <==> Goes(cfg, i, receipts[j], callbacks[j])
    {
      AnswerExactly(s, i, j);
      PhaseOf(cfg, receipts[j].at);
    }
  }

  /** The callback succeeds, and the phase is the client's. */
  ghost predicate Goes(cfg: Config, i: nat, r: Receipt, callback: bool)
    requires r.at > 0
  {
    callback && Owns(cfg, i, r.at)
  }

  lemma FirstLast(receipts: seq<Receipt>)
    requires Carried(receipts)
    ensures LastBefore(receipts, 0) == PhaseClient.NOTHING_RECEIVED
  {
  }

  lemma PhaseOf(cfg: Config, k: nat)
    requires k > 0 && FrameAt(cfg, k).sequence < WORD64 && FrameAt(cfg, k).time < WORD64
    ensures TickOf(FrameAt(cfg, k)).phase == PhaseAt(k)
  {
  }

  /** A client of all three phases fails only by a callback of its own. */
  lemma FullMaskFailsByCallbackOnly(s: System, i: nat, callbacks: seq<bool>)
    requires Reachable(s) && i < |s.clients| && s.core.holder.Free? && !s.core.stopping && s.core.cfg.interval > 0
    requires |callbacks| == |s.clients[i].receipts|
    requires i < |s.core.cfg.masks| && s.core.cfg.masks[i] == ALL_PHASES
    ensures Carried(s.clients[i].receipts)
    ensures PhaseClient.Loop(PhaseClient.NOTHING_RECEIVED, s.core.cfg.interval, s.core.cfg.masks[i], true, false,
                             TurnsOf(s.core, i, s.clients[i].receipts, callbacks)).0
            == if false in callbacks then -1 else 0
  {
    hide Reachable, PhaseClient.Loop, Answer, TickOf;
    LoopFailsExactly(s, i, callbacks);
    var receipts, cfg := s.clients[i].receipts, s.core.cfg;
    forall j | 0 <= j < |callbacks|
      ensures Goes(cfg, i, receipts[j], callbacks[j]) <==> callbacks[j]
    {
      assert PhaseAt(receipts[j].at) in ALL_PHASES;
    }
  }
}
