/** The barrier and the client together: what a client accepts of the publications it is handed. */
module Lockstep {
  import opened Frames
  import opened Barrier
  import opened BarrierInvariant
  import opened BarrierTheorems
  import PhaseClient

  /** The tick record simulith_client_receive_phase builds from a barrier receive; the phase is cut to 16 bits. */
  function TickOf(f: Frame): PhaseClient.Tick
    requires f.sequence < WORD64 && f.time < WORD64
  {
    PhaseClient.Tick(PhaseClient.MAGIC, PhaseClient.VERSION, f.phase % 0x1_0000, f.sequence, f.time)
  }

  ghost predicate Carried(receipts: seq<Receipt>) {
    forall j :: 0 <= j < |receipts| ==> receipts[j].frame.sequence < WORD64 && receipts[j].frame.time < WORD64
  }

  /** The client's state before its j-th receipt, if it has accepted everything so far. */
  ghost function LastBefore(receipts: seq<Receipt>, j: nat): PhaseClient.Last
    requires Carried(receipts) && j <= |receipts|
  {
    if j == 0 then PhaseClient.NOTHING_RECEIVED
    else PhaseClient.Accepted(TickOf(receipts[j - 1].frame))
  }

  ghost predicate AcceptsAll(receipts: seq<Receipt>, rate: U64)
    requires Carried(receipts)
  {
    forall j :: 0 <= j < |receipts| ==>
      PhaseClient.Judge(LastBefore(receipts, j), rate, TickOf(receipts[j].frame)) == PhaseClient.Accept
  }

  lemma ReceiptsAreCarried(s: System, i: nat)
    requires Reachable(s) && i < |s.clients|
    ensures Carried(s.clients[i].receipts)
    ensures forall j :: 0 <= j < |s.clients[i].receipts| ==> s.clients[i].receipts[j].frame.sequence < PhaseClient.NONE
  {
    ReceiptsAreExact(s, i);
    ReachableKeeps(s);
    forall j | 0 <= j < |s.clients[i].receipts|
      ensures s.clients[i].receipts[j].frame.sequence < PhaseClient.NONE
      ensures s.clients[i].receipts[j].frame.time < WORD64
    {
      EarlierIsRepresentable(s.core.cfg, s.clients[i].receipts[j].at, s.core.count);
    }
  }

  /** Between two consecutive receipts a client skips at most two publications, because it owns one of any three. */
  lemma ConsecutiveReceiptsAreClose(s: System, i: nat, j: nat)
    requires Reachable(s) && i < |s.clients| && 0 < j < |s.clients[i].receipts|
    ensures var receipts := s.clients[i].receipts;
            receipts[j - 1].at < receipts[j].at <= receipts[j - 1].at + 3
  {
    ReceiptsAreExact(s, i);
    ReachableKeeps(s);
    var receipts := s.clients[i].receipts;
    var owned := OwnsOneOfThree(s.core.cfg, i, receipts[j - 1].at + 1);
    if owned < s.core.count {
      assert Has(receipts, owned);
      var k :| 0 <= k < |receipts| && receipts[k].at == owned;
      assert j <= k;
      assert receipts[j].at <= owned;
    }
  }

  /** A receipt at most three publications later is a frame the client's rule allows, if the rates agree; if they
      disagree, only within the same tick. */
  lemma CloseFramesFollow(cfg: Config, a: nat, b: nat, rate: U64)
    requires 1 <= a < b <= a + 3 && Representable(cfg, b) && Representable(cfg, a)
    ensures PhaseClient.Judge(PhaseClient.Accepted(TickOf(FrameAt(cfg, a))), rate, TickOf(FrameAt(cfg, b)))
              == PhaseClient.Accept
            <==> TickAt(a) == TickAt(b) || (rate == cfg.interval && rate > 0)
  {
    assert TickAt(b) == TickAt(a) || TickAt(b) == TickAt(a) + 1;
    if TickAt(b) == TickAt(a) {
      assert PhaseAt(a) < PhaseAt(b);
    } else {
      assert (TickAt(a) + 1) * cfg.interval == TickAt(a) * cfg.interval + cfg.interval;
    }
    PhaseClient.AcceptsExactlyFollowers(PhaseClient.Accepted(TickOf(FrameAt(cfg, a))), rate, TickOf(FrameAt(cfg, b)));
  }

  lemma NextFrameIsAccepted(s: System, i: nat, rate: U64, j: nat)
    requires Reachable(s) && i < |s.clients| && rate > 0 && 0 < j < |s.clients[i].receipts|
    requires Carried(s.clients[i].receipts)
    ensures var receipts := s.clients[i].receipts;
            PhaseClient.Judge(LastBefore(receipts, j), rate, TickOf(receipts[j].frame)) == PhaseClient.Accept
            <==> rate == s.core.cfg.interval || receipts[j].frame.sequence == receipts[j - 1].frame.sequence
  {
    ReceiptsAreExact(s, i);
    ReachableKeeps(s);
    var receipts, cfg := s.clients[i].receipts, s.core.cfg;
    ConsecutiveReceiptsAreClose(s, i, j);
    EarlierIsRepresentable(cfg, receipts[j].at, s.core.count);
    EarlierIsRepresentable(cfg, receipts[j - 1].at, s.core.count);
    CloseFramesFollow(cfg, receipts[j - 1].at, receipts[j].at, rate);
    assert receipts[j - 1].frame == FrameAt(cfg, receipts[j - 1].at);
  }

  lemma FirstFrameIsAccepted(f: Frame, rate: U64)
    requires f.sequence < WORD64 && f.time < WORD64 && PREPARE <= f.phase <= COMMIT
    ensures PhaseClient.Judge(PhaseClient.NOTHING_RECEIVED, rate, TickOf(f)) == PhaseClient.Accept
  {
  }

  /** In every interleaving a client accepts every frame the barrier hands it exactly when its update rate is the
      server's interval, or it has not yet seen a second tick. */
  lemma EveryFrameIsAccepted(s: System, i: nat, rate: U64)
    requires Reachable(s) && i < |s.clients| && rate > 0
    ensures Carried(s.clients[i].receipts)
    ensures AcceptsAll(s.clients[i].receipts, rate)
            <==> rate == s.core.cfg.interval
                 || forall j :: 0 < j < |s.clients[i].receipts| ==>
                      s.clients[i].receipts[j].frame.sequence == s.clients[i].receipts[j - 1].frame.sequence
  {
    hide PhaseClient.Judge, TickOf, FrameAt, Reachable;
    ReceiptsAreCarried(s, i);
    ReceiptsAreExact(s, i);
    var receipts := s.clients[i].receipts;
    forall j | 0 < j < |receipts|
      ensures PhaseClient.Judge(LastBefore(receipts, j), rate, TickOf(receipts[j].frame)) == PhaseClient.Accept
              <==> rate == s.core.cfg.interval
                   || receipts[j].frame.sequence == receipts[j - 1].frame.sequence
    {
      NextFrameIsAccepted(s, i, rate, j);
    }
    if receipts != [] {
      FrameIsAPhase(s.core.cfg, receipts[0].at);
      FirstFrameIsAccepted(receipts[0].frame, rate);
    }
  }

  lemma FrameIsAPhase(cfg: Config, k: nat)
    requires k > 0
    ensures PREPARE <= FrameAt(cfg, k).phase <= COMMIT
  {
  }
}
