/** Which clients may receive what: every publication is reached; a client is handed phases it takes no part in exactly
    if its mask is partial; and the unlocked receive is safe exactly for the full mask. */
module BarrierHandshake {
  import opened Frames
  import opened Barrier
  import opened BarrierInvariant
  import opened BarrierRuns

  /** The handshake's choice of receive for every slot, but for the flag slot x is given. */
  ghost function RuleFlags(cfg: Config, x: int, flag: bool): (fast: seq<bool>)
    ensures FollowsRule(cfg, fast, x) && (0 <= x < |fast| ==> fast[x] == flag)
  {
    seq(|cfg.masks|, j requires 0 <= j < |cfg.masks| => if j == x then flag else cfg.masks[j] == ALL_PHASES)
  }

  /** Publication k is out and nobody has received it yet. */
  lemma PublicationIsOut(cfg: Config, fast: seq<bool>, k: nat, x: int) returns (core: Core)
    requires ValidConfig(cfg) && FollowsRule(cfg, fast, x) && k > 0 && Representable(cfg, k)
    ensures InPhase(core, cfg, k) && core.completion == {}
    ensures Led(System(core, ClientsAfter(cfg, fast, k - 1, 0, -1, ClientAfter(cfg, false, 0))), x)
  {
    hide Led, InPhase, AtRest;
    if k > 1 {
      EarlierIsRepresentable(cfg, k - 1, k);
    }
    core := Rounds(cfg, fast, k - 1, x);
    Advances(core, cfg, fast, k - 1, x);
    core := Published(core);
  }

  /** No configuration is stuck: every publication whose numbers fit is made in some run. */
  lemma EveryPublicationIsReached(cfg: Config, k: nat) returns (s: System)
    requires ValidConfig(cfg) && k > 0 && Representable(cfg, k)
    ensures Reachable(s) && s.core.cfg == cfg && s.core.count == k && s.core.frame == FrameAt(cfg, k)
  {
    hide Led;
    var fast := RuleFlags(cfg, -1, false);
    var core := PublicationIsOut(cfg, fast, k, -1);
    s := System(core, ClientsAfter(cfg, fast, k - 1, 0, -1, ClientAfter(cfg, false, 0)));
    LedIsReachable(s);
  }

  // ---------------------------------------------------------------- phases a client takes no part in

  ghost predicate OwnsAll(cfg: Config, i: nat, receipts: seq<Receipt>) {
    forall r :: 0 <= r < |receipts| ==> receipts[r].at > 0 && Owns(cfg, i, receipts[r].at)
  }

  /** A phase of the first tick that is not in a partial mask. */
  lemma MissingPhase(cfg: Config, i: nat) returns (k: nat)
    requires ValidConfig(cfg) && i < |cfg.masks| && cfg.masks[i] != ALL_PHASES
    ensures 1 <= k <= 3 && !Owns(cfg, i, k) && Representable(cfg, k)
  {
    k :| k in ALL_PHASES && k !in cfg.masks[i];
    assert PhaseAt(k) == k && TickAt(k) == 0;
  }

  lemma HandedUnowned(cfg: Config, i: nat) returns (s: System)
    requires ValidConfig(cfg) && i < |cfg.masks| && cfg.masks[i] != ALL_PHASES
    ensures Reachable(s) && s.core.cfg == cfg && i < |s.clients| && !OwnsAll(cfg, i, s.clients[i].receipts)
  {
    hide Led, Wrap;
    var k := MissingPhase(cfg, i);
    var fast := RuleFlags(cfg, -1, false);
    var core := PublicationIsOut(cfg, fast, k, -1);
    var clients := ClientsAfter(cfg, fast, k - 1, 0, -1, ClientAfter(cfg, false, 0));
    CloseWrapsDiffer(k - 1, k);
    Receives(core, clients, -1, i);
    s := System(core, clients[i := Handed(core, clients[i])]);
    LedIsReachable(s);
    var receipts := s.clients[i].receipts;
    assert receipts[|receipts| - 1].at == k;
  }

  /** A client is only ever handed phases it takes part in, if and only if its mask is full: for every partial mask some
      run hands it another phase, which its phased loop cannot complete. */
  lemma HandedOwnPhasesExactly(cfg: Config, i: nat)
    requires ValidConfig(cfg) && i < |cfg.masks|
    ensures cfg.masks[i] == ALL_PHASES <==>
            forall s: System :: Reachable(s) && s.core.cfg == cfg && i < |s.clients| ==>
              OwnsAll(cfg, i, s.clients[i].receipts)
  {
    hide Reachable;
    if cfg.masks[i] == ALL_PHASES {
      forall s: System | Reachable(s) && s.core.cfg == cfg && i < |s.clients|
        ensures OwnsAll(cfg, i, s.clients[i].receipts)
      {
        FullMaskOwnsAll(s, i);
      }
    } else {
      var s := HandedUnowned(cfg, i);
    }
  }

  lemma FullMaskOwnsAll(s: System, i: nat)
    requires Reachable(s) && i < |s.clients| && i < |s.core.cfg.masks| && s.core.cfg.masks[i] == ALL_PHASES
    ensures OwnsAll(s.core.cfg, i, s.clients[i].receipts)
  {
    ReachableKeeps(s);
    assert ClientInv(s.core, i, s.clients[i]);
    forall r | 0 <= r < |s.clients[i].receipts|
      ensures s.clients[i].receipts[r].at > 0 && Owns(s.core.cfg, i, s.clients[i].receipts[r].at)
    {
      assert PhaseAt(s.clients[i].receipts[r].at) in ALL_PHASES;
    }
  }

  // ---------------------------------------------------------------- the unlocked receive

  ghost predicate OwnFrames(cfg: Config, receipts: seq<Receipt>) {
    forall r :: 0 <= r < |receipts| ==> receipts[r].at > 0 && receipts[r].frame == FrameAt(cfg, receipts[r].at)
  }

  /** Between loading the generation of a phase it takes no part in and reading the payload, a client with the unlocked
      receive can be overtaken by the first stores of the next publication. */
  lemma OvertakenRead(cfg: Config, i: nat, k: nat, stage: nat) returns (t: System)
    requires ValidConfig(cfg) && i < |cfg.masks| && k > 0 && !Owns(cfg, i, k) && Representable(cfg, k + 1)
    requires stage <= 5
    ensures Led(t, i) && t.core.cfg == cfg && i < |t.clients|
    ensures var receipts, now, next := t.clients[i].receipts, FrameAt(cfg, k), FrameAt(cfg, k + 1);
            && receipts != []
            && receipts[|receipts| - 1]
               == Receipt(k, Frame(if stage > 0 then next.sequence else now.sequence,
                                   if stage > 1 then next.time else now.time,
                                   if stage > 2 then next.phase else now.phase))
  {
    hide Led, Wrap, FrameAt, InPhase;
    EarlierIsRepresentable(cfg, k, k + 1);
    var fast := RuleFlags(cfg, i, true);
    var core := PublicationIsOut(cfg, fast, k, i);
    var d := BeginsRead(core, cfg, fast, k, i);
    var next := PhaseEnds(core, cfg, fast, k - 1, i, d, i);
    var clients := ClientsAfter(cfg, fast, k - 1, |fast|, i, d);
    RestIsReady(next, cfg, k);
    NobodySleeps(cfg, fast, k - 1, |fast|, i, d);
    Stores(next, clients, i, stage);
    var c := ClientAfter(cfg, true, k - 1);
    assert clients[i := d] == clients;
    ReadsAll(Stored(next, stage), clients, i, i, c, Wrap(k), k);
    t := System(Stored(next, stage), clients[i := c.(receiver := Outside, lastGeneration := Wrap(k), seen := k,
                                                     receipts := c.receipts + [Receipt(k, Stored(next, stage).frame)])]);
    RestFrame(next, cfg, k, stage);
  }

  lemma RestIsReady(core: Core, cfg: Config, k: nat)
    requires AtRest(core, cfg, k) && Representable(cfg, k + 1)
    ensures ServerEnabled(core, PublishLock)
  {
  }

  lemma RestFrame(core: Core, cfg: Config, k: nat, stage: nat)
    requires AtRest(core, cfg, k) && k > 0 && core.frame == FrameAt(cfg, k) && stage <= 5
    ensures var now, next := FrameAt(cfg, k), FrameAt(cfg, k + 1);
            Stored(core, stage).frame == Frame(if stage > 0 then next.sequence else now.sequence,
                                               if stage > 1 then next.time else now.time,
                                               if stage > 2 then next.phase else now.phase)
    ensures Stored(core, stage).cfg == cfg
  {
  }

  /** The client of slot i loads the generation and takes the unlocked path; the others have not moved. */
  lemma BeginsRead(core: Core, cfg: Config, fast: seq<bool>, k: nat, i: nat) returns (d: Client)
    requires k > 0 && i < |cfg.masks| && FollowsRule(cfg, fast, i) && fast[i] && InPhase(core, cfg, k)
    requires Led(System(core, ClientsAfter(cfg, fast, k - 1, 0, -1, ClientAfter(cfg, false, 0))), i)
    ensures d == ClientAfter(cfg, true, k - 1).(receiver := ReadingSequence(Wrap(k), k))
    ensures Led(System(core, ClientsAfter(cfg, fast, k - 1, 0, i, d)), i)
  {
    hide Led, Wrap, FrameAt, ParticipantsAt;
    var clients := ClientsAfter(cfg, fast, k - 1, 0, -1, ClientAfter(cfg, false, 0));
    var c := ClientAfter(cfg, true, k - 1);
    d := c.(receiver := ReadingSequence(Wrap(k), k));
    CloseWrapsDiffer(k - 1, k);
    assert clients[i := c] == clients;
    Steps(core, clients, i, i, c, ReceiveStart(i), core, c.(receiver := Loading));
    Steps(core, clients, i, i, c.(receiver := Loading), Load(i), core, c.(receiver := Loaded(Wrap(k), k)));
    Steps(core, clients, i, i, c.(receiver := Loaded(Wrap(k), k)), Decide(i), core, d);
    assert clients[i := d] == ClientsAfter(cfg, fast, k - 1, 0, i, d);
  }

  /** With a partial mask, whichever it is, the unlocked receive can return a frame that is not the one of the
      generation it loaded. */
  lemma PartialMaskReadsWrong(cfg: Config, i: nat) returns (t: System)
    requires ValidConfig(cfg) && i < |cfg.masks| && cfg.masks[i] != ALL_PHASES
    ensures Led(t, i) && t.core.cfg == cfg && i < |t.clients| && !OwnFrames(cfg, t.clients[i].receipts)
  {
    hide Led;
    var k := MissingPhase(cfg, i);
    assert TickAt(k + 1) <= 1 && TickAt(k + 1) * cfg.interval <= cfg.interval;
    t := OvertakenRead(cfg, i, k, 3);
    var receipts := t.clients[i].receipts;
    if FrameAt(cfg, k) == FrameAt(cfg, k + 1) {
      FramesAreDistinct(cfg, k, k + 1);
    }
    assert receipts[|receipts| - 1] == Receipt(k, FrameAt(cfg, k + 1));
  }

  /** The unlocked receive may be given to a slot, so that it always returns the frame of the generation it loaded, if
      and only if the slot takes part in all three phases. `Led(t, i)` lets slot i connect either way. */
  lemma FastReceiveSafeExactly(cfg: Config, i: nat)
    requires ValidConfig(cfg) && i < |cfg.masks|
    ensures cfg.masks[i] == ALL_PHASES <==>
            forall t: System :: Led(t, i) && t.core.cfg == cfg && i < |t.clients| ==>
              OwnFrames(cfg, t.clients[i].receipts)
  {
    if cfg.masks[i] == ALL_PHASES {
      forall t: System | Led(t, i) && t.core.cfg == cfg && i < |t.clients|
        ensures OwnFrames(cfg, t.clients[i].receipts)
      {
        FullMaskKeeps(t, i);
        assert ClientInv(t.core, i, t.clients[i]);
      }
    } else {
      var t := PartialMaskReadsWrong(cfg, i);
    }
  }

  lemma FullMaskKeeps(t: System, i: nat)
    requires Led(t, i) && i < |t.core.cfg.masks| && t.core.cfg.masks[i] == ALL_PHASES
    ensures Inv(t)
  {
    hide Inv, Init, Enabled, Apply;
    var states, steps :| LedBy(t, i, states, steps);
    KeepsAlong(t.core.cfg, i, states, steps, |steps|);
  }

  lemma {:induction false} KeepsAlong(cfg: Config, i: nat, states: seq<System>, steps: seq<Step>, n: nat)
    requires Interleaving(states, steps) && n <= |steps| && i < |cfg.masks| && cfg.masks[i] == ALL_PHASES
    requires states[|steps|].core.cfg == cfg
    requires forall k :: 0 <= k < |steps| ==> Allowed(states[k].core.cfg, steps[k], i)
    ensures Inv(states[n]) && states[n].core.cfg == states[0].core.cfg
    decreases n
  {
    hide Inv, Init, Apply, Enabled;
    if n == 0 {
      InitKeeps(states[0]);
    } else {
      KeepsAlong(cfg, i, states, steps, n - 1);
      SameConfigAlong(states, steps, n - 1, |steps|);
      StepKeeps(states[n - 1], steps[n - 1]);
      SameConfig(states[n - 1], steps[n - 1]);
    }
  }

  lemma SameConfig(s: System, step: Step)
    requires Enabled(s, step)
    ensures Apply(s, step).core.cfg == s.core.cfg
  {
  }

  lemma {:induction false} SameConfigAlong(states: seq<System>, steps: seq<Step>, m: nat, n: nat)
    requires Interleaving(states, steps) && m <= n <= |steps|
    ensures states[n].core.cfg == states[m].core.cfg
    decreases n - m
  {
    hide Init, Apply, Enabled;
    if m < n {
      SameConfigAlong(states, steps, m, n - 1);
      SameConfig(states[n - 1], steps[n - 1]);
    }
  }

  /** Without COMMIT in its mask the wrong frame can even be one the server never publishes: the next sequence with
      the time and the phase of the last one. */
  lemma MixedFrameWithoutCommit(cfg: Config, i: nat) returns (t: System)
    requires ValidConfig(cfg) && i < |cfg.masks| && COMMIT !in cfg.masks[i] && cfg.interval > 0
    ensures Led(t, i) && t.core.cfg == cfg && i < |t.clients|
    ensures Receipt(3, Frame(1, 0, COMMIT)) in t.clients[i].receipts
    ensures forall k :: k > 0 ==> FrameAt(cfg, k) != Frame(1, 0, COMMIT)
  {
    hide Led;
    t := OvertakenRead(cfg, i, 3, 1);
    var receipts := t.clients[i].receipts;
    assert receipts[|receipts| - 1] == Receipt(3, Frame(1, 0, COMMIT));
    forall k | k > 0
      ensures FrameAt(cfg, k) != Frame(1, 0, COMMIT)
    {
      assert TickAt(k) == 1 ==> TickAt(k) * cfg.interval == cfg.interval;
    }
  }
}
