/** Runs that exist: the protocol can be driven from its start through any number of phases, one client after the
    other. `x` names a slot whose connection may break the handshake rule; -1 names none. */
module BarrierRuns {
  import opened Frames
  import opened Barrier

  ghost predicate Allowed(cfg: Config, step: Step, x: int) {
    HandshakeRule(cfg, step) || (step.Connect? && step.slot == x)
  }

  ghost predicate Led(s: System, x: int) {
    exists states: seq<System>, steps: seq<Step> :: LedBy(s, x, states, steps)
  }

  ghost predicate LedBy(s: System, x: int, states: seq<System>, steps: seq<Step>) {
    && Interleaving(states, steps) && states[|steps|] == s
    && forall k :: 0 <= k < |steps| ==> Allowed(states[k].core.cfg, steps[k], x)
  }

  lemma LedIsReachable(s: System)
    requires Led(s, -1)
    ensures Reachable(s)
  {
    hide Enabled, Apply;
    var states, steps :| LedBy(s, -1, states, steps);
    assert Run(states, steps);
  }

  lemma Starts(s: System, x: int)
    requires Init(s)
    ensures Led(s, x)
  {
    assert LedBy(s, x, [s], []);
  }

  lemma Move(s: System, x: int, step: Step, t: System)
    requires Led(s, x) && Enabled(s, step) && Allowed(s.core.cfg, step, x) && Apply(s, step) == t
    ensures Led(t, x)
  {
    hide Enabled, Apply, Allowed, Init;
    var states, steps :| LedBy(s, x, states, steps);
    var states', steps' := states + [t], steps + [step];
    forall k | 0 <= k < |steps'|
      ensures Enabled(states'[k], steps'[k]) && states'[k + 1] == Apply(states'[k], steps'[k])
      ensures Allowed(states'[k].core.cfg, steps'[k], x)
    {
      if k < |steps| {
        assert states'[k] == states[k] && states'[k + 1] == states[k + 1] && steps'[k] == steps[k];
      }
    }
    assert LedBy(t, x, states', steps');
  }

  ghost predicate NoneAsleep(clients: seq<Client>) {
    forall j :: 0 <= j < |clients| ==> !clients[j].receiver.Asleep?
  }

  /** A step of the server, where nobody sleeps. */
  lemma ServerMoves(core: Core, clients: seq<Client>, x: int, step: Step)
    requires Led(System(core, clients), x) && NoneAsleep(clients)
    requires IsServerStep(step) && !step.Stop? && ServerEnabled(core, step)
    ensures Led(System(ServerCore(core, step), clients), x)
  {
    hide ServerEnabled, ServerCore, Led;
    var s := System(core, clients);
    assert ServerClients(s, step) == clients;
    Move(s, x, step, System(ServerCore(core, step), clients));
  }

  /** A step of the client of one slot. */
  lemma ClientMoves(core: Core, clients: seq<Client>, x: int, j: nat, step: Step)
    requires Led(System(core, clients), x) && j < |clients|
    requires !IsServerStep(step) && step.slot == j && ClientEnabled(core, j, clients[j], step)
    requires Allowed(core.cfg, step, x)
    ensures Led(System(ClientCore(core, j, clients[j], step), clients[j := ClientNext(core, j, clients[j], step)]), x)
  {
    hide ClientEnabled, ClientCore, ClientNext, Led, Allowed;
    Move(System(core, clients), x, step,
         System(ClientCore(core, j, clients[j], step), clients[j := ClientNext(core, j, clients[j], step)]));
  }

  // ---------------------------------------------------------------- one client

  ghost predicate CanReceive(core: Core, c: Client) {
    && c.connected && c.receiver.Outside? && !c.interrupted
    && core.holder.Free? && !core.stopping && core.generation != c.lastGeneration
  }

  lemma Replaced(clients: seq<Client>, j: nat, c: Client, d: Client)
    requires j < |clients|
    ensures clients[j := c][j := d] == clients[j := d]
    ensures clients[j := clients[j]] == clients
  {
  }

  /** Steps of one client in a row, while nobody else moves; `core` and `c` before, `core'` and `c'` after. */
  lemma Steps(core: Core, clients: seq<Client>, x: int, j: nat, c: Client, step: Step, core': Core, c': Client)
    requires j < |clients| && Led(System(core, clients[j := c]), x)
    requires !IsServerStep(step) && step.slot == j && !step.Connect? && ClientEnabled(core, j, c, step)
    requires core' == ClientCore(core, j, c, step) && c' == ClientNext(core, j, c, step)
    ensures Led(System(core', clients[j := c']), x)
  {
    hide ClientEnabled, ClientCore, ClientNext, Led;
    ClientMoves(core, clients[j := c], x, j, step);
    Replaced(clients, j, c, c');
  }

  lemma ReceivesFast(core: Core, clients: seq<Client>, x: int, j: nat)
    requires j < |clients| && Led(System(core, clients), x) && CanReceive(core, clients[j]) && clients[j].fast
    ensures Led(System(core, clients[j := Handed(core, clients[j])]), x)
  {
    hide Led;
    var c := clients[j];
    var g, k, f := core.generation, core.count, core.frame;
    Replaced(clients, j, c, c);
    Steps(core, clients, x, j, c, ReceiveStart(j), core, c.(receiver := Loading));
    Steps(core, clients, x, j, c.(receiver := Loading), Load(j), core, c.(receiver := Loaded(g, k)));
    Steps(core, clients, x, j, c.(receiver := Loaded(g, k)), Decide(j), core, c.(receiver := ReadingSequence(g, k)));
    ReadsAll(core, clients, x, j, c, g, k);
  }

  /** The three payload reads and the return. */
  lemma ReadsAll(core: Core, clients: seq<Client>, x: int, j: nat, c: Client, g: U64, k: nat)
    requires j < |clients| && Led(System(core, clients[j := c.(receiver := ReadingSequence(g, k))]), x)
    ensures Led(System(core, clients[j := c.(receiver := Outside, lastGeneration := g, seen := k,
                                             receipts := c.receipts + [Receipt(k, core.frame)])]), x)
  {
    hide Led;
    var f := core.frame;
    var c1 := c.(receiver := ReadingTime(g, k, f.sequence));
    var c2 := c.(receiver := ReadingPhase(g, k, f.sequence, f.time));
    var c3 := c.(receiver := Returning(g, k, f.sequence, f.time, f.phase));
    Steps(core, clients, x, j, c.(receiver := ReadingSequence(g, k)), ReadSequence(j), core, c1);
    Steps(core, clients, x, j, c1, ReadTime(j), core, c2);
    Steps(core, clients, x, j, c2, ReadPhase(j), core, c3);
    assert Frame(f.sequence, f.time, f.phase) == f;
    Steps(core, clients, x, j, c3, Return(j), core,
          c.(receiver := Outside, lastGeneration := g, seen := k, receipts := c.receipts + [Receipt(k, f)]));
  }

  lemma ReceivesSlow(core: Core, clients: seq<Client>, x: int, j: nat)
    requires j < |clients| && Led(System(core, clients), x) && CanReceive(core, clients[j]) && !clients[j].fast
    ensures Led(System(core, clients[j := Handed(core, clients[j])]), x)
  {
    hide Led;
    var c := clients[j];
    var locked := core.(holder := ByReceiver(j));
    Replaced(clients, j, c, c);
    Steps(core, clients, x, j, c, ReceiveStart(j), core, c.(receiver := Loading));
    Steps(core, clients, x, j, c.(receiver := Loading), Load(j), core,
          c.(receiver := Loaded(core.generation, core.count)));
    Steps(core, clients, x, j, c.(receiver := Loaded(core.generation, core.count)), Decide(j), core,
          c.(receiver := Locking));
    Steps(core, clients, x, j, c.(receiver := Locking), Lock(j), locked, c.(receiver := LoopTop));
    Steps(locked, clients, x, j, c.(receiver := LoopTop), TestLoop(j), locked, c.(receiver := ExitInterrupt));
    Steps(locked, clients, x, j, c.(receiver := ExitInterrupt), TestExit(j), locked, c.(receiver := ExitRest));
    Steps(locked, clients, x, j, c.(receiver := ExitRest), Exit(j), core, Handed(core, c));
  }

  lemma Receives(core: Core, clients: seq<Client>, x: int, j: nat)
    requires j < |clients| && Led(System(core, clients), x) && CanReceive(core, clients[j])
    ensures Led(System(core, clients[j := Handed(core, clients[j])]), x)
  {
    hide Led, CanReceive, Handed;
    if clients[j].fast {
      ReceivesFast(core, clients, x, j);
    } else {
      ReceivesSlow(core, clients, x, j);
    }
  }

  /** A client completes what it was just handed. */
  lemma Completes(core: Core, clients: seq<Client>, x: int, j: nat)
    requires j < |clients| && Led(System(core, clients), x) && core.holder.Free? && core.server.Checking?
    requires var rs := clients[j].receipts;
             && rs != [] && rs[|rs| - 1].frame == core.frame
             && CompletionAllowed(core, j, core.frame.sequence, core.frame.phase)
    ensures Led(System(core.(completion := core.completion + {j}, done := core.done + {(j, core.count)}), clients), x)
  {
    hide Led;
    var c := clients[j];
    var done := core.(completion := core.completion + {j}, done := core.done + {(j, core.count)});
    Replaced(clients, j, c, c);
    Steps(core, clients, x, j, c, Complete(j, |c.receipts| - 1), done.(holder := ByCompleter(j)), c);
    Steps(done.(holder := ByCompleter(j)), clients, x, j, c, CompleteExit(j), done, c);
  }

  // ---------------------------------------------------------------- the server

  /** The first `stage` of the five stores of a publish. */
  ghost function Stored(core: Core, stage: nat): Core
    requires stage <= 5
  {
    var k := core.count + 1;
    var next := FrameAt(core.cfg, k);
    core.(server := Storing(stage), holder := ByServer,
          frame := Frame(if stage > 0 then next.sequence else core.frame.sequence,
                         if stage > 1 then next.time else core.frame.time,
                         if stage > 2 then next.phase else core.frame.phase),
          participants := if stage > 3 then ParticipantsAt(core.cfg, k) else core.participants,
          completion := if stage > 4 then {} else core.completion)
  }

  lemma Stores(core: Core, clients: seq<Client>, x: int, stage: nat)
    requires Led(System(core, clients), x) && NoneAsleep(clients) && ServerEnabled(core, PublishLock) && stage <= 5
    ensures Led(System(Stored(core, stage), clients), x)
  {
    hide Led;
    if stage == 0 {
      ServerMoves(core, clients, x, PublishLock);
      assert Stored(core, 0) == ServerCore(core, PublishLock);
    } else {
      Stores(core, clients, x, stage - 1);
      ServerMoves(Stored(core, stage - 1), clients, x, PublishStore);
      assert Stored(core, stage) == ServerCore(Stored(core, stage - 1), PublishStore);
    }
  }

  lemma Signals(core: Core, clients: seq<Client>, x: int, n: nat)
    requires core.server == Signalling(0) && Led(System(core, clients), x) && NoneAsleep(clients)
    requires n <= |core.cfg.masks|
    ensures Led(System(core.(server := Signalling(n)), clients), x)
  {
    hide Led;
    if n > 0 {
      Signals(core, clients, x, n - 1);
      ServerMoves(core.(server := Signalling(n - 1)), clients, x, PublishSignal);
    }
  }

  lemma Publishes(core: Core, clients: seq<Client>, x: int)
    requires Led(System(core, clients), x) && NoneAsleep(clients) && ServerEnabled(core, PublishLock)
    ensures Led(System(Published(core), clients), x)
  {
    hide Led;
    Stores(core, clients, x, 5);
    var stored := Stored(core, 5);
    ServerMoves(stored, clients, x, PublishBump);
    var bumped := ServerCore(stored, PublishBump);
    Signals(bumped, clients, x, |core.cfg.masks|);
    var signalled := bumped.(server := Signalling(|core.cfg.masks|));
    ServerMoves(signalled, clients, x, PublishUnlock);
    assert ServerCore(signalled, PublishUnlock) == Published(core);
  }

  /** With every participant's completion there, the server leaves the phase. */
  lemma Proceeds(core: Core, clients: seq<Client>, x: int)
    requires Led(System(core, clients), x) && NoneAsleep(clients)
    requires core.count > 0 && core.server.Checking? && ParticipantsAt(core.cfg, core.count) <= core.completion
    ensures Led(System(core.(server := Ready), clients), x)
  {
    hide Led;
    ServerMoves(core, clients, x, WaitFast);
    var checked := ServerCore(core, WaitFast);
    ServerMoves(checked, clients, x, PhaseDone);
    assert ServerCore(checked, PhaseDone) == core.(server := Ready);
  }

  // ---------------------------------------------------------------- whole rounds

  /** What a client holds after k rounds in which it was handed every publication. */
  function ReceiptsUpTo(cfg: Config, k: nat): (receipts: seq<Receipt>)
    ensures |receipts| == k
    ensures k > 0 ==> receipts[k - 1] == Receipt(k, FrameAt(cfg, k))
  {
    if k == 0 then [] else ReceiptsUpTo(cfg, k - 1) + [Receipt(k, FrameAt(cfg, k))]
  }

  function ClientAfter(cfg: Config, fast: bool, k: nat): Client {
    Client(true, fast, false, Wrap(k), Outside, 0, k, ReceiptsUpTo(cfg, k))
  }

  /** Between two rounds, or while slot `skip` does something of its own: the slots below m are a round ahead. */
  ghost function ClientsAfter(cfg: Config, fast: seq<bool>, k: nat, m: nat, skip: int, d: Client): (clients: seq<Client>)
    requires |fast| == |cfg.masks|
    ensures |clients| == |fast|
  {
    seq(|fast|, j requires 0 <= j < |fast| =>
      if j == skip then d else ClientAfter(cfg, fast[j], if j < m then k + 1 else k))
  }

  ghost predicate AtRest(core: Core, cfg: Config, k: nat) {
    && core.cfg == cfg && core.generation == Wrap(k) && core.holder.Free? && !core.stopping
    && core.server.Ready? && core.count == k
  }

  ghost predicate InPhase(core: Core, cfg: Config, k: nat) {
    && k > 0 && core.cfg == cfg && core.generation == Wrap(k) && core.holder.Free? && !core.stopping
    && core.server.Checking? && core.count == k && core.frame == FrameAt(cfg, k)
    && core.participants == ParticipantsAt(cfg, k)
  }

  lemma NobodySleeps(cfg: Config, fast: seq<bool>, k: nat, m: nat, skip: int, d: Client)
    requires |fast| == |cfg.masks| && (0 <= skip < |fast| ==> !d.receiver.Asleep?)
    ensures NoneAsleep(ClientsAfter(cfg, fast, k, m, skip, d))
  {
  }

  /** One client's turn in round k + 1: it receives, and completes if it takes part. */
  lemma TakesTurn(core: Core, cfg: Config, fast: seq<bool>, k: nat, m: nat, skip: int, d: Client, x: int)
      returns (next: Core)
    requires |fast| == |cfg.masks| && m < |fast| && m != skip && InPhase(core, cfg, k + 1)
    requires m !in core.completion
    requires Led(System(core, ClientsAfter(cfg, fast, k, m, skip, d)), x)
    ensures InPhase(next, cfg, k + 1)
    ensures next.completion == core.completion + (if m in ParticipantsAt(cfg, k + 1) then {m} else {})
    ensures Led(System(next, ClientsAfter(cfg, fast, k, m + 1, skip, d)), x)
  {
    hide Led, FrameAt, ParticipantsAt, Wrap;
    var before, after := ClientsAfter(cfg, fast, k, m, skip, d), ClientsAfter(cfg, fast, k, m + 1, skip, d);
    CloseWrapsDiffer(k, k + 1);
    Receives(core, before, x, m);
    assert Handed(core, before[m]) == ClientAfter(cfg, fast[m], k + 1);
    assert before[m := Handed(core, before[m])] == after;
    if m in ParticipantsAt(cfg, k + 1) {
      Completes(core, after, x, m);
      next := core.(completion := core.completion + {m}, done := core.done + {(m, core.count)});
    } else {
      next := core;
    }
  }

  ghost function ParticipantsBelow(cfg: Config, k: nat, m: nat, skip: int): set<nat>
    requires k > 0
  {
    set j | j in ParticipantsAt(cfg, k) && j < m && j != skip
  }

  lemma {:induction false} TurnsUpTo(core: Core, cfg: Config, fast: seq<bool>, k: nat, m: nat, skip: int, d: Client, x: int)
      returns (next: Core)
    requires |fast| == |cfg.masks| && m <= |fast| && InPhase(core, cfg, k + 1) && core.completion == {}
    requires Led(System(core, ClientsAfter(cfg, fast, k, 0, skip, d)), x)
    ensures InPhase(next, cfg, k + 1) && next.completion == ParticipantsBelow(cfg, k + 1, m, skip)
    ensures Led(System(next, ClientsAfter(cfg, fast, k, m, skip, d)), x)
    decreases m
  {
    hide Led, FrameAt, Wrap, ParticipantsAt;
    if m == 0 {
      next := core;
    } else {
      var before := TurnsUpTo(core, cfg, fast, k, m - 1, skip, d, x);
      if m - 1 == skip {
        next := before;
        assert ClientsAfter(cfg, fast, k, m, skip, d) == ClientsAfter(cfg, fast, k, m - 1, skip, d);
      } else {
        next := TakesTurn(before, cfg, fast, k, m - 1, skip, d, x);
      }
    }
  }

  /** A whole phase: every client has its turn, but for one slot that takes no part and may be busy elsewhere; then the
      server is ready for the next publication. */
  lemma PhaseEnds(core: Core, cfg: Config, fast: seq<bool>, k: nat, skip: int, d: Client, x: int) returns (next: Core)
    requires |fast| == |cfg.masks| && InPhase(core, cfg, k + 1) && core.completion == {}
    requires Led(System(core, ClientsAfter(cfg, fast, k, 0, skip, d)), x)
    requires 0 <= skip ==> skip !in ParticipantsAt(cfg, k + 1)
    requires 0 <= skip < |fast| ==> !d.receiver.Asleep?
    ensures AtRest(next, cfg, k + 1) && next.frame == FrameAt(cfg, k + 1)
    ensures Led(System(next, ClientsAfter(cfg, fast, k, |fast|, skip, d)), x)
  {
    hide Led, FrameAt, Wrap;
    next := TurnsUpTo(core, cfg, fast, k, |fast|, skip, d, x);
    assert ParticipantsAt(cfg, k + 1) <= next.completion;
    NobodySleeps(cfg, fast, k, |fast|, skip, d);
    Proceeds(next, ClientsAfter(cfg, fast, k, |fast|, skip, d), x);
    next := next.(server := Ready);
  }

  lemma RestPublishes(core: Core, cfg: Config, k: nat)
    requires AtRest(core, cfg, k) && Representable(cfg, k + 1)
    ensures ServerEnabled(core, PublishLock)
    ensures InPhase(Published(core), cfg, k + 1) && Published(core).completion == {}
  {
    hide FrameAt, ParticipantsAt, Wrap;
    WrapSuccessor(k);
  }

  lemma Advances(core: Core, cfg: Config, fast: seq<bool>, k: nat, x: int)
    requires |fast| == |cfg.masks| && AtRest(core, cfg, k) && Representable(cfg, k + 1)
    requires Led(System(core, ClientsAfter(cfg, fast, k, 0, -1, ClientAfter(cfg, false, 0))), x)
    ensures InPhase(Published(core), cfg, k + 1) && Published(core).completion == {}
    ensures Led(System(Published(core), ClientsAfter(cfg, fast, k, 0, -1, ClientAfter(cfg, false, 0))), x)
  {
    hide Led, AtRest, InPhase, Published, ServerEnabled, NoneAsleep, ClientsAfter;
    RestPublishes(core, cfg, k);
    NobodySleeps(cfg, fast, k, 0, -1, ClientAfter(cfg, false, 0));
    Publishes(core, ClientsAfter(cfg, fast, k, 0, -1, ClientAfter(cfg, false, 0)), x);
  }

  ghost function FirstCore(cfg: Config): Core {
    Core(cfg, 0, Frame(0, 0, 0), {}, {}, false, Free, Ready, 0, {})
  }

  ghost function Connected(cfg: Config, fast: seq<bool>, m: nat): (clients: seq<Client>)
    requires |fast| == |cfg.masks|
    ensures |clients| == |fast|
  {
    seq(|fast|, j requires 0 <= j < |fast| =>
      if j < m then ClientAfter(cfg, fast[j], 0) else Client(false, false, false, 0, Outside, 0, 0, []))
  }

  ghost predicate FollowsRule(cfg: Config, fast: seq<bool>, x: int) {
    |fast| == |cfg.masks| && forall j :: 0 <= j < |fast| && j != x ==> (fast[j] <==> cfg.masks[j] == ALL_PHASES)
  }

  lemma {:induction false} Connects(cfg: Config, fast: seq<bool>, m: nat, x: int)
    requires ValidConfig(cfg) && FollowsRule(cfg, fast, x) && m <= |fast|
    ensures Led(System(FirstCore(cfg), Connected(cfg, fast, m)), x)
  {
    hide Led;
    if m == 0 {
      Starts(System(FirstCore(cfg), Connected(cfg, fast, 0)), x);
    } else {
      Connects(cfg, fast, m - 1, x);
      ClientMoves(FirstCore(cfg), Connected(cfg, fast, m - 1), x, m - 1, Connect(m - 1, fast[m - 1]));
      assert ClientNext(FirstCore(cfg), m - 1, Connected(cfg, fast, m - 1)[m - 1], Connect(m - 1, fast[m - 1]))
             == ClientAfter(cfg, fast[m - 1], 0);
      assert Connected(cfg, fast, m - 1)[m - 1 := ClientAfter(cfg, fast[m - 1], 0)] == Connected(cfg, fast, m);
    }
  }

  /** Every number of phases can be run through, by clients that are all handed every publication. */
  lemma {:induction false} Rounds(cfg: Config, fast: seq<bool>, k: nat, x: int) returns (core: Core)
    requires ValidConfig(cfg) && FollowsRule(cfg, fast, x) && (k > 0 ==> Representable(cfg, k))
    ensures AtRest(core, cfg, k)
    ensures Led(System(core, ClientsAfter(cfg, fast, k, 0, -1, ClientAfter(cfg, false, 0))), x)
  {
    hide Led, InPhase, ParticipantsAt, FrameAt;
    var nobody := ClientAfter(cfg, false, 0);
    if k == 0 {
      core := FirstCore(cfg);
      Connects(cfg, fast, |fast|, x);
      assert Connected(cfg, fast, |fast|) == ClientsAfter(cfg, fast, 0, 0, -1, nobody);
    } else {
      if k > 1 {
        EarlierIsRepresentable(cfg, k - 1, k);
      }
      core := Rounds(cfg, fast, k - 1, x);
      Advances(core, cfg, fast, k - 1, x);
      core := PhaseEnds(Published(core), cfg, fast, k - 1, -1, nobody, x);
      assert ClientsAfter(cfg, fast, k - 1, |fast|, -1, nobody) == ClientsAfter(cfg, fast, k, 0, -1, nobody);
    }
  }
}
