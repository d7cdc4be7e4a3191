/** The power runtime a component carries, and the bound the configuration check puts on what it can draw. */
module PowerRuntime {
  import opened Options
  import opened EpsConfig
  import opened Frames

  const MODES: nat := 6

  datatype Settings = Settings(switchId: nat, modeW: seq<real>, bootW: real, bootDelay: real, scale: real)

  /** simulith_power_runtime_t. `supplyOn` is the uint8 the supply flag is stored in. */
  datatype Runtime = Runtime(
    managed: bool, supplyOn: nat, enabled: bool, bootReady: U64, cycles: U64,
    successes: U64, rejections: U64, lastResponse: U64, settings: Settings)

  /** A zeroed runtime. */
  const ZEROED: Runtime :=
    Runtime(false, 0, false, 0, 0, 0, 0, 0, Settings(0, [0.0, 0.0, 0.0, 0.0, 0.0, 0.0], 0.0, 0.0, 0.0))

  predicate Ready(p: Runtime, ns: U64) {
    !p.managed || (p.supplyOn != 0 && p.enabled && ns >= p.bootReady)
  }

  function Configured(p: Runtime, settings: Settings): Runtime {
    if p.managed then p.(settings := settings)
    else p.(settings := settings, managed := true, supplyOn := 0, enabled := true)
  }

  /** A delay whose nanoseconds the C cast to 64 bits is defined for. */
  predicate Castable(bootDelay: real) {
    bootDelay >= 0.0 && (bootDelay * 1_000_000_000.0).Floor < WORD64
  }

  /** ns + delay, or the largest 64-bit value if that overflows. The delay is cut to whole nanoseconds. */
  function BootReadyAt(bootDelay: real, ns: U64): U64
    requires Castable(bootDelay)
  {
    var delay := (bootDelay * 1_000_000_000.0).Floor;
    if ns + delay >= WORD64 then WORD64 - 1 else ns + delay
  }

  /** The deadline is the last whole nanosecond that the delay does not go past, and the largest 64-bit value where that
      is too late for 64 bits. */
  lemma DeadlineIs(bootDelay: real, ns: U64)
    requires Castable(bootDelay)
    ensures var (deadline, exact) := (BootReadyAt(bootDelay, ns) as real, ns as real + 1_000_000_000.0 * bootDelay);
            if exact >= 18446744073709551616.0 then deadline == 18446744073709551615.0
            else deadline <= exact < deadline + 1.0
  {
    var delay := bootDelay * 1_000_000_000.0;
    assert ns + delay.Floor == (ns as real + delay).Floor;
  }

  /** simulith_power_set: the new state, and whether this was a real edge. */
  function Set(p: Runtime, on: int, ns: U64): (Runtime, bool)
    requires Castable(p.settings.bootDelay)
  {
    if p.supplyOn == on then (p, false)
    else
      var switched := p.(supplyOn := on % 256);
      if on != 0
      then (switched.(bootReady := BootReadyAt(p.settings.bootDelay, ns), cycles := (p.cycles + 1) % WORD64), true)
      else (switched, true)
  }

  function Recorded(p: Runtime, success: bool, ns: U64): Runtime {
    if success then p.(successes := (p.successes + 1) % WORD64, lastResponse := ns)
    else p.(rejections := (p.rejections + 1) % WORD64)
  }

  /** The watts of simulith_power_snapshot. */
  function Watts(p: Runtime, mode: nat, ns: U64): real
    requires |p.settings.modeW| == MODES
  {
    if p.managed && p.supplyOn != 0 && p.enabled
    then p.settings.scale *
         (if Ready(p, ns) then p.settings.modeW[if mode < MODES then mode else 0] else p.settings.bootW)
    else 0.0
  }

  datatype Snapshot = Snapshot(supplied: bool, ready: bool, mode: nat, cycles: U64, successes: U64, rejections: U64,
                               lastResponse: U64, watts: real)

  /** The struct a component holds, updated by the header's inline functions. */
  class PowerState {
    var runtime: Runtime

    constructor ()
      ensures runtime == ZEROED
    {
      runtime := ZEROED;
    }

    method Configure(settings: Settings)
      modifies this
      ensures runtime == Configured(old(runtime), settings)
    {
      runtime := runtime.(settings := settings);
      if runtime.managed {
        return;
      }
      runtime := runtime.(managed := true, supplyOn := 0, enabled := true);
    }

    method SetSupply(on: int, ns: U64) returns (edge: bool)
      requires Castable(runtime.settings.bootDelay)
      modifies this
      ensures (runtime, edge) == Set(old(runtime), on, ns)
    {
      if runtime.supplyOn == on {
        return false;
      }
      runtime := runtime.(supplyOn := on % 256);
      if on != 0 {
        var delay := (runtime.settings.bootDelay * 1_000_000_000.0).Floor;
        var ready: U64 := if delay > WORD64 - 1 - ns then WORD64 - 1 else ns + delay;
        runtime := runtime.(bootReady := ready);
        runtime := runtime.(cycles := (runtime.cycles + 1) % WORD64);
      }
      return true;
    }

    method RecordTransaction(success: bool, ns: U64)
      modifies this
      ensures runtime == Recorded(old(runtime), success, ns)
    {
      if success {
        runtime := runtime.(successes := (runtime.successes + 1) % WORD64);
        runtime := runtime.(lastResponse := ns);
      } else {
        runtime := runtime.(rejections := (runtime.rejections + 1) % WORD64);
      }
    }

    /** The snapshot only reads. An unmanaged load reports itself supplied and ready, and draws nothing. */
    method TakeSnapshot(mode: nat, ns: U64) returns (out: Snapshot)
      requires |runtime.settings.modeW| == MODES
      ensures out.watts == Watts(runtime, mode, ns)
      ensures !(runtime.managed && runtime.supplyOn != 0 && runtime.enabled) ==> out.watts == 0.0
      ensures runtime.managed && runtime.supplyOn != 0 && runtime.enabled && ns < runtime.bootReady ==>
                out.watts == runtime.settings.scale * runtime.settings.bootW
      ensures runtime.managed && runtime.supplyOn != 0 && runtime.enabled && ns >= runtime.bootReady ==>
                out.watts == runtime.settings.scale * runtime.settings.modeW[if mode <= 5 then mode else 0]
      ensures out.ready <==> Ready(runtime, ns)
      ensures out.supplied <==> !runtime.managed || runtime.supplyOn != 0
      ensures out == Snapshot(out.supplied, out.ready, mode, runtime.cycles, runtime.successes, runtime.rejections,
                              runtime.lastResponse, out.watts)
    {
      var supplied := !runtime.managed || runtime.supplyOn != 0;
      var ready := Ready(runtime, ns);
      var watts := 0.0;
      if runtime.managed && runtime.supplyOn != 0 && runtime.enabled {
        watts := runtime.settings.scale *
          (if ready then runtime.settings.modeW[if mode < MODES then mode else 0] else runtime.settings.bootW);
      }
      out := Snapshot(supplied, ready, mode, runtime.cycles, runtime.successes, runtime.rejections,
                      runtime.lastResponse, watts);
    }
  }

  // ---------------------------------------------------------------- runs of a runtime

  datatype Operation =
    | Configure(settings: Settings)
    | SetSupply(on: int, ns: U64)
    | Record(success: bool, ns: U64)
    | Gate(open: bool)             // the component drives its own enable gate

  predicate Acceptable(s: Settings) {
    && |s.modeW| == MODES && (forall k :: 0 <= k < MODES ==> s.modeW[k] >= 0.0)
    && s.bootW >= 0.0 && s.scale >= 0.0 && 0.0 <= s.bootDelay <= 3600.0
  }

  predicate AllAcceptable(ops: seq<Operation>) {
    forall k :: 0 <= k < |ops| ==> ops[k].Configure? ==> Acceptable(ops[k].settings)
  }

  function After(p: Runtime, op: Operation): Runtime
    requires Castable(p.settings.bootDelay)
  {
    match op
    case Configure(settings) => Configured(p, settings)
    case SetSupply(on, ns) => Set(p, on, ns).0
    case Record(success, ns) => Recorded(p, success, ns)
    case Gate(open) => p.(enabled := open)
  }

  /** The calls a component makes, in any order and number. */
  function Run(p: Runtime, ops: seq<Operation>): (q: Runtime)
    requires Castable(p.settings.bootDelay) && AllAcceptable(ops)
    ensures Castable(q.settings.bootDelay)
    decreases |ops|
  {
    if ops == [] then p else After(Run(p, Init(ops)), Last(ops))
  }

  function Init(ops: seq<Operation>): seq<Operation>
    requires ops != []
  {
    ops[..|ops| - 1]
  }

  function Last(ops: seq<Operation>): Operation
    requires ops != []
  {
    ops[|ops| - 1]
  }

  // ---------------------------------------------------------------- what a run amounts to

  /** Something the last call of a run can be. */
  type Event = seq<Operation> -> bool

  /** How often the event has happened in a run. */
  function Count(ops: seq<Operation>, event: Event): nat
    decreases |ops|
  {
    if ops == [] then 0 else Count(Init(ops), event) + if event(ops) then 1 else 0
  }

  /** The length of the run up to its latest such event, 0 if there is none. */
  function Latest(ops: seq<Operation>, event: Event): (n: nat)
    ensures n <= |ops| && (n > 0 ==> event(ops[..n]))
    ensures forall k :: n < k <= |ops| ==> !event(ops[..k])
    decreases |ops|
  {
    if ops == [] then 0
    else if event(ops) then (assert ops[..|ops|] == ops; |ops|)
    else
      assert ops[..|ops|] == ops;
      assert forall k :: 0 <= k < |ops| ==> Init(ops)[..k] == ops[..k];
      Latest(Init(ops), event)
  }

  predicate Configures(ops: seq<Operation>) {
    ops != [] && Last(ops).Configure?
  }

  predicate ConfiguresFirst(ops: seq<Operation>) {
    Configures(ops) && Count(Init(ops), Configures) == 0
  }

  predicate SetsSupply(ops: seq<Operation>) {
    ops != [] && (Last(ops).SetSupply? || ConfiguresFirst(ops))
  }

  predicate DrivesGate(ops: seq<Operation>) {
    ops != [] && (Last(ops).Gate? || ConfiguresFirst(ops))
  }

  predicate Succeeds(ops: seq<Operation>) {
    ops != [] && Last(ops).Record? && Last(ops).success
  }

  predicate Rejects(ops: seq<Operation>) {
    ops != [] && Last(ops).Record? && !Last(ops).success
  }

  /** What was last set, cut to a byte; off since the first configuration. */
  function SupplyOf(ops: seq<Operation>): (on: nat)
    ensures on < 256
  {
    var n := Latest(ops, SetsSupply);
    if n > 0 && ops[n - 1].SetSupply? then ops[n - 1].on % 256 else 0
  }

  /** Where the component last left its gate; open since the first configuration. */
  predicate GateOf(ops: seq<Operation>) {
    var n := Latest(ops, DrivesGate);
    n > 0 && (ops[n - 1].Gate? ==> ops[n - 1].open)
  }

  function SettingsAfter(ops: seq<Operation>): Settings {
    var n := Latest(ops, Configures);
    if n > 0 then ops[n - 1].settings else ZEROED.settings
  }

  /** The supply is set to something else than off and than what it is. */
  predicate SwitchesOn(ops: seq<Operation>) {
    ops != [] && Last(ops).SetSupply? && Last(ops).on != 0 && Last(ops).on != SupplyOf(Init(ops))
  }

  lemma SettingsCastable(ops: seq<Operation>)
    requires AllAcceptable(ops)
    ensures Castable(SettingsAfter(ops).bootDelay)
  {
    var n := Latest(ops, Configures);
    if n > 0 {
      assert Last(ops[..n]) == ops[n - 1];
    }
  }

  /** The boot delay configured at the latest ON edge, counted from that edge. */
  function DeadlineOf(ops: seq<Operation>): U64
    requires AllAcceptable(ops)
  {
    var n := Latest(ops, SwitchesOn);
    if n == 0 then 0
    else
      SettingsCastable(ops[..n - 1]);
      assert Last(ops[..n]) == ops[n - 1];
      BootReadyAt(SettingsAfter(ops[..n - 1]).bootDelay, ops[n - 1].ns)
  }

  /** The time of the latest success. */
  function ResponseOf(ops: seq<Operation>): U64 {
    var n := Latest(ops, Succeeds);
    if n == 0 then 0 else assert Last(ops[..n]) == ops[n - 1]; ops[n - 1].ns
  }

  /** The runtime as its run explains it, each field by itself. */
  function Explained(ops: seq<Operation>): Runtime
    requires AllAcceptable(ops)
  {
    Runtime(Count(ops, Configures) > 0, SupplyOf(ops), GateOf(ops), DeadlineOf(ops), Count(ops, SwitchesOn) % WORD64,
            Count(ops, Succeeds) % WORD64, Count(ops, Rejects) % WORD64, ResponseOf(ops), SettingsAfter(ops))
  }

  lemma SupplyStep(ops: seq<Operation>)
    requires ops != []
    ensures SupplyOf(ops) == (if Last(ops).SetSupply? then Last(ops).on % 256
                              else if ConfiguresFirst(ops) then 0
                              else SupplyOf(Init(ops)))
  {
    hide Count;
  }

  lemma GateStep(ops: seq<Operation>)
    requires ops != []
    ensures GateOf(ops) == (if Last(ops).Gate? then Last(ops).open else ConfiguresFirst(ops) || GateOf(Init(ops)))
  {
    hide Count;
  }

  lemma SettingsStep(ops: seq<Operation>)
    requires ops != []
    ensures SettingsAfter(ops) == (if Last(ops).Configure? then Last(ops).settings else SettingsAfter(Init(ops)))
  {
  }

  lemma DeadlineStep(ops: seq<Operation>)
    requires ops != [] && AllAcceptable(ops)
    ensures Castable(SettingsAfter(Init(ops)).bootDelay)
    ensures DeadlineOf(ops) == (if SwitchesOn(ops) then BootReadyAt(SettingsAfter(Init(ops)).bootDelay, Last(ops).ns)
                                else DeadlineOf(Init(ops)))
  {
    hide Count, BootReadyAt, SettingsAfter, SupplyOf;
    SettingsCastable(Init(ops));
    var n := Latest(ops, SwitchesOn);
    if 0 < n < |ops| {
      assert Init(ops)[..n - 1] == ops[..n - 1];
    }
  }

  lemma ResponseStep(ops: seq<Operation>)
    requires ops != []
    ensures ResponseOf(ops) == (if Succeeds(ops) then Last(ops).ns else ResponseOf(Init(ops)))
  {
  }

  lemma WrapOneMore(n: nat)
    ensures (n % WORD64 + 1) % WORD64 == (n + 1) % WORD64
  {
  }

  lemma StepExplained(ops: seq<Operation>)
    requires ops != [] && AllAcceptable(ops)
    ensures Castable(SettingsAfter(Init(ops)).bootDelay)
    ensures After(Explained(Init(ops)), Last(ops)) == Explained(ops)
  {
    hide Latest, SupplyOf, GateOf, SettingsAfter, DeadlineOf, ResponseOf, BootReadyAt, Castable, Acceptable;
    WrapOneMore(Count(Init(ops), SwitchesOn));
    WrapOneMore(Count(Init(ops), Succeeds));
    WrapOneMore(Count(Init(ops), Rejects));
    SupplyStep(ops);
    GateStep(ops);
    SettingsStep(ops);
    DeadlineStep(ops);
    ResponseStep(ops);
  }

  /** Whatever the calls, in whatever order: every field of the runtime is what the run says about it. */
  lemma {:induction false} RunIsExplained(ops: seq<Operation>)
    requires AllAcceptable(ops)
    ensures Run(ZEROED, ops) == Explained(ops)
    decreases |ops|
  {
    if ops != [] {
      hide Explained, After;
      RunIsExplained(Init(ops));
      StepExplained(ops);
    }
  }

  lemma {:induction false} SuppliedWasSwitchedOn(ops: seq<Operation>)
    requires SupplyOf(ops) != 0
    ensures Latest(ops, SwitchesOn) > 0
    decreases |ops|
  {
    hide Count, SupplyOf;
    if ops != [] {
      SupplyStep(ops);
      if SupplyOf(Init(ops)) != 0 {
        SuppliedWasSwitchedOn(Init(ops));
      }
    } else {
      NothingSupplied();
    }
  }

  lemma NothingSupplied()
    ensures SupplyOf([]) == 0
  {
  }

  /** A configured load is ready exactly while it is supplied and its gate is open, once the boot delay since its latest
      ON edge is over; one that was never configured always is. */
  lemma ReadyOnlyAfterBoot(ops: seq<Operation>, ns: U64)
    requires AllAcceptable(ops)
    ensures Ready(Run(ZEROED, ops), ns) <==>
              || Count(ops, Configures) == 0
              || (SupplyOf(ops) != 0 && GateOf(ops) && Latest(ops, SwitchesOn) > 0 && ns >= DeadlineOf(ops))
  {
    hide Run, Latest, SupplyOf, GateOf, DeadlineOf, Count, ResponseOf, SettingsAfter;
    RunIsExplained(ops);
    if SupplyOf(ops) != 0 {
      SuppliedWasSwitchedOn(ops);
    }
  }

  /** A reported edge is one between off and on, and no such edge goes unreported, exactly if the requested level is the
      stored byte itself, or cut to a byte is on where that is off or the other way round. */
  lemma EdgeIsReal(p: Runtime, on: int, ns: U64)
    requires p.supplyOn < 256 && Castable(p.settings.bootDelay)
    ensures var (q, edge) := Set(p, on, ns);
            (edge <==> (p.supplyOn != 0) != (q.supplyOn != 0))
            <==> on == p.supplyOn || (on % 256 != 0) != (p.supplyOn != 0)
  {
  }

  /** A request of 256 is an edge that starts a boot and counts a cycle, and leaves the supply off. */
  lemma EdgeIntoNothing(ns: U64)
    ensures Castable(ZEROED.settings.bootDelay)
    ensures var (q, edge) := Set(ZEROED, 256, ns); edge && q.supplyOn == 0 && q.cycles == 1 && q.bootReady == ns
  {
  }

  /** With levels 0 and 1, as the components get them, the cycles of a run count exactly its changes from off to on. */
  lemma {:induction false} CyclesAreReal(ops: seq<Operation>)
    requires ops != [] && forall k :: 0 <= k < |ops| ==> ops[k].SetSupply? ==> ops[k].on in {0, 1}
    ensures SwitchesOn(ops) <==> SupplyOf(Init(ops)) == 0 && SupplyOf(ops) == 1
    ensures SupplyOf(ops) in {0, 1}
    decreases |ops|
  {
    hide Latest, SupplyOf;
    SupplyStep(ops);
    if |ops| > 1 {
      CyclesAreReal(Init(ops));
    } else {
      NothingSupplied();
    }
  }

  /** What a component's snapshot shows after a run. */
  function WattsAfter(ops: seq<Operation>, mode: nat, ns: U64): real
    requires AllAcceptable(ops)
  {
    RunKeepsModes(ops);
    Watts(Run(ZEROED, ops), mode, ns)
  }

  lemma {:induction false} RunKeepsModes(ops: seq<Operation>)
    requires AllAcceptable(ops)
    ensures |Run(ZEROED, ops).settings.modeW| == MODES
    decreases |ops|
  {
    if ops != [] {
      RunKeepsModes(Init(ops));
    }
  }

  /** Over every run: a load that has been configured, is supplied and has its gate open shows the scaled power of its
      mode from its boot deadline on and its scaled boot power before, both of its latest settings; any other load
      shows nothing. A mode that there is none of counts as the first. */
  lemma WattsAreExplained(ops: seq<Operation>, mode: nat, ns: U64)
    requires AllAcceptable(ops)
    ensures var settings := SettingsAfter(ops);
            && |settings.modeW| == 6
            && (Count(ops, Configures) == 0 || SupplyOf(ops) == 0 || !GateOf(ops) ==> WattsAfter(ops, mode, ns) == 0.0)
            && (Count(ops, Configures) > 0 && SupplyOf(ops) != 0 && GateOf(ops) ==>
                  Latest(ops, SwitchesOn) > 0
                  && WattsAfter(ops, mode, ns)
                     == settings.scale * (if ns < DeadlineOf(ops) then settings.bootW
                                          else if mode < 6 then settings.modeW[mode] else settings.modeW[0]))
  {
    hide Run, Latest, SupplyOf, GateOf, DeadlineOf, Count, ResponseOf, SettingsAfter;
    RunIsExplained(ops);
    RunKeepsModes(ops);
    if SupplyOf(ops) != 0 {
      SuppliedWasSwitchedOn(ops);
    }
  }

  function Unconfigured(ops: seq<Operation>): (r: seq<Operation>)
    ensures AllAcceptable(r)
    decreases |ops|
  {
    if ops == [] then []
    else Unconfigured(Init(ops)) + if Last(ops).Configure? then [] else [Last(ops)]
  }

  predicate Keeps(ops: seq<Operation>, settings: Settings) {
    forall k :: 0 <= k < |ops| ==> ops[k].Configure? ==> ops[k].settings == settings
  }

  lemma RunOneMore(p: Runtime, ops: seq<Operation>, op: Operation)
    requires Castable(p.settings.bootDelay) && AllAcceptable(ops + [op])
    ensures Run(p, ops + [op]) == After(Run(p, ops), op)
  {
    hide After;
    assert Init(ops + [op]) == ops;
  }

  /** Once a load is configured, configuring it again leaves supply, gate and history as they are, however often it is
      done in between; with unchanged settings it changes nothing at all. */
  lemma {:induction false} LaterConfiguresAreSilent(p: Runtime, ops: seq<Operation>)
    requires p.managed && Castable(p.settings.bootDelay) && AllAcceptable(ops)
    ensures Run(p, ops).managed
    ensures var (q, without) := (Run(p, ops), Run(p, Unconfigured(ops)));
            q == without.(settings := q.settings, bootReady := q.bootReady)
    ensures Keeps(ops, p.settings) ==>
              Run(p, ops).settings == p.settings && Run(p, ops) == Run(p, Unconfigured(ops))
    decreases |ops|
  {
    hide Castable, Acceptable, BootReadyAt, Run;
    if ops != [] {
      LaterConfiguresAreSilent(p, Init(ops));
      assert ops == Init(ops) + [Last(ops)];
      RunOneMore(p, Init(ops), Last(ops));
      if Last(ops).Configure? {
        assert Unconfigured(ops) == Unconfigured(Init(ops));
      } else {
        RunOneMore(p, Unconfigured(Init(ops)), Last(ops));
      }
    } else {
      RunNothing(p);
    }
  }

  lemma RunNothing(p: Runtime)
    requires Castable(p.settings.bootDelay)
    ensures Run(p, []) == p
  {
  }

  lemma {:induction false} RunKeepsSettings(ops: seq<Operation>, settings: Settings)
    requires Acceptable(settings) && Keeps(ops, settings)
    ensures Run(ZEROED, ops).settings == if Run(ZEROED, ops).managed then settings else ZEROED.settings
    decreases |ops|
  {
    if ops != [] {
      RunKeepsSettings(Init(ops), settings);
    }
  }

  // ---------------------------------------------------------------- configuration and runtime

  /** The settings the image carries for a rendered load. */
  function SettingsOf(r: Rendered): Settings {
    Settings(r.switch, r.modePower, r.bootPower, r.bootDelay, r.powerScale)
  }

  lemma WattsAtMostPeak(r: Rendered, ops: seq<Operation>, mode: nat, ns: U64)
    requires Acceptable(SettingsOf(r)) && Keeps(ops, SettingsOf(r))
    ensures 0.0 <= WattsAfter(ops, mode, ns) <= Peak(r)
  {
    hide Run, Ready, Peak;
    RunKeepsSettings(ops, SettingsOf(r));
    WattsBelowPeak(r, Run(ZEROED, ops), mode, ns);
  }

  lemma WattsBelowPeak(r: Rendered, p: Runtime, mode: nat, ns: U64)
    requires Acceptable(SettingsOf(r)) && |p.settings.modeW| == MODES
    requires p.managed ==> p.settings == SettingsOf(r)
    ensures 0.0 <= Watts(p, mode, ns) <= Peak(r)
  {
    hide Max, Ready;
    var drawn := if Ready(p, ns) then r.modePower[if mode < MODES then mode else 0] else r.bootPower;
    var most := if Max(r.modePower) >= r.bootPower then Max(r.modePower) else r.bootPower;
    Scaled(r.powerScale, drawn, most);
  }

  lemma Scaled(scale: real, drawn: real, most: real)
    requires scale >= 0.0 && 0.0 <= drawn <= most
    ensures 0.0 <= scale * drawn <= most * scale
  {
  }

  lemma {:induction false} ModesNormal(rs: seq<real>)
    requires forall k :: 0 <= k < |rs| ==> rs[k] >= 0.0
    ensures RealsOf(Reals(rs)) == rs
  {
  }

  lemma RenderedAcceptable(name: string, load: Load)
    requires IsNormalLoad(load)
    ensures Acceptable(SettingsOf(Render(name, load)))
  {
    var powers := Numbers(load.modePower.value.items).value;
    ModesNormal(powers);
  }

  /** What the last stage of normalize_eps has checked. */
  lemma FinishLimits(cfg: EpsConfig.Config, switches: seq<Switch>, selected: map<string, Load>,
                     available: set<string>, done: EpsConfig.Config)
    requires |switches| == 8 && forall k :: 0 <= k < 8 ==> switches[k].Switch? && IsNormalSwitch(switches[k])
    requires Finish(cfg, switches, selected, available) == Some(done)
    ensures WithinLimits(done)
  {
    hide IsNormalSwitch, WithinTenAmps, PeakOn, NormalizeLoads, IsNormalLoad, Acceptable, Render;
    LoadsAgain(selected);
    var loads := NormalizeLoads(selected).value;
    forall j | 0 <= j < 3
      ensures Acceptable(SettingsOf(done.rendered[j]))
      ensures done.rendered[j].component == "" ==> done.rendered[j] == NOTHING_RENDERED
    {
      if COMPONENTS[j] in loads {
        RenderedAcceptable(COMPONENTS[j], loads[COMPONENTS[j]]);
        RenderedHasName(COMPONENTS[j], loads[COMPONENTS[j]]);
      } else {
        NothingAcceptable();
      }
    }
  }

  lemma RenderedHasName(name: string, load: Load)
    requires IsNormalLoad(load)
    ensures Render(name, load).component != ""
  {
    assert |name + "_sim"| >= 4;
  }

  lemma NothingAcceptable()
    ensures Acceptable(SettingsOf(NOTHING_RENDERED))
  {
  }

  /** What an accepted configuration guarantees about its switches and rendered loads. */
  ghost predicate WithinLimits(done: EpsConfig.Config) {
    && |done.rendered| == 3
    && (forall j :: 0 <= j < 3 ==>
          && Acceptable(SettingsOf(done.rendered[j]))
          && (done.rendered[j].component == "" ==> done.rendered[j] == NOTHING_RENDERED))
    && done.switches.Some? && done.switches.value.SwitchList? && |done.switches.value.list| == 8
    && (forall i :: 0 <= i < 8 ==>
          && done.switches.value.list[i].Switch? && IsNormalSwitch(done.switches.value.list[i])
          && WithinTenAmps(done.switches.value.list[i], PeakOn(done.rendered, i)))
  }

  lemma AcceptedIsWithinLimits(cfg: EpsConfig.Config, available: set<string>)
    requires Normalize(cfg, available).Some?
    ensures WithinLimits(Normalize(cfg, available).value)
  {
    hide NormalizeWiring, Finish, WithinLimits, IsNormalSwitch;
    var done := Normalize(cfg, available).value;
    var numbered := cfg.(capacity := Some(Real(Number(cfg.capacity.value, TINY, None).value)),
                         initialSoc := Some(Real(Number(cfg.initialSoc.value, 0.0, Some(1.0)).value)),
                         voltageMin := Some(Real(Number(cfg.voltageMin.value, 0.0, Some(32.0)).value)),
                         voltageMax := Some(Real(Number(cfg.voltageMax.value, 0.0, Some(32.0)).value)),
                         maxSolar := Some(Real(Number(cfg.maxSolar.value, 0.0, None).value)),
                         baseLoad := Some(Real(Number(GetOr(cfg.baseLoad, Int(0)), 0.0, None).value)));
    assert NormalizeWiring(numbered, available) == Some(done);
    var watts, started, selected := WiringParts(numbered, available, done);
    FinishLimits(numbered.(passive := Some(Items(Reals(watts)))), started, selected, available, done);
  }

  /** What the three loads draw on switch i. */
  function Drawn(rendered: seq<Rendered>, watts: seq<real>, i: nat): real
    requires |watts| == |rendered|
  {
    if rendered == [] then 0.0
    else (if rendered[0].switch == i then watts[0] else 0.0) + Drawn(rendered[1..], watts[1..], i)
  }

  lemma {:induction false} DrawnAtMostPeaks(rendered: seq<Rendered>, watts: seq<real>, i: nat)
    requires |watts| == |rendered|
    requires forall k :: 0 <= k < |rendered| ==> |rendered[k].modePower| == 6
    requires forall k :: 0 <= k < |rendered| ==>
               watts[k] <= (if rendered[k].component == "" then 0.0 else Peak(rendered[k]))
    ensures Drawn(rendered, watts, i) <= PeakOn(rendered, i)
    decreases |rendered|
  {
    if rendered != [] {
      DrawnAtMostPeaks(rendered[1..], watts[1..], i);
    }
  }

  /** Component j is configured with what is rendered for it, whenever it is configured. */
  predicate ConfiguredAs(rendered: seq<Rendered>, ops: seq<seq<Operation>>) {
    |ops| == |rendered| && forall j :: 0 <= j < |ops| ==> Keeps(ops[j], SettingsOf(rendered[j]))
  }

  /** If the configuration is accepted, then whatever the three components have been through, in whatever modes and
      at whatever time they are looked at, the passive load of a switch and what its components draw together stay
      within 10 A of its voltage. */
  lemma ConfigCheckBoundsTheRuntime(cfg: EpsConfig.Config, available: set<string>, ops: seq<seq<Operation>>,
                                    modes: seq<nat>, ns: U64, i: nat)
    requires Normalize(cfg, available).Some?
    requires ConfiguredAs(Normalize(cfg, available).value.rendered, ops) && |modes| == 3 && i < 8
    ensures var done := Normalize(cfg, available).value;
            && WithinLimits(done)
            && (var switch := done.switches.value.list[i];
                RealOf(switch.loadPower) + Drawn(done.rendered, AllWatts(done.rendered, ops, modes, ns), i)
                <= 10.0 * RealOf(switch.voltage))
  {
    AcceptedIsWithinLimits(cfg, available);
    var done := Normalize(cfg, available).value;
    WithinLimitsBounds(done, ops, modes, ns, i);
  }

  /** The snapshot watts of all loads: load j has been through ops[j] and is in mode modes[j]. */
  ghost function AllWatts(rendered: seq<Rendered>, ops: seq<seq<Operation>>, modes: seq<nat>, ns: U64): (w: seq<real>)
    requires ConfiguredAs(rendered, ops) && |modes| == |rendered|
    requires forall j :: 0 <= j < |rendered| ==> Acceptable(SettingsOf(rendered[j]))
    ensures |w| == |rendered|
  {
    seq(|rendered|, j requires 0 <= j < |rendered| => WattsAfter(ops[j], modes[j], ns))
  }

  lemma WithinLimitsBounds(done: EpsConfig.Config, ops: seq<seq<Operation>>, modes: seq<nat>, ns: U64, i: nat)
    requires WithinLimits(done)
    requires ConfiguredAs(done.rendered, ops) && |modes| == 3 && i < 8
    ensures var switch := done.switches.value.list[i];
            RealOf(switch.loadPower) + Drawn(done.rendered, AllWatts(done.rendered, ops, modes, ns), i)
            <= 10.0 * RealOf(switch.voltage)
  {
    hide IsNormalSwitch, PeakOn, Drawn, WattsAfter, Keeps, Peak, WithinTenAmps, RealOf;
    var watts := AllWatts(done.rendered, ops, modes, ns);
    forall j | 0 <= j < 3
      ensures |done.rendered[j].modePower| == 6
      ensures watts[j] <= (if done.rendered[j].component == "" then 0.0 else Peak(done.rendered[j]))
    {
      WattsAtMostPeak(done.rendered[j], ops[j], modes[j], ns);
      NothingPeaksAtZero();
    }
    DrawnAtMostPeaks(done.rendered, watts, i);
    AmpsToWatts(done.switches.value.list[i], PeakOn(done.rendered, i));
  }

  lemma NothingPeaksAtZero()
    ensures Peak(NOTHING_RENDERED) == 0.0
  {
  }

  lemma AmpsToWatts(switch: Switch, peak: real)
    requires switch.Switch? && WithinTenAmps(switch, peak)
    ensures RealOf(switch.loadPower) + peak <= 10.0 * RealOf(switch.voltage)
  {
    var watts, volts := RealOf(switch.loadPower) + peak, RealOf(switch.voltage);
    assert watts == (watts / volts) * volts;
  }
}
