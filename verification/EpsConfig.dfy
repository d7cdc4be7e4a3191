/** The EPS configuration check: what normalize_eps accepts, fills in and refuses. Powers and voltages are exact
    reals. A configuration is the mapping's keys the code reads, each possibly missing. */
module EpsConfig {
  import opened Options
  import Text

  /** A configured value; `Odd` is anything that is no number, bool, text or list. */
  datatype Value = Int(whole: int) | Real(number: real) | NonFinite | Bool(flag: bool) | Text(text: string)
                 | Items(items: seq<Value>) | Odd

  datatype Switch = NoSwitch   // not a mapping
    | Switch(loadPower: Option<Value>, voltage: Option<Value>, startupOn: Option<Value>, title: Option<Value>)

  datatype Load = NoLoad       // not a mapping
    | Load(switch: Option<Value>, modePower: Option<Value>, bootPower: Option<Value>, bootDelay: Option<Value>,
           powerScale: Option<Value>)

  /** A list of switches or a mapping of loads, where the configuration may hold something else instead. */
  datatype Switches = NotAList | SwitchList(list: seq<Switch>)
  datatype Loads = NotAMapping | LoadMap(entries: map<string, Load>)

  /** One of the three loads handed to the runtime. */
  datatype Rendered = Rendered(component: string, switch: nat, modePower: seq<real>, bootPower: real,
                               bootDelay: real, powerScale: real)

  datatype Config = Config(
    capacity: Option<Value>, initialSoc: Option<Value>, voltageMin: Option<Value>, voltageMax: Option<Value>,
    maxSolar: Option<Value>, baseLoad: Option<Value>, passive: Option<Value>, switches: Option<Switches>,
    loads: Option<Loads>, defaultLoads: Option<Loads>, wireDefaults: bool, rendered: seq<Rendered>)

  const COMPONENTS: seq<string> := ["demo", "adcs", "radio"]

  const TINY: real := 0.000000001   // 1e-9

  // ---------------------------------------------------------------- numbers

  /** number: a finite int or float in range, as a float. */
  function Number(v: Value, low: real, high: Option<real>): Option<real> {
    var r := match v
             case Int(i) => Some(i as real)
             case Real(r) => Some(r)
             case _ => None;
    if r.Some? && low <= r.value && (high.Some? ==> r.value <= high.value) then r else None
  }

  function Numbers(vs: seq<Value>): (rs: Option<seq<real>>)
    ensures rs.Some? ==> |rs.value| == |vs| && forall k :: 0 <= k < |vs| ==> Some(rs.value[k]) == Number(vs[k], 0.0, None)
  {
    if vs == [] then Some([])
    else
      match (Number(vs[0], 0.0, None), Numbers(vs[1..]))
      case (Some(r), Some(rest)) => Some([r] + rest)
      case _ => None
  }

  function Reals(rs: seq<real>): (vs: seq<Value>)
    ensures |vs| == |rs| && forall k :: 0 <= k < |rs| ==> vs[k] == Real(rs[k])
  {
    if rs == [] then [] else [Real(rs[0])] + Reals(rs[1..])
  }

  function GetOr(o: Option<Value>, default: Value): Value {
    if o.Some? then o.value else default
  }

  function Max(rs: seq<real>): (m: real)
    requires rs != []
    ensures forall k :: 0 <= k < |rs| ==> rs[k] <= m
    ensures exists k :: 0 <= k < |rs| && rs[k] == m
  {
    if |rs| == 1 then rs[0]
    else
      var m := Max(rs[1..]);
      assert forall k :: 1 <= k < |rs| ==> rs[k] == rs[1..][k - 1];
      if rs[0] >= m then rs[0] else
        assert exists k :: 0 <= k < |rs| && rs[k] == m by {
          var k :| 0 <= k < |rs[1..]| && rs[1..][k] == m;
          assert rs[k + 1] == m;
        }
        m
  }

  // ---------------------------------------------------------------- switches

  predicate HasText(v: Value) {
    v.Text? && exists k :: 0 <= k < |v.text| && !Text.IsBlank(v.text[k])
  }

  function SwitchTitle(i: nat): string
    requires i < 10
  {
    "Switch " + ["0123456789"[i]]
  }

  function NormalizeSwitch(i: nat, switch: Switch, passive: Value): Option<Switch>
    requires i < 10
  {
    if switch.NoSwitch? || switch.voltage.None? then None
    else
      var power := Number(GetOr(switch.loadPower, passive), 0.0, None);
      var voltage := Number(switch.voltage.value, TINY, Some(32.0));
      var startup, title := GetOr(switch.startupOn, Bool(false)), GetOr(switch.title, Text(SwitchTitle(i)));
      if power.None? || voltage.None? || !startup.Bool? || !HasText(title) then None
      else Some(Switch(Some(Real(power.value)), Some(Real(voltage.value)), Some(startup), Some(title)))
  }

  function NormalizeSwitches(from: nat, switches: seq<Switch>, passive: seq<Value>): (r: Option<seq<Switch>>)
    requires from + |switches| <= 8 && |passive| == 8
    ensures r.Some? ==> |r.value| == |switches|
    ensures r.Some? ==> forall k :: 0 <= k < |switches| ==>
              r.value[k].Switch? && Some(r.value[k]) == NormalizeSwitch(from + k, switches[k], passive[from + k])
    decreases |switches|
  {
    if switches == [] then Some([])
    else
      match (NormalizeSwitch(from, switches[0], passive[from]), NormalizeSwitches(from + 1, switches[1..], passive))
      case (Some(first), Some(rest)) => Some([first] + rest)
      case _ => None
  }

  predicate Truthy(v: Value) {
    match v
    case Int(i) => i != 0
    case Real(r) => r != 0.0
    case _ => true
  }

  const DEFAULT_VOLTAGES: seq<real> := [3.3, 3.3, 5.0, 5.0, 12.0, 12.0, 24.0, 24.0]

  /** The eight switches of a configuration that names none. */
  function DefaultSwitches(from: nat, passive: seq<Value>): (switches: seq<Switch>)
    requires from <= 8 && |passive| == 8
    ensures |switches| == 8 - from
    decreases 8 - from
  {
    if from == 8 then []
    else
      [Switch(None, Some(Real(DEFAULT_VOLTAGES[from])), Some(Bool(false)),
              Some(Text(if Truthy(passive[from]) then "Load bank" else SwitchTitle(from))))]
      + DefaultSwitches(from + 1, passive)
  }

  // ---------------------------------------------------------------- loads

  function NormalizeLoad(load: Load): Option<Load> {
    if load.NoLoad? then None
    else if load.switch.None? || !load.switch.value.Int? || !(0 <= load.switch.value.whole < 8) then None
    else if load.modePower.None? || !load.modePower.value.Items? || |load.modePower.value.items| != 6 then None
    else
      var powers := Numbers(load.modePower.value.items);
      if powers.None? then None
      else
        var boot := Number(GetOr(load.bootPower, Real(Max(powers.value))), 0.0, None);
        var delay := Number(GetOr(load.bootDelay, Int(0)), 0.0, Some(3600.0));
        var scale := Number(GetOr(load.powerScale, Int(1)), 0.0, Some(1000.0));
        if boot.None? || delay.None? || scale.None? then None
        else Some(Load(load.switch, Some(Items(Reals(powers.value))), Some(Real(boot.value)),
                       Some(Real(delay.value)), Some(Real(scale.value))))
  }

  /** {**defaults, **load} */
  function Overlay(default: Load, load: Load): Load
    requires default.Load? && load.Load?
  {
    Load(if load.switch.Some? then load.switch else default.switch,
         if load.modePower.Some? then load.modePower else default.modePower,
         if load.bootPower.Some? then load.bootPower else default.bootPower,
         if load.bootDelay.Some? then load.bootDelay else default.bootDelay,
         if load.powerScale.Some? then load.powerScale else default.powerScale)
  }

  const EMPTY_LOAD: Load := Load(None, None, None, None, None)

  /** The loads that are wired: the defaults the spacecraft has, if asked for, under the configured ones. */
  function Selected(defaults: map<string, Load>, loads: map<string, Load>, wireDefaults: bool, available: set<string>)
    : (selected: map<string, Load>)
    requires forall name :: name in defaults ==> defaults[name].Load?
    requires forall name :: name in loads ==> loads[name].Load?
  {
    map name | name in (set n | n in defaults && wireDefaults && n in available) + loads.Keys ::
      if name in loads
      then Overlay(if name in defaults then defaults[name] else EMPTY_LOAD, loads[name])
      else defaults[name]
  }

  /** Without configured switches, a switch that feeds a wired load starts on. */
  predicate Feeds(load: Load, i: nat) {
    load.Load? && load.switch == Some(Int(i))
  }

  function StartUp(switches: seq<Switch>, loads: map<string, Load>): (r: seq<Switch>)
    requires forall k :: 0 <= k < |switches| ==> switches[k].Switch?
    ensures |r| == |switches| && forall k :: 0 <= k < |r| ==> r[k].Switch?
  {
    seq(|switches|, i requires 0 <= i < |switches| =>
      if exists name :: name in loads && Feeds(loads[name], i) then switches[i].(startupOn := Some(Bool(true)))
      else switches[i])
  }

  function NormalizeLoads(loads: map<string, Load>): (r: Option<map<string, Load>>)
    ensures r.Some? ==> r.value.Keys == loads.Keys
  {
    if forall name :: name in loads ==> NormalizeLoad(loads[name]).Some?
    then Some(map name | name in loads :: NormalizeLoad(loads[name]).value)
    else None
  }

  function RealOf(v: Option<Value>): real {
    if v.Some? && v.value.Real? then v.value.number else 0.0
  }

  function RealsOf(vs: seq<Value>): (rs: seq<real>)
    ensures |rs| == |vs| && forall k :: 0 <= k < |vs| ==> rs[k] == RealOf(Some(vs[k]))
  {
    if vs == [] then [] else [RealOf(Some(vs[0]))] + RealsOf(vs[1..])
  }

  /** A load after normalization. */
  predicate IsNormal(load: Load) {
    && load.Load?
    && load.switch.Some? && load.switch.value.Int? && 0 <= load.switch.value.whole < 8
    && load.modePower.Some? && load.modePower.value.Items? && |load.modePower.value.items| == 6
  }

  function Render(name: string, load: Load): Rendered
    requires IsNormal(load)
  {
    Rendered(name + "_sim", load.switch.value.whole, RealsOf(load.modePower.value.items), RealOf(load.bootPower),
             RealOf(load.bootDelay), RealOf(load.powerScale))
  }

  const NOTHING_RENDERED: Rendered := Rendered("", 0, [0.0, 0.0, 0.0, 0.0, 0.0, 0.0], 0.0, 0.0, 1.0)

  function RenderAll(loads: map<string, Load>): (rs: seq<Rendered>)
    requires forall name :: name in loads ==> IsNormal(loads[name])
    ensures |rs| == 3
  {
    seq(3, i requires 0 <= i < 3 =>
      if COMPONENTS[i] in loads then Render(COMPONENTS[i], loads[COMPONENTS[i]]) else NOTHING_RENDERED)
  }

  // ---------------------------------------------------------------- the current check

  /** max(max(mode powers), boot power) * scale */
  function Peak(r: Rendered): real
    requires |r.modePower| == 6
  {
    (if Max(r.modePower) >= r.bootPower then Max(r.modePower) else r.bootPower) * r.powerScale
  }

  function PeakOn(rs: seq<Rendered>, i: nat): real
    requires forall k :: 0 <= k < |rs| ==> |rs[k].modePower| == 6
  {
    if rs == [] then 0.0
    else (if rs[0].component != "" && rs[0].switch == i then Peak(rs[0]) else 0.0) + PeakOn(rs[1..], i)
  }

  predicate WithinTenAmps(switch: Switch, peak: real)
    requires switch.Switch?
  {
    RealOf(switch.voltage) > 0.0 && (RealOf(switch.loadPower) + peak) / RealOf(switch.voltage) <= 10.0
  }

  /** The whole of normalize_eps; None for its ValueError or KeyError. */
  function Normalize(cfg: Config, available: set<string>): Option<Config> {
    if cfg.capacity.None? || cfg.initialSoc.None? || cfg.voltageMin.None? || cfg.voltageMax.None? || cfg.maxSolar.None?
    then None
    else
      var capacity, soc := Number(cfg.capacity.value, TINY, None), Number(cfg.initialSoc.value, 0.0, Some(1.0));
      var vmin, vmax := Number(cfg.voltageMin.value, 0.0, Some(32.0)), Number(cfg.voltageMax.value, 0.0, Some(32.0));
      var solar, base := Number(cfg.maxSolar.value, 0.0, None), Number(GetOr(cfg.baseLoad, Int(0)), 0.0, None);
      if capacity.None? || soc.None? || vmin.None? || vmax.None? || solar.None? || vmax.value < vmin.value || base.None?
      then None
      else
        var numbered := cfg.(capacity := Some(Real(capacity.value)), initialSoc := Some(Real(soc.value)),
                             voltageMin := Some(Real(vmin.value)), voltageMax := Some(Real(vmax.value)),
                             maxSolar := Some(Real(solar.value)), baseLoad := Some(Real(base.value)));
        NormalizeWiring(numbered, available)
  }

  const NO_PASSIVE: seq<Value> := [Real(0.0), Real(0.0), Real(0.0), Real(0.0), Real(0.0), Real(0.0), Real(0.0), Real(0.0)]

  function NormalizeWiring(cfg: Config, available: set<string>): Option<Config> {
    var passive := GetOr(cfg.passive, Items(NO_PASSIVE));
    if !passive.Items? || |passive.items| != 8 then None
    else
      var watts := Numbers(passive.items);
      var given := if cfg.switches.Some? then cfg.switches.value else SwitchList(DefaultSwitches(0, passive.items));
      if watts.None? || !given.SwitchList? || |given.list| != 8 then None
      else
        var switches := NormalizeSwitches(0, given.list, passive.items);
        var loads := if cfg.loads.Some? then cfg.loads.value else LoadMap(map[]);
        var defaults := if cfg.defaultLoads.Some? then cfg.defaultLoads.value else LoadMap(map[]);
        if switches.None? || !loads.LoadMap? || !defaults.LoadMap? then None
        else if !LegalNames(defaults.entries, loads.entries) then None
        else
          var selected := Selected(defaults.entries, loads.entries, cfg.wireDefaults, available);
          var started := if cfg.switches.None? then StartUp(switches.value, selected) else switches.value;
          Finish(cfg.(passive := Some(Items(Reals(watts.value)))), started, selected, available)
  }

  predicate LegalNames(defaults: map<string, Load>, loads: map<string, Load>) {
    && (forall name :: name in defaults ==> name in COMPONENTS && defaults[name].Load?)
    && (forall name :: name in loads ==> loads[name].Load?)
  }

  function Finish(cfg: Config, switches: seq<Switch>, selected: map<string, Load>, available: set<string>): Option<Config>
    requires |switches| == 8 && forall k :: 0 <= k < 8 ==> switches[k].Switch?
  {
    if exists name :: name in selected && (name !in COMPONENTS || name !in available) then None
    else
      var loads := NormalizeLoads(selected);
      if loads.None? then None
      else
        var rendered := RenderAll(loads.value);
        if forall i :: 0 <= i < 8 ==> WithinTenAmps(switches[i], PeakOn(rendered, i))
        then Some(cfg.(switches := Some(SwitchList(switches)), loads := Some(LoadMap(loads.value)), rendered := rendered))
        else None
  }

  // ---------------------------------------------------------------- normalizing twice changes nothing

  lemma {:induction false} NumbersAgain(rs: seq<real>)
    requires forall k :: 0 <= k < |rs| ==> rs[k] >= 0.0
    ensures Numbers(Reals(rs)) == Some(rs)
  {
    if rs != [] {
      NumbersAgain(rs[1..]);
      assert Reals(rs)[1..] == Reals(rs[1..]);
      assert [rs[0]] + rs[1..] == rs;
    }
  }

  lemma NumbersNormal(vs: seq<Value>)
    requires Numbers(vs).Some?
    ensures Numbers(Reals(Numbers(vs).value)) == Numbers(vs)
  {
    NumbersAgain(Numbers(vs).value);
  }

  predicate IsNormalSwitch(switch: Switch) {
    && switch.Switch?
    && switch.loadPower.Some? && switch.loadPower.value.Real? && switch.loadPower.value.number >= 0.0
    && switch.voltage.Some? && switch.voltage.value.Real? && TINY <= switch.voltage.value.number <= 32.0
    && switch.startupOn.Some? && switch.startupOn.value.Bool?
    && switch.title.Some? && HasText(switch.title.value)
  }

  lemma SwitchAgain(i: nat, switch: Switch, passive: Value)
    requires i < 10
    ensures NormalizeSwitch(i, switch, passive).Some? ==> IsNormalSwitch(NormalizeSwitch(i, switch, passive).value)
    ensures IsNormalSwitch(switch) ==> NormalizeSwitch(i, switch, passive) == Some(switch)
  {
  }

  lemma {:induction false} SwitchesAgain(from: nat, switches: seq<Switch>, passive: seq<Value>)
    requires from + |switches| <= 8 && |passive| == 8
    requires forall k :: 0 <= k < |switches| ==> IsNormalSwitch(switches[k])
    ensures NormalizeSwitches(from, switches, passive) == Some(switches)
    decreases |switches|
  {
    if switches != [] {
      SwitchAgain(from, switches[0], passive[from]);
      SwitchesAgain(from + 1, switches[1..], passive);
      assert [switches[0]] + switches[1..] == switches;
    }
  }

  /** A load after normalization, in full. */
  predicate IsNormalLoad(load: Load) {
    && IsNormal(load)
    && Numbers(load.modePower.value.items).Some?
    && load.modePower.value.items == Reals(Numbers(load.modePower.value.items).value)
    && load.bootPower.Some? && load.bootPower.value.Real? && load.bootPower.value.number >= 0.0
    && load.bootDelay.Some? && load.bootDelay.value.Real? && 0.0 <= load.bootDelay.value.number <= 3600.0
    && load.powerScale.Some? && load.powerScale.value.Real? && 0.0 <= load.powerScale.value.number <= 1000.0
  }

  lemma LoadAgain(load: Load)
    ensures NormalizeLoad(load).Some? ==> IsNormalLoad(NormalizeLoad(load).value)
    ensures IsNormalLoad(load) ==> NormalizeLoad(load) == Some(load)
  {
    hide Numbers, Reals, Max;
    if NormalizeLoad(load).Some? {
      NumbersNormal(load.modePower.value.items);
    }
  }

  lemma LoadsAgain(loads: map<string, Load>)
    ensures NormalizeLoads(loads).Some? ==>
              forall name :: name in loads ==> IsNormalLoad(NormalizeLoads(loads).value[name])
    ensures (forall name :: name in loads ==> IsNormalLoad(loads[name])) ==> NormalizeLoads(loads) == Some(loads)
  {
    hide NormalizeLoad, IsNormalLoad;
    forall name | name in loads
      ensures NormalizeLoad(loads[name]).Some? ==> IsNormalLoad(NormalizeLoad(loads[name]).value)
      ensures IsNormalLoad(loads[name]) ==> NormalizeLoad(loads[name]) == Some(loads[name])
    {
      LoadAgain(loads[name]);
    }
    if NormalizeLoads(loads).Some? && forall name :: name in loads ==> IsNormalLoad(loads[name]) {
      assert NormalizeLoads(loads).value == loads;
    }
  }

  /** Wiring the already wired and normalized loads again selects the same loads. */
  lemma SelectedAgain(defaults: map<string, Load>, loads: map<string, Load>, wireDefaults: bool,
                      available: set<string>, normal: map<string, Load>)
    requires LegalNames(defaults, loads)
    requires NormalizeLoads(Selected(defaults, loads, wireDefaults, available)) == Some(normal)
    ensures forall name :: name in normal ==> IsNormalLoad(normal[name])
    ensures LegalNames(defaults, normal)
    ensures Selected(defaults, normal, wireDefaults, available) == normal
  {
    hide NormalizeLoads, IsNormal, Numbers, Reals;
    LoadsAgain(Selected(defaults, loads, wireDefaults, available));
    forall name | name in normal
      ensures normal[name].Load?
      ensures Overlay(if name in defaults then defaults[name] else EMPTY_LOAD, normal[name]) == normal[name]
    {
      OverlayNormal(if name in defaults then defaults[name] else EMPTY_LOAD, normal[name]);
    }
    assert Selected(defaults, normal, wireDefaults, available).Keys == normal.Keys;
    assert Selected(defaults, normal, wireDefaults, available) == normal;
  }

  lemma OverlayNormal(default: Load, load: Load)
    requires default.Load? && IsNormalLoad(load)
    ensures load.Load? && Overlay(default, load) == load
  {
  }

  lemma StartUpNormal(switches: seq<Switch>, loads: map<string, Load>)
    requires forall k :: 0 <= k < |switches| ==> switches[k].Switch? && IsNormalSwitch(switches[k])
    ensures forall k :: 0 <= k < |switches| ==>
              StartUp(switches, loads)[k].Switch? && IsNormalSwitch(StartUp(switches, loads)[k])
  {
  }

  /** The current check does not look at which loads a switch was started for. */
  lemma FinishAgain(cfg: Config, switches: seq<Switch>, selected: map<string, Load>, available: set<string>,
                    cfg': Config, done: Config)
    requires |switches| == 8 && forall k :: 0 <= k < 8 ==> switches[k].Switch? && IsNormalSwitch(switches[k])
    requires Finish(cfg, switches, selected, available) == Some(done)
    requires cfg' == done
    ensures done.loads.Some? && done.loads.value.LoadMap?
    ensures NormalizeLoads(selected) == Some(done.loads.value.entries)
    ensures done.switches == Some(SwitchList(switches))
    ensures Finish(cfg', switches, done.loads.value.entries, available) == Some(done)
  {
    hide WithinTenAmps, PeakOn, RenderAll, IsNormalLoad, IsNormal, NormalizeLoads, IsNormalSwitch;
    LoadsAgain(selected);
    var loads := NormalizeLoads(selected).value;
    LoadsAgain(loads);
    assert NormalizeLoads(loads) == Some(loads);
  }

  function DefaultsOf(cfg: Config): Loads {
    if cfg.defaultLoads.Some? then cfg.defaultLoads.value else LoadMap(map[])
  }

  function LoadsOf(cfg: Config): Loads {
    if cfg.loads.Some? then cfg.loads.value else LoadMap(map[])
  }

  /** What an accepted wiring went through. */
  lemma WiringParts(cfg: Config, available: set<string>, done: Config)
    returns (watts: seq<real>, started: seq<Switch>, selected: map<string, Load>)
    requires NormalizeWiring(cfg, available) == Some(done)
    ensures LoadsOf(cfg).LoadMap? && DefaultsOf(cfg).LoadMap?
    ensures LegalNames(DefaultsOf(cfg).entries, LoadsOf(cfg).entries)
    ensures selected == Selected(DefaultsOf(cfg).entries, LoadsOf(cfg).entries, cfg.wireDefaults, available)
    ensures |watts| == 8 && Numbers(Reals(watts)) == Some(watts)
    ensures |started| == 8 && forall k :: 0 <= k < 8 ==> started[k].Switch? && IsNormalSwitch(started[k])
    ensures Finish(cfg.(passive := Some(Items(Reals(watts)))), started, selected, available) == Some(done)
  {
    hide Finish, Selected, Numbers, Reals, NormalizeSwitch, StartUp, IsNormalSwitch;
    var passive := GetOr(cfg.passive, Items(NO_PASSIVE)).items;
    var given := if cfg.switches.Some? then cfg.switches.value else SwitchList(DefaultSwitches(0, passive));
    var switches := NormalizeSwitches(0, given.list, passive).value;
    selected := Selected(DefaultsOf(cfg).entries, LoadsOf(cfg).entries, cfg.wireDefaults, available);
    forall k | 0 <= k < 8
      ensures switches[k].Switch? && IsNormalSwitch(switches[k])
    {
      SwitchAgain(k, given.list[k], passive[k]);
      NormalIsSwitch(switches[k]);
    }
    started := if cfg.switches.None? then StartUp(switches, selected) else switches;
    StartUpNormal(switches, selected);
    NumbersNormal(passive);
    watts := Numbers(passive).value;
  }

  lemma NormalIsSwitch(switch: Switch)
    requires IsNormalSwitch(switch)
    ensures switch.Switch?
  {
  }

  lemma WiringAgain(cfg: Config, available: set<string>, done: Config)
    requires NormalizeWiring(cfg, available) == Some(done)
    ensures NormalizeWiring(done, available) == Some(done)
    ensures done == cfg.(passive := done.passive, switches := done.switches, loads := done.loads,
                         rendered := done.rendered)
  {
    hide Finish, Selected, NormalizeLoads, Numbers, Reals, NormalizeSwitches, StartUp, IsNormalSwitch, NormalizeWiring,
         IsNormalLoad;
    var watts, started, selected := WiringParts(cfg, available, done);
    var wired := cfg.(passive := Some(Items(Reals(watts))));
    FinishKeeps(wired, started, selected, available);
    FinishAgain(wired, started, selected, available, done, done);
    SelectedAgain(DefaultsOf(cfg).entries, LoadsOf(cfg).entries, cfg.wireDefaults, available,
                  done.loads.value.entries);
    SwitchesAgain(0, started, Reals(watts));
    WiringIs(done, available, watts, started);
  }

  /** normalize_eps of a configuration that is already normal comes down to its last stage. */
  lemma WiringIs(done: Config, available: set<string>, watts: seq<real>, started: seq<Switch>)
    requires |watts| == 8 && Numbers(Reals(watts)) == Some(watts) && done.passive == Some(Items(Reals(watts)))
    requires |started| == 8 && forall k :: 0 <= k < 8 ==> started[k].Switch? && IsNormalSwitch(started[k])
    requires done.switches == Some(SwitchList(started)) && NormalizeSwitches(0, started, Reals(watts)) == Some(started)
    requires LoadsOf(done).LoadMap? && DefaultsOf(done).LoadMap?
    requires LegalNames(DefaultsOf(done).entries, LoadsOf(done).entries)
    requires Selected(DefaultsOf(done).entries, LoadsOf(done).entries, done.wireDefaults, available)
             == LoadsOf(done).entries
    ensures NormalizeWiring(done, available) == Finish(done, started, LoadsOf(done).entries, available)
  {
    hide Finish, Selected, Numbers, Reals, NormalizeSwitches, StartUp, IsNormalSwitch;
    assert done.(passive := done.passive) == done;
  }

  lemma FinishKeeps(cfg: Config, switches: seq<Switch>, selected: map<string, Load>, available: set<string>)
    requires |switches| == 8 && forall k :: 0 <= k < 8 ==> switches[k].Switch?
    requires Finish(cfg, switches, selected, available).Some?
    ensures var done := Finish(cfg, switches, selected, available).value;
            && done.switches.Some? && done.loads.Some?
            && done == cfg.(switches := done.switches, loads := done.loads, rendered := done.rendered)
  {
  }

  /** An accepted configuration is accepted again, unchanged. */
  lemma NormalizeIsIdempotent(cfg: Config, available: set<string>)
    requires Normalize(cfg, available).Some?
    ensures Normalize(Normalize(cfg, available).value, available) == Normalize(cfg, available)
  {
    hide NormalizeWiring;
    var done := Normalize(cfg, available).value;
    var numbered := cfg.(capacity := Some(Real(Number(cfg.capacity.value, TINY, None).value)),
                         initialSoc := Some(Real(Number(cfg.initialSoc.value, 0.0, Some(1.0)).value)),
                         voltageMin := Some(Real(Number(cfg.voltageMin.value, 0.0, Some(32.0)).value)),
                         voltageMax := Some(Real(Number(cfg.voltageMax.value, 0.0, Some(32.0)).value)),
                         maxSolar := Some(Real(Number(cfg.maxSolar.value, 0.0, None).value)),
                         baseLoad := Some(Real(Number(GetOr(cfg.baseLoad, Int(0)), 0.0, None).value)));
    assert NormalizeWiring(numbered, available) == Some(done);
    WiringAgain(numbered, available, done);
    assert done.(capacity := done.capacity) == done;
  }

  // ---------------------------------------------------------------- the defaults

  /** A configuration that names neither switches nor loads nor passive loads. */
  function Plain(capacity: real, soc: real, vmin: real, vmax: real, solar: real): Config {
    Config(Some(Real(capacity)), Some(Real(soc)), Some(Real(vmin)), Some(Real(vmax)), Some(Real(solar)), None, None,
           None, None, None, false, [])
  }

  lemma DefaultSwitchIsNormal(i: nat)
    requires i < 8
    ensures |DefaultSwitches(i, NO_PASSIVE)| == 8 - i
    ensures var switch := DefaultSwitches(i, NO_PASSIVE)[0];
            && NormalizeSwitch(i, switch, NO_PASSIVE[i]).Some?
            && IsNormalSwitch(NormalizeSwitch(i, switch, NO_PASSIVE[i]).value)
            && RealOf(NormalizeSwitch(i, switch, NO_PASSIVE[i]).value.loadPower) == 0.0
  {
    assert SwitchTitle(i)[0] == 'S' && !Text.IsBlank('S');
    assert !Truthy(NO_PASSIVE[i]);
    assert HasText(Value.Text(SwitchTitle(i)));
  }

  lemma {:induction false} DefaultSwitchesAreNormal(from: nat)
    requires from <= 8
    ensures var r := NormalizeSwitches(from, DefaultSwitches(from, NO_PASSIVE), NO_PASSIVE);
            r.Some? && forall k :: 0 <= k < |r.value| ==>
              r.value[k].Switch? && IsNormalSwitch(r.value[k]) && RealOf(r.value[k].loadPower) == 0.0
    decreases 8 - from
  {
    hide NormalizeSwitch, IsNormalSwitch, RealOf;
    if from < 8 {
      DefaultSwitchIsNormal(from);
      DefaultSwitchesAreNormal(from + 1);
      assert DefaultSwitches(from, NO_PASSIVE)[1..] == DefaultSwitches(from + 1, NO_PASSIVE);
    }
  }

  lemma {:induction false} NothingDrawn(rs: seq<Rendered>, i: nat)
    requires forall k :: 0 <= k < |rs| ==> |rs[k].modePower| == 6 && rs[k].component == ""
    ensures PeakOn(rs, i) == 0.0
  {
    if rs != [] {
      NothingDrawn(rs[1..], i);
    }
  }

  lemma NoLoads()
    ensures NormalizeLoads(map[]) == Some(map[])
    ensures RenderAll(map[]) == [NOTHING_RENDERED, NOTHING_RENDERED, NOTHING_RENDERED]
  {
  }

  lemma UnloadedIsWithinLimits(switch: Switch)
    requires IsNormalSwitch(switch) && RealOf(switch.loadPower) == 0.0
    ensures switch.Switch? && WithinTenAmps(switch, 0.0)
  {
  }

  lemma UnloadedFinishes(cfg: Config, switches: seq<Switch>, available: set<string>)
    requires |switches| == 8 && forall k :: 0 <= k < 8 ==>
               switches[k].Switch? && IsNormalSwitch(switches[k]) && RealOf(switches[k].loadPower) == 0.0
    ensures Finish(cfg, switches, map[], available).Some?
  {
    hide IsNormalSwitch, RealOf, PeakOn, WithinTenAmps, RenderAll;
    NoLoads();
    var rendered := RenderAll(map[]);
    forall i | 0 <= i < 8
      ensures WithinTenAmps(switches[i], PeakOn(rendered, i))
    {
      NothingDrawn(rendered, i);
      UnloadedIsWithinLimits(switches[i]);
    }
  }

  lemma NoPassive()
    ensures |NO_PASSIVE| == 8 && Numbers(NO_PASSIVE).Some?
  {
    assert NO_PASSIVE == Reals([0.0, 0.0, 0.0, 0.0, 0.0, 0.0, 0.0, 0.0]);
    NumbersAgain([0.0, 0.0, 0.0, 0.0, 0.0, 0.0, 0.0, 0.0]);
  }

  lemma NothingStarts(switches: seq<Switch>, available: set<string>)
    requires forall k :: 0 <= k < |switches| ==> switches[k].Switch?
    ensures LegalNames(map[], map[]) && Selected(map[], map[], false, available) == map[]
    ensures StartUp(switches, map[]) == switches
  {
  }

  lemma PlainWires(cfg: Config, available: set<string>)
    requires cfg.passive.None? && cfg.switches.None? && cfg.loads.None? && cfg.defaultLoads.None? && !cfg.wireDefaults
    ensures NormalizeWiring(cfg, available).Some?
  {
    hide NormalizeSwitches, Finish, Selected, StartUp, Numbers, LegalNames, IsNormalSwitch, RealOf, DefaultSwitches;
    NoPassive();
    DefaultSwitchesAreNormal(0);
    var switches := NormalizeSwitches(0, DefaultSwitches(0, NO_PASSIVE), NO_PASSIVE).value;
    NothingStarts(switches, available);
    UnloadedFinishes(cfg.(passive := Some(Items(Reals(Numbers(NO_PASSIVE).value)))), switches, available);
  }

  /** The battery figures alone decide whether such a configuration is accepted. */
  lemma PlainIsAcceptedExactly(capacity: real, soc: real, vmin: real, vmax: real, solar: real, available: set<string>)
    ensures Normalize(Plain(capacity, soc, vmin, vmax, solar), available).Some?
            <==> capacity >= TINY && 0.0 <= soc <= 1.0 && 0.0 <= vmin <= vmax <= 32.0 && solar >= 0.0
  {
    hide NormalizeWiring;
    forall cfg: Config |
      cfg.passive.None? && cfg.switches.None? && cfg.loads.None? && cfg.defaultLoads.None? && !cfg.wireDefaults
      ensures NormalizeWiring(cfg, available).Some?
    {
      PlainWires(cfg, available);
    }
  }
}
