/** What normalize_eps accepts and what it makes of it, told from the entries of the configuration alone: which loads are
    selected and with which fields, what the eight switches hold, and the 10 A limit in watts. */
module EpsTheorems {
  import opened Options
  import opened EpsConfig

  // ---------------------------------------------------------------- amounts

  /** The number a value stands for; bools, texts and what is not finite are none. */
  function Amount(v: Value): Option<real> {
    match v
    case Int(i) => Some(i as real)
    case Real(r) => Some(r)
    case _ => None
  }

  predicate AtLeast(v: Value, low: real) {
    Amount(v).Some? && low <= Amount(v).value
  }

  predicate Between(v: Value, low: real, high: real) {
    AtLeast(v, low) && Amount(v).value <= high
  }

  function AmountOr(v: Option<Value>, default: real): real {
    if v.Some? && Amount(v.value).Some? then Amount(v.value).value else default
  }

  lemma NumberIs(v: Value, low: real)
    ensures Number(v, low, None) == if AtLeast(v, low) then Amount(v) else None
    ensures forall high :: Number(v, low, Some(high)) == if Between(v, low, high) then Amount(v) else None
  {
  }

  lemma {:induction false} NumbersExactly(vs: seq<Value>)
    ensures Numbers(vs).Some? <==> forall k :: 0 <= k < |vs| ==> AtLeast(vs[k], 0.0)
    ensures Numbers(vs).Some? ==> forall k :: 0 <= k < |vs| ==> Some(Numbers(vs).value[k]) == Amount(vs[k])
  {
    hide Number, Amount;
    if vs != [] {
      NumberIs(vs[0], 0.0);
      NumbersExactly(vs[1..]);
      assert forall k :: 1 <= k < |vs| ==> vs[k] == vs[1..][k - 1];
    }
  }

  // ---------------------------------------------------------------- loads

  function OwnLoads(cfg: Config): map<string, Load> {
    if cfg.loads.Some? && cfg.loads.value.LoadMap? then cfg.loads.value.entries else map[]
  }

  function DefaultLoads(cfg: Config): map<string, Load> {
    if cfg.defaultLoads.Some? && cfg.defaultLoads.value.LoadMap? then cfg.defaultLoads.value.entries else map[]
  }

  /** A load of its own selects a component, and so does a default load where defaults are wired and the component is
      there. */
  predicate IsSelected(cfg: Config, available: set<string>, name: string) {
    name in OwnLoads(cfg) || (cfg.wireDefaults && name in DefaultLoads(cfg) && name in available)
  }

  function EntryOf(loads: map<string, Load>, name: string): Load {
    if name in loads && loads[name].Load? then loads[name] else Load(None, None, None, None, None)
  }

  function Either(own: Option<Value>, default: Option<Value>): Option<Value> {
    if own.Some? then own else default
  }

  /** A field is that of the component's own load, and otherwise that of its default load, wired or not. */
  function LoadOf(cfg: Config, name: string): Load {
    var own, default := EntryOf(OwnLoads(cfg), name), EntryOf(DefaultLoads(cfg), name);
    Load(Either(own.switch, default.switch), Either(own.modePower, default.modePower),
         Either(own.bootPower, default.bootPower), Either(own.bootDelay, default.bootDelay),
         Either(own.powerScale, default.powerScale))
  }

  /** A load with a switch, six mode powers, and the other three fields in range where they are given. */
  predicate LoadOk(load: Load) {
    && load.Load?
    && load.switch.Some? && load.switch.value.Int? && 0 <= load.switch.value.whole <= 7
    && load.modePower.Some? && load.modePower.value.Items? && |load.modePower.value.items| == 6
    && (forall k :: 0 <= k < 6 ==> AtLeast(load.modePower.value.items[k], 0.0))
    && (load.bootPower.Some? ==> AtLeast(load.bootPower.value, 0.0))
    && (load.bootDelay.Some? ==> Between(load.bootDelay.value, 0.0, 3600.0))
    && (load.powerScale.Some? ==> Between(load.powerScale.value, 0.0, 1000.0))
  }

  function ModeWatts(load: Load): (watts: seq<real>)
    requires LoadOk(load)
    ensures |watts| == 6 && forall k :: 0 <= k < 6 ==> Some(watts[k]) == Amount(load.modePower.value.items[k])
  {
    var items := load.modePower.value.items;
    [Amount(items[0]).value, Amount(items[1]).value, Amount(items[2]).value,
     Amount(items[3]).value, Amount(items[4]).value, Amount(items[5]).value]
  }

  function Greater(a: real, b: real): real {
    if a >= b then a else b
  }

  /** The largest of the six. */
  function TopWatts(load: Load): real
    requires LoadOk(load)
  {
    var w := ModeWatts(load);
    Greater(w[0], Greater(w[1], Greater(w[2], Greater(w[3], Greater(w[4], w[5])))))
  }

  function BootWatts(load: Load): real
    requires LoadOk(load)
  {
    AmountOr(load.bootPower, TopWatts(load))
  }

  /** The most a load can draw. */
  function MostWatts(load: Load): real
    requires LoadOk(load)
  {
    Greater(TopWatts(load), BootWatts(load)) * AmountOr(load.powerScale, 1.0)
  }

  lemma MaxIsTop(load: Load)
    requires LoadOk(load)
    ensures Max(ModeWatts(load)) == TopWatts(load)
  {
    hide Max;
    var w := ModeWatts(load);
    var k :| 0 <= k < |w| && w[k] == Max(w);
    assert w[0] <= Max(w) && w[1] <= Max(w) && w[2] <= Max(w) && w[3] <= Max(w) && w[4] <= Max(w) && w[5] <= Max(w);
  }

  /** What a load is normalized to. */
  lemma NormalizedLoadIs(load: Load)
    ensures NormalizeLoad(load).Some? <==> LoadOk(load)
    ensures LoadOk(load) ==>
              NormalizeLoad(load)
              == Some(Load(load.switch, Some(Items(Reals(ModeWatts(load)))), Some(Real(BootWatts(load))),
                           Some(Real(AmountOr(load.bootDelay, 0.0))), Some(Real(AmountOr(load.powerScale, 1.0)))))
  {
    hide Numbers, Reals, Max, Number, TopWatts, Amount;
    if load.Load? && load.modePower.Some? && load.modePower.value.Items? && |load.modePower.value.items| == 6 {
      var items := load.modePower.value.items;
      NumbersExactly(items);
      if LoadOk(load) {
        assert Numbers(items).value == ModeWatts(load);
        MaxIsTop(load);
        TopNotNegative(load);
        NumberIs(Real(TopWatts(load)), 0.0);
      } else if Numbers(items).Some? {
        var k :| 0 <= k < 6 && Numbers(items).value[k] == Max(Numbers(items).value);
        NumberIs(Real(Max(Numbers(items).value)), 0.0);
      }
      NumberIs(GetOr(load.bootPower, Int(0)), 0.0);
      NumberIs(GetOr(load.bootDelay, Int(0)), 0.0);
      NumberIs(GetOr(load.powerScale, Int(1)), 0.0);
      Ones();
    }
  }

  lemma Ones()
    ensures Between(Int(0), 0.0, 3600.0) && Amount(Int(0)) == Some(0.0)
    ensures Between(Int(1), 0.0, 1000.0) && Amount(Int(1)) == Some(1.0)
  {
  }

  lemma TopNotNegative(load: Load)
    requires LoadOk(load)
    ensures AtLeast(Real(TopWatts(load)), 0.0) && Amount(Real(TopWatts(load))) == Some(TopWatts(load))
  {
    assert AtLeast(load.modePower.value.items[0], 0.0);
    assert ModeWatts(load)[0] >= 0.0;
  }

  // ---------------------------------------------------------------- selection

  predicate LoadsLegal(cfg: Config) {
    && (cfg.loads.Some? ==> cfg.loads.value.LoadMap?)
    && (cfg.defaultLoads.Some? ==> cfg.defaultLoads.value.LoadMap?)
    && (forall name :: name in OwnLoads(cfg) ==> OwnLoads(cfg)[name].Load?)
    && (forall name :: name in DefaultLoads(cfg) ==> name in {"demo", "adcs", "radio"} && DefaultLoads(cfg)[name].Load?)
  }

  lemma SelectionIs(cfg: Config, available: set<string>)
    requires LoadsLegal(cfg)
    ensures var selected := Selected(DefaultLoads(cfg), OwnLoads(cfg), cfg.wireDefaults, available);
            && (forall name :: name in selected <==> IsSelected(cfg, available, name))
            && (forall name :: name in selected ==> selected[name] == LoadOf(cfg, name))
  {
  }

  lemma NamesAreLegal(cfg: Config)
    requires (cfg.loads.Some? ==> cfg.loads.value.LoadMap?) && (cfg.defaultLoads.Some? ==> cfg.defaultLoads.value.LoadMap?)
    ensures LegalNames(DefaultLoads(cfg), OwnLoads(cfg)) <==> LoadsLegal(cfg)
  {
    assert forall name: string :: name in COMPONENTS <==> name in {"demo", "adcs", "radio"};
  }

  /** The entry rendered for a component. */
  predicate RenderedAs(cfg: Config, available: set<string>, name: string, r: Rendered) {
    if IsSelected(cfg, available, name) then
      var load := LoadOf(cfg, name);
      && LoadOk(load)
      && r.component == name + "_sim" && r.switch == load.switch.value.whole && r.modePower == ModeWatts(load)
      && r.bootPower == BootWatts(load) && r.bootDelay == AmountOr(load.bootDelay, 0.0)
      && r.powerScale == AmountOr(load.powerScale, 1.0)
    else r == Rendered("", 0, [0.0, 0.0, 0.0, 0.0, 0.0, 0.0], 0.0, 0.0, 1.0)
  }

  /** What a component can draw on switch i. */
  function DrawnBy(cfg: Config, available: set<string>, name: string, i: nat): real
    requires IsSelected(cfg, available, name) ==> LoadOk(LoadOf(cfg, name))
  {
    if IsSelected(cfg, available, name) && LoadOf(cfg, name).switch == Some(Int(i)) then MostWatts(LoadOf(cfg, name))
    else 0.0
  }

  /** The selected loads are of known components that are there, and in order. */
  predicate SelectionOk(cfg: Config, available: set<string>) {
    && (forall name :: name in OwnLoads(cfg) ==> name in {"demo", "adcs", "radio"} && name in available)
    && (forall name :: name in {"demo", "adcs", "radio"} && IsSelected(cfg, available, name) ==> LoadOk(LoadOf(cfg, name)))
  }

  function DrawnOn(cfg: Config, available: set<string>, i: nat): real
    requires SelectionOk(cfg, available)
  {
    DrawnBy(cfg, available, "demo", i) + DrawnBy(cfg, available, "adcs", i) + DrawnBy(cfg, available, "radio", i)
  }

  lemma {:induction false} RealsBack(rs: seq<real>)
    ensures RealsOf(Reals(rs)) == rs
  {
    if rs != [] {
      RealsBack(rs[1..]);
      assert Reals(rs)[1..] == Reals(rs[1..]);
      assert [rs[0]] + rs[1..] == rs;
    }
  }

  lemma RenderIs(cfg: Config, available: set<string>, name: string, normal: Load)
    requires IsSelected(cfg, available, name) && NormalizeLoad(LoadOf(cfg, name)) == Some(normal)
    ensures IsNormal(normal) && RenderedAs(cfg, available, name, Render(name, normal))
  {
    hide NormalizeLoad, LoadOf, LoadOk, ModeWatts, BootWatts;
    NormalizedLoadIs(LoadOf(cfg, name));
    OkHasSwitch(LoadOf(cfg, name));
    RealsBack(ModeWatts(LoadOf(cfg, name)));
  }

  lemma OkHasSwitch(load: Load)
    requires LoadOk(load)
    ensures load.Load? && load.switch.Some? && load.switch.value.Int? && 0 <= load.switch.value.whole < 8
  {
  }

  lemma PeakIs(cfg: Config, available: set<string>, name: string, r: Rendered, i: nat)
    requires RenderedAs(cfg, available, name, r) && |r.modePower| == 6
    ensures IsSelected(cfg, available, name) ==> LoadOk(LoadOf(cfg, name))
    ensures (if r.component != "" && r.switch == i then Peak(r) else 0.0) == DrawnBy(cfg, available, name, i)
  {
    hide LoadOf, ModeWatts, LoadOk, IsSelected, Peak, MostWatts, BootWatts;
    if IsSelected(cfg, available, name) {
      OkHasSwitch(LoadOf(cfg, name));
      PeakOfLoad(LoadOf(cfg, name), r);
      assert |name + "_sim"| >= 4;
    }
  }

  lemma PeakOfLoad(load: Load, r: Rendered)
    requires LoadOk(load)
    requires r.modePower == ModeWatts(load) && r.bootPower == BootWatts(load)
    requires r.powerScale == AmountOr(load.powerScale, 1.0)
    ensures Peak(r) == MostWatts(load)
  {
    hide ModeWatts, LoadOk, BootWatts, Max, TopWatts, AmountOr;
    MaxIsTop(load);
  }

  /** The rendering of a selection, and what it can draw on each switch. */
  lemma RenderingIs(cfg: Config, available: set<string>, loads: map<string, Load>)
    requires LoadsLegal(cfg)
    requires NormalizeLoads(Selected(DefaultLoads(cfg), OwnLoads(cfg), cfg.wireDefaults, available)) == Some(loads)
    requires SelectionOk(cfg, available)
    ensures forall name :: name in loads ==> IsNormal(loads[name])
    ensures RenderedAs(cfg, available, "demo", RenderAll(loads)[0])
    ensures RenderedAs(cfg, available, "adcs", RenderAll(loads)[1])
    ensures RenderedAs(cfg, available, "radio", RenderAll(loads)[2])
    ensures forall k :: 0 <= k < 3 ==> |RenderAll(loads)[k].modePower| == 6
    ensures forall i: nat :: PeakOn(RenderAll(loads), i) == DrawnOn(cfg, available, i)
  {
    hide NormalizeLoad, LoadOf, LoadOk, IsSelected, RenderedAs, Selected, IsNormal, Render, Peak, DrawnBy, SelectionOk;
    SelectionIs(cfg, available);
    forall name | name in loads
      ensures IsNormal(loads[name]) && RenderedAs(cfg, available, name, Render(name, loads[name]))
      ensures |Render(name, loads[name]).modePower| == 6
    {
      RenderIs(cfg, available, name, loads[name]);
      RenderedSix(name, loads[name]);
    }
    forall name | name !in loads
      ensures RenderedAs(cfg, available, name, NOTHING_RENDERED)
    {
      NothingRendered(cfg, available, name);
    }
    var rs := RenderAll(loads);
    forall i: nat
      ensures PeakOn(rs, i) == DrawnOn(cfg, available, i)
    {
      PeakIs(cfg, available, "demo", rs[0], i);
      PeakIs(cfg, available, "adcs", rs[1], i);
      PeakIs(cfg, available, "radio", rs[2], i);
      PeakOfThree(rs, i);
    }
  }

  lemma RenderedSix(name: string, load: Load)
    requires IsNormal(load)
    ensures |Render(name, load).modePower| == 6
  {
  }

  lemma NothingRendered(cfg: Config, available: set<string>, name: string)
    requires !IsSelected(cfg, available, name)
    ensures RenderedAs(cfg, available, name, NOTHING_RENDERED)
  {
  }

  lemma PeakOfThree(rs: seq<Rendered>, i: nat)
    requires |rs| == 3 && forall k :: 0 <= k < 3 ==> |rs[k].modePower| == 6
    ensures PeakOn(rs, i) == (if rs[0].component != "" && rs[0].switch == i then Peak(rs[0]) else 0.0)
                             + (if rs[1].component != "" && rs[1].switch == i then Peak(rs[1]) else 0.0)
                             + (if rs[2].component != "" && rs[2].switch == i then Peak(rs[2]) else 0.0)
  {
    hide Peak;
    var tail := rs[1..];
    assert tail[1..] == [rs[2]] && tail[1..][1..] == [];
    assert PeakOn(tail[1..], i) == (if rs[2].component != "" && rs[2].switch == i then Peak(rs[2]) else 0.0) + 0.0;
  }

  // ---------------------------------------------------------------- switches

  predicate PassiveOk(cfg: Config) {
    cfg.passive.Some? ==>
      && cfg.passive.value.Items? && |cfg.passive.value.items| == 8
      && forall k :: 0 <= k < 8 ==> AtLeast(cfg.passive.value.items[k], 0.0)
  }

  /** The passive load listed for a switch. */
  function PassiveOf(cfg: Config, i: nat): Value
    requires PassiveOk(cfg) && i < 8
  {
    if cfg.passive.Some? then cfg.passive.value.items[i] else Real(0.0)
  }

  predicate SwitchOk(switch: Switch) {
    && switch.Switch?
    && (switch.loadPower.Some? ==> AtLeast(switch.loadPower.value, 0.0))
    && switch.voltage.Some? && Between(switch.voltage.value, 0.000000001, 32.0)
    && (switch.startupOn.Some? ==> switch.startupOn.value.Bool?)
    && (switch.title.Some? ==> HasText(switch.title.value))
  }

  predicate SwitchesOk(cfg: Config) {
    cfg.switches.Some? ==>
      && cfg.switches.value.SwitchList? && |cfg.switches.value.list| == 8
      && forall i :: 0 <= i < 8 ==> SwitchOk(cfg.switches.value.list[i])
  }

  const NOMINAL_VOLTS: seq<real> := [3.3, 3.3, 5.0, 5.0, 12.0, 12.0, 24.0, 24.0]

  function SwitchVolts(cfg: Config, i: nat): real
    requires SwitchesOk(cfg) && i < 8
  {
    if cfg.switches.Some? then Amount(cfg.switches.value.list[i].voltage.value).value else NOMINAL_VOLTS[i]
  }

  /** A switch's own passive load, and otherwise the one listed for it. */
  function SwitchWatts(cfg: Config, i: nat): real
    requires PassiveOk(cfg) && SwitchesOk(cfg) && i < 8
  {
    var listed := AmountOr(Some(PassiveOf(cfg, i)), 0.0);
    if cfg.switches.Some? then AmountOr(cfg.switches.value.list[i].loadPower, listed) else listed
  }

  /** Configured switches start as they say, or off; the nominal ones start on where they feed a selected load. */
  ghost predicate StartsOn(cfg: Config, available: set<string>, i: nat)
    requires SwitchesOk(cfg) && i < 8
  {
    if cfg.switches.Some? then cfg.switches.value.list[i].startupOn == Some(Bool(true))
    else exists name :: IsSelected(cfg, available, name) && LoadOf(cfg, name).switch == Some(Int(i))
  }

  function TitleOf(cfg: Config, i: nat): Value
    requires PassiveOk(cfg) && SwitchesOk(cfg) && i < 8
  {
    var numbered := Value.Text("Switch " + ["01234567"[i]]);
    if cfg.switches.Some? then GetOr(cfg.switches.value.list[i].title, numbered)
    else if Amount(PassiveOf(cfg, i)) == Some(0.0) then numbered
    else Value.Text("Load bank")
  }

  lemma NormalizedSwitchIs(i: nat, switch: Switch, passive: Value)
    requires i < 8 && AtLeast(passive, 0.0)
    ensures NormalizeSwitch(i, switch, passive).Some? <==> SwitchOk(switch)
    ensures SwitchOk(switch) ==>
              NormalizeSwitch(i, switch, passive)
              == Some(Switch(Some(Real(AmountOr(switch.loadPower, AmountOr(Some(passive), 0.0)))),
                             Some(Real(Amount(switch.voltage.value).value)),
                             Some(Bool(switch.startupOn == Some(Bool(true)))),
                             Some(GetOr(switch.title, Value.Text("Switch " + ["01234567"[i]])))))
  {
    hide HasText;
    NumberedTitle(i);
    if switch.Switch? && switch.voltage.Some? {
      NumberIs(GetOr(switch.loadPower, passive), 0.0);
      NumberIs(switch.voltage.value, TINY);
    }
  }

  lemma NumberedTitle(i: nat)
    requires i < 8
    ensures SwitchTitle(i) == "Switch " + ["01234567"[i]] && HasText(Value.Text(SwitchTitle(i)))
  {
    assert SwitchTitle(i)[0] == 'S' && !Text.IsBlank('S');
    assert "0123456789"[i] == "01234567"[i];
  }

  lemma {:induction false} SwitchesExactly(from: nat, switches: seq<Switch>, passive: seq<Value>)
    requires from + |switches| <= 8 && |passive| == 8
    ensures NormalizeSwitches(from, switches, passive).Some? <==>
            forall k :: 0 <= k < |switches| ==> NormalizeSwitch(from + k, switches[k], passive[from + k]).Some?
    decreases |switches|
  {
    hide NormalizeSwitch;
    if switches != [] {
      SwitchesExactly(from + 1, switches[1..], passive);
      assert forall k :: 1 <= k < |switches| ==> switches[k] == switches[1..][k - 1];
      assert forall k :: 0 <= k < |switches| - 1 ==> switches[1..][k] == switches[k + 1];
      if forall k :: 0 <= k < |switches| ==> NormalizeSwitch(from + k, switches[k], passive[from + k]).Some? {
        assert NormalizeSwitch(from + 0, switches[0], passive[from + 0]).Some?;
        forall k | 0 <= k < |switches| - 1
          ensures NormalizeSwitch(from + 1 + k, switches[1..][k], passive[from + 1 + k]).Some?
        {
          assert NormalizeSwitch(from + (k + 1), switches[k + 1], passive[from + (k + 1)]).Some?;
        }
      }
    }
  }

  lemma {:induction false} DefaultSwitchIs(from: nat, passive: seq<Value>, i: nat)
    requires from <= i < 8 && |passive| == 8
    ensures DefaultSwitches(from, passive)[i - from]
            == Switch(None, Some(Real(NOMINAL_VOLTS[i])), Some(Bool(false)),
                      Some(Value.Text(if Truthy(passive[i]) then "Load bank" else SwitchTitle(i))))
    decreases 8 - from
  {
    if from < i {
      DefaultSwitchIs(from + 1, passive, i);
    }
  }

  /** The switch list that is checked: the configured one or the nominal one. */
  function GivenSwitches(cfg: Config): Switches {
    if cfg.switches.Some? then cfg.switches.value
    else SwitchList(DefaultSwitches(0, if cfg.passive.Some? && cfg.passive.value.Items? && |cfg.passive.value.items| == 8
                                       then cfg.passive.value.items else NO_PASSIVE))
  }

  function PassiveItems(cfg: Config): (items: seq<Value>)
    requires PassiveOk(cfg)
    ensures |items| == 8 && forall i :: 0 <= i < 8 ==> items[i] == PassiveOf(cfg, i) && AtLeast(items[i], 0.0)
  {
    if cfg.passive.Some? then cfg.passive.value.items else NO_PASSIVE
  }

  /** The checked switch, before nominal ones are turned on. */
  function SwitchAs(cfg: Config, i: nat, on: bool): Switch
    requires PassiveOk(cfg) && SwitchesOk(cfg) && i < 8
  {
    Switch(Some(Real(SwitchWatts(cfg, i))), Some(Real(SwitchVolts(cfg, i))), Some(Bool(on)), Some(TitleOf(cfg, i)))
  }

  /** What a configured switch says of its start; nominal ones say off. */
  predicate SaysOn(cfg: Config, i: nat)
    requires SwitchesOk(cfg) && i < 8
  {
    cfg.switches.Some? && cfg.switches.value.list[i].startupOn == Some(Bool(true))
  }

  lemma ConfiguredSwitchIs(cfg: Config, i: nat)
    requires PassiveOk(cfg) && i < 8 && cfg.switches.Some?
    requires cfg.switches.value.SwitchList? && |cfg.switches.value.list| == 8
    ensures var checked := NormalizeSwitch(i, cfg.switches.value.list[i], PassiveItems(cfg)[i]);
            && (checked.Some? <==> SwitchOk(cfg.switches.value.list[i]))
            && (SwitchesOk(cfg) ==> checked == Some(SwitchAs(cfg, i, SaysOn(cfg, i))))
  {
    hide NormalizeSwitch, HasText, Between;
    NormalizedSwitchIs(i, cfg.switches.value.list[i], PassiveItems(cfg)[i]);
  }

  lemma NominalSwitchIs(cfg: Config, i: nat)
    requires PassiveOk(cfg) && i < 8 && cfg.switches.None?
    ensures NormalizeSwitch(i, DefaultSwitches(0, PassiveItems(cfg))[i], PassiveItems(cfg)[i])
            == Some(SwitchAs(cfg, i, false))
  {
    hide NormalizeSwitch, HasText, DefaultSwitches;
    var passive := PassiveItems(cfg);
    DefaultSwitchIs(0, passive, i);
    NumberedTitle(i);
    LoadBankHasText();
    assert 3.3 <= NOMINAL_VOLTS[i] <= 24.0;
    NormalizedSwitchIs(i, DefaultSwitches(0, passive)[i], passive[i]);
    assert Truthy(passive[i]) <==> Amount(passive[i]) != Some(0.0);
  }

  lemma LoadBankHasText()
    ensures HasText(Value.Text("Load bank"))
  {
    assert "Load bank"[0] == 'L' && !Text.IsBlank('L');
  }

  lemma CheckedSwitchesAre(cfg: Config)
    requires PassiveOk(cfg)
    ensures var given := GivenSwitches(cfg);
            SwitchesOk(cfg) <==>
              given.SwitchList? && |given.list| == 8 && NormalizeSwitches(0, given.list, PassiveItems(cfg)).Some?
    ensures SwitchesOk(cfg) ==>
              forall i :: 0 <= i < 8 ==>
                NormalizeSwitches(0, GivenSwitches(cfg).list, PassiveItems(cfg)).value[i]
                == SwitchAs(cfg, i, SaysOn(cfg, i))
  {
    hide NormalizeSwitch, SwitchOk, SwitchAs, DefaultSwitches;
    var given := GivenSwitches(cfg);
    if given.SwitchList? && |given.list| == 8 {
      SwitchesExactly(0, given.list, PassiveItems(cfg));
      if cfg.switches.Some? {
        forall i | 0 <= i < 8
          ensures NormalizeSwitch(0 + i, given.list[i], PassiveItems(cfg)[0 + i]).Some? <==> SwitchOk(given.list[i])
          ensures SwitchesOk(cfg) ==>
                    NormalizeSwitch(0 + i, given.list[i], PassiveItems(cfg)[0 + i])
                    == Some(SwitchAs(cfg, i, SaysOn(cfg, i)))
        {
          ConfiguredSwitchIs(cfg, i);
        }
      } else {
        forall i | 0 <= i < 8
          ensures NormalizeSwitch(0 + i, given.list[i], PassiveItems(cfg)[0 + i]) == Some(SwitchAs(cfg, i, false))
        {
          NominalSwitchIs(cfg, i);
        }
      }
    }
  }

  lemma StartedSwitchesAre(cfg: Config, available: set<string>, switches: seq<Switch>)
    requires PassiveOk(cfg) && SwitchesOk(cfg) && LoadsLegal(cfg)
    requires |switches| == 8 && forall i :: 0 <= i < 8 ==> switches[i].Switch?
    requires forall i :: 0 <= i < 8 ==> switches[i] == SwitchAs(cfg, i, SaysOn(cfg, i))
    ensures var selected := Selected(DefaultLoads(cfg), OwnLoads(cfg), cfg.wireDefaults, available);
            var started := if cfg.switches.None? then StartUp(switches, selected) else switches;
            forall i :: 0 <= i < 8 ==> started[i] == SwitchAs(cfg, i, StartsOn(cfg, available, i))
  {
    hide Selected, LoadOf, SwitchWatts, SwitchVolts, TitleOf;
    SelectionIs(cfg, available);
    var selected := Selected(DefaultLoads(cfg), OwnLoads(cfg), cfg.wireDefaults, available);
    if cfg.switches.None? {
      var started := StartUp(switches, selected);
      forall i | 0 <= i < 8
        ensures started[i] == SwitchAs(cfg, i, StartsOn(cfg, available, i))
      {
        FedExactly(cfg, available, i);
      }
    }
  }

  lemma FedExactly(cfg: Config, available: set<string>, i: nat)
    requires LoadsLegal(cfg) && cfg.switches.None? && i < 8
    ensures var selected := Selected(DefaultLoads(cfg), OwnLoads(cfg), cfg.wireDefaults, available);
            StartsOn(cfg, available, i) <==> exists name :: name in selected && Feeds(selected[name], i)
  {
    hide Selected, IsSelected;
    SelectionIs(cfg, available);
    var selected := Selected(DefaultLoads(cfg), OwnLoads(cfg), cfg.wireDefaults, available);
    forall name | name in selected
      ensures Feeds(selected[name], i) <==> LoadOf(cfg, name).switch == Some(Int(i))
    {
    }
  }

  /** The limit of 10 A as the source divides. */
  lemma TenAmpsInWatts(switch: Switch, peak: real)
    requires switch.Switch? && RealOf(switch.voltage) > 0.0
    ensures WithinTenAmps(switch, peak) <==> RealOf(switch.loadPower) + peak <= 10.0 * RealOf(switch.voltage)
  {
    var watts, volts := RealOf(switch.loadPower) + peak, RealOf(switch.voltage);
    assert watts == (watts / volts) * volts;
    if watts / volts <= 10.0 {
      assert (watts / volts) * volts <= 10.0 * volts;
    } else {
      assert (watts / volts) * volts > 10.0 * volts;
    }
  }

  lemma NormalizedLoadsExactly(cfg: Config, available: set<string>)
    requires LoadsLegal(cfg)
    ensures var selected := Selected(DefaultLoads(cfg), OwnLoads(cfg), cfg.wireDefaults, available);
            SelectionOk(cfg, available) <==>
              (forall name :: name in selected ==> name in COMPONENTS && name in available)
              && NormalizeLoads(selected).Some?
  {
    hide Selected, LoadOf, LoadOk, NormalizeLoad;
    SelectionIs(cfg, available);
    var selected := Selected(DefaultLoads(cfg), OwnLoads(cfg), cfg.wireDefaults, available);
    forall name | name in selected
      ensures NormalizeLoad(selected[name]).Some? <==> LoadOk(LoadOf(cfg, name))
    {
      NormalizedLoadIs(LoadOf(cfg, name));
    }
    assert forall name: string :: name in COMPONENTS <==> name in {"demo", "adcs", "radio"};
    assert forall name :: name in OwnLoads(cfg) ==> name in selected;
  }

  // ---------------------------------------------------------------- acceptance

  predicate BatteryOk(cfg: Config) {
    && cfg.capacity.Some? && AtLeast(cfg.capacity.value, 0.000000001)
    && cfg.initialSoc.Some? && Between(cfg.initialSoc.value, 0.0, 1.0)
    && cfg.voltageMin.Some? && Between(cfg.voltageMin.value, 0.0, 32.0)
    && cfg.voltageMax.Some? && Between(cfg.voltageMax.value, 0.0, 32.0)
    && Amount(cfg.voltageMin.value).value <= Amount(cfg.voltageMax.value).value
    && cfg.maxSolar.Some? && AtLeast(cfg.maxSolar.value, 0.0)
    && (cfg.baseLoad.Some? ==> AtLeast(cfg.baseLoad.value, 0.0))
  }

  /** Everything in order, and on no switch can its passive load and its selected loads together draw more than 10 A. */
  ghost predicate WiringOk(cfg: Config, available: set<string>) {
    && PassiveOk(cfg) && SwitchesOk(cfg) && LoadsLegal(cfg) && SelectionOk(cfg, available)
    && forall i :: 0 <= i < 8 ==> SwitchWatts(cfg, i) + DrawnOn(cfg, available, i) <= 10.0 * SwitchVolts(cfg, i)
  }

  /** What an accepted configuration becomes. */
  ghost predicate WiredAs(cfg: Config, available: set<string>, done: Config)
    requires WiringOk(cfg, available)
  {
    && done.passive.Some? && done.passive.value.Items? && |done.passive.value.items| == 8
    && (forall i :: 0 <= i < 8 ==> done.passive.value.items[i] == Real(AmountOr(Some(PassiveOf(cfg, i)), 0.0)))
    && done.switches.Some? && done.switches.value.SwitchList? && |done.switches.value.list| == 8
    && (forall i :: 0 <= i < 8 ==> done.switches.value.list[i] == SwitchAs(cfg, i, StartsOn(cfg, available, i)))
    && done.loads.Some? && done.loads.value.LoadMap?
    && (forall name :: name in done.loads.value.entries <==> IsSelected(cfg, available, name))
    && (forall name :: name in done.loads.value.entries ==>
          NormalizeLoad(LoadOf(cfg, name)) == Some(done.loads.value.entries[name]))
    && |done.rendered| == 3
    && RenderedAs(cfg, available, "demo", done.rendered[0])
    && RenderedAs(cfg, available, "adcs", done.rendered[1])
    && RenderedAs(cfg, available, "radio", done.rendered[2])
  }

  lemma PassiveExactly(cfg: Config)
    ensures var passive := GetOr(cfg.passive, Items(NO_PASSIVE));
            && (PassiveOk(cfg) <==> passive.Items? && |passive.items| == 8 && Numbers(passive.items).Some?)
            && (PassiveOk(cfg) ==>
                  passive.items == PassiveItems(cfg)
                  && forall i :: 0 <= i < 8 ==>
                       Reals(Numbers(passive.items).value)[i] == Real(AmountOr(Some(PassiveOf(cfg, i)), 0.0)))
  {
    hide Numbers, Reals;
    var passive := GetOr(cfg.passive, Items(NO_PASSIVE));
    if passive.Items? {
      NumbersExactly(passive.items);
    }
  }

  /** The last stage, on switches and loads that are in order. */
  lemma FinishExactly(cfg: Config, wired: Config, available: set<string>, started: seq<Switch>)
    requires PassiveOk(cfg) && SwitchesOk(cfg) && LoadsLegal(cfg)
    requires |started| == 8 && forall i :: 0 <= i < 8 ==> started[i].Switch?
    requires forall i :: 0 <= i < 8 ==> started[i] == SwitchAs(cfg, i, StartsOn(cfg, available, i))
    ensures var selected := Selected(DefaultLoads(cfg), OwnLoads(cfg), cfg.wireDefaults, available);
            var done := Finish(wired, started, selected, available);
            && (done.Some? <==> WiringOk(cfg, available))
            && (done.Some? ==>
                  && done.value == wired.(switches := Some(SwitchList(started)), loads := done.value.loads,
                                          rendered := done.value.rendered)
                  && done.value.loads.Some? && done.value.loads.value.LoadMap?
                  && NormalizeLoads(selected) == Some(done.value.loads.value.entries)
                  && |done.value.rendered| == 3
                  && RenderedAs(cfg, available, "demo", done.value.rendered[0])
                  && RenderedAs(cfg, available, "adcs", done.value.rendered[1])
                  && RenderedAs(cfg, available, "radio", done.value.rendered[2]))
  {
    hide Selected, RenderAll, PeakOn, NormalizeLoads, WithinTenAmps, DrawnOn, PassiveOk, SwitchesOk,
         SelectionOk, RenderedAs, StartsOn, IsNormal, SwitchAs;
    NormalizedLoadsExactly(cfg, available);
    var selected := Selected(DefaultLoads(cfg), OwnLoads(cfg), cfg.wireDefaults, available);
    if SelectionOk(cfg, available) {
      var loads := NormalizeLoads(selected).value;
      RenderingIs(cfg, available, loads);
      forall i | 0 <= i < 8
        ensures WithinTenAmps(started[i], PeakOn(RenderAll(loads), i))
                <==> SwitchWatts(cfg, i) + DrawnOn(cfg, available, i) <= 10.0 * SwitchVolts(cfg, i)
      {
        LimitIs(cfg, i, StartsOn(cfg, available, i), started[i], DrawnOn(cfg, available, i));
      }
    }
  }

  lemma LimitIs(cfg: Config, i: nat, on: bool, switch: Switch, peak: real)
    requires PassiveOk(cfg) && SwitchesOk(cfg) && i < 8 && switch == SwitchAs(cfg, i, on)
    ensures switch.Switch?
    ensures WithinTenAmps(switch, peak) <==> SwitchWatts(cfg, i) + peak <= 10.0 * SwitchVolts(cfg, i)
  {
    hide WithinTenAmps, PassiveOk, TitleOf, SwitchWatts;
    if cfg.switches.Some? {
      assert SwitchOk(cfg.switches.value.list[i]);
    } else {
      assert 3.3 <= NOMINAL_VOLTS[i];
    }
    assert SwitchVolts(cfg, i) > 0.0;
    TenAmpsInWatts(switch, peak);
  }

  lemma WiringExactly(cfg: Config, available: set<string>)
    ensures NormalizeWiring(cfg, available).Some? <==> WiringOk(cfg, available)
    ensures NormalizeWiring(cfg, available).Some? ==>
              var done := NormalizeWiring(cfg, available).value;
              && WiredAs(cfg, available, done)
              && done == cfg.(passive := done.passive, switches := done.switches, loads := done.loads,
                              rendered := done.rendered)
  {
    hide Numbers, Reals, NormalizeSwitches, DefaultSwitches, Selected, StartUp, Finish, PassiveOk, SwitchesOk, SwitchAs,
         StartsOn, SaysOn, SelectionOk, RenderedAs, NormalizeLoad, LoadOf, DrawnOn, SwitchWatts, SwitchVolts, IsSelected;
    PassiveExactly(cfg);
    if PassiveOk(cfg) {
      CheckedSwitchesAre(cfg);
      if SwitchesOk(cfg) && (cfg.loads.Some? ==> cfg.loads.value.LoadMap?)
         && (cfg.defaultLoads.Some? ==> cfg.defaultLoads.value.LoadMap?) {
        NamesAreLegal(cfg);
        if LoadsLegal(cfg) {
          var passive := GetOr(cfg.passive, Items(NO_PASSIVE)).items;
          var switches := NormalizeSwitches(0, GivenSwitches(cfg).list, passive).value;
          var selected := Selected(DefaultLoads(cfg), OwnLoads(cfg), cfg.wireDefaults, available);
          StartedSwitchesAre(cfg, available, switches);
          SelectionIs(cfg, available);
          var started := if cfg.switches.None? then StartUp(switches, selected) else switches;
          FinishExactly(cfg, cfg.(passive := Some(Items(Reals(Numbers(passive).value)))), available, started);
        }
      }
    }
  }

  /** The configuration with its battery figures as floats. */
  function Numbered(cfg: Config): Config
    requires BatteryOk(cfg)
  {
    cfg.(capacity := Some(Real(Amount(cfg.capacity.value).value)),
         initialSoc := Some(Real(Amount(cfg.initialSoc.value).value)),
         voltageMin := Some(Real(Amount(cfg.voltageMin.value).value)),
         voltageMax := Some(Real(Amount(cfg.voltageMax.value).value)),
         maxSolar := Some(Real(Amount(cfg.maxSolar.value).value)),
         baseLoad := Some(Real(AmountOr(cfg.baseLoad, 0.0))))
  }

  lemma BatteryExactly(cfg: Config, available: set<string>)
    ensures Normalize(cfg, available) == if BatteryOk(cfg) then NormalizeWiring(Numbered(cfg), available) else None
  {
    hide NormalizeWiring, Number, AtLeast, Amount, Between;
    BetweenIs();
    if cfg.capacity.Some? && cfg.initialSoc.Some? && cfg.voltageMin.Some? && cfg.voltageMax.Some? && cfg.maxSolar.Some? {
      NumberIs(cfg.capacity.value, TINY);
      NumberIs(cfg.initialSoc.value, 0.0);
      NumberIs(cfg.voltageMin.value, 0.0);
      NumberIs(cfg.voltageMax.value, 0.0);
      NumberIs(cfg.maxSolar.value, 0.0);
      NumberIs(GetOr(cfg.baseLoad, Int(0)), 0.0);
      Ones();
    }
  }

  lemma BetweenIs()
    ensures forall v, low, high :: Between(v, low, high) ==> AtLeast(v, low)
    ensures forall v, low :: AtLeast(v, low) ==> Amount(v).Some?
  {
  }

  /** The wiring does not look at the battery. */
  lemma SameWiring(cfg: Config, other: Config, available: set<string>)
    requires other.passive == cfg.passive && other.switches == cfg.switches && other.loads == cfg.loads
    requires other.defaultLoads == cfg.defaultLoads && other.wireDefaults == cfg.wireDefaults
    ensures PassiveOk(other) == PassiveOk(cfg) && SwitchesOk(other) == SwitchesOk(cfg)
    ensures LoadsLegal(other) == LoadsLegal(cfg)
    ensures forall name :: IsSelected(other, available, name) == IsSelected(cfg, available, name)
    ensures forall name :: LoadOf(other, name) == LoadOf(cfg, name)
    ensures SelectionOk(other, available) == SelectionOk(cfg, available)
    ensures PassiveOk(cfg) ==> forall i :: 0 <= i < 8 ==> PassiveOf(other, i) == PassiveOf(cfg, i)
    ensures PassiveOk(cfg) && SwitchesOk(cfg) ==>
              forall i :: 0 <= i < 8 ==>
                SwitchWatts(other, i) == SwitchWatts(cfg, i) && SwitchVolts(other, i) == SwitchVolts(cfg, i)
                && TitleOf(other, i) == TitleOf(cfg, i)
  {
    assert OwnLoads(other) == OwnLoads(cfg) && DefaultLoads(other) == DefaultLoads(cfg);
    hide LoadOk, EntryOf, Either, SwitchOk, AmountOr, AtLeast;
  }

  lemma SameWired(cfg: Config, other: Config, available: set<string>)
    requires other.passive == cfg.passive && other.switches == cfg.switches && other.loads == cfg.loads
    requires other.defaultLoads == cfg.defaultLoads && other.wireDefaults == cfg.wireDefaults
    ensures WiringOk(other, available) == WiringOk(cfg, available)
    ensures WiringOk(cfg, available) ==>
              forall done :: WiredAs(other, available, done) == WiredAs(cfg, available, done)
  {
    hide PassiveOk, SwitchesOk, LoadsLegal, SelectionOk, IsSelected, LoadOf, SwitchWatts, SwitchVolts, TitleOf, PassiveOf,
         NormalizeLoad, MostWatts, LoadOk, ModeWatts, BootWatts, AmountOr;
    SameWiring(cfg, other, available);
    if PassiveOk(cfg) && SwitchesOk(cfg) && SelectionOk(cfg, available) {
      forall i | 0 <= i < 8
        ensures DrawnOn(other, available, i) == DrawnOn(cfg, available, i)
        ensures StartsOn(other, available, i) == StartsOn(cfg, available, i)
      {
        SameStart(cfg, other, available, i);
      }
    }
  }

  lemma SameStart(cfg: Config, other: Config, available: set<string>, i: nat)
    requires other.switches == cfg.switches && SwitchesOk(cfg) && SwitchesOk(other) && i < 8
    requires forall name :: IsSelected(other, available, name) == IsSelected(cfg, available, name)
    requires forall name :: LoadOf(other, name) == LoadOf(cfg, name)
    ensures StartsOn(other, available, i) == StartsOn(cfg, available, i)
  {
    hide IsSelected, LoadOf;
  }

  /** normalize_eps accepts a configuration if and only if its battery figures are numbers in range and its wiring is in
      order: no switch can be asked for more than 10 A by what its configuration says. */
  lemma AcceptedExactly(cfg: Config, available: set<string>)
    ensures Normalize(cfg, available).Some? <==> BatteryOk(cfg) && WiringOk(cfg, available)
  {
    hide Normalize, NormalizeWiring, WiringOk;
    BatteryExactly(cfg, available);
    if BatteryOk(cfg) {
      SameWired(cfg, Numbered(cfg), available);
      WiringExactly(Numbered(cfg), available);
    }
  }

  /** What it then makes of it: the figures as floats, the passive loads and the eight switches as configured or nominal,
      the selected loads, and rendered for each component its own switch, mode powers, boot power, delay and scale. */
  lemma NormalizedAsConfigured(cfg: Config, available: set<string>)
    requires Normalize(cfg, available).Some?
    ensures BatteryOk(cfg) && WiringOk(cfg, available)
    ensures var done := Normalize(cfg, available).value;
            && WiredAs(cfg, available, done)
            && done == Numbered(cfg).(passive := done.passive, switches := done.switches, loads := done.loads,
                                      rendered := done.rendered)
  {
    hide Normalize, NormalizeWiring, WiringOk, WiredAs;
    AcceptedExactly(cfg, available);
    BatteryExactly(cfg, available);
    SameWired(cfg, Numbered(cfg), available);
    WiringExactly(Numbered(cfg), available);
  }
}
