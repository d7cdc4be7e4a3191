/** The EPS configuration check as it runs: a copy of the configuration is filled in step by step, and the first fault
    ends it. */
module EpsNormalizer {
  import opened Options
  import opened EpsConfig

  function Prefixed(done: seq<Switch>, rest: Option<seq<Switch>>): Option<seq<Switch>> {
    if rest.Some? then Some(done + rest.value) else None
  }

  lemma PrefixedNothing(rest: Option<seq<Switch>>)
    ensures Prefixed([], rest) == rest
  {
    if rest.Some? {
      assert [] + rest.value == rest.value;
    }
  }

  lemma OneSwitch(from: nat, switches: seq<Switch>, passive: seq<Value>, done: seq<Switch>)
    requires switches != [] && from + |switches| <= 8 && |passive| == 8
    ensures var first := NormalizeSwitch(from, switches[0], passive[from]);
            Prefixed(done, NormalizeSwitches(from, switches, passive))
            == if first.None? then None
               else Prefixed(done + [first.value], NormalizeSwitches(from + 1, switches[1..], passive))
  {
    hide NormalizeSwitch;
    var rest := NormalizeSwitches(from + 1, switches[1..], passive);
    if NormalizeSwitch(from, switches[0], passive[from]).Some? && rest.Some? {
      assert done + ([NormalizeSwitch(from, switches[0], passive[from]).value] + rest.value)
             == (done + [NormalizeSwitch(from, switches[0], passive[from]).value]) + rest.value;
    }
  }

  /** The eight switches, one after the other. */
  method CheckSwitches(switches: seq<Switch>, passive: seq<Value>) returns (r: Option<seq<Switch>>)
    requires |switches| == 8 && |passive| == 8
    ensures r == NormalizeSwitches(0, switches, passive)
  {
    hide NormalizeSwitches, NormalizeSwitch;
    var done: seq<Switch> := [];
    PrefixedNothing(NormalizeSwitches(0, switches[0..], passive));
    assert switches[0..] == switches;
    for i := 0 to 8
      invariant |done| == i
      invariant Prefixed(done, NormalizeSwitches(i, switches[i..], passive)) == NormalizeSwitches(0, switches, passive)
    {
      OneSwitch(i, switches[i..], passive, done);
      assert switches[i..][1..] == switches[i + 1..];
      var switch := NormalizeSwitch(i, switches[i], passive[i]);
      if switch.None? {
        return None;
      }
      done := done + [switch.value];
    }
    NoSwitches(switches, passive, done);
    r := Some(done);
  }

  lemma NoSwitches(switches: seq<Switch>, passive: seq<Value>, done: seq<Switch>)
    requires |switches| == 8 && |passive| == 8
    ensures Prefixed(done, NormalizeSwitches(8, switches[8..], passive)) == Some(done)
  {
    assert done + [] == done;
  }

  /** Without configured switches, every load turns its switch on, in any order. */
  method TurnOn(switches: seq<Switch>, loads: map<string, Load>) returns (r: seq<Switch>)
    requires |switches| == 8 && forall k :: 0 <= k < 8 ==> switches[k].Switch?
    ensures r == StartUp(switches, loads)
  {
    r := switches;
    var todo := loads;
    while todo.Keys != {}
      invariant |r| == 8 && forall k :: 0 <= k < 8 ==> r[k].Switch?
      invariant StartUp(r, todo) == StartUp(switches, loads)
      decreases |todo.Keys|
    {
      var name :| name in todo;
      var load := todo[name];
      OneLoad(r, todo, name);
      todo := todo - {name};
      if load.Load? && load.switch.Some? && load.switch.value.Int? && 0 <= load.switch.value.whole < 8 {
        var i := load.switch.value.whole;
        r := r[i := r[i].(startupOn := Some(Bool(true)))];
      }
    }
    NoLoads(r, todo);
  }

  lemma OneLoad(switches: seq<Switch>, todo: map<string, Load>, name: string)
    requires |switches| == 8 && (forall k :: 0 <= k < 8 ==> switches[k].Switch?) && name in todo
    ensures (todo - {name}).Keys == todo.Keys - {name}
    ensures var load := todo[name];
            StartUp(switches, todo)
            == StartUp(if load.Load? && load.switch.Some? && load.switch.value.Int? && 0 <= load.switch.value.whole < 8
                       then switches[load.switch.value.whole :=
                                       switches[load.switch.value.whole].(startupOn := Some(Bool(true)))]
                       else switches, todo - {name})
  {
    var load, rest := todo[name], todo - {name};
    forall i | 0 <= i < 8
      ensures (exists n :: n in todo && Feeds(todo[n], i)) <==> Feeds(load, i) || exists n :: n in rest && Feeds(rest[n], i)
    {
      if n :| n in todo && Feeds(todo[n], i) {
        assert n == name || (n in rest && Feeds(rest[n], i));
      }
      if n :| n in rest && Feeds(rest[n], i) {
        assert n in todo && Feeds(todo[n], i);
      }
    }
    var fed := load.Load? && load.switch.Some? && load.switch.value.Int? && 0 <= load.switch.value.whole < 8;
    var next := if fed then switches[load.switch.value.whole :=
                                       switches[load.switch.value.whole].(startupOn := Some(Bool(true)))] else switches;
    var before, after := StartUp(switches, todo), StartUp(next, rest);
    forall i | 0 <= i < 8
      ensures before[i] == after[i]
    {
      assert Feeds(load, i) <==> fed && load.switch.value.whole == i;
    }
  }

  lemma NoLoads(switches: seq<Switch>, todo: map<string, Load>)
    requires todo.Keys == {} && forall k :: 0 <= k < |switches| ==> switches[k].Switch?
    ensures StartUp(switches, todo) == switches
  {
  }

  /** The loads of the three components in turn: each is normalized and rendered, or rendered empty. */
  method RenderLoads(selected: map<string, Load>) returns (r: Option<(map<string, Load>, seq<Rendered>)>)
    requires forall name :: name in selected ==> name in COMPONENTS
    ensures r.None? <==> NormalizeLoads(selected).None?
    ensures r.Some? ==> NormalizeLoads(selected) == Some(r.value.0)
                        && (forall name :: name in r.value.0 ==> IsNormal(r.value.0[name]))
                        && r.value.1 == RenderAll(r.value.0)
  {
    hide NormalizeLoad, Render, IsNormalLoad, IsNormal;
    var loads: map<string, Load> := map[];
    var rendered: seq<Rendered> := [];
    for i := 0 to 3
      invariant |rendered| == i
      invariant forall name :: name in loads <==> name in selected && name in COMPONENTS[..i]
      invariant forall name :: name in loads ==> NormalizeLoad(selected[name]) == Some(loads[name]) && IsNormal(loads[name])
      invariant forall k :: 0 <= k < i ==>
                  rendered[k] == if COMPONENTS[k] in loads then Render(COMPONENTS[k], loads[COMPONENTS[k]])
                                  else NOTHING_RENDERED
    {
      var name := COMPONENTS[i];
      assert COMPONENTS[..i + 1] == COMPONENTS[..i] + [name];
      DistinctComponents(i);
      if name !in selected {
        rendered := rendered + [NOTHING_RENDERED];
        continue;
      }
      var load := NormalizeLoad(selected[name]);
      if load.None? {
        return None;
      }
      NormalLoad(selected[name]);
      loads := loads[name := load.value];
      rendered := rendered + [Render(name, load.value)];
    }
    assert COMPONENTS[..3] == COMPONENTS;
    assert NormalizeLoads(selected).Some?;
    assert NormalizeLoads(selected).value == loads;
    r := Some((loads, rendered));
  }

  lemma DistinctComponents(i: nat)
    requires i < 3
    ensures COMPONENTS[i] !in COMPONENTS[..i]
    ensures forall k :: 0 <= k < i ==> COMPONENTS[k] != COMPONENTS[i]
  {
    assert COMPONENTS[0] == "demo" && COMPONENTS[1] == "adcs" && COMPONENTS[2] == "radio";
  }

  lemma NormalLoad(load: Load)
    requires NormalizeLoad(load).Some?
    ensures IsNormal(NormalizeLoad(load).value)
  {
    hide NormalizeLoad, IsNormalLoad;
    LoadAgain(load);
    FullyNormal(NormalizeLoad(load).value);
  }

  lemma FullyNormal(load: Load)
    requires IsNormalLoad(load)
    ensures IsNormal(load)
  {
  }

  /** The peak current of every switch, summed load by load. */
  method CheckCurrents(switches: seq<Switch>, rendered: seq<Rendered>) returns (ok: bool)
    requires |switches| == 8 && forall k :: 0 <= k < 8 ==> switches[k].Switch?
    requires forall k :: 0 <= k < |rendered| ==> |rendered[k].modePower| == 6
    ensures ok <==> forall i :: 0 <= i < 8 ==> WithinTenAmps(switches[i], PeakOn(rendered, i))
  {
    hide WithinTenAmps, Peak;
    for i := 0 to 8
      invariant forall k :: 0 <= k < i ==> WithinTenAmps(switches[k], PeakOn(rendered, k))
    {
      var peak := 0.0;
      for j := 0 to |rendered|
        invariant peak + PeakOn(rendered[j..], i) == PeakOn(rendered, i)
      {
        assert rendered[j..][1..] == rendered[j + 1..];
        if rendered[j].component != "" && rendered[j].switch == i {
          peak := peak + Peak(rendered[j]);
        }
      }
      assert peak == PeakOn(rendered, i);
      if !WithinTenAmps(switches[i], peak) {
        return false;
      }
    }
    ok := true;
  }

  /** normalize_eps from the switches on. */
  method NormalizeRest(cfg: Config, available: set<string>) returns (r: Option<Config>)
    ensures r == NormalizeWiring(cfg, available)
  {
    hide NormalizeSwitches, Selected, StartUp, NormalizeLoads, RenderAll, PeakOn, WithinTenAmps, IsNormal, LegalNames, Numbers,
         Reals;
    var passive := GetOr(cfg.passive, Items(NO_PASSIVE));
    if !passive.Items? || |passive.items| != 8 {
      return None;
    }
    var watts := Numbers(passive.items);
    if watts.None? {
      return None;
    }
    var given := if cfg.switches.Some? then cfg.switches.value else SwitchList(DefaultSwitches(0, passive.items));
    if !given.SwitchList? || |given.list| != 8 {
      return None;
    }
    var switches := CheckSwitches(given.list, passive.items);
    var loads := if cfg.loads.Some? then cfg.loads.value else LoadMap(map[]);
    var defaults := if cfg.defaultLoads.Some? then cfg.defaultLoads.value else LoadMap(map[]);
    if switches.None? || !loads.LoadMap? || !defaults.LoadMap? || !LegalNames(defaults.entries, loads.entries) {
      return None;
    }
    LegalLoads(defaults.entries, loads.entries);
    var selected := Selected(defaults.entries, loads.entries, cfg.wireDefaults, available);
    var started := switches.value;
    if cfg.switches.None? {
      started := TurnOn(started, selected);
    }
    r := FinishConfig(cfg.(passive := Some(Items(Reals(watts.value)))), started, selected, available);
  }

  lemma LegalLoads(defaults: map<string, Load>, loads: map<string, Load>)
    requires LegalNames(defaults, loads)
    ensures forall name :: name in defaults ==> defaults[name].Load?
    ensures forall name :: name in loads ==> loads[name].Load?
  {
  }

  method FinishConfig(cfg: Config, switches: seq<Switch>, selected: map<string, Load>, available: set<string>)
      returns (r: Option<Config>)
    requires |switches| == 8 && forall k :: 0 <= k < 8 ==> switches[k].Switch?
    ensures r == Finish(cfg, switches, selected, available)
  {
    hide NormalizeLoads, PeakOn, WithinTenAmps;
    if exists name :: name in selected && (name !in COMPONENTS || name !in available) {
      return None;
    }
    var rendered := RenderLoads(selected);
    if rendered.None? {
      return None;
    }
    var ok := CheckCurrents(switches, rendered.value.1);
    if !ok {
      return None;
    }
    r := Some(cfg.(switches := Some(SwitchList(switches)), loads := Some(LoadMap(rendered.value.0)),
                   rendered := rendered.value.1));
  }

  /** normalize_eps: the battery and power figures first, then switches, loads and the current check. */
  method NormalizeEps(config: Config, available: set<string>) returns (r: Option<Config>)
    ensures r == Normalize(config, available)
  {
    hide NormalizeWiring;
    var cfg := config;
    if cfg.capacity.None? || cfg.initialSoc.None? || cfg.voltageMin.None? || cfg.voltageMax.None? || cfg.maxSolar.None? {
      return None;
    }
    var capacity, soc := Number(cfg.capacity.value, TINY, None), Number(cfg.initialSoc.value, 0.0, Some(1.0));
    var vmin, vmax := Number(cfg.voltageMin.value, 0.0, Some(32.0)), Number(cfg.voltageMax.value, 0.0, Some(32.0));
    var solar, base := Number(cfg.maxSolar.value, 0.0, None), Number(GetOr(cfg.baseLoad, Int(0)), 0.0, None);
    if capacity.None? || soc.None? || vmin.None? || vmax.None? || solar.None? || base.None? {
      return None;
    }
    cfg := cfg.(capacity := Some(Real(capacity.value)), initialSoc := Some(Real(soc.value)));
    cfg := cfg.(voltageMin := Some(Real(vmin.value)), voltageMax := Some(Real(vmax.value)));
    cfg := cfg.(maxSolar := Some(Real(solar.value)));
    if vmax.value < vmin.value {
      return None;
    }
    cfg := cfg.(baseLoad := Some(Real(base.value)));
    r := NormalizeRest(cfg, available);
  }
}
