/** The layers of a component configuration: a later layer replaces a key, except that the load mappings of the EPS
    take partial overrides, field by field. */
module EpsLayers {
  import opened Options
  import opened TreePath

  type Mapping = map<string, Value>

  /** The keys that take partial overrides. */
  function PartialKeys(name: string): seq<string> {
    if name == "eps" then ["loads", "default_loads"] else []
  }

  /** A nonempty mapping under a key. */
  predicate HasLoads(override: Mapping, key: string) {
    key in override && override[key].Dict? && override[key].entries != map[]
  }

  function LoadsUnder(override: Mapping, key: string): Mapping
    requires HasLoads(override, key)
  {
    override[key].entries
  }

  /** inherited[component] after settings for it. */
  function Settled(inherited: Mapping, component: string, settings: Value): Value {
    if settings.Dict? && component in inherited && inherited[component].Dict?
    then Dict(inherited[component].entries + settings.entries)
    else settings
  }

  function MergeLoads(inherited: Mapping, loads: Mapping): Mapping {
    map c | c in inherited.Keys + loads.Keys :: if c in loads then Settled(inherited, c, loads[c]) else inherited[c]
  }

  /** base.get(key, {}), which has to be a mapping. */
  function Inherited(base: Mapping, key: string): Option<Mapping> {
    if key !in base then Some(map[]) else if base[key].Dict? then Some(base[key].entries) else None
  }

  /** merge_component_config; None where an inherited load mapping is no mapping. */
  function Merge(name: string, base: Mapping, override: Mapping): Option<Mapping> {
    if exists key :: key in PartialKeys(name) && HasLoads(override, key) && Inherited(base, key).None? then None
    else
      Some(base + override
           + map key | key in PartialKeys(name) && HasLoads(override, key) ::
               Dict(MergeLoads(Inherited(base, key).value, LoadsUnder(override, key))))
  }

  /** What a layer does to a whole key: the loads of the EPS take it component by component, keeping those it does not
      name; every other key is replaced if the layer has it, and stays otherwise. */
  lemma MergedKey(name: string, base: Mapping, override: Mapping, key: string)
    requires Merge(name, base, override).Some?
    ensures var merged := Merge(name, base, override).value;
            && (key in merged <==> key in base || key in override)
            && (if name == "eps" && key in {"loads", "default_loads"} && HasLoads(override, key) then
                  && merged[key].Dict?
                  && (key in base ==> base[key].Dict?)
                  && (forall c :: c in merged[key].entries <==>
                        c in override[key].entries || (key in base && c in base[key].entries))
                  && (forall c :: c in merged[key].entries && c !in override[key].entries ==>
                        merged[key].entries[c] == base[key].entries[c])
                  && (forall c :: c in override[key].entries && !override[key].entries[c].Dict? ==>
                        merged[key].entries[c] == override[key].entries[c])
                else key in merged ==> merged[key] == if key in override then override[key] else base[key])
  {
  }

  /** A layer is refused only for merging loads into something that is no mapping. */
  lemma RefusedExactly(name: string, base: Mapping, override: Mapping)
    ensures Merge(name, base, override).None? <==>
              name == "eps" && exists key :: key in {"loads", "default_loads"} && HasLoads(override, key)
                                             && key in base && !base[key].Dict?
  {
    assert forall key :: key in PartialKeys(name) <==> name == "eps" && key in {"loads", "default_loads"};
  }

  /** The configuration dictionary that the layers are merged into. */
  class Config {
    var entries: Mapping

    constructor (entries: Mapping)
      ensures this.entries == entries
    {
      this.entries := entries;
    }

    method MergeLayer(name: string, override: Mapping) returns (ok: bool)
      modifies this
      ensures match Merge(name, old(entries), override)
              case None => !ok && entries == old(entries)
              case Some(next) => ok && entries == next
    {
      var merged: Mapping := map[];
      hide HasLoads, LoadsUnder, Inherited, MergeLoads, PartialKeys;
      var keys := PartialKeys(name);
      for k := 0 to |keys|
        invariant entries == old(entries)
        invariant forall key :: key in merged <==> key in keys[..k] && HasLoads(override, key)
        invariant forall key :: key in keys[..k] && HasLoads(override, key) ==> Inherited(entries, key).Some?
        invariant forall key :: key in merged ==>
                    merged[key] == Dict(MergeLoads(Inherited(entries, key).value, LoadsUnder(override, key)))
      {
        var key := keys[k];
        assert keys[..k + 1] == keys[..k] + [key];
        if HasLoads(override, key) {
          var inherited := Inherited(entries, key);
          if inherited.None? {
            assert key in PartialKeys(name);
            return false;
          }
          var loads := Settle(inherited.value, LoadsUnder(override, key));
          merged := merged[key := Dict(loads)];
        }
      }
      assert keys[..|keys|] == keys;
      assert merged == map key | key in PartialKeys(name) && HasLoads(override, key) ::
                         Dict(MergeLoads(Inherited(entries, key).value, LoadsUnder(override, key)));
      entries := entries + override;
      entries := entries + merged;
      ok := true;
    }
  }

  /** The components of an override in any order. */
  method Settle(inherited: Mapping, loads: Mapping) returns (r: Mapping)
    ensures r == MergeLoads(inherited, loads)
  {
    hide MergeLoads;
    r := inherited;
    var todo := loads;
    while todo.Keys != {}
      invariant MergeLoads(r, todo) == MergeLoads(inherited, loads)
      decreases |todo.Keys|
    {
      var component :| component in todo;
      var settings := todo[component];
      OneComponent(r, todo, component);
      todo := todo - {component};
      if settings.Dict? && component in r && r[component].Dict? {
        r := r[component := Dict(r[component].entries + settings.entries)];
      } else {
        r := r[component := settings];
      }
    }
    NoComponents(r, todo);
  }

  lemma OneComponent(r: Mapping, todo: Mapping, c: string)
    requires c in todo
    ensures (todo - {c}).Keys == todo.Keys - {c}
    ensures MergeLoads(r, todo) == MergeLoads(r[c := Settled(r, c, todo[c])], todo - {c})
  {
    var next, rest := r[c := Settled(r, c, todo[c])], todo - {c};
    forall d | d != c
      ensures d in todo ==> d in rest && Settled(next, d, rest[d]) == Settled(r, d, todo[d])
    {
    }
  }

  lemma NoComponents(r: Mapping, todo: Mapping)
    requires todo.Keys == {}
    ensures MergeLoads(r, todo) == r
  {
  }

  // ---------------------------------------------------------------- which setting wins

  /** loads[component][field], where it can be read. */
  function Setting(cfg: Mapping, key: string, component: string, field: string): Option<Value> {
    if key in cfg && cfg[key].Dict? && component in cfg[key].entries && cfg[key].entries[component].Dict?
       && field in cfg[key].entries[component].entries
    then Some(cfg[key].entries[component].entries[field])
    else None
  }

  /** The layer takes the setting away or gives it itself: it sets the field, it has something else than a mapping for
      the component, or under the key it has no mapping or an empty one. */
  predicate Overrides(layer: Mapping, key: string, component: string, field: string) {
    key in layer
    && (!HasLoads(layer, key)
        || (component in layer[key].entries
            && (!layer[key].entries[component].Dict? || field in layer[key].entries[component].entries)))
  }

  lemma OneLayer(base: Mapping, override: Mapping, key: string, component: string, field: string)
    requires key in PartialKeys("eps") && Merge("eps", base, override).Some?
    ensures Setting(Merge("eps", base, override).value, key, component, field)
            == if Overrides(override, key, component, field) then Setting(override, key, component, field)
               else Setting(base, key, component, field)
  {
  }

  function MergeAll(layers: seq<Mapping>): Option<Mapping> {
    if layers == [] then Some(map[])
    else
      match MergeAll(layers[..|layers| - 1])
      case None => None
      case Some(base) => Merge("eps", base, layers[|layers| - 1])
  }

  /** The last layer that speaks about a setting decides it: a load field has a value after all layers exactly if some
      layer gives it that value and no later layer overrides or clears it. */
  lemma {:induction false} LastLayerWins(layers: seq<Mapping>, key: string, component: string, field: string, v: Value)
    requires key in PartialKeys("eps") && MergeAll(layers).Some?
    ensures Setting(MergeAll(layers).value, key, component, field) == Some(v)
            <==> exists i :: 0 <= i < |layers| && Setting(layers[i], key, component, field) == Some(v)
                             && forall j :: i < j < |layers| ==> !Overrides(layers[j], key, component, field)
  {
    hide Merge;
    if layers != [] {
      var before, last := layers[..|layers| - 1], layers[|layers| - 1];
      LastLayerWins(before, key, component, field, v);
      OneLayer(MergeAll(before).value, last, key, component, field);
      LastDecides(layers, key, component, field, v);
      SetsOverrides(last, key, component, field);
    }
  }

  lemma SetsOverrides(layer: Mapping, key: string, component: string, field: string)
    ensures Setting(layer, key, component, field).Some? ==> Overrides(layer, key, component, field)
  {
  }

  ghost predicate Decided(layers: seq<Mapping>, key: string, component: string, field: string, v: Value) {
    exists i :: 0 <= i < |layers| && Setting(layers[i], key, component, field) == Some(v)
                && forall j :: i < j < |layers| ==> !Overrides(layers[j], key, component, field)
  }

  lemma LastDecides(layers: seq<Mapping>, key: string, component: string, field: string, v: Value)
    requires layers != []
    ensures var last := layers[|layers| - 1];
            Decided(layers, key, component, field, v)
            <==> Setting(last, key, component, field) == Some(v)
                 || (Decided(layers[..|layers| - 1], key, component, field, v)
                     && !Overrides(last, key, component, field))
  {
    hide Setting, Overrides;
    var before, last := layers[..|layers| - 1], layers[|layers| - 1];
    if Decided(layers, key, component, field, v) {
      var i :| 0 <= i < |layers| && Setting(layers[i], key, component, field) == Some(v)
               && forall j :: i < j < |layers| ==> !Overrides(layers[j], key, component, field);
      if i < |before| {
        assert Setting(before[i], key, component, field) == Some(v);
        assert !Overrides(layers[|layers| - 1], key, component, field);
      }
    }
    if Decided(before, key, component, field, v) && !Overrides(last, key, component, field) {
      var i :| 0 <= i < |before| && Setting(before[i], key, component, field) == Some(v)
               && forall j :: i < j < |before| ==> !Overrides(before[j], key, component, field);
      assert Setting(layers[i], key, component, field) == Some(v);
    }
    if Setting(last, key, component, field) == Some(v) {
      assert Setting(layers[|layers| - 1], key, component, field) == Some(v);
    }
  }
}
