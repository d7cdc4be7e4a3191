/** The cascade of limit layers: later layers win, null removes. A layer maps parameters to levels, a level's bounds
    are replaced as a whole, so their type is left open. */
module LimitMerge {
  import opened Options

  /** What a layer says about one parameter: null, something that is no mapping, or levels of which each may be null. */
  datatype Spec<V> = Null | NotAMapping | Levels(levels: map<string, Option<V>>)

  /** A layer, unless it is empty or absent; NotALayer is any other value that is no mapping. */
  datatype Layer<V> = NoLayer | NotALayer | Layer(specs: map<string, Spec<V>>)

  type Merged<V> = map<string, map<string, V>>

  predicate WellFormed<V(==)>(layer: Layer<V>) {
    layer.NoLayer? || (layer.Layer? && forall p :: p in layer.specs ==> !layer.specs[p].NotAMapping?)
  }

  function LevelsOf<V>(merged: Merged<V>, p: string): map<string, V> {
    if p in merged then merged[p] else map[]
  }

  /** The levels of one parameter after a spec for it. */
  function Overlaid<V>(current: map<string, V>, levels: map<string, Option<V>>): map<string, V> {
    map l | l in current.Keys + levels.Keys && (l in levels ==> levels[l].Some?) ::
      if l in levels then levels[l].value else current[l]
  }

  function After<V>(current: map<string, V>, spec: Spec<V>): map<string, V> {
    match spec
    case Levels(levels) => Overlaid(current, levels)
    case _ => map[]
  }

  function With<V>(merged: Merged<V>, p: string, levels: map<string, V>): Merged<V> {
    if levels == map[] then merged - {p} else merged[p := levels]
  }

  /** One layer over what has been merged so far. */
  function Over<V>(merged: Merged<V>, layer: Layer<V>): (r: Merged<V>) {
    if layer.Layer?
    then map p | p in merged.Keys + layer.specs.Keys
                 && (p in layer.specs ==> After(LevelsOf(merged, p), layer.specs[p]) != map[]) ::
           if p in layer.specs then After(LevelsOf(merged, p), layer.specs[p]) else merged[p]
    else merged
  }

  /** merge_limits; None for the LimitError. */
  function Merge<V(==)>(layers: seq<Layer<V>>): Option<Merged<V>> {
    if layers == [] then Some(map[])
    else
      match Merge(layers[..|layers| - 1])
      case None => None
      case Some(merged) => if WellFormed(layers[|layers| - 1]) then Some(Over(merged, layers[|layers| - 1])) else None
  }

  // ---------------------------------------------------------------- the loops

  /** The levels of a spec in any order. */
  method MergeSpec<V>(merged: Merged<V>, p: string, levels: map<string, Option<V>>) returns (r: Merged<V>)
    ensures r == With(merged, p, Overlaid(LevelsOf(merged, p), levels))
  {
    hide Overlaid;
    var current := if p in merged then merged[p] else map[];
    var todo := levels;
    while todo.Keys != {}
      invariant Overlaid(current, todo) == Overlaid(LevelsOf(merged, p), levels)
      decreases |todo.Keys|
    {
      var level :| level in todo;
      var bounds := todo[level];
      OneLevel(current, todo, level);
      todo := todo - {level};
      if bounds.None? {
        current := current - {level};
      } else {
        current := current[level := bounds.value];
      }
    }
    NoLevels(current, todo);
    r := merged[p := current];
    if current == map[] {
      r := r - {p};
      assert r == merged - {p};
    }
  }

  lemma OneLevel<V>(current: map<string, V>, todo: map<string, Option<V>>, l: string)
    requires l in todo
    ensures (todo - {l}).Keys == todo.Keys - {l}
    ensures Overlaid(current, todo)
            == Overlaid(if todo[l].Some? then current[l := todo[l].value] else current - {l}, todo - {l})
  {
  }

  lemma NoLevels<V>(current: map<string, V>, todo: map<string, Option<V>>)
    requires todo.Keys == {}
    ensures Overlaid(current, todo) == current
  {
  }

  /** The specs of a layer in any order; each touches its own parameter only. */
  method MergeLayer<V>(merged: Merged<V>, specs: map<string, Spec<V>>) returns (r: Option<Merged<V>>)
    ensures r == if WellFormed(Layer(specs)) then Some(Over(merged, Layer(specs))) else None
  {
    hide Over, With, After;
    var current := merged;
    var todo := specs;
    while todo.Keys != {}
      invariant WellFormed(Layer(specs)) <==> WellFormed(Layer(todo))
      invariant Over(current, Layer(todo)) == Over(merged, Layer(specs))
      decreases |todo.Keys|
    {
      var p :| p in todo;
      var spec := todo[p];
      OneSpec(current, todo, p);
      todo := todo - {p};
      match spec {
        case Null =>
          Emptied(current, p, spec);
          current := current - {p};
        case NotAMapping =>
          return None;
        case Levels(levels) =>
          AfterLevels(current, p, levels);
          current := MergeSpec(current, p, levels);
      }
    }
    NoSpecs(current, todo);
    r := Some(current);
  }

  lemma Emptied<V>(current: Merged<V>, p: string, spec: Spec<V>)
    requires spec.Null?
    ensures With(current, p, After(LevelsOf(current, p), spec)) == current - {p}
  {
  }

  lemma AfterLevels<V>(current: Merged<V>, p: string, levels: map<string, Option<V>>)
    ensures After(LevelsOf(current, p), Levels(levels)) == Overlaid(LevelsOf(current, p), levels)
  {
  }

  lemma OneSpec<V>(current: Merged<V>, todo: map<string, Spec<V>>, p: string)
    requires p in todo
    ensures (todo - {p}).Keys == todo.Keys - {p}
    ensures WellFormed(Layer(todo)) <==> !todo[p].NotAMapping? && WellFormed(Layer(todo - {p}))
    ensures Over(current, Layer(todo))
            == Over(With(current, p, After(LevelsOf(current, p), todo[p])), Layer(todo - {p}))
  {
    hide After, With, LevelsOf;
    var levels := After(LevelsOf(current, p), todo[p]);
    var next := With(current, p, levels);
    WithAt(current, p, levels);
    var x, y := Over(current, Layer(todo)), Over(next, Layer(todo - {p}));
    forall q
      ensures q in x <==> q in y
      ensures q in x && q in y ==> x[q] == y[q]
    {
    }
    assert x == y;
  }

  lemma WithAt<V>(merged: Merged<V>, p: string, levels: map<string, V>)
    ensures var next := With(merged, p, levels);
            && (p in next <==> levels != map[]) && (p in next ==> next[p] == levels)
            && (forall q :: q != p ==> (q in next <==> q in merged) && LevelsOf(next, q) == LevelsOf(merged, q)
                                       && (q in merged ==> next[q] == merged[q]))
  {
  }

  lemma NoSpecs<V>(current: Merged<V>, todo: map<string, Spec<V>>)
    requires todo.Keys == {}
    ensures Over(current, Layer(todo)) == current && WellFormed(Layer(todo))
  {
  }

  method MergeLimits<V>(layers: seq<Layer<V>>) returns (r: Option<Merged<V>>)
    ensures r == Merge(layers)
  {
    hide Over, WellFormed;
    var merged: Merged<V> := map[];
    for i := 0 to |layers|
      invariant Merge(layers[..i]) == Some(merged)
    {
      assert layers[..i + 1][..i] == layers[..i];
      match layers[i] {
        case NoLayer =>
          NothingOver(merged, layers[i]);
        case NotALayer =>
          NothingOver(merged, layers[i]);
          StaysRefused(layers, i + 1);
          return None;
        case Layer(specs) =>
          var next := MergeLayer(merged, specs);
          if next.None? {
            StaysRefused(layers, i + 1);
            return None;
          }
          merged := next.value;
      }
    }
    assert layers[..|layers|] == layers;
    r := Some(merged);
  }

  lemma NothingOver<V>(merged: Merged<V>, layer: Layer<V>)
    requires !layer.Layer?
    ensures Over(merged, layer) == merged && (WellFormed(layer) <==> layer.NoLayer?)
  {
  }

  lemma {:induction false} StaysRefused<V>(layers: seq<Layer<V>>, n: nat)
    requires n <= |layers| && Merge(layers[..n]).None?
    ensures Merge(layers).None?
    decreases |layers|
  {
    if n < |layers| {
      assert layers[..|layers| - 1][..n] == layers[..n];
      StaysRefused(layers[..|layers| - 1], n);
    } else {
      assert layers[..n] == layers;
    }
  }

  /** A layer that is neither empty nor a mapping, or that has a parameter whose value is neither null nor a mapping. */
  predicate IsMalformed<V>(layer: Layer<V>) {
    layer.NotALayer? || (layer.Layer? && exists p :: p in layer.specs && layer.specs[p].NotAMapping?)
  }

  /** The merge is refused exactly if some layer is malformed, also one that a later layer would override. */
  lemma {:induction false} RefusedExactly<V>(layers: seq<Layer<V>>)
    ensures Merge(layers).None? <==> exists i :: 0 <= i < |layers| && IsMalformed(layers[i])
  {
    hide Over;
    if layers != [] {
      var n := |layers| - 1;
      RefusedExactly(layers[..n]);
      assert forall i :: 0 <= i < n ==> layers[..n][i] == layers[i];
      assert WellFormed(layers[n]) <==> !IsMalformed(layers[n]);
    }
  }

  // ---------------------------------------------------------------- which bounds survive

  /** The layer gives this level of this parameter these bounds. */
  predicate Sets<V(==)>(layer: Layer<V>, p: string, l: string, v: V) {
    layer.Layer? && p in layer.specs && layer.specs[p].Levels? && l in layer.specs[p].levels
    && layer.specs[p].levels[l] == Some(v)
  }

  /** The layer nulls the parameter or mentions the level at all. */
  predicate Touches<V>(layer: Layer<V>, p: string, l: string) {
    layer.Layer? && p in layer.specs && (layer.specs[p].Null? || (layer.specs[p].Levels? && l in layer.specs[p].levels))
  }

  predicate Holds<V(==)>(merged: Merged<V>, p: string, l: string, v: V) {
    p in merged && l in merged[p] && merged[p][l] == v
  }

  lemma OverHolds<V>(merged: Merged<V>, layer: Layer<V>, p: string, l: string, v: V)
    requires WellFormed(layer)
    ensures Holds(Over(merged, layer), p, l, v)
            <==> Sets(layer, p, l, v) || (Holds(merged, p, l, v) && !Touches(layer, p, l))
  {
    if layer.Layer? && p in layer.specs {
      var after := After(LevelsOf(merged, p), layer.specs[p]);
      if l in after {
        assert after != map[];
      }
    }
  }

  /** No parameter is left without levels. */
  predicate NoEmptyEntry<V>(merged: Merged<V>) {
    forall p :: p in merged ==> merged[p].Keys != {}
  }

  /** Bounds survive the cascade exactly if some layer set them and no later layer nulls the parameter or mentions the
      level; and no empty entry remains. */
  lemma {:induction false} SurvivesExactly<V>(layers: seq<Layer<V>>, p: string, l: string, v: V)
    requires Merge(layers).Some?
    ensures NoEmptyEntry(Merge(layers).value)
    ensures Holds(Merge(layers).value, p, l, v)
            <==> exists i :: 0 <= i < |layers| && Sets(layers[i], p, l, v)
                             && forall j :: i < j < |layers| ==> !Touches(layers[j], p, l)
  {
    hide Over, WellFormed;
    if layers != [] {
      var before, last := layers[..|layers| - 1], layers[|layers| - 1];
      SurvivesExactly(before, p, l, v);
      var merged := Merge(before).value;
      OverHolds(merged, last, p, l, v);
      OverNoEmpty(merged, last);
      LastSurvivor(layers, p, l, v);
    }
  }

  lemma OverNoEmpty<V>(merged: Merged<V>, layer: Layer<V>)
    requires NoEmptyEntry(merged)
    ensures NoEmptyEntry(Over(merged, layer))
  {
    forall p | p in Over(merged, layer)
      ensures Over(merged, layer)[p].Keys != {}
    {
      assert Over(merged, layer)[p] != map[];
    }
  }

  ghost predicate Survivor<V>(layers: seq<Layer<V>>, p: string, l: string, v: V) {
    exists i :: 0 <= i < |layers| && Sets(layers[i], p, l, v)
                && forall j :: i < j < |layers| ==> !Touches(layers[j], p, l)
  }

  lemma LastSurvivor<V>(layers: seq<Layer<V>>, p: string, l: string, v: V)
    requires layers != []
    ensures var last := layers[|layers| - 1];
            Survivor(layers, p, l, v)
            <==> Sets(last, p, l, v) || (Survivor(layers[..|layers| - 1], p, l, v) && !Touches(last, p, l))
  {
    hide Sets, Touches;
    var before, last := layers[..|layers| - 1], layers[|layers| - 1];
    if Survivor(layers, p, l, v) {
      var i :| 0 <= i < |layers| && Sets(layers[i], p, l, v)
               && forall j :: i < j < |layers| ==> !Touches(layers[j], p, l);
      if i < |before| {
        assert Sets(before[i], p, l, v);
        assert !Touches(layers[|layers| - 1], p, l);
      }
    }
    if Survivor(before, p, l, v) && !Touches(last, p, l) {
      var i :| 0 <= i < |before| && Sets(before[i], p, l, v)
               && forall j :: i < j < |before| ==> !Touches(before[j], p, l);
      assert Sets(layers[i], p, l, v);
    }
    if Sets(last, p, l, v) {
      assert Sets(layers[|layers| - 1], p, l, v);
    }
  }

  // ---------------------------------------------------------------- merging in stages

  function AsSpec<V>(levels: map<string, V>): Spec<V> {
    Levels(map l | l in levels :: Some(levels[l]))
  }

  /** A merged mapping, used as a layer itself. */
  function AsLayer<V>(merged: Merged<V>): Layer<V> {
    Layer(map p | p in merged :: AsSpec(merged[p]))
  }

  lemma OverNothing<V>(merged: Merged<V>)
    requires NoEmptyEntry(merged)
    ensures WellFormed(AsLayer(merged)) && Over(map[], AsLayer(merged)) == merged
  {
    var layer := AsLayer(merged);
    forall p | p in merged
      ensures After(LevelsOf<V>(map[], p), layer.specs[p]) == merged[p] && merged[p] != map[]
    {
      assert merged[p].Keys != {};
      assert Overlaid(map[], AsSpec(merged[p]).levels) == merged[p];
    }
  }

  /** Merging a prefix first and using the result as the first layer of the rest changes nothing. */
  lemma {:induction false} MergesInStages<V>(layers: seq<Layer<V>>, more: seq<Layer<V>>)
    requires Merge(layers).Some?
    ensures Merge([AsLayer(Merge(layers).value)] + more) == Merge(layers + more)
    decreases |more|
  {
    hide Over, WellFormed, AsLayer;
    var merged := Merge(layers).value;
    if more == [] {
      NeverEmpty(layers);
      OverNothing(merged);
      var one := [AsLayer(merged)];
      assert one + more == one && layers + more == layers && one[..0] == [];
    } else {
      var init := more[..|more| - 1];
      MergesInStages(layers, init);
      assert (layers + more)[..|layers + more| - 1] == layers + init;
      assert ([AsLayer(merged)] + more)[..|more|] == [AsLayer(merged)] + init;
    }
  }

  lemma {:induction false} NeverEmpty<V>(layers: seq<Layer<V>>)
    requires Merge(layers).Some?
    ensures NoEmptyEntry(Merge(layers).value)
  {
    hide Over, WellFormed;
    if layers != [] {
      NeverEmpty(layers[..|layers| - 1]);
      OverNoEmpty(Merge(layers[..|layers| - 1]).value, layers[|layers| - 1]);
    }
  }
}
