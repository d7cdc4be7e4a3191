/** Dotted paths into configuration trees, and the campaign sampling that sets them. */
module TreePath {
  import opened Options

  datatype Value = Null | Leaf(text: string) | List(items: seq<Value>) | Dict(entries: map<string, Value>)

  /** int(segment), where it succeeds. */
  type Parser = string -> Option<int>

  /** A list index as Python resolves it, from the end if negative. */
  function Resolved(parse: Parser, segment: string, size: nat): (i: Option<nat>)
    ensures i.Some? ==> i.value < size
  {
    match parse(segment)
    case None => None
    case Some(n) => if 0 <= n < size then Some(n) else if n < 0 <= size + n then Some(size + n) else None
  }

  function Entry(entries: map<string, Value>, key: string): Value {
    if key in entries then entries[key] else Null
  }

  /** get_path; None for the ValueError. */
  function Get(v: Value, path: seq<string>, parse: Parser): Option<Value>
    decreases |path|
  {
    if path == [] then Some(v)
    else
      match v
      case Null => Some(Null)
      case Leaf(_) => None
      case List(items) =>
        (match Resolved(parse, path[0], |items|)
         case None => None
         case Some(i) => Get(items[i], path[1..], parse))
      case Dict(entries) => Get(Entry(entries, path[0]), path[1..], parse)
  }

  /** The dictionary entry set_path descends into, made if it is missing or null. */
  function Descend(entries: map<string, Value>, key: string): Value {
    if key !in entries || entries[key] == Null then Dict(map[]) else entries[key]
  }

  /** set_path; None for its errors. */
  function Set(v: Value, path: seq<string>, x: Value, parse: Parser): Option<Value>
    requires path != []
    decreases |path|
  {
    match v
    case List(items) =>
      (match Resolved(parse, path[0], |items|)
       case None => None
       case Some(i) =>
         if |path| == 1 then Some(List(items[i := x]))
         else
           match Set(items[i], path[1..], x, parse)
           case None => None
           case Some(child) => Some(List(items[i := child])))
    case Dict(entries) =>
      if |path| == 1 then Some(Dict(entries[path[0] := x]))
      else
        (match Set(Descend(entries, path[0]), path[1..], x, parse)
         case None => None
         case Some(child) => Some(Dict(entries[path[0] := child])))
    case _ => None
  }

  /** The tree set_path leaves behind when it fails: with the dictionaries made until then. */
  function Walked(v: Value, path: seq<string>, parse: Parser): Value
    decreases |path|
  {
    if |path| <= 1 then v
    else
      match v
      case List(items) =>
        (match Resolved(parse, path[0], |items|)
         case None => v
         case Some(i) => List(items[i := Walked(items[i], path[1..], parse)]))
      case Dict(entries) => Dict(entries[path[0] := Walked(Descend(entries, path[0]), path[1..], parse)])
      case _ => v
  }

  // ---------------------------------------------------------------- laws

  /** A list index is a number from -size to size - 1, and its place is the one it is congruent to. */
  lemma ResolvedExactly(parse: Parser, segment: string, size: nat, i: nat)
    ensures Resolved(parse, segment, size) == Some(i) <==>
              && parse(segment).Some? && 0 <= parse(segment).value + size && parse(segment).value < size
              && i < size && (i - parse(segment).value) % size == 0
  {
    if parse(segment).Some? && 0 <= parse(segment).value + size && parse(segment).value < size && i < size {
      var n := parse(segment).value;
      var place := if n >= 0 then n else size + n;
      if (i - n) % size == 0 {
        Congruent(i, place, size);
      }
    }
  }

  lemma Congruent(i: nat, place: nat, size: nat)
    requires i < size && place < size
    ensures (i - place) % size == 0 ==> i == place
    ensures (i - (place - size)) % size == (i - place) % size
  {
    assert i - (place - size) == (i - place) + size;
  }

  /** One segment: an entry, null for a missing one, an element, nothing of null, and no way into a leaf. */
  lemma GetOneStep(v: Value, segment: string, parse: Parser)
    ensures Get(v, [], parse) == Some(v)
    ensures Get(v, [segment], parse) ==
              (match v
               case Null => Some(Null)
               case Leaf(_) => None
               case List(items) =>
                 (match Resolved(parse, segment, |items|) case None => None case Some(i) => Some(items[i]))
               case Dict(entries) => Some(if segment in entries then entries[segment] else Null))
  {
    assert [segment][1..] == [];
  }

  /** And a path is followed segment by segment. */
  lemma {:induction false} GetComposes(v: Value, path: seq<string>, below: seq<string>, parse: Parser)
    ensures Get(v, path + below, parse) ==
              (match Get(v, path, parse) case None => None case Some(w) => Get(w, below, parse))
    decreases |path|
  {
    if path == [] {
      assert path + below == below;
    } else {
      assert (path + below)[0] == path[0] && (path + below)[1..] == path[1..] + below;
      match v
      case Null => GetOfNull(below, parse);
      case Leaf(_) =>
      case List(items) =>
        if Resolved(parse, path[0], |items|).Some? {
          GetComposes(items[Resolved(parse, path[0], |items|).value], path[1..], below, parse);
        }
      case Dict(entries) => GetComposes(Entry(entries, path[0]), path[1..], below, parse);
    }
  }

  lemma GetOfNull(path: seq<string>, parse: Parser)
    ensures Get(Null, path, parse) == Some(Null)
  {
  }

  /** What was set is found, and so is everything below it. */
  lemma {:induction false} GetAfterSet(v: Value, path: seq<string>, x: Value, below: seq<string>, parse: Parser)
    requires path != [] && Set(v, path, x, parse).Some?
    ensures Get(Set(v, path, x, parse).value, path + below, parse) == Get(x, below, parse)
    decreases |path|
  {
    assert (path + below)[0] == path[0] && (path + below)[1..] == path[1..] + below;
    if |path| == 1 {
      assert path[1..] + below == below;
    } else {
      match v
      case List(items) =>
        var i := Resolved(parse, path[0], |items|).value;
        GetAfterSet(items[i], path[1..], x, below, parse);
      case Dict(entries) =>
        GetAfterSet(Descend(entries, path[0]), path[1..], x, below, parse);
    }
  }

  predicate HoldsList(v: Value, path: seq<string>, parse: Parser) {
    Get(v, path, parse).Some? && Get(v, path, parse).value.List?
  }

  /** What the first k segments lead to can not be gone into by the next: a leaf, a list without that place, or a null
      that is no entry of a dictionary. */
  predicate StopsAt(v: Value, path: seq<string>, k: nat, parse: Parser)
    requires k < |path|
  {
    match Get(v, path[..k], parse)
    case None => false
    case Some(Leaf(_)) => true
    case Some(List(items)) => Resolved(parse, path[k], |items|).None?
    case Some(Null) => k == 0 || HoldsList(v, path[..k - 1], parse)
    case Some(Dict(_)) => false
  }

  lemma OneSegmentOn(v: Value, path: seq<string>, w: Value, k: nat, parse: Parser)
    requires k + 1 < |path| && Get(v, [path[0]], parse) == Some(w)
    ensures k > 0 || !w.Null? || v.List? ==> (StopsAt(v, path, k + 1, parse) <==> StopsAt(w, path[1..], k, parse))
    ensures k == 0 && w.Null? && !v.List? ==> !StopsAt(v, path, k + 1, parse)
  {
    hide Get, Resolved;
    assert path[..k + 1] == [path[0]] + path[1..][..k];
    GetComposes(v, [path[0]], path[1..][..k], parse);
    GetOneStep(v, path[0], parse);
    GetOneStep(w, path[0], parse);
    assert path[1..][..0] == [];
    if k > 0 {
      assert path[..k] == [path[0]] + path[1..][..k - 1];
      GetComposes(v, [path[0]], path[1..][..k - 1], parse);
    } else {
      assert path[..k] == [];
    }
  }

  lemma {:induction false} SetInNothing(path: seq<string>, x: Value, parse: Parser)
    requires path != []
    ensures Set(Dict(map[]), path, x, parse).Some?
    decreases |path|
  {
    if |path| > 1 {
      SetInNothing(path[1..], x, parse);
    }
  }

  lemma StopsHere(v: Value, path: seq<string>, parse: Parser)
    requires path != []
    ensures StopsAt(v, path, 0, parse) <==>
              v.Null? || v.Leaf? || (v.List? && Resolved(parse, path[0], |v.items|).None?)
  {
    hide Resolved;
    assert path[..0] == [];
  }

  lemma NullGoesOn(v: Value, path: seq<string>, k: nat, parse: Parser)
    requires k < |path| && v.Null?
    ensures k > 0 ==> !StopsAt(v, path, k, parse)
  {
    GetOfNull(path[..k], parse);
    if k > 0 {
      GetOfNull(path[..k - 1], parse);
    }
  }

  /** set_path fails exactly if its path stops somewhere; so a dictionary is made only where there was nothing. */
  lemma {:induction false} SetFailsExactly(v: Value, path: seq<string>, x: Value, parse: Parser)
    requires path != []
    ensures Set(v, path, x, parse).None? <==> exists k :: 0 <= k < |path| && StopsAt(v, path, k, parse)
    decreases |path|
  {
    hide StopsAt, Resolved, Get;
    StopsHere(v, path, parse);
    if !StopsAt(v, path, 0, parse) && |path| > 1 {
      GetOneStep(v, path[0], parse);
      var w := Get(v, [path[0]], parse).value;
      if v.Dict? && w.Null? {
        SetInNothing(path[1..], x, parse);
        forall k | 0 < k < |path|
          ensures !StopsAt(v, path, k, parse)
        {
          OneSegmentOn(v, path, w, k - 1, parse);
          NullGoesOn(w, path[1..], k - 1, parse);
        }
      } else {
        SetFailsExactly(w, path[1..], x, parse);
        forall k | 0 < k < |path|
          ensures StopsAt(v, path, k, parse) <==> StopsAt(w, path[1..], k - 1, parse)
        {
          OneSegmentOn(v, path, w, k - 1, parse);
        }
        if j :| 0 <= j < |path[1..]| && StopsAt(w, path[1..], j, parse) {
          assert StopsAt(v, path, j + 1, parse);
        }
      }
    }
  }

  /** From the tree on, the two paths come to a node where they go on under different keys, or at different places of a
      list; a place that does not exist is different from any that does. */
  predicate Diverges(v: Value, path: seq<string>, other: seq<string>, parse: Parser)
    decreases |path|
  {
    path != [] && other != [] &&
    match v
    case List(items) =>
      var i, j := Resolved(parse, path[0], |items|), Resolved(parse, other[0], |items|);
      i.Some? && (i != j || Diverges(items[i.value], path[1..], other[1..], parse))
    case Dict(entries) =>
      path[0] != other[0] || Diverges(Descend(entries, path[0]), path[1..], other[1..], parse)
    case _ => false
  }

  lemma GetFromNothing(path: seq<string>, parse: Parser)
    requires path != []
    ensures Get(Dict(map[]), path, parse) == Some(Null) == Get(Null, path, parse)
  {
  }

  /** Nothing beside the path changes, also where setting it made new dictionaries. */
  lemma {:induction false} SetChangesOnlyItsPath(v: Value, path: seq<string>, x: Value, other: seq<string>,
                                                   parse: Parser)
    requires path != [] && Set(v, path, x, parse).Some? && Diverges(v, path, other, parse)
    ensures Get(Set(v, path, x, parse).value, other, parse) == Get(v, other, parse)
    decreases |path|
  {
    match v
    case List(items) =>
      var i, j := Resolved(parse, path[0], |items|), Resolved(parse, other[0], |items|);
      if i == j {
        assert |path| > 1;
        SetChangesOnlyItsPath(items[i.value], path[1..], x, other[1..], parse);
      }
    case Dict(entries) =>
      if path[0] == other[0] {
        assert |path| > 1;
        SetChangesOnlyItsPath(Descend(entries, path[0]), path[1..], x, other[1..], parse);
        GetFromNothing(other[1..], parse);
      }
  }

  /** Setting one path does not bring two others together. */
  lemma {:induction false} StillDiverges(v: Value, path: seq<string>, x: Value, later: seq<string>,
                                           other: seq<string>, parse: Parser)
    requires path != [] && Set(v, path, x, parse).Some?
    requires Diverges(v, path, other, parse) && Diverges(v, later, other, parse)
    ensures Diverges(Set(v, path, x, parse).value, later, other, parse)
    decreases |path|
  {
    match v
    case List(items) =>
      var i, j := Resolved(parse, path[0], |items|), Resolved(parse, other[0], |items|);
      if i == j && Resolved(parse, later[0], |items|) == j {
        assert |path| > 1;
        StillDiverges(items[i.value], path[1..], x, later[1..], other[1..], parse);
      }
    case Dict(entries) =>
      if path[0] == other[0] && later[0] == other[0] {
        assert |path| > 1;
        StillDiverges(Descend(entries, path[0]), path[1..], x, later[1..], other[1..], parse);
        SetIsNotNull(Descend(entries, path[0]), path[1..], x, parse);
      }
  }

  /** Nor does it bring another path together with the one just set. */
  lemma {:induction false} DivergesFromSet(v: Value, path: seq<string>, x: Value, later: seq<string>, parse: Parser)
    requires path != [] && Set(v, path, x, parse).Some? && Diverges(v, later, path, parse)
    ensures Diverges(Set(v, path, x, parse).value, later, path, parse)
    decreases |path|
  {
    match v
    case List(items) =>
      var i := Resolved(parse, path[0], |items|);
      if Resolved(parse, later[0], |items|) == i {
        assert |path| > 1;
        DivergesFromSet(items[i.value], path[1..], x, later[1..], parse);
      }
    case Dict(entries) =>
      if later[0] == path[0] {
        assert |path| > 1;
        DivergesFromSet(Descend(entries, path[0]), path[1..], x, later[1..], parse);
        SetIsNotNull(Descend(entries, path[0]), path[1..], x, parse);
      }
  }

  lemma SetIsNotNull(v: Value, path: seq<string>, x: Value, parse: Parser)
    requires path != [] && Set(v, path, x, parse).Some?
    ensures Set(v, path, x, parse).value != Null
  {
  }

  // ---------------------------------------------------------------- sampling

  datatype Parameter = Parameter(path: seq<string>, additive: bool)

  /** base_value + sample, where both are numbers. */
  type Adder = (Value, Value) -> Option<Value>

  /** The value a trial gets for a parameter; None where get_path or the addition fails. */
  function Swept(base: Value, p: Parameter, sample: Value, parse: Parser, add: Adder): Option<Value> {
    match Get(base, p.path, parse)
    case None => None
    case Some(old_) => if p.additive then add(old_, sample) else Some(sample)
  }

  predicate HavePaths(parameters: seq<Parameter>) {
    forall k :: 0 <= k < |parameters| ==> parameters[k].path != []
  }

  /** One trial, after the first n parameters. */
  function Trial(base: Value, parameters: seq<Parameter>, samples: seq<Value>, n: nat, parse: Parser, add: Adder)
    : Option<Value>
    requires n <= |parameters| <= |samples| && HavePaths(parameters)
  {
    if n == 0 then Some(base)
    else
      match Trial(base, parameters, samples, n - 1, parse, add)
      case None => None
      case Some(v) =>
        match Swept(base, parameters[n - 1], samples[n - 1], parse, add)
        case None => None
        case Some(x) => Set(v, parameters[n - 1].path, x, parse)
  }

  /** A path that diverges from every swept path of the base configuration. */
  predicate Beside(base: Value, parameters: seq<Parameter>, n: nat, other: seq<string>, parse: Parser)
    requires n <= |parameters|
  {
    forall k :: 0 <= k < n ==> Diverges(base, parameters[k].path, other, parse)
  }

  lemma {:induction false} TrialKeepsDivergence(base: Value, parameters: seq<Parameter>, samples: seq<Value>, n: nat,
                                                  later: seq<string>, other: seq<string>, parse: Parser, add: Adder)
    requires n <= |parameters| <= |samples| && HavePaths(parameters)
    requires Trial(base, parameters, samples, n, parse, add).Some? && Beside(base, parameters, n, other, parse)
    requires Diverges(base, later, other, parse)
    ensures Diverges(Trial(base, parameters, samples, n, parse, add).value, later, other, parse)
  {
    hide Diverges, Set, Swept;
    if n > 0 {
      var before := Trial(base, parameters, samples, n - 1, parse, add).value;
      TrialKeepsDivergence(base, parameters, samples, n - 1, later, other, parse, add);
      TrialKeepsDivergence(base, parameters, samples, n - 1, parameters[n - 1].path, other, parse, add);
      StillDiverges(before, parameters[n - 1].path,
                    Swept(base, parameters[n - 1], samples[n - 1], parse, add).value, later, other, parse);
    }
  }

  /** A trial differs from the base configuration on swept paths only. */
  lemma {:induction false} TrialChangesOnlySweptPaths(base: Value, parameters: seq<Parameter>, samples: seq<Value>,
                                                        n: nat, other: seq<string>, parse: Parser, add: Adder)
    requires n <= |parameters| <= |samples| && HavePaths(parameters)
    requires Trial(base, parameters, samples, n, parse, add).Some? && Beside(base, parameters, n, other, parse)
    ensures Get(Trial(base, parameters, samples, n, parse, add).value, other, parse) == Get(base, other, parse)
  {
    hide Diverges, Set, Swept, Get;
    if n > 0 {
      var before := Trial(base, parameters, samples, n - 1, parse, add).value;
      TrialChangesOnlySweptPaths(base, parameters, samples, n - 1, other, parse, add);
      TrialKeepsDivergence(base, parameters, samples, n - 1, parameters[n - 1].path, other, parse, add);
      SetChangesOnlyItsPath(before, parameters[n - 1].path,
                            Swept(base, parameters[n - 1], samples[n - 1], parse, add).value, other, parse);
    }
  }

  lemma {:induction false} TrialKeepsOthers(base: Value, parameters: seq<Parameter>, samples: seq<Value>, n: nat,
                                              k: nat, later: seq<string>, parse: Parser, add: Adder)
    requires n <= |parameters| <= |samples| && HavePaths(parameters) && k < |parameters|
    requires Trial(base, parameters, samples, n, parse, add).Some?
    requires forall j :: 0 <= j < n && j != k ==> Diverges(base, parameters[j].path, parameters[k].path, parse)
    requires Diverges(base, later, parameters[k].path, parse)
    ensures Diverges(Trial(base, parameters, samples, n, parse, add).value, later, parameters[k].path, parse)
    decreases n
  {
    hide Diverges, Set, Swept, Get;
    if n > 0 {
      var before := Trial(base, parameters, samples, n - 1, parse, add).value;
      var path := parameters[n - 1].path;
      var x := Swept(base, parameters[n - 1], samples[n - 1], parse, add).value;
      TrialKeepsOthers(base, parameters, samples, n - 1, k, later, parse, add);
      if n - 1 == k {
        DivergesFromSet(before, path, x, later, parse);
      } else {
        TrialKeepsOthers(base, parameters, samples, n - 1, k, path, parse, add);
        StillDiverges(before, path, x, later, parameters[k].path, parse);
      }
    }
  }

  /** A swept path that the other ones diverge from carries its own value, offset from the base value if additive. */
  lemma {:induction false} TrialCarriesItsValues(base: Value, parameters: seq<Parameter>, samples: seq<Value>, n: nat,
                                                   k: nat, parse: Parser, add: Adder)
    requires k < n <= |parameters| <= |samples| && HavePaths(parameters)
    requires Trial(base, parameters, samples, n, parse, add).Some?
    requires forall j :: 0 <= j < n && j != k ==> Diverges(base, parameters[j].path, parameters[k].path, parse)
    ensures Get(base, parameters[k].path, parse).Some?
    ensures Get(Trial(base, parameters, samples, n, parse, add).value, parameters[k].path, parse)
            == if parameters[k].additive then add(Get(base, parameters[k].path, parse).value, samples[k])
               else Some(samples[k])
    decreases n
  {
    hide Diverges, Set, Get;
    var path := parameters[n - 1].path;
    var before := Trial(base, parameters, samples, n - 1, parse, add).value;
    var x := Swept(base, parameters[n - 1], samples[n - 1], parse, add).value;
    if k == n - 1 {
      GetAfterSet(before, path, x, [], parse);
      GetHere(x, parse);
      assert path + [] == path;
    } else {
      TrialCarriesItsValues(base, parameters, samples, n - 1, k, parse, add);
      TrialKeepsOthers(base, parameters, samples, n - 1, k, path, parse, add);
      SetChangesOnlyItsPath(before, path, x, parameters[k].path, parse);
    }
  }

  lemma GetHere(x: Value, parse: Parser)
    ensures Get(x, [], parse) == Some(x)
  {
  }

  // ---------------------------------------------------------------- the tools

  /** get_path walks down without changing anything. */
  method GetPath(root: Value, path: seq<string>, parse: Parser) returns (r: Option<Value>)
    ensures r == Get(root, path, parse)
  {
    var node := root;
    for k := 0 to |path|
      invariant Get(root, path, parse) == Get(node, path[k..], parse)
    {
      assert path[k..][1..] == path[k + 1..];
      match node {
        case Null =>
          return Some(Null);
        case Leaf(_) =>
          return None;
        case List(items) =>
          var i := Resolved(parse, path[k], |items|);
          if i.None? {
            return None;
          }
          node := items[i.value];
        case Dict(entries) =>
          node := if path[k] in entries then entries[path[k]] else Null;
      }
    }
    r := Some(node);
  }

  /** A node on the way down, and the place in it where the walk went on. */
  datatype Crumb = InList(items: seq<Value>, at: nat) | InDict(entries: map<string, Value>, key: string)

  function Plugged(crumb: Crumb, v: Value): Value {
    match crumb
    case InList(items, at) => if at < |items| then List(items[at := v]) else List(items)
    case InDict(entries, key) => Dict(entries[key := v])
  }

  /** The whole tree around a node that was reached through these crumbs. */
  function Rebuilt(crumbs: seq<Crumb>, v: Value): Value
    decreases |crumbs|
  {
    if crumbs == [] then v else Rebuilt(crumbs[..|crumbs| - 1], Plugged(crumbs[|crumbs| - 1], v))
  }

  function RebuiltIf(crumbs: seq<Crumb>, v: Option<Value>): Option<Value> {
    if v.None? then None else Some(Rebuilt(crumbs, v.value))
  }

  lemma RebuiltHere()
    ensures forall v :: Rebuilt([], v) == v
  {
  }

  lemma RebuiltBelow(crumbs: seq<Crumb>, crumb: Crumb)
    ensures forall v :: Rebuilt(crumbs + [crumb], v) == Rebuilt(crumbs, Plugged(crumb, v))
  {
    assert (crumbs + [crumb])[..|crumbs|] == crumbs;
  }

  /** Where one turn of set_path's loop goes; None where it gives up. */
  function Turn(node: Value, key: string, parse: Parser): Option<(Crumb, Value)> {
    match node
    case List(items) =>
      (match Resolved(parse, key, |items|)
       case None => None
       case Some(i) => Some((InList(items, i), items[i])))
    case Dict(entries) =>
      Some((InDict(entries[key := Descend(entries, key)], key), Descend(entries, key)))
    case _ => None
  }

  lemma StepDown(node: Value, path: seq<string>, x: Value, parse: Parser)
    requires |path| > 1
    ensures match Turn(node, path[0], parse)
            case None => Set(node, path, x, parse) == None && Walked(node, path, parse) == node
            case Some(turn) =>
              && Set(node, path, x, parse) == PluggedIf(turn.0, Set(turn.1, path[1..], x, parse))
              && Walked(node, path, parse) == Plugged(turn.0, Walked(turn.1, path[1..], parse))
  {
    if node.Dict? {
      var child := Descend(node.entries, path[0]);
      PutTwice(node.entries, path[0], child, Walked(child, path[1..], parse));
      if Set(node, path, x, parse).Some? {
        PutTwice(node.entries, path[0], child, Set(child, path[1..], x, parse).value);
      }
    }
  }

  lemma PutTwice(entries: map<string, Value>, key: string, first: Value, then_: Value)
    ensures entries[key := first][key := then_] == entries[key := then_]
  {
  }

  function PluggedIf(crumb: Crumb, v: Option<Value>): Option<Value> {
    if v.None? then None else Some(Plugged(crumb, v.value))
  }

  lemma LastStep(node: Value, path: seq<string>, x: Value, parse: Parser)
    requires |path| == 1
    ensures Walked(node, path, parse) == node
    ensures Set(node, path, x, parse) ==
              (match node
               case List(items) =>
                 (match Resolved(parse, path[0], |items|)
                  case None => None
                  case Some(i) => Some(List(items[i := x])))
               case Dict(entries) => Some(Dict(entries[path[0] := x]))
               case _ => None)
  {
  }

  /** The tree of one trial, changed in place. */
  class Tree {
    var root: Value

    constructor (root: Value)
      ensures this.root == root
    {
      this.root := root;
    }

    /** set_path: the loop walks down, making missing dictionaries on the way, and then assigns to the last node. On an
        error the dictionaries it has made stay behind. */
    method SetPath(path: seq<string>, value: Value, parse: Parser) returns (ok: bool)
      requires path != []
      modifies this
      ensures match Set(old(root), path, value, parse)
              case None => !ok && root == Walked(old(root), path, parse)
              case Some(next) => ok && root == next
    {
      hide Set, Walked, Rebuilt;
      var node := root;
      var crumbs: seq<Crumb> := [];
      RebuiltHere();
      assert path[0..] == path;
      for k := 0 to |path| - 1
        invariant root == old(root)
        invariant Set(root, path, value, parse) == RebuiltIf(crumbs, Set(node, path[k..], value, parse))
        invariant Walked(root, path, parse) == Rebuilt(crumbs, Walked(node, path[k..], parse))
      {
        StepDown(node, path[k..], value, parse);
        assert path[k..][1..] == path[k + 1..];
        match node {
          case Null =>
            Replant(crumbs, node);
            return false;
          case Leaf(_) =>
            Replant(crumbs, node);
            return false;
          case List(items) =>
            var i := Resolved(parse, path[k], |items|);
            if i.None? {
              Replant(crumbs, node);
              return false;
            }
            RebuiltBelow(crumbs, InList(items, i.value));
            crumbs, node := crumbs + [InList(items, i.value)], items[i.value];
          case Dict(entries) =>
            var made := entries;
            if path[k] !in made || made[path[k]] == Null {
              made := made[path[k] := Dict(map[])];
            }
            assert made == entries[path[k] := Descend(entries, path[k])];
            RebuiltBelow(crumbs, InDict(made, path[k]));
            crumbs, node := crumbs + [InDict(made, path[k])], made[path[k]];
        }
      }
      var last := path[|path| - 1];
      LastStep(node, path[|path| - 1..], value, parse);
      match node {
        case Null =>
          ok := false;
        case Leaf(_) =>
          ok := false;
        case List(items) =>
          var i := Resolved(parse, last, |items|);
          ok := i.Some?;
          if ok {
            node := List(items[i.value := value]);
          }
        case Dict(entries) =>
          ok := true;
          node := Dict(entries[last := value]);
      }
      Replant(crumbs, node);
    }

    /** Hangs a changed node back into the tree it was reached through. */
    method Replant(crumbs: seq<Crumb>, node: Value)
      modifies this
      ensures root == Rebuilt(crumbs, node)
    {
      root := node;
      assert crumbs[..|crumbs|] == crumbs;
      for k := |crumbs| downto 0
        invariant Rebuilt(crumbs[..k], root) == Rebuilt(crumbs, node)
      {
        assert crumbs[..k + 1][..k] == crumbs[..k];
        root := Plugged(crumbs[k], root);
      }
    }
  }

  /** sample_trials: every trial starts from a copy of the base configuration and sets its parameters in order;
      `samples[t]` are the draws of trial t. None for the first error. */
  method SampleTrials(base: Value, parameters: seq<Parameter>, samples: seq<seq<Value>>, parse: Parser, add: Adder)
      returns (trials: Option<seq<Value>>)
    requires HavePaths(parameters) && forall t :: 0 <= t < |samples| ==> |samples[t]| == |parameters|
    ensures trials.Some? ==>
              |trials.value| == |samples|
              && forall t :: 0 <= t < |samples| ==>
                   Trial(base, parameters, samples[t], |parameters|, parse, add) == Some(trials.value[t])
    ensures trials.None? ==>
              exists t :: 0 <= t < |samples| && Trial(base, parameters, samples[t], |parameters|, parse, add).None?
  {
    hide Get, Set;
    var done: seq<Value> := [];
    for t := 0 to |samples|
      invariant |done| == t
      invariant forall u :: 0 <= u < t ==>
                  Trial(base, parameters, samples[u], |parameters|, parse, add) == Some(done[u])
    {
      var resolved := new Tree(base);
      for k := 0 to |parameters|
        invariant fresh(resolved)
        invariant Trial(base, parameters, samples[t], k, parse, add) == Some(resolved.root)
      {
        var sample := samples[t][k];
        var baseValue := GetPath(base, parameters[k].path, parse);
        var value := if baseValue.None? then None
                     else if parameters[k].additive then add(baseValue.value, sample) else Some(sample);
        var ok := false;
        if value.Some? {
          ok := resolved.SetPath(parameters[k].path, value.value, parse);
        }
        if !ok {
          TrialFails(base, parameters, samples[t], k + 1, parse, add);
          return None;
        }
      }
      done := done + [resolved.root];
    }
    trials := Some(done);
  }

  lemma {:induction false} TrialFails(base: Value, parameters: seq<Parameter>, samples: seq<Value>, n: nat,
                                        parse: Parser, add: Adder)
    requires n <= |parameters| <= |samples| && HavePaths(parameters)
    requires Trial(base, parameters, samples, n, parse, add).None?
    ensures Trial(base, parameters, samples, |parameters|, parse, add).None?
    decreases |parameters| - n
  {
    if n < |parameters| {
      assert Trial(base, parameters, samples, n + 1, parse, add).None?;
      TrialFails(base, parameters, samples, n + 1, parse, add);
    }
  }
}
