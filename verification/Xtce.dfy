/** Limits in XTCE documents: a limited parameter gets its own copy of its type, with the alarm ranges. A document is
    the tree of its space systems, with the parameter types and parameters each declares. */
module Xtce {
  import opened Options
  import opened Text
  import opened LimitRanges

  /** The children of a type: alarms, context alarms, anything else. */
  datatype Item = DefaultAlarm(limits: Limits) | ContextAlarmList(text: string) | OtherItem(text: string)

  datatype TypeDef = TypeDef(kind: string, name: Option<string>, items: seq<Item>)
  datatype Parameter = Parameter(name: Option<string>, typeRef: Option<string>)

  datatype System = System(name: Option<string>, types: Option<seq<TypeDef>>, parameters: Option<seq<Parameter>>,
                           children: seq<System>)

  const NUMERIC_TYPES: set<string> := {"IntegerParameterType", "FloatParameterType"}

  // ---------------------------------------------------------------- lookup

  /** Where a name comes first, or the number of names. */
  function First(names: seq<Option<string>>, name: Option<string>): (i: nat)
    ensures i <= |names| && (i < |names| ==> names[i] == name)
    ensures forall k :: 0 <= k < i ==> names[k] != name
  {
    if names == [] || names[0] == name then 0 else 1 + First(names[1..], name)
  }

  /** The first child with a name, or the number of children. */
  function ChildAt(children: seq<System>, name: string): (i: nat)
    ensures i <= |children| && (i < |children| ==> children[i].name == Some(name))
    ensures forall k :: 0 <= k < i ==> children[k].name != Some(name)
  {
    var names := seq(|children|, k requires 0 <= k < |children| => children[k].name);
    assert forall k :: 0 <= k < |children| ==> names[k] == children[k].name;
    First(names, Some(name))
  }

  /** The system below `system` that is reached by these names. */
  function Below(system: System, names: seq<string>): Option<System>
    decreases |names|
  {
    if names == [] then Some(system)
    else
      var i := ChildAt(system.children, names[0]);
      if i == |system.children| then None else Below(system.children[i], names[1..])
  }

  function NamesOf(types: seq<TypeDef>): (r: seq<Option<string>>)
    ensures |r| == |types| && forall k :: 0 <= k < |r| ==> r[k] == types[k].name
  {
    seq(|types|, k requires 0 <= k < |types| => types[k].name)
  }

  function TypeAt(types: seq<TypeDef>, name: Option<string>): (i: nat)
    ensures i <= |types| && (i < |types| ==> types[i].name == name)
    ensures forall k :: 0 <= k < i ==> types[k].name != name
  {
    assert forall k :: 0 <= k < |types| ==> NamesOf(types)[k] == types[k].name;
    First(NamesOf(types), name)
  }

  function ParameterAt(parameters: seq<Parameter>, name: string): (i: nat)
    ensures i <= |parameters| && (i < |parameters| ==> parameters[i].name == Some(name))
    ensures forall k :: 0 <= k < i ==> parameters[k].name != Some(name)
  {
    var names := seq(|parameters|, k requires 0 <= k < |parameters| => parameters[k].name);
    assert forall k :: 0 <= k < |parameters| ==> names[k] == parameters[k].name;
    First(names, Some(name))
  }

  /** path.strip("/").split("/") */
  function Segments(path: string): (names: seq<string>)
    ensures names != []
  {
    Split(StripSlashes(path), '/')
  }

  function StripSlashes(s: string): string
    decreases |s|
  {
    if s != "" && s[0] == '/' then StripSlashes(s[1..])
    else if s != "" && s[|s| - 1] == '/' then StripSlashes(s[..|s| - 1])
    else s
  }

  /** The systems on the way to a parameter: all segments but the first, which names the root, and the last. */
  function Middle(names: seq<string>): seq<string>
    requires names != []
  {
    if |names| == 1 then [] else names[1..|names| - 1]
  }

  function OwnerOf(root: System, names: seq<string>): Option<System>
    requires names != []
  {
    if root.name != Some(names[0]) then None else Below(root, Middle(names))
  }

  /** locate_parameter: the owning system and the place of the parameter in it. */
  function Locate(root: System, names: seq<string>): (r: Option<(System, nat)>)
    requires names != []
    ensures r.Some? ==> r.value.0.parameters.Some? && r.value.1 < |r.value.0.parameters.value|
  {
    match OwnerOf(root, names)
    case None => None
    case Some(owner) =>
      if owner.parameters.None? then None
      else
        var i := ParameterAt(owner.parameters.value, names[|names| - 1]);
        if i == |owner.parameters.value| then None else Some((owner, i))
  }

  /** The type a parameter resolves to: the first of that name in its own system. */
  function Resolve(root: System, names: seq<string>): Option<TypeDef>
    requires names != []
  {
    match Locate(root, names)
    case None => None
    case Some((owner, i)) =>
      if owner.types.None? then None
      else
        var t := TypeAt(owner.types.value, owner.parameters.value[i].typeRef);
        if t == |owner.types.value| then None else Some(owner.types.value[t])
  }

  lemma {:induction false} LastPart(s: string)
    requires s != "" && s[|s| - 1] == '/'
    ensures var parts := Split(s, '/'); parts[|parts| - 1] == ""
  {
    if |s| > 1 {
      LastPart(s[1..]);
    } else {
      assert s[1..] == "";
    }
  }

  /** A qualified name, as normalize_limits demands it, is a path, and its segments are those between its slashes. */
  lemma QualifiedIsPath(path: string)
    requires IsQualified(path)
    ensures Segments(path) == Split(path, '/')[1..] && IsPath(Segments(path))
  {
    var parts := Split(path, '/');
    assert path[0] == '/' && Split(path[1..], '/') == parts[1..];
    var rest := path[1..];
    assert parts[1] != "" && parts[|parts| - 1] != "";
    if rest[|rest| - 1] == '/' {
      LastPart(rest);
    }
    assert rest[0] != '/';
    assert StripSlashes(path) == StripSlashes(rest) == rest;
  }

  // ---------------------------------------------------------------- the limited copy

  function Shown(name: Option<string>): string {
    if name.Some? then name.value else "None"
  }

  /** "<type>_<parameter>_Limits" */
  function LimitedName(typeRef: Option<string>, parameter: string): string {
    Shown(typeRef) + "_" + parameter + "_Limits"
  }

  function WithoutAlarms(items: seq<Item>): (r: seq<Item>)
    ensures forall k :: 0 <= k < |r| ==> !r[k].DefaultAlarm?
  {
    if items == [] then []
    else (if items[0].DefaultAlarm? then [] else [items[0]]) + WithoutAlarms(items[1..])
  }

  /** Before the first context alarms, or at the end. */
  function InsertAlarm(items: seq<Item>, alarm: Item): seq<Item> {
    if items == [] || items[0].ContextAlarmList? then [alarm] + items else [items[0]] + InsertAlarm(items[1..], alarm)
  }

  function LimitedCopy(original: TypeDef, name: string, limits: Limits): TypeDef {
    TypeDef(original.kind, Some(name), InsertAlarm(WithoutAlarms(original.items), DefaultAlarm(limits)))
  }

  /** The alarm stands here: behind everything but context alarms. */
  predicate AlarmAt(copy: seq<Item>, at: nat, limits: Limits) {
    && at < |copy| && copy[at] == DefaultAlarm(limits)
    && (forall k :: 0 <= k < at ==> !copy[k].ContextAlarmList?)
    && (at + 1 < |copy| ==> copy[at + 1].ContextAlarmList?)
  }

  /** Alarms aside, the copy has the items of the original in order; it has one alarm, in its place. */
  lemma {:induction false} CopyDiffersInAlarmOnly(items: seq<Item>, limits: Limits) returns (at: nat)
    requires forall k :: 0 <= k < |items| ==> !items[k].DefaultAlarm?
    ensures WithoutAlarms(InsertAlarm(items, DefaultAlarm(limits))) == items
    ensures AlarmAt(InsertAlarm(items, DefaultAlarm(limits)), at, limits)
    decreases |items|
  {
    var copy := InsertAlarm(items, DefaultAlarm(limits));
    if items == [] || items[0].ContextAlarmList? {
      at := 0;
      NoAlarms(items);
      assert copy[1..] == items;
    } else {
      var before := CopyDiffersInAlarmOnly(items[1..], limits);
      at := before + 1;
      assert copy[1..] == InsertAlarm(items[1..], DefaultAlarm(limits));
      AlarmBehind(items[0], copy[1..], before, limits);
      assert [items[0]] + copy[1..] == copy && [items[0]] + items[1..] == items;
    }
  }

  /** The place of the first context alarms, or the end. */
  function AlarmPlace(items: seq<Item>): (at: nat)
    ensures at <= |items| && (at < |items| ==> items[at].ContextAlarmList?)
    ensures forall k :: 0 <= k < at ==> !items[k].ContextAlarmList?
  {
    if items == [] || items[0].ContextAlarmList? then 0 else 1 + AlarmPlace(items[1..])
  }

  lemma {:induction false} InsertedAtPlace(items: seq<Item>, alarm: Item)
    ensures InsertAlarm(items, alarm) == items[..AlarmPlace(items)] + [alarm] + items[AlarmPlace(items)..]
  {
    var at := AlarmPlace(items);
    if at == 0 {
      assert items[..0] == [] && items[0..] == items;
    } else {
      var rest := items[1..];
      InsertedAtPlace(rest, alarm);
      assert items[..at] == [items[0]] + rest[..at - 1];
      assert items[at..] == rest[at - 1..];
    }
  }

  lemma AlarmBehind(first: Item, rest: seq<Item>, at: nat, limits: Limits)
    requires AlarmAt(rest, at, limits) && !first.ContextAlarmList?
    ensures AlarmAt([first] + rest, at + 1, limits)
  {
  }

  lemma {:induction false} NoAlarms(items: seq<Item>)
    requires forall k :: 0 <= k < |items| ==> !items[k].DefaultAlarm?
    ensures WithoutAlarms(items) == items
  {
    if items != [] {
      NoAlarms(items[1..]);
    }
  }

  /** How many items before place k are no alarms. */
  function KeptBefore(items: seq<Item>, k: nat): nat
    requires k <= |items|
  {
    if k == 0 then 0 else KeptBefore(items, k - 1) + if items[k - 1].DefaultAlarm? then 0 else 1
  }

  lemma {:induction false} KeptBehindFirst(items: seq<Item>, k: nat)
    requires 0 < k <= |items|
    ensures KeptBefore(items, k) == (if items[0].DefaultAlarm? then 0 else 1) + KeptBefore(items[1..], k - 1)
  {
    if k > 1 {
      KeptBehindFirst(items, k - 1);
      assert items[1..][k - 2] == items[k - 1];
    }
  }

  /** All items but the alarms are kept, in their order. */
  lemma {:induction false} ItemsAreKept(items: seq<Item>)
    ensures |WithoutAlarms(items)| == KeptBefore(items, |items|)
    ensures forall k :: 0 <= k < |items| && !items[k].DefaultAlarm? ==>
              KeptBefore(items, k) < |WithoutAlarms(items)| && WithoutAlarms(items)[KeptBefore(items, k)] == items[k]
  {
    if items != [] {
      ItemsAreKept(items[1..]);
      KeptBehindFirst(items, |items|);
      forall k | 0 <= k < |items| && !items[k].DefaultAlarm?
        ensures KeptBefore(items, k) < |WithoutAlarms(items)| && WithoutAlarms(items)[KeptBefore(items, k)] == items[k]
      {
        if k > 0 {
          KeptBehindFirst(items, k);
          assert items[1..][k - 1] == items[k];
        }
      }
    }
  }

  /** The copy has the kind of the original and the generated name; its items are those of the original in order, without
      any alarms, and the new alarm among them: behind everything but context alarms. */
  lemma CopyIs(original: TypeDef, name: string, limits: Limits) returns (at: nat)
    ensures var (copy, kept) := (LimitedCopy(original, name, limits), WithoutAlarms(original.items));
            && copy.kind == original.kind && copy.name == Some(name)
            && |kept| == KeptBefore(original.items, |original.items|)
            && (forall k :: 0 <= k < |original.items| && !original.items[k].DefaultAlarm? ==>
                  KeptBefore(original.items, k) < |kept|
                  && kept[KeptBefore(original.items, k)] == original.items[k])
            && at <= |kept| && copy.items == kept[..at] + [DefaultAlarm(limits)] + kept[at..]
            && AlarmAt(copy.items, at, limits)
  {
    ItemsAreKept(original.items);
    var kept := WithoutAlarms(original.items);
    at := AlarmPlace(kept);
    InsertedAtPlace(kept, DefaultAlarm(limits));
  }

  // ---------------------------------------------------------------- where names lead

  /** From a system down, each name leads to the first child that has it. */
  ghost predicate Leads(system: System, names: seq<string>, owner: System)
    decreases |names|
  {
    if names == [] then owner == system
    else
      exists i :: 0 <= i < |system.children| && system.children[i].name == Some(names[0])
                  && (forall k :: 0 <= k < i ==> system.children[k].name != Some(names[0]))
                  && Leads(system.children[i], names[1..], owner)
  }

  lemma {:induction false} BelowLeads(system: System, names: seq<string>, owner: System)
    ensures Leads(system, names, owner) <==> Below(system, names) == Some(owner)
    decreases |names|
  {
    if names != [] {
      var i := ChildAt(system.children, names[0]);
      if i < |system.children| {
        BelowLeads(system.children[i], names[1..], owner);
      }
    }
  }

  /** A path names a parameter exactly if it begins with the name of the root, leads on to a system, and ends with the
      name of a parameter there; of several the first is meant. */
  lemma LocatedExactly(root: System, names: seq<string>, owner: System, i: nat)
    requires IsPath(names)
    ensures Locate(root, names) == Some((owner, i)) <==>
              && root.name == Some(names[0]) && Leads(root, names[1..|names| - 1], owner)
              && owner.parameters.Some? && i < |owner.parameters.value|
              && owner.parameters.value[i].name == Some(names[|names| - 1])
              && forall k :: 0 <= k < i ==> owner.parameters.value[k].name != Some(names[|names| - 1])
  {
    BelowLeads(root, names[1..|names| - 1], owner);
    if owner.parameters.Some? {
      var at := ParameterAt(owner.parameters.value, names[|names| - 1]);
      if i < |owner.parameters.value| && owner.parameters.value[i].name == Some(names[|names| - 1])
         && forall k :: 0 <= k < i ==> owner.parameters.value[k].name != Some(names[|names| - 1]) {
        ParameterAtIs(owner.parameters.value, names[|names| - 1], i);
      }
    }
  }

  /** And its type is the first one of the referenced name in the same system. */
  lemma ResolvedExactly(root: System, names: seq<string>, original: TypeDef)
    requires IsPath(names)
    ensures Resolve(root, names) == Some(original) <==>
              && Locate(root, names).Some?
              && var (owner, i) := Locate(root, names).value;
                 && owner.types.Some?
                 && exists t :: 0 <= t < |owner.types.value| && owner.types.value[t] == original
                                && original.name == owner.parameters.value[i].typeRef
                                && forall k :: 0 <= k < t ==>
                                     owner.types.value[k].name != owner.parameters.value[i].typeRef
  {
    if Locate(root, names).Some? && Locate(root, names).value.0.types.Some? {
      var (owner, i) := Locate(root, names).value;
      var types, name := owner.types.value, owner.parameters.value[i].typeRef;
      if t :| 0 <= t < |types| && types[t] == original && original.name == name
              && forall k :: 0 <= k < t ==> types[k].name != name {
        TypeAtIs(types, name, t);
      }
    }
  }

  // ---------------------------------------------------------------- editing the tree

  /** The same tree with other types and parameters in the system reached by these names. */
  function Edited(system: System, names: seq<string>, types: Option<seq<TypeDef>>, parameters: Option<seq<Parameter>>)
    : (r: System)
    ensures r.name == system.name
    decreases |names|
  {
    if names == [] then system.(types := types, parameters := parameters)
    else
      var i := ChildAt(system.children, names[0]);
      if i == |system.children| then system
      else system.(children := system.children[i := Edited(system.children[i], names[1..], types, parameters)])
  }

  datatype Outcome = NotHere | Refused | Limited(root: System)

  /** limit_parameter: not in this document, a LimitError, or the edited document. */
  function Limit(root: System, names: seq<string>, limits: Limits): (r: Outcome)
    requires names != []
  {
    match Locate(root, names)
    case None => NotHere
    case Some((owner, i)) =>
      var parameter := owner.parameters.value[i];
      if owner.types.None? then Refused
      else
        var types := owner.types.value;
        var t := TypeAt(types, parameter.typeRef);
        if t == |types| || types[t].kind !in NUMERIC_TYPES then Refused
        else
          var name := LimitedName(parameter.typeRef, parameter.name.value);
          var copy := LimitedCopy(types[t], name, limits);
          Limited(Edited(root, Middle(names), Some(types[..t + 1] + [copy] + types[t + 1..]),
                         Some(owner.parameters.value[i := parameter.(typeRef := Some(name))])))
  }

  // ---------------------------------------------------------------- what an edit leaves alone

  lemma ChildAtSame(children: seq<System>, other: seq<System>, name: string)
    requires |children| == |other| && forall k :: 0 <= k < |children| ==> children[k].name == other[k].name
    ensures ChildAt(children, name) == ChildAt(other, name)
  {
  }

  /** Two systems that declare the same types and parameters, or neither exists. */
  predicate SameDeclarations(a: Option<System>, b: Option<System>) {
    a.Some? == b.Some? && (a.Some? ==> a.value.types == b.value.types && a.value.parameters == b.value.parameters)
  }

  /** Editing one system changes the declarations of that system only. */
  lemma {:induction false} EditIsLocal(system: System, names: seq<string>, types: Option<seq<TypeDef>>,
                                         parameters: Option<seq<Parameter>>, other: seq<string>)
    ensures var next := Edited(system, names, types, parameters);
            if other == names && Below(system, names).Some?
            then Below(next, other).Some? && Below(next, other).value.types == types
                 && Below(next, other).value.parameters == parameters
            else SameDeclarations(Below(next, other), Below(system, other))
    decreases |names|
  {
    var next := Edited(system, names, types, parameters);
    if names != [] && other != [] {
      var i := ChildAt(system.children, names[0]);
      if i < |system.children| {
        ChildAtSame(system.children, next.children, other[0]);
        EditIsLocal(system.children[i], names[1..], types, parameters, other[1..]);
        assert names == [names[0]] + names[1..] && other == [other[0]] + other[1..];
        var j := ChildAt(system.children, other[0]);
        if j == i {
          assert system.children[i].name == Some(names[0]) == Some(other[0]);
        } else {
          assert names[0] != other[0];
        }
      }
    }
  }

  // ---------------------------------------------------------------- all limits

  predicate IsPath(names: seq<string>) {
    |names| >= 2
  }

  datatype Entry = Entry(path: seq<string>, limits: Limits)

  /** apply_limits, one limit after the other: the document, and which of them applied; None for a LimitError. */
  function ApplyAll(root: System, entries: seq<Entry>): (r: Option<(System, set<seq<string>>)>)
    requires forall k :: 0 <= k < |entries| ==> IsPath(entries[k].path)
    decreases |entries|
  {
    if entries == [] then Some((root, {}))
    else
      assert IsPath(entries[0].path);
      match Limit(root, entries[0].path, entries[0].limits)
      case Refused => None
      case NotHere => ApplyAll(root, entries[1..])
      case Limited(next) =>
        match ApplyAll(next, entries[1..])
        case None => None
        case Some((last, applied)) => Some((last, applied + {entries[0].path}))
  }

  lemma TypeAtIs(types: seq<TypeDef>, name: Option<string>, t: nat)
    requires t <= |types| && (t < |types| ==> types[t].name == name)
    requires forall k :: 0 <= k < t ==> types[k].name != name
    ensures TypeAt(types, name) == t
  {
  }

  lemma ParameterAtIs(parameters: seq<Parameter>, name: string, i: nat)
    requires i <= |parameters| && (i < |parameters| ==> parameters[i].name == Some(name))
    requires forall k :: 0 <= k < i ==> parameters[k].name != Some(name)
    ensures ParameterAt(parameters, name) == i
  {
  }

  // ---------------------------------------------------------------- the document

  function Adding(r: Option<(System, set<seq<string>>)>, done: set<seq<string>>): Option<(System, set<seq<string>>)> {
    if r.Some? then Some((r.value.0, r.value.1 + done)) else None
  }

  lemma AddingNone(r: Option<(System, set<seq<string>>)>)
    ensures Adding(r, {}) == r
  {
    if r.Some? {
      assert r.value.1 + {} == r.value.1;
    }
  }

  lemma AddingOne(r: Option<(System, set<seq<string>>)>, done: set<seq<string>>, path: seq<string>)
    ensures Adding(Adding(r, {path}), done) == Adding(r, done + {path})
  {
    if r.Some? {
      assert (r.value.1 + {path}) + done == r.value.1 + (done + {path});
    }
  }

  /** The element tree that limit_parameter edits in place. */
  class Document {
    var root: System

    constructor (root: System)
      ensures this.root == root
    {
      this.root := root;
    }

    /** None for the LimitError, in which case nothing has been edited. */
    method LimitParameter(names: seq<string>, limits: Limits) returns (r: Option<bool>)
      requires names != []
      modifies this
      ensures match Limit(old(root), names, limits)
              case Refused => r == None && root == old(root)
              case NotHere => r == Some(false) && root == old(root)
              case Limited(next) => r == Some(true) && root == next
    {
      var found := Locate(root, names);
      if found.None? {
        return Some(false);
      }
      var (owner, i) := found.value;
      var parameter := owner.parameters.value[i];
      var types := if owner.types.Some? then owner.types.value else [];
      var t := 0;
      while t < |types| && types[t].name != parameter.typeRef
        invariant t <= |types| && forall k :: 0 <= k < t ==> types[k].name != parameter.typeRef
      {
        t := t + 1;
      }
      TypeAtIs(types, parameter.typeRef, t);
      if t == |types| || types[t].kind !in NUMERIC_TYPES {
        return None;
      }
      var copy := TypeDef(types[t].kind, Some(LimitedName(parameter.typeRef, parameter.name.value)),
                          InsertAlarm(WithoutAlarms(types[t].items), DefaultAlarm(limits)));
      root := Edited(root, Middle(names), Some(types[..t + 1] + [copy] + types[t + 1..]),
                     Some(owner.parameters.value[i := parameter.(typeRef := copy.name)]));
      r := Some(true);
    }

    /** The limits in the order they come; a LimitError leaves the document half edited, but it is then dropped. */
    method ApplyLimits(entries: seq<Entry>) returns (applied: Option<set<seq<string>>>)
      requires forall k :: 0 <= k < |entries| ==> IsPath(entries[k].path)
      modifies this
      ensures applied.None? <==> ApplyAll(old(root), entries).None?
      ensures applied.Some? ==> ApplyAll(old(root), entries) == Some((root, applied.value))
    {
      hide Limit;
      var done: set<seq<string>> := {};
      AddingNone(ApplyAll(root, entries[0..]));
      assert entries[0..] == entries;
      for k := 0 to |entries|
        invariant ApplyAll(old(root), entries) == Adding(ApplyAll(root, entries[k..]), done)
      {
        assert entries[k..][1..] == entries[k + 1..];
        var limited := LimitParameter(entries[k].path, entries[k].limits);
        if limited.None? {
          return None;
        }
        if limited.value {
          AddingOne(ApplyAll(root, entries[k + 1..]), done, entries[k].path);
          done := done + {entries[k].path};
        }
      }
      applied := Some(done);
    }
  }
}
