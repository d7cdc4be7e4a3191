/** What limiting does to a document: exactly when a limit gives its parameter its own type and leaves every other
    parameter alone, for one limit and for any list of them in any order. */
module XtceTheorems {
  import opened Options
  import opened LimitRanges
  import opened Xtce

  // ---------------------------------------------------------------- one space system

  /** The types and parameters of a space system. */
  datatype Decl = Decl(types: Option<seq<TypeDef>>, parameters: Option<seq<Parameter>>)

  function FindParameter(d: Decl, last: string): Option<nat> {
    if d.parameters.None? then None
    else
      var i := ParameterAt(d.parameters.value, last);
      if i == |d.parameters.value| then None else Some(i)
  }

  function FindType(types: seq<TypeDef>, name: Option<string>): Option<TypeDef> {
    var t := TypeAt(types, name);
    if t == |types| then None else Some(types[t])
  }

  function ResolveIn(d: Decl, last: string): Option<TypeDef> {
    match FindParameter(d, last)
    case None => None
    case Some(i) => if d.types.None? then None else FindType(d.types.value, d.parameters.value[i].typeRef)
  }

  /** The edit limit_parameter makes: the parameter i gets a copy of the type at t under a generated name. */
  datatype Edit = Edit(types: seq<TypeDef>, parameters: seq<Parameter>, i: nat, t: nat, name: string, copy: TypeDef)

  predicate Fits(e: Edit) {
    && e.t < |e.types| && e.i < |e.parameters| && e.copy.name == Some(e.name)
    && e.t == TypeAt(e.types, e.parameters[e.i].typeRef)
    && e.parameters[e.i].name.Some? && e.i == ParameterAt(e.parameters, e.parameters[e.i].name.value)
  }

  function EditIn(d: Decl, last: string, limits: Limits): (e: Option<Edit>)
    ensures e.Some? ==> Fits(e.value)
  {
    match FindParameter(d, last)
    case None => None
    case Some(i) =>
      if d.types.None? then None
      else
        var types, parameters := d.types.value, d.parameters.value;
        var t := TypeAt(types, parameters[i].typeRef);
        if t == |types| || types[t].kind !in NUMERIC_TYPES then None
        else
          var name := LimitedName(parameters[i].typeRef, last);
          Some(Edit(types, parameters, i, t, name, LimitedCopy(types[t], name, limits)))
  }

  function NextTypes(e: Edit): seq<TypeDef>
    requires Fits(e)
  {
    e.types[..e.t + 1] + [e.copy] + e.types[e.t + 1..]
  }

  function NextParameters(e: Edit): seq<Parameter>
    requires Fits(e)
  {
    e.parameters[e.i := e.parameters[e.i].(typeRef := Some(e.name))]
  }

  function After(e: Edit): Decl
    requires Fits(e)
  {
    Decl(Some(NextTypes(e)), Some(NextParameters(e)))
  }

  /** The first type that already has the generated name. */
  function Present(e: Edit): (u: nat)
    ensures u <= |e.types|
  {
    TypeAt(e.types, Some(e.name))
  }

  /** The generated name is taken by a type that is the copy already. */
  predicate IsCopy(e: Edit) {
    Present(e) < |e.types| && e.types[Present(e)] == e.copy
  }

  /** A parameter that its name leads to. */
  predicate Addressed(parameters: seq<Parameter>, j: nat)
    requires j < |parameters|
  {
    parameters[j].name.Some? && ParameterAt(parameters, parameters[j].name.value) == j
  }

  predicate Unreferenced(e: Edit) {
    forall j :: 0 <= j < |e.parameters| && j != e.i && Addressed(e.parameters, j) ==>
      e.parameters[j].typeRef != Some(e.name)
  }

  /** What can be checked before the edit: the generated name is taken by the very copy, or it is taken, if at all, only
      behind the original type and by no other parameter. */
  predicate ClearEdit(e: Edit) {
    IsCopy(e) || (Present(e) > e.t && Unreferenced(e))
  }

  lemma NextAt(e: Edit, k: nat)
    requires Fits(e)
    ensures |NextTypes(e)| == |e.types| + 1
    ensures k <= e.t ==> NextTypes(e)[k] == e.types[k]
    ensures k == e.t + 1 ==> NextTypes(e)[k] == e.copy
    ensures e.t + 1 < k <= |e.types| ==> NextTypes(e)[k] == e.types[k - 1]
  {
  }

  /** Where a name is found once the copy is in. */
  lemma ShiftedPlace(e: Edit, name: Option<string>)
    requires Fits(e)
    ensures var before, after := TypeAt(e.types, name), TypeAt(NextTypes(e), name);
            after == if before <= e.t then before else if name == e.copy.name then e.t + 1 else before + 1
  {
    hide NextTypes, TypeAt;
    NextAt(e, 0);
    var next, before := NextTypes(e), TypeAt(e.types, name);
    var after := if before <= e.t then before else if name == e.copy.name then e.t + 1 else before + 1;
    forall k | 0 <= k < after
      ensures next[k].name != name
    {
      NextAt(e, k);
    }
    if after < |next| {
      NextAt(e, after);
    }
    TypeAtIs(next, name, after);
  }

  lemma ShiftedType(e: Edit, name: Option<string>)
    requires Fits(e)
    ensures FindType(NextTypes(e), name)
            == if name == e.copy.name && Present(e) > e.t then Some(e.copy) else FindType(e.types, name)
  {
    hide NextTypes, TypeAt;
    ShiftedPlace(e, name);
    NextAt(e, TypeAt(NextTypes(e), name));
  }

  lemma SamePlaces(e: Edit, name: string)
    requires Fits(e)
    ensures ParameterAt(NextParameters(e), name) == ParameterAt(e.parameters, name)
  {
    ParameterAtIs(NextParameters(e), name, ParameterAt(e.parameters, name));
  }

  /** What a parameter of the system resolves to after the edit. */
  lemma ResolvedAfter(d: Decl, last: string, limits: Limits, e: Edit, other: string)
    requires EditIn(d, last, limits) == Some(e)
    ensures d.types == Some(e.types) && d.parameters == Some(e.parameters) && FindParameter(d, last) == Some(e.i)
    ensures FindParameter(After(e), other) == FindParameter(d, other)
    ensures other != last && FindParameter(d, other).Some? ==>
              FindParameter(d, other).value != e.i
              && NextParameters(e)[FindParameter(d, other).value] == e.parameters[FindParameter(d, other).value]
    ensures ResolveIn(After(e), last)
            == if Present(e) > e.t then Some(e.copy) else Some(e.types[Present(e)])
    ensures other != last ==>
              ResolveIn(After(e), other)
              == if FindParameter(d, other).Some? && Present(e) > e.t
                    && e.parameters[FindParameter(d, other).value].typeRef == Some(e.name)
                 then Some(e.copy) else ResolveIn(d, other)
  {
    hide LimitedCopy, LimitedName;
    SamePlaces(e, other);
    SamePlaces(e, last);
    ShiftedType(e, Some(e.name));
    if other != last && FindParameter(d, other).Some? {
      ShiftedType(e, e.parameters[FindParameter(d, other).value].typeRef);
    }
  }

  /** A clear edit, and only a clear edit, gives its parameter the copy and every other one what it had. */
  lemma ClearEditExactly(d: Decl, last: string, limits: Limits, e: Edit)
    requires EditIn(d, last, limits) == Some(e)
    ensures ClearEdit(e) <==>
            ResolveIn(After(e), last) == Some(e.copy)
            && forall other :: other != last ==> ResolveIn(After(e), other) == ResolveIn(d, other)
  {
    hide LimitedCopy, LimitedName, ResolveIn;
    ResolvedAfter(d, last, limits, e, last);
    forall other | other != last
      ensures ClearEdit(e) ==> ResolveIn(After(e), other) == ResolveIn(d, other)
    {
      if ClearEdit(e) {
        ClearForOther(d, last, limits, e, other);
      }
    }
    if !IsCopy(e) && Present(e) > e.t && !Unreferenced(e) {
      var j :| 0 <= j < |e.parameters| && j != e.i && Addressed(e.parameters, j)
               && e.parameters[j].typeRef == Some(e.name);
      var other := e.parameters[j].name.value;
      ReferenceIsLost(d, last, limits, e, j, other);
    }
  }

  lemma ClearForOther(d: Decl, last: string, limits: Limits, e: Edit, other: string)
    requires EditIn(d, last, limits) == Some(e) && ClearEdit(e) && other != last
    ensures ResolveIn(After(e), other) == ResolveIn(d, other)
  {
    hide LimitedCopy, LimitedName;
    ResolvedAfter(d, last, limits, e, other);
  }

  lemma ReferenceIsLost(d: Decl, last: string, limits: Limits, e: Edit, j: nat, other: string)
    requires EditIn(d, last, limits) == Some(e) && !IsCopy(e) && Present(e) > e.t
    requires j < |e.parameters| && j != e.i && Addressed(e.parameters, j) && e.parameters[j].typeRef == Some(e.name)
    requires other == e.parameters[j].name.value
    ensures other != last && ResolveIn(After(e), other) != ResolveIn(d, other)
  {
    hide LimitedCopy, LimitedName;
    ResolvedAfter(d, last, limits, e, other);
  }

  /** A second limit in the same system is as clear after the first as it was before, if the two generate different
      names or the same copy. */
  lemma StaysClear(d: Decl, a: string, aLimits: Limits, e: Edit, b: string, bLimits: Limits, f: Edit)
    requires a != b && EditIn(d, a, aLimits) == Some(e) && EditIn(d, b, bLimits) == Some(f)
    requires ClearEdit(e) && ClearEdit(f) && (e.name == f.name ==> e.copy == f.copy)
    ensures var g := EditIn(After(e), b, bLimits);
            g.Some? && g.value.name == f.name && g.value.copy == f.copy && ClearEdit(g.value)
  {
    hide EditIn, NextTypes, TypeAt, LimitedCopy, LimitedName, IsCopy, Unreferenced;
    SecondEdit(d, a, aLimits, e, b, bLimits, f);
    var g := EditIn(After(e), b, bLimits).value;
    if e.name == f.name || IsCopy(f) {
      StaysCopy(e, f, g);
    } else {
      StillBehind(e, f, g);
      StillUnreferenced(e, f, g);
    }
  }

  lemma StaysCopy(e: Edit, f: Edit, g: Edit)
    requires Fits(e) && Fits(f) && e.types == f.types && g.types == NextTypes(e)
    requires g.name == f.name && g.copy == f.copy && ClearEdit(e)
    requires if e.name == f.name then e.copy == f.copy else IsCopy(f)
    ensures IsCopy(g)
  {
    hide NextTypes, Unreferenced;
    ShiftedType(e, Some(f.name));
  }

  lemma StillBehind(e: Edit, f: Edit, g: Edit)
    requires Fits(e) && Fits(f) && e.types == f.types && g.types == NextTypes(e)
    requires g.name == f.name && e.name != f.name && Present(f) > f.t
    requires g.t == TypeAt(NextTypes(e), f.parameters[f.i].typeRef)
    ensures Present(g) > g.t
  {
    hide NextTypes;
    ShiftedPlace(e, Some(f.name));
    ShiftedPlace(e, f.parameters[f.i].typeRef);
  }

  lemma SecondEdit(d: Decl, a: string, aLimits: Limits, e: Edit, b: string, bLimits: Limits, f: Edit)
    requires a != b && EditIn(d, a, aLimits) == Some(e) && EditIn(d, b, bLimits) == Some(f) && ClearEdit(e)
    ensures var g := EditIn(After(e), b, bLimits);
            g == Some(Edit(NextTypes(e), NextParameters(e), f.i, TypeAt(NextTypes(e), f.parameters[f.i].typeRef),
                           f.name, f.copy))
    ensures f.types == e.types && f.parameters == e.parameters && f.i != e.i
  {
    hide LimitedCopy, LimitedName;
    ResolvedAfter(d, a, aLimits, e, b);
    ClearForOther(d, a, aLimits, e, b);
  }

  lemma StillUnreferenced(e: Edit, f: Edit, g: Edit)
    requires Fits(e) && Fits(f) && e.types == f.types && e.parameters == f.parameters && e.name != f.name
    requires g.parameters == NextParameters(e) && g.i == f.i && g.name == f.name && f.i != e.i
    requires Unreferenced(f)
    ensures Unreferenced(g)
  {
    forall j | 0 <= j < |g.parameters| && j != g.i && Addressed(g.parameters, j)
      ensures g.parameters[j].typeRef != Some(g.name)
    {
      SamePlaces(e, g.parameters[j].name.value);
      if j != e.i {
        assert Addressed(f.parameters, j);
      }
    }
  }

  // ---------------------------------------------------------------- whole documents

  function Last(path: seq<string>): string
    requires path != []
  {
    path[|path| - 1]
  }

  /** What the system that should own a parameter declares. */
  function DeclOf(root: System, path: seq<string>): Option<Decl>
    requires path != []
  {
    match OwnerOf(root, path)
    case None => None
    case Some(owner) => Some(Decl(owner.types, owner.parameters))
  }

  predicate SameSystem(p: seq<string>, q: seq<string>)
    requires p != [] && q != []
  {
    p[0] == q[0] && Middle(p) == Middle(q)
  }

  /** The edit a limit makes, if it is applied. */
  function EditOf(root: System, path: seq<string>, limits: Limits): (e: Option<Edit>)
    requires path != []
    ensures e.Some? ==> Fits(e.value)
  {
    match DeclOf(root, path)
    case None => None
    case Some(d) => EditIn(d, Last(path), limits)
  }

  /** Lookups in the tree are lookups in the owner's declarations. */
  lemma LooksInOwner(root: System, path: seq<string>)
    requires path != []
    ensures Locate(root, path).Some?
            <==> DeclOf(root, path).Some? && FindParameter(DeclOf(root, path).value, Last(path)).Some?
    ensures Resolve(root, path)
            == if DeclOf(root, path).None? then None else ResolveIn(DeclOf(root, path).value, Last(path))
  {
  }

  lemma LimitIsEdit(root: System, path: seq<string>, limits: Limits)
    requires path != []
    ensures Limit(root, path, limits).Limited? <==> EditOf(root, path, limits).Some?
    ensures Limit(root, path, limits).Limited? ==>
              var e := EditOf(root, path, limits).value;
              Limit(root, path, limits).root
              == Edited(root, Middle(path), Some(NextTypes(e)), Some(NextParameters(e)))
  {
    hide LimitedCopy, Edited, LimitedName;
  }

  lemma SamePath(p: seq<string>, q: seq<string>)
    requires IsPath(p) && IsPath(q) && SameSystem(p, q) && Last(p) == Last(q)
    ensures p == q
  {
    assert p == [p[0]] + Middle(p) + [Last(p)];
    assert q == [q[0]] + Middle(q) + [Last(q)];
  }

  /** A limit edits the declarations of its own system and no other. */
  lemma NextDecl(root: System, p: seq<string>, limits: Limits, q: seq<string>)
    requires IsPath(p) && IsPath(q) && Limit(root, p, limits).Limited?
    ensures EditOf(root, p, limits).Some?
    ensures DeclOf(Limit(root, p, limits).root, q)
            == if SameSystem(p, q) then Some(After(EditOf(root, p, limits).value)) else DeclOf(root, q)
    ensures SameSystem(p, q) ==> DeclOf(root, q) == DeclOf(root, p)
  {
    hide LimitedCopy, Edited, LimitedName, NextTypes, NextParameters, EditIn;
    LimitIsEdit(root, p, limits);
    var e := EditOf(root, p, limits).value;
    EditIsLocal(root, Middle(p), Some(NextTypes(e)), Some(NextParameters(e)), Middle(q));
  }

  /** The name the copy for this parameter would get. */
  function NameFor(root: System, path: seq<string>): string
    requires path != [] && Locate(root, path).Some?
  {
    var (owner, i) := Locate(root, path).value;
    LimitedName(owner.parameters.value[i].typeRef, Last(path))
  }

  /** It is made of the names of its type and of the parameter itself; a type without a name counts as None by name. */
  lemma NameIs(root: System, path: seq<string>)
    requires IsPath(path) && Locate(root, path).Some? && Resolve(root, path).Some?
    ensures var name := Resolve(root, path).value.name;
            NameFor(root, path) == (if name.Some? then name.value else "None") + "_" + path[|path| - 1] + "_Limits"
  {
  }

  lemma EditParts(root: System, path: seq<string>, limits: Limits)
    requires path != [] && EditOf(root, path, limits).Some?
    ensures Locate(root, path).Some? && Resolve(root, path).Some?
    ensures var e := EditOf(root, path, limits).value;
            && e.name == NameFor(root, path)
            && e.copy == LimitedCopy(Resolve(root, path).value, NameFor(root, path), limits)
  {
    hide LimitedCopy, LimitedName;
  }

  /** Whether a limit is clear, as far as the document before it shows. */
  predicate Clear(root: System, path: seq<string>, limits: Limits)
    requires path != []
  {
    EditOf(root, path, limits).Some? ==> ClearEdit(EditOf(root, path, limits).value)
  }

  /** One limit does right, giving its parameter a copy of its type and leaving every other parameter with its own,
      if and only if it is clear. */
  lemma RightExactlyIfClear(root: System, path: seq<string>, limits: Limits)
    requires IsPath(path) && Limit(root, path, limits).Limited?
    ensures Locate(root, path).Some? && Resolve(root, path).Some?
    ensures var next := Limit(root, path, limits).root;
            Clear(root, path, limits) <==>
            && Resolve(next, path) == Some(LimitedCopy(Resolve(root, path).value, NameFor(root, path), limits))
            && forall q :: IsPath(q) && q != path ==> Resolve(next, q) == Resolve(root, q)
  {
    hide LimitedCopy, LimitedName, Limit, Resolve, ResolveIn, EditIn, ClearEdit, Locate, NameFor;
    LimitIsEdit(root, path, limits);
    EditParts(root, path, limits);
    var next, e, d := Limit(root, path, limits).root, EditOf(root, path, limits).value, DeclOf(root, path).value;
    ClearEditExactly(d, Last(path), limits, e);
    NextDecl(root, path, limits, path);
    LooksInOwner(next, path);
    forall q | IsPath(q) && q != path
      ensures Resolve(next, q)
              == if SameSystem(path, q) then ResolveIn(After(e), Last(q)) else Resolve(root, q)
      ensures SameSystem(path, q) ==> Last(q) != Last(path) && Resolve(root, q) == ResolveIn(d, Last(q))
    {
      NextDecl(root, path, limits, q);
      LooksInOwner(next, q);
      LooksInOwner(root, q);
      if SameSystem(path, q) && Last(q) == Last(path) {
        SamePath(path, q);
      }
    }
    forall other | other != Last(path)
      ensures (forall q :: IsPath(q) && q != path ==> Resolve(next, q) == Resolve(root, q)) ==>
                ResolveIn(After(e), other) == ResolveIn(d, other)
    {
      var q := path[|path| - 1 := other];
      Sibling(path, other);
      assert Resolve(next, q) == ResolveIn(After(e), other);
    }
  }

  lemma Sibling(path: seq<string>, other: string)
    requires IsPath(path) && other != Last(path)
    ensures var q := path[|path| - 1 := other]; IsPath(q) && q != path && SameSystem(path, q) && Last(q) == other
  {
    var q := path[|path| - 1 := other];
    assert Last(q) == other && Last(path) != other;
    assert Middle(q) == Middle(path);
  }

  // ---------------------------------------------------------------- lists of limits

  /** Its type is in the same system and numeric. */
  predicate Limitable(root: System, path: seq<string>)
    requires path != []
  {
    Locate(root, path).Some? ==>
      Resolve(root, path).Some? && Resolve(root, path).value.kind in {"IntegerParameterType", "FloatParameterType"}
  }

  lemma RefusedExactly(root: System, path: seq<string>, limits: Limits)
    requires path != []
    ensures Limit(root, path, limits).Refused? <==> !Limitable(root, path)
    ensures Limit(root, path, limits).NotHere? <==> Locate(root, path).None?
    ensures Locate(root, path).None? ==> Resolve(root, path).None?
  {
    hide LimitedCopy, Edited, LimitedName;
  }

  /** Two limits that would give the same name in one system give the same copy. */
  predicate Agree(root: System, a: Entry, b: Entry)
    requires IsPath(a.path) && IsPath(b.path)
  {
    var e, f := EditOf(root, a.path, a.limits), EditOf(root, b.path, b.limits);
    e.Some? && f.Some? && SameSystem(a.path, b.path) && e.value.name == f.value.name ==> e.value.copy == f.value.copy
  }

  /** What can be checked before any limit is applied: each is clear by itself, and any two agree. */
  ghost predicate Compatible(root: System, entries: seq<Entry>) {
    && (forall k :: 0 <= k < |entries| ==> IsPath(entries[k].path) && Clear(root, entries[k].path, entries[k].limits))
    && (forall j, k :: 0 <= j < k < |entries| ==>
          entries[j].path != entries[k].path && Agree(root, entries[j], entries[k]))
  }

  /** After a clear limit another one makes the same edit and is as clear as before. */
  lemma ClearAfter(root: System, a: Entry, b: Entry)
    requires IsPath(a.path) && IsPath(b.path) && a.path != b.path && Limit(root, a.path, a.limits).Limited?
    requires Clear(root, a.path, a.limits) && Clear(root, b.path, b.limits) && Agree(root, a, b)
    ensures var e, f := EditOf(Limit(root, a.path, a.limits).root, b.path, b.limits), EditOf(root, b.path, b.limits);
            && e.Some? == f.Some?
            && (e.Some? ==> e.value.name == f.value.name && e.value.copy == f.value.copy && ClearEdit(e.value))
  {
    hide LimitedCopy, LimitedName, Limit, EditIn, ClearEdit, ResolveIn;
    LimitIsEdit(root, a.path, a.limits);
    NextDecl(root, a.path, a.limits, b.path);
    if SameSystem(a.path, b.path) {
      if Last(a.path) == Last(b.path) {
        SamePath(a.path, b.path);
      }
      var d, e := DeclOf(root, a.path).value, EditOf(root, a.path, a.limits).value;
      ResolvedAfter(d, Last(a.path), a.limits, e, Last(b.path));
      ClearForOther(d, Last(a.path), a.limits, e, Last(b.path));
      EditedExactly(d, Last(b.path), b.limits);
      EditedExactly(After(e), Last(b.path), b.limits);
      if EditOf(root, b.path, b.limits).Some? {
        StaysClear(d, Last(a.path), a.limits, e, Last(b.path), b.limits, EditOf(root, b.path, b.limits).value);
      }
    }
  }

  lemma EditedExactly(d: Decl, last: string, limits: Limits)
    ensures EditIn(d, last, limits).Some?
            <==> FindParameter(d, last).Some? && ResolveIn(d, last).Some? && ResolveIn(d, last).value.kind in NUMERIC_TYPES
  {
  }

  lemma StaysCompatible(root: System, entries: seq<Entry>, next: System)
    requires entries != [] && Compatible(root, entries) && IsPath(entries[0].path)
    requires next == root || Limit(root, entries[0].path, entries[0].limits) == Limited(next)
    ensures Compatible(next, entries[1..])
  {
    hide Limit, EditOf, ClearEdit, Locate;
    var first, rest := entries[0], entries[1..];
    forall k | 0 <= k < |rest|
      ensures IsPath(rest[k].path) && Clear(next, rest[k].path, rest[k].limits)
      ensures var e, f := EditOf(next, rest[k].path, rest[k].limits), EditOf(root, rest[k].path, rest[k].limits);
              e.Some? == f.Some? && (e.Some? ==> e.value.name == f.value.name && e.value.copy == f.value.copy)
    {
      assert rest[k] == entries[k + 1];
      if next != root {
        assert Agree(root, entries[0], entries[k + 1]);
        ClearAfter(root, first, rest[k]);
      }
    }
    forall j, k | 0 <= j < k < |rest|
      ensures rest[j].path != rest[k].path && Agree(next, rest[j], rest[k])
    {
      assert rest[j] == entries[j + 1] && rest[k] == entries[k + 1];
      assert Agree(root, entries[j + 1], entries[k + 1]);
    }
  }

  /** The limits given for a path, if it is there. */
  function LimitsFor(entries: seq<Entry>, path: seq<string>): Option<Limits> {
    if entries == [] then None
    else if entries[0].path == path then Some(entries[0].limits)
    else LimitsFor(entries[1..], path)
  }

  /** What a parameter should resolve to once all limits are applied. */
  function Expected(root: System, entries: seq<Entry>, path: seq<string>): Option<TypeDef>
    requires path != []
  {
    if LimitsFor(entries, path).Some? && Resolve(root, path).Some? && Locate(root, path).Some?
    then Some(LimitedCopy(Resolve(root, path).value, NameFor(root, path), LimitsFor(entries, path).value))
    else Resolve(root, path)
  }

  lemma {:induction false} NoLimitsFor(entries: seq<Entry>, path: seq<string>)
    requires forall k :: 0 <= k < |entries| ==> entries[k].path != path
    ensures LimitsFor(entries, path) == None
  {
    if entries != [] {
      NoLimitsFor(entries[1..], path);
    }
  }

  lemma FirstCompatible(root: System, entries: seq<Entry>)
    requires entries != [] && Compatible(root, entries)
    ensures IsPath(entries[0].path) && Clear(root, entries[0].path, entries[0].limits)
    ensures forall k :: 0 <= k < |entries| ==> IsPath(entries[k].path)
    ensures LimitsFor(entries[1..], entries[0].path) == None
  {
    NoLimitsFor(entries[1..], entries[0].path);
  }

  /** A path other than the limited one keeps its place and its generated name. */
  lemma KeepsName(root: System, p: seq<string>, limits: Limits, q: seq<string>)
    requires IsPath(p) && IsPath(q) && p != q && Limit(root, p, limits).Limited?
    ensures var next := Limit(root, p, limits).root;
            && (Locate(root, q).Some? <==> Locate(next, q).Some?)
            && (Locate(root, q).Some? ==> NameFor(next, q) == NameFor(root, q))
  {
    hide LimitedCopy, LimitedName, Limit, EditIn;
    var next := Limit(root, p, limits).root;
    LimitIsEdit(root, p, limits);
    NextDecl(root, p, limits, q);
    LooksInOwner(root, q);
    LooksInOwner(next, q);
    if SameSystem(p, q) {
      if Last(p) == Last(q) {
        SamePath(p, q);
      }
      ResolvedAfter(DeclOf(root, p).value, Last(p), limits, EditOf(root, p, limits).value, Last(q));
    }
  }

  /** Compatible limits, whatever their order: once all are applied every parameter resolves to its original type, or,
      if it is limited, to the copy of its original type with its own limits; and those applied are those present. */
  lemma {:induction false} AppliedAsExpected(root: System, entries: seq<Entry>, path: seq<string>)
    requires Compatible(root, entries) && IsPath(path)
    requires forall k :: 0 <= k < |entries| ==> IsPath(entries[k].path)
    requires ApplyAll(root, entries).Some?
    ensures Resolve(ApplyAll(root, entries).value.0, path) == Expected(root, entries, path)
    ensures path in ApplyAll(root, entries).value.1
            <==> LimitsFor(entries, path).Some? && Locate(root, path).Some?
    decreases |entries|
  {
    hide Resolve, Locate, Limit, LimitedCopy, NameFor, Compatible, Clear;
    if entries != [] {
      FirstCompatible(root, entries);
      var first := entries[0];
      RefusedExactly(root, first.path, first.limits);
      match Limit(root, first.path, first.limits) {
        case Refused =>
        case NotHere =>
          StaysCompatible(root, entries, root);
          AppliedAsExpected(root, entries[1..], path);
        case Limited(next) =>
          StaysCompatible(root, entries, next);
          AppliedAsExpected(next, entries[1..], path);
          RightExactlyIfClear(root, first.path, first.limits);
          if path != first.path {
            KeepsName(root, first.path, first.limits, path);
          }
      }
    }
  }

  // ---------------------------------------------------------------- exactly the compatible lists

  /** Some of the limits, each at most once, in any order. */
  ghost predicate Chosen(chosen: seq<Entry>, entries: seq<Entry>) {
    && (forall k :: 0 <= k < |chosen| ==> chosen[k] in entries)
    && (forall j, k :: 0 <= j < k < |chosen| ==> chosen[j].path != chosen[k].path)
  }

  ghost predicate DistinctPaths(entries: seq<Entry>) {
    && (forall k :: 0 <= k < |entries| ==> IsPath(entries[k].path))
    && (forall j, k :: 0 <= j < k < |entries| ==> entries[j].path != entries[k].path)
  }

  /** Every parameter resolves as it should once these limits are applied. */
  ghost predicate Right(root: System, chosen: seq<Entry>)
    requires forall k :: 0 <= k < |chosen| ==> IsPath(chosen[k].path)
  {
    ApplyAll(root, chosen).Some? ==>
      forall q :: IsPath(q) ==> Resolve(ApplyAll(root, chosen).value.0, q) == Expected(root, chosen, q)
  }

  lemma ChosenPaths(chosen: seq<Entry>, entries: seq<Entry>)
    requires DistinctPaths(entries) && Chosen(chosen, entries)
    ensures forall k :: 0 <= k < |chosen| ==> IsPath(chosen[k].path)
  {
  }

  /** Whichever of the limits are applied, and in whichever order, the outcome is right: exactly if the limits are
      compatible, which can be seen in the document before any of them. */
  lemma RightInAnyOrderExactly(root: System, entries: seq<Entry>)
    requires DistinctPaths(entries)
    ensures Compatible(root, entries) <==>
            forall chosen: seq<Entry> :: Chosen(chosen, entries) ==>
              (forall k :: 0 <= k < |chosen| ==> IsPath(chosen[k].path)) && Right(root, chosen)
  {
    hide Clear, Agree, ApplyAll, Expected, Right;
    if Compatible(root, entries) {
      forall chosen: seq<Entry> | Chosen(chosen, entries)
        ensures (forall k :: 0 <= k < |chosen| ==> IsPath(chosen[k].path)) && Right(root, chosen)
      {
        ChosenPaths(chosen, entries);
        CompatibleIsRight(root, entries, chosen);
      }
    } else {
      NotCompatible(root, entries);
    }
  }

  lemma AgreeAmong(root: System, entries: seq<Entry>, a: Entry, b: Entry)
    requires Compatible(root, entries) && a in entries && b in entries && IsPath(a.path) && IsPath(b.path)
    requires a.path != b.path
    ensures Agree(root, a, b)
  {
    hide Clear, EditOf;
    var j :| 0 <= j < |entries| && entries[j] == a;
    var k :| 0 <= k < |entries| && entries[k] == b;
    if j < k {
      assert Agree(root, entries[j], entries[k]);
    } else {
      assert k < j ==> Agree(root, entries[k], entries[j]);
    }
  }

  lemma CompatibleIsRight(root: System, entries: seq<Entry>, chosen: seq<Entry>)
    requires Compatible(root, entries) && Chosen(chosen, entries)
    requires forall k :: 0 <= k < |chosen| ==> IsPath(chosen[k].path)
    ensures Compatible(root, chosen) && Right(root, chosen)
  {
    hide Clear, ApplyAll, Expected, EditOf;
    forall j, k | 0 <= j < k < |chosen|
      ensures Agree(root, chosen[j], chosen[k])
    {
      AgreeAmong(root, entries, chosen[j], chosen[k]);
    }
    if ApplyAll(root, chosen).Some? {
      forall q | IsPath(q)
        ensures Resolve(ApplyAll(root, chosen).value.0, q) == Expected(root, chosen, q)
      {
        AppliedAsExpected(root, chosen, q);
      }
    }
  }

  /** Limits that are not compatible go wrong with one of them or with two of them already. */
  lemma NotCompatible(root: System, entries: seq<Entry>)
    requires DistinctPaths(entries) && !Compatible(root, entries)
    ensures exists chosen: seq<Entry> :: Chosen(chosen, entries)
              && (forall k :: 0 <= k < |chosen| ==> IsPath(chosen[k].path)) && !Right(root, chosen)
  {
    hide Clear, Agree, ApplyAll, Expected, Right;
    if k :| 0 <= k < |entries| && !Clear(root, entries[k].path, entries[k].limits) {
      OneGoesWrong(root, entries[k]);
      var chosen := [entries[k]];
      assert Chosen(chosen, entries) && !Right(root, chosen);
    } else {
      var j, k :| 0 <= j < k < |entries| && !Agree(root, entries[j], entries[k]);
      TwoGoWrong(root, entries[j], entries[k]);
      var chosen := [entries[j], entries[k]];
      assert Chosen(chosen, entries) && !Right(root, chosen);
    }
  }

  lemma ApplyOne(root: System, a: Entry)
    requires IsPath(a.path)
    ensures Limit(root, a.path, a.limits).Limited? ==>
              ApplyAll(root, [a]).Some? && ApplyAll(root, [a]).value.0 == Limit(root, a.path, a.limits).root
  {
    hide Limit;
    assert [a][1..] == [];
  }

  lemma ApplyTwo(root: System, a: Entry, b: Entry)
    requires IsPath(a.path) && IsPath(b.path) && Limit(root, a.path, a.limits).Limited?
    requires Limit(Limit(root, a.path, a.limits).root, b.path, b.limits).Limited?
    ensures ApplyAll(root, [a, b]).Some?
    ensures ApplyAll(root, [a, b]).value.0 == Limit(Limit(root, a.path, a.limits).root, b.path, b.limits).root
  {
    hide Limit;
    assert [a, b][1..] == [b];
    ApplyOne(Limit(root, a.path, a.limits).root, b);
  }

  lemma ExpectedOfOne(root: System, a: Entry, q: seq<string>)
    requires q != []
    ensures LimitsFor([a], q) == if q == a.path then Some(a.limits) else None
  {
    assert [a][1..] == [];
  }

  lemma OneGoesWrong(root: System, a: Entry)
    requires IsPath(a.path) && !Clear(root, a.path, a.limits)
    ensures !Right(root, [a])
  {
    hide Clear, Right, Limit;
    UnclearIsApplied(root, a);
    RightOneIsClear(root, a);
  }

  lemma RightOneIsClear(root: System, a: Entry)
    requires IsPath(a.path) && Limit(root, a.path, a.limits).Limited?
    ensures Right(root, [a]) ==> Clear(root, a.path, a.limits)
  {
    hide Limit, Resolve, ClearEdit, LimitedCopy, Locate, NameFor, Clear, ApplyAll;
    RightExactlyIfClear(root, a.path, a.limits);
    ApplyOne(root, a);
    forall q | IsPath(q)
      ensures LimitsFor([a], q) == if q == a.path then Some(a.limits) else None
    {
      ExpectedOfOne(root, a, q);
    }
    var next := Limit(root, a.path, a.limits).root;
    forall q | IsPath(q) && Right(root, [a])
      ensures Resolve(next, q) == Expected(root, [a], q)
    {
    }
  }

  lemma UnclearIsApplied(root: System, a: Entry)
    requires IsPath(a.path) && !Clear(root, a.path, a.limits)
    ensures Limit(root, a.path, a.limits).Limited?
  {
    hide ClearEdit, Limit, EditOf;
    LimitIsEdit(root, a.path, a.limits);
  }

  /** Two parameters that share a generated name share what they resolve to. */
  lemma SharedName(d: Decl, a: string, aLimits: Limits, e: Edit, b: string, bLimits: Limits, f: Edit, g: Edit)
    requires a != b && EditIn(d, a, aLimits) == Some(e) && EditIn(d, b, bLimits) == Some(f) && ClearEdit(e)
    requires EditIn(After(e), b, bLimits) == Some(g) && e.name == f.name
    ensures g.name == f.name
    ensures ResolveIn(After(g), a) == ResolveIn(After(g), b)
  {
    hide LimitedCopy, LimitedName, NextTypes, TypeAt;
    SecondEdit(d, a, aLimits, e, b, bLimits, f);
    ResolvedAfter(d, a, aLimits, e, a);
    ResolvedAfter(After(e), b, bLimits, g, a);
    ResolvedAfter(After(e), b, bLimits, g, b);
    FirstReference(d, a, aLimits, e);
  }

  lemma FirstReference(d: Decl, a: string, aLimits: Limits, e: Edit)
    requires EditIn(d, a, aLimits) == Some(e)
    ensures FindParameter(After(e), a) == Some(e.i) && NextParameters(e)[e.i].typeRef == Some(e.name)
    ensures ResolveIn(After(e), a) == FindType(NextTypes(e), Some(e.name))
  {
    hide LimitedCopy, LimitedName, NextTypes;
    ResolvedAfter(d, a, aLimits, e, a);
  }

  lemma TwoGoWrong(root: System, a: Entry, b: Entry)
    requires IsPath(a.path) && IsPath(b.path) && a.path != b.path
    requires Clear(root, a.path, a.limits) && Clear(root, b.path, b.limits) && !Agree(root, a, b)
    ensures !Right(root, [a, b])
  {
    hide Limit, Resolve, ResolveIn, ClearEdit, LimitedCopy, LimitedName, Locate, NameFor, ApplyAll, EditIn;
    var p, q := a.path, b.path;
    LimitIsEdit(root, p, a.limits);
    var d, e, f := DeclOf(root, p).value, EditOf(root, p, a.limits).value, EditOf(root, q, b.limits).value;
    var next := Limit(root, p, a.limits).root;
    if Last(p) == Last(q) {
      SamePath(p, q);
    }
    NextDecl(root, p, a.limits, q);
    SecondEdit(d, Last(p), a.limits, e, Last(q), b.limits, f);
    var g := EditOf(next, q, b.limits).value;
    LimitIsEdit(next, q, b.limits);
    var last := Limit(next, q, b.limits).root;
    NextDecl(next, q, b.limits, p);
    NextDecl(next, q, b.limits, q);
    SharedName(d, Last(p), a.limits, e, Last(q), b.limits, f, g);
    LooksInOwner(last, p);
    LooksInOwner(last, q);
    ApplyTwo(root, a, b);
    EditParts(root, p, a.limits);
    EditParts(root, q, b.limits);
    assert [a, b][1..] == [b];
    ExpectedOfOne(root, b, q);
    assert Expected(root, [a, b], p) == Some(e.copy) && Expected(root, [a, b], q) == Some(f.copy);
  }

  // ---------------------------------------------------------------- orders, and which lists are accepted

  /** The order of compatible limits does not matter. */
  lemma OrderIsIrrelevant(root: System, entries: seq<Entry>, entries': seq<Entry>, path: seq<string>)
    requires Compatible(root, entries) && Compatible(root, entries') && IsPath(path)
    requires forall k :: 0 <= k < |entries| ==> IsPath(entries[k].path)
    requires forall k :: 0 <= k < |entries'| ==> IsPath(entries'[k].path)
    requires forall e :: e in entries <==> e in entries'
    requires ApplyAll(root, entries).Some? && ApplyAll(root, entries').Some?
    ensures Resolve(ApplyAll(root, entries).value.0, path) == Resolve(ApplyAll(root, entries').value.0, path)
  {
    hide Resolve, Locate, LimitedCopy, ApplyAll, Agree, Clear;
    AppliedAsExpected(root, entries, path);
    AppliedAsExpected(root, entries', path);
    LimitsForAny(entries, path);
    LimitsForAny(entries', path);
  }

  lemma {:induction false} LimitsForAny(entries: seq<Entry>, path: seq<string>)
    ensures LimitsFor(entries, path).Some? ==> Entry(path, LimitsFor(entries, path).value) in entries
    ensures LimitsFor(entries, path).None? ==> forall k :: 0 <= k < |entries| ==> entries[k].path != path
  {
    if entries != [] {
      LimitsForAny(entries[1..], path);
    }
  }

  lemma KeepsLimitable(root: System, a: Entry, q: seq<string>)
    requires IsPath(a.path) && IsPath(q) && a.path != q && Limit(root, a.path, a.limits).Limited?
    requires Clear(root, a.path, a.limits)
    ensures Limitable(root, q) <==> Limitable(Limit(root, a.path, a.limits).root, q)
  {
    hide Resolve, Locate, Limit, LimitedCopy, NameFor, Clear;
    RightExactlyIfClear(root, a.path, a.limits);
    KeepsName(root, a.path, a.limits, q);
  }

  /** Compatible limits are refused exactly if some limited parameter that is there has no numeric type in its own
      system. */
  lemma {:induction false} AcceptedExactly(root: System, entries: seq<Entry>)
    requires Compatible(root, entries)
    requires forall k :: 0 <= k < |entries| ==> IsPath(entries[k].path)
    ensures ApplyAll(root, entries).Some?
            <==> forall k :: 0 <= k < |entries| ==> IsPath(entries[k].path) && Limitable(root, entries[k].path)
    decreases |entries|
  {
    hide Limit, Compatible, Clear, Limitable;
    if entries != [] {
      FirstCompatible(root, entries);
      var first, rest := entries[0], entries[1..];
      RefusedExactly(root, first.path, first.limits);
      var outcome := Limit(root, first.path, first.limits);
      if !outcome.Refused? {
        var next := if outcome.Limited? then outcome.root else root;
        StaysCompatible(root, entries, next);
        AcceptedExactly(next, rest);
        forall k | 0 <= k < |rest|
          ensures Limitable(next, rest[k].path) <==> Limitable(root, entries[k + 1].path)
        {
          assert rest[k] == entries[k + 1] && IsPath(rest[k].path);
          if outcome.Limited? {
            DifferentLater(root, entries, k + 1);
            KeepsLimitable(root, first, rest[k].path);
          }
        }
        AllButFirst(root, entries);
      } else {
        assert !Limitable(root, entries[0].path);
      }
    }
  }

  lemma DifferentLater(root: System, entries: seq<Entry>, k: nat)
    requires Compatible(root, entries) && 0 < k < |entries|
    ensures entries[k].path != entries[0].path
  {
  }

  lemma AllButFirst(root: System, entries: seq<Entry>)
    requires entries != [] && forall k :: 0 <= k < |entries| ==> IsPath(entries[k].path)
    ensures (forall k :: 0 <= k < |entries| ==> IsPath(entries[k].path) && Limitable(root, entries[k].path))
            <==> Limitable(root, entries[0].path)
                 && forall k :: 0 <= k < |entries[1..]| ==>
                      IsPath(entries[1..][k].path) && Limitable(root, entries[1..][k].path)
  {
    hide Limitable;
    assert forall k :: 0 <= k < |entries[1..]| ==> entries[1..][k] == entries[k + 1];
    assert forall k :: 1 <= k < |entries| ==> entries[k] == entries[1..][k - 1];
  }

  // ---------------------------------------------------------------- names that collide

  const LOW: Limits := Limits(Some(Bounds(Some(1.0), None)), None)
  const HIGH: Limits := Limits(Some(Bounds(Some(2.0), None)), None)

  const COLLIDING: System := System(Some("S"),
    Some([TypeDef("IntegerParameterType", Some("A_B"), []), TypeDef("FloatParameterType", Some("A"), [])]),
    Some([Parameter(Some("C"), Some("A_B")), Parameter(Some("B_C"), Some("A"))]), [])

  const FIRST_COPY: TypeDef := TypeDef("IntegerParameterType", Some("A_B_C_Limits"), [DefaultAlarm(LOW)])
  const SECOND_COPY: TypeDef := TypeDef("FloatParameterType", Some("A_B_C_Limits"), [DefaultAlarm(HIGH)])

  const HALF_WAY: System := System(Some("S"),
    Some([TypeDef("IntegerParameterType", Some("A_B"), []), FIRST_COPY, TypeDef("FloatParameterType", Some("A"), [])]),
    Some([Parameter(Some("C"), Some("A_B_C_Limits")), Parameter(Some("B_C"), Some("A"))]), [])

  const COLLIDED: System := System(Some("S"),
    Some([TypeDef("IntegerParameterType", Some("A_B"), []), FIRST_COPY, TypeDef("FloatParameterType", Some("A"), []),
          SECOND_COPY]),
    Some([Parameter(Some("C"), Some("A_B_C_Limits")), Parameter(Some("B_C"), Some("A_B_C_Limits"))]), [])

  lemma FirstCollision()
    ensures Limit(COLLIDING, ["S", "C"], LOW) == Limited(HALF_WAY)
  {
    var types, parameters := COLLIDING.types.value, COLLIDING.parameters.value;
    TypeAtIs(types, Some("A_B"), 0);
    ParameterAtIs(parameters, "C", 0);
    assert LimitedName(Some("A_B"), "C") == "A_B_C_Limits";
    assert ["S", "C"][1..1] == [];
    assert LimitedCopy(types[0], "A_B_C_Limits", LOW) == FIRST_COPY;
    assert types[..1] + [FIRST_COPY] + types[1..] == HALF_WAY.types.value;
    assert parameters[0 := Parameter(Some("C"), Some("A_B_C_Limits"))] == HALF_WAY.parameters.value;
  }

  lemma SecondCollision()
    ensures Limit(HALF_WAY, ["S", "B_C"], HIGH) == Limited(COLLIDED)
    ensures Resolve(COLLIDED, ["S", "B_C"]) == Some(FIRST_COPY)
  {
    var types, parameters := HALF_WAY.types.value, HALF_WAY.parameters.value;
    assert "C" != "B_C" && "A_B" != "A" && "A_B_C_Limits" != "A" && "A_B_C_Limits" != "A_B";
    TypeAtIs(types, Some("A"), 2);
    ParameterAtIs(parameters, "B_C", 1);
    assert LimitedName(Some("A"), "B_C") == "A_B_C_Limits";
    assert ["S", "B_C"][1..1] == [];
    assert LimitedCopy(types[2], "A_B_C_Limits", HIGH) == SECOND_COPY;
    assert types[..3] + [SECOND_COPY] + types[3..] == COLLIDED.types.value;
    assert parameters[1 := Parameter(Some("B_C"), Some("A_B_C_Limits"))] == COLLIDED.parameters.value;
    TypeAtIs(COLLIDED.types.value, Some("A_B_C_Limits"), 1);
    ParameterAtIs(COLLIDED.parameters.value, "B_C", 1);
  }

  /** Limits that do not agree: type A_B with parameter C and type A with parameter B_C give the same name, and
      the second parameter ends up with the type and the limits of the first. */
  lemma GeneratedNamesCanCollide()
    ensures var done := ApplyAll(COLLIDING, [Entry(["S", "C"], LOW), Entry(["S", "B_C"], HIGH)]);
            done.Some? && Resolve(done.value.0, ["S", "B_C"]) == Some(FIRST_COPY)
  {
    hide Limit, Resolve;
    FirstCollision();
    SecondCollision();
    var first, second := Entry(["S", "C"], LOW), Entry(["S", "B_C"], HIGH);
    assert [first, second][1..] == [second] && [second][1..] == [];
    assert ApplyAll(HALF_WAY, [second]) == Some((COLLIDED, {} + {second.path}));
  }
}
