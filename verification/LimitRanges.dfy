/** Validation of merged limits: numeric bounds, and a red range that encloses the yellow one. Bounds are exact
    reals. */
module LimitRanges {
  import opened Options
  import Text

  /** A configured bound; `Odd` is a bool, a text or any other non-number. */
  datatype Scalar = Num(value: real) | NonFinite | Odd

  datatype RawLevel = NotBounds | RawBounds(entries: map<string, Scalar>)

  /** What is given for a parameter; a level may be null. */
  datatype RawSpec = NullSpec | NotLevels | RawLevels(levels: map<string, Option<RawLevel>>)

  datatype Bounds = Bounds(min: Option<real>, max: Option<real>)
  datatype Limits = Limits(yellow: Option<Bounds>, red: Option<Bounds>)

  datatype Checked<T> = Fine(value: T) | LimitError

  // ---------------------------------------------------------------- normalization

  function BoundOf(entries: map<string, Scalar>, key: string): Checked<Option<real>> {
    if key !in entries then Fine(None)
    else if entries[key].Num? then Fine(Some(entries[key].value))
    else LimitError
  }

  function NormalizeLevel(raw: RawLevel): Checked<Bounds> {
    if raw.NotBounds? || raw.entries == map[] || !(raw.entries.Keys <= {"min", "max"}) then LimitError
    else
      match (BoundOf(raw.entries, "min"), BoundOf(raw.entries, "max"))
      case (Fine(min), Fine(max)) =>
        if min.Some? && max.Some? && min.value >= max.value then LimitError else Fine(Bounds(min, max))
      case _ => LimitError
  }

  function LevelOf(levels: map<string, Option<RawLevel>>, level: string): Checked<Option<Bounds>> {
    if level !in levels || levels[level].None? then Fine(None)
    else
      match NormalizeLevel(levels[level].value)
      case Fine(bounds) => Fine(Some(bounds))
      case LimitError => LimitError
  }

  predicate Encloses(red: Bounds, yellow: Bounds) {
    && (red.min.Some? && yellow.min.Some? ==> red.min.value <= yellow.min.value)
    && (red.max.Some? && yellow.max.Some? ==> red.max.value >= yellow.max.value)
  }

  /** One parameter; Fine(None) where nothing is left of it. */
  function NormalizeSpec(spec: RawSpec): Checked<Option<Limits>> {
    match spec
    case NullSpec => Fine(None)
    case NotLevels => LimitError
    case RawLevels(levels) =>
      if levels == map[] || !(levels.Keys <= {"yellow", "red"}) then LimitError
      else
        match (LevelOf(levels, "yellow"), LevelOf(levels, "red"))
        case (Fine(yellow), Fine(red)) =>
          if yellow.None? && red.None? then Fine(None)
          else if yellow.Some? && red.Some? && !Encloses(red.value, yellow.value) then LimitError
          else Fine(Some(Limits(yellow, red)))
        case _ => LimitError
  }

  predicate IsNameChar(c: char) {
    'A' <= c <= 'Z' || 'a' <= c <= 'z' || '0' <= c <= '9' || c in {'_', '.', '-'}
  }

  /** The pattern of a qualified name: at least two segments, each behind its own slash. */
  predicate IsQualified(path: string) {
    var parts := Text.Split(path, '/');
    && |parts| >= 3 && parts[0] == ""
    && (forall k :: 1 <= k < |parts| ==> parts[k] != "" && forall j :: 0 <= j < |parts[k]| ==> IsNameChar(parts[k][j]))
  }

  /** normalize_limits of a mapping. */
  function Normalize(raw: map<string, RawSpec>): (r: Checked<map<string, Limits>>)
    ensures r.Fine? ==> r.value.Keys <= raw.Keys
  {
    if exists path :: path in raw && (!IsQualified(path) || NormalizeSpec(raw[path]).LimitError?) then LimitError
    else Fine(map path | path in raw && NormalizeSpec(raw[path]).value.Some? :: NormalizeSpec(raw[path]).value.value)
  }

  // ---------------------------------------------------------------- what normalized limits promise

  predicate IsRange(b: Bounds) {
    (b.min.Some? || b.max.Some?) && (b.min.Some? && b.max.Some? ==> b.min.value < b.max.value)
  }

  /** At least one level, each a range, and red around yellow where both give a side. */
  predicate Sound(limits: Limits) {
    && (limits.yellow.Some? || limits.red.Some?)
    && (limits.yellow.Some? ==> IsRange(limits.yellow.value))
    && (limits.red.Some? ==> IsRange(limits.red.value))
    && (limits.yellow.Some? && limits.red.Some? ==> Encloses(limits.red.value, limits.yellow.value))
  }

  /** A level is accepted exactly if it gives min, max or both as finite numbers, min below max, and nothing else; and then
      its bounds are those numbers. */
  lemma LevelExactly(raw: RawLevel, b: Bounds)
    ensures NormalizeLevel(raw) == Fine(b) <==>
              && raw.RawBounds? && raw.entries != map[] && (forall key :: key in raw.entries ==> key in {"min", "max"})
              && (forall key :: key in raw.entries ==> raw.entries[key].Num?)
              && b.min == (if "min" in raw.entries then Some(raw.entries["min"].value) else None)
              && b.max == (if "max" in raw.entries then Some(raw.entries["max"].value) else None)
              && (b.min.Some? && b.max.Some? ==> b.min.value < b.max.value)
  {
  }

  /** A parameter's limits are accepted exactly if they give yellow, red or both and nothing else, null levels aside, each
      of them in order, and red not inside yellow. */
  lemma SpecExactly(spec: RawSpec, limits: Limits)
    ensures NormalizeSpec(spec) == Fine(Some(limits)) <==>
              && spec.RawLevels? && (forall key :: key in spec.levels ==> key in {"yellow", "red"})
              && LevelGiven(spec.levels, "yellow", limits.yellow) && LevelGiven(spec.levels, "red", limits.red)
              && (limits.yellow.Some? || limits.red.Some?)
              && (limits.yellow.Some? && limits.red.Some? ==> Encloses(limits.red.value, limits.yellow.value))
    ensures NormalizeSpec(spec) == Fine(None) <==>
              || spec.NullSpec?
              || (spec.RawLevels? && spec.levels != map[]
                  && forall key :: key in spec.levels ==> key in {"yellow", "red"} && spec.levels[key].None?)
  {
    hide NormalizeLevel, Encloses;
    if spec.RawLevels? {
      assert spec.levels == map[] ==> "yellow" !in spec.levels && "red" !in spec.levels;
    }
  }

  /** A mapping is accepted exactly if each of its names is qualified and each of its parameters' limits are; and its
      outcome has those that are not empty. */
  lemma MappingExactly(raw: map<string, RawSpec>, limits: map<string, Limits>)
    ensures Normalize(raw) == Fine(limits) <==>
              && (forall path :: path in raw ==> IsQualified(path))
              && (forall path :: path in limits ==> path in raw && NormalizeSpec(raw[path]) == Fine(Some(limits[path])))
              && (forall path :: path in raw && path !in limits ==> NormalizeSpec(raw[path]) == Fine(None))
  {
    hide IsQualified, NormalizeSpec;
    var named := forall path :: path in raw ==> IsQualified(path);
    var kept := forall path :: path in limits ==> path in raw && NormalizeSpec(raw[path]) == Fine(Some(limits[path]));
    var dropped := forall path :: path in raw && path !in limits ==> NormalizeSpec(raw[path]) == Fine(None);
    if named && kept && dropped {
      forall path | path in raw
        ensures IsQualified(path) && !NormalizeSpec(raw[path]).LimitError?
      {
        assert path in limits || path !in limits;
      }
      var done := Normalize(raw).value;
      assert done.Keys == limits.Keys;
      assert forall path :: path in limits ==> done[path] == limits[path];
      assert done == limits;
    }
  }

  predicate LevelGiven(levels: map<string, Option<RawLevel>>, level: string, bounds: Option<Bounds>) {
    if level in levels && levels[level].Some? then
      bounds.Some? && NormalizeLevel(levels[level].value) == Fine(bounds.value)
    else bounds.None?
  }

  function RawOfBounds(b: Bounds): RawLevel {
    RawBounds((if b.min.Some? then map["min" := Num(b.min.value)] else map[])
              + (if b.max.Some? then map["max" := Num(b.max.value)] else map[]))
  }

  function RawOf(limits: Limits): RawSpec {
    RawLevels((if limits.yellow.Some? then map["yellow" := Some(RawOfBounds(limits.yellow.value))] else map[])
              + (if limits.red.Some? then map["red" := Some(RawOfBounds(limits.red.value))] else map[]))
  }

  lemma LevelAgain(b: Bounds)
    requires IsRange(b)
    ensures NormalizeLevel(RawOfBounds(b)) == Fine(b)
  {
    var entries := RawOfBounds(b).entries;
    assert "min" in entries || "max" in entries;
  }

  lemma SpecAgain(limits: Limits)
    requires Sound(limits)
    ensures NormalizeSpec(RawOf(limits)) == Fine(Some(limits))
  {
    hide NormalizeLevel, RawOfBounds, IsRange;
    if limits.yellow.Some? {
      LevelAgain(limits.yellow.value);
    }
    if limits.red.Some? {
      LevelAgain(limits.red.value);
    }
    var levels := RawOf(limits).levels;
    assert "yellow" in levels || "red" in levels;
  }

  lemma SpecIsSound(spec: RawSpec)
    requires NormalizeSpec(spec).Fine? && NormalizeSpec(spec).value.Some?
    ensures Sound(NormalizeSpec(spec).value.value)
  {
    assert forall entries: map<string, Scalar> ::
        entries.Keys <= {"min", "max"} && "min" !in entries && "max" !in entries ==> entries.Keys == {};
  }

  /** Accepted limits are sound and qualified, and normalizing them again changes nothing. */
  lemma NormalizedIsSound(raw: map<string, RawSpec>)
    requires Normalize(raw).Fine?
    ensures var done := Normalize(raw).value;
            && (forall path :: path in done ==> IsQualified(path) && Sound(done[path]))
            && Normalize(map path | path in done :: RawOf(done[path])) == Fine(done)
  {
    hide NormalizeSpec, IsQualified, Sound, RawOf;
    var done := Normalize(raw).value;
    forall path | path in done
      ensures Sound(done[path]) && NormalizeSpec(RawOf(done[path])) == Fine(Some(done[path]))
    {
      SpecIsSound(raw[path]);
      SpecAgain(done[path]);
    }
    var again := map path | path in done :: RawOf(done[path]);
    assert Normalize(again).Fine?;
    assert Normalize(again).value == done;
  }

  // ---------------------------------------------------------------- alarms

  /** A value outside a range raises its alarm. */
  predicate Outside(b: Bounds, x: real) {
    (b.min.Some? && x < b.min.value) || (b.max.Some? && x > b.max.value)
  }

  predicate BoundsWithin(red: Bounds, yellow: Bounds) {
    (red.min.Some? ==> yellow.min.Some?) && (red.max.Some? ==> yellow.max.Some?)
  }

  /** Every value that is red is yellow too exactly if the check that red encloses yellow passes and yellow is bounded
      wherever red is. */
  lemma RedIsMoreSevere(yellow: Bounds, red: Bounds)
    requires IsRange(yellow) && IsRange(red)
    ensures (forall x: real :: Outside(red, x) ==> Outside(yellow, x))
            <==> Encloses(red, yellow) && BoundsWithin(red, yellow)
  {
    if red.min.Some? && yellow.min.None? {
      var x := (if red.min.value < yellow.max.value then red.min.value else yellow.max.value) - 1.0;
      assert Outside(red, x) && !Outside(yellow, x);
    } else if red.max.Some? && yellow.max.None? {
      var x := (if red.max.value > yellow.min.value then red.max.value else yellow.min.value) + 1.0;
      assert Outside(red, x) && !Outside(yellow, x);
    } else if red.min.Some? && red.min.value > yellow.min.value {
      assert Outside(red, yellow.min.value) && !Outside(yellow, yellow.min.value);
    } else if red.max.Some? && red.max.value < yellow.max.value {
      assert Outside(red, yellow.max.value) && !Outside(yellow, yellow.max.value);
    }
  }

  /** So accepted limits warn before every red value exactly if yellow is bounded wherever red is. */
  lemma AcceptedRedIsMoreSevere(spec: RawSpec, limits: Limits)
    requires NormalizeSpec(spec) == Fine(Some(limits)) && limits.yellow.Some? && limits.red.Some?
    ensures (forall x: real :: Outside(limits.red.value, x) ==> Outside(limits.yellow.value, x))
            <==> BoundsWithin(limits.red.value, limits.yellow.value)
  {
    hide NormalizeSpec, Outside;
    SpecIsSound(spec);
    RedIsMoreSevere(limits.yellow.value, limits.red.value);
  }

  /** The check passes {yellow: {min: 20}, red: {max: 5}}, where 30 is red without being yellow. */
  lemma RedWithoutYellow()
    ensures var spec := RawLevels(map["yellow" := Some(RawBounds(map["min" := Num(20.0)])),
                                      "red" := Some(RawBounds(map["max" := Num(5.0)]))]);
            && NormalizeSpec(spec) == Fine(Some(Limits(Some(Bounds(Some(20.0), None)), Some(Bounds(None, Some(5.0))))))
            && Outside(NormalizeSpec(spec).value.value.red.value, 30.0)
            && !Outside(NormalizeSpec(spec).value.value.yellow.value, 30.0)
  {
    LevelAgain(Bounds(Some(20.0), None));
    LevelAgain(Bounds(None, Some(5.0)));
    SpecAgain(Limits(Some(Bounds(Some(20.0), None)), Some(Bounds(None, Some(5.0)))));
    assert RawOfBounds(Bounds(Some(20.0), None)).entries == map["min" := Num(20.0)];
    assert RawOfBounds(Bounds(None, Some(5.0))).entries == map["max" := Num(5.0)];
    assert RawOf(Limits(Some(Bounds(Some(20.0), None)), Some(Bounds(None, Some(5.0))))).levels
           == map["yellow" := Some(RawBounds(map["min" := Num(20.0)])),
                  "red" := Some(RawBounds(map["max" := Num(5.0)]))];
  }
}
