/** The placement decision: off, automatic from the physical cores, or a manual "service=cpuset,..." text. */
module PlacementPlan {
  import opened Options
  import opened Text
  import opened Cpuset
  import opened Placement

  datatype Reason =
    | Disabled | MalformedEntry(entry: string) | MalformedCpuset(service: string, cpuset: string) | EmptyOverride
    | NoTopology | TooFewCores(cores: nat) | NotEnoughCores

  datatype Plan = Plan(mode: string, assignments: map<string, string>, reason: Option<Reason>,
                       summary: Option<(nat, nat)>)

  // ---------------------------------------------------------------- manual mode

  /** The end of the run of characters from i on that are neither comma nor equals sign. */
  function RunEnd(s: string, i: nat): (e: nat)
    requires i <= |s|
    ensures i <= e <= |s| && (e < |s| ==> s[e] in {',', '='})
    ensures forall k :: i <= k < e ==> s[k] !in {',', '='}
    decreases |s| - i
  {
    if i < |s| && s[i] !in {',', '='} then RunEnd(s, i + 1) else i
  }

  /** A comma separates entries only if a name and an equals sign follow; the others belong to a cpuset. */
  predicate Separates(s: string, i: nat)
    requires i < |s|
  {
    s[i] == ',' && i + 1 < RunEnd(s, i + 1) < |s| && s[RunEnd(s, i + 1)] == '='
  }

  function FirstSeparator(s: string, i: nat): (e: nat)
    requires i <= |s|
    ensures i <= e <= |s| && (e < |s| ==> Separates(s, e)) && forall k :: i <= k < e ==> !Separates(s, k)
    decreases |s| - i
  {
    if i < |s| && !Separates(s, i) then FirstSeparator(s, i + 1) else i
  }

  /** re.split at the separating commas. */
  function SplitEntries(s: string): (entries: seq<string>)
    decreases |s|
  {
    var e := FirstSeparator(s, 0);
    if e == |s| then [s] else [s[..e]] + SplitEntries(s[e + 1..])
  }

  function FirstEquals(s: string): (e: nat)
    ensures e <= |s| && (e < |s| ==> s[e] == '=') && forall k :: 0 <= k < e ==> s[k] != '='
  {
    if s == "" || s[0] == '=' then 0 else 1 + FirstEquals(s[1..])
  }

  predicate IsNumeral(s: string) {
    s != "" && forall k :: 0 <= k < |s| ==> IsDigit(s[k])
  }

  predicate IsPiece(s: string) {
    var ends := Split(s, '-');
    |ends| <= 2 && forall k :: 0 <= k < |ends| ==> IsNumeral(ends[k])
  }

  /** The pattern of a cpuset: numbers and ranges between commas. */
  predicate IsCpuset(s: string) {
    var pieces := Split(s, ',');
    forall k :: 0 <= k < |pieces| ==> IsPiece(pieces[k])
  }

  function PlanEntries(entries: seq<string>, chosen: map<string, string>): Plan
    decreases |entries|
  {
    if entries == [] then
      if chosen == map[] then Plan("manual", map[], Some(EmptyOverride), None) else Plan("manual", chosen, None, None)
    else
      var entry := Strip(entries[0]);
      if entry == "" then PlanEntries(entries[1..], chosen)
      else
        var e := FirstEquals(entry);
        if e == |entry| then Plan("manual", map[], Some(MalformedEntry(entry)), None)
        else
          var service, cpuset := Strip(entry[..e]), Strip(entry[e + 1..]);
          if service == "" || !IsCpuset(cpuset)
          then Plan("manual", map[], Some(MalformedCpuset(service, cpuset)), None)
          else PlanEntries(entries[1..], chosen[service := cpuset])
  }

  // ---------------------------------------------------------------- automatic mode

  predicate Sorted(ids: seq<nat>) {
    forall i, j :: 0 <= i < j < |ids| ==> ids[i] <= ids[j]
  }

  function Insert(id: nat, ids: seq<nat>): (r: seq<nat>)
    ensures |r| == |ids| + 1 && multiset(r) == multiset(ids) + multiset{id}
  {
    if ids == [] || id <= ids[0] then
      assert multiset([id] + ids) == multiset{id} + multiset(ids);
      [id] + ids
    else
      assert ids == [ids[0]] + ids[1..];
      [ids[0]] + Insert(id, ids[1..])
  }

  /** sorted(ids) */
  function Sort(ids: seq<nat>): (r: seq<nat>)
    ensures |r| == |ids| && multiset(r) == multiset(ids)
  {
    if ids == [] then []
    else
      assert ids == [ids[0]] + ids[1..];
      Insert(ids[0], Sort(ids[1..]))
  }

  lemma {:induction false} InsertSorted(id: nat, ids: seq<nat>)
    requires Sorted(ids)
    ensures Sorted(Insert(id, ids))
    ensures Insert(id, ids)[0] == if ids == [] || id <= ids[0] then id else ids[0]
  {
    if ids != [] && id > ids[0] {
      InsertSorted(id, ids[1..]);
      assert Insert(id, ids) == [ids[0]] + Insert(id, ids[1..]);
    }
  }

  lemma {:induction false} SortSorted(ids: seq<nat>)
    ensures Sorted(Sort(ids))
  {
    if ids != [] {
      SortSorted(ids[1..]);
      InsertSorted(ids[0], Sort(ids[1..]));
    }
  }

  predicate Within(cores: seq<nat>, n: nat) {
    forall k :: 0 <= k < |cores| ==> cores[k] < n
  }

  /** The logical CPUs of some cores; `topology` lists the threads of each physical core, in core order. */
  function ThreadsOf(topology: seq<seq<nat>>, cores: seq<nat>): seq<nat>
    requires Within(cores, |topology|)
  {
    if cores == [] then [] else topology[cores[0]] + ThreadsOf(topology, cores[1..])
  }

  function Requesting(order: seq<string>, requests: map<string, real>): (r: seq<string>)
    ensures forall s :: s in r <==> s in order && s in requests
  {
    if order == [] then []
    else (if order[0] in requests then [order[0]] else []) + Requesting(order[1..], requests)
  }

  function Upto(n: nat): (cores: seq<nat>)
    ensures |cores| == n && forall k :: 0 <= k < n ==> cores[k] == k
  {
    if n == 0 then [] else Upto(n - 1) + [n - 1]
  }

  function LogicalCpus(topology: seq<seq<nat>>): nat {
    if topology == [] then 0 else |topology[0]| + LogicalCpus(topology[1..])
  }

  function TextsOf(topology: seq<seq<nat>>, shares: map<string, seq<nat>>): (texts: map<string, string>)
    requires forall s :: s in shares ==> Within(shares[s], |topology|)
    ensures texts.Keys == shares.Keys
  {
    map s | s in shares :: Format(Sort(ThreadsOf(topology, shares[s])))
  }

  /** plan_placement; None for a division by zero. An absent or empty topology is []. */
  function PlanPlacement(topology: seq<seq<nat>>, requests: map<string, real>, mode: string, round: Rounding)
    : Option<Plan>
  {
    if mode == "off" then Some(Plan("off", map[], Some(Disabled), None))
    else if mode != "auto" then Some(PlanEntries(SplitEntries(mode), map[]))
    else if topology == [] then Some(Plan("auto", map[], Some(NoTopology), None))
    else
      var n := |topology|;
      var summary := Some((n, LogicalCpus(topology)));
      if n < MIN_PHYSICAL_CORES then Some(Plan("auto", map[], Some(TooFewCores(n)), summary))
      else
        var order := Requesting(PRIORITY_ORDER, requests);
        match Deal<nat>(Upto(n), requests, order, |order|, round)
        case None => None
        case Some(d) =>
          if |d.assignment| < |order| then Some(Plan("auto", map[], Some(NotEnoughCores), summary))
          else
            DealtCoresExist(n, requests, order, |order|, round);
            Some(Plan("auto", TextsOf(topology, d.assignment), None, summary))
  }

  lemma {:induction false} DealtCoresExist(n: nat, requests: map<string, real>, order: seq<string>, k: nat,
                                             round: Rounding)
    requires k <= |order| && Deal<nat>(Upto(n), requests, order, k, round).Some?
    ensures var d := Deal<nat>(Upto(n), requests, order, k, round).value;
            && Within(d.remaining, n)
            && (forall s :: s in d.assignment ==> Within(d.assignment[s], n))
  {
    hide Total, Quota, Wanted, Requested;
    if k > 0 {
      DealtCoresExist(n, requests, order, k - 1, round);
    }
  }

  // ---------------------------------------------------------------- manual mode reads what automatic mode writes

  /** service=cpuset,... for a list of assignments. */
  function Render(assignments: seq<(string, seq<nat>)>): (s: string)
    requires assignments != []
  {
    var first := assignments[0].0 + "=" + Format(assignments[0].1);
    if |assignments| == 1 then first else first + "," + Render(assignments[1..])
  }

  /** A service name that the text can carry: nothing to strip, no comma and no equals sign. */
  predicate PlainName(s: string) {
    s != "" && !IsBlank(s[0]) && !IsBlank(s[|s| - 1]) && ',' !in s && '=' !in s
  }

  function Assigned(assignments: seq<(string, seq<nat>)>): map<string, string> {
    if assignments == [] then map[]
    else
      var n := |assignments| - 1;
      Assigned(assignments[..n])[assignments[n].0 := Format(assignments[n].1)]
  }

  function EntriesOf(assignments: seq<(string, seq<nat>)>): (entries: seq<string>)
    ensures |entries| == |assignments|
    ensures forall k :: 0 <= k < |entries| ==> entries[k] == assignments[k].0 + "=" + Format(assignments[k].1)
  {
    if assignments == [] then []
    else [assignments[0].0 + "=" + Format(assignments[0].1)] + EntriesOf(assignments[1..])
  }

  /** RunEnd is the only place where such a run can end. */
  lemma RunEndIs(s: string, i: nat, e: nat)
    requires i <= e <= |s| && (e < |s| ==> s[e] in {',', '='})
    requires forall k :: i <= k < e ==> s[k] !in {',', '='}
    ensures RunEnd(s, i) == e
    decreases e - i
  {
  }

  lemma RunOfName(before: string, name: string, rest: string)
    requires ',' !in name && '=' !in name
    ensures RunEnd(before + name + "=" + rest, |before|) == |before| + |name|
  {
    var s := before + name + "=" + rest;
    forall k | |before| <= k < |before| + |name|
      ensures s[k] !in {',', '='}
    {
      assert s[k] == name[k - |before|];
    }
    RunEndIs(s, |before|, |before| + |name|);
  }

  /** In "name=text", followed by nothing or by a comma, no comma of the text separates if it has no equals sign. */
  lemma NoSeparatorWithin(name: string, text: string, rest: string, i: nat)
    requires ',' !in name && '=' !in name && '=' !in text
    requires rest == "" || rest[0] == ','
    requires i < |name| + 1 + |text|
    ensures !Separates(name + "=" + text + rest, i)
  {
    var s := name + "=" + text + rest;
    if i < |name| {
      assert s[i] == name[i];
    } else if i == |name| {
      assert s[i] == '=';
    } else {
      assert forall k :: |name| < k < |name| + 1 + |text| ==> s[k] == text[k - |name| - 1];
      assert rest != "" ==> s[|name| + 1 + |text|] == ',';
    }
  }

  lemma FirstSeparatorIs(s: string, i: nat, e: nat)
    requires i <= e <= |s| && (e < |s| ==> Separates(s, e)) && forall k :: i <= k < e ==> !Separates(s, k)
    ensures FirstSeparator(s, i) == e
    decreases e - i
  {
  }

  /** Names without comma or equals sign, texts without equals sign: the split finds exactly the entries. */
  lemma {:induction false} SplitOfRender(assignments: seq<(string, seq<nat>)>)
    requires assignments != []
    requires forall k :: 0 <= k < |assignments| ==> PlainName(assignments[k].0)
    ensures SplitEntries(Render(assignments)) == EntriesOf(assignments)
  {
    hide Format, Separates, IsBlank;
    var name, text := assignments[0].0, Format(assignments[0].1);
    FormatHasNoEquals(assignments[0].1);
    var first := name + "=" + text;
    var rest := if |assignments| == 1 then "" else "," + Render(assignments[1..]);
    var s := Render(assignments);
    assert s == first + rest;
    forall k | 0 <= k < |first|
      ensures !Separates(s, k)
    {
      NoSeparatorWithin(name, text, rest, k);
    }
    if |assignments| == 1 {
      FirstSeparatorIs(s, 0, |s|);
    } else {
      RenderStarts(assignments[1..]);
      var next := assignments[1].0;
      assert s == (first + ",") + Render(assignments[1..]);
      SeparatesBeforeName(first, next, Render(assignments[1..])[|next| + 1..]);
      assert s == first + "," + next + "=" + Render(assignments[1..])[|next| + 1..];
      FirstSeparatorIs(s, 0, |first|);
      assert s[|first| + 1..] == Render(assignments[1..]) && s[..|first|] == first;
      SplitOfRender(assignments[1..]);
    }
  }

  lemma SeparatesBeforeName(first: string, name: string, rest: string)
    requires name != "" && ',' !in name && '=' !in name
    ensures Separates(first + "," + name + "=" + rest, |first|)
  {
    RunOfName(first + ",", name, rest);
  }

  lemma RenderStarts(assignments: seq<(string, seq<nat>)>)
    requires assignments != []
    ensures var s, name := Render(assignments), assignments[0].0;
            |s| > |name| && s[..|name| + 1] == name + "=" && s == name + "=" + s[|name| + 1..]
  {
  }

  lemma {:induction false} JoinHasNoEquals(parts: seq<string>)
    requires forall k :: 0 <= k < |parts| ==> '=' !in parts[k]
    ensures '=' !in Join(parts, ',')
  {
    if |parts| > 1 {
      JoinHasNoEquals(parts[1..]);
    }
  }

  lemma FormatHasNoEquals(ids: seq<nat>)
    ensures '=' !in Format(ids)
  {
    hide PieceOf, Join;
    forall k | 0 <= k < |PiecesOf(RangesOf(ids))|
      ensures '=' !in PiecesOf(RangesOf(ids))[k]
    {
      ReadOnePiece(RangesOf(ids)[k]);
    }
    JoinHasNoEquals(PiecesOf(RangesOf(ids)));
  }

  lemma {:induction false} DigitsAt(parts: seq<string>)
    requires parts != []
    requires forall k :: 0 <= k < |parts| ==> parts[k] != "" && IsDigit(parts[k][0]) && IsDigit(parts[k][|parts[k]| - 1])
    ensures var s := Join(parts, ','); s != "" && IsDigit(s[0]) && IsDigit(s[|s| - 1])
  {
    if |parts| > 1 {
      DigitsAt(parts[1..]);
    }
  }

  lemma PieceIsPiece(r: Range)
    ensures IsPiece(PieceOf(r))
  {
    hide Decimal, Split;
    var a, b := Decimal(r.0), Decimal(r.1);
    NoSigns(a);
    NoSigns(b);
    SplitOne(a, '-');
    SplitOne(b, '-');
    SplitFirst(a, b, '-');
    assert a + ['-'] + b == a + "-" + b;
    assert [a] + [b] == [a, b];
  }

  /** A printed cpuset has the pattern the manual mode asks for, and nothing to strip. */
  lemma FormatIsCpuset(ids: seq<nat>)
    requires ids != []
    ensures IsCpuset(Format(ids)) && Strip(Format(ids)) == Format(ids)
  {
    hide PieceOf, Join, IsPiece, Split, Strip;
    var pieces := PiecesOf(RangesOf(ids));
    forall k | 0 <= k < |pieces|
      ensures ',' !in pieces[k] && IsPiece(pieces[k])
      ensures pieces[k] != "" && IsDigit(pieces[k][0]) && IsDigit(pieces[k][|pieces[k]| - 1])
    {
      ReadOnePiece(RangesOf(ids)[k]);
      PieceIsPiece(RangesOf(ids)[k]);
    }
    DigitsAt(pieces);
    SplitOfJoin(pieces, ',');
    StripNothing(Format(ids));
  }

  lemma FirstEqualsIs(name: string, text: string)
    requires '=' !in name
    ensures FirstEquals(name + "=" + text) == |name|
  {
    var s := name + "=" + text;
    assert forall k :: 0 <= k < |name| ==> s[k] == name[k];
    assert s[|name|] == '=';
  }

  /** One rendered entry is read as its own name and cpuset. */
  lemma OneEntry(name: string, ids: seq<nat>, entries: seq<string>, chosen: map<string, string>)
    requires PlainName(name) && ids != [] && entries != [] && entries[0] == name + "=" + Format(ids)
    ensures PlanEntries(entries, chosen) == PlanEntries(entries[1..], chosen[name := Format(ids)])
  {
    hide Format, IsCpuset, Strip, FirstEquals;
    var text := Format(ids);
    FormatIsCpuset(ids);
    FormatEnds(ids);
    StripNothing(name);
    StripNothing(entries[0]);
    FirstEqualsIs(name, text);
    assert entries[0][..|name|] == name && entries[0][|name| + 1..] == text;
  }

  lemma FormatEnds(ids: seq<nat>)
    requires ids != []
    ensures Format(ids) != "" && !IsBlank(Format(ids)[|Format(ids)| - 1])
  {
    hide PieceOf, Join;
    var pieces := PiecesOf(RangesOf(ids));
    forall k | 0 <= k < |pieces|
      ensures pieces[k] != "" && IsDigit(pieces[k][0]) && IsDigit(pieces[k][|pieces[k]| - 1])
    {
      ReadOnePiece(RangesOf(ids)[k]);
    }
    DigitsAt(pieces);
  }

  lemma AssignedMore(assignments: seq<(string, seq<nat>)>, k: nat)
    requires k < |assignments|
    ensures Assigned(assignments[..k + 1])
            == Assigned(assignments[..k])[assignments[k].0 := Format(assignments[k].1)]
  {
    hide Format;
    assert assignments[..k + 1][..k] == assignments[..k];
  }

  lemma {:induction false} EntriesRead(assignments: seq<(string, seq<nat>)>, k: nat)
    requires k <= |assignments|
    requires forall j :: 0 <= j < |assignments| ==> PlainName(assignments[j].0) && assignments[j].1 != []
    ensures PlanEntries(EntriesOf(assignments)[k..], Assigned(assignments[..k]))
            == PlanEntries([], Assigned(assignments))
    decreases |assignments| - k
  {
    hide Format, PlanEntries, Assigned, EntriesOf, PlainName;
    if k == |assignments| {
      assert assignments[..k] == assignments && EntriesOf(assignments)[k..] == [];
    } else {
      var entries := EntriesOf(assignments)[k..];
      OneEntry(assignments[k].0, assignments[k].1, entries, Assigned(assignments[..k]));
      AssignedMore(assignments, k);
      assert entries[1..] == EntriesOf(assignments)[k + 1..];
      EntriesRead(assignments, k + 1);
    }
  }

  lemma ManualMode(topology: seq<seq<nat>>, requests: map<string, real>, mode: string, round: Rounding)
    requires '=' in mode
    ensures PlanPlacement(topology, requests, mode, round) == Some(PlanEntries(SplitEntries(mode), map[]))
  {
    hide SplitEntries, PlanEntries;
    assert '=' !in "off" && '=' !in "auto";
  }

  lemma RenderHasEquals(assignments: seq<(string, seq<nat>)>)
    requires assignments != []
    ensures '=' in Render(assignments)
  {
    hide Render;
    RenderStarts(assignments);
    var s, name := Render(assignments), assignments[0].0;
    assert s[..|name| + 1][|name|] == '=';
    assert s[|name|] == '=';
  }

  lemma LastAssigned(assignments: seq<(string, seq<nat>)>)
    requires assignments != []
    ensures assignments[|assignments| - 1].0 in Assigned(assignments)
    ensures PlanEntries([], Assigned(assignments)) == Plan("manual", Assigned(assignments), None, None)
    ensures Assigned([]) == map[]
  {
    hide Format;
  }

  /** Any assignment rendered as service=cpuset,... is planned back as itself, commas in the cpusets and all. */
  lemma ManualPlanReadsBack(assignments: seq<(string, seq<nat>)>, topology: seq<seq<nat>>, requests: map<string, real>,
                            round: Rounding)
    requires assignments != []
    requires forall j :: 0 <= j < |assignments| ==> PlainName(assignments[j].0) && assignments[j].1 != []
    ensures PlanPlacement(topology, requests, Render(assignments), round)
            == Some(Plan("manual", Assigned(assignments), None, None))
  {
    hide *;
    SplitOfRender(assignments);
    EntriesRead(assignments, 0);
    assert EntriesOf(assignments)[0..] == EntriesOf(assignments) && assignments[..0] == [];
    RenderHasEquals(assignments);
    ManualMode(topology, requests, Render(assignments), round);
    LastAssigned(assignments);
  }

  // ---------------------------------------------------------------- automatic mode isolates

  /** Every logical CPU is a thread of one core. */
  predicate OneCoreEach(topology: seq<seq<nat>>) {
    && (forall c :: 0 <= c < |topology| ==> NoRepeats(topology[c]))
    && (forall c, d :: 0 <= c < d < |topology| ==> forall x :: x in topology[c] ==> x !in topology[d])
  }

  lemma {:induction false} ThreadsAre(topology: seq<seq<nat>>, cores: seq<nat>, x: nat)
    requires Within(cores, |topology|)
    ensures x in ThreadsOf(topology, cores) <==> exists k :: 0 <= k < |cores| && x in topology[cores[k]]
  {
    if cores != [] {
      ThreadsAre(topology, cores[1..], x);
      assert forall k :: 0 <= k < |cores[1..]| ==> cores[1..][k] == cores[k + 1];
      if k :| 0 <= k < |cores| && x in topology[cores[k]] {
        if k > 0 {
          assert x in topology[cores[1..][k - 1]];
        }
      }
    }
  }

  lemma {:induction false} ThreadsOnce(topology: seq<seq<nat>>, cores: seq<nat>)
    requires Within(cores, |topology|) && OneCoreEach(topology) && NoRepeats(cores)
    ensures NoRepeats(ThreadsOf(topology, cores))
  {
    hide OneCoreEach;
    if cores != [] {
      var first, rest := topology[cores[0]], ThreadsOf(topology, cores[1..]);
      ThreadsOnce(topology, cores[1..]);
      FirstOnce(topology, cores[0]);
      forall x | x in first
        ensures x !in rest
      {
        ThreadsAre(topology, cores[1..], x);
        OtherCores(topology, cores, x);
      }
      ConcatOnce(first, rest);
    }
  }

  lemma FirstOnce(topology: seq<seq<nat>>, c: nat)
    requires OneCoreEach(topology) && c < |topology|
    ensures NoRepeats(topology[c])
  {
  }

  lemma OtherCores(topology: seq<seq<nat>>, cores: seq<nat>, x: nat)
    requires Within(cores, |topology|) && OneCoreEach(topology) && NoRepeats(cores) && cores != []
    requires x in topology[cores[0]]
    ensures forall k :: 0 <= k < |cores[1..]| ==> x !in topology[cores[1..][k]]
  {
  }

  lemma ConcatOnce(xs: seq<nat>, ys: seq<nat>)
    requires NoRepeats(xs) && NoRepeats(ys) && forall x :: x in xs ==> x !in ys
    ensures NoRepeats(xs + ys)
  {
    forall i, j | 0 <= i < j < |xs + ys|
      ensures (xs + ys)[i] != (xs + ys)[j]
    {
      if i < |xs| <= j {
        assert xs[i] in xs && ys[j - |xs|] in ys;
      }
    }
  }

  lemma {:induction false} OnceInMultiset(xs: seq<nat>, x: nat)
    requires NoRepeats(xs)
    ensures multiset(xs)[x] <= 1
  {
    if xs != [] {
      OnceInMultiset(xs[1..], x);
      assert xs == [xs[0]] + xs[1..];
      assert xs[0] !in xs[1..];
    }
  }

  lemma SortedOnce(xs: seq<nat>, ys: seq<nat>)
    requires NoRepeats(xs) && multiset(ys) == multiset(xs) && Sorted(ys)
    ensures Increasing(ys)
  {
    forall i, j | 0 <= i < j < |ys|
      ensures ys[i] < ys[j]
    {
      OnceInMultiset(xs, ys[i]);
      assert ys == ys[..j] + ys[j..];
      assert ys[i] in ys[..j] && ys[j] in ys[j..];
    }
  }

  /** The cpuset of some cores: it reads back as exactly their threads, in increasing order. */
  lemma CpusetOfCores(topology: seq<seq<nat>>, cores: seq<nat>) returns (ids: seq<nat>)
    requires Within(cores, |topology|) && OneCoreEach(topology) && NoRepeats(cores)
    ensures Read(Format(Sort(ThreadsOf(topology, cores)))) == Some(ids)
    ensures Increasing(ids)
    ensures forall x :: x in ids <==> exists k :: 0 <= k < |cores| && x in topology[cores[k]]
  {
    hide Format, Read, Sorted, Increasing, OneCoreEach, NoRepeats, ThreadsOf, Sort;
    var threads := ThreadsOf(topology, cores);
    ids := Sort(threads);
    ThreadsOnce(topology, cores);
    SortSorted(threads);
    SortedOnce(threads, ids);
    FormatReadsBack(ids);
    forall x
      ensures x in ids <==> exists k :: 0 <= k < |cores| && x in topology[cores[k]]
    {
      ThreadsAre(topology, cores, x);
      assert x in ids <==> x in multiset(ids);
      assert x in threads <==> x in multiset(threads);
    }
  }

  lemma {:induction false} RequestingOnce(order: seq<string>, requests: map<string, real>)
    requires NoRepeats(order)
    ensures NoRepeats(Requesting(order, requests))
  {
    if order != [] {
      RequestingOnce(order[1..], requests);
      var rest := Requesting(order[1..], requests);
      assert order[0] !in order[1..];
      assert order[0] !in rest;
    }
  }

  lemma UptoOnce(n: nat)
    ensures NoRepeats(Upto(n))
  {
  }

  lemma SliceOnce(cores: seq<nat>, a: nat, b: nat)
    requires NoRepeats(cores) && a <= b <= |cores|
    ensures NoRepeats(cores[a..b])
  {
  }

  lemma AutoMode(topology: seq<seq<nat>>, requests: map<string, real>, round: Rounding)
    ensures var order := Requesting(PRIORITY_ORDER, requests);
            var r := Deal<nat>(Upto(|topology|), requests, order, |order|, round);
            && (|topology| >= MIN_PHYSICAL_CORES && r.Some? && |r.value.assignment| >= |order| ==>
                  var plan := PlanPlacement(topology, requests, "auto", round); plan.Some? && plan.value.reason.None?)
            && (var plan := PlanPlacement(topology, requests, "auto", round);
                plan.Some? && plan.value.reason.None? ==>
                  && r.Some? && (forall s :: s in r.value.assignment ==> Within(r.value.assignment[s], |topology|))
                  && plan.value.assignments == TextsOf(topology, r.value.assignment))
  {
    hide TextsOf, Deal, Requesting, LogicalCpus, Upto, Total, Quota, PlanEntries, SplitEntries, Within;
    var order := Requesting(PRIORITY_ORDER, requests);
    if Deal<nat>(Upto(|topology|), requests, order, |order|, round).Some? {
      DealtCoresExist(|topology|, requests, order, |order|, round);
    }
    assert "auto" != "off" by { assert |"auto"| != |"off"|; }
  }

  /** The automatic plan, taken apart: who gets which cores, and what is printed for them. */
  lemma AutoPlanParts(topology: seq<seq<nat>>, requests: map<string, real>, round: Rounding, plan: Plan)
      returns (order: seq<string>, d: Dealt<nat>)
    requires PlanPlacement(topology, requests, "auto", round) == Some(plan) && plan.reason.None?
    ensures order == Requesting(PRIORITY_ORDER, requests) && NoRepeats(order)
    ensures Deal<nat>(Upto(|topology|), requests, order, |order|, round) == Some(d)
    ensures plan.assignments.Keys == d.assignment.Keys
    ensures forall s :: s in d.assignment ==>
              && Within(d.assignment[s], |topology|) && NoRepeats(d.assignment[s]) && s in order
              && plan.assignments[s] == Format(Sort(ThreadsOf(topology, d.assignment[s])))
  {
    hide PlanPlacement, Format, Sort, ThreadsOf, Deal, Requesting, Upto, NoRepeats, Within;
    order := Requesting(PRIORITY_ORDER, requests);
    ShippedTotal();
    RequestingOnce(PRIORITY_ORDER, requests);
    AutoMode(topology, requests, round);
    d := Deal<nat>(Upto(|topology|), requests, order, |order|, round).value;
    UptoOnce(|topology|);
    forall s | s in d.assignment
      ensures NoRepeats(d.assignment[s]) && s in order
    {
      ShareOfService(Upto(|topology|), requests, order, round, d, s);
    }
  }

  lemma ShareOfService(cores: seq<nat>, requests: map<string, real>, order: seq<string>, round: Rounding,
                       d: Dealt<nat>, s: string)
    requires NoRepeats(order) && NoRepeats(cores)
    requires Deal<nat>(cores, requests, order, |order|, round) == Some(d)
    requires s in d.assignment
    ensures NoRepeats(d.assignment[s]) && s in order
  {
    hide Deal, NoRepeats, Total, Quota, Shares, Requested, IsSlice;
    SharesAreFair<nat>(cores, requests, order, round);
    assert s in order[..|order|];
    var k :| 0 <= k < |order| && order[k] == s;
    ShareOnce(cores, d.assignment, order, k);
  }

  lemma ShareOnce(cores: seq<nat>, assignment: map<string, seq<nat>>, order: seq<string>, k: nat)
    requires k < |order| && IsSlice(cores, assignment, order, k) && NoRepeats(cores) && order[k] in assignment
    ensures NoRepeats(assignment[order[k]])
  {
    hide Shares;
    SliceOnce(cores, |Shares(assignment, order, k)|, |Shares(assignment, order, k + 1)|);
  }

  lemma DifferentCores(topology: seq<seq<nat>>, c: nat, c': nat, x: nat)
    requires OneCoreEach(topology) && c < |topology| && c' < |topology| && x in topology[c] && x in topology[c']
    ensures c == c'
  {
  }

  /** In an automatic plan every printed cpuset reads back as increasing CPUs, whole cores at a time: a core with one
      CPU in it has all of them in it. */
  lemma AutoPlanGivesWholeCores(topology: seq<seq<nat>>, requests: map<string, real>, round: Rounding, plan: Plan,
                                s: string, c: nat, x: nat, y: nat) returns (ids: seq<nat>)
    requires OneCoreEach(topology)
    requires PlanPlacement(topology, requests, "auto", round) == Some(plan) && plan.reason.None?
    requires s in plan.assignments && c < |topology| && x in topology[c] && y in topology[c]
    ensures Read(plan.assignments[s]) == Some(ids) && Increasing(ids)
    ensures x in ids ==> y in ids
  {
    hide PlanPlacement, Format, Read, Increasing, OneCoreEach, Sort, ThreadsOf, Deal, NoRepeats, Requesting;
    var order, d := AutoPlanParts(topology, requests, round, plan);
    var cores := d.assignment[s];
    ids := CpusetOfCores(topology, cores);
    if x in ids {
      var k :| 0 <= k < |cores| && x in topology[cores[k]];
      DifferentCores(topology, c, cores[k], x);
    }
  }

  /** No CPU is given to two services. */
  lemma AutoPlanIsolates(topology: seq<seq<nat>>, requests: map<string, real>, round: Rounding, plan: Plan,
                         s: string, t: string, x: nat)
    requires OneCoreEach(topology)
    requires PlanPlacement(topology, requests, "auto", round) == Some(plan) && plan.reason.None?
    requires s in plan.assignments && t in plan.assignments && s != t
    ensures Read(plan.assignments[s]).Some? && Read(plan.assignments[t]).Some?
    ensures x !in Read(plan.assignments[s]).value || x !in Read(plan.assignments[t]).value
  {
    hide PlanPlacement, Format, Read, Increasing, OneCoreEach, Sort, ThreadsOf, Deal, NoRepeats, Requesting;
    var order, d := AutoPlanParts(topology, requests, round, plan);
    var ss, ts := d.assignment[s], d.assignment[t];
    var sIds := CpusetOfCores(topology, ss);
    var tIds := CpusetOfCores(topology, ts);
    UptoOnce(|topology|);
    var i :| 0 <= i < |order| && order[i] == s;
    var j :| 0 <= j < |order| && order[j] == t;
    if a, b :| 0 <= a < |ss| && x in topology[ss[a]] && 0 <= b < |ts| && x in topology[ts[b]] {
      DifferentCores(topology, ss[a], ts[b], x);
      SharesAreDisjoint<nat>(Upto(|topology|), requests, order, round, if i < j then i else j, if i < j then j else i,
                             ss[a]);
    }
  }

  /** These are cores, and none of their CPUs is in a cpuset of the plan. */
  predicate LeftFree(topology: seq<seq<nat>>, plan: Plan, free: seq<nat>) {
    && Within(free, |topology|)
    && (forall k, s :: 0 <= k < |free| && s in plan.assignments ==>
          Apart(topology[free[k]], Read(plan.assignments[s])))
  }

  predicate Apart(threads: seq<nat>, ids: Option<seq<nat>>) {
    ids.Some? && forall x :: x in threads ==> x !in ids.value
  }

  /** From eight physical cores on, the shipped requests always lead to a plan for all six services, and the CPUs of
      at least two cores belong to none of them. */
  lemma ShippedPlanSucceeds(topology: seq<seq<nat>>, round: Rounding) returns (free: seq<nat>)
    requires Rounds(round) && |topology| >= MIN_PHYSICAL_CORES && OneCoreEach(topology)
    ensures var plan := PlanPlacement(topology, SHIPPED, "auto", round);
            && plan.Some? && plan.value.reason.None? && plan.value.assignments.Keys == SHIPPED.Keys
            && |free| >= 2 && NoRepeats(free)
            && LeftFree(topology, plan.value, free)
  {
    hide *;
    var n := |topology|;
    var plan := ShippedPlan(topology, round);
    var order, d := AutoPlanParts(topology, SHIPPED, round, plan);
    free := d.remaining;
    ShippedRequestsLeaveTwoCores<nat>(Upto(n), round);
    AllRequest(PRIORITY_ORDER, SHIPPED);
    FreeCores(n, order, round, d);
    NoneGiven(topology, SHIPPED, round, plan, order, d);
  }

  lemma NoneGiven(topology: seq<seq<nat>>, requests: map<string, real>, round: Rounding, plan: Plan,
                  order: seq<string>, d: Dealt<nat>)
    requires OneCoreEach(topology)
    requires PlanPlacement(topology, requests, "auto", round) == Some(plan) && plan.reason.None?
    requires order == Requesting(PRIORITY_ORDER, requests)
    requires Deal<nat>(Upto(|topology|), requests, order, |order|, round) == Some(d)
    requires Within(d.remaining, |topology|)
    ensures LeftFree(topology, plan, d.remaining)
  {
    hide PlanPlacement, Deal, Read, Requesting, NoRepeats, OneCoreEach, Upto, Apart;
    forall k, s | 0 <= k < |d.remaining| && s in plan.assignments
      ensures Apart(topology[d.remaining[k]], Read(plan.assignments[s]))
    {
      NotGiven(topology, requests, round, plan, order, d, k, s);
    }
  }

  lemma ShippedPlan(topology: seq<seq<nat>>, round: Rounding) returns (plan: Plan)
    requires Rounds(round) && |topology| >= MIN_PHYSICAL_CORES
    ensures PlanPlacement(topology, SHIPPED, "auto", round) == Some(plan) && plan.reason.None?
    ensures plan.assignments.Keys == SHIPPED.Keys
    ensures |PRIORITY_ORDER| == 6 && forall k :: 0 <= k < 6 ==> PRIORITY_ORDER[k] in SHIPPED
  {
    hide Deal, Rounds, Upto, Requesting, PlanPlacement, NoRepeats, Total;
    ShippedTotal();
    ShippedRequestsLeaveTwoCores<nat>(Upto(|topology|), round);
    AllRequest(PRIORITY_ORDER, SHIPPED);
    AutoMode(topology, SHIPPED, round);
    var d := Deal<nat>(Upto(|topology|), SHIPPED, PRIORITY_ORDER, 6, round).value;
    KeysCounted(PRIORITY_ORDER, d.assignment.Keys);
    plan := PlanPlacement(topology, SHIPPED, "auto", round).value;
  }

  lemma {:induction false} KeysCounted(order: seq<string>, keys: set<string>)
    requires NoRepeats(order) && forall k :: 0 <= k < |order| ==> order[k] in keys
    ensures |keys| >= |order|
  {
    if order != [] {
      KeysCounted(order[1..], keys - {order[0]});
    }
  }

  lemma {:induction false} AllRequest(order: seq<string>, requests: map<string, real>)
    requires forall k :: 0 <= k < |order| ==> order[k] in requests
    ensures Requesting(order, requests) == order
  {
    if order != [] {
      AllRequest(order[1..], requests);
      assert [order[0]] + order[1..] == order;
    }
  }

  lemma FreeCores(n: nat, order: seq<string>, round: Rounding, d: Dealt<nat>)
    requires NoRepeats(order) && Deal<nat>(Upto(n), SHIPPED, order, |order|, round) == Some(d)
    ensures NoRepeats(d.remaining) && Within(d.remaining, n)
  {
    hide Deal, Upto, Served, NoRepeats, Within;
    DealtCoresExist(n, SHIPPED, order, |order|, round);
    AllServed<nat>(Upto(n), SHIPPED, order, |order|, round);
    RemainingIsLast<nat>(Upto(n), SHIPPED, order, round, d);
    UptoOnce(n);
    SliceOnce(Upto(n), |Shares(d.assignment, order, |order|)|, n);
  }

  lemma NotGiven(topology: seq<seq<nat>>, requests: map<string, real>, round: Rounding, plan: Plan,
                 order: seq<string>, d: Dealt<nat>, k: nat, s: string)
    requires OneCoreEach(topology)
    requires PlanPlacement(topology, requests, "auto", round) == Some(plan) && plan.reason.None?
    requires order == Requesting(PRIORITY_ORDER, requests)
    requires Deal<nat>(Upto(|topology|), requests, order, |order|, round) == Some(d)
    requires s in plan.assignments && k < |d.remaining| && Within(d.remaining, |topology|)
    ensures Apart(topology[d.remaining[k]], Read(plan.assignments[s]))
  {
    hide PlanPlacement, Format, Read, Increasing, OneCoreEach, Sort, ThreadsOf, Deal, NoRepeats, Requesting;
    var order', d' := AutoPlanParts(topology, requests, round, plan);
    var cores := d.assignment[s];
    var ids := CpusetOfCores(topology, cores);
    UptoOnce(|topology|);
    var i :| 0 <= i < |order| && order[i] == s;
    forall x | x in topology[d.remaining[k]]
      ensures x !in ids
    {
      if a :| 0 <= a < |cores| && x in topology[cores[a]] {
        DifferentCores(topology, cores[a], d.remaining[k], x);
        RemainingApart<nat>(Upto(|topology|), requests, order, round, i, cores[a]);
      }
    }
  }
}
