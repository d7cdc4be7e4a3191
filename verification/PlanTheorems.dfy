/** Which placement plans there are: what a manual text has to be, and when a plan gives a reason. */
module PlanTheorems {
  import opened Options
  import opened Text
  import opened Cpuset
  import opened Placement
  import opened PlacementPlan

  // ---------------------------------------------------------------- manual texts

  /** An entry that assigns a cpuset to a service, once blanks are stripped from both. */
  predicate Assigns(entry: string) {
    exists e :: 0 <= e < |Strip(entry)| && IsAssignment(Strip(entry), e)
  }

  predicate IsAssignment(entry: string, e: nat)
    requires e < |entry|
  {
    && entry[e] == '=' && (forall k :: 0 <= k < e ==> entry[k] != '=')
    && Strip(entry[..e]) != "" && IsCpuset(Strip(entry[e + 1..]))
  }

  lemma AssignsAtFirstEquals(entry: string)
    ensures Assigns(entry) <==>
              var e := FirstEquals(Strip(entry));
              e < |Strip(entry)| && Strip(Strip(entry)[..e]) != "" && IsCpuset(Strip(Strip(entry)[e + 1..]))
  {
    hide Strip, IsCpuset;
    var text := Strip(entry);
    var e := FirstEquals(text);
    if Assigns(entry) {
      var f :| 0 <= f < |text| && IsAssignment(text, f);
      assert f == e;
    }
    if e < |text| && Strip(text[..e]) != "" && IsCpuset(Strip(text[e + 1..])) {
      assert IsAssignment(text, e);
    }
  }

  /** Blank entries aside. */
  predicate AllAssign(entries: seq<string>) {
    forall k :: 0 <= k < |entries| ==> Strip(entries[k]) == "" || Assigns(entries[k])
  }

  predicate SomeAssigns(entries: seq<string>) {
    exists k :: 0 <= k < |entries| && Assigns(entries[k])
  }

  lemma {:induction false} EntriesExactly(entries: seq<string>, chosen: map<string, string>)
    ensures var plan := PlanEntries(entries, chosen);
            && plan.mode == "manual" && plan.summary.None?
            && (plan.reason.None? <==> AllAssign(entries) && (chosen != map[] || SomeAssigns(entries)))
            && (plan.reason.Some? ==> plan.assignments == map[])
            && (plan.reason.None? ==> plan.assignments != map[])
    decreases |entries|
  {
    hide Strip, IsCpuset, FirstEquals, Assigns;
    if entries != [] {
      AssignsAtFirstEquals(entries[0]);
      EntriesSplit(entries);
      BlankAssignsNothing(entries[0]);
      var entry := Strip(entries[0]);
      if entry == "" {
        EntriesExactly(entries[1..], chosen);
      } else {
        var e := FirstEquals(entry);
        if e < |entry| {
          var service, cpuset := Strip(entry[..e]), Strip(entry[e + 1..]);
          assert chosen[service := cpuset] != map[] by { assert service in chosen[service := cpuset]; }
          EntriesExactly(entries[1..], chosen[service := cpuset]);
        }
      }
    }
  }

  lemma BlankAssignsNothing(entry: string)
    ensures Strip(entry) == "" ==> !Assigns(entry)
  {
  }

  lemma EntriesSplit(entries: seq<string>)
    requires entries != []
    ensures AllAssign(entries) <==> (Strip(entries[0]) == "" || Assigns(entries[0])) && AllAssign(entries[1..])
    ensures SomeAssigns(entries) <==> Assigns(entries[0]) || SomeAssigns(entries[1..])
  {
    hide Strip, Assigns;
    assert forall k :: 1 <= k < |entries| ==> entries[k] == entries[1..][k - 1];
    if AllAssign(entries[1..]) && (Strip(entries[0]) == "" || Assigns(entries[0])) {
      forall k | 0 <= k < |entries|
        ensures Strip(entries[k]) == "" || Assigns(entries[k])
      {
      }
    }
    if SomeAssigns(entries[1..]) {
      var k :| 0 <= k < |entries| - 1 && Assigns(entries[1..][k]);
      assert Assigns(entries[k + 1]);
    }
    if SomeAssigns(entries) {
      var k :| 0 <= k < |entries| && Assigns(entries[k]);
      if k > 0 {
        assert Assigns(entries[1..][k - 1]);
      }
    }
  }

  /** A manual text is followed exactly if every entry that is not blank assigns a cpuset to a service, and there is one;
      otherwise nothing of it is. */
  lemma ManualPlanExactly(topology: seq<seq<nat>>, requests: map<string, real>, mode: string, round: Rounding)
    requires mode != "off" && mode != "auto"
    ensures var plan := PlanPlacement(topology, requests, mode, round);
            && plan.Some? && plan.value.mode == "manual"
            && (plan.value.reason.None? <==> AllAssign(SplitEntries(mode)) && SomeAssigns(SplitEntries(mode)))
            && (plan.value.reason.Some? ==> plan.value.assignments == map[])
  {
    hide SplitEntries, PlanEntries, AllAssign, SomeAssigns;
    EntriesExactly(SplitEntries(mode), map[]);
  }

  // ---------------------------------------------------------------- reasons

  /** A plan is to give a reason exactly if it assigns nothing. It keeps this except in one case: an automatic plan on
      enough cores for requests that name none of the six services, which assigns nothing and gives no reason. */
  lemma ReasonExactly(topology: seq<seq<nat>>, requests: map<string, real>, mode: string, round: Rounding, plan: Plan)
    requires PlanPlacement(topology, requests, mode, round) == Some(plan)
    ensures (plan.reason.None? <==> plan.assignments != map[]) <==>
              !(mode == "auto" && |topology| >= 8
                && forall k :: 0 <= k < 6 ==> PRIORITY_ORDER[k] !in requests)
  {
    hide PlanPlacement, PlanEntries, SplitEntries, Deal;
    if mode == "off" {
      OffPlan(topology, requests, round);
    } else if mode != "auto" {
      ManualReason(topology, requests, mode, round, plan);
    } else {
      AutoReason(topology, requests, round, plan);
    }
  }

  lemma OffPlan(topology: seq<seq<nat>>, requests: map<string, real>, round: Rounding)
    ensures PlanPlacement(topology, requests, "off", round) == Some(Plan("off", map[], Some(Disabled), None))
  {
  }

  lemma ManualReason(topology: seq<seq<nat>>, requests: map<string, real>, mode: string, round: Rounding, plan: Plan)
    requires mode != "off" && mode != "auto" && PlanPlacement(topology, requests, mode, round) == Some(plan)
    ensures plan.reason.None? <==> plan.assignments != map[]
  {
    hide SplitEntries, PlanEntries;
    EntriesExactly(SplitEntries(mode), map[]);
  }

  lemma AutoReason(topology: seq<seq<nat>>, requests: map<string, real>, round: Rounding, plan: Plan)
    requires PlanPlacement(topology, requests, "auto", round) == Some(plan)
    ensures |topology| < 8 ==> plan.reason.Some? && plan.assignments == map[]
    ensures |topology| >= 8 && Requesting(PRIORITY_ORDER, requests) == [] ==>
              plan.reason.None? && plan.assignments == map[]
    ensures |topology| >= 8 && Requesting(PRIORITY_ORDER, requests) != [] ==>
              (plan.reason.None? <==> plan.assignments != map[])
    ensures Requesting(PRIORITY_ORDER, requests) == [] <==> forall k :: 0 <= k < 6 ==> PRIORITY_ORDER[k] !in requests
  {
    hide LogicalCpus, Format, Sort, ThreadsOf, Total, Quota, Wanted;
    NoneRequested(requests);
    var order := Requesting(PRIORITY_ORDER, requests);
    if |topology| >= 8 && order != [] {
      var d := Deal<nat>(Upto(|topology|), requests, order, |order|, round).value;
      if |d.assignment| >= |order| {
        assert d.assignment != map[];
        var s :| s in d.assignment;
        assert s in plan.assignments;
      }
    }
  }

  lemma NoneRequested(requests: map<string, real>)
    ensures Requesting(PRIORITY_ORDER, requests) == [] <==> forall k :: 0 <= k < 6 ==> PRIORITY_ORDER[k] !in requests
  {
    var order := Requesting(PRIORITY_ORDER, requests);
    if order != [] {
      assert order[0] in order;
      var k :| 0 <= k < |PRIORITY_ORDER| && PRIORITY_ORDER[k] == order[0];
    } else {
      forall k | 0 <= k < 6
        ensures PRIORITY_ORDER[k] !in requests
      {
        assert PRIORITY_ORDER[k] in PRIORITY_ORDER && PRIORITY_ORDER[k] !in order;
      }
    }
  }

  // ---------------------------------------------------------------- automatic plans

  function Weight(requests: map<string, real>, service: string): real {
    if service in requests then requests[service] else 0.0
  }

  /** What the six services ask for together. */
  function AllWeights(requests: map<string, real>): real {
    Weight(requests, "shire-server") + Weight(requests, "shire-director") + Weight(requests, "shire-fsw")
    + Weight(requests, "shire-42") + Weight(requests, "shire-gsw") + Weight(requests, "shire-cryptolib")
  }

  lemma {:induction false} TotalOfBoth(xs: seq<string>, ys: seq<string>, requests: map<string, real>)
    ensures Total(xs + ys, requests) == Total(xs, requests) + Total(ys, requests)
    decreases |ys|
  {
    if ys == [] {
      assert xs + ys == xs;
    } else {
      var n := |ys| - 1;
      TotalOfBoth(xs, ys[..n], requests);
      assert (xs + ys)[..|xs + ys| - 1] == xs + ys[..n] && (xs + ys)[|xs + ys| - 1] == ys[n];
    }
  }

  lemma {:induction false} TotalOfRequesting(order: seq<string>, requests: map<string, real>)
    ensures Total(Requesting(order, requests), requests) == Total(order, requests)
  {
    if order != [] {
      TotalOfRequesting(order[1..], requests);
      assert order == [order[0]] + order[1..];
      TotalOfBoth([order[0]], order[1..], requests);
      TotalOfOne(order[0], requests);
      var first := if order[0] in requests then [order[0]] else [];
      TotalOfBoth(first, Requesting(order[1..], requests), requests);
    }
  }

  lemma TotalOfOne(service: string, requests: map<string, real>)
    ensures Total([service], requests) == Weight(requests, service) && Total([], requests) == 0.0
  {
    assert [service][..0] == [];
  }

  lemma TotalOfSix(requests: map<string, real>)
    ensures Total(PRIORITY_ORDER, requests) == AllWeights(requests)
  {
    hide Total, Weight;
    var order := PRIORITY_ORDER;
    assert order == [order[0]] + ([order[1]] + ([order[2]] + ([order[3]] + ([order[4]] + [order[5]]))));
    TotalOfBoth([order[4]], [order[5]], requests);
    TotalOfBoth([order[3]], [order[4]] + [order[5]], requests);
    TotalOfBoth([order[2]], [order[3]] + ([order[4]] + [order[5]]), requests);
    TotalOfBoth([order[1]], [order[2]] + ([order[3]] + ([order[4]] + [order[5]])), requests);
    TotalOfBoth([order[0]], [order[1]] + ([order[2]] + ([order[3]] + ([order[4]] + [order[5]]))), requests);
    forall k | 0 <= k < 6
      ensures Total([order[k]], requests) == Weight(requests, order[k])
    {
      TotalOfOne(order[k], requests);
    }
  }

  /** Requests that add up to nothing cannot be divided by, and the first of them meets this. */
  lemma {:induction false} DividesExactly(cores: seq<nat>, requests: map<string, real>, order: seq<string>, n: nat,
                                          round: Rounding)
    requires n <= |order| && cores != [] && (forall k :: 0 <= k < |order| ==> order[k] in requests)
    ensures Deal(cores, requests, order, n, round).None? <==> n > 0 && Total(order, requests) == 0.0
  {
    hide Total;
    if Total(order, requests) != 0.0 {
      NeverFails(cores, requests, order, n, round);
    } else if n > 0 {
      DividesExactly(cores, requests, order, n - 1, round);
    }
  }

  /** With a core for each, every requested service of the order gets some. */
  lemma EveryoneServed(n: nat, requests: map<string, real>, order: seq<string>, round: Rounding)
    requires NoRepeats(order) && |order| <= n && (forall k :: 0 <= k < |order| ==> order[k] in requests)
    requires Deal<nat>(Upto(n), requests, order, |order|, round).Some?
    ensures var d := Deal<nat>(Upto(n), requests, order, |order|, round).value;
            |d.assignment| >= |order| && forall s :: s in d.assignment <==> s in order
  {
    hide Deal, Total, Quota, Max, Shares;
    RequestedAtMost(order, requests, 0);
    AllServed(Upto(n), requests, order, |order|, round);
    var d := Deal<nat>(Upto(n), requests, order, |order|, round).value;
    KeysCounted(order, d.assignment.Keys);
    assert order[..|order|] == order;
  }

  lemma {:induction false} RequestedAtMost(order: seq<string>, requests: map<string, real>, i: nat)
    requires i <= |order|
    ensures Requested(order, requests, i) <= |order| - i
    decreases |order| - i
  {
    if i < |order| {
      RequestedAtMost(order, requests, i + 1);
    }
  }

  lemma {:induction false} AtMostAsMany(order: seq<string>, requests: map<string, real>)
    ensures |Requesting(order, requests)| <= |order|
    ensures forall k :: 0 <= k < |Requesting(order, requests)| ==> Requesting(order, requests)[k] in requests
  {
    if order != [] {
      AtMostAsMany(order[1..], requests);
    }
  }

  lemma SixServices(requests: map<string, real>)
    ensures var order := Requesting(PRIORITY_ORDER, requests);
            && |order| <= 6 && NoRepeats(order) && Total(order, requests) == AllWeights(requests)
            && (forall k :: 0 <= k < |order| ==> order[k] in requests)
            && (order == [] <==> forall k :: 0 <= k < 6 ==> PRIORITY_ORDER[k] !in requests)
  {
    hide Total, Requesting, AllWeights, NoRepeats;
    AtMostAsMany(PRIORITY_ORDER, requests);
    RequestingOnce(PRIORITY_ORDER, requests) by { ShippedTotal(); }
    TotalOfRequesting(PRIORITY_ORDER, requests);
    TotalOfSix(requests);
    NoneRequested(requests);
  }

  /** The automatic plan for any requests. It fails, by a division, exactly if there are eight cores and requests of the
      six services that add up to zero. Else it says that there is no topology, or that there are fewer than eight cores;
      or it gives cores to exactly those of the six services that are requested. It never lacks cores. */
  lemma AutoPlanExactly(topology: seq<seq<nat>>, requests: map<string, real>, round: Rounding)
    ensures var r, summary := PlanPlacement(topology, requests, "auto", round),
                              Some((|topology|, LogicalCpus(topology)));
            && (r.None? <==> |topology| >= 8 && AllWeights(requests) == 0.0
                             && exists k :: 0 <= k < 6 && PRIORITY_ORDER[k] in requests)
            && (topology == [] ==> r == Some(Plan("auto", map[], Some(NoTopology), None)))
            && (0 < |topology| < 8 ==> r == Some(Plan("auto", map[], Some(TooFewCores(|topology|)), summary)))
            && (|topology| >= 8 && r.Some? ==>
                  && r.value.mode == "auto" && r.value.reason.None? && r.value.summary == summary
                  && forall s :: s in r.value.assignments <==> s in PRIORITY_ORDER && s in requests)
  {
    hide LogicalCpus, Deal, AllWeights, Total, NoRepeats, Requesting, Upto, PlanEntries, SplitEntries;
    var order := Requesting(PRIORITY_ORDER, requests);
    SixServices(requests);
    assert "auto" != "off" by { assert |"auto"| != |"off"|; }
    if |topology| >= 8 {
      assert |Upto(|topology|)| == |topology|;
      DividesExactly(Upto(|topology|), requests, order, |order|, round);
      if Deal<nat>(Upto(|topology|), requests, order, |order|, round).Some? {
        EveryoneServed(|topology|, requests, order, round);
        DealtCoresExist(|topology|, requests, order, |order|, round);
      }
    }
  }

  /** Logical CPUs are counted core by core. */
  lemma {:induction false} CpusAreCounted(some: seq<seq<nat>>, more: seq<seq<nat>>, core: seq<nat>)
    ensures LogicalCpus([core]) == |core|
    ensures LogicalCpus(some + more) == LogicalCpus(some) + LogicalCpus(more)
    decreases |some|
  {
    assert [core][1..] == [];
    if some == [] {
      assert some + more == more;
    } else {
      CpusAreCounted(some[1..], more, core);
      assert (some + more)[1..] == some[1..] + more;
    }
  }

  // ---------------------------------------------------------------- the texts themselves

  lemma SmallNumbers()
    ensures Decimal(0) == "0" && Decimal(2) == "2" && Decimal(4) == "4"
  {
    assert "0123456789"[0] == '0' && "0123456789"[2] == '2' && "0123456789"[4] == '4';
  }

  lemma RangesExample()
    ensures RangesOf([0, 1, 2, 4]) == [(0, 2), (4, 4)]
  {
    var ids := [0, 1, 2, 4];
    assert ids[..3] == [0, 1, 2] && [0, 1, 2][..2] == [0, 1] && [0, 1][..1] == [0] && [0][..0] == [];
    assert RangesOf([0]) == [(0, 0)];
    assert RangesOf([0, 1]) == [(0, 1)];
    assert RangesOf([0, 1, 2]) == [(0, 2)];
  }

  /** The example of the source: ranges with a dash, single CPUs, commas between them. */
  lemma CpusetExample()
    ensures Format([0, 1, 2, 4]) == "0-2,4"
  {
    hide Decimal, RangesOf, Join;
    RangesExample();
    SmallNumbers();
    var ranges: seq<Range> := [(0, 2), (4, 4)];
    assert PieceOf(ranges[0]) == "0" + "-" + "2" == "0-2" && PieceOf(ranges[1]) == "4";
    var pieces := PiecesOf(ranges);
    assert |pieces| == 2 && pieces[0] == "0-2" && pieces[1] == "4";
    assert pieces == ["0-2", "4"];
    JoinTwo("0-2", "4");
  }

  lemma JoinTwo(a: string, b: string)
    ensures Join([a, b], ',') == a + "," + b
  {
    assert [a, b][1..] == [b];
  }
}
