/** CPU placement for performance runs: which physical cores each service gets. Requests and quotas are exact reals,
    and rounding is any function within a half of its argument, so ties may go either way. */
module Placement {
  import opened Options

  type Rounding = real -> int

  ghost predicate Rounds(round: Rounding) {
    forall x: real :: x - 0.5 <= round(x) as real <= x + 0.5
  }

  predicate NoRepeats<T(==)>(xs: seq<T>) {
    forall i, j :: 0 <= i < j < |xs| ==> xs[i] != xs[j]
  }

  // ---------------------------------------------------------------- the share of one service

  /** How many services from i on have a request. */
  function Requested(order: seq<string>, requests: map<string, real>, i: nat): nat
    requires i <= |order|
    decreases |order| - i
  {
    if i == |order| then 0 else (if order[i] in requests then 1 else 0) + Requested(order, requests, i + 1)
  }

  function Total(order: seq<string>, requests: map<string, real>): real {
    if order == [] then 0.0
    else
      var last := order[|order| - 1];
      Total(order[..|order| - 1], requests) + (if last in requests then requests[last] else 0.0)
  }

  /** The rounded quota, half the proportional share of the cores. */
  function Quota(cores: nat, request: real, total: real, round: Rounding): int
    requires total != 0.0
  {
    round(request / total * (cores as real) / 2.0)
  }

  function Max(a: int, b: int): int {
    if a >= b then a else b
  }

  function Min(a: int, b: int): int {
    if a <= b then a else b
  }

  /** What a service takes, capped so that the later ones still get one core each, but never less than one. */
  function Wanted(quota: int, remaining: nat, later: nat): (w: nat)
    ensures w >= 1
  {
    Max(1, Min(Max(1, quota), remaining - (later - 1)))
  }

  // ---------------------------------------------------------------- dealing out the cores

  datatype Dealt<T> = Dealt(remaining: seq<T>, assignment: map<string, seq<T>>)

  /** After the first n services; None for a division by a total of zero. */
  function Deal<T>(cores: seq<T>, requests: map<string, real>, order: seq<string>, n: nat, round: Rounding)
    : Option<Dealt<T>>
    requires n <= |order|
  {
    if n == 0 then Some(Dealt(cores, map[]))
    else
      match Deal(cores, requests, order, n - 1, round)
      case None => None
      case Some(d) =>
        var service := order[n - 1];
        if service !in requests || d.remaining == [] then Some(d)
        else if Total(order, requests) == 0.0 then None
        else
          var quota := Quota(|cores|, requests[service], Total(order, requests), round);
          var size := Min(Wanted(quota, |d.remaining|, Requested(order, requests, n - 1)), |d.remaining|);
          Some(Dealt(d.remaining[size..], d.assignment[service := d.remaining[..size]]))
  }

  method CountLater(order: seq<string>, requests: map<string, real>, i: nat) returns (later: nat)
    requires i <= |order|
    ensures later == Requested(order, requests, i)
  {
    later := 0;
    for k := i to |order|
      invariant later + Requested(order, requests, k) == Requested(order, requests, i)
    {
      if order[k] in requests {
        later := later + 1;
      }
    }
  }

  method ShareSize(cores: nat, request: real, total: real, remaining: nat, later: nat, round: Rounding) returns (size: nat)
    requires total != 0.0
    ensures size == Min(Wanted(Quota(cores, request, total, round), remaining, later), remaining)
  {
    var wanted := Max(1, Quota(cores, request, total, round));
    wanted := Min(wanted, remaining - (later - 1));
    wanted := Max(1, wanted);
    size := Min(wanted, remaining);
  }

  method PartitionCores<T>(cores: seq<T>, requests: map<string, real>, order: seq<string>, round: Rounding)
      returns (r: Option<map<string, seq<T>>>)
    ensures r.None? <==> Deal(cores, requests, order, |order|, round).None?
    ensures r.Some? ==> r.value == Deal(cores, requests, order, |order|, round).value.assignment
  {
    var total := 0.0;
    for k := 0 to |order|
      invariant total == Total(order[..k], requests)
    {
      assert order[..k + 1][..k] == order[..k];
      if order[k] in requests {
        total := total + requests[order[k]];
      }
    }
    assert order[..|order|] == order;
    hide Total, Quota, Wanted, Requested;
    var remaining, assignment := cores, map[];
    for i := 0 to |order|
      invariant Deal(cores, requests, order, i, round) == Some(Dealt(remaining, assignment))
    {
      var service := order[i];
      if service !in requests || remaining == [] {
        continue;
      }
      if total == 0.0 {
        StaysFailed(cores, requests, order, i + 1, round);
        return None;
      }
      var later := CountLater(order, requests, i);
      var size := ShareSize(|cores|, requests[service], total, |remaining|, later, round);
      var take := remaining[..size];
      remaining := remaining[size..];
      assignment := assignment[service := take];
    }
    r := Some(assignment);
  }

  lemma {:induction false} StaysFailed<T>(cores: seq<T>, requests: map<string, real>, order: seq<string>, n: nat,
                                          round: Rounding)
    requires n <= |order| && Deal(cores, requests, order, n, round).None?
    ensures Deal(cores, requests, order, |order|, round).None?
    decreases |order| - n
  {
    if n < |order| {
      assert Deal(cores, requests, order, n + 1, round).None?;
      StaysFailed(cores, requests, order, n + 1, round);
    }
  }

  // ---------------------------------------------------------------- what is dealt

  function ShareOf<T>(assignment: map<string, seq<T>>, service: string): seq<T> {
    if service in assignment then assignment[service] else []
  }

  /** The cores of the first n services, one share after the other. */
  function Shares<T>(assignment: map<string, seq<T>>, order: seq<string>, n: nat): seq<T>
    requires n <= |order|
  {
    if n == 0 then [] else Shares(assignment, order, n - 1) + ShareOf(assignment, order[n - 1])
  }

  lemma {:induction false} SharesUnchanged<T>(assignment: map<string, seq<T>>, service: string, share: seq<T>,
                                              order: seq<string>, n: nat)
    requires n <= |order| && service !in order[..n]
    ensures Shares(assignment[service := share], order, n) == Shares(assignment, order, n)
  {
    if n > 0 {
      assert order[n - 1] in order[..n] && forall s :: s in order[..n - 1] ==> s in order[..n];
      SharesUnchanged(assignment, service, share, order, n - 1);
    }
  }

  /** What holds once n services have been served. */
  ghost predicate Served<T>(cores: seq<T>, requests: map<string, real>, order: seq<string>, n: nat, round: Rounding,
                            d: Dealt<T>)
    requires n <= |order|
  {
    && Shares(d.assignment, order, n) + d.remaining == cores
    && (forall s :: s in d.assignment ==>
          && s in order[..n] && s in requests && |d.assignment[s]| >= 1
          && Total(order, requests) != 0.0
          && |d.assignment[s]| <= Max(1, Quota(|cores|, requests[s], Total(order, requests), round)))
    && (|cores| >= Requested(order, requests, 0) ==>
          && |d.remaining| >= Requested(order, requests, n)
          && (forall k :: 0 <= k < n ==> order[k] in requests ==> order[k] in d.assignment))
    && (|d.remaining| > 0 ==> forall k :: 0 <= k < n ==> order[k] in requests ==> order[k] in d.assignment)
  }

  lemma NotServedBefore(order: seq<string>, n: nat)
    requires NoRepeats(order) && n < |order|
    ensures order[n] !in order[..n]
    ensures order[..n + 1] == order[..n] + [order[n]]
  {
  }

  lemma Skip<T>(cores: seq<T>, requests: map<string, real>, order: seq<string>, n: nat, round: Rounding, d: Dealt<T>)
    requires NoRepeats(order) && n < |order| && Served(cores, requests, order, n, round, d)
    requires order[n] !in requests || d.remaining == []
    ensures Served(cores, requests, order, n + 1, round, d)
  {
    hide Total, Quota, Shares;
    NotServedBefore(order, n);
    SharesOneMore(d.assignment, order, n);
    assert ShareOf(d.assignment, order[n]) == [];
    assert Shares(d.assignment, order, n) + [] == Shares(d.assignment, order, n);
  }

  lemma Take<T>(cores: seq<T>, requests: map<string, real>, order: seq<string>, n: nat, round: Rounding, d: Dealt<T>,
                size: nat, next: Dealt<T>)
    requires NoRepeats(order) && n < |order| && Served(cores, requests, order, n, round, d)
    requires order[n] in requests && 1 <= size <= |d.remaining| && Total(order, requests) != 0.0
    requires size <= Max(1, Quota(|cores|, requests[order[n]], Total(order, requests), round))
    requires next == Dealt(d.remaining[size..], d.assignment[order[n] := d.remaining[..size]])
    requires |d.remaining| >= Requested(order, requests, n) ==> |next.remaining| >= Requested(order, requests, n + 1)
    ensures Served(cores, requests, order, n + 1, round, next)
  {
    hide Total, Quota, Shares, Requested, Max;
    NotServedBefore(order, n);
    SharesOneMore(next.assignment, order, n);
    SharesUnchanged(d.assignment, order[n], d.remaining[..size], order, n);
    assert (Shares(d.assignment, order, n) + d.remaining[..size]) + d.remaining[size..] == cores;
    assert order[n] in order[..n + 1];
    assert forall s :: s in order[..n] ==> s in order[..n + 1];
  }

  lemma ServeOne<T>(cores: seq<T>, requests: map<string, real>, order: seq<string>, n: nat, round: Rounding, d: Dealt<T>)
    requires NoRepeats(order) && n < |order| && Served(cores, requests, order, n, round, d)
    requires Deal(cores, requests, order, n, round) == Some(d)
    requires Deal(cores, requests, order, n + 1, round).Some?
    ensures Served(cores, requests, order, n + 1, round, Deal(cores, requests, order, n + 1, round).value)
  {
    hide Total, Quota, Deal, Served, Requested, NoRepeats, Max;
    ServeOneSplit(cores, requests, order, n, round, d);
    var next := Deal(cores, requests, order, n + 1, round).value;
    if order[n] !in requests || d.remaining == [] {
      Skip(cores, requests, order, n, round, d);
    } else {
      Take(cores, requests, order, n, round, d, |d.remaining| - |next.remaining|, next);
    }
  }

  lemma SharesOneMore<T>(assignment: map<string, seq<T>>, order: seq<string>, n: nat)
    requires n < |order|
    ensures Shares(assignment, order, n + 1) == Shares(assignment, order, n) + ShareOf(assignment, order[n])
  {
  }

  /** One step of the loop, taken apart. */
  lemma ServeOneSplit<T>(cores: seq<T>, requests: map<string, real>, order: seq<string>, n: nat, round: Rounding,
                         d: Dealt<T>)
    requires n < |order| && Deal(cores, requests, order, n, round) == Some(d)
    requires Deal(cores, requests, order, n + 1, round).Some?
    ensures var next := Deal(cores, requests, order, n + 1, round).value;
            if order[n] !in requests || d.remaining == [] then next == d
            else
              var size := |d.remaining| - |next.remaining|;
              && Total(order, requests) != 0.0
              && 1 <= size <= |d.remaining|
              && size <= Max(1, Quota(|cores|, requests[order[n]], Total(order, requests), round))
              && next == Dealt(d.remaining[size..], d.assignment[order[n] := d.remaining[..size]])
              && (|d.remaining| >= Requested(order, requests, n) ==>
                    |next.remaining| >= Requested(order, requests, n + 1))
  {
    hide Total, Quota;
  }

  lemma {:induction false} AllServed<T>(cores: seq<T>, requests: map<string, real>, order: seq<string>, n: nat,
                                        round: Rounding)
    requires NoRepeats(order) && n <= |order| && Deal(cores, requests, order, n, round).Some?
    ensures Served(cores, requests, order, n, round, Deal(cores, requests, order, n, round).value)
  {
    hide Served;
    if n == 0 {
      NobodyServed(cores, requests, order, round);
    } else {
      AllServed(cores, requests, order, n - 1, round);
      ServeOne(cores, requests, order, n - 1, round, Deal(cores, requests, order, n - 1, round).value);
    }
  }

  lemma NobodyServed<T>(cores: seq<T>, requests: map<string, real>, order: seq<string>, round: Rounding)
    ensures Served(cores, requests, order, 0, round, Dealt(cores, map[]))
  {
  }

  /** The share of service k begins where the shares before it end. */
  predicate IsSlice<T(==)>(cores: seq<T>, assignment: map<string, seq<T>>, order: seq<string>, k: nat)
    requires k < |order|
  {
    var a, b := |Shares(assignment, order, k)|, |Shares(assignment, order, k + 1)|;
    a <= b <= |cores| && ShareOf(assignment, order[k]) == cores[a..b]
  }

  /** Cores go out in order: each service has the slice behind those before it, the slices are a prefix of the list,
      and every share is at least one core and at most the rounded quota or one. With as many cores as requests nobody
      goes without; with fewer, somebody does. */
  lemma SharesAreFair<T>(cores: seq<T>, requests: map<string, real>, order: seq<string>, round: Rounding)
    requires NoRepeats(order) && Deal(cores, requests, order, |order|, round).Some?
    ensures var d := Deal(cores, requests, order, |order|, round).value;
            && Served(cores, requests, order, |order|, round, d)
            && (forall k :: 0 <= k < |order| ==> IsSlice(cores, d.assignment, order, k))
            && ((forall k :: 0 <= k < |order| ==> order[k] in requests ==> order[k] in d.assignment)
                <==> |cores| >= Requested(order, requests, 0))
  {
    hide Deal, Total, Quota, Shares, Requested;
    AllServed(cores, requests, order, |order|, round);
    var d := Deal(cores, requests, order, |order|, round).value;
    forall k | 0 <= k < |order|
      ensures IsSlice(cores, d.assignment, order, k)
    {
      SharesOneMore(d.assignment, order, k);
      SharesPrefix(d.assignment, order, k + 1, |order|);
      var before, share := Shares(d.assignment, order, k), ShareOf(d.assignment, order[k]);
      SliceBehind(before, share, Shares(d.assignment, order, |order|), d.remaining);
    }
    if forall k :: 0 <= k < |order| ==> order[k] in requests ==> order[k] in d.assignment {
      EveryShareCounts(d.assignment, requests, order, 0, |order|);
    }
  }

  lemma SliceBehind<T>(before: seq<T>, share: seq<T>, all: seq<T>, rest: seq<T>)
    requires before + share <= all
    ensures (all + rest)[|before|..|before| + |share|] == share
  {
    assert (all + rest)[|before|..|before| + |share|] == all[|before|..|before| + |share|];
  }

  lemma {:induction false} SharesPrefix<T>(assignment: map<string, seq<T>>, order: seq<string>, m: nat, n: nat)
    requires m <= n <= |order|
    ensures Shares(assignment, order, m) <= Shares(assignment, order, n)
    decreases n - m
  {
    if m < n {
      SharesPrefix(assignment, order, m, n - 1);
    }
  }

  lemma {:induction false} EveryShareCounts<T>(assignment: map<string, seq<T>>, requests: map<string, real>,
                                               order: seq<string>, m: nat, n: nat)
    requires m <= n == |order|
    requires forall k :: m <= k < n ==> order[k] in requests ==> order[k] in assignment
    requires forall s :: s in assignment ==> |assignment[s]| >= 1
    ensures |Shares(assignment, order, n)| >= |Shares(assignment, order, m)| + Requested(order, requests, m)
    decreases n - m
  {
    if m < n {
      SharesOneMore(assignment, order, m);
      EveryShareCounts(assignment, requests, order, m + 1, n);
    }
  }

  lemma SlicesApart<T>(cores: seq<T>, a: nat, b: nat, c: nat, d: nat, core: T)
    requires NoRepeats(cores) && a <= b <= c <= d <= |cores|
    ensures core !in cores[a..b] || core !in cores[c..d]
  {
    if core in cores[a..b] {
      var x :| a <= x < b && cores[x] == core;
      forall y | c <= y < d
        ensures cores[y] != core
      {
      }
    }
  }

  /** No core is dealt twice. */
  lemma SharesAreDisjoint<T>(cores: seq<T>, requests: map<string, real>, order: seq<string>, round: Rounding,
                             i: nat, j: nat, core: T)
    requires NoRepeats(order) && NoRepeats(cores) && Deal(cores, requests, order, |order|, round).Some?
    requires i < j < |order|
    ensures var d := Deal(cores, requests, order, |order|, round).value;
            core !in ShareOf(d.assignment, order[i]) || core !in ShareOf(d.assignment, order[j])
  {
    hide Deal, Shares, Served, ShareOf, NoRepeats;
    SharesAreFair(cores, requests, order, round);
    var d := Deal(cores, requests, order, |order|, round).value;
    assert IsSlice(cores, d.assignment, order, i) && IsSlice(cores, d.assignment, order, j);
    SharesPrefix(d.assignment, order, i + 1, j);
    SlicesApart(cores, |Shares(d.assignment, order, i)|, |Shares(d.assignment, order, i + 1)|,
                |Shares(d.assignment, order, j)|, |Shares(d.assignment, order, j + 1)|, core);
  }

  /** No dealt core remains. */
  lemma RemainingApart<T>(cores: seq<T>, requests: map<string, real>, order: seq<string>, round: Rounding,
                          i: nat, core: T)
    requires NoRepeats(order) && NoRepeats(cores) && Deal(cores, requests, order, |order|, round).Some?
    requires i < |order|
    ensures var d := Deal(cores, requests, order, |order|, round).value;
            core !in ShareOf(d.assignment, order[i]) || core !in d.remaining
  {
    hide Deal, Shares, Served, ShareOf, NoRepeats;
    SharesAreFair(cores, requests, order, round);
    var d := Deal(cores, requests, order, |order|, round).value;
    RemainingIsLast(cores, requests, order, round, d);
    assert IsSlice(cores, d.assignment, order, i);
    SharesPrefix(d.assignment, order, i + 1, |order|);
    SlicesApart(cores, |Shares(d.assignment, order, i)|, |Shares(d.assignment, order, i + 1)|,
                |Shares(d.assignment, order, |order|)|, |cores|, core);
  }

  lemma RemainingIsLast<T>(cores: seq<T>, requests: map<string, real>, order: seq<string>, round: Rounding, d: Dealt<T>)
    requires Served(cores, requests, order, |order|, round, d)
    ensures |Shares(d.assignment, order, |order|)| <= |cores|
    ensures d.remaining == cores[|Shares(d.assignment, order, |order|)|..|cores|]
  {
  }

  // ---------------------------------------------------------------- the shipped requests

  const SHIPPED: map<string, real> := map[
    "shire-server" := 4.0, "shire-director" := 4.0, "shire-fsw" := 4.0, "shire-42" := 2.0, "shire-gsw" := 2.0,
    "shire-cryptolib" := 1.0]

  const PRIORITY_ORDER: seq<string> := [
    "shire-server", "shire-director", "shire-fsw", "shire-42", "shire-gsw", "shire-cryptolib"]

  const MIN_PHYSICAL_CORES := 8

  lemma ShippedTotal()
    ensures Total(PRIORITY_ORDER, SHIPPED) == 17.0
    ensures Requested(PRIORITY_ORDER, SHIPPED, 0) == 6
    ensures NoRepeats(PRIORITY_ORDER)
  {
    var order := PRIORITY_ORDER;
    assert order[..6] == order;
    assert Total(order[..0], SHIPPED) == 0.0;
    assert Total(order[..1], SHIPPED) == 4.0 by { assert order[..1][..0] == order[..0]; }
    assert Total(order[..2], SHIPPED) == 8.0 by { assert order[..2][..1] == order[..1]; }
    assert Total(order[..3], SHIPPED) == 12.0 by { assert order[..3][..2] == order[..2]; }
    assert Total(order[..4], SHIPPED) == 14.0 by { assert order[..4][..3] == order[..3]; }
    assert Total(order[..5], SHIPPED) == 16.0 by { assert order[..5][..4] == order[..4]; }
    assert Total(order[..6], SHIPPED) == 17.0 by { assert order[..6][..5] == order[..5]; }
    assert Requested(order, SHIPPED, 3) == 3;
  }

  /** A share of `parts` seventeenths of half the cores, rounded. */
  lemma QuotaOfParts(cores: nat, parts: nat, round: Rounding)
    requires Rounds(round)
    ensures 34 * Quota(cores, parts as real, 17.0, round) <= parts * cores + 17
  {
    var exact := (parts as real) / 17.0 * (cores as real) / 2.0;
    assert round(exact) as real <= exact + 0.5;
    assert 34.0 * exact == (parts as real) * (cores as real);
  }

  lemma {:induction false} NeverFails<T>(cores: seq<T>, requests: map<string, real>, order: seq<string>, n: nat,
                                         round: Rounding)
    requires n <= |order| && Total(order, requests) != 0.0
    ensures Deal(cores, requests, order, n, round).Some?
  {
    if n > 0 {
      NeverFails(cores, requests, order, n - 1, round);
    }
  }

  lemma ShippedParts()
    ensures forall k :: 0 <= k < 6 ==>
              PRIORITY_ORDER[k] in SHIPPED && SHIPPED[PRIORITY_ORDER[k]] == (PartsOf(k) as real)
    ensures SHIPPED.Keys == (set k | 0 <= k < 6 :: PRIORITY_ORDER[k])
  {
    assert PRIORITY_ORDER[0] == "shire-server" && PRIORITY_ORDER[1] == "shire-director"
           && PRIORITY_ORDER[2] == "shire-fsw" && PRIORITY_ORDER[3] == "shire-42" && PRIORITY_ORDER[4] == "shire-gsw"
           && PRIORITY_ORDER[5] == "shire-cryptolib";
  }

  function PartsOf(k: nat): nat {
    if k < 3 then 4 else if k < 5 then 2 else 1
  }

  /** The share of shipped service k: one core, or at most its rounded part. */
  lemma ShippedShare<T>(cores: seq<T>, round: Rounding, d: Dealt<T>, k: nat)
    requires Rounds(round) && k < 6 && Served(cores, SHIPPED, PRIORITY_ORDER, 6, round, d)
    requires |cores| >= 6
    ensures PRIORITY_ORDER[k] in d.assignment
    ensures var size := |Shares(d.assignment, PRIORITY_ORDER, k + 1)| - |Shares(d.assignment, PRIORITY_ORDER, k)|;
            size <= 1 || 34 * size <= PartsOf(k) * |cores| + 17
  {
    hide Quota, Rounds, Total, Shares, Requested;
    ShippedTotal();
    ShippedParts();
    var service := PRIORITY_ORDER[k];
    QuotaOfParts(|cores|, PartsOf(k), round);
    ShareOfParts(d.assignment, PRIORITY_ORDER, k, |cores|, PartsOf(k), Quota(|cores|, SHIPPED[service], 17.0, round));
  }

  /** From eight cores on, the shipped requests place all six services and leave two cores to the host. */
  lemma ShippedRequestsLeaveTwoCores<T>(cores: seq<T>, round: Rounding)
    requires Rounds(round) && |cores| >= MIN_PHYSICAL_CORES
    ensures var d := Deal(cores, SHIPPED, PRIORITY_ORDER, 6, round);
            d.Some? && d.value.assignment.Keys == SHIPPED.Keys && |d.value.remaining| >= 2
  {
    hide Deal, Quota, Rounds, Total, Shares, Requested, Served;
    ShippedTotal();
    NeverFails(cores, SHIPPED, PRIORITY_ORDER, 6, round);
    AllServed(cores, SHIPPED, PRIORITY_ORDER, 6, round);
    var d := Deal(cores, SHIPPED, PRIORITY_ORDER, 6, round).value;
    ServedCounts(cores, SHIPPED, PRIORITY_ORDER, 6, round, d);
    var n := |cores|;
    NoShares(d.assignment, PRIORITY_ORDER);
    ShippedShare(cores, round, d, 0);
    ShippedShare(cores, round, d, 1);
    ShippedShare(cores, round, d, 2);
    ShippedShare(cores, round, d, 3);
    ShippedShare(cores, round, d, 4);
    ShippedShare(cores, round, d, 5);
    SixShares(n, |Shares(d.assignment, PRIORITY_ORDER, 1)|, |Shares(d.assignment, PRIORITY_ORDER, 2)|,
              |Shares(d.assignment, PRIORITY_ORDER, 3)|, |Shares(d.assignment, PRIORITY_ORDER, 4)|,
              |Shares(d.assignment, PRIORITY_ORDER, 5)|, |Shares(d.assignment, PRIORITY_ORDER, 6)|);
    ShippedParts();
    forall s | s in SHIPPED
      ensures s in d.assignment
    {
      var k :| 0 <= k < 6 && PRIORITY_ORDER[k] == s;
      ShippedShare(cores, round, d, k);
    }
    assert d.assignment.Keys == SHIPPED.Keys;
  }

  lemma ServedCounts<T>(cores: seq<T>, requests: map<string, real>, order: seq<string>, n: nat, round: Rounding,
                        d: Dealt<T>)
    requires n <= |order| && Served(cores, requests, order, n, round, d)
    ensures |cores| == |Shares(d.assignment, order, n)| + |d.remaining|
    ensures forall s :: s in d.assignment ==> s in requests
  {
    hide Total, Quota, Shares, Requested;
  }

  /** Four, four, four, two, two and one seventeenths of half the cores, each rounded, leave two of eight or more. */
  lemma SixShares(n: nat, a: nat, b: nat, c: nat, d: nat, e: nat, f: nat)
    requires n >= 8
    requires a <= 1 || 34 * a <= 4 * n + 17
    requires b - a <= 1 || 34 * (b - a) <= 4 * n + 17
    requires c - b <= 1 || 34 * (c - b) <= 4 * n + 17
    requires d - c <= 1 || 34 * (d - c) <= 2 * n + 17
    requires e - d <= 1 || 34 * (e - d) <= 2 * n + 17
    requires f - e <= 1 || 34 * (f - e) <= n + 17
    ensures f + 2 <= n
  {
  }

  lemma NoShares<T>(assignment: map<string, seq<T>>, order: seq<string>)
    ensures Shares(assignment, order, 0) == []
  {
  }

  /** At most one core, or at most the rounded part. */
  lemma ShareOfParts<T>(assignment: map<string, seq<T>>, order: seq<string>, k: nat, cores: nat, parts: nat, quota: int)
    requires k < |order| && order[k] in assignment && |assignment[order[k]]| <= Max(1, quota)
    requires 34 * quota <= parts * cores + 17
    ensures var size := |Shares(assignment, order, k + 1)| - |Shares(assignment, order, k)|;
            size <= 1 || 34 * size <= parts * cores + 17
  {
    SharesOneMore(assignment, order, k);
  }
}
