/** How large the shares are that partition_cores deals out, exactly. */
module PlacementShares {
  import opened Options
  import opened Placement

  /** The services with a request behind place k. */
  function LaterOnes(order: seq<string>, requests: map<string, real>, k: nat): set<nat> {
    set j: nat | k < j < |order| && order[j] in requests
  }

  lemma {:induction false} LaterOnesAreCounted(order: seq<string>, requests: map<string, real>, k: nat)
    requires k < |order|
    ensures Requested(order, requests, k + 1) == |LaterOnes(order, requests, k)|
    decreases |order| - k
  {
    if k + 1 < |order| {
      LaterOnesAreCounted(order, requests, k + 1);
      var next := LaterOnes(order, requests, k + 1);
      if order[k + 1] in requests {
        assert LaterOnes(order, requests, k) == next + {k + 1};
      } else {
        assert LaterOnes(order, requests, k) == next;
      }
    } else {
      assert LaterOnes(order, requests, k) == {};
    }
  }

  /** The share a service gets: its part of half the cores, rounded and at least one; but no more than leaves one core to
      each later service, and one core if even that is not there. */
  function ShareSizeOf(quota: int, spare: int): nat {
    if quota <= 1 || spare <= 1 then 1 else if quota < spare then quota else spare
  }

  /** Service k, whatever was dealt before it: the first cores that remain, as many as its share. */
  lemma ShareIsExact<T>(cores: seq<T>, requests: map<string, real>, order: seq<string>, k: nat, round: Rounding)
    requires k < |order| && Deal(cores, requests, order, k + 1, round).Some?
    ensures Deal(cores, requests, order, k, round).Some?
    ensures var (d, next) := (Deal(cores, requests, order, k, round).value,
                              Deal(cores, requests, order, k + 1, round).value);
            if order[k] !in requests || d.remaining == [] then next == d
            else
              && Total(order, requests) != 0.0
              && var size := ShareSizeOf(QuotaOf(|cores|, requests[order[k]], Total(order, requests), round),
                                         |d.remaining| - |LaterOnes(order, requests, k)|);
                 && size <= |d.remaining|
                 && next == Dealt(d.remaining[size..], d.assignment[order[k] := d.remaining[..size]])
  {
    hide Total, LaterOnes, Wanted, ShareSizeOf, Quota, QuotaOf;
    LaterOnesAreCounted(order, requests, k);
    var d := Deal(cores, requests, order, k, round).value;
    if order[k] in requests && d.remaining != [] {
      QuotasAgree(|cores|, requests[order[k]], Total(order, requests), round);
      assert Requested(order, requests, k) == Requested(order, requests, k + 1) + 1;
      SizesAgree(Quota(|cores|, requests[order[k]], Total(order, requests), round), |d.remaining|,
                 Requested(order, requests, k + 1));
    }
  }

  /** Half the cores in proportion to the requests. */
  function QuotaOf(cores: nat, request: real, total: real, round: Rounding): int
    requires total != 0.0
  {
    round(request / total * (cores as real) / 2.0)
  }

  lemma QuotasAgree(cores: nat, request: real, total: real, round: Rounding)
    requires total != 0.0
    ensures Quota(cores, request, total, round) == QuotaOf(cores, request, total, round)
  {
  }

  lemma SizesAgree(quota: int, remaining: nat, later: nat)
    requires remaining > 0
    ensures Min(Wanted(quota, remaining, later + 1), remaining) == ShareSizeOf(quota, remaining - later) <= remaining
  {
  }

  /** After k services each of them has its part, in this order. */
  lemma {:induction false} DealtUpTo<T>(cores: seq<T>, m: nat, round: Rounding, k: nat)
    requires Rounds(round) && m > 0 && |cores| == 34 * m && k <= 6
    ensures PartsBefore(k) * m <= |cores| && Deal(cores, SHIPPED, PRIORITY_ORDER, k, round).Some?
    ensures Deal(cores, SHIPPED, PRIORITY_ORDER, k, round).value.remaining == cores[PartsBefore(k) * m..]
    ensures forall j :: 0 <= j < k ==> HasPart(cores, m, Deal(cores, SHIPPED, PRIORITY_ORDER, k, round).value, j)
  {
    hide Deal, Total, Rounds, PartsBefore, PartsOf;
    if k == 0 {
      Nothing(cores, round);
      assert cores[0..] == cores;
    } else {
      DealtUpTo(cores, m, round, k - 1);
      var before := Deal(cores, SHIPPED, PRIORITY_ORDER, k - 1, round).value;
      DealtOne(cores, m, round, k - 1, PartsBefore(k - 1) * m, before.assignment);
      forall j | 0 <= j < k
        ensures HasPart(cores, m, Deal(cores, SHIPPED, PRIORITY_ORDER, k, round).value, j)
      {
        DifferentServices(j, k - 1);
        if j < k - 1 {
          assert HasPart(cores, m, before, j);
        }
      }
    }
  }

  lemma DifferentServices(j: nat, k: nat)
    requires j <= k < 6
    ensures j < k ==> ServiceAt(j) != ServiceAt(k)
  {
    ShippedTotal();
    ServiceIs(j);
    ServiceIs(k);
  }

  predicate HasPart<T(==)>(cores: seq<T>, m: nat, d: Dealt<T>, k: nat) {
    var from := PartsBefore(k) * m;
    && from + PartsOf(k) * m <= |cores| && ServiceAt(k) in d.assignment
    && d.assignment[ServiceAt(k)] == cores[from..from + PartsOf(k) * m]
  }

  /** Every request weighs what it says: with 34 cores for each m the shipped services get 4m, 4m, 4m, 2m, 2m and m. */
  lemma ShippedSharesAreProportional<T>(cores: seq<T>, m: nat, round: Rounding)
    requires Rounds(round) && m > 0 && |cores| == 34 * m
    ensures Deal(cores, SHIPPED, PRIORITY_ORDER, 6, round).Some?
    ensures var d := Deal(cores, SHIPPED, PRIORITY_ORDER, 6, round).value;
            && "shire-server" in d.assignment && d.assignment["shire-server"] == cores[0..4 * m]
            && "shire-director" in d.assignment && d.assignment["shire-director"] == cores[4 * m..8 * m]
            && "shire-fsw" in d.assignment && d.assignment["shire-fsw"] == cores[8 * m..12 * m]
            && "shire-42" in d.assignment && d.assignment["shire-42"] == cores[12 * m..14 * m]
            && "shire-gsw" in d.assignment && d.assignment["shire-gsw"] == cores[14 * m..16 * m]
            && "shire-cryptolib" in d.assignment && d.assignment["shire-cryptolib"] == cores[16 * m..17 * m]
            && d.remaining == cores[17 * m..]
  {
    hide Deal, Rounds;
    DealtUpTo(cores, m, round, 6);
    var d := Deal(cores, SHIPPED, PRIORITY_ORDER, 6, round).value;
    assert HasPart(cores, m, d, 0) && HasPart(cores, m, d, 1) && HasPart(cores, m, d, 2);
    assert HasPart(cores, m, d, 3) && HasPart(cores, m, d, 4) && HasPart(cores, m, d, 5);
  }

  lemma Nothing<T>(cores: seq<T>, round: Rounding)
    ensures Deal(cores, SHIPPED, PRIORITY_ORDER, 0, round) == Some(Dealt(cores, map[]))
    ensures PartsBefore(0) == 0
  {
  }

  lemma DealtOne<T>(cores: seq<T>, m: nat, round: Rounding, k: nat, from: nat, assignment: map<string, seq<T>>)
    requires Rounds(round) && m > 0 && |cores| == 34 * m && k < 6 && from == PartsBefore(k) * m
    requires Deal(cores, SHIPPED, PRIORITY_ORDER, k, round) == Some(Dealt(cores[from..], assignment))
    ensures PRIORITY_ORDER[k] == ServiceAt(k) && from + PartsOf(k) * m == PartsBefore(k + 1) * m
    ensures from + PartsOf(k) * m <= |cores|
    ensures Deal(cores, SHIPPED, PRIORITY_ORDER, k + 1, round)
            == Some(Dealt(cores[from + PartsOf(k) * m..],
                          assignment[ServiceAt(k) := cores[from..from + PartsOf(k) * m]]))
  {
    hide *;
    ServiceIs(k);
    ShippedTotal();
    NeverFails(cores, SHIPPED, PRIORITY_ORDER, k + 1, round);
    ShareIsExact(cores, SHIPPED, PRIORITY_ORDER, k, round);
    ShippedSize(m, k, round);
    assert |cores[from..]| == 34 * m - PartsBefore(k) * m > 0;
    SliceRest(cores, from, PartsOf(k) * m);
  }

  lemma SliceRest<T>(cores: seq<T>, from: nat, size: nat)
    requires from + size <= |cores|
    ensures cores[from..][size..] == cores[from + size..] && cores[from..][..size] == cores[from..from + size]
  {
  }

  lemma ServiceIs(k: nat)
    requires k < 6
    ensures |PRIORITY_ORDER| == 6 && PRIORITY_ORDER[k] == ServiceAt(k)
    ensures PRIORITY_ORDER[k] in SHIPPED && SHIPPED[PRIORITY_ORDER[k]] == PartsOf(k) as real
  {
    ShippedParts();
  }

  lemma ShippedSize(m: nat, k: nat, round: Rounding)
    requires Rounds(round) && m > 0 && k < 6
    ensures ShareSizeOf(QuotaOf(34 * m, PartsOf(k) as real, 17.0, round),
                        34 * m - PartsBefore(k) * m - |LaterOnes(PRIORITY_ORDER, SHIPPED, k)|) == PartsOf(k) * m
    ensures PartsBefore(k) * m + PartsOf(k) * m == PartsBefore(k + 1) * m <= 17 * m
    ensures PartsBefore(k) * m <= 17 * m
  {
    hide LaterOnes, Rounds, QuotaOf;
    ExactQuota(m, PartsOf(k), round);
    FewLater(k);
  }

  function ServiceAt(k: nat): string {
    if k == 0 then "shire-server" else if k == 1 then "shire-director" else if k == 2 then "shire-fsw"
    else if k == 3 then "shire-42" else if k == 4 then "shire-gsw" else "shire-cryptolib"
  }

  function PartsBefore(k: nat): nat {
    if k <= 3 then 4 * k else if k <= 5 then 12 + 2 * (k - 3) else 17
  }

  lemma ExactQuota(m: nat, parts: nat, round: Rounding)
    requires Rounds(round)
    ensures QuotaOf(34 * m, parts as real, 17.0, round) == parts * m
  {
    var exact := (parts as real) / 17.0 * ((34 * m) as real) / 2.0;
    assert exact == (parts * m) as real;
    assert exact - 0.5 <= round(exact) as real <= exact + 0.5;
  }

  lemma FewLater(k: nat)
    requires k < 6
    ensures |LaterOnes(PRIORITY_ORDER, SHIPPED, k)| <= 5 - k
  {
    LaterOnesAreCounted(PRIORITY_ORDER, SHIPPED, k);
    RequestedAtMost(PRIORITY_ORDER, SHIPPED, k + 1);
  }

  lemma {:induction false} RequestedAtMost(order: seq<string>, requests: map<string, real>, i: nat)
    requires i <= |order|
    ensures Requested(order, requests, i) <= |order| - i
    decreases |order| - i
  {
    if i < |order| {
      RequestedAtMost(order, requests, i + 1);
    }
  }
}
