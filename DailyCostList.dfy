/**
 * The `calculatedItems` computation of components/DailyCostList.tsx: a copy of
 * the day costs is sorted by date, then each day carries over what the day
 * before had left.
 */
module DailyCostList {
  import opened Wrappers
  import opened JsText
  import opened Records

  /** A day cost with the two computed columns added to all of its own fields. */
  datatype CalculatedCostItem = CalculatedCostItem(
    id: string,
    periodId: string,
    userId: string,
    date: string,
    spent: real,
    carryOver: real,
    remaining: real)

  /** `{...cost, carryOver, remaining}`. */
  function Extend(cost: DailyCost, carryOver: real, remaining: real): (item: CalculatedCostItem)
    ensures Base(item) == cost && item.carryOver == carryOver && item.remaining == remaining
  {
    CalculatedCostItem(cost.id, cost.periodId, cost.userId, cost.date, cost.spent, carryOver, remaining)
  }

  /** The day cost an item was computed from. */
  function Base(item: CalculatedCostItem): DailyCost {
    DailyCost(item.id, item.periodId, item.userId, item.date, item.spent)
  }

  /** `period.daily_limit || 0`. */
  function DailyLimit(period: Period): (limit: real)
    ensures period.daily_limit.None? ==> limit == 0.0
    ensures period.daily_limit.Some? ==> limit == period.daily_limit.value
  {
    period.daily_limit.GetOr(0.0)
  }

  // ---------------------------------------------------------------------------
  // Sorting by date
  // ---------------------------------------------------------------------------

  /** Non-decreasing by `date`, compared as strings. */
  predicate SortedByDate(s: seq<DailyCost>) {
    forall i, j :: 0 <= i < j < |s| ==> LexLessEq(s[i].date, s[j].date)
  }

  /** The costs dated `k`, in the order they appear. */
  function WithDate(s: seq<DailyCost>, k: string): (r: seq<DailyCost>)
    ensures |r| <= |s|
  {
    if s == [] then []
    else (if s[0].date == k then [s[0]] else []) + WithDate(s[1..], k)
  }

  /**
   * A stable sort by date: sorted, and for each date the costs with that date
   * keep their relative order. (This also makes `out` a permutation of `in`.)
   */
  ghost predicate StablySorted(input: seq<DailyCost>, out: seq<DailyCost>) {
    SortedByDate(out) && forall k :: WithDate(out, k) == WithDate(input, k)
  }

  /** Puts `x` before the first cost it does not come after, so before any cost of the same date. */
  function Insert(x: DailyCost, s: seq<DailyCost>): (r: seq<DailyCost>)
    ensures |r| == |s| + 1
  {
    if s == [] then [x]
    else if LexLessEq(x.date, s[0].date) then [x] + s
    else [s[0]] + Insert(x, s[1..])
  }

  /**
   * `[...dailyCosts].sort((a, b) => a.date.localeCompare(b.date))`: a stable
   * sort by date string, written as an insertion sort.
   */
  function SortByDate(s: seq<DailyCost>): (r: seq<DailyCost>)
    ensures |r| == |s|
  {
    if s == [] then [] else Insert(s[0], SortByDate(s[1..]))
  }

  lemma {:induction false} InsertMultiset(x: DailyCost, s: seq<DailyCost>)
    ensures multiset(Insert(x, s)) == multiset(s) + multiset{x}
  {
    if s != [] && !LexLessEq(x.date, s[0].date) {
      var t := Insert(x, s[1..]);
      InsertMultiset(x, s[1..]);
      assert multiset([s[0]] + t) == multiset{s[0]} + multiset(t);
      assert s == [s[0]] + s[1..];
      assert multiset(s) == multiset{s[0]} + multiset(s[1..]);
    }
  }

  /** The sort only reorders: every cost comes out as often as it went in. */
  lemma {:induction false} SortByDatePermutation(s: seq<DailyCost>)
    ensures multiset(SortByDate(s)) == multiset(s)
  {
    if s != [] {
      SortByDatePermutation(s[1..]);
      InsertMultiset(s[0], SortByDate(s[1..]));
      assert s == [s[0]] + s[1..];
    }
  }

  /** Every cost in `s` is dated `b` or later. */
  predicate AllFrom(s: seq<DailyCost>, b: string) {
    forall i :: 0 <= i < |s| ==> LexLessEq(b, s[i].date)
  }

  lemma SortedCons(y: DailyCost, t: seq<DailyCost>)
    requires SortedByDate(t) && AllFrom(t, y.date)
    ensures SortedByDate([y] + t)
  {
    var r := [y] + t;
    forall i, j | 0 <= i < j < |r| ensures LexLessEq(r[i].date, r[j].date) {
      assert r[j] == t[j - 1];
      if i > 0 { assert r[i] == t[i - 1]; }
    }
  }

  lemma SortedTail(s: seq<DailyCost>)
    requires SortedByDate(s) && s != []
    ensures SortedByDate(s[1..]) && AllFrom(s[1..], s[0].date)
  {
    forall i, j | 0 <= i < j < |s| - 1 ensures LexLessEq(s[1..][i].date, s[1..][j].date) {
      assert s[1..][i] == s[i + 1] && s[1..][j] == s[j + 1];
    }
    forall i | 0 <= i < |s| - 1 ensures LexLessEq(s[0].date, s[1..][i].date) {
      assert s[1..][i] == s[i + 1];
    }
  }

  /** Inserting a cost dated `b` or later keeps every cost dated `b` or later. */
  lemma {:induction false} InsertFrom(x: DailyCost, s: seq<DailyCost>, b: string)
    requires AllFrom(s, b) && LexLessEq(b, x.date)
    ensures AllFrom(Insert(x, s), b)
  {
    if s != [] && !LexLessEq(x.date, s[0].date) {
      var t := Insert(x, s[1..]);
      assert AllFrom(s[1..], b) by {
        forall i | 0 <= i < |s| - 1 ensures LexLessEq(b, s[1..][i].date) {
          assert s[1..][i] == s[i + 1];
        }
      }
      InsertFrom(x, s[1..], b);
      var r := [s[0]] + t;
      forall i | 0 <= i < |r| ensures LexLessEq(b, r[i].date) {
        if i > 0 { assert r[i] == t[i - 1]; }
      }
    }
  }

  lemma {:induction false} InsertSorted(x: DailyCost, s: seq<DailyCost>)
    requires SortedByDate(s)
    ensures SortedByDate(Insert(x, s))
  {
    if s == [] {
    } else if LexLessEq(x.date, s[0].date) {
      forall i | 0 <= i < |s| ensures LexLessEq(x.date, s[i].date) {
        if i > 0 { LexLessEqTransitive(x.date, s[0].date, s[i].date); }
      }
      SortedCons(x, s);
    } else {
      SortedTail(s);
      LexLessEqTotal(x.date, s[0].date);
      InsertSorted(x, s[1..]);
      InsertFrom(x, s[1..], s[0].date);
      SortedCons(s[0], Insert(x, s[1..]));
    }
  }

  /** The sorted copy is non-decreasing by date. */
  lemma {:induction false} SortByDateSorted(s: seq<DailyCost>)
    ensures SortedByDate(SortByDate(s))
  {
    if s != [] {
      SortByDateSorted(s[1..]);
      InsertSorted(s[0], SortByDate(s[1..]));
    }
  }

  lemma WithDateCons(x: DailyCost, s: seq<DailyCost>, k: string)
    ensures WithDate([x] + s, k) == (if x.date == k then [x] else []) + WithDate(s, k)
  {
    assert ([x] + s)[1..] == s;
  }

  /** The inserted cost goes in front of every cost that shares its date. */
  lemma {:induction false} InsertWithDate(x: DailyCost, s: seq<DailyCost>, k: string)
    ensures WithDate(Insert(x, s), k) == (if x.date == k then [x] else []) + WithDate(s, k)
  {
    if s == [] {
      WithDateCons(x, [], k);
    } else if LexLessEq(x.date, s[0].date) {
      WithDateCons(x, s, k);
    } else {
      InsertWithDate(x, s[1..], k);
      WithDateCons(s[0], Insert(x, s[1..]), k);
      WithDateCons(s[0], s[1..], k);
      assert s == [s[0]] + s[1..];
      LexLessIrreflexive(x.date);
    }
  }

  /** Costs of the same date come out in the order they went in. */
  lemma {:induction false} SortByDateStable(s: seq<DailyCost>, k: string)
    ensures WithDate(SortByDate(s), k) == WithDate(s, k)
  {
    if s != [] {
      SortByDateStable(s[1..], k);
      InsertWithDate(s[0], SortByDate(s[1..]), k);
    }
  }

  /** `SortByDate` is a stable sort by date. */
  lemma SortByDateStablySorted(s: seq<DailyCost>)
    ensures StablySorted(s, SortByDate(s))
  {
    SortByDateSorted(s);
    forall k ensures WithDate(SortByDate(s), k) == WithDate(s, k) {
      SortByDateStable(s, k);
    }
  }

  lemma {:induction false} WithDateMember(s: seq<DailyCost>, k: string, y: DailyCost)
    ensures y in WithDate(s, k) <==> y in s && y.date == k
  {
    if s != [] {
      WithDateMember(s[1..], k, y);
      assert s == [s[0]] + s[1..];
    }
  }

  /** In a sorted sequence the first date comes no later than any date in it. */
  lemma SortedFirst(s: seq<DailyCost>, y: DailyCost)
    requires SortedByDate(s) && y in s
    ensures LexLessEq(s[0].date, y.date)
  {
    var i :| 0 <= i < |s| && s[i] == y;
    if i == 0 { LexLessIrreflexive(y.date); }
  }

  /**
   * Any two stable sorts of the same costs agree: sortedness and the order
   * within each date fix the result. So every stable sort by date, the one
   * `Array.prototype.sort` uses included, gives what `SortByDate` gives.
   */
  lemma {:induction false} StableSortUnique(a: seq<DailyCost>, b: seq<DailyCost>)
    requires SortedByDate(a) && SortedByDate(b)
    requires forall k :: WithDate(a, k) == WithDate(b, k)
    ensures a == b
    decreases |a| + |b|
  {
    if a == [] || b == [] {
      if a != [] {
        WithDateMember(a, a[0].date, a[0]);
      } else if b != [] {
        WithDateMember(b, b[0].date, b[0]);
      }
    } else {
      var d := a[0].date;
      WithDateMember(a, b[0].date, b[0]);
      WithDateMember(b, b[0].date, b[0]);
      assert b[0] in WithDate(a, b[0].date);
      WithDateMember(a, d, a[0]);
      WithDateMember(b, d, a[0]);
      assert a[0] in WithDate(b, d);
      SortedFirst(a, b[0]);
      SortedFirst(b, a[0]);
      LexLessEqAntisymmetric(d, b[0].date);
      assert a == [a[0]] + a[1..] && b == [b[0]] + b[1..];
      WithDateCons(a[0], a[1..], d);
      WithDateCons(b[0], b[1..], d);
      assert WithDate(a, d)[0] == a[0] && WithDate(b, d)[0] == b[0];
      assert a[0] == b[0] by { assert WithDate(a, d) == WithDate(b, d); }
      forall k ensures WithDate(a[1..], k) == WithDate(b[1..], k) {
        WithDateCons(a[0], a[1..], k);
        WithDateCons(b[0], b[1..], k);
        var head := if a[0].date == k then [a[0]] else [];
        assert WithDate(a[1..], k) == WithDate(a, k)[|head|..];
        assert WithDate(b[1..], k) == WithDate(b, k)[|head|..];
      }
      assert SortedByDate(a[1..]) by {
        forall i, j | 0 <= i < j < |a| - 1 ensures LexLessEq(a[1..][i].date, a[1..][j].date) {
          assert a[1..][i] == a[i + 1] && a[1..][j] == a[j + 1];
        }
      }
      assert SortedByDate(b[1..]) by {
        forall i, j | 0 <= i < j < |b| - 1 ensures LexLessEq(b[1..][i].date, b[1..][j].date) {
          assert b[1..][i] == b[i + 1] && b[1..][j] == b[j + 1];
        }
      }
      StableSortUnique(a[1..], b[1..]);
    }
  }

  /** Every stable sort by date of `s` is `SortByDate(s)`. */
  lemma StablySortedIsSortByDate(s: seq<DailyCost>, out: seq<DailyCost>)
    requires StablySorted(s, out)
    ensures out == SortByDate(s)
  {
    SortByDateStablySorted(s);
    StableSortUnique(out, SortByDate(s));
  }

  // ---------------------------------------------------------------------------
  // Carrying over
  // ---------------------------------------------------------------------------

  /** The total spent over `s`. */
  function SpentTotal(s: seq<DailyCost>): real {
    if s == [] then 0.0 else SpentTotal(s[..|s| - 1]) + s[|s| - 1].spent
  }

  /**
   * What the `reduce` computes, item by item: each item is its cost with two
   * columns added; the first carries over 0, every later one what the item
   * before it has remaining; and what remains is the carry-over plus the
   * daily limit minus the day's spending.
   */
  predicate CarriedOver(items: seq<CalculatedCostItem>, costs: seq<DailyCost>, dailyLimit: real) {
    && |items| == |costs|
    && (forall i :: 0 <= i < |items| ==> Base(items[i]) == costs[i])
    && (|items| > 0 ==> items[0].carryOver == 0.0)
    && (forall i :: 0 < i < |items| ==> items[i].carryOver == items[i - 1].remaining)
    && (forall i :: 0 <= i < |items| ==> items[i].remaining == items[i].carryOver + dailyLimit - items[i].spent)
  }

  /**
   * Closed form: after `n` days, what remains is `n` daily limits minus
   * everything spent so far.
   */
  lemma {:induction false} CarriedOverClosedForm(items: seq<CalculatedCostItem>, costs: seq<DailyCost>, dailyLimit: real, n: nat)
    requires CarriedOver(items, costs, dailyLimit) && n < |items|
    ensures items[n].remaining == (n + 1) as real * dailyLimit - SpentTotal(costs[..n + 1])
  {
    assert costs[..n + 1][..n] == costs[..n];
    assert items[n].spent == costs[n].spent by { assert Base(items[n]) == costs[n]; }
    if n > 0 {
      CarriedOverClosedForm(items, costs, dailyLimit, n - 1);
      assert (n + 1) as real * dailyLimit == n as real * dailyLimit + dailyLimit;
    }
  }

  /** The carried-over items of a list of costs are determined by the costs and the limit. */
  lemma CarriedOverUnique(a: seq<CalculatedCostItem>, b: seq<CalculatedCostItem>, costs: seq<DailyCost>, dailyLimit: real)
    requires CarriedOver(a, costs, dailyLimit) && CarriedOver(b, costs, dailyLimit)
    ensures a == b
  {
    forall n | 0 <= n < |a| ensures a[n] == b[n] {
      CarriedOverClosedForm(a, costs, dailyLimit, n);
      CarriedOverClosedForm(b, costs, dailyLimit, n);
      if n > 0 {
        CarriedOverClosedForm(a, costs, dailyLimit, n - 1);
        CarriedOverClosedForm(b, costs, dailyLimit, n - 1);
      }
      assert Base(a[n]) == Base(b[n]);
    }
  }

  /**
   * The `reduce` over the sorted costs: `acc` grows by one item per day, each
   * day's carry-over read back from the item before it in `acc`.
   */
  method CarryOver(sortedCosts: seq<DailyCost>, dailyLimit: real) returns (acc: seq<CalculatedCostItem>)
    ensures CarriedOver(acc, sortedCosts, dailyLimit)
  {
    acc := [];
    var index := 0;
    while index < |sortedCosts|
      invariant 0 <= index <= |sortedCosts|
      invariant CarriedOver(acc, sortedCosts[..index], dailyLimit)
    {
      var cost := sortedCosts[index];
      var previousDayRemaining := if index > 0 then acc[index - 1].remaining else 0.0;
      var carryOver := previousDayRemaining;
      var remaining := carryOver + dailyLimit - cost.spent;
      acc := acc + [Extend(cost, carryOver, remaining)];
      index := index + 1;
    }
    assert sortedCosts[..index] == sortedCosts;
  }

  /**
   * `calculatedItems`: nothing without a period; otherwise the carried-over
   * days of the date-sorted copy of `dailyCosts`, with a missing daily limit
   * counted as 0. The array itself is only read.
   */
  method CalculatedItems(period: Option<Period>, dailyCosts: array<DailyCost>) returns (items: seq<CalculatedCostItem>)
    ensures period.None? ==> items == []
    ensures period.Some? ==>
      && StablySorted(dailyCosts[..], SortByDate(dailyCosts[..]))
      && CarriedOver(items, SortByDate(dailyCosts[..]), DailyLimit(period.value))
  {
    if period.None? {
      return [];
    }
    var sortedCosts := SortByDate(dailyCosts[..]);
    SortByDateStablySorted(dailyCosts[..]);
    var dailyLimit := DailyLimit(period.value);
    items := CarryOver(sortedCosts, dailyLimit);
  }
}
