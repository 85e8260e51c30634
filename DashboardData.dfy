/**
 * The state kept by hooks/useDashboardData.ts: the user's periods, which one
 * is active, the four lists of records of the active period, and two loading
 * flags. Each remote call is a parameter saying what it returned (or `None`
 * when it failed); each handler runs as one step, or as two steps around an
 * awaited fetch.
 */
module DashboardData {
  import opened Wrappers
  import opened Records

  /** JavaScript truthiness of a `string | null`: null and the empty string are false. */
  predicate IsSet(id: Option<string>) {
    id.Some? && id.value != ""
  }

  /** `list.filter((x) => x.id !== id)`. */
  function Without<T>(s: seq<T>, id: string, idOf: T -> string): (r: seq<T>)
    ensures |r| <= |s|
    ensures forall i :: 0 <= i < |r| ==> r[i] in s && idOf(r[i]) != id
    ensures forall i :: 0 <= i < |s| && idOf(s[i]) != id ==> s[i] in r
  {
    if s == [] then []
    else (if idOf(s[0]) == id then [] else [s[0]]) + Without(s[1..], id, idOf)
  }

  /**
   * Filtering distributes over concatenation: the filter works entry by
   * entry, and the kept entries keep their order.
   */
  lemma {:induction false} WithoutAppend<T>(a: seq<T>, b: seq<T>, id: string, idOf: T -> string)
    ensures Without(a + b, id, idOf) == Without(a, id, idOf) + Without(b, id, idOf)
  {
    if a != [] {
      var head := if idOf(a[0]) == id then [] else [a[0]];
      assert Without(a + b, id, idOf) == head + Without(a[1..] + b, id, idOf) by {
        assert (a + b)[0] == a[0] && (a + b)[1..] == a[1..] + b;
      }
      WithoutAppend(a[1..], b, id, idOf);
      assert Without(a, id, idOf) == head + Without(a[1..], id, idOf);
    } else {
      assert a + b == b;
    }
  }

  /** A list without the id is left exactly as it was. */
  lemma {:induction false} WithoutAbsent<T>(s: seq<T>, id: string, idOf: T -> string)
    requires forall i :: 0 <= i < |s| ==> idOf(s[i]) != id
    ensures Without(s, id, idOf) == s
  {
    if s != [] {
      WithoutAbsent(s[1..], id, idOf);
    }
  }

  /** Removing the same id twice removes nothing more. */
  lemma WithoutIdempotent<T>(s: seq<T>, id: string, idOf: T -> string)
    ensures Without(Without(s, id, idOf), id, idOf) == Without(s, id, idOf)
  {
    var r := Without(s, id, idOf);
    WithoutAbsent(r, id, idOf);
  }

  function PeriodId(p: Period): string { p.id }
  function IncomeId(x: Income): string { x.id }
  function BudgetId(x: Budget): string { x.id }
  function DailyCostId(x: DailyCost): string { x.id }
  function MiscellaneousCostId(x: MiscellaneousCost): string { x.id }

  predicate Names(periods: seq<Period>, id: string) {
    exists i :: 0 <= i < |periods| && periods[i].id == id
  }

  /**
   * The active id after the periods are fetched: kept when a fetched period
   * has it, otherwise the first period's; none when there are no periods.
   */
  function SelectAfterFetch(userPeriods: seq<Period>, activePeriodId: Option<string>): (r: Option<string>)
    ensures r.None? <==> userPeriods == []
    ensures r.Some? ==> Names(userPeriods, r.value)
    ensures activePeriodId.Some? && Names(userPeriods, activePeriodId.value) ==> r == activePeriodId
    ensures activePeriodId.None? || !Names(userPeriods, activePeriodId.value) ==>
      r == if userPeriods == [] then None else Some(userPeriods[0].id)
  {
    if |userPeriods| > 0 then
      var currentActiveExists := activePeriodId.Some? && exists p :: p in userPeriods && p.id == activePeriodId.value;
      if !currentActiveExists then Some(userPeriods[0].id) else activePeriodId
    else None
  }

  /** The active id after a period is deleted: the first remaining period's, or none. */
  function SelectAfterDelete(remainingPeriods: seq<Period>): (r: Option<string>)
    ensures r.None? <==> remainingPeriods == []
    ensures r.Some? ==> Names(remainingPeriods, r.value) && r.value == remainingPeriods[0].id
  {
    if |remainingPeriods| > 0 then Some(remainingPeriods[0].id) else None
  }

  /**
   * Once a period is deleted no remaining period has its id, so the period
   * selected next is a different one.
   */
  lemma DeletedPeriodGone(periods: seq<Period>, id: string)
    ensures !Names(Without(periods, id, PeriodId), id)
    ensures var next := SelectAfterDelete(Without(periods, id, PeriodId)); next.Some? ==> next.value != id
  {
    var rest := Without(periods, id, PeriodId);
    forall i | 0 <= i < |rest| ensures rest[i].id != id {
      assert PeriodId(rest[i]) != id;
    }
  }

  /** What the four fetches of `fetchPeriodData` returned together. */
  datatype PeriodData = PeriodData(
    incomes: seq<Income>,
    budgets: seq<Budget>,
    dailyCosts: seq<DailyCost>,
    miscellaneousCosts: seq<MiscellaneousCost>)

  class Dashboard {
    /** The signed-in user's uid, if any. */
    const user: Option<string>
    var periods: seq<Period>
    var activePeriodId: Option<string>
    var loading: bool
    var incomes: seq<Income>
    var budgets: seq<Budget>
    var dailyCosts: seq<DailyCost>
    var miscellaneousCosts: seq<MiscellaneousCost>
    var loadingData: bool

    /** The active id, when there is one, names a loaded period. */
    predicate Valid()
      reads this
    {
      activePeriodId.Some? ==> Names(periods, activePeriodId.value)
    }

    /** The initial `useState` values. */
    constructor (user: Option<string>)
      ensures Valid()
      ensures this.user == user
      ensures periods == [] && activePeriodId == None && loading
      ensures incomes == [] && budgets == [] && dailyCosts == [] && miscellaneousCosts == []
      ensures !loadingData
    {
      this.user := user;
      periods := [];
      activePeriodId := None;
      loading := true;
      incomes := [];
      budgets := [];
      dailyCosts := [];
      miscellaneousCosts := [];
      loadingData := false;
    }

    /**
     * `fetchPeriods` up to its `await`, also what the effect on `user` runs:
     * with a user, `loading` goes on; without one nothing happens.
     */
    method StartFetchPeriods() returns (started: bool)
      requires Valid()
      modifies this
      ensures Valid()
      ensures started <==> user.Some?
      ensures loading == (if started then true else old(loading))
      ensures periods == old(periods) && activePeriodId == old(activePeriodId)
      ensures incomes == old(incomes) && budgets == old(budgets)
      ensures dailyCosts == old(dailyCosts) && miscellaneousCosts == old(miscellaneousCosts)
      ensures loadingData == old(loadingData)
    {
      if user.None? {
        return false;
      }
      loading := true;
      started := true;
    }

    /**
     * `fetchPeriods` after its `await`: the fetched periods replace the list
     * and the active id is re-selected; a failed fetch changes neither.
     * `loading` goes off either way.
     */
    method FinishFetchPeriods(userPeriods: Option<seq<Period>>)
      requires Valid()
      modifies this
      ensures Valid()
      ensures !loading
      ensures userPeriods.Some? ==>
        periods == userPeriods.value && activePeriodId == SelectAfterFetch(userPeriods.value, old(activePeriodId))
      ensures userPeriods.None? ==> periods == old(periods) && activePeriodId == old(activePeriodId)
      ensures incomes == old(incomes) && budgets == old(budgets)
      ensures dailyCosts == old(dailyCosts) && miscellaneousCosts == old(miscellaneousCosts)
      ensures loadingData == old(loadingData)
    {
      if userPeriods.Some? {
        periods := userPeriods.value;
        activePeriodId := SelectAfterFetch(userPeriods.value, activePeriodId);
      }
      loading := false;
    }

    /**
     * The effect on `user` and `activePeriodId`: with both set, the period's
     * data is fetched (its first step turns `loadingData` on and the id is
     * returned); otherwise the four lists are emptied.
     */
    method SyncPeriodData() returns (fetching: Option<string>)
      requires Valid()
      modifies this
      ensures Valid()
      ensures fetching.Some? <==> user.Some? && IsSet(activePeriodId)
      ensures fetching.Some? ==>
        && fetching == activePeriodId && loadingData
        && incomes == old(incomes) && budgets == old(budgets)
        && dailyCosts == old(dailyCosts) && miscellaneousCosts == old(miscellaneousCosts)
      ensures fetching.None? ==>
        && loadingData == old(loadingData)
        && incomes == [] && budgets == [] && dailyCosts == [] && miscellaneousCosts == []
      ensures periods == old(periods) && activePeriodId == old(activePeriodId) && loading == old(loading)
    {
      if user.Some? && IsSet(activePeriodId) {
        fetching := activePeriodId;
        loadingData := true;
      } else {
        fetching := None;
        incomes := [];
        budgets := [];
        dailyCosts := [];
        miscellaneousCosts := [];
      }
    }

    /**
     * `fetchPeriodData` after its `await`: all four lists are replaced when
     * every fetch succeeded, none when any failed; `loadingData` goes off.
     */
    method FinishFetchPeriodData(data: Option<PeriodData>)
      requires Valid()
      modifies this
      ensures Valid()
      ensures !loadingData
      ensures data.Some? ==>
        && incomes == data.value.incomes && budgets == data.value.budgets
        && dailyCosts == data.value.dailyCosts && miscellaneousCosts == data.value.miscellaneousCosts
      ensures data.None? ==>
        && incomes == old(incomes) && budgets == old(budgets)
        && dailyCosts == old(dailyCosts) && miscellaneousCosts == old(miscellaneousCosts)
      ensures periods == old(periods) && activePeriodId == old(activePeriodId) && loading == old(loading)
    {
      if data.Some? {
        incomes := data.value.incomes;
        budgets := data.value.budgets;
        dailyCosts := data.value.dailyCosts;
        miscellaneousCosts := data.value.miscellaneousCosts;
      }
      loadingData := false;
    }

    /**
     * `handleDeletePeriod`, confirmed: without an active period or a user
     * nothing happens; after the remote delete succeeds the period leaves the
     * list and the first remaining one becomes active; after it fails nothing
     * changes.
     */
    method DeletePeriod(remoteOk: bool)
      requires Valid()
      modifies this
      ensures Valid()
      ensures var acted := IsSet(old(activePeriodId)) && user.Some? && remoteOk;
        && (acted ==>
              && periods == Without(old(periods), old(activePeriodId).value, PeriodId)
              && activePeriodId == SelectAfterDelete(periods))
        && (!acted ==> periods == old(periods) && activePeriodId == old(activePeriodId))
      ensures incomes == old(incomes) && budgets == old(budgets)
      ensures dailyCosts == old(dailyCosts) && miscellaneousCosts == old(miscellaneousCosts)
      ensures loading == old(loading) && loadingData == old(loadingData)
    {
      if !IsSet(activePeriodId) || user.None? {
        return;
      }
      if remoteOk {
        var remainingPeriods := Without(periods, activePeriodId.value, PeriodId);
        periods := remainingPeriods;
        activePeriodId := SelectAfterDelete(remainingPeriods);
      }
    }

    /** `handleDeleteIncome`, confirmed: the list loses the income only once the store has. */
    method DeleteIncome(incomeId: string, remoteOk: bool)
      requires Valid()
      modifies this
      ensures Valid()
      ensures incomes == if remoteOk then Without(old(incomes), incomeId, IncomeId) else old(incomes)
      ensures budgets == old(budgets) && dailyCosts == old(dailyCosts) && miscellaneousCosts == old(miscellaneousCosts)
      ensures periods == old(periods) && activePeriodId == old(activePeriodId)
      ensures loading == old(loading) && loadingData == old(loadingData)
    {
      if remoteOk {
        incomes := Without(incomes, incomeId, IncomeId);
      }
    }

    /** `handleDeleteBudget`, confirmed. */
    method DeleteBudget(budgetId: string, remoteOk: bool)
      requires Valid()
      modifies this
      ensures Valid()
      ensures budgets == if remoteOk then Without(old(budgets), budgetId, BudgetId) else old(budgets)
      ensures incomes == old(incomes) && dailyCosts == old(dailyCosts) && miscellaneousCosts == old(miscellaneousCosts)
      ensures periods == old(periods) && activePeriodId == old(activePeriodId)
      ensures loading == old(loading) && loadingData == old(loadingData)
    {
      if remoteOk {
        budgets := Without(budgets, budgetId, BudgetId);
      }
    }

    /** `handleDeleteDailyCost`, confirmed. */
    method DeleteDailyCost(costId: string, remoteOk: bool)
      requires Valid()
      modifies this
      ensures Valid()
      ensures dailyCosts == if remoteOk then Without(old(dailyCosts), costId, DailyCostId) else old(dailyCosts)
      ensures incomes == old(incomes) && budgets == old(budgets) && miscellaneousCosts == old(miscellaneousCosts)
      ensures periods == old(periods) && activePeriodId == old(activePeriodId)
      ensures loading == old(loading) && loadingData == old(loadingData)
    {
      if remoteOk {
        dailyCosts := Without(dailyCosts, costId, DailyCostId);
      }
    }

    /** `handleDeleteMiscellaneousCost`, confirmed. */
    method DeleteMiscellaneousCost(costId: string, remoteOk: bool)
      requires Valid()
      modifies this
      ensures Valid()
      ensures miscellaneousCosts ==
        if remoteOk then Without(old(miscellaneousCosts), costId, MiscellaneousCostId) else old(miscellaneousCosts)
      ensures incomes == old(incomes) && budgets == old(budgets) && dailyCosts == old(dailyCosts)
      ensures periods == old(periods) && activePeriodId == old(activePeriodId)
      ensures loading == old(loading) && loadingData == old(loadingData)
    {
      if remoteOk {
        miscellaneousCosts := Without(miscellaneousCosts, costId, MiscellaneousCostId);
      }
    }
  }
}
