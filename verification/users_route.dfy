/**
 * The users listing route: how it validates its search parameters, the
 * default sort it hands to the URL state, how a table change is merged into
 * the state, and the refetch it publishes on the window while mounted.
 */
module UsersRoute {
  import opened Wrappers
  import TableContext
  import Effects
  import UrlTableState

  /** The route's `validateSearch`: `page || 1`, `filters || {}`, `sorters || {}`. */
  function ValidateSearch(raw: UrlTableState.Search): (r: UrlTableState.Search)
    ensures r.page.Some? && r.page.value != 0
    ensures raw.page.Some? && raw.page.value != 0 ==> r.page == raw.page
    ensures raw.page.None? || raw.page.value == 0 ==> r.page == Some(1)
    ensures r.filters.Some? && r.sorters.Some?
    ensures raw.filters.Some? ==> r.filters == raw.filters
    ensures raw.sorters.Some? ==> r.sorters == raw.sorters
    ensures raw.filters.None? ==> r.filters == Some([])
    ensures raw.sorters.None? ==> r.sorters == Some([])
  {
    UrlTableState.Search(
      Some(if raw.page.None? || raw.page.value == 0 then 1 else raw.page.value),
      Some(raw.filters.GetOr([])),
      Some(raw.sorters.GetOr([])))
  }

  /** The default sort of the users table: by id, ascending. */
  const DefaultSorters: seq<TableContext.SortRule> := [TableContext.SortRule("id", "asc")]

  /** As written, validation turns a missing `sorters` into `{}`, and an empty
      object is truthy, so the URL state never falls back to its default sort:
      a users URL without sorters opens unsorted rather than sorted by id. */
  lemma DefaultSortersNeverUsed(raw: UrlTableState.Search, defaultSorters: seq<TableContext.SortRule>)
    ensures UrlTableState.Decode(ValidateSearch(raw), defaultSorters) == UrlTableState.Decode(ValidateSearch(raw), [])
    ensures raw.sorters.None? ==> UrlTableState.Decode(ValidateSearch(raw), DefaultSorters).sorters == []
  {
  }

  /** Validation that leaves a missing `sorters` undefined, so that the URL
      state's default applies, as the encoder expects when it writes an empty
      sort list as `undefined`. */
  function ValidateSearchKeepingDefault(raw: UrlTableState.Search): (r: UrlTableState.Search)
    ensures r.page == ValidateSearch(raw).page && r.filters == ValidateSearch(raw).filters
    ensures r.sorters == raw.sorters
  {
    ValidateSearch(raw).(sorters := raw.sorters)
  }

  /** With that validation, reloading the URL of a state with no sort rules
      brings the users table back sorted by id, and a state with sort rules on
      distinct columns keeps them. */
  lemma ReloadKeepsDefaultSort(state: TableContext.TableState)
    requires UrlTableState.Restorable(state)
    ensures state.sorters == [] ==>
      UrlTableState.Decode(ValidateSearchKeepingDefault(UrlTableState.Encode(state)), DefaultSorters).sorters == DefaultSorters
    ensures state.sorters != [] ==>
      UrlTableState.Decode(ValidateSearchKeepingDefault(UrlTableState.Encode(state)), DefaultSorters).sorters == state.sorters
  {
    UrlTableState.DecodeEncode(state, DefaultSorters);
  }

  /** `Partial<TableState>`: a field that is `None` is not given. */
  datatype PartialState = PartialState(
    page: Option<int>,
    filters: Option<seq<TableContext.FilterRule>>,
    sorters: Option<seq<TableContext.SortRule>>)

  /** `{ ...prev, ...newState }`. */
  function Merge(prev: TableContext.TableState, update: PartialState): (s: TableContext.TableState)
    ensures s.page == if update.page.Some? then update.page.value else prev.page
    ensures s.filters == if update.filters.Some? then update.filters.value else prev.filters
    ensures s.sorters == if update.sorters.Some? then update.sorters.value else prev.sorters
  {
    TableContext.TableState(
      update.page.GetOr(prev.page),
      update.filters.GetOr(prev.filters),
      update.sorters.GetOr(prev.sorters))
  }

  /** Merging the same update twice is merging it once, and an empty update changes nothing. */
  lemma MergeIdempotent(prev: TableContext.TableState, update: PartialState)
    ensures Merge(Merge(prev, update), update) == Merge(prev, update)
    ensures Merge(prev, PartialState(None, None, None)) == prev
  {
  }

  /** Mounting the users page: the URL state starts from the validated search,
      with sorting by id as its default. */
  method MountUsersPage(raw: UrlTableState.Search) returns (store: UrlTableState.TableStateStore)
    ensures fresh(store)
    ensures store.tableState == UrlTableState.Decode(ValidateSearch(raw), DefaultSorters)
    ensures store.Synced()
  {
    store := new UrlTableState.TableStateStore(ValidateSearch(raw), DefaultSorters);
  }

  /** `onStateChange`: merge the update into the state, which the URL then follows. */
  method OnStateChange(store: UrlTableState.TableStateStore, update: PartialState)
    modifies store
    ensures store.tableState == Merge(old(store.tableState), update)
    ensures store.Synced()
  {
    store.SetTableState(Merge(store.tableState, update));
  }

  /** The mount effect: publish the table's refetch as `window.__tableRefetch`. */
  method PublishRefetch(window: Effects.Window, refetch: Effects.Callback)
    modifies window
    ensures window.tableRefetch == Some(refetch)
  {
    window.tableRefetch := Some(refetch);
  }

  /** The effect's cleanup: `delete window.__tableRefetch`. */
  method WithdrawRefetch(window: Effects.Window)
    modifies window
    ensures window.tableRefetch.None?
  {
    window.tableRefetch := None;
  }
}
