/**
 * The refetch hook that forms and other components use to refresh the
 * listing: the table context's refetch when there is one, else the one the
 * listing page published on the window, else a delayed page reload.
 */
module Refetch {
  import opened Wrappers
  import TableContext
  import Effects

  /** The observable steps of one `refetch` call, in order. */
  datatype Event =
    | ReloadScheduled(delayMs: nat)
    | StateUpdated(updateState: Effects.Callback, page: int)
    | Called(callback: Effects.Callback)

  /** `tableContext?.refetch || window.__tableRefetch`. */
  function Chosen(table: Option<TableContext.Context>, windowSlot: Option<Effects.Callback>): (r: Option<Effects.Callback>)
    ensures table.Some? && table.value.refetch.Some? ==> r == table.value.refetch
    ensures (table.None? || table.value.refetch.None?) ==> r == windowSlot
  {
    if table.Some? && table.value.refetch.Some? then table.value.refetch else windowSlot
  }

  /** `refetch(options)`: with nothing to call, a reload is scheduled after
      100 ms and nothing else happens; otherwise, when `resetToFirstPage` is set
      (it defaults to false) and the context has `updateState`, the page is set
      to 1 first, and then the chosen refetch is called exactly once. */
  method Refetch(table: Option<TableContext.Context>, window: Effects.Window, resetToFirstPage: Option<bool>)
    returns (events: seq<Event>)
    ensures Chosen(table, window.tableRefetch).None? ==> events == [ReloadScheduled(100)]
    ensures Chosen(table, window.tableRefetch).Some? ==>
      events == (if resetToFirstPage == Some(true) && table.Some? && table.value.updateState.Some?
                 then [StateUpdated(table.value.updateState.value, 1)] else [])
                + [Called(Chosen(table, window.tableRefetch).value)]
  {
    var reset := resetToFirstPage.GetOr(false);
    var windowRefetch := window.tableRefetch;
    var available := if table.Some? && table.value.refetch.Some? then table.value.refetch else windowRefetch;
    if available.None? {
      return [ReloadScheduled(100)];
    }
    events := [];
    if reset && table.Some? && table.value.updateState.Some? {
      events := events + [StateUpdated(table.value.updateState.value, 1)];
    }
    events := events + [Called(available.value)];
  }

  /** `tableContext?.isLoading || false`. */
  function IsRefetching(table: Option<TableContext.Context>): (r: bool)
    ensures r <==> table.Some? && table.value.isLoading
  {
    if table.Some? then table.value.isLoading else false
  }
}
