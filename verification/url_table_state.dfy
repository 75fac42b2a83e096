/**
 * The table state kept in the page URL. On mount the route's search
 * parameters are decoded into a table state; after every change the state is
 * encoded back into the search parameters, replacing the current history entry.
 * A search mapping is a JavaScript object read in key order, written here as a
 * sequence of (key, value) pairs.
 */
module UrlTableState {
  import opened Wrappers
  import Json
  import Text
  import Objects
  import TableContext

  /** A search mapping whose values the router may have parsed to any JSON value. */
  type Mapping<V> = seq<(string, V)>

  /** The search parameters the hook reads and writes; `None` is `undefined`.
      Filter values are whatever the router parsed; sort orders are text. */
  datatype Search = Search(page: Option<int>, filters: Option<Mapping<Json.Value>>, sorters: Option<Mapping<string>>)

  /** `Object.entries(filters).map(...)`: one 'contains' rule per entry, its
      value passed through `String(value)`. */
  function DecodeFilters(m: Mapping<Json.Value>): (r: seq<TableContext.FilterRule>)
    ensures |r| == |m|
    ensures forall i :: 0 <= i < |m| ==>
      r[i].column == m[i].0 && r[i].value == Json.ToJsString(m[i].1) && r[i].relation == "contains"
  {
    if m == [] then [] else [TableContext.FilterRule(m[0].0, Json.ToJsString(m[0].1), "contains")] + DecodeFilters(m[1..])
  }

  /** `Object.entries(sorters).map(...)`: one sort rule per entry, the order taken as given. */
  function DecodeSorters(m: Mapping<string>): (r: seq<TableContext.SortRule>)
    ensures |r| == |m|
    ensures forall i :: 0 <= i < |m| ==> r[i].column == m[i].0 && r[i].order == m[i].1
  {
    if m == [] then [] else [TableContext.SortRule(m[0].0, m[0].1)] + DecodeSorters(m[1..])
  }

  /** The initial table state: the page, or 1 when it is absent or 0; the filter
      entries as 'contains' rules, none when absent; the sorter entries, or
      `defaultSorters` when absent. */
  function Decode(search: Search, defaultSorters: seq<TableContext.SortRule>): (s: TableContext.TableState)
    ensures s.page != 0
    ensures search.page.Some? && search.page.value != 0 ==> s.page == search.page.value
    ensures search.page.None? || search.page.value == 0 ==> s.page == 1
    ensures search.filters.None? ==> s.filters == []
    ensures search.filters.Some? ==> s.filters == DecodeFilters(search.filters.value)
    ensures search.sorters.None? ==> s.sorters == defaultSorters
    ensures search.sorters.Some? ==> s.sorters == DecodeSorters(search.sorters.value)
    ensures forall r :: r in s.filters ==> r.relation == "contains"
  {
    var page := if search.page.None? || search.page.value == 0 then 1 else search.page.value;
    var filters := if search.filters.Some? then DecodeFilters(search.filters.value) else [];
    var sorters := if search.sorters.Some? then DecodeSorters(search.sorters.value) else defaultSorters;
    TableContext.TableState(page, filters, sorters)
  }

  /** `reduce((acc, e) => ({ ...acc, [key]: value }), acc)`. */
  function Assign<V>(acc: Mapping<V>, entries: Mapping<V>): Mapping<V>
    decreases entries
  {
    if entries == [] then acc else Assign(Objects.Put(acc, entries[0].0, entries[0].1), entries[1..])
  }

  function FilterEntries(rules: seq<TableContext.FilterRule>): (m: Mapping<Json.Value>)
    ensures |m| == |rules|
    ensures forall i :: 0 <= i < |rules| ==> m[i] == (rules[i].column, Json.JStr(rules[i].value))
  {
    if rules == [] then [] else [(rules[0].column, Json.JStr(rules[0].value))] + FilterEntries(rules[1..])
  }

  function SorterEntries(sorters: seq<TableContext.SortRule>): (m: Mapping<string>)
    ensures |m| == |sorters|
    ensures forall i :: 0 <= i < |sorters| ==> m[i] == (sorters[i].column, sorters[i].order)
  {
    if sorters == [] then [] else [(sorters[0].column, sorters[0].order)] + SorterEntries(sorters[1..])
  }

  /** The search written for a table state: the page always; the filters as a
      column-to-value mapping only when there are some; the sorters as a
      column-to-order mapping, or `undefined` when there are none. */
  function Encode(state: TableContext.TableState): (search: Search)
    ensures search.page == Some(state.page)
    ensures search.filters.None? <==> state.filters == []
    ensures search.sorters.None? <==> state.sorters == []
  {
    Search(
      Some(state.page),
      if |state.filters| > 0 then Some(Assign([], FilterEntries(state.filters))) else None,
      if |state.sorters| > 0 then Some(Assign([], SorterEntries(state.sorters))) else None)
  }

  /** The value of the last entry with the given key. */
  function LastValue<V>(entries: Mapping<V>, key: string): (r: Option<V>)
    ensures r.None? <==> forall i :: 0 <= i < |entries| ==> entries[i].0 != key
  {
    if entries == [] then None
    else
      var later := LastValue(entries[1..], key);
      if later.Some? then later
      else if entries[0].0 == key then Some(entries[0].1)
      else None
  }

  /** After the reduce a key reads the value of its last entry, or what it read before. */
  lemma {:induction false} AssignFind<V>(acc: Mapping<V>, entries: Mapping<V>, key: string)
    ensures Objects.Find(Assign(acc, entries), key) ==
      if LastValue(entries, key).Some? then LastValue(entries, key) else Objects.Find(acc, key)
    decreases entries
  {
    if entries != [] {
      var next := Objects.Put(acc, entries[0].0, entries[0].1);
      AssignFind(next, entries[1..], key);
      Objects.FindPut(acc, entries[0].0, entries[0].1, key);
    }
  }

  /** With distinct keys the reduce copies the entries in order. */
  lemma {:induction false} AssignDistinct<V>(acc: Mapping<V>, entries: Mapping<V>)
    requires Objects.DistinctKeys(acc + entries)
    ensures Assign(acc, entries) == acc + entries
    decreases entries
  {
    if entries != [] {
      var e := entries[0];
      assert (acc + entries)[|acc|] == e;
      assert Objects.Find(acc, e.0).None? by {
        forall i | 0 <= i < |acc| ensures acc[i].0 != e.0 {
          assert (acc + entries)[i] == acc[i];
        }
      }
      Objects.PutNew(acc, e.0, e.1);
      assert (acc + [e]) + entries[1..] == acc + entries by {
        assert entries == [e] + entries[1..];
      }
      AssignDistinct(acc + [e], entries[1..]);
    }
  }

  /** The reduce never repeats a key. */
  lemma {:induction false} AssignKeepsDistinct<V>(acc: Mapping<V>, entries: Mapping<V>)
    requires Objects.DistinctKeys(acc)
    ensures Objects.DistinctKeys(Assign(acc, entries))
    decreases entries
  {
    if entries != [] {
      Objects.PutDistinct(acc, entries[0].0, entries[0].1);
      AssignKeepsDistinct(Objects.Put(acc, entries[0].0, entries[0].1), entries[1..]);
    }
  }

  /** A later rule for the same column overwrites an earlier one in the URL. */
  lemma LastRuleWins(state: TableContext.TableState, column: string)
    ensures state.filters != [] ==>
      Objects.Find(Encode(state).filters.value, column) == LastValue(FilterEntries(state.filters), column)
    ensures state.sorters != [] ==>
      Objects.Find(Encode(state).sorters.value, column) == LastValue(SorterEntries(state.sorters), column)
  {
    AssignFind([], FilterEntries(state.filters), column);
    AssignFind([], SorterEntries(state.sorters), column);
  }

  /** What survives the URL: a page other than 0, filters on distinct columns
      that all use 'contains', and sorters on distinct columns. */
  predicate Restorable(state: TableContext.TableState) {
    && state.page != 0
    && Objects.DistinctKeys(FilterEntries(state.filters))
    && (forall r :: r in state.filters ==> r.relation == "contains")
    && Objects.DistinctKeys(SorterEntries(state.sorters))
  }

  lemma {:induction false} DecodeFilterEntries(rules: seq<TableContext.FilterRule>)
    requires forall r :: r in rules ==> r.relation == "contains"
    ensures DecodeFilters(FilterEntries(rules)) == rules
  {
    var d := DecodeFilters(FilterEntries(rules));
    forall i | 0 <= i < |rules| ensures d[i] == rules[i] {
      assert rules[i] in rules;
    }
  }

  lemma {:induction false} DecodeSorterEntries(sorters: seq<TableContext.SortRule>)
    ensures DecodeSorters(SorterEntries(sorters)) == sorters
  {
    var d := DecodeSorters(SorterEntries(sorters));
    assert forall i :: 0 <= i < |sorters| ==> d[i] == sorters[i];
  }

  /** Reading back the URL written for a restorable state gives that state; an
      empty sorter list comes back as `defaultSorters`. */
  lemma DecodeEncode(state: TableContext.TableState, defaultSorters: seq<TableContext.SortRule>)
    requires Restorable(state)
    ensures Decode(Encode(state), defaultSorters) ==
      if state.sorters == [] then state.(sorters := defaultSorters) else state
  {
    assert [] + FilterEntries(state.filters) == FilterEntries(state.filters);
    assert [] + SorterEntries(state.sorters) == SorterEntries(state.sorters);
    AssignDistinct([], FilterEntries(state.filters));
    AssignDistinct([], SorterEntries(state.sorters));
    DecodeFilterEntries(state.filters);
    DecodeSorterEntries(state.sorters);
  }

  /** Every value of the mapping is text. */
  predicate TextValues(m: Mapping<Json.Value>) {
    forall i :: 0 <= i < |m| ==> m[i].1.JStr?
  }

  lemma {:induction false} PutTextValues(m: Mapping<Json.Value>, key: string, v: Json.Value)
    requires TextValues(m) && v.JStr?
    ensures TextValues(Objects.Put(m, key, v))
  {
    if m != [] && m[0].0 != key {
      assert TextValues(m[1..]) by {
        forall i | 0 <= i < |m[1..]| ensures m[1..][i].1.JStr? {
          assert m[1..][i] == m[i + 1];
        }
      }
      PutTextValues(m[1..], key, v);
      var r := Objects.Put(m[1..], key, v);
      forall i | 0 <= i < |[m[0]] + r| ensures ([m[0]] + r)[i].1.JStr? {
        if i > 0 {
          assert ([m[0]] + r)[i] == r[i - 1];
        }
      }
    }
  }

  /** The reduce writes only text values when it is given only text values. */
  lemma {:induction false} AssignTextValues(acc: Mapping<Json.Value>, entries: Mapping<Json.Value>)
    requires TextValues(acc) && TextValues(entries)
    ensures TextValues(Assign(acc, entries))
    decreases entries
  {
    if entries != [] {
      PutTextValues(acc, entries[0].0, entries[0].1);
      assert TextValues(entries[1..]) by {
        forall i | 0 <= i < |entries[1..]| ensures entries[1..][i].1.JStr? {
          assert entries[1..][i] == entries[i + 1];
        }
      }
      AssignTextValues(Objects.Put(acc, entries[0].0, entries[0].1), entries[1..]);
    }
  }

  /** Relations and repeated columns are lost: after a round trip every filter
      is 'contains', no column repeats, and each column holds the value of its
      last rule. */
  lemma RoundTripLoses(state: TableContext.TableState, defaultSorters: seq<TableContext.SortRule>, column: string)
    ensures forall r :: r in Decode(Encode(state), defaultSorters).filters ==> r.relation == "contains"
    ensures Objects.DistinctKeys(FilterEntries(Decode(Encode(state), defaultSorters).filters))
    ensures state.filters != [] ==>
      Objects.Find(FilterEntries(Decode(Encode(state), defaultSorters).filters), column) == LastValue(FilterEntries(state.filters), column)
  {
    var filters := Decode(Encode(state), defaultSorters).filters;
    if state.filters != [] {
      var m := Assign([], FilterEntries(state.filters));
      AssignKeepsDistinct([], FilterEntries(state.filters));
      AssignTextValues([], FilterEntries(state.filters));
      assert FilterEntries(filters) == m by {
        forall i | 0 <= i < |m| ensures FilterEntries(filters)[i] == m[i] {
          assert m[i].1 == Json.JStr(m[i].1.s);
        }
      }
      LastRuleWins(state, column);
    }
  }

  /** A search with distinct non-empty mappings and text filter values, read and
      written back, is unchanged. */
  lemma EncodeDecode(search: Search, defaultSorters: seq<TableContext.SortRule>)
    requires search.page.Some? && search.page.value != 0
    requires search.filters.Some? ==> search.filters.value != [] && Objects.DistinctKeys(search.filters.value)
    requires search.filters.Some? ==> forall i :: 0 <= i < |search.filters.value| ==> search.filters.value[i].1.JStr?
    requires search.sorters.Some? ==> search.sorters.value != [] && Objects.DistinctKeys(search.sorters.value)
    requires search.sorters.None? ==> defaultSorters == []
    ensures Encode(Decode(search, defaultSorters)) == search
  {
    var s := Decode(search, defaultSorters);
    if search.filters.Some? {
      var m := search.filters.value;
      assert FilterEntries(s.filters) == m by {
        forall i | 0 <= i < |m| ensures FilterEntries(s.filters)[i] == m[i] {
          assert m[i].1 == Json.JStr(m[i].1.s);
        }
      }
      assert [] + m == m;
      AssignDistinct([], m);
    }
    if search.sorters.Some? {
      var m := search.sorters.value;
      assert SorterEntries(s.sorters) == m;
      assert [] + m == m;
      AssignDistinct([], m);
    }
  }

  /** A filter value the router parsed as a number becomes its decimal text,
      and is written back to the URL as that text. */
  lemma NumberFilterBecomesText(column: string, n: int, page: int)
    requires page != 0
    ensures Decode(Search(Some(page), Some([(column, Json.JNum(n))]), None), []).filters ==
      [TableContext.FilterRule(column, Text.IntToDecimal(n), "contains")]
    ensures Encode(Decode(Search(Some(page), Some([(column, Json.JNum(n))]), None), [])).filters ==
      Some([(column, Json.JStr(Text.IntToDecimal(n)))])
  {
    var rules := [TableContext.FilterRule(column, Text.IntToDecimal(n), "contains")];
    assert FilterEntries(rules) == [(column, Json.JStr(Text.IntToDecimal(n)))];
    assert Assign([], FilterEntries(rules)) == Objects.Put([], column, Json.JStr(Text.IntToDecimal(n)));
  }

  /** The hook's state and the URL search it keeps in step with it. */
  class TableStateStore {
    var tableState: TableContext.TableState
    /** The location's search after the last `navigate({ search, replace: true })`. */
    var url: Search

    predicate Synced()
      reads this
    {
      url == Encode(tableState)
    }

    /** Mount: decode the route's search, then the effect writes the state back. */
    constructor (search: Search, defaultSorters: seq<TableContext.SortRule>)
      ensures tableState == Decode(search, defaultSorters)
      ensures Synced()
    {
      var state := Decode(search, defaultSorters);
      tableState := state;
      url := Encode(state);
    }

    /** `setTableState`, followed by the effect that writes the URL. */
    method SetTableState(state: TableContext.TableState)
      modifies this
      ensures tableState == state
      ensures Synced()
    {
      tableState := state;
      url := Encode(state);
    }
  }
}
