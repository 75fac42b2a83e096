# Admin dashboard listing core, in Dafny

This project models the logic behind the listing tables of a React admin
dashboard for users, subjects and tasks.

- **Table provider.** It maps a table type to its endpoint. It filters the
  page of rows the server returned by every active filter rule, then sorts it
  with a multi-key comparator.
- **URL state.** The table state lives in the page URL. It is decoded on mount
  and written back after every change.
- **Users route.** It validates its search parameters, merges partial state
  updates, and publishes its refetch on the window.
- **Id obfuscator.** Entity ids appear in URLs as base64 text (section 4 of
  RFC 4648) of their decimal form.
- **Row-action coordinator.** It holds which modal is open, for which entity
  and which id. The delete flow is guarded, sends a request, then closes the
  modal and refetches or reloads.
- **Refetch hook.** It prefers the table's refetch over the one published on
  the window.
- **Auth session.** It holds the bearer token and mirrors it in local storage.
- **Data hooks.** It builds headers and queries, normalises the response
  envelope, extracts error messages, and picks which cached listing to
  invalidate after a mutation.

JavaScript values are the datatype `Json.Value`, which has JavaScript
truthiness: an empty array or object is truthy. Object insertion order is kept
by writing objects as sequences of key/value pairs (module `Objects`).

Pure code is written as functions and lemmas. The code that changes state is
written as classes with `modifies` clauses:
- the action provider (`ActionsContext.ActionsProvider`);
- the auth provider and local storage (`ApiProvider`);
- the window's refetch slot (`Effects.Window`);
- the URL-backed table state (`UrlTableState.TableStateStore`).

The comparator's `for` loop is a method with loop invariants, proved against a
specification function. The in-place building of the header object and of the
query parameters are methods whose contracts state the object they build.

Side effects are recorded as event sequences (`ActionsModal.Event`,
`Refetch.Event`):
- the request sent;
- closing the modal;
- calling a callback;
- a page reload or a scheduled reload;
- an alert.

Responses are inputs.

## Model

| member | source | states |
|---|---|---|
| TableContext.Endpoint | admin-dashboard/src/context/TableContext.tsx:28-35 | the listing endpoint of a type is "/admin/" followed by the type's name |
| TableContext.EndpointInjective | admin-dashboard/src/context/TableContext.tsx:28-35 | two different table types never share an endpoint |
| TableContext.CellText | admin-dashboard/src/context/TableContext.tsx:50 | a missing or falsy cell reads as the empty text |
| TableContext.FilterKeepsMatching | admin-dashboard/src/context/TableContext.tsx:46-58 | every kept row matches all rules; each matching row is kept as often as it occurs and a non-matching one never; the filter keeps page order (it distributes over concatenation); with no rules every row is kept |
| TableContext.MatchesIgnoresValueCase | admin-dashboard/src/context/TableContext.tsx:51 | lower-casing the rule value never changes whether a row matches |
| TableContext.MatchesContains | admin-dashboard/src/context/TableContext.tsx:49-56 | for a rule with a column and a value whose relation is neither "equals" nor "startsWith", a row matches exactly when the lower-cased value occurs at some position of the lower-cased cell |
| TableContext.FalsyCellFails | admin-dashboard/src/context/TableContext.tsx:49-56 | a missing or falsy cell fails every rule that has both a column and a value |
| TableContext.Sign | admin-dashboard/src/context/TableContext.tsx:63-67 | 1 exactly when the second cell is below the first, -1 exactly when the first is below the second, else 0 |
| TableContext.LessAsymmetric | admin-dashboard/src/context/TableContext.tsx:66-67 | no two cells are each below the other |
| TableContext.SignAntisymmetric | admin-dashboard/src/context/TableContext.tsx:63-67 | swapping the two cells negates the comparison |
| TableContext.SignTransitive | admin-dashboard/src/context/TableContext.tsx:63-67 | for cells of one kind, comparison at or below zero is transitive, and a tie at the ends forces ties in between |
| TableContext.KeySign | admin-dashboard/src/context/TableContext.tsx:68-70 | one sorter's verdict lies in -1..1 |
| TableContext.KeySignOrder | admin-dashboard/src/context/TableContext.tsx:68-70 | an order of exactly "asc" keeps the cell comparison; any other order, "ASC" included, negates it, which is comparing the rows the other way round in ascending order |
| TableContext.KeySigns | admin-dashboard/src/context/TableContext.tsx:62-70 | one verdict per sorter, in sorter order |
| TableContext.FirstNonZeroZeroIff | admin-dashboard/src/context/TableContext.tsx:62-73 | the loop's result is 0 or one of the verdicts, and 0 exactly when every verdict is 0 |
| TableContext.FirstNonZeroFirst | admin-dashboard/src/context/TableContext.tsx:62-73 | a non-zero result is a verdict with only zero verdicts before it |
| TableContext.FirstNonZeroStep | admin-dashboard/src/context/TableContext.tsx:62-73 | one turn of the loop: the verdict at the current sorter decides unless it is 0 |
| TableContext.Cmp | admin-dashboard/src/context/TableContext.tsx:61-73 | the comparator lies in -1..1 |
| TableContext.CmpCons | admin-dashboard/src/context/TableContext.tsx:62-73 | the first sorter decides unless it ties, and then the remaining sorters do |
| TableContext.CmpZeroIff | admin-dashboard/src/context/TableContext.tsx:62-73 | the comparator is 0 exactly when every sorter ties |
| TableContext.CmpFirstDecider | admin-dashboard/src/context/TableContext.tsx:62-73 | a non-zero comparison is the verdict of the first sorter that tells the rows apart, with all earlier sorters tied |
| TableContext.CompareCells | admin-dashboard/src/context/TableContext.tsx:65-67 | one turn's cell comparison equals `Sign` of the two cells |
| TableContext.CompareRows | admin-dashboard/src/context/TableContext.tsx:61-73 | the comparator loop computes `Cmp` |
| TableContext.CmpAntisymmetric | admin-dashboard/src/context/TableContext.tsx:61-73 | swapping the rows negates the comparator |
| TableContext.KeySignTransitive | admin-dashboard/src/context/TableContext.tsx:63-70 | one sorter's verdict is transitive on rows whose cells have one kind |
| TableContext.CmpTransitive | admin-dashboard/src/context/TableContext.tsx:61-73 | the comparator is transitive on comparable rows, so it is a total preorder there |
| TableContext.Insert | admin-dashboard/src/context/TableContext.tsx:61 | inserting a row adds exactly that row to the multiset |
| TableContext.Sort | admin-dashboard/src/context/TableContext.tsx:61 | the sort is a permutation of its input |
| TableContext.SortedAppend | admin-dashboard/src/context/TableContext.tsx:61 | appending a row no lower than every row keeps a sequence sorted |
| TableContext.InsertBelowLast | admin-dashboard/src/context/TableContext.tsx:61 | when the new row sorts after every row but the last one, and the last row is above it, inserting it before the last row keeps the sequence sorted |
| TableContext.BelowThroughLast | admin-dashboard/src/context/TableContext.tsx:61 | in a sorted sequence of comparable rows, a row at or above the last row is at or above every row |
| TableContext.InsertSorted | admin-dashboard/src/context/TableContext.tsx:61 | insertion into a sorted sequence of comparable rows keeps it sorted |
| TableContext.SortSorted | admin-dashboard/src/context/TableContext.tsx:61 | rows whose sorted columns each hold one kind of value come out sorted |
| TableContext.SortAllTies | admin-dashboard/src/context/TableContext.tsx:61-73 | when every pair of rows ties, the sort keeps the page order |
| TableContext.AboveNoTie | admin-dashboard/src/context/TableContext.tsx:61-73 | on well-typed rows, a row above `y` never ties with a row that `y` ties with |
| TableContext.InsertKeepsTieOrder | admin-dashboard/src/context/TableContext.tsx:61-73 | inserting a row appends it to the rows that tie with any given row, if it ties, and leaves them untouched otherwise |
| TableContext.SortKeepsTieOrder | admin-dashboard/src/context/TableContext.tsx:61-73 | the sort keeps the order of the rows that tie with a given row |
| TableContext.SortStable | admin-dashboard/src/context/TableContext.tsx:61-73 | the sort is stable: for every row, the rows that tie with it on every sort rule come out in their page order |
| TableContext.ProcessCorrect | admin-dashboard/src/context/TableContext.tsx:43-76 | page data that is not an array gives no rows; the output is a permutation of the filtered rows, all of them matching; it is sorted when the sorted columns are well typed; with no rules it is the page unchanged |
| TableContext.GetControlStatus | admin-dashboard/src/context/TableContext.tsx:184 | the counts are the numbers of filter and sort rules |
| TableContext.TotalRecords | admin-dashboard/src/context/TableContext.tsx:175 | the total is `total_count` when it is present and truthy, and 0 otherwise |
| TableContext.ErrorText | admin-dashboard/src/context/TableContext.tsx:177 | the error text is present exactly when the message is non-empty, and is that message |
| TableContext.UseTableContext | admin-dashboard/src/context/TableContext.tsx:17-21 | the hook succeeds exactly inside a provider and returns its value |
| UrlTableState.DecodeFilters | admin-dashboard/src/hooks/useUrlTableState.ts:11-15 | one rule per entry, in entry order, with the entry's column, the entry's value passed through `String(value)`, and relation "contains" |
| UrlTableState.DecodeSorters | admin-dashboard/src/hooks/useUrlTableState.ts:16-19 | one sort rule per entry, in entry order, with the entry's column and order |
| UrlTableState.Decode | admin-dashboard/src/hooks/useUrlTableState.ts:9-20 | the page is the given one, or 1 when absent or 0; absent filters give none and given filters decode entry by entry; absent sorters give the default and given sorters decode entry by entry; every decoded filter is "contains" |
| UrlTableState.Encode | admin-dashboard/src/hooks/useUrlTableState.ts:22-33 | the page is always written; filters are written exactly when there are some; sorters are `undefined` exactly when there are none |
| UrlTableState.LastValue | admin-dashboard/src/hooks/useUrlTableState.ts:26-29 | a key has a last value exactly when some entry carries it |
| UrlTableState.AssignFind | admin-dashboard/src/hooks/useUrlTableState.ts:26-29 | after the reduce, a key reads the value of its last entry, or its earlier value when no entry has it |
| UrlTableState.AssignDistinct | admin-dashboard/src/hooks/useUrlTableState.ts:26-29 | with distinct keys the reduce copies the entries in order |
| UrlTableState.AssignKeepsDistinct | admin-dashboard/src/hooks/useUrlTableState.ts:26-29 | the reduce never repeats a key |
| UrlTableState.LastRuleWins | admin-dashboard/src/hooks/useUrlTableState.ts:25-29 | in the URL, each column holds the value (or order) of its last rule |
| UrlTableState.DecodeFilterEntries | admin-dashboard/src/hooks/useUrlTableState.ts:11-26 | decoding the entries of "contains" rules gives those rules back |
| UrlTableState.DecodeSorterEntries | admin-dashboard/src/hooks/useUrlTableState.ts:16-29 | decoding the entries of sort rules gives those rules back |
| UrlTableState.DecodeEncode | admin-dashboard/src/hooks/useUrlTableState.ts:9-33 | reading back the URL of a state with page other than 0, "contains" filters on distinct columns and sorters on distinct columns gives that state; an empty sort list comes back as the default |
| UrlTableState.RoundTripLoses | admin-dashboard/src/hooks/useUrlTableState.ts:11-27 | after a round trip every filter is "contains", no column repeats, and each column holds the value of its last rule |
| UrlTableState.AssignTextValues | admin-dashboard/src/hooks/useUrlTableState.ts:26 | the reduce over text values writes only text values |
| UrlTableState.NumberFilterBecomesText | admin-dashboard/src/hooks/useUrlTableState.ts:11-26 | a filter value the router parsed as a number becomes its decimal text in the rule, and is written back to the URL as that text |
| UrlTableState.EncodeDecode | admin-dashboard/src/hooks/useUrlTableState.ts:9-33 | a search with a non-zero page, text filter values and non-empty mappings on distinct keys is written back unchanged |
| UrlTableState.TableStateStore.constructor | admin-dashboard/src/hooks/useUrlTableState.ts:9-38 | mounting decodes the search, and the effect then writes the state's encoding to the URL |
| UrlTableState.TableStateStore.SetTableState | admin-dashboard/src/hooks/useUrlTableState.ts:22-41 | the state becomes the given one and the URL holds its encoding |
| UsersRoute.ValidateSearch | admin-dashboard/src/routes/_private/users/index.tsx:15-26 | the page is kept when non-zero and is 1 when absent or 0; filters and sorters are always present, kept when given and empty otherwise |
| UsersRoute.DefaultSortersNeverUsed | admin-dashboard/src/routes/_private/users/index.tsx:18 | after validation the default sort plays no part, and a URL without sorters opens unsorted |
| UsersRoute.ValidateSearchKeepingDefault | admin-dashboard/src/routes/_private/users/index.tsx:15-26 | like validation, except that a missing `sorters` stays missing |
| UsersRoute.ReloadKeepsDefaultSort | admin-dashboard/src/hooks/useUrlTableState.ts:16-33 | with that validation, reloading a state without sort rules gives the [id asc] default, and a state with sort rules keeps them |
| UsersRoute.Merge | admin-dashboard/src/routes/_private/users/index.tsx:66 | each field comes from the update when given, and from the previous state otherwise |
| UsersRoute.MergeIdempotent | admin-dashboard/src/routes/_private/users/index.tsx:66 | merging an update twice equals merging it once; an empty update changes nothing |
| UsersRoute.MountUsersPage | admin-dashboard/src/routes/_private/users/index.tsx:57-60 | the page's URL state starts from the validated search with [id asc] as its default, and the URL holds its encoding |
| UsersRoute.OnStateChange | admin-dashboard/src/routes/_private/users/index.tsx:66 | the state becomes the merge of the previous state and the update, and the URL follows |
| UsersRoute.PublishRefetch | admin-dashboard/src/routes/_private/users/index.tsx:35-37 | the window slot holds the table's refetch |
| UsersRoute.WithdrawRefetch | admin-dashboard/src/routes/_private/users/index.tsx:39-41 | the window slot is emptied |
| Text.ParseInt | admin-dashboard/src/hooks/useIdEncoder.ts:8-18 | `parseInt(_, 10)` fails exactly when no digit follows the leading white space and sign |
| Text.ParseIntDecimal | admin-dashboard/src/hooks/useIdEncoder.ts:8-18 | `parseInt` reads an integer's decimal form back, whatever non-digit text follows it |
| Base64.EncodedShape | admin-dashboard/src/hooks/useIdEncoder.ts:12 | base64 text has a length divisible by 4, and its unpadded part uses only the alphabet |
| Base64.DecodeEncode | admin-dashboard/src/hooks/useIdEncoder.ts:12-17 | decoding the encoding of any byte string gives that byte string |
| Base64.Btoa | admin-dashboard/src/hooks/useIdEncoder.ts:12 | `btoa` succeeds exactly on strings whose characters are all below 256, and returns the padded RFC 4648 encoding of their bytes |
| Base64.Atob | admin-dashboard/src/hooks/useIdEncoder.ts:17 | what `atob` returns is always a binary string |
| Base64.AtobBtoa | admin-dashboard/src/hooks/useIdEncoder.ts:12-17 | `atob(btoa(s))` is `s` for every binary string |
| IdEncoder.NumericId | admin-dashboard/src/hooks/useIdEncoder.ts:8 | a number id is taken as it is |
| IdEncoder.Encode | admin-dashboard/src/hooks/useIdEncoder.ts:7-13 | encoding fails, with "Invalid ID provided for encoding", exactly when the id does not parse; otherwise the token is exactly `btoa` of the id's decimal form, and `atob` reads that form back |
| IdEncoder.EncodeOne | admin-dashboard/src/hooks/useIdEncoder.ts:12 | id 1 encodes as "MQ==" |
| IdEncoder.EncodeFortyTwo | admin-dashboard/src/hooks/useIdEncoder.ts:12 | id 42 encodes as "NDI=" |
| IdEncoder.Decode | admin-dashboard/src/hooks/useIdEncoder.ts:15-28 | decoding fails exactly when the token is not base64 or its text does not parse, and always with "Invalid encoded ID provided" |
| IdEncoder.DecodeEncode | admin-dashboard/src/hooks/useIdEncoder.ts:7-28 | decoding an encoded id gives back its numeric value |
| IdEncoder.EncodeStringPrefix | admin-dashboard/src/hooks/useIdEncoder.ts:8 | a string id such as "42abc" encodes like the number 42 |
| IdEncoder.DecodeRejectsBadLength | admin-dashboard/src/hooks/useIdEncoder.ts:17-27 | an alphabet-only token whose length leaves remainder 1 by 4 fails with the fixed message |
| IdEncoder.DecodeRejectsNonNumber | admin-dashboard/src/hooks/useIdEncoder.ts:18-27 | a token for a text that does not parse fails with the fixed message, not the inner one |
| ActionsContext.ActionsProvider.constructor | admin-dashboard/src/context/ActionsContext.tsx:45-50 | no modal is open at first, and `refetchData` is the given prop |
| ActionsContext.ActionsProvider.OpenModal | admin-dashboard/src/context/ActionsContext.tsx:52-54 | the three fields become exactly the arguments, from any prior state |
| ActionsContext.ActionsProvider.CloseModal | admin-dashboard/src/context/ActionsContext.tsx:56-58 | all three fields become null from any state, so closing twice is closing once |
| ActionsContext.ActionsProvider.Value | admin-dashboard/src/context/ActionsContext.tsx:60-65 | the value carries the current state and passes `refetchData` through unchanged |
| ActionsContext.UseActions | admin-dashboard/src/context/ActionsContext.tsx:30-36 | the hook fails exactly outside a provider, with its fixed message |
| ActionsModal.SafeRefetch | admin-dashboard/src/components/modals/ActionsModal.tsx:16-26 | without a table context there is no refetch; inside one it is the context's |
| ActionsModal.IdString | admin-dashboard/src/components/modals/ActionsModal.tsx:31 | a truthy id has non-empty text |
| ActionsModal.DeleteEndpoint | admin-dashboard/src/components/modals/ActionsModal.tsx:32 | the row's endpoint is its listing's endpoint, a slash and the id |
| ActionsModal.SendDelete | admin-dashboard/src/components/modals/ActionsModal.tsx:34 | a request is sent exactly when there is a token; it is a DELETE to the endpoint with no body, the bearer header and the JSON content type; its outcome follows the mutation's failure cases |
| ActionsModal.HandleDelete | admin-dashboard/src/components/modals/ActionsModal.tsx:29-48 | nothing happens without an entity type or a truthy id; otherwise a DELETE with the bearer and JSON headers goes to the row's endpoint; on success the modal closes first and then the refetch is called once, or the page reloads; on failure the error is alerted and the modal state is unchanged |
| ActionsModal.HandleDeleteAsWritten | admin-dashboard/src/components/modals/ActionsModal.tsx:29-40 | as written: the mutation is only dispatched, with the endpoint text as its variables; the modal closes and the refetch or reload follows at once, whatever the server answers, and nothing is ever alerted |
| ActionsModal.Noun | admin-dashboard/src/components/modals/ActionsModal.tsx:60 | the noun is present exactly with an entity type, and is its name without the last character |
| ActionsModal.DeleteNounIsSingular | admin-dashboard/src/components/modals/ActionsModal.tsx:60 | the noun followed by "s" is the type's name |
| ActionsModal.EditForm | admin-dashboard/src/components/modals/ActionsModal.tsx:73-93 | a form is shown exactly when the id is truthy and the type is set; it is the type's form, given the id as text |
| ActionsModal.Render | admin-dashboard/src/components/modals/ActionsModal.tsx:50-105 | nothing is rendered exactly when no modal type is set; "delete" shows the prompt and "edit" shows the edit modal |
| ActionsModal.ClosedRendersNothing | admin-dashboard/src/components/modals/ActionsModal.tsx:50-52 | a closed modal renders nothing |
| Refetch.Chosen | admin-dashboard/src/hooks/useRefetch.ts:24-25 | the table context's refetch is preferred, and the window slot is used only without it |
| Refetch.Refetch | admin-dashboard/src/hooks/useRefetch.ts:20-40 | with nothing to call, only a reload after 100 ms is scheduled; otherwise page 1 is set first when asked and possible, and then the chosen refetch is called exactly once |
| Refetch.IsRefetching | admin-dashboard/src/hooks/useRefetch.ts:44 | refetching is reported exactly when a table context is loading |
| ApiConfig.CreateHeaders | admin-dashboard/src/components/config/api.ts:3-15 | `Authorization: Bearer <token>` is present exactly when the token is truthy, `Content-Type: application/json` exactly when the body is not form data, no other header exists, and no key repeats |
| ApiProvider.StoredToken | admin-dashboard/src/context/ApiProvider.tsx:17-20 | a stored token is adopted exactly when it exists and is non-empty |
| ApiProvider.StoredTokenRoundTrip | admin-dashboard/src/context/ApiProvider.tsx:17-31 | a token saved at login is found on the next mount exactly when non-empty; after logout none is found |
| ApiProvider.AuthProvider.constructor | admin-dashboard/src/context/ApiProvider.tsx:13 | the token starts as null |
| ApiProvider.AuthProvider.Mount | admin-dashboard/src/context/ApiProvider.tsx:15-21 | a non-empty stored token replaces the current one, and otherwise nothing changes |
| ApiProvider.AuthProvider.Login | admin-dashboard/src/context/ApiProvider.tsx:23-26 | the token becomes the argument, and storage holds it under 'authToken' with every other entry unchanged |
| ApiProvider.AuthProvider.Logout | admin-dashboard/src/context/ApiProvider.tsx:28-31 | the token becomes null, and 'authToken' leaves storage with every other entry unchanged |
| ApiProvider.AuthProvider.Value | admin-dashboard/src/context/ApiProvider.tsx:33-38 | `isAuthenticated` holds exactly when the token is non-empty |
| ApiProvider.UseAuth | admin-dashboard/src/context/ApiProvider.tsx:44-50 | the hook fails exactly outside a provider, with its fixed message |
| FetchData.QueryKey | admin-dashboard/src/hooks/useFetchData.ts:18-22 | the key is "data", the endpoint, the page (or `undefined` without a table state) and the page size (10 by default) |
| FetchData.QueryKeyIgnoresRules | admin-dashboard/src/hooks/useFetchData.ts:22 | table states on the same page share a key, whatever their filters and sorters |
| FetchData.SearchParams | admin-dashboard/src/hooks/useFetchData.ts:18-32 | no parameters without a table state; otherwise exactly `page` then `pageSize` (default 10), each of which `parseInt` reads back as its number |
| FetchData.SingleRecord | admin-dashboard/src/hooks/useFetchData.ts:54 | the data is a truthy `user`, else a truthy `subject`, else a truthy `task`, and the whole body only when all three are falsy |
| FetchData.Normalize | admin-dashboard/src/hooks/useFetchData.ts:42-57 | a null body throws on reading `records`; a truthy `records` is the data, with pagination made of `current_page`, `last_page`, `page_size` and `total_count`; otherwise the data is the single record and there is no pagination |
| FetchData.BuildRequest | admin-dashboard/src/hooks/useFetchData.ts:28-36 | the request is a GET with no body to the endpoint, with the page query and the bearer and JSON headers |
| FetchData.QueryFn | admin-dashboard/src/hooks/useFetchData.ts:23-58 | without a token it fails before any request; otherwise it sends a GET with no body to the endpoint with the page query and the bearer and JSON headers; a non-OK status fails with "HTTP error! status: N"; a body that is not JSON fails; otherwise the envelope is normalised |
| FetchData.RunQuery | admin-dashboard/src/hooks/useFetchData.ts:21-59 | the query runs, and sends its request, exactly when the endpoint is non-empty and the token truthy; when it runs, the missing-token error cannot occur |
| FetchData.Envelope | admin-dashboard/src/hooks/useFetchData.ts:42-57 | the object the query resolves to holds the data under `data`, `pagination: null` exactly for a single record, and otherwise the `total_count` under `pagination` |
| FetchData.Feed | admin-dashboard/src/context/TableContext.tsx:38 | the intended hand-off reads the page data from the envelope's `data`, and the total from its `pagination.total_count`, absent when `pagination` is null |
| FetchData.TableShowsNothingAsWritten | admin-dashboard/src/context/TableContext.tsx:38-43 | as written, the table receives the whole envelope as its page data and no pagination, so it shows no rows and a total of 0 for every accepted response |
| FetchData.ListResponseLostAsWritten | admin-dashboard/src/context/TableContext.tsx:38-43 | a list response with records: the intended hand-off shows exactly those records, the hand-off as written shows none |
| FetchData.ListResponseRows | admin-dashboard/src/hooks/useFetchData.ts:42-51 | through the intended hand-off, a list response, even with an empty `records` array, gives pagination, and the table without rules shows exactly its records |
| FetchData.TotalRecordsOfResponse | admin-dashboard/src/hooks/useFetchData.ts:42-57 | through the intended hand-off, the table's total is `total_count` for a list response with a truthy count, and 0 otherwise |
| FetchData.SingleRecordShowsNoRows | admin-dashboard/src/hooks/useFetchData.ts:52-57 | through the intended hand-off, a single-record response leaves the table with no rows |
| MutateData.Destructure | admin-dashboard/src/hooks/useMutateData.ts:12-16 | a value that is not an object yields no endpoint, no method and no body |
| MutateData.ErrorMessages | admin-dashboard/src/hooks/useMutateData.ts:29-34 | a body that is not JSON gives "Request failed with status N"; a JSON `message` is surfaced as it is; JSON without a truthy `message` gives "HTTP error! status: N"; a null body throws on reading `message` |
| MutateData.MutationFn | admin-dashboard/src/hooks/useMutateData.ts:12-37 | without a token it fails before any request; otherwise one request with the given method (GET when none) and the token and form-dependent headers; form data is sent as it is, another truthy body as JSON, a falsy body as none; a non-OK status fails with the extracted error; an OK body that is not JSON fails |
| MutateData.ResourceType | admin-dashboard/src/hooks/useMutateData.ts:40-41 | the resource type never contains a slash |
| MutateData.Invalidation | admin-dashboard/src/hooks/useMutateData.ts:43-45 | a key is invalidated exactly when the resource type exists and is non-empty |
| MutateData.ResourceTypeOfPath | admin-dashboard/src/hooks/useMutateData.ts:40-41 | the resource type of "/a/t/..." is t, so "/admin/users/5/role" gives "users" |
| MutateData.InvalidatesOwnListing | admin-dashboard/src/hooks/useMutateData.ts:38-46 | a mutation of one row invalidates exactly the cache-key prefix of that row's listing |
| MutateData.DeleteCallAsWritten | admin-dashboard/src/components/modals/ActionsModal.tsx:34 | the delete call as written sends a GET to the base URL followed by "undefined" |
| MutateData.DeleteVariables | admin-dashboard/src/components/modals/ActionsModal.tsx:32-34 | the intended delete variables send a DELETE to the given endpoint |

## Left out

- Network, caching and timing: the browser's `fetch`, the query library's cache and retries, the ordering of in-flight requests, and concurrency are not modelled. Responses are inputs. A `fetch` that rejects (a network failure) is not modelled.
- JSON parsing by the browser: a body is either a parsed value or not JSON (`None`). The text that `JSON.stringify` produces for a request body is not modelled; the body value itself is carried.
- Browser side effects: `console` output, `alert`, `setTimeout` and `window.location.reload` appear only as events. `navigate` appears only as the new URL search. Local storage is a map. How the router serialises the search into the URL is not modelled.
- ActionsModal.HandleDelete: the "An unknown error occurred." alert is not modelled, because every failure in the model is an `Error`. The text of engine errors (a property read on `null`, a JSON syntax error) is not modelled; the failure kind is alerted instead.
- TableContext.Sort: the engine's in-place `Array.prototype.sort` on the local copy is modelled as a stable insertion sort on the sequence value. No other reference to the copy exists, so there is no aliasing to capture. The comparator's loop is the method `TableContext.CompareRows`.
- TableContext.Less: cells compare as JavaScript's `<` and `>` only when both are numbers, both strings (by code point) or both booleans. Every other pair ties, including mixed kinds, `null`, `undefined`, arrays and objects. JavaScript's loose comparison across kinds is not modelled, and sortedness is proved only for well-typed columns.
- Text.StrLess: strings are sequences of Unicode scalar values and compare by code point. JavaScript compares UTF-16 code units, which differs for characters outside the Basic Multilingual Plane: in JavaScript "\u{1F600}" < "\uFF00", here the reverse.
- Text.Lower: lower-casing is ASCII only; Unicode case mapping is not modelled.
- Numbers are unbounded integers. Floating point, `NaN` cells, non-integer ids and ids beyond 2^53 are not modelled.
- Objects.Put: JavaScript lists integer-like keys before other keys. Here every key keeps insertion order.
- A property read on a row that is `null` throws in JavaScript. Here it reads as `undefined`.
- The `default` branch that throws 'Invalid table config type' is not modelled, because the table type has only three values.
- Column definitions, the empty-table message, status colours, date formatting, markup, icons, the forms (UserForm, SubjectForm, TaskForm), the login page, the other routes and the build configuration are not part of this model.
- `openModal` and `closeModal` are not fields of `ActionsContext.ActionsValue`, because functions are not values here. The methods of `ActionsContext.ActionsProvider` stand for them. `login` and `logout` in `ApiProvider.AuthValue` are handled the same way.
- The `isLoading` flag of the mutation, which disables the delete button, is not modelled.

## Findings

| source | as written | input that shows it | evidently intended | confidence | as-written member | corrected member |
|---|---|---|---|---|---|---|
| admin-dashboard/src/components/modals/ActionsModal.tsx:34 | `mutate(endpoint, 'DELETE')` passes the endpoint string as the mutation's variables. Destructuring `{ endpoint, method }` from a string gives `undefined` for both, so the request is a GET to the base URL followed by "undefined". | entity type "users" with id 5: endpoint "/admin/users/5" | `mutate({ endpoint, method: 'DELETE' })`: a DELETE to "/admin/users/5" | not executed | MutateData.DeleteCallAsWritten | ActionsModal.HandleDelete |
| admin-dashboard/src/routes/_private/users/index.tsx:18 | `sorters \|\| {}` turns a missing `sorters` into `{}`. An empty object is truthy, so the URL state's default `[id asc]` is never used, even though the encoder writes an empty sort list as `undefined` so that the default applies on reload. | a users URL with no `sorters` | a missing `sorters` stays missing, and the table opens sorted by id | not executed | UsersRoute.DefaultSortersNeverUsed | UsersRoute.ReloadKeepsDefaultSort |
| admin-dashboard/src/components/modals/ActionsModal.tsx:34 | `await mutate(...)` awaits the query library's `mutate`, which returns nothing and reports failures only through its own callbacks. The `await` does not wait: the modal closes and the refetch or page reload runs at once, a failed request never reaches the `catch`, and a reload may cancel the request still in flight. | a DELETE that the server answers with status 500 | `await mutateAsync(...)`: close and refetch only after success, alert the failure otherwise | not executed | ActionsModal.HandleDeleteAsWritten | ActionsModal.HandleDelete |
| admin-dashboard/src/context/TableContext.tsx:38 | `const { data: pageData, pagination, ... } = useFetchData(...)` destructures the query result itself. Its `data` is the whole `{ data, pagination }` object built by the query function, and it has no `pagination` field. `pageData` is never an array, so the table shows no rows, and the total is always 0. | a list response with `records: [{"id": 1}]` and `total_count: 1` | take `pageData` from `data?.data` and `pagination` from `data?.pagination` | not executed | FetchData.TableShowsNothingAsWritten | FetchData.ListResponseRows |
