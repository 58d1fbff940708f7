# EtiquetaFácil order core in Dafny

EtiquetaFácil is a shipping-label service. Users connect storefronts (Mercado Livre, Shopee,
TikTok Shop), import orders and print labels for them in batches. Storage and authentication
belong to a hosted backend. The application's own logic is small, and this project models
three pieces of it:

- **Domain data** (`types.dfy`, module `Types`). The order lifecycle `pending | printed | shipped`,
  the subscription tiers, the record shapes and the static `PLAN_LIMITS` ceiling table. For each
  tier the table gives a label quota (unbounded for pro and enterprise), an integration ceiling
  and a batch size.
- **Order store gateway** (`order_store.dfy`, module `OrderStore`). The `orders` and `labels`
  tables are in-memory sequences of rows.
  - The query builders have their usual meaning: `.eq` filters rows, `.in` tests id membership,
    `.order(..., {ascending: false})` sorts newest first, `.update` overwrites columns, and
    `.single` demands exactly one row.
  - `getOrders` and the counts of `getUserStats` are functions over the tables.
  - `updateOrder` and `markOrdersAsPrinted` are methods of the `Store` class, which rewrite its
    `orders` field.
- **Dashboard page** (`dashboard.dfy`, module `DashboardPage`). The `Dashboard` class holds the
  page state: the signed-in user, `orders`, `stats`, `selectedOrders` and `filter`. Its methods
  are `loadData`, filter changes, `toggleOrderSelection`, `selectAll` and `generateLabels`.
  Module functions give the filter-to-status translation and the header-checkbox condition.

`wrappers.dfy` holds the `Option` and `Result` types.

Time is an integer instant. The caller passes clock readings in as parameters; the source reads
the wall clock. `updateOrder` reads it once (`now`). `markOrdersAsPrinted` reads it twice, once for
`printed_at` and once for `updated_at`, so it takes two readings, `printedAt` and `updatedAt`, and
nothing relates them.
The signed-in user's profile row is a constructor argument of `Dashboard`; the source gets it
from the auth provider and the `users` table.

`Store.UpdateOrder` models `.single()` on an update. When the id matches exactly one row, that
row is rewritten and returned. Otherwise the call fails with the match count and the table is left
as it was: zero matches change nothing, and the backend rolls back a singular update that matched
several rows.

The code enforces less than its types and names suggest:

- Neither `generateLabels` nor the store checks a plan ceiling. No batch-size, label-quota or
  integration-count check is ever made, so none is modelled as behaviour. `PLAN_LIMITS` is only
  data, and its ordering is proved.
- `markOrdersAsPrinted` has no ownership or state guard. Any listed row becomes `printed`,
  including a `shipped` one (`MarkedRows`).
- `updateOrder` filters on the id alone. It can set any column, `status` included.
- The statistics query filters `labels` on a `user_id` column. The `Label` interface does not
  declare that column; the modelled label row carries it.

## Model

| member | source | states |
|---|---|---|
| `Types.StatusName` | types/index.ts:26 | each lifecycle state is stored as a non-empty string |
| `Types.ParseStatus` | types/index.ts:26 | a status string names a state exactly when it is that state's stored name |
| `Types.ParseStatusName` | types/index.ts:26 | reading a stored status name gives back the same state |
| `Types.StatusNameInjective` | types/index.ts:26 | two states share a stored name if and only if they are the same state |
| `Types.Limits` | types/index.ts:69-81 | the label quota is unbounded exactly for pro and enterprise; every tier's integration ceiling is positive and below its batch size |
| `Types.FreeLimits` | types/index.ts:77 | free: 10 labels, 1 integration, batches of 5 |
| `Types.StarterLimits` | types/index.ts:78 | starter: 100 labels, 10 integrations, batches of 50 |
| `Types.UpperTierLimits` | types/index.ts:79-80 | pro: unbounded labels, 100 integrations, batches of 500; enterprise: unbounded labels, 1000 integrations, batches of 10000 |
| `Types.LimitsMonotone` | types/index.ts:77-80 | a higher tier has a strictly larger integration ceiling and batch size, and a label quota at least as large |
| `OrderStore.MatchesStatus` | lib/supabase.ts:75-77 | a status string naming a state admits exactly the orders in that state; a non-empty string naming no state admits none |
| `OrderStore.Select` | lib/supabase.ts:69-77 | the owner and status filters keep a row exactly when it belongs to the user and passes the status filter |
| `OrderStore.Insert` | lib/supabase.ts:73 | inserting into a newest-first list keeps it newest first and adds exactly the one row |
| `OrderStore.SortNewestFirst` | lib/supabase.ts:73 | the result is ordered by `created_at` descending and is a permutation of the input |
| `OrderStore.GetOrders` | lib/supabase.ts:68-83 | the result is newest first; every returned order belongs to the user and passes the status filter; every such order of the table is returned, with the same multiplicity |
| `OrderStore.SelectMultiplicity` | lib/supabase.ts:69-77 | each matching row appears in the filtered rows as often as in the table; a row that does not match never appears |
| `OrderStore.EmptyStatusIsNoFilter` | lib/supabase.ts:75-77 | an empty status string is falsy, so it filters nothing, exactly like an absent status |
| `OrderStore.StatusFilterNarrows` | lib/supabase.ts:75-77 | filtering by a state returns exactly the user's orders in that state; the result is a sub-multiset of the unfiltered listing |
| `OrderStore.ListingPartition` | lib/supabase.ts:68-83 | the pending, printed and shipped listings together are exactly the unfiltered listing, as multisets: each of the user's orders is listed under exactly one state |
| `OrderStore.UnknownStatusListsNothing` | lib/supabase.ts:75-77 | a non-empty status string that names no state returns no orders |
| `OrderStore.OwnershipIsolation` | lib/supabase.ts:72 | the listings of two different users never share an order |
| `OrderStore.CountStatus` | lib/supabase.ts:194-196 | a state's count is at most the number of orders, and it is zero exactly when no order is in that state |
| `OrderStore.CountPartition` | lib/supabase.ts:194-199 | the pending, printed and shipped counts add up to the number of orders |
| `OrderStore.LabelCount` | lib/supabase.ts:187-203 | the label count is at most the number of label rows, and it is zero exactly when none belongs to the user |
| `OrderStore.LabelCountAppend` | lib/supabase.ts:187-203 | the label count of two stretches of the table is the sum of their counts |
| `OrderStore.LabelCountSingle` | lib/supabase.ts:187-203 | one label row counts one exactly when its `user_id` is the user's |
| `OrderStore.UserStats` | lib/supabase.ts:179-205 | pending + printed + shipped == totalOrders; each count is at most totalOrders; totalOrders is the length of the user's unfiltered listing; totalLabels is the user's label count |
| `OrderStore.StatsOfEmptyTables` | lib/supabase.ts:194-203 | with no rows, every count is 0 |
| `OrderStore.SelectCountsStatus` | lib/supabase.ts:180-196 | the user's rows in a given state are as many as that state's count among all the user's rows |
| `OrderStore.StatsAgreeWithListing` | lib/supabase.ts:179-205 | each state's counter equals the length of the listing filtered by that state |
| `OrderStore.Apply` | lib/supabase.ts:99 | after the merge, `updated_at` is `now`, even when the patch supplies its own value |
| `OrderStore.ApplyEmptyPatch` | lib/supabase.ts:99 | a patch that supplies nothing changes only `updated_at` |
| `OrderStore.ApplyLifecycleColumns` | lib/supabase.ts:99 | a supplied status, `printed_at`, owner or `created_at` replaces the stored value; an omitted one is kept |
| `OrderStore.ApplyIdempotent` | lib/supabase.ts:99 | applying the same patch again at the same instant changes nothing more |
| `OrderStore.IdCount` | lib/supabase.ts:100-102 | the count is zero exactly when no row has the id |
| `OrderStore.IndexOfId` | lib/supabase.ts:100 | the result is the first row that has the id |
| `OrderStore.TwoMatches` | lib/supabase.ts:100-104 | two rows carrying the id make the count at least two, so `.single()` refuses the update |
| `OrderStore.KeyMatchesOnce` | lib/supabase.ts:100-104 | with distinct ids, an id present in the table is counted exactly once, so `.single()` accepts the update |
| `OrderStore.SingleMatch` | lib/supabase.ts:100-102 | when exactly one row has the id, no other row has it |
| `OrderStore.UpdateWhere` | lib/supabase.ts:97-100 | the update by id keeps the table length, makes each row carrying the id the merge of that row with the patch, leaves rows with other ids unchanged, and changes nothing when no row has the id |
| `OrderStore.UpdateTouchesOnlyId` | lib/supabase.ts:97-100 | an update by id leaves rows with other ids unchanged, and rewrites each row with that id to its merge with the patch, `updated_at` included |
| `OrderStore.MarkPrinted` | lib/supabase.ts:111-115 | a marked row is printed, with `printed_at` and `updated_at` set to the two clock readings, and so keeps the lifecycle invariant; every other column is kept |
| `OrderStore.MarkWhere` | lib/supabase.ts:111-116 | the bulk update keeps the table length, leaves every row whose id is not listed unchanged, and changes nothing for an empty id set |
| `OrderStore.IdsOf` | lib/supabase.ts:116 | `.in` reads an id list as the set of ids it contains |
| `OrderStore.WithIds` | lib/supabase.ts:116-117 | the rows returned after the bulk update are exactly the table rows whose id is listed |
| `OrderStore.WithNoIds` | lib/supabase.ts:116-117 | an empty id set selects no row |
| `OrderStore.MarkedRows` | lib/supabase.ts:108-117 | a listed row becomes printed, with `printed_at` and `updated_at` set to the two clock readings, whatever its old state; its other columns are kept; an unlisted row is unchanged |
| `OrderStore.MarkNoIds` | lib/supabase.ts:108-117 | an empty id list changes no row and returns no row |
| `OrderStore.MarkIdempotent` | lib/supabase.ts:111-116 | marking the same ids twice with the same clock readings is the same as marking them once |
| `OrderStore.MarkPreservesLifecycle` | lib/supabase.ts:111-115 | marking keeps "`printed_at` is unset exactly while pending" for every row; a row created no later than the `printed_at` reading ends with `printed_at >= created_at` |
| `OrderStore.Store.constructor` | lib/supabase.ts:7 | a store handle starts over the given `orders` and `labels` tables |
| `OrderStore.Store.UpdateOrder` | lib/supabase.ts:96-106 | when exactly one row has the id, that row is merged and returned; otherwise the call fails with the match count and the table is unchanged |
| `OrderStore.Store.MarkOrdersAsPrinted` | lib/supabase.ts:108-121 | the table becomes the bulk-marked table; the rewritten rows are returned |
| `DashboardPage.StatusArg` | app/dashboard/page.tsx:66 | `all` gives no status; any other filter passes its state's stored name, which reads back as that state |
| `DashboardPage.ListingForFilter` | app/dashboard/page.tsx:61-70 | the page lists exactly the user's orders that the filter admits |
| `DashboardPage.Toggle` | app/dashboard/page.tsx:84-92 | the toggled id flips membership; every other id keeps its membership |
| `DashboardPage.ToggleTwice` | app/dashboard/page.tsx:84-92 | toggling the same id twice restores the selection |
| `DashboardPage.IdSet` | app/dashboard/page.tsx:98 | the set holds exactly the listed orders' ids, and is no larger than the listing |
| `DashboardPage.IdSetSize` | app/dashboard/page.tsx:98 | with distinct ids, the id set is as large as the listing |
| `DashboardPage.SizeOnlyDecides` | app/dashboard/page.tsx:94-100 | selectAll and the header checkbox depend only on the selection's size, not on which ids it holds |
| `DashboardPage.SelectAllResult` | app/dashboard/page.tsx:94-100 | selectAll empties the selection when its size equals the listing length, and otherwise selects exactly the listed ids |
| `DashboardPage.HeaderChecked` | app/dashboard/page.tsx:234 | the header checkbox is never checked on an empty listing or with nothing selected |
| `DashboardPage.HeaderCheckedMeansAllSelected` | app/dashboard/page.tsx:234 | when ids are distinct and only listed ids are selected, the header is checked exactly when the listing is non-empty and every listed order is selected |
| `DashboardPage.SelectAllFlipsHeader` | app/dashboard/page.tsx:234 | on a non-empty listing with distinct ids, selectAll checks an unchecked header checkbox and unchecks a checked one |
| `DashboardPage.ArrayFrom` | app/dashboard/page.tsx:109 | the list holds each selected id exactly once |
| `DashboardPage.Dashboard.constructor` | app/dashboard/page.tsx:22-32 | the initial state: no orders, zero statistics, empty selection, filter `all` |
| `DashboardPage.Dashboard.LoadData` | app/dashboard/page.tsx:61-77 | without a user nothing changes; otherwise the listing under the current filter and the statistics are reloaded |
| `DashboardPage.Dashboard.SetFilter` | app/dashboard/page.tsx:38-42 | a filter change stores the filter and reloads the data under it |
| `DashboardPage.Dashboard.ToggleOrderSelection` | app/dashboard/page.tsx:84-92 | the selection becomes `Toggle` of the old selection |
| `DashboardPage.Dashboard.SelectAll` | app/dashboard/page.tsx:94-100 | the selection becomes `SelectAllResult` of the old selection and the listing |
| `DashboardPage.Dashboard.GenerateLabels` | app/dashboard/page.tsx:102-114 | with an empty selection nothing changes; otherwise the table becomes the bulk-marked table, every selected order is printed with the `printed_at` reading, every other row is unchanged, the data is reloaded and the selection is emptied |

## Left out

- Building the backend client and reading its configuration from the environment (lib/supabase.ts:4-7). This is external library code.
- Authentication: `signUp`, `signIn`, `signOut`, `getCurrentUser`, and the page's `checkAuth` and `handleLogout`. These are calls to a hosted auth provider. The user id is passed in instead.
- The user-profile, integration and label reads and writes, and `createOrder`. Each passes its arguments straight to the backend and applies no local rule.
- Backend failures (an unreachable store, a rejected query). The source rethrows them and they are not modelled. The only modelled error is `.single()` matching a number of rows other than one.
- Primary-key and other column constraints of the backend. The lemmas that need unique ids require `DistinctIds` instead.
- LoadData, SetFilter, GenerateLabels: the page's reloads complete asynchronously. The `[user, filter]` effect runs after render, `loadData` sets the listing and statistics only once both reads resolve, and `generateLabels` does not await its reload. The model gives the state once the reload completes.
- The `Integration` record: its reads and writes are left out (above), so its shape is not modelled.
- MarkOrdersAsPrinted: the returned rows are in table order; the backend promises no order for them.
- Ordering among rows with equal `created_at`. The backend returns such rows in an unspecified order, and `SortNewestFirst` fixes one.
- Insertion order of the selection. The page keeps its selection in a JavaScript `Set`, which remembers insertion order. Its only consumer is the order-insensitive `.in` filter, so the selection is a Dafny `set`.
- `Promise.all` in `loadData`. Its two reads are modelled as sequential reads of one table state. The console logging and the `loading` flag are also left out.
- Plan entitlement checks (batch size, label quota, integration count). The code never consults `PLAN_LIMITS`, so no such check exists to model.
- `PLAN_PRICES`. This is floating-point display data.
- Date formatting and all rendering and styling.
