# Phone-repair workshop: stock, tickets and dashboards in Dafny

This project models the logic of a phone-repair workshop dashboard:

- **Repair tickets and stock, Firestore backend.** Opening a ticket decrements the stock of every spare part it uses, clamped at zero. Deleting a ticket returns the parts to stock, removes its part-usage rows and removes the ticket. All writes of one call are collected in a write batch. Every stock value is read before the commit. The batch applies its writes in order, so a later write to the same document replaces an earlier one.
- **Local-storage backend.** The same records are kept as ordered lists. Add appends (tickets are prepended), update merges by id and delete filters by id. This backend never touches stock. Deleting a ticket leaves its part-usage rows behind.
- **Dashboard.** The date window (today, last 7 days, last 30 days, all) and the stat cards: revenue, estimated cost, net profit and ticket count. Profit per weekday over the last seven days. The five most frequent device models and issue types.
- **Repairs page.** The one-button forward workflow (pending, in progress, completed, archived), the search and status filter, the four status counters, and the conversion of the form's part lines.
- **Language provider.** Translation lookup with fallback to the key, text direction, and the start-up language.

The clock, id generation, calendar helpers, lower-casing and the translation tables are parameters, so every operation is a pure function of its inputs.

Files:

- `wrappers.dfy`: `Option` and `Result`.
- `seqs.dfy`: order-preserving filter, subsequence, sums and first-match search.
- `types.dfy`: the records and partial-update merges.
- `batch.dfy`: the document store and write-batch commit.
- `firestore.dfy`, `firestore_laws.dfy`: the Firestore hooks and their laws.
- `local_store.dfy`: the local-storage hooks.
- `ranking.dfy`: tally, stable descending sort and top five.
- `dashboard.dfy`, `repairs_page.dfy`, `language.dfy`: the two pages and the language provider.

## Model

| member | source | states |
|---|---|---|
| Types.WithStatus | src/hooks/useLocalStorage.ts:371-379 | A status change always sets the status and `updated_at`. It sets `completed_at` only when the new status is completed, and otherwise keeps the old value. No other ticket field changes. |
| Batch.ApplyOpsAt | src/hooks/useFirebaseData.ts:397 | After a commit, each document holds what the last write to that key left: the value it set, nothing if it was deleted, or the old value if no write touched it. |
| Batch.CommitStock | src/hooks/useFirebaseData.ts:386-397 | A committed part carries the quantity and timestamp of the last stock write to it. Parts are never created or deleted by stock writes. |
| FirestoreStore.AddRepair | src/hooks/useFirebaseData.ts:399-408 | The returned ticket has the new id, the caller's fields and fresh timestamps. It gets the first cached brand and model with the ticket's ids, or none when no cached record has that id. |
| FirestoreStore.AddRepairTicket | src/hooks/useFirebaseData.ts:360-368 | `addRepair` stores exactly one new ticket under the new id. Every other ticket and every brand is unchanged. |
| FirestoreStore.UsageWritesStock | src/hooks/useFirebaseData.ts:370-394 | The last stock write the batch holds for a part is `max(0, q - quantity_used)` for the last entry naming that part, with `q` read before the commit. A part no entry names gets no write. |
| FirestoreStore.AddRepairStock | src/hooks/useFirebaseData.ts:384-392 | After `addRepair`, every existing part named by an entry holds the clamped decrement of its last naming entry. Parts not named keep their quantity. No part is created, including for entries naming a missing part. |
| FirestoreStore.AddRepairRows | src/hooks/useFirebaseData.ts:372-382 | The stored row ids become the old ids plus the new ones. Rows under ids that are not new are kept. With distinct row ids, each new row carries the new ticket id and its entry's part id, quantity and price. |
| FirestoreStore.DeleteRepairTicket | src/hooks/useFirebaseData.ts:453-457 | `deleteRepair` removes the ticket and touches no other ticket and no brand. |
| FirestoreStore.DeleteRepairRows | src/hooks/useFirebaseData.ts:429-451 | The usage rows left are exactly those whose ticket id differs from the deleted one, unchanged. |
| FirestoreStore.DeleteRepairStock | src/hooks/useFirebaseData.ts:435-448 | Each existing part named by a queried row gains `quantity_used` of the last such row, added to the pre-commit quantity with no upper bound. Other parts are unchanged. |
| FirestoreStore.UpdateRepairStatus | src/hooks/useFirebaseData.ts:411-424 | The stored ticket gets the new status and `updated_at`, plus `completed_at` only for completed. Stock and usage rows are unchanged, and a missing document is an error. The returned record is the first cached match with only status and `updated_at` changed, or null. |
| FirestoreStore.UpdateBrand | src/hooks/useFirebaseData.ts:140-144 | The stored brand is merged with the patch, and all other documents are unchanged. The result is the cached brand merged with the patch, or null when the id is not cached. A missing document is an error. |
| FirestoreStore.UpdateSparePart | src/hooks/useFirebaseData.ts:284-292 | As for brands, and both the stored and the returned part also get `updated_at` set to now. |
| FirestoreLaws.AddRepairKeepsStock | src/hooks/useFirebaseData.ts:388-391 | If every stock quantity is non-negative before `addRepair`, it still is afterwards, whatever the quantities used. |
| FirestoreLaws.DeleteRepairKeepsStock | src/hooks/useFirebaseData.ts:442-447 | Non-negative stock stays non-negative after `deleteRepair` when the rows' quantities are non-negative. |
| FirestoreLaws.RepeatedEntriesDoNotAccumulate | src/hooks/useFirebaseData.ts:386-392 | With stock 10 and two entries using 3 and 5 of the same part, the part ends at 5, not 2. Both usage rows are created. |
| FirestoreLaws.OverdrawIsClamped | src/hooks/useFirebaseData.ts:390 | Using 5 of a part with stock 2 leaves 0. |
| FirestoreLaws.RoundTripQuantity | src/hooks/useFirebaseData.ts:390-445 | Add then delete restores a quantity exactly when nothing was clamped. When the entry used more than the stock, delete returns more than add removed. |
| FirestoreLaws.QueriedUsagesAgree | src/hooks/useFirebaseData.ts:429-433 | Rows the delete query returns for a freshly added ticket describe, part by part, the same last usage as the entries it was opened with, when those entries name distinct parts. |
| FirestoreLaws.AddThenDeleteTickets | src/hooks/useFirebaseData.ts:356-458 | Opening a ticket under a fresh id and then deleting it restores the tickets and the brands. |
| FirestoreLaws.AddThenDeleteRows | src/hooks/useFirebaseData.ts:372-451 | Opening a ticket under fresh ids and then deleting it restores the usage rows exactly. |
| FirestoreLaws.AddThenDeleteStock | src/hooks/useFirebaseData.ts:386-447 | With entries naming distinct parts, add then delete leaves every quantity at `RoundTripQuantity`. That is the original quantity unless the add was clamped. |
| LocalStore.AddBrand | src/hooks/useLocalStorage.ts:137-148 | The new brand is appended. Earlier brands keep their order and contents, and no other list changes. |
| LocalStore.UpdateBrand | src/hooks/useLocalStorage.ts:150-157 | The length is kept, and only brands with the id are merged. The result is the first match after merging, or null exactly when no brand has the id (for patches without an `id` key, see "Left out"). |
| LocalStore.DeleteBrand | src/hooks/useLocalStorage.ts:159-163 | Exactly the brands with another id are kept, in order, with their multiplicities. |
| LocalStore.AddThenDeleteBrand | src/hooks/useLocalStorage.ts:137-163 | Adding a brand under a fresh id and deleting it restores the state. |
| LocalStore.ModelsView | src/hooks/useLocalStorage.ts:180-193 | With a brand id, the view keeps, in order, exactly the models of that brand. Without one, or with the empty id, it keeps all. Each model carries the first brand with its brand id, if any. |
| LocalStore.ViewNarrows | src/hooks/useLocalStorage.ts:187-189 | The view for one brand is a subsequence of the unfiltered view. |
| LocalStore.AddModel | src/hooks/useLocalStorage.ts:195-214 | The new model is appended to the stored list without its brand. It is appended to the shown list with its brand, whatever brand filter the view uses. |
| LocalStore.AddModelBypassesFilter | src/hooks/useLocalStorage.ts:210-212 | Adding a model of another brand to a filtered view makes the view differ from what refiltering would show. |
| LocalStore.UpdateModel | src/hooks/useLocalStorage.ts:216-228 | Both the stored list and the shown list are merged pointwise by id. The result is the first match in the shown list, or null. |
| LocalStore.DeleteModel | src/hooks/useLocalStorage.ts:230-237 | Both lists keep exactly the models with another id, in order. |
| LocalStore.AddThenDeleteModel | src/hooks/useLocalStorage.ts:195-237 | Adding a model under a fresh id and deleting it restores the state. |
| LocalStore.AddSparePart | src/hooks/useLocalStorage.ts:275-287 | The new part is appended with the new id and both timestamps set to now. Nothing else changes. |
| LocalStore.UpdateSparePart | src/hooks/useLocalStorage.ts:289-296 | The length is kept. Matching parts are merged and get `updated_at` set to now. The result is the first match, or null. |
| LocalStore.DeleteSparePart | src/hooks/useLocalStorage.ts:298-302 | Exactly the parts with another id are kept, in order. |
| LocalStore.AddThenDeleteSparePart | src/hooks/useLocalStorage.ts:275-302 | Adding a part under a fresh id and deleting it restores the state. |
| LocalStore.AddRepair | src/hooks/useLocalStorage.ts:336-369 | The new ticket is prepended. One usage row per entry is appended to the stored rows. It carries the new ticket id, the entry's part, quantity and price, and `created_at` set to now. Spare-part quantities are not touched. |
| LocalStore.UpdateRepairStatus | src/hooks/useLocalStorage.ts:371-387 | Matching tickets get the new status and `updated_at`, plus `completed_at` only for completed. The result is the first match, or null. |
| LocalStore.UpdateRepair | src/hooks/useLocalStorage.ts:389-396 | Matching tickets are merged with the patch and get `updated_at` set to now. The result is the first match, or null. |
| LocalStore.DeleteRepair | src/hooks/useLocalStorage.ts:398-402 | Exactly the tickets with another id are kept, in order. Usage rows and stock are untouched. |
| LocalStore.AddThenDeleteRepair | src/hooks/useLocalStorage.ts:336-402 | Adding and deleting a ticket restores the tickets and the stock. The usage rows keep the orphaned rows the add appended. |
| LocalStore.UpdateSettings | src/hooks/useLocalStorage.ts:429-438 | Name, address, phone and thank-you message each take the value the patch supplies and otherwise keep the old one. The id and `created_at` are kept, and `updated_at` is set to now. |
| LocalStore.UpdateSettingsIdempotent | src/hooks/useLocalStorage.ts:429-438 | Saving the same patch twice gives what saving it once at the later time gives. An empty patch changes only `updated_at`. |
| Ranking.Tally | src/pages/Dashboard.tsx:102-107 | The counting loop yields one entry per distinct key, in first-occurrence order, holding the key's number of occurrences. |
| Ranking.SortDesc | src/pages/Dashboard.tsx:111-112 | Sorting by count from high to low gives a non-increasing permutation that keeps keys distinct. |
| Ranking.SortStable | src/pages/Dashboard.tsx:112 | Entries with equal counts keep their relative order. |
| Ranking.RankEntries | src/pages/Dashboard.tsx:111-113 | The top list has `min(5, distinct keys)` entries with distinct keys, non-increasing counts, and each count equal to its key's occurrences. |
| Ranking.RankDominates | src/pages/Dashboard.tsx:113 | A key left out means five keys were kept, each occurring at least as often. |
| Dashboard.DateFiltered | src/pages/Dashboard.tsx:33-49 | "today" keeps the tickets created on the current calendar day. "week" and "month" keep those created at or after now minus 7 or 30 days. Any other value keeps all. Each result is an order-preserving subsequence. |
| Dashboard.WeekWithinMonth | src/pages/Dashboard.tsx:39-48 | For the same clock, the week's tickets are exactly the month's tickets created in the last seven days. |
| Dashboard.CalculateStats | src/pages/Dashboard.tsx:51-65 | Revenue is the sum of the filtered tickets' `total_cost`. Cost is the sum of each ticket's 70% of parts at their recorded price plus half its labour. The count is the number of filtered tickets, and net profit is revenue less cost. Revenue and cost are non-negative when the tickets' amounts are. |
| Dashboard.StatsAdditive | src/pages/Dashboard.tsx:51-65 | The stats of two lists put together are the sums of their stats. One ticket contributes its total as revenue, and its weighted parts and labour as cost. |
| Dashboard.WeekRevenueWithinMonth | src/pages/Dashboard.tsx:39-65 | With non-negative amounts, the week's revenue, cost and count never exceed the month's. |
| Dashboard.WeekBuckets | src/pages/Dashboard.tsx:80-99 | There are seven buckets. Bucket `d` sums the profit of the completed tickets created in the last seven days on weekday `d`, over the unfiltered list. |
| Dashboard.WeeklyProfits | src/pages/Dashboard.tsx:85-96 | The single pass over the tickets computes exactly those seven buckets. |
| Dashboard.BucketsTotal | src/pages/Dashboard.tsx:90-96 | The seven buckets add up to the profit of all qualifying tickets. |
| Dashboard.ProfitChart | src/pages/Dashboard.tsx:81-85 | Row `d` carries the translated name of weekday `d`, counting from Sunday, next to bucket `d`. |
| Dashboard.Chart | src/pages/Dashboard.tsx:101-113 | At most five labels, distinct and in non-increasing count order. Each count is the number of filtered tickets carrying that label. |
| Dashboard.ChartDominates | src/pages/Dashboard.tsx:104-113 | Every ticket's label is either charted or beaten: five labels are charted, each carried by at least as many tickets. |
| Dashboard.PopularModels | src/pages/Dashboard.tsx:101-119 | The model chart is the ranked list of model labels, with the fallback label for a missing or unnamed model. The i-th slice is colored `colors[i % 5]`. |
| Dashboard.CommonIssues | src/pages/Dashboard.tsx:121-133 | The issue chart is the ranked list of issue labels, with the fallback label for an empty issue type. |
| Dashboard.Compute | src/pages/Dashboard.tsx:29-78 | One recomputation. The stat cards give the count, the revenue, the cost and the net profit of the date-filtered tickets. Both rankings chart the date-filtered tickets, each entry counting the filtered tickets with its label. The weekly chart names the translated weekdays from Sunday, and its buckets are those of the whole list whatever the filter. |
| Dashboard.Refresh | src/pages/Dashboard.tsx:23-27 | Once loading has finished and some ticket exists, the panels become exactly `Compute`'s view for the current tickets, filter and clock. Otherwise the previous panels stay. |
| Dashboard.RefreshIdempotent | src/pages/Dashboard.tsx:23-27 | Running the effect again with unchanged inputs changes nothing. Once loading has finished and some ticket exists, the panels do not depend on what was shown before. |
| Dashboard.ComputeWeekWithinMonth | src/pages/Dashboard.tsx:29-78 | With non-negative amounts, the week's stat cards never exceed the month's, and the weekly chart is the same under both filters. |
| Dashboard.ComputeAllTime | src/pages/Dashboard.tsx:29-78 | Under a filter other than today, week or month, the stat cards and rankings cover every ticket. |
| RepairsPage.StatusActions | src/pages/Repairs.tsx:95-135 | A ticket offers at most one action, always to the next stage. Archived offers none. |
| RepairsPage.WalkFromPending | src/pages/Repairs.tsx:95-135 | Following the offered action from pending visits in progress, completed and archived, in three steps, and then stops. |
| RepairsPage.WalkAscends | src/pages/Repairs.tsx:98-132 | Along any sequence of offered actions, the stage rises by exactly one per step. |
| RepairsPage.Contains | src/pages/Repairs.tsx:66-69 | `includes` holds exactly when the term occurs at some position. |
| RepairsPage.FilteredRepairs | src/pages/Repairs.tsx:64-74 | The list keeps, in order, exactly the tickets matching the search and the status filter. Search is a lower-cased substring test on customer, brand and model names, and a raw substring test on the phone. Status is "all" or the ticket's state code. |
| RepairsPage.ShowAll | src/pages/Repairs.tsx:64-74 | An empty term with "all" lists every ticket. |
| RepairsPage.UnknownStatusHidesAll | src/pages/Repairs.tsx:71 | A status filter that is neither "all" nor a state code hides every ticket. |
| RepairsPage.RefineNarrows | src/pages/Repairs.tsx:65-69 | Extending the search term keeps exactly the earlier results that match the new term. |
| RepairsPage.StatusCounts | src/pages/Repairs.tsx:168-204 | Each counter is the number of tickets in its state, and the four add up to the number of tickets. |
| RepairsPage.FilteredWithinCounter | src/pages/Repairs.tsx:64-204 | Filtering on a state never lists more tickets than that state's counter shows. |
| RepairsPage.ToUsedParts | src/pages/Repairs.tsx:28-32 | Each form line becomes a usage entry with the same part, its quantity as the quantity used and its price as the price at the time, in order. No lines gives no entries. |
| Language.T | src/contexts/LanguageContext.tsx:315-317 | The lookup gives the current table's non-empty text for the key, and otherwise the key itself. |
| Language.Dir | src/contexts/LanguageContext.tsx:319 | The direction is "rtl" exactly for Arabic and "ltr" exactly for French. |
| Language.Apply | src/contexts/LanguageContext.tsx:309-313 | The effect saves the language code, sets it as the document language, and sets the document direction to `Dir`. |
| Language.InitialCodeAsWritten | src/contexts/LanguageContext.tsx:304-307 | The start-up language is the saved value when it is present and non-empty, unchecked, and "ar" otherwise. |
| Language.TByCode | src/contexts/LanguageContext.tsx:316 | A lookup under "ar" or "fr" reads that table. Any other code gives the no-table error, which in the source holds for codes that are not names inherited from `Object.prototype` (see "Left out"). |
| Language.InitialLanguage | src/contexts/LanguageContext.tsx:304-307 | The checked start-up language honours a saved "ar" or "fr" and falls back to Arabic for anything else. |

## Left out

- Firestore and local-storage I/O are not modelled: reads, JSON parsing, `onSnapshot` subscriptions and the no-op `refetch`. The stores are in-memory maps and lists, and each call is one atomic step, so the race between overlapping calls is out.
- The clock and id generation are parameters. A call reads the clock once. Freshness of new ids is assumed only by the round-trip lemmas.
- `deleteRepair`'s query result is a parameter. It is constrained to be exactly the stored rows of that ticket, without duplicates, in some backend order.
- Timestamps are integers in milliseconds. `toDateString`, `getDay` and `toLowerCase` are locale-dependent, so they are parameters. Lower-casing is one character at a time, which ignores mappings that change a string's length.
- Money is integer. The dashboard's 0.7 and 0.5 weights are kept exactly by computing cost and net profit in tenths, so floating-point rounding is out.
- Ranking.Tally: the dashboard counts labels in a plain object, and the model counts them in a list of entries. Three behaviours of the object are not modelled. First, `Object.entries` lists integer-like keys first, in numeric order, while the model keeps first-occurrence order, so for such labels the order of ties can differ. Second, a "__proto__" label reads `Object.prototype` and its write is ignored, so the source never lists it. Third, "constructor", "toString" and other inherited names start from a function, so their count becomes a string. The model gives every label one entry holding its occurrence count.
- Ranking.RankEntries: "each count equal to its key's occurrences" and the tie order hold only for labels without the object-key behaviours named under Ranking.Tally.
- Dashboard.Chart: the counts and the tie order hold only for labels without the object-key behaviours named under Ranking.Tally.
- Dashboard.ChartDominates: in the source a "__proto__" label is never charted, however often it occurs. The lemma holds only for labels without the object-key behaviours named under Ranking.Tally.
- Dashboard.PopularModels: model names are labels of the same plain-object tally, so the caveats under Ranking.Tally apply.
- Dashboard.CommonIssues: issue types are labels of the same plain-object tally, so the caveats under Ranking.Tally apply.
- The read model that attaches brand and model records to tickets and parts is modelled only where a modelled operation builds it: models in `useModels`, and the ticket `addRepair` returns.
- Of the Firestore hooks' other operations, only `updateBrand` and `updateSparePart` are modelled. The other add, update and delete operations for brands, models, parts and settings are plain single-document writes.
- The hook module the repairs page imports, `useSupabase`, is not part of this model. The page's add and delete effects are therefore not modelled from it.
- Default seed data, the contents of the translation tables, JSX, CSS and the layout components are out.
- LocalStore.AddRepair: a ticket opened without parts holds an empty parts list, whereas the source leaves `repair_parts` unset.
- LocalStore.UpdateBrand: patches carry only the record's own data fields, not the `id` or timestamp keys that `Partial<Brand>` also admits. A patch that rewrites `id` would leave no brand under the old id, so the null result is promised only for patches without `id`.
- LocalStore.UpdateModel: patches carry no `id` or `created_at` key, for the same reason as LocalStore.UpdateBrand.
- LocalStore.UpdateSparePart: patches carry no `id` or `created_at` key, for the same reason as LocalStore.UpdateBrand. A patched `updated_at` is overwritten by the source anyway.
- LocalStore.UpdateRepair: patches carry no `id`, `created_at` or `completed_at` key, and no attached brand, model or part records, for the same reason as LocalStore.UpdateBrand. A patched `updated_at` is overwritten by the source anyway.
- LocalStore.UpdateSettings: patches carry no `id` or `created_at` key. A patch with one of them would overwrite it, so "id and `created_at` kept" holds only for patches without them.
- FirestoreStore.UpdateBrand: patches carry no `id` or `created_at` key, as for LocalStore.UpdateBrand.
- FirestoreStore.UpdateSparePart: patches carry no `id` or `created_at` key, as for LocalStore.UpdateSparePart.
- Language.TByCode: the translation tables are a plain object, so a code naming an inherited property such as "constructor" or "toString" finds a value there. `t` then shows the key instead of failing. The model gives every code other than "ar" and "fr" the error.

## Findings

| source | as written | input that shows it | evidently intended | confidence | as-written member | corrected member |
|---|---|---|---|---|---|---|
| src/contexts/LanguageContext.tsx:304-307 | The saved language is cast to `'ar' \| 'fr'` without a check, so any non-empty saved value becomes the current language. | `localStorage.language = "en"`: the language becomes "en", `translations["en"]` is undefined, and every `t(key)` fails. | Only "ar" or "fr" is honoured, and anything else falls back to Arabic. | not executed | Language.InitialCodeAsWritten, with the counterexample Language.UnknownSavedBreaksLookup | Language.InitialLanguage, with Language.InitialLanguageAgrees and Language.ReloadRestores |
