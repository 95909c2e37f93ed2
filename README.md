# Analytics Pro: a verified model of the sync and metrics core

Analytics Pro is a dashboard for creators who sell memberships on the Whop
platform. This project models the part of it that keeps local tables in step with the
platform and derives metrics from them.

It covers five pieces:

- **Member sync** (`WhopSync.syncCompanyMembers`). It builds a plan price map, then
  upserts each membership's end-user and the membership itself.
- **Message sync** (`syncRecentMessages` and `calculateEngagementScore`). It counts
  today's chat messages per user over at most five channels, then upserts one
  engagement row per member per day.
- **Revenue** (`calculateMRR` and `snapshotRevenueMetrics`). It sums recurring
  revenue by currency and keeps a daily revenue snapshot.
- **The churn-risk route** (`GET /api/analytics/risk`). It scans a tenant's
  members, classifies their inactivity, and sorts the report.
- **Authentication**. `getUser` turns a request into a tenant identity, creating the
  tenant's users row on first sight. The edge middleware gates API requests on a
  token header.

The four tables (`users`, `members`, `engagement_metrics`, `revenue_metrics`) are maps
in the value `Schema.Tables`. Each map is keyed by the table's unique or primary key,
and a counter hands out fresh row ids. `Schema.Valid` states the key and foreign-key
constraints of the schema. `Store.Db` is a class with the same fields. Its methods
are the queries and writes the source issues, each specified by a function of
`Schema`. Every state-changing operation is a method that keeps `Valid` and states
its new state as a function of the old one. The properties are then proved about
those functions.

Conventions:

- Money is integer cents, and time is integer milliseconds.
- A calendar day is `ms / 86_400_000`, the UTC date that `toISOString()` yields for a
  non-negative time.
- A nullable text column is a string in which "" stands for NULL. So the source's
  `x || d` is `OrElse(x, d)`.
- Remote platform calls are inputs. Each one is the listing the platform would
  answer, or a failure alternative.
- Environment variables are parameters, and so is the clock (`now`).
- A query without `ORDER BY` may return any matching row. The model states its result
  for every possible choice. Where a later step depends on the choice (which member
  row `members[0]` is, or the order of `Object.entries`), the choice is a ghost
  out-parameter.

The model follows the code in these places:

- MRR counts only status `active`, not `trialing` (`src/lib/whop/revenue.ts:14`).
- Currency is not case-normalised in `calculateMRR`. Only the member sync lower-cases
  it (`src/lib/whop/sync.ts:105`).
- Engagement rows are written only for users with counted messages, not for every
  member (`src/lib/whop/sync.ts:203`).
- Memberships are read as one page of at most 100, with no pagination or delay
  (`src/lib/whop/sync.ts:56-59`).
- One revenue row per tenant and day is not a constraint of the store. The index at
  `src/lib/db/schema.ts:81` is not unique. The property comes only from
  `snapshotRevenueMetrics` (`Revenue.SnapshotRevenueMetrics`).
- The member rows' `userId` is the end-user's users row (`src/lib/whop/sync.ts:110`).
  The risk route and the revenue functions filter members by the tenant's row id. The
  model keeps both as written.

## Model

| member | source | states |
|---|---|---|
| Schema.UpsertUserValid | src/lib/db/schema.ts:6-7 | an upsert on `whop_user_id` keeps the keys unique and every foreign key resolved |
| Schema.InsertUserValid | src/lib/db/schema.ts:6-7 | a plain insert with a new `whop_user_id` keeps the store's constraints |
| Schema.UpsertMemberValid | src/lib/db/schema.ts:21-24 | a members upsert whose user exists keeps `whop_membership_id` unique and the user reference resolved |
| Schema.UpsertEngagementValid | src/lib/db/schema.ts:45-57 | an engagement upsert whose member and user exist keeps the composite key and both references valid |
| Schema.RevenueWritesValid | src/lib/db/schema.ts:64-65 | updating an existing revenue row, or inserting one whose user exists, keeps the constraints |
| Schema.DeleteUserCascades | src/lib/db/schema.ts:22-65 | deleting a user removes its members, their engagement rows, its engagement and revenue rows, keeps every other users, members and revenue row and every engagement row that refers neither to the user nor to one of its members, and leaves a valid store |
| Schema.DeleteMemberCascades | src/lib/db/schema.ts:46 | deleting a member removes only that members row and exactly its engagement rows, keeps the other engagement rows unchanged, and leaves users and revenue unchanged |
| Store.Db.FindUser | src/lib/whop/sync.ts:87-89 | finds the users row with that `whop_user_id` exactly when one exists |
| Store.Db.FindUserByCompany | src/lib/auth/get-user.ts:88-90 | returns a users row of the company, or None only when the company has none |
| Store.Db.UserById | src/app/api/analytics/risk/route.ts:21-22 | the joined users row of a member: the row with that id, None only when there is none |
| Store.Db.FirstMemberOf | src/lib/whop/sync.ts:212-213 | some members row of the user, or None only when it has none |
| Store.Db.SelectMembers | src/app/api/analytics/risk/route.ts:19-24 | each matching members row listed once, and only matching rows |
| Store.Db.LatestEngagement | src/app/api/analytics/risk/route.ts:33-36 | the member's engagement row with the greatest date, None only when it has none |
| Store.Db.FindRevenue | src/lib/whop/revenue.ts:66-71 | a revenue row of the user and day, None only when there is none |
| Store.Db.UpsertUser | src/lib/whop/sync.ts:72-83 | the new state is the users upsert of the old one, and the store stays valid |
| Store.Db.InsertUser | src/lib/auth/get-user.ts:99-105 | the insert succeeds exactly when `whop_user_id` is new; a refused insert changes nothing |
| Store.Db.UpsertMember | src/lib/whop/sync.ts:109-128 | the new state is the members upsert of the old one, and the store stays valid |
| Store.Db.UpsertEngagement | src/lib/whop/sync.ts:218-234 | the new state is the engagement upsert of the old one, and the store stays valid |
| Store.Db.UpdateRevenue | src/lib/whop/revenue.ts:75-82 | sets mrr, active members and total revenue of an existing row |
| Store.Db.InsertRevenue | src/lib/whop/revenue.ts:87-93 | the insert succeeds exactly when its user exists; a refused insert changes nothing |
| MemberSync.PlanMapOfPageSpec | src/lib/whop/sync.ts:43-50 | the plan map holds exactly the ids of plans priced above 0, each with the last such plan's price and its currency, "usd" when absent |
| MemberSync.BuildPlanMap | src/lib/whop/sync.ts:35-54 | the loop builds the plan map of the first 100 plans, and a failed listing leaves it empty |
| MemberSync.PricingOfPricedPlan | src/lib/whop/sync.ts:98-107 | a membership on a priced plan gets that plan's positive price and its currency lower-cased |
| MemberSync.PricingOfUnpricedPlan | src/lib/whop/sync.ts:98-107 | a membership without a plan, or on a plan with no positive price, gets 0 and "usd" |
| MemberSync.PricingWithoutPlans | src/lib/whop/sync.ts:51-54 | when the plan listing fails every membership gets 0 and "usd" |
| MemberSync.PricingCurrencyLowerCase | src/lib/whop/sync.ts:105 | the stored currency has no upper-case ASCII letter |
| MemberSync.SyncCompanyMembers | src/lib/whop/sync.ts:22-136 | a missing company id or a failed membership listing throws and writes nothing; otherwise the tables become the page's fold, and the store stays valid |
| MemberSync.SyncPage | src/lib/whop/sync.ts:69-129 | the loop over the page leaves the tables its fold names |
| MemberSync.SyncMembership | src/lib/whop/sync.ts:70-128 | one membership upserts its end-user, skips a membership whose user row is missing, and upserts its members row |
| MemberSync.MemberStepFrame | src/lib/whop/sync.ts:69-128 | one membership touches only its end-user's users row and its own members row; engagement and revenue are untouched |
| MemberSync.MemberStepWrites | src/lib/whop/sync.ts:71-128 | an existing users row changes only its username; an existing members row changes only status, price and currency; new rows carry the insert's values, and the members row points at the end-user's row |
| MemberSync.SyncMembersPageUpserts | src/lib/whop/sync.ts:69-129 | the sync removes no row and changes existing rows only in the upserted columns |
| MemberSync.SyncMembersPageNewKeys | src/lib/whop/sync.ts:69-129 | the sync adds only the page's end-user ids and membership ids as keys |
| MemberSync.SyncMembersPageCovers | src/lib/whop/sync.ts:69-129 | after the sync every membership with an end-user has its users row and its members row |
| MemberSync.SaturatedSyncOverwrites | src/lib/whop/sync.ts:120-128 | when every row already exists, the sync only overwrites each row with the last write of the page to it |
| MemberSync.SyncMembersPageLastWriteWins | src/lib/whop/sync.ts:69-129 | after the sync every row holds what the page's last write to it sets, provided no users row has the empty key and every end-user id is non-empty |
| MemberSync.SyncIdempotent | src/lib/whop/sync.ts:22-136 | running the sync again with the same listings, at any time and app id, leaves the tables as the first run left them |
| MessageSync.EngagementScoreSpec | src/lib/whop/sync.ts:245-265 | no message scores 0; otherwise the score is min(100, min(50, 5n) + loyalty) and lies in [35, 100]; loyalty is 30 exactly for tenures of 7 to 30 days |
| MessageSync.EngagementScoreMonotone | src/lib/whop/sync.ts:246-247 | more messages never lower the score |
| MessageSync.EngagementScoreTenureDip | src/lib/whop/sync.ts:252-258 | a tenure of 7 to 30 days scores exactly 20 less than any other tenure, for the same count |
| MessageSync.FirstInvalidSpec | src/lib/whop/sync.ts:182-183 | the scan of a channel reaches exactly the messages before the first one without a valid date |
| MessageSync.CountsSpec | src/lib/whop/sync.ts:186 | the activity dictionary holds exactly the users that occur, each with its number of occurrences |
| MessageSync.HitsSpec | src/lib/whop/sync.ts:182-188 | a user's count is the number of its messages dated today |
| MessageSync.ScanHitsSkipsFailed | src/lib/whop/sync.ts:190-197 | a channel whose fetch fails, rate-limited or not, contributes nothing, and the rest are still scanned |
| MessageSync.ScannedChannelsAreFirstFive | src/lib/whop/sync.ts:164 | at most the first five listed channels are scanned |
| MessageSync.CountsSnoc | src/lib/whop/sync.ts:186 | the increment `d[u] = (d[u] \|\| 0) + 1` keeps the dictionary the counts of the users seen |
| MessageSync.CountMessages | src/lib/whop/sync.ts:172-198 | the counting loops leave the counts of today's messages of the scanned channels |
| MessageSync.CountChannel | src/lib/whop/sync.ts:174-188 | one channel adds the counts of its messages up to the first invalid date |
| MessageSync.PicksDistinct | src/lib/whop/sync.ts:212-221 | distinct users write distinct engagement keys |
| MessageSync.EngagementFoldFrame | src/lib/whop/sync.ts:203-235 | step 3 writes only engagement rows, adds only today's keys of the picked members, removes none, and keeps every other row |
| MessageSync.EngagementFoldUserIds | src/lib/whop/sync.ts:218-234 | an existing engagement row keeps its user id, and a new one carries its member's user id |
| MessageSync.EngagementFoldWrites | src/lib/whop/sync.ts:203-235 | each counted user with members ends with today's row of its picked member holding its count and score |
| MessageSync.EngageUser | src/lib/whop/sync.ts:204-234 | a user without a users row or without members is skipped; otherwise today's row of one of its members is upserted |
| MessageSync.UpsertEngagements | src/lib/whop/sync.ts:203-235 | every counted user is visited once, each visited user with members is picked, and the tables become the fold over the visit order |
| MessageSync.SyncRecentMessages | src/lib/whop/sync.ts:143-243 | a missing company id or a failed channel listing throws and writes nothing; otherwise step 2's counts are today's messages of the first five channels and step 3's fold is written |
| Revenue.CalculateMRR | src/lib/whop/revenue.ts:9-38 | the result is the per-currency sum over the selected active rows, or `{usd: 0}` when the query throws |
| Revenue.AddPrice | src/lib/whop/revenue.ts:22-29 | one reduce step adds the row's price to its currency's entry, creating it at 0 first |
| Revenue.SumPriceRemove | src/lib/whop/revenue.ts:21-30 | the per-currency sum does not depend on the order of the rows |
| Revenue.AddRow | src/lib/whop/revenue.ts:21-30 | adding a row to the summed rows adds its price to its own currency and nothing to the others |
| Revenue.MrrKeys | src/lib/whop/revenue.ts:19-32 | the result has an entry exactly for each currency of a selected row, so an empty selection gives the empty map |
| Revenue.MrrIgnoresUncounted | src/lib/whop/revenue.ts:12-16 | a row that is not active, or is another tenant's, changes nothing |
| Revenue.MrrAddsCounted | src/lib/whop/revenue.ts:21-30 | a new counted row adds its renewal price to its currency's entry |
| Revenue.MrrScoped | src/lib/whop/revenue.ts:13-15 | with a tenant given, the result is the unscoped result over that tenant's rows only |
| Revenue.ActiveCountOfSelection | src/lib/whop/revenue.ts:52-60 | the count query yields the number of the tenant's active members |
| Revenue.OneRowPerDayKept | src/lib/whop/revenue.ts:66-96 | updating the day's row, or inserting when there is none, keeps at most one row per tenant and day |
| Revenue.WriteSnapshot | src/lib/whop/revenue.ts:65-96 | the day's row is overwritten when one exists, else a row is inserted under a fresh id; other rows are untouched |
| Revenue.SnapshotValues | src/lib/whop/revenue.ts:47-63 | the snapshot's mrr and total revenue are the usd MRR, 0 when absent, and its count is the active member count |
| Revenue.SnapshotRevenueMetrics | src/lib/whop/revenue.ts:43-102 | the tenant's row for today holds these values; the row updated is one of the tenant's for today, else the row is inserted under a fresh id; every other row and table is untouched, and no second row per tenant and day appears |
| Risk.ElapsedFromStore | src/app/api/analytics/risk/route.ts:33-39 | a member's inactivity is measured from the `lastActiveAt` of its greatest-dated engagement row when that row records one, and otherwise from `joinedAt` (the epoch when that is null) |
| Risk.LevelOf | src/app/api/analytics/risk/route.ts:41-47 | high exactly past 14 days, or past 7 days when the latest day has no messages; low exactly up to 3 days |
| Risk.LevelMonotone | src/app/api/analytics/risk/route.ts:41-47 | longer inactivity never lowers the level |
| Risk.DaysInactive | src/app/api/analytics/risk/route.ts:56 | the whole number of days elapsed, rounded down |
| Risk.Assess | src/app/api/analytics/risk/route.ts:38-60 | an entry is emitted exactly past 3 days, with a non-low level, `daysInactive` the whole days elapsed, an empty avatar, and the member's id, email, price and currency; the username is "Unknown" when missing |
| Risk.LatestUnique | src/app/api/analytics/risk/route.ts:33-36 | a member has at most one latest engagement row |
| Risk.RiskRowsSound | src/app/api/analytics/risk/route.ts:28-61 | every entry comes from an active scanned member, carries that member's whole days of inactivity (at least 3) and its level, and is not low risk |
| Risk.EntryInactive | src/app/api/analytics/risk/route.ts:49-60 | a member's entry carries its whole days of inactivity, at least 3, and the level of that inactivity |
| Risk.RiskRowsComplete | src/app/api/analytics/risk/route.ts:28-61 | every scanned member that yields an entry is in the list |
| Risk.CompareConsistent | src/app/api/analytics/risk/route.ts:64-68 | the comparator is antisymmetric and orders entries totally and transitively |
| Risk.SortedMeaning | src/app/api/analytics/risk/route.ts:63-68 | in a sorted list every high entry precedes the others, and prices do not rise within a level |
| Risk.SortRiskList | src/app/api/analytics/risk/route.ts:64-68 | the array ends sorted by the comparator and is a permutation of its old contents |
| Risk.BuildRiskRows | src/app/api/analytics/risk/route.ts:26-61 | the loop collects the report entries of the scanned members in order |
| Risk.AssessMember | src/app/api/analytics/risk/route.ts:29-60 | one member yields its report entry, or none when it is inactive or low risk |
| Risk.GetRisk | src/app/api/analytics/risk/route.ts:10-70 | no identity gives 401; otherwise exactly the tenant's members are scanned, each once, and the answer is the sorted permutation of their report entries; each entry is an active scanned member's, with its whole days of inactivity and its level |
| Auth.ExtractToken | src/lib/auth/get-user.ts:18-31 | a non-empty `x-whop-user-token` wins; otherwise the token is what follows `Bearer `; no request or neither header gives none |
| Auth.CompanyIdFromToken | src/lib/whop/client.ts:40-56 | `company_id`, else `companyId`; a failed lookup or two empty fields give none |
| Auth.AccessOf | src/lib/auth/get-user.ts:33-84 | no token in development mode admits `DEV_COMPANY_ID`, else `WHOP_COMPANY_ID`; a token admits the company it names; all else is refused |
| Auth.TokenNeverTakesDevPath | src/lib/auth/get-user.ts:34 | a request with a token never takes the development path, and is refused exactly when its company is unknown |
| Auth.NoTokenOutsideDevelopmentDenied | src/lib/auth/get-user.ts:78-80 | with no token outside development mode the request is refused |
| Auth.NewUserRow | src/lib/auth/get-user.ts:57-105 | the inserted row: `dev_user`, `dev@example.com`, `Dev Admin`, tier `pro` in development; the platform user's id and email, username defaulting to `User`, tier `free` otherwise |
| Auth.GetUser | src/lib/auth/get-user.ts:15-124 | a refused request writes nothing; an existing company row is reused with no write; otherwise one row is inserted, and the result is None only when its key is taken; the identity copies the row and echoes the token |
| Middleware.Decide | src/middleware.ts:4-48 | skipped paths pass; an API path without the token header is refused outside development; with the header the request is forwarded with its headers unchanged |
| Middleware.OnlyApiRequestsRefused | src/middleware.ts:11-37 | only `/api` paths outside `/api/webhooks` are ever refused |
| Middleware.ForwardedTokenReachesGetUser | src/middleware.ts:40-47 | a forwarded request reaches `getUser` with the token the middleware saw, and would pass the middleware again unchanged |
| Middleware.BearerOnlyRequestRefused | src/middleware.ts:22 | a request without a non-empty token header is decided as one with no headers, whatever else it carries, so `Authorization: Bearer <t>` alone is refused on API paths outside development although `getUser` would accept `t` |

## Left out

- Money is integer cents. The source's `parseFloat`, `Number` and `+=` on floats, and `toString()` into `decimal` columns, are not modelled, so neither are rounding and cent drift.
- Column widths (`varchar(255)`, `varchar(3)`, `decimal(10,2)`) are not enforced.
- MemberSync.Pricing: `toLowerCase()` is modelled on ASCII letters only.
- Timestamp bookkeeping (`createdAt`, `updatedAt`, `lastSyncAt`) is left out, because nothing in the core reads it.
- The columns the core never writes or reads are absent from the rows: `settings`, `metadata`, `cancelledAt`, `courseProgressDelta`, and the extra revenue columns (`arr`, `newMrr`, churn figures).
- Row ids are drawn from a counter, not `defaultRandom()` uuids. Randomness is not modelled.
- MessageSync.EngagementScore: the source reads the clock again inside `calculateEngagementScore`. The model uses the sync's single `now` for both readings.
- The order of `Object.entries` and of unordered queries is not fixed. The model proves its results for every order, through ghost choices.
- Concurrency (`Promise` interleavings, two `getUser` calls racing on the same company) is not modelled. Every operation runs alone.
- Auth.GetUser: `getUser` imports `createWhopClient`, but `src/lib/whop/client.ts` exports no such function. As written, the call in the new-tenant token branch (`src/lib/auth/get-user.ts:94`) throws inside the `try`. So for a company with no users row, a token request returns null and inserts nothing. The model instead inserts the row built from the platform's answer for `users.retrieve('me')`. It takes that answer as one parameter, which also serves `getCompanyIdFromToken`. The development branch and the existing-company token branch are unaffected.
- Database errors other than key and foreign-key conflicts are not modelled. This includes the risk route's 500 branch on a thrown query error.
- Risk.SortRiskList: the model sorts by insertion, which is stable, but states only sortedness and permutation, as JavaScript's `sort` promises.
- Risk.Compare: prices are compared as cents, not as `parseFloat` of the decimal string.
- Nullable columns the core always fills (`status`, `email`, `username`) are plain strings, with "" for NULL.
- MemberSync.SyncMembersPageLastWriteWins: it requires that no users row has the empty key and that every end-user id is non-empty. Without that, a membership with no user would find the row under "" (`src/lib/whop/sync.ts:88`), so the last write to that row is not the page's.
- MemberSync.SyncIdempotent: it requires that no users row has the empty key and that every end-user id is non-empty. Without that, a membership with no user would find the row under "" (`src/lib/whop/sync.ts:88`).
- The sync route (`src/app/api/sync/route.ts`) only calls member sync and then message sync, so it is not modelled separately.
- Logging, the webhook route, the read-only analytics routes, the UI components, the AI chat and insight code, and the scripts are not part of this model.
- `verifyWhopUserToken` and `verifyWhopConnection` in `src/lib/whop/client.ts` are not part of this model, because the core never calls them.
