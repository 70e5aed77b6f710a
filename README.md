# Portfolio back end: valuation, fund performance, partial updates and rate limiting

This project models the core of a small portfolio-management back end. In that system:

- investors (`app_users`) own accounts;
- accounts record cash movements (deposits, withdrawals, fees) and fund share movements (subscriptions, redemptions);
- funds publish net asset values (NAVs) by date.

The model covers:

- **Account summaries.** Each account's cash totals, its fund positions valued at the latest NAV, and a commission charged on positive gains. These are `_get_account_summaries` and its by-user and admin wrappers.
- **NAV views.** The latest-NAV map and the two fund performance views.
- **Partial updates.** The `update*` methods for users, cash movements, share movements and NAV rows.
- **Records.** The enumerations and record shapes, and the decimal-to-text field normalisers.
- **Rate limiting.** The per-address sliding-window rate-limiting middleware.

How the system becomes Dafny:

- **SQL queries** become functions over tables. Tables are sequences of rows in storage order, or maps keyed by primary key. `ORDER BY` becomes a stable insertion sort (`Sorting.SortBy`). Text is compared by code point.
- **Python loops** become methods. This covers the loops that group rows, accumulate the running market value and fill `funds_map`, and each method is proved equal to a specification function.
- **Mutating objects** become classes whose methods are specified by pure functions. These are the tables the updates write to and the middleware's state.
- **Values:** `Decimal` amounts are exact `real`s, and dates are day numbers.

Modules:

| module | file | covers |
|---|---|---|
| `Models` | `models.dfy` | enumerations, records, `convert_decimal` |
| `DecimalText` | `decimal_text.dfy` | `str(Decimal)` and reading it back |
| `AccountRepository` | `account_repository.dfy` | account summaries |
| `FundRepository` | `fund_repository.dfy` | latest NAVs, performance views, `update_nav` |
| `UserRepository` | `user_repository.dfy` | `UserRepository.update` |
| `MovementRepository` | `movement_repository.dfy` | `update_cash_movement`, `update_fund_share_movement` |
| `RateLimit` | `rate_limit.dfy` | `RateLimitMiddleware` |
| `Sorting`, `PartialUpdate`, `Wrappers` | | stable sort, folding a `SET` list, `Option` |

## Model

| member | source | states |
|---|---|---|
| Models.ParseCashMovementType | app/models.py:8 | exactly "deposit", "withdrawal" and "fee" are accepted, each as the one type it names |
| Models.ParseFundShareMovementType | app/models.py:9 | exactly "subscription" and "redemption" are accepted, each as the one type it names |
| Models.ParseAppUserStatus | app/models.py:10 | exactly the four statuses are accepted, each as the one status it names |
| Models.NewUser | app/models.py:14-24 | a new user is an administrator only when the request says so; without a status it starts out invited; the other fields are taken from the request |
| Models.ConvertDecimal | app/models.py:67-72 | `None` stays `None`; text is kept; a `Decimal` becomes text that reads back as the same value with the same exponent; an integer becomes text that reads back as that integer |
| Models.ConvertIntAsDecimal | app/models.py:115-120 | an integer and the `Decimal` of the same integer normalise to the same text |
| DecimalText.ParseToText | app/models.py:182-187 | reading back the text `str` gives for a `Decimal` yields that `Decimal` (sign, digits and exponent) |
| DecimalText.IntTextAsDecimal | app/models.py:203-206 | `str` of an integer is `str` of the `Decimal` with that coefficient and exponent 0 |
| AccountRepository.CashTotal | app/db_models.py:205-207 | the total of a type of cash movement for an account is 0 when the account has none of that type |
| AccountRepository.CashTotalAppend | app/db_models.py:205-207 | totals over two stretches of a ledger add up |
| AccountRepository.CashTotalPermutation | app/db_models.py:205-207 | a cash total does not depend on the order of the ledger |
| AccountRepository.NetShares | app/db_models.py:230-236 | the net shares of an account in a fund are 0 when it has no movement in that fund |
| AccountRepository.NetSharesAppend | app/db_models.py:230-236 | net shares over two stretches of the ledger add up, so a redemption of what was subscribed cancels it |
| AccountRepository.FundsOf | app/db_models.py:237-242 | the funds grouped for an account are exactly those it has movements in, each once |
| AccountRepository.GroupsOf | app/db_models.py:224-246 | the groups of an account are its funds that exist, with their name, currency and non-zero net shares (negative nets included); every such fund has its group |
| AccountRepository.SelectedRows | app/db_models.py:197-217 | the account query yields a row for exactly the accounts that have a user and pass the user filter |
| AccountRepository.PositionGroups | app/db_models.py:221-249 | the position rows are exactly the groups of the selected accounts |
| AccountRepository.NameThenNumberIsPreorder | app/db_models.py:213 | ordering by user name then account number is a total preorder |
| AccountRepository.AccountThenFundNameIsPreorder | app/db_models.py:246 | ordering by account id then fund name is a total preorder |
| AccountRepository.PositionsOf | app/db_models.py:250-251 | the rows of one account are exactly the query rows that carry its id |
| AccountRepository.GroupPositions | app/db_models.py:220-251 | `positions_map` holds exactly the accounts that have position rows, each with its rows in query order, and `get(id, [])` gives the rows of any account |
| AccountRepository.MarketTotal | app/db_models.py:276-285 | positions without a market value add nothing to `total_market_value` |
| AccountRepository.MarketTotalOfPositions | app/db_models.py:276-285 | `total_market_value` is the sum, over the positions whose fund has a NAV, of shares times the latest share value |
| AccountRepository.ValuePositions | app/db_models.py:274-296 | the inner loop lists every position, valued when its fund has a NAV, and its running total is `MarketTotal` of what it listed |
| AccountRepository.BuildSummaries | app/db_models.py:269-346 | the loop builds one summary per account row, in order, each as `Summarize` describes |
| AccountRepository.AccountSummaries | app/db_models.py:176-349 | there is one summary per selected account |
| AccountRepository.GetAccountSummaries | app/db_models.py:176-349 | the method (position query only when there are account rows) returns exactly `AccountSummaries` |
| AccountRepository.GetAccountSummariesByUser | app/db_models.py:167-169 | the by-user summaries are those filtered by that user |
| AccountRepository.GetAccountSummariesForAdmin | app/db_models.py:171-173 | the admin summaries are those without a filter |
| AccountRepository.SummaryAt | app/db_models.py:269-346 | summary `i` is built from account row `i` and the position rows of its account |
| AccountRepository.AccountRowSource | app/db_models.py:197-217 | every account row is that of a selected account, with its user's name and e-mail and its three cash totals |
| AccountRepository.SummarizeFees | app/db_models.py:298-327 | a missing rate counts as 0; with a non-positive gain the fees are the explicit fees and net invested is D − W − F; with a positive gain the fees are F + gain × rate; always net invested = D − W − total fees |
| AccountRepository.SummaryTotals | app/db_models.py:205-327 | each summary belongs to a selected account and carries its number, user name, e-mail, deposit and withdrawal totals; total fees = fee total + commission at the account's rate (0 without the column or value); net invested = D − W − total fees |
| AccountRepository.SummaryOfSelected | app/db_models.py:197-346 | every selected account, with or without movements, has a summary with its id, number and user name |
| AccountRepository.SummariesOrdered | app/db_models.py:213-346 | summaries come ordered by user name, then account number |
| AccountRepository.PositionsOfSorted | app/db_models.py:246-251 | the rows appended for one account come ordered by fund name |
| AccountRepository.PositionRowOf | app/db_models.py:276-296 | every position of a summary comes from a position row of that account |
| AccountRepository.PositionGroupOf | app/db_models.py:221-249 | every position row is a group of a selected account |
| AccountRepository.GroupOfFund | app/db_models.py:224-246 | an existing fund with non-zero net shares has a group |
| AccountRepository.SummaryPositions | app/db_models.py:224-296 | every position is an existing fund with the fund's name and currency and the account's non-zero net shares; it has a share value and a market value exactly when the fund has a NAV, namely the latest NAV's share value and shares × that value |
| AccountRepository.SummaryPositionsComplete | app/db_models.py:224-296 | every existing fund with non-zero net shares for the account is among its positions, priced or not |
| AccountRepository.SummaryPositionsOrdered | app/db_models.py:246-296 | the positions of a summary come ordered by fund name |
| AccountRepository.GroupsOfDistinct | app/db_models.py:224-246 | grouping distinct funds of one account gives at most one row per fund |
| AccountRepository.PositionGroupsNoRepeats | app/db_models.py:224-246 | with account ids unique, the grouped rows hold each (account, fund) group once |
| AccountRepository.SummaryPositionsDistinct | app/db_models.py:224-251 | with account ids unique, a summary has at most one position per fund |
| AccountRepository.AccountWithoutMovements | app/db_models.py:205-276 | an account with no movements has zero totals, zero fees, zero net invested and no positions |
| FundRepository.LatestNav | app/db_models.py:254-266 | the latest NAV of a fund is absent exactly when it has no NAV rows, and otherwise is one of its rows with the greatest date |
| FundRepository.LatestNavsMap | app/db_models.py:767-782 | the map has an entry exactly for the funds with NAV rows, each a row of that fund with the greatest date |
| FundRepository.DateOrdersArePreorders | app/db_models.py:806-826 | newest-first and oldest-first date orders are total preorders |
| FundRepository.EffectiveLimit | app/db_models.py:809 | a given non-zero limit is used as is; no limit or 0 means 365 |
| FundRepository.RowsOfFund | app/db_models.py:804-805 | the rows of a fund are exactly the NAV rows with its id |
| FundRepository.PrefixIsMostRecent | app/db_models.py:806-807 | the first `k` rows of a newest-first order are the `k` most recent |
| FundRepository.LastIsNewest | app/db_models.py:826-827 | the last point of an oldest-first order has the greatest date |
| FundRepository.PerformanceById | app/db_models.py:785-835 | the result is `None` exactly for an unknown fund; otherwise it carries the fund's id, name and currency |
| FundRepository.PerformanceByIdNavs | app/db_models.py:795-826 | the points are the `limit` (365 by default) most recent rows of the fund, oldest first |
| FundRepository.PerformanceByIdLatest | app/db_models.py:827 | the latest share value is absent exactly when the fund has no NAV rows, and otherwise is the share value of a row with the greatest date |
| FundRepository.LatestOfKept | app/db_models.py:826-827 | the points kept are empty exactly when the fund has no NAV rows, are a prefix of its newest-first rows, and the latest share value is that of the last point once they are sorted oldest first |
| FundRepository.JoinFunds | app/db_models.py:853-854 | every joined row is a NAV row of an existing fund, with its name and currency |
| FundRepository.FundThenDateDescIsPreorder | app/db_models.py:855 | ordering by fund id then date descending is a total preorder |
| FundRepository.FirstIndex | app/db_models.py:860-871 | the first row of a fund is where `setdefault` creates its entry |
| FundRepository.FundIdsInOrder | app/db_models.py:860-886 | the funds in `funds_map` are those with rows, each once, in first-seen order |
| FundRepository.FundRows | app/db_models.py:861-882 | the rows collected for a fund are rows of that fund |
| FundRepository.KeepCount | app/db_models.py:872 | no limit keeps every point; a limit ≤ 0 keeps none; a positive limit keeps at most that many |
| FundRepository.Performances | app/db_models.py:884-890 | there is one performance per fund seen |
| FundRepository.TakeLimitAppend | app/db_models.py:872-882 | appending a row adds a point exactly while fewer than `limit` are kept |
| FundRepository.UnseenHasNoRows | app/db_models.py:860-871 | a fund never seen has no rows |
| FundRepository.CollectStep | app/db_models.py:861-882 | one row changes only its own fund's entry, by creating it or appending a point while under the limit |
| FundRepository.CollectRows | app/db_models.py:860-882 | the first loop builds `funds_map` with exactly the funds seen, in first-seen order, each with its first row's name, currency and share value and its first `limit` points |
| FundRepository.GetFundPerformance | app/db_models.py:838-890 | the method returns the performances of the joined query, each sorted oldest first |
| FundRepository.SortEntries | app/db_models.py:884-890 | the second loop returns one performance per fund of the result map, in the order the funds were first met, each with its points sorted oldest first |
| FundRepository.FundRowsOfJoin | app/db_models.py:853-854 | the joined rows of an existing fund are its NAV rows; those of an unknown fund are none |
| FundRepository.FundRowsCount | app/db_models.py:861-882 | collecting a fund's rows keeps each of its rows as often as it occurs |
| FundRepository.FundRowsPermutation | app/db_models.py:855 | reordering the query rows permutes each fund's rows |
| FundRepository.FundRowsNewestFirst | app/db_models.py:855 | a fund's rows are collected newest first |
| FundRepository.FirstRowIsHead | app/db_models.py:862-868 | the row that creates the entry is the fund's newest row |
| FundRepository.IdsIncreasing | app/db_models.py:855-886 | funds come out in increasing id order |
| FundRepository.QueryRows | app/db_models.py:841-858 | the query is ordered by fund then newest date first; its rows of an existing fund are a permutation of that fund's NAV rows |
| FundRepository.AllFundsListed | app/db_models.py:838-890 | funds are listed in increasing id order with their name and currency; every fund with NAV rows is listed and no fund without |
| FundRepository.AllFundsNavs | app/db_models.py:872-887 | each fund keeps its most recent points (all of them without a limit, none for a limit ≤ 0), re-sorted oldest first |
| FundRepository.AllFundsLatest | app/db_models.py:868 | the latest share value comes from a row with the greatest date even when points are truncated |
| FundRepository.LatestAgrees | app/db_models.py:827-868 | when a fund has one share value per date, both views report the same latest share value |
| FundRepository.MergeNav | app/db_models.py:939-977 | a NAV update keeps the id and fund, writes exactly the given fields, changes nothing when empty, and never clears a delta |
| FundRepository.MergeNavIdempotent | app/db_models.py:939-977 | applying the same NAV update twice changes nothing more |
| FundRepository.NavSetList | app/db_models.py:943-962 | the `SET` list is empty exactly for an empty update, has at most six items, and applied in order gives the merged row |
| FundRepository.NavStep | app/db_models.py:943-960 | each item appended to the `SET` list writes one more given field |
| FundRepository.UpdatedNavs | app/db_models.py:939-977 | only row `id` of the NAV table may change, to its merge with the update; the keys stay the same |
| FundRepository.UpdatedNavsIdempotent | app/db_models.py:939-977 | repeating a NAV update leaves the table as after the first |
| FundRepository.NavTable.UpdateNav | app/db_models.py:939-977 | the table becomes `UpdatedNavs`, and the result is the stored row, or `None` for a missing id |
| UserRepository.MergeUser | app/db_models.py:95-123 | a user update keeps the id and Firebase uid, writes exactly the given fields, and changes nothing when empty |
| UserRepository.MergeUserIdempotent | app/db_models.py:95-123 | applying the same user update twice changes nothing more |
| UserRepository.UserStep | app/db_models.py:99-113 | each item appended to the `SET` list writes one more given field |
| UserRepository.UserSetList | app/db_models.py:99-113 | the `SET` list is empty exactly for an empty update, has at most four items, and applied in order gives the merged user |
| UserRepository.UpdatedUsers | app/db_models.py:95-123 | only row `id` of `app_users` may change, to its merge with the update |
| UserRepository.UpdatedUsersIdempotent | app/db_models.py:95-123 | repeating a user update leaves the table as after the first |
| UserRepository.UserTable.Update | app/db_models.py:95-123 | the table becomes `UpdatedUsers`, and the result is the stored row, or `None` for a missing id |
| MovementRepository.MergeCash | app/db_models.py:454-484 | a cash movement update keeps the id and account, writes exactly the given fields, and changes nothing when empty |
| MovementRepository.MergeCashIgnoresFund | app/db_models.py:458-472 | the `fund_id` of a cash movement update is never written |
| MovementRepository.MergeCashIdempotent | app/db_models.py:454-484 | applying the same cash update twice changes nothing more |
| MovementRepository.CashStep | app/db_models.py:458-472 | each item appended to the `SET` list writes one more given field |
| MovementRepository.CashSetList | app/db_models.py:458-472 | the `SET` list is empty exactly when no writable field is given, has at most four items, and applied in order gives the merged movement |
| MovementRepository.UpdatedCash | app/db_models.py:454-484 | only movement `id` may change, to its merge with the update |
| MovementRepository.MergeShare | app/db_models.py:555-591 | a share movement update keeps the id, account, cash movement and type, writes exactly the given fields, and changes nothing when empty |
| MovementRepository.MergeShareIdempotent | app/db_models.py:555-591 | applying the same share update twice changes nothing more |
| MovementRepository.ShareStep | app/db_models.py:562-579 | each item appended to the `SET` list writes one more given field |
| MovementRepository.ShareSetList | app/db_models.py:562-579 | the `SET` list is empty exactly for an empty update, has at most five items, and applied in order gives the merged movement |
| MovementRepository.UpdatedShares | app/db_models.py:555-591 | only movement `id` may change, to its merge with the update |
| MovementRepository.Ledgers.UpdateCashMovement | app/db_models.py:454-484 | the cash table becomes `UpdatedCash`, the share table is unchanged, and the result is the stored row or `None` |
| MovementRepository.Ledgers.UpdateFundShareMovement | app/db_models.py:555-591 | the share table becomes `UpdatedShares`, the cash table is unchanged, and the result is the stored row or `None` |
| RateLimit.FirstField | app/middleware/rate_limit.py:32 | the first comma-separated field is a prefix without a comma, ending at the first comma |
| RateLimit.TrimStart | app/middleware/rate_limit.py:32 | leading white space is removed, and only that |
| RateLimit.TrimEnd | app/middleware/rate_limit.py:32 | trailing white space is removed, and only that |
| RateLimit.TrimIsStretch | app/middleware/rate_limit.py:32 | stripped text is a stretch with only white space around it, no white space at its ends, and is empty exactly for blank text |
| RateLimit.TrimBlank | app/middleware/rate_limit.py:32-33 | stripping gives the empty text exactly when every character is white space, which is when the forwarded entry is ignored |
| RateLimit.TrimIdempotent | app/middleware/rate_limit.py:32 | stripping twice is stripping once |
| RateLimit.FirstEntry | app/middleware/rate_limit.py:31-34 | the stripped first header entry is a stretch of the header with no comma and no white space at its ends |
| RateLimit.ClientIpChoice | app/middleware/rate_limit.py:28-40 | the client key is the stripped first `x-forwarded-for` entry when it is not blank, else the connection's host, else "unknown" |
| RateLimit.Recent | app/middleware/rate_limit.py:78-81 | the window keeps exactly the times after the cutoff |
| RateLimit.RecentTwice | app/middleware/rate_limit.py:48-81 | filtering at an earlier cutoff and then at a later one is filtering at the later one |
| RateLimit.RecentShrinks | app/middleware/rate_limit.py:75-81 | a later cutoff counts no more times |
| RateLimit.RecentAppend | app/middleware/rate_limit.py:96 | recording a time adds it to every window it falls in |
| RateLimit.Prune | app/middleware/rate_limit.py:48-54 | cleanup keeps an address exactly when it has times after the cutoff, and keeps exactly those times |
| RateLimit.Cleaned | app/middleware/rate_limit.py:42-56 | cleanup does nothing within 300 seconds of the last one; otherwise it sets the last cleanup to now, invents no times and keeps every address with times in the last minute |
| RateLimit.Step | app/middleware/rate_limit.py:58-99 | `/health` and `OPTIONS` pass with no change; otherwise, for any two clock readings, a request is refused exactly when its address has at least `max_requests` times left by the cleanup in the minute before `now`; a refused request records no time but leaves an entry for its address, as reading a `defaultdict` does; an accepted one appends `now` to its own address only |
| RateLimit.RejectedCountsBefore | app/middleware/rate_limit.py:44-85 | when the decision's clock reading is not earlier than the cleanup's, a request is refused exactly when its address had at least `max_requests` times in the minute before `now` before the cleanup ran |
| RateLimit.CleanupKeepsWindow | app/middleware/rate_limit.py:48-81 | cleanup never changes what a later window counts, so it never changes a decision |
| RateLimit.DispatchKeepsLimit | app/middleware/rate_limit.py:78-96 | with a clock that never goes back and a limit ≥ 0, no address ever has more than `max_requests` recorded times in the last minute |
| RateLimit.StepTimes | app/middleware/rate_limit.py:75-96 | after a step an address holds the times it kept through cleanup, which the window counts as before, plus the new time only when it was below the limit |
| RateLimit.RateLimitMiddleware.constructor | app/middleware/rate_limit.py:22-26 | a new middleware has no addresses recorded and its last cleanup at creation time |
| RateLimit.RateLimitMiddleware.CleanupOldRequests | app/middleware/rate_limit.py:42-56 | the loop over the addresses leaves the state `Cleaned` describes |
| RateLimit.RateLimitMiddleware.Dispatch | app/middleware/rate_limit.py:58-99 | the decision and the new state are those of `Step` |

## Left out

- **I/O and connections.** SQL text, database connections, transactions and HTTP responses are not modelled.
  - The queries are functions over table contents, and each update method acts on the table it writes.
  - `find_by_id` is a map lookup.
  - The re-read after `update_cash_movement` (`find_cash_movement_by_id`) inner-joins the account and its user, so it returns nothing when either row is missing. The model returns the movement whenever its id exists. Foreign keys rule out the missing rows.
- **Schema probe.** The `information_schema` probe for `accounts.commission_rate` is not modelled. Its answer is the parameter `hasCommissionColumn`.
- **Listing and report queries.** These are not modelled: `find_*`, `get_*_movements`, `get_cash_and_fund_report`, `get_all_navs`, the creates and the deletes.
- **float branch.** The `float` branch of the rate conversion in `_get_account_summaries` is not modelled. Rates are `Decimal` or absent.
- Models.ConvertDecimal: `float` inputs are not modelled. A JSON number with a fraction reaches the validators as a binary `float`, and `str` of it gives Python's shortest repr (`100.5`, `1e+21`, `0.30000000000000004`). Binary rounding and that repr text are left out; the model covers `None`, text, `Decimal` and integer inputs.
- **Decimal arithmetic.** The 28-digit context rounding of Python's `Decimal` is not modelled, so money arithmetic is exact.
  - NaN and infinite decimals are not modelled.
  - Computed amounts stay numbers and are not turned into their text form. `DecimalText` models the text of a given `Decimal`.
- **Text ordering.** Collation-aware ordering in the database is not modelled. Text sorts by code point.
- **Ties in ordering.**
  - Rows with equal sort keys keep their storage order (a stable sort). The database leaves that order unspecified.
  - `LatestNav` takes the first stored row among equal dates.
  - For a fund with two NAV rows on its latest date, the two performance views may pick different rows. `LatestAgrees` proves they agree when a fund has one share value per date.
- **Fund performance by id:** a negative `limit` is excluded by its `requires`. The database rejects a negative `LIMIT`, and the HTTP layer allows only 1 to 365.
- **Movement type sums:** the `ELSE 0` branch of the type sums is unreachable in the model. Movement types are enumerations, because invalid type names are rejected before they are stored.
- **FundRepository.MergeNav:** an update can set the delta columns but cannot clear them. `None` means "leave unchanged", as in the source.
- **Display fields.** `created_at` is not modelled. The display fields joined into listings (`user_name`, `fund_id`) are not modelled either.
- **Commission rate.** `commission_rate` is not stored in the account summary. It is computed as text but dropped, because the summary record has no such field.
- **Rate limiter.**
  - Header lookup is case-insensitive in the web framework; here the header is given as an optional value.
  - The clock reads are parameters, and `call_next` and logging are not modelled.
- **Authentication, routers, configuration and application start-up** are not part of this model.
