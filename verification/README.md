# Go2Bank: transfers, rate limiting, one-time passwords and sessions

A Dafny model of the three stateful protocols of Go2Bank and the properties they keep over
whole runs.

* **Transfers.** `TransferProtocol` interleaves any number of `TransferTx` calls one SQL
  statement at a time under READ COMMITTED. A transaction buffers its inserted rows and its
  row versions; an account row is locked exactly while an unfinished transaction holds an
  uncommitted version of it. The insufficient-balance check reads the row without a lock, as
  the code does. Any statement may fail or be interrupted. `TransferStore` is the same code
  as Go writes it (classes `Queries` and `SQLStore`), and `SoloTransfer` proves that both
  forms agree. `Exchange` is the conversion of amounts, `TransferApi` the handler before a
  transfer, `TransferAnswers` its answers as conditions on the tables and the rates,
  `TransferRuns` whole interleaved runs of requests; `RequestRuns` carries the results on
  transfers over to them.
* **Rate limiting.** `RateLimiter` is the middleware over a Redis sorted set with key expiry
  (class `RedisStore`); `RateLimiterRuns` compares it with a specification that knows only
  the admitted stamps, `RateLimiterBounds` bounds what it admits, `RateLimiterHeaders` is
  about the headers of every response and `RateLimiterReset` about rejected clients;
  `RateLimiterInterleaved`, `RateLimiterWindows` and `RateLimiterExtremes` take every Redis
  command of every request as one step, and `RateLimiterSerial` proves that these commands,
  one request after the other, are the middleware.
* **One-time passwords and sessions.** `Otp` (class `OtpService`) and `Sessions` (class
  `SessionServer`) run over a key-value store with a time to live (`KeyValue.Store`);
  `SessionRuns` follows every live session to its login, `SessionStore` says exactly what
  the store holds after any run and what renewal answers then, and `SessionKeyOrder`
  interleaves the single SET and DEL commands.

`dafny verify dfyconfig.toml` checks everything. Apart from the few concrete inputs that
show a property to fail, results are about all inputs or all runs. The shape of the proofs
is the same throughout: a deterministic step function, an invariant kept by each step, and
an induction over the run.

## What turned out differently from what one would expect

* **The balance check does not serialize.** Balances are never lost or mixed up
  (`SerialEquivalence.AnySerialOrder`), but with k transfers out of an account in flight it
  can reach exactly -(k - 1) * M (`Overdraft.OverdraftBound`,
  `OverdraftTight.OverdraftReached`), and two interleaved transfers end in accounts that no
  one-at-a-time run ends in (`OverdraftTight.NoSerialRunReaches`).
* **No money enters.** Accounts open with balance 0, so these operations alone never move any
  (`Overdraft.NothingFromNothing`). The ledger results are therefore stated for every
  starting database: what a balance differs from its entries never changes.
* **Conversion to int64.** Go leaves `int64(x)` open when `x` does not fit. It is the parameter
  `wild`. Value is never created for any `wild` (`TransferRuns.ValueNeverCreated`); the
  rounding bounds hold for every `wild` if and only if the amount fits
  (`Exchange.ExchangeSoundIff`). A credit that does not fit is also the one way to lower the
  balance of somebody who asked for nothing: `CreditOverflow.CreditLowersIff` says exactly
  when, and `CreditOverflow.StrangerDebited` is a run that does it.
* **The limit admits one more.** The project's own README speaks of 1000 requests per window;
  the code tests `count > maxRequests` before it adds, so 1001 distinct stamps fit
  (`RateLimiterBounds.WindowBound`, `RateLimiterBounds.OneOverTheLimit`). Requests with the
  same millisecond stamp count once (`RateLimiterBounds.SameMillisecondAdmitted`).
* **EXPIRE is sent in whole seconds.** The Redis client cuts the duration down, to one second
  at least. For windows of whole seconds, or below one second, the key outlives every stamp
  and its expiry is invisible (`RateLimiterBounds.ExpiryInvisibleIff`). For other windows
  of r milliseconds over whole seconds, it depends on the limit: the middleware meets its
  specification if and only if maxRequests > r or < 0 (`RateLimiterRuns.RefinesIff`), its
  headers are right only if nothing is ever admitted (`RateLimiterHeaders.HeadersIff`), it keeps
  the window bound if and only if maxRequests >= r or < 0 (`RateLimiterBounds.WindowBoundIff`),
  and computes exact reset times if and only if maxRequests >= r
  (`RateLimiterReset.ResetExactIff`).
* **Headers are cut down to seconds.** The reset time that is sent can be too early by less
  than a second; it is good if and only if it is a whole number of seconds
  (`RateLimiterReset.ResetHeaderHonestIff`), and Retry-After if and only if the time to the
  reset is (`RateLimiterReset.RetryAfterHonestIff`).
* **The expiry can come between ZADD and EXPIRE.** Interleaved, the window bound needs that
  the key does not lapse while a member is younger than the window
  (`RateLimiterWindows.InterleavedWindowBound`); without that, stamps that still count are
  lost (`RateLimiterWindows.NeverLostIff`). One request at a time in flight is enough to
  exceed the bound if and only if the limit is at least 1 and the window has room for it
  (`RateLimiterExtremes.ExpiryRaceIff`).
* **The mail promises too much.** It says that the code expires in P seconds; this is so if and
  only if it was computed at a multiple of P, is stored too late to be used at all, or is the
  code of the next time step as well (`Otp.MailedLifetimeIff`).
* **A cookie may be any text.** Logging out the text `id:user_agent` or `id:ip` deletes one
  key of the session `id` and leaves its sid key. The keys of a session stay in order until
  that happens (`SessionKeyOrder.KeyOrder`), and exactly then they do not
  (`SessionKeyOrder.KeyOrderEndsIff`). A session that lost its agent key is renewed for an
  empty user agent only (`SessionRuns.LiveSessionDescends`, `SessionRuns.AgentLost`).

## Model

| member | source | states |
|---|---|---|
| TransferInvariant.ReachableInv | db/sqlc/store.go:67-139 | in every reachable interleaved state all balances and uncommitted versions fit bigint, no row is locked twice, and each transaction's buffered rows, row versions and result fields are those of the statements it has passed |
| TransferInvariant.StepInv | db/sqlc/store.go:67-139 | every possible step keeps that invariant |
| TransferInvariant.CommitIsPay | db/sqlc/store.go:75-111 | the effect of committing all of a transaction's statements is one whole transfer on the tables as they are at commit |
| CommitHistory.CommittedIsReplay | db/sqlc/store.go:31-47 | refinement: after any interleaved run the committed tables are those of the indivisible transfers in commit order, each committed transaction is in that history once, and it returned the rows of that indivisible transfer |
| CommitHistory.ResultIsReceipt | db/sqlc/store.go:76-106 | a transaction ready to commit has filled each result field with the row that its statement returned |
| SerialEquivalence.AnySerialOrder | db/sqlc/store.go:114-139 | no lost update: applying the committed transfers one at a time in any order gives the same accounts and the same entries and transfers as multisets |
| SerialEquivalence.CommittedRows | db/sqlc/store.go:76-99 | after any interleaved run the new transfers and entries are, in commit order, one transfer, one debit entry and one credit entry for each committed transfer, with its accounts and amounts |
| SerialEquivalence.ReturnedBalances | db/sqlc/store.go:101-106 | every committed transfer returned its rows, and for each account, with its owner and currency, the initial balance plus the deltas of the transfers committed before it plus its own |
| SerialEquivalence.TotalAnyOrder | db/sqlc/store.go:114-139 | the sum of the deltas does not depend on the order of the transfers |
| SerialEquivalence.ReplaySums | db/sqlc/account.sql.go:12-17 | an account of the history holds its initial balance plus every committed delta and is otherwise unchanged |
| Ledger.NoDrift | db/sqlc/store.go:75-106 | in every reachable state the difference between a balance and the sum of the account's entries is what it was at the start |
| Ledger.BalanceIsEntrySum | api/account.go:24-28 | with all accounts opened at balance 0, each balance is the sum of the account's entries in every reachable state |
| Ledger.DebitsAreTransfers | db/sqlc/store.go:76-99 | an account's negative entries are, as a multiset of amounts, its outgoing transfers |
| Erasure.ErasedRun | db/sqlc/store.go:31-47 | removing any set of uncommitted transactions from a run leaves a possible run with the same tables, history and other transactions |
| Erasure.FailedLeaveNoTrace | db/sqlc/store.go:37-44 | a run with failed transfers ends with the committed rows of the run without them |
| LockOrder.HeldBelowWanted | db/sqlc/store.go:101-106 | a transaction that waits for a row holds only rows with smaller ids |
| LockOrder.NoCircle | db/sqlc/store.go:101-106 | the waits-for relation has no cycle of any length |
| LockOrder.FindRunnable | db/sqlc/store.go:101-106 | following the locks from any unfinished transaction leads to one that can step |
| LockOrder.DeadlockFree | db/sqlc/store.go:101-106 | in every reachable state no transactions wait in a circle, and some schedule within the remaining steps brings all of them to their end |
| LockOrder.SchedulesAreShort | db/sqlc/store.go:67-112 | every schedule of statements, failures and rollbacks is at most as long as the remaining steps |
| LockOrder.EveryTransferEnds | db/sqlc/store.go:67-112 | from every reachable state all transactions can be run to their end within the remaining steps |
| Overdraft.OverdraftBound | db/sqlc/store.go:71-73 | with at most k transfers out of an account in flight and debits of at most M, its committed balance does not fall below -(k - 1) * M, whatever other accounts do |
| Overdraft.FreeStep | db/sqlc/store.go:71-106 | each step keeps the balance less the checked but uncommitted debits at or above that bound |
| Overdraft.SerialNeverOverdraws | db/sqlc/store.go:71-73 | one transfer out of an account at a time, a non-negative balance stays so |
| Overdraft.NothingFromNothing | api/account.go:24-28 | from accounts without money no transfer of a positive amount ever commits |
| OverdraftTight.OverdraftReached | db/sqlc/store.go:71-73 | for every k and M that bigint holds, a run with k transfers in flight ends at exactly -(k - 1) * M |
| OverdraftTight.NoSerialRunReaches | db/sqlc/store.go:71-73 | one run of two interleaved transfers ends in accounts that no serial run of transfers, however many and of any size, ends in |
| SoloTransfer.SoloOutcome | db/sqlc/store.go:67-112 | running all statements of one transfer ends with the first failing check's error, or in exactly the indivisible transfer and its rows |
| SoloTransfer.SoloRun | db/sqlc/store.go:67-112 | in the interleaved system, a transfer that meets no lock does the same as TransferTx on its own: same error and no change, or the whole transfer |
| TransferAnswers.ErrorIff | db/sqlc/store.go:71-108 | TransferTx on its own fails for want of money exactly when the balance, 0 for a missing account, is below the amount, else for a missing account, else exactly when a new balance does not fit bigint |
| TransferAnswers.RowsBeforeError | db/sqlc/store.go:68-111 | with an error TransferTx returns exactly the rows of the statements before the failing one |
| TransferStore.SQLStore.TransferTx | db/sqlc/store.go:67-112 | the tables change by one whole transfer and all five rows are returned, or the tables do not change, with the error of the first failing check and the rows returned before it |
| TransferStore.SQLStore.InsertRows | db/sqlc/store.go:70-99 | the balance check and the three inserts follow the statements of the protocol, with the same buffered rows, result fields and error |
| TransferStore.SQLStore.UpdateBalances | db/sqlc/store.go:101-108 | the two updates, smaller id first, end as the protocol does, each row in its own result field |
| TransferStore.Queries.AddMoney | db/sqlc/store.go:114-139 | each row in turn gets its amount, the second on top of the first when both are one account; the first error ends it and leaves the second row alone |
| TransferStore.Queries.AddAccountBalance | db/sqlc/account.sql.go:12-35 | the visible version of the row plus the amount; a missing row or bigint overflow is an error without effect |
| TransferStore.Queries.CreateTransfer | db/sqlc/transfer.sql.go:12-39 | one row is appended when both accounts exist, otherwise a foreign key error and nothing |
| TransferStore.Queries.CreateEntry | db/sqlc/entry.sql.go:12-36 | one row is appended when the account exists, otherwise a foreign key error and nothing |
| TransferStore.SQLStore.GetAccount | db/sqlc/store.go:71-71 | the committed row, or none |
| Exchange.ConversionLoss | api/transfer.go:125-126 | in exact arithmetic a conversion never adds value and loses less than one unit of the destination currency |
| Exchange.RoundedConversionLoss | api/transfer.go:125-126 | if the floating-point product is off by at most a share u, the value gained is at most that share and the loss at most one unit more |
| Exchange.ConversionGreatest | api/transfer.go:126-126 | the conversion is the greatest whole amount worth no more than the input |
| Exchange.SameCurrency | api/transfer.go:125-126 | within one currency the amount arrives unchanged |
| Exchange.ExchangeSoundIff | api/transfer.go:126-126 | the int64 result keeps the bounds, whatever an out-of-range conversion gives, if and only if the amount is worth less than 2^63 units of the destination |
| Exchange.FitsIff | api/transfer.go:126-126 | the converted amount fits int64 if and only if the amount is worth less than 2^63 units of the destination |
| Exchange.ChainLoss | api/transfer.go:102-127 | a chain of n conversions never adds value and loses less than the n destination rates |
| Exchange.DirectIsBest | api/transfer.go:102-127 | converting through any list of currencies never yields more than converting directly to the last one |
| Exchange.RoundTrip | api/transfer.go:102-127 | from A to B and back yields at most the amount and more than it less rateB / rateA + 1 |
| TransferApi.Server.CreateTransfer | api/transfer.go:21-78 | the tables, the response and the status are those of the guards in their order followed by TransferTx, and every answer other than 200 leaves the tables alone |
| TransferAnswers.AdmissionIff | api/transfer.go:13-65 | a request is admitted if and only if it is well formed, both accounts are open, the payer is the user's own in the named currency, and both currencies have a rate; then with exactly its amounts |
| TransferAnswers.ResponseIff | api/transfer.go:21-78 | for each refusal, each failure and success, the exact condition on the tables, the rates and the request |
| TransferAnswers.StatusIff | api/transfer.go:21-78 | for each of the statuses 200, 400, 401, 404 and 500, the exact condition on the tables, the rates and the request |
| TransferAnswers.PaysExactly | api/transfer.go:60-77 | a request that is paid moves exactly the amount out and the converted amount in, adds one transfer and two entries and changes nothing else |
| TransferAnswers.ReturnsRows | db/sqlc/store.go:58-64 | and returns exactly the rows it wrote |
| TransferAnswers.SameCurrencyPays | api/transfer.go:55-77 | between two accounts of one currency a proper request with enough money and room is answered 200 and moves exactly its amount |
| TransferApi.Server.ValidAccount | api/transfer.go:80-100 | the account, or not found, or currency mismatch |
| TransferRuns.DebitProvenance | api/transfer.go:28-65 | in any interleaved run a balance is lowered only by committing a transfer that its owner requested from that account, in its currency, with a positive amount; the one exception is a credit that does not fit int64 |
| CreditOverflow.CreditLowersIff | api/transfer.go:126-126 | an admitted request to another account can lower that account for some out-of-range result if and only if the payer can pay, the receiver is above the least int64 and the amount is worth at least 2^63 units of the receiver's currency |
| CreditOverflow.LoweringRun | api/transfer.go:60-67 | whenever that is so, a run of the one request does it |
| CreditOverflow.StrangerDebited | api/transfer.go:126-126 | a concrete run of one request by the payer that leaves the payee at the least int64 |
| RequestRuns.RefusalsErased | api/transfer.go:21-58 | taking all refused requests out of any interleaved run leaves a run that ends in the same service and in which none is refused |
| RequestRuns.CoreIsRun | api/transfer.go:60-67 | every run of requests is an interleaved run of the transfers that it admits |
| RequestRuns.RequestOverdraft | api/transfer.go:60-67 | with at most k requests out of an account in flight, each for at most M, and credits to it that fit int64, its balance does not fall below -(k - 1) * M |
| RequestRuns.RequestLedger | api/transfer.go:60-67 | in any run of requests whose credits to an account fit int64, its negative entries are its outgoing transfers and its balance keeps its distance from its entries |
| TransferRuns.ValueNeverCreated | api/transfer.go:125-126 | over any interleaved run the sum of balance times rate never grows, whatever out-of-range conversions give; when all conversions fit it shrinks by less than the destination rates of the committed transfers |
| TransferRuns.SameCurrencyConserves | api/transfer.go:125-126 | transfers between equal rates, in particular within one currency, conserve that sum exactly |
| RateLimiter.RedisStore.RateLimit | api/middleware.go:112-166 | purge, count, oldest stamp, test, add and expire amount to the verdict, the headers and the key of the pure form; a failing count ends after the purge; no other key changes |
| RateLimiter.RedisStore.Enter | api/middleware.go:155-162 | the stamp joins the live members and the key gets its new deadline |
| RateLimiterHeaders.HeadersExact | api/middleware.go:142-148 | for whole windows every response, admitted or not, tells the limit less the admitted stamps in the window that ends now, at least 0, and the time at which the first of them leaves it, or now plus the window when there is none, in whole seconds |
| RateLimiterHeaders.HeadersIff | api/middleware.go:142-148 | the headers are right in all runs if and only if the window is of whole seconds or below one second, or nothing is ever admitted |
| RateLimiter.RedisStore.Examine | api/middleware.go:118-140 | the count is the size of the purged set, the reset time is its least stamp plus the window, or now plus the window when it is empty |
| RateLimiter.RedisStore.ZRemRangeByScore | redis/redis.go:50-52 | the members with a score in the range are gone; an empty set has no key |
| RateLimiter.RedisStore.ZCard | redis/redis.go:54-56 | the number of members, 0 for an expired key |
| RateLimiter.RedisStore.ZRangeFirst | redis/redis.go:62-64 | a member with the least score, none for an empty set |
| RateLimiter.RedisStore.ZAdd | redis/redis.go:58-60 | the stamp is a member besides those before it |
| RateLimiter.RedisStore.Expire | redis/redis.go:66-68 | an existing key lapses after the window cut down to whole seconds, or after one second for a shorter window |
| RateLimiterRuns.LimiterRefines | api/middleware.go:112-166 | for every sequence of requests on one clock the middleware admits the next one exactly when at most maxRequests distinct admitted stamps lie in the window that ends now, in every faithful configuration |
| RateLimiterRuns.RefinesIff | api/middleware.go:112-166 | it does so for all sequences if and only if the window is of whole seconds or below one second, or maxRequests exceeds its milliseconds over whole seconds, or is negative |
| RateLimiterBounds.ExpiryInvisibleIff | api/middleware.go:161-162 | for all runs the key lapses only when the purge would remove every member, if and only if the window is of whole seconds or below one second, or nothing is ever admitted |
| RateLimiterBounds.WindowBound | api/middleware.go:147-159 | in every serial run no window of the given length, ending at any time, has more than maxRequests + 1 stamps that the middleware admitted |
| RateLimiterBounds.WindowBoundIff | api/middleware.go:147-162 | this holds for all runs if and only if the window is of whole seconds or below one second, or maxRequests is at least its milliseconds over whole seconds, or negative |
| RateLimiterBounds.OneOverTheLimit | api/middleware.go:147-147 | that bound is reached in every configuration that has room for it |
| RateLimiterBounds.SameMillisecondAdmitted | api/middleware.go:156-159 | any number of requests in one millisecond is admitted, with one stamp |
| RateLimiterBounds.NegativeLimit | api/middleware.go:147-147 | with a negative limit the middleware admits nothing |
| RateLimiterReset.ResetExact | api/middleware.go:133-153 | the middleware computes for a rejected request a reset time after now and at most a window away; after any further rejections it admits the next request exactly from that time on |
| RateLimiterReset.ResetExactIff | api/middleware.go:133-162 | the reset time is exact in all runs if and only if the window is of whole seconds or below one second, or maxRequests is at least its milliseconds over whole seconds |
| RateLimiterReset.ResetHeaderHonestIff | api/middleware.go:144-144 | the header is less than a second early, and a client that comes at its time is admitted if and only if the reset time is a whole number of seconds |
| RateLimiterReset.RejectionsErased | api/middleware.go:147-153 | taking all rejected requests out of any run leaves the same admitted stamps, and the next request finds the same set and gets the same verdict and headers |
| RateLimiterReset.RetryAfterHonestIff | api/middleware.go:148-148 | a client that waits exactly Retry-After is admitted if and only if the time to the reset is a whole number of seconds |
| RateLimiterInterleaved.SetBound | api/middleware.go:121-162 | with at most k requests in flight and Redis commands interleaved in any way, the set has at most maxRequests + k members |
| RateLimiterSerial.SerialIsMiddleware | api/middleware.go:118-162 | the interleaved commands, taken for one request after the other in any sequence, leave the key and the admitted stamps of the middleware |
| RateLimiterInterleaved.BoundedStep | api/middleware.go:121-162 | each command keeps the members plus the requests past the test within that bound |
| RateLimiterWindows.InterleavedWindowBound | api/middleware.go:121-162 | if the key never lapses while a member is younger than the window, no window has more than maxRequests + k admitted stamps |
| RateLimiterWindows.NeverLostIff | api/middleware.go:155-162 | a run holds every admitted stamp of the last window at every moment if and only if its key never lapses with such a young member |
| RateLimiterWindows.TimelySuffices | api/middleware.go:155-162 | for windows that the key outlives, it never does unless it lapses between a ZADD and its EXPIRE |
| RateLimiterWindows.LapseLosesIff | api/middleware.go:155-162 | a lapse of the key loses a stamp of the last window exactly when a member is younger than the window |
| RateLimiterExtremes.SetBoundReached | api/middleware.go:147-159 | for every limit below the window and every k a run reaches maxRequests + k members |
| RateLimiterExtremes.ExpiryRace | api/middleware.go:155-162 | for every limit from 1 on and every window above maxRequests + 1 milliseconds, a run with one request at a time in flight whose key lapses between ZADD and EXPIRE and whose window then exceeds the bound |
| RateLimiterExtremes.ExpiryRaceIff | api/middleware.go:155-162 | for windows that the key outlives, such a run exists if and only if the limit is at least 1 and below the window by more than 1 |
| Otp.OtpService.ProcessTaskSendVerifyEmail | worker/task_send_otp_email.go:41-87 | a known user's secret replaces the one before with the full time to live, even when the mail fails; the mailed code is that of the present time step |
| Otp.OtpService.VerifyOTP | api/middleware.go:73-110 | malformed, expired, invalid or accepted as the stored secret says; the secret is deleted exactly when the code is accepted |
| Otp.OtpAccounting | api/middleware.go:73-110 | for every run, user and time, the codes that passed plus the live secret never exceed the secrets stored for the user |
| Otp.PassAnswersIssue | api/middleware.go:88-108 | every accepted code is that of one earlier issue to the same user, in the present time step and within its time to live, with no issue and no other pass in between |
| Otp.OnePassPerIssue | api/middleware.go:105-108 | two accepted codes answer two different issues |
| Otp.OutcomeIff | api/middleware.go:78-103 | in any run, with an unused secret: malformed exactly without a code, expired exactly after the time to live, accepted exactly for the secret's code of the present time step, else invalid |
| Otp.OutcomeWithout | api/middleware.go:88-94 | in any run, without an unused secret every code has expired |
| Otp.TimeStepIff | worker/task_send_otp_email.go:49-50 | the time steps are the whole periods since the epoch (section 4.2 of RFC 6238) |
| Otp.OtpLifetime | worker/task_send_otp_email.go:47-59 | in any run, the code of an issue neither replaced nor used since is accepted throughout the time step in which it was computed (section 4.2 of RFC 6238), the time to live never cuts that short, and it is accepted later only where the secret has the same code |
| Otp.MailedLifetimeIff | worker/task_send_otp_email.go:64-76 | in any run, the code is good for the full period that the mail states if and only if it was computed on a time-step boundary, is stored too late to be used, or is also the code of the next step |
| KeyValue.Store.Set | redis/redis.go:34-36 | the key gets the value and a new time to live, others stay |
| KeyValue.Store.Get | redis/redis.go:38-40 | the value of a live key, none once it has expired |
| KeyValue.Store.Exists | redis/redis.go:46-48 | 1 for a live key, otherwise 0 |
| KeyValue.Store.Del | redis/redis.go:42-44 | the key is gone, others stay |
| Sessions.SessionServer.Login | api/user.go:144-199 | verified credentials create the three keys of a session, others nothing |
| Sessions.SessionServer.Renew | api/renew.go:17-107 | the old three keys are replaced by those of a new id for the same user when the session, user agent and address match and the user exists; otherwise nothing changes, with the error of the first failing check |
| Sessions.SessionServer.Logout | api/user.go:201-219 | the three keys of the cookie are deleted, without a cookie nothing |
| SessionRuns.LiveSessionDescends | api/renew.go:25-97 | every live session ends exactly one renewal chain, which starts with a login of the same user from the same address; no other live session comes from that login; its user agent is the login's, or empty exactly when a logout named the agent key of an earlier session of the chain |
| SessionRuns.AgentKeyLiveIff | api/user.go:201-211 | a live session's agent key is live with the agent it was created with, unless a logout named that key while the session was stored |
| SessionRuns.AgentLost | api/renew.go:37-49 | a concrete run in which a session is renewed for an empty user agent although its login had another |
| SessionRuns.ChainUnique | api/renew.go:77-92 | at most one renewal chain ends in a session |
| SessionRuns.LiveAtMostLogins | api/renew.go:77-92 | there are never more live sessions than there were logins |
| SessionRuns.NeverLiveAgain | api/renew.go:77-86 | a renewed or deleted session is never live again, however the run goes on |
| SessionRuns.LogoutEnds | api/user.go:204-206 | logging out an id ends its session at once |
| SessionStore.StoreIs | api/user.go:180-182 | after any run a session that was neither renewed nor logged out has its three keys with the user, agent and address it was issued for and one time to live from its creation, except those that a logout named; any other session has none |
| SessionStore.NoOtherKeys | api/user.go:180-182 | and there are no keys of any other name |
| SessionStore.LiveIff | api/user.go:180-206 | a session is live exactly until it is renewed or logged out, or one time to live after its creation |
| SessionStore.RenewAnswers | api/renew.go:25-65 | for a live session the exact condition of every answer: success for its user if and only if the agent and the address are those it was issued for, no logout named their keys (an agent key that is gone stands for the empty agent), and the user exists |
| SessionStore.RenewRefuses | api/renew.go:19-55 | the exact answer to every other cookie: expired, unless its text names a live key of a session, then a mismatch |
| SessionStore.EndedForGood | api/renew.go:77-79 | after a logout or renewal none of the session's three keys is there again, however the run goes on |
| SessionStore.OthersUntouched | api/user.go:204-206 | an event that does not end a session leaves each of its three keys as it was, unless it is a logout whose text names just that key |
| SessionKeyOrder.KeyOrder | api/user.go:176-206 | however creations, renewals and logouts interleave or stop half way, with cookies of any text, a created session whose sid key is live has live user_agent and ip keys as long as no cookie named one of them |
| SessionKeyOrder.KeyOrderEndsIff | api/user.go:201-211 | in any such run the next cookie ends that for a live session if and only if it names one of the two keys |
| SessionKeyOrder.LogoutKeepsOrderIff | api/user.go:201-211 | a logout of any text keeps the order for a live session if and only if the text is not its id followed by ":user_agent" or ":ip" |
| SessionKeyOrder.LogoutCanBreakOrder | api/user.go:201-211 | a concrete logout text that leaves a live session without its address |

## Left out

- TransferRuns.DebitProvenance: owner and currency never change, so the guards of createTransfer are one step in an interleaved run and only the statements of TransferTx interleave.
- Exchange.ConversionLoss: arithmetic is exact; the rounding of float64, including that of amounts above 2^53, appears only as the share u of RoundedConversionLoss.
- TransferRuns.ValueNeverCreated: rates are positive and do not change during a run, so the exchange-rate crawler is not part of this model.
- Ledger.DebitsAreTransfers: for debits above 0 and credits not below 0 on the account; RequestRuns.RequestLedger derives this from the binding rules for credits that fit int64.
- Overdraft.OverdraftBound: for debits and credits on the account that are not negative; RequestRuns.RequestOverdraft derives this from the binding rules for credits that fit int64.
- RateLimiterRuns.LimiterRefines: windows are positive, as in the other results on the limiter, and in runs of requests ZCARD does not fail; a failing one only purges.
- RateLimiterInterleaved.SetBound: ZRANGE only fills headers and is no step of its own there; a failing ZREMRANGEBYSCORE, ZADD or EXPIRE, whose errors the middleware ignores, is not modelled.
- RateLimiter.RedisStore.RateLimit: the server and Redis share one clock, the score and the member of one ZADD are the same stamp, and the window is a whole number of milliseconds.
- Otp.OtpLifetime: the duration is a positive number of whole seconds, so that time step and time to live agree.
- Sessions.SessionServer.SetSession: a duration of 0, which Redis takes for no expiration, is not modelled.
- Otp.OtpAccounting: the check, the handler and the delete are one step, as are the session handlers in SessionRuns; only SessionKeyOrder interleaves commands.
- Row ids and timestamps of transfers and entries: rows are compared without them.
- Commit outcomes that the client does not learn, and lost connections other than an interrupted statement.
- The users table, except whether a user exists, and the foreign key from accounts to it.
- DeleteAccount, UpdateAccount and GetAccountForUpdate: no handler calls them.
- HTTP routing, JSON, cookies as wire format, CORS, CSRF and PASETO: only validated fields and outcomes remain, and of the HTTP statuses those of createTransfer.
- bcrypt and random generation: credentials are a flag and generated ids are fresh hexadecimal text.
- HMAC and its truncation: the code is any function of secret and time step.
- Google OAuth calls, mail delivery and the asynq queue: a login step, a flag and a direct call.
- Client addresses are non-empty text, so an absent ip key never matches.
- Partial user update, role check and simple getters: one-branch claims.
