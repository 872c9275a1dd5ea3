# RichPayment: a verified model of its payment services

RichPayment is a set of Go services that take deposits by PromptPay QR code, match them to bank SMS
messages, split the fees and tell the merchants. This project models their state machines, algorithms
and arithmetic in Dafny and proves what they keep over whole runs.

PostgreSQL tables, Redis keys and sorted sets are maps; clocks, random draws and the answers of
foreign systems (HTTP endpoints, bcrypt, TOTP, `pg_dump`) are parameters or nondeterministic choices.
Amounts are whole satang (integers), percentages exact fractions (`real`), dates day numbers, times
integers (nanoseconds for webhooks and SMS, seconds for logins and locks).

Two services are modelled as protocols whose steps interleave over any number of threads: every Redis
or database command is one step. Their methods (classes `WebhookService`, `BankService`) are written
over the shared fields with a call to `Interleave` between commands, which lets all other threads take
any steps; each method is proved to be a run of the protocol, so the theorems about runs are theorems
about the methods. Settling and matching deposit orders are taken apart in the same way (`Settlement`,
`Matching`). The other services are classes whose calls are one event each.

| file | what it models |
|---|---|
| `WebhookProtocol.dfy`, `WebhookService.dfy` | webhook delivery, claim-by-removal, exhausted state |
| `WebhookTiming.dfy` | back-off, early claims and expiring payloads with any number of polling workers |
| `DepositOrders.dfy`, `DepositService.dfy` | order table with its three Redis structures; amount search; matching; expiry |
| `Settlement.dfy`, `Matching.dfy` | completions and expiries, and creates and matches, that overlap |
| `BankProtocol.dfy` | daily limit, auto-switch, resets |
| `BankPools.dfy`, `BankHistory.dfy` | cached pools under overlapping rebuilds, and when they are out of date |
| `BankService.dfy` | the bank service's methods, account selection |
| `Crc16.dfy`, `PromptPayQr.dfy` | CRC-16/CCITT-FALSE over GF(2); TLV printer, reader, payload |
| `Money.dfy`, `Commission.dfy` | rounding and the fee split |
| `Summaries.dfy`, `Rollup.dfy` | the commission service's grouping, the upsert, monthly roll-up |
| `SqlSummaries.dfy` | the scheduler's query and upsert loop, compared with the grouping in Go |
| `SummaryRuns.dfy` | commissions recorded while either service aggregates |
| `Calendar.dfy`, `PartitionNames.dfy`, `Partitions.dfy` | `AddDate`; partition names and their parser; monthly partitions created and archived |
| `Lockout.dfy`, `LoginLimit.dfy` | lockouts of accounts and sessions, the limit on an address |
| `AuthRuns.dfy`, `AuthService.dfy` | runs of logins, codes and session checks; the methods |
| `SmsReplay.dfy` | SMS duplicate key and freshness window |
| `RedisLock.dfy` | TTL lock with compare-and-delete |
| `Systems.dfy` | runs of a transition system, used by the protocols and the order life cycle |
| `Text.dfy` | digits and their values |

## Where the code and its own texts differ

The model follows the code.

- `services/commission/internal/service/calculator.go:118-119` says half-even; `Round(2)` rounds halves away from zero. Allowed percentages can then be refused: `Commission.RejectedIffRoundsOver` says exactly when, `Commission.SmallDepositRefused` gives 0.50 baht.
- `services/parser/internal/service/anomaly.go:164-166` says the `|` delimiter keeps sender "A|B" with "C" apart from "A" with "B|C"; it does not (`SmsReplay.BarsCollide`). It does for senders without `|` (`SmsReplay.KeyIsInjective`).
- `services/scheduler/internal/service/archive.go:223-224` says nothing is dropped when the export fails; the exit code looked at is that of `gzip` at the end of the pipe, so a failing `pg_dump` goes unnoticed, and by then it has overwritten any older dump (`Partitions.DropWithoutDump`, `Partitions.DroppedHasDumpIff`).
- `services/scheduler/internal/service/partition.go:95-100`: on days the next month does not have, `AddDate` skips that month (`Calendar.JanuaryEndSpills`).
- `services/scheduler/internal/service/archive.go:301-321` accepts any text after the month, a month of one digit, signs and blanks (`PartitionNames.AcceptedNames`, `PartitionNames.TrailingTextIsIgnored`).
- `services/order/internal/service/matcher.go:188-216`: the time-based strategy finds a matched order again until it is completed or expired (`DepositOrders.OldestMatchRepeats`); `DepositOrders.RepeatsIffUnsettled` says exactly when a lookup may repeat.
- `services/order/internal/service/deposit.go:302-310` lets only pending orders be completed, but the update in `postgres_order_repo.go:144-148` is guarded by the id alone: `Settlement.SettledRightIffReadsApart` says exactly when overlapping calls still settle an order once.
- `services/order/internal/service/matcher.go:159-160` says a removed order cannot be matched again; the answer of the removal is not looked at (`Matching.MatchedOnceIffFindsApart`). In the same way `deposit.go:519-530` looks for a free amount long before it is taken (`Matching.DistinctIffNoRivals`).
- `services/bank/internal/repository/bank_repo.go:434-436` says the midnight reset re-enables accounts; it does not. A reset between the read and the switch leaves an account off that has received nothing (`BankProtocol.ResetBeforeSwitch`), one before the read leaves an account on whose deposits reached its limit (`BankProtocol.ResetBeforeReread`).
- `services/bank/internal/service/pool.go:162` and `:177` call the rebuild of a pool atomic; `Pipeline()` only sends its commands together, and others may run in between. After the DEL the pool is empty for a while (`BankPools.GapAfterDel`).
- `services/notification/internal/service/retry.go:107-174`: a worker with an old batch may claim a webhook before it is due (`WebhookTiming.StaleBatchClaimsEarly`); `WebhookTiming.ClaimIsEarlyIff` says exactly when. Both the score (`webhook.go:335`) and the poll time (`retry.go:110`) are cut to seconds, so even a webhook claimed on time may be retried almost a second early (`WebhookTiming.RoundingComesEarly`).
- `services/auth/internal/service/auth.go:374-451` does not look at the session's own end, so codes are still checked after it while the key lives (`AuthRuns.CodesOutliveSession`, `AuthRuns.KeyLivesIff`); no session is accepted by `ValidateSession` after it.
- `services/auth/internal/service/auth.go:230-233` says the counter of an address is never decremented below zero; it is when it has expired during a successful login, and then it has no expiry (`LoginLimit.BelowZeroIff`).

## Model

| member | source | states |
|---|---|---|
| `WebhookProtocol.StepKeeps` | services/notification/internal/service/webhook.go:284-406 | every step of every thread keeps the invariant: each webhook is queued, held by one thread or settled, and its history fits its place |
| `WebhookProtocol.AtMostFiveDeliveries` | services/notification/internal/service/webhook.go:284-350 | counting the delivery steps of any run: at most five per webhook, at most one successful; an exhausted receipt means exactly five failed, a delivered one exactly one success |
| `WebhookProtocol.HistoryCounts` | services/notification/internal/service/webhook.go:360-406 | the history kept for a webhook equals the number of its delivery steps in the run, by outcome |
| `WebhookProtocol.OneDeliveryInFlight` | services/notification/internal/service/retry.go:141-172 | no two threads work on a webhook that one of them is delivering, and it is then neither queued nor settled |
| `WebhookProtocol.QueuedPayload` | services/notification/internal/service/webhook.go:313-343 | a queued webhook has its payload in Redis with an attempt count of 1 to 4, equal to the failures so far, so the back-off table is indexed in bounds |
| `WebhookProtocol.ExhaustedIffFiveFailed` | services/notification/internal/service/webhook.go:289-308 | five failures if and only if the exhausted receipt is written or its writer is under way; never both receipts |
| `WebhookProtocol.PlaceOf` | services/notification/internal/service/webhook.go:284-406 | a sent webhook is never forgotten, and at most 24 steps are ever spent on it |
| `WebhookProtocol.AllSettled` | services/notification/internal/service/retry.go:107-174 | once all threads are idle and the queue is empty, each webhook is delivered, exhausted or lost, and only one of these |
| `WebhookProtocol.LostIffExpired` | services/notification/internal/service/webhook.go:360-368 | a claimed retry ends without a receipt if and only if its payload has outlived 24 hours |
| `WebhookTiming.PayloadLivesADay` | services/notification/internal/service/webhook.go:313-343 | in any run a payload waiting for its retry is kept until 24 hours after the last failure and never longer than 24 hours from now, so a webhook is lost only when a worker comes for it 24 hours after its last failure |
| `WebhookProtocol.SoleWorkerClaimsOnTime` | services/notification/internal/service/retry.go:107-155 | with one polling worker every claim succeeds and none is early |
| `WebhookTiming.ClaimIsEarlyIff` | services/notification/internal/service/retry.go:107-172 | with any number of workers, a claim comes before the webhook's second if and only if the webhook was queued again after the claimer's poll for a second still ahead; and then, and only then, its back-off is not over |
| `WebhookTiming.RetriesAreSpaced` | services/notification/internal/service/webhook.go:310-343 | with any number of workers, a retry that was not claimed early comes less than one second short of 10, 30, 90 or 270 seconds after the n-th failed delivery, or later |
| `WebhookTiming.DueAfterBackOff` | services/notification/internal/service/webhook.go:310-343 | in any run a queued webhook is due 10, 30, 90 or 270 seconds after the second of its last failure, by the number of failures so far |
| `WebhookTiming.SoleWorkerIsNeverEarly` | services/notification/internal/service/retry.go:107-155 | with one polling worker nothing is ever claimed early |
| `WebhookTiming.RoundingComesEarly` | services/notification/internal/service/retry.go:107-118 | that second is needed: a reachable state in which a sole worker retries 9 seconds and a nanosecond after the failure |
| `WebhookTiming.StaleBatchClaimsEarly` | services/notification/internal/service/retry.go:141-155 | a reachable state in which a second worker claims a webhook 30 seconds early |
| `WebhookService.WebhookService.SendWebhook` | services/notification/internal/service/webhook.go:147-191 | whatever other threads do, a call is a run of the protocol and keeps its invariant; it returns no error, and leaves a delivered receipt or the webhook queued as attempt 1 with its payload, due ten seconds after some time during the call |
| `WebhookService.WebhookService.ScheduleRetry` | services/notification/internal/service/webhook.go:284-350 | counts the attempt; the fifth leaves the exhausted receipt and no payload and is an error; an earlier one leaves the webhook in the queue, due its delay after the failed delivery, with the counted attempt in its payload |
| `WebhookService.WebhookService.RetryWebhook` | services/notification/internal/service/webhook.go:360-406 | a run of the protocol that returns no error only with the receipt written or the webhook queued again with 2 to 4 attempts, and an error only for a payload that is gone or an exhausted webhook |
| `WebhookService.WebhookService.MarkExhausted` | services/notification/internal/service/webhook.go:449-477 | writes the receipt and drops the payload |
| `WebhookService.WebhookService.PollAndRetry` | services/notification/internal/service/retry.go:107-174 | a run of the protocol that leaves the worker idle: the query reads the at most ten due keys of lowest score, up to a second not before the call began, and when the call returns each of them has been claimed, by this worker or another |
| `WebhookService.WebhookService.LowestDue` | services/notification/internal/service/retry.go:114-118 | the batch holds at most ten due keys of lowest score, each once, in order, and all of them if there are fewer than ten |
| `DepositOrders.IndexesAgree` | services/order/internal/service/deposit.go:172-247 | in every reachable state the expiry set holds exactly the pending orders, each account's pending set exactly its pending unmatched orders scored by amount, and each load is its start plus pending orders plus failed creates |
| `DepositOrders.InvStep` | services/order/internal/service/timeout.go:172-194 | create, match, complete and expire each keep that agreement |
| `DepositOrders.CreateKeepsDistinctIff` | services/order/internal/service/deposit.go:504-538 | a create keeps an account's amounts distinct if and only if the amount it settled on was free; only the fallback may not be |
| `DepositOrders.FullRangeFallsBack` | services/order/internal/service/deposit.go:504-538 | with all 99 amounts taken the search returns the base amount, and collides if and only if that is taken |
| `DepositOrders.DistinctIffNoCollision` | services/order/internal/service/deposit.go:504-538 | over a run the amounts stay distinct throughout if and only if no create falls back onto a taken amount |
| `DepositOrders.AmountsInRange` | services/order/internal/service/deposit.go:511-516 | in any run every order asks for its requested amount or 1 to 99 satang more, for as long as it exists |
| `DepositOrders.UniqueMatchIsTheOrder` | services/order/internal/service/matcher.go:123-174 | with distinct amounts a match is the only pending unmatched order of that account and amount, never a settled one |
| `DepositOrders.MatchedAtMostOnce` | services/order/internal/service/matcher.go:159-166 | in any run an order is matched at most once, if no time-based lookup is made for an account and amount that has a matched order still pending |
| `DepositOrders.OldestMatchRepeats` | services/order/internal/service/matcher.go:188-216 | the time-based strategy returns the same order again right away, until it is completed or expired |
| `DepositOrders.RepeatsIffUnsettled` | services/order/internal/service/matcher.go:188-216 | after any run of time-based lookups with orders created in time order, a lookup may return an already matched order if and only if some order of that account and amount is matched and still pending |
| `DepositOrders.SettledAtMostOnce` | services/order/internal/service/deposit.go:302-333 | in any run an order is completed or expired at most once, so its merchant is credited at most once |
| `DepositOrders.StatusTells` | services/order/internal/service/deposit.go:302-333 | in any run an order that ends completed was completed by an event with just the amount and fee stored, its net their difference; it ends expired if and only if an expire event hit it, and pending only if none completed it |
| `Settlement.SettledRightIffReadsApart` | services/order/internal/service/deposit.go:287-484 | however completions and expiries overlap, once none is on a pending order any more it has one load given back, and one credit exactly if completed, if and only if no call found it pending while another had still to write its status |
| `Settlement.OverlapCreditsTwice` | services/order/internal/repository/postgres_order_repo.go:123-162 | from any state, two completions that both read first end with the merchant credited twice |
| `Matching.DistinctIffNoRivals` | services/order/internal/service/deposit.go:504-538 | however creates, matches and settlements overlap, the amounts of an account stay distinct throughout if and only if no create adds its order when another of its amount was added since it looked and is still pending, or was there when it fell back |
| `Matching.OverlapRepeatsAmount` | services/order/internal/service/deposit.go:504-538 | from any state, two creates that both look before either adds store one free amount twice |
| `Matching.FallingBackMayRepeat` | services/order/internal/service/deposit.go:532-538 | from any state, a create that falls back stores the base amount, be it taken or not |
| `Matching.SettlingMakesRoom` | services/order/internal/service/deposit.go:504-538 | a create that fell back on a taken amount still keeps the amounts distinct if that order is settled before it adds its own |
| `Matching.MatchedOnceIffFindsApart` | services/order/internal/service/matcher.go:123-174 | however they overlap, an order was matched at most once if and only if no match found it while another that had found it had still to remove it |
| `Matching.OverlapMatchesTwice` | services/order/internal/service/matcher.go:123-174 | from any state, two matches that both find a pending order before either removes it are both given it |
| `Matching.FindTellsOrder` | services/order/internal/service/matcher.go:123-174 | with distinct amounts all matches of one amount find the same order, which has that amount |
| `DepositOrders.CreatesStayBalanced` | services/order/internal/service/deposit.go:148-174 | from equal loads, any run of creates keeps a merchant's account loads within one |
| `DepositService.OrderService.AdjustAmountForUniqueness` | services/order/internal/service/deposit.go:504-538 | returns the base amount if and only if all 100 draws hit taken amounts, else the first free draw, 1 to 99 satang above |
| `DepositService.FreeDrawKeepsDistinct` | services/order/internal/service/deposit.go:504-538 | a create with the first free of its draws, if any is free, keeps the account's amounts distinct |
| `DepositService.OrderService.CreateDepositOrder` | services/order/internal/service/deposit.go:133-257 | fails without change if the merchant has no account, leaves the raised load if saving fails, else stores a pending order on a least loaded account; under `unique_amount` the amount is the first free draw, or the base amount exactly when every draw is taken, and with some draw free distinct amounts stay distinct; else it is the amount asked for |
| `DepositService.OrderService.MatchSMSToOrder` | services/order/internal/service/matcher.go:80-111 | finds an order exactly when one fits the strategy, and is that match event |
| `DepositService.OrderService.CompleteDeposit` | services/order/internal/service/deposit.go:287-484 | succeeds if and only if the order is pending; it is then completed with the amount, the fee and the difference, its three entries go and its load is given back, as one event; an error changes nothing |
| `DepositService.OrderService.ExpireSingleOrder` | services/order/internal/service/timeout.go:158-202 | an unknown id is an error; a pending order is expired, with nothing else of it changed, and its three entries are cleaned; any other order is left as it is |
| `DepositService.OrderService.ProcessExpiredOrders` | services/order/internal/service/timeout.go:103-143 | one tick expires exactly the pending orders whose time has come, and changes nothing else of any order, as a run of expire events |
| `BankProtocol.QuietMeansUnderLimit` | services/bank/internal/service/monitor.go:150-206 | at any point of any run an active account at its limit has a call in flight that will see to it; with no call in flight every active account is under its limit |
| `BankProtocol.SwitchedOffIffLimitReached` | services/bank/internal/service/monitor.go:160-203 | with no reset between a deposit to the account and its re-read: once no call is in flight the account is active if and only if it was, nobody switched it off by hand, and in no period between resets its deposits reached its limit |
| `BankProtocol.ActiveIffNeverCaught` | services/bank/internal/service/monitor.go:150-206 | after any run, once no call is in flight an account is active if and only if it was at the start, nobody switched it off by hand and no re-read found it at its limit |
| `BankProtocol.ReachesIffTotal` | services/bank/internal/repository/bank_repo.go:413-450 | between resets, deposits reach the limit at some point if and only if their total does |
| `BankProtocol.CounterIsDeposits` | services/bank/internal/repository/bank_repo.go:413-450 | the counter equals the deposits since the last reset, limits never change, nothing is switched back on |
| `BankProtocol.ResetBeforeSwitch` | services/bank/internal/service/monitor.go:225-235 | from any state, a reset between the read and the switch leaves the account off with nothing received |
| `BankProtocol.ResetBeforeReread` | services/bank/internal/service/monitor.go:150-206 | from any state, a reset between the deposit and its re-read leaves the account as it was, though the deposit reached the limit |
| `BankPools.PoolsNeverMiss` | services/bank/internal/service/pool.go:147-188 | however the single commands of rebuilds overlap, a cached pool holds only the merchant's accounts with their priorities; it misses no active account unless some store of that merchant is between its DEL and its last ZADD |
| `BankPools.GapAfterDel` | services/bank/internal/service/pool.go:164-181 | any rebuild passes through a state in which the pool is empty, whatever is active |
| `BankPools.SerialisedPoolsAreExact` | services/bank/internal/service/pool.go:211-274 | with switches and rebuilds serialised, the cache equals the active accounts whenever none is in flight |
| `BankHistory.PoolExactIffListIsNewer` | services/bank/internal/service/pool.go:147-274 | with stores of a merchant one after another, its pool is the active accounts if and only if the list last stored was read after the last switch-off of an active account of the merchant |
| `BankHistory.PoolExactIffRowsAreNewer` | services/bank/internal/service/pool.go:147-274 | however stores overlap, with none of the merchant under way its pool is the active accounts if and only if no account in it was switched off after the list its row comes from was read |
| `BankHistory.SlowRebuildStoresStaleList` | services/bank/internal/service/pool.go:147-188 | two overlapping switches that leave an account in the cache that is off |
| `BankService.QuietSelectsHighestPriority` | services/bank/internal/service/pool.go:104-132 | with no call in flight, an account is selected if and only if the merchant has an active one, and it has the highest priority among all active ones |
| `BankService.BankService.SelectAccount` | services/bank/internal/service/pool.go:81-133 | the highest-priority active account with room; the two errors if and only if there is none active, or none with room |
| `BankService.BankService.UpdateDailyReceived` | services/bank/internal/service/monitor.go:150-206 | whatever other calls do, a call is a run of the protocol in which one step adds the amount to the account and changes no other; the account is read back after that, and if it has then reached its limit it is off when the call returns, else nothing is sent to Redis; it fails if and only if the account does not exist |
| `BankService.BankService.AutoSwitch` | services/bank/internal/service/pool.go:211-274 | a run of the protocol, failing if and only if the account does not exist; it ends with the account off, and has sent, for exactly the merchants it is mapped to, the commands that store a list read after that, without the account |
| `BankService.BankService.UpdateAccountPool` | services/bank/internal/service/pool.go:147-188 | a run of the protocol; the commands sent are DEL and one ZADD for each row, in order, of the complete list of active accounts at some point during the call, priorities falling |
| `BankService.BankService.GetActiveAccountsByMerchant` | services/bank/internal/repository/bank_repo.go:273-308 | each active mapped account once, priorities falling |
| `Crc16.Crc16CcittFalse` | services/order/internal/service/qr.go:123-144 | the two loops compute the recursive checksum |
| `Crc16.ChecksumIsRemainder` | services/order/internal/service/qr.go:123-144 | a word is the checksum if and only if it is the remainder of the message polynomial, its first 16 bits inverted and 16 zeros appended, divided by x^16+x^12+x^5+1 |
| `Crc16.DivisionUnique` | services/order/internal/service/qr.go:134-138 | that quotient and remainder are unique |
| `Crc16.BurstDetected` | services/order/internal/service/qr.go:123-144 | a change inside at most 16 consecutive bits always changes the checksum |
| `Crc16.OddErrorsDetected` | services/order/internal/service/qr.go:123-144 | so does a change of an odd number of bits |
| `Crc16.ResidueIsZeroIff` | services/order/internal/service/qr.go:123-144 | over a message and two more bytes the result is zero if and only if they are its checksum, high byte first |
| `PromptPayQr.RoundTrip` | services/order/internal/service/qr.go:87-89 | reading a printed field list gives it back if and only if every value has at most 99 characters |
| `PromptPayQr.FormatAccount` | services/order/internal/service/qr.go:95-114 | the loops drop dashes and spaces, put 0066 for the leading zero of at most ten characters and pad with zeros to 13 |
| `PromptPayQr.PayeeIdIsNormal` | services/order/internal/service/qr.go:95-114 | normalising is idempotent and gives at least 13 characters with no dash or space |
| `PromptPayQr.GeneratePromptPayQR` | services/order/internal/service/qr.go:47-69 | the statements build the payload, here written out field by field, with the checksum over everything up to "6304" |
| `PromptPayQr.Hex4Value` | services/order/internal/service/qr.go:66-69 | the four characters printed for a word are digits or capital letters A to F and read back, highest first, as the word |
| `PromptPayQr.ByteNumber` | services/order/internal/service/qr.go:64-66 | a character below 256 becomes the byte of its code |
| `PromptPayQr.AmountTextIs` | services/order/internal/service/qr.go:57-58 | the amount is printed as whole baht without leading zeros, a point and two digits, whose value is the satang |
| `PromptPayQr.ReceiverAcceptsIff` | services/order/internal/service/qr.go:64-69 | a receiver who does so accepts four hexadecimal digits after a text if and only if they are its printed checksum |
| `PromptPayQr.PayloadIsAccepted` | services/order/internal/service/qr.go:64-69 | reading the last four characters of any payload as two hexadecimal bytes, high byte first, and checking text and bytes together gives zero |
| `PromptPayQr.PayloadRoundTrip` | services/order/internal/service/qr.go:51-69 | a reader recovers every field, the payee inside tag 29 and the checksum, if and only if the payee has at most 75 characters and the amount at most 99 |
| `PromptPayQr.PayloadInjective` | services/order/internal/service/qr.go:51-69 | within those limits the payload determines payee and amount |
| `PromptPayQr.TamperingDetected` | services/order/internal/service/qr.go:64-69 | replacing one or two neighbouring characters always changes the printed checksum |
| `Commission.AcceptedSplitIsFair` | services/commission/internal/service/calculator.go:126-170 | every accepted split has nonnegative parts, none for an absent party, that add up to the fee |
| `Commission.OutcomeIs` | services/commission/internal/service/calculator.go:119-170 | for any input: if fee, agent and partner share are the amounts rounded, halves away from zero, the answer is the refusal of percentages above the fee, the refusal of a negative rest, or the split with that rest, in that order; nothing else |
| `Commission.RejectedIffRoundsOver` | services/commission/internal/service/calculator.go:164-170 | the system share before the check is at least minus one satang; a split is refused if and only if both parties are present, both shares round up and the fee is too tight |
| `Commission.SmallDepositRefused` | services/commission/internal/service/calculator.go:164-170 | half a baht at 1% and 1% out of 2% is refused |
| `Commission.CreditAndSharesArePaid` | services/order/internal/service/deposit.go:317-318 | net credit of the order plus the three shares of its commission equal the amount paid, and the two fees agree |
| `Commission.CommissionTable.RecordCommission` | services/commission/internal/service/calculator.go:221-269 | stores the split; exactly the agent's and partner's wallets grow, by their positive shares |
| `Money.RoundHalfAway` | services/commission/internal/service/calculator.go:147-158 | the nearest satang, halves away from zero |
| `Money.RoundingIsUnique` | services/commission/internal/service/calculator.go:147-158 | that description fixes the result |
| `Summaries.GroupedIsFilterAndSum` | services/commission/internal/service/aggregator.go:162-196 | the in-place grouping has exactly the nonempty groups, and each column is the filter-and-sum over the records |
| `Summaries.GroupedIs` | services/commission/internal/service/aggregator.go:162-253 | a key has a group if and only if some record of that day, type and currency belongs to its owner and pays it, or to the system; the group holds how many, the sum of their fees twice and the sum of the owner's shares |
| `Summaries.GroupedOrderIndependent` | services/commission/internal/service/aggregator.go:162-196 | the result does not depend on the order of the records |
| `SqlSummaries.SqlTwinAgrees` | services/scheduler/internal/service/summary.go:103-163 | the query pays the same commission on every key of the loop and zero on keys only it has |
| `SqlSummaries.QueryHasNoKeyTwice` | services/scheduler/internal/service/summary.go:119-163 | the three grouped branches joined by UNION ALL never have two rows of one key |
| `SqlSummaries.AsGroupsOrderIndependent` | services/scheduler/internal/service/summary.go:176-232 | upserting the rows in any order leaves the same groups |
| `SqlSummaries.SqlGroupsAt` | services/scheduler/internal/service/summary.go:119-163 | a key has a row if and only if a record is in its group; the row holds the count and the sums over that group |
| `SqlSummaries.SqlGroupsAre` | services/scheduler/internal/service/summary.go:103-163 | the same for the query, where a record counts for an agent or partner it names, whatever the share |
| `SqlSummaries.TwinsIdenticalIff` | services/scheduler/internal/service/summary.go:132-163 | query and loop give the same summaries, counts and fees included, if and only if no agent or partner share is zero |
| `SqlSummaries.SqlGroupsPay` | services/scheduler/internal/service/summary.go:103-163 | the query's groups pay every owner what the records do |
| `SummaryRuns.OnlyLatePayIsMissing` | services/scheduler/internal/service/cron.go:359 | in any such run a day's rows and its late commissions together pay every owner what its records do |
| `SummaryRuns.DayPaysIff` | services/commission/internal/repository/commission_repo.go:236-264 | however commissions are recorded and either aggregation is run, a day pays every owner what its records do if and only if those recorded since its last aggregation pay the owner nothing |
| `SummaryRuns.MonthPaysIff` | services/commission/internal/repository/commission_repo.go:318-352 | an owner's monthly commission is never more than the owner's share of all commissions created in the month, and equal to it if and only if on each day those recorded since the day's last aggregation pay the owner nothing |
| `SqlSummaries.SummaryService.AggregateCommissions` | services/scheduler/internal/service/summary.go:72-232 | the upsert loop over the query's rows, in whatever order they come, puts the query's groups in place of the rows with their keys and counts them |
| `Rollup.GroupsPayTheFees` | services/commission/internal/service/aggregator.go:162-196 | over all groups of a day the commissions add up to the day's fees |
| `Rollup.GroupedPays` | services/commission/internal/service/aggregator.go:162-196 | a day's groups pay each owner what the day's records do |
| `Rollup.UpsertTwice` | services/commission/internal/repository/commission_repo.go:236-264 | aggregating a day twice leaves the table of aggregating it once |
| `Rollup.UpsertCompletesDay` | services/commission/internal/repository/commission_repo.go:236-264 | after aggregating, the day's rows are exactly its groups if and only if no stale row of another key was there |
| `Rollup.UpsertPaysIff` | services/commission/internal/repository/commission_repo.go:236-264 | writing groups that pay what the records do makes the day pay it if and only if the rows of other keys left there sum to zero |
| `Rollup.UpsertKeepsOtherDays` | services/commission/internal/repository/commission_repo.go:236-264 | no other day changes |
| `Rollup.MonthlySummaryIsRawSum` | services/commission/internal/repository/commission_repo.go:318-352 | if each day's rows pay an owner what the day's records do, whoever wrote them, the owner's monthly commission is the owner's share of all commissions created in the month |
| `Rollup.Aggregator.AggregateDaily` | services/commission/internal/service/aggregator.go:124-213 | fetch, group and upsert leave the table with the day's groups in place, whatever the map order; a day without records changes nothing |
| `Rollup.Groups.Add` | services/commission/internal/service/aggregator.go:225-253 | the in-place update of one group |
| `Calendar.MonthsTile` | services/scheduler/internal/service/partition.go:168-187 | each month's range ends where the next begins |
| `Calendar.DateInOneMonth` | services/scheduler/internal/service/partition.go:168-187 | every date lies in exactly one month's range |
| `Calendar.DayNumberIsCivil` | services/scheduler/internal/service/partition.go:168-187 | the day number is that of the Gregorian calendar, by the closed formula that counts years from March |
| `Calendar.AddMonthsLands` | services/scheduler/internal/service/partition.go:95-100 | `AddDate(0,k,0)` is the one date day-1 days after the target month begins; it lands in that month if and only if the month has the day, else in the next |
| `Calendar.EarlyDaysDoNotSpill` | services/scheduler/internal/service/partition.go:95-100 | from days 1 to 28 the same day of the target month is reached |
| `Calendar.JanuaryEndSpills` | services/scheduler/internal/service/partition.go:95-100 | one month after 30 January 2026 is 2 March |
| `PartitionNames.ParseInvertsName` | services/scheduler/internal/service/archive.go:301-321 | parsing a printed partition name gives back its year and month, for all of them |
| `PartitionNames.NameInjective` | services/scheduler/internal/service/partition.go:168-176 | different tables or months have different names |
| `PartitionNames.TrailingTextIsIgnored` | services/scheduler/internal/service/archive.go:301-321 | a printed partition name followed by any text reads as the plain one |
| `PartitionNames.AcceptedNames` | services/scheduler/internal/service/archive.go:301-321 | a name reads as a year and month if and only if it is the table, a signed number, `_`, a number of at most two characters from 1 to 12, and text that does not lengthen it, with blanks allowed before each number |
| `Partitions.Scheduler.CheckPartitions` | services/scheduler/internal/service/partition.go:95-147 | exactly next month's partition of every table for which no call fails is added, and success is reported if and only if no call failed |
| `Partitions.Scheduler.CreateFuturePartitions` | services/scheduler/internal/service/partition.go:216-265 | the same for the partitions of the three months ahead |
| `Partitions.Scheduler.FindOldPartitions` | services/scheduler/internal/service/archive.go:162-209 | fails if and only if the query does; else exactly the names that read as older than the cutoff, each once |
| `Partitions.Scheduler.ArchiveOldPartitions` | services/scheduler/internal/service/archive.go:97-145 | query, export, detach and drop, per table and per partition, with each step allowed to fail and each export overwriting the older one; it reports success only if every table was listed and nothing old of it is left, and whenever all that reads as old is an attached partition of its table with every step working |
| `Partitions.CutoffNotAhead` | services/scheduler/internal/service/archive.go:97-102 | the cutoff never lies after the current month if and only if retention is not negative |
| `Partitions.ArchiveDropsIff` | services/scheduler/internal/service/archive.go:97-287 | a call detaches a live partition if and only if its month precedes the one reached by going back the months of retention, one later when that month lacks the day, and listing, export and detach work; and drops it if and only if the drop works too |
| `Partitions.ArchiveDropsOnlyOld` | services/scheduler/internal/service/archive.go:97-209 | a partition leaves only when every date of its month precedes the cutoff, in a past month; there is then a dump of it if and only if `pg_dump` exited zero in this call |
| `Partitions.DropWithoutDump` | services/scheduler/internal/service/archive.go:225-287 | an old partition is dropped with no dump anywhere if and only if `pg_dump` exits non-zero while bash, the opening of the file, `gzip`, the query, the detach and the drop work, whatever was dumped before |
| `Partitions.ExportLeavesDumpIff` | services/scheduler/internal/service/archive.go:225-245 | an export leaves a complete dump if and only if pg_dump and gzip both exit zero, unless bash does not start or cannot open the file: then what was there stays |
| `Partitions.DroppedHasDumpIff` | services/scheduler/internal/service/archive.go:225-287 | over any run, of a partition that a call has dropped there is a dump at the end if and only if `pg_dump` exited zero in that call |
| `Partitions.RunKeeps` | services/scheduler/internal/service/archive.go:97-209 | over any run with a clock that does not go back, nothing of the current or a future month is detached |
| `Partitions.PastMonthStaysGone` | services/scheduler/internal/service/partition.go:95-147 | no later call brings an archived month back |
| `Partitions.PartitionStays` | services/scheduler/internal/service/partition.go:95-147 | after a successful check on a day 1 to 28 (or any day the next month has), the next month's partition exists from before it begins until an archive call beyond it |
| `Lockout.GuessesAreBounded` | services/auth/internal/service/auth.go:374-451 | in any time T without a correct code at most max + T / lock codes are checked, whatever came before |
| `Lockout.BoundIsReached` | services/auth/internal/service/auth.go:374-451 | that bound is reached |
| `AuthRuns.SessionCodesBounded` | services/auth/internal/service/auth.go:374-451 | over any calls for any accounts and sessions within T seconds, at most 3 + T / 300 codes are checked against a session to which no correct one is given |
| `AuthRuns.AccountFailuresBounded` | services/auth/internal/service/auth.go:194-252 | over any calls within T seconds, at most 5 + T / 900 failures are recorded for an account that is not logged in to |
| `AuthRuns.AddressTriesBounded` | services/auth/internal/service/auth.go:134-170 | over any calls within T seconds, the limit lets at most 21 + 11 T / 3600 unsuccessful logins from an address through, 10 + 11 T / 3600 if it has no counter yet |
| `LoginLimit.BelowZeroIff` | services/auth/internal/service/auth.go:230-233 | a successful login leaves the counter below zero, with no expiry, if and only if it expired meanwhile or was below zero before |
| `AuthRuns.AcceptedWithinADay` | services/auth/internal/service/auth.go:292-359 | in any run a session is accepted only within 24 hours of the successful login that made it, from the address and with the agent of that login unless one side is empty, and never once ended |
| `AuthRuns.EndedStaysEnded` | services/auth/internal/service/auth.go:292-359 | no later call brings an ended session back |
| `AuthRuns.CodesOutliveSession` | services/auth/internal/service/auth.go:374-451 | for any session, a code accepted before its end keeps codes being checked after it, while the session is no longer accepted |
| `AuthRuns.KeyLivesIff` | services/auth/internal/service/auth.go:374-451 | in any run a session's key is alive if and only if the session was not ended and its login or last checked code is less than 24 hours old |
| `AuthService.AuthService.Login` | services/auth/internal/service/auth.go:133-276 | the exact condition of each of the eight outcomes, the limit on the address first; every call counts a try for its address, which expires an hour after the first, and a success takes it back, stores a session for this account, address and agent that ends after 24 hours and forgets the failures; a wrong password or code counts one and from the fifth on locks for 15 minutes, anything else leaves accounts and sessions alone; a refusal by the limit comes with the seconds to wait |
| `AuthService.AuthService.ValidateSession` | services/auth/internal/service/auth.go:292-359 | accepted if and only if alive, not past its end and bound to the same address and agent; never later than 24 hours after its login, never once ended |
| `AuthService.AuthService.ValidateTOTPForSession` | services/auth/internal/service/auth.go:374-451 | one step of the lockout: a right code clears the failures, a wrong one counts, and from the third on locks for five minutes; the stored entry gets a fresh 24 hours, the session's own end does not |
| `SmsReplay.KeyIsInjective` | services/parser/internal/service/anomaly.go:157-176 | for senders without a bar two messages share a key if and only if they are equal |
| `SmsReplay.SameKeyIff` | services/parser/internal/service/anomaly.go:164-166 | exactly which messages share a key, for all senders |
| `SmsReplay.ParserService.ProcessSMS` | services/parser/internal/service/parser.go:272-346 | when each answer is given; the same SMS passes again only if an earlier call that passed it took at least 24 hours less 6 minutes |
| `SmsReplay.ParserService.IsDuplicate` | services/parser/internal/service/anomaly.go:157-204 | set-if-absent: a live key is a duplicate, else the key lives 24 hours from now |
| `SmsReplay.ProcessAll` | services/parser/internal/service/parser.go:283-346 | over any run of quick calls each SMS passes at most once |
| `SmsReplay.SlowCallPassesTwice` | services/parser/internal/service/parser.go:283-346 | a call of exactly 24 hours less 6 minutes lets its SMS pass again |
| `RedisLock.Redis.AcquireLock` | pkg/database/redis.go:114-137 | succeeds if and only if no live value is there; a holder within its time to live owns the key |
| `RedisLock.Redis.ReleaseLock` | pkg/database/redis.go:160-203 | deletes only the caller's own value: every other holder within its time keeps its key |
| `RedisLock.AtMostOneInTime` | pkg/database/redis.go:114-137 | of two holders of a key inside their sections at once, at most one is within its time to live |

## Left out

- HTTP handlers, configuration, logging, Telegram alerts, HMAC signing, QR image rendering, EasySlip calls and the web admin: plumbing or foreign code.
- Redis, database and network failures, except the failing create of an order, the failing steps of partition calls and the failing webhook deliveries.
- Webhook receipts' time to live (7 and 30 days), a crash between claim and re-enqueue, and a second `SendWebhook` for the same key.
- Float scores and float64 columns: amounts are whole satang and exact. An amount with parts of a satang is not modelled.
- The bank service's Redis daily counter: nothing reads it. Re-enabling accounts and changing mappings or priorities by an administrator are not steps of the model.
- `buildAccountStatus` and `remainingCapacity`: clamped subtraction, easy members.
- In `DepositOrders` a call is one event. `Settlement` takes completions and expiries apart, and `Matching` creates and unique-amount matches, each on its own; in `Settlement` the removals from the two sorted sets, which may be repeated, are left out.
- The wallet and withdrawal services: their source is not part of this model. The wallet credit of a deposit is counted with its completion.
- The rate counter of `CheckRateAnomaly`, anti-spoof scores, SMS text parsing, role masks and pagination: easy members or a regular-expression engine.
- SHA-256, bcrypt and TOTP codes: the SMS hash is taken as injective, the others are answers from outside. `ProcessSMS` after Redis failed its duplicate check is not modelled.
- The runs in `AuthRuns` are of whole calls, one after another; a session stored by an overlapping code check after a logout is not modelled.
- The Redis cache in front of the daily summaries, and the volume columns of the monthly summary. The monthly sum adds across currencies, as the query does.
- PartitionNames.AcceptedNames: the parser's refusal of years beyond 64 bits is not modelled.
- Exports of one name that run at the same time, and two exports of one name in one call with different exit statuses.
- The server's time zone against UTC, and the cron overlap guard.
- In `SummaryRuns` an aggregation is one event: a commission recorded between its query and its upserts counts as recorded after it, and overlapping aggregations of one day are not modelled.
- An empty cached pool is an empty map, where Redis has no key.
- Agreement between services on Redis keys: each service is modelled against its own keys.
- A lock acquired with a time to live of zero, which Redis keeps for ever.
