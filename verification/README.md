# StellarGate, modelled and proved

StellarGate is a payment gateway on the Stellar network. A merchant creates a payment intent with a
unique memo; a stream listener and a poller watch the gateway account and reconcile every payment
that carries the memo; a sweeper expires intents that were not paid in time; webhooks tell the
merchant. This project models that money path and what it rests on, and proves what holds over all
runs. `dafny verify dfyconfig.toml` checks everything.

| file | models |
|---|---|
| Settlement.dfy, SettlementTheorems.dfy | any number of reconcilers, the sweeper, failures and restarts, interleaved one database statement at a time |
| PaidAmount.dfy | when the stored amount is the ledger total |
| Replay.dfy | sequential reconciliation: what order and repetition can change |
| Horizon.dfy, Db.dfy, Expiry.dfy | matching, deciding, notifying; the statements on the shared tables; the sweep |
| Poller.dfy, CursorProtocol.dfy | poll cycles as methods; the persisted cursor under crashes as a state machine on top of settlement |
| Sse.dfy | server-sent events over a byte buffer |
| Strkey.dfy, StrkeyAddresses.dfy, FeedbackRegister.dfy | account addresses: base32 (section 6 of RFC 4648) and CRC16-XModem |
| Provenance.dfy | where credits and expiries come from, on the fields of records and rows |
| Money.dfy | decimal amounts and stroops |
| Cursors.dfy, Paging.dfy | page cursors, offset and keyset pages, and a client that follows them |
| Idempotency.dfy | concurrent creates with the same idempotency key |
| Webhooks.dfy, Redrive.dfy | the inline retry loop and its budget; the redrive worker |
| Supervisor.dfy, Retention.dfy | the task supervisor and its counters; batched pruning |

How to read the main results:

- A *run* is a finite sequence of states, each following from the one before by one enabled action.
  A theorem about a run and an index holds for every state of every run.
- Each SQL statement is one atomic step. Between two statements of one task anything else may happen.
- Time is a parameter of each step; the steps of a run need not agree on it, except in the redrive worker.

Where the code does less than its documentation says, the code is modelled, a lemma shows the case, and
another says exactly when it arises:

| what can go wrong | shown by | exactly when |
|---|---|---|
| a crash leaves a paid intent open | `CrashLosesSettlement` | `LostExactly`, `LossesAre` |
| the stored amount falls behind the ledger | `PaidAmountCanGoDown` | `StoredIsTotalIff` |
| the order of payments decides the stored amount | `OrderCanMatter` | `OrderDecidesAmount` |
| a payment is skipped before the first cursor | `FirstCycleMaySkip` | `SkippedIff` |
| one idempotency key mints two payments | `LookupInBetweenMintsTwice` | `RemovalMintsTwiceIff` |
| the grace check passes too much | `HugeTimeoutIsAccepted` | `GraceCheckIsSoundIff` |
| a redrive meets a running delivery | `TightGraceMeets` | `NeverSentTwiceAtOnceIff` |
| an event end of the standard is not found | `LfThenCrlfIsNotFound`, `LoneCrIsNotFound` | `StandardEndIsFoundIff` |

## Model

| member | source | states |
|---|---|---|
| Settlement.InvHolds | src/horizon.rs:554-695 | every state of every interleaving of new intents, deliveries, reconciler statements, sweeps, failures and restarts satisfies the invariant: consistent tables, what each reconciler may rely on at its next statement, what each row's status says against the ledger, one terminal notification per closed intent, and exactly which open intents are lost |
| Settlement.InvKept | src/horizon.rs:554-695 | each single action keeps that invariant, from any state that satisfies it |
| Settlement.ContinueOk | src/horizon.rs:554-637 | after each statement a reconciler knows what its next one needs: the row it read still has that intent, the payment still pays it, the credit is recorded, the total it decided on is covered by the ledger |
| Settlement.EffectGrows | src/db.rs:737-786 | no statement of a reconciler loses a credit, lowers a total or changes what an intent asks for |
| Settlement.RecordingKeepsWatch | src/horizon.rs:581-593 | a new credit makes its reconciler responsible for the intent and wipes out an earlier loss; a repeated one changes nothing |
| Settlement.ResummingKeepsWatch | src/horizon.rs:595-623 | the re-read total decides `completed` whenever it covers the price, so responsibility is not lost at that step |
| Settlement.UpdatingKeepsWatch | src/db.rs:737-758 | a stale `underpaid` write never discharges another reconciler's responsibility |
| Settlement.SweepCounts | src/expiry.rs:26-33 | a sweep commits exactly one expiry notification for each row it swept and none for any other |
| SettlementTheorems.LostExactly | src/horizon.rs:554-637 | in every state of every run, with any failures and restarts, an open intent is lost if and only if its ledger total covers its price and nobody in flight is bound to complete it |
| SettlementTheorems.LossesAre | src/horizon.rs:581-626 | an intent becomes lost exactly when a failure or a restart kills its last responsible reconciler while the ledger covers it, and stops being lost exactly when a new transaction is credited to it, whose reconciler is then responsible |
| SettlementTheorems.NoLostSettlement | src/horizon.rs:554-637 | so a covered intent that is not lost has a reconciler in flight that has credited a transaction and is bound to write `completed` |
| SettlementTheorems.NoLostSettlementWithoutFailure | src/horizon.rs:554-637 | without crashes and database errors every covered open intent has one |
| SettlementTheorems.NothingLost | src/horizon.rs:554-637 | without crashes and database errors nothing is ever lost |
| SettlementTheorems.QuiescentMeansUnpaid | src/horizon.rs:554-637 | with no reconciler in flight, an intent that is still open has a ledger total below its price if and only if it is not lost |
| SettlementTheorems.ResponsibleStays | src/horizon.rs:595-637 | no other task's statement takes the responsibility away |
| SettlementTheorems.ResponsibleFinishes | src/horizon.rs:595-695 | the responsible reconciler needs at most two more statements, which write `completed` with an amount that covers the price and commit one terminal notification whose amounts add up |
| SettlementTheorems.TerminalRowIsFinalForever | src/db.rs:737-758 | a completed or expired row is the same in every later state of the run |
| SettlementTheorems.OneTerminalNotification | src/horizon.rs:647-695 | in every state the number of terminal notifications committed for an intent is 1 if it is closed and 0 otherwise, and the amounts in every settlement notification add up |
| SettlementTheorems.StatusesAreBacked | src/horizon.rs:595-695 | `completed` means price <= paid_amount <= ledger total, `underpaid` means 0 < paid_amount < price, a stored transaction is in the ledger, and no transaction is credited twice |
| SettlementTheorems.PaidIsSomePastTotal | src/horizon.rs:595-623 | the stored amount is a ledger total of this or an earlier state, and so is the amount any reconciler is about to write |
| SettlementTheorems.PaidAmountCanGoDown | src/horizon.rs:595-656 | it need not be the latest: for every intent and any two transactions that do not cover it, an interleaving without failures takes the stored amount from their sum back to the first alone |
| PaidAmount.StoredIsTotalIff | src/horizon.rs:595-656 | in every run, an accepted write stores the ledger total if and only if nothing was credited to the intent between its reconciler's re-sum and the write |
| PaidAmount.SoloStoresTotal | src/horizon.rs:595-656 | if, without failures, at most one reconciler of an intent is ever between its credit and its write, then whenever none is, the open intent's row stores exactly the ledger total |
| PaidAmount.UpToDateKept | src/horizon.rs:595-656 | the invariant behind it, kept by every action: whoever is about to write carries the total, and when nobody is, the row has it |
| PaidAmount.TotalGrowsIff | src/db.rs:791-799 | a total is the same at two points of a run if and only if nothing was credited to the intent in between |
| SettlementTheorems.CrashLosesSettlement | src/horizon.rs:591-626 | losses do happen: for every intent and every covering payment, a restart between the ledger row and the status leaves the intent open and lost, and the same payment seen again changes nothing |
| SettlementTheorems.RestartChangesNothing | src/db.rs:291-317 | a restart in any reachable state, also in the middle of reconciliations, changes no table |
| SettlementTheorems.ReSightingIsNoop | src/db.rs:769-786 | a transaction whose hash is in the ledger for an intent changes nothing and announces nothing when it is seen again, whatever amount the record carries |
| SettlementTheorems.BackfillTotal | src/db.rs:291-317 | the backfill adds to each intent exactly its own missing transaction, once, and touches no other total |
| SettlementTheorems.LegacyRowTotal | src/db.rs:291-317 | for a row from before the ledger existed the total becomes the stored cumulative amount |
| SettlementTheorems.BackfillIsIdempotent | src/db.rs:291-317 | a second backfill inserts nothing |
| Replay.VerdictAgrees | src/horizon.rs:210-271 | on a first sighting, what `verify` says before the credit is the status, the amount, the hash and the event that are written and announced after it |
| Replay.FirstSighting | src/horizon.rs:554-637 | the whole of a reconciliation of an unseen transaction: one credit, one status decided on the new total, one notification |
| Replay.WhatIsStored | src/horizon.rs:554-637 | after any sequence of sightings of payments for an intent, repeats allowed, the status is `completed` exactly when the sum over distinct transactions reaches the price, and the stored amount and the ledger total are that sum up to the first sighting that gets there |
| Replay.FirstSumIs | src/horizon.rs:554-637 | that amount is the sum over the shortest prefix that reaches the price, or over everything when none does |
| Replay.OrderDecidesAmount | src/horizon.rs:554-637 | two sequences with the same transactions, in any order and with any repeats, end in the same status, and in the same amount and ledger total if and only if they reach the price with the same sum; below the price they always agree |
| Replay.OrderCanMatter | src/horizon.rs:554-637 | for every payment that covers the price alone and every other that does not, the two orders store different amounts: after the first one the intent is closed and the other is never credited |
| Horizon.ReconcilePayment | src/horizon.rs:554-637 | run alone, the method on the database has the result, the tables and the notifications of the step-by-step reconciler |
| Horizon.VerifyIff | src/horizon.rs:210-271 | on the fields: `verify` answers exactly for a successful payment to the intent's destination under its text memo, with the asset code and the issuer that the intent names (or native, for XLM in any case without an issuer), and readable amounts; what was paid before plays no part |
| Provenance.OnlyAskedForIsCredited | src/horizon.rs:554-593 | in every run, whatever is credited to an intent is a payment with those fields, and its credit is the amount it carries under its transaction's hash |
| Provenance.EveryCreditWasPaid | src/horizon.rs:581-593 | and every row of the ledger is the credit of such a payment, made at an earlier step |
| Provenance.OneIssuerOnly | src/horizon.rs:233-247 | of two payments that differ in their issuer only, at most one is ever credited to an intent that names one, in any run |
| Replay.VerdictIs | src/horizon.rs:246-270 | for such a payment the verdict compares the cumulative total, which does not wrap when it fits in 64 bits, with the price |
| Horizon.SettledPayloadAddsUp | src/webhook.rs:75-106 | the amount, paid_amount and delta strings of a settlement notification parse back to stroops that add up, and no delta is lost or invented on the way through strings |
| Horizon.SettledPayloadNames | src/webhook.rs:75-106 | the notification names the intent's id, merchant, asset and issuer, the transaction, and the status and event that the total calls for |
| Horizon.AnnouncedAmount | src/webhook.rs:76-79 | a readable price is announced in canonical form and keeps its value; an unreadable legacy one is announced as it is stored |
| Db.Database.FindPendingByMemo | src/db.rs:713-727 | a row with this memo that is pending or underpaid and not past its expiry; none exactly when there is no such row |
| Db.FindPendingFinds | src/db.rs:713-727 | the same on the fields, for the look-up that the interleaved system uses |
| Db.Database.SumProcessedStroops | src/db.rs:791-799 | the loop over the ledger adds up exactly this intent's credits, and fails exactly when their sum leaves 64 bits |
| Db.Database.RecordProcessedTx | src/db.rs:769-786 | insert if absent: says whether this was the first sighting and leaves an existing credit as it is |
| Db.Database.UpdatePaymentStatus | src/db.rs:737-758 | the guarded update: it happens, and says so, exactly when the row is still watchable |
| Db.Database.ExpireOverdue | src/db.rs:690-711 | one statement expires exactly the oldest rows that are pending or underpaid and at or past their expiry, at most a batch of them, returns each once, changes nothing else in them and no other row, and leaves no such row when the batch is not full |
| Db.SweepIsDue | src/db.rs:690-711 | the same on the fields, for the sweep action of the interleaved system |
| Db.Database.CreatePayment | src/db.rs:428-459 | refused exactly for an unreadable amount or a taken id or memo; otherwise the row is a new intent as settlement expects it, with every argument in its place, the same value in canonical form, and the expiry after the given time to live |
| Db.Database.Backfill | src/db.rs:291-317 | the loop inserts only missing legacy transactions, all of them, and none twice, in whatever order the rows are read |
| Db.LegacyCreditIff | src/db.rs:295-315 | on the fields: a row is backfilled exactly when it stores a non-empty transaction and a readable amount, with that transaction and amount |
| Db.RecordEffect | src/db.rs:769-799 | recording adds the amount to this intent's total if and only if the transaction is new, and to no other total |
| Db.FindPendingIs | src/db.rs:713-727 | with unique memos the look-up has only one possible answer |
| Expiry.SweepOnce | src/expiry.rs:26-33 | one sweep is exactly the sweep action of the interleaved system, expires only what is due, and announces each expired row once, as expired and in order |
| Provenance.ExpiresWhenDue | src/expiry.rs:26-33 | a row becomes `expired` only in a sweep at or after its expiry, while it was pending or underpaid; a sweep leaves every row alone that has time left |
| Provenance.ExpiredInRunWhenDue | src/expiry.rs:26-33 | and so at every step of every run |
| Poller.HorizonPoller.StartingCursor | src/horizon.rs:431-466 | the persisted cursor; without one, the end of the account's history when its latest record has a token, persisted at once; else the beginning and nothing persisted |
| Poller.HorizonPoller.HandlePage | src/horizon.rs:503-512 | the page's records are reconciled in order, and the cursor ends just past the last record with a token, or stays when there is none |
| Poller.HorizonPoller.PollOnce | src/horizon.rs:486-547 | the tables are those after reconciling what was handed on, one record after another; when every record carries a token, a cycle hands on exactly the records between its old and its new cursor, and with n of them waiting it advances by min(n, 5000) in min(25, n/200 + 1) requests; a failed request keeps the pages already checkpointed; a first cycle over an account with history hands nothing on |
| Poller.HorizonPoller.PollCycles | src/horizon.rs:468-547 | k cycles over tokened records, without failing requests, hand on exactly the next min(n, 5000 k) of n waiting records and end there, so they catch up if and only if n <= 5000 k |
| Poller.RunAloneConsistent | src/horizon.rs:554-637 | a reconciliation leaves the tables consistent, so that the next record of the page can be handled |
| CursorProtocol.NoRecordSkipped | src/horizon.rs:431-547 | in every history of cycles, crashes between any two steps and concurrent settlement, every record from the baseline up to the persisted cursor has been handed to `reconcile_payment`; when the cursor was first persisted as a checkpoint, every record behind it |
| CursorProtocol.SkippedIff | src/horizon.rs:431-547 | a record behind the cursor is never handed on if and only if the first cursor was a saved baseline, the record lies below it, and no earlier cycle had handed it on |
| CursorProtocol.EarlyWasHanded | src/horizon.rs:431-466 | what an earlier cycle had handed on was handed on before any cursor was persisted |
| CursorProtocol.BaselineIsLatest | src/horizon.rs:431-466 | in every history a saved baseline is the token of the latest payment at the step that asked for it |
| CursorProtocol.CursorNeverMovesBack | src/horizon.rs:487-525 | the persisted cursor never moves back |
| CursorProtocol.NeverCreditedTwice | src/db.rs:769-786 | however often records are redelivered, no transaction is credited twice to an intent |
| CursorProtocol.CursorInvKept | src/horizon.rs:486-547 | every step of the poller, every crash and every step of another task keeps the cursor invariant |
| CursorProtocol.FirstCycleMaySkip | src/horizon.rs:431-466 | such records exist: a payment that arrives while the very first cycle fails is skipped by the next baseline |
| Sse.StreamOnce | src/horizon.rs:899-936 | for every way of cutting the input into chunks, what is handed on, the reconnect cursor and the leftover depend only on the bytes received |
| Sse.SplitConcat | src/horizon.rs:923-933 | splitting off events and adding input commute: a buffer's events, then those of its leftover with more input, are the events of the whole |
| Sse.EndIsStable | src/horizon.rs:942-949 | more input never moves an event end that has been found |
| Sse.FindEventEndIsFirst | src/horizon.rs:942-949 | the end found is just past the first LF LF or CR LF CR LF, whichever comes first |
| Sse.SplitConserves | src/horizon.rs:926-932 | the events followed by the leftover are the input, and the leftover holds no complete event |
| Sse.BlocksAreEvents | src/horizon.rs:926-932 | every event handed on ends in a delimiter and holds no earlier one |
| Sse.ParseSseBlock | src/horizon.rs:810-826 | the loop over lines reads the last event name, the last id and the data lines joined by line feeds |
| Sse.SpaceIsOptional | src/horizon.rs:816-822 | a field's value is what follows the colon, less one leading space if there is one |
| Sse.JoinIs | src/horizon.rs:824-824 | data lines are joined by line feeds |
| Sse.HandleStreamEvent | src/horizon.rs:954-981 | the data of an event is handed on exactly when it is not empty and the event is not the greeting; the cursor moves to the event's id either way |
| Sse.MessageIsHandedIff | src/horizon.rs:954-981 | for a message as sent: its data is handed on exactly when there is any and it is not a greeting, and its id, if any, becomes the cursor |
| Sse.EncodeRoundTrip | src/horizon.rs:810-826 | a message written with either line ending reads back as itself |
| Sse.StreamDeliversMessages | src/horizon.rs:899-936 | a stream of messages, line endings mixed between messages, delivers exactly the data of those that have any and are not greetings, in order, and ends with the last id sent, for every cutting into chunks |
| Sse.FoundIsStandard | src/horizon.rs:942-949 | every event end that is found is one of section 9.2 of the WHATWG HTML Standard, whose lines end in CR LF, LF or CR |
| Sse.StandardEndIsFoundIff | src/horizon.rs:942-949 | the standard's first event end is the one found if and only if its blank line is a plain LF, or it and the line before it both end in CR LF |
| Sse.LoneCrIsNotFound | src/horizon.rs:942-949 | in an input without line feeds no event end is found, although two carriage returns are one |
| Sse.LfThenCrlfIsNotFound | src/horizon.rs:942-949 | an input without lone carriage returns whose event end is not found |
| Strkey.ValidateAccountId | src/strkey.rs:59-76 | accepts exactly the 56-character base32 strings that spell the account version byte and end in their own CRC in little-endian order; each failure is reported as the first check that failed |
| StrkeyAddresses.AddressStartsWithG | src/strkey.rs:15-17 | every accepted address starts with G |
| StrkeyAddresses.WrongVersionIff | src/strkey.rs:67-69 | the version is wrong exactly for a well-formed string whose first eight bits are not 00110000 |
| StrkeyAddresses.ByteLenIs | src/strkey.rs:60-62 | the length that is checked is that of the string's UTF-8 encoding |
| StrkeyAddresses.ValidIffOfSomeKey | src/strkey.rs:59-76 | the accepted addresses are exactly the encodings of a 32-byte key with the version byte before it and the checksum, low byte first, after it |
| StrkeyAddresses.OneAddressPerKey | src/strkey.rs:59-96 | every key has exactly one address, it is accepted, and no other key has it |
| Strkey.Base32Decode | src/strkey.rs:80-96 | the bit buffer regroups the 5-bit digits into bytes, first bit first, and fails exactly on a character outside the alphabet |
| Strkey.DigitIsPosition | src/strkey.rs:81-86 | a character's digit is its position in the alphabet, and characters outside it have none |
| Strkey.DigitBitsInjective | src/strkey.rs:80-96 | different strings over the alphabet have different bits |
| Strkey.ByteBitsInjective | src/strkey.rs:80-96 | different byte strings have different bits |
| Strkey.CrcByte | src/strkey.rs:102-110 | one turn of the outer loop feeds the byte's eight bits, first bit first, through the register |
| Strkey.Crc16Xmodem | src/strkey.rs:100-113 | the checksum is the feedback register after all bits of the data |
| StrkeyAddresses.CheckValue | src/strkey.rs:98-113 | the checksum of the digits 1 to 9 is the published check value 31C3 (hexadecimal) of CRC-16/XMODEM |
| Strkey.CrcLinear | src/strkey.rs:100-113 | the checksum of a bitwise difference is the difference of the checksums |
| Strkey.CrcPadding | src/strkey.rs:100-113 | zero bits before a difference leave its checksum, and zero bits after it never bring a non-zero checksum to zero |
| Strkey.AdjacentCorruptionIsCaught | src/strkey.rs:59-113 | every corruption of a valid address that is confined to two neighbouring characters is rejected, also across the border between payload and checksum |
| Strkey.TypoIsCaught | src/strkey.rs:59-113 | every replacement of one character is rejected |
| Strkey.TranspositionIsCaught | src/strkey.rs:59-113 | every swap of two different neighbours is rejected |
| FeedbackRegister.FoldLinear | src/strkey.rs:100-113 | a register whose step is linear is linear in start value and input together |
| FeedbackRegister.ShiftsFeedBits | src/strkey.rs:102-110 | mixing a byte into the top and shifting is the same as feeding its bits one at a time |
| Money.ParseStroops | src/money.rs:28-75 | the padding loop and the checked arithmetic compute the value described below |
| Money.ParseIffDenotes | src/money.rs:28-75 | parsing gives n exactly when the trimmed string is digits, optionally with a point and digits, at least one digit and at most 7 decimals, of value n with 0 < n <= i64::MAX |
| Money.ParsePrint | src/money.rs:28-96 | printing an i64 and parsing it gives it back when it is positive and is refused otherwise |
| Money.CanonicalIsFixpoint | src/money.rs:28-96 | the canonical form is canonical and keeps the value |
| Money.CanonicalIffSameAmount | src/money.rs:28-96 | two accepted strings have the same canonical form exactly when they denote the same amount |
| Money.PrintIsMinimal | src/money.rs:86-96 | no string that is accepted for an amount has fewer decimals than the printed form, and none with a digit before the point is shorter |
| Money.TrimIs | src/money.rs:28-32 | trimming takes off white space at both ends, all of it and nothing else |
| Money.WhiteSpaceIs | src/money.rs:29-29 | white space is what Unicode lists as such, 25 characters |
| Money.DocumentedAmounts | src/money.rs:19-27 | the documented examples, accepted and refused |
| Cursors.CursorRoundTrip | src/api/payments.rs:546-555 | a page cursor reads back as its key if and only if the timestamp holds no tab |
| Cursors.AcceptedCursorIs | src/api/payments.rs:550-555 | a cursor is accepted as a key exactly when, up to the case of its hex digits, it is the encoding of that key |
| Cursors.HexDecodeIff | src/api/payments.rs:550-551 | hex decoding accepts exactly the encodings, in either letter case |
| Cursors.Utf8Concat | src/api/payments.rs:547-552 | text joined to text is text, so an encoded key survives the UTF-8 check |
| Cursors.Utf8Iff | src/api/payments.rs:552-552 | the text that is accepted is exactly that which encodes scalar values by RFC 3629 |
| Paging.OrderedIs | src/db.rs:585-655 | the listing order enumerates the selected rows exactly once, strictly descending in (created_at, id) |
| Paging.OrderedIsUnique | src/db.rs:585-655 | and is the only such enumeration |
| Paging.TextLessIff | src/db.rs:585-655 | the order of text: the first byte that differs decides, and a proper prefix comes first |
| Paging.NewestFirst | src/db.rs:585-655 | a walk goes from the newest row to the oldest, and among rows of one time from the highest id down |
| Paging.WalkReturnsWanted | src/db.rs:585-655 | a walk returns nothing of another merchant, and nothing whose status was not the one asked for |
| Paging.LimitIs | src/api/payments.rs:475-475 | 20 rows unless asked otherwise, at least 1 and at most 100 |
| Paging.ListFailsIff | src/api/payments.rs:462-480 | a request fails exactly for a filter that names no status, or else for a cursor that does not read back |
| Paging.AfterIsDrop | src/db.rs:610-620 | the rows after the m-th key are the list without its first m rows |
| Paging.NextResumes | src/api/payments.rs:477-495 | the next request resumes exactly after the last row of a full page |
| Paging.WalkDescends | src/api/payments.rs:475-543 | following `next_cursor` goes strictly down in (created_at, id), whatever is inserted, deleted or changes status between requests |
| Paging.NoPaymentTwice | src/api/payments.rs:475-543 | so no payment is returned twice |
| Paging.WalkIsComplete | src/api/payments.rs:475-543 | a walk from the start that reaches the end returns every payment that was in the table and matched the filter at every request |
| Paging.WalkIsTheList | src/api/payments.rs:475-543 | with no changes in between, the pages add up to the list from the first page's offset on, in a number of requests that is stated exactly |
| Paging.OffsetThenCursors | src/api/payments.rs:498-543 | a first page at offset k and then cursors: exactly the full list without its first k rows |
| Idempotency.AtMostOnePayment | src/api/payments.rs:297-358 | in every clean run, also over deaths and recoveries, a key has at most one payment |
| Idempotency.AnswersAgree | src/api/payments.rs:297-358 | every successful answer for a key carries the id of that payment |
| Idempotency.WaitsFiftyTimes | src/api/payments.rs:321-338 | a request that lost the race looks for the winner's payment 50 times before it gives up |
| Idempotency.ExactlyOnePayment | src/api/payments.rs:297-358 | if nobody died and all requests are over, a key that was used has exactly one payment |
| Idempotency.RemovalMintsTwiceIff | src/api/payments.rs:297-358 | from every state that clean runs reach, removing a mapping opens the way to a second payment of some key if and only if the removal is not clean: the mapping's request has not died, or another one is between its insert and its re-read |
| Idempotency.UncleanRemovalMintsTwice | src/api/payments.rs:297-358 | every unclean removal has a continuation, itself clean, in which that key gets two payments |
| Idempotency.QuietRunIsClean | src/api/payments.rs:297-312 | a run in which no request looks its key up between another's reservation and its insert, nobody dies and nothing is pruned is clean |
| Idempotency.LookupInBetweenMintsTwice | src/api/payments.rs:297-312 | unclean removals happen without any death: for every key there is a run in which a look-up in between deletes the live mapping and two payments are minted |
| Idempotency.InvKept | src/db.rs:462-503 | each clean step keeps every drawn id to one request and every minted id mapped |
| Webhooks.RetryDelay | src/webhook.rs:247-259 | every draw gives a delay between half the ceiling, rounded down, and the ceiling |
| Webhooks.CeilingGrows | src/webhook.rs:247-259 | the ceiling never falls from one retry to the next and never exceeds the cap |
| Webhooks.CeilingDoubles | src/webhook.rs:247-259 | the first ceiling is the base delay, capped; each later one is twice the one before, capped, until the factor fills 32 bits |
| Webhooks.EveryDelayIsDrawn | src/webhook.rs:247-259 | every delay in that range is some draw's |
| Webhooks.CeilingWithinStep | src/webhook.rs:247-259 | the ceiling with its 32-bit factor is at most the step with its 64-bit factor that configuration counts |
| Webhooks.CeilingIsStep | src/config.rs:539-547 | within 32 attempts the two are equal |
| Webhooks.BudgetIsAttained | src/config.rs:535-552 | and the budget is attained: some answers and draws take all of it, to the rounding of the last second |
| Webhooks.Dispatch | src/webhook.rs:121-222 | the loop stops at the first success or after all attempts; the time it takes is that of its requests and of the delays between them, and stays within the exact budget, for every draw |
| Webhooks.WorstCaseInlineDeliverySecs | src/config.rs:535-552 | the loop computes the budget with saturation at 64 bits |
| Webhooks.SaturationLosesNothing | src/config.rs:535-552 | saturation only lowers the budget, and a result in 63 bits is exact if and only if the delays stay below a stated limit |
| Webhooks.GraceCheckIsSoundIff | src/config.rs:472-493 | for settable retries, the start-up check guarantees the budget within every accepted grace window if and only if the computed budget fits in 63 bits and the delays stay below that limit |
| Webhooks.DeliveryWithinGrace | src/config.rs:472-552 | under that condition every delivery of an accepted configuration ends within the grace window |
| Webhooks.HugeTimeoutIsAccepted | src/config.rs:477-478 | without it the cast to i64 wraps: a timeout of 2^63 seconds is accepted with no grace at all |
| Redrive.WindowNeverShrinks | src/db.rs:982-990 | the idle window is at least the grace period and never shrinks as attempts grow |
| Redrive.WindowDoubles | src/db.rs:982-987 | before the first attempt the window is the grace period; then the backoff starts at its initial value and doubles up to its maximum, for 32 doublings, but never below the grace period |
| Redrive.EligibleIff | src/db.rs:977-988 | on the fields: a row is eligible when it is not delivered, has attempts left, and has been idle since its last attempt, or since it was recorded, for the window and the jitter |
| Redrive.PassLists | src/db.rs:967-1001 | a pass lists exactly the eligible rows, as they are |
| Redrive.RedriveWrites | src/webhook.rs:334-405 | on the fields: a success ends delivered; a failure ends failed exactly when it was the last attempt; both use up an attempt; a blocked target ends failed and uses up none; no other row changes |
| Redrive.RequeueWrites | src/db.rs:1140-1164 | a bulk requeue gives the failed rows it names all their attempts back and changes nothing else |
| Redrive.RedrivesAreSpaced | src/webhook.rs:284-405 | in every run any two redrives of a row are at least the later one's window apart, whatever the jitter and whatever inline deliveries do meanwhile |
| Redrive.AttemptsAreConserved | src/webhook.rs:334-405 | between bulk requeues of a row, every HTTP redrive uses up exactly one of the attempts it has left and nothing else does, so there are at most that many |
| Redrive.NeverSentTwiceAtOnceIff | src/config.rs:472-478 | no pass ever lists a row whose inline delivery is still running, over every run, if and only if a delivery takes less than the grace period |
| Redrive.StaysApart | src/db.rs:967-1001 | the running deliveries and the listed rows stay apart in every state of every such run |
| Redrive.TightGraceMeets | src/config.rs:478-478 | with a delivery time equal to the grace period, which the start-up check accepts, a pass can list the row at the very instant at which its delivery must end |
| Redrive.DeliveredIsFinal | src/db.rs:967-1001 | a delivered row whose own inline delivery is over is not picked up or written again |
| Redrive.SuccessIsFinal | src/webhook.rs:334-405 | in every run a redrive that succeeds is the last thing that happens to its row |
| Redrive.BlockedComesBack | src/webhook.rs:338-350 | a redrive blocked by the target check uses up no attempt: the row is eligible again after its window |
| Redrive.InvKept | src/webhook.rs:284-405 | each step keeps listed rows due, logged sends before the row's last attempt, and sends spaced |
| Supervisor.Supervise | src/supervise.rs:83-182 | wherever it is observed: starts balance ends with one more while a child lives, at most one extra end once it has returned; restarts are the faults acted on, failures the panics, the streak the panics since the last stable run, and the pauses follow the schedule |
| Supervisor.OneTurn | src/supervise.rs:93-174 | the same balance for one turn of the loop |
| Supervisor.ChildEnded | src/supervise.rs:129-163 | a fault restarts the task, a disabled task is recorded with its reason, every other end is final |
| Supervisor.DelayIs | src/supervise.rs:92-174 | the k-th pause is initial * 2^k, capped; the first is `initial` even above the cap |
| Supervisor.ExpectedIsLivePlusDead | src/lib.rs:153-232 | in every health state the expected tasks are the live ones plus the dead required ones |
| Supervisor.DeadIff | src/lib.rs:220-232 | a task is reported dead exactly when it is required, not disabled and not running |
| Retention.Tables.Drain | src/retention.rs:120-139 | a drain hits exactly min(eligible, reach) rows, all eligible, where reach is the cap rounded up to whole batches; what it hit is no longer eligible |
| Retention.Tables.RunBatch | src/db.rs:1250-1334 | one batch hits min(500, eligible) rows and no others |
| Retention.Tables.PruneOnce | src/retention.rs:79-116 | a cycle removes exactly min(eligible, 50000) rows of each table that is switched on, only delivered or acknowledged rows older than the cutoff, empties the payload of exactly min(eligible, 50000) old unacknowledged failures and of nothing else, and leaves nothing of either kind when it did not reach the limit |
| Retention.ReachIs | src/retention.rs:120-139 | the loop stops at the first whole number of batches that reaches the cap, or with everything done |
| Retention.HitTwice | src/db.rs:1282-1334 | batches add up, and a row is not hit twice |

## Left out

- Settlement.InvHolds: one matching operation per transaction is assumed, because the ledger is keyed by intent and transaction hash; a second matching operation of the same transaction is not credited (`SettlementTheorems.ReSightingIsNoop`).
- SettlementTheorems.NoLostSettlement: claims nothing for an intent whose ledger total no longer fits in 64 bits; the sum is then a database error. A payment that arrives when no watchable intent has its memo is outside the claim.
- SettlementTheorems.OneTerminalNotification: says what notifications the accepted updates commit to; whether a webhook arrives is the subject of Webhooks and Redrive, and the process may die between the two.
- Horizon.VerifyIff: letter case of the asset code is folded for ASCII only, which is enough for XLM; the log lines and `updated_at` are not part of the model.
- CursorProtocol.NoRecordSkipped: says handed to `reconcile_payment`, not settled; the poller goes on when a reconciliation fails, as the code does. Paging tokens are modelled as positions in the account's history. A record whose call was still running when its cycle broke off does not count as handed on.
- Sse.StandardEndIsFoundIff: a blank line at the very beginning of the buffer, which ends an empty event, is not counted as an end.
- Sse.StreamOnce: bytes are characters; lossy decoding of invalid UTF-8 and the JSON of a record are not modelled, so what is handed on is the text of each record.
- Strkey.AdjacentCorruptionIsCaught: is about one or two neighbouring characters; wider corruption is not claimed.
- Money.ParseStroops: trimming follows the Unicode White_Space characters; input is a sequence of characters, not of bytes.
- Paging.WalkIsComplete: rows are compared byte by byte, as the database does for text; a timestamp with a tab is excluded, because its cursor does not read back (`Cursors.CursorRoundTrip`).
- Idempotency.AtMostOnePayment: requests without a key are left out (they draw an id and insert); a failure while minting counts as the death of the request; ids drawn are distinct. A run with an unclean removal can still end with one payment: a deleted mapping may be replaced before its first owner reads it again.
- Webhooks.Dispatch: name resolution and the time spent in the database are not part of the elapsed time; clocks are exact. A payment without a webhook URL, and one whose target is blocked, end before the loop and are not part of it.
- Redrive.RedrivesAreSpaced: passes are sequential and there is no manual redelivery; a crash between a request and the row's update is not modelled. `redrive_once` and `redrive_one` are modelled on values, as steps over rows, since they run concurrently with other tasks.
- Supervisor.Supervise: counters are unbounded; the tasks of other names are not modelled. The methods of `Supervisor.TaskHealth` have no rows of their own: what their counters add up to is what this one states.
- Retention.Tables.Drain: no other task changes the tables during a drain, and the cutoff stays fixed.
- Idempotency, CursorProtocol and Settlement are state machines over values: the tasks that they interleave share tables, and a method cannot be interrupted between statements. `Horizon.ReconcilePayment`, `Poller.HorizonPoller.PollOnce` and `Expiry.SweepOnce` are the same code as methods, each run alone.
- HTTP servers and clients, routing, authentication, rate limiting, metrics, the dashboard and logging.
- SQLite's locking, pooling and write-ahead log.
- Signatures, random identifiers, name resolution and address range checks.
- Environment parsing, the other start-up checks, the trustline check, and API keys.
