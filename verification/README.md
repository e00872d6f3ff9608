# Verification of the event and church backend

A Dafny model of the parts of the backend that keep state under competing users, and proofs
of what those parts are for. The database is modelled as finite maps, sets and sequences. A
serializable transaction, a `FOR UPDATE` block and an `updateMany` whose filter names the old
value are each one atomic step. Money is in integer cents, instants are integer milliseconds.
Where the order of a query's answer is not fixed by an `orderBy`, the order is a parameter
and the result holds for every order.

Two forms are used throughout. The services appear as classes with the fields and loops of
the original, each method proved equal to a specification function of the old state. The
properties are then proved about those functions: over one step, over every run, and where
the source allows it over every interleaving. The modules whose names end in `Outcomes` say
what each operation does without those functions: when it is accepted, why it is refused, and
what every field is afterwards.

| file | what it models |
|---|---|
| `Stock.dfy`, `Reactivation.dfy`, `Store.dfy`, `StoreService.dfy` | the event store: stock derived from live payments, buying, and cancelled purchases coming back |
| `Matching.dfy`, `Reconciliation.dfy`, `ReconciliationRaces.dfy` | bank reconciliation: the greedy suggestion, the listing, the links, and requests that read and write at the same time |
| `Schedule.dfy`, `NewsClock.dfy` | scheduled news: the next occurrence, the calendar, and the minute clock with overlapping rounds |
| `PdfQueue.dfy` | the one-slot queue of PDF generations |
| `LoginBrake.dfy`, `CurrentPassword.dfy` | the two brakes on wrong passwords |
| `LoginRaces.dfy`, `CurrentPasswordRaces.dfy` | the same with attempts that are judged, compared and recorded at the same time |
| `Bedrooms.dfy`, `Checkin.dfy` | check-in at the event and the bedroom given with the badge |
| `CheckinRaces.dfy`, `CheckinFailures.dfy`, `CallRaces.dfy` | the same with the transactions of many operators interleaved |
| `Registration.dfy` | registration with capacity and waitlist |
| `Approval.dfy` | requests approved by the pastor and the treasury |
| `Families.dfy` | members and families of the churches |
| `FamilyRaces.dfy`, `FamilyFailures.dfy` | the same with the reads and writes of many requests interleaved |
| `StoreOutcomes.dfy`, `ReconciliationOutcomes.dfy`, `NewsOutcomes.dfy`, `PdfOutcomes.dfy`, `LoginOutcomes.dfy`, `CheckinOutcomes.dfy`, `RegistrationOutcomes.dfy`, `ApprovalOutcomes.dfy`, `FamiliesOutcomes.dfy` | what each operation answers and writes, field by field |
| `Sorting.dfy`, `Wrappers.dfy` | the stable sort; options and results |

## What was found false, and when it holds

- A gateway notification writes the status of every payment of its reference without checking
  the stock, so it can oversell: late (`Store.GatewayMayOversell`), and even when each of the
  payments alone is in stock (`Store.TogetherTheyOversell`). It stays within the stock exactly
  when it finds its first payment paid, or takes nothing out of stock, or what its released
  payments bring back together is in stock (`Store.GatewayKeepsStock`).
- The badge, the bed and the row's memory of the bed are three transactions, and taking a
  delivery back reads the row before it writes. The books stay right all along exactly when
  no room is remembered for somebody pending, every delivery is taken back with the room that
  is in the row, no bed is freed that another delivery holds, and no row is made to forget
  another bed, but where another request at work answers for that bed or is about to make the
  row forget it (`CheckinRaces.Safe`, `CheckinRaces.RunExact`). `CheckinFailures` has a run for
  each way it fails.
- Being in progress at the photo desk does not mean having been called
  (`Checkin.NeverCalled`). It does, all along, exactly when no completion of somebody never
  called is taken back (`Checkin.CalledExactly`), that is, one that came straight from the queue
  (`Checkin.UncalledIsFromQueue`). Taking back a completion restores the row exactly when the
  person was in progress (`Checkin.UndoOfComplete`).
- An operator who calls the next one can be told that nobody waits while somebody does
  (`CallRaces.ToldNobodyWhileOneWaits`, `CallRaces.SixQueuedFiveTaken`): exactly when each of the
  five read from the queue was no longer queued in the turn that tried them
  (`CallRaces.ToldNobodyExactly`). With at most five in the queue it is true of everybody read
  that they had left it (`CallRaces.NobodyStayed`).
- `marcarNaoConsta` reads and writes in two steps: a late write breaks the links exactly when
  the entry was reconciled in between and that was not undone (`Reconciliation.LateMark`,
  `Reconciliation.MarkedAndLinked`). It is the only write of the reconciliation that can
  (`ReconciliationRaces.RunExact`).
- The waitlist excludes a second entry per role, not per group
  (`Registration.WaitingInOwnGroup`). Nobody waits for a role of their own group exactly when
  no registration and no move took a role of a group its person still waited in
  (`Registration.RunExclusive`).
- `mudarStatus` reads and writes without a lock: a status written late contradicts the
  decisions exactly when it is another than the one read and a decision was taken in between
  (`Approval.LateStatus`, `Approval.ReopenedByHand`).
- Acceptance takes two decisions but not always two people (`Approval.OnePersonTwice`): one
  person decided for both sides exactly when somebody approved for the treasury in a church
  they did not lead and for the pastor in one they led (`Approval.OnePersonExactly`). A change
  of leader alone does not do it (`Approval.NewLeaderTwoPeople`).
- Members and families change in several writes without one transaction. Every link leads to a
  family of the person's own church, and every empty family is still to be filled, counted or
  deleted by a request at work, all along exactly when whoever is put in a family is still a
  member of its church, no family is left empty that no request minds, and no request ends early
  with an empty family to count that no other minds (`FamilyRaces.RunExact`). `FamilyFailures`
  has a run for each way it fails.
- Login attempts judged at the same time can pass the lock, any number of them
  (`LoginRaces.TogetherTheyPass`). However attempts interleave, no window holds more than five
  wrong passwords exactly when each is recorded while fewer than five count
  (`LoginRaces.RunExact`); only an attempt that another wrong password overtook can break that
  (`LoginRaces.OnlyOvertaken`).
- Checks of the current password that overlap can lose errors
  (`CurrentPassword.ParallelErrorsCountOnce`) and lift a lock, so that ten errors fall within ten
  milliseconds (`CurrentPasswordRaces.LockLifted`). However checks interleave, the table counts
  right and no error is compared inside a lock, all along, exactly when each write is of the right
  password or finds the count its check read, and no lock (`CurrentPasswordRaces.RunExact`). Then
  five is the bound of a window whose checks wrote in the order they read
  (`CurrentPasswordRaces.SafeIsAtMostFive`).
- `situacaoNaFila` answers "unknown" for an accepted request that neither gave up nor ended exactly
  when it was given the slot, has not resumed yet, and nobody with its code waits or runs
  (`PdfQueue.UnknownExactly`, `PdfQueue.UnknownThough`).
- Two schedules of one news at the same instant are meant to send it once. Within a round they do;
  two rounds can send it twice (`NewsClock.OutTwice`). It goes out once per instant exactly when no
  round dispatches what another dispatched for that instant by another schedule of the news
  (`NewsClock.OnceExactly`).

The arithmetic of `proximaExecucao` has a limit that its callers do not reach: before 1970 the
remainder of the instant is negative, and the rest of that day is skipped
(`Schedule.NextIsFirst` says exactly when, `Schedule.SkipsTodayHappens` shows one).

## Model

| member | source | states |
|---|---|---|
| Stock.SoldUpdate | src/event/event.service.ts:1504-1522 | changing one payment changes what is sold of a variant by exactly the difference of that payment's live quantities |
| Reactivation.SplitConserves | src/event/event-products.ts:348-367 | the items kept and the items put out are together the payment's items, in quantity per variant and in money |
| Reactivation.SplitTakes | src/event/event-products.ts:353-367 | the remainder of a limited variant falls by exactly the quantity kept of it, and never below zero |
| Reactivation.SplitPlaces | src/event/event-products.ts:353-369 | every item is kept or put out, one put out does not fit in what is left, and something is kept whenever some item fits |
| Reactivation.SplitSources | src/event/event-products.ts:353-367 | nothing is kept or put out but the payment's own items |
| Reactivation.KeptFits | src/event/event-products.ts:353-367 | an item kept would have fitted at the payment's turn |
| Reactivation.SplitKeepsOrder | src/event/event-products.ts:353-367 | what is kept still has each variant once |
| Reactivation.RowSells | src/event/event-products.ts:388-407 | a turn makes live exactly the quantities it keeps, of every variant |
| Reactivation.ReactivatedListed | src/event/event-products.ts:296-300 | only payments of the list come back |
| Reactivation.RemaindersKnown | src/event/event-products.ts:338-344 | the remainder map has the variants of the listed payments, before and after every turn |
| Reactivation.RowDecides | src/event/event-products.ts:346-407 | at its turn a ticket payment returns, a purchase without a ticket returns exactly when some item fits, what returns keeps the items that fit and pays for them, and a refused one changes neither row nor remainders |
| Reactivation.TurnDecides | src/event/event-products.ts:292-410 | the same for every payment of the whole reactivation, and a refused payment takes nothing from those after it |
| Reactivation.ReactivationTracksStock | src/event/event-products.ts:338-407 | after every turn the running remainder is what the derived stock answers, and no limited variant is sold beyond its stock or what it had sold before |
| Reactivation.LaterTurnsShrink | src/event/event-products.ts:346-407 | what does not fit at one turn does not fit later |
| Reactivation.LaterTurnsLeave | src/event/event-products.ts:346-407 | later turns do not touch what an earlier payment got |
| Reactivation.NothingLeftOutFits | src/event/event-products.ts:281-291 | at the end no removed item and no item of a refused purchase would fit in the stock that is left |
| Reactivation.RemovedExactly | src/event/event-products.ts:388-404 | the report of removed items names exactly the items that payments let back in have lost |
| Reactivation.ReactivationAnswers | src/event/event-products.ts:369-386 | there is a refusal exactly when some payment of the list did not come back |
| Store.AcceptedLines | src/event/event-products.ts:151-179 | an order is accepted exactly when every quantity is between 1 and 20 and no variant repeats |
| Store.OrderMeaning | src/event/event-products.ts:151-179 | an accepted order holds every line with its quantity and nothing else |
| Store.ShortageMeaning | src/event/event-products.ts:201-214 | the check passes exactly when every asked variant has the asked quantity in stock |
| Store.NewItemsMeaning | src/event/event.service.ts:421-499 | the new items are the order, each at the current price of its product |
| Store.CheckMeaning | src/event/event.service.ts:367-440 | what passes all checks is the whole order and is in stock |
| Store.CheckedItems | src/event/event.service.ts:367-440 | what passes the checks can be added to a payment: known variants, each once |
| Store.PlaceSells | src/event/event.service.ts:440-509 | wherever the items go, exactly their quantities become sold |
| Store.BuySells | src/event/event.service.ts:367-509 | a purchase that passes sells exactly what was asked of every variant, and only what was in stock |
| Store.BuyAnswers | src/event/event.service.ts:367-440 | a purchase goes through exactly when the order is well made, the store is open to the buyer, everything is sold by the event and in stock, and whoever is not registered has something to pay |
| Store.TicketIsOldest | src/event/event.service.ts:521-543 | the ticket that gets the products is the oldest that takes any; none is found only when there is none |
| Store.PlaceWrites | src/event/event.service.ts:440-499 | one payment gets the items and costs that much more, it is not left as paid with something to pay, and the others stay as they are |
| Store.SetStatusSells | src/payment/payment.service.ts:897-943 | a status change by the panel sells no limited variant beyond its stock |
| Store.SetStatusAnswers | src/payment/payment.service.ts:863-907 | the panel changes a status exactly when it did not see the payment paid or is refunding it, and a purchase without a ticket that comes back has some item in stock |
| Store.SetStatusWrites | src/payment/payment.service.ts:900-911 | the status asked for is written, and no other payment changes |
| Store.CheckoutWrites | src/payment/payment.service.ts:317-333 | whenever the payments were read, after the transaction those let back in wait, and every other payment is as it was |
| Store.ChargeReads | src/payment/payment.service.ts:266-301 | a payment is read exactly when it is of this user and event, its ticket or its id is asked for, and its status is one of waiting, in analysis, declined and cancelled; it is open exactly when it is not cancelled |
| Store.ChargeRefuses | src/payment/payment.service.ts:288-310 | nothing is found exactly when no such payment is there; otherwise it is refused exactly when all of them are paid or refunded, and the answer tells whether one is refunded |
| Store.CheckoutCharges | src/payment/payment.service.ts:281-351 | unless something changed since the reading, a payment is charged exactly when it was asked for, was neither paid nor refunded, and is neither cancelled nor refunded after the transaction; it is refused exactly when there is none |
| Store.CheckoutSells | src/payment/payment.service.ts:317-333 | a checkout that brings purchases back sells no limited variant beyond its stock, whenever its payments were read |
| Store.StepWithinStock | src/event/event-products.ts:271-410 | no step raises what is sold of a limited variant above its stock or what was sold before, a gateway notification provided that it is harmless |
| Store.RowKeepsDebt | src/event/event-products.ts:388-404 | an item leaves a payment together with exactly its price |
| Store.PlaceKeeps | src/event/event.service.ts:440-509 | buying changes no payment's ticket price, and a separate purchase owes its products only |
| Store.StepKeeps | src/event/event.service.ts:421-498 | every step keeps what each payment owes besides its products, and never reuses a payment |
| Store.NeverOversold | src/event/event-products.ts:271-410 | over every run with harmless notifications a limited variant is never sold beyond the largest stock it had, or what was sold at the start |
| Store.AmountsAddUp | src/event/event-products.ts:388-404 | over every run, notifications included, each amount is the ticket price at registration plus the current items at the price they were bought, so it is never negative |
| Store.GatewayKeepsStock | src/payment/payment.service.ts:746-788 | a notification stays within the stock exactly when it finds its first payment paid, the new status releases, or the quantities of all the released payments of the reference together are in stock |
| Store.NotifiedSells | src/cron/cron.service.ts:180-192 | a notification makes live exactly the quantities of the released payments of its reference |
| Store.GatewayMayOversell | src/payment/payment.service.ts:778-788 | a concrete state in which a late gateway payment sells a unit twice |
| Store.TogetherTheyOversell | src/payment/payment.service.ts:644-652 | a concrete reference of two payments of which each alone fits the stock and both do not |
| StoreOutcomes.QuantityIs | src/event/event.service.ts:1504-1522 | with each variant once, what a payment has of a variant is the quantity of its item, and nothing when there is none |
| StoreOutcomes.SoldOfOne | src/event/event-products.ts:9-12 | a payment sells its items exactly when it is paid, waits, is in analysis or was declined |
| StoreOutcomes.SoldSums | src/event/event.service.ts:1504-1522 | what is sold of a variant is the sum over the payments |
| StoreOutcomes.InStockExactly | src/event/event-products.ts:201-214 | some units are in stock exactly when the variant has no limit, or they and what is sold are at most the stock |
| StoreOutcomes.FirstBadLine | src/event/event-products.ts:151-179 | the refusal of an order is that of its first bad line: a quantity out of one to twenty, or else a variant that came before |
| StoreOutcomes.BuyExactly | src/event/event.service.ts:367-440 | a purchase goes through exactly when it asks for something and is well made, the store is open, the buyer is registered or buys for themselves in a public store, every line is sold by the event and fits the stock, and whoever is not registered has something to pay |
| StoreOutcomes.BuyRefuses | src/event/event.service.ts:367-440 | which refusal is given for each check that fails, in their order |
| StoreOutcomes.ShortLine | src/event/event-products.ts:201-222 | a refusal for lack of stock names a line that does not fit and how many are left of it |
| StoreOutcomes.TicketExactly | src/event/event.service.ts:521-543 | the products go to the first ticket payment of that buyer and event with no items and no open checkout that waits, or is paid and free; to none exactly when there is no such |
| StoreOutcomes.PlacedExactly | src/event/event.service.ts:440-499 | that payment gets the items, costs their price more, and waits again if it was paid and there is something to pay; or a payment of their own is added, which waits unless free; no other changes |
| StoreOutcomes.BoughtExactly | src/event/event.service.ts:421-499 | the items bought are the lines of the order, each at the price of now, and as many |
| StoreOutcomes.SetStatusExactly | src/payment/payment.service.ts:863-907 | the panel changes a status exactly when the payment is there, it was not seen paid or is being refunded, and a purchase without a ticket that comes back from cancelled or refunded has an item that fits the stock |
| StoreOutcomes.SetStatusRefuses | src/payment/payment.service.ts:863-907 | which refusal is given when |
| StoreOutcomes.RefundWrites | src/payment/payment.service.ts:1168-1187 | a refund needs a payment seen paid, writes its status only, and says which of the two is missing |
| StoreOutcomes.NoticeWrites | src/payment/payment.service.ts:746-788 | a notification gives the status to every payment of the reference that is there, unless the first one found is paid, and changes nothing else |
| StoreOutcomes.TicketWrites | src/event/event.service.ts:744-823 | a registration adds one payment, waiting or paid when free; leaving the event deletes exactly the ticket payments of that person there |
| StoreOutcomes.KeptExactly | src/event/event-products.ts:353-367 | an item is kept exactly when its units were left at the turn, and no other variant is taken from |
| StoreOutcomes.RefusalNames | src/event/event-products.ts:369-386 | the refusal of a reactivation names the first item of the first purchase that stayed out, and how many were left of it at its turn |
| StoreService.BuildOrder | src/event/event-products.ts:151-179 | the loop builds the order of the lines, or refuses the first bad one |
| StoreService.EventStore.CheckStock | src/event/event-products.ts:201-222 | the loop finds the first variant that does not fit and how many are left |
| StoreService.EventStore.StartingRemainders | src/event/event-products.ts:325-344 | the map starts with what is available of each listed variant |
| StoreService.EventStore.TakeItems | src/event/event-products.ts:348-367 | the inner loop splits the items as specified; with nothing kept nothing was taken |
| StoreService.EventStore.ReactivateOne | src/event/event-products.ts:346-407 | the body of the outer loop, giving back included, is one turn of the specification |
| StoreService.EventStore.ReactivatePurchases | src/event/event-products.ts:292-410 | the nested loops end in the rows and the report of the specification |
| StoreService.EventStore.AddItems | src/event/event.service.ts:488-499 | the items are added one by one to that payment only |
| StoreService.EventStore.PlaceItems | src/event/event.service.ts:440-499 | the payment is found or created, then gets its items |
| StoreService.EventStore.BuyProducts | src/event/event.service.ts:367-509 | the checks in their order, then the writes; a refusal changes nothing |
| StoreService.EventStore.UpdatePaymentStatus | src/payment/payment.service.ts:846-943 | the transaction after an earlier reading: the status changes, or all is undone when nothing fits |
| StoreService.EventStore.RefundPayment | src/payment/payment.service.ts:1168-1187 | only a payment seen paid is refunded, and only its status changes |
| StoreService.EventStore.PaymentsToCharge | src/payment/payment.service.ts:266-301 | the payments to charge and which of them are not cancelled, or why there is none |
| StoreService.EventStore.ReactivateForCheckout | src/payment/payment.service.ts:317-351 | the payments let back in wait for payment again, and the answer is what to charge or the refusal |
| Sorting.SortKeeps | src/tesouraria/conciliacao.ts:55-55 | the sort keeps every element and orders the keys |
| Sorting.SortStable | src/tesouraria/conciliacao.ts:55-55 | elements with equal keys stay in the order they came |
| Matching.ScoreOrder | src/tesouraria/conciliacao.ts:43-51 | the score orders pairs by days first, and the same tither only breaks ties |
| Matching.CandidatesAre | src/tesouraria/conciliacao.ts:37-52 | the candidates are exactly the pairs of equal type, equal cents and few enough days |
| Matching.SuggestPairs | src/tesouraria/conciliacao.ts:32-65 | the nested loops, the sort and the greedy loop compute the specification |
| Matching.SuggestIsMatching | src/tesouraria/conciliacao.ts:20-65 | each entry is in one pair at most, and every pair qualifies |
| Matching.SuggestIsStable | src/tesouraria/conciliacao.ts:28-65 | every qualifying pair is chosen or shares an end with a chosen pair of no greater score |
| Matching.SuggestIsMaximal | src/tesouraria/conciliacao.ts:32-65 | no qualifying pair is left with both ends free |
| Matching.SuggestIsHalfOfAny | src/tesouraria/conciliacao.ts:32-65 | the suggestion has at least half as many pairs as any valid matching |
| Reconciliation.RunKeepsLinks | src/tesouraria/conciliacao.service.ts:186-326 | over every run the links are an injective map from manual to bank entries of one church and type, never on an entry marked as not in the bank |
| Reconciliation.UndoRestores | src/tesouraria/conciliacao.service.ts:278-292 | undoing a pair gives back the manual entry without its mark and leaves the bank entry what it inherited |
| Reconciliation.LateMark | src/tesouraria/conciliacao.service.ts:299-326 | whatever steps come between the reading and the writing of a mark, the late write keeps the links good exactly when it takes the mark off or the entry is not reconciled since, unless that was undone |
| Reconciliation.LinkedThen | src/tesouraria/conciliacao.service.ts:186-292 | an entry not reconciled at first is reconciled after a run exactly when it was reconciled in it and not undone since |
| Reconciliation.MarkedAndLinked | src/tesouraria/conciliacao.service.ts:299-326 | a concrete run that ends with an entry both reconciled and marked |
| ReconciliationRaces.WriteExact | src/tesouraria/conciliacao.service.ts:225-253 | each single write keeps the links good exactly when it does not put a mark on an entry reconciled by then |
| ReconciliationRaces.RunExact | src/tesouraria/conciliacao.service.ts:186-326 | over every interleaving of reads and writes the links stay an injective map between entries of one church and type, never on a marked one, exactly when no late mark meets a reconciled entry |
| ReconciliationRaces.WholeLink | src/tesouraria/conciliacao.service.ts:186-253 | undisturbed, the reading and the two writes are the whole operation |
| ReconciliationRaces.WholeOthers | src/tesouraria/conciliacao.service.ts:278-326 | the same for undoing and for marking |
| Reconciliation.SidesAre | src/tesouraria/conciliacao.service.ts:339-347 | what is offered to the suggestion is exactly the pending entries of each side |
| Reconciliation.SuggestedOpen | src/tesouraria/conciliacao.service.ts:113-150 | the suggested pairs are disjoint and each can be reconciled |
| Reconciliation.LinkAllLinks | src/tesouraria/conciliacao.service.ts:256-272 | reconciling disjoint open pairs links exactly those |
| Reconciliation.NextSucceeds | src/tesouraria/conciliacao.service.ts:256-272 | no suggested pair is refused, however many were reconciled before it |
| Reconciliation.NothingLeftToSuggest | src/tesouraria/conciliacao.service.ts:256-272 | after all suggestions are reconciled, listing the period again in any order suggests nothing |
| Reconciliation.EveryEntryOnce | src/tesouraria/conciliacao.service.ts:60-179 | the listing shows every entry of the period, and the other ends of its pairs, in exactly one line |
| Reconciliation.LinesApply | src/tesouraria/conciliacao.service.ts:60-179 | the suggested lines of the sorted listing are the suggestions, each once |
| ReconciliationOutcomes.ListedAre | src/tesouraria/conciliacao.service.ts:60-91 | listed are exactly the administrative, undistributed entries of the church and period and the other ends of their pairs |
| ReconciliationOutcomes.LinesExactly | src/tesouraria/conciliacao.service.ts:97-142 | the listing has exactly the lines, with their state and both sides, that the source, the link and the mark of each entry and the suggested pairs call for |
| ReconciliationOutcomes.LinesInOrder | src/tesouraria/conciliacao.service.ts:143-149 | the lines come suggested first, then bank only, ledger only, not in the bank and reconciled, and the newest first within one state |
| ReconciliationOutcomes.SuggestedCould | src/tesouraria/conciliacao.ts:15-65 | a suggested pair is of two listed entries neither reconciled nor marked, of one type and amount, at most three days apart, and no entry is in two |
| ReconciliationOutcomes.SuggestedBest | src/tesouraria/conciliacao.ts:15-65 | of two listed entries that could be a pair, one is in a suggested pair with dates no further apart, and on a tie of the same giver when the two are |
| ReconciliationOutcomes.ReconcileWrites | src/tesouraria/conciliacao.service.ts:186-253 | two entries are reconciled exactly when they are of the church, from the bank and by hand, of one type and both free; then only the link, the mark, the category and the tither change, as said |
| ReconciliationOutcomes.ReconcileRefuses | src/tesouraria/conciliacao.service.ts:186-223 | which refusal is given when |
| ReconciliationOutcomes.UndoWrites | src/tesouraria/conciliacao.service.ts:278-292 | undoing needs a reconciled entry of the church and takes its link off only |
| ReconciliationOutcomes.MarkWrites | src/tesouraria/conciliacao.service.ts:299-326 | the mark needs an unreconciled entry by hand of the church and is written as asked, and why not otherwise |
| Reconciliation.ReconciliationService.ReconcilePair | src/tesouraria/conciliacao.service.ts:186-253 | the checks in their order, then the two writes |
| Reconciliation.ReconciliationService.UndoPair | src/tesouraria/conciliacao.service.ts:278-292 | the link is removed, or nothing changes |
| Reconciliation.ReconciliationService.MarkNotInBank | src/tesouraria/conciliacao.service.ts:299-326 | the mark is written, or nothing changes |
| Reconciliation.ReconciliationService.List | src/tesouraria/conciliacao.service.ts:60-179 | the five loops and the sort give the listing of the specification |
| Reconciliation.ReconciliationService.ReconcileLines | src/tesouraria/conciliacao.service.ts:262-271 | the loop reconciles the suggested lines and none fails |
| Reconciliation.ReconciliationService.ReconcileSuggested | src/tesouraria/conciliacao.service.ts:256-272 | every suggestion is reconciled, the count is their number, and none is refused |
| Schedule.NextRun | src/news/agendamento.ts:40-71 | the counted search computes the specification |
| Schedule.StartDay | src/news/agendamento.ts:52-54 | the search starts at midnight of today in Brasilia, but before the epoch at tomorrow's |
| Schedule.WeekdayRead | src/news/agendamento.ts:58-60 | the weekday read six hours into the shifted day is that day's |
| Schedule.SearchIsFirst | src/news/agendamento.ts:56-70 | the search always answers, with the first occurrence from its first day on |
| Schedule.NextIsFirst | src/news/agendamento.ts:36-71 | the answer is the first occurrence strictly after the instant exactly when today is not skipped, so always from 1970 on |
| Schedule.NextWithinAWeek | src/news/agendamento.ts:56-70 | a valid weekly schedule is answered within seven days |
| Schedule.SkipsTodayHappens | src/news/agendamento.ts:52-54 | a concrete instant before 1970 for which the answer is a week late, the limit of the arithmetic |
| NewsOutcomes.TuesdayMorning | src/news/agendamento.spec.ts:18-22 | the morning of a Tuesday: today at noon |
| NewsOutcomes.TuesdayNoon | src/news/agendamento.spec.ts:24-28 | noon of that Tuesday: a week later |
| NewsOutcomes.MondayEvening | src/news/agendamento.spec.ts:30-36 | Monday at ten in the evening, Tuesday in UTC: the Tuesday of Brasilia is still to come |
| NewsOutcomes.TuesdayAfternoon | src/news/agendamento.spec.ts:38-43 | of two weekdays the nearest |
| NewsOutcomes.ValidateAnswers | src/news/agendamento.ts:74-123 | a form is accepted exactly when it has a date still to come, or weekdays from 0 to 6 and a time of the day; what is saved is that schedule, and which of the four problems is told when |
| Schedule.ValidatedIsValid | src/news/agendamento.ts:74-123 | what validation accepts is a valid schedule |
| Schedule.ValidatedIsNext | src/news/agendamento.ts:74-123 | what is saved is a valid schedule with its first occurrence after now |
| Schedule.DaysApart | src/news/news.service.ts:503-505 | two occurrences are at least a day apart, which is why the cap cuts nothing |
| Schedule.Unfold | src/news/news.service.ts:499-516 | the loop ends, and lists every occurrence of the period from the next one on, each once and in order, at most 62 of them |
| NewsClock.RunKeeps | src/news/news.service.ts:545-614 | over every interleaving of rounds and edits the table, the rounds and the wins stay consistent |
| NewsClock.EachInstantOnce | src/news/news.service.ts:545-614 | each scheduled instant is won by at most one round, a dispatch is at most an hour late, and one round dispatches a news once |
| NewsClock.OnceExactly | src/news/news.service.ts:541-604 | over every interleaving a news goes out once per instant exactly when no round dispatches what another dispatched for that instant by another schedule |
| NewsClock.RepeatsApart | src/news/news.service.ts:541-604 | a repetition needs two rounds and two schedules |
| NewsClock.OutTwice | src/news/news.service.ts:541-604 | a concrete interleaving of two rounds in which a news goes out twice for one instant |
| NewsClock.OnlyGrows | src/news/news.service.ts:566-573 | the next instant of a schedule only grows, or ends |
| NewsClock.PassesOnlyThePast | src/news/news.service.ts:560-603 | a win passes over nothing still to come exactly when the next occurrence does not skip today, and one that does not dispatch what it could is more than an hour late |
| NewsClock.SaveKeeps | src/news/news.service.ts:410-455 | saving the schedules of a news keeps the table, the rounds at work and the wins consistent |
| NewsOutcomes.SaveLeaves | src/news/news.service.ts:439-450 | an old schedule stays, unchanged, exactly when it is of another news, or was once and has run; the new ones are the given ones, each with its next instant, under new ids; rounds and wins are as before |
| NewsOutcomes.SavingAnswers | src/news/news.service.ts:423-448 | a form of at most twenty schedules, all accepted, is saved whole; any other changes nothing |
| NewsOutcomes.WinsExactly | src/news/news.service.ts:541-604 | over every run from the start of the service, every win is of a schedule its round read due, and the news went out exactly when that reading found it publishable, the round's clock was at most an hour past the instant, and no earlier win of the round had sent it |
| NewsOutcomes.SentExactly | src/news/news.service.ts:560-604 | the same of a swap as it happens: it wins, and sends or not, by what the round read and what it has sent so far |
| NewsOutcomes.SwapWrites | src/news/news.service.ts:563-587 | a won instant moves its schedule on to the next one and is remembered unless an hour late; a lost one writes nothing; no other schedule is touched |
| NewsOutcomes.ReadsDue | src/news/news.service.ts:545-558 | a round finds exactly the schedules whose next instant has come, and has sent nothing yet |
| NewsClock.FinishClears | src/news/news.service.ts:559-613 | a round left alone leaves nothing it found still due |
| NewsClock.NewsService.FireDue | src/news/news.service.ts:545-614 | the loop of a round with nobody in between does what its steps do |
| PdfQueue.RunKeeps | src/pdf/fila.ts:57-100 | over every run one generation at most runs, no slot is lost or made up, nobody waits while it is free, at most 20 wait, and it is given in order of arrival among those who stayed |
| PdfQueue.GoneNeverServed | src/pdf/fila.ts:80-89 | whoever gave up while waiting never runs and takes no slot |
| PdfQueue.StepAdvances | src/pdf/fila.ts:91-100 | no step puts a waiter back, and every end moves every waiter strictly forward |
| PdfQueue.EveryoneIsServed | src/pdf/fila.ts:57-100 | a waiter that stays has the slot after as many ends as its position said |
| PdfQueue.NoDeadlock | src/pdf/fila.ts:57-100 | whoever waits, waits for exactly one holder of the slot |
| PdfQueue.PdfQueue.Enter | src/pdf/fila.ts:57-80 | a free slot is taken, else the request waits, else it is refused |
| PdfQueue.PdfQueue.GiveUp | src/pdf/fila.ts:80-89 | a waiting request leaves the line; one that has the slot stays |
| PdfQueue.PdfQueue.Continue | src/pdf/fila.ts:91-93 | the request that was given the slot starts to generate |
| PdfQueue.PdfQueue.Leave | src/pdf/fila.ts:94-99 | the slot goes straight to the next in line, or is free |
| PdfQueue.PdfQueue.Ask | src/pdf/fila.ts:103-108 | the place told is the first place of that code in the line; otherwise whether it is being generated |
| PdfOutcomes.ArriveWrites | src/pdf/fila.ts:57-80 | a request runs at once when the slot is free, is last in line when fewer than twenty wait, and is turned away otherwise, with every field of the queue |
| PdfOutcomes.AbortWrites | src/pdf/fila.ts:80-89 | whoever waits leaves the line and the others keep their order; nobody else can leave |
| PdfOutcomes.ResumeWrites | src/pdf/fila.ts:91-93 | whoever was given the slot, and nobody else, starts to generate |
| PdfOutcomes.FinishWrites | src/pdf/fila.ts:94-100 | the end of a generation gives the slot to the first in line, or frees it |
| PdfQueue.HereExactly | src/pdf/fila.ts:57-100 | over every run the requests that wait, were given the slot or run are those accepted that neither gave up nor ended |
| PdfQueue.UnknownExactly | src/pdf/fila.ts:102-108 | such a request is answered "unknown" exactly when it was given the slot, has not resumed, and nobody with its code waits or runs |
| PdfQueue.UnknownThough | src/pdf/fila.ts:91-108 | a concrete run of two requests in which that happens |
| LoginBrake.MarkIs | src/auth/auth.service.ts:229-254 | the moment failures count from is the last success or password change, cut two windows back |
| LoginBrake.PrunedDecidesAsFull | src/auth/auth.service.ts:228-272 | the decision from the last two windows is the one from all failures since the last reset |
| LoginBrake.FiveLock | src/auth/protecao-de-login.ts:32-57 | five wrong passwords inside the last window lock the next attempt out |
| LoginBrake.RecordExact | src/auth/auth.service.ts:195-203 | whenever it was judged, recording a wrong password keeps the bound exactly when fewer than five count at that moment |
| LoginBrake.UnlockedIsFew | src/auth/protecao-de-login.ts:32-57 | an attempt that is not locked out finds fewer than five |
| LoginBrake.SpacedExactly | src/auth/auth.service.ts:127-219 | in every history no window holds more than five exactly when each wrong password was recorded while fewer than five counted |
| LoginRaces.RunExact | src/auth/auth.service.ts:127-219 | over every interleaving of attempts judged and recorded, no window holds more than five exactly when each wrong password was recorded while fewer than five counted |
| LoginRaces.OnlyOvertaken | src/auth/auth.service.ts:127-219 | a recording that breaks the bound comes after another wrong password was recorded since the attempt was judged |
| LoginRaces.WholeLogin | src/auth/auth.service.ts:127-219 | recorded at the instant it was judged, an attempt is the whole login, and keeps the bound |
| LoginRaces.WholeChange | src/auth/auth.service.ts:221-228 | a password change is one step whatever was judged before, and opens the lock |
| LoginRaces.TogetherTheyPass | src/auth/auth.service.ts:127-219 | any number of attempts judged together are all recorded, and from six on the window holds too many |
| LoginBrake.RunSpaces | src/auth/auth.service.ts:127-219 | over every run a sixth wrong password comes at least a window after the first of the six |
| LoginBrake.AtMostFive | src/auth/auth.service.ts:127-272 | between two resets no half-open window of fifteen minutes holds more than five recorded wrong passwords |
| LoginBrake.LockLastsExactly | src/auth/protecao-de-login.ts:23-46 | a lock ends exactly a window after the last failure, and its end does not move |
| LoginBrake.TurnedAway | src/auth/auth.service.ts:132-143 | a login during the lock is told its end and is not recorded |
| LoginBrake.LockedOut | src/auth/auth.service.ts:132-143 | no number of logins during the lock prolongs it |
| LoginBrake.ResetUnlocks | src/auth/auth.service.ts:221-228 | a success or a password change opens the lock at once and asks for no captcha |
| LoginBrake.AnswerTellsTheNextDecision | src/auth/auth.service.ts:195-219 | the answer to a wrong password says locked or captcha exactly when the history with it decides so, with the same end |
| LoginOutcomes.TurnedAwayExactly | src/auth/auth.service.ts:132-152 | in every history, an attempt is locked out exactly when five wrong passwords since the last success or change fall in the fifteen minutes up to the newest, less than fifteen minutes ago, and until then; it is asked for the captcha exactly when two count and it has none; both leave no trace |
| LoginOutcomes.AnsweredExactly | src/auth/auth.service.ts:154-219 | whoever is let through is answered, and leaves in the history, what the attempt turns out to be: no such user, a blocked account, a login, or a wrong password with the lock or captcha that comes next |
| LoginOutcomes.EnteredExactly | src/auth/auth.service.ts:127-219 | an attempt enters exactly when it is let through with the right password of an account that exists and is not blocked; it is told blocked, or no such user, exactly when that is what is missing |
| LoginOutcomes.LaterSteps | src/auth/auth.service.ts:221-228 | a change of the password after everything else is left in the history, and then no wrong password counts |
| LoginBrake.AuthService.ValidateUser | src/auth/auth.service.ts:127-219 | the attempt is recorded and answered as the specification says, in the order of the source |
| CurrentPassword.RunKeeps | src/auth/senha.ts:42-71 | over every run the table is what the compared attempts call for, and none was compared inside a lock |
| CurrentPassword.AtMostFive | src/auth/senha.ts:42-71 | between two successes no half-open window of fifteen minutes holds more than five errors of a user |
| CurrentPassword.RefusedWhen | src/auth/senha.ts:47-55 | a check is refused exactly within fifteen minutes of the fifth error in a row |
| CurrentPassword.AnsweredExactly | src/auth/senha.ts:42-71 | over every run a check is refused exactly inside fifteen minutes of the fifth error in a row, and otherwise accepted exactly when the password is right |
| CurrentPassword.LateExact | src/auth/senha.ts:47-71 | a write after the comparison is the one of an undisturbed check exactly when the user is not locked meanwhile and the password was right or the count is still the one read; of a locked user, only when it writes the entry that is there |
| CurrentPasswordRaces.StepExact | src/auth/senha.ts:47-71 | a write keeps the table counting right and errors outside locks exactly when the password was right, or the count is the one read and there is no lock |
| CurrentPasswordRaces.RunExact | src/auth/senha.ts:47-71 | the same all along every interleaving of the readings and writes of any number of checks |
| CurrentPasswordRaces.SafeIsAtMostFive | src/auth/senha.ts:24-25 | then no window whose checks wrote in the order they read holds more than five errors between two successes |
| CurrentPasswordRaces.WholeCheck | src/auth/senha.ts:42-71 | undisturbed, the reading and the write are the whole check, and safe |
| CurrentPasswordRaces.LockLifted | src/auth/senha.ts:47-71 | a concrete run in which a late error lifts a lock and ten errors fall within ten milliseconds |
| CurrentPassword.ParallelErrorsCountOnce | src/auth/senha.ts:47-71 | however many errors are compared at once, they count as one |
| CurrentPassword.CurrentPasswordBrake.CheckCurrentPassword | src/auth/senha.ts:42-71 | the table is read, set and deleted as the specification says |
| Bedrooms.CandidatesAre | src/checkin/checkin.service.ts:301-326 | the candidates are exactly the rooms with a vacancy that may receive the person |
| Bedrooms.FirstIsBefore | src/checkin/checkin.service.ts:317-325 | the first candidate is a room of the group if there is one, and the first by name among its kind |
| Bedrooms.NoRoomMeaning | src/checkin/checkin.service.ts:301-388 | somebody stays without a room exactly when every room that may receive the person is full or has no capacity |
| Bedrooms.ChoiceMeaning | src/checkin/checkin.service.ts:328-388 | the room given has a vacancy, and every room that would be tried before it is full |
| Bedrooms.TakeWithin | src/checkin/checkin.service.ts:364-386 | moving in under the lock never passes the capacity, whatever was read before |
| Bedrooms.NeverOverfilled | src/checkin/checkin.service.ts:338-388 | however the transactions of the operators interleave, no room exceeds its capacity or what it held at the start |
| Bedrooms.LastVacancy | src/checkin/checkin.service.ts:364-386 | of two operators after the last vacancy the first to lock it gets it, and the second goes on to its next candidate |
| Checkin.StampsAgree | src/checkin/checkin.service.ts:414-724 | in whatever order the operators' updates reach a row, its stamps agree with its status |
| Checkin.NeverCalled | src/checkin/checkin.service.ts:577-603 | a concrete way to be in progress without ever having been called |
| Checkin.WriteFits | src/checkin/checkin.service.ts:577-674 | an update leaves whoever is in progress called exactly when it takes back no completion of somebody never called |
| Checkin.CalledExactly | src/checkin/checkin.service.ts:505-724 | the same all along every sequence of updates |
| Checkin.UncalledIsFromQueue | src/checkin/checkin.service.ts:577-621 | until then somebody done was never called exactly when the completion came straight from the queue |
| Checkin.GiveRoomKeeps | src/checkin/checkin.service.ts:480-497 | giving a room keeps the books: automatic rooms are remembered, and only people without a room set by hand have one |
| Checkin.BackToPendingKeeps | src/checkin/checkin.service.ts:390-408 | going back to pending takes the stamps and exactly the automatic room |
| Checkin.RunKeeps | src/checkin/checkin.service.ts:394-724 | over every run of whole operations the beds taken are those set by hand and those the rows remember |
| Checkin.GivesBack | src/checkin/checkin.service.ts:394-724 | whoever is pending again, by any path, has exactly the rooms from before the delivery, and no room set by hand was touched |
| CheckinRaces.RememberExact | src/checkin/checkin.service.ts:480-497 | remembering a bed keeps the books exactly when the person is not pending and the row remembers no other bed, unless a request at work answers for it |
| CheckinRaces.UndoExact | src/checkin/checkin.service.ts:627-671 | undoing a delivery keeps the books exactly when the room read is the one in the row, or the row has none, or it is about to be forgotten |
| CheckinRaces.ReverseExact | src/checkin/checkin.service.ts:694-720 | the same for reversing a whole delivery |
| CheckinRaces.FreeExact | src/checkin/checkin.service.ts:401-403 | freeing a bed keeps the books exactly when no other delivery holds it |
| CheckinRaces.ForgetExact | src/checkin/checkin.service.ts:404-407 | making a row forget its room keeps the books exactly when its bed is gone or a request at work answers for it |
| CheckinRaces.RunExact | src/checkin/checkin.service.ts:338-724 | over every interleaving of the transactions of any number of requests, the books are right all along exactly when every move was safe where it came |
| CheckinRaces.QuietBooks | src/checkin/checkin.service.ts:394-724 | with nobody at work these are the books of the whole operations |
| CheckinRaces.FromTheOpening | src/checkin/checkin.service.ts:338-724 | the same from an empty desk on, whatever rooms were set by hand |
| CheckinRaces.WholeDelivery | src/checkin/checkin.service.ts:414-502 | undisturbed, the transactions of a delivery are the whole delivery |
| CheckinRaces.WholeUndo | src/checkin/checkin.service.ts:627-674 | undisturbed, the transactions of an undo are the whole undo |
| CheckinRaces.WholeReversal | src/checkin/checkin.service.ts:689-724 | undisturbed, the transactions of a reversal are the whole reversal |
| CheckinRaces.WholePhoto | src/checkin/checkin.service.ts:505-621 | a call and a completion are one update each, and the whole operation |
| CheckinRaces.ReadsNow | src/checkin/checkin.service.ts:306-724 | each reading takes the rooms, the stage and the remembered room as they are at its turn, and somebody pending has nothing to undo |
| CheckinFailures.RememberedTooLate | src/checkin/checkin.service.ts:488-491 | a run in which a delivery is reversed before its bed is remembered: somebody pending keeps the bed |
| CheckinFailures.UndoneTooEarly | src/checkin/checkin.service.ts:628-671 | a run in which the undo read the row before the bed was remembered: nobody frees the bed |
| CheckinFailures.ReversedTooEarly | src/checkin/checkin.service.ts:694-720 | a run in which the reversal read it before: the row forgets a bed that nobody frees |
| CheckinFailures.ForgottenTooLate | src/checkin/checkin.service.ts:394-408 | a run in which the badge is handed out again before the reversal ends: the row forgets the new bed |
| CheckinFailures.RememberedTwice | src/checkin/checkin.service.ts:480-491 | a run in which two deliveries of one person both take a bed and one is forgotten |
| CheckinFailures.FreedTooLate | src/checkin/checkin.service.ts:394-408 | a run in which an undo frees the bed that another delivery holds |
| Checkin.NextIsFirst | src/checkin/checkin.service.ts:546-575 | nobody is found exactly when nobody is queued; otherwise the one called had the badge no later than anybody queued |
| CallRaces.CallsAreEntries | src/checkin/checkin.service.ts:546-575 | whoever competes, the calls of a person never exceed the times that person was queued |
| CallRaces.NobodyTwice | src/checkin/checkin.service.ts:541-545 | two operators never call the same person unless somebody put that person back |
| CallRaces.CallersKnow | src/checkin/checkin.service.ts:546-575 | over every run every operator has read the five longest waiting of its turn and has tried them in that order, losing all before the last |
| CallRaces.ToldNobodyExactly | src/checkin/checkin.service.ts:546-575 | over every run an operator is told that nobody waits exactly when each of the five read was no longer queued in the turn that tried them |
| CallRaces.NobodyStayed | src/checkin/checkin.service.ts:546-575 | told so with at most five in the queue, each of them had left it at some turn after the reading |
| CallRaces.ToldNobodyWhileOneWaits | src/checkin/checkin.service.ts:12-19 | whenever more than five wait and the first five are called by others, the operator is told that nobody waits while the sixth does |
| CallRaces.SixQueuedFiveTaken | src/checkin/checkin.service.ts:12-19 | a concrete queue of six in which that happens |
| CallRaces.AloneIsFirst | src/checkin/checkin.service.ts:546-575 | alone, the first try calls the longest waiting |
| Checkin.UndoRestores | src/checkin/checkin.service.ts:627-724 | taking back a call or a delivery restores what was before it, rooms included |
| Checkin.UndoOfComplete | src/checkin/checkin.service.ts:577-674 | taking back a completion restores the state exactly when the person was in progress |
| Checkin.CheckinService.AllocateBedroom | src/checkin/checkin.service.ts:338-388 | the loop over the candidates ends in the room of the specification and adds one bed at most |
| Checkin.CheckinService.ReleaseAutoBedroom | src/checkin/checkin.service.ts:394-408 | the automatic bed is freed and forgotten, and nothing else |
| Checkin.CheckinService.DeliverBadge | src/checkin/checkin.service.ts:414-502 | the row is created or reset, then the room is given; refused unless pending |
| Checkin.CheckinService.CallOne | src/checkin/checkin.service.ts:505-540 | only somebody queued is called |
| Checkin.CheckinService.CallTheNext | src/checkin/checkin.service.ts:546-575 | undisturbed, the loop over five candidates calls the longest waiting |
| CallRaces.CallDesk.CallTheNext | src/checkin/checkin.service.ts:546-575 | with the updates of others between its own, the loop ends as the run in which the operator reads and tries |
| CallRaces.DisturbedIsRun | src/checkin/checkin.service.ts:546-575 | such a loop is a run in which the operator's own turns are the reading and the tries |
| Checkin.CheckinService.CompleteOne | src/checkin/checkin.service.ts:582-621 | somebody queued or in progress is done |
| Checkin.CheckinService.UndoOne | src/checkin/checkin.service.ts:627-674 | one stage back, with the room when it was the first |
| Checkin.CheckinService.UndoBadgeDelivery | src/checkin/checkin.service.ts:689-724 | all stages back at once, and the room freed |
| CheckinOutcomes.RoomGiven | src/checkin/checkin.service.ts:301-388 | a room is given exactly when the event uses rooms, the person has none, and some room that may receive the person has space: of these the one of the person's groups first, and then the first by name |
| CheckinOutcomes.DeliverWrites | src/checkin/checkin.service.ts:414-502 | a badge is handed out exactly to whoever is registered and pending; then that person is queued with the stamp of now and no other, with the room given, and nobody else changes |
| CheckinOutcomes.CallWrites | src/checkin/checkin.service.ts:505-540 | only somebody queued is called, and is in progress with the stamp of now |
| CheckinOutcomes.CallNextWrites | src/checkin/checkin.service.ts:546-575 | somebody is called exactly when somebody is queued, and only that row changes |
| CheckinOutcomes.CompleteWrites | src/checkin/checkin.service.ts:582-621 | only somebody queued or in progress is done, with the stamp of now |
| CheckinOutcomes.UndoWrites | src/checkin/checkin.service.ts:627-674 | one stage is taken back with its stamp, and with the first one the automatic bed |
| CheckinOutcomes.UndoDeliveryWrites | src/checkin/checkin.service.ts:689-724 | all stages, stamps and the automatic bed are taken back, unless the person is pending |
| Registration.AcceptedExactly | src/event/event.service.ts:602-735 | a registration goes through exactly when the account exists and is not blocked, the roles are of different groups, and each is of the event, open, of a group the person has no role in, and not waited for |
| Registration.PlaceIs | src/event/event.service.ts:744-823 | each role is taken or waited for by the vacancies before the operation, in whatever order the roles come |
| Registration.CountsStayRight | src/event/event.service.ts:744-756 | counting once before the loop is as good as counting for each role |
| Registration.PlaceFits | src/event/event.service.ts:731-823 | one registration takes no group above its capacity |
| Registration.RunKeeps | src/event/event.service.ts:602-823 | over every run: one role per person and group, never registered and waiting for one role, in the event exactly when registered, no group above its capacity or its start |
| Registration.MoveMeaning | src/event/event.service.ts:3514-3582 | a move succeeds exactly when the person waits, has an account and no role of the group, and a vacancy is left once the other's roles there are gone; then they have changed places |
| Registration.RemoveMeaning | src/event/event.service.ts:3042-3129 | leaving the event needs the registration, takes everything of that person and nothing of anybody else |
| Registration.MoveSwaps | src/event/event.service.ts:3514-3582 | whoever moved is in, whoever left has no role of the group, and stays in the event exactly with a role elsewhere |
| Registration.OtherRoleOfTheGroup | src/event/event.service.ts:697-735 | a person waiting for one role can take another of the group, and then no vacancy goes to the entry that waits |
| Registration.RegisterExclusive | src/event/event.service.ts:697-823 | a registration leaves nobody waiting in their own group exactly when no role with a vacancy is of a group where the person already waits |
| Registration.MoveExclusive | src/event/event.service.ts:3514-3582 | a move does so exactly when the person waits for no other role of the group |
| Registration.StepExclusive | src/event/event.service.ts:602-823 | every operation does so exactly when it is refused or finds that |
| Registration.RunExclusive | src/event/event.service.ts:602-823 | over every run nobody waits for a role of their own group exactly when no registration and no move took a role of a group its person still waited in |
| Registration.WaitingInOwnGroup | src/event/event.service.ts:697-735 | a concrete run that ends with somebody waiting in their own group |
| Registration.EventService.CheckRequest | src/event/event.service.ts:198-735 | the checks one by one, in their order, answer the refusal of the specification |
| Registration.EventService.RegisterUser | src/event/event.service.ts:602-823 | the checks in their order, then the loop; a refusal changes nothing |
| Registration.EventService.RemoveUser | src/event/event.service.ts:3042-3129 | the person's registrations, waitlist entries and row go together |
| Registration.EventService.RemoveFromWaitlist | src/event/event.service.ts:3489-3513 | the entry goes, or nothing changes |
| Registration.EventService.MoveFromWaitlist | src/event/event.service.ts:3514-3582 | the writes one by one; a refusal rolls all of them back |
| RegistrationOutcomes.RegisterAnswers | src/event/event.service.ts:680-735 | a request in order goes through exactly when none of its groups is closed, none has a role of the person, and none of its roles is waited for; otherwise the refusal is the first of those |
| RegistrationOutcomes.RegisterRefuses | src/event/event.service.ts:613-678 | a request that is not in order is refused for the first thing wrong with it |
| RegistrationOutcomes.RegisterWrites | src/event/event.service.ts:744-823 | each role is taken exactly when its group had a vacancy before, and waited for if not; the person is in the event once a role is taken; nothing else changes |
| RegistrationOutcomes.LeaveWaitlistWrites | src/event/event.service.ts:3489-3513 | leaving the waitlist takes exactly that entry, and is refused exactly when it is not there |
| RegistrationOutcomes.RemoveWrites | src/event/event.service.ts:3042-3129 | leaving the event takes every entry of that person and none of anybody else, and which refusal is given when |
| RegistrationOutcomes.MoveWrites | src/event/event.service.ts:3514-3582 | a move takes the roles the other person has in the group and gives the one waited for; who has none left is out of the event; nothing else changes |
| RegistrationOutcomes.MoveAnswers | src/event/event.service.ts:3514-3582 | a move succeeds exactly when the entry, the role and the account are there, the person has no role of the group by then and there is a vacancy, and which refusal is given when |
| Approval.DecideKeeps | src/solicitacoes/solicitacoes.service.ts:251-354 | a decision keeps status, marks and results in agreement |
| Approval.RunKeeps | src/solicitacoes/solicitacoes.service.ts:199-354 | in every state a request can reach, status and results are those the two decisions and the marks call for |
| Approval.ClosedForGood | src/solicitacoes/solicitacoes.service.ts:274-276 | a closed request never changes again |
| Approval.ClosedWhen | src/solicitacoes/solicitacoes.service.ts:236-249 | a request is closed exactly when somebody refused or both decided, and only then has results |
| Approval.TwoDecisions | src/solicitacoes/solicitacoes.service.ts:236-335 | after two decisions exactly the products both approved are accepted, and a refusal leaves none |
| Approval.OrderIndependent | src/solicitacoes/solicitacoes.service.ts:236-335 | pastor first or treasury first, status and results are the same |
| Approval.SignedBy | src/solicitacoes/solicitacoes.service.ts:251-345 | the signature of a side is of whoever decided for it, in a church where that was their side |
| Approval.OnePersonExactly | src/solicitacoes/solicitacoes.service.ts:169-187 | over every run that ends accepted, one person decided for both sides exactly when somebody approved for the treasury in a church they did not lead and for the pastor in one they led |
| Approval.TwoPeople | src/solicitacoes/solicitacoes.service.ts:169-187 | while the church keeps its leader, nothing is accepted without two different people |
| Approval.OnePersonTwice | src/solicitacoes/solicitacoes.service.ts:169-187 | a concrete run in which a treasurer who becomes the leader decides for both sides |
| Approval.NewLeaderTwoPeople | src/solicitacoes/solicitacoes.service.ts:169-187 | a concrete run in which the leader changes and two people decide |
| Approval.LateStatus | src/solicitacoes/solicitacoes.service.ts:199-233 | a status written late fits the decisions exactly when nothing is written, or no decision that counted was taken meanwhile |
| Approval.ReopenedByHand | src/solicitacoes/solicitacoes.service.ts:199-233 | a concrete run in which a rejected request is under review again |
| Approval.RequestDesk.MarkItems | src/solicitacoes/solicitacoes.service.ts:324-336 | the loop gives every item this side's mark and its result |
| Approval.RequestDesk.DecideOn | src/solicitacoes/solicitacoes.service.ts:251-345 | the checks in their order, the loop over the items, then the request |
| Approval.RequestDesk.ChangeByHand | src/solicitacoes/solicitacoes.service.ts:199-233 | the status changes by hand only before any decision |
| ApprovalOutcomes.DecideAnswers | src/solicitacoes/solicitacoes.service.ts:251-293 | a decision is taken exactly by the leader or a treasurer of the church, on an open request whose side has not decided, refusing or approving some products of it and no other; and which refusal is given when |
| ApprovalOutcomes.DecideWrites | src/solicitacoes/solicitacoes.service.ts:300-345 | the deciding side signs and marks every product, the other side's part stays, and there are results exactly after a refusal or a second approval |
| ApprovalOutcomes.DecideCloses | src/solicitacoes/solicitacoes.service.ts:310-321 | a refusal rejects, a first approval leaves it to the other side, a second one accepts all, some or nothing by what both approve |
| ApprovalOutcomes.ChangeWrites | src/solicitacoes/solicitacoes.service.ts:199-233 | by hand the status becomes the one asked for, until somebody decides, and nothing else changes |
| ApprovalOutcomes.LateWrites | src/solicitacoes/solicitacoes.service.ts:199-233 | the write of a change by hand, whatever came between, puts the status asked for exactly when it is another than the one read and nobody had decided then, and touches nothing else |
| Families.RunKeeps | src/membros/membros.service.ts:197-320 | over every run no family is empty, every link leads to a family of the person's own church, and who is no member has none |
| Families.NobodyIsMoved | src/membros/membros.service.ts:281-320 | nobody changes church without being removed first |
| Families.OneChurchEach | src/membros/membros.service.ts:281-305 | of two churches taking one person the second gets the conflict |
| Families.CreateMeaning | src/membros/membros.service.ts:213-229 | a new family has exactly the people chosen, and an older one survives exactly when somebody of it was not |
| Families.UpdateMeaning | src/membros/membros.service.ts:231-255 | adding people keeps those who were in the family, takes nobody else, and an older family survives exactly when somebody of it was not taken |
| Families.OutMeaning | src/membros/membros.service.ts:197-275 | taking somebody out, of the family or of the church, changes nobody else, and the family goes exactly when nobody else was in it |
| Families.DissolveMeaning | src/membros/membros.service.ts:258-265 | the people of a dissolved family stay members without a family, and nothing else changes |
| Families.MoveKeeps | src/membros/membros.service.ts:231-255 | after people change family only the families they left can be empty |
| Families.MembersService.DeleteIfEmpty | src/membros/membros.service.ts:366-372 | the family goes exactly when nobody is left in it |
| Families.MembersService.DeleteEmpty | src/membros/membros.service.ts:374-376 | of the given families exactly the empty ones go |
| Families.MembersService.BecomeMember | src/membros/membros.service.ts:291-305 | only somebody who is no member of a church becomes one |
| Families.MembersService.RemoveMember | src/membros/membros.service.ts:197-209 | membership and family link go together, and an emptied family too |
| Families.MembersService.CreateFamily | src/membros/membros.service.ts:213-229 | the writes one by one, then the emptied families |
| Families.MembersService.UpdateFamily | src/membros/membros.service.ts:231-255 | the people added leave their families, which go if emptied |
| Families.MembersService.DissolveFamily | src/membros/membros.service.ts:258-265 | nobody keeps the link, and the family goes |
| Families.MembersService.TakeOutOfFamily | src/membros/membros.service.ts:267-275 | the person leaves, and an emptied family goes |
| FamiliesOutcomes.BecomeWrites | src/membros/membros.service.ts:291-305 | only whoever has no church becomes a member, and nothing else changes |
| FamiliesOutcomes.RemoveWrites | src/membros/membros.service.ts:197-209 | a member of the church leaves it and the family, which goes exactly when nobody else is in it |
| FamiliesOutcomes.CreateWrites | src/membros/membros.service.ts:213-229 | who may be put in a new family, who is in it then, which families go, and which refusal is given when |
| FamiliesOutcomes.UpdateWrites | src/membros/membros.service.ts:231-255 | the same for adding people |
| FamiliesOutcomes.DissolveWrites | src/membros/membros.service.ts:258-265 | a family of the church goes, and exactly its people have none |
| FamiliesOutcomes.TakeOutWrites | src/membros/membros.service.ts:267-275 | a member of the church leaves the family, which goes exactly when nobody else is in it |
| FamilyRaces.LeaveExact | src/membros/membros.service.ts:197-275 | a person leaving keeps the families right exactly when a family left empty is minded by a request at work |
| FamilyRaces.FillExact | src/membros/membros.service.ts:213-255 | putting people in a family keeps them right exactly when all are still members of its church and a family they leave empty is minded |
| FamilyRaces.StopExact | src/membros/membros.service.ts:213-376 | a request that ends early, its family gone or its id in use, does no harm exactly when none of the families it had still to count is empty and minded by nobody else |
| FamilyRaces.StepExact | src/membros/membros.service.ts:197-376 | every read, write and count keeps the families right exactly when it finds what it has to |
| FamilyRaces.RunExact | src/membros/membros.service.ts:197-376 | over every interleaving the families are right all along exactly when every write finds that |
| FamilyRaces.QuietGood | src/membros/membros.service.ts:197-376 | with nobody at work, right means what whole operations keep |
| FamilyRaces.WholePurge | src/membros/membros.service.ts:366-376 | counting and deleting one by one, in whatever order, deletes exactly the empty ones |
| FamilyRaces.WholeRemoval | src/membros/membros.service.ts:197-209 | undisturbed, the steps of a removal are the whole removal |
| FamilyRaces.WholeTakeOut | src/membros/membros.service.ts:267-275 | the same for taking somebody out of a family |
| FamilyRaces.WholeCreation | src/membros/membros.service.ts:213-229 | the same for a new family, in whatever order the old ones are counted |
| FamilyRaces.WholeUpdate | src/membros/membros.service.ts:231-255 | the same for adding people |
| FamilyRaces.WholeDissolution | src/membros/membros.service.ts:258-265 | the same for dissolving a family |
| FamilyRaces.WholeBecoming | src/membros/membros.service.ts:291-305 | becoming a member is one write, and the whole operation |
| FamilyRaces.EndsAtOnce | src/membros/membros.service.ts:197-275 | a request that is refused ends with its reading, and so does one to take out somebody who is in no family or to add nobody, where the whole operation changes nothing |
| FamilyFailures.PutInAfterLeaving | src/membros/membros.service.ts:213-229 | a run in which somebody is removed from the church while a family is made: it has a person who is no member |
| FamilyFailures.LeftEmptyUncounted | src/membros/membros.service.ts:267-275 | a run in which somebody changes family while being taken out: the new family stays, empty |
| FamilyFailures.StoppedTooEarly | src/membros/membros.service.ts:366-376 | a run in which a second deletion of a family fails and the next empty one is never counted |

## Left out

- Gateways, e-mail, notifications, sockets, image storage, PDF rendering and the captcha service: input and output. What they answer is a parameter where a step depends on it.
- Discounts and checkout totals: the code they rest on is not part of this model.
- What a gateway notification carries: which payments its reference has, and the status left after comparing what was paid with what was charged, are parameters. A charge the nightly routine skips is no step.
- Floating point: amounts are integer cents, and rounding to cents happens before the model starts.
- Texts and names in error messages, and which operator is named in them.
- The payment method, receipts and the origin of a payment.
- Retries after a serialization conflict: each transaction is one atomic step.
- A failing write of a login attempt, which the original only logs: every attempt is recorded.
- Parsing of times of day and of dates: a schedule has an hour and a minute.
- Deletion of accounts, churches, events and news beyond the operations modelled, and what the database deletes with them.
- Rooms edited by hand while check-in is going on, and capacities changed meanwhile.
- Text of the answer to a member's request, and the products of a request changed after it was made.
- Guards, roles, tenants and plan modules: access checks of one branch each.
- Store.Apply: what registration, removal, the gateway link and the event form do to the payments is one step each, without their own checks.
- Reconciliation.RunKeepsLinks: takes whole operations one after the other; `ReconciliationRaces.RunExact` says what survives when they interleave.
- LoginBrake.RunSpaces: takes attempts one after the other, each judged and recorded at one instant; `LoginRaces.RunExact` says what survives when they interleave.
- LoginBrake.Apply: a step dated no later than the last one is not a step, as if instants were never equal; the same goes for recordings in `LoginRaces`.
- CurrentPassword.AtMostFive: takes checks one after the other; `CurrentPasswordRaces.RunExact` says what survives when they overlap.
- PdfQueue.PdfQueue.Enter: a signal that was already aborted on arrival never fires its listener, so such a request waits as any other; asks that each request is a new one.
- Checkin.RunKeeps: takes whole operations one after the other; `CheckinRaces.RunExact` says what survives when they interleave.
- Checkin.NextIsFirst: reads the queue and calls in one step; `CallRaces` takes them apart.
- Checkin.CheckinService.CallTheNext: runs with nobody in between, so its loop stops at the first of the five; `CallRaces.CallDesk.CallTheNext` has the updates of others in between.
- Registration.RunKeeps: takes leaving the event and leaving the waitlist as one step each, although the original checks before it deletes and runs the deletions of a removal at the default isolation; keeps capacities and the groups of the roles fixed, and leaves the payments of registrations to the store.
- Families.RunKeeps: takes whole operations one after the other; `FamilyRaces.RunExact` says what survives when their writes interleave. An empty list of people is refused as the request's own validation does.
