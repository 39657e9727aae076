# full-pos in Dafny

A model of the core of full-pos, a point-of-sale and billiard-hall system. The
web client keeps its state in a React data provider; the API server checks
permissions.

The model covers these parts:

- **Billing engine.** The hall bills a billiard session from its clock fields
  and the snapshot of the pricelist package it was started with. The steps are
  grace period, minimum bill, rounding up to 5/10/15 minutes, then pricing per
  minute, per quarter hour or per hour, plus the F&B lines (`Billing`).
- **Session lifecycle.** Start, pause, resume, stop, add F&B and the
  one-second tick rewrite the table and session lists together (`Ledger`). The
  provider is the class `Ledger.BilliardLedger`, whose methods apply those
  transitions to its fields.
- **The rest of the provider.** Catalogue guards (`Catalog`), sales with their
  stock loops and invoice numbers (`Sales`), kitchen orders (`Kitchen`) and
  cashier shifts with their reconciliation (`Shifts`). The class `Store.Shop`
  holds these lists. Its `MoveStock` is the `forEach` loop over a sale's items.
- **The screens.**
  - The POS cart and its payment (`Pos`).
  - The session control dialog (`SessionControl`).
  - The floor plan (`FloorPlan`).
  - The session history (`History`).
  - The kitchen rules (`Kitchen`).
  - The `HH:MM:SS` duration string (`Duration`).
  - The return dialog (`Returns`).
- **Server middleware.** Authentication and the permission decision (`Auth`).
- **Helpers.** `Collections` holds filters, sums and subsequences. `Text`
  holds ASCII lower-casing, trimming, decimal strings and `padStart`.

Conventions:

- Time is an integer number of milliseconds. Minutes and money are reals.
- JavaScript truthiness of an optional timestamp is `Billing.IsSet`: it is
  false for absent and for 0.
- Ids, clock readings and dates are parameters, because the source builds
  them from `Date.now()`.
- `parseFloat`, the database lookup and the local-day date window are also
  parameters.

Where the names in `types.ts` and the code disagree, the model follows the
code. One example is the sale status and notes that `useData.tsx` writes but
the declared `Sale` type lacks.

## Model

| member | source | states |
|---|---|---|
| Billing.Ceil | hooks/useData.tsx:84 | `Math.ceil`: the least integer not below its argument |
| Billing.RoundMinutes | hooks/useData.tsx:80-92 | NONE leaves the minutes as they are; UP_5/10/15 give at least the minutes and less than one step above |
| Billing.RoundMinutesWhole | hooks/useData.tsx:83-91 | UP_5/10/15 give `Math.ceil(m / step)` steps: a whole number of steps |
| Billing.RoundMinutesLeast | hooks/useData.tsx:83-91 | the rounded value is the least multiple of the step not below the minutes |
| Billing.RoundMinutesMonotonic | hooks/useData.tsx:80-92 | rounding never decreases as the minutes grow |
| Billing.ElapsedMinutes | hooks/useData.tsx:64-69 | the billing minutes are clamped at 0 (the elapsed milliseconds themselves are not) |
| Billing.AfterGrace | hooks/useData.tsx:74 | the minutes left after the grace period are never negative |
| Billing.ElapsedMs | hooks/useData.tsx:64-68 | `durationMs`: wall time since start less the closed pauses and a pause still open; its properties are in Billing.ElapsedMonotonic, Ledger.PausedClockStandsStill and Ledger.PauseThenResume |
| Billing.BilledMinutes | hooks/useData.tsx:74-92 | the minutes billed after grace, the minimum and the rounding; its properties are in Billing.BilledMinutesBounds, Billing.BilledAtLeastFloored, Billing.BilledBelowNextStep, Billing.BilledUnroundedForNone and Billing.BilledMinutesMonotonic |
| Billing.Units | hooks/useData.tsx:94-106 | the billed minutes in the package's pricing unit; its property is Billing.UnitsConversion |
| Billing.TimeCharge | hooks/useData.tsx:71-109 | nothing within grace, otherwise units times the unit price; its properties are in Billing.GraceIsFree, Billing.TimeChargePastGrace, Billing.TimeChargeNonNegative and Billing.TimeChargeMonotonic |
| Billing.FnbCharge | hooks/useData.tsx:111 | the sum of price times quantity over the F&B lines; its properties are in Billing.Bill and Billing.BillNonNegative |
| Billing.LineTotal | hooks/useData.tsx:111 | one F&B line's price times quantity, the summand of `Billing.FnbCharge`; its use is stated in Billing.BillNonNegative and Billing.Vip50MinutesWithDrinks |
| Billing.Bill | hooks/useData.tsx:59-119 | an ENDED session gets no update; otherwise durationMs is now − start − closed pauses − the open pause, and total = time charge + F&B charge |
| Billing.WithCharges | hooks/useData.tsx:168 | spreading a bill over a session changes only the four charge fields, and an empty bill changes nothing |
| Billing.GraceIsFree | hooks/useData.tsx:74-76 | within the grace period the time charge and the billed minutes are 0, whatever the minimum bill |
| Billing.BilledMinutesBounds | hooks/useData.tsx:76-108 | past grace, billed minutes are max(after-grace, minimum) rounded up by less than one step, unrounded for NONE, and the time charge is those minutes in units times the rate |
| Billing.BilledAtLeastFloored | hooks/useData.tsx:78-92 | billed minutes are never below max(after-grace, minimum) |
| Billing.BilledBelowNextStep | hooks/useData.tsx:78-92 | billed minutes are less than one rounding step above max(after-grace, minimum) |
| Billing.BilledUnroundedForNone | hooks/useData.tsx:81 | without rounding, billed minutes are exactly max(after-grace, minimum) |
| Billing.TimeChargePastGrace | hooks/useData.tsx:94-108 | past grace, time charge = units × pricePerUnit |
| Billing.UnitsConversion | hooks/useData.tsx:95-106 | units are the minutes divided by 1, 15 or 60 |
| Billing.TimeChargeNonNegative | hooks/useData.tsx:71-109 | with a non-negative rate, the time charge is non-negative |
| Billing.TimeChargeMonotonic | hooks/useData.tsx:71-109 | with a non-negative rate, the time charge never falls as minutes grow |
| Billing.BilledMinutesMonotonic | hooks/useData.tsx:74-92 | past grace, billed minutes never fall as minutes grow |
| Billing.ElapsedMonotonic | hooks/useData.tsx:64-69 | elapsed minutes never fall as the clock advances |
| Billing.BillMonotonic | hooks/useData.tsx:59-119 | an open session's total never falls as the clock advances; an ENDED one is never billed |
| Billing.BillNonNegative | hooks/useData.tsx:108-117 | with a non-negative rate and F&B lines, all three charges are non-negative |
| Billing.BillIgnoresCharges | hooks/useData.tsx:59-119 | the bill reads only clock fields, package and F&B lines, so re-billing an updated session gives the same bill |
| Billing.BillOfRunningSince0 | hooks/useData.tsx:59-119 | a session running since 0 is billed on exactly its elapsed minutes |
| Billing.RegularPool35Minutes | constants.ts:107-140 | pkg-1 at 35 minutes: 33 after grace, rounded to 45, charged 37500 |
| Billing.RegularPoolInsideGrace | constants.ts:107-140 | pkg-1 at 1.5 minutes: inside the 2-minute grace, charged 0 |
| Billing.Vip50MinutesWithDrinks | constants.ts:107-140 | pkg-2 at 50 minutes: raised to the 60-minute minimum, one hour at 75000, plus F&B |
| Billing.Snooker10Minutes | constants.ts:107-140 | pkg-3 at 10 minutes: 9 after grace, raised to 20, charged 20000 |
| Ledger.PauseOne | hooks/useData.tsx:410 | only a RUNNING session with the id becomes PAUSED at now; anything else is unchanged |
| Ledger.NewSession | hooks/useData.tsx:395-404 | the RUNNING session literal with zero charges and no F&B; its properties are in Ledger.Start and Ledger.StartKeepsConsistent |
| Ledger.Refresh | hooks/useData.tsx:163-169 | one session's tick: open sessions take their bill, others stay; its properties are in Ledger.Tick and Ledger.TickIdempotent |
| Ledger.ResumeOne | hooks/useData.tsx:418-424 | only a PAUSED session with a pause time resumes, adding now − pauseTime to totalPauseDuration and clearing pauseTime |
| Ledger.FinalSession | hooks/useData.tsx:435-437 | the stopped session is ENDED at now, billed at now when it was open, its charges kept when it was already ENDED, and nothing else changes |
| Ledger.BumpQty | hooks/useData.tsx:452 | only the lines for the product grow by qty |
| Ledger.WithFnb | hooks/useData.tsx:448-455 | an existing line for the product grows at its recorded price; otherwise one line is appended at product.price |
| Ledger.Occupy | hooks/useData.tsx:406 | only the tables with the id become RUNNING, pointing at the new session |
| Ledger.Mark | hooks/useData.tsx:413 | only the tables with the id take the status |
| Ledger.Release | hooks/useData.tsx:440 | only the tables with the id become FREE with no current session |
| Ledger.Start | hooks/useData.tsx:389-407 | no change unless the table and package exist and the table is FREE; then exactly one RUNNING session (copy of the package, all zero) is appended and only that table points at it |
| Ledger.Pause | hooks/useData.tsx:409-415 | the session pauses if RUNNING; its table is marked PAUSED whenever the session exists, whatever its status |
| Ledger.Resume | hooks/useData.tsx:417-429 | the session resumes if PAUSED with a pause time; its table is marked RUNNING whenever the session exists |
| Ledger.Stop | hooks/useData.tsx:431-442 | fails exactly when no session has the id; otherwise the final session replaces every session with that id and its table is freed |
| Ledger.AddFnb | hooks/useData.tsx:444-458 | only the F&B lines of the sessions with the id change; tables are untouched |
| Ledger.Tick | hooks/useData.tsx:159-173 | every open session takes its bill at now and nothing else of it changes; ENDED sessions and tables are untouched |
| Ledger.AddFnbToEndedSessionStaysUnbilled | hooks/useData.tsx:444-458 | F&B added to an ENDED session lands on its lines, yet its F&B and total charges stay those of the stop, and a later tick leaves them so |
| Ledger.AddTable | hooks/useData.tsx:359-370 | refused exactly when a table has the name ignoring case; otherwise a FREE table without a session is appended |
| Ledger.Edit | hooks/useData.tsx:376 | only the tables with the id take the new editable fields; status and current session are kept |
| Ledger.UpdateTable | hooks/useData.tsx:372-378 | refused exactly when another table has the name ignoring case; otherwise only the editable fields change |
| Ledger.TableNameClash | hooks/useData.tsx:361 | guard helper: some table other than the excepted id has the name, ignoring case; Ledger.AddTable (no exception, line 361) and Ledger.UpdateTable (the edited id excepted, line 374) state their refusals by it |
| Ledger.DeleteTable | hooks/useData.tsx:380-387 | refused exactly when the table is found and not FREE; otherwise every table with the id goes and the others stay in order, each as often as before |
| Ledger.AddPackage | hooks/useData.tsx:348-351 | the package is appended under the new id |
| Ledger.UpdatePackage | hooks/useData.tsx:352-354 | only the packages with the id are replaced |
| Ledger.DeletePackage | hooks/useData.tsx:355-357 | the packages without the id stay, in order and with their multiplicity, and no package with the id is left |
| Ledger.HostOf | hooks/useData.tsx:389-442 | on a consistent floor an open session has exactly one hosting table |
| Ledger.FreeIffNoOpenSession | hooks/useData.tsx:389-442 | on a consistent floor a table is FREE exactly when no RUNNING or PAUSED session is on it |
| Ledger.AtMostOneOpenSession | hooks/useData.tsx:389-442 | on a consistent floor no table has two open sessions |
| Ledger.FoundSession | hooks/useData.tsx:432 | with unique ids the session found by id is the only one with it |
| Ledger.FoundTable | hooks/useData.tsx:390 | with unique ids the table found by id is the only one with it |
| Ledger.SameIdSameTable | hooks/useData.tsx:390 | unique table ids identify positions |
| Ledger.SameIdSameSession | hooks/useData.tsx:432 | unique session ids identify positions |
| Ledger.ConsistentInStep | hooks/useData.tsx:159-173 | a step keeping ids, current sessions and hosting pairs keeps the floor invariant |
| Ledger.ConsistentAfterRetag | hooks/useData.tsx:409-429 | retagging a hosting pair in step keeps the floor invariant |
| Ledger.ConsistentAfterOccupy | hooks/useData.tsx:394-406 | occupying a FREE table with a new RUNNING session keeps the floor invariant |
| Ledger.ConsistentAfterRelease | hooks/useData.tsx:437-440 | ending a hosted session and freeing its table keeps the floor invariant |
| Ledger.ConsistentAfterNewTable | hooks/useData.tsx:363-368 | appending a FREE table with a fresh id keeps the floor invariant |
| Ledger.ConsistentAfterRemoveTable | hooks/useData.tsx:385 | removing a FREE table keeps the floor invariant |
| Ledger.StartKeepsConsistent | hooks/useData.tsx:389-407 | starting with a fresh session id keeps the floor invariant |
| Ledger.PauseKeepsConsistent | hooks/useData.tsx:409-415 | pausing an open (or unknown) session keeps the floor invariant |
| Ledger.ResumeKeepsConsistent | hooks/useData.tsx:417-429 | resuming an open (or unknown) session keeps the floor invariant |
| Ledger.StopKeepsConsistent | hooks/useData.tsx:431-442 | stopping an open session keeps the floor invariant |
| Ledger.AddFnbKeepsConsistent | hooks/useData.tsx:444-458 | adding F&B keeps the floor invariant |
| Ledger.TickKeepsConsistent | hooks/useData.tsx:159-173 | the tick keeps the floor invariant |
| Ledger.TableAdminKeepsConsistent | hooks/useData.tsx:359-387 | adding (with a fresh id), updating and deleting tables keep the floor invariant |
| Ledger.DeleteKeepsConsistent | hooks/useData.tsx:380-387 | a permitted delete keeps the floor invariant |
| Ledger.PausedClockStandsStill | hooks/useData.tsx:64-68 | while paused the elapsed time stays at its value at the pause |
| Ledger.PauseThenResume | hooks/useData.tsx:409-424 | a pause from t1 to t2 takes exactly t2 − t1 off the elapsed time |
| Ledger.TickIdempotent | hooks/useData.tsx:163-169 | two ticks at the same clock equal one |
| Ledger.StopEndedKeepsCharges | hooks/useData.tsx:431-437 | stopping an ENDED session keeps its charges and only stamps the end time |
| Ledger.StopOfEndedSessionFreesBusyTable | hooks/useData.tsx:431-440 | without a status check, stopping an old ENDED session frees a table another session is playing on |
| Ledger.BilliardLedger.constructor | hooks/useData.tsx:130-132 | the ledger starts with the given tables and packages and no session |
| Ledger.BilliardLedger.StartSession | hooks/useData.tsx:389-407 | the new state is `Start` of the old; the invariant is kept for a fresh id |
| Ledger.BilliardLedger.PauseSession | hooks/useData.tsx:409-415 | the new state is `Pause` of the old; the invariant is kept when the session is open |
| Ledger.BilliardLedger.ResumeSession | hooks/useData.tsx:417-429 | the new state is `Resume` of the old; the invariant is kept when the session is open |
| Ledger.BilliardLedger.StopSession | hooks/useData.tsx:431-442 | an unknown id answers None and changes nothing; otherwise it answers the final session and takes the state `Stop` gives |
| Ledger.BilliardLedger.AddFnbToSession | hooks/useData.tsx:444-458 | the new state is `AddFnb` of the old; the invariant is kept |
| Ledger.BilliardLedger.TickAt | hooks/useData.tsx:159-173 | the new state is `Tick` of the old; the invariant is kept |
| Ledger.BilliardLedger.AddBilliardTable | hooks/useData.tsx:359-370 | refusal answers the message and changes nothing; success takes `AddTable`'s state |
| Ledger.BilliardLedger.UpdateBilliardTable | hooks/useData.tsx:372-378 | refusal answers the message and changes nothing; success takes `UpdateTable`'s state |
| Ledger.BilliardLedger.DeleteBilliardTable | hooks/useData.tsx:380-387 | refusal answers the message and changes nothing; success takes `DeleteTable`'s state |
| Ledger.BilliardLedger.AddPricelistPackage | hooks/useData.tsx:348-351 | only the package list changes, by `AddPackage` |
| Ledger.BilliardLedger.UpdatePricelistPackage | hooks/useData.tsx:352-354 | only the package list changes, by `UpdatePackage` |
| Ledger.BilliardLedger.DeletePricelistPackage | hooks/useData.tsx:355-357 | only the package list changes, by `DeletePackage` |
| Catalog.AddProduct | hooks/useData.tsx:206-223 | succeeds exactly when SKU and name are new ignoring case, no value is negative and category and unit exist; the first failing guard in source order gives its message; success appends the product under the new id |
| Catalog.Replace | hooks/useData.tsx:236 | only the products with the id are replaced |
| Catalog.UpdateProduct | hooks/useData.tsx:225-239 | succeeds exactly when no other product has the SKU or name and no value is negative; the first failing guard in source order gives its message (SKU, then name, then negative value); success replaces the product |
| Catalog.SkuClash | hooks/useData.tsx:208 | guard helper: some product other than the excepted id has the SKU, ignoring case; Catalog.AddProduct (line 208) and Catalog.UpdateProduct (line 227, the edited id excepted) state their first refusal by it |
| Catalog.NameClash | hooks/useData.tsx:210 | guard helper: the same for the product name; Catalog.AddProduct (line 210) and Catalog.UpdateProduct (line 229) state their second refusal by it |
| Catalog.AddProductKeepsCatalog | hooks/useData.tsx:206-223 | a successful add keeps SKUs and names distinct and references valid, keeps non-negative values, and keeps ids unique for a fresh id |
| Catalog.UpdateProductKeepsKeys | hooks/useData.tsx:225-239 | a successful update keeps SKUs and names distinct, ids unique and values non-negative |
| Catalog.UpdateProductSkipsReferenceCheck | hooks/useData.tsx:225-239 | moving a valid product to a category id that does not exist is accepted, and the catalogue then has a dangling reference |
| Catalog.AddCategory | hooks/useData.tsx:241-245 | the category is appended under the new id |
| Catalog.UpdateCategory | hooks/useData.tsx:247-250 | only the names of the categories with the id change |
| Catalog.DeleteCategory | hooks/useData.tsx:252-260 | refused exactly when a product uses it; otherwise no category with the id remains and the rest stay in order, each as often as before |
| Catalog.AddUnit | hooks/useData.tsx:262-266 | the unit is appended under the new id |
| Catalog.UpdateUnit | hooks/useData.tsx:268-271 | only the units with the id take the new name and precision |
| Catalog.DeleteUnit | hooks/useData.tsx:273-281 | refused exactly when a product uses it; otherwise no unit with the id remains and the rest stay in order, each as often as before |
| Catalog.EditsKeepReferences | hooks/useData.tsx:241-271 | adding or editing categories and units keeps every product's references valid |
| Catalog.DeleteKeepsReferences | hooks/useData.tsx:252-281 | a permitted delete keeps every product's references valid |
| Sales.InvoiceNoReadsBack | hooks/useData.tsx:291 | the invoice number is `INV-` and digits that read back as the position, eight characters below 10000 |
| Sales.InvoiceNoInjective | hooks/useData.tsx:291 | different positions give different invoice numbers |
| Sales.InvoiceNo | hooks/useData.tsx:291 | `INV-` and the padded position; its properties are in Sales.InvoiceNoReadsBack and Sales.InvoiceNoInjective |
| Sales.NewSale | hooks/useData.tsx:291 | the recorded sale is the draft with the id, the next invoice number, the date, the shift and status COMPLETED |
| Sales.Slot | hooks/useData.tsx:296 | `findIndex`: the first product with the id, or none exactly when no product has it |
| Sales.Adjust | hooks/useData.tsx:293-300 | one loop pass moves only the first product with the item's id, by −qty on a sale and +qty on a void |
| Sales.AdjustFound | hooks/useData.tsx:297 | a found product's stock moves by the signed quantity |
| Sales.AdjustMissing | hooks/useData.tsx:296-297 | an item whose product is missing changes nothing |
| Sales.RestockStep | hooks/useData.tsx:295-298 | one more item through the loop is one more pass |
| Sales.Restock | hooks/useData.tsx:295-299 | the stock loop as a fold over the items; its properties are in Sales.RestockEffect, Sales.SaleTakesStock, Sales.VoidRestoresStock and Store.Shop.MoveStock |
| Sales.SlotSameIds | hooks/useData.tsx:296 | the lookup depends only on the ids |
| Sales.MovedSameIds | hooks/useData.tsx:295-298 | the quantity sent to a position depends only on the ids |
| Sales.RestockIds | hooks/useData.tsx:293-300 | the loop keeps every product's id in place |
| Sales.RestockEffect | hooks/useData.tsx:293-330 | the loop changes only stock, each product's by the signed total the items send to its position |
| Sales.VoidRestoresStock | hooks/useData.tsx:293-330 | voiding a sale right after recording it gives back every product's stock |
| Sales.SlotOfUnique | hooks/useData.tsx:296 | with unique ids a product's own id finds it |
| Sales.MovedByProduct | hooks/useData.tsx:295-298 | with unique ids a product receives the total quantity of its id among the items |
| Sales.SaleTakesStock | hooks/useData.tsx:293-300 | with unique ids a sale lowers each product's stock by its total quantity sold and keeps every other field |
| Sales.RestockKeepsCatalog | hooks/useData.tsx:293-300 | the loop keeps ids unique, SKUs and names distinct and references valid |
| Sales.SaleCanOversell | hooks/useData.tsx:287-300 | a sale is not checked against stock and can leave it negative |
| Sales.Voidable | hooks/useData.tsx:313-316 | a sale can be voided exactly when the first sale with the id is COMPLETED |
| Sales.VoidSales | hooks/useData.tsx:318 | only the sales with the id become VOIDED with the reason noted |
| Sales.VoidedSale | hooks/useData.tsx:318 | a voided sale is VOIDED with the note "Voided: " followed by the reason, and every other field is the sale's own |
| Sales.KitchenItems | hooks/useData.tsx:301 | the kitchen items are exactly the items whose product is for the kitchen, in order, each with its multiplicity in the sale |
| Sales.KitchenOrder | hooks/useData.tsx:301-308 | no order without kitchen items; otherwise a NEW order for the sale with one NEW ticket per kitchen item, in order, whose id is `kds-item-` and the item's id |
| Sales.Ticket | hooks/useData.tsx:305 | one NEW kitchen ticket for a sale item, with its product and quantity; its use is stated in Sales.KitchenOrder and its ids in Sales.TicketIdsInjective |
| Sales.TicketIdsInjective | hooks/useData.tsx:305 | two tickets have the same id exactly when their items do, since the item id reads back after `kds-item-` |
| Kitchen.NextItemStatus | pages/KdsPage.tsx:35-43 | NEW and ACCEPTED go to COOKING, COOKING to READY, the others stay |
| Kitchen.ClicksSettle | pages/KdsPage.tsx:35-43 | a click never moves an item backwards or past READY, and clicks reach READY and then change nothing |
| Kitchen.WithStatus | hooks/useData.tsx:337 | the order and every one of its items take the status |
| Kitchen.UpdateOrderStatus | hooks/useData.tsx:337 | only the orders with the id change |
| Kitchen.SetItem | hooks/useData.tsx:340-343 | only the items with the id change; the order becomes READY when all its items are, and otherwise keeps its status |
| Kitchen.UpdateItemStatus | hooks/useData.tsx:338-345 | only the orders with the id change, as `SetItem` says |
| Kitchen.LastItemReadiesOrder | hooks/useData.tsx:342-343 | readying the last unready item readies the order; while another is unready the order keeps its status |
| Kitchen.ActiveOrders | pages/KdsPage.tsx:53 | exactly the orders neither SERVED nor CANCELLED, in order, each as often as in the input |
| Kitchen.NewCountDrops | pages/KdsPage.tsx:13-17 | turning one new order into a non-new one lowers the count of new orders by one |
| Kitchen.NewCountSame | pages/KdsPage.tsx:13-17 | the count of new orders depends only on which orders are new |
| Kitchen.AutoAcceptFirstNew | pages/KdsPage.tsx:13-17 | a tick accepts only the first NEW order, with its items, lowering the count of new orders by one; with none it changes nothing |
| Kitchen.AutoAccept | pages/KdsPage.tsx:14-17 | the auto-accept step: the first NEW order becomes ACCEPTED; its property is Kitchen.AutoAcceptFirstNew |
| Shifts.ShiftSales | hooks/useData.tsx:524-526 | exactly the shift's sales, in order, each as often as in the input |
| Shifts.ShiftMovements | hooks/useData.tsx:520-522 | exactly the shift's cash movements, in order, each as often as in the input |
| Shifts.Takings | hooks/useData.tsx:183-185 | the total of the shift's sales paid by one method; its properties are in Shifts.TakingsAppend, Shifts.TakingsOne and Shifts.TakingsAgree |
| Shifts.Movements | hooks/useData.tsx:186-187 | the total of the shift's cash movements of one kind; its properties are in Shifts.MovementsAppend, Shifts.MovementsOne and Shifts.RecordedMovementCounts |
| Shifts.Reconciled | hooks/useData.tsx:180-198 | per-method takings and cash in/out of the shift; totalSales = cash + QRIS + transfer; expectedCash = startCash + cash sales + in − out; nothing else changes |
| Shifts.ActiveShift | hooks/useData.tsx:176-199 | none exactly when no shift is OPEN; otherwise the first OPEN shift, reconciled |
| Shifts.TakingsAppend | hooks/useData.tsx:183-185 | takings of two lists add up |
| Shifts.TakingsOne | hooks/useData.tsx:183-185 | one sale counts its total only under its own shift and method |
| Shifts.MovementsAppend | hooks/useData.tsx:186-187 | movement totals of two lists add up |
| Shifts.MovementsOne | hooks/useData.tsx:186-187 | one movement counts only under its own shift and kind |
| Shifts.RecordedSaleCounts | hooks/useData.tsx:183-197 | a recorded sale adds its total to its method's takings and to the total; only cash raises the expected cash |
| Shifts.RecordedMovementCounts | hooks/useData.tsx:186-197 | money in raises and money out lowers the expected cash by the amount; sales totals are unchanged |
| Shifts.TakingsAgree | hooks/useData.tsx:183-185 | takings depend only on each sale's shift, method and total |
| Shifts.SaleCountsInActiveShift | hooks/useData.tsx:176-199 | a sale under the active shift raises its total sales by the sale's total, and its expected cash too for cash |
| Shifts.VoidKeepsShiftFigures | hooks/useData.tsx:180-185 | voiding leaves the shift's figures unchanged: a voided sale still counts |
| Shifts.VoidKeepsActiveShift | hooks/useData.tsx:176-199 | voiding leaves the active shift unchanged |
| Shifts.OutletOf | hooks/useData.tsx:469 | a missing or empty outlet falls back to 'outlet-1' |
| Shifts.StartShift | hooks/useData.tsx:461-486 | refused while a shift is open, then without a user; success is exactly when neither holds, giving an OPEN shift with zero takings and the opening cash expected |
| Shifts.StartShiftKeepsOneOpen | hooks/useData.tsx:461-483 | starting a shift keeps at most one shift open |
| Shifts.StartedShiftIsActive | hooks/useData.tsx:461-483 | the started shift becomes the active one |
| Shifts.EndShift | hooks/useData.tsx:488-503 | refused exactly when no shift is open; otherwise CLOSED at now with the counted cash, the notes and difference = counted − expected, every other field of the shift as it was |
| Shifts.ClosedAt | hooks/useData.tsx:492-499 | the final shift: CLOSED at now with the counted cash, the notes and difference = counted − expected; every other field is the active shift's |
| Shifts.CloseShift | hooks/useData.tsx:500 | only the shifts with the final shift's id are replaced |
| Shifts.EndShiftClosesTill | hooks/useData.tsx:488-503 | with at most one shift open, ending it leaves none open |
| Shifts.AddCashMovement | hooks/useData.tsx:505-518 | refused exactly when no shift is open; otherwise the movement is recorded under the open shift |
| Shifts.MovementMovesExpectedCash | hooks/useData.tsx:505-518 | a recorded movement moves the active shift's expected cash by its signed amount |
| Store.Shop.constructor | hooks/useData.tsx:123-135 | the shop starts with the given catalogue and empty sales, orders, shifts and movements |
| Store.Shop.MoveStock | hooks/useData.tsx:293-330 | the loop leaves the products as `Restock` says and changes nothing else |
| Store.Shop.AddSale | hooks/useData.tsx:287-310 | refused without an active shift; otherwise it records the sale, takes its stock and raises its kitchen order; the active shift's totals include the sale; the invariant is kept |
| Store.Shop.VoidSale | hooks/useData.tsx:312-334 | refused unless the first sale with the id is COMPLETED; otherwise it voids and gives stock back; the active shift is unchanged; the invariant is kept |
| Store.Shop.UpdateKdsOrderStatus | hooks/useData.tsx:337 | only the kitchen orders change, by `UpdateOrderStatus` |
| Store.Shop.UpdateKdsItemStatus | hooks/useData.tsx:338-345 | only the kitchen orders change, by `UpdateItemStatus` |
| Store.Shop.StartShift | hooks/useData.tsx:461-486 | answers `StartShift`, appends on success, and keeps at most one shift open |
| Store.Shop.EndShift | hooks/useData.tsx:488-503 | answers `EndShift` and closes the shift on success, leaving no active shift |
| Store.Shop.AddCashMovement | hooks/useData.tsx:505-518 | records the movement on success and nothing on refusal |
| Store.Shop.AddProduct | hooks/useData.tsx:206-223 | changes the products only as `Catalog.AddProduct` says; the invariant is kept for a fresh id |
| Store.Shop.UpdateProduct | hooks/useData.tsx:225-239 | changes the products only as `Catalog.UpdateProduct` says; ids and keys stay distinct |
| Store.Shop.AddCategory | hooks/useData.tsx:241-245 | only the categories change; the invariant is kept |
| Store.Shop.UpdateCategory | hooks/useData.tsx:247-250 | only the categories change; the invariant is kept |
| Store.Shop.DeleteCategory | hooks/useData.tsx:252-260 | refused while in use; the invariant is kept |
| Store.Shop.AddUnit | hooks/useData.tsx:262-266 | only the units change; the invariant is kept |
| Store.Shop.UpdateUnit | hooks/useData.tsx:268-271 | only the units change; the invariant is kept |
| Store.Shop.DeleteUnit | hooks/useData.tsx:273-281 | refused while in use; the invariant is kept |
| Pos.AddToCart | pages/PosPage.tsx:45-56 | a product in the cart gets qty+1 on its line and nothing else changes; otherwise a line with qty 1, the product's price and discount 0 is appended |
| Pos.UpdateCartQty | pages/PosPage.tsx:58-67 | qty ≤ 0 removes the product's lines and keeps every other line, in order and with its multiplicity; otherwise only its lines take the qty, with the discount kept |
| Pos.Clamp | pages/PosPage.tsx:88 | the result lies in [0, line total]; an in-range value is kept; a negative one becomes 0 and an excess the line total |
| Pos.RequestedDiscount | pages/PosPage.tsx:73-86 | the discount the typed text asks for, as a percentage or an amount; its properties are in Pos.DiscountBounds |
| Pos.WithDiscount | pages/PosPage.tsx:72-90 | the line with the typed text and the clamped discount; its properties are in Pos.DiscountBounds |
| Pos.HandleDiscountChange | pages/PosPage.tsx:69-95 | only the product's lines change, taking the typed text and the clamped requested discount |
| Pos.DiscountBounds | pages/PosPage.tsx:69-95 | the new discount lies in [0, price×qty]; a '%' input gives that percentage of the line total and an unparsable one 0 (both clamped) |
| Pos.QtyChangeKeepsStaleDiscount | pages/PosPage.tsx:58-67 | lowering a quantity can leave a discount above the new line total |
| Pos.AddKeepsOneLinePerProduct | pages/PosPage.tsx:45-56 | adding keeps the cart at one line per product |
| Pos.QtyKeepsOneLinePerProduct | pages/PosPage.tsx:58-67 | a quantity change keeps one line per product |
| Pos.DiscountKeepsOneLinePerProduct | pages/PosPage.tsx:69-95 | a discount change keeps one line per product |
| Pos.FilteredKeepsOneLine | pages/PosPage.tsx:61 | removing a product's lines keeps one line per product |
| Pos.Total | pages/PosPage.tsx:114-118 | total = (subtotal − total discount) × (1 + tax%/100) |
| Pos.Subtotal | pages/PosPage.tsx:114 | the sum of price times quantity; its properties are in Pos.AddToCartSubtotal, Pos.AddToLineSubtotal, Pos.OneMore and Pos.Total |
| Pos.LineTotal | pages/PosPage.tsx:114 | one line's price times quantity, the summand of `Pos.Subtotal`; Pos.OneMore states how it moves |
| Pos.LineDiscount | pages/PosPage.tsx:115 | one line's discount, the summand of `Pos.TotalDiscount` |
| Pos.TotalDiscount | pages/PosPage.tsx:115 | the sum of the lines' discounts; Pos.TotalBounds states that for sane lines it lies between 0 and the subtotal |
| Pos.Tax | pages/PosPage.tsx:116-117 | tax on the discounted subtotal; its properties are in Pos.Total and Pos.TotalBounds |
| Pos.Change | pages/PosPage.tsx:119 | what was handed over less the total; its property is Pos.CashSaleBalances |
| Pos.TotalBounds | pages/PosPage.tsx:114-118 | with sane lines and a non-negative tax, 0 ≤ total ≤ subtotal × (1 + tax%/100) |
| Pos.AddToCartSubtotal | pages/PosPage.tsx:45-56 | adding raises the subtotal by the new line's price, or by the existing line's recorded price |
| Pos.AddToLineSubtotal | pages/PosPage.tsx:49-51 | one more on an existing line raises the subtotal by that line's price |
| Pos.OneMore | pages/PosPage.tsx:114 | one more unit raises a line's total by its price |
| Pos.AddToExistingLine | pages/PosPage.tsx:49-51 | with one line per product, adding bumps exactly that line |
| Pos.Checkout | pages/PosPage.tsx:121-136 | no sale exactly without a user, an active shift or a cart line; otherwise the draft carries the screen's figures, the cart lines as items and change = max(paid − total, 0) |
| Pos.CashSaleBalances | pages/PosPage.tsx:119-134 | when confirm is enabled, a cash sale records paid − total as change, and paid = total + change |
| Pos.ConfirmDisabled | pages/PosPage.tsx:295 | confirm is disabled exactly for a cash payment below the total; Pos.CashSaleBalances states what an enabled confirm guarantees |
| Pos.HandlePayment | pages/PosPage.tsx:121-143 | without a checkout nothing changes; otherwise the sale is recorded through `addSale` (sale appended, stock taken, kitchen order raised, all else of the shop unchanged, the active shift's sales total grown), the cart and amount paid are reset and the sale is kept for the receipt; the shop invariant is kept |
| Auth.AllPermissions | apps/server/src/middleware/auth.ts:52 | `flatMap`: a name is listed exactly when some role holds it |
| Auth.Authenticate | apps/server/src/middleware/auth.ts:20-67 | a missing or empty header gives 401 (missing id), an unknown user 401, a lookup failure 500; otherwise the user is attached with the duplicate-free union of the role permissions |
| Auth.RequirePermission | apps/server/src/middleware/auth.ts:69-91 | 401 without a user; on to the next handler exactly when the permissions grant; 403 otherwise |
| Auth.Covers | apps/server/src/middleware/auth.ts:76-83 | a permission grants exactly when it is 'all', the same name, or q + ':*' with the required name starting with q; without ':*' it is no wildcard |
| Auth.WildcardIsPlainPrefix | apps/server/src/middleware/auth.ts:79-83 | 'sale:*' grants 'sales:refund', and ':*' grants everything |
| Auth.GrantsMonotone | apps/server/src/middleware/auth.ts:51-83 | more permissions never take access away; de-duplication never changes a decision |
| Auth.GrantsSameMembers | apps/server/src/middleware/auth.ts:76-83 | the decision depends only on which names are held |
| Collections.Dedup | apps/server/src/middleware/auth.ts:51-53 | `[...new Set(xs)]`: no duplicates, the same members, in first-seen order |
| SessionControl.AvailablePackages | components/billiards/SessionControlModal.tsx:24-26 | exactly the active packages of the table's type, in order, each as often as in the input |
| SessionControl.DefaultSelection | components/billiards/SessionControlModal.tsx:28-32 | with nothing selected, the first available package; otherwise the selection is kept |
| SessionControl.DefaultSelectionSettles | components/billiards/SessionControlModal.tsx:28-32 | a second run changes nothing, and a package is selected once any is available |
| SessionControl.FilteredFnbMenu | components/billiards/SessionControlModal.tsx:34-38 | empty for an empty term; otherwise exactly the first min(5, n) of the n F&B products, in order, whose lower-cased name contains the lower-cased term |
| SessionControl.HandleStart | components/billiards/SessionControlModal.tsx:40-46 | without a selection the cashier is told to pick a package and nothing changes; otherwise the ledger takes `Start` |
| SessionControl.HandleStop | components/billiards/SessionControlModal.tsx:48-53 | the dialog's session is stopped and the final session kept for the receipt |
| SessionControl.HandleAddFnb | components/billiards/SessionControlModal.tsx:55-60 | one of the product goes on the session's bill and the search is cleared; without a session nothing happens |
| Duration.JsRem | components/billiards/SessionControlModal.tsx:66-67 | JavaScript's `%`: the remainder takes the sign of the dividend, is smaller than the divisor in size and completes the division rounding toward zero |
| Duration.Pad2 | components/billiards/SessionControlModal.tsx:65-67 | `String(n).padStart(2, '0')`; its properties are Duration.Pad2Small and Duration.Pad2Wide |
| Duration.FormatDuration | components/billiards/SessionControlModal.tsx:63-69 | milliseconds as `HH:MM:SS`, the same in FloorPage.tsx:31-37; its properties are in Duration.FormatNonNegative, Duration.FormatDurationReadsBack and Duration.FormatDurationWidth |
| Duration.SplitSeconds | components/billiards/SessionControlModal.tsx:64-67 | whole seconds split into hours, minutes 0..59 and seconds 0..59 |
| Duration.Pad2Small | components/billiards/SessionControlModal.tsx:65-67 | below 100, `padStart(2, '0')` gives two digits reading back as the number |
| Duration.Pad2Wide | pages/billiards/SessionHistoryPage.tsx:65 | at 100 and above the hours keep all their digits |
| Duration.FormatNonNegative | pages/billiards/FloorPage.tsx:31-37 | for a non-negative duration the fields are ⌊s/3600⌋, ⌊(s mod 3600)/60⌋ and s mod 60 for s = ⌊ms/1000⌋ |
| Duration.JoinedFields | pages/billiards/SessionHistoryPage.tsx:65 | the three fields are recoverable from the joined string |
| Duration.FormatDurationReadsBack | components/billiards/SessionControlModal.tsx:63-69 | the string reads back as hours (at least two digits), minutes 0..59 and seconds 0..59 that make up the whole seconds |
| Duration.FormatDurationWidth | pages/billiards/FloorPage.tsx:31-37 | below 100 hours the string is exactly eight characters |
| FloorPlan.ActiveSessions | pages/billiards/FloorPage.tsx:16-24 | the loop builds the table→session map that `Shown` defines |
| FloorPlan.Shown | pages/billiards/FloorPage.tsx:16-24 | the map from table to its last open session; its properties are in FloorPlan.ActiveSessions, FloorPlan.ShownIsLastOpen and FloorPlan.ShownIsTheOpenSession |
| FloorPlan.ShownIsLastOpen | pages/billiards/FloorPage.tsx:16-24 | a table has an entry exactly when it has a RUNNING or PAUSED session, and the entry is the last one in list order |
| FloorPlan.ShownIsTheOpenSession | pages/billiards/FloorPage.tsx:18-21 | with one open session per table, the entry is that session |
| FloorPlan.FloorShowsCurrentSessions | pages/billiards/FloorPage.tsx:16-24 | on a consistent floor a table shows its current session and a FREE table none |
| FloorPlan.ActiveTables | pages/billiards/FloorPage.tsx:26-28 | exactly the active tables, in order, each as often as in the input |
| History.TypeByName | pages/billiards/SessionHistoryPage.tsx:22 | every table name has an entry and every entry comes from a table |
| History.TypeByNameLast | pages/billiards/SessionHistoryPage.tsx:22 | a name maps to the type of the last table carrying it |
| History.Insert | pages/billiards/SessionHistoryPage.tsx:24 | inserting keeps the list latest first and adds exactly the session |
| History.InsertBehind | pages/billiards/SessionHistoryPage.tsx:24 | a session ending later stays in front of the inserted tail |
| History.SortLatestFirst | pages/billiards/SessionHistoryPage.tsx:24 | the same sessions, sorted by end time descending |
| History.EndedSessions | pages/billiards/SessionHistoryPage.tsx:24 | exactly the ENDED sessions with an end time, as a multiset, sorted latest first |
| History.FilteredSessions | pages/billiards/SessionHistoryPage.tsx:21-55 | with either date empty, the ended sessions; otherwise exactly those ending in the window, of the chosen type by table name and of the chosen package, each as often as among the ended sessions; always a latest-first subsequence of the ended sessions |
| History.SubsequenceKeepsOrder | pages/billiards/SessionHistoryPage.tsx:34-55 | filtering a latest-first list keeps it latest first |
| Returns.InitialReturnItems | apps/web/src/components/dashboard/ProcessReturnModal.tsx:51-59 | the `reduce` loop builds the map that `Initial` defines |
| Returns.Initial | apps/web/src/components/dashboard/ProcessReturnModal.tsx:51-59 | one entry per sold product at quantity 0, the last line winning; its properties are in Returns.InitialReturnItems, Returns.InitialKeys, Returns.InitialFromLastLine and Returns.InitialValid |
| Returns.InitialKeys | apps/web/src/components/dashboard/ProcessReturnModal.tsx:51-59 | one entry per sold product, each with quantity 0 |
| Returns.InitialFromLastLine | apps/web/src/components/dashboard/ProcessReturnModal.tsx:51-59 | a product's entry comes from its last line, its sold quantity the maximum |
| Returns.InitialValid | apps/web/src/components/dashboard/ProcessReturnModal.tsx:51-59 | the initial entries are valid when no sold quantity is negative |
| Returns.ChangeQuantity | apps/web/src/components/dashboard/ProcessReturnModal.tsx:77-85 | the entry takes the quantity only when 0 ≤ q ≤ max; otherwise nothing changes; other entries never change |
| Returns.ChangeQuantityKeepsValid | apps/web/src/components/dashboard/ProcessReturnModal.tsx:77-85 | quantity changes keep every entry within 0..max |
| Returns.ItemsToReturn | apps/web/src/components/dashboard/ProcessReturnModal.tsx:87-89 | exactly the entries with quantity > 0 |
| Returns.Submit | apps/web/src/components/dashboard/ProcessReturnModal.tsx:91-111 | refused without a user, then with nothing to return, then with a blank reason; otherwise the request carries the sale, the trimmed reason and each product's quantity |
| Returns.SubmittedWithinSold | apps/web/src/components/dashboard/ProcessReturnModal.tsx:77-111 | a submitted request never asks for more of a product than was sold, nor for none of it |
| Text.Lower | hooks/useData.tsx:207 | `toLowerCase` on ASCII letters: the same length, upper-case letters mapped |
| Text.Trim | apps/web/src/components/dashboard/ProcessReturnModal.tsx:108 | `trim` (the predicate `Trimmed`): a slice of the input with no leading or trailing blank, everything cut off on either side being blank; empty exactly when the input is all blank |
| Text.PadStart | hooks/useData.tsx:291 | `padStart`: at least the width, the original at its end |
| Text.StartsWith | apps/server/src/middleware/auth.ts:82 | `startsWith`: the prefix is no longer than the string and equals its start; its use is stated in Auth.Covers |
| Text.EndsWith | apps/server/src/middleware/auth.ts:80 | `endsWith`: the suffix is no longer than the string and equals its end; its use is stated in Auth.Covers and Pos.DiscountBounds (pages/PosPage.tsx:76) |
| Text.NatToString | hooks/useData.tsx:291 | `String(n)` for a whole number: one or more digits, no leading zero, one digit exactly below ten |
| Text.NatToStringValue | hooks/useData.tsx:291 | the digits of `String(n)` read back as `n` |
| Text.IntToString | components/billiards/SessionControlModal.tsx:65 | `String(i)`: digits that read back as `i` when it is not negative, otherwise a minus sign before the digits of `-i`; in both cases no leading zero in the digits |
| Text.Contains | components/billiards/SessionControlModal.tsx:37 | `includes`: the text occurs in the string at some index; its use is stated in SessionControl.FilteredFnbMenu |

## Left out

- Rendering, routing, modals' open/close state, `alert`, `confirm` and printing are left out: they are presentation only.
- The audit log (`addAuditLog`) is not modelled. It records who did what, and no operation depends on it.
- `updateOutlet` is not modelled: it is a plain record merge.
- Timers are not modelled. The `setInterval` scheduling of the one-second tick and of the kitchen auto-accept becomes single steps (`Ledger.Tick`, `Kitchen.AutoAccept`).
- Each React state update is one atomic transition. Closure staleness and batched `setState` are not modelled: pause and resume read `sessions` from their closure.
- Ids, clock readings and dates built from `Date.now()` and `new Date()` are parameters. Their uniqueness is a precondition wherever the invariant needs it. Two readings of the clock in the source are one in the model. The kitchen item's `kdsOrderId` is a second `Date.now()` reading; the model uses the order id. The stop reads `Date.now()` once for the final bill and again for `endTime`; `Ledger.Stop` uses one `now` for both.
- `parseFloat` is a parameter `string -> Option<real>`. JavaScript number parsing is not modelled.
- The database lookup in `authMiddleware` is a parameter. Prisma is not modelled.
- The session history's local-day window (`setHours` on the two dates) is a predicate parameter: date and locale libraries are not modelled.
- Money and minutes are reals, not IEEE-754 doubles. Rounding errors of JavaScript numbers are not modelled.
- Every product stays unchanged in the stock loop but for its stock. The source mutates the shared product objects in place, so the old product list aliases the new one. Aliasing is not modelled.
- `Returns.ItemsToReturn`: a map keyed by product. The order of `Object.values` is not modelled, so the request's items are a map from product id to quantity.
- `Returns.ChangeQuantity`: a product without an entry leaves the state unchanged. The source fails reading `maxQuantity` of `undefined`.
- `Pos.HandlePayment`: the screen's state is a value passed in and returned, not a class with fields. Frame reasoning across the shop's `addSale` was too costly with both objects on the heap. As a result, the model does not show the screen being updated in place.
- `Pos.UpdateCartQty`: the discount is not re-clamped after a quantity change, as written; `Pos.QtyChangeKeepsStaleDiscount` shows the stale value.
- `Shifts.Reconciled`: voided sales still count in the shift's figures, as written (`Shifts.VoidKeepsShiftFigures`).
- `Catalog.UpdateProduct`: references are not re-checked, as written, so `Store.Shop.UpdateProduct` keeps only ids and keys distinct, not references valid.
- Text.Lower: only the ASCII letters A–Z are folded, where `toLowerCase` folds every Unicode letter. Names that differ only in the case of a non-ASCII letter therefore count as different in `Catalog.SkuClash`, `Catalog.NameClash`, `Ledger.AddTable`, `Ledger.UpdateTable` and `SessionControl.FilteredFnbMenu`.
- History.SortLatestFirst: the order of sessions with equal end times is not stated. The source's stable sort keeps them in their stored order; the model proves only the order by end time and the permutation.
- Ledger.AddFnb: there is no status check, as written. F&B can be added to an ENDED session, and its charges then stay stale because the tick skips ENDED sessions (`Ledger.AddFnbToEndedSessionStaysUnbilled`).
- `Ledger.Stop`: there is no status check, as written. The floor invariant holds only under the screens' calling discipline, which the `Keeps` lemmas take as preconditions.
- `filteredProducts` and the barcode scan on the POS screen are left out: they are search helpers, not cart operations.
- The product lookup by barcode, receipts, charts, the CSV export, login storage and the HTTP client are outside this model.
- The `!session.packageSnapshot` guard of `calculateSessionBill` is not modelled: the field is required by its type, so the guard cannot fire.
- The demo seed data (`initialSales`, `initialShifts`, `initialCashMovements`) is not modelled: `Store.Shop` starts with a given catalogue and empty sales, orders, shifts and movements.
