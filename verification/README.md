# Reservas: a model of the inventory allocation and reservation engine

The system is a nursery's stock and order desk. Purchases of a product from a supplier are recorded
as stock lots (`compras_stock`), each labelled with the ISO week it arrives (`YYYY-WNN`).
Allocations (`asignaciones`) draw stock from those lots first-in, first-out, ordered by week and
then by lot id. Each draw is written to a ledger (`asignacion_lotes`) that says how much came out
of which lot. Commercials take reservations (`reservas`) on products, and the product's `pedido`
counter is kept equal to the sum of its reservations. A reservation may carry an offer in an
external offer store. Pre-reservations (`pre_reservas`) are a delegation's wish for a product in
some week. A pre-reservation starts out `pendiente`. It can be cancelled, or converted into one
allocation and one reservation per supplier in a supplier split.

The model is one immutable `Store` value holding every table the core writes. Each endpoint is a
pure function from a store and a request to `Result<..., Error>`: either the new store and the
endpoint's answer, or the error it reports. A failed call returns no store, which models the
endpoints' transaction rollback. Tables that the core never deletes from are sequences, and a row's
auto-increment id is its index plus one. Reservations are deleted, so they carry explicit ids and
the store keeps the next id.

Modules:

- `Wrappers`: `Option` and `Result`.
- `Text`:
  - PHP `trim`;
  - zero-padded decimal output;
  - the `utf8mb4_general_ci` comparison key;
  - the case-insensitive `stripos` test.
- `Calendar`: proleptic Gregorian day numbers and ISO-8601 weeks. These stand in for PHP's
  `DateTime::setISODate` and `date('o-\WW')`.
- `Weeks`: the string layer over the calendar, as the endpoints use it:
  - the `YYYY-WNN` and `YYYY-MM-DD` patterns;
  - `isoWeekToMondayDate`;
  - `strtotime` on `dddd-dd-dd`;
  - `date('o-\WW')`.
- `Store`:
  - the tables;
  - the errors;
  - lookups by id and by predicate;
  - sums over tables;
  - the store invariant `Consistent`. It joins two facts:
    - Ledger consistency: every lot's purchased quantity equals what is still available plus what
      the ledger drew from it, and every allocation's quantity equals its ledger entries.
    - Reservation consistency: every product's `pedido` equals the sum of its reservations.
- `Lots`: the lot rows of a product and supplier in `ORDER BY semana ASC, id ASC` order, and the
  stock they offer.
- `Fifo`: the first-in, first-out draw, its ledger entries and the lot updates.
- `Reservations`: inserting, removing and updating reservations, and the `pedido` recount.
- `Assignment`: `save_asignacion.php`.
- `Purchase`: `save_compra.php`.
- `Catalog`: `save_producto.php`.
- `Offers`: `crear_oferta.php`.
- `Booking`: `save_reserva.php`, `max_reserva.php`, `editar_reserva.php` and `delete_reserva.php`.
- `PreReservations`: `save_prereserva.php`, `delete_prereserva.php` and the pre-reservation state
  machine.
- `Conversion`: `convertir_prereserva.php`.

Parameters stand in for the outside world:

- The schema probes (`SHOW COLUMNS`, `information_schema`) are a `Schema` value.
- The external offer store's answers are parameters:
  - the id of the inserted offer, or none when the connection failed;
  - the offer's current `disponible` and whether its update went through.

In these places the code does something a reader might not expect, and the model follows the code:

- The allocation's stock check sums every lot's `cantidad_disponible`, negatives included, while the
  FIFO walk skips lots at or below zero. `Assignment.DrawOutcome` proves that on a consistent store
  the two agree, so the walk's "stock changed under us" branch cannot be reached.
- The ids and names are checked before the stock, in the order the code runs its queries.
- The conversion first vets every part of the split (supplier, product, stock) and only then writes
  anything. Its refusals come in the code's order:
  1. the pre-reservation exists;
  2. it is pending;
  3. its quantity is positive;
  4. the legacy split is filled in;
  5. the split adds up to the quantity;
  6. the week;
  7. the Monday;
  8. the product name;
  9. the delegation.
- A cancel of a missing pre-reservation fails like a cancel of a non-pending one, because both are
  detected by the `UPDATE`'s row count.
- The edit checks the quota before it resolves the new commercial.
- A reservation's commercial and product must be rows whose name PHP reads as true.
- Who holds a converted reservation depends on the schema. It is the part's supplier when
  `reservas.comercial_id` references `proveedores`. Otherwise it is the pre-reservation's
  delegation, which `pre_reservas` keeps in its `comercial_id` column.

## Model

| member | source | states |
|---|---|---|
| Store.Failing | save_asignacion.php:56-66 | the error list holds exactly the checks that the input fails, and no more entries than there are checks |
| Store.FailingInOrder | save_asignacion.php:56-66 | the error list keeps the endpoint's order: its entries appear among the checks in the order the checks run |
| Store.At | save_asignacion.php:76-93 | a lookup by id finds a row exactly when the id is between 1 and the table's size, and then it is the row at that id |
| Store.FirstMatch | save_compra.php:71-77 | a `LIMIT 1` lookup finds a row exactly when some row matches; the id it returns matches, and no lower id matches |
| Store.FindReservation | editar_reserva.php:43-58 | the reservation is found exactly when some reservation has that id, and the one returned carries it |
| Store.AvailableAtMostPurchased | save_asignacion.php:149-153 | on a ledger-consistent store every lot's remaining stock lies between 0 and the quantity purchased |
| Text.Trim | save_compra.php:24 | `trim` never lengthens the text, and what it returns neither starts nor ends with a character `trim` strips |
| Text.TrimSpec | save_compra.php:24 | the trimmed text sits inside the original, and only strippable characters were removed on either side |
| Text.TrimIdempotent | save_prereserva.php:56-60 | trimming twice is trimming once |
| Text.CollationKeyIs | editar_reserva.php:105 | the `utf8mb4_general_ci` key of a name is the name lower-cased after dropping its trailing spaces |
| Text.CaseFoldedKeysAgree | save_compra.php:75 | names that differ only in the case of ASCII letters have the same collation key |
| Text.CollationEqualPadded | save_compra.php:75 | names that differ in ASCII case and in trailing spaces compare equal under the collation |
| Text.OccursAt | crear_oferta.php:29 | the case-insensitive substring test holds exactly when the needle occurs at some position of the text |
| Calendar.WeekOf | convertir_prereserva.php:26-33 | the ISO week of a day is in the day's year or a neighbouring year, is numbered 1..53, and holds the Thursday of the day's week |
| Calendar.WeekOfThenMonday | convertir_prereserva.php:26-48 | the Monday of a day's ISO week is the Monday on or before the day |
| Calendar.MondayThenWeekOf | save_prereserva.php:37-52 | the ISO week of the Monday of an existing week is that week |
| Calendar.Week53RollsOver | save_asignacion.php:11-24 | in a 52-week year, week 53 starts on the Monday of week 1 of the next year, as `setISODate` rolls it over |
| Calendar.LongYearRule | save_prereserva.php:32-35 | a year has 53 ISO weeks exactly when it starts on a Thursday, or is a leap year starting on a Wednesday |
| Calendar.Anchor2024 | save_prereserva.php:37-52 | 1 January 2024 is a Monday, which ties the day numbering to the real calendar |
| Weeks.IsoWeekToMondayDate | save_asignacion.php:11-24 | `isoWeekToMondayDate` answers exactly for a well-formed `YYYY-WNN` with week 1..53; for years 1..9998 its answer is a valid date, a Monday, and the Monday of that ISO week |
| Weeks.StrToTime | convertir_prereserva.php:26-33 | `strtotime` on `dddd-dd-dd` succeeds exactly when the month is at most 12 and the day at most 31; the day it gives lies in the year it gives; a valid date reads as itself; month 00 reads as December of the year before |
| Weeks.DateToIsoWeek | save_compra.php:31-41 | `date('o-\WW', strtotime(...))` gives a label exactly when `strtotime` succeeds |
| Weeks.FormatDateRoundTrip | save_asignacion.php:21-23 | formatting a valid date as `Y-m-d` and reading it back gives the same date |
| Weeks.ValidDateIsFormatted | save_prereserva.php:26-30 | a date that passes the `Y-m-d` check is already in canonical form |
| Weeks.WeekLabelRoundTrip | save_prereserva.php:32-35 | a week label with a four-digit year passes the `YYYY-WNN` pattern and reads back as the same year and week |
| Weeks.MondayOfDateWeek | convertir_prereserva.php:132-141 | a valid date has an ISO week label, and `isoWeekToMondayDate` of that label is a valid date that is the Monday on or before the date |
| Weeks.WeekThenDateThenWeek | save_prereserva.php:37-52 | for a week that exists in its year, the week of that week's Monday is the week again |
| Weeks.Week53Overflow | save_asignacion.php:11-24 | for a 52-week year, `YYYY-W53` maps to the Monday of week 1 of the next year, so the label does not survive the round trip |
| Weeks.ExampleMonthZero | save_compra.php:33-37 | `2024-00-15` is read as 15 December 2023, which is in week `2023-W50` |
| Weeks.ExampleDateToWeek | save_asignacion.php:45-50 | 30 December 2024 is in ISO week `2025-W01` |
| Weeks.ExampleWeekToDate | save_asignacion.php:11-24 | the Monday of `2025-W01` is 30 December 2024 |
| Lots.SortSpec | save_asignacion.php:96-104 | the lot rows sort into `semana ASC, id ASC` order, as a permutation of the rows that keeps their ids distinct |
| Lots.InsertSpec | convertir_prereserva.php:180-186 | inserting a row into sorted rows keeps them sorted and adds exactly that row |
| Lots.LotRowsSpec | save_asignacion.php:96-104 | a product and supplier's lot rows are sorted with distinct ids, and are exactly the lots of that product and supplier |
| Lots.AvailableAtMostPositive | save_asignacion.php:106-113 | the plain sum of available stock never exceeds the sum of the positive lots |
| Lots.RowsOfConsistentStore | save_asignacion.php:106-113 | on a ledger-consistent store no lot is negative, so the two sums agree |
| Fifo.WalkSpec | save_asignacion.php:161-178 | the walk draws plus what is left equal the quantity asked; what is left is the shortfall beyond the positive stock; every draw is positive and at most its lot's stock |
| Fifo.WalkIsPlanned | convertir_prereserva.php:281-302 | the FIFO walk draws from each lot exactly the closed-form share: its stock, capped by what the earlier lots left unserved |
| Fifo.WalkFromLot | save_asignacion.php:161-178 | what the walk draws from a lot is that lot's share, between 0 and the lot's positive stock |
| Fifo.DeductSpec | save_asignacion.php:167-170 | each lot's new stock is its old stock less what the walk drew from it, and other lots are unchanged |
| Fifo.EntriesSpec | save_asignacion.php:172-176 | one ledger entry per draw, for the new allocation, with the draw's lot and quantity |
| Fifo.ConsumeSpec | save_asignacion.php:125-183 | the draw appends one allocation and its ledger entries, changes the lots by the draws, and leaves every other table alone |
| Fifo.ConsumeLots | save_asignacion.php:167-170 | lots outside the rows are unchanged, and each lot in the rows loses exactly its share |
| Fifo.ConsumePreserves | save_asignacion.php:125-183 | a draw covered by the stock leaves nothing unserved and keeps the ledger consistent |
| Fifo.ConsumeNewAllocation | save_asignacion.php:172-183 | the new allocation's ledger entries add up to its quantity |
| Fifo.ConsumeFrame | convertir_prereserva.php:281-302 | a draw from one product and supplier's lots leaves another pair's lot rows current |
| Assignment.ShipWeekAndDate | save_asignacion.php:45-54 | the ship week is the given week, else the ISO week of the given date when `strtotime` reads it, else empty; the ship date is the given date, else the Monday of the week |
| Assignment.DerivedWeekIsValid | save_asignacion.php:45-54 | a week derived from a valid date is a well-formed label that maps back to a Monday |
| Assignment.Check | save_asignacion.php:56-66 | an error is reported exactly for each input check the request fails |
| Assignment.RejectsBadInput | save_asignacion.php:56-70 | the call fails with the error list exactly when some input check fails |
| Assignment.Draw | save_asignacion.php:95-123 | a draw fails only for no lots, for too little stock (with the available and requested amounts) or for a changed stock; on success it answers with the new allocation's id and the stock left |
| Assignment.DrawOutcome | save_asignacion.php:106-123 | no lots exactly when there are no rows; too little stock exactly when the request exceeds the sum; the changed-stock branch never fires; success exactly when the rows cover the request |
| Assignment.CommitRefusals | save_asignacion.php:76-123 | a refused transaction names the first missing product, supplier or delegation, else no lots or too little stock, each exactly in its case |
| Assignment.RefusalReasons | save_asignacion.php:56-123 | a call refused after the input checks is refused for one of those reasons, exactly in its case |
| Assignment.SucceedsWhenCovered | save_asignacion.php:56-192 | a valid request for existing rows whose lots cover the quantity succeeds |
| Assignment.AllocateEffect | save_asignacion.php:125-192 | a successful call is the FIFO draw of the request over the pair's lot rows, answering with the new id and the remaining stock |
| Assignment.AllocatePreserves | save_asignacion.php:125-192 | a successful allocation keeps the store consistent |
| Purchase.PurchaseWeekCases | save_compra.php:28-41 | the week is the given week; else the ISO week of a `dddd-dd-dd` date that `strtotime` reads; else empty for an unreadable date of that shape; else the date text itself |
| Purchase.Check | save_compra.php:43-51 | an error is reported exactly for each input check the request fails |
| Purchase.RejectsBadInput | save_compra.php:43-56 | the call fails with the error list exactly when some input check fails |
| Purchase.RefusalReasons | save_compra.php:62-86 | after the input checks, the call is refused for a missing supplier, or for no product with that name and supplier name, each exactly in its case |
| Purchase.PurchaseEffect | save_compra.php:62-125 | the purchase appends one lot with the next id, for the lowest-id product with that name whose supplier name matches the supplier's under the collation, with all of the quantity available, the week, and the price (0 when absent) only when the column exists; nothing else changes |
| Purchase.PurchasePreserves | save_compra.php:88-125 | a purchase keeps the store consistent |
| Purchase.PurchaseAddsStock | save_compra.php:98-125 | the product and supplier's available stock grows by exactly the purchased quantity, and every other pair's is unchanged |
| Catalog.Check | save_producto.php:23-45 | an error is reported exactly for each input check the request fails, the 64-character code limit included |
| Catalog.RejectsBadInput | save_producto.php:23-48 | the call fails with the error list exactly when some input check fails |
| Catalog.RefusalReasons | save_producto.php:50-64 | after the input checks, the call is refused for a missing type or a missing supplier, each exactly in its case |
| Catalog.CreateEffect | save_producto.php:66-97 | the new product is appended with the next id, no stock and nothing ordered, the given name, the type's name and the supplier's name; the code is stored exactly when the column exists and the code is not empty; nothing else changes |
| Catalog.CreatePreserves | save_producto.php:66-97 | creating a product keeps the store consistent |
| Offers.Article | crear_oferta.php:16-39 | the offer's article is always one of the store's article kinds |
| Offers.ArticleChoice | crear_oferta.php:16-39 | a listed kind is kept; otherwise the first related kind is taken; otherwise the default |
| Offers.PickChoice | crear_oferta.php:16-39 | the same choice over any list of values that contains the default |
| Offers.EmptyTypeIsRosa | crear_oferta.php:16-39 | an empty product type becomes the article `Rosa` |
| Offers.OfferFields | crear_oferta.php:11-84 | the offer is refused for missing data exactly when the kind or name is missing, and fails exactly when the offer store gives no id; otherwise it carries the chosen article, the trimmed name, the quantity as boxes and availability, nothing reserved, in transit, the dates only when PHP reads them as true, and the store's id |
| Booking.MaxEditable | max_reserva.php:25-32 | the editable maximum is at least 0 and at least the stock less the other reservations, and is one of the two |
| Booking.MaxReportFacts | max_reserva.php:10-40 | the report fails on a bad id or a missing reservation, each exactly in its case; otherwise its maximum is `max(0, stock - others)`, and on a consistent store the others plus the current quantity are the product's reserved total |
| Booking.SaveCheck | save_reserva.php:21-36 | an error is reported exactly for each input check the request fails |
| Booking.SaveRejectsBadInput | save_reserva.php:21-36 | the save fails with the error list exactly when some input check fails |
| Booking.SaveRefusals | save_reserva.php:42-58 | after the input checks, the save is refused for a missing commercial, then for a missing product, each exactly in its case |
| Booking.BookEffect | save_reserva.php:61-82 | the booking appends one reservation with the next id and the request's fields, and recounts the product's `pedido` |
| Booking.SaveEffect | save_reserva.php:61-143 | a successful save appends exactly one reservation with the next id, the existing commercial and product, the quantity, the date and the offer store's id; it sets that product's `pedido` to its earlier reservations plus the quantity and changes nothing else |
| Booking.SaveOfferId | save_reserva.php:87-112 | the offer step succeeds exactly when the offer store returns an id, and the reservation records that id |
| Booking.SaveOffer | save_reserva.php:87-112 | when the offer store answers, the offer carries the trimmed product name as variety, the quantity as both boxes and availability, the trimmed commercial name as client, a known article, and the store's id |
| Booking.SaveOfferIndependent | save_reserva.php:114-129 | whether the offer store answers or not, the save succeeds or fails alike and writes the same reservation, up to its offer id |
| Booking.SavePreserves | save_reserva.php:61-143 | a save keeps the store consistent |
| Booking.EditCheck | editar_reserva.php:24-38 | an error is reported exactly for each input check the request fails |
| Booking.EditRejectsBadInput | editar_reserva.php:24-38 | the edit fails with the error list exactly when some input check fails |
| Booking.ResolveCommercial | editar_reserva.php:87-116 | a positive id resolves exactly when it exists; otherwise the name resolves to the lowest-id commercial equal to it under the collation, exactly when one exists |
| Booking.EditRefusals | editar_reserva.php:43-116 | after the input checks, the edit is refused for a missing reservation, then for a quantity above the editable maximum, then for an unknown commercial, each exactly in its case |
| Booking.AdjustOrdered | editar_reserva.php:130-138 | only the reservation's product's `pedido` changes, and it becomes `GREATEST(pedido + delta, 0)` |
| Booking.EditEffect | editar_reserva.php:118-141 | the edit changes only that reservation's quantity and commercial, and the product's `pedido` by the difference, floored at 0 |
| Booking.EditSync | editar_reserva.php:143-203 | the offer sync is skipped exactly when there is no offer, fails exactly when the offer store does not answer, and otherwise sets the boxes and the clamped availability |
| Booking.EditOfferIndependent | editar_reserva.php:143-203 | the offer store's answers change nothing about the edit apart from the sync outcome |
| Booking.EditPreserves | editar_reserva.php:118-141 | an edit keeps the store consistent and leaves the product reserved by the others plus the new quantity |
| Booking.DeleteRefusals | delete_reserva.php:18-43 | the delete fails on a bad id or a missing reservation, each exactly in its case, and succeeds otherwise |
| Booking.DeleteEffect | delete_reserva.php:45-102 | the delete removes exactly that reservation and lowers only its product's `pedido` by its quantity, floored at 0; the offer is deleted exactly when the reservation has a positive offer id |
| Booking.DeletePreserves | delete_reserva.php:45-102 | a delete keeps the store consistent, and a second delete of the same id finds nothing |
| PreReservations.EvolvesTransitive | delete_prereserva.php:44-48 | permitted state moves compose, and a pre-reservation that has left `pendiente` never changes again |
| PreReservations.Check | save_prereserva.php:56-92 | an error is reported exactly for each input check the request fails |
| PreReservations.Passed | save_prereserva.php:56-99 | a request that passes the checks has positive ids and quantity, and a week that maps to a Monday or else a valid date |
| PreReservations.DesiredDateValid | save_prereserva.php:74-90 | a given week becomes its Monday as the desired date, which is a valid date in that week |
| PreReservations.RejectsBadInput | save_prereserva.php:56-99 | the call fails with the error list exactly when some input check fails |
| PreReservations.FindProduct | save_prereserva.php:117-135 | a positive product id is used when it exists; otherwise the lowest-id product with exactly that name is found, exactly when there is one |
| PreReservations.RefusalReasons | save_prereserva.php:107-135 | the save is refused for a missing delegation, then for a product it cannot find, each exactly in its case |
| PreReservations.RecordEffect | save_prereserva.php:107-160 | the insert appends one pending pre-reservation with the next id, the delegation's id and name, the found product's trimmed type and name, the quantity and the date, and changes nothing else |
| PreReservations.SaveEffect | save_prereserva.php:56-160 | the whole save appends one pending, well-formed pre-reservation with the next id and the checked desired date, and changes nothing else |
| PreReservations.SavePreserves | save_prereserva.php:137-160 | a save respects the state machine and keeps the pre-reservations well formed and the store consistent |
| PreReservations.CancelEffect | delete_prereserva.php:27-55 | cancelling fails on a bad id, succeeds exactly for a pending pre-reservation, then marks only it `cancelada` and changes nothing else, and a second cancel finds nothing to cancel |
| PreReservations.CancelPreserves | delete_prereserva.php:27-55 | a cancel keeps the pre-reservations well formed and the store consistent |
| Conversion.MergeSpec | convertir_prereserva.php:61-78 | the merged split lists exactly the suppliers with a complete line, each once with positive quantity and with the sum of its lines; its total is the sum of the complete lines; it counts the half-filled lines |
| Conversion.LegacySplit | convertir_prereserva.php:80-83 | with no complete lines, a positive legacy supplier takes the whole quantity; otherwise the merged split is used; either way the split is well formed |
| Conversion.SplitErrorsSpec | convertir_prereserva.php:56-88 | a bad id, an empty split and one error per half-filled line are reported, exactly in their cases |
| Conversion.SubmitRejects | convertir_prereserva.php:56-93 | the call fails with the error list exactly for a bad id, a half-filled line, or no complete line and no legacy supplier |
| Conversion.ConvertRejects | convertir_prereserva.php:56-93 | the same, stated on the raw request lines |
| Conversion.ShipDateIsMonday | convertir_prereserva.php:132-141 | a valid desired date has a week label, and that label maps to a valid date that is the Monday on or before the desired date |
| Conversion.VetSupplier | convertir_prereserva.php:190-194 | a part is refused for its supplier exactly when the supplier does not exist or its trimmed name is blank |
| Conversion.VetProduct | convertir_prereserva.php:171-200 | a part is refused for its product exactly when no product has the pre-reservation's name and that supplier's name |
| Conversion.VetStock | convertir_prereserva.php:180-215 | a part is refused for stock exactly when the product and supplier's lots hold less than the part's quantity |
| Conversion.VetEffect | convertir_prereserva.php:188-225 | a vetted part names an existing supplier and the product with the pre-reservation's name from that supplier, and its lot rows cover the quantity |
| Conversion.PlanSpec | convertir_prereserva.php:188-225 | the plan succeeds exactly when every part vets, keeps the parts' order, and otherwise fails with the first failing part's error |
| Conversion.PlanQuantities | convertir_prereserva.php:188-225 | the planned quantities add up to the split's total |
| Conversion.PlanReady | convertir_prereserva.php:188-225 | the plan's parts use disjoint lot rows, each covering its quantity |
| Conversion.ApplyShape | convertir_prereserva.php:227-309 | writing the plan appends one reservation and one allocation per part, with consecutive ids, and touches nothing but the lots, allocations, ledger and reservations |
| Conversion.NewRowsSpec | convertir_prereserva.php:253-309 | the k-th new reservation and allocation are those of the k-th part |
| Conversion.TouchedSpec | convertir_prereserva.php:308-321 | the products to recount are exactly those of the parts, each once |
| Conversion.WriteDelivers | convertir_prereserva.php:227-328 | every part of the split gets its allocation and its reservation |
| Conversion.SettleRefusals | convertir_prereserva.php:143-225 | the settlement is refused for an empty product name, then a delegation id not positive, then a missing delegation, each exactly in its case; otherwise it succeeds exactly when the plan does, with the plan's error |
| Conversion.TransactRefusals | convertir_prereserva.php:97-141 | the transaction is refused for a missing pre-reservation, then one not pending, a quantity not positive, a split not adding up to the quantity, no week, no Monday, each exactly in its case; otherwise it settles |
| Conversion.TransactEffect | convertir_prereserva.php:97-141 | a successful transaction had a product name, an existing delegation, and a week and Monday derived from the desired date, and delivers every part of the split |
| Conversion.ConvertEffect | convertir_prereserva.php:97-342 | a successful conversion appends, per part of the split and in order, an allocation of the part's quantity for the delegation and ship date, on the lowest-id product with the pre-reservation's name from that supplier, and a reservation of the same quantity for the week, held as the schema decides |
| Conversion.ConvertFrame | convertir_prereserva.php:97-342 | the converted pre-reservation was pending and is the only one marked `convertida`; reservation ids advance by the number of parts; suppliers, delegations, commercials and types are unchanged, and products change only in `pedido`; the answer lists the new ids |
| Conversion.ConvertEvolves | convertir_prereserva.php:329-334 | a conversion respects the pre-reservation state machine |
| Conversion.ConvertTotals | convertir_prereserva.php:97-342 | the new allocations and reservations add up to the pre-reservation's quantity |
| Conversion.ConvertPreserves | convertir_prereserva.php:97-342 | a conversion keeps the store consistent and the pre-reservations well formed |
| Conversion.ConvertedOnce | convertir_prereserva.php:115-117 | converting the same pre-reservation again is refused as no longer pending, any other request for it is refused, and cancelling it finds nothing to cancel |
| Reservations.InsertRecount | save_reserva.php:132-143 | inserting a reservation and recounting its product appends it with the next id and sets that product's `pedido` to its reservations' sum |
| Reservations.RecountAllKeeps | convertir_prereserva.php:311-323 | recounting every touched product restores reservation consistency and changes nothing but the products |
| Reservations.RemoveKeeps | delete_reserva.php:66-102 | removing a reservation lowers each product's reserved total by exactly its share, leaves no reservation with its id, and breaks consistency at most for its own product |
| Reservations.UpdateKeeps | editar_reserva.php:118-141 | changing a reservation's quantity moves each product's reserved total by exactly the difference, and breaks consistency at most for its own product |

## Left out

- Request parsing is not modelled: JSON or form bodies, HTTP method checks and response codes.
  Each endpoint takes its already-cast fields.
- Concurrency is not modelled: `SELECT ... FOR UPDATE`, isolation levels, two calls interleaving.
  Every call runs alone on one store.
- Log writes are left out, and so are the read-only pages and APIs (listings, search, detail views).
  They write nothing.
- The SQL of the external offer store (`api_verabuy.php`) is not modelled. The offer store is reduced
  to the answers the core uses: an inserted id, a current `disponible`, and whether an update
  succeeded.
- Store.FirstMatch: reads a `LIMIT 1` without `ORDER BY` as the lowest matching id. MySQL does not
  promise that order. This applies to the product lookup at save_compra.php:71-77 and the commercial
  lookup at editar_reserva.php:105. The lookups at convertir_prereserva.php:176 and
  save_prereserva.php:127 do have `ORDER BY id ASC`.
- Lots.SortSpec: orders `semana` by character code, while MySQL's `ORDER BY semana` uses the
  column's collation. The two orders agree on the `YYYY-WNN` labels every endpoint writes (digits,
  `-` and `W` only), but a label in another shape could sort differently in the database.
- Store.At: auto-increment ids are modelled as the row's index plus one. Gaps left by rolled-back
  inserts and a non-default `auto_increment_increment` are ignored. The same holds for the
  conversion's new rows, which take consecutive ids.
- Text.CollationKey: `utf8mb4_general_ci` is modelled only for ASCII case and trailing spaces. Its
  folding of non-ASCII case and of accents ("Núñez" against "NUNEZ") is left out, because it needs
  the collation's full weight table.
- Purchase.ProductFor: compares the supplier name under that ASCII-only collation key. So a supplier
  name that differs only in non-ASCII case or in accents finds no product in the model, while the
  database would find it. The product name is compared with exact equality, because the SQL
  comparison on `p.nombre` uses the column's own collation, which the code does not show.
- Booking.ResolveCommercial: has the same gap. A commercial whose name differs only in non-ASCII case
  or in accents is not resolved in the model, while `utf8mb4_general_ci` would resolve it.
- Conversion.ProductOf: matches the product name and the supplier name by exact equality
  (convertir_prereserva.php:171-179, 196). SQL `=` under the columns' collations may also ignore
  case or trailing spaces.
- PreReservations.FindProduct: matches the product name by exact equality (save_prereserva.php:123-130),
  for the same reason.
- Conversion.ConvertRejects: the split's total uses unbounded integers. PHP's `array_sum` at
  convertir_prereserva.php:127 turns into a float when a 64-bit sum overflows, and then the strict
  `!==` against the quantity always fails.
- Conversion.VetStock: the stock sum `$disponible +=` at convertir_prereserva.php:208 is unbounded in
  the model. PHP's 64-bit int would turn into a float there.
- Assignment.DrawOutcome: the allocation's stock sum at save_asignacion.php:112 is unbounded in the
  model, for the same reason.
- Purchase.PurchaseEffect: `precio_unitario` is a `Decimal` (digits and a scale), exactly as the
  request spells it. PHP casts it to a float at save_compra.php:27, and binds it at :117. Float
  rounding and the column's own rounding are not modelled.
- Offers.OfferFields: the offer's box count, `(float)` in the source, is an integer, because the
  core only ever passes it a reservation's integer quantity.
- Booking.SaveOfferIndependent: holds only when a failed connection to the offer store throws. With
  mysqli's exception mode (the default since PHP 8.1), the `require_once` at save_reserva.php:91
  throws and the handler at :119 keeps the reservation. In the older silent mode,
  api_verabuy.php:14-21 calls `exit` with the transaction still open, and the reservation is lost.
- Catalog.CreateEffect: the schema probes (save_producto.php:66, save_compra.php:89,
  convertir_prereserva.php:159-169) are a `Schema` parameter. The model does not query the schema.
  Column defaults that the `INSERT` leaves to the database are not modelled beyond stock and
  `pedido` being 0.
- Weeks.StrToTime: reads only the `dddd-dd-dd` shape. It includes `strtotime`'s rollover of month 00,
  day 00 and days past the month's end. Every other text is treated as unreadable, although
  `strtotime` accepts many more forms ("next monday", "2024-1-5"). The endpoints reach `strtotime`
  only after a `dddd-dd-dd` regex, except that the conversion reads the stored `fecha_deseada`.
- Weeks.DateToIsoWeek: assumes PHP's `o` format prints the ISO year unpadded. `W` is always two
  digits.
- Offers.PickChoice: assumes `stripos` with an empty needle matches, as it does since PHP 8.
- Conversion.Apply: its "stock changed under us" branch is modelled as an error. `Conversion.ApplyShape`
  proves it is never taken after a successful vetting.
- Conversion.MergeSpec: states the merged split as a set of suppliers with their sums. The order of
  the merged entries (the order of each supplier's first complete line) is only implicit in `Merge`.
