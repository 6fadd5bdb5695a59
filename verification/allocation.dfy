/** `save_asignacion.php`: send `cantidad` units of one (product, supplier) pair to a delegation,
    drawing them FIFO from the pair's lots. */
module Assignment {
  import opened Wrappers
  import opened Text
  import opened Calendar
  import opened Weeks
  import opened Store
  import opened Lots
  import opened Fifo

  /** The request after the `(int)` casts; the two strings are still untrimmed. */
  datatype Request = Request(
    productId: int,
    supplierId: int,
    delegationId: int,
    quantity: int,
    shipWeek: string,
    shipDate: string)

  /** The success answer: the new `asignaciones` id and `stock_restante_global`. */
  datatype Receipt = Receipt(allocationId: int, remainingStock: int)

  // ----- week and date -----

  /** The week sent, or, when none was, the ISO week of a `YYYY-MM-DD` date `strtotime` accepts. Both
      arguments are already trimmed. */
  function ShipWeek(week: string, date: string): string {
    if week == "" && date != "" && LooksLikeDate(date) then
      match DateToIsoWeek(date)
      case Some(w) => w
      case None => week
    else week
  }

  /** The date sent, or, when none was, the Monday of the week (`""` when the week has none). */
  function ShipDate(week: string, date: string): string {
    if date == "" && week != "" then IsoWeekToMondayDate(Trim(week)).GetOr("") else date
  }

  /** How the two derivations fill each other in. */
  lemma {:induction false} ShipWeekAndDate(week: string, date: string)
    ensures week != "" ==> ShipWeek(week, date) == week
    ensures week == "" && StrToTime(date).Some? ==> ShipWeek(week, date) == DateToIsoWeek(date).value
    ensures week == "" && StrToTime(date).None? ==> ShipWeek(week, date) == ""
    ensures date != "" ==> ShipDate(week, date) == date
    ensures date == "" && week != "" && IsoWeekToMondayDate(Trim(week)).Some? ==>
      ShipDate(week, date) == IsoWeekToMondayDate(Trim(week)).value
    ensures date == "" && week != "" && IsoWeekToMondayDate(Trim(week)).None? ==> ShipDate(week, date) == ""
  {
    if week == "" && StrToTime(date).Some? {
      assert LooksLikeDate(date) && |date| == 10;
      assert DateToIsoWeek(date).Some?;
    }
  }

  /** A derived week always names its own Monday: when the date is a real date of a four-digit ISO
      year and no week was sent, the week is that date's and it passes the week pattern. */
  lemma DerivedWeekIsValid(date: string)
    requires IsValidDate(date)
    requires 1000 <= IsoWeekOfDate(DateFields(date)).year <= 9998
    ensures IsValidIsoWeek(ShipWeek("", date))
    ensures IsoWeekToMondayDate(ShipWeek("", date)).Some?
  {
    MondayOfDateWeek(date);
    ShipWeekAndDate("", date);
  }

  // ----- input checks -----

  /** The checks of this endpoint, in the order they run. */
  const Checks: seq<Field> :=
    [BadProductId, BadSupplierId, BadDelegationId, BadQuantity, MissingWeek, MalformedWeek, MissingDate]

  /** Whether check `f` fails for these inputs. */
  predicate Fails(req: Request, week: string, date: string, f: Field) {
    match f
    case BadProductId => req.productId <= 0
    case BadSupplierId => req.supplierId <= 0
    case BadDelegationId => req.delegationId <= 0
    case BadQuantity => req.quantity <= 0
    case MissingWeek => week == ""
    case MalformedWeek => week != "" && !IsValidIsoWeek(week)
    case MissingDate => date == ""
    case _ => false
  }

  /** The `$errors` list: exactly the checks that fail, in the order they run. */
  function Check(req: Request, week: string, date: string): (errors: seq<Field>)
    ensures forall f :: f in errors <==> f in Checks && Fails(req, week, date, f)
  {
    Failing(Checks, (f: Field) => Fails(req, week, date, f))
  }

  /** An empty error list means every check passed. */
  lemma Passed(req: Request, week: string, date: string)
    requires |Check(req, week, date)| == 0
    ensures 0 < req.productId && 0 < req.supplierId && 0 < req.delegationId && 0 < req.quantity
    ensures IsValidIsoWeek(week) && date != ""
  {
    var errors := Check(req, week, date);
    forall k | 0 <= k < |Checks| ensures !Fails(req, week, date, Checks[k]) {
      assert Checks[k] !in errors;
    }
  }

  // ----- the endpoint -----

  /** The week and date the call goes on with, after each has filled the other in. */
  datatype Schedule = Schedule(week: string, date: string)

  function Derive(req: Request): Schedule {
    var week := ShipWeek(Trim(req.shipWeek), Trim(req.shipDate));
    Schedule(week, ShipDate(week, Trim(req.shipDate)))
  }

  /** The whole call. On success: the new store and the receipt; on any failure nothing changes. */
  function Allocate(s: Store, req: Request): Result<(Store, Receipt), Error> {
    Submit(s, req, Derive(req))
  }

  /** The call from the input checks on, for the derived week and date. */
  function Submit(s: Store, req: Request, d: Schedule): Result<(Store, Receipt), Error> {
    var errors := Check(req, d.week, d.date);
    if |errors| > 0 then Err(Invalid(errors)) else Commit(s, req, d.date)
  }

  /** The transaction: the three ids must exist, then the pair's lots are read and drawn from. */
  function Commit(s: Store, req: Request, date: string): (r: Result<(Store, Receipt), Error>)
    ensures r.Err? ==> !r.error.Invalid?
  {
    if At(s.products, req.productId).None? then Err(NotFound(ProductEntity))
    else if At(s.suppliers, req.supplierId).None? then Err(NotFound(SupplierEntity))
    else if At(s.delegations, req.delegationId).None? then Err(NotFound(DelegationEntity))
    else
      Draw(s, Allocation(req.productId, req.supplierId, req.delegationId, req.quantity, date),
           LotRows(s, req.productId, req.supplierId))
  }

  /** The stock check and the walk over the rows read: no rows, or a request above their plain sum,
      is refused; otherwise the allocation is inserted and drawn, and a remainder rolls back. */
  function Draw(s: Store, a: Allocation, rows: seq<Row>): (r: Result<(Store, Receipt), Error>)
    ensures r.Err? ==> r.error in {NoLots, InsufficientStock(Available(rows), a.quantity), Inconsistent}
    ensures r.Ok? ==> r.value.1 == Receipt(|s.allocations| + 1, Available(rows) - a.quantity)
  {
    if |rows| == 0 then Err(NoLots)
    else if a.quantity > Available(rows) then Err(InsufficientStock(Available(rows), a.quantity))
    else
      var c := Consume(s, a, rows);
      if c.1 > 0 then Err(Inconsistent)
      else Ok((c.0, Receipt(|s.allocations| + 1, Available(rows) - a.quantity)))
  }

  // ----- what the draw promises -----

  /** The draw fails exactly when there are no rows or their plain sum does not cover the request;
      the rollback after the walk never fires, because the plain sum never exceeds what the walk can
      draw. */
  lemma DrawOutcome(s: Store, a: Allocation, rows: seq<Row>)
    ensures Draw(s, a, rows) == Err(NoLots) <==> |rows| == 0
    ensures Draw(s, a, rows) == Err(InsufficientStock(Available(rows), a.quantity))
      <==> |rows| > 0 && a.quantity > Available(rows)
    ensures Draw(s, a, rows) != Err(Inconsistent)
    ensures Draw(s, a, rows).Ok? <==> |rows| > 0 && a.quantity <= Available(rows)
  {
    AvailableAtMostPositive(rows);
    ConsumeSpec(s, a, rows);
  }

  /** A successful draw of a positive quantity from current rows naming each lot once, in a
      consistent ledger: it is `Consume` of the allocation, the ledger stays consistent, and the
      allocation is exactly the sum of its entries. */
  lemma DrawEffect(s: Store, a: Allocation, rows: seq<Row>)
    requires LedgerConsistent(s) && Current(s, rows) && DistinctIds(rows)
    requires 0 < a.quantity && Draw(s, a, rows).Ok?
    ensures Draw(s, a, rows).value.0 == Consume(s, a, rows).0
    ensures LedgerConsistent(Draw(s, a, rows).value.0)
    ensures Sum(Draw(s, a, rows).value.0.ledger, OfAllocation(|s.allocations| + 1)) == a.quantity
  {
    AvailableAtMostPositive(rows);
    ConsumePreserves(s, a, rows);
    ConsumeNewAllocation(s, a, rows);
  }

  /** Once the ids exist the transaction is the draw. */
  lemma CommitIsDraw(s: Store, req: Request, date: string)
    requires 1 <= req.productId <= |s.products| && 1 <= req.supplierId <= |s.suppliers|
    requires 1 <= req.delegationId <= |s.delegations|
    ensures Commit(s, req, date)
      == Draw(s, Allocation(req.productId, req.supplierId, req.delegationId, req.quantity, date),
              LotRows(s, req.productId, req.supplierId))
  {
  }

  /** A successful call passed every check, found every id, and is the draw. */
  lemma SubmitOk(s: Store, req: Request, d: Schedule)
    requires Submit(s, req, d).Ok?
    ensures 1 <= req.productId <= |s.products| && 1 <= req.supplierId <= |s.suppliers|
    ensures 1 <= req.delegationId <= |s.delegations| && 0 < req.quantity
    ensures IsValidIsoWeek(d.week) && d.date != ""
    ensures Submit(s, req, d)
      == Draw(s, Allocation(req.productId, req.supplierId, req.delegationId, req.quantity, d.date),
              LotRows(s, req.productId, req.supplierId))
  {
    Passed(req, d.week, d.date);
    CommitIsDraw(s, req, d.date);
  }

  // ----- what the endpoint promises -----

  /** Any failed input check is reported, with every failed check listed, before anything is read. */
  lemma RejectsBadInput(s: Store, req: Request, d: Schedule)
    ensures (exists f :: f in Checks && Fails(req, d.week, d.date, f))
      <==> Submit(s, req, d) == Err(Invalid(Check(req, d.week, d.date)))
  {
    SomeCheckFails(req, d.week, d.date);
  }

  /** The error list is non-empty exactly when some check fails. */
  lemma SomeCheckFails(req: Request, week: string, date: string)
    ensures (exists f :: f in Checks && Fails(req, week, date, f)) <==> |Check(req, week, date)| > 0
  {
    var errors := Check(req, week, date);
    if exists f :: f in Checks && Fails(req, week, date, f) {
      var f :| f in Checks && Fails(req, week, date, f);
      assert f in errors;
    }
    if |errors| > 0 {
      assert errors[0] in errors;
    }
  }

  /** Past the input checks, the three ids must exist, the pair must have lots, and their plain sum
      of `cantidad_disponible` must cover the request; each failure is reported as such. */
  lemma RefusalReasons(s: Store, req: Request, d: Schedule)
    requires Submit(s, req, d).Err? && !Submit(s, req, d).error.Invalid?
    ensures var rows := LotRows(s, req.productId, req.supplierId);
      match Submit(s, req, d).error
      case NotFound(e) =>
        (e == ProductEntity && !(1 <= req.productId <= |s.products|))
        || (e == SupplierEntity && !(1 <= req.supplierId <= |s.suppliers|))
        || (e == DelegationEntity && !(1 <= req.delegationId <= |s.delegations|))
      case NoLots => |rows| == 0
      case InsufficientStock(total, requested) =>
        total == Available(rows) && requested == req.quantity && total < requested
      case _ => false
  {
    assert Submit(s, req, d) == Commit(s, req, d.date);
    CommitRefusals(s, req, d.date);
  }

  /** The refusals, at the level of the transaction. */
  lemma CommitRefusals(s: Store, req: Request, date: string)
    requires Commit(s, req, date).Err?
    ensures var rows := LotRows(s, req.productId, req.supplierId);
      match Commit(s, req, date).error
      case NotFound(e) =>
        (e == ProductEntity && !(1 <= req.productId <= |s.products|))
        || (e == SupplierEntity && !(1 <= req.supplierId <= |s.suppliers|))
        || (e == DelegationEntity && !(1 <= req.delegationId <= |s.delegations|))
      case NoLots => |rows| == 0
      case InsufficientStock(total, requested) =>
        total == Available(rows) && requested == req.quantity && total < requested
      case _ => false
  {
    if 1 <= req.productId <= |s.products| && 1 <= req.supplierId <= |s.suppliers|
       && 1 <= req.delegationId <= |s.delegations| {
      CommitIsDraw(s, req, date);
      DrawOutcome(s, Allocation(req.productId, req.supplierId, req.delegationId, req.quantity, date),
                  LotRows(s, req.productId, req.supplierId));
    }
  }

  /** When the inputs pass, the ids exist and the stock covers the request, the call succeeds. */
  lemma SucceedsWhenCovered(s: Store, req: Request, d: Schedule)
    requires forall f :: f in Checks ==> !Fails(req, d.week, d.date, f)
    requires 1 <= req.productId <= |s.products| && 1 <= req.supplierId <= |s.suppliers|
    requires 1 <= req.delegationId <= |s.delegations|
    requires |LotRows(s, req.productId, req.supplierId)| > 0
    requires req.quantity <= Available(LotRows(s, req.productId, req.supplierId))
    ensures Submit(s, req, d).Ok?
  {
    CommitIsDraw(s, req, d.date);
    DrawOutcome(s, Allocation(req.productId, req.supplierId, req.delegationId, req.quantity, d.date),
                LotRows(s, req.productId, req.supplierId));
  }

  /** What drawing allocation `a` over `rows` did to store `s`, giving `s'`: the allocation is appended,
      it is exactly covered by its ledger entries, each lot with a row lost that row's FIFO share,
      every other lot is untouched, no lot went negative, and nothing but the lots, allocations and
      ledger changed. */
  predicate Drew(s: Store, s': Store, a: Allocation, rows: seq<Row>) {
    && s' == s.(allocations := s'.allocations, lots := s'.lots, ledger := s'.ledger)
    && s'.allocations == s.allocations + [a]
    && Sum(s'.ledger, OfAllocation(|s.allocations| + 1)) == a.quantity
    && |s'.lots| == |s.lots|
    && (forall k :: 0 <= k < |s.lots| && !HasLot(rows, k + 1) ==> s'.lots[k] == s.lots[k])
    && (forall i :: 0 <= i < |rows| && 1 <= rows[i].lotId <= |s'.lots| ==>
          s'.lots[rows[i].lotId - 1]
          == s.lots[rows[i].lotId - 1].(available := rows[i].available - Share(rows, a.quantity, i)))
    && (forall k :: 0 <= k < |s'.lots| ==> 0 <= s'.lots[k].available)
  }

  /** A successful draw of a positive quantity from current rows naming each lot once, in a
      consistent ledger, has exactly that effect. */
  lemma DrawShape(s: Store, a: Allocation, rows: seq<Row>)
    requires LedgerConsistent(s) && Current(s, rows) && DistinctIds(rows)
    requires 0 < a.quantity && Draw(s, a, rows).Ok?
    ensures Drew(s, Draw(s, a, rows).value.0, a, rows)
  {
    DrawEffect(s, a, rows);
    ConsumeSpec(s, a, rows);
    ConsumeLots(s, a, rows);
  }

  /** On success in a consistent store the call drew the request, with the derived date, from the
      pair's lots (see `Drew`), and the reported remainder is the stock before the call minus the
      request. */
  lemma AllocateEffect(s: Store, req: Request, d: Schedule)
    requires LedgerConsistent(s) && Submit(s, req, d).Ok?
    ensures Drew(s, Submit(s, req, d).value.0,
                 Allocation(req.productId, req.supplierId, req.delegationId, req.quantity, d.date),
                 LotRows(s, req.productId, req.supplierId))
    ensures Submit(s, req, d).value.1
      == Receipt(|s.allocations| + 1, Available(LotRows(s, req.productId, req.supplierId)) - req.quantity)
  {
    var rows := LotRows(s, req.productId, req.supplierId);
    var a := Allocation(req.productId, req.supplierId, req.delegationId, req.quantity, d.date);
    SubmitOk(s, req, d);
    LotRowsSpec(s, req.productId, req.supplierId);
    LotRowsCurrent(s, req.productId, req.supplierId);
    DrawShape(s, a, rows);
  }

  /** A successful draw under the same conditions keeps the whole store consistent: the reservation
      side is untouched. */
  lemma DrawPreserves(s: Store, a: Allocation, rows: seq<Row>)
    requires Consistent(s) && Current(s, rows) && DistinctIds(rows)
    requires 0 < a.quantity && Draw(s, a, rows).Ok?
    ensures Consistent(Draw(s, a, rows).value.0)
  {
    DrawEffect(s, a, rows);
    DrawShape(s, a, rows);
    var s' := Draw(s, a, rows).value.0;
    assert s'.reservations == s.reservations && s'.products == s.products;
    assert s'.nextReservationId == s.nextReservationId;
    assert forall p :: Reserved(s', p) == Reserved(s, p);
  }

  /** Allocating keeps the store consistent. */
  lemma AllocatePreserves(s: Store, req: Request, d: Schedule)
    requires Consistent(s) && Submit(s, req, d).Ok?
    ensures Consistent(Submit(s, req, d).value.0)
  {
    SubmitOk(s, req, d);
    LotRowsSpec(s, req.productId, req.supplierId);
    LotRowsCurrent(s, req.productId, req.supplierId);
    DrawPreserves(s, Allocation(req.productId, req.supplierId, req.delegationId, req.quantity, d.date),
                  LotRows(s, req.productId, req.supplierId));
  }
}
