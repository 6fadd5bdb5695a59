/** `save_compra.php`: record a purchase as a new lot of `compras_stock`, with everything still
    available. */
module Purchase {
  import opened Wrappers
  import opened Text
  import opened Weeks
  import opened Store
  import opened Lots

  /** The request after the casts; the three strings are still untrimmed. The price is absent when
      the request has no `precio`. */
  datatype Request = Request(
    productName: string,
    supplierId: int,
    quantity: int,
    price: Option<Decimal>,
    purchaseDate: string,
    week: string)

  // ----- the week -----

  /** The week sent or, when none was, one made from `fecha_compra`: a `YYYY-MM-DD` date becomes its
      ISO week (or stays missing when `strtotime` refuses it), anything else is taken as the week
      itself. Both arguments are already trimmed. */
  function PurchaseWeek(week: string, date: string): string {
    if week == "" && date != "" then
      if LooksLikeDate(date) then
        match DateToIsoWeek(date)
        case Some(w) => w
        case None => week
      else date
    else week
  }

  /** Every way the week comes about. */
  lemma PurchaseWeekCases(week: string, date: string)
    ensures week != "" ==> PurchaseWeek(week, date) == week
    ensures week == "" && StrToTime(date).Some? ==> PurchaseWeek(week, date) == DateToIsoWeek(date).value
    ensures week == "" && LooksLikeDate(date) && StrToTime(date).None? ==> PurchaseWeek(week, date) == ""
    ensures week == "" && !LooksLikeDate(date) ==> PurchaseWeek(week, date) == date
  {
    if week == "" && StrToTime(date).Some? {
      assert LooksLikeDate(date) && |date| == 10;
    }
  }

  // ----- input checks -----

  /** The checks of this endpoint, in the order they run. */
  const Checks: seq<Field> := [MissingProductName, BadSupplierId, BadQuantity, NegativePrice, MissingWeek, MalformedWeek]

  /** Whether check `f` fails, for the trimmed product name and the derived week. */
  predicate Fails(req: Request, name: string, week: string, f: Field) {
    match f
    case MissingProductName => name == ""
    case BadSupplierId => req.supplierId <= 0
    case BadQuantity => req.quantity <= 0
    case NegativePrice => req.price.Some? && req.price.value.digits < 0
    case MissingWeek => week == ""
    case MalformedWeek => week != "" && !IsValidIsoWeek(week)
    case _ => false
  }

  /** The `$errors` list: exactly the checks that fail, in the order they run. */
  function Check(req: Request, name: string, week: string): (errors: seq<Field>)
    ensures forall f :: f in errors <==> f in Checks && Fails(req, name, week, f)
  {
    Failing(Checks, (f: Field) => Fails(req, name, week, f))
  }

  /** An empty error list means every check passed. */
  lemma Passed(req: Request, name: string, week: string)
    requires |Check(req, name, week)| == 0
    ensures name != "" && 0 < req.supplierId && 0 < req.quantity
    ensures req.price.Some? ==> 0 <= req.price.value.digits
    ensures IsValidIsoWeek(week)
  {
    var errors := Check(req, name, week);
    assert Checks[0] !in errors;
    assert Checks[1] !in errors;
    assert Checks[2] !in errors;
    assert Checks[3] !in errors;
    assert Checks[4] !in errors;
    assert Checks[5] !in errors;
  }

  // ----- the endpoint -----

  /** `SELECT p.id FROM productos p WHERE p.nombre = ? AND p.proveedor = ? (general_ci) LIMIT 1`. */
  function ProductFor(s: Store, name: string, supplierName: string): Option<int> {
    FirstMatch(s.products, (p: Product) => p.name == name && CollationEqual(p.supplierName, supplierName))
  }

  /** The inserted lot: all of it still available. `precio_unitario` is written only when the column
      exists, as the given price or 0. */
  function NewLot(schema: Schema, req: Request, productId: int, week: string): Lot {
    Lot(productId, req.supplierId, week, req.quantity, req.quantity,
        if schema.lotsHavePrice then Some(req.price.GetOr(Zero)) else None)
  }

  /** The trimmed product name and the week the call goes on with. */
  datatype Entry = Entry(name: string, week: string)

  function Derive(req: Request): Entry {
    Entry(Trim(req.productName), PurchaseWeek(Trim(req.week), Trim(req.purchaseDate)))
  }

  /** The whole call. On success: the new store and the new `compras_stock` id. */
  function Buy(s: Store, schema: Schema, req: Request): Result<(Store, int), Error> {
    Submit(s, schema, req, Derive(req))
  }

  /** The call from the input checks on, for the derived name and week. */
  function Submit(s: Store, schema: Schema, req: Request, e: Entry): Result<(Store, int), Error> {
    var errors := Check(req, e.name, e.week);
    if |errors| > 0 then Err(Invalid(errors)) else Record(s, schema, req, e.name, e.week)
  }

  /** The transaction: the supplier must exist, and the product is found by its name and the
      supplier's name. */
  function Record(s: Store, schema: Schema, req: Request, name: string, week: string)
    : (r: Result<(Store, int), Error>)
    ensures r.Err? ==> r.error.NotFound?
  {
    if At(s.suppliers, req.supplierId).None? then Err(NotFound(SupplierEntity))
    else
      match ProductFor(s, name, s.suppliers[req.supplierId - 1].name)
      case None => Err(NotFound(ProductEntity))
      case Some(productId) =>
        Ok((s.(lots := s.lots + [NewLot(schema, req, productId, week)]), |s.lots| + 1))
  }

  // ----- what the endpoint promises -----

  /** Any failed input check is reported, with every failed check listed, before anything is read. */
  lemma RejectsBadInput(s: Store, schema: Schema, req: Request, e: Entry)
    ensures (exists f :: f in Checks && Fails(req, e.name, e.week, f))
      <==> Submit(s, schema, req, e) == Err(Invalid(Check(req, e.name, e.week)))
  {
    var name := e.name;
    var week := e.week;
    var errors := Check(req, name, week);
    if exists f :: f in Checks && Fails(req, name, week, f) {
      var f :| f in Checks && Fails(req, name, week, f);
      assert f in errors;
    }
    if |errors| > 0 {
      assert errors[0] in errors;
    }
  }

  /** Past the input checks, the call fails exactly when the supplier id is unknown or no product
      has that name and supplier name. */
  lemma RefusalReasons(s: Store, schema: Schema, req: Request, e: Entry)
    requires |Check(req, e.name, e.week)| == 0
    ensures Submit(s, schema, req, e) == Err(NotFound(SupplierEntity)) <==> !(1 <= req.supplierId <= |s.suppliers|)
    ensures Submit(s, schema, req, e) == Err(NotFound(ProductEntity))
      <==> 1 <= req.supplierId <= |s.suppliers|
           && forall i :: 0 <= i < |s.products| ==>
                !(s.products[i].name == e.name
                  && CollationEqual(s.products[i].supplierName, s.suppliers[req.supplierId - 1].name))
    ensures Submit(s, schema, req, e).Ok? || Submit(s, schema, req, e).error.NotFound?
  {
    assert Submit(s, schema, req, e) == Record(s, schema, req, e.name, e.week);
    RecordRefusals(s, schema, req, e.name, e.week);
  }

  /** The transaction fails on an unknown supplier, then on a missing product. */
  lemma RecordRefusals(s: Store, schema: Schema, req: Request, name: string, week: string)
    ensures Record(s, schema, req, name, week) == Err(NotFound(SupplierEntity)) <==> !(1 <= req.supplierId <= |s.suppliers|)
    ensures Record(s, schema, req, name, week) == Err(NotFound(ProductEntity))
      <==> 1 <= req.supplierId <= |s.suppliers|
           && forall i :: 0 <= i < |s.products| ==>
                !(s.products[i].name == name
                  && CollationEqual(s.products[i].supplierName, s.suppliers[req.supplierId - 1].name))
  {
  }

  /** Exactly one lot is appended to `s`, giving `s'`, under id `id`, and nothing else changes; the
      lot belongs to the lowest-id product with the name `name` and the supplier's name, carries
      `week`, has all of the request's quantity available, and its price is the given one or 0
      where the column exists. */
  predicate Recorded(s: Store, schema: Schema, req: Request, name: string, week: string, s': Store, id: int) {
    && |s'.lots| == |s.lots| + 1
    && var lot := s'.lots[|s.lots|];
    && id == |s.lots| + 1
    && s' == s.(lots := s.lots + [lot])
    && 1 <= lot.productId <= |s.products| && 1 <= req.supplierId <= |s.suppliers|
    && s.products[lot.productId - 1].name == name
    && CollationEqual(s.products[lot.productId - 1].supplierName, s.suppliers[req.supplierId - 1].name)
    && (forall i :: 0 <= i < lot.productId - 1 ==>
          !(s.products[i].name == name
            && CollationEqual(s.products[i].supplierName, s.suppliers[req.supplierId - 1].name)))
    && lot.supplierId == req.supplierId
    && lot.week == week
    && lot.purchased == lot.available == req.quantity
    && lot.unitPrice == (if schema.lotsHavePrice then Some(req.price.GetOr(Zero)) else None)
  }

  /** On success exactly one lot is appended as described, for the checked week and a positive
      quantity. */
  lemma PurchaseEffect(s: Store, schema: Schema, req: Request, e: Entry)
    requires Submit(s, schema, req, e).Ok?
    ensures Recorded(s, schema, req, e.name, e.week, Submit(s, schema, req, e).value.0, Submit(s, schema, req, e).value.1)
    ensures IsValidIsoWeek(e.week) && 0 < req.quantity
  {
    Passed(req, e.name, e.week);
    assert Submit(s, schema, req, e) == Record(s, schema, req, e.name, e.week);
    RecordEffect(s, schema, req, e.name, e.week);
  }

  /** The transaction, when it succeeds, records the lot. */
  lemma RecordEffect(s: Store, schema: Schema, req: Request, name: string, week: string)
    requires Record(s, schema, req, name, week).Ok?
    ensures Recorded(s, schema, req, name, week, Record(s, schema, req, name, week).value.0,
                     Record(s, schema, req, name, week).value.1)
  {
  }

  /** A purchase keeps the store consistent: the new lot has no ledger entries yet. */
  lemma PurchasePreserves(s: Store, schema: Schema, req: Request, e: Entry)
    requires Consistent(s) && Submit(s, schema, req, e).Ok?
    ensures Consistent(Submit(s, schema, req, e).value.0)
  {
    var s' := Submit(s, schema, req, e).value.0;
    PurchaseEffect(s, schema, req, e);
    AppendLotPreserves(s, s'.lots[|s.lots|]);
  }

  /** Adding a fully available lot keeps the store consistent. */
  lemma AppendLotPreserves(s: Store, lot: Lot)
    requires Consistent(s) && 0 <= lot.available == lot.purchased
    ensures Consistent(s.(lots := s.lots + [lot]))
  {
    var s' := s.(lots := s.lots + [lot]);
    forall x | x in s.ledger ensures FromLot(|s.lots| + 1)(x) == 0 {
    }
    SumZero(s.ledger, FromLot(|s.lots| + 1));
    forall k | 0 <= k < |s'.lots|
      ensures 0 <= s'.lots[k].available
      ensures s'.lots[k].purchased == s'.lots[k].available + Sum(s'.ledger, FromLot(k + 1))
    {
      if k < |s.lots| {
        assert s'.lots[k] == s.lots[k];
      }
    }
    assert forall p :: Reserved(s', p) == Reserved(s, p);
  }

  /** The new lot is stock of its pair: the pair's available total, as the allocation's stock check
      reads it, grows by exactly the purchased quantity, and every other pair reads the same lots. */
  lemma PurchaseAddsStock(s: Store, schema: Schema, req: Request, e: Entry, productId: int, supplierId: int)
    requires Submit(s, schema, req, e).Ok?
    ensures var s' := Submit(s, schema, req, e).value.0;
      var lot := s'.lots[|s.lots|];
      && (productId == lot.productId && supplierId == lot.supplierId ==>
            Available(LotRows(s', productId, supplierId)) == Available(LotRows(s, productId, supplierId)) + req.quantity)
      && (productId != lot.productId || supplierId != lot.supplierId ==>
            LotRows(s', productId, supplierId) == LotRows(s, productId, supplierId))
  {
    var s' := Submit(s, schema, req, e).value.0;
    PurchaseEffect(s, schema, req, e);
    AppendLotStock(s, s'.lots[|s.lots|], productId, supplierId);
  }

  /** Appending a lot adds its availability to its own pair's rows and leaves every other pair's
      rows as they were. */
  lemma AppendLotStock(s: Store, lot: Lot, productId: int, supplierId: int)
    ensures var s' := s.(lots := s.lots + [lot]);
      && (productId == lot.productId && supplierId == lot.supplierId ==>
            Available(LotRows(s', productId, supplierId)) == Available(LotRows(s, productId, supplierId)) + lot.available)
      && (productId != lot.productId || supplierId != lot.supplierId ==>
            LotRows(s', productId, supplierId) == LotRows(s, productId, supplierId))
  {
    var lots := s.lots + [lot];
    PairRowsExtend(s.lots, lot, productId, supplierId, |s.lots|);
    var before := PairRows(s.lots, productId, supplierId, |s.lots|);
    if productId == lot.productId && supplierId == lot.supplierId {
      var row := RowOf(lots, |lots|);
      assert PairRows(lots, productId, supplierId, |lots|) == before + [row];
      SortSum(before, RowAvailable);
      SortSum(before + [row], RowAvailable);
      SumAppend(before, [row], RowAvailable);
    }
  }
}
