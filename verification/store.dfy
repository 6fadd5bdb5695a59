/** The database the endpoints share, as one immutable value.

    Tables the endpoints never delete from (`productos`, `proveedores`, `delegaciones`, `comerciales`,
    `tipos_producto`, `compras_stock`, `asignaciones`, `pre_reservas`) are sequences whose row with
    auto-increment id `k` sits at index `k - 1`. `reservas` rows can be deleted, so they carry their
    own id and the store keeps the next auto-increment value. */
module Store {
  import opened Wrappers
  import opened Text

  /** A row of `productos`. `cantidad` is the stock figure the reservation quota reads; `pedido` is
      the running total of what is reserved. `proveedor` and `tipo` are name snapshots. */
  datatype Product = Product(
    typeId: int,
    kind: string,
    name: string,
    velneoCode: Option<string>,
    supplierName: string,
    stock: int,
    ordered: int,
    crop: string,
    flight: string,
    date: Option<string>)

  /** A row of a table the core only reads by id for its `nombre`: `proveedores`, `delegaciones`,
      `comerciales` and `tipos_producto`. */
  datatype Named = Named(name: string)

  /** A decimal amount, `digits` times ten to the power `-scale`: a price as the request spells it.
      The endpoints only test its sign and store it. */
  datatype Decimal = Decimal(digits: int, scale: nat)

  const Zero := Decimal(0, 0)

  /** A row of `compras_stock`: one purchase lot of a (product, supplier) pair. */
  datatype Lot = Lot(
    productId: int,
    supplierId: int,
    week: string,
    purchased: int,
    available: int,
    unitPrice: Option<Decimal>)

  /** A row of `asignaciones`: stock sent to a delegation. */
  datatype Allocation = Allocation(
    productId: int,
    supplierId: int,
    delegationId: int,
    quantity: int,
    shipDate: string)

  /** A row of `asignacion_lotes`: the part of an allocation that came out of one lot. */
  datatype LedgerEntry = LedgerEntry(allocationId: int, lotId: int, quantity: int)

  /** A row of `reservas`, with the commercial and product names copied in at write time. */
  datatype Reservation = Reservation(
    id: int,
    commercialId: int,
    commercialName: string,
    productId: int,
    productName: string,
    quantity: int,
    date: Option<string>,
    week: Option<string>,
    offerId: Option<int>)

  /** `pre_reservas.estado`. */
  datatype PreState = Pending | Converted | Cancelled

  /** A row of `pre_reservas`. Its `comercial_id` / `comercial_nombre` columns hold the delegation. */
  datatype PreReservation = PreReservation(
    delegationId: int,
    delegationName: string,
    kind: string,
    product: string,
    quantity: int,
    desiredDate: string,
    state: PreState)

  datatype Store = Store(
    products: seq<Product>,
    suppliers: seq<Named>,
    delegations: seq<Named>,
    commercials: seq<Named>,
    productTypes: seq<Named>,
    lots: seq<Lot>,
    allocations: seq<Allocation>,
    ledger: seq<LedgerEntry>,
    reservations: seq<Reservation>,
    nextReservationId: int,
    preReservations: seq<PreReservation>)

  /** Results of the schema probes (`SHOW COLUMNS`, `information_schema`) the endpoints branch on. */
  datatype Schema = Schema(
    lotsHavePrice: bool,
    productsHaveVelneoCode: bool,
    reservationsReferenceSuppliers: bool)

  /** The entities a lookup can fail to find. */
  datatype Entity =
    | ProductEntity | SupplierEntity | DelegationEntity | CommercialEntity | TypeEntity
    | ReservationEntity | PreReservationEntity

  /** The input checks that run before any read, each one an entry of the `errors` list. */
  datatype Field =
    | BadProductId | BadSupplierId | BadDelegationId | BadTypeId | BadCommercialId | BadId
    | BadQuantity | MissingProductName | NegativePrice | MissingWeek | MalformedWeek | MissingDate
    | MalformedDate | MissingCommercialName | CodeTooLong | BadSplitLine | EmptySplit

  /** Why a call failed. A failed call changes nothing: every endpoint either commits all its writes
      or rolls back. */
  datatype Error =
    | Invalid(fields: seq<Field>)
    | NotFound(entity: Entity)
    | NoLots
    | InsufficientStock(available: int, requested: int)
    | Inconsistent
    | NotPending
    | BadPreQuantity
    | SplitMismatch(expected: int)
    | BadPreWeek
    | BadPreShipDate
    | BadPreProduct
    | BadPreDelegation
    | QuotaExceeded(max: int)
    | NothingToCancel
    | MissingOfferData
    | OfferStoreFailed

  /** `a` is `b` with some entries left out: the entries of `a` appear in `b` in the same order. */
  predicate SubseqOf<T(==)>(a: seq<T>, b: seq<T>)
    decreases |b|
  {
    || |a| == 0
    || (&& |b| > 0
        && if a[0] == b[0] then SubseqOf(a[1..], b[1..]) else SubseqOf(a, b[1..]))
  }

  /** The `$errors` list of an endpoint: the checks in `order` that fail, in that order. */
  function Failing(order: seq<Field>, fails: Field -> bool): (errors: seq<Field>)
    ensures forall f :: f in errors <==> f in order && fails(f)
    ensures |errors| <= |order|
  {
    if |order| == 0 then []
    else (if fails(order[0]) then [order[0]] else []) + Failing(order[1..], fails)
  }

  /** The error list keeps the endpoint's order: its entries appear in `order` in the same order. */
  lemma {:induction false} FailingInOrder(order: seq<Field>, fails: Field -> bool)
    ensures SubseqOf(Failing(order, fails), order)
    decreases |order|
  {
    if |order| > 0 {
      FailingInOrder(order[1..], fails);
      var rest := Failing(order[1..], fails);
      if fails(order[0]) {
        assert ([order[0]] + rest)[1..] == rest;
      } else {
        assert [] + rest == rest;
        if |rest| > 0 {
          assert rest[0] in rest;
        }
      }
    }
  }

  /** The row with auto-increment id `id` of a table that never loses rows. */
  function At<T>(table: seq<T>, id: int): (r: Option<T>)
    ensures r.Some? <==> 1 <= id <= |table|
    ensures r.Some? ==> r.value == table[id - 1]
  {
    if 1 <= id <= |table| then Some(table[id - 1]) else None
  }

  /** A `SELECT nombre ... WHERE id = ?` whose answer the endpoint accepts: the row exists and its
      name is not one PHP reads as false. */
  predicate Usable(table: seq<Named>, id: int) {
    1 <= id <= |table| && !Falsy(table[id - 1].name)
  }

  /** A `SELECT nombre ... WHERE id = ?` accepted only as a string that is not blank. */
  predicate Listed(table: seq<Named>, id: int) {
    1 <= id <= |table| && Trim(table[id - 1].name) != ""
  }

  /** The lowest id whose row satisfies `p`: a `SELECT id ... WHERE ... LIMIT 1` without `ORDER BY`,
      read as the first row in id order. */
  function FirstMatch<T>(table: seq<T>, p: T -> bool): (r: Option<int>)
    ensures r.Some? <==> exists i :: 0 <= i < |table| && p(table[i])
    ensures r.Some? ==> 1 <= r.value <= |table| && p(table[r.value - 1])
    ensures r.Some? ==> forall i :: 0 <= i < r.value - 1 ==> !p(table[i])
  {
    FirstMatchFrom(table, p, 0)
  }

  function FirstMatchFrom<T>(table: seq<T>, p: T -> bool, from: nat): (r: Option<int>)
    requires from <= |table|
    requires forall i :: 0 <= i < from ==> !p(table[i])
    ensures r.Some? <==> exists i :: 0 <= i < |table| && p(table[i])
    ensures r.Some? ==> 1 <= r.value <= |table| && p(table[r.value - 1])
    ensures r.Some? ==> forall i :: 0 <= i < r.value - 1 ==> !p(table[i])
    decreases |table| - from
  {
    if from == |table| then None
    else if p(table[from]) then Some(from + 1)
    else FirstMatchFrom(table, p, from + 1)
  }

  function Min(a: int, b: int): int { if a <= b then a else b }

  function Max(a: int, b: int): int { if a >= b then a else b }

  // ----- sums -----

  /** The sum of `f` over `xs`, as SQL's `SUM` or a PHP accumulation loop computes it. */
  function Sum<T>(xs: seq<T>, f: T -> int): int {
    if |xs| == 0 then 0 else f(xs[0]) + Sum(xs[1..], f)
  }

  lemma {:induction false} SumAppend<T>(xs: seq<T>, ys: seq<T>, f: T -> int)
    ensures Sum(xs + ys, f) == Sum(xs, f) + Sum(ys, f)
  {
    if |xs| > 0 {
      assert (xs + ys)[1..] == xs[1..] + ys;
      SumAppend(xs[1..], ys, f);
    } else {
      assert xs + ys == ys;
    }
  }

  /** Terms that agree on every element give the same sum. */
  lemma {:induction false} SumAgree<T>(xs: seq<T>, f: T -> int, g: T -> int)
    requires forall x :: x in xs ==> f(x) == g(x)
    ensures Sum(xs, f) == Sum(xs, g)
  {
    if |xs| > 0 {
      assert forall x :: x in xs[1..] ==> x in xs;
      SumAgree(xs[1..], f, g);
    }
  }

  /** A sum of terms that are all zero is zero. */
  lemma {:induction false} SumZero<T>(xs: seq<T>, f: T -> int)
    requires forall x :: x in xs ==> f(x) == 0
    ensures Sum(xs, f) == 0
  {
    if |xs| > 0 {
      assert forall x :: x in xs[1..] ==> x in xs;
      SumZero(xs[1..], f);
    }
  }

  /** A sum of non-negative terms is non-negative and at least each of its terms. */
  lemma {:induction false} SumNonNegative<T>(xs: seq<T>, f: T -> int)
    requires forall x :: x in xs ==> 0 <= f(x)
    ensures 0 <= Sum(xs, f)
    ensures forall x :: x in xs ==> f(x) <= Sum(xs, f)
  {
    if |xs| > 0 {
      assert forall x :: x in xs[1..] ==> x in xs;
      SumNonNegative(xs[1..], f);
    }
  }

  /** Removing the element at `i` takes its term out of the sum. */
  lemma SumRemove<T>(xs: seq<T>, i: int, f: T -> int)
    requires 0 <= i < |xs|
    ensures Sum(xs[..i] + xs[i + 1..], f) == Sum(xs, f) - f(xs[i])
  {
    assert xs == xs[..i] + ([xs[i]] + xs[i + 1..]);
    SumAppend(xs[..i], [xs[i]] + xs[i + 1..], f);
    SumAppend([xs[i]], xs[i + 1..], f);
    SumAppend(xs[..i], xs[i + 1..], f);
  }

  /** Replacing the element at `i` swaps its term in the sum. */
  lemma SumUpdate<T>(xs: seq<T>, i: int, y: T, f: T -> int)
    requires 0 <= i < |xs|
    ensures Sum(xs[i := y], f) == Sum(xs, f) - f(xs[i]) + f(y)
  {
    assert xs[i := y] == xs[..i] + ([y] + xs[i + 1..]);
    SumRemove(xs, i, f);
    SumAppend(xs[..i], [y] + xs[i + 1..], f);
    SumAppend([y], xs[i + 1..], f);
    SumAppend(xs[..i], xs[i + 1..], f);
  }

  /** The ledger quantity drawn from one lot. */
  function FromLot(lotId: int): LedgerEntry -> int {
    (e: LedgerEntry) => if e.lotId == lotId then e.quantity else 0
  }

  /** The ledger quantity that makes up one allocation. */
  function OfAllocation(allocationId: int): LedgerEntry -> int {
    (e: LedgerEntry) => if e.allocationId == allocationId then e.quantity else 0
  }

  /** The reserved quantity of one product: `SELECT SUM(cantidad) FROM reservas WHERE producto_id = ?`. */
  function OfProduct(productId: int): Reservation -> int {
    (r: Reservation) => if r.productId == productId then r.quantity else 0
  }

  /** The same sum restricted to `id <> ?`. */
  function OfProductExcept(productId: int, id: int): Reservation -> int {
    (r: Reservation) => if r.productId == productId && r.id != id then r.quantity else 0
  }

  function Reserved(s: Store, productId: int): int {
    Sum(s.reservations, OfProduct(productId))
  }

  // ----- reservations by id -----

  predicate HasReservation(s: Store, id: int) {
    exists i :: 0 <= i < |s.reservations| && s.reservations[i].id == id
  }

  /** The index of the reservation with id `id`. */
  function ReservationIndex(s: Store, id: int): (i: int)
    requires HasReservation(s, id)
    ensures 0 <= i < |s.reservations| && s.reservations[i].id == id
  {
    FirstIndex(s.reservations, id, 0)
  }

  function FirstIndex(rs: seq<Reservation>, id: int, from: nat): (i: int)
    requires from <= |rs|
    requires exists i :: from <= i < |rs| && rs[i].id == id
    ensures from <= i < |rs| && rs[i].id == id
    decreases |rs| - from
  {
    if rs[from].id == id then from else FirstIndex(rs, id, from + 1)
  }

  /** `SELECT ... FROM reservas WHERE id = ?`. */
  function FindReservation(s: Store, id: int): (r: Option<Reservation>)
    ensures r.Some? <==> HasReservation(s, id)
    ensures r.Some? ==> r.value in s.reservations && r.value.id == id
  {
    if HasReservation(s, id) then Some(s.reservations[ReservationIndex(s, id)]) else None
  }

  // ----- invariants -----

  /** The lot ledger balances: every lot's purchased quantity is what is still available plus what
      its ledger entries drew, no lot is overdrawn, every allocation is exactly the sum of its
      entries, and every entry is a positive draw linking an existing allocation to an existing lot. */
  predicate LedgerConsistent(s: Store) {
    && (forall k :: 0 <= k < |s.lots| ==>
         0 <= s.lots[k].available
         && s.lots[k].purchased == s.lots[k].available + Sum(s.ledger, FromLot(k + 1)))
    && (forall k :: 0 <= k < |s.allocations| ==>
         s.allocations[k].quantity == Sum(s.ledger, OfAllocation(k + 1)))
    && (forall e :: e in s.ledger ==>
         0 < e.quantity && 1 <= e.lotId <= |s.lots| && 1 <= e.allocationId <= |s.allocations|)
  }

  /** Reservations have distinct ids below the next auto-increment value, positive quantities and an
      existing product, and every product's `pedido` is the sum of its reservations. */
  predicate ReservationsConsistent(s: Store) {
    && (forall i, j :: 0 <= i < j < |s.reservations| ==> s.reservations[i].id != s.reservations[j].id)
    && 1 <= s.nextReservationId
    && (forall r :: r in s.reservations ==>
         1 <= r.id < s.nextReservationId && 0 < r.quantity && 1 <= r.productId <= |s.products|)
    && (forall p :: 1 <= p <= |s.products| ==> s.products[p - 1].ordered == Reserved(s, p))
  }

  predicate Consistent(s: Store) {
    LedgerConsistent(s) && ReservationsConsistent(s)
  }

  /** Under the ledger invariant a lot never holds more than was purchased. */
  lemma AvailableAtMostPurchased(s: Store, k: int)
    requires LedgerConsistent(s) && 0 <= k < |s.lots|
    ensures 0 <= s.lots[k].available <= s.lots[k].purchased
  {
    SumNonNegative(s.ledger, FromLot(k + 1));
  }
}
