/** The endpoints on single reservations: `save_reserva.php` (a new reservation and its offer),
    `max_reserva.php` (the most a reservation may be edited up to), `editar_reserva.php` (a new
    commercial and quantity, and the offer kept in step) and `delete_reserva.php`. */
module Booking {
  import opened Wrappers
  import opened Text
  import opened Store
  import opened Reservations
  import opened Offers

  // ===== shared =====

  /** `SELECT cantidad FROM productos WHERE id = ?` cast to int: the stock, or 0 with no such row. */
  function StockOf(s: Store, productId: int): int {
    if 1 <= productId <= |s.products| then s.products[productId - 1].stock else 0
  }

  /** `SUM(cantidad) ... WHERE producto_id = ? AND id <> ?`: what the product's other reservations hold. */
  function Others(s: Store, productId: int, id: int): int {
    Sum(s.reservations, OfProductExcept(productId, id))
  }

  /** The most a reservation may hold: the stock its product's other reservations leave, never less
      than 0. */
  function MaxEditable(s: Store, r: Reservation): (m: int)
    ensures 0 <= m && StockOf(s, r.productId) - Others(s, r.productId, r.id) <= m
    ensures m == 0 || m == StockOf(s, r.productId) - Others(s, r.productId, r.id)
  {
    Max(0, StockOf(s, r.productId) - Others(s, r.productId, r.id))
  }

  /** `UPDATE productos SET pedido = GREATEST(pedido + delta, 0) WHERE id = ?`. */
  function AdjustOrdered(s: Store, productId: int, delta: int): (s': Store)
    ensures s' == s.(products := s'.products) && |s'.products| == |s.products|
    ensures forall k :: 0 <= k < |s.products| && k != productId - 1 ==> s'.products[k] == s.products[k]
    ensures 1 <= productId <= |s.products| ==>
      s'.products[productId - 1] == s.products[productId - 1].(ordered := s'.products[productId - 1].ordered)
      && s'.products[productId - 1].ordered == Max(s.products[productId - 1].ordered + delta, 0)
  {
    if 1 <= productId <= |s.products| then
      var p := s.products[productId - 1];
      s.(products := s.products[productId - 1 := p.(ordered := Max(p.ordered + delta, 0))])
    else s
  }

  /** With distinct ids, a product's reserved total is what one of its reservations holds plus what
      the others hold. */
  lemma ReservedSplit(s: Store, i: int)
    requires 0 <= i < |s.reservations|
    requires forall a, b :: 0 <= a < b < |s.reservations| ==> s.reservations[a].id != s.reservations[b].id
    ensures var r := s.reservations[i];
      Reserved(s, r.productId) == Others(s, r.productId, r.id) + r.quantity
  {
    var rs := s.reservations;
    var r := rs[i];
    var rest := rs[..i] + rs[i + 1..];
    SumRemove(rs, i, OfProduct(r.productId));
    SumRemove(rs, i, OfProductExcept(r.productId, r.id));
    forall x | x in rest ensures OfProduct(r.productId)(x) == OfProductExcept(r.productId, r.id)(x) {
      var k :| 0 <= k < |rest| && rest[k] == x;
      if k < i {
        assert x == rs[k];
      } else {
        assert x == rs[k + 1];
      }
    }
    SumAgree(rest, OfProduct(r.productId), OfProductExcept(r.productId, r.id));
  }

  // ===== save_reserva.php =====

  /** The request after the casts; the date is still untrimmed. */
  datatype SaveRequest = SaveRequest(commercialId: int, productId: int, quantity: int, date: string)

  /** The checks of the save endpoint, in the order they run. */
  const SaveChecks: seq<Field> := [BadCommercialId, BadProductId, BadQuantity, MissingDate]

  /** Whether check `f` fails, for the trimmed date. */
  predicate SaveFails(req: SaveRequest, date: string, f: Field) {
    match f
    case BadCommercialId => req.commercialId <= 0
    case BadProductId => req.productId <= 0
    case BadQuantity => req.quantity <= 0
    case MissingDate => date == ""
    case _ => false
  }

  /** The `$errors` list: exactly the checks that fail, in the order they run. */
  function SaveCheck(req: SaveRequest, date: string): (errors: seq<Field>)
    ensures forall f :: f in errors <==> f in SaveChecks && SaveFails(req, date, f)
  {
    Failing(SaveChecks, (f: Field) => SaveFails(req, date, f))
  }

  /** An empty error list means every check passed. */
  lemma SavePassed(req: SaveRequest, date: string)
    requires |SaveCheck(req, date)| == 0
    ensures 0 < req.commercialId && 0 < req.productId && 0 < req.quantity && date != ""
  {
    var errors := SaveCheck(req, date);
    forall k | 0 <= k < |SaveChecks| ensures !SaveFails(req, date, SaveChecks[k]) {
      assert SaveChecks[k] !in errors;
    }
  }

  /** The product exists and has a name PHP reads as true. */
  predicate ProductUsable(s: Store, productId: int) {
    1 <= productId <= |s.products| && !Falsy(s.products[productId - 1].name)
  }

  /** `$datosOferta`: the product's type, name, crop, flight and date (a zero date as `null`), the
      reserved quantity, the requested date as the ship date and the commercial as the client. */
  function OfferData(p: Product, quantity: int, date: string, client: string): OfferRequest {
    OfferRequest(Some(p.kind), Some(p.name), Some(quantity), Some(p.crop), Some(p.flight),
                 if p.date == Some("0000-00-00") then None else p.date, Some(date), Some(client))
  }

  /** The `id_oferta` written back to the reservation: the new offer's id when there is one. */
  function OfferId(offer: Result<(Offer, int), Error>): Option<int> {
    match offer
    case Ok((_, id)) => Some(id)
    case Err(_) => None
  }

  /** A saved reservation: the new store, and what became of the offer. */
  datatype Saved = Saved(store: Store, offer: Result<(Offer, int), Error>)

  /** The whole call. `inserted` is the external offer store's answer to the insert: the new offer's
      id, or nothing when the insert failed. */
  function Save(s: Store, req: SaveRequest, inserted: Option<int>): Result<Saved, Error> {
    SaveSubmit(s, req, Trim(req.date), inserted)
  }

  /** The call from the input checks on, for the trimmed date. */
  function SaveSubmit(s: Store, req: SaveRequest, date: string, inserted: Option<int>): Result<Saved, Error> {
    var errors := SaveCheck(req, date);
    if |errors| > 0 then Err(Invalid(errors))
    else if !Usable(s.commercials, req.commercialId) then Err(NotFound(CommercialEntity))
    else if !ProductUsable(s, req.productId) then Err(NotFound(ProductEntity))
    else
      Ok(Book(s, req, date, SaveOfferResult(s, req, date, inserted)))
  }

  /** The transaction once both names are known, for what became of the offer: insert the
      reservation with the offer's id, then recount the product. */
  function Book(s: Store, req: SaveRequest, date: string, offer: Result<(Offer, int), Error>): Saved
    requires Usable(s.commercials, req.commercialId) && ProductUsable(s, req.productId)
  {
    Saved(Recount(Insert(s, NewReservation(s, req, date, OfferId(offer))), req.productId), offer)
  }

  /** `crearOfertaDesdeReserva` on the reservation's data. */
  function SaveOfferResult(s: Store, req: SaveRequest, date: string, inserted: Option<int>): Result<(Offer, int), Error>
    requires Usable(s.commercials, req.commercialId) && ProductUsable(s, req.productId)
  {
    CreateOffer(OfferData(s.products[req.productId - 1], req.quantity, date,
                          s.commercials[req.commercialId - 1].name), inserted)
  }

  /** The inserted row, before the insert gives it its id: the names are snapshots of the
      commercial's and the product's. */
  function NewReservation(s: Store, req: SaveRequest, date: string, offerId: Option<int>): Reservation
    requires Usable(s.commercials, req.commercialId) && ProductUsable(s, req.productId)
  {
    Reservation(0, req.commercialId, s.commercials[req.commercialId - 1].name, req.productId,
                s.products[req.productId - 1].name, req.quantity, Some(date), None, offerId)
  }

  /** Any failed input check is reported, with every failed check listed, before anything is read. */
  lemma SaveRejectsBadInput(s: Store, req: SaveRequest, date: string, inserted: Option<int>)
    ensures (exists f :: f in SaveChecks && SaveFails(req, date, f))
      <==> SaveSubmit(s, req, date, inserted) == Err(Invalid(SaveCheck(req, date)))
  {
    var errors := SaveCheck(req, date);
    if exists f :: f in SaveChecks && SaveFails(req, date, f) {
      var f :| f in SaveChecks && SaveFails(req, date, f);
      assert f in errors;
    }
    if |errors| > 0 {
      assert errors[0] in errors;
    }
  }

  /** Past the input checks, an unknown or nameless commercial is reported first, then an unknown
      or nameless product; the offer's fate never makes the call fail. */
  lemma SaveRefusals(s: Store, req: SaveRequest, date: string, inserted: Option<int>)
    requires |SaveCheck(req, date)| == 0
    ensures SaveSubmit(s, req, date, inserted) == Err(NotFound(CommercialEntity))
      <==> !Usable(s.commercials, req.commercialId)
    ensures SaveSubmit(s, req, date, inserted) == Err(NotFound(ProductEntity))
      <==> Usable(s.commercials, req.commercialId) && !ProductUsable(s, req.productId)
    ensures SaveSubmit(s, req, date, inserted).Ok?
      <==> Usable(s.commercials, req.commercialId) && ProductUsable(s, req.productId)
  {
  }

  /** The transaction adds one reservation under the next id, carrying the commercial's and the
      product's names, the quantity, the date and the offer's id; the product's `pedido` becomes its
      old reserved total plus the new quantity; nothing else changes. */
  lemma BookEffect(s: Store, req: SaveRequest, date: string, offer: Result<(Offer, int), Error>)
    requires Usable(s.commercials, req.commercialId) && ProductUsable(s, req.productId)
    ensures var s' := Book(s, req, date, offer).store;
      var r := s'.reservations[|s.reservations|];
      var pid := req.productId;
      && s'.reservations == s.reservations + [r]
      && s'.nextReservationId == s.nextReservationId + 1
      && r.id == s.nextReservationId
      && r.commercialId == req.commercialId && r.commercialName == s.commercials[req.commercialId - 1].name
      && r.productId == pid && r.productName == s.products[pid - 1].name
      && r.quantity == req.quantity
      && r.date == Some(date) && r.week.None? && r.offerId == OfferId(offer)
      && s' == s.(reservations := s'.reservations, nextReservationId := s'.nextReservationId,
                 products := s'.products)
      && |s'.products| == |s.products|
      && s'.products[pid - 1] == s.products[pid - 1].(ordered := Reserved(s, pid) + req.quantity)
      && (forall k :: 0 <= k < |s.products| && k != pid - 1 ==> s'.products[k] == s.products[k])
  {
    InsertRecount(s, NewReservation(s, req, date, OfferId(offer)));
  }

  /** The offer always carries a type and a name, so it is created exactly when the offer store's
      insert succeeds, and the id written back is the store's. */
  lemma SaveOfferId(s: Store, req: SaveRequest, date: string, inserted: Option<int>)
    requires Usable(s.commercials, req.commercialId) && ProductUsable(s, req.productId)
    ensures SaveOfferResult(s, req, date, inserted).Ok? <==> inserted.Some?
    ensures OfferId(SaveOfferResult(s, req, date, inserted)) == inserted
  {
    var p := s.products[req.productId - 1];
    OfferFields(OfferData(p, req.quantity, date, s.commercials[req.commercialId - 1].name), inserted);
  }

  /** On success one reservation is added under the next id, carrying the commercial's and the
      product's names, the positive quantity and the date, and the new offer's id exactly when the
      offer store took the offer; the product's `pedido` becomes its reserved total, now including
      the new quantity; nothing else changes. */
  lemma SaveEffect(s: Store, req: SaveRequest, date: string, inserted: Option<int>)
    requires SaveSubmit(s, req, date, inserted).Ok?
    ensures var s' := SaveSubmit(s, req, date, inserted).value.store;
      var r := s'.reservations[|s.reservations|];
      var pid := req.productId;
      && s'.reservations == s.reservations + [r]
      && s'.nextReservationId == s.nextReservationId + 1
      && r.id == s.nextReservationId
      && 1 <= req.commercialId <= |s.commercials|
      && r.commercialId == req.commercialId && r.commercialName == s.commercials[req.commercialId - 1].name
      && 1 <= pid <= |s.products|
      && r.productId == pid && r.productName == s.products[pid - 1].name
      && r.quantity == req.quantity > 0
      && r.date == Some(date) && date != "" && r.week.None?
      && r.offerId == inserted
      && s' == s.(reservations := s'.reservations, nextReservationId := s'.nextReservationId,
                 products := s'.products)
      && |s'.products| == |s.products|
      && s'.products[pid - 1] == s.products[pid - 1].(ordered := Reserved(s, pid) + req.quantity)
      && (forall k :: 0 <= k < |s.products| && k != pid - 1 ==> s'.products[k] == s.products[k])
  {
    SavePassed(req, date);
    SaveOfferId(s, req, date, inserted);
    BookEffect(s, req, date, SaveOfferResult(s, req, date, inserted));
  }

  /** The offer sent along with the reservation: the product's name as the variety, the quantity as
      its boxes, all of them available, and the commercial as the client. */
  lemma SaveOffer(s: Store, req: SaveRequest, date: string, inserted: Option<int>)
    requires SaveSubmit(s, req, date, inserted).Ok? && inserted.Some?
    ensures var offer := SaveSubmit(s, req, date, inserted).value.offer;
      && offer.Ok?
      && offer.value.1 == inserted.value
      && offer.value.0.variety == Trim(s.products[req.productId - 1].name)
      && offer.value.0.boxes == offer.value.0.available == req.quantity
      && offer.value.0.client == Some(Trim(s.commercials[req.commercialId - 1].name))
      && offer.value.0.article in Articles
  {
    var p := s.products[req.productId - 1];
    OfferFields(OfferData(p, req.quantity, date, s.commercials[req.commercialId - 1].name), inserted);
  }

  /** Whether the offer store accepted the offer changes nothing but the reservation's `id_oferta`. */
  lemma SaveOfferIndependent(s: Store, req: SaveRequest, date: string, a: Option<int>, b: Option<int>)
    ensures SaveSubmit(s, req, date, a).Ok? <==> SaveSubmit(s, req, date, b).Ok?
    ensures SaveSubmit(s, req, date, a).Ok? ==>
      var sa := SaveSubmit(s, req, date, a).value.store;
      var sb := SaveSubmit(s, req, date, b).value.store;
      var n := |s.reservations|;
      && |sa.reservations| == |sb.reservations| == n + 1
      && sa == sb.(reservations := sb.reservations[n := sb.reservations[n].(offerId := sa.reservations[n].offerId)])
  {
    if SaveSubmit(s, req, date, a).Ok? {
      BookOfferIndependent(s, req, date, SaveOfferResult(s, req, date, a), SaveOfferResult(s, req, date, b));
    }
  }

  lemma BookOfferIndependent(s: Store, req: SaveRequest, date: string, oa: Result<(Offer, int), Error>,
                             ob: Result<(Offer, int), Error>)
    requires Usable(s.commercials, req.commercialId) && ProductUsable(s, req.productId)
    ensures var sa := Book(s, req, date, oa).store;
      var sb := Book(s, req, date, ob).store;
      var n := |s.reservations|;
      && |sa.reservations| == |sb.reservations| == n + 1
      && sa == sb.(reservations := sb.reservations[n := sb.reservations[n].(offerId := sa.reservations[n].offerId)])
  {
    BookEffect(s, req, date, oa);
    BookEffect(s, req, date, ob);
    var sa := Book(s, req, date, oa).store;
    var sb := Book(s, req, date, ob).store;
    var n := |s.reservations|;
    assert sa.reservations == sb.reservations[n := sb.reservations[n].(offerId := sa.reservations[n].offerId)];
  }

  /** A save keeps the store consistent. */
  lemma SavePreserves(s: Store, req: SaveRequest, date: string, inserted: Option<int>)
    requires Consistent(s) && SaveSubmit(s, req, date, inserted).Ok?
    ensures Consistent(SaveSubmit(s, req, date, inserted).value.store)
  {
    SavePassed(req, date);
    var offer := SaveOfferResult(s, req, date, inserted);
    var r := NewReservation(s, req, date, OfferId(offer));
    var pid := req.productId;
    ConsistentExceptNothing(s);
    assert ConsistentExcept(s, {pid});
    InsertKeeps(s, r, {pid});
    RecountKeeps(Insert(s, r), pid, {pid});
    assert {pid} - {pid} == {};
    ConsistentExceptNothing(Recount(Insert(s, r), pid));
  }

  // ===== max_reserva.php =====

  /** The answer: the maximum, the stock, the other reservations' total and the current quantity. */
  datatype MaxReport = MaxReport(max: int, stock: int, others: int, current: int)

  function MaxFor(s: Store, id: int): Result<MaxReport, Error> {
    if id <= 0 then Err(Invalid([BadId]))
    else
      match FindReservation(s, id)
      case None => Err(NotFound(ReservationEntity))
      case Some(r) =>
        Ok(MaxReport(MaxEditable(s, r), StockOf(s, r.productId), Others(s, r.productId, r.id), r.quantity))
  }

  /** The report is refused for a non-positive or unknown id; otherwise its maximum is never negative
      and is the stock less the other reservations whenever that is not negative, and in a consistent
      store the current quantity and the others add up to the product's reserved total. */
  lemma MaxReportFacts(s: Store, id: int)
    ensures MaxFor(s, id) == Err(Invalid([BadId])) <==> id <= 0
    ensures MaxFor(s, id) == Err(NotFound(ReservationEntity)) <==> 0 < id && !HasReservation(s, id)
    ensures MaxFor(s, id).Ok? ==>
      var m := MaxFor(s, id).value;
      && 0 <= m.max
      && (m.stock - m.others >= 0 ==> m.max == m.stock - m.others)
      && (m.stock - m.others < 0 ==> m.max == 0)
    ensures MaxFor(s, id).Ok? && ReservationsConsistent(s) ==>
      var m := MaxFor(s, id).value;
      var r := FindReservation(s, id).value;
      m.others + m.current == Reserved(s, r.productId)
  {
    if MaxFor(s, id).Ok? && ReservationsConsistent(s) {
      ReservedSplit(s, ReservationIndex(s, id));
    }
  }

  // ===== editar_reserva.php =====

  /** The request after the casts: `comercial_id` is absent when not sent, and the name is still
      untrimmed. */
  datatype EditRequest = EditRequest(id: int, quantity: int, commercialId: Option<int>, commercialName: string)

  /** The checks of the edit endpoint, in the order they run. */
  const EditChecks: seq<Field> := [BadId, BadQuantity, MissingCommercialName]

  /** Whether check `f` fails, for the trimmed commercial name. */
  predicate EditFails(req: EditRequest, name: string, f: Field) {
    match f
    case BadId => req.id <= 0
    case BadQuantity => req.quantity <= 0
    case MissingCommercialName => name == ""
    case _ => false
  }

  /** The `$errs` list: exactly the checks that fail, in the order they run. */
  function EditCheck(req: EditRequest, name: string): (errors: seq<Field>)
    ensures forall f :: f in errors <==> f in EditChecks && EditFails(req, name, f)
  {
    Failing(EditChecks, (f: Field) => EditFails(req, name, f))
  }

  /** An empty error list means every check passed. */
  lemma EditPassed(req: EditRequest, name: string)
    requires |EditCheck(req, name)| == 0
    ensures 0 < req.id && 0 < req.quantity && name != ""
  {
    var errors := EditCheck(req, name);
    forall k | 0 <= k < |EditChecks| ensures !EditFails(req, name, EditChecks[k]) {
      assert EditChecks[k] !in errors;
    }
  }

  /** The new commercial: by id when a positive one is sent (any existing row will do), otherwise
      the lowest-id commercial whose name equals the given one under the case-insensitive collation. */
  function ResolveCommercial(s: Store, id: Option<int>, name: string): (r: Option<int>)
    ensures id.Some? && 0 < id.value ==> (r.Some? <==> id.value <= |s.commercials|) && (r.Some? ==> r.value == id.value)
    ensures !(id.Some? && 0 < id.value) ==>
      && (r.Some? <==> exists i :: 0 <= i < |s.commercials| && CollationEqual(s.commercials[i].name, name))
      && (r.Some? ==> 1 <= r.value <= |s.commercials| && CollationEqual(s.commercials[r.value - 1].name, name)
                      && forall i :: 0 <= i < r.value - 1 ==> !CollationEqual(s.commercials[i].name, name))
  {
    if id.Some? && 0 < id.value then
      if id.value <= |s.commercials| then Some(id.value) else None
    else FirstMatch(s.commercials, (c: Named) => CollationEqual(c.name, name))
  }

  /** The external offer store's answers during the sync: the offer's current `disponible` when its
      row was found, and whether the update went through. */
  datatype SyncPort = SyncPort(available: Option<int>, updated: bool)

  /** What became of the offer: nothing to sync, synced to these boxes, availability and client, or
      a failure that is logged and leaves the edit standing. */
  datatype SyncOutcome = NoOffer | Synced(offerId: int, boxes: int, available: int, client: string) | SyncFailed

  /** `disponible := disponible + delta`, raised to 0 and then lowered to the new box count. */
  function Clamp(x: int, boxes: int): int {
    var y := if x < 0 then 0 else x;
    if y > boxes then boxes else y
  }

  /** The offer sync, run only for a positive `id_oferta`. */
  function SyncOffer(offerId: Option<int>, port: SyncPort, quantity: int, delta: int, client: string): SyncOutcome {
    var id := offerId.GetOr(0);
    if id <= 0 then NoOffer
    else if port.available.None? || !port.updated then SyncFailed
    else Synced(id, quantity, Clamp(port.available.value + delta, quantity), client)
  }

  /** An edited reservation: the new store, the applied quantity change, the commercial written and
      the offer sync's outcome. */
  datatype Edited = Edited(store: Store, delta: int, commercialId: int, commercialName: string, sync: SyncOutcome)

  /** The whole call. */
  function Edit(s: Store, req: EditRequest, port: SyncPort): Result<Edited, Error> {
    EditSubmit(s, req, Trim(req.commercialName), port)
  }

  /** The call from the input checks on, for the trimmed commercial name. */
  function EditSubmit(s: Store, req: EditRequest, name: string, port: SyncPort): Result<Edited, Error> {
    var errors := EditCheck(req, name);
    if |errors| > 0 then Err(Invalid(errors))
    else
      match FindReservation(s, req.id)
      case None => Err(NotFound(ReservationEntity))
      case Some(r) =>
        var max := MaxEditable(s, r);
        if req.quantity > max then Err(QuotaExceeded(max))
        else
          match ResolveCommercial(s, req.commercialId, name)
          case None => Err(NotFound(CommercialEntity))
          case Some(cid) =>
            var cname := s.commercials[cid - 1].name;
            var i := ReservationIndex(s, req.id);
            var delta := req.quantity - r.quantity;
            var s1 := s.(reservations := s.reservations[i := r.(commercialId := cid, commercialName := cname,
                                                                 quantity := req.quantity)]);
            var s2 := if r.productId > 0 && delta != 0 then AdjustOrdered(s1, r.productId, delta) else s1;
            Ok(Edited(s2, delta, cid, cname, SyncOffer(r.offerId, port, req.quantity, delta, cname)))
  }

  /** Any failed input check is reported, with every failed check listed, before anything is read. */
  lemma EditRejectsBadInput(s: Store, req: EditRequest, name: string, port: SyncPort)
    ensures (exists f :: f in EditChecks && EditFails(req, name, f))
      <==> EditSubmit(s, req, name, port) == Err(Invalid(EditCheck(req, name)))
  {
    var errors := EditCheck(req, name);
    if exists f :: f in EditChecks && EditFails(req, name, f) {
      var f :| f in EditChecks && EditFails(req, name, f);
      assert f in errors;
    }
    if |errors| > 0 {
      assert errors[0] in errors;
    }
  }

  /** Past the input checks: an unknown id is reported first, then a quantity above the maximum
      (reporting that maximum, the one `max_reserva.php` reports), then a commercial that cannot be
      found; otherwise the edit succeeds, whatever the offer store answers. */
  lemma EditRefusals(s: Store, req: EditRequest, name: string, port: SyncPort)
    requires |EditCheck(req, name)| == 0
    ensures EditSubmit(s, req, name, port) == Err(NotFound(ReservationEntity)) <==> !HasReservation(s, req.id)
    ensures EditSubmit(s, req, name, port).Err? && EditSubmit(s, req, name, port).error.QuotaExceeded?
      <==> HasReservation(s, req.id) && req.quantity > MaxFor(s, req.id).value.max
    ensures EditSubmit(s, req, name, port).Err? && EditSubmit(s, req, name, port).error.QuotaExceeded? ==>
      EditSubmit(s, req, name, port).error.max == MaxFor(s, req.id).value.max
    ensures EditSubmit(s, req, name, port) == Err(NotFound(CommercialEntity))
      <==> HasReservation(s, req.id) && req.quantity <= MaxFor(s, req.id).value.max
           && ResolveCommercial(s, req.commercialId, name).None?
    ensures EditSubmit(s, req, name, port).Ok?
      <==> HasReservation(s, req.id) && req.quantity <= MaxFor(s, req.id).value.max
           && ResolveCommercial(s, req.commercialId, name).Some?
  {
    EditPassed(req, name);
  }

  /** On success the reservation with that id gets the resolved commercial and the new quantity and
      keeps everything else; no other reservation changes; its product's `pedido` moves by the
      change, never below 0; nothing else changes. */
  lemma EditEffect(s: Store, req: EditRequest, name: string, port: SyncPort)
    requires EditSubmit(s, req, name, port).Ok?
    ensures var e := EditSubmit(s, req, name, port).value;
      var s' := e.store;
      var i := ReservationIndex(s, req.id);
      var r := s.reservations[i];
      && r.id == req.id
      && 1 <= e.commercialId <= |s.commercials| && e.commercialName == s.commercials[e.commercialId - 1].name
      && e.delta == req.quantity - r.quantity
      && s'.reservations == s.reservations[i := r.(commercialId := e.commercialId,
                                                   commercialName := e.commercialName,
                                                   quantity := req.quantity)]
      && s' == s.(reservations := s'.reservations, products := s'.products)
      && |s'.products| == |s.products|
      && (forall k :: 0 <= k < |s.products| && k != r.productId - 1 ==> s'.products[k] == s.products[k])
      && (1 <= r.productId <= |s.products| && e.delta != 0 ==>
            s'.products[r.productId - 1] == s.products[r.productId - 1].(ordered := s'.products[r.productId - 1].ordered)
            && s'.products[r.productId - 1].ordered == Max(s.products[r.productId - 1].ordered + e.delta, 0))
      && (e.delta == 0 ==> s'.products == s.products)
  {
  }

  /** The edited store does not depend on the offer store's answers. */
  lemma EditOfferIndependent(s: Store, req: EditRequest, name: string, a: SyncPort, b: SyncPort)
    ensures EditSubmit(s, req, name, a).Ok? <==> EditSubmit(s, req, name, b).Ok?
    ensures EditSubmit(s, req, name, a).Ok? ==>
      EditSubmit(s, req, name, a).value.(sync := NoOffer) == EditSubmit(s, req, name, b).value.(sync := NoOffer)
  {
  }

  /** The offer is synced only when the reservation has a positive offer id; when it is, it takes the
      new quantity as its boxes and the new commercial as its client, and its availability stays
      between 0 and the boxes. */
  lemma EditSync(s: Store, req: EditRequest, name: string, port: SyncPort)
    requires EditSubmit(s, req, name, port).Ok?
    ensures var e := EditSubmit(s, req, name, port).value;
      var r := FindReservation(s, req.id).value;
      && (e.sync == NoOffer <==> r.offerId.None? || r.offerId.value <= 0)
      && (e.sync == SyncFailed <==> r.offerId.Some? && 0 < r.offerId.value && (port.available.None? || !port.updated))
      && (e.sync.Synced? ==>
            && e.sync.offerId == r.offerId.value
            && e.sync.boxes == req.quantity
            && e.sync.client == e.commercialName
            && 0 <= e.sync.available <= e.sync.boxes
            && (0 <= port.available.value + e.delta <= req.quantity ==>
                  e.sync.available == port.available.value + e.delta))
  {
    EditPassed(req, name);
  }

  /** An edit keeps the store consistent; the product then holds exactly the other reservations plus
      the new quantity, which is within the stock whenever the others were. */
  lemma EditPreserves(s: Store, req: EditRequest, name: string, port: SyncPort)
    requires Consistent(s) && EditSubmit(s, req, name, port).Ok?
    ensures var s' := EditSubmit(s, req, name, port).value.store;
      var r := FindReservation(s, req.id).value;
      && Consistent(s')
      && Reserved(s', r.productId) == Others(s, r.productId, r.id) + req.quantity
      && Reserved(s', r.productId) <= Max(Others(s, r.productId, r.id), StockOf(s, r.productId))
  {
    EditPassed(req, name);
    EditEffect(s, req, name, port);
    var e := EditSubmit(s, req, name, port).value;
    var s' := e.store;
    var i := ReservationIndex(s, req.id);
    var r := s.reservations[i];
    var r' := r.(commercialId := e.commercialId, commercialName := e.commercialName, quantity := req.quantity);
    var s1 := s.(reservations := s.reservations[i := r']);
    ReservedSplit(s, i);
    ConsistentExceptNothing(s);
    UpdateKeeps(s, i, r', {});
    assert {} + {r.productId} == {r.productId};
    var p := r.productId;
    if 1 <= p <= |s.products| {
      SumNonNegative(s1.reservations, OfProduct(p));
      assert Reserved(s1, p) == Reserved(s, p) + e.delta;
      assert s.products[p - 1].ordered == Reserved(s, p);
      if e.delta != 0 {
        assert s'.products[p - 1].ordered == Max(Reserved(s, p) + e.delta, 0);
      }
    }
    SettleKeeps(s1, s', p, {p});
    assert {r.productId} - {r.productId} == {};
    ConsistentExceptNothing(s');
    LedgerFrame(s, s');
  }

  // ===== delete_reserva.php =====

  /** What became of the reservation's offer: none to delete, deleted, or a failure that is logged
      and leaves the deletion standing. */
  datatype OfferDeletion = NothingToDelete | OfferDeleted(offerId: int) | OfferDeleteFailed(offerId: int)

  datatype Deleted = Deleted(store: Store, offer: OfferDeletion)

  /** The whole call. `dropped` is the external offer store's answer to the `DELETE`. */
  function Delete(s: Store, id: int, dropped: bool): Result<Deleted, Error> {
    if id <= 0 then Err(Invalid([BadId]))
    else
      match FindReservation(s, id)
      case None => Err(NotFound(ReservationEntity))
      case Some(r) =>
        var s1 := if r.productId > 0 && r.quantity > 0 then AdjustOrdered(s, r.productId, -r.quantity) else s;
        var i := ReservationIndex(s, id);
        var offerId := r.offerId.GetOr(0);
        var offer := if offerId <= 0 then NothingToDelete
                     else if dropped then OfferDeleted(offerId) else OfferDeleteFailed(offerId);
        Ok(Deleted(s1.(reservations := s1.reservations[..i] + s1.reservations[i + 1..]), offer))
  }

  /** A non-positive id is refused, an unknown one is not found, and any other deletion succeeds. */
  lemma DeleteRefusals(s: Store, id: int, dropped: bool)
    ensures Delete(s, id, dropped) == Err(Invalid([BadId])) <==> id <= 0
    ensures Delete(s, id, dropped) == Err(NotFound(ReservationEntity)) <==> 0 < id && !HasReservation(s, id)
    ensures Delete(s, id, dropped).Ok? <==> 0 < id && HasReservation(s, id)
  {
  }

  /** On success the reservation with that id is removed and no other; its product's `pedido` drops
      by its quantity, never below 0; the offer is deleted only when there is a positive offer id;
      nothing else changes. */
  lemma DeleteEffect(s: Store, id: int, dropped: bool)
    requires Delete(s, id, dropped).Ok?
    ensures var Deleted(s', offer) := Delete(s, id, dropped).value;
      var i := ReservationIndex(s, id);
      var r := s.reservations[i];
      && r.id == id
      && s'.reservations == s.reservations[..i] + s.reservations[i + 1..]
      && s' == s.(reservations := s'.reservations, products := s'.products)
      && |s'.products| == |s.products|
      && (forall k :: 0 <= k < |s.products| && k != r.productId - 1 ==> s'.products[k] == s.products[k])
      && (1 <= r.productId <= |s.products| && 0 < r.quantity ==>
            s'.products[r.productId - 1] == s.products[r.productId - 1].(ordered := s'.products[r.productId - 1].ordered)
            && s'.products[r.productId - 1].ordered == Max(s.products[r.productId - 1].ordered - r.quantity, 0))
      && (offer == NothingToDelete <==> r.offerId.None? || r.offerId.value <= 0)
      && (offer.OfferDeleted? ==> dropped && offer.offerId == r.offerId.value)
  {
  }

  /** A deletion keeps the store consistent, and in a consistent store the id is then gone, so
      deleting it again is refused. */
  lemma DeletePreserves(s: Store, id: int, dropped: bool)
    requires Consistent(s) && Delete(s, id, dropped).Ok?
    ensures var s' := Delete(s, id, dropped).value.store;
      && Consistent(s')
      && !HasReservation(s', id)
      && Delete(s', id, dropped) == Err(NotFound(ReservationEntity))
  {
    DeleteEffect(s, id, dropped);
    var s' := Delete(s, id, dropped).value.store;
    var i := ReservationIndex(s, id);
    var r := s.reservations[i];
    var s0 := s.(reservations := s.reservations[..i] + s.reservations[i + 1..]);
    assert r in s.reservations;
    ConsistentExceptNothing(s);
    RemoveKeeps(s, i, {});
    assert {} + {r.productId} == {r.productId};
    SumNonNegative(s0.reservations, OfProduct(r.productId));
    SettleKeeps(s0, s', r.productId, {r.productId});
    assert {r.productId} - {r.productId} == {};
    ConsistentExceptNothing(s');
    LedgerFrame(s, s');
    forall k | 0 <= k < |s'.reservations| ensures s'.reservations[k].id != id {
      assert s'.reservations[k] in s0.reservations;
    }
  }
}
