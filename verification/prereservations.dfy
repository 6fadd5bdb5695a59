/** `save_prereserva.php` and `delete_prereserva.php`: a delegation's request for a product in a
    week, recorded as a pending pre-reservation and later either converted or cancelled. */
module PreReservations {
  import opened Wrappers
  import opened Text
  import opened Calendar
  import opened Weeks
  import opened Store

  // ----- the state machine of `estado` -----

  /** The only moves of `estado`: staying put, or leaving `pendiente` for good. */
  predicate Step(a: PreState, b: PreState) {
    a == b || (a == Pending && b != Pending)
  }

  /** `s'` is `s` with possibly more pre-reservations at the end and every existing one unchanged
      except for a permitted move of its state. */
  predicate Evolves(s: Store, s': Store) {
    && |s.preReservations| <= |s'.preReservations|
    && forall i :: 0 <= i < |s.preReservations| ==>
         && Step(s.preReservations[i].state, s'.preReservations[i].state)
         && s'.preReservations[i] == s.preReservations[i].(state := s'.preReservations[i].state)
  }

  /** A pre-reservation as the save endpoint writes it: a positive quantity for an existing
      delegation, and a type and product that are not blank. */
  predicate WellFormed(pr: PreReservation) {
    0 < pr.delegationId && 0 < pr.quantity && pr.kind != "" && pr.product != ""
  }

  predicate AllWellFormed(s: Store) {
    forall i :: 0 <= i < |s.preReservations| ==> WellFormed(s.preReservations[i])
  }

  /** Moves compose, and a settled pre-reservation never moves again. */
  lemma EvolvesTransitive(s1: Store, s2: Store, s3: Store)
    requires Evolves(s1, s2) && Evolves(s2, s3)
    ensures Evolves(s1, s3)
    ensures forall i :: 0 <= i < |s1.preReservations| && s1.preReservations[i].state != Pending ==>
      s3.preReservations[i] == s1.preReservations[i]
  {
    forall i | 0 <= i < |s1.preReservations|
      ensures Step(s1.preReservations[i].state, s3.preReservations[i].state)
      ensures s3.preReservations[i] == s1.preReservations[i].(state := s3.preReservations[i].state)
    {
      assert Step(s2.preReservations[i].state, s3.preReservations[i].state);
    }
  }

  // ===== save_prereserva.php =====

  /** The request after the casts; the three strings are still untrimmed. */
  datatype Request = Request(
    delegationId: int,
    productId: int,
    productName: string,
    quantity: int,
    week: string,
    date: string)

  /** The trimmed product name, week and date. */
  datatype Entry = Entry(name: string, week: string, date: string)

  function Derive(req: Request): Entry {
    Entry(Trim(req.productName), Trim(req.week), Trim(req.date))
  }

  /** The checks of this endpoint, in the order they run. At most one of the last three fails: the
      week is checked when given, the legacy date only when it is not, and one of them is required. */
  const Checks: seq<Field> :=
    [BadDelegationId, MissingProductName, BadQuantity, MalformedWeek, MalformedDate, MissingWeek]

  predicate Fails(req: Request, e: Entry, f: Field) {
    match f
    case BadDelegationId => req.delegationId <= 0
    case MissingProductName => req.productId <= 0 && e.name == ""
    case BadQuantity => req.quantity <= 0
    case MalformedWeek => e.week != "" && IsoWeekToMondayDate(e.week).None?
    case MalformedDate => e.week == "" && e.date != "" && !IsValidDate(e.date)
    case MissingWeek => e.week == "" && e.date == ""
    case _ => false
  }

  /** The `$errors` list: exactly the checks that fail, in the order they run. */
  function Check(req: Request, e: Entry): (errors: seq<Field>)
    ensures forall f :: f in errors <==> f in Checks && Fails(req, e, f)
  {
    Failing(Checks, (f: Field) => Fails(req, e, f))
  }

  /** `$fechaDeseadaDb`: the Monday of the week when one is given, else the legacy date. */
  function DesiredDate(e: Entry): string {
    if e.week != "" then IsoWeekToMondayDate(e.week).GetOr("") else e.date
  }

  /** An empty error list means every check passed. */
  lemma Passed(req: Request, e: Entry)
    requires |Check(req, e)| == 0
    ensures 0 < req.delegationId && (0 < req.productId || e.name != "") && 0 < req.quantity
    ensures e.week != "" ==> IsoWeekToMondayDate(e.week).Some?
    ensures e.week == "" ==> IsValidDate(e.date)
  {
    var errors := Check(req, e);
    forall k | 0 <= k < |Checks| ensures !Fails(req, e, Checks[k]) {
      assert Checks[k] !in errors;
    }
  }

  /** Once the checks pass, the date to store is a real date: the given one, or the Monday of the
      given week (for the years whose Mondays have four-digit years). */
  lemma DesiredDateValid(req: Request, e: Entry)
    requires |Check(req, e)| == 0
    ensures e.week != "" ==> IsoWeekToMondayDate(e.week) == Some(DesiredDate(e))
    ensures e.week != "" && 1 <= WeekFields(e.week).year <= 9998 ==>
      IsValidDate(DesiredDate(e)) && DayNumber(DateFields(DesiredDate(e))) == MondayOfIsoWeek(WeekFields(e.week))
      && IsoWeekday(DayNumber(DateFields(DesiredDate(e)))) == 1
    ensures e.week == "" ==> DesiredDate(e) == e.date && IsValidDate(e.date)
  {
    Passed(req, e);
  }

  /** `SELECT nombre FROM delegaciones WHERE id = ?` accepted only as a string that is not blank. */
  predicate HasDelegation(s: Store, id: int) {
    Listed(s.delegations, id)
  }

  /** The product: by id when one is given, else the lowest id with exactly that name. */
  function FindProduct(s: Store, productId: int, name: string): (r: Option<int>)
    ensures 0 < productId ==> (r.Some? <==> productId <= |s.products|) && (r.Some? ==> r.value == productId)
    ensures productId <= 0 ==>
      && (r.Some? <==> exists i :: 0 <= i < |s.products| && s.products[i].name == name)
      && (r.Some? ==> 1 <= r.value <= |s.products| && s.products[r.value - 1].name == name
                      && forall i :: 0 <= i < r.value - 1 ==> s.products[i].name != name)
  {
    if 0 < productId then (if productId <= |s.products| then Some(productId) else None)
    else FirstMatch(s.products, (p: Product) => p.name == name)
  }

  /** The whole call. On success: the new store and the new `pre_reservas` id. */
  function Save(s: Store, req: Request): Result<(Store, int), Error> {
    Submit(s, req, Derive(req))
  }

  /** The call from the input checks on, for the trimmed strings. */
  function Submit(s: Store, req: Request, e: Entry): (r: Result<(Store, int), Error>)
    ensures r.Ok? ==> |r.value.0.preReservations| == |s.preReservations| + 1
  {
    var errors := Check(req, e);
    if |errors| > 0 then Err(Invalid(errors)) else Record(s, req, e.name, DesiredDate(e))
  }

  /** The transaction: the delegation, then the product, whose trimmed type and name are stored. */
  function Record(s: Store, req: Request, name: string, date: string): (r: Result<(Store, int), Error>)
    ensures r.Err? ==> r.error.NotFound? || r.error == BadPreProduct
    ensures r.Ok? ==> |r.value.0.preReservations| == |s.preReservations| + 1
  {
    if !HasDelegation(s, req.delegationId) then Err(NotFound(DelegationEntity))
    else
      match FindProduct(s, req.productId, name)
      case None => Err(NotFound(ProductEntity))
      case Some(pid) =>
        var kind := Trim(s.products[pid - 1].kind);
        var product := Trim(s.products[pid - 1].name);
        if kind == "" || product == "" then Err(BadPreProduct)
        else
          var pr := PreReservation(req.delegationId, s.delegations[req.delegationId - 1].name, kind, product,
                                   req.quantity, date, Pending);
          Ok((s.(preReservations := s.preReservations + [pr]), |s.preReservations| + 1))
  }

  /** Any failed input check is reported, with every failed check listed, before anything is read. */
  lemma RejectsBadInput(s: Store, req: Request, e: Entry)
    ensures (exists f :: f in Checks && Fails(req, e, f)) <==> Submit(s, req, e) == Err(Invalid(Check(req, e)))
  {
    var errors := Check(req, e);
    if exists f :: f in Checks && Fails(req, e, f) {
      var f :| f in Checks && Fails(req, e, f);
      assert f in errors;
    }
    if |errors| > 0 {
      assert errors[0] in errors;
    }
  }

  /** Once the checks pass, the call is the transaction on the trimmed name and the stored date. */
  lemma SubmitIsRecord(s: Store, req: Request, e: Entry)
    requires |Check(req, e)| == 0
    ensures Submit(s, req, e) == Record(s, req, e.name, DesiredDate(e))
  {
  }

  /** The transaction reports a missing or blank delegation first, then a product that is not
      found, then one with a blank type or name; otherwise it succeeds. */
  lemma RefusalReasons(s: Store, req: Request, name: string, date: string)
    ensures Record(s, req, name, date) == Err(NotFound(DelegationEntity)) <==> !HasDelegation(s, req.delegationId)
    ensures Record(s, req, name, date) == Err(NotFound(ProductEntity))
      <==> HasDelegation(s, req.delegationId) && FindProduct(s, req.productId, name).None?
    ensures Record(s, req, name, date) == Err(BadPreProduct)
      <==> HasDelegation(s, req.delegationId) && FindProduct(s, req.productId, name).Some?
           && var p := s.products[FindProduct(s, req.productId, name).value - 1];
              Trim(p.kind) == "" || Trim(p.name) == ""
  {
    if HasDelegation(s, req.delegationId) && FindProduct(s, req.productId, name).Some? {
      var pid := FindProduct(s, req.productId, name).value;
      assert 1 <= pid <= |s.products|;
    }
  }

  /** On success one pending pre-reservation is appended and nothing else changes; it holds the
      delegation with its name as stored, the trimmed type and name of the product found, the
      quantity and the date. */
  lemma RecordEffect(s: Store, req: Request, name: string, date: string)
    requires Record(s, req, name, date).Ok?
    ensures var (s', id) := Record(s, req, name, date).value;
      var pr := s'.preReservations[|s.preReservations|];
      var pid := FindProduct(s, req.productId, name).value;
      && id == |s.preReservations| + 1
      && s' == s.(preReservations := s.preReservations + [pr])
      && pr.state == Pending
      && HasDelegation(s, req.delegationId)
      && pr.delegationId == req.delegationId && pr.delegationName == s.delegations[req.delegationId - 1].name
      && 1 <= pid <= |s.products|
      && pr.kind == Trim(s.products[pid - 1].kind) != "" && pr.product == Trim(s.products[pid - 1].name) != ""
      && pr.quantity == req.quantity
      && pr.desiredDate == date
  {
    var pid := FindProduct(s, req.productId, name).value;
    var pr := PreReservation(req.delegationId, s.delegations[req.delegationId - 1].name, Trim(s.products[pid - 1].kind),
                             Trim(s.products[pid - 1].name), req.quantity, date, Pending);
    assert Record(s, req, name, date) == Ok((s.(preReservations := s.preReservations + [pr]), |s.preReservations| + 1));
    assert (s.preReservations + [pr])[|s.preReservations|] == pr;
  }

  /** The whole save: the appended pre-reservation is well formed and stores the checked date. */
  lemma SaveEffect(s: Store, req: Request, e: Entry)
    requires Submit(s, req, e).Ok?
    ensures var (s', id) := Submit(s, req, e).value;
      var pr := s'.preReservations[|s.preReservations|];
      && id == |s.preReservations| + 1
      && s' == s.(preReservations := s.preReservations + [pr])
      && pr.state == Pending && WellFormed(pr)
      && pr.desiredDate == DesiredDate(e)
  {
    Passed(req, e);
    SubmitIsRecord(s, req, e);
    RecordEffect(s, req, e.name, DesiredDate(e));
  }

  /** A save only appends, and keeps every pre-reservation well formed and the rest of the store
      consistent. */
  lemma SavePreserves(s: Store, req: Request, e: Entry)
    requires Submit(s, req, e).Ok?
    ensures var s' := Submit(s, req, e).value.0;
      && Evolves(s, s')
      && (AllWellFormed(s) ==> AllWellFormed(s'))
      && (Consistent(s) ==> Consistent(s'))
  {
    SaveEffect(s, req, e);
    var s' := Submit(s, req, e).value.0;
    AppendPreserves(s, s'.preReservations[|s.preReservations|]);
  }

  /** Appending a well-formed pre-reservation. */
  lemma AppendPreserves(s: Store, pr: PreReservation)
    requires WellFormed(pr)
    ensures var s' := s.(preReservations := s.preReservations + [pr]);
      && Evolves(s, s')
      && (AllWellFormed(s) ==> AllWellFormed(s'))
      && (Consistent(s) ==> Consistent(s'))
  {
    var s' := s.(preReservations := s.preReservations + [pr]);
    assert forall p :: Reserved(s', p) == Reserved(s, p);
  }

  // ===== delete_prereserva.php =====

  /** `UPDATE pre_reservas SET estado = 'cancelada' WHERE id = ? AND estado = 'pendiente'`, refused
      when no row changed. */
  function Cancel(s: Store, id: int): Result<Store, Error> {
    if id <= 0 then Err(Invalid([BadId]))
    else if id <= |s.preReservations| && s.preReservations[id - 1].state == Pending then
      Ok(s.(preReservations := s.preReservations[id - 1 := s.preReservations[id - 1].(state := Cancelled)]))
    else Err(NothingToCancel)
  }

  /** A cancel succeeds exactly on a pending pre-reservation, which it moves to cancelled and touches
      nothing else; a second cancel of the same id is refused. */
  lemma CancelEffect(s: Store, id: int)
    ensures Cancel(s, id) == Err(Invalid([BadId])) <==> id <= 0
    ensures Cancel(s, id).Ok? <==> 1 <= id <= |s.preReservations| && s.preReservations[id - 1].state == Pending
    ensures Cancel(s, id).Ok? ==>
      var s' := Cancel(s, id).value;
      && Evolves(s, s')
      && |s'.preReservations| == |s.preReservations|
      && s'.preReservations[id - 1].state == Cancelled
      && (forall i :: 0 <= i < |s.preReservations| && i != id - 1 ==> s'.preReservations[i] == s.preReservations[i])
      && s' == s.(preReservations := s'.preReservations)
      && Cancel(s', id) == Err(NothingToCancel)
  {
  }

  /** A cancel keeps every pre-reservation well formed and the rest of the store consistent. */
  lemma CancelPreserves(s: Store, id: int)
    requires Cancel(s, id).Ok?
    ensures AllWellFormed(s) ==> AllWellFormed(Cancel(s, id).value)
    ensures Consistent(s) ==> Consistent(Cancel(s, id).value)
  {
    var s' := Cancel(s, id).value;
    assert forall p :: Reserved(s', p) == Reserved(s, p);
  }
}
