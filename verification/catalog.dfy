/** `save_producto.php`: add a product to `productos`, with nothing in stock and nothing reserved. */
module Catalog {
  import opened Wrappers
  import opened Text
  import opened Store

  /** The request after the casts; the two strings are still untrimmed. */
  datatype Request = Request(typeId: int, name: string, velneoCode: string, supplierId: int)

  /** The widest `codigo_velneo` accepted, in characters. */
  const MaxCodeLength := 64

  // ----- input checks -----

  /** The checks of this endpoint, in the order they run. */
  const Checks: seq<Field> := [BadTypeId, MissingProductName, BadSupplierId, CodeTooLong]

  /** Whether check `f` fails, for the trimmed name and code. */
  predicate Fails(req: Request, name: string, code: string, f: Field) {
    match f
    case BadTypeId => req.typeId <= 0
    case MissingProductName => name == ""
    case BadSupplierId => req.supplierId <= 0
    case CodeTooLong => code != "" && |code| > MaxCodeLength
    case _ => false
  }

  /** The `$errors` list: exactly the checks that fail, in the order they run. */
  function Check(req: Request, name: string, code: string): (errors: seq<Field>)
    ensures forall f :: f in errors <==> f in Checks && Fails(req, name, code, f)
  {
    Failing(Checks, (f: Field) => Fails(req, name, code, f))
  }

  /** An empty error list means every check passed. */
  lemma Passed(req: Request, name: string, code: string)
    requires |Check(req, name, code)| == 0
    ensures 0 < req.typeId && name != "" && 0 < req.supplierId && |code| <= MaxCodeLength
  {
    var errors := Check(req, name, code);
    forall k | 0 <= k < |Checks| ensures !Fails(req, name, code, Checks[k]) {
      assert Checks[k] !in errors;
    }
  }

  // ----- the endpoint -----

  /** The inserted row: the type and supplier as name snapshots, `cantidad = 0`, `pedido = 0`, and the
      code only where the column exists and the code is not empty. */
  function NewProduct(s: Store, schema: Schema, req: Request, name: string, code: string): Product
    requires Usable(s.productTypes, req.typeId) && Usable(s.suppliers, req.supplierId)
  {
    Product(req.typeId, s.productTypes[req.typeId - 1].name, name,
            if schema.productsHaveVelneoCode && code != "" then Some(code) else None,
            s.suppliers[req.supplierId - 1].name, 0, 0, "", "", None)
  }

  /** The whole call. On success: the new store and the new `productos` id. */
  function Create(s: Store, schema: Schema, req: Request): Result<(Store, int), Error> {
    Submit(s, schema, req, Trim(req.name), Trim(req.velneoCode))
  }

  /** The call from the input checks on, for the trimmed name and code. */
  function Submit(s: Store, schema: Schema, req: Request, name: string, code: string)
    : Result<(Store, int), Error>
  {
    var errors := Check(req, name, code);
    if |errors| > 0 then Err(Invalid(errors))
    else if !Usable(s.productTypes, req.typeId) then Err(NotFound(TypeEntity))
    else if !Usable(s.suppliers, req.supplierId) then Err(NotFound(SupplierEntity))
    else Ok((s.(products := s.products + [NewProduct(s, schema, req, name, code)]), |s.products| + 1))
  }

  // ----- what the endpoint promises -----

  /** Any failed input check is reported, with every failed check listed, before anything is read. */
  lemma RejectsBadInput(s: Store, schema: Schema, req: Request, name: string, code: string)
    ensures (exists f :: f in Checks && Fails(req, name, code, f))
      <==> Submit(s, schema, req, name, code) == Err(Invalid(Check(req, name, code)))
  {
    var errors := Check(req, name, code);
    if exists f :: f in Checks && Fails(req, name, code, f) {
      var f :| f in Checks && Fails(req, name, code, f);
      assert f in errors;
    }
    if |errors| > 0 {
      assert errors[0] in errors;
    }
  }

  /** Past the input checks, an unknown (or nameless) type is reported first, then an unknown (or
      nameless) supplier, and nothing else can go wrong. */
  lemma RefusalReasons(s: Store, schema: Schema, req: Request, name: string, code: string)
    requires |Check(req, name, code)| == 0
    ensures Submit(s, schema, req, name, code) == Err(NotFound(TypeEntity)) <==> !Usable(s.productTypes, req.typeId)
    ensures Submit(s, schema, req, name, code) == Err(NotFound(SupplierEntity))
      <==> Usable(s.productTypes, req.typeId) && !Usable(s.suppliers, req.supplierId)
    ensures Submit(s, schema, req, name, code).Ok?
      <==> Usable(s.productTypes, req.typeId) && Usable(s.suppliers, req.supplierId)
  {
  }

  /** On success exactly one product is appended and nothing else changes; it has no stock and
      nothing ordered, carries the checked name, the type and supplier names, and the code only when
      there is one and a column to hold it. */
  lemma CreateEffect(s: Store, schema: Schema, req: Request, name: string, code: string)
    requires Submit(s, schema, req, name, code).Ok?
    ensures var (s', id) := Submit(s, schema, req, name, code).value;
      var p := s'.products[|s.products|];
      && id == |s.products| + 1
      && s' == s.(products := s.products + [p])
      && p.stock == 0 && p.ordered == 0
      && p.name == name && name != ""
      && p.typeId == req.typeId && 1 <= req.typeId <= |s.productTypes|
      && p.kind == s.productTypes[req.typeId - 1].name && !Falsy(p.kind)
      && 1 <= req.supplierId <= |s.suppliers|
      && p.supplierName == s.suppliers[req.supplierId - 1].name && !Falsy(p.supplierName)
      && (p.velneoCode.Some? <==> schema.productsHaveVelneoCode && code != "")
      && (p.velneoCode.Some? ==> p.velneoCode.value == code && |code| <= MaxCodeLength)
  {
    Passed(req, name, code);
  }

  /** Adding a product keeps the store consistent: no reservation names the new id, so its `pedido`
      of 0 is the sum of its reservations. */
  lemma CreatePreserves(s: Store, schema: Schema, req: Request, name: string, code: string)
    requires Consistent(s) && Submit(s, schema, req, name, code).Ok?
    ensures Consistent(Submit(s, schema, req, name, code).value.0)
  {
    var s' := Submit(s, schema, req, name, code).value.0;
    CreateEffect(s, schema, req, name, code);
    AppendProductPreserves(s, s'.products[|s.products|]);
  }

  /** Adding a product with nothing ordered keeps the store consistent. */
  lemma AppendProductPreserves(s: Store, p: Product)
    requires Consistent(s) && p.ordered == 0
    ensures Consistent(s.(products := s.products + [p]))
  {
    var s' := s.(products := s.products + [p]);
    var id := |s.products| + 1;
    forall r | r in s.reservations ensures OfProduct(id)(r) == 0 {
    }
    SumZero(s.reservations, OfProduct(id));
    forall q | 1 <= q <= |s'.products| ensures s'.products[q - 1].ordered == Reserved(s', q) {
      assert Reserved(s', q) == Reserved(s, q);
      if q <= |s.products| {
        assert s'.products[q - 1] == s.products[q - 1];
      }
    }
  }
}
