/** `convertir_prereserva.php`: turn a pending pre-reservation into one reservation and one FIFO
    allocation per supplier of a split, all or nothing. */
module Conversion {
  import opened Wrappers
  import opened Text
  import opened Calendar
  import opened Weeks
  import opened Store
  import opened Lots
  import opened Fifo
  import opened Reservations
  import opened PreReservations

  // ===== the split =====

  /** One item of `asignaciones` after the casts; a missing field reads as 0. */
  datatype Line = Line(supplierId: int, quantity: int)

  /** The request after the casts: the pre-reservation, the single `proveedor_id` older clients
      send, and the split lines. */
  datatype Request = Request(preId: int, legacySupplierId: int, lines: seq<Line>)

  /** An entry of `$asignacionesMap`: a supplier and the quantity asked of it. */
  datatype Part = Part(supplierId: int, quantity: int)

  /** A line with neither field is skipped. */
  predicate Blank(l: Line) { l.supplierId <= 0 && l.quantity <= 0 }

  /** A line with both fields positive is merged into the split. */
  predicate Complete(l: Line) { 0 < l.supplierId && 0 < l.quantity }

  /** A line with one field but not the other is reported. */
  predicate HalfFilled(l: Line) { !Blank(l) && !Complete(l) }

  function PartQuantity(p: Part): int { p.quantity }

  /** `array_sum($asignacionesMap)`. */
  function Total(parts: seq<Part>): int { Sum(parts, PartQuantity) }

  /** What the parts ask of supplier `sid`. */
  function OfSupplier(sid: int): Part -> int {
    (p: Part) => if p.supplierId == sid then p.quantity else 0
  }

  /** What the complete lines ask of supplier `sid`. */
  function LinesOf(sid: int): Line -> int {
    (l: Line) => if Complete(l) && l.supplierId == sid then l.quantity else 0
  }

  function CompleteQuantity(l: Line): int { if Complete(l) then l.quantity else 0 }

  function HalfFilledCount(l: Line): int { if HalfFilled(l) then 1 else 0 }

  /** Some complete line names supplier `sid`. */
  predicate HasComplete(lines: seq<Line>, sid: int) {
    exists i :: 0 <= i < |lines| && Complete(lines[i]) && lines[i].supplierId == sid
  }

  /** Supplier `sid` is a key of the split. */
  predicate Lists(parts: seq<Part>, sid: int) {
    exists p :: p in parts && p.supplierId == sid
  }

  predicate DistinctSuppliers(parts: seq<Part>) {
    forall i, j :: 0 <= i < j < |parts| ==> parts[i].supplierId != parts[j].supplierId
  }

  /** Each supplier once, each with a positive id and a positive quantity. */
  predicate WellSplit(parts: seq<Part>) {
    DistinctSuppliers(parts) && forall p :: p in parts ==> 0 < p.supplierId && 0 < p.quantity
  }

  /** `$map[$sid] = ($map[$sid] ?? 0) + $q`: an existing key keeps its place, a new key goes last. */
  function AddTo(parts: seq<Part>, sid: int, q: int): seq<Part>
    decreases |parts|
  {
    if |parts| == 0 then [Part(sid, q)]
    else if parts[0].supplierId == sid then [parts[0].(quantity := parts[0].quantity + q)] + parts[1..]
    else [parts[0]] + AddTo(parts[1..], sid, q)
  }

  /** The `foreach` over the lines: the merged split and the number of half-filled lines. */
  function Merge(lines: seq<Line>): (seq<Part>, nat)
    decreases |lines|
  {
    if |lines| == 0 then ([], 0)
    else
      var (parts, broken) := Merge(lines[..|lines| - 1]);
      var l := lines[|lines| - 1];
      if Blank(l) then (parts, broken)
      else if HalfFilled(l) then (parts, broken + 1)
      else (AddTo(parts, l.supplierId, l.quantity), broken)
  }

  /** The keys of a split with one more part in front. */
  lemma ListsCons(head: Part, tail: seq<Part>, x: int)
    ensures Lists([head] + tail, x) <==> head.supplierId == x || Lists(tail, x)
  {
    assert head in [head] + tail;
    if Lists(tail, x) {
      var p :| p in tail && p.supplierId == x;
      assert p in [head] + tail;
    }
  }

  /** A supplier is a key exactly when some part names it. */
  lemma ListsAt(parts: seq<Part>, x: int)
    ensures Lists(parts, x) <==> exists k :: 0 <= k < |parts| && parts[k].supplierId == x
  {
    if Lists(parts, x) {
      var p :| p in parts && p.supplierId == x;
      var k :| 0 <= k < |parts| && parts[k] == p;
    }
  }

  /** Adding to a supplier adds to its total and to no other. */
  lemma {:induction false} AddToSums(parts: seq<Part>, sid: int, q: int)
    ensures forall x ::
      Sum(AddTo(parts, sid, q), OfSupplier(x)) == Sum(parts, OfSupplier(x)) + (if x == sid then q else 0)
    ensures Total(AddTo(parts, sid, q)) == Total(parts) + q
    decreases |parts|
  {
    if |parts| > 0 && parts[0].supplierId != sid {
      AddToSums(parts[1..], sid, q);
    }
  }

  /** Adding to a supplier makes it a key and adds no other. */
  lemma {:induction false} AddToKeys(parts: seq<Part>, sid: int, q: int)
    ensures forall x :: Lists(AddTo(parts, sid, q), x) <==> Lists(parts, x) || x == sid
    decreases |parts|
  {
    if |parts| == 0 {
      assert Part(sid, q) in AddTo(parts, sid, q);
    } else {
      var head := parts[0];
      var tail := parts[1..];
      assert parts == [head] + tail;
      if head.supplierId == sid {
        var head' := head.(quantity := head.quantity + q);
        assert AddTo(parts, sid, q) == [head'] + tail;
        forall x ensures Lists(AddTo(parts, sid, q), x) <==> Lists(parts, x) || x == sid {
          ListsCons(head, tail, x);
          ListsCons(head', tail, x);
        }
      } else {
        AddToKeys(tail, sid, q);
        assert AddTo(parts, sid, q) == [head] + AddTo(tail, sid, q);
        forall x ensures Lists(AddTo(parts, sid, q), x) <==> Lists(parts, x) || x == sid {
          ListsCons(head, tail, x);
          ListsCons(head, AddTo(tail, sid, q), x);
        }
      }
    }
  }

  /** Adding to a supplier keeps the keys distinct. */
  lemma {:induction false} AddToDistinct(parts: seq<Part>, sid: int, q: int)
    requires DistinctSuppliers(parts)
    ensures DistinctSuppliers(AddTo(parts, sid, q))
    decreases |parts|
  {
    if |parts| > 0 {
      var head := parts[0];
      var tail := parts[1..];
      var r := AddTo(parts, sid, q);
      if head.supplierId == sid {
        forall i, j | 0 <= i < j < |r| ensures r[i].supplierId != r[j].supplierId {
          assert r[i].supplierId == parts[i].supplierId && r[j].supplierId == parts[j].supplierId;
        }
      } else {
        var rest := AddTo(tail, sid, q);
        assert DistinctSuppliers(tail) by {
          forall i, j | 0 <= i < j < |tail| ensures tail[i].supplierId != tail[j].supplierId {
            assert tail[i] == parts[i + 1] && tail[j] == parts[j + 1];
          }
        }
        AddToDistinct(tail, sid, q);
        AddToKeys(tail, sid, q);
        assert r == [head] + rest;
        forall j | 0 <= j < |rest| ensures rest[j].supplierId != head.supplierId {
          ListsAt(rest, rest[j].supplierId);
          ListsAt(tail, rest[j].supplierId);
          if rest[j].supplierId != sid {
            var m :| 0 <= m < |tail| && tail[m].supplierId == rest[j].supplierId;
            assert parts[m + 1] == tail[m];
          }
        }
        forall i, j | 0 <= i < j < |r| ensures r[i].supplierId != r[j].supplierId {
          if i == 0 {
            assert r[j] == rest[j - 1];
          } else {
            assert r[i] == rest[i - 1] && r[j] == rest[j - 1];
          }
        }
      }
    }
  }

  /** Adding a positive quantity for a positive supplier keeps the split positive. */
  lemma {:induction false} AddToPositive(parts: seq<Part>, sid: int, q: int)
    requires forall p :: p in parts ==> 0 < p.supplierId && 0 < p.quantity
    requires 0 < sid && 0 < q
    ensures forall p :: p in AddTo(parts, sid, q) ==> 0 < p.supplierId && 0 < p.quantity
    decreases |parts|
  {
    if |parts| > 0 && parts[0].supplierId != sid {
      assert forall p :: p in parts[1..] ==> p in parts;
      AddToPositive(parts[1..], sid, q);
      assert AddTo(parts, sid, q) == [parts[0]] + AddTo(parts[1..], sid, q);
    }
  }

  /** The merged split against its reference. */
  lemma {:induction false} MergeSpec(lines: seq<Line>)
    ensures Merged(lines, Merge(lines).0, Merge(lines).1)
    decreases |lines|
  {
    if |lines| > 0 {
      var init := lines[..|lines| - 1];
      var l := lines[|lines| - 1];
      assert lines == init + [l];
      MergeSpec(init);
      MergeStep(init, l);
    }
  }

  /** A split merged from `lines`: each supplier once and positive, asked exactly the sum of its
      complete lines; a supplier is a key exactly when it has a complete line; the half-filled lines
      are counted. */
  ghost predicate Merged(lines: seq<Line>, parts: seq<Part>, broken: nat) {
    && WellSplit(parts)
    && (forall x :: Sum(parts, OfSupplier(x)) == Sum(lines, LinesOf(x)))
    && (forall x :: Lists(parts, x) <==> HasComplete(lines, x))
    && (|parts| == 0 <==> forall i :: 0 <= i < |lines| ==> !Complete(lines[i]))
    && Total(parts) == Sum(lines, CompleteQuantity)
    && broken == Sum(lines, HalfFilledCount)
  }

  /** One more line keeps the merge against its reference. */
  lemma MergeStep(init: seq<Line>, l: Line)
    requires Merged(init, Merge(init).0, Merge(init).1)
    ensures Merged(init + [l], Merge(init + [l]).0, Merge(init + [l]).1)
  {
    var lines := init + [l];
    assert lines[..|lines| - 1] == init && lines[|lines| - 1] == l;
    var (before, broken0) := Merge(init);
    var (parts, broken) := Merge(lines);
    LineAppended(init, l);
    if Complete(l) {
      AddToSums(before, l.supplierId, l.quantity);
      AddToKeys(before, l.supplierId, l.quantity);
      AddToDistinct(before, l.supplierId, l.quantity);
      AddToPositive(before, l.supplierId, l.quantity);
      assert parts == AddTo(before, l.supplierId, l.quantity);
      assert Lists(parts, l.supplierId);
      assert parts[0] in parts;
    } else {
      assert parts == before;
    }
  }

  /** The reference sums and keys of the lines with one more line at the end. */
  lemma LineAppended(init: seq<Line>, l: Line)
    ensures var lines := init + [l];
      && Sum(lines, CompleteQuantity) == Sum(init, CompleteQuantity) + CompleteQuantity(l)
      && Sum(lines, HalfFilledCount) == Sum(init, HalfFilledCount) + HalfFilledCount(l)
      && (forall x :: Sum(lines, LinesOf(x)) == Sum(init, LinesOf(x)) + LinesOf(x)(l))
      && (forall x :: HasComplete(lines, x) <==> HasComplete(init, x) || (Complete(l) && l.supplierId == x))
      && ((forall i :: 0 <= i < |lines| ==> !Complete(lines[i]))
          <==> (forall i :: 0 <= i < |init| ==> !Complete(init[i])) && !Complete(l))
  {
    var lines := init + [l];
    SumAppend(init, [l], CompleteQuantity);
    SumAppend(init, [l], HalfFilledCount);
    forall x ensures Sum(lines, LinesOf(x)) == Sum(init, LinesOf(x)) + LinesOf(x)(l) {
      SumAppend(init, [l], LinesOf(x));
    }
    forall x ensures HasComplete(lines, x) <==> HasComplete(init, x) || (Complete(l) && l.supplierId == x) {
      if HasComplete(lines, x) {
        var i :| 0 <= i < |lines| && Complete(lines[i]) && lines[i].supplierId == x;
        if i < |init| {
          assert init[i] == lines[i];
        }
      }
      if HasComplete(init, x) {
        var i :| 0 <= i < |init| && Complete(init[i]) && init[i].supplierId == x;
        assert lines[i] == init[i];
      }
      if Complete(l) && l.supplierId == x {
        assert lines[|lines| - 1] == l;
      }
    }
    assert lines[|lines| - 1] == l;
    assert forall i :: 0 <= i < |init| ==> lines[i] == init[i];
  }

  /** An empty split from a client that sent only `proveedor_id`: that supplier, its quantity to be
      filled in once the pre-reservation is read. */
  function WithLegacy(parts: seq<Part>, legacy: int): seq<Part> {
    if |parts| == 0 && 0 < legacy then [Part(legacy, 0)] else parts
  }

  /** The legacy supplier's placeholder gets the whole quantity of the pre-reservation. */
  function Fill(parts: seq<Part>, legacy: int, quantity: int): seq<Part> {
    if 0 < legacy && |parts| == 1 && parts[0].supplierId == legacy && parts[0].quantity == 0
    then [Part(legacy, quantity)]
    else parts
  }

  /** A legacy request converts the whole quantity from its one supplier; a request with a split
      keeps its split as merged; either way the split is well formed. */
  lemma LegacySplit(merged: seq<Part>, legacy: int, quantity: int)
    requires WellSplit(merged) && 0 < quantity
    ensures var split := Fill(WithLegacy(merged, legacy), legacy, quantity);
      && (|merged| == 0 && 0 < legacy ==> split == [Part(legacy, quantity)])
      && (0 < |merged| ==> split == merged)
      && (0 < |merged| || 0 < legacy ==> WellSplit(split))
  {
    if 0 < |merged| {
      assert merged[0] in merged;
    }
  }

  /** `n` copies of `f`. */
  function Repeat(f: Field, n: nat): seq<Field>
    decreases n
  {
    if n == 0 then [] else [f] + Repeat(f, n - 1)
  }

  lemma {:induction false} RepeatSpec(f: Field, n: nat)
    ensures |Repeat(f, n)| == n
    ensures multiset(Repeat(f, n))[f] == n
    ensures forall g :: g in Repeat(f, n) ==> g == f
    decreases n
  {
    if n > 0 {
      RepeatSpec(f, n - 1);
      assert multiset(Repeat(f, n)) == multiset([f]) + multiset(Repeat(f, n - 1));
    }
  }

  /** The `$errors` list: the bad id first, then one entry per half-filled line, then the empty
      split. */
  function SplitErrors(preId: int, parts: seq<Part>, broken: nat): seq<Field> {
    (if preId <= 0 then [BadId] else []) + Repeat(BadSplitLine, broken)
    + (if |parts| == 0 then [EmptySplit] else [])
  }

  /** What the list holds: the bad id exactly when the id is not positive, and first; the empty
      split exactly when there is none, and last; and as many line errors as half-filled lines. */
  lemma SplitErrorsSpec(preId: int, parts: seq<Part>, broken: nat)
    ensures var errors := SplitErrors(preId, parts, broken);
      && (BadId in errors <==> preId <= 0)
      && (EmptySplit in errors <==> |parts| == 0)
      && multiset(errors)[BadSplitLine] == broken
      && (|errors| == 0 <==> 0 < preId && broken == 0 && 0 < |parts|)
      && (preId <= 0 ==> errors[0] == BadId)
      && (|parts| == 0 ==> errors[|errors| - 1] == EmptySplit)
  {
    RepeatSpec(BadSplitLine, broken);
    var a := if preId <= 0 then [BadId] else [];
    var b := Repeat(BadSplitLine, broken);
    var c := if |parts| == 0 then [EmptySplit] else [];
    assert SplitErrors(preId, parts, broken) == a + b + c;
    assert multiset(a + b + c) == multiset(a) + multiset(b) + multiset(c);
    assert BadId !in b && EmptySplit !in b;
  }

  // ===== reading the pre-reservation =====

  /** `$fechaDeseada !== '' ? dateToIsoWeek($fechaDeseada) : null`, kept only as a non-empty
      string. */
  function PreWeek(desired: string): Option<string> {
    if desired == "" then None
    else
      match DateToIsoWeek(desired)
      case None => None
      case Some(w) => if w == "" then None else Some(w)
  }

  /** `isoWeekToMondayDate($semanaReserva)`, kept only as a non-empty string. */
  function WeekMonday(week: string): Option<string> {
    match IsoWeekToMondayDate(week)
    case None => None
    case Some(d) => if d == "" then None else Some(d)
  }

  /** For a real date whose ISO year has four digits, both steps succeed, the week is the date's
      own ISO week, and the allocations leave on the Monday of that week. */
  lemma ShipDateIsMonday(desired: string)
    requires IsValidDate(desired) && 1000 <= IsoWeekOfDate(DateFields(desired)).year <= 9998
    ensures PreWeek(desired) == DateToIsoWeek(desired) && PreWeek(desired).Some?
    ensures WeekMonday(PreWeek(desired).value).Some?
    ensures var t := WeekMonday(PreWeek(desired).value).value;
      IsValidDate(t) && DayNumber(DateFields(t)) == MondayOf(DayNumber(DateFields(desired)))
  {
    MondayOfDateWeek(desired);
  }

  // ===== phase 1: every part is checked before anything is written =====

  /** A part of the split as phase 1 resolves it: the supplier and its name, the quantity, the
      product and its name, and the lot rows read for the pair. */
  datatype Detail = Detail(
    supplierId: int,
    supplierName: string,
    quantity: int,
    productId: int,
    productName: string,
    rows: seq<Row>)

  function DetailQuantity(d: Detail): int { d.quantity }

  /** `SELECT id, nombre FROM productos WHERE nombre = ? AND proveedor = ? ORDER BY id ASC LIMIT 1`. */
  function ProductOf(s: Store, product: string, supplierName: string): Option<int> {
    FirstMatch(s.products, (p: Product) => p.name == product && p.supplierName == supplierName)
  }

  /** One part: the supplier must be listed, a product with the pre-reservation's name must be
      that supplier's, and the pair's lots must hold at least the part's quantity. */
  function Vet(s: Store, part: Part, product: string): (r: Result<Detail, Error>)
    ensures r.Err? ==> r.error == NotFound(SupplierEntity) || r.error == NotFound(ProductEntity) || r.error.InsufficientStock?
    ensures r.Ok? ==> r.value.supplierId == part.supplierId && r.value.quantity == part.quantity
  {
    if !Listed(s.suppliers, part.supplierId) then Err(NotFound(SupplierEntity))
    else
      var name := s.suppliers[part.supplierId - 1].name;
      Resolve(s, part, name, ProductOf(s, product, name))
  }

  /** The product lookup's answer, then the stock of the pair. */
  function Resolve(s: Store, part: Part, name: string, found: Option<int>): (r: Result<Detail, Error>)
    requires found.Some? ==> 1 <= found.value <= |s.products|
    ensures found.None? <==> r == Err(NotFound(ProductEntity))
    ensures r.Err? ==> r.error == NotFound(ProductEntity) || r.error.InsufficientStock?
    ensures r.Ok? ==> r.value.supplierId == part.supplierId && r.value.quantity == part.quantity
  {
    match found
    case None => Err(NotFound(ProductEntity))
    case Some(pid) => Stock(part, name, pid, s.products[pid - 1].name, LotRows(s, pid, part.supplierId))
  }

  /** `$disponible < $cantidadAsignar` over the rows read. */
  function Stock(part: Part, name: string, productId: int, productName: string, rows: seq<Row>)
    : (r: Result<Detail, Error>)
    ensures r.Err? <==> Available(rows) < part.quantity
    ensures r.Err? ==> r.error == InsufficientStock(Available(rows), part.quantity)
    ensures r.Ok? ==> r.value == Detail(part.supplierId, name, part.quantity, productId, productName, rows)
  {
    if Available(rows) < part.quantity then Err(InsufficientStock(Available(rows), part.quantity))
    else Ok(Detail(part.supplierId, name, part.quantity, productId, productName, rows))
  }

  /** The parts in order through `vet`; the first refusal ends the call. Every part passes exactly
      when the result is a detail per part, and a refusal is that of the first part refused. */
  function Gather(parts: seq<Part>, vet: Part -> Result<Detail, Error>): (r: Result<seq<Detail>, Error>)
    ensures r.Ok? <==> forall k :: 0 <= k < |parts| ==> vet(parts[k]).Ok?
    ensures r.Ok? ==> |r.value| == |parts| && forall k :: 0 <= k < |parts| ==> r.value[k] == vet(parts[k]).value
    ensures r.Err? ==>
      exists k :: 0 <= k < |parts| && vet(parts[k]).Err? && r.error == vet(parts[k]).error
        && forall j :: 0 <= j < k ==> vet(parts[j]).Ok?
    decreases |parts|
  {
    if |parts| == 0 then Ok([])
    else
      assert forall k :: 1 <= k < |parts| ==> parts[1..][k - 1] == parts[k];
      match vet(parts[0])
      case Err(e) => Err(e)
      case Ok(d) =>
        match Gather(parts[1..], vet)
        case Err(e) =>
          var k :| 0 <= k < |parts[1..]| && vet(parts[1..][k]).Err? && e == vet(parts[1..][k]).error
            && forall j :: 0 <= j < k ==> vet(parts[1..][j]).Ok?;
          assert parts[k + 1] == parts[1..][k];
          Err(e)
        case Ok(ds) => Ok([d] + ds)
  }

  /** Phase 1: every part vetted against the store as it was before any write. */
  function Plan(s: Store, parts: seq<Part>, product: string): Result<seq<Detail>, Error> {
    Gather(parts, (p: Part) => Vet(s, p, product))
  }

  /** Phase 1 succeeds exactly when every part passes, resolving part `k` to detail `k`; otherwise
      it reports the refusal of the first part that fails, which is one of the three refusals a
      part can meet. */
  lemma PlanSpec(s: Store, parts: seq<Part>, product: string)
    ensures Plan(s, parts, product).Ok? <==> forall k :: 0 <= k < |parts| ==> Vet(s, parts[k], product).Ok?
    ensures Plan(s, parts, product).Ok? ==>
      && |Plan(s, parts, product).value| == |parts|
      && forall k :: 0 <= k < |parts| ==> Plan(s, parts, product).value[k] == Vet(s, parts[k], product).value
    ensures Plan(s, parts, product).Err? ==>
      && (exists k :: 0 <= k < |parts| && Vet(s, parts[k], product).Err?
            && Plan(s, parts, product).error == Vet(s, parts[k], product).error
            && forall j :: 0 <= j < k ==> Vet(s, parts[j], product).Ok?)
      && (Plan(s, parts, product).error == NotFound(SupplierEntity)
          || Plan(s, parts, product).error == NotFound(ProductEntity)
          || Plan(s, parts, product).error.InsufficientStock?)
  {
    var r := Plan(s, parts, product);
    if r.Err? {
      var k :| 0 <= k < |parts| && Vet(s, parts[k], product).Err? && r.error == Vet(s, parts[k], product).error;
    }
  }

  /** Checks that keep each part's quantity hand over the split's total. */
  lemma {:induction false} GatherQuantities(parts: seq<Part>, vet: Part -> Result<Detail, Error>)
    requires Gather(parts, vet).Ok?
    requires forall p :: vet(p).Ok? ==> vet(p).value.quantity == p.quantity
    ensures Sum(Gather(parts, vet).value, DetailQuantity) == Total(parts)
    decreases |parts|
  {
    if |parts| > 0 {
      GatherQuantities(parts[1..], vet);
    }
  }

  /** A part is refused first for a supplier that is not listed. */
  lemma VetSupplier(s: Store, part: Part, product: string)
    ensures Vet(s, part, product) == Err(NotFound(SupplierEntity)) <==> !Listed(s.suppliers, part.supplierId)
  {
  }

  /** A listed supplier's part is refused next when no product has the pre-reservation's exact name
      and the supplier's exact name. */
  lemma VetProduct(s: Store, part: Part, product: string)
    requires Listed(s.suppliers, part.supplierId)
    ensures Vet(s, part, product) == Err(NotFound(ProductEntity))
      <==> forall i :: 0 <= i < |s.products| ==>
             !(s.products[i].name == product && s.products[i].supplierName == s.suppliers[part.supplierId - 1].name)
  {
    var name := s.suppliers[part.supplierId - 1].name;
    assert Vet(s, part, product) == Resolve(s, part, name, ProductOf(s, product, name));
  }

  /** Past the lookups, a part is refused exactly when the pair's lots hold less than it asks, and
      the refusal reports both figures. */
  lemma VetStock(s: Store, part: Part, product: string)
    requires Listed(s.suppliers, part.supplierId)
    requires ProductOf(s, product, s.suppliers[part.supplierId - 1].name).Some?
    ensures var rows := LotRows(s, ProductOf(s, product, s.suppliers[part.supplierId - 1].name).value, part.supplierId);
      && (Vet(s, part, product).Err? <==> Available(rows) < part.quantity)
      && (Vet(s, part, product).Err? ==> Vet(s, part, product).error == InsufficientStock(Available(rows), part.quantity))
  {
    var name := s.suppliers[part.supplierId - 1].name;
    assert Vet(s, part, product) == Resolve(s, part, name, ProductOf(s, product, name));
  }

  /** What a part that passes resolves to: the first product with that exact name and supplier
      name, and every lot of the pair, which together hold enough. */
  lemma VetEffect(s: Store, part: Part, product: string)
    requires Vet(s, part, product).Ok?
    ensures var d := Vet(s, part, product).value;
      && Listed(s.suppliers, part.supplierId)
      && d.supplierName == s.suppliers[part.supplierId - 1].name
      && 1 <= d.productId <= |s.products|
      && s.products[d.productId - 1].name == product && s.products[d.productId - 1].supplierName == d.supplierName
      && (forall i :: 0 <= i < d.productId - 1 ==>
            !(s.products[i].name == product && s.products[i].supplierName == d.supplierName))
      && d.productName == s.products[d.productId - 1].name
      && d.rows == LotRows(s, d.productId, part.supplierId)
      && part.quantity <= Available(d.rows)
  {
  }

  /** Phase 1 asks of the lots exactly what the split asks. */
  lemma PlanQuantities(s: Store, parts: seq<Part>, product: string)
    requires Plan(s, parts, product).Ok?
    ensures Sum(Plan(s, parts, product).value, DetailQuantity) == Total(parts)
  {
    GatherQuantities(parts, (p: Part) => Vet(s, p, product));
  }

  // ===== phase 2: one reservation and one allocation per detail =====

  /** The ids `$reservaIds` and `$asignacionIds` collect. */
  datatype Receipt = Receipt(reservationIds: seq<int>, allocationIds: seq<int>)

  /** The reservation written for a detail: booked to the supplier when `reservas.comercial_id`
      references `proveedores`, else to the pre-reservation's delegation; no date, the week of the
      pre-reservation, no offer. */
  function ReservationFor(schema: Schema, pre: PreReservation, d: Detail, week: string): Reservation {
    var holder := if schema.reservationsReferenceSuppliers then d.supplierId else pre.delegationId;
    var holderName := if schema.reservationsReferenceSuppliers then d.supplierName else pre.delegationName;
    Reservation(0, holder, holderName, d.productId, d.productName, d.quantity, None, Some(week), None)
  }

  /** The allocation written for a detail: the pair, the pre-reservation's delegation, the part's
      quantity and the ship date. */
  function AllocationFor(pre: PreReservation, d: Detail, shipDate: string): Allocation {
    Allocation(d.productId, d.supplierId, pre.delegationId, d.quantity, shipDate)
  }

  /** The `foreach ($detalles ...)`: insert the reservation, insert the allocation and draw it from
      the rows phase 1 read; an undrawn remainder aborts the whole call. */
  function Apply(s: Store, schema: Schema, pre: PreReservation, ds: seq<Detail>, week: string, shipDate: string)
    : (r: Result<(Store, Receipt), Error>)
    ensures r.Err? ==> r.error == Inconsistent
    ensures r.Ok? ==> r.value.0.preReservations == s.preReservations
    decreases |ds|
  {
    if |ds| == 0 then Ok((s, Receipt([], [])))
    else
      var s1 := Reservations.Insert(s, ReservationFor(schema, pre, ds[0], week));
      var (s2, left) := Consume(s1, AllocationFor(pre, ds[0], shipDate), ds[0].rows);
      if left > 0 then Err(Inconsistent)
      else
        match Apply(s2, schema, pre, ds[1..], week, shipDate)
        case Err(e) => Err(e)
        case Ok((s3, receipt)) =>
          Ok((s3, Receipt([s.nextReservationId] + receipt.reservationIds,
                          [|s.allocations| + 1] + receipt.allocationIds)))
  }

  // ----- what phase 2 writes, as plain sequences -----

  /** The reservations phase 2 appends, numbered from `firstId`. */
  function NewReservations(schema: Schema, pre: PreReservation, ds: seq<Detail>, week: string, firstId: int)
    : seq<Reservation>
    decreases |ds|
  {
    if |ds| == 0 then []
    else [ReservationFor(schema, pre, ds[0], week).(id := firstId)]
         + NewReservations(schema, pre, ds[1..], week, firstId + 1)
  }

  /** The allocations phase 2 appends. */
  function NewAllocations(pre: PreReservation, ds: seq<Detail>, shipDate: string): seq<Allocation>
    decreases |ds|
  {
    if |ds| == 0 then [] else [AllocationFor(pre, ds[0], shipDate)] + NewAllocations(pre, ds[1..], shipDate)
  }

  /** `n` consecutive ids from `first`. */
  function Range(first: int, n: nat): seq<int>
    decreases n
  {
    if n == 0 then [] else [first] + Range(first + 1, n - 1)
  }

  function ReservationQuantity(r: Reservation): int { r.quantity }

  function AllocationQuantity(a: Allocation): int { a.quantity }

  /** Reservation `k` is detail `k`'s, under id `firstId + k`; allocation `k` is detail `k`'s; and
      both add up to what the details ask. */
  lemma {:induction false} NewRowsSpec(schema: Schema, pre: PreReservation, ds: seq<Detail>, week: string,
                                       firstId: int, shipDate: string)
    ensures |NewReservations(schema, pre, ds, week, firstId)| == |ds|
    ensures |NewAllocations(pre, ds, shipDate)| == |ds|
    ensures forall k :: 0 <= k < |ds| ==>
      NewReservations(schema, pre, ds, week, firstId)[k] == ReservationFor(schema, pre, ds[k], week).(id := firstId + k)
    ensures forall k :: 0 <= k < |ds| ==> NewAllocations(pre, ds, shipDate)[k] == AllocationFor(pre, ds[k], shipDate)
    ensures Sum(NewReservations(schema, pre, ds, week, firstId), ReservationQuantity) == Sum(ds, DetailQuantity)
    ensures Sum(NewAllocations(pre, ds, shipDate), AllocationQuantity) == Sum(ds, DetailQuantity)
    decreases |ds|
  {
    if |ds| > 0 {
      NewRowsSpec(schema, pre, ds[1..], week, firstId + 1, shipDate);
      assert forall k :: 1 <= k < |ds| ==> ds[1..][k - 1] == ds[k];
    }
  }

  /** Phase 2 never meets its inconsistency: every detail it gets holds at least its quantity, so
      the walk always draws it in full. It appends exactly the detail's reservations under
      consecutive ids and the detail's allocations, and touches only lots, allocations, the ledger
      and reservations. */
  lemma {:induction false} ApplyShape(s: Store, schema: Schema, pre: PreReservation, ds: seq<Detail>,
                                      week: string, shipDate: string)
    requires forall k :: 0 <= k < |ds| ==> ds[k].quantity <= Available(ds[k].rows)
    ensures Apply(s, schema, pre, ds, week, shipDate).Ok?
    ensures var (s', receipt) := Apply(s, schema, pre, ds, week, shipDate).value;
      && s' == s.(lots := s'.lots, allocations := s'.allocations, ledger := s'.ledger,
                  reservations := s'.reservations, nextReservationId := s'.nextReservationId)
      && |s'.lots| == |s.lots|
      && s'.allocations == s.allocations + NewAllocations(pre, ds, shipDate)
      && s'.reservations == s.reservations + NewReservations(schema, pre, ds, week, s.nextReservationId)
      && s'.nextReservationId == s.nextReservationId + |ds|
      && receipt == Receipt(Range(s.nextReservationId, |ds|), Range(|s.allocations| + 1, |ds|))
    decreases |ds|
  {
    if |ds| > 0 {
      var d := ds[0];
      var s1 := Reservations.Insert(s, ReservationFor(schema, pre, d, week));
      var a := AllocationFor(pre, d, shipDate);
      ConsumeShape(s1, a, d.rows);
      AvailableAtMostPositive(d.rows);
      var s2 := Consume(s1, a, d.rows).0;
      assert forall k :: 0 <= k < |ds[1..]| ==> ds[1..][k] == ds[k + 1];
      ApplyShape(s2, schema, pre, ds[1..], week, shipDate);
      var s3 := Apply(s2, schema, pre, ds[1..], week, shipDate).value.0;
      assert s3.allocations == s.allocations + NewAllocations(pre, ds, shipDate);
      assert s3.reservations == s.reservations + NewReservations(schema, pre, ds, week, s.nextReservationId);
    }
  }

  /** What phase 2 needs of its details: each asks a positive quantity of a real product that its
      rows can cover, the rows are current and name each lot once, and no two details share a lot. */
  predicate Ready(s: Store, ds: seq<Detail>) {
    && (forall k :: 0 <= k < |ds| ==>
          && 0 < ds[k].quantity <= Available(ds[k].rows)
          && Current(s, ds[k].rows) && DistinctIds(ds[k].rows)
          && 1 <= ds[k].productId <= |s.products|)
    && (forall j, k, r, o :: 0 <= j < k < |ds| && r in ds[j].rows && o in ds[k].rows ==> r.lotId != o.lotId)
  }

  /** Phase 2 on ready details keeps the ledger balanced and the reservations consistent, with only
      the `pedido` of the details' products (and those already stale) left to recount. */
  lemma {:induction false} ApplyKeeps(s: Store, schema: Schema, pre: PreReservation, ds: seq<Detail>,
                                      week: string, shipDate: string, stale: set<int>)
    requires LedgerConsistent(s) && ConsistentExcept(s, stale) && Ready(s, ds)
    requires forall k :: 0 <= k < |ds| ==> ds[k].productId in stale
    ensures Apply(s, schema, pre, ds, week, shipDate).Ok?
    ensures LedgerConsistent(Apply(s, schema, pre, ds, week, shipDate).value.0)
    ensures ConsistentExcept(Apply(s, schema, pre, ds, week, shipDate).value.0, stale)
    decreases |ds|
  {
    if |ds| > 0 {
      var d := ds[0];
      var s1 := Reservations.Insert(s, ReservationFor(schema, pre, d, week));
      var s2 := Consume(s1, AllocationFor(pre, d, shipDate), d.rows).0;
      var tail := ds[1..];
      assert forall k :: 0 <= k < |tail| ==> tail[k] == ds[k + 1];
      forall k | 0 <= k < |tail| ensures Current(s2, tail[k].rows) {
        ApplyStep(s, schema, pre, d, week, shipDate, stale, tail[k].rows);
      }
      ApplyStep(s, schema, pre, d, week, shipDate, stale, []);
      ApplyKeeps(s2, schema, pre, tail, week, shipDate, stale);
    }
  }

  /** One detail's writes: they keep both invariants, draw the detail in full, and leave current any
      rows that share no lot with it. */
  lemma ApplyStep(s: Store, schema: Schema, pre: PreReservation, d: Detail, week: string, shipDate: string,
                  stale: set<int>, other: seq<Row>)
    requires LedgerConsistent(s) && ConsistentExcept(s, stale) && d.productId in stale
    requires 0 < d.quantity <= Available(d.rows) && Current(s, d.rows) && DistinctIds(d.rows)
    requires 1 <= d.productId <= |s.products|
    requires Current(s, other) && forall r, o :: r in d.rows && o in other ==> r.lotId != o.lotId
    ensures var s1 := Reservations.Insert(s, ReservationFor(schema, pre, d, week));
      var (s2, left) := Consume(s1, AllocationFor(pre, d, shipDate), d.rows);
      && left == 0
      && LedgerConsistent(s2) && ConsistentExcept(s2, stale)
      && Current(s2, other) && |s2.products| == |s.products|
  {
    var res := ReservationFor(schema, pre, d, week);
    var s1 := Reservations.Insert(s, res);
    InsertKeeps(s, res, stale);
    LedgerFrame(s, s1);
    var a := AllocationFor(pre, d, shipDate);
    AvailableAtMostPositive(d.rows);
    ConsumePreserves(s1, a, d.rows);
    ConsumeSpec(s1, a, d.rows);
    ConsumeFrame(s1, a, d.rows, other);
    var s2 := Consume(s1, a, d.rows).0;
    assert forall p :: Reserved(s2, p) == Reserved(s1, p);
  }

  /** What phase 1 hands over always covers itself: each detail's rows hold at least its quantity. */
  lemma PlanCovers(s: Store, parts: seq<Part>, product: string)
    requires Plan(s, parts, product).Ok?
    ensures var ds := Plan(s, parts, product).value;
      forall k :: 0 <= k < |ds| ==> ds[k].quantity <= Available(ds[k].rows)
  {
    var ds := Plan(s, parts, product).value;
    PlanSpec(s, parts, product);
    forall k | 0 <= k < |ds| ensures ds[k].quantity <= Available(ds[k].rows) {
      VetEffect(s, parts[k], product);
    }
  }

  /** Detail `d` is ready to be written for `part`: it covers its positive quantity with current rows
      of distinct lots of the store, all of them lots of the part's supplier. */
  predicate Covers(s: Store, part: Part, d: Detail) {
    && 0 < d.quantity <= Available(d.rows)
    && Current(s, d.rows) && DistinctIds(d.rows) && 1 <= d.productId <= |s.products|
    && forall r :: r in d.rows ==> s.lots[r.lotId - 1].supplierId == part.supplierId
  }

  /** A vetted part of positive quantity is covered by its detail. */
  lemma DetailReady(s: Store, part: Part, product: string)
    requires Vet(s, part, product).Ok? && 0 < part.quantity
    ensures Covers(s, part, Vet(s, part, product).value)
  {
    var d := Vet(s, part, product).value;
    VetEffect(s, part, product);
    LotRowsCurrent(s, d.productId, part.supplierId);
    LotRowsSpec(s, d.productId, part.supplierId);
  }

  /** What holds of every passing part holds of every detail gathered. */
  lemma GatherHolds(parts: seq<Part>, vet: Part -> Result<Detail, Error>, holds: (Part, Detail) -> bool)
    requires Gather(parts, vet).Ok?
    requires forall k :: 0 <= k < |parts| && vet(parts[k]).Ok? ==> holds(parts[k], vet(parts[k]).value)
    ensures forall k :: 0 <= k < |parts| ==> holds(parts[k], Gather(parts, vet).value[k])
  {
  }

  /** Every detail of a well-formed split covers its part. */
  lemma PlanDetails(s: Store, parts: seq<Part>, product: string)
    requires WellSplit(parts) && Plan(s, parts, product).Ok?
    ensures |Plan(s, parts, product).value| == |parts|
    ensures forall k :: 0 <= k < |parts| ==> Covers(s, parts[k], Plan(s, parts, product).value[k])
  {
    var vet := (p: Part) => Vet(s, p, product);
    forall k | 0 <= k < |parts| && vet(parts[k]).Ok? ensures Covers(s, parts[k], vet(parts[k]).value) {
      assert parts[k] in parts;
      DetailReady(s, parts[k], product);
    }
    GatherHolds(parts, vet, (p: Part, d: Detail) => Covers(s, p, d));
  }

  /** Details that cover the parts of a well-formed split, one each, are ready for phase 2: parts of
      different suppliers read different lots. */
  lemma CoveredReady(s: Store, parts: seq<Part>, ds: seq<Detail>)
    requires WellSplit(parts) && |ds| == |parts|
    requires forall k :: 0 <= k < |parts| ==> Covers(s, parts[k], ds[k])
    ensures Ready(s, ds)
  {
    forall j, k, r, o | 0 <= j < k < |ds| && r in ds[j].rows && o in ds[k].rows ensures r.lotId != o.lotId {
      assert Covers(s, parts[j], ds[j]) && Covers(s, parts[k], ds[k]);
      assert s.lots[r.lotId - 1].supplierId == parts[j].supplierId;
      assert s.lots[o.lotId - 1].supplierId == parts[k].supplierId;
    }
  }

  /** A well-formed split vetted against the store is ready for phase 2. */
  lemma PlanReady(s: Store, parts: seq<Part>, product: string)
    requires WellSplit(parts) && Plan(s, parts, product).Ok?
    ensures Ready(s, Plan(s, parts, product).value)
  {
    PlanDetails(s, parts, product);
    CoveredReady(s, parts, Plan(s, parts, product).value);
  }

  // ===== phases 3 and 4: recount and close the pre-reservation =====

  /** `array_keys($productosTocados)`: the details' products, each once, in the order first met. */
  function Touched(ds: seq<Detail>): seq<int>
    decreases |ds|
  {
    if |ds| == 0 then []
    else
      var before := Touched(ds[..|ds| - 1]);
      var p := ds[|ds| - 1].productId;
      if p in before then before else before + [p]
  }

  /** Touched products are exactly the details' products, each listed once. */
  lemma {:induction false} TouchedSpec(ds: seq<Detail>)
    ensures forall p :: p in Touched(ds) <==> exists k :: 0 <= k < |ds| && ds[k].productId == p
    ensures forall i, j :: 0 <= i < j < |Touched(ds)| ==> Touched(ds)[i] != Touched(ds)[j]
    decreases |ds|
  {
    if |ds| > 0 {
      var init := ds[..|ds| - 1];
      TouchedSpec(init);
      assert forall k :: 0 <= k < |init| ==> init[k] == ds[k];
      forall p | p in Touched(ds) ensures exists k :: 0 <= k < |ds| && ds[k].productId == p {
        if p in Touched(init) {
          var k :| 0 <= k < |init| && init[k].productId == p;
          assert ds[k].productId == p;
        } else {
          assert ds[|ds| - 1].productId == p;
        }
      }
    }
  }

  /** Phases 2 to 4 on the details of phase 1. */
  function Write(s: Store, schema: Schema, preId: int, ds: seq<Detail>, week: string, shipDate: string)
    : Result<(Store, Receipt), Error>
    requires 1 <= preId <= |s.preReservations|
  {
    var pre := s.preReservations[preId - 1];
    match Apply(s, schema, pre, ds, week, shipDate)
    case Err(e) => Err(e)
    case Ok((s1, receipt)) =>
      var s2 := RecountAll(s1, Touched(ds));
      Ok((s2.(preReservations := s.preReservations[preId - 1 := pre.(state := Converted)]), receipt))
  }

  /** The writes, as plain sequences: the details' reservations under consecutive ids and their
      allocations are appended, the pre-reservation is marked converted, products change only in
      `pedido`, and no other table changes. */
  lemma WriteShape(s: Store, schema: Schema, preId: int, ds: seq<Detail>, week: string, shipDate: string)
    requires 1 <= preId <= |s.preReservations|
    requires forall k :: 0 <= k < |ds| ==> ds[k].quantity <= Available(ds[k].rows)
    ensures Write(s, schema, preId, ds, week, shipDate).Ok?
    ensures var pre := s.preReservations[preId - 1];
      var (s', receipt) := Write(s, schema, preId, ds, week, shipDate).value;
      && s'.allocations == s.allocations + NewAllocations(pre, ds, shipDate)
      && s'.reservations == s.reservations + NewReservations(schema, pre, ds, week, s.nextReservationId)
      && s'.nextReservationId == s.nextReservationId + |ds|
      && s'.preReservations == s.preReservations[preId - 1 := pre.(state := Converted)]
      && s'.suppliers == s.suppliers && s'.delegations == s.delegations
      && s'.commercials == s.commercials && s'.productTypes == s.productTypes
      && |s'.lots| == |s.lots| && |s'.products| == |s.products|
      && (forall k :: 0 <= k < |s.products| ==> s'.products[k] == s.products[k].(ordered := s'.products[k].ordered))
      && receipt == Receipt(Range(s.nextReservationId, |ds|), Range(|s.allocations| + 1, |ds|))
  {
    var pre := s.preReservations[preId - 1];
    ApplyShape(s, schema, pre, ds, week, shipDate);
    var s1 := Apply(s, schema, pre, ds, week, shipDate).value.0;
    RecountAllFrame(s1, Touched(ds));
  }

  /** After phase 2 every detail's product has a reservation, so the recount reaches it. */
  lemma ApplyReserves(s: Store, schema: Schema, pre: PreReservation, ds: seq<Detail>, week: string, shipDate: string)
    requires forall k :: 0 <= k < |ds| ==> ds[k].quantity <= Available(ds[k].rows)
    ensures Apply(s, schema, pre, ds, week, shipDate).Ok?
    ensures forall k :: 0 <= k < |ds| ==> IsReserved(Apply(s, schema, pre, ds, week, shipDate).value.0, ds[k].productId)
  {
    ApplyShape(s, schema, pre, ds, week, shipDate);
    var s1 := Apply(s, schema, pre, ds, week, shipDate).value.0;
    NewRowsSpec(schema, pre, ds, week, s.nextReservationId, shipDate);
    var added := NewReservations(schema, pre, ds, week, s.nextReservationId);
    forall k | 0 <= k < |ds| ensures IsReserved(s1, ds[k].productId) {
      assert s1.reservations[|s.reservations| + k] == added[k];
      assert s1.reservations[|s.reservations| + k] in s1.reservations;
    }
  }

  /** On ready details the writes take a consistent store to a consistent store. */
  lemma WriteKeeps(s: Store, schema: Schema, preId: int, ds: seq<Detail>, week: string, shipDate: string)
    requires 1 <= preId <= |s.preReservations|
    requires Consistent(s) && Ready(s, ds)
    ensures Write(s, schema, preId, ds, week, shipDate).Ok?
    ensures Consistent(Write(s, schema, preId, ds, week, shipDate).value.0)
  {
    var pre := s.preReservations[preId - 1];
    TouchedSpec(ds);
    var stale := set p | p in Touched(ds);
    ConsistentExceptNothing(s);
    ApplyKeeps(s, schema, pre, ds, week, shipDate, stale);
    ApplyReserves(s, schema, pre, ds, week, shipDate);
    var s1 := Apply(s, schema, pre, ds, week, shipDate).value.0;
    RecountAllKeeps(s1, Touched(ds), stale);
    var s2 := RecountAll(s1, Touched(ds));
    LedgerFrame(s1, s2);
    var s' := s2.(preReservations := s.preReservations[preId - 1 := pre.(state := Converted)]);
    assert forall p :: Reserved(s', p) == Reserved(s2, p);
  }

  // ===== what a conversion writes, part by part =====

  /** Detail `d` resolves `part` for the pre-reservation's product name: same supplier and quantity,
      the supplier's stored name, and the lowest-id product with that exact name and supplier name. */
  predicate Resolves(s: Store, product: string, part: Part, d: Detail) {
    && d.supplierId == part.supplierId && d.quantity == part.quantity
    && 1 <= part.supplierId <= |s.suppliers| && d.supplierName == s.suppliers[part.supplierId - 1].name
    && 1 <= d.productId <= |s.products| && d.productName == product
    && s.products[d.productId - 1].name == product && s.products[d.productId - 1].supplierName == d.supplierName
    && forall i :: 0 <= i < d.productId - 1 ==>
         !(s.products[i].name == product && s.products[i].supplierName == d.supplierName)
  }

  lemma VetResolves(s: Store, part: Part, product: string)
    requires Vet(s, part, product).Ok?
    ensures Resolves(s, product, part, Vet(s, part, product).value)
  {
    VetEffect(s, part, product);
  }

  /** Phase 1 resolves part `k` to detail `k`, and every detail covers its quantity. */
  lemma PlanResolves(s: Store, parts: seq<Part>, product: string)
    requires Plan(s, parts, product).Ok?
    ensures |Plan(s, parts, product).value| == |parts|
    ensures forall k :: 0 <= k < |parts| ==> Resolves(s, product, parts[k], Plan(s, parts, product).value[k])
    ensures forall k :: 0 <= k < |parts| ==>
      Plan(s, parts, product).value[k].quantity <= Available(Plan(s, parts, product).value[k].rows)
  {
    var vet := (p: Part) => Vet(s, p, product);
    forall k | 0 <= k < |parts| && vet(parts[k]).Ok? ensures Resolves(s, product, parts[k], vet(parts[k]).value) {
      VetResolves(s, parts[k], product);
    }
    GatherHolds(parts, vet, (p: Part, d: Detail) => Resolves(s, product, p, d));
    PlanCovers(s, parts, product);
  }

  /** The pair of rows written for `part`, as the part and the pre-reservation determine them: an
      allocation of the part's quantity from its supplier to the delegation, leaving on the ship
      date, and a reservation of the same quantity for the week, held by the supplier or the
      delegation as the schema says; both of the lowest-id product with the pre-reservation's
      product name and the supplier's name. */
  predicate Delivered(s: Store, schema: Schema, pre: PreReservation, part: Part, week: string, shipDate: string,
                      a: Allocation, r: Reservation)
  {
    var product := Trim(pre.product);
    && a.supplierId == part.supplierId && a.quantity == part.quantity
    && a.delegationId == pre.delegationId && a.shipDate == shipDate
    && 1 <= part.supplierId <= |s.suppliers| && 1 <= a.productId <= |s.products|
    && s.products[a.productId - 1].name == product
    && s.products[a.productId - 1].supplierName == s.suppliers[part.supplierId - 1].name
    && (forall i :: 0 <= i < a.productId - 1 ==>
          !(s.products[i].name == product && s.products[i].supplierName == s.suppliers[part.supplierId - 1].name))
    && r.productId == a.productId && r.productName == product && r.quantity == part.quantity
    && r.commercialId == (if schema.reservationsReferenceSuppliers then part.supplierId else pre.delegationId)
    && r.commercialName == (if schema.reservationsReferenceSuppliers then s.suppliers[part.supplierId - 1].name
                            else pre.delegationName)
    && r.date == None && r.week == Some(week) && r.offerId == None
  }

  /** The rows phase 2 writes for a detail that resolves its part are the part's delivery. */
  lemma DetailDelivered(s: Store, schema: Schema, pre: PreReservation, part: Part, d: Detail, week: string,
                        shipDate: string, id: int)
    requires Resolves(s, Trim(pre.product), part, d)
    ensures Delivered(s, schema, pre, part, week, shipDate, AllocationFor(pre, d, shipDate),
                      ReservationFor(schema, pre, d, week).(id := id))
  {
  }

  /** `s'` is `s` with one delivery per part appended, in order, under the next reservation ids. */
  predicate DeliversAll(s: Store, schema: Schema, pre: PreReservation, parts: seq<Part>, week: string,
                        shipDate: string, s': Store)
  {
    && |s'.allocations| == |s.allocations| + |parts| && |s'.reservations| == |s.reservations| + |parts|
    && s'.allocations[..|s.allocations|] == s.allocations && s'.reservations[..|s.reservations|] == s.reservations
    && forall k :: 0 <= k < |parts| ==>
         && s'.reservations[|s.reservations| + k].id == s.nextReservationId + k
         && Delivered(s, schema, pre, parts[k], week, shipDate,
                      s'.allocations[|s.allocations| + k], s'.reservations[|s.reservations| + k])
  }

  /** Appending the rows phase 2 writes for details that resolve the parts delivers every part. */
  lemma AppendedDeliver(s: Store, schema: Schema, pre: PreReservation, parts: seq<Part>, ds: seq<Detail>,
                        week: string, shipDate: string, s': Store)
    requires |ds| == |parts|
    requires forall k :: 0 <= k < |parts| ==> Resolves(s, Trim(pre.product), parts[k], ds[k])
    requires s'.allocations == s.allocations + NewAllocations(pre, ds, shipDate)
    requires s'.reservations == s.reservations + NewReservations(schema, pre, ds, week, s.nextReservationId)
    ensures DeliversAll(s, schema, pre, parts, week, shipDate, s')
  {
    NewRowsSpec(schema, pre, ds, week, s.nextReservationId, shipDate);
    forall k | 0 <= k < |parts|
      ensures s'.reservations[|s.reservations| + k].id == s.nextReservationId + k
      ensures Delivered(s, schema, pre, parts[k], week, shipDate,
                        s'.allocations[|s.allocations| + k], s'.reservations[|s.reservations| + k])
    {
      assert s'.allocations[|s.allocations| + k] == NewAllocations(pre, ds, shipDate)[k];
      assert s'.reservations[|s.reservations| + k] == NewReservations(schema, pre, ds, week, s.nextReservationId)[k];
      DetailDelivered(s, schema, pre, parts[k], ds[k], week, shipDate, s.nextReservationId + k);
    }
    assert s'.allocations[..|s.allocations|] == s.allocations;
    assert s'.reservations[..|s.reservations|] == s.reservations;
  }

  /** The writes deliver each part under the next ids, after the rows already there. */
  lemma WriteDelivers(s: Store, schema: Schema, preId: int, parts: seq<Part>, ds: seq<Detail>, week: string,
                      shipDate: string)
    requires 1 <= preId <= |s.preReservations| && |ds| == |parts|
    requires forall k :: 0 <= k < |ds| ==> ds[k].quantity <= Available(ds[k].rows)
    requires forall k :: 0 <= k < |parts| ==> Resolves(s, Trim(s.preReservations[preId - 1].product), parts[k], ds[k])
    ensures Write(s, schema, preId, ds, week, shipDate).Ok?
    ensures DeliversAll(s, schema, s.preReservations[preId - 1], parts, week, shipDate,
                        Write(s, schema, preId, ds, week, shipDate).value.0)
  {
    WriteShape(s, schema, preId, ds, week, shipDate);
    AppendedDeliver(s, schema, s.preReservations[preId - 1], parts, ds, week, shipDate,
                    Write(s, schema, preId, ds, week, shipDate).value.0);
  }

  // ===== the transaction =====

  /** The refusals the last checks and phase 1 can give. */
  predicate SettleRefusal(e: Error) {
    e == BadPreProduct || e == BadPreDelegation || e == NotFound(DelegationEntity)
    || e == NotFound(SupplierEntity) || e == NotFound(ProductEntity) || e.InsufficientStock?
  }

  /** Phase 1 refuses only with a part's refusal and otherwise hands over details that cover their
      quantities. */
  lemma PlanOutcome(s: Store, parts: seq<Part>, product: string)
    ensures Plan(s, parts, product).Err? ==> SettleRefusal(Plan(s, parts, product).error)
    ensures Plan(s, parts, product).Ok? ==>
      forall k :: 0 <= k < |Plan(s, parts, product).value| ==>
        Plan(s, parts, product).value[k].quantity <= Available(Plan(s, parts, product).value[k].rows)
  {
    PlanSpec(s, parts, product);
    if Plan(s, parts, product).Ok? {
      PlanCovers(s, parts, product);
    }
  }

  /** The pre-reservation's product and delegation, then phases 1 to 4 on the split. */
  function Settle(s: Store, schema: Schema, preId: int, split: seq<Part>, week: string, shipDate: string)
    : Result<(Store, Receipt), Error>
    requires 1 <= preId <= |s.preReservations|
  {
    var pre := s.preReservations[preId - 1];
    var product := Trim(pre.product);
    if product == "" then Err(BadPreProduct)
    else if pre.delegationId <= 0 then Err(BadPreDelegation)
    else if |s.delegations| < pre.delegationId then Err(NotFound(DelegationEntity))
    else
      match Plan(s, split, product)
      case Err(e) => Err(e)
      case Ok(ds) => Write(s, schema, preId, ds, week, shipDate)
  }

  /** Past its own checks the transaction is phase 1 followed by the writes. */
  lemma SettleIsWrite(s: Store, schema: Schema, preId: int, split: seq<Part>, week: string, shipDate: string)
    requires 1 <= preId <= |s.preReservations|
    requires var pre := s.preReservations[preId - 1];
      Trim(pre.product) != "" && 0 < pre.delegationId <= |s.delegations|
    requires Plan(s, split, Trim(s.preReservations[preId - 1].product)).Ok?
    ensures Settle(s, schema, preId, split, week, shipDate)
      == Write(s, schema, preId, Plan(s, split, Trim(s.preReservations[preId - 1].product)).value, week, shipDate)
  {
  }

  /** The product name is checked first, then the delegation id, then that the delegation exists;
      then phase 1 decides: its refusal is the transaction's, and once it passes the writes never
      fail. */
  lemma SettleRefusals(s: Store, schema: Schema, preId: int, split: seq<Part>, week: string, shipDate: string)
    requires 1 <= preId <= |s.preReservations|
    ensures var pre := s.preReservations[preId - 1];
      var product := Trim(pre.product);
      var r := Settle(s, schema, preId, split, week, shipDate);
      && (r == Err(BadPreProduct) <==> product == "")
      && (r == Err(BadPreDelegation) <==> product != "" && pre.delegationId <= 0)
      && (r == Err(NotFound(DelegationEntity)) <==> product != "" && 0 < pre.delegationId && |s.delegations| < pre.delegationId)
      && (product != "" && 0 < pre.delegationId <= |s.delegations| ==>
            (r.Ok? <==> Plan(s, split, product).Ok?)
            && (r.Err? ==> r.error == Plan(s, split, product).error))
      && (r.Err? ==> SettleRefusal(r.error))
  {
    var pre := s.preReservations[preId - 1];
    var product := Trim(pre.product);
    PlanOutcome(s, split, product);
    if product != "" && 0 < pre.delegationId <= |s.delegations| && Plan(s, split, product).Ok? {
      WriteShape(s, schema, preId, Plan(s, split, product).value, week, shipDate);
    }
  }

  /** A settled conversion delivers each part of the split, in order, under the next ids. */
  lemma SettleEffect(s: Store, schema: Schema, preId: int, split: seq<Part>, week: string, shipDate: string)
    requires 1 <= preId <= |s.preReservations| && Settle(s, schema, preId, split, week, shipDate).Ok?
    ensures Trim(s.preReservations[preId - 1].product) != ""
    ensures 0 < s.preReservations[preId - 1].delegationId <= |s.delegations|
    ensures DeliversAll(s, schema, s.preReservations[preId - 1], split, week, shipDate,
                        Settle(s, schema, preId, split, week, shipDate).value.0)
  {
    var product := Trim(s.preReservations[preId - 1].product);
    SettleRefusals(s, schema, preId, split, week, shipDate);
    assert product != "" && 0 < s.preReservations[preId - 1].delegationId <= |s.delegations|;
    PlanResolves(s, split, product);
    var ds := Plan(s, split, product).value;
    SettleIsWrite(s, schema, preId, split, week, shipDate);
    WriteDelivers(s, schema, preId, split, ds, week, shipDate);
    assert Settle(s, schema, preId, split, week, shipDate).value.0 == Write(s, schema, preId, ds, week, shipDate).value.0;
  }

  /** What a conversion of `n` parts for the pre-reservation at `preId` leaves of the store: that
      pre-reservation converted and the others as they were, the reservation counter moved past the
      new ids, products changed only in `pedido`, the named tables and the number of lots as they
      were; and the receipt lists the new ids in order. */
  predicate Framed(s: Store, preId: int, n: nat, s': Store, receipt: Receipt) {
    && 1 <= preId <= |s.preReservations|
    && s'.preReservations == s.preReservations[preId - 1 := s.preReservations[preId - 1].(state := Converted)]
    && s'.nextReservationId == s.nextReservationId + n
    && s'.suppliers == s.suppliers && s'.delegations == s.delegations
    && s'.commercials == s.commercials && s'.productTypes == s.productTypes
    && |s'.lots| == |s.lots| && |s'.products| == |s.products|
    && (forall k :: 0 <= k < |s.products| ==> s'.products[k] == s.products[k].(ordered := s'.products[k].ordered))
    && receipt == Receipt(Range(s.nextReservationId, n), Range(|s.allocations| + 1, n))
  }

  /** A settled conversion leaves the store framed as above. */
  lemma SettleFrame(s: Store, schema: Schema, preId: int, split: seq<Part>, week: string, shipDate: string)
    requires 1 <= preId <= |s.preReservations| && Settle(s, schema, preId, split, week, shipDate).Ok?
    ensures Framed(s, preId, |split|, Settle(s, schema, preId, split, week, shipDate).value.0,
                   Settle(s, schema, preId, split, week, shipDate).value.1)
  {
    var product := Trim(s.preReservations[preId - 1].product);
    SettleRefusals(s, schema, preId, split, week, shipDate);
    PlanResolves(s, split, product);
    SettleIsWrite(s, schema, preId, split, week, shipDate);
    WriteShape(s, schema, preId, Plan(s, split, product).value, week, shipDate);
  }

  /** The new allocations, and the new reservations, add up to the split's total. */
  lemma SettleTotals(s: Store, schema: Schema, preId: int, split: seq<Part>, week: string, shipDate: string)
    requires 1 <= preId <= |s.preReservations| && Settle(s, schema, preId, split, week, shipDate).Ok?
    ensures var s' := Settle(s, schema, preId, split, week, shipDate).value.0;
      && |s.allocations| <= |s'.allocations| && |s.reservations| <= |s'.reservations|
      && Sum(s'.allocations[|s.allocations|..], AllocationQuantity) == Total(split)
      && Sum(s'.reservations[|s.reservations|..], ReservationQuantity) == Total(split)
  {
    var pre := s.preReservations[preId - 1];
    var product := Trim(pre.product);
    SettleRefusals(s, schema, preId, split, week, shipDate);
    var ds := Plan(s, split, product).value;
    PlanCovers(s, split, product);
    PlanQuantities(s, split, product);
    SettleIsWrite(s, schema, preId, split, week, shipDate);
    WriteShape(s, schema, preId, ds, week, shipDate);
    NewRowsSpec(schema, pre, ds, week, s.nextReservationId, shipDate);
    var s' := Settle(s, schema, preId, split, week, shipDate).value.0;
    assert s'.allocations[|s.allocations|..] == NewAllocations(pre, ds, shipDate);
    assert s'.reservations[|s.reservations|..] == NewReservations(schema, pre, ds, week, s.nextReservationId);
  }

  /** On a well-formed split a settled conversion keeps the store consistent. */
  lemma SettleKeeps(s: Store, schema: Schema, preId: int, split: seq<Part>, week: string, shipDate: string)
    requires 1 <= preId <= |s.preReservations| && Consistent(s) && WellSplit(split)
    requires Settle(s, schema, preId, split, week, shipDate).Ok?
    ensures Consistent(Settle(s, schema, preId, split, week, shipDate).value.0)
  {
    var product := Trim(s.preReservations[preId - 1].product);
    SettleRefusals(s, schema, preId, split, week, shipDate);
    PlanReady(s, split, product);
    SettleIsWrite(s, schema, preId, split, week, shipDate);
    WriteKeeps(s, schema, preId, Plan(s, split, product).value, week, shipDate);
  }

  /** The transaction from the pre-reservation's lookup, on the split before the legacy fill. */
  function Transact(s: Store, schema: Schema, preId: int, legacy: int, parts: seq<Part>)
    : Result<(Store, Receipt), Error>
  {
    if !(1 <= preId <= |s.preReservations|) then Err(NotFound(PreReservationEntity))
    else
      var pre := s.preReservations[preId - 1];
      var split := Fill(parts, legacy, pre.quantity);
      if pre.state != Pending then Err(NotPending)
      else if pre.quantity <= 0 then Err(BadPreQuantity)
      else if Total(split) != pre.quantity then Err(SplitMismatch(pre.quantity))
      else
        match PreWeek(pre.desiredDate)
        case None => Err(BadPreWeek)
        case Some(week) =>
          match WeekMonday(week)
          case None => Err(BadPreShipDate)
          case Some(shipDate) => Settle(s, schema, preId, split, week, shipDate)
  }

  /** The pre-reservation must exist and be pending with a positive quantity, the split must add up
      to that quantity, and the desired date must give a week and the week a Monday, in that order;
      then the transaction settles. It never reports invalid input. */
  lemma TransactRefusals(s: Store, schema: Schema, preId: int, legacy: int, parts: seq<Part>)
    ensures Transact(s, schema, preId, legacy, parts) == Err(NotFound(PreReservationEntity))
      <==> !(1 <= preId <= |s.preReservations|)
    ensures Transact(s, schema, preId, legacy, parts).Err? ==> !Transact(s, schema, preId, legacy, parts).error.Invalid?
    ensures 1 <= preId <= |s.preReservations| ==>
      var pre := s.preReservations[preId - 1];
      var split := Fill(parts, legacy, pre.quantity);
      var r := Transact(s, schema, preId, legacy, parts);
      && (r == Err(NotPending) <==> pre.state != Pending)
      && (r == Err(BadPreQuantity) <==> pre.state == Pending && pre.quantity <= 0)
      && (r == Err(SplitMismatch(pre.quantity)) <==> pre.state == Pending && 0 < pre.quantity && Total(split) != pre.quantity)
      && (r == Err(BadPreWeek) <==>
            pre.state == Pending && 0 < pre.quantity && Total(split) == pre.quantity && PreWeek(pre.desiredDate).None?)
      && (r == Err(BadPreShipDate) <==>
            pre.state == Pending && 0 < pre.quantity && Total(split) == pre.quantity
            && PreWeek(pre.desiredDate).Some? && WeekMonday(PreWeek(pre.desiredDate).value).None?)
      && (pre.state == Pending && 0 < pre.quantity && Total(split) == pre.quantity
          && PreWeek(pre.desiredDate).Some? && WeekMonday(PreWeek(pre.desiredDate).value).Some? ==>
            r == Settle(s, schema, preId, split, PreWeek(pre.desiredDate).value, WeekMonday(PreWeek(pre.desiredDate).value).value))
  {
    if 1 <= preId <= |s.preReservations| {
      var pre := s.preReservations[preId - 1];
      var split := Fill(parts, legacy, pre.quantity);
      if pre.state == Pending && 0 < pre.quantity && Total(split) == pre.quantity
         && PreWeek(pre.desiredDate).Some? && WeekMonday(PreWeek(pre.desiredDate).value).Some?
      {
        SettleRefusals(s, schema, preId, split, PreWeek(pre.desiredDate).value, WeekMonday(PreWeek(pre.desiredDate).value).value);
      }
    }
  }

  /** A transaction that succeeds passed every check of the pre-reservation and settled. */
  lemma TransactSettles(s: Store, schema: Schema, preId: int, legacy: int, parts: seq<Part>)
    requires Transact(s, schema, preId, legacy, parts).Ok?
    ensures 1 <= preId <= |s.preReservations|
    ensures var pre := s.preReservations[preId - 1];
      var split := Fill(parts, legacy, pre.quantity);
      && pre.state == Pending && 0 < pre.quantity && Total(split) == pre.quantity
      && PreWeek(pre.desiredDate).Some? && WeekMonday(PreWeek(pre.desiredDate).value).Some?
      && Transact(s, schema, preId, legacy, parts)
         == Settle(s, schema, preId, split, PreWeek(pre.desiredDate).value, WeekMonday(PreWeek(pre.desiredDate).value).value)
  {
  }

  /** Delivery, at the level of the transaction. */
  lemma TransactEffect(s: Store, schema: Schema, preId: int, legacy: int, parts: seq<Part>)
    requires Transact(s, schema, preId, legacy, parts).Ok?
    ensures 1 <= preId <= |s.preReservations|
    ensures var pre := s.preReservations[preId - 1];
      && PreWeek(pre.desiredDate).Some? && WeekMonday(PreWeek(pre.desiredDate).value).Some?
      && Trim(pre.product) != "" && 0 < pre.delegationId <= |s.delegations|
      && DeliversAll(s, schema, pre, Fill(parts, legacy, pre.quantity),
                     PreWeek(pre.desiredDate).value, WeekMonday(PreWeek(pre.desiredDate).value).value,
                     Transact(s, schema, preId, legacy, parts).value.0)
  {
    TransactSettles(s, schema, preId, legacy, parts);
    var pre := s.preReservations[preId - 1];
    var week := PreWeek(pre.desiredDate).value;
    SettleEffect(s, schema, preId, Fill(parts, legacy, pre.quantity), week, WeekMonday(week).value);
  }

  // ===== the endpoint =====

  /** The call from the split's validation on, for the merged split and its count of half-filled
      lines. */
  function Submit(s: Store, schema: Schema, req: Request, merged: (seq<Part>, nat)): Result<(Store, Receipt), Error> {
    var parts := WithLegacy(merged.0, req.legacySupplierId);
    var errors := SplitErrors(req.preId, parts, merged.1);
    if |errors| > 0 then Err(Invalid(errors)) else Transact(s, schema, req.preId, req.legacySupplierId, parts)
  }

  /** The whole call. On success: the new store and the new ids. */
  function Convert(s: Store, schema: Schema, req: Request): Result<(Store, Receipt), Error> {
    Submit(s, schema, req, Merge(req.lines))
  }

  /** The split a request converts a pre-reservation of `quantity` with. */
  function Split(req: Request, quantity: int): seq<Part> {
    Fill(WithLegacy(Merge(req.lines).0, req.legacySupplierId), req.legacySupplierId, quantity)
  }

  /** The call reports invalid input exactly when the id, a line or the whole split is wrong, and
      then it reads nothing; otherwise it is the transaction. */
  lemma SubmitRejects(s: Store, schema: Schema, req: Request, merged: (seq<Part>, nat))
    ensures var errors := SplitErrors(req.preId, WithLegacy(merged.0, req.legacySupplierId), merged.1);
      && (|errors| > 0 <==> req.preId <= 0 || 0 < merged.1 || (|merged.0| == 0 && req.legacySupplierId <= 0))
      && (|errors| > 0 ==> Submit(s, schema, req, merged) == Err(Invalid(errors)))
      && (|errors| == 0 ==>
            Submit(s, schema, req, merged)
            == Transact(s, schema, req.preId, req.legacySupplierId, WithLegacy(merged.0, req.legacySupplierId)))
      && (Submit(s, schema, req, merged).Err? && Submit(s, schema, req, merged).error.Invalid? <==> |errors| > 0)
  {
    var parts := WithLegacy(merged.0, req.legacySupplierId);
    SplitErrorsSpec(req.preId, parts, merged.1);
    TransactRefusals(s, schema, req.preId, req.legacySupplierId, parts);
  }

  /** Some line has one field but not the other. */
  predicate HasHalfFilled(lines: seq<Line>) {
    exists i :: 0 <= i < |lines| && HalfFilled(lines[i])
  }

  /** No line has both fields. */
  predicate NoComplete(lines: seq<Line>) {
    forall i :: 0 <= i < |lines| ==> !Complete(lines[i])
  }

  lemma HalfFilledCounted(lines: seq<Line>)
    ensures 0 <= Sum(lines, HalfFilledCount)
    ensures 0 < Sum(lines, HalfFilledCount) <==> HasHalfFilled(lines)
  {
    SumNonNegative(lines, HalfFilledCount);
    if HasHalfFilled(lines) {
      var i :| 0 <= i < |lines| && HalfFilled(lines[i]);
      assert lines[i] in lines;
    } else {
      SumZero(lines, HalfFilledCount);
    }
  }

  /** Invalid input, in the request's terms: a missing id, any half-filled line, or no complete line
      and no legacy supplier. The list names the id when it is missing, each half-filled line once,
      and the empty split when there is one. */
  lemma ConvertRejects(s: Store, schema: Schema, req: Request)
    ensures Convert(s, schema, req).Err? && Convert(s, schema, req).error.Invalid?
      <==> req.preId <= 0 || HasHalfFilled(req.lines) || (NoComplete(req.lines) && req.legacySupplierId <= 0)
    ensures Convert(s, schema, req).Err? && Convert(s, schema, req).error.Invalid? ==>
      var errors := Convert(s, schema, req).error.fields;
      && (BadId in errors <==> req.preId <= 0)
      && (EmptySplit in errors <==> NoComplete(req.lines) && req.legacySupplierId <= 0)
      && multiset(errors)[BadSplitLine] == Sum(req.lines, HalfFilledCount)
  {
    var merged := Merge(req.lines);
    MergeSpec(req.lines);
    HalfFilledCounted(req.lines);
    SubmitRejects(s, schema, req, merged);
    SplitErrorsSpec(req.preId, WithLegacy(merged.0, req.legacySupplierId), merged.1);
  }

  /** A call past the split's validation converts only when every check of the transaction passed,
      and then it is the settlement of the filled split. */
  lemma SubmitSettles(s: Store, schema: Schema, req: Request, merged: (seq<Part>, nat))
    requires Submit(s, schema, req, merged).Ok?
    ensures 1 <= req.preId <= |s.preReservations| && merged.1 == 0
    ensures 0 < |merged.0| || 0 < req.legacySupplierId
    ensures var pre := s.preReservations[req.preId - 1];
      var split := Fill(WithLegacy(merged.0, req.legacySupplierId), req.legacySupplierId, pre.quantity);
      && pre.state == Pending && 0 < pre.quantity && Total(split) == pre.quantity
      && PreWeek(pre.desiredDate).Some? && WeekMonday(PreWeek(pre.desiredDate).value).Some?
      && Submit(s, schema, req, merged)
         == Settle(s, schema, req.preId, split, PreWeek(pre.desiredDate).value, WeekMonday(PreWeek(pre.desiredDate).value).value)
  {
    SubmitRejects(s, schema, req, merged);
    TransactSettles(s, schema, req.preId, req.legacySupplierId, WithLegacy(merged.0, req.legacySupplierId));
  }

  /** What the request's lines make of a pre-reservation of `quantity`: without a complete line, the
      legacy supplier with the whole quantity; otherwise one part per supplier named on a complete
      line, asking for the sum of that supplier's lines. Either way each supplier once, with a
      positive quantity. */
  lemma SplitSpec(req: Request, quantity: int)
    requires 0 < quantity && (!NoComplete(req.lines) || 0 < req.legacySupplierId)
    ensures WellSplit(Split(req, quantity))
    ensures NoComplete(req.lines) ==> Split(req, quantity) == [Part(req.legacySupplierId, quantity)]
    ensures !NoComplete(req.lines) ==>
      && (forall x :: Sum(Split(req, quantity), OfSupplier(x)) == Sum(req.lines, LinesOf(x)))
      && (forall x :: Lists(Split(req, quantity), x) <==> HasComplete(req.lines, x))
  {
    MergeSpec(req.lines);
    LegacySplit(Merge(req.lines).0, req.legacySupplierId, quantity);
  }

  /** A request converts only when its id is positive, no line is half filled, some line is complete
      or a legacy supplier is named, the pre-reservation is pending with a positive quantity the
      split adds up to, and its desired date gives a week with a Monday; the call is then the
      settlement of the request's split. */
  lemma ConvertSettles(s: Store, schema: Schema, req: Request)
    requires Convert(s, schema, req).Ok?
    ensures 1 <= req.preId <= |s.preReservations|
    ensures !HasHalfFilled(req.lines) && (!NoComplete(req.lines) || 0 < req.legacySupplierId)
    ensures var pre := s.preReservations[req.preId - 1];
      && pre.state == Pending && 0 < pre.quantity && Total(Split(req, pre.quantity)) == pre.quantity
      && PreWeek(pre.desiredDate).Some? && WeekMonday(PreWeek(pre.desiredDate).value).Some?
      && Convert(s, schema, req)
         == Settle(s, schema, req.preId, Split(req, pre.quantity), PreWeek(pre.desiredDate).value,
                   WeekMonday(PreWeek(pre.desiredDate).value).value)
  {
    MergeSpec(req.lines);
    HalfFilledCounted(req.lines);
    SubmitSettles(s, schema, req, Merge(req.lines));
  }

  /** A conversion delivers every part of the request's split: one allocation from the part's
      supplier shipped on the Monday of the desired week and one reservation of the named product
      for that week, both for the part's quantity, under the next ids and after the rows already
      there. */
  lemma ConvertEffect(s: Store, schema: Schema, req: Request)
    requires Convert(s, schema, req).Ok?
    ensures 1 <= req.preId <= |s.preReservations|
    ensures var pre := s.preReservations[req.preId - 1];
      && PreWeek(pre.desiredDate).Some? && WeekMonday(PreWeek(pre.desiredDate).value).Some?
      && Trim(pre.product) != "" && 0 < pre.delegationId <= |s.delegations|
      && DeliversAll(s, schema, pre, Split(req, pre.quantity), PreWeek(pre.desiredDate).value,
                     WeekMonday(PreWeek(pre.desiredDate).value).value, Convert(s, schema, req).value.0)
  {
    SubmitEffect(s, schema, req, Merge(req.lines));
  }

  lemma SubmitEffect(s: Store, schema: Schema, req: Request, merged: (seq<Part>, nat))
    requires Submit(s, schema, req, merged).Ok?
    ensures 1 <= req.preId <= |s.preReservations|
    ensures var pre := s.preReservations[req.preId - 1];
      && PreWeek(pre.desiredDate).Some? && WeekMonday(PreWeek(pre.desiredDate).value).Some?
      && Trim(pre.product) != "" && 0 < pre.delegationId <= |s.delegations|
      && DeliversAll(s, schema, pre, Fill(WithLegacy(merged.0, req.legacySupplierId), req.legacySupplierId, pre.quantity),
                     PreWeek(pre.desiredDate).value, WeekMonday(PreWeek(pre.desiredDate).value).value,
                     Submit(s, schema, req, merged).value.0)
  {
    SubmitRejects(s, schema, req, merged);
    TransactEffect(s, schema, req.preId, req.legacySupplierId, WithLegacy(merged.0, req.legacySupplierId));
  }

  /** A conversion moves its pre-reservation from pending to converted and touches no other,
      advances the reservation counter past the new ids, changes products only in `pedido`, leaves
      the named tables and the number of lots alone, and reports the new ids in order. */
  lemma ConvertFrame(s: Store, schema: Schema, req: Request)
    requires Convert(s, schema, req).Ok?
    ensures 1 <= req.preId <= |s.preReservations|
    ensures var pre := s.preReservations[req.preId - 1];
      && pre.state == Pending
      && Framed(s, req.preId, |Split(req, pre.quantity)|, Convert(s, schema, req).value.0, Convert(s, schema, req).value.1)
  {
    SubmitFrame(s, schema, req, Merge(req.lines));
  }

  lemma SubmitFrame(s: Store, schema: Schema, req: Request, merged: (seq<Part>, nat))
    requires Submit(s, schema, req, merged).Ok?
    ensures 1 <= req.preId <= |s.preReservations|
    ensures var pre := s.preReservations[req.preId - 1];
      && pre.state == Pending
      && Framed(s, req.preId, |Fill(WithLegacy(merged.0, req.legacySupplierId), req.legacySupplierId, pre.quantity)|,
                Submit(s, schema, req, merged).value.0, Submit(s, schema, req, merged).value.1)
  {
    SubmitSettles(s, schema, req, merged);
    var pre := s.preReservations[req.preId - 1];
    var week := PreWeek(pre.desiredDate).value;
    SettleFrame(s, schema, req.preId, Fill(WithLegacy(merged.0, req.legacySupplierId), req.legacySupplierId, pre.quantity),
                week, WeekMonday(week).value);
    assert Submit(s, schema, req, merged) == Settle(s, schema, req.preId, Fill(WithLegacy(merged.0, req.legacySupplierId), req.legacySupplierId, pre.quantity), week, WeekMonday(week).value);
  }

  /** Marking one pending pre-reservation converted is a permitted move. */
  lemma MarkEvolves(s: Store, s': Store, i: int)
    requires 0 <= i < |s.preReservations| && s.preReservations[i].state == Pending
    requires s'.preReservations == s.preReservations[i := s.preReservations[i].(state := Converted)]
    ensures Evolves(s, s')
  {
  }

  /** A conversion only ever moves a pre-reservation out of pending. */
  lemma ConvertEvolves(s: Store, schema: Schema, req: Request)
    requires Convert(s, schema, req).Ok?
    ensures Evolves(s, Convert(s, schema, req).value.0)
  {
    ConvertFrame(s, schema, req);
    MarkEvolves(s, Convert(s, schema, req).value.0, req.preId - 1);
  }

  /** The new allocations, and the new reservations, add up to the pre-reservation's quantity. */
  lemma ConvertTotals(s: Store, schema: Schema, req: Request)
    requires Convert(s, schema, req).Ok?
    ensures 1 <= req.preId <= |s.preReservations|
    ensures var s' := Convert(s, schema, req).value.0;
      && |s.allocations| <= |s'.allocations| && |s.reservations| <= |s'.reservations|
      && Sum(s'.allocations[|s.allocations|..], AllocationQuantity) == s.preReservations[req.preId - 1].quantity
      && Sum(s'.reservations[|s.reservations|..], ReservationQuantity) == s.preReservations[req.preId - 1].quantity
  {
    SubmitTotals(s, schema, req, Merge(req.lines));
  }

  lemma SubmitTotals(s: Store, schema: Schema, req: Request, merged: (seq<Part>, nat))
    requires Submit(s, schema, req, merged).Ok?
    ensures 1 <= req.preId <= |s.preReservations|
    ensures var s' := Submit(s, schema, req, merged).value.0;
      && |s.allocations| <= |s'.allocations| && |s.reservations| <= |s'.reservations|
      && Sum(s'.allocations[|s.allocations|..], AllocationQuantity) == s.preReservations[req.preId - 1].quantity
      && Sum(s'.reservations[|s.reservations|..], ReservationQuantity) == s.preReservations[req.preId - 1].quantity
  {
    SubmitSettles(s, schema, req, merged);
    var pre := s.preReservations[req.preId - 1];
    var week := PreWeek(pre.desiredDate).value;
    SettleTotals(s, schema, req.preId, Fill(WithLegacy(merged.0, req.legacySupplierId), req.legacySupplierId, pre.quantity),
                 week, WeekMonday(week).value);
    assert Submit(s, schema, req, merged) == Settle(s, schema, req.preId, Fill(WithLegacy(merged.0, req.legacySupplierId), req.legacySupplierId, pre.quantity), week, WeekMonday(week).value);
  }

  /** A conversion keeps the store consistent and every pre-reservation well formed. */
  lemma ConvertPreserves(s: Store, schema: Schema, req: Request)
    requires Convert(s, schema, req).Ok?
    ensures Consistent(s) ==> Consistent(Convert(s, schema, req).value.0)
    ensures AllWellFormed(s) ==> AllWellFormed(Convert(s, schema, req).value.0)
  {
    MergeSpec(req.lines);
    SubmitPreserves(s, schema, req, Merge(req.lines));
  }

  lemma SubmitPreserves(s: Store, schema: Schema, req: Request, merged: (seq<Part>, nat))
    requires Submit(s, schema, req, merged).Ok? && WellSplit(merged.0)
    ensures Consistent(s) ==> Consistent(Submit(s, schema, req, merged).value.0)
    ensures AllWellFormed(s) ==> AllWellFormed(Submit(s, schema, req, merged).value.0)
  {
    if Consistent(s) {
      SubmitKeeps(s, schema, req, merged);
    }
    if AllWellFormed(s) {
      SubmitFrame(s, schema, req, merged);
      MarkWellFormed(s, Submit(s, schema, req, merged).value.0, req.preId - 1);
    }
  }

  lemma SubmitKeeps(s: Store, schema: Schema, req: Request, merged: (seq<Part>, nat))
    requires Submit(s, schema, req, merged).Ok? && WellSplit(merged.0) && Consistent(s)
    ensures Consistent(Submit(s, schema, req, merged).value.0)
  {
    SubmitSettles(s, schema, req, merged);
    var pre := s.preReservations[req.preId - 1];
    var split := Fill(WithLegacy(merged.0, req.legacySupplierId), req.legacySupplierId, pre.quantity);
    var week := PreWeek(pre.desiredDate).value;
    LegacySplit(merged.0, req.legacySupplierId, pre.quantity);
    SettleKeeps(s, schema, req.preId, split, week, WeekMonday(week).value);
    assert Submit(s, schema, req, merged) == Settle(s, schema, req.preId, split, week, WeekMonday(week).value);
  }

  /** A change of state alone keeps every pre-reservation well formed. */
  lemma MarkWellFormed(s: Store, s': Store, i: int)
    requires AllWellFormed(s) && 0 <= i < |s.preReservations|
    requires s'.preReservations == s.preReservations[i := s.preReservations[i].(state := Converted)]
    ensures AllWellFormed(s')
  {
  }

  /** A converted pre-reservation cannot be converted again, by any request, nor cancelled. */
  lemma ConvertedOnce(s: Store, schema: Schema, req: Request)
    requires Convert(s, schema, req).Ok?
    ensures Convert(Convert(s, schema, req).value.0, schema, req) == Err(NotPending)
    ensures forall other: Request :: other.preId == req.preId ==> Convert(Convert(s, schema, req).value.0, schema, other).Err?
    ensures Cancel(Convert(s, schema, req).value.0, req.preId) == Err(NothingToCancel)
  {
    var s' := Convert(s, schema, req).value.0;
    ConvertSettles(s, schema, req);
    ConvertFrame(s, schema, req);
    assert s'.preReservations[req.preId - 1].state == Converted;
    forall other: Request | other.preId == req.preId ensures Convert(s', schema, other).Err? {
      SubmitRejects(s', schema, other, Merge(other.lines));
    }
    SubmitRejects(s', schema, req, Merge(req.lines));
  }
}
