/** The FIFO draw shared by `save_asignacion.php` and `convertir_prereserva.php`: walk the pair's lots
    in order, take `min(available, remaining)` from every lot that has something, stop once nothing
    remains, subtract each draw from its lot and record it in `asignacion_lotes`. */
module Fifo {
  import opened Store
  import opened Lots

  /** One draw: `$quita` units out of lot `lotId`. */
  datatype Take = Take(lotId: int, quantity: int)

  function TakeQuantity(t: Take): int { t.quantity }

  /** What a list of draws takes in total. */
  function Drawn(takes: seq<Take>): int { Sum(takes, TakeQuantity) }

  function FromTake(lotId: int): Take -> int {
    (t: Take) => if t.lotId == lotId then t.quantity else 0
  }

  /** What a list of draws takes out of one lot. */
  function DrawnFrom(takes: seq<Take>, lotId: int): int { Sum(takes, FromTake(lotId)) }

  // ----- the walk -----

  /** The `foreach` over the lots: stop when nothing remains, skip lots with nothing available,
      otherwise draw `min(available, remaining)`. Returns the draws and the undrawn remainder. */
  function Walk(rows: seq<Row>, remaining: int): (seq<Take>, int) {
    if |rows| == 0 || remaining <= 0 then ([], remaining)
    else if rows[0].available <= 0 then Walk(rows[1..], remaining)
    else
      var q := Min(rows[0].available, remaining);
      var r := Walk(rows[1..], remaining - q);
      ([Take(rows[0].lotId, q)] + r.0, r.1)
  }

  /** The walk draws what was asked less what remains; something remains only when the positive
      availability ran out, and then exactly the shortfall; every draw is positive and no larger than
      the availability of a row of its lot. */
  lemma {:induction false} WalkSpec(rows: seq<Row>, remaining: int)
    ensures Drawn(Walk(rows, remaining).0) + Walk(rows, remaining).1 == remaining
    ensures Walk(rows, remaining).1 == if remaining <= 0 then remaining else Max(0, remaining - Positive(rows))
    ensures forall t :: t in Walk(rows, remaining).0 ==>
      0 < t.quantity && exists row :: row in rows && row.lotId == t.lotId && t.quantity <= row.available
  {
    if |rows| > 0 && remaining > 0 {
      AvailableAtMostPositive(rows[1..]);
      assert forall row :: row in rows[1..] ==> row in rows;
      if rows[0].available <= 0 {
        WalkSpec(rows[1..], remaining);
      } else {
        var q := Min(rows[0].available, remaining);
        WalkSpec(rows[1..], remaining - q);
        var takes := Walk(rows, remaining).0;
        assert takes[1..] == Walk(rows[1..], remaining - q).0;
      }
    }
  }

  // ----- the same draw in closed form -----

  /** The reference definition: row `i` gives what it has, capped by what is still missing after all
      earlier rows gave theirs. */
  function Share(rows: seq<Row>, remaining: int, i: int): int
    requires 0 <= i < |rows|
  {
    Min(PositivePart(rows[i]), Max(0, remaining - Positive(rows[..i])))
  }

  /** The draws the shares describe, from row `i` on: one per row with a positive share. */
  function Planned(rows: seq<Row>, remaining: int, i: nat): seq<Take>
    requires i <= |rows|
    decreases |rows| - i
  {
    if i == |rows| then []
    else
      var share := Share(rows, remaining, i);
      (if share > 0 then [Take(rows[i].lotId, share)] else []) + Planned(rows, remaining, i + 1)
  }

  /** Dropping the first row: the later shares are those of the rest with what the first row gave
      already taken off. */
  lemma ShareShift(rows: seq<Row>, remaining: int, i: int)
    requires 1 <= i < |rows|
    ensures Share(rows, remaining, i) == Share(rows[1..], remaining - Share(rows, remaining, 0), i - 1)
  {
    assert rows[..i][1..] == rows[1..][..i - 1];
    assert rows[..0] == [];
    AvailableAtMostPositive(rows[1..][..i - 1]);
  }

  lemma {:induction false} PlannedShift(rows: seq<Row>, remaining: int, i: nat)
    requires 1 <= i <= |rows|
    ensures Planned(rows, remaining, i) == Planned(rows[1..], remaining - Share(rows, remaining, 0), i - 1)
    decreases |rows| - i
  {
    if i < |rows| {
      ShareShift(rows, remaining, i);
      PlannedShift(rows, remaining, i + 1);
    }
  }

  /** With nothing to draw, no row has a share. */
  lemma {:induction false} PlannedNothing(rows: seq<Row>, remaining: int, i: nat)
    requires remaining <= 0 && i <= |rows|
    ensures Planned(rows, remaining, i) == []
    decreases |rows| - i
  {
    if i < |rows| {
      AvailableAtMostPositive(rows[..i]);
      PlannedNothing(rows, remaining, i + 1);
    }
  }

  /** The walk draws exactly the shares of the reference definition. */
  lemma {:induction false} WalkIsPlanned(rows: seq<Row>, remaining: int)
    ensures Walk(rows, remaining).0 == Planned(rows, remaining, 0)
  {
    if |rows| == 0 {
    } else if remaining <= 0 {
      PlannedNothing(rows, remaining, 0);
    } else {
      assert rows[..0] == [];
      var q := Share(rows, remaining, 0);
      assert q == Min(PositivePart(rows[0]), remaining);
      PlannedShift(rows, remaining, 1);
      WalkIsPlanned(rows[1..], remaining - q);
      WalkStep(rows, remaining);
    }
  }

  /** One step of the walk, unfolded. */
  lemma WalkStep(rows: seq<Row>, remaining: int)
    requires |rows| > 0 && remaining > 0
    ensures rows[0].available <= 0 ==> Walk(rows, remaining).0 == Walk(rows[1..], remaining).0
    ensures 0 < rows[0].available ==>
      var q := Min(rows[0].available, remaining);
      Walk(rows, remaining).0 == [Take(rows[0].lotId, q)] + Walk(rows[1..], remaining - q).0
  {
  }

  /** Per lot: each row's lot loses exactly its share, and a lot with no row loses nothing. */
  lemma {:induction false} PlannedFromRow(rows: seq<Row>, remaining: int, j: nat, lotId: int)
    requires DistinctIds(rows) && j <= |rows|
    ensures forall i :: j <= i < |rows| && rows[i].lotId == lotId ==>
      DrawnFrom(Planned(rows, remaining, j), lotId) == Share(rows, remaining, i)
    ensures (forall i :: j <= i < |rows| ==> rows[i].lotId != lotId) ==>
      DrawnFrom(Planned(rows, remaining, j), lotId) == 0
    decreases |rows| - j
  {
    if j < |rows| {
      PlannedFromRow(rows, remaining, j + 1, lotId);
      var share := Share(rows, remaining, j);
      var head: seq<Take> := if share > 0 then [Take(rows[j].lotId, share)] else [];
      SumAppend(head, Planned(rows, remaining, j + 1), FromTake(lotId));
      if rows[j].lotId == lotId {
        assert forall i :: j + 1 <= i < |rows| ==> rows[i].lotId != lotId;
      }
    }
  }

  /** What the walk takes out of each lot: the share of its row, which never exceeds what the row had
      available; lots without a row are not touched. */
  lemma WalkFromLot(rows: seq<Row>, remaining: int, lotId: int)
    requires DistinctIds(rows)
    ensures forall i :: 0 <= i < |rows| && rows[i].lotId == lotId ==>
      && DrawnFrom(Walk(rows, remaining).0, lotId) == Share(rows, remaining, i)
      && 0 <= DrawnFrom(Walk(rows, remaining).0, lotId) <= PositivePart(rows[i])
    ensures !HasLot(rows, lotId) ==> DrawnFrom(Walk(rows, remaining).0, lotId) == 0
  {
    WalkIsPlanned(rows, remaining);
    PlannedFromRow(rows, remaining, 0, lotId);
    forall i | 0 <= i < |rows| && rows[i].lotId == lotId
      ensures 0 <= Share(rows, remaining, i) <= PositivePart(rows[i])
    {
      AvailableAtMostPositive(rows[..i]);
    }
  }

  // ----- applying the draws -----

  /** `UPDATE compras_stock SET cantidad_disponible = cantidad_disponible - :quita WHERE id = :id`,
      once per draw. */
  function Deduct(lots: seq<Lot>, takes: seq<Take>): (r: seq<Lot>)
    ensures |r| == |lots|
    decreases |takes|
  {
    if |takes| == 0 then lots
    else
      var t := takes[0];
      var once :=
        if 1 <= t.lotId <= |lots|
        then lots[t.lotId - 1 := lots[t.lotId - 1].(available := lots[t.lotId - 1].available - t.quantity)]
        else lots;
      Deduct(once, takes[1..])
  }

  /** After the updates every lot has lost exactly what the draws took out of it, and nothing else
      about it changed. */
  lemma {:induction false} DeductSpec(lots: seq<Lot>, takes: seq<Take>)
    ensures |Deduct(lots, takes)| == |lots|
    ensures forall k :: 0 <= k < |lots| ==>
      Deduct(lots, takes)[k] == lots[k].(available := lots[k].available - DrawnFrom(takes, k + 1))
    decreases |takes|
  {
    if |takes| > 0 {
      var t := takes[0];
      var once :=
        if 1 <= t.lotId <= |lots|
        then lots[t.lotId - 1 := lots[t.lotId - 1].(available := lots[t.lotId - 1].available - t.quantity)]
        else lots;
      DeductSpec(once, takes[1..]);
    }
  }

  /** The `asignacion_lotes` rows of one allocation, one per draw. */
  function Entries(allocationId: int, takes: seq<Take>): seq<LedgerEntry> {
    if |takes| == 0 then []
    else [LedgerEntry(allocationId, takes[0].lotId, takes[0].quantity)] + Entries(allocationId, takes[1..])
  }

  /** One entry per draw, in order, each recording its draw under the allocation. */
  lemma {:induction false} EntriesSpec(allocationId: int, takes: seq<Take>)
    ensures |Entries(allocationId, takes)| == |takes|
    ensures forall i :: 0 <= i < |takes| ==>
      Entries(allocationId, takes)[i] == LedgerEntry(allocationId, takes[i].lotId, takes[i].quantity)
  {
    if |takes| > 0 {
      EntriesSpec(allocationId, takes[1..]);
    }
  }

  /** The entries record what the draws took out of each lot ... */
  lemma {:induction false} EntriesFromLot(allocationId: int, takes: seq<Take>, lotId: int)
    ensures Sum(Entries(allocationId, takes), FromLot(lotId)) == DrawnFrom(takes, lotId)
  {
    if |takes| > 0 {
      EntriesFromLot(allocationId, takes[1..], lotId);
      assert Entries(allocationId, takes)[1..] == Entries(allocationId, takes[1..]);
    }
  }

  /** ... and all of it belongs to their own allocation ... */
  lemma {:induction false} EntriesOfAllocation(allocationId: int, takes: seq<Take>)
    ensures Sum(Entries(allocationId, takes), OfAllocation(allocationId)) == Drawn(takes)
  {
    if |takes| > 0 {
      EntriesOfAllocation(allocationId, takes[1..]);
      assert Entries(allocationId, takes)[1..] == Entries(allocationId, takes[1..]);
    }
  }

  /** ... and none to any other. */
  lemma {:induction false} EntriesOfOther(allocationId: int, takes: seq<Take>, otherId: int)
    requires otherId != allocationId
    ensures Sum(Entries(allocationId, takes), OfAllocation(otherId)) == 0
  {
    if |takes| > 0 {
      EntriesOfOther(allocationId, takes[1..], otherId);
      assert Entries(allocationId, takes)[1..] == Entries(allocationId, takes[1..]);
    }
  }

  /** Every row names a lot of the store with the availability the store has for it: the rows are
      still what a fresh read would return. */
  predicate Current(s: Store, rows: seq<Row>) {
    forall r :: r in rows ==> 1 <= r.lotId <= |s.lots| && s.lots[r.lotId - 1].available == r.available
  }

  lemma LotRowsCurrent(s: Store, productId: int, supplierId: int)
    ensures Current(s, LotRows(s, productId, supplierId))
  {
    LotRowsSpec(s, productId, supplierId);
  }

  /** One allocation and its FIFO draw: insert the `asignaciones` row (its id is the next one), walk
      the rows, subtract each draw from its lot and record it. Returns the new store and the undrawn
      remainder. */
  function Consume(s: Store, a: Allocation, rows: seq<Row>): (Store, int) {
    (s.(allocations := s.allocations + [a],
        lots := Deduct(s.lots, Walk(rows, a.quantity).0),
        ledger := s.ledger + Entries(|s.allocations| + 1, Walk(rows, a.quantity).0)),
     Walk(rows, a.quantity).1)
  }

  /** The shape of `Consume`'s result alone: the allocation appended, the lots kept in number, the
      entries appended to the ledger, and the shortfall left undrawn. */
  lemma ConsumeShape(s: Store, a: Allocation, rows: seq<Row>)
    ensures var r := Consume(s, a, rows);
      && r.1 == (if a.quantity <= 0 then a.quantity else Max(0, a.quantity - Positive(rows)))
      && r.0 == s.(allocations := r.0.allocations, lots := r.0.lots, ledger := r.0.ledger)
      && r.0.allocations == s.allocations + [a]
      && |r.0.lots| == |s.lots|
  {
    WalkSpec(rows, a.quantity);
    DeductSpec(s.lots, Walk(rows, a.quantity).0);
  }

  /** `Consume` appends the allocation, keeps every lot and the old ledger, touches nothing but lots,
      allocations and ledger, and leaves undrawn exactly the shortfall of the rows' positive
      availability; every entry it adds is a positive draw of the new allocation from a lot of the
      rows, no larger than that row's availability. */
  lemma ConsumeSpec(s: Store, a: Allocation, rows: seq<Row>)
    ensures var r := Consume(s, a, rows);
      && r.1 == (if a.quantity <= 0 then a.quantity else Max(0, a.quantity - Positive(rows)))
      && r.0 == s.(allocations := r.0.allocations, lots := r.0.lots, ledger := r.0.ledger)
      && r.0.allocations == s.allocations + [a]
      && |r.0.lots| == |s.lots|
      && r.0.ledger == s.ledger + Entries(|s.allocations| + 1, Walk(rows, a.quantity).0)
    ensures forall e :: e in Entries(|s.allocations| + 1, Walk(rows, a.quantity).0) ==>
      e.allocationId == |s.allocations| + 1 && 0 < e.quantity
      && exists row :: row in rows && row.lotId == e.lotId && e.quantity <= row.available
  {
    var takes := Walk(rows, a.quantity).0;
    WalkSpec(rows, a.quantity);
    DeductSpec(s.lots, takes);
    EntriesSpec(|s.allocations| + 1, takes);
    forall e | e in Entries(|s.allocations| + 1, takes)
      ensures e.allocationId == |s.allocations| + 1 && 0 < e.quantity
      ensures exists row :: row in rows && row.lotId == e.lotId && e.quantity <= row.available
    {
      var i :| 0 <= i < |takes| && Entries(|s.allocations| + 1, takes)[i] == e;
      assert takes[i] in takes;
    }
  }

  /** What `Consume` does to each lot, in the reference's terms: a lot with a row loses that row's
      share, any other lot is unchanged; and the new allocation's entries add up to what was drawn. */
  lemma ConsumeLots(s: Store, a: Allocation, rows: seq<Row>)
    requires DistinctIds(rows)
    ensures var s' := Consume(s, a, rows).0;
      && |s'.lots| == |s.lots|
      && (forall k :: 0 <= k < |s.lots| && !HasLot(rows, k + 1) ==> s'.lots[k] == s.lots[k])
      && (forall i :: 0 <= i < |rows| && 1 <= rows[i].lotId <= |s.lots| ==>
            s'.lots[rows[i].lotId - 1]
            == s.lots[rows[i].lotId - 1].(available := s.lots[rows[i].lotId - 1].available
                                                         - Share(rows, a.quantity, i)))
      && Sum(s'.ledger[|s.ledger|..], OfAllocation(|s.allocations| + 1))
         == a.quantity - Consume(s, a, rows).1
  {
    var w := Walk(rows, a.quantity);
    var id := |s.allocations| + 1;
    forall lotId | !HasLot(rows, lotId) ensures DrawnFrom(w.0, lotId) == 0 {
      WalkFromLot(rows, a.quantity, lotId);
    }
    forall i | 0 <= i < |rows| && 1 <= rows[i].lotId <= |s.lots|
      ensures DrawnFrom(w.0, rows[i].lotId) == Share(rows, a.quantity, i)
    {
      WalkFromLot(rows, a.quantity, rows[i].lotId);
    }
    ConsumeSpec(s, a, rows);
    DeductSpec(s.lots, w.0);
    WalkSpec(rows, a.quantity);
    EntriesOfAllocation(id, w.0);
    assert Consume(s, a, rows).0.ledger[|s.ledger|..] == Entries(id, w.0);
  }

  /** `Consume` keeps the ledger balanced, draws everything and overdraws no lot, as long as the rows
      are current, name each lot once, and can cover the (positive) quantity. */
  lemma ConsumePreserves(s: Store, a: Allocation, rows: seq<Row>)
    requires LedgerConsistent(s) && Current(s, rows) && DistinctIds(rows)
    requires 0 < a.quantity <= Positive(rows)
    ensures Consume(s, a, rows).1 == 0
    ensures LedgerConsistent(Consume(s, a, rows).0)
  {
    var s' := Consume(s, a, rows).0;
    ConsumeSpec(s, a, rows);
    forall k | 0 <= k < |s.lots|
      ensures 0 <= s'.lots[k].available
      ensures s'.lots[k].purchased == s'.lots[k].available + Sum(s'.ledger, FromLot(k + 1))
    {
      ConsumeLot(s, a, rows, k);
    }
    forall k | 0 <= k < |s'.allocations|
      ensures s'.allocations[k].quantity == Sum(s'.ledger, OfAllocation(k + 1))
    {
      ConsumeAllocation(s, a, rows, k);
    }
    ConsumeEntries(s, a, rows);
  }

  lemma ConsumeLot(s: Store, a: Allocation, rows: seq<Row>, k: int)
    requires LedgerConsistent(s) && Current(s, rows) && DistinctIds(rows)
    requires 0 <= k < |s.lots|
    ensures var s' := Consume(s, a, rows).0;
      && 0 <= s'.lots[k].available
      && s'.lots[k].purchased == s'.lots[k].available + Sum(s'.ledger, FromLot(k + 1))
  {
    var w := Walk(rows, a.quantity);
    var id := |s.allocations| + 1;
    var es := Entries(id, w.0);
    var s' := Consume(s, a, rows).0;
    assert s'.lots == Deduct(s.lots, w.0) && s'.ledger == s.ledger + es;
    DeductSpec(s.lots, w.0);
    WalkFromLot(rows, a.quantity, k + 1);
    EntriesFromLot(id, w.0, k + 1);
    SumAppend(s.ledger, es, FromLot(k + 1));
    if HasLot(rows, k + 1) {
      var i :| 0 <= i < |rows| && rows[i].lotId == k + 1;
      assert rows[i] in rows;
    }
  }

  lemma ConsumeAllocation(s: Store, a: Allocation, rows: seq<Row>, k: int)
    requires LedgerConsistent(s) && 0 <= k <= |s.allocations|
    requires 0 < a.quantity <= Positive(rows)
    ensures var s' := Consume(s, a, rows).0;
      s'.allocations[k].quantity == Sum(s'.ledger, OfAllocation(k + 1))
  {
    if k == |s.allocations| {
      ConsumeNewAllocation(s, a, rows);
    } else {
      ConsumeOldAllocation(s, a, rows, k);
      assert Consume(s, a, rows).0.allocations[k] == s.allocations[k];
    }
  }

  /** The new allocation is exactly the sum of its entries. */
  lemma ConsumeNewAllocation(s: Store, a: Allocation, rows: seq<Row>)
    requires LedgerConsistent(s)
    requires 0 < a.quantity <= Positive(rows)
    ensures var s' := Consume(s, a, rows).0;
      a.quantity == Sum(s'.ledger, OfAllocation(|s.allocations| + 1))
  {
    var w := Walk(rows, a.quantity);
    var id := |s.allocations| + 1;
    var es := Entries(id, w.0);
    ConsumeSpec(s, a, rows);
    WalkSpec(rows, a.quantity);
    SumAppend(s.ledger, es, OfAllocation(id));
    EntriesOfAllocation(id, w.0);
    forall e | e in s.ledger ensures OfAllocation(id)(e) == 0 {
      assert e.allocationId <= |s.allocations|;
    }
    SumZero(s.ledger, OfAllocation(id));
  }

  /** Earlier allocations gain no entries. */
  lemma ConsumeOldAllocation(s: Store, a: Allocation, rows: seq<Row>, k: int)
    requires 0 <= k < |s.allocations|
    ensures Sum(Consume(s, a, rows).0.ledger, OfAllocation(k + 1)) == Sum(s.ledger, OfAllocation(k + 1))
  {
    ConsumeSpec(s, a, rows);
    AppendOther(s.ledger, |s.allocations| + 1, Walk(rows, a.quantity).0, k + 1);
  }

  /** Appending one allocation's entries leaves every other allocation's sum alone. */
  lemma AppendOther(ledger: seq<LedgerEntry>, id: int, takes: seq<Take>, otherId: int)
    requires otherId != id
    ensures Sum(ledger + Entries(id, takes), OfAllocation(otherId)) == Sum(ledger, OfAllocation(otherId))
  {
    EntriesOfOther(id, takes, otherId);
    SumAppend(ledger, Entries(id, takes), OfAllocation(otherId));
  }

  lemma ConsumeEntries(s: Store, a: Allocation, rows: seq<Row>)
    requires LedgerConsistent(s) && Current(s, rows)
    ensures var s' := Consume(s, a, rows).0;
      forall e :: e in s'.ledger ==>
        0 < e.quantity && 1 <= e.lotId <= |s'.lots| && 1 <= e.allocationId <= |s'.allocations|
  {
    var s' := Consume(s, a, rows).0;
    ConsumeSpec(s, a, rows);
    forall e | e in s'.ledger
      ensures 0 < e.quantity && 1 <= e.lotId <= |s'.lots| && 1 <= e.allocationId <= |s'.allocations|
    {
      if e !in s.ledger {
        assert e in Entries(|s.allocations| + 1, Walk(rows, a.quantity).0);
        var row :| row in rows && row.lotId == e.lotId && e.quantity <= row.available;
      }
    }
  }

  /** Drawing from some rows leaves rows with other lot ids current: per-supplier draws of one
      conversion do not disturb each other. */
  lemma ConsumeFrame(s: Store, a: Allocation, rows: seq<Row>, other: seq<Row>)
    requires DistinctIds(rows) && Current(s, other)
    requires forall r, o :: r in rows && o in other ==> r.lotId != o.lotId
    ensures Current(Consume(s, a, rows).0, other)
  {
    ConsumeLots(s, a, rows);
  }
}
