/** What the endpoints that write `reservas` share: the insert with the next auto-increment id, and
    the `pedido` recount `UPDATE productos p JOIN (SELECT producto_id, SUM(cantidad) ...) SET
    p.pedido = r.total`. */
module Reservations {
  import opened Wrappers
  import opened Store

  /** Insert `r` under the next auto-increment id (whatever id `r` carries is replaced). */
  function Insert(s: Store, r: Reservation): Store {
    s.(reservations := s.reservations + [r.(id := s.nextReservationId)],
       nextReservationId := s.nextReservationId + 1)
  }

  /** Some reservation is of product `productId`: the recount's join finds a row. */
  predicate IsReserved(s: Store, productId: int) {
    exists r :: r in s.reservations && r.productId == productId
  }

  /** The recount of one product: `pedido` becomes the sum of the product's reservations; with no
      reservation the join is empty and nothing changes. */
  function Recount(s: Store, productId: int): Store {
    if 1 <= productId <= |s.products| && IsReserved(s, productId) then
      s.(products := s.products[productId - 1 := s.products[productId - 1].(ordered := Reserved(s, productId))])
    else s
  }

  /** The recount of each product in turn. */
  function RecountAll(s: Store, productIds: seq<int>): Store
    decreases |productIds|
  {
    if |productIds| == 0 then s else RecountAll(Recount(s, productIds[0]), productIds[1..])
  }

  /** `ReservationsConsistent`, except that the `pedido` of the products in `stale` may be out of
      date: the state between a reservation write and the recount that follows it. */
  predicate ConsistentExcept(s: Store, stale: set<int>) {
    && (forall i, j :: 0 <= i < j < |s.reservations| ==> s.reservations[i].id != s.reservations[j].id)
    && 1 <= s.nextReservationId
    && (forall r :: r in s.reservations ==>
         1 <= r.id < s.nextReservationId && 0 < r.quantity && 1 <= r.productId <= |s.products|)
    && (forall p :: 1 <= p <= |s.products| && p !in stale ==> s.products[p - 1].ordered == Reserved(s, p))
  }

  lemma ConsistentExceptNothing(s: Store)
    ensures ConsistentExcept(s, {}) <==> ReservationsConsistent(s)
  {
  }

  /** Inserting adds the quantity to its product's reserved total and to no other. */
  lemma {:induction false} InsertReserved(s: Store, r: Reservation, p: int)
    ensures Reserved(Insert(s, r), p) == Reserved(s, p) + (if r.productId == p then r.quantity else 0)
  {
    SumAppend(s.reservations, [r.(id := s.nextReservationId)], OfProduct(p));
  }

  /** Inserting a positive reservation of an existing product keeps the invariant, with that
      product's `pedido` now stale. */
  lemma InsertKeeps(s: Store, r: Reservation, stale: set<int>)
    requires ConsistentExcept(s, stale) && r.productId in stale
    requires 0 < r.quantity && 1 <= r.productId <= |s.products|
    ensures ConsistentExcept(Insert(s, r), stale)
    ensures IsReserved(Insert(s, r), r.productId)
  {
    var s' := Insert(s, r);
    forall p | 1 <= p <= |s'.products| && p !in stale
      ensures s'.products[p - 1].ordered == Reserved(s', p)
    {
      InsertReserved(s, r, p);
    }
    forall x | x in s'.reservations
      ensures 1 <= x.id < s'.nextReservationId && 0 < x.quantity && 1 <= x.productId <= |s'.products|
    {
      if x !in s.reservations {
        assert x == r.(id := s.nextReservationId);
      }
    }
    assert s'.reservations[|s.reservations|] in s'.reservations;
  }

  /** A recount of a reserved product brings its `pedido` up to date and changes nothing else. */
  lemma RecountKeeps(s: Store, p: int, stale: set<int>)
    requires ConsistentExcept(s, stale) && IsReserved(s, p)
    ensures ConsistentExcept(Recount(s, p), stale - {p})
    ensures Recount(s, p).reservations == s.reservations
    ensures Recount(s, p) == s.(products := Recount(s, p).products)
    ensures |Recount(s, p).products| == |s.products|
    ensures forall k :: 0 <= k < |s.products| && k != p - 1 ==> Recount(s, p).products[k] == s.products[k]
  {
  }

  /** Recounting every stale product restores the invariant. */
  lemma {:induction false} RecountAllKeeps(s: Store, productIds: seq<int>, stale: set<int>)
    requires ConsistentExcept(s, stale)
    requires forall p :: p in stale ==> p in productIds
    requires forall p :: p in productIds ==> IsReserved(s, p)
    ensures ReservationsConsistent(RecountAll(s, productIds))
    ensures RecountAll(s, productIds) == s.(products := RecountAll(s, productIds).products)
    decreases |productIds|
  {
    if |productIds| == 0 {
      ConsistentExceptNothing(s);
    } else {
      var p := productIds[0];
      var s1 := Recount(s, p);
      RecountKeeps(s, p, stale);
      forall q | q in stale - {p} ensures q in productIds[1..] {
        assert q in productIds;
      }
      forall q | q in productIds[1..] ensures IsReserved(s1, q) {
        assert q in productIds;
      }
      RecountAllKeeps(s1, productIds[1..], stale - {p});
    }
  }

  /** Recounts change nothing but `pedido`. */
  lemma {:induction false} RecountAllFrame(s: Store, productIds: seq<int>)
    ensures var s' := RecountAll(s, productIds);
      && s' == s.(products := s'.products) && |s'.products| == |s.products|
      && forall k :: 0 <= k < |s.products| ==> s'.products[k] == s.products[k].(ordered := s'.products[k].ordered)
    decreases |productIds|
  {
    if |productIds| > 0 {
      RecountAllFrame(Recount(s, productIds[0]), productIds[1..]);
    }
  }

  /** Inserting a reservation of an existing product and recounting that product: one row more under
      the next id, and the product's `pedido` is its old reserved total plus the new quantity. */
  lemma InsertRecount(s: Store, r: Reservation)
    requires 1 <= r.productId <= |s.products|
    ensures var s' := Recount(Insert(s, r), r.productId);
      && s' == s.(reservations := s.reservations + [r.(id := s.nextReservationId)],
                  nextReservationId := s.nextReservationId + 1, products := s'.products)
      && |s'.products| == |s.products|
      && s'.products[r.productId - 1] == s.products[r.productId - 1].(ordered := Reserved(s, r.productId) + r.quantity)
      && (forall k :: 0 <= k < |s.products| && k != r.productId - 1 ==> s'.products[k] == s.products[k])
  {
    var s1 := Insert(s, r);
    InsertReserved(s, r, r.productId);
    assert s1.reservations[|s.reservations|] in s1.reservations;
    assert IsReserved(s1, r.productId);
  }

  /** Removing the reservation at `i` takes its quantity out of its product's total, keeps the
      invariant with that product's `pedido` now stale, and leaves no reservation with its id. */
  lemma RemoveKeeps(s: Store, i: int, stale: set<int>)
    requires ConsistentExcept(s, stale) && 0 <= i < |s.reservations|
    ensures var s' := s.(reservations := s.reservations[..i] + s.reservations[i + 1..]);
      && ConsistentExcept(s', stale + {s.reservations[i].productId})
      && (forall p :: Reserved(s', p) == Reserved(s, p) - OfProduct(p)(s.reservations[i]))
      && (forall x :: x in s'.reservations ==> x.id != s.reservations[i].id)
  {
    var rs := s.reservations;
    var s' := s.(reservations := rs[..i] + rs[i + 1..]);
    forall p ensures Reserved(s', p) == Reserved(s, p) - OfProduct(p)(rs[i]) {
      SumRemove(rs, i, OfProduct(p));
    }
    forall k | 0 <= k < |s'.reservations|
      ensures s'.reservations[k] == rs[if k < i then k else k + 1]
    {
    }
    forall x | x in s'.reservations
      ensures 1 <= x.id < s'.nextReservationId && 0 < x.quantity && 1 <= x.productId <= |s'.products|
      ensures x.id != rs[i].id
    {
      var k :| 0 <= k < |s'.reservations| && s'.reservations[k] == x;
      var j := if k < i then k else k + 1;
      assert x == rs[j] && x in rs;
      if j < i {
        assert rs[j].id != rs[i].id;
      } else {
        assert rs[i].id != rs[j].id;
      }
    }
    forall a, b | 0 <= a < b < |s'.reservations| ensures s'.reservations[a].id != s'.reservations[b].id {
      var a' := if a < i then a else a + 1;
      var b' := if b < i then b else b + 1;
      assert s'.reservations[a] == rs[a'] && s'.reservations[b] == rs[b'];
    }
  }

  /** Replacing the reservation at `i` by one with the same id and product and a positive quantity
      moves its product's total by the change in quantity and keeps the invariant with that
      product's `pedido` now stale. */
  lemma UpdateKeeps(s: Store, i: int, r: Reservation, stale: set<int>)
    requires ConsistentExcept(s, stale) && 0 <= i < |s.reservations|
    requires r.id == s.reservations[i].id && r.productId == s.reservations[i].productId && 0 < r.quantity
    ensures var s' := s.(reservations := s.reservations[i := r]);
      && ConsistentExcept(s', stale + {r.productId})
      && (forall p :: Reserved(s', p) == Reserved(s, p) - OfProduct(p)(s.reservations[i]) + OfProduct(p)(r))
  {
    var rs := s.reservations;
    var s' := s.(reservations := rs[i := r]);
    assert rs[i] in rs;
    forall p ensures Reserved(s', p) == Reserved(s, p) - OfProduct(p)(rs[i]) + OfProduct(p)(r) {
      SumUpdate(rs, i, r, OfProduct(p));
    }
    forall x | x in s'.reservations
      ensures 1 <= x.id < s'.nextReservationId && 0 < x.quantity && 1 <= x.productId <= |s'.products|
    {
      var k :| 0 <= k < |s'.reservations| && s'.reservations[k] == x;
      if k != i {
        assert x == rs[k] && x in rs;
      }
    }
    forall a, b | 0 <= a < b < |s'.reservations| ensures s'.reservations[a].id != s'.reservations[b].id {
      assert s'.reservations[a].id == rs[a].id && s'.reservations[b].id == rs[b].id;
    }
  }

  /** Setting one product's `pedido` to its reserved total settles that product and touches no
      other. */
  lemma SettleKeeps(s: Store, s': Store, p: int, stale: set<int>)
    requires ConsistentExcept(s, stale)
    requires s' == s.(products := s'.products) && |s'.products| == |s.products|
    requires forall k :: 0 <= k < |s.products| && k != p - 1 ==> s'.products[k] == s.products[k]
    requires 1 <= p <= |s.products| ==> s'.products[p - 1].ordered == Reserved(s, p)
    ensures ConsistentExcept(s', stale - {p})
  {
    assert forall q :: Reserved(s', q) == Reserved(s, q);
  }

  /** The ledger invariant reads neither reservations nor products. */
  lemma LedgerFrame(s: Store, s': Store)
    requires LedgerConsistent(s)
    requires s'.lots == s.lots && s'.ledger == s.ledger && s'.allocations == s.allocations
    ensures LedgerConsistent(s')
  {
  }
}
