/** The lots an allocation may draw from: the `compras_stock` rows of one (product, supplier) pair,
    read as `SELECT id, cantidad_disponible ... WHERE producto_id = ? AND proveedor_id = ?
    ORDER BY semana ASC, id ASC`. */
module Lots {
  import opened Store

  /** One row of that query (the week is kept because the order depends on it). */
  datatype Row = Row(lotId: int, week: string, available: int)

  // ----- the order -----

  /** Lexicographic order on strings by character code. `ORDER BY semana` sorts by the column's
      collation instead; the two agree on `YYYY-WNN` labels, whose characters are digits, `-` and `W`
      at fixed positions. */
  predicate StrLe(a: string, b: string) {
    |a| == 0 || (|b| > 0 && (a[0] < b[0] || (a[0] == b[0] && StrLe(a[1..], b[1..]))))
  }

  lemma {:induction false} StrLeTotal(a: string, b: string)
    ensures StrLe(a, b) || StrLe(b, a)
  {
    if |a| > 0 && |b| > 0 && a[0] == b[0] {
      StrLeTotal(a[1..], b[1..]);
    }
  }

  lemma {:induction false} StrLeTransitive(a: string, b: string, c: string)
    requires StrLe(a, b) && StrLe(b, c)
    ensures StrLe(a, c)
  {
    if |a| > 0 && a[0] == b[0] && b[0] == c[0] {
      StrLeTransitive(a[1..], b[1..], c[1..]);
    }
  }

  lemma {:induction false} StrLeAntisymmetric(a: string, b: string)
    requires StrLe(a, b) && StrLe(b, a)
    ensures a == b
  {
    if |a| > 0 {
      StrLeAntisymmetric(a[1..], b[1..]);
      assert a == [a[0]] + a[1..] && b == [b[0]] + b[1..];
    }
  }

  /** `semana ASC, id ASC`. */
  predicate Before(a: Row, b: Row) {
    if a.week == b.week then a.lotId <= b.lotId else StrLe(a.week, b.week)
  }

  lemma BeforeTotal(a: Row, b: Row)
    ensures Before(a, b) || Before(b, a)
  {
    StrLeTotal(a.week, b.week);
  }

  lemma BeforeTransitive(a: Row, b: Row, c: Row)
    requires Before(a, b) && Before(b, c)
    ensures Before(a, c)
  {
    if a.week != b.week && b.week != c.week {
      StrLeTransitive(a.week, b.week, c.week);
      if a.week == c.week {
        StrLeAntisymmetric(a.week, b.week);
      }
    }
  }

  predicate Sorted(rows: seq<Row>) {
    forall i, j :: 0 <= i < j < |rows| ==> Before(rows[i], rows[j])
  }

  predicate DistinctIds(rows: seq<Row>) {
    forall i, j :: 0 <= i < j < |rows| ==> rows[i].lotId != rows[j].lotId
  }

  /** Some row reads lot `lotId`. */
  predicate HasLot(rows: seq<Row>, lotId: int) {
    exists i :: 0 <= i < |rows| && rows[i].lotId == lotId
  }

  // ----- insertion sort -----

  function Insert(x: Row, rows: seq<Row>): seq<Row> {
    if |rows| == 0 || Before(x, rows[0]) then [x] + rows
    else [rows[0]] + Insert(x, rows[1..])
  }

  /** Inserting into a sorted sequence keeps it sorted, adds exactly `x`, and keeps the ids distinct
      when `x`'s id is new. */
  lemma {:induction false} InsertSpec(x: Row, rows: seq<Row>)
    requires Sorted(rows)
    ensures Sorted(Insert(x, rows))
    ensures multiset(Insert(x, rows)) == multiset(rows) + multiset{x}
    ensures DistinctIds(rows) && (forall y :: y in rows ==> y.lotId != x.lotId) ==> DistinctIds(Insert(x, rows))
  {
    if |rows| == 0 {
    } else if Before(x, rows[0]) {
      InsertFront(x, rows);
    } else {
      assert forall y :: y in rows[1..] ==> y in rows;
      InsertSpec(x, rows[1..]);
      InsertBehind(x, rows, Insert(x, rows[1..]));
    }
  }

  /** The step that keeps the head: the head comes before `x` and before everything after it. */
  lemma InsertBehind(x: Row, rows: seq<Row>, tail: seq<Row>)
    requires Sorted(rows) && |rows| > 0 && !Before(x, rows[0])
    requires Sorted(tail) && multiset(tail) == multiset(rows[1..]) + multiset{x}
    requires DistinctIds(rows) && (forall y :: y in rows ==> y.lotId != x.lotId) ==> DistinctIds(tail)
    ensures Sorted([rows[0]] + tail)
    ensures multiset([rows[0]] + tail) == multiset(rows) + multiset{x}
    ensures DistinctIds(rows) && (forall y :: y in rows ==> y.lotId != x.lotId) ==> DistinctIds([rows[0]] + tail)
  {
    BeforeTotal(x, rows[0]);
    assert rows == [rows[0]] + rows[1..];
    forall y | y in tail ensures y == x || y in rows[1..] {
      assert y in multiset(tail);
    }
    forall j | 0 <= j < |tail|
      ensures Before(rows[0], tail[j])
      ensures DistinctIds(rows) && (forall y :: y in rows ==> y.lotId != x.lotId) ==> rows[0].lotId != tail[j].lotId
    {
      assert tail[j] in tail;
      if tail[j] != x {
        var k :| 0 <= k < |rows[1..]| && rows[1..][k] == tail[j];
        assert rows[k + 1] == tail[j];
      } else {
        assert rows[0] in rows;
      }
    }
    var r := [rows[0]] + tail;
    forall i, j | 0 < i < j < |r| ensures Before(r[i], r[j]) && (DistinctIds(tail) ==> r[i].lotId != r[j].lotId) {
      assert r[i] == tail[i - 1] && r[j] == tail[j - 1];
    }
  }

  /** Putting a row that comes before the head in front of a sorted sequence keeps it sorted. */
  lemma InsertFront(x: Row, rows: seq<Row>)
    requires Sorted(rows) && |rows| > 0 && Before(x, rows[0])
    ensures Sorted([x] + rows)
  {
    forall j | 0 <= j < |rows| ensures Before(x, rows[j]) {
      if j > 0 {
        BeforeTransitive(x, rows[0], rows[j]);
      }
    }
  }

  function Sort(rows: seq<Row>): seq<Row> {
    if |rows| == 0 then [] else Insert(rows[0], Sort(rows[1..]))
  }

  /** Insertion sort sorts, permutes, and keeps distinct ids distinct. */
  lemma {:induction false} SortSpec(rows: seq<Row>)
    ensures Sorted(Sort(rows))
    ensures multiset(Sort(rows)) == multiset(rows)
    ensures DistinctIds(rows) ==> DistinctIds(Sort(rows))
  {
    if |rows| > 0 {
      SortSpec(rows[1..]);
      SortStep(rows, Sort(rows[1..]));
      InsertSpec(rows[0], Sort(rows[1..]));
    }
  }

  /** The head of distinct-id rows has an id no row of a permutation of the tail has. */
  lemma SortStep(rows: seq<Row>, tail: seq<Row>)
    requires |rows| > 0 && multiset(tail) == multiset(rows[1..])
    ensures multiset(rows) == multiset(tail) + multiset{rows[0]}
    ensures DistinctIds(rows) ==> DistinctIds(rows[1..]) && forall y :: y in tail ==> y.lotId != rows[0].lotId
  {
    assert rows == [rows[0]] + rows[1..];
    forall y | y in tail ensures y in rows[1..] {
      assert y in multiset(tail);
    }
  }

  // ----- selecting the pair's lots -----

  /** The row the query reads for the lot with id `k`. */
  function RowOf(lots: seq<Lot>, k: int): Row
    requires 1 <= k <= |lots|
  {
    Row(k, lots[k - 1].week, lots[k - 1].available)
  }

  /** `r` is one of the rows `WHERE producto_id = ? AND proveedor_id = ?` returns. */
  predicate IsPairRow(lots: seq<Lot>, productId: int, supplierId: int, r: Row) {
    1 <= r.lotId <= |lots| && r == RowOf(lots, r.lotId)
    && lots[r.lotId - 1].productId == productId && lots[r.lotId - 1].supplierId == supplierId
  }

  /** The pair's rows among the first `n` lots, in id order. */
  function PairRows(lots: seq<Lot>, productId: int, supplierId: int, n: nat): seq<Row>
    requires n <= |lots|
  {
    if n == 0 then []
    else if lots[n - 1].productId == productId && lots[n - 1].supplierId == supplierId
    then PairRows(lots, productId, supplierId, n - 1) + [RowOf(lots, n)]
    else PairRows(lots, productId, supplierId, n - 1)
  }

  /** The scan finds exactly the pair's rows among the first `n` lots, with increasing ids. */
  lemma {:induction false} PairRowsSpec(lots: seq<Lot>, productId: int, supplierId: int, n: nat)
    requires n <= |lots|
    ensures forall r :: r in PairRows(lots, productId, supplierId, n) <==>
      IsPairRow(lots, productId, supplierId, r) && r.lotId <= n
    ensures DistinctIds(PairRows(lots, productId, supplierId, n))
  {
    if n > 0 {
      PairRowsSpec(lots, productId, supplierId, n - 1);
    }
  }

  /** The query's result. */
  function LotRows(s: Store, productId: int, supplierId: int): seq<Row> {
    Sort(PairRows(s.lots, productId, supplierId, |s.lots|))
  }

  /** The query returns exactly the pair's lots, each once, oldest week first and by id within a
      week. */
  lemma LotRowsSpec(s: Store, productId: int, supplierId: int)
    ensures Sorted(LotRows(s, productId, supplierId)) && DistinctIds(LotRows(s, productId, supplierId))
    ensures forall r :: r in LotRows(s, productId, supplierId) <==> IsPairRow(s.lots, productId, supplierId, r)
  {
    var found := PairRows(s.lots, productId, supplierId, |s.lots|);
    PairRowsSpec(s.lots, productId, supplierId, |s.lots|);
    SortSpec(found);
    var rows := Sort(found);
    forall r ensures r in rows <==> r in found {
      assert r in rows <==> r in multiset(rows);
    }
  }

  /** Appending a lot does not change the scan of the lots before it. */
  lemma {:induction false} PairRowsExtend(lots: seq<Lot>, x: Lot, productId: int, supplierId: int, n: nat)
    requires n <= |lots|
    ensures PairRows(lots + [x], productId, supplierId, n) == PairRows(lots, productId, supplierId, n)
  {
    if n > 0 {
      PairRowsExtend(lots, x, productId, supplierId, n - 1);
    }
  }

  /** Inserting a row adds its term to any sum over the rows. */
  lemma {:induction false} InsertSum(x: Row, rows: seq<Row>, f: Row -> int)
    ensures Sum(Insert(x, rows), f) == f(x) + Sum(rows, f)
  {
    if |rows| > 0 && !Before(x, rows[0]) {
      InsertSum(x, rows[1..], f);
    }
  }

  /** Sorting does not change a sum over the rows. */
  lemma {:induction false} SortSum(rows: seq<Row>, f: Row -> int)
    ensures Sum(Sort(rows), f) == Sum(rows, f)
  {
    if |rows| > 0 {
      SortSum(rows[1..], f);
      InsertSum(rows[0], Sort(rows[1..]), f);
    }
  }

  // ----- sums over rows -----

  function RowAvailable(r: Row): int { r.available }

  function PositivePart(r: Row): int { Max(r.available, 0) }

  /** `$totalDisponible`: the plain sum of `cantidad_disponible`, negative rows included. */
  function Available(rows: seq<Row>): int { Sum(rows, RowAvailable) }

  /** What a walk can actually draw: the sum over the rows with something available. */
  function Positive(rows: seq<Row>): int { Sum(rows, PositivePart) }

  /** The stock check is conservative: the walk can always draw at least the plain sum. */
  lemma {:induction false} AvailableAtMostPositive(rows: seq<Row>)
    ensures Available(rows) <= Positive(rows)
    ensures 0 <= Positive(rows)
  {
    if |rows| > 0 {
      AvailableAtMostPositive(rows[1..]);
    }
  }

  /** When no row is negative, as the ledger invariant guarantees, the two sums agree. */
  lemma {:induction false} AvailableIsPositive(rows: seq<Row>)
    requires forall r :: r in rows ==> 0 <= r.available
    ensures Available(rows) == Positive(rows)
  {
    if |rows| > 0 {
      assert forall r :: r in rows[1..] ==> r in rows;
      AvailableIsPositive(rows[1..]);
    }
  }

  /** Rows read from a consistent store are never negative. */
  lemma RowsOfConsistentStore(s: Store, productId: int, supplierId: int)
    requires LedgerConsistent(s)
    ensures forall r :: r in LotRows(s, productId, supplierId) ==> 0 <= r.available
    ensures Available(LotRows(s, productId, supplierId)) == Positive(LotRows(s, productId, supplierId))
  {
    LotRowsSpec(s, productId, supplierId);
    AvailableIsPositive(LotRows(s, productId, supplierId));
  }
}
