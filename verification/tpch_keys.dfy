/** Whether the generated key columns satisfy the keys the notebook's DDL declares.
    A foreign key holds when every row's key names a row of the referenced table; a
    NULL key (Spark's `id % 0`) names none. */
module TpchKeys {
  import opened Wrappers
  import opened TpchTables
  import opened TpchColumns

  // ---------------------------------------------------------------------------
  // customer / supplier -> nation

  /** `c_nationkey` and `s_nationkey` are always one of the 25 nation keys, so both
      `FOREIGN KEY (c_nationkey)` and `FOREIGN KEY (s_nationkey)` hold for every
      `row_count`; and every nation key is the nation key of the row whose id it is. */
  lemma NationKeysValid(id: nat)
    ensures 0 <= NationKeyOf(id) < 25
    ensures IsNationKey(NationKeyOf(id))
    ensures IsNationKey(id) ==> NationKeyOf(id) == id
  {
    NationKeyExists(NationKeyOf(id));
    if IsNationKey(id) {
      NationKeyBelow(id);
      ModBelow(id, 25);
    }
  }

  lemma NationKeyExists(k: int)
    requires 0 <= k < 25
    ensures IsNationKey(k)
  {
    NationKeys();
  }

  lemma NationKeyBelow(k: int)
    requires IsNationKey(k)
    ensures 0 <= k < 25
  {
    NationKeys();
  }

  // ---------------------------------------------------------------------------
  // orders -> customer

  ghost predicate OrdersReferenceCustomers(rowCount: int) {
    forall id: nat :: InRange(id, OrdersCount(rowCount)) ==>
      References(OrderCustKey(id, rowCount), CustomerCount(rowCount))
  }

  /** `FOREIGN KEY (o_custkey)` holds for every `row_count`: when there are orders
      there are customers, and `id % customer_count` is one of their keys. */
  lemma OrdersCustomerKeys(rowCount: int)
    ensures OrdersReferenceCustomers(rowCount)
  {
  }

  /** Each customer `c` has exactly two orders: the ones with ids `c` and
      `c + row_count`. */
  lemma OrdersPerCustomer(rowCount: int, c: int, id: nat)
    requires 0 <= c < CustomerCount(rowCount)
    requires InRange(id, OrdersCount(rowCount))
    ensures OrderCustKey(id, rowCount) == Some(c) <==> id == c || id == c + rowCount
  {
    if id < rowCount {
      ModBelow(id, rowCount);
    } else {
      ModAbove(id, rowCount);
    }
  }

  // ---------------------------------------------------------------------------
  // lineitem -> orders, part, supplier

  ghost predicate LineitemsReferenceOrders(rowCount: int) {
    forall id: nat :: InRange(id, LineitemCount(rowCount)) ==>
      References(LineOrderKey(id, rowCount), OrdersCount(rowCount))
  }

  ghost predicate LineitemsReferenceParts(rowCount: int) {
    forall id: nat :: InRange(id, LineitemCount(rowCount)) ==>
      References(LinePartKey(id, rowCount), PartCount(rowCount))
  }

  ghost predicate LineitemsReferenceSuppliers(rowCount: int) {
    forall id: nat :: InRange(id, LineitemCount(rowCount)) ==>
      References(LineSuppKey(id, rowCount), SupplierCount(rowCount))
  }

  /** `FOREIGN KEY (l_orderkey)` holds for every `row_count`. */
  lemma LineitemOrderKeys(rowCount: int)
    ensures LineitemsReferenceOrders(rowCount)
  {
  }

  /** `FOREIGN KEY (l_partkey)` holds exactly when there are no line items or there
      are parts: for `0 < row_count < 5` the part table is empty and every
      `l_partkey` is `id % 0`, which is NULL. */
  lemma LineitemPartKeys(rowCount: int)
    ensures LineitemsReferenceParts(rowCount) <==> rowCount <= 0 || rowCount >= 5
  {
    if 0 < rowCount < 5 {
      assert InRange(0, LineitemCount(rowCount));
      assert LinePartKey(0, rowCount).None?;
    }
  }

  /** `FOREIGN KEY (l_suppkey)` holds exactly when there are no line items or there
      are suppliers, that is `row_count >= 10` for a positive `row_count`. */
  lemma LineitemSupplierKeys(rowCount: int)
    ensures LineitemsReferenceSuppliers(rowCount) <==> rowCount <= 0 || rowCount >= 10
  {
    if 0 < rowCount < 10 {
      assert InRange(0, LineitemCount(rowCount));
      assert LineSuppKey(0, rowCount).None?;
    }
  }

  // ---------------------------------------------------------------------------
  // lineitem primary key

  /** The declared primary key `(l_orderkey, l_linenumber)` of line item `id`. */
  function LineitemKey(id: nat, rowCount: int): (Option<int>, int) {
    (LineOrderKey(id, rowCount), LineNumber(id))
  }

  ghost predicate LineitemKeyUnique(rowCount: int) {
    forall a: nat, b: nat ::
      (InRange(a, LineitemCount(rowCount)) && InRange(b, LineitemCount(rowCount)) &&
       LineitemKey(a, rowCount) == LineitemKey(b, rowCount)) ==> a == b
  }

  lemma ModBelow(x: int, m: int)
    requires 0 <= x < m
    ensures x % m == x
  {
  }

  lemma ModAbove(x: int, m: int)
    requires m <= x < 2 * m
    ensures x % m == x - m
  {
    ModBelow(x - m, m);
    assert x == (x - m) + m;
  }

  /** Two ids below `2m` with the same remainder modulo `m` are `m` apart. */
  lemma ModEqualGap(a: nat, b: nat, m: int)
    requires 0 < m && a < b < 2 * m
    requires a % m == b % m
    ensures b == a + m
  {
    if b < m {
      ModBelow(a, m);
      ModBelow(b, m);
    } else if a >= m {
      ModAbove(a, m);
      ModAbove(b, m);
    } else {
      ModBelow(a, m);
      ModAbove(b, m);
    }
  }

  /** Ids `x` and `x + 2 * row_count` share a line number only if 7 divides `row_count`. */
  lemma SevenDividesGap(x: nat, rowCount: nat)
    requires (x + 2 * rowCount) % 7 == x % 7
    ensures rowCount % 7 == 0
  {
  }

  /** Adding a multiple of 7 leaves the remainder modulo 7 alone. */
  lemma {:induction false} ModShiftMultiple(x: nat, k: nat)
    ensures (x + 7 * k) % 7 == x % 7
  {
    if k > 0 {
      ModShiftMultiple(x, k - 1);
      assert x + 7 * k == (x + 7 * (k - 1)) + 7;
    }
  }

  /** The line item key is unique exactly when there are no line items or `row_count`
      is not a multiple of 7. Ids `x` and `x + 2 * row_count` always share an order;
      they share a line number when 7 divides `2 * row_count`. */
  lemma LineitemKeyUniqueness(rowCount: int)
    ensures LineitemKeyUnique(rowCount) <==> rowCount <= 0 || rowCount % 7 != 0
  {
    if rowCount > 0 && rowCount % 7 == 0 {
      var b := KeyCollision(rowCount);
      assert InRange(0, LineitemCount(rowCount)) && InRange(b, LineitemCount(rowCount));
    } else if rowCount > 0 {
      forall a: nat, b: nat |
        InRange(a, LineitemCount(rowCount)) && InRange(b, LineitemCount(rowCount)) &&
        LineitemKey(a, rowCount) == LineitemKey(b, rowCount)
        ensures a == b
      {
        if a != b {
          DistinctKeys(a, b, rowCount);
        }
      }
    }
  }

  /** For a positive multiple of 7, line items 0 and `2 * row_count` share their key. */
  lemma KeyCollision(rowCount: int) returns (b: nat)
    requires rowCount > 0 && rowCount % 7 == 0
    ensures b == 2 * rowCount && b < LineitemCount(rowCount)
    ensures LineitemKey(0, rowCount) == LineitemKey(b, rowCount)
  {
    b := 2 * rowCount;
    ModAbove(b, OrdersCount(rowCount));
    ModBelow(0, OrdersCount(rowCount));
    assert b == 7 * (2 * (rowCount / 7));
    ModShiftMultiple(0, 2 * (rowCount / 7));
  }

  lemma DistinctKeys(a: nat, b: nat, rowCount: int)
    requires rowCount > 0 && rowCount % 7 != 0 && a != b
    requires InRange(a, LineitemCount(rowCount)) && InRange(b, LineitemCount(rowCount))
    ensures LineitemKey(a, rowCount) != LineitemKey(b, rowCount)
  {
    var lo, hi := if a < b then a else b, if a < b then b else a;
    if LineitemKey(lo, rowCount) == LineitemKey(hi, rowCount) {
      ModEqualGap(lo, hi, OrdersCount(rowCount));
      SevenDividesGap(lo, rowCount);
    }
    assert LineitemKey(lo, rowCount) != LineitemKey(hi, rowCount);
  }
}
