/** The TPC-H seeding notebook: how many rows each table gets from `row_count`,
    how Spark evaluates the `%` the key columns use, and the two literal tables
    (region and nation) the generated rows refer to. */
module TpchTables {
  import opened Wrappers

  // ---------------------------------------------------------------------------
  // Table sizes

  /** `customer_count = row_count`. */
  function CustomerCount(rowCount: int): int { rowCount }

  /** `supplier_count = row_count // 10`. Python's `//` floors, which for a positive
      divisor is Dafny's Euclidean `/`. */
  function SupplierCount(rowCount: int): int { rowCount / 10 }

  /** `part_count = row_count // 5`. */
  function PartCount(rowCount: int): int { rowCount / 5 }

  /** `orders_count = row_count * 2`. */
  function OrdersCount(rowCount: int): int { rowCount * 2 }

  /** `lineitem_count = row_count * 4`. */
  function LineitemCount(rowCount: int): int { rowCount * 4 }

  /** `spark.range(n)` holds the ids `0 .. n-1`; it is empty when `n <= 0`. */
  predicate InRange(id: int, n: int) {
    0 <= id < n
  }

  /** For a positive `row_count` the tables grow in the order the notebook's
      comments promise: no more suppliers than parts (so fewer suppliers than
      customers), fewer parts than customers, more orders than customers and
      twice as many line items as orders. */
  lemma SizesOrdered(rowCount: int)
    requires rowCount > 0
    ensures 0 <= SupplierCount(rowCount) <= PartCount(rowCount) < CustomerCount(rowCount)
    ensures CustomerCount(rowCount) < OrdersCount(rowCount) < LineitemCount(rowCount)
    ensures LineitemCount(rowCount) == 2 * OrdersCount(rowCount)
  {
  }

  /** Which tables are empty: customers, orders and line items exist exactly when
      `row_count > 0`, parts when it is at least 5 and suppliers when it is at least 10. */
  lemma SizesNonEmpty(rowCount: int)
    ensures CustomerCount(rowCount) > 0 <==> rowCount > 0
    ensures OrdersCount(rowCount) > 0 <==> rowCount > 0
    ensures LineitemCount(rowCount) > 0 <==> rowCount > 0
    ensures PartCount(rowCount) > 0 <==> rowCount >= 5
    ensures SupplierCount(rowCount) > 0 <==> rowCount >= 10
  {
  }

  // ---------------------------------------------------------------------------
  // Spark's modulus

  /** Spark's `a % d` on a non-negative id: NULL (`None`) when `d` is 0, which is
      also where ANSI mode raises instead; otherwise the remainder, which takes the
      sign of the dividend and so is `a mod |d|`. */
  function SparkMod(a: nat, d: int): (r: Option<int>)
    ensures r.None? <==> d == 0
    ensures r.Some? ==> 0 <= r.value < (if d < 0 then -d else d)
  {
    if d == 0 then None else Some(a % d)
  }

  /** A key value names an existing row of a table of `count` rows with keys
      `0 .. count-1`. NULL names none. */
  predicate References(key: Option<int>, count: int) {
    key.Some? && 0 <= key.value < count
  }

  // ---------------------------------------------------------------------------
  // The literal region and nation tables

  datatype Region = Region(key: int, name: string)

  datatype Nation = Nation(key: int, name: string, regionKey: int)

  /** `regions_data`, without the comment column. */
  const Regions: seq<Region> := [
    Region(0, "AFRICA"),
    Region(1, "AMERICA"),
    Region(2, "ASIA"),
    Region(3, "EUROPE"),
    Region(4, "MIDDLE EAST")
  ]

  /** `nations_data`, without the comment column. */
  const Nations: seq<Nation> := [
    Nation(0, "ALGERIA", 0),
    Nation(1, "ARGENTINA", 1),
    Nation(2, "BRAZIL", 1),
    Nation(3, "CANADA", 1),
    Nation(4, "EGYPT", 4),
    Nation(5, "ETHIOPIA", 0),
    Nation(6, "FRANCE", 3),
    Nation(7, "GERMANY", 3),
    Nation(8, "INDIA", 2),
    Nation(9, "INDONESIA", 2),
    Nation(10, "IRAN", 4),
    Nation(11, "IRAQ", 4),
    Nation(12, "JAPAN", 2),
    Nation(13, "JORDAN", 4),
    Nation(14, "KENYA", 0),
    Nation(15, "MOROCCO", 0),
    Nation(16, "MOZAMBIQUE", 0),
    Nation(17, "PERU", 1),
    Nation(18, "CHINA", 2),
    Nation(19, "ROMANIA", 3),
    Nation(20, "SAUDI ARABIA", 4),
    Nation(21, "VIETNAM", 2),
    Nation(22, "RUSSIA", 3),
    Nation(23, "UNITED KINGDOM", 3),
    Nation(24, "UNITED STATES", 1)
  ]

  predicate IsRegionKey(k: int) {
    exists i :: 0 <= i < |Regions| && Regions[i].key == k
  }

  predicate IsNationKey(k: int) {
    exists i :: 0 <= i < |Nations| && Nations[i].key == k
  }

  /** Region `i` of the literal has key `i`, so the keys are distinct (the primary
      key holds) and they are exactly `0 .. 4`. */
  lemma RegionKeys()
    ensures forall i :: 0 <= i < |Regions| ==> Regions[i].key == i
    ensures forall k :: IsRegionKey(k) <==> 0 <= k < 5
  {
    forall k | 0 <= k < 5
      ensures IsRegionKey(k)
    {
      assert Regions[k].key == k;
    }
  }

  /** Nation `i` of the literal has key `i`, so the keys are distinct (the primary
      key holds) and they are exactly `0 .. 24`. */
  lemma NationKeys()
    ensures forall i :: 0 <= i < |Nations| ==> Nations[i].key == i
    ensures forall k :: IsNationKey(k) <==> 0 <= k < 25
  {
    forall k | 0 <= k < 25
      ensures IsNationKey(k)
    {
      assert Nations[k].key == k;
    }
  }

  /** `FOREIGN KEY (n_regionkey) REFERENCES region(r_regionkey)` holds: every nation's
      region key is one of the region keys. */
  lemma NationRegionsExist()
    ensures forall i :: 0 <= i < |Nations| ==> 0 <= Nations[i].regionKey < 5
    ensures forall i :: 0 <= i < |Nations| ==> IsRegionKey(Nations[i].regionKey)
  {
    RegionKeys();
  }
}
