/** The generated columns of the TPC-H seeding notebook, each a function of the
    row's `id` (and of `row_count` where a key refers to another table). The
    `when(...).when(...).otherwise(...)` chains are `Cascade`s over `id % k`. */
module TpchColumns {
  import opened Wrappers
  import opened Decimal
  import opened TpchTables

  /** `when(key == 0, b[0]).when(key == 1, b[1]) ... .otherwise(o)`: the first branch
      whose number equals `key`, or `otherwise` when none does. */
  function Cascade(key: int, branches: seq<string>, otherwise: string): string
    decreases |branches|
  {
    if |branches| == 0 then otherwise
    else if key == 0 then branches[0]
    else Cascade(key - 1, branches[1..], otherwise)
  }

  /** A cascade is a table lookup: branch `key` when there is one, else `otherwise`. */
  lemma {:induction false} CascadeLookup(key: int, branches: seq<string>, otherwise: string)
    ensures 0 <= key < |branches| ==> Cascade(key, branches, otherwise) == branches[key]
    ensures (key < 0 || key >= |branches|) ==> Cascade(key, branches, otherwise) == otherwise
    decreases |branches|
  {
    if |branches| > 0 && key != 0 {
      CascadeLookup(key - 1, branches[1..], otherwise);
    }
  }

  // ---------------------------------------------------------------------------
  // customer

  const MktSegments: seq<string> := ["AUTOMOBILE", "BUILDING", "FURNITURE", "MACHINERY"]

  /** `c_nationkey = id % 25`; the supplier's `s_nationkey` is the same expression. */
  function NationKeyOf(id: nat): int { id % 25 }

  /** `c_mktsegment`. */
  function MktSegment(id: nat): string {
    Cascade(id % 5, MktSegments, "HOUSEHOLD")
  }

  /** HOUSEHOLD is the segment of exactly the ids with `id % 5 == 4`; the other four
      segments are read from the list. */
  lemma MktSegmentHousehold(id: nat)
    ensures MktSegment(id) == "HOUSEHOLD" <==> id % 5 == 4
    ensures id % 5 < 4 ==> MktSegment(id) == MktSegments[id % 5]
  {
    CascadeLookup(id % 5, MktSegments, "HOUSEHOLD");
    if id % 5 < 4 {
      assert MktSegments[id % 5][0] != 'H';
    }
  }

  // ---------------------------------------------------------------------------
  // part

  const MfgrBranches: seq<string> := ["Manufacturer#1", "Manufacturer#2", "Manufacturer#3", "Manufacturer#4"]

  /** `p_mfgr`: Manufacturer#1 .. Manufacturer#5. */
  function Mfgr(id: nat): string {
    Cascade(id % 5, MfgrBranches, "Manufacturer#5")
  }

  const BrandBranches: seq<string> :=
    ["Brand#10", "Brand#11", "Brand#12", "Brand#13", "Brand#14", "Brand#15", "Brand#16", "Brand#17", "Brand#18"]

  /** `p_brand`: Brand#10 .. Brand#19. */
  function Brand(id: nat): string {
    Cascade(id % 10, BrandBranches, "Brand#19")
  }

  /** The manufacturer number is `id % 5 + 1` and the brand number `10 + id % 10`. */
  lemma MfgrBrandNumbers(id: nat)
    ensures Mfgr(id) == "Manufacturer#" + Digits(id % 5 + 1)
    ensures Brand(id) == "Brand#" + Digits(10 + id % 10)
  {
    MfgrNumber(id % 5);
    BrandNumber(id % 10);
  }

  lemma MfgrNumber(k: nat)
    requires k < 5
    ensures Cascade(k, MfgrBranches, "Manufacturer#5") == "Manufacturer#" + Digits(k + 1)
  {
    CascadeLookup(k, MfgrBranches, "Manufacturer#5");
    assert Digits(k + 1) == [DigitChar(k + 1)];
    assert (MfgrBranches + ["Manufacturer#5"])[k] == "Manufacturer#" + [DigitChar(k + 1)];
  }

  lemma BrandNumber(d: nat)
    requires d < 10
    ensures Cascade(d, BrandBranches, "Brand#19") == "Brand#" + Digits(10 + d)
  {
    CascadeLookup(d, BrandBranches, "Brand#19");
    assert Digits(10 + d) == ['1', DigitChar(d)] by {
      assert (10 + d) / 10 == 1 && (10 + d) % 10 == d;
    }
    BrandName(d);
  }

  lemma BrandName(d: nat)
    requires d < 10
    ensures (BrandBranches + ["Brand#19"])[d] == "Brand#" + ['1', DigitChar(d)]
  {
    var names := BrandBranches + ["Brand#19"];
    var c := DigitChar(d);
    assert c == "0123456789"[d];
    if d < 5 {
      if d == 0 { assert names[d] == "Brand#10"; }
      else if d == 1 { assert names[d] == "Brand#11"; }
      else if d == 2 { assert names[d] == "Brand#12"; }
      else if d == 3 { assert names[d] == "Brand#13"; }
      else { assert names[d] == "Brand#14"; }
    } else {
      if d == 5 { assert names[d] == "Brand#15"; }
      else if d == 6 { assert names[d] == "Brand#16"; }
      else if d == 7 { assert names[d] == "Brand#17"; }
      else if d == 8 { assert names[d] == "Brand#18"; }
      else { assert names[d] == "Brand#19"; }
    }
  }

  /** The six part types, in the order the `p_type` chain repeats them. */
  const TypeCycle: seq<string> := ["STANDARD", "SMALL", "MEDIUM", "LARGE", "ECONOMY", "PROMO"]

  /** `p_type`: 24 branches on `id % 25` cycling through the six types, and STANDARD
      for the 25th value. */
  function PartType(id: nat): string {
    Cascade(id % 25, TypeCycle + TypeCycle + TypeCycle + TypeCycle, "STANDARD")
  }

  /** The type is the cycle read at `(id % 25) % 6`. The cycle restarts every 25 ids,
      so this is not `id % 6` (id 25 is STANDARD where `id % 6` would give SMALL). */
  lemma PartTypeCycle(id: nat)
    ensures PartType(id) == TypeCycle[(id % 25) % 6]
  {
    var k := id % 25;
    var b := TypeCycle + TypeCycle + TypeCycle + TypeCycle;
    CascadeLookup(k, b, "STANDARD");
    if k < 24 {
      CycleIndex(k);
    }
  }

  lemma CycleIndex(k: nat)
    requires k < 24
    ensures (TypeCycle + TypeCycle + TypeCycle + TypeCycle)[k] == TypeCycle[k % 6]
  {
  }

  /** `p_size = id % 50 + 1`. */
  function PartSize(id: nat): int { id % 50 + 1 }

  /** `p_container`. */
  function Container(id: nat): string {
    Cascade(id % 6, ["SM CASE", "SM BOX", "SM PACK", "SM PKG", "LG CASE"], "LG BOX")
  }

  // ---------------------------------------------------------------------------
  // orders

  /** `o_custkey = id % customer_count`. */
  function OrderCustKey(id: nat, rowCount: int): Option<int> {
    SparkMod(id, CustomerCount(rowCount))
  }

  /** `o_orderstatus`: F, O, P on `id % 3`. */
  function OrderStatus(id: nat): string {
    Cascade(id % 3, ["F", "O"], "P")
  }

  /** `o_orderpriority`. */
  function OrderPriority(id: nat): string {
    Cascade(id % 5, ["1-URGENT", "2-HIGH", "3-MEDIUM", "4-NOT SPECIFIED"], "5-LOW")
  }

  /** `o_shippriority = id % 5 + 1`. */
  function ShipPriority(id: nat): int { id % 5 + 1 }

  /** `o_timestamp` is NULL on `id % 7 == 0`; otherwise it is a random time, which is
      not modelled, only whether it is present. */
  function HasTimestamp(id: nat): bool { id % 7 != 0 }

  /** The priority names are numbered by the ship priority. */
  lemma OrderPriorityNumbered(id: nat)
    ensures OrderPriority(id)[0] == DigitChar(ShipPriority(id))
  {
    CascadeLookup(id % 5, ["1-URGENT", "2-HIGH", "3-MEDIUM", "4-NOT SPECIFIED"], "5-LOW");
  }

  // ---------------------------------------------------------------------------
  // lineitem

  /** `l_orderkey = id % orders_count`. */
  function LineOrderKey(id: nat, rowCount: int): Option<int> {
    SparkMod(id, OrdersCount(rowCount))
  }

  /** `l_partkey = id % part_count`. */
  function LinePartKey(id: nat, rowCount: int): Option<int> {
    SparkMod(id, PartCount(rowCount))
  }

  /** `l_suppkey = id % supplier_count`. */
  function LineSuppKey(id: nat, rowCount: int): Option<int> {
    SparkMod(id, SupplierCount(rowCount))
  }

  /** `l_linenumber = id % 7 + 1`. */
  function LineNumber(id: nat): int { id % 7 + 1 }

  /** `l_returnflag`. */
  function ReturnFlag(id: nat): string {
    Cascade(id % 3, ["A", "N"], "R")
  }

  /** `l_linestatus`. */
  function LineStatus(id: nat): string {
    Cascade(id % 2, ["F"], "O")
  }

  /** `l_shipinstruct`. */
  function ShipInstruct(id: nat): string {
    Cascade(id % 4, ["DELIVER IN PERSON", "COLLECT COD", "TAKE BACK RETURN"], "NONE")
  }

  const ShipModes: seq<string> := ["AIR", "AIR REG", "RAIL", "SHIP", "TRUCK", "MAIL", "FOB"]

  /** `l_shipmode`. */
  function ShipMode(id: nat): string {
    Cascade(id % 7, ShipModes[..6], "FOB")
  }

  /** The ship mode is the mode list read at `id % 7`: the line's number minus one. */
  lemma ShipModeByLine(id: nat)
    ensures ShipMode(id) == ShipModes[id % 7]
    ensures ShipMode(id) == ShipModes[LineNumber(id) - 1]
  {
    CascadeLookup(id % 7, ShipModes[..6], "FOB");
  }

  /** Each of the short categorical columns takes one of its listed values, chosen by
      `id` modulo the number of values. */
  lemma CategoricalLookups(id: nat)
    ensures Container(id) == ["SM CASE", "SM BOX", "SM PACK", "SM PKG", "LG CASE", "LG BOX"][id % 6]
    ensures OrderStatus(id) == ["F", "O", "P"][id % 3]
    ensures ReturnFlag(id) == ["A", "N", "R"][id % 3]
    ensures LineStatus(id) == ["F", "O"][id % 2]
    ensures ShipInstruct(id) == ["DELIVER IN PERSON", "COLLECT COD", "TAKE BACK RETURN", "NONE"][id % 4]
  {
    CascadeLookup(id % 6, ["SM CASE", "SM BOX", "SM PACK", "SM PKG", "LG CASE"], "LG BOX");
    CascadeLookup(id % 3, ["F", "O"], "P");
    CascadeLookup(id % 3, ["A", "N"], "R");
    CascadeLookup(id % 2, ["F"], "O");
    CascadeLookup(id % 4, ["DELIVER IN PERSON", "COLLECT COD", "TAKE BACK RETURN"], "NONE");
  }

  /** The bounded columns stay in their ranges, and every value of each range is
      taken (at the id one below it). */
  lemma BoundedColumns(id: nat)
    ensures 1 <= PartSize(id) <= 50
    ensures 1 <= ShipPriority(id) <= 5
    ensures 1 <= LineNumber(id) <= 7
    ensures id < 50 ==> PartSize(id) == id + 1
    ensures id < 5 ==> ShipPriority(id) == id + 1
    ensures id < 7 ==> LineNumber(id) == id + 1
  {
  }

  /** A timestamp is missing exactly on every seventh order, the ones whose id is a
      multiple of 7. */
  function MissingTimestamps(n: nat): nat {
    if n == 0 then 0 else MissingTimestamps(n - 1) + (if HasTimestamp(n - 1) then 0 else 1)
  }

  /** Of the first `n` orders, `ceil(n / 7)` have no timestamp. */
  lemma {:induction false} MissingTimestampCount(n: nat)
    ensures MissingTimestamps(n) == (n + 6) / 7
  {
    if n > 0 {
      MissingTimestampCount(n - 1);
      if (n - 1) % 7 == 0 {
        assert (n + 6) / 7 == (n + 5) / 7 + 1;
      } else {
        assert (n + 6) / 7 == (n + 5) / 7;
      }
    }
  }
}
