/**
 * The statistics snapshot of the API server: totals over the table, one
 * aggregate per category, and the four-bucket price histogram. Each SQL
 * aggregate is a function over the sequence of rows; the per-category
 * dictionaries are filled by a loop over the distinct categories.
 * Rounding to two decimals is not modelled.
 */
module Stats {
  import opened Wrappers
  import opened Models
  import opened Crud

  // ---------- aggregates ----------

  /** The stock value of one row, `price * quantity`. */
  function ValueOf(p: Product): real {
    p.price * p.quantity as real
  }

  /** `SUM(price * quantity)`, 0 on an empty table and never negative when no row is. */
  function TotalValue(table: seq<Product>): (r: real)
    ensures table == [] ==> r == 0.0
    ensures (forall p :: p in table ==> p.price >= 0.0 && p.quantity >= 0) ==> r >= 0.0
  {
    if table == [] then 0.0
    else
      var init := table[..|table| - 1];
      var last := table[|table| - 1];
      assert forall p :: p in init ==> p in table;
      assert last.price >= 0.0 && last.quantity >= 0 ==> ValueOf(last) >= 0.0;
      TotalValue(init) + ValueOf(last)
  }

  /** `SUM(price)`, the numerator of `AVG(price)`. */
  function PriceSum(table: seq<Product>): real {
    if table == [] then 0.0 else PriceSum(table[..|table| - 1]) + table[|table| - 1].price
  }

  /** `AVG` as a sum over a count, 0 when there is nothing to average. */
  function Average(sum: real, count: nat): real {
    if count == 0 then 0.0 else sum / count as real
  }

  /** The rows of one category, in table order. */
  function InCategory(table: seq<Product>, c: string): (r: seq<Product>)
    ensures |r| <= |table|
    ensures forall p :: p in r ==> p.category == c
    ensures forall p :: multiset(r)[p] == if p.category == c then multiset(table)[p] else 0
  {
    if table == [] then []
    else
      var init := table[..|table| - 1];
      var last := table[|table| - 1];
      assert table == init + [last];
      if last.category == c then InCategory(init, c) + [last] else InCategory(init, c)
  }

  /** `COUNT(id) ... WHERE category = c`. */
  function CountIn(table: seq<Product>, c: string): nat {
    |InCategory(table, c)|
  }

  /** `SUM(quantity)` over the rows given; applied to `InCategory(table, c)` it is the per-category sum. */
  function QuantitySum(table: seq<Product>): int {
    if table == [] then 0 else QuantitySum(table[..|table| - 1]) + table[|table| - 1].quantity
  }

  /** One entry of `category_stats`. */
  datatype CategoryStats = CategoryStats(count: nat, totalValue: real, averagePrice: real, totalQuantity: int)

  /**
   * The entry of category `c`: its row count, never more than the table
   * holds and zero exactly when no row has the category, in which case every
   * aggregate is zero.
   */
  function CategoryStatsOf(table: seq<Product>, c: string): (r: CategoryStats)
    ensures r.count == CountIn(table, c) && r.count <= |table|
    ensures r.count == 0 <==> forall p :: p in table ==> p.category != c
    ensures r.count == 0 ==> r == CategoryStats(0, 0.0, 0.0, 0)
  {
    NoRowsInCategory(table, c);
    var rows := InCategory(table, c);
    CategoryStats(|rows|, TotalValue(rows), Average(PriceSum(rows), |rows|), QuantitySum(rows))
  }

  /** A category selects no row exactly when no row has it. */
  lemma {:induction false} NoRowsInCategory(table: seq<Product>, c: string)
    ensures InCategory(table, c) == [] <==> forall p :: p in table ==> p.category != c
  {
    var r := InCategory(table, c);
    if r == [] {
      forall p | p in table ensures p.category != c {
        assert multiset(r)[p] == 0;
      }
    } else {
      assert r[0] in r;
      assert multiset(r)[r[0]] > 0;
    }
  }

  // ---------- price histogram ----------

  /** The counts of `price_ranges`, under the keys "0-1000", "1000-5000", "5000-10000" and "10000+". */
  datatype PriceRanges = PriceRanges(upTo1000: nat, upTo5000: nat, upTo10000: nat, over10000: nat)

  /** Number of rows with `lo < price <= hi`; a missing bound does not restrict. */
  function CountPriced(table: seq<Product>, lo: Option<real>, hi: Option<real>): (n: nat)
    ensures n <= |table|
  {
    if table == [] then 0
    else
      var last := table[|table| - 1];
      var inRange := (lo.None? || last.price > lo.value) && (hi.None? || last.price <= hi.value);
      CountPriced(table[..|table| - 1], lo, hi) + if inRange then 1 else 0
  }

  /** `price_ranges`: the four counts, none larger than the table, and all zero on an empty one. */
  function PriceRangesOf(table: seq<Product>): (r: PriceRanges)
    ensures r.upTo1000 <= |table| && r.upTo5000 <= |table| && r.upTo10000 <= |table| && r.over10000 <= |table|
    ensures table == [] ==> r == PriceRanges(0, 0, 0, 0)
  {
    PriceRanges(
      CountPriced(table, None, Some(1000.0)),
      CountPriced(table, Some(1000.0), Some(5000.0)),
      CountPriced(table, Some(5000.0), Some(10000.0)),
      CountPriced(table, Some(10000.0), None))
  }

  function BucketTotal(r: PriceRanges): nat {
    r.upTo1000 + r.upTo5000 + r.upTo10000 + r.over10000
  }

  /** The buckets partition the table: every row is counted in exactly one. */
  lemma {:induction false} PriceRangesPartition(table: seq<Product>)
    ensures BucketTotal(PriceRangesOf(table)) == |table|
  {
    if table != [] {
      PriceRangesPartition(table[..|table| - 1]);
    }
  }

  /** The bucket a price falls in. */
  datatype Bucket = UpTo1000 | UpTo5000 | UpTo10000 | Over10000

  function BucketOf(price: real): (b: Bucket)
    ensures b == UpTo1000 <==> price <= 1000.0
    ensures b == UpTo5000 <==> 1000.0 < price <= 5000.0
    ensures b == UpTo10000 <==> 5000.0 < price <= 10000.0
    ensures b == Over10000 <==> price > 10000.0
  {
    if price <= 1000.0 then UpTo1000
    else if price <= 5000.0 then UpTo5000
    else if price <= 10000.0 then UpTo10000
    else Over10000
  }

  /** The histogram with one more row in bucket `b`. */
  function AddToBucket(r: PriceRanges, b: Bucket): PriceRanges {
    match b
    case UpTo1000 => r.(upTo1000 := r.upTo1000 + 1)
    case UpTo5000 => r.(upTo5000 := r.upTo5000 + 1)
    case UpTo10000 => r.(upTo10000 := r.upTo10000 + 1)
    case Over10000 => r.(over10000 := r.over10000 + 1)
  }

  /** Each row is counted in its own bucket and in no other. */
  lemma {:induction false} PriceRangesSnoc(table: seq<Product>, p: Product)
    ensures PriceRangesOf(table + [p]) == AddToBucket(PriceRangesOf(table), BucketOf(p.price))
  {
    assert (table + [p])[..|table|] == table;
  }

  // ---------- categories add up ----------

  /** The row counts of the categories listed, added up. */
  function SumCounts(table: seq<Product>, cats: seq<string>): nat {
    if cats == [] then 0 else CountIn(table, cats[0]) + SumCounts(table, cats[1..])
  }

  /** The stock values of the categories listed, added up. */
  function SumValues(table: seq<Product>, cats: seq<string>): real {
    if cats == [] then 0.0 else TotalValue(InCategory(table, cats[0])) + SumValues(table, cats[1..])
  }

  /** The rows whose category is one of `cats`. */
  function InCategories(table: seq<Product>, cats: set<string>): seq<Product> {
    if table == [] then []
    else
      var init := table[..|table| - 1];
      var last := table[|table| - 1];
      if last.category in cats then InCategories(init, cats) + [last] else InCategories(init, cats)
  }

  lemma {:induction false} TotalValueAppend(a: seq<Product>, b: seq<Product>)
    ensures TotalValue(a + b) == TotalValue(a) + TotalValue(b)
  {
    if b == [] {
      assert a + b == a;
    } else {
      assert (a + b)[..|a + b| - 1] == a + b[..|b| - 1];
      assert (a + b)[|a + b| - 1] == b[|b| - 1];
      TotalValueAppend(a, b[..|b| - 1]);
    }
  }

  /** Adding category `c` to the set adds exactly its rows. */
  lemma {:induction false} InCategoriesAdd(table: seq<Product>, cats: set<string>, c: string)
    requires c !in cats
    ensures |InCategories(table, cats + {c})| == |InCategories(table, cats)| + CountIn(table, c)
    ensures TotalValue(InCategories(table, cats + {c})) ==
              TotalValue(InCategories(table, cats)) + TotalValue(InCategory(table, c))
  {
    if table != [] {
      var init := table[..|table| - 1];
      var last := table[|table| - 1];
      InCategoriesAdd(init, cats, c);
      var a := InCategories(init, cats);
      var b := InCategory(init, c);
      if last.category == c {
        TotalValueAppend(InCategories(init, cats + {c}), [last]);
        TotalValueAppend(b, [last]);
      } else if last.category in cats {
        TotalValueAppend(InCategories(init, cats + {c}), [last]);
        TotalValueAppend(a, [last]);
      }
    }
  }

  lemma {:induction false} SumsOverDistinct(table: seq<Product>, cats: seq<string>)
    requires forall i, j :: 0 <= i < j < |cats| ==> cats[i] != cats[j]
    ensures SumCounts(table, cats) == |InCategories(table, set c | c in cats)|
    ensures SumValues(table, cats) == TotalValue(InCategories(table, set c | c in cats))
  {
    if cats == [] {
      assert (set c | c in cats) == {};
      InCategoriesNone(table);
    } else {
      var rest := cats[1..];
      DistinctTail(cats);
      SumsOverDistinct(table, rest);
      var others := set c | c in rest;
      InCategoriesAdd(table, others, cats[0]);
    }
  }

  /** The categories of a duplicate-free list are its head added to those of its tail, which is duplicate-free. */
  lemma {:induction false} DistinctTail(cats: seq<string>)
    requires cats != []
    requires forall i, j :: 0 <= i < j < |cats| ==> cats[i] != cats[j]
    ensures forall i, j :: 0 <= i < j < |cats| - 1 ==> cats[1..][i] != cats[1..][j]
    ensures (set c | c in cats) == (set c | c in cats[1..]) + {cats[0]}
    ensures cats[0] !in (set c | c in cats[1..])
  {
    assert forall i, j :: 0 <= i < j < |cats| - 1 ==> cats[1..][i] == cats[i + 1] && cats[1..][j] == cats[j + 1];
  }

  lemma {:induction false} InCategoriesNone(table: seq<Product>)
    ensures InCategories(table, {}) == []
  {
    if table != [] {
      InCategoriesNone(table[..|table| - 1]);
    }
  }

  /** When every row's category is in the set, all rows are selected. */
  lemma {:induction false} InCategoriesAll(table: seq<Product>, cats: set<string>)
    requires forall p :: p in table ==> p.category in cats
    ensures InCategories(table, cats) == table
  {
    if table != [] {
      var init := table[..|table| - 1];
      assert forall p :: p in init ==> p in table;
      InCategoriesAll(init, cats);
      assert table == init + [table[|table| - 1]];
    }
  }

  /**
   * The per-category counts add up to the number of rows, and the
   * per-category stock values add up to the total stock value.
   */
  lemma {:induction false} CategoriesAddUp(table: seq<Product>)
    ensures SumCounts(table, GetCategories(table)) == |table|
    ensures SumValues(table, GetCategories(table)) == TotalValue(table)
  {
    var cats := GetCategories(table);
    SumsOverDistinct(table, cats);
    InCategoriesAll(table, (set c | c in cats));
  }

  // ---------- the snapshot ----------

  /** The `/api/stats` response. */
  datatype Statistics = Statistics(
    totalProducts: nat,
    totalValue: real,
    averagePrice: real,
    categoriesCount: map<string, nat>,
    categoryStats: map<string, CategoryStats>,
    priceRanges: PriceRanges,
    totalCategories: nat)

  /** The set of categories that occur in the table. */
  function CategorySet(table: seq<Product>): set<string> {
    set p | p in table :: p.category
  }

  /**
   * `get_statistics`: the totals, one entry per category present in both
   * dictionaries (the count agreeing between them), and the histogram.
   * For every category its entry holds the count, stock value, average price
   * and quantity of exactly its rows; the histogram and the category counts
   * each add up to the number of rows; an empty table gives all zeros.
   */
  method GetStatistics(table: seq<Product>) returns (st: Statistics)
    ensures st.totalProducts == |table|
    ensures st.totalValue == TotalValue(table)
    ensures st.averagePrice == Average(PriceSum(table), |table|)
    ensures st.categoriesCount.Keys == st.categoryStats.Keys == CategorySet(table)
    ensures st.totalCategories == |CategorySet(table)|
    ensures forall c :: c in st.categoriesCount ==>
              && st.categoriesCount[c] == st.categoryStats[c].count == CountIn(table, c)
              && st.categoryStats[c] == CategoryStatsOf(table, c)
    ensures st.priceRanges == PriceRangesOf(table)
    ensures BucketTotal(st.priceRanges) == st.totalProducts
    ensures SumCounts(table, GetCategories(table)) == st.totalProducts
    ensures SumValues(table, GetCategories(table)) == st.totalValue
    ensures table == [] ==> st == Statistics(0, 0.0, 0.0, map[], map[], PriceRanges(0, 0, 0, 0), 0)
  {
    var totalProducts := |table|;
    var totalValue := TotalValue(table);
    var averagePrice := Average(PriceSum(table), |table|);

    var categories := GetCategories(table);
    var categoriesCount, categoryStats := TallyCategories(table, categories);
    CategoryKeys(table);

    st := Statistics(totalProducts, totalValue, averagePrice, categoriesCount, categoryStats,
                     PriceRangesOf(table), |categories|);
    PriceRangesPartition(table);
    CategoriesAddUp(table);
  }

  /**
   * The loop of `get_statistics` over the categories: both dictionaries get
   * one entry per category listed, holding that category's aggregates.
   */
  method TallyCategories(table: seq<Product>, categories: seq<string>)
    returns (categoriesCount: map<string, nat>, categoryStats: map<string, CategoryStats>)
    ensures categoriesCount.Keys == categoryStats.Keys == set c | c in categories
    ensures forall c :: c in categoriesCount ==>
              && categoriesCount[c] == categoryStats[c].count == CountIn(table, c)
              && categoryStats[c] == CategoryStatsOf(table, c)
  {
    categoriesCount := map[];
    categoryStats := map[];
    var i := 0;
    while i < |categories|
      invariant 0 <= i <= |categories|
      invariant categoriesCount.Keys == categoryStats.Keys == set c | c in categories[..i]
      invariant forall c :: c in categoriesCount ==>
                  && categoriesCount[c] == categoryStats[c].count == CountIn(table, c)
                  && categoryStats[c] == CategoryStatsOf(table, c)
    {
      var category := categories[i];
      var rows := InCategory(table, category);
      var count := |rows|;
      var catValue := TotalValue(rows);
      var catAverage := Average(PriceSum(rows), count);
      var catQuantity := QuantitySum(rows);
      categoriesCount := categoriesCount[category := count];
      categoryStats := categoryStats[category := CategoryStats(count, catValue, catAverage, catQuantity)];
      assert categories[..i + 1] == categories[..i] + [category];
      i := i + 1;
    }
    assert categories[..i] == categories;
  }

  /** The distinct categories are the categories of the table, each once. */
  lemma {:induction false} CategoryKeys(table: seq<Product>)
    ensures (set c | c in GetCategories(table)) == CategorySet(table)
    ensures |GetCategories(table)| == |CategorySet(table)|
  {
    var cats := GetCategories(table);
    assert (set c | c in cats) == CategorySet(table) by {
      forall c | c in CategorySet(table) ensures c in cats {
        var p :| p in table && p.category == c;
      }
    }
    DistinctSize(cats);
  }

  /** A sequence without repetitions has as many elements as its set. */
  lemma {:induction false} DistinctSize(s: seq<string>)
    requires forall i, j :: 0 <= i < j < |s| ==> s[i] != s[j]
    ensures |set c | c in s| == |s|
  {
    if s != [] {
      var rest := s[1..];
      DistinctSize(rest);
      assert (set c | c in s) == (set c | c in rest) + {s[0]};
      assert s[0] !in rest;
    }
  }

  /** Four sample prices, 500, 1500, 7000 and 20000, land one in each bucket. */
  lemma SamplePricesOnePerBucket(a: Product, b: Product, c: Product, d: Product)
    requires a.price == 500.0 && b.price == 1500.0 && c.price == 7000.0 && d.price == 20000.0
    ensures PriceRangesOf([a, b, c, d]) == PriceRanges(1, 1, 1, 1)
  {
    assert PriceRangesOf([]) == PriceRanges(0, 0, 0, 0);
    PriceRangesSnoc([], a);
    assert [] + [a] == [a];
    PriceRangesSnoc([a], b);
    assert [a] + [b] == [a, b];
    PriceRangesSnoc([a, b], c);
    assert [a, b] + [c] == [a, b, c];
    PriceRangesSnoc([a, b, c], d);
    assert [a, b, c] + [d] == [a, b, c, d];
  }
}
