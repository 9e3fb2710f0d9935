/**
 * The product query of the API server: filter the table, order the rows,
 * then cut out the requested window; and the list of distinct categories.
 * The table is the sequence of its rows. Offsets and limits follow SQLite:
 * a negative offset counts as 0 and a negative limit means no limit.
 */
module Crud {
  import opened Wrappers
  import opened Models

  // ---------- filtering ----------

  /**
   * The three optional filters; an empty category filters nothing, so with
   * no filter given every row matches.
   */
  predicate Matches(p: Product, category: Option<string>, minPrice: Option<real>, maxPrice: Option<real>)
    ensures (category.None? || category == Some("")) && minPrice.None? && maxPrice.None? ==>
              Matches(p, category, minPrice, maxPrice)
  {
    && (category.Some? && category.value != "" ==> p.category == category.value)
    && (minPrice.Some? ==> p.price >= minPrice.value)
    && (maxPrice.Some? ==> p.price <= maxPrice.value)
  }

  /** The rows that pass the filters, in table order. */
  function Filter(table: seq<Product>, category: Option<string>, minPrice: Option<real>,
                  maxPrice: Option<real>): (r: seq<Product>)
    ensures forall q :: q in r ==> Matches(q, category, minPrice, maxPrice)
    ensures forall q :: multiset(r)[q] == if Matches(q, category, minPrice, maxPrice) then multiset(table)[q] else 0
    ensures |r| <= |table|
  {
    if table == [] then []
    else
      var init := table[..|table| - 1];
      var last := table[|table| - 1];
      assert table == init + [last];
      var rest := Filter(init, category, minPrice, maxPrice);
      if Matches(last, category, minPrice, maxPrice) then rest + [last] else rest
  }

  // ---------- ordering ----------

  /** The `sort_by` choices; anything else orders by id. */
  datatype SortOrder = PriceAsc | PriceDesc | NameAsc | NewestFirst | IdAsc

  function SortOrderOf(sortBy: Option<string>): (o: SortOrder)
    ensures o == IdAsc <==> sortBy !in {Some("price_asc"), Some("price_desc"), Some("name"), Some("newest")}
    ensures o == NameAsc <==> sortBy == Some("name")
  {
    if sortBy == Some("price_asc") then PriceAsc
    else if sortBy == Some("price_desc") then PriceDesc
    else if sortBy == Some("name") then NameAsc
    else if sortBy == Some("newest") then NewestFirst
    else IdAsc
  }

  /** Lexicographic order on code points, the database's binary collation. */
  predicate StrLe(a: string, b: string) {
    a == [] || (b != [] && (a[0] < b[0] || (a[0] == b[0] && StrLe(a[1..], b[1..]))))
  }

  lemma {:induction false} StrLeTotal(a: string, b: string)
    ensures StrLe(a, b) || StrLe(b, a)
  {
    if a != [] && b != [] && a[0] == b[0] {
      StrLeTotal(a[1..], b[1..]);
    }
  }

  lemma {:induction false} StrLeTransitive(a: string, b: string, c: string)
    requires StrLe(a, b) && StrLe(b, c)
    ensures StrLe(a, c)
  {
    if a != [] && b != [] && c != [] && a[0] == b[0] && b[0] == c[0] {
      StrLeTransitive(a[1..], b[1..], c[1..]);
    }
  }

  /** `a` may come before `b` under the order. */
  predicate Precedes(o: SortOrder, a: Product, b: Product) {
    match o
    case PriceAsc => a.price <= b.price
    case PriceDesc => a.price >= b.price
    case NameAsc => StrLe(a.name, b.name)
    case NewestFirst => a.createdAt >= b.createdAt
    case IdAsc => a.id <= b.id
  }

  lemma PrecedesTotal(o: SortOrder, a: Product, b: Product)
    ensures Precedes(o, a, b) || Precedes(o, b, a)
  {
    if o == NameAsc {
      StrLeTotal(a.name, b.name);
    }
  }

  lemma PrecedesTransitive(o: SortOrder, a: Product, b: Product, c: Product)
    requires Precedes(o, a, b) && Precedes(o, b, c)
    ensures Precedes(o, a, c)
  {
    if o == NameAsc {
      StrLeTransitive(a.name, b.name, c.name);
    }
  }

  /** Each row may come before the next. */
  predicate SortedBy(o: SortOrder, s: seq<Product>) {
    forall i :: 0 <= i < |s| - 1 ==> Precedes(o, s[i], s[i + 1])
  }

  /** Each row may come before every later one. */
  predicate OrderedBy(o: SortOrder, s: seq<Product>) {
    forall i, j :: 0 <= i < j < |s| ==> Precedes(o, s[i], s[j])
  }

  function Insert(o: SortOrder, x: Product, s: seq<Product>): (r: seq<Product>)
    requires SortedBy(o, s)
    ensures SortedBy(o, r)
    ensures multiset(r) == multiset(s) + multiset{x}
    ensures |r| == |s| + 1 && (r[0] == x || (s != [] && r[0] == s[0]))
  {
    if s == [] || Precedes(o, x, s[0]) then [x] + s
    else
      PrecedesTotal(o, x, s[0]);
      assert s == [s[0]] + s[1..];
      [s[0]] + Insert(o, x, s[1..])
  }

  /** The rows in the order `o`; rows that tie keep their table order. */
  function Sort(o: SortOrder, s: seq<Product>): (r: seq<Product>)
    ensures SortedBy(o, r)
    ensures multiset(r) == multiset(s)
  {
    if s == [] then []
    else
      assert s == [s[0]] + s[1..];
      Insert(o, s[0], Sort(o, s[1..]))
  }

  lemma {:induction false} SortedIsOrdered(o: SortOrder, s: seq<Product>)
    requires SortedBy(o, s)
    ensures OrderedBy(o, s)
  {
    if |s| > 1 {
      SortedIsOrdered(o, s[1..]);
      forall j | 1 < j < |s| ensures Precedes(o, s[0], s[j]) {
        assert s[1..][j - 1] == s[j];
        PrecedesTransitive(o, s[0], s[1], s[j]);
      }
      forall i, j | 0 <= i < j < |s| ensures Precedes(o, s[i], s[j]) {
        if i > 0 {
          assert s[1..][i - 1] == s[i] && s[1..][j - 1] == s[j];
        }
      }
    }
  }

  // ---------- windowing ----------

  /**
   * `OFFSET skip LIMIT limit`: a run of consecutive rows of `s`, at most
   * `limit` of them when the limit is not negative.
   */
  function Window(s: seq<Product>, skip: int, limit: int): (r: seq<Product>)
    ensures |r| <= |s|
    ensures limit >= 0 ==> |r| <= limit
    ensures forall q :: q in r ==> q in s
  {
    var lo := if skip <= 0 then 0 else Min(skip, |s|);
    var hi := if limit < 0 then |s| else Min(lo + limit, |s|);
    s[lo..hi]
  }

  /**
   * `get_products`: filter, order, then window. No more rows come back than
   * the table has, nor than the limit allows, and each passes the filters.
   */
  function GetProducts(table: seq<Product>, skip: int, limit: int, category: Option<string>,
                       minPrice: Option<real>, maxPrice: Option<real>, sortBy: Option<string>): (r: seq<Product>)
    ensures |r| <= |table|
    ensures limit >= 0 ==> |r| <= limit
    ensures forall q :: q in r ==> Matches(q, category, minPrice, maxPrice)
  {
    var matching := Filter(table, category, minPrice, maxPrice);
    var ordered := Sort(SortOrderOf(sortBy), matching);
    assert |ordered| == |matching| by {
      assert |multiset(ordered)| == |multiset(matching)|;
    }
    assert forall q :: q in ordered ==> q in matching by {
      forall q | q in ordered ensures q in matching {
        assert q in multiset(ordered);
      }
    }
    Window(ordered, skip, limit)
  }

  /**
   * Before the window is cut, the ordered rows are exactly the matching rows
   * of the table, each as often as it occurs there.
   */
  lemma {:induction false} OrderedRowsAreTheMatches(table: seq<Product>, category: Option<string>,
                                 minPrice: Option<real>, maxPrice: Option<real>, sortBy: Option<string>)
    ensures forall q :: multiset(Sort(SortOrderOf(sortBy), Filter(table, category, minPrice, maxPrice)))[q] ==
              if Matches(q, category, minPrice, maxPrice) then multiset(table)[q] else 0
  {
    var matching := Filter(table, category, minPrice, maxPrice);
    assert multiset(Sort(SortOrderOf(sortBy), matching)) == multiset(matching);
  }

  /**
   * The result is the window from `skip` to `skip + limit` of the ordered
   * matching rows, cut at their end; it holds at most `limit` rows.
   */
  lemma {:induction false} GetProductsWindow(table: seq<Product>, skip: int, limit: int, category: Option<string>,
                          minPrice: Option<real>, maxPrice: Option<real>, sortBy: Option<string>)
    requires skip >= 0 && limit >= 0
    ensures var ordered := Sort(SortOrderOf(sortBy), Filter(table, category, minPrice, maxPrice));
      && GetProducts(table, skip, limit, category, minPrice, maxPrice, sortBy) ==
           ordered[Min(skip, |ordered|) .. Min(skip + limit, |ordered|)]
      && |GetProducts(table, skip, limit, category, minPrice, maxPrice, sortBy)| <= limit
  {
    WindowBounds(Sort(SortOrderOf(sortBy), Filter(table, category, minPrice, maxPrice)), skip, limit);
  }

  lemma {:induction false} WindowBounds(s: seq<Product>, skip: int, limit: int)
    requires skip >= 0 && limit >= 0
    ensures Window(s, skip, limit) == s[Min(skip, |s|) .. Min(skip + limit, |s|)]
    ensures |Window(s, skip, limit)| <= limit
  {
  }

  /** With no offset and a limit no smaller than the table, every matching row is returned. */
  lemma {:induction false} GetProductsComplete(table: seq<Product>, limit: int, category: Option<string>,
                            minPrice: Option<real>, maxPrice: Option<real>, sortBy: Option<string>)
    requires limit >= |table|
    ensures forall q :: multiset(GetProducts(table, 0, limit, category, minPrice, maxPrice, sortBy))[q] ==
              if Matches(q, category, minPrice, maxPrice) then multiset(table)[q] else 0
  {
    var matching := Filter(table, category, minPrice, maxPrice);
    var ordered := Sort(SortOrderOf(sortBy), matching);
    assert |ordered| == |matching| by {
      assert |multiset(ordered)| == |multiset(matching)|;
    }
    assert GetProducts(table, 0, limit, category, minPrice, maxPrice, sortBy) == ordered[0..|ordered|];
    assert ordered[0..|ordered|] == ordered;
  }

  /**
   * A negative offset counts as no offset, and a negative limit returns every
   * row from the offset on.
   */
  lemma {:induction false} WindowNegatives(s: seq<Product>, skip: int, limit: int)
    ensures skip < 0 ==> Window(s, skip, limit) == Window(s, 0, limit)
    ensures limit < 0 ==> Window(s, skip, limit) == s[Min(if skip < 0 then 0 else skip, |s|)..]
  {
  }

  /** Any window of an ordered sequence is ordered. */
  lemma {:induction false} WindowOrdered(o: SortOrder, s: seq<Product>, skip: int, limit: int)
    requires OrderedBy(o, s)
    ensures OrderedBy(o, Window(s, skip, limit))
  {
    var r := Window(s, skip, limit);
    var lo := if skip <= 0 then 0 else Min(skip, |s|);
    forall i, j | 0 <= i < j < |r| ensures Precedes(o, r[i], r[j]) {
      assert r[i] == s[lo + i] && r[j] == s[lo + j];
    }
  }

  /**
   * The rows come in the order `sort_by` asks for: by price up or down, by
   * name, newest first, and by id for any other value or none at all.
   * Rows that tie may come in either order.
   */
  lemma {:induction false} GetProductsOrdered(table: seq<Product>, skip: int, limit: int, category: Option<string>,
                           minPrice: Option<real>, maxPrice: Option<real>, sortBy: Option<string>)
    ensures var r := GetProducts(table, skip, limit, category, minPrice, maxPrice, sortBy);
      && (sortBy == Some("price_asc") ==> forall i, j :: 0 <= i < j < |r| ==> r[i].price <= r[j].price)
      && (sortBy == Some("price_desc") ==> forall i, j :: 0 <= i < j < |r| ==> r[i].price >= r[j].price)
      && (sortBy == Some("name") ==> forall i, j :: 0 <= i < j < |r| ==> StrLe(r[i].name, r[j].name))
      && (sortBy == Some("newest") ==> forall i, j :: 0 <= i < j < |r| ==> r[i].createdAt >= r[j].createdAt)
      && (sortBy !in {Some("price_asc"), Some("price_desc"), Some("name"), Some("newest")} ==>
            forall i, j :: 0 <= i < j < |r| ==> r[i].id <= r[j].id)
  {
    var o := SortOrderOf(sortBy);
    var ordered := Sort(o, Filter(table, category, minPrice, maxPrice));
    SortedIsOrdered(o, ordered);
    WindowOrdered(o, ordered, skip, limit);
  }

  // ---------- categories ----------

  /**
   * `get_categories`: each category of the table once. The database leaves
   * the order open; the model lists them in order of first appearance.
   */
  function GetCategories(table: seq<Product>): (cats: seq<string>)
    ensures forall i, j :: 0 <= i < j < |cats| ==> cats[i] != cats[j]
    ensures forall c :: c in cats <==> exists p :: p in table && p.category == c
  {
    if table == [] then []
    else
      var init := table[..|table| - 1];
      var last := table[|table| - 1];
      assert table == init + [last];
      var cats := GetCategories(init);
      if last.category in cats then cats else cats + [last.category]
  }
}
