/** The analysis stage: total revenue, mean price, the best-selling product
    and the sales per category of a cleaned table. Pure functions. */
module Analyzer {
  import opened Table

  datatype AnalysisError = EmptyDataset

  datatype Result<+T> = Success(value: T) | Failure(error: AnalysisError)

  // ---------------------------------------------------------------------
  // Total revenue and mean price
  // ---------------------------------------------------------------------

  /** `df['price'].sum()`: 0 on an empty table. */
  function TotalRevenue(rows: seq<Row>): (t: real)
    ensures (forall i :: 0 <= i < |rows| ==> rows[i].price >= 0.0) ==> t >= 0.0
  {
    if rows == [] then 0.0 else rows[0].price + TotalRevenue(rows[1..])
  }

  lemma {:induction false} TotalRevenueConcat(a: seq<Row>, b: seq<Row>)
    ensures TotalRevenue(a + b) == TotalRevenue(a) + TotalRevenue(b)
  {
    if a != [] {
      assert (a + b)[0] == a[0];
      assert (a + b)[1..] == a[1..] + b;
      TotalRevenueConcat(a[1..], b);
    } else {
      assert a + b == b;
    }
  }

  /** Taking one row out of the table takes its price out of the total. */
  lemma {:induction false} TotalRevenueRemove(b: seq<Row>, k: nat)
    requires k < |b|
    ensures TotalRevenue(b) == b[k].price + TotalRevenue(b[..k] + b[k + 1..])
  {
    var left, right := b[..k], b[k + 1..];
    assert b == left + ([b[k]] + right);
    TotalRevenueConcat(left, [b[k]] + right);
    assert ([b[k]] + right)[1..] == right;
    TotalRevenueConcat(left, right);
  }

  /** Taking the first element out of one of two permutations of each other,
      and the same value out of the other, leaves permutations. */
  lemma RemoveMatching<T>(a: seq<T>, b: seq<T>, k: nat)
    requires multiset(a) == multiset(b) && a != [] && k < |b| && b[k] == a[0]
    ensures multiset(a[1..]) == multiset(b[..k] + b[k + 1..])
  {
    var x := a[0];
    assert b == b[..k] + [x] + b[k + 1..];
    assert a == [x] + a[1..];
    assert multiset(b) == multiset(b[..k]) + multiset{x} + multiset(b[k + 1..]);
    assert multiset(b[..k] + b[k + 1..]) == multiset(b[..k]) + multiset(b[k + 1..]);
    assert multiset(a) == multiset{x} + multiset(a[1..]);
    assert multiset(a[1..]) == multiset(a) - multiset{x};
    assert multiset(b[..k] + b[k + 1..]) == multiset(b) - multiset{x};
  }

  /** The total does not depend on the order of the rows. */
  lemma {:induction false} TotalRevenuePermutation(a: seq<Row>, b: seq<Row>)
    requires multiset(a) == multiset(b)
    ensures TotalRevenue(a) == TotalRevenue(b)
    decreases |a|
  {
    if a == [] {
      assert |multiset(b)| == 0;
    } else {
      var x := a[0];
      assert x in multiset(b);
      var k :| 0 <= k < |b| && b[k] == x;
      var rest := b[..k] + b[k + 1..];
      RemoveMatching(a, b, k);
      TotalRevenuePermutation(a[1..], rest);
      TotalRevenueRemove(b, k);
    }
  }

  /** `df['price'].mean()` of a non-empty table. */
  function AveragePrice(rows: seq<Row>): (mean: real)
    requires |rows| > 0
    ensures mean * (|rows| as real) == TotalRevenue(rows)
  {
    TotalRevenue(rows) / (|rows| as real)
  }

  // ---------------------------------------------------------------------
  // Best-selling product: `df['product'].mode()[0]`
  // ---------------------------------------------------------------------

  /** The number of rows that sell the given product. */
  function Count(rows: seq<Row>, product: string): nat
  {
    if rows == [] then 0
    else (if rows[0].product == product then 1 else 0) + Count(rows[1..], product)
  }

  /** Code-point lexicographic order on strings, as Python compares them. */
  predicate StrLe(a: string, b: string)
  {
    a == [] || (b != [] && (a[0] < b[0] || (a[0] == b[0] && StrLe(a[1..], b[1..]))))
  }

  lemma {:induction false} StrLeRefl(a: string)
    ensures StrLe(a, a)
  {
    if a != [] {
      StrLeRefl(a[1..]);
    }
  }

  lemma {:induction false} StrLeTotal(a: string, b: string)
    ensures StrLe(a, b) || StrLe(b, a)
  {
    if a != [] && b != [] && a[0] == b[0] {
      StrLeTotal(a[1..], b[1..]);
    }
  }

  lemma {:induction false} StrLeTrans(a: string, b: string, c: string)
    requires StrLe(a, b) && StrLe(b, c)
    ensures StrLe(a, c)
  {
    if a != [] && a[0] == b[0] && b[0] == c[0] {
      StrLeTrans(a[1..], b[1..], c[1..]);
    }
  }

  /** Among the candidates, one of maximal count, the least one among ties. */
  function PickBest(candidates: seq<string>, rows: seq<Row>): (best: string)
    requires |candidates| > 0
    ensures best in candidates
    ensures forall q :: q in candidates ==> Count(rows, q) <= Count(rows, best)
    ensures forall q :: q in candidates && Count(rows, q) == Count(rows, best) ==> StrLe(best, q)
    decreases |candidates|
  {
    var p := candidates[0];
    if |candidates| == 1 then
      StrLeRefl(p);
      p
    else
      var b := PickBest(candidates[1..], rows);
      assert forall q :: q in candidates ==> q == p || q in candidates[1..];
      if Count(rows, p) > Count(rows, b) || (Count(rows, p) == Count(rows, b) && StrLe(p, b)) then
        StrLeRefl(p);
        assert forall q :: q in candidates[1..] && Count(rows, q) == Count(rows, p) ==> StrLe(p, q) by {
          forall q | q in candidates[1..] && Count(rows, q) == Count(rows, p) ensures StrLe(p, q) {
            StrLeTrans(p, b, q);
          }
        }
        p
      else
        StrLeTotal(p, b);
        b
  }

  function Products(rows: seq<Row>): (ps: seq<string>)
    ensures |ps| == |rows|
    ensures forall i :: 0 <= i < |rows| ==> ps[i] == rows[i].product
  {
    seq(|rows|, i requires 0 <= i < |rows| => rows[i].product)
  }

  /** The best-selling product of a non-empty table: a product of the table
      whose count no other product exceeds, and the least such product in
      string order, since `mode()` returns its modes sorted. */
  function BestSellingProduct(rows: seq<Row>): (best: string)
    requires |rows| > 0
    ensures exists i :: 0 <= i < |rows| && rows[i].product == best
    ensures forall i :: 0 <= i < |rows| ==> Count(rows, rows[i].product) <= Count(rows, best)
    ensures forall i :: 0 <= i < |rows| && Count(rows, rows[i].product) == Count(rows, best) ==>
              StrLe(best, rows[i].product)
  {
    var ps := Products(rows);
    assert forall i :: 0 <= i < |rows| ==> ps[i] in ps;
    PickBest(ps, rows)
  }

  // ---------------------------------------------------------------------
  // Sales by category: `groupby('category')['price'].sum().sort_values(ascending=False)`
  // ---------------------------------------------------------------------

  datatype CategorySales = CategorySales(category: string, sales: real)

  /** The sum of the prices of the rows in the given category. */
  function CategorySum(rows: seq<Row>, category: string): real
  {
    if rows == [] then 0.0
    else (if rows[0].category == category then rows[0].price else 0.0) + CategorySum(rows[1..], category)
  }

  function CategorySet(rows: seq<Row>): set<string>
  {
    set r | r in rows :: r.category
  }

  /** The distinct categories of the table, each once. */
  function Categories(rows: seq<Row>): (cs: seq<string>)
    ensures forall c :: c in cs <==> c in CategorySet(rows)
    ensures forall i, j :: 0 <= i < j < |cs| ==> cs[i] != cs[j]
  {
    if rows == [] then []
    else
      var rest := Categories(rows[1..]);
      assert forall c :: c in CategorySet(rows) <==> c == rows[0].category || c in CategorySet(rows[1..]) by {
        assert rows == [rows[0]] + rows[1..];
        forall r | r in rows[1..] ensures r in rows { }
      }
      if rows[0].category in rest then rest else [rows[0].category] + rest
  }

  /** One entry per given category with that category's sum. */
  function Entries(cs: seq<string>, rows: seq<Row>): (es: seq<CategorySales>)
    ensures |es| == |cs|
    ensures forall i :: 0 <= i < |cs| ==> es[i] == CategorySales(cs[i], CategorySum(rows, cs[i]))
  {
    if cs == [] then [] else [CategorySales(cs[0], CategorySum(rows, cs[0]))] + Entries(cs[1..], rows)
  }

  function SumSales(es: seq<CategorySales>): real
  {
    if es == [] then 0.0 else es[0].sales + SumSales(es[1..])
  }

  function Keys(es: seq<CategorySales>): set<string>
  {
    set e | e in es :: e.category
  }

  predicate DistinctKeys(es: seq<CategorySales>)
  {
    forall i, j :: 0 <= i < j < |es| ==> es[i].category != es[j].category
  }

  predicate NonIncreasing(es: seq<CategorySales>)
  {
    forall i, j :: 0 <= i < j < |es| ==> es[i].sales >= es[j].sales
  }

  lemma SumSalesCons(e: CategorySales, es: seq<CategorySales>)
    ensures SumSales([e] + es) == e.sales + SumSales(es)
  {
    assert ([e] + es)[1..] == es;
  }

  lemma CategorySumCons(r: Row, rest: seq<Row>, c: string)
    ensures CategorySum([r] + rest, c) == (if r.category == c then r.price else 0.0) + CategorySum(rest, c)
  {
    assert ([r] + rest)[0] == r;
    assert ([r] + rest)[1..] == rest;
  }

  // The partition of the total by category.

  lemma {:induction false} EntriesSplit(cs: seq<string>, r: Row, rest: seq<Row>)
    ensures SumSales(Entries(cs, [r] + rest)) == SumSales(Entries(cs, [r])) + SumSales(Entries(cs, rest))
  {
    if cs != [] {
      EntriesSplit(cs[1..], r, rest);
      CategorySumCons(r, rest, cs[0]);
      CategorySumCons(r, [], cs[0]);
      assert [r] + [] == [r];
      SumSalesCons(CategorySales(cs[0], CategorySum([r] + rest, cs[0])), Entries(cs[1..], [r] + rest));
      SumSalesCons(CategorySales(cs[0], CategorySum([r], cs[0])), Entries(cs[1..], [r]));
      SumSalesCons(CategorySales(cs[0], CategorySum(rest, cs[0])), Entries(cs[1..], rest));
    }
  }

  lemma {:induction false} EntriesOfRow(cs: seq<string>, r: Row)
    requires forall i, j :: 0 <= i < j < |cs| ==> cs[i] != cs[j]
    ensures SumSales(Entries(cs, [r])) == if r.category in cs then r.price else 0.0
  {
    if cs != [] {
      assert r.category in cs <==> r.category == cs[0] || r.category in cs[1..];
      EntriesOfRow(cs[1..], r);
      CategorySumCons(r, [], cs[0]);
      assert [r] + [] == [r];
      SumSalesCons(CategorySales(cs[0], CategorySum([r], cs[0])), Entries(cs[1..], [r]));
      if r.category == cs[0] {
        assert r.category !in cs[1..];
      }
    }
  }

  lemma {:induction false} EntriesOfEmpty(cs: seq<string>)
    ensures SumSales(Entries(cs, [])) == 0.0
  {
    if cs != [] {
      EntriesOfEmpty(cs[1..]);
      SumSalesCons(CategorySales(cs[0], 0.0), Entries(cs[1..], []));
    }
  }

  /** Summing the entries of distinct categories that cover every row gives
      back the total: the category groups partition the revenue. */
  lemma {:induction false} EntriesPartitionTotal(cs: seq<string>, rows: seq<Row>)
    requires forall i, j :: 0 <= i < j < |cs| ==> cs[i] != cs[j]
    requires forall i :: 0 <= i < |rows| ==> rows[i].category in cs
    ensures SumSales(Entries(cs, rows)) == TotalRevenue(rows)
    decreases |rows|
  {
    if rows == [] {
      EntriesOfEmpty(cs);
    } else {
      assert rows == [rows[0]] + rows[1..];
      EntriesSplit(cs, rows[0], rows[1..]);
      EntriesOfRow(cs, rows[0]);
      EntriesPartitionTotal(cs, rows[1..]);
    }
  }

  // A descending insertion sort (the tie order is not part of any promise).

  lemma ConsNonIncreasing(x: CategorySales, t: seq<CategorySales>)
    requires NonIncreasing(t)
    requires forall y :: y in t ==> y.sales <= x.sales
    ensures NonIncreasing([x] + t)
  {
    var r := [x] + t;
    forall i, j | 0 <= i < j < |r| ensures r[i].sales >= r[j].sales {
      assert r[j] == t[j - 1];
      if i > 0 {
        assert r[i] == t[i - 1];
      }
    }
  }

  /** In a non-increasing list no later entry exceeds the first, and the
      rest is non-increasing too. */
  lemma NonIncreasingTail(es: seq<CategorySales>)
    requires es != [] && NonIncreasing(es)
    ensures NonIncreasing(es[1..])
    ensures forall y :: y in es[1..] ==> y.sales <= es[0].sales
  {
    var rest := es[1..];
    forall i, j | 0 <= i < j < |rest| ensures rest[i].sales >= rest[j].sales {
      assert rest[i] == es[i + 1] && rest[j] == es[j + 1];
    }
    forall y | y in rest ensures y.sales <= es[0].sales {
      var k :| 0 <= k < |rest| && rest[k] == y;
      assert es[k + 1] == y;
    }
  }

  lemma BoundedByMultiset(tail: seq<CategorySales>, rest: seq<CategorySales>, e: CategorySales, bound: real)
    requires multiset(tail) == multiset(rest) + multiset{e}
    requires e.sales <= bound && forall y :: y in rest ==> y.sales <= bound
    ensures forall y :: y in tail ==> y.sales <= bound
  {
    forall y | y in tail ensures y.sales <= bound {
      assert y in multiset(tail);
      assert y == e || y in multiset(rest);
    }
  }

  function Insert(e: CategorySales, es: seq<CategorySales>): (r: seq<CategorySales>)
    requires NonIncreasing(es)
    ensures NonIncreasing(r)
    ensures multiset(r) == multiset(es) + multiset{e}
  {
    if es == [] then
      [e]
    else if e.sales >= es[0].sales then
      NonIncreasingTail(es);
      assert es == [es[0]] + es[1..];
      ConsNonIncreasing(e, es);
      [e] + es
    else
      var head, rest := es[0], es[1..];
      NonIncreasingTail(es);
      var tail := Insert(e, rest);
      BoundedByMultiset(tail, rest, e, head.sales);
      ConsNonIncreasing(head, tail);
      assert es == [head] + rest;
      assert multiset([head] + tail) == multiset{head} + multiset(tail);
      [head] + tail
  }

  function SortBySalesDescending(es: seq<CategorySales>): (r: seq<CategorySales>)
    ensures NonIncreasing(r)
    ensures multiset(r) == multiset(es)
  {
    if es == [] then []
    else
      assert es == [es[0]] + es[1..];
      Insert(es[0], SortBySalesDescending(es[1..]))
  }

  /** A permutation of the entries has the same sum. */
  lemma {:induction false} SumSalesPermutation(a: seq<CategorySales>, b: seq<CategorySales>)
    requires multiset(a) == multiset(b)
    ensures SumSales(a) == SumSales(b)
    decreases |a|
  {
    if a == [] {
      assert |multiset(b)| == 0;
    } else {
      var x := a[0];
      assert x in multiset(b);
      var k :| 0 <= k < |b| && b[k] == x;
      var rest := b[..k] + b[k + 1..];
      RemoveMatching(a, b, k);
      SumSalesPermutation(a[1..], rest);
      SumSalesRemove(b, k);
    }
  }

  lemma {:induction false} SumSalesConcat(a: seq<CategorySales>, b: seq<CategorySales>)
    ensures SumSales(a + b) == SumSales(a) + SumSales(b)
  {
    if a != [] {
      assert (a + b)[0] == a[0];
      assert (a + b)[1..] == a[1..] + b;
      SumSalesConcat(a[1..], b);
    } else {
      assert a + b == b;
    }
  }

  lemma SumSalesRemove(b: seq<CategorySales>, k: nat)
    requires k < |b|
    ensures SumSales(b) == b[k].sales + SumSales(b[..k] + b[k + 1..])
  {
    var left, right := b[..k], b[k + 1..];
    assert b == left + ([b[k]] + right);
    SumSalesConcat(left, [b[k]] + right);
    SumSalesCons(b[k], right);
    SumSalesConcat(left, right);
  }

  /** With distinct keys no entry occurs twice. */
  lemma {:induction false} DistinctKeysOnce(a: seq<CategorySales>, x: CategorySales)
    requires DistinctKeys(a)
    ensures multiset(a)[x] <= 1
  {
    if a != [] {
      assert a == [a[0]] + a[1..];
      DistinctKeysOnce(a[1..], x);
      if a[0] == x {
        assert x !in a[1..] by {
          forall k | 0 <= k < |a[1..]| ensures a[1..][k] != x {
            assert a[k + 1] == a[1..][k];
          }
        }
      }
    }
  }

  /** A permutation of entries with distinct keys keeps the keys distinct. */
  lemma PermutationDistinctKeys(a: seq<CategorySales>, b: seq<CategorySales>)
    requires multiset(a) == multiset(b)
    requires DistinctKeys(a)
    ensures DistinctKeys(b)
  {
    forall i, j | 0 <= i < j < |b| ensures b[i].category != b[j].category {
      if b[i].category == b[j].category {
        assert b[i] in multiset(a) && b[j] in multiset(a);
        assert b[i] == b[j];
        assert b == b[..i] + [b[i]] + b[i + 1..j] + [b[j]] + b[j + 1..];
        assert multiset(b)[b[i]] >= 2;
        DistinctKeysOnce(a, b[i]);
      }
    }
  }

  /** The sales per category: one entry per distinct category holding the sum
      of that category's prices, the entries adding up to the total revenue,
      ordered by non-increasing sum. */
  function SalesByCategory(rows: seq<Row>): (sales: seq<CategorySales>)
    ensures Keys(sales) == CategorySet(rows)
    ensures DistinctKeys(sales)
    ensures forall i :: 0 <= i < |sales| ==> sales[i].sales == CategorySum(rows, sales[i].category)
    ensures SumSales(sales) == TotalRevenue(rows)
    ensures NonIncreasing(sales)
  {
    var cs := Categories(rows);
    var groups := Entries(cs, rows);
    var sorted := SortBySalesDescending(groups);
    SalesByCategoryFacts(rows, cs, groups, sorted);
    sorted
  }

  /** The per-category groups before sorting. */
  lemma GroupsFacts(rows: seq<Row>, cs: seq<string>, groups: seq<CategorySales>)
    requires cs == Categories(rows) && groups == Entries(cs, rows)
    ensures Keys(groups) == CategorySet(rows)
    ensures DistinctKeys(groups)
    ensures SumSales(groups) == TotalRevenue(rows)
  {
    forall c | c in CategorySet(rows) ensures c in Keys(groups) {
      var k :| 0 <= k < |cs| && cs[k] == c;
      assert groups[k] in groups;
    }
    forall c | c in Keys(groups) ensures c in CategorySet(rows) {
      var x :| x in groups && x.category == c;
      var k :| 0 <= k < |groups| && groups[k] == x;
      assert cs[k] in cs;
    }
    forall i | 0 <= i < |rows| ensures rows[i].category in cs {
      assert rows[i] in rows;
    }
    EntriesPartitionTotal(cs, rows);
  }

  /** A permutation has the same set of keys. */
  lemma PermutationKeys(a: seq<CategorySales>, b: seq<CategorySales>)
    requires multiset(a) == multiset(b)
    ensures Keys(a) == Keys(b)
  {
    forall c | c in Keys(a) ensures c in Keys(b) {
      var x :| x in a && x.category == c;
      assert x in multiset(b);
    }
    forall c | c in Keys(b) ensures c in Keys(a) {
      var x :| x in b && x.category == c;
      assert x in multiset(a);
    }
  }

  lemma SalesByCategoryFacts(rows: seq<Row>, cs: seq<string>, groups: seq<CategorySales>, sorted: seq<CategorySales>)
    requires cs == Categories(rows) && groups == Entries(cs, rows)
    requires multiset(sorted) == multiset(groups)
    ensures Keys(sorted) == CategorySet(rows)
    ensures DistinctKeys(sorted)
    ensures forall i :: 0 <= i < |sorted| ==> sorted[i].sales == CategorySum(rows, sorted[i].category)
    ensures SumSales(sorted) == TotalRevenue(rows)
  {
    GroupsFacts(rows, cs, groups);
    forall i | 0 <= i < |sorted| ensures sorted[i].sales == CategorySum(rows, sorted[i].category) {
      assert sorted[i] in multiset(groups);
    }
    PermutationKeys(groups, sorted);
    PermutationDistinctKeys(groups, sorted);
    SumSalesPermutation(groups, sorted);
  }

  // ---------------------------------------------------------------------
  // `analyze_data`
  // ---------------------------------------------------------------------

  datatype Analysis = Analysis(totalRevenue: real, averagePrice: real,
                               bestSellingProduct: string, salesByCategory: seq<CategorySales>)

  /** The metrics of a cleaned table; an empty table has no mode, so the
      analysis fails on it. */
  function AnalyzeData(rows: seq<Row>): (r: Result<Analysis>)
    ensures r.Failure? <==> rows == []
    ensures r.Success? ==>
              && r.value.totalRevenue == TotalRevenue(rows)
              && r.value.averagePrice == r.value.totalRevenue / (|rows| as real)
              && SumSales(r.value.salesByCategory) == r.value.totalRevenue
              && Keys(r.value.salesByCategory) == CategorySet(rows)
              && DistinctKeys(r.value.salesByCategory)
              && (forall i :: 0 <= i < |r.value.salesByCategory| ==>
                    r.value.salesByCategory[i].sales == CategorySum(rows, r.value.salesByCategory[i].category))
              && NonIncreasing(r.value.salesByCategory)
              && (forall i :: 0 <= i < |rows| ==>
                    Count(rows, rows[i].product) <= Count(rows, r.value.bestSellingProduct))
              && (exists i :: 0 <= i < |rows| && rows[i].product == r.value.bestSellingProduct)
              && (forall i :: 0 <= i < |rows| && Count(rows, rows[i].product) == Count(rows, r.value.bestSellingProduct) ==>
                    StrLe(r.value.bestSellingProduct, rows[i].product))
  {
    if rows == [] then Failure(EmptyDataset)
    else
      var total, mean := TotalRevenue(rows), AveragePrice(rows);
      var best, sales := BestSellingProduct(rows), SalesByCategory(rows);
      Success(Analysis(total, mean, best, sales))
  }
}
