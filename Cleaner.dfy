/** The cleaning stage: drop rows without a price, lowercase the category,
    drop rows whose order id was already seen (keeping the first). */
module Cleaner {
  import opened Table

  // ---------------------------------------------------------------------
  // Null filtering (and the typed view of the surviving prices)
  // ---------------------------------------------------------------------

  /** The rows whose price is present, in their original order, each typed
      as a cleaned row. */
  function DropNa(raw: seq<RawRow>): (r: seq<Row>)
    ensures |r| <= |raw|
    decreases |raw|
  {
    if raw == [] then []
    else
      var kept, x := DropNa(raw[..|raw| - 1]), raw[|raw| - 1];
      match x.price
      case None => kept
      case Some(p) => kept + [Row(x.product, p, x.date, x.category, x.orderId)]
  }

  /** Null filtering keeps the surviving rows in their input order. */
  lemma {:induction false} DropNaSubseq(raw: seq<RawRow>)
    ensures IsSubseq(RawRows(DropNa(raw)), raw)
    decreases |raw|
  {
    if raw != [] {
      var prefix, x := raw[..|raw| - 1], raw[|raw| - 1];
      var kept := DropNa(prefix);
      DropNaSubseq(prefix);
      assert raw == prefix + [x];
      match x.price
      case None =>
        SubseqExtend(RawRows(kept), prefix, x);
      case Some(p) =>
        var y := Row(x.product, p, x.date, x.category, x.orderId);
        var lifted := RawRows(kept + [y]);
        assert lifted[..|lifted| - 1] == RawRows(kept);
        assert lifted[|lifted| - 1] == x;
    }
  }

  /** A row with a price survives as often as it occurs in the input; a row
      without one does not survive. */
  lemma {:induction false} DropNaKeepsPriced(raw: seq<RawRow>)
    ensures forall x :: multiset(RawRows(DropNa(raw)))[x] == if x.price.Some? then multiset(raw)[x] else 0
    decreases |raw|
  {
    if raw != [] {
      var prefix, x := raw[..|raw| - 1], raw[|raw| - 1];
      var kept := DropNa(prefix);
      DropNaKeepsPriced(prefix);
      assert raw == prefix + [x];
      assert multiset(raw) == multiset(prefix) + multiset{x};
      match x.price
      case None =>
      case Some(p) =>
        var y := Row(x.product, p, x.date, x.category, x.orderId);
        assert RawRows(kept + [y]) == RawRows(kept) + [x];
        assert multiset(RawRows(kept + [y])) == multiset(RawRows(kept)) + multiset{x};
    }
  }

  /** Null filtering undoes lifting: a cleaned table passes through unchanged. */
  lemma {:induction false} DropNaOfClean(rows: seq<Row>)
    ensures DropNa(RawRows(rows)) == rows
  {
    if rows != [] {
      var prefix, y := rows[..|rows| - 1], rows[|rows| - 1];
      var raw := RawRows(rows);
      assert raw[..|raw| - 1] == RawRows(prefix);
      DropNaOfClean(prefix);
      assert raw[|raw| - 1] == Raw(y);
      assert prefix + [y] == rows;
    }
  }

  // ---------------------------------------------------------------------
  // Lowercasing the category
  // ---------------------------------------------------------------------

  /** Upper-case letters: ASCII A-Z and Latin-1 U+00C0..U+00DE except U+00D7. */
  predicate IsUpper(c: char)
  {
    ('A' <= c <= 'Z') || ('À' <= c <= 'Þ' && c != '×')
  }

  function Lower(c: char): (r: char)
    ensures !IsUpper(r)
    ensures !IsUpper(c) ==> r == c
    ensures IsUpper(c) ==> r as int == c as int + 32
  {
    if IsUpper(c) then (c as int + 32) as char else c
  }

  predicate IsLowercase(s: string)
  {
    forall i :: 0 <= i < |s| ==> !IsUpper(s[i])
  }

  function LowerString(s: string): (r: string)
    ensures |r| == |s| && IsLowercase(r)
    ensures forall i :: 0 <= i < |s| ==> r[i] == Lower(s[i])
    ensures IsLowercase(s) ==> r == s
  {
    seq(|s|, i requires 0 <= i < |s| => Lower(s[i]))
  }

  /** Lowercases the category of every row; nothing else changes. */
  function LowerCategories(rows: seq<Row>): (r: seq<Row>)
    ensures |r| == |rows|
    ensures forall i :: 0 <= i < |rows| ==>
              && r[i].category == LowerString(rows[i].category)
              && r[i].product == rows[i].product && r[i].price == rows[i].price
              && r[i].date == rows[i].date && r[i].orderId == rows[i].orderId
  {
    seq(|rows|, i requires 0 <= i < |rows| => rows[i].(category := LowerString(rows[i].category)))
  }

  predicate CategoriesLowercase(rows: seq<Row>)
  {
    forall i :: 0 <= i < |rows| ==> IsLowercase(rows[i].category)
  }

  /** Every category is lowercase afterwards, and lowercasing a table whose
      categories are already lowercase is the identity (so lowercasing twice
      equals lowercasing once). */
  lemma LowerCategoriesIdempotent(rows: seq<Row>)
    ensures CategoriesLowercase(LowerCategories(rows))
    ensures CategoriesLowercase(rows) ==> LowerCategories(rows) == rows
    ensures LowerCategories(LowerCategories(rows)) == LowerCategories(rows)
  {
    var once := LowerCategories(rows);
    assert CategoriesLowercase(once);
    assert LowerCategories(once) == once;
    if CategoriesLowercase(rows) {
      assert forall i :: 0 <= i < |rows| ==> once[i] == rows[i];
    }
  }

  // ---------------------------------------------------------------------
  // Deduplication by order id, keeping the first row of each id
  // ---------------------------------------------------------------------

  /** Specification of `drop_duplicates(subset=['order_id'], keep='first')`:
      scan in order and keep a row only if its id has not been kept yet. */
  function DropDuplicateIds(rows: seq<Row>): (r: seq<Row>)
    ensures |r| <= |rows|
    decreases |rows|
  {
    if rows == [] then []
    else
      var kept := DropDuplicateIds(rows[..|rows| - 1]);
      if rows[|rows| - 1].orderId in Ids(kept) then kept else kept + [rows[|rows| - 1]]
  }

  /** Deduplication loses no order id. */
  lemma {:induction false} DropDuplicateIdsKeepsIds(rows: seq<Row>)
    ensures Ids(DropDuplicateIds(rows)) == Ids(rows)
    decreases |rows|
  {
    if rows != [] {
      var prefix, x := rows[..|rows| - 1], rows[|rows| - 1];
      var kept := DropDuplicateIds(prefix);
      DropDuplicateIdsKeepsIds(prefix);
      assert rows == prefix + [x];
      IdsAppend(prefix, x);
      IdsAppend(kept, x);
    }
  }

  /** The result has pairwise distinct order ids. */
  lemma {:induction false} DropDuplicateIdsDistinct(rows: seq<Row>)
    ensures DistinctIds(DropDuplicateIds(rows))
    decreases |rows|
  {
    if rows != [] {
      var prefix, x := rows[..|rows| - 1], rows[|rows| - 1];
      var kept := DropDuplicateIds(prefix);
      DropDuplicateIdsDistinct(prefix);
      if x.orderId !in Ids(kept) {
        var r := kept + [x];
        forall i, j | 0 <= i < j < |r| ensures r[i].orderId != r[j].orderId {
          if j == |kept| {
            assert r[i] in kept;
          }
        }
      }
    }
  }

  /** The result is an order-preserving subsequence of the input. */
  lemma {:induction false} DropDuplicateIdsSubseq(rows: seq<Row>)
    ensures IsSubseq(DropDuplicateIds(rows), rows)
    decreases |rows|
  {
    if rows != [] {
      var prefix, x := rows[..|rows| - 1], rows[|rows| - 1];
      var kept := DropDuplicateIds(prefix);
      DropDuplicateIdsSubseq(prefix);
      assert rows == prefix + [x];
      if x.orderId in Ids(kept) {
        SubseqExtend(kept, prefix, x);
      } else {
        var r := kept + [x];
        assert r[..|r| - 1] == kept && r[|r| - 1] == rows[|rows| - 1];
        assert rows[..|rows| - 1] == prefix;
        assert IsSubseq(r, rows) == IsSubseq(kept, prefix);
      }
    }
  }

  /** The row kept for an order id is the first row with that id. */
  lemma {:induction false} DropDuplicateIdsKeepsFirst(rows: seq<Row>)
    ensures forall k :: 0 <= k < |DropDuplicateIds(rows)| ==>
              && DropDuplicateIds(rows)[k].orderId in Ids(rows)
              && DropDuplicateIds(rows)[k] == rows[FirstIndexOf(rows, DropDuplicateIds(rows)[k].orderId)]
    decreases |rows|
  {
    if rows != [] {
      var prefix, x := rows[..|rows| - 1], rows[|rows| - 1];
      var kept := DropDuplicateIds(prefix);
      DropDuplicateIdsKeepsFirst(prefix);
      DropDuplicateIdsKeepsIds(prefix);
      assert rows == prefix + [x];
      IdsAppend(prefix, x);
      var r := DropDuplicateIds(rows);
      forall k | 0 <= k < |r|
        ensures r[k].orderId in Ids(rows) && r[k] == rows[FirstIndexOf(rows, r[k].orderId)]
      {
        if k < |kept| {
          assert r[k] == kept[k];
          assert kept[k] in kept;
          assert r[k].orderId in Ids(prefix);
          assert FirstIndexOf(rows, r[k].orderId) == FirstIndexOf(prefix, r[k].orderId);
        } else {
          assert r[k] == x && x.orderId !in Ids(prefix);
          assert FirstIndexOf(rows, x.orderId) == |rows| - 1;
        }
      }
    }
  }

  /** A table whose ids are already distinct is left as it is, so
      deduplicating twice equals deduplicating once. */
  lemma {:induction false} DropDuplicateIdsOfDistinct(rows: seq<Row>)
    requires DistinctIds(rows)
    ensures DropDuplicateIds(rows) == rows
    decreases |rows|
  {
    if rows != [] {
      var prefix, x := rows[..|rows| - 1], rows[|rows| - 1];
      DropDuplicateIdsOfDistinct(prefix);
      assert prefix + [x] == rows;
    }
  }

  lemma DropDuplicateIdsIdempotent(rows: seq<Row>)
    ensures DropDuplicateIds(DropDuplicateIds(rows)) == DropDuplicateIds(rows)
  {
    DropDuplicateIdsDistinct(rows);
    DropDuplicateIdsOfDistinct(DropDuplicateIds(rows));
  }

  /** The in-place `drop_duplicates`: one pass with the set of ids seen. */
  method DropDuplicates(rows: seq<Row>) returns (kept: seq<Row>)
    ensures kept == DropDuplicateIds(rows)
    ensures DistinctIds(kept) && IsSubseq(kept, rows) && Ids(kept) == Ids(rows)
    ensures forall k :: 0 <= k < |kept| ==> kept[k] == rows[FirstIndexOf(rows, kept[k].orderId)]
  {
    kept := [];
    var seen: set<int> := {};
    var i := 0;
    while i < |rows|
      invariant 0 <= i <= |rows|
      invariant kept == DropDuplicateIds(rows[..i])
      invariant seen == Ids(kept)
    {
      assert rows[..i + 1][..i] == rows[..i];
      if rows[i].orderId !in seen {
        IdsAppend(kept, rows[i]);
        kept := kept + [rows[i]];
        seen := seen + {rows[i].orderId};
      }
      i := i + 1;
    }
    assert rows[..i] == rows;
    DropDuplicateIdsDistinct(rows);
    DropDuplicateIdsSubseq(rows);
    DropDuplicateIdsKeepsIds(rows);
    DropDuplicateIdsKeepsFirst(rows);
  }

  // ---------------------------------------------------------------------
  // The whole cleaning stage
  // ---------------------------------------------------------------------

  /** The cleaned table: null filtering, then lowercasing, then dedup. */
  function Clean(raw: seq<RawRow>): (r: seq<Row>)
    ensures |r| <= |raw|
  {
    DropDuplicateIds(LowerCategories(DropNa(raw)))
  }

  /** `clean_data`: the steps applied one after the other to the table. */
  method CleanData(raw: seq<RawRow>) returns (df: seq<Row>)
    ensures df == Clean(raw)
    ensures DistinctIds(df) && CategoriesLowercase(df)
  {
    df := DropNa(raw);
    df := LowerCategories(df);
    LowerCategoriesIdempotent(df);
    df := DropDuplicates(df);
    CleanedTableInvariants(raw);
  }

  /** The invariants of a cleaned table. */
  lemma CleanedTableInvariants(raw: seq<RawRow>)
    ensures DistinctIds(Clean(raw))
    ensures CategoriesLowercase(Clean(raw))
  {
    var lowered := LowerCategories(DropNa(raw));
    LowerCategoriesIdempotent(DropNa(raw));
    DropDuplicateIdsDistinct(lowered);
    DropDuplicateIdsKeepsFirst(lowered);
    var c := Clean(raw);
    forall k | 0 <= k < |c| ensures IsLowercase(c[k].category) {
      assert c[k] == lowered[FirstIndexOf(lowered, c[k].orderId)];
    }
  }

  /** The order ids of the rows that have a price. */
  function PricedIds(raw: seq<RawRow>): set<int>
  {
    set x | x in raw && x.price.Some? :: x.orderId
  }

  lemma {:induction false} DropNaIds(raw: seq<RawRow>)
    ensures Ids(DropNa(raw)) == PricedIds(raw)
    decreases |raw|
  {
    if raw != [] {
      var prefix, x := raw[..|raw| - 1], raw[|raw| - 1];
      DropNaIds(prefix);
      assert raw == prefix + [x];
      assert forall y :: y in raw <==> y in prefix || y == x;
      assert PricedIds(raw) == PricedIds(prefix) + (if x.price.Some? then {x.orderId} else {});
      if x.price.Some? {
        IdsAppend(DropNa(prefix), Row(x.product, x.price.value, x.date, x.category, x.orderId));
      }
    }
  }

  lemma LowerCategoriesIds(rows: seq<Row>)
    ensures Ids(LowerCategories(rows)) == Ids(rows)
  {
    var lowered := LowerCategories(rows);
    forall r | r in lowered ensures r.orderId in Ids(rows) {
      var k :| 0 <= k < |lowered| && lowered[k] == r;
      assert rows[k] in rows;
    }
    forall r | r in rows ensures r.orderId in Ids(lowered) {
      var k :| 0 <= k < |rows| && rows[k] == r;
      assert lowered[k] in lowered;
    }
  }

  /** Because null filtering runs first, the order ids that survive cleaning
      are exactly those of the rows that have a price: a null-price row never
      shadows a later priced row with the same id. */
  lemma PricedIdsSurvive(raw: seq<RawRow>)
    ensures Ids(Clean(raw)) == PricedIds(raw)
  {
    DropNaIds(raw);
    LowerCategoriesIds(DropNa(raw));
    DropDuplicateIdsKeepsIds(LowerCategories(DropNa(raw)));
  }

  /** Cleaning an already cleaned table yields the identical table. */
  lemma CleanIdempotent(raw: seq<RawRow>)
    ensures Clean(RawRows(Clean(raw))) == Clean(raw)
  {
    var c := Clean(raw);
    DropNaOfClean(c);
    CleanedTableInvariants(raw);
    LowerCategoriesIdempotent(c);
    DropDuplicateIdsOfDistinct(c);
  }
}
