/** The clean -> analyze part of the pipeline, run on a loaded table. */
module Pipeline {
  import opened Table
  import opened Cleaner
  import opened Analyzer

  /** Cleaning followed by analysis, as the orchestrator sequences them. */
  function Run(raw: seq<RawRow>): (r: Result<Analysis>)
    ensures r.Failure? <==> Clean(raw) == []
  {
    AnalyzeData(Clean(raw))
  }

  lemma {:induction false} NoPricedIdsMeansNoPrice(raw: seq<RawRow>)
    ensures PricedIds(raw) == {} <==> forall i :: 0 <= i < |raw| ==> raw[i].price.None?
  {
    if exists i :: 0 <= i < |raw| && raw[i].price.Some? {
      var i :| 0 <= i < |raw| && raw[i].price.Some?;
      assert raw[i] in raw;
      assert raw[i].orderId in PricedIds(raw);
    }
  }

  /** The run fails exactly when no row of the loaded table has a price. */
  lemma RunFailsIffNoPrice(raw: seq<RawRow>)
    ensures Run(raw).Failure? <==> forall i :: 0 <= i < |raw| ==> raw[i].price.None?
  {
    PricedIdsSurvive(raw);
    NoPricedIdsMeansNoPrice(raw);
    var c := Clean(raw);
    assert Run(raw).Failure? <==> c == [];
    if c != [] {
      assert c[0] in c;
      assert c[0].orderId in Ids(c);
    }
  }

  /** A null-price row contributes to no metric: removing every such row
      beforehand leaves the result unchanged. */
  lemma NullRowsIgnored(raw: seq<RawRow>)
    ensures Run(RawRows(DropNa(raw))) == Run(raw)
  {
    DropNaOfClean(DropNa(raw));
  }

  /** Three rows, the second repeating the first one's order id. */
  function DuplicateOrderTable(): seq<RawRow>
  {
    [RawRow("Widget", Some(10.0), Timestamp(0), "Tools", 1),
     RawRow("Widget", Some(10.0), Timestamp(0), "Tools", 1),
     RawRow("Gadget", Some(5.0), Timestamp(0), "Electronics", 2)]
  }

  lemma DuplicateOrderDropNa()
    ensures DropNa(DuplicateOrderTable()) == [Row("Widget", 10.0, Timestamp(0), "Tools", 1),
                                              Row("Widget", 10.0, Timestamp(0), "Tools", 1),
                                              Row("Gadget", 5.0, Timestamp(0), "Electronics", 2)]
  {
    var raw := DuplicateOrderTable();
    var w := Row("Widget", 10.0, Timestamp(0), "Tools", 1);
    assert raw[..2][..1] == raw[..1];
    assert raw[..1][..0] == [];
    assert DropNa(raw[..1]) == [w];
    assert DropNa(raw[..2]) == [w, w];
  }

  lemma DuplicateOrderLowered()
    ensures LowerCategories([Row("Widget", 10.0, Timestamp(0), "Tools", 1),
                             Row("Widget", 10.0, Timestamp(0), "Tools", 1),
                             Row("Gadget", 5.0, Timestamp(0), "Electronics", 2)])
         == [Row("Widget", 10.0, Timestamp(0), "tools", 1),
             Row("Widget", 10.0, Timestamp(0), "tools", 1),
             Row("Gadget", 5.0, Timestamp(0), "electronics", 2)]
  {
    assert LowerString("Tools") == "tools";
    assert LowerString("Electronics") == "electronics";
  }

  lemma DuplicateOrderDeduplicated()
    ensures DropDuplicateIds([Row("Widget", 10.0, Timestamp(0), "tools", 1),
                              Row("Widget", 10.0, Timestamp(0), "tools", 1),
                              Row("Gadget", 5.0, Timestamp(0), "electronics", 2)])
         == [Row("Widget", 10.0, Timestamp(0), "tools", 1),
             Row("Gadget", 5.0, Timestamp(0), "electronics", 2)]
  {
    var lw := Row("Widget", 10.0, Timestamp(0), "tools", 1);
    var lg := Row("Gadget", 5.0, Timestamp(0), "electronics", 2);
    var lowered := [lw, lw, lg];
    assert lowered[..2][..1] == lowered[..1];
    assert lowered[..1][..0] == [];
    assert DropDuplicateIds(lowered[..1]) == [lw];
    assert Ids([lw]) == {1};
    assert DropDuplicateIds(lowered[..2]) == [lw];
    assert lowered[..2] == [lw, lw];
    assert 2 !in Ids([lw]);
  }

  /** On that table the duplicate order is dropped and the categories are
      lowercased. */
  lemma DuplicateOrderCleaned()
    ensures Clean(DuplicateOrderTable()) == [Row("Widget", 10.0, Timestamp(0), "tools", 1),
                                             Row("Gadget", 5.0, Timestamp(0), "electronics", 2)]
  {
    DuplicateOrderDropNa();
    DuplicateOrderLowered();
    DuplicateOrderDeduplicated();
  }

  lemma DuplicateOrderBest(c: seq<Row>)
    requires c == [Row("Widget", 10.0, Timestamp(0), "tools", 1), Row("Gadget", 5.0, Timestamp(0), "electronics", 2)]
    ensures BestSellingProduct(c) == "Gadget"
  {
    assert c[1..][1..] == [];
    assert Count(c[1..], "Widget") == 0 && Count(c[1..], "Gadget") == 1;
    assert Count(c, "Widget") == 1 && Count(c, "Gadget") == 1;
    var best := BestSellingProduct(c);
    assert best == "Widget" || best == "Gadget";
    assert !StrLe("Widget", "Gadget");
  }

  lemma DuplicateOrderSales(c: seq<Row>)
    requires c == [Row("Widget", 10.0, Timestamp(0), "tools", 1), Row("Gadget", 5.0, Timestamp(0), "electronics", 2)]
    ensures SalesByCategory(c) == [CategorySales("tools", 10.0), CategorySales("electronics", 5.0)]
  {
    assert c[1..][1..] == [];
    assert Categories(c[1..]) == ["electronics"];
    assert Categories(c) == ["tools", "electronics"];
    assert CategorySum(c[1..], "tools") == 0.0 && CategorySum(c[1..], "electronics") == 5.0;
    assert CategorySum(c, "tools") == 10.0 && CategorySum(c, "electronics") == 5.0;
    var groups := [CategorySales("tools", 10.0), CategorySales("electronics", 5.0)];
    assert Entries(Categories(c), c) == groups;
    assert SortBySalesDescending(groups[1..]) == groups[1..];
  }

  /** On that table two rows remain, the revenue is 15, both products sell
      once so the least name wins (not the first one seen), and the
      categories come out lowercased, larger sum first. */
  lemma DuplicateOrderScenario()
    ensures Run(DuplicateOrderTable()).Success?
    ensures Run(DuplicateOrderTable()).value.totalRevenue == 15.0
    ensures Run(DuplicateOrderTable()).value.bestSellingProduct == "Gadget"
    ensures Run(DuplicateOrderTable()).value.salesByCategory
              == [CategorySales("tools", 10.0), CategorySales("electronics", 5.0)]
  {
    DuplicateOrderCleaned();
    var c := Clean(DuplicateOrderTable());
    assert c[1..][1..] == [];
    assert TotalRevenue(c) == 15.0;
    DuplicateOrderBest(c);
    DuplicateOrderSales(c);
  }
}
