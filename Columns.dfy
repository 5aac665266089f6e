/** Column normalization: the fixed rename table that maps the synonyms
    found in different input files to the canonical column names. */
module Columns {

  /** The column names that the rename table maps to a different name. */
  const Synonyms: set<string> := {"product_name", "item", "value", "order_date"}

  /** The canonical name of a column: `product_name` and `item` become
      `product`, `value` becomes `price`, `order_date` becomes `date`;
      `price` maps to itself and a name not in the table is kept. */
  function Canonical(name: string): (r: string)
    ensures r == "product" <==> name in {"product_name", "item", "product"}
    ensures r == "price" <==> name in {"value", "price"}
    ensures r == "date" <==> name in {"order_date", "date"}
    ensures name !in Synonyms ==> r == name
    ensures r !in Synonyms
  {
    match name
    case "product_name" => "product"
    case "item" => "product"
    case "price" => "price"
    case "value" => "price"
    case "order_date" => "date"
    case _ => name
  }

  /** Renaming is applied once to every column label of the header, in place. */
  function RenameColumns(columns: seq<string>): (r: seq<string>)
    ensures |r| == |columns|
    ensures forall i :: 0 <= i < |columns| ==> r[i] == Canonical(columns[i])
  {
    seq(|columns|, i requires 0 <= i < |columns| => Canonical(columns[i]))
  }

  /** After renaming, no synonym is left and every canonical column whose
      synonym was present exists; renaming again changes nothing. */
  lemma RenameNormalizes(columns: seq<string>)
    ensures forall c :: c in RenameColumns(columns) ==> c !in Synonyms
    ensures ("product_name" in columns || "item" in columns) ==> "product" in RenameColumns(columns)
    ensures "value" in columns ==> "price" in RenameColumns(columns)
    ensures "order_date" in columns ==> "date" in RenameColumns(columns)
    ensures RenameColumns(RenameColumns(columns)) == RenameColumns(columns)
  {
    var r := RenameColumns(columns);
    forall c | c in columns ensures Canonical(c) in r {
      var i :| 0 <= i < |columns| && columns[i] == c;
      assert r[i] == Canonical(c);
    }
  }
}
