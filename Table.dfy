/** The record table of the sales pipeline: the row types before and after
    cleaning, and the sequence facts (subsequence, order ids) that the
    cleaning steps are specified with. */
module Table {

  datatype Option<+T> = None | Some(value: T)

  /** A coerced `date` value: a point in time, in nanoseconds since the epoch. */
  datatype Timestamp = Timestamp(nanos: int)

  /** A row as loaded, after its columns carry the canonical names: the price
      may be missing (an empty cell). */
  datatype RawRow = RawRow(product: string, price: Option<real>, date: Timestamp,
                           category: string, orderId: int)

  /** A row of the cleaned table: its price is present and numeric. */
  datatype Row = Row(product: string, price: real, date: Timestamp,
                     category: string, orderId: int)

  /** The raw row a cleaned row stands for. */
  function Raw(r: Row): (x: RawRow)
    ensures x.price.Some?
  {
    RawRow(r.product, Some(r.price), r.date, r.category, r.orderId)
  }

  function RawRows(rows: seq<Row>): (xs: seq<RawRow>)
    ensures |xs| == |rows|
    ensures forall i :: 0 <= i < |rows| ==> xs[i] == Raw(rows[i])
  {
    seq(|rows|, i requires 0 <= i < |rows| => Raw(rows[i]))
  }

  /** `a` is `b` with some elements left out, the rest kept in order
      (matched greedily from the end). */
  predicate IsSubseq<T(==)>(a: seq<T>, b: seq<T>)
    decreases |b|
  {
    if a == [] then true
    else if b == [] then false
    else if a[|a| - 1] == b[|b| - 1] then IsSubseq(a[..|a| - 1], b[..|b| - 1])
    else IsSubseq(a, b[..|b| - 1])
  }

  /** Appending an element to the larger sequence keeps a subsequence. */
  lemma {:induction false} SubseqExtend<T>(a: seq<T>, b: seq<T>, y: T)
    requires IsSubseq(a, b)
    ensures IsSubseq(a, b + [y])
    decreases |b|, 1
  {
    var b' := b + [y];
    assert b'[..|b'| - 1] == b;
    if a != [] && a[|a| - 1] == y {
      SubseqDropLast(a, b);
    }
  }

  /** Dropping the last element of the smaller sequence keeps a subsequence. */
  lemma {:induction false} SubseqDropLast<T>(a: seq<T>, b: seq<T>)
    requires a != [] && IsSubseq(a, b)
    ensures IsSubseq(a[..|a| - 1], b)
    decreases |b|, 0
  {
    var a', b' := a[..|a| - 1], b[..|b| - 1];
    if a[|a| - 1] == b[|b| - 1] {
      SubseqExtend(a', b', b[|b| - 1]);
    } else {
      SubseqDropLast(a, b');
      SubseqExtend(a', b', b[|b| - 1]);
    }
    assert b' + [b[|b| - 1]] == b;
  }

  /** The set of order ids occurring in a table. */
  function Ids(rows: seq<Row>): set<int>
  {
    set r | r in rows :: r.orderId
  }

  lemma IdsAppend(rows: seq<Row>, x: Row)
    ensures Ids(rows + [x]) == Ids(rows) + {x.orderId}
  {
    var s := rows + [x];
    assert x == s[|s| - 1];
    forall r | r in rows ensures r in s {
      var i :| 0 <= i < |rows| && rows[i] == r;
      assert s[i] == r;
    }
  }

  /** No two rows of the table share an order id. */
  predicate DistinctIds(rows: seq<Row>)
  {
    forall i, j :: 0 <= i < j < |rows| ==> rows[i].orderId != rows[j].orderId
  }

  /** The position of the first row of the table that has the given order id. */
  function FirstIndexOf(rows: seq<Row>, id: int): (k: nat)
    requires id in Ids(rows)
    ensures k < |rows| && rows[k].orderId == id
    ensures forall j :: 0 <= j < k ==> rows[j].orderId != id
    decreases |rows|
  {
    var prefix := rows[..|rows| - 1];
    assert rows == prefix + [rows[|rows| - 1]];
    IdsAppend(prefix, rows[|rows| - 1]);
    if id in Ids(prefix) then FirstIndexOf(prefix, id)
    else
      assert forall j :: 0 <= j < |prefix| ==> prefix[j] in prefix;
      |rows| - 1
  }
}
