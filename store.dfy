/** What the two repositories share: the failures a table operation reports,
    and listings of a table's keys in the order a query returns its rows. */
module Store {

  datatype StoreError =
    | RecordNotFound   // no row has the requested primary key
    | ValueTooLong     // a string is wider than its varchar column

  function StoreErrorMessage(e: StoreError): string {
    match e
    case RecordNotFound => "record not found"
    case ValueTooLong => "value too long for type character varying"
  }

  predicate Distinct(order: seq<nat>) {
    forall i, j :: 0 <= i < j < |order| ==> order[i] != order[j]
  }

  /** order names every row of the table exactly once. */
  predicate IsListing<V>(order: seq<nat>, rows: map<nat, V>) {
    && (forall i :: 0 <= i < |order| ==> order[i] in rows)
    && Distinct(order)
    && (forall id :: id in rows ==> id in order)
  }

  /** The rows of a table, in the order a listing gives. */
  function Listing<V>(rows: map<nat, V>, order: seq<nat>): (s: seq<V>)
    requires forall i :: 0 <= i < |order| ==> order[i] in rows
    ensures |s| == |order|
    ensures forall i :: 0 <= i < |order| ==> s[i] == rows[order[i]]
  {
    seq(|order|, i requires 0 <= i < |order| => rows[order[i]])
  }

  function Elements(order: seq<nat>): set<nat> {
    set x | x in order
  }

  lemma {:induction false} DistinctCount(order: seq<nat>)
    requires Distinct(order)
    ensures |Elements(order)| == |order|
  {
    if order != [] {
      var init := order[..|order| - 1];
      var last := order[|order| - 1];
      var before := Elements(init);
      assert Distinct(init);
      DistinctCount(init);
      assert order == init + [last];
      var all := Elements(order);
      assert all == before + {last};
      forall j | 0 <= j < |init| ensures init[j] != last {
        assert order[j] != order[|order| - 1];
      }
      assert last !in before;
      assert |all| == |before| + 1;
    } else {
      assert Elements(order) == {};
    }
  }

  /** A listing has exactly as many entries as the table has rows. */
  lemma ListingLength<V>(order: seq<nat>, rows: map<nat, V>)
    requires IsListing(order, rows)
    ensures |order| == |rows|
  {
    assert Elements(order) == rows.Keys;
    DistinctCount(order);
  }
}
