/** The categories table, as the category service sees it through its
    repository interface: create, list, look up, save and delete, over a map
    from id to row. */
module CategoryRepository {
  import opened Wrappers
  import opened Store
  import opened CategoryModels

  class CategoryTable {
    var rows: map<nat, Category>
    var nextId: nat

    ghost predicate Valid()
      reads this
    {
      && nextId >= 1
      && forall id :: id in rows ==> 1 <= id < nextId && rows[id].id == id && FitsCategoryColumns(rows[id])
    }

    constructor ()
      ensures Valid() && rows == map[] && nextId == 1
    {
      rows := map[];
      nextId := 1;
    }

    /** INSERT: applies the colour default, assigns a fresh id, and fails with
        a storage error when a value is too wide for its column. */
    method Create(c: Category) returns (r: Result<nat, StoreError>)
      requires Valid()
      modifies this
      ensures Valid()
      ensures var row := WithCategoryColumnDefaults(c).(id := old(nextId));
        if FitsCategoryColumns(row) then
          && r == Ok(old(nextId)) && old(nextId) !in old(rows)
          && rows == old(rows)[old(nextId) := row] && nextId == old(nextId) + 1
        else
          r == Err(ValueTooLong) && rows == old(rows) && nextId == old(nextId)
    {
      var row := WithCategoryColumnDefaults(c).(id := nextId);
      if !FitsCategoryColumns(row) {
        return Err(ValueTooLong);
      }
      rows := rows[nextId := row];
      r := Ok(nextId);
      nextId := nextId + 1;
    }

    /** All rows; sorted lists the ids in the order the database returns them
        for ORDER BY name ASC. */
    method GetAll(sorted: seq<nat>) returns (r: Result<seq<Category>, StoreError>)
      requires IsListing(sorted, rows)
      ensures r == Ok(Listing(rows, sorted))
      ensures |r.value| == |rows|
    {
      ListingLength(sorted, rows);
      var all: seq<Category> := [];
      var i := 0;
      while i < |sorted|
        invariant 0 <= i <= |sorted|
        invariant |all| == i
        invariant forall k :: 0 <= k < i ==> all[k] == rows[sorted[k]]
      {
        all := all + [rows[sorted[i]]];
        i := i + 1;
      }
      assert all == Listing(rows, sorted);
      r := Ok(all);
    }

    /** SELECT by primary key: fails exactly when no row has the id. */
    method GetByID(id: nat) returns (r: Result<Category, StoreError>)
      requires Valid()
      ensures r.Err? <==> id !in rows
      ensures r.Ok? ==> r.value == rows[id] && r.value.id == id
      ensures r.Err? ==> r.error == RecordNotFound
    {
      if id in rows {
        r := Ok(rows[id]);
      } else {
        r := Err(RecordNotFound);
      }
    }

    /** Save: writes the given row over the stored row with the same id. */
    method Update(c: Category) returns (err: Option<StoreError>)
      requires Valid() && c.id in rows
      modifies this
      ensures Valid() && nextId == old(nextId)
      ensures FitsCategoryColumns(c) ==> err.None? && rows == old(rows)[c.id := c]
      ensures !FitsCategoryColumns(c) ==> err == Some(ValueTooLong) && rows == old(rows)
    {
      if !FitsCategoryColumns(c) {
        return Some(ValueTooLong);
      }
      rows := rows[c.id := c];
      err := None;
    }

    /** DELETE by primary key: removes that row, if any, and no other. */
    method Delete(id: nat) returns (err: Option<StoreError>)
      requires Valid()
      modifies this
      ensures Valid() && nextId == old(nextId)
      ensures err.None? && rows == old(rows) - {id}
    {
      rows := rows - {id};
      err := None;
    }
  }
}
