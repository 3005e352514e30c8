/** The category service: name validation, the colour default, the
    partial-update merge, and the translation of failed lookups into
    "category not found", over the categories table. */
module CategoryServices {
  import opened Wrappers
  import opened Store
  import opened CategoryModels
  import opened CategoryRepository

  datatype CategoryError =
    | CategoryNotFound
    | CategoryNameRequired
    | Storage(cause: StoreError)   // a repository failure, passed on unchanged

  /** The text a handler shows for an error. */
  function ErrorMessage(e: CategoryError): (m: string)
    ensures m != ""
  {
    match e
    case CategoryNotFound => "category not found"
    case CategoryNameRequired => "category name is required"
    case Storage(cause) => StoreErrorMessage(cause)
  }

  /** Different errors have different texts, so the text identifies the error. */
  lemma ErrorMessagesIdentifyErrors(e1: CategoryError, e2: CategoryError)
    ensures ErrorMessage(e1) == ErrorMessage(e2) ==> e1 == e2
  {
  }

  /** What the service keeps true of every category it stores: a non-empty
      name and a non-empty colour. */
  predicate WellFormed(c: Category) {
    c.name != "" && c.color != ""
  }

  predicate AllWellFormed(rows: map<nat, Category>) {
    forall id :: id in rows ==> WellFormed(rows[id])
  }

  /** The row the service asks the table to insert for a request with a name,
      before the table assigns its id. */
  function NewCategory(req: CreateCategoryRequest): (c: Category)
    ensures c.name == req.name
    ensures req.color == "" ==> c.color == DefaultColor
    ensures req.color != "" ==> c.color == req.color
    ensures req.name != "" ==> WellFormed(c)
    ensures WithCategoryColumnDefaults(c) == c
  {
    Category(0, req.name, if req.color == "" then DefaultColor else req.color)
  }

  /** The partial-update merge: a non-empty name or colour overwrites the
      stored one; an empty one keeps it. */
  function MergeUpdate(c: Category, req: UpdateCategoryRequest): (r: Category)
    ensures r.id == c.id
    ensures r.name == (if req.name == "" then c.name else req.name)
    ensures r.color == (if req.color == "" then c.color else req.color)
    ensures WellFormed(c) ==> WellFormed(r)
    ensures FitsCategoryColumns(c) && UpdateCategoryRequestBinds(req) && |req.color| <= ColorColumnSize ==>
      FitsCategoryColumns(r)
  {
    Category(c.id,
             if req.name != "" then req.name else c.name,
             if req.color != "" then req.color else c.color)
  }

  /** Applying the same update twice is the same as applying it once, and an
      update with both fields empty changes nothing. */
  lemma MergeIsIdempotent(c: Category, req: UpdateCategoryRequest)
    ensures MergeUpdate(MergeUpdate(c, req), req) == MergeUpdate(c, req)
    ensures MergeUpdate(c, UpdateCategoryRequest("", "")) == c
  {
  }

  class CategoryService {
    const repo: CategoryTable

    constructor (repo: CategoryTable)
      ensures this.repo == repo
    {
      this.repo := repo;
    }

    /** Returns the object it persisted, with the id the table assigned. */
    method Create(req: CreateCategoryRequest) returns (r: Result<Category, CategoryError>)
      requires repo.Valid()
      modifies repo
      ensures repo.Valid()
      ensures req.name == "" ==> r == Err(CategoryNameRequired) && unchanged(repo)
      ensures req.name != "" ==>
        var row := NewCategory(req).(id := old(repo.nextId));
        if FitsCategoryColumns(row) then
          && r == Ok(row) && row.id !in old(repo.rows)
          && repo.rows == old(repo.rows)[row.id := row] && repo.nextId == old(repo.nextId) + 1
        else
          r == Err(Storage(ValueTooLong)) && repo.rows == old(repo.rows) && repo.nextId == old(repo.nextId)
      ensures AllWellFormed(old(repo.rows)) ==> AllWellFormed(repo.rows)
    {
      if req.name == "" {
        return Err(CategoryNameRequired);
      }
      var category := Category(0, req.name, req.color);
      if category.color == "" {
        category := category.(color := DefaultColor);
      }
      assert category == NewCategory(req);
      var created := repo.Create(category);
      match created {
        case Err(e) => r := Err(Storage(e));
        case Ok(id) => r := Ok(category.(id := id));
      }
    }

    /** The repository's list, unchanged. */
    method GetAll(sorted: seq<nat>) returns (r: Result<seq<Category>, CategoryError>)
      requires IsListing(sorted, repo.rows)
      ensures r == Ok(Listing(repo.rows, sorted))
    {
      var listed := repo.GetAll(sorted);
      match listed {
        case Err(e) => r := Err(Storage(e));
        case Ok(all) => r := Ok(all);
      }
    }

    method GetByID(id: nat) returns (r: Result<Category, CategoryError>)
      requires repo.Valid()
      ensures id !in repo.rows ==> r == Err(CategoryNotFound)
      ensures id in repo.rows ==> r == Ok(repo.rows[id])
    {
      var found := repo.GetByID(id);
      if found.Err? {
        return Err(CategoryNotFound);
      }
      r := Ok(found.value);
    }

    /** Returns the merged object it saved, without reloading it. */
    method Update(id: nat, req: UpdateCategoryRequest) returns (r: Result<Category, CategoryError>)
      requires repo.Valid()
      modifies repo
      ensures repo.Valid() && repo.nextId == old(repo.nextId)
      ensures id !in old(repo.rows) ==> r == Err(CategoryNotFound) && unchanged(repo)
      ensures id in old(repo.rows) ==>
        var merged := MergeUpdate(old(repo.rows[id]), req);
        if FitsCategoryColumns(merged) then r == Ok(merged) && repo.rows == old(repo.rows)[id := merged]
        else r == Err(Storage(ValueTooLong)) && repo.rows == old(repo.rows)
      ensures AllWellFormed(old(repo.rows)) ==> AllWellFormed(repo.rows)
    {
      var found := repo.GetByID(id);
      if found.Err? {
        return Err(CategoryNotFound);
      }
      var category := found.value;
      if req.name != "" {
        category := category.(name := req.name);
      }
      if req.color != "" {
        category := category.(color := req.color);
      }
      assert category == MergeUpdate(found.value, req);
      var saved := repo.Update(category);
      match saved {
        case Some(e) => r := Err(Storage(e));
        case None => r := Ok(category);
      }
    }

    /** Deletes only after the existence check succeeds. */
    method Delete(id: nat) returns (err: Option<CategoryError>)
      requires repo.Valid()
      modifies repo
      ensures repo.Valid() && repo.nextId == old(repo.nextId)
      ensures id !in old(repo.rows) ==> err == Some(CategoryNotFound) && unchanged(repo)
      ensures id in old(repo.rows) ==> err.None? && repo.rows == old(repo.rows) - {id}
      ensures AllWellFormed(old(repo.rows)) ==> AllWellFormed(repo.rows)
    {
      var found := repo.GetByID(id);
      if found.Err? {
        return Some(CategoryNotFound);
      }
      var deleted := repo.Delete(id);
      match deleted {
        case Some(e) => err := Some(Storage(e));
        case None => err := None;
      }
    }
  }
}
