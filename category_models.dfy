/** The category records of the backend's model package: the stored row with
    its column widths and default colour, and the two request bodies. */
module CategoryModels {

  /** Column widths and the colour default of the categories table. */
  const NameColumnSize := 100
  const ColorColumnSize := 20
  const DefaultColor := "#3B82F6"

  /** A stored category. Its timestamps and its list of todos are not part of
      this model. */
  datatype Category = Category(id: nat, name: string, color: string)

  /** Body of a category create; the colour is optional (empty when omitted). */
  datatype CreateCategoryRequest = CreateCategoryRequest(name: string, color: string)

  /** Body of a category update; an empty string means "absent". */
  datatype UpdateCategoryRequest = UpdateCategoryRequest(name: string, color: string)

  /** The binder accepts a create request only when its name has 1 to 100
      characters (backend/internal/models/category.go:17); the colour carries
      no rule, so the row fits its columns only when the colour does too. */
  predicate CreateCategoryRequestBinds(req: CreateCategoryRequest)
    ensures CreateCategoryRequestBinds(req) && |req.color| <= ColorColumnSize ==>
      req.name != "" && FitsCategoryColumns(WithCategoryColumnDefaults(Category(0, req.name, req.color)))
  {
    1 <= |req.name| <= NameColumnSize
  }

  /** The update rule is the create rule made optional: an omitted (empty)
      name is accepted, any other must have 1 to 100 characters
      (backend/internal/models/category.go:22). */
  predicate UpdateCategoryRequestBinds(req: UpdateCategoryRequest)
    ensures UpdateCategoryRequestBinds(req) <==>
      req.name == "" || CreateCategoryRequestBinds(CreateCategoryRequest(req.name, req.color))
  {
    req.name == "" || 1 <= |req.name| <= NameColumnSize
  }

  /** The row fits the 100-character name and 20-character colour columns. */
  predicate FitsCategoryColumns(c: Category) {
    |c.name| <= NameColumnSize && |c.color| <= ColorColumnSize
  }

  /** The column default an insert applies: an empty colour becomes #3B82F6. */
  function WithCategoryColumnDefaults(c: Category): (r: Category)
    ensures r.color != ""
    ensures c.color != "" ==> r == c
    ensures c.color == "" ==> r == c.(color := DefaultColor)
  {
    if c.color == "" then c.(color := DefaultColor) else c
  }

  /** The binding rules leave the colour unconstrained, so a request that binds
      can still carry a colour too wide for its column. */
  lemma BindingAdmitsTooWideColor()
    ensures var req := CreateCategoryRequest("Work", "#0123456789ABCDEF01234");
      CreateCategoryRequestBinds(req) && !FitsCategoryColumns(Category(0, req.name, req.color))
  {
  }
}
