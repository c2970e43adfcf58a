/** The admin app's `/api/categories` route: list categories and create one. */
module CategoriesRoute {
  import opened Wrappers
  import opened JsText
  import opened Slugs
  import opened CategoryRules
  import opened Entities
  import opened Http
  import opened Tables

  const DuplicateSlugMessage := "A category with this slug already exists"
  const CreateFailedMessage := "Failed to create category"

  /** The request body; a field that is absent or null is None. */
  datatype CategoryRequest = CategoryRequest(name: Option<string>, slug: Option<string>, description: Option<string>)

  /**
   * GET: the rows, stored in creation order, returned newest first
   * (`orderBy: { createdAt: "desc" }`), none lost and none added.
   */
  function Get(rows: seq<Category>): (r: seq<Category>)
    ensures |r| == |rows|
    ensures forall i | 0 <= i < |rows| :: r[i] == rows[|rows| - 1 - i]
    ensures multiset(r) == multiset(rows)
  {
    if rows == [] then []
    else
      assert rows == [rows[0]] + rows[1..];
      Get(rows[1..]) + [rows[0]]
  }

  /** `body.description || null` */
  function StoredDescription(d: Option<string>): (r: Option<string>)
    ensures r.Some? <==> TruthyText(d)
    ensures r.Some? ==> r == d
  {
    if TruthyText(d) then d else None
  }

  /** The row POST inserts. */
  function NewCategory(id: string, body: CategoryRequest): (c: Category)
    requires body.name.Some? && body.slug.Some?
  {
    Category(id, body.name.value, body.slug.value, StoredDescription(body.description))
  }

  /** Every stored slug is one the rules accept. */
  ghost predicate SlugsAcceptable(rows: seq<Category>) {
    forall i | 0 <= i < |rows| :: |rows[i].slug| >= 2 && SlugShaped(rows[i].slug)
  }

  /**
   * POST: validation errors give 400 with the field-error map; a taken slug gives 409;
   * otherwise exactly one category is inserted and returned with 201. Every path but the
   * last leaves the table as it was.
   */
  method Post(table: CategoryTable, body: CategoryRequest, newId: string) returns (res: Response)
    requires table.Valid()
    modifies table
    ensures table.Valid()
    ensures SlugsAcceptable(old(table.rows)) ==> SlugsAcceptable(table.rows)
    ensures res.status in {201, 400, 409, 500}
    ensures res.status == 400 <==> !Acceptable(body.name, body.slug)
    ensures res.status == 400 ==> res.body == FieldErrorsBody(CategoryErrors(body.name, body.slug))
    ensures res.status == 409 <==> Acceptable(body.name, body.slug) && old(table.FindBySlug(body.slug.value)).Some?
    ensures res.status == 409 ==> res.body == ErrorBody(DuplicateSlugMessage)
    ensures res.status == 201 <==>
      && Acceptable(body.name, body.slug)
      && old(table.FindBySlug(body.slug.value)).None?
      && old(table.FindById(newId)).None?
    ensures res.status == 201 ==>
      && res.body == CategoryBody(NewCategory(newId, body))
      && table.rows == old(table.rows) + [NewCategory(newId, body)]
    ensures res.status == 500 ==> res.body == ErrorBody(CreateFailedMessage)
    ensures res.status != 201 ==> table.rows == old(table.rows)
  {
    var errors: map<string, string> := map[];
    if body.name.None? || |body.name.value| < 2 {
      errors := errors["name" := NameLengthMessage];
    }
    if body.slug.None? || |body.slug.value| < 2 {
      errors := errors["slug" := SlugLengthMessage];
    } else if !IsSlug(body.slug.value) {
      errors := errors["slug" := SlugPatternMessage];
    }
    assert errors == CategoryErrors(body.name, body.slug);
    if |errors| > 0 {
      return Response(400, FieldErrorsBody(errors));
    }
    assert errors == map[];

    var existing := table.FindBySlug(body.slug.value);
    if existing.Some? {
      return Response(409, ErrorBody(DuplicateSlugMessage));
    }

    var category := NewCategory(newId, body);
    var ok := table.Create(category);
    if !ok {
      return Response(500, ErrorBody(CreateFailedMessage));
    }
    return Response(201, CategoryBody(category));
  }

  /** Inserting a category never breaks a product's reference to an existing category. */
  lemma InsertKeepsReferences(products: seq<Product>, rows: seq<Category>, c: Category)
    requires ReferencesExist(products, rows)
    ensures ReferencesExist(products, rows + [c])
  {
    forall i | 0 <= i < |products|
      ensures exists d | d in rows + [c] :: d.id == products[i].categoryId
    {
      assert exists d | d in rows :: d.id == products[i].categoryId;
      var d :| d in rows && d.id == products[i].categoryId;
      assert d in rows + [c];
    }
  }
}
