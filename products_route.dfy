/** The admin app's `/api/products` route: list, create and delete products. */
module ProductsRoute {
  import opened Wrappers
  import opened JsText
  import opened Seqs
  import opened Entities
  import opened Http
  import opened Tables
  import opened NameOrder

  const PriceMessage := "Price must be a positive number"
  const InventoryMessage := "Inventory must be a positive integer"
  const InvalidCategoryMessage := "Invalid category"
  const DuplicateSlugMessage := "A product with this slug already exists"
  const CreateFailedMessage := "Failed to create product"
  const IdRequiredMessage := "Product ID is required"
  const NotFoundMessage := "Product not found"

  /** The request body; a field that is absent or null is None. */
  datatype ProductRequest = ProductRequest(
    name: Option<string>,
    slug: Option<string>,
    description: Option<string>,
    price: Option<real>,
    inventory: Option<real>,
    categoryId: Option<string>)

  /** The fields POST checks for, in the order it checks them. */
  const RequiredFields: seq<string> := ["name", "slug", "description", "price", "inventory", "categoryId"]

  function MissingFieldMessage(field: string): (m: string) {
    "Missing required field: " + field
  }

  /** `body[field]` is truthy; a name that is not a field of the body reads as undefined. */
  predicate FieldTruthy(body: ProductRequest, field: string) {
    if field == "name" then TruthyText(body.name)
    else if field == "slug" then TruthyText(body.slug)
    else if field == "description" then TruthyText(body.description)
    else if field == "price" then TruthyNumber(body.price)
    else if field == "inventory" then TruthyNumber(body.inventory)
    else if field == "categoryId" then TruthyText(body.categoryId)
    else false
  }

  predicate AllPresent(body: ProductRequest) {
    forall i | 0 <= i < |RequiredFields| :: FieldTruthy(body, RequiredFields[i])
  }

  /**
   * The first required field, in the order listed, whose value is falsy: `""`, `0`,
   * absent or null.
   */
  function MissingField(body: ProductRequest): (r: Option<string>)
    ensures r.None? <==> AllPresent(body)
    ensures r.Some? ==> exists k | 0 <= k < |RequiredFields| ::
      && RequiredFields[k] == r.value
      && !FieldTruthy(body, RequiredFields[k])
      && forall j | 0 <= j < k :: FieldTruthy(body, RequiredFields[j])
  {
    match IndexOf(RequiredFields, (f: string) => !FieldTruthy(body, f))
    case Some(k) => Some(RequiredFields[k])
    case None => None
  }

  /** The loop over the required fields that POST runs first. */
  method FirstMissingField(body: ProductRequest) returns (missing: Option<string>)
    ensures missing == MissingField(body)
  {
    var i := 0;
    while i < |RequiredFields|
      invariant 0 <= i <= |RequiredFields|
      invariant forall j | 0 <= j < i :: FieldTruthy(body, RequiredFields[j])
    {
      if !FieldTruthy(body, RequiredFields[i]) {
        return Some(RequiredFields[i]);
      }
      i := i + 1;
    }
    return None;
  }

  /** Every required field is truthy exactly when each of the six is. */
  lemma PresentFields(body: ProductRequest)
    ensures AllPresent(body) <==>
      && TruthyText(body.name) && TruthyText(body.slug) && TruthyText(body.description)
      && TruthyNumber(body.price) && TruthyNumber(body.inventory) && TruthyText(body.categoryId)
  {
    if AllPresent(body) {
      assert FieldTruthy(body, RequiredFields[0]) && FieldTruthy(body, RequiredFields[1]);
      assert FieldTruthy(body, RequiredFields[2]) && FieldTruthy(body, RequiredFields[3]);
      assert FieldTruthy(body, RequiredFields[4]) && FieldTruthy(body, RequiredFields[5]);
    }
  }

  /** `Number.isInteger` */
  predicate IsInteger(x: real) {
    x.Floor as real == x
  }

  /**
   * What POST replies without touching the product table, if anything: the checks in
   * the order the handler makes them.
   */
  function Rejection(body: ProductRequest, categories: CategoryTable, products: ProductTable): (r: Option<Response>)
    reads categories, products
    ensures r.Some? ==> r.value.status == 400 && r.value.body.ErrorBody?
    ensures r.None? <==> Accepted(body, categories, products)
    ensures MissingField(body).Some? ==>
      r == Some(Response(400, ErrorBody(MissingFieldMessage(MissingField(body).value))))
  {
    match MissingField(body)
    case Some(field) => Some(Response(400, ErrorBody(MissingFieldMessage(field))))
    case None =>
      PresentFields(body);
      ValueRejection(body, categories, products)
  }

  /** The checks after the presence loop: price, inventory, category, slug. */
  function ValueRejection(body: ProductRequest, categories: CategoryTable, products: ProductTable): (r: Option<Response>)
    requires TruthyText(body.slug) && TruthyText(body.categoryId)
    requires TruthyNumber(body.price) && TruthyNumber(body.inventory)
    reads categories, products
    ensures r.Some? ==> r.value.status == 400 && r.value.body.ErrorBody?
    ensures r.None? <==>
      && body.price.value > 0.0
      && body.inventory.value >= 1.0 && IsInteger(body.inventory.value)
      && categories.FindById(body.categoryId.value).Some?
      && products.FindBySlug(body.slug.value).None?
    // each check, in the order the handler makes them, once the earlier ones have passed
    ensures body.price.value < 0.0 ==> r == Some(Response(400, ErrorBody(PriceMessage)))
    ensures body.price.value >= 0.0 && (body.inventory.value < 0.0 || !IsInteger(body.inventory.value)) ==>
      r == Some(Response(400, ErrorBody(InventoryMessage)))
    ensures
      (&& body.price.value >= 0.0 && body.inventory.value >= 0.0 && IsInteger(body.inventory.value)
       && categories.FindById(body.categoryId.value).None?) ==>
      r == Some(Response(400, ErrorBody(InvalidCategoryMessage)))
    ensures
      (&& body.price.value >= 0.0 && body.inventory.value >= 0.0 && IsInteger(body.inventory.value)
       && categories.FindById(body.categoryId.value).Some?
       && products.FindBySlug(body.slug.value).Some?) ==>
      r == Some(Response(400, ErrorBody(DuplicateSlugMessage)))
  {
    if body.price.value < 0.0 then
      Some(Response(400, ErrorBody(PriceMessage)))
    else if body.inventory.value < 0.0 || !IsInteger(body.inventory.value) then
      Some(Response(400, ErrorBody(InventoryMessage)))
    else
      WholeAndPositive(body.inventory.value);
      if categories.FindById(body.categoryId.value).None? then
        Some(Response(400, ErrorBody(InvalidCategoryMessage)))
      else if products.FindBySlug(body.slug.value).Some? then
        Some(Response(400, ErrorBody(DuplicateSlugMessage)))
      else
        None
  }

  /** A complete body whose category id references no stored category gets "Invalid category". */
  lemma UnknownCategoryIsInvalid(body: ProductRequest, categories: CategoryTable, products: ProductTable)
    requires TruthyText(body.name) && TruthyText(body.slug) && TruthyText(body.description)
    requires TruthyNumber(body.price) && TruthyNumber(body.inventory) && TruthyText(body.categoryId)
    requires body.price.value >= 0.0 && body.inventory.value >= 0.0 && IsInteger(body.inventory.value)
    requires categories.FindById(body.categoryId.value).None?
    ensures Rejection(body, categories, products) == Some(Response(400, ErrorBody(InvalidCategoryMessage)))
  {
    PresentFields(body);
  }

  /** A whole number that is not negative and not zero is at least one. */
  lemma WholeAndPositive(x: real)
    requires IsInteger(x) && x >= 0.0
    ensures x != 0.0 ==> x >= 1.0
  {
    if x != 0.0 {
      assert x.Floor >= 1;
    }
  }

  /**
   * The bodies POST accepts, stated directly: non-empty texts, a price above zero, a
   * whole inventory of at least one, an existing category and an unused slug.
   */
  predicate Accepted(body: ProductRequest, categories: CategoryTable, products: ProductTable)
    reads categories, products
  {
    && TruthyText(body.name) && TruthyText(body.slug) && TruthyText(body.description)
    && TruthyText(body.categoryId)
    && body.price.Some? && body.price.value > 0.0
    && body.inventory.Some? && body.inventory.value >= 1.0 && IsInteger(body.inventory.value)
    && categories.FindById(body.categoryId.value).Some?
    && products.FindBySlug(body.slug.value).None?
  }

  /** The row POST inserts. */
  function NewProduct(id: string, body: ProductRequest): (p: Product)
    requires body.name.Some? && body.slug.Some? && body.description.Some?
    requires body.price.Some? && body.inventory.Some? && body.categoryId.Some?
  {
    Product(id, body.name.value, body.slug.value, body.description.value,
            body.price.value, body.inventory.value.Floor, body.categoryId.value)
  }

  /** A price of 0 is reported as a missing field, not as an invalid price. */
  lemma ZeroPriceIsMissing(body: ProductRequest, categories: CategoryTable, products: ProductTable)
    requires TruthyText(body.name) && TruthyText(body.slug) && TruthyText(body.description)
    requires body.price == Some(0.0)
    ensures Rejection(body, categories, products) == Some(Response(400, ErrorBody(MissingFieldMessage("price"))))
  {
    var m := MissingField(body);
    var k :| 0 <= k < |RequiredFields| && RequiredFields[k] == m.value
      && !FieldTruthy(body, RequiredFields[k])
      && forall j | 0 <= j < k :: FieldTruthy(body, RequiredFields[j]);
    assert !FieldTruthy(body, RequiredFields[3]);
  }

  /** An inventory of 0 is reported as a missing field, not as an invalid inventory. */
  lemma ZeroInventoryIsMissing(body: ProductRequest, categories: CategoryTable, products: ProductTable)
    requires TruthyText(body.name) && TruthyText(body.slug) && TruthyText(body.description)
    requires TruthyNumber(body.price) && body.inventory == Some(0.0)
    ensures Rejection(body, categories, products) == Some(Response(400, ErrorBody(MissingFieldMessage("inventory"))))
  {
    var m := MissingField(body);
    var k :| 0 <= k < |RequiredFields| && RequiredFields[k] == m.value
      && !FieldTruthy(body, RequiredFields[k])
      && forall j | 0 <= j < k :: FieldTruthy(body, RequiredFields[j]);
    assert !FieldTruthy(body, RequiredFields[4]);
  }

  /** An accepted body makes a row whose numbers are positive and whose category exists. */
  lemma AcceptedRowIsSound(body: ProductRequest, categories: CategoryTable, products: ProductTable, id: string)
    requires Rejection(body, categories, products).None?
    ensures NewProduct(id, body).price > 0.0
    ensures NewProduct(id, body).inventory >= 1
    ensures NewProduct(id, body).inventory as real == body.inventory.value
    ensures exists c | c in categories.rows :: c.id == NewProduct(id, body).categoryId
  {
    assert categories.FindById(body.categoryId.value).value in categories.rows;
  }

  /**
   * POST: a rejected body gets its 400 reply and the table is untouched; an accepted one
   * is inserted and returned with its category and 201, unless the insert fails (500).
   */
  method Post(categories: CategoryTable, products: ProductTable, body: ProductRequest, newId: string)
    returns (res: Response)
    requires categories.Valid() && products.Valid()
    modifies products
    ensures products.Valid()
    ensures ReferencesExist(old(products.rows), categories.rows) ==> ReferencesExist(products.rows, categories.rows)
    ensures res.status in {201, 400, 500}
    ensures res.status == 400 <==> old(Rejection(body, categories, products)).Some?
    ensures res.status == 400 ==> res == old(Rejection(body, categories, products)).value
    ensures res.status == 201 <==>
      old(Rejection(body, categories, products)).None? && old(products.FindById(newId)).None?
    ensures res.status == 201 ==>
      && AllPresent(body)
      && categories.FindById(body.categoryId.value).Some?
      && products.rows == old(products.rows) + [NewProduct(newId, body)]
      && res.body == ProductBody(NewProduct(newId, body), Summary(categories.FindById(body.categoryId.value).value))
    ensures res.status == 500 ==> res.body == ErrorBody(CreateFailedMessage)
    ensures res.status != 201 ==> products.rows == old(products.rows)
  {
    var missing := FirstMissingField(body);
    if missing.Some? {
      return Response(400, ErrorBody(MissingFieldMessage(missing.value)));
    }
    PresentFields(body);

    if body.price.value < 0.0 {
      return Response(400, ErrorBody(PriceMessage));
    }
    var inventory := body.inventory.value;
    if inventory < 0.0 || !IsInteger(inventory) {
      return Response(400, ErrorBody(InventoryMessage));
    }

    var category := categories.FindById(body.categoryId.value);
    if category.None? {
      return Response(400, ErrorBody(InvalidCategoryMessage));
    }
    var existing := products.FindBySlug(body.slug.value);
    if existing.Some? {
      return Response(400, ErrorBody(DuplicateSlugMessage));
    }

    var product := NewProduct(newId, body);
    ghost var before := products.rows;
    var ok := products.Create(product);
    if !ok {
      return Response(500, ErrorBody(CreateFailedMessage));
    }
    if ReferencesExist(before, categories.rows) {
      AppendKeepsReferences(before, categories.rows, product, category.value);
    }
    return Response(201, ProductBody(product, Summary(category.value)));
  }

  lemma AppendKeepsReferences(ps: seq<Product>, cs: seq<Category>, p: Product, c: Category)
    requires ReferencesExist(ps, cs) && c in cs && c.id == p.categoryId
    ensures ReferencesExist(ps + [p], cs)
  {
    forall i | 0 <= i < |ps + [p]|
      ensures exists d | d in cs :: d.id == (ps + [p])[i].categoryId
    {
      if i < |ps| {
        assert (ps + [p])[i] == ps[i];
      }
    }
  }

  /** Removing products never breaks the remaining products' references. */
  lemma FilterKeepsReferences(ps: seq<Product>, cs: seq<Category>, id: string)
    requires ReferencesExist(ps, cs)
    ensures ReferencesExist(WithoutId(ps, id), cs)
  {
    var r := WithoutId(ps, id);
    forall i | 0 <= i < |r|
      ensures exists d | d in cs :: d.id == r[i].categoryId
    {
      assert r[i] in r;
      var k :| 0 <= k < |ps| && ps[k] == r[i];
      assert exists d | d in cs :: d.id == ps[k].categoryId;
    }
  }

  /**
   * DELETE: a missing or empty `id` gets 400, an id with no product 404; otherwise that
   * one product is removed and the reply is `{ success: true }`.
   */
  method Delete(products: ProductTable, id: Option<string>, ghost categories: seq<Category>)
    returns (res: Response)
    requires products.Valid()
    modifies products
    ensures products.Valid()
    ensures ReferencesExist(old(products.rows), categories) ==> ReferencesExist(products.rows, categories)
    ensures !TruthyText(id) ==> res == Response(400, ErrorBody(IdRequiredMessage))
    ensures TruthyText(id) && old(products.FindById(id.value)).None? ==>
      res == Response(404, ErrorBody(NotFoundMessage))
    ensures TruthyText(id) && old(products.FindById(id.value)).Some? ==>
      && res == Response(200, SuccessBody)
      && products.rows == WithoutId(old(products.rows), id.value)
      && |products.rows| == |old(products.rows)| - 1
    ensures res.status != 200 ==> products.rows == old(products.rows)
    ensures TruthyText(id) ==> products.FindById(id.value).None?
  {
    if !TruthyText(id) {
      return Response(400, ErrorBody(IdRequiredMessage));
    }
    var product := products.FindById(id.value);
    if product.None? {
      return Response(404, ErrorBody(NotFoundMessage));
    }
    if ReferencesExist(products.rows, categories) {
      FilterKeepsReferences(products.rows, categories, id.value);
    }
    var ok := products.Delete(id.value);
    return Response(200, SuccessBody);
  }

  /** GET: every product ordered by name. */
  function Get(products: ProductTable): (r: seq<Product>)
    reads products
    ensures SortedByName(r)
    ensures multiset(r) == multiset(products.rows)
  {
    SortByName(products.rows)
  }
}
