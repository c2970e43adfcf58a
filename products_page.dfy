/**
 * The admin products page: the product list, the six-field add form, the submit flag
 * and a message line. The fetch calls are replaced by their replies, passed in; the
 * number parsing of the form's price and inventory is not modelled.
 */
module ProductsPage {
  import opened Wrappers
  import opened JsText
  import opened Seqs
  import opened Slugs
  import opened Entities
  import opened Http

  const AddedMessage := "Product added successfully!"
  const AddFailedMessage := "Failed to add product"
  const DeletedMessage := "Product deleted successfully!"
  const DeleteFailedMessage := "Failed to delete product"

  const FormFields: set<string> := {"name", "slug", "description", "price", "inventory", "categoryId"}

  const EmptyForm: map<string, string> :=
    map["name" := "", "slug" := "", "description" := "", "price" := "", "inventory" := "", "categoryId" := ""]

  /** `{ text, type }`, where the type is "", "success" or "error". */
  datatype Message = Message(text: string, kind: string)

  /** `categories[k]` is the first category with the id, the one `find` returns. */
  predicate FirstWithId(categories: seq<Category>, categoryId: string, k: int) {
    && 0 <= k < |categories|
    && categories[k].id == categoryId
    && forall j | 0 <= j < k :: categories[j].id != categoryId
  }

  /**
   * The category column: the name of the first category with the product's category id,
   * or "Unknown" when there is none or its name is empty.
   */
  function CategoryLabel(categories: seq<Category>, categoryId: string): (r: string)
    ensures (forall k | 0 <= k < |categories| :: categories[k].id != categoryId) ==> r == "Unknown"
    ensures forall k | FirstWithId(categories, categoryId, k) ::
      r == (if categories[k].name != "" then categories[k].name else "Unknown")
  {
    match IndexOf(categories, (c: Category) => c.id == categoryId)
    case None => "Unknown"
    case Some(i) =>
      FirstIsUnique(categories, categoryId, i);
      OrElse(Some(categories[i].name), "Unknown")
  }

  /** There is only one first category with a given id. */
  lemma FirstIsUnique(categories: seq<Category>, categoryId: string, i: int)
    requires FirstWithId(categories, categoryId, i)
    ensures forall k | FirstWithId(categories, categoryId, k) :: k == i
  {
    forall k | FirstWithId(categories, categoryId, k)
      ensures k == i
    {
      assert !(k < i) && !(i < k);
    }
  }

  /** With unique ids, a product shows its own category's name when that name is not empty. */
  lemma LabelOfStoredCategory(categories: seq<Category>, c: Category)
    requires UniqueCategoryIds(categories) && c in categories && c.name != ""
    ensures CategoryLabel(categories, c.id) == c.name
  {
    var i :| 0 <= i < |categories| && categories[i] == c;
    assert FirstWithId(categories, c.id, i);
  }

  class Page {
    var products: seq<Product>
    var categories: seq<Category>
    var form: map<string, string>
    var isSubmitting: bool
    var message: Message

    ghost predicate Valid()
      reads this
    {
      form.Keys == FormFields
    }

    constructor ()
      ensures Valid()
      ensures products == [] && categories == [] && form == EmptyForm
      ensures !isSubmitting && message == Message("", "")
    {
      products := [];
      categories := [];
      form := EmptyForm;
      isSubmitting := false;
      message := Message("", "");
    }

    /**
     * `handleChange`: sets the one field; typing a name while the slug is empty also
     * fills the slug from the name.
     */
    method HandleChange(field: string, value: string)
      requires Valid() && field in FormFields
      modifies this
      ensures Valid()
      ensures form ==
        if field == "name" && old(form["slug"]) == ""
        then old(form)[field := value]["slug" := ProductSlug(value)]
        else old(form)[field := value]
      ensures products == old(products) && categories == old(categories)
      ensures isSubmitting == old(isSubmitting) && message == old(message)
    {
      if field == "name" && form["slug"] == "" {
        form := form[field := value]["slug" := ProductSlug(value)];
      } else {
        form := form[field := value];
      }
    }

    /** The start of `handleSubmit`, before the request: submitting, message cleared. */
    method BeginSubmit()
      requires Valid()
      modifies this
      ensures Valid()
      ensures isSubmitting && message == Message("", "")
      ensures products == old(products) && categories == old(categories) && form == old(form)
    {
      isSubmitting := true;
      message := Message("", "");
    }

    /**
     * The rest of `handleSubmit`, given the reply: an ok reply's product is appended and
     * the form cleared; otherwise the reply's error, or the fallback text, is shown.
     */
    method FinishSubmit(reply: ClientReply<Product>)
      requires Valid()
      modifies this
      ensures Valid()
      ensures !isSubmitting && categories == old(categories)
      ensures reply.Delivered? ==>
        && products == old(products) + [reply.value]
        && form == EmptyForm
        && message == Message(AddedMessage, "success")
      ensures reply.Refused? ==>
        && products == old(products)
        && form == old(form)
        && message == Message(OrElse(reply.message, AddFailedMessage), "error")
    {
      isSubmitting := false;
      match reply
      case Delivered(product) =>
        products := products + [product];
        form := EmptyForm;
        message := Message(AddedMessage, "success");
      case Refused(error) =>
        message := Message(OrElse(error, AddFailedMessage), "error");
    }

    /**
     * `handleDeleteProduct`, given the reply: an ok reply drops every product with that
     * id from the list, keeping the rest in order; otherwise only the message changes.
     */
    method HandleDeleteProduct(id: string, reply: ClientReply<()>)
      requires Valid()
      modifies this
      ensures Valid()
      ensures form == old(form) && categories == old(categories) && isSubmitting == old(isSubmitting)
      ensures reply.Delivered? ==>
        && products == WithoutId(old(products), id)
        && (forall k | 0 <= k < |products| :: products[k].id != id)
        && message == Message(DeletedMessage, "success")
      ensures reply.Refused? ==>
        && products == old(products)
        && message == Message(OrElse(reply.message, DeleteFailedMessage), "error")
    {
      if reply.Delivered? {
        products := WithoutId(products, id);
        assert forall k | 0 <= k < |products| :: products[k] in products;
        message := Message(DeletedMessage, "success");
      } else {
        message := Message(OrElse(reply.message, DeleteFailedMessage), "error");
      }
    }
  }
}
