/**
 * The admin categories page: a form for name, slug and description, its field errors,
 * the list of categories shown, and a notification line. The fetch calls are replaced
 * by their replies, passed in; the timer that clears the notification is not modelled.
 */
module CategoriesPage {
  import opened Wrappers
  import opened JsText
  import opened Slugs
  import opened CategoryRules
  import opened Entities
  import opened Http
  import CategoriesRoute

  const SuccessMessage := "Category created successfully"
  const FailureMessage := "Failed to create category"

  /** The form's inputs, by their `name` attributes. */
  const FormFields: set<string> := {"name", "slug", "description"}

  const EmptyForm: map<string, string> := map["name" := "", "slug" := "", "description" := ""]

  datatype Notification = Notification(message: string, kind: NoticeKind)
  datatype NoticeKind = NoKind | Success | Failure

  class Page {
    var categories: seq<Category>
    var form: map<string, string>
    var errors: map<string, string>
    var notification: Notification
    var loading: bool

    ghost predicate Valid()
      reads this
    {
      form.Keys == FormFields
    }

    constructor ()
      ensures Valid()
      ensures categories == [] && form == EmptyForm && errors == map[] && !loading
      ensures notification == Notification("", NoKind)
    {
      categories := [];
      form := EmptyForm;
      errors := map[];
      notification := Notification("", NoKind);
      loading := false;
    }

    /**
     * `validateForm`: the same rules as the server's POST, on the form's strings; stores
     * the error map and answers whether it is empty.
     */
    method ValidateForm() returns (ok: bool)
      requires Valid()
      modifies this
      ensures Valid()
      ensures errors == CategoryErrors(Some(form["name"]), Some(form["slug"]))
      ensures ok <==> errors == map[]
      ensures ok <==> Acceptable(Some(form["name"]), Some(form["slug"]))
      ensures categories == old(categories) && form == old(form)
      ensures notification == old(notification) && loading == old(loading)
    {
      var newErrors: map<string, string> := map[];
      if form["name"] == "" || |form["name"]| < 2 {
        newErrors := newErrors["name" := NameLengthMessage];
      }
      if form["slug"] == "" || |form["slug"]| < 2 {
        newErrors := newErrors["slug" := SlugLengthMessage];
      } else if !IsSlug(form["slug"]) {
        newErrors := newErrors["slug" := SlugPatternMessage];
      }
      assert newErrors == CategoryErrors(Some(form["name"]), Some(form["slug"]));
      errors := newErrors;
      ok := |newErrors| == 0;
    }

    /**
     * `handleInputChange`: sets the field; a field showing an error has it reset to "";
     * typing a name while the slug is empty fills the slug from the name.
     */
    method HandleInputChange(field: string, value: string)
      requires Valid() && field in FormFields
      modifies this
      ensures Valid()
      ensures form ==
        if field == "name" && old(form["slug"]) == ""
        then old(form)[field := value]["slug" := CategorySlug(value)]
        else old(form)[field := value]
      ensures errors ==
        if field in old(errors) && old(errors[field]) != "" then old(errors)[field := ""] else old(errors)
      ensures categories == old(categories) && notification == old(notification) && loading == old(loading)
    {
      var slugWasEmpty := form["slug"] == "";
      form := form[field := value];
      if field in errors && errors[field] != "" {
        errors := errors[field := ""];
      }
      if field == "name" && slugWasEmpty {
        form := form["slug" := CategorySlug(value)];
      }
    }

    /**
     * The first half of `handleSubmit`: validation, and the request it sends when the
     * form passes, after which it is loading.
     */
    method Submit() returns (request: Option<CategoriesRoute.CategoryRequest>)
      requires Valid()
      modifies this
      ensures Valid()
      ensures errors == CategoryErrors(Some(form["name"]), Some(form["slug"]))
      ensures request.Some? <==> errors == map[]
      ensures request.Some? ==>
        && request.value == CategoriesRoute.CategoryRequest(Some(form["name"]), Some(form["slug"]), Some(form["description"]))
        && Acceptable(request.value.name, request.value.slug)
        && loading
      ensures request.None? ==> loading == old(loading)
      ensures categories == old(categories) && form == old(form) && notification == old(notification)
    {
      var ok := ValidateForm();
      if !ok {
        return None;
      }
      loading := true;
      request := Some(CategoriesRoute.CategoryRequest(Some(form["name"]), Some(form["slug"]), Some(form["description"])));
    }

    /**
     * The second half of `handleSubmit`, given the reply: an ok reply's category is
     * appended and the form cleared; any other reply only sets the failure notification.
     */
    method FinishSubmit(reply: ClientReply<Category>)
      requires Valid()
      modifies this
      ensures Valid()
      ensures !loading && errors == old(errors)
      ensures reply.Delivered? ==>
        && categories == old(categories) + [reply.value]
        && form == EmptyForm
        && notification == Notification(SuccessMessage, Success)
      ensures reply.Refused? ==>
        && categories == old(categories)
        && form == old(form)
        && notification == Notification(FailureMessage, Failure)
    {
      loading := false;
      match reply
      case Delivered(category) =>
        categories := categories + [category];
        notification := Notification(SuccessMessage, Success);
        form := EmptyForm;
      case Refused(_) =>
        notification := Notification(FailureMessage, Failure);
    }
  }
}
