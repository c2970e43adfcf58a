/** The JSON replies of the route handlers: a status code and a body. */
module Http {
  import opened Wrappers
  import opened Entities

  datatype Body =
    | ErrorBody(error: string)                                 // { error }
    | FieldErrorsBody(errors: map<string, string>)             // { errors }
    | CategoryBody(category: Category)                         // the created category
    | ProductBody(product: Product, joined: CategorySummary)   // the created product with its category
    | SuccessBody                                              // { success: true }
    | LoginBody(publicUser: PublicUser, token: string)         // { user, token }
    | UserBody(user: User)                                     // the created user record
    | CreatedUserBody(created: PublicUser)                     // the created user, password removed

  datatype Response = Response(status: int, body: Body)

  /**
   * What a page's `fetch` call comes back with: an ok reply carrying the parsed body,
   * or a non-ok one carrying the body's `error` field if it has one.
   */
  datatype ClientReply<T> = Delivered(value: T) | Refused(message: Option<string>)
}
