# Store admin and login: a Dafny model

This project models the decision logic of a small online store, written in TypeScript
with Next.js and Prisma. It has two apps:

- **The admin app** has two API routes and two pages.
  - `/api/categories` lists categories and creates one. The name, the slug and its pattern are validated, and a duplicate slug gives 409.
  - `/api/products` lists, creates and deletes products. Validation checks required fields, price, inventory, the category reference and a duplicate slug.
  - The categories and products pages keep form state, field errors, slugs generated from the typed name, and the list shown after a create or delete.
- **The web app** has two API routes and one page.
  - `/api/auth/login` looks the user up by lowercased email, compares the password as a plain string, and replies with a token and the record without its password.
  - `/api/auth/register` checks for a duplicate email, then inserts the user with the email lowercased.
  - The login page has a validation map and a submit gate.

How it is modelled:

- **Tables.** The database tables are classes holding their rows (`Tables.CategoryTable`, `Tables.ProductTable`, `Tables.UserTable`).
  - Their `Create` enforces the unique columns, as the database does.
  - A failing insert is the ORM exception that the route's `catch` turns into a 500.
- **Routes.** A route that writes is a method over the tables. The login route only reads, so it is a function.
- **Request bodies.** Bodies are records of optional fields. `None` stands for a field that is absent or null.
  - JavaScript truthiness is modelled exactly for these fields: `""` and `0` are falsy.
- **Pages.** Each page is a class whose fields are the component's state.
  - Each `fetch` is split at its `await`. The part before the request is one method, and the part after the reply is another, which takes the reply as a parameter (`Http.ClientReply`).
- **Inputs from outside.** Generated ids (`newId`) and the token signer (`sign`) are parameters.

Modules: `Wrappers`, `JsText` (truthiness, `toLowerCase`, `\s`), `Seqs` (`find`,
`filter`), `Slugs` (the slug pattern and both generators), `CategoryRules`, `Entities`,
`Http`, `Tables`, `NameOrder`, `CategoriesRoute`, `ProductsRoute`, `LoginRoute`,
`RegisterRoute`, `CategoriesPage`, `ProductsPage`, `LoginPage`.

## Model

| member | source | states |
|---|---|---|
| JsText.ToLowerIdempotent | apps/web/app/api/auth/login/route.ts:26 | lowering twice is lowering once: an email that is already lowercase is unchanged by the login lookup's `toLowerCase` |
| JsText.ToLowerKeepsLowercase | apps/admin/app/categories/page.tsx:93 | a text without ASCII capitals is unchanged by `toLowerCase` |
| Slugs.SlugPatternIff | apps/admin/app/api/categories/route.ts:45 | `^[a-z0-9]+(?:-[a-z0-9]+)*$` accepts a string exactly when it is non-empty, uses only `[a-z0-9-]`, and has no leading, trailing or doubled hyphen |
| Slugs.HyphenateRun | apps/admin/app/categories/page.tsx:94 | `.replace(/\s+/g, "-")` turns each maximal run of white space into exactly one hyphen and leaves the text around it alone |
| Slugs.HyphenateChars | apps/admin/app/categories/page.tsx:94 | after the replacement no white space is left, and every character is a hyphen or comes from the input |
| Slugs.HyphenateNoSpaces | apps/admin/app/categories/page.tsx:94 | a string without white space is unchanged by the replacement |
| Slugs.CategorySlugAlphabet | apps/admin/app/categories/page.tsx:92-95 | a generated category slug uses only `[a-z0-9-]` |
| Slugs.CategorySlugIdempotent | apps/admin/app/categories/page.tsx:92-95 | generating a category slug from a generated slug returns it unchanged |
| Slugs.ValidSlugIsKept | apps/admin/app/categories/page.tsx:92-95 | a name that already matches the slug pattern is its own generated slug |
| Slugs.SpacedHyphenIsNotSlug | apps/admin/app/categories/page.tsx:92-95 | the generator need not produce a valid slug: `x - y` gives `x---y`, which the pattern rejects |
| Slugs.LeadingSpaceIsNotSlug | apps/admin/app/categories/page.tsx:92-95 | leading white space gives a leading hyphen, which the pattern rejects |
| Slugs.ProductSlugAlphabet | apps/admin/app/products/page.tsx:79 | a generated product slug uses only `[a-z0-9_-]`; unlike the category generator, underscores survive |
| Slugs.CategorySlugDropsUnderscores | apps/admin/app/products/page.tsx:79 | the product slug with its underscores removed is the category slug of the same name |
| CategoryRules.CategoryErrors | apps/admin/app/api/categories/route.ts:37-48 | the error map has a `name` entry exactly when the name is missing or shorter than 2. It has a `slug` entry exactly when the slug is missing, short or off-pattern. The slug entry is the length message exactly when the slug is missing or short, and the pattern message otherwise. The map is empty exactly when both are acceptable |
| CategoryRules.BothErrorsTogether | apps/admin/app/api/categories/route.ts:39-48 | a name error and a slug error are reported together |
| CategoriesRoute.Get | apps/admin/app/api/categories/route.ts:16-18 | GET lists the rows newest first (the reverse of creation order), none lost and none added |
| CategoriesRoute.StoredDescription | apps/admin/app/api/categories/route.ts:75 | the stored description is null exactly when the given one is falsy, and otherwise is the given one |
| CategoriesRoute.Post | apps/admin/app/api/categories/route.ts:32-87 | 400 with the field-error map exactly when the rules reject name or slug; 409 exactly when they pass and the slug is taken; 201 exactly when, in addition, the new id is free, in which case exactly the new category is appended and returned; 500 otherwise. The table is unchanged on every path but 201. Unique ids and slugs, and valid stored slugs, are preserved |
| CategoriesRoute.InsertKeepsReferences | apps/admin/app/api/categories/route.ts:71-77 | adding a category never breaks a product's reference to an existing category |
| Tables.CategoryTable.FindBySlug | apps/admin/app/api/categories/route.ts:59-61 | the lookup finds a stored row with that slug, or none exactly when no row has it |
| Tables.CategoryTable.FindById | apps/admin/app/api/products/route.ts:65-67 | the lookup finds a stored row with that id, or none exactly when no row has it |
| Tables.CategoryTable.Create | apps/admin/app/api/categories/route.ts:71-77 | the insert succeeds exactly when id and slug are both unused; it then appends the row, and otherwise changes nothing; uniqueness is preserved |
| Tables.ProductTable.FindById | apps/admin/app/api/products/route.ts:134-136 | the lookup finds a stored row with that id, or none exactly when no row has it |
| Tables.ProductTable.FindBySlug | apps/admin/app/api/products/route.ts:77-79 | the lookup finds a stored row with that slug, or none exactly when no row has it |
| Tables.ProductTable.Create | apps/admin/app/api/products/route.ts:89-107 | the insert succeeds exactly when id and slug are both unused; it then appends the row, and otherwise changes nothing; uniqueness is preserved |
| Tables.ProductTable.Delete | apps/admin/app/api/products/route.ts:146-148 | the delete succeeds exactly when a row has the id; the rows become those without that id (one fewer on success, the same otherwise); uniqueness is preserved |
| Tables.UserTable.FindByEmail | apps/web/app/api/auth/login/route.ts:25-27 | the lookup finds the record stored under exactly that email, or none when there is none |
| Tables.UserTable.Create | apps/web/app/api/auth/register/route.ts:37-42 | the insert succeeds exactly when email and id are both unused; it then adds the record under its email, and otherwise changes nothing |
| Entities.WithoutIdRemovesOne | apps/admin/app/products/page.tsx:151 | with unique ids, filtering out a present id removes exactly that one product and keeps the rest in order |
| Entities.WithoutAbsentId | apps/admin/app/products/page.tsx:151 | filtering out an id that no product has changes nothing |
| Entities.PasswordRoundTrip | apps/web/app/api/auth/login/route.ts:72 | taking the password out loses nothing else: putting it back gives the stored record |
| ProductsRoute.MissingField | apps/admin/app/api/products/route.ts:39-47 | the reported field is the first of name, slug, description, price, inventory, categoryId whose value is falsy; there is none exactly when all six are truthy |
| ProductsRoute.FirstMissingField | apps/admin/app/api/products/route.ts:39-47 | the loop over the required fields returns exactly the first falsy field |
| ProductsRoute.Rejection | apps/admin/app/api/products/route.ts:39-86 | every rejection is a 400 with an error message. A body with a falsy required field gets "Missing required field: " and the first such field. A body is rejected exactly when it is not `Accepted`: non-empty texts, a price above zero, a whole inventory of at least one, an existing category and an unused slug |
| ProductsRoute.ValueRejection | apps/admin/app/api/products/route.ts:50-86 | once all fields are present, the checks run in this order, each once the earlier ones pass: a negative price gives the price message; a negative or fractional inventory gives the inventory message; an unknown category gives "Invalid category"; a taken slug gives the duplicate-slug message. The body passes exactly when the price is positive, the inventory is a whole number of at least one, the category exists and the slug is unused |
| ProductsRoute.UnknownCategoryIsInvalid | apps/admin/app/api/products/route.ts:64-74 | a complete body with a valid price and inventory whose category id references no stored category gets 400 "Invalid category" |
| ProductsRoute.ZeroPriceIsMissing | apps/admin/app/api/products/route.ts:41 | a price of 0 is reported as the missing field `price`, although the later check would accept it |
| ProductsRoute.ZeroInventoryIsMissing | apps/admin/app/api/products/route.ts:41 | an inventory of 0 is reported as the missing field `inventory`, although the later check would accept it |
| ProductsRoute.AcceptedRowIsSound | apps/admin/app/api/products/route.ts:50-74 | an accepted body makes a row with a positive price, a whole inventory of at least one, and an existing category |
| ProductsRoute.Post | apps/admin/app/api/products/route.ts:34-117 | a rejected body gets exactly its 400 reply. The reply is 201 exactly when the body is accepted and the new id is free; then exactly the new product is appended and returned with its category's id, name and slug. Otherwise the reply is 500. The table is unchanged on every path but 201. Unique ids and slugs, and the category references, are preserved |
| ProductsRoute.AppendKeepsReferences | apps/admin/app/api/products/route.ts:65-107 | appending a product whose category exists keeps every product's category reference valid |
| ProductsRoute.FilterKeepsReferences | apps/admin/app/api/products/route.ts:146-148 | deleting products keeps the remaining products' category references valid |
| ProductsRoute.Delete | apps/admin/app/api/products/route.ts:120-158 | a missing or empty id gives 400, an unknown id 404, both leaving the table alone. Otherwise the reply is `{ success: true }` and exactly that product is removed. Afterwards no product has that id, and the category references are preserved |
| ProductsRoute.Get | apps/admin/app/api/products/route.ts:18-20 | GET lists every product, none lost and none added, ordered by name |
| NameOrder.NameLeTotal | apps/admin/app/api/products/route.ts:18-20 | any two names are ordered one way or the other |
| NameOrder.NameLeTransitive | apps/admin/app/api/products/route.ts:18-20 | the name order is transitive |
| NameOrder.NameLeAntisymmetric | apps/admin/app/api/products/route.ts:18-20 | names ordered both ways are equal |
| NameOrder.SortByName | apps/admin/app/api/products/route.ts:18-20 | the result is ordered by name and is a permutation of the rows |
| NameOrder.InsertByName | apps/admin/app/api/products/route.ts:18-20 | inserting into a name-ordered list keeps it ordered and adds exactly the one product |
| LoginRoute.Post | apps/web/app/api/auth/login/route.ts:5-98 | 400 exactly when email or password is falsy. 401 with "Invalid email or password" exactly when, besides, no record under the lowercased email has that password. Otherwise 200 with that record minus its password, and the token signed over its id and email |
| LoginRoute.UnknownAndWrongAlike | apps/web/app/api/auth/login/route.ts:31-57 | an unknown email and a wrong password get identical replies |
| LoginRoute.EmailCaseIgnored | apps/web/app/api/auth/login/route.ts:25-27 | two emails that differ only in the case of ASCII letters get identical replies |
| LoginRoute.StoredUserLogsIn | apps/web/app/api/auth/login/route.ts:45-83 | a stored user logs in with the email in any case and the stored password, and gets back every field but the password |
| RegisterRoute.NewUser | apps/web/app/api/auth/register/route.ts:34-42 | the created record has the email lowercased and the password as given, and is not an admin |
| RegisterRoute.InsertKeepsKeysLowercase | apps/web/app/api/auth/register/route.ts:39 | storing under the lowercased email keeps every stored email free of ASCII capitals |
| RegisterRoute.Reply | apps/web/app/api/auth/register/route.ts:6-71 | as written: 409 exactly when the email as sent is stored. 201 exactly when both fields are present, the email is free both as sent and lowercased, and the id is free. The 201 body is the whole new record. Otherwise 500 |
| RegisterRoute.Post | apps/web/app/api/auth/register/route.ts:6-71 | the handler as written replies `Reply` of the table before the request; it adds the new record exactly on 201, and otherwise leaves the table alone |
| RegisterRoute.CaseVariantGets500 | apps/web/app/api/auth/register/route.ts:15-42 | an email that is not stored as sent but is stored lowercased gets 500, not 409 |
| RegisterRoute.CaseVariantExample | apps/web/app/api/auth/register/route.ts:15-42 | with `a` stored, registering `A` gets 500 |
| RegisterRoute.CreatedReplyShowsPassword | apps/web/app/api/auth/register/route.ts:45-52 | the 201 body carries the password that was sent |
| RegisterRoute.NormalizedReply | apps/web/app/api/auth/register/route.ts:15-52 | as intended: 409 exactly when the lowercased email is stored; 201 exactly when both fields are present and email and id are free, with the new record minus its password; otherwise 500 |
| RegisterRoute.PostNormalized | apps/web/app/api/auth/register/route.ts:15-52 | the corrected handler replies `NormalizedReply` and adds the new record exactly on 201 |
| RegisterRoute.CaseVariantGets409 | apps/web/app/api/auth/register/route.ts:15-42 | corrected: an address stored with different letter case is a duplicate (409) |
| RegisterRoute.NormalizedNeverHitsEmailConstraint | apps/web/app/api/auth/register/route.ts:15-42 | corrected: with both fields present and a free id, the reply is 201 or 409, never 500 |
| CategoriesPage.Page.ValidateForm | apps/admin/app/categories/page.tsx:64-79 | the form applies the server's rules: the stored error map is the server's map for the form's name and slug, and the answer is true exactly when it is empty |
| CategoriesPage.Page.HandleInputChange | apps/admin/app/categories/page.tsx:81-98 | the field is set. A field showing an error has it reset to "". Typing a name while the slug is empty also sets the slug to the one generated from the name. Nothing else changes |
| CategoriesPage.Page.Submit | apps/admin/app/categories/page.tsx:100-116 | a request is sent exactly when validation leaves no error. It carries the form's fields, and the server's rules accept its name and slug |
| CategoriesPage.Page.FinishSubmit | apps/admin/app/categories/page.tsx:118-156 | an ok reply's category is appended, the form is cleared and success is shown; any other reply leaves list and form alone and shows the failure text |
| ProductsPage.CategoryLabel | apps/admin/app/products/page.tsx:332 | the label is the name of the first category with the id when that name is not empty, and "Unknown" when no category has the id or the first one's name is empty |
| ProductsPage.LabelOfStoredCategory | apps/admin/app/products/page.tsx:332 | with unique ids, a product shows its own category's name when that name is not empty |
| ProductsPage.Page.HandleChange | apps/admin/app/products/page.tsx:71-87 | the one field is set; typing a name while the slug is empty also sets the generated product slug; nothing else changes |
| ProductsPage.Page.BeginSubmit | apps/admin/app/products/page.tsx:89-92 | submitting starts with the flag set and the message cleared |
| ProductsPage.Page.FinishSubmit | apps/admin/app/products/page.tsx:108-136 | an ok reply's product is appended and the six fields are cleared. Any other reply shows the reply's error, or "Failed to add product", and leaves list and form alone. The flag ends cleared |
| ProductsPage.Page.HandleDeleteProduct | apps/admin/app/products/page.tsx:139-160 | an ok reply drops every product with that id, keeping the others in order; any other reply only sets the error message |
| LoginPage.LoginErrors | apps/web/app/login/page.tsx:27-37 | "Email is required" exactly for an empty email. "Email is invalid" exactly for a non-empty email the pattern rejects. "Password is required" exactly for an empty password. The map is empty exactly when the email matches and the password is not empty |
| LoginPage.LooksLikeEmailInContext | apps/web/app/login/page.tsx:31 | the email pattern is not anchored: text around a match does not spoil it |
| LoginPage.LooksLikeEmailShape | apps/web/app/login/page.tsx:31 | a matching email has an `@` and a `.` and at least five characters |
| LoginPage.PlainAddressMatches | apps/web/app/login/page.tsx:31 | `x@y.z` matches for any non-space x, y, z |
| LoginPage.SpaceAfterAtFails | apps/web/app/login/page.tsx:31 | a space right after the only `@` makes the pattern fail |
| LoginPage.SentRequestIsComplete | apps/web/app/login/page.tsx:42-59 | a request the page sends is never turned away by the login route as incomplete |
| LoginPage.Page.HandleChange | apps/web/app/login/page.tsx:19-25 | the one field is set and nothing else changes |
| LoginPage.Page.BeginSubmit | apps/web/app/login/page.tsx:39-59 | with any validation error, the errors are stored and no request is sent. Otherwise the request carries the form's email and password, the errors are kept, and the page is submitting |
| LoginPage.Page.FinishSubmit | apps/web/app/login/page.tsx:61-79 | an ok reply sends the browser home; any other reply replaces the errors by the reply's error, or "Login failed", under `form`; the flag ends cleared |

## Left out

- Tables.ProductTable.Create: the product columns are modelled without their range, precision or defaults.
- ProductsRoute.Post: relies on `Tables.ProductTable.Create`, so it inherits the same gap. The consequences follow.
  - An inventory such as `1e300` passes every check, but an integer column rejects it on insert. The source then replies 500 where the model replies 201.
  - The `isActive` column and its default are not part of `Entities.Product`, so the model's 201 body omits it.
  - The database schema is not part of this model.
- Timestamps are not fields. A table's rows are kept in creation order, so "newest first" is the reverse of that order.
- The database collation is not modelled. Products are ordered by name, comparing character by character.
- Every lookup and unique column compares strings exactly: email, slug and id.
  - The database provider is not named in the source, and a case-insensitive collation, such as MySQL's default, would make `findUnique` and the unique columns ignore letter case.
  - `Tables.UserTable`, `Tables.CategoryTable` and `Tables.ProductTable` assume the case-sensitive comparison of PostgreSQL and SQLite.
- The category join in the product list (apps/admin/app/api/products/route.ts:8-17) is not modelled. The join in the create reply is modelled.
- Every `GET`'s `catch` (500 "Failed to fetch …") is left out. It fires only when the database is unreachable, and the tables here are always reachable.
- The token is assumed to come from the library's signing function. apps/web/app/api/auth/login/route.ts:2 takes the default import of `jsonwebtoken`, and line 60 calls it as that function.
  - The package exports an object of functions, not a function, so that call may throw instead.
  - If it does, every correct login falls into the `catch` and gets 500 "Login failed". The model does not capture that.
- The login route's `catch` (500 "Login failed") is left out. Apart from the token call above, nothing in that handler throws on string-valued fields.
- DELETE's `catch` (500 "Failed to delete product", apps/admin/app/api/products/route.ts:151-157) is left out. `ProductsRoute.Delete` never produces it.
  - It fires, for example, when the database is unreachable, when another request deletes the product between the lookup and the delete, or when a foreign key without cascade blocks the delete: product images reference the product. None of these is modelled.
- Price and inventory are exact rational numbers. `request.json()` yields IEEE doubles, and their rounding and overflow are not modelled:
  - `1e400` parses to Infinity, which `Number.isInteger` rejects.
  - `1.0000000000000001` parses to 1, which is whole.
  - `1e-400` parses to 0, which is falsy.
  - The model accepts or rejects these as exact numbers instead.
- Request fields of the wrong JSON type are left out: arrays, objects, booleans, a number where text is expected, or text where a number is expected.
- A body that is not valid JSON, or is JSON `null`, is left out.
  - In that case `request.json()` or the first `body.<field>` throws.
  - Each POST handler's `catch` then replies 500: "Failed to create category", "Failed to create product", "Login failed" or "Registration failed".
  - JSON cannot carry NaN, so the `isNaN` tests in the product route never fire on a JSON number.
- Register's `catch` is modelled as 500 for these cases: a missing email (the lookup throws), a missing password (the required column makes the insert throw), and a taken email or id on insert.
  - The user columns the request does not set are given their defaults: no names, no phone, not an admin.
- JsText.ToLower: does not model Unicode case mapping, because only ASCII capitals are lowered.
  - `toLowerCase` also lowers every non-ASCII capital, such as `É` to `é`. It maps U+0130 to `i` plus a combining dot, and U+212A to `k`.
  - So a name holding such characters yields a different generated slug.
  - `LoginRoute.Post` replies 401 where the source replies 200. Example: logging in with `É@x.io` when `é@x.io` is stored.
  - `RegisterRoute.NewUser` stores `É@x.io` where the source stores `é@x.io`.
- Characters are Unicode scalar values, not UTF-16 code units. Lengths differ for text outside the Basic Multilingual Plane.
- The token is opaque. `sign(userId, email)` stands for the token library, and its secret and 30-minute expiry are left out.
- The commented-out password hashing is not modelled.
- `fetch` is replaced by the reply passed to a page method. A reply whose body is not JSON is not modelled.
- The page's initial data loading in `useEffect` is not modelled. Neither are the three-second timers that clear notifications or the React re-rendering.
- `parseFloat` and `parseInt` on the product form's price and inventory are not modelled. The page model does not build the product request.
- The login page's fallback message for a non-`Error` exception is not modelled. `fetch` and `response.json` only throw `Error`s.
- Concurrent requests are not modelled: handlers run one at a time. The race between each existence check and the insert that follows is therefore out of scope.
- CategoriesPage.Page.FinishSubmit: updates the page's current list, not the list captured when the handler started.
- ProductsPage.Page.FinishSubmit: the same, for the product list.
- ProductsPage.Page.HandleDeleteProduct: the same, for the product list.
  - The captured list is `[...categories, data]` at apps/admin/app/categories/page.tsx:124, `[...products, data]` at apps/admin/app/products/page.tsx:115, and `products.filter` at line 151.
  - The two agree when one request is in flight at a time.
  - They differ when a delete finishes while an add is pending: the source's add then restores the deleted product.

## Findings

| source | as written | input that shows it | evidently intended | confidence | as-written member | corrected member |
|---|---|---|---|---|---|---|
| apps/web/app/api/auth/register/route.ts:15-42 | the duplicate check looks up the email as sent, but the insert stores it lowercased | `a@x.io` stored, then register `A@x.io`: the check passes, the insert hits the unique email column, and the reply is 500 "Registration failed". This holds on a case-sensitive email column (PostgreSQL, SQLite); MySQL's default collation finds the stored row at line 16 and gives 409 | check the lowercased email that will be stored, so the reply is 409 | medium (depends on the database's collation), not executed | RegisterRoute.CaseVariantGets500 | RegisterRoute.CaseVariantGets409 |
| apps/web/app/api/auth/register/route.ts:45-52 | the 201 reply is the whole created record, password included, although the comment says the password is not exposed | any successful registration | reply with the record minus its password | high, not executed | RegisterRoute.CreatedReplyShowsPassword | RegisterRoute.PostNormalized |
