/**
 * The records the two apps exchange and store: categories, products and users.
 * Timestamps are not fields here; creation order is the order of a table's rows.
 */
module Entities {
  import opened Wrappers
  import opened Seqs

  datatype Category = Category(id: string, name: string, slug: string, description: Option<string>)

  /** The `{ id, name, slug }` selection joined into product replies. */
  datatype CategorySummary = CategorySummary(id: string, name: string, slug: string)

  function Summary(c: Category): (s: CategorySummary) {
    CategorySummary(c.id, c.name, c.slug)
  }

  datatype Product = Product(
    id: string, name: string, slug: string, description: string,
    price: real, inventory: int, categoryId: string)

  datatype User = User(
    id: string, email: string, password: string,
    firstName: Option<string>, lastName: Option<string>, phone: Option<string>, isAdmin: bool)

  /** A user record with its `password` field taken out. */
  datatype PublicUser = PublicUser(
    id: string, email: string,
    firstName: Option<string>, lastName: Option<string>, phone: Option<string>, isAdmin: bool)

  /** `const { password: _, ...rest } = user` */
  function WithoutPassword(u: User): (p: PublicUser) {
    PublicUser(u.id, u.email, u.firstName, u.lastName, u.phone, u.isAdmin)
  }

  function WithPassword(p: PublicUser, password: string): (u: User) {
    User(p.id, p.email, password, p.firstName, p.lastName, p.phone, p.isAdmin)
  }

  /** Stripping the password loses nothing else: putting it back gives the stored record. */
  lemma PasswordRoundTrip(u: User)
    ensures WithPassword(WithoutPassword(u), u.password) == u
  {
  }

  // ---------------------------------------------------------------------------
  // Uniqueness of keys in a table's rows
  // ---------------------------------------------------------------------------

  ghost predicate UniqueCategoryIds(rows: seq<Category>) {
    forall i, j | 0 <= i < j < |rows| :: rows[i].id != rows[j].id
  }

  ghost predicate UniqueCategorySlugs(rows: seq<Category>) {
    forall i, j | 0 <= i < j < |rows| :: rows[i].slug != rows[j].slug
  }

  ghost predicate UniqueProductIds(rows: seq<Product>) {
    forall i, j | 0 <= i < j < |rows| :: rows[i].id != rows[j].id
  }

  ghost predicate UniqueProductSlugs(rows: seq<Product>) {
    forall i, j | 0 <= i < j < |rows| :: rows[i].slug != rows[j].slug
  }

  // ---------------------------------------------------------------------------
  // Removing a product by id: `products.filter(p => p.id !== id)`
  // ---------------------------------------------------------------------------

  function WithoutId(ps: seq<Product>, id: string): (r: seq<Product>) {
    Filter(ps, (p: Product) => p.id != id)
  }

  /** With unique ids, removing a present id removes exactly that one row and keeps the others in order. */
  lemma WithoutIdRemovesOne(ps: seq<Product>, i: nat)
    requires i < |ps| && UniqueProductIds(ps)
    ensures WithoutId(ps, ps[i].id) == ps[..i] + ps[i + 1..]
  {
    var id := ps[i].id;
    forall j | 0 <= j < |ps| && j != i ensures ps[j].id != id {
      if j < i { assert ps[j].id != ps[i].id; } else { assert ps[i].id != ps[j].id; }
    }
    FilterDropsOne(ps, (p: Product) => p.id != id, i);
  }

  /** Removing an id that no row carries changes nothing. */
  lemma WithoutAbsentId(ps: seq<Product>, id: string)
    requires forall j | 0 <= j < |ps| :: ps[j].id != id
    ensures WithoutId(ps, id) == ps
  {
    FilterAll(ps, (p: Product) => p.id != id);
  }

  /** Dropping one row keeps ids and slugs unique. */
  lemma DropOneKeepsUnique(ps: seq<Product>, i: nat)
    requires i < |ps| && UniqueProductIds(ps) && UniqueProductSlugs(ps)
    ensures UniqueProductIds(ps[..i] + ps[i + 1..]) && UniqueProductSlugs(ps[..i] + ps[i + 1..])
  {
    var r := ps[..i] + ps[i + 1..];
    assert forall k | 0 <= k < |r| :: r[k] == ps[if k < i then k else k + 1];
  }

  /** Every product's `categoryId` names a stored category (the foreign key). */
  ghost predicate ReferencesExist(products: seq<Product>, categories: seq<Category>) {
    forall i | 0 <= i < |products| :: exists c | c in categories :: c.id == products[i].categoryId
  }
}
