/**
 * The database tables the route handlers use, held in memory. Each table keeps
 * its unique columns unique: `create` with a value already taken fails, as the
 * database's unique constraint makes the ORM call throw.
 */
module Tables {
  import opened Wrappers
  import opened Seqs
  import opened Entities

  /** The category table; rows are kept in creation order. */
  class CategoryTable {
    var rows: seq<Category>

    ghost predicate Valid()
      reads this
    {
      UniqueCategoryIds(rows) && UniqueCategorySlugs(rows)
    }

    constructor ()
      ensures Valid() && rows == []
    {
      rows := [];
    }

    /** `findUnique({ where: { id } })` */
    function FindById(id: string): (r: Option<Category>)
      reads this
      ensures r.Some? ==> r.value in rows && r.value.id == id
      ensures r.None? <==> forall i | 0 <= i < |rows| :: rows[i].id != id
    {
      match IndexOf(rows, (c: Category) => c.id == id)
      case Some(i) => Some(rows[i])
      case None => None
    }

    /** `findUnique({ where: { slug } })` */
    function FindBySlug(slug: string): (r: Option<Category>)
      reads this
      ensures r.Some? ==> r.value in rows && r.value.slug == slug
      ensures r.None? <==> forall i | 0 <= i < |rows| :: rows[i].slug != slug
    {
      match IndexOf(rows, (c: Category) => c.slug == slug)
      case Some(i) => Some(rows[i])
      case None => None
    }

    /** `create({ data })`: appends the row unless its id or slug is taken. */
    method Create(c: Category) returns (ok: bool)
      requires Valid()
      modifies this
      ensures Valid()
      ensures ok <==> old(FindById(c.id)).None? && old(FindBySlug(c.slug)).None?
      ensures rows == if ok then old(rows) + [c] else old(rows)
    {
      ok := FindById(c.id).None? && FindBySlug(c.slug).None?;
      if ok {
        rows := rows + [c];
      }
    }
  }

  /** The product table; rows are kept in creation order. */
  class ProductTable {
    var rows: seq<Product>

    ghost predicate Valid()
      reads this
    {
      UniqueProductIds(rows) && UniqueProductSlugs(rows)
    }

    constructor ()
      ensures Valid() && rows == []
    {
      rows := [];
    }

    /** `findUnique({ where: { id } })` */
    function FindById(id: string): (r: Option<Product>)
      reads this
      ensures r.Some? ==> r.value in rows && r.value.id == id
      ensures r.None? <==> forall i | 0 <= i < |rows| :: rows[i].id != id
    {
      match IndexOf(rows, (p: Product) => p.id == id)
      case Some(i) => Some(rows[i])
      case None => None
    }

    /** `findUnique({ where: { slug } })` */
    function FindBySlug(slug: string): (r: Option<Product>)
      reads this
      ensures r.Some? ==> r.value in rows && r.value.slug == slug
      ensures r.None? <==> forall i | 0 <= i < |rows| :: rows[i].slug != slug
    {
      match IndexOf(rows, (p: Product) => p.slug == slug)
      case Some(i) => Some(rows[i])
      case None => None
    }

    /** `create({ data })`: appends the row unless its id or slug is taken. */
    method Create(p: Product) returns (ok: bool)
      requires Valid()
      modifies this
      ensures Valid()
      ensures ok <==> old(FindById(p.id)).None? && old(FindBySlug(p.slug)).None?
      ensures rows == if ok then old(rows) + [p] else old(rows)
    {
      ok := FindById(p.id).None? && FindBySlug(p.slug).None?;
      if ok {
        rows := rows + [p];
      }
    }

    /** `delete({ where: { id } })`: removes the row with that id, if there is one. */
    method Delete(id: string) returns (ok: bool)
      requires Valid()
      modifies this
      ensures Valid()
      ensures ok <==> old(FindById(id)).Some?
      ensures rows == WithoutId(old(rows), id)
      ensures ok ==> |rows| == |old(rows)| - 1
      ensures !ok ==> rows == old(rows)
    {
      match IndexOf(rows, (p: Product) => p.id == id)
      case None =>
        WithoutAbsentId(rows, id);
        ok := false;
      case Some(i) =>
        WithoutIdRemovesOne(rows, i);
        DropOneKeepsUnique(rows, i);
        rows := rows[..i] + rows[i + 1..];
        ok := true;
    }
  }

  /** The user table, keyed by the stored email, which is unique. */
  class UserTable {
    var rows: map<string, User>

    ghost predicate Valid()
      reads this
    {
      && (forall e | e in rows :: rows[e].email == e)
      && (forall e, f | e in rows && f in rows && e != f :: rows[e].id != rows[f].id)
    }

    constructor ()
      ensures Valid() && rows == map[]
    {
      rows := map[];
    }

    /** `findUnique({ where: { email } })` */
    function FindByEmail(email: string): (r: Option<User>)
      reads this
      ensures r.Some? <==> email in rows
      ensures r.Some? ==> r.value == rows[email]
    {
      if email in rows then Some(rows[email]) else None
    }

    predicate IdTaken(id: string)
      reads this
    {
      exists e | e in rows :: rows[e].id == id
    }

    /** `create({ data })`: inserts the record unless its email or id is taken. */
    method Create(u: User) returns (ok: bool)
      requires Valid()
      modifies this
      ensures Valid()
      ensures ok <==> u.email !in old(rows) && !old(IdTaken(u.id))
      ensures rows == if ok then old(rows)[u.email := u] else old(rows)
    {
      ok := u.email !in rows && !IdTaken(u.id);
      if ok {
        rows := rows[u.email := u];
      }
    }
  }
}
