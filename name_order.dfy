/**
 * Ordering products by name, as `orderBy: { name: 'asc' }` asks the database to:
 * strings compare character by character, a proper prefix first.
 */
module NameOrder {
  import opened Entities

  /** `a` sorts no later than `b`. */
  predicate NameLe(a: string, b: string) {
    |a| == 0 || (|b| > 0 && (a[0] < b[0] || (a[0] == b[0] && NameLe(a[1..], b[1..]))))
  }

  lemma {:induction false} NameLeTotal(a: string, b: string)
    ensures NameLe(a, b) || NameLe(b, a)
  {
    if |a| > 0 && |b| > 0 && a[0] == b[0] {
      NameLeTotal(a[1..], b[1..]);
    }
  }

  lemma {:induction false} NameLeTransitive(a: string, b: string, c: string)
    requires NameLe(a, b) && NameLe(b, c)
    ensures NameLe(a, c)
  {
    if |a| > 0 && a[0] == b[0] && b[0] == c[0] {
      NameLeTransitive(a[1..], b[1..], c[1..]);
    }
  }

  lemma {:induction false} NameLeAntisymmetric(a: string, b: string)
    requires NameLe(a, b) && NameLe(b, a)
    ensures a == b
  {
    if |a| > 0 {
      NameLeAntisymmetric(a[1..], b[1..]);
      assert a == [a[0]] + a[1..] && b == [b[0]] + b[1..];
    }
  }

  ghost predicate SortedByName(ps: seq<Product>) {
    forall i, j | 0 <= i < j < |ps| :: NameLe(ps[i].name, ps[j].name)
  }

  /** `p` placed into the name-sorted `ps` before the first product whose name it sorts no later than. */
  function InsertByName(p: Product, ps: seq<Product>): (r: seq<Product>)
    requires SortedByName(ps)
    ensures SortedByName(r)
    ensures multiset(r) == multiset(ps) + multiset{p}
  {
    if ps == [] then [p]
    else if NameLe(p.name, ps[0].name) then
      InsertFirst(p, ps);
      [p] + ps
    else
      var rest := InsertByName(p, ps[1..]);
      InsertAfter(p, ps, rest);
      [ps[0]] + rest
  }

  lemma InsertFirst(p: Product, ps: seq<Product>)
    requires SortedByName(ps) && ps != [] && NameLe(p.name, ps[0].name)
    ensures SortedByName([p] + ps)
  {
    var r := [p] + ps;
    forall j | 0 <= j < |ps|
      ensures NameLe(p.name, ps[j].name)
    {
      if j > 0 {
        NameLeTransitive(p.name, ps[0].name, ps[j].name);
      }
    }
    assert forall i, j | 1 <= i < j < |r| :: r[i] == ps[i - 1] && r[j] == ps[j - 1];
  }

  lemma InsertAfter(p: Product, ps: seq<Product>, rest: seq<Product>)
    requires SortedByName(ps) && ps != [] && !NameLe(p.name, ps[0].name)
    requires SortedByName(rest) && multiset(rest) == multiset(ps[1..]) + multiset{p}
    ensures SortedByName([ps[0]] + rest)
    ensures multiset([ps[0]] + rest) == multiset(ps) + multiset{p}
  {
    assert ps == [ps[0]] + ps[1..];
    NameLeTotal(p.name, ps[0].name);
    forall j | 0 <= j < |rest|
      ensures NameLe(ps[0].name, rest[j].name)
    {
      assert rest[j] in multiset(rest);
      if rest[j] != p {
        assert rest[j] in multiset(ps[1..]);
        var k :| 0 <= k < |ps[1..]| && ps[1..][k] == rest[j];
        assert ps[k + 1] == rest[j];
      }
    }
  }

  /** GET: every product, ordered by name, none lost and none added. */
  function SortByName(rows: seq<Product>): (r: seq<Product>)
    ensures SortedByName(r)
    ensures multiset(r) == multiset(rows)
  {
    if rows == [] then []
    else
      assert rows == [rows[0]] + rows[1..];
      InsertByName(rows[0], SortByName(rows[1..]))
  }
}
