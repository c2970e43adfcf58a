/** Searching and filtering sequences, as `Array.prototype.find` and `filter` do. */
module Seqs {
  import opened Wrappers

  /** The index of the first element satisfying `matches`, if any. */
  function IndexOf<T>(s: seq<T>, matches: T -> bool): (r: Option<nat>)
    ensures r.Some? ==> r.value < |s| && matches(s[r.value])
    ensures r.Some? ==> forall j | 0 <= j < r.value :: !matches(s[j])
    ensures r.None? <==> forall j | 0 <= j < |s| :: !matches(s[j])
  {
    if s == [] then None
    else if matches(s[0]) then Some(0)
    else match IndexOf(s[1..], matches)
      case None => None
      case Some(k) => Some(k + 1)
  }

  /** The elements of `s` satisfying `keep`, in their original order. */
  function Filter<T>(s: seq<T>, keep: T -> bool): (r: seq<T>)
    ensures |r| <= |s|
    ensures forall x | x in r :: keep(x) && x in s
    ensures forall x | x in s && keep(x) :: x in r
  {
    if s == [] then []
    else if keep(s[0]) then [s[0]] + Filter(s[1..], keep)
    else Filter(s[1..], keep)
  }

  /** Filtering commutes with concatenation: the kept elements stay in their order. */
  lemma {:induction false} FilterAppend<T>(a: seq<T>, b: seq<T>, keep: T -> bool)
    ensures Filter(a + b, keep) == Filter(a, keep) + Filter(b, keep)
  {
    if a == [] {
      assert a + b == b;
    } else {
      assert (a + b)[0] == a[0] && (a + b)[1..] == a[1..] + b;
      FilterAppend(a[1..], b, keep);
      if keep(a[0]) {
        assert Filter(a + b, keep) == [a[0]] + Filter(a[1..] + b, keep);
        assert Filter(a, keep) == [a[0]] + Filter(a[1..], keep);
      }
    }
  }

  /** Filtering by a condition every element meets returns the sequence unchanged. */
  lemma {:induction false} FilterAll<T>(s: seq<T>, keep: T -> bool)
    requires forall i | 0 <= i < |s| :: keep(s[i])
    ensures Filter(s, keep) == s
  {
    if s != [] {
      FilterAll(s[1..], keep);
    }
  }

  /** Filtering by `p` and then by `q` is filtering once by a condition equivalent to both. */
  lemma {:induction false} FilterTwice<T>(s: seq<T>, p: T -> bool, q: T -> bool, both: T -> bool)
    requires forall i | 0 <= i < |s| :: both(s[i]) == (p(s[i]) && q(s[i]))
    ensures Filter(Filter(s, p), q) == Filter(s, both)
  {
    if s != [] {
      FilterTwice(s[1..], p, q, both);
      if p(s[0]) {
        assert Filter(s, p)[1..] == Filter(s[1..], p);
      }
    }
  }

  /** Filtering out the elements a condition rejects removes exactly one of them when one does. */
  lemma {:induction false} FilterDropsOne<T>(s: seq<T>, keep: T -> bool, i: nat)
    requires i < |s| && !keep(s[i])
    requires forall j | 0 <= j < |s| && j != i :: keep(s[j])
    ensures Filter(s, keep) == s[..i] + s[i+1..]
  {
    assert s == s[..i] + ([s[i]] + s[i+1..]);
    FilterAppend(s[..i], [s[i]] + s[i+1..], keep);
    FilterAppend([s[i]], s[i+1..], keep);
    FilterAll(s[..i], keep);
    FilterAll(s[i+1..], keep);
    assert Filter([s[i]], keep) == [] by {
      assert [s[i]][1..] == [];
    }
  }
}
