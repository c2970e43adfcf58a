/**
 * The slug pattern `^[a-z0-9]+(?:-[a-z0-9]+)*$` shared by the category API and the
 * category form, and the two slug generators of the admin forms:
 *   categories: `value.toLowerCase().replace(/\s+/g, "-").replace(/[^a-z0-9-]/g, "")`
 *   products:   `value.toLowerCase().replace(/\s+/g, '-').replace(/[^\w-]+/g, '')`
 */
module Slugs {
  import opened JsText
  import opened Seqs

  // ---------------------------------------------------------------------------
  // The pattern
  // ---------------------------------------------------------------------------

  /**
   * The pattern read as the regular expression reads it: a run of `[a-z0-9]`,
   * then any number of groups made of one `-` and a further run.
   */
  predicate IsSlug(s: string) {
    |s| > 0 && IsLowerAlnum(s[0]) && AfterRun(s[1..])
  }

  /** What may follow once at least one character of a run has been read. */
  predicate AfterRun(t: string)
    decreases |t|
  {
    || t == []
    || (IsLowerAlnum(t[0]) && AfterRun(t[1..]))
    || (|t| >= 2 && t[0] == '-' && IsLowerAlnum(t[1]) && AfterRun(t[2..]))
  }

  predicate IsSlugChar(c: char) { IsLowerAlnum(c) || c == '-' }

  /** No two adjacent hyphens. */
  predicate NoDoubleHyphen(t: string) {
    forall i | 0 < i < |t| :: t[i] == '-' ==> t[i - 1] != '-'
  }

  /** The same language described by its characters: non-empty, only `[a-z0-9-]`, and no leading, trailing or doubled hyphen. */
  predicate SlugShaped(s: string) {
    && |s| > 0
    && (forall i | 0 <= i < |s| :: IsSlugChar(s[i]))
    && s[0] != '-' && s[|s| - 1] != '-'
    && NoDoubleHyphen(s)
  }

  /** After a run, the rest is well formed when it uses only slug characters, has no doubled hyphen and does not end in one. */
  predicate RestShaped(t: string) {
    && (forall i | 0 <= i < |t| :: IsSlugChar(t[i]))
    && NoDoubleHyphen(t)
    && (|t| > 0 ==> t[|t| - 1] != '-')
  }

  lemma {:induction false} AfterRunIff(t: string)
    ensures AfterRun(t) <==> RestShaped(t)
    decreases |t|
  {
    if t == [] {
    } else if IsLowerAlnum(t[0]) {
      AfterRunIff(t[1..]);
      assert AfterRun(t) <==> AfterRun(t[1..]);
      if RestShaped(t[1..]) {
        forall i | 0 < i < |t| && t[i] == '-' ensures t[i - 1] != '-' {
          if i > 1 { assert t[1..][i - 1] == '-'; }
        }
      }
      if RestShaped(t) {
        assert forall i | 0 < i < |t| - 1 :: t[1..][i] == t[i + 1];
      }
    } else if t[0] == '-' {
      if |t| >= 2 {
        AfterRunIff(t[2..]);
        if IsLowerAlnum(t[1]) && RestShaped(t[2..]) {
          forall i | 0 < i < |t| && t[i] == '-' ensures t[i - 1] != '-' {
            if i > 2 { assert t[2..][i - 2] == '-'; }
          }
        }
        if RestShaped(t) {
          assert t[1] != '-';
          assert IsSlugChar(t[1]);
          assert forall i | 0 < i < |t| - 2 :: t[2..][i] == t[i + 2];
        }
      }
    } else {
      assert !IsSlugChar(t[0]);
    }
  }

  /** The pattern and its character-level description accept the same strings. */
  lemma SlugPatternIff(s: string)
    ensures IsSlug(s) <==> SlugShaped(s)
  {
    if |s| > 0 {
      AfterRunIff(s[1..]);
      if SlugShaped(s) {
        assert forall i | 0 < i < |s| - 1 :: s[1..][i] == s[i + 1];
      }
      if IsSlug(s) {
        forall i | 0 < i < |s| && s[i] == '-' ensures s[i - 1] != '-' {
          if i > 1 { assert s[1..][i - 1] == '-'; }
        }
      }
    }
  }

  // ---------------------------------------------------------------------------
  // Replacing white-space runs by one hyphen: `.replace(/\s+/g, "-")`
  // ---------------------------------------------------------------------------

  /** The string after its leading white space. */
  function DropSpaces(s: string): (r: string)
    ensures |r| <= |s| && r == s[|s| - |r|..]
    ensures r == [] || !IsSpace(r[0])
    ensures forall i | 0 <= i < |s| - |r| :: IsSpace(s[i])
  {
    if s != [] && IsSpace(s[0]) then DropSpaces(s[1..]) else s
  }

  function HyphenateSpaces(s: string): (r: string)
    decreases |s|
  {
    if s == [] then []
    else if IsSpace(s[0]) then "-" + HyphenateSpaces(DropSpaces(s[1..]))
    else [s[0]] + HyphenateSpaces(s[1..])
  }

  /** The result holds no white space; every character of it is a hyphen or a character of the input. */
  lemma {:induction false} HyphenateChars(s: string)
    ensures forall c | c in HyphenateSpaces(s) :: !IsSpace(c) && (c == '-' || c in s)
    decreases |s|
  {
    if s != [] {
      if IsSpace(s[0]) {
        var rest := DropSpaces(s[1..]);
        HyphenateChars(rest);
        assert forall c | c in rest :: c in s[1..];
      } else {
        HyphenateChars(s[1..]);
      }
    }
  }

  /** Each maximal run of white space becomes exactly one hyphen. */
  lemma {:induction false} HyphenateRun(word: string, run: string, rest: string)
    requires forall i | 0 <= i < |word| :: !IsSpace(word[i])
    requires |run| > 0 && forall i | 0 <= i < |run| :: IsSpace(run[i])
    requires rest == [] || !IsSpace(rest[0])
    ensures HyphenateSpaces(word + run + rest) == word + "-" + HyphenateSpaces(rest)
    decreases |word|
  {
    if word == [] {
      assert word + run + rest == run + rest;
      DropSpacesRun(run[1..], rest);
      assert (run + rest)[1..] == run[1..] + rest;
    } else {
      assert (word + run + rest)[1..] == word[1..] + run + rest;
      HyphenateRun(word[1..], run, rest);
      assert word == [word[0]] + word[1..];
    }
  }

  lemma {:induction false} DropSpacesRun(run: string, rest: string)
    requires forall i | 0 <= i < |run| :: IsSpace(run[i])
    requires rest == [] || !IsSpace(rest[0])
    ensures DropSpaces(run + rest) == rest
    decreases |run|
  {
    if run == [] {
      assert run + rest == rest;
    } else {
      assert (run + rest)[1..] == run[1..] + rest;
      DropSpacesRun(run[1..], rest);
    }
  }

  /** A string without white space is left alone. */
  lemma {:induction false} HyphenateNoSpaces(s: string)
    requires forall i | 0 <= i < |s| :: !IsSpace(s[i])
    ensures HyphenateSpaces(s) == s
    decreases |s|
  {
    if s != [] {
      HyphenateNoSpaces(s[1..]);
    }
  }

  // ---------------------------------------------------------------------------
  // The two generators
  // ---------------------------------------------------------------------------

  /** `[^\w-]` complemented: the characters the product generator keeps. */
  predicate IsProductSlugChar(c: char) { IsWordChar(c) || c == '-' }

  /** The category form's slug, generated from the name being typed. */
  function CategorySlug(name: string): (slug: string) {
    Filter(HyphenateSpaces(ToLower(name)), IsSlugChar)
  }

  /** The product form's slug; removing runs of unwanted characters is removing each of them. */
  function ProductSlug(name: string): (slug: string) {
    Filter(HyphenateSpaces(ToLower(name)), IsProductSlugChar)
  }

  /** A generated category slug uses only `[a-z0-9-]`. */
  lemma CategorySlugAlphabet(name: string)
    ensures forall i | 0 <= i < |CategorySlug(name)| :: IsSlugChar(CategorySlug(name)[i])
  {
    var r := CategorySlug(name);
    assert forall i | 0 <= i < |r| :: r[i] in r;
  }

  /** Lowering before the hyphen step leaves no upper-case letter. */
  lemma LoweredHyphenatedHasNoUpper(name: string)
    ensures forall c | c in HyphenateSpaces(ToLower(name)) :: !IsUpper(c)
  {
    var low := ToLower(name);
    HyphenateChars(low);
    forall c | c in HyphenateSpaces(low) ensures !IsUpper(c) {
      if c != '-' {
        var j :| 0 <= j < |low| && low[j] == c;
      }
    }
  }

  /** A generated product slug uses only `[a-z0-9_-]`: unlike the category generator, underscores survive. */
  lemma ProductSlugAlphabet(name: string)
    ensures forall i | 0 <= i < |ProductSlug(name)| :: IsSlugChar(ProductSlug(name)[i]) || ProductSlug(name)[i] == '_'
  {
    var r := ProductSlug(name);
    LoweredHyphenatedHasNoUpper(name);
    forall i | 0 <= i < |r| ensures IsSlugChar(r[i]) || r[i] == '_' {
      assert r[i] in r;
    }
  }

  /** Without its underscores, the product slug is the category slug of the same name. */
  lemma CategorySlugDropsUnderscores(name: string)
    ensures CategorySlug(name) == Filter(ProductSlug(name), c => c != '_')
  {
    var h := HyphenateSpaces(ToLower(name));
    LoweredHyphenatedHasNoUpper(name);
    assert forall i | 0 <= i < |h| :: h[i] in h;
    FilterTwice(h, IsProductSlugChar, c => c != '_', IsSlugChar);
  }

  /** A string over `[a-z0-9-]` is its own category slug. */
  lemma CategorySlugFixes(s: string)
    requires forall i | 0 <= i < |s| :: IsSlugChar(s[i])
    ensures CategorySlug(s) == s
  {
    ToLowerKeepsLowercase(s);
    HyphenateNoSpaces(s);
    FilterAll(s, IsSlugChar);
  }

  /** Generating a slug from a generated slug changes nothing. */
  lemma CategorySlugIdempotent(name: string)
    ensures CategorySlug(CategorySlug(name)) == CategorySlug(name)
  {
    CategorySlugAlphabet(name);
    CategorySlugFixes(CategorySlug(name));
  }

  /** A name that already is a valid slug is kept as it is. */
  lemma ValidSlugIsKept(s: string)
    requires IsSlug(s)
    ensures CategorySlug(s) == s
  {
    SlugPatternIff(s);
    CategorySlugFixes(s);
  }

  /** The generator does not always produce a valid slug: a hyphen typed between spaces gives a tripled hyphen. */
  lemma SpacedHyphenIsNotSlug(x: char, y: char)
    requires IsLowerAlnum(x) && IsLowerAlnum(y)
    ensures CategorySlug([x, ' ', '-', ' ', y]) == [x, '-', '-', '-', y]
    ensures !IsSlug([x, '-', '-', '-', y])
  {
    SpacedHyphenSlug(x, y);
    TripleHyphenIsNotSlug(x, y);
  }

  lemma SpacedHyphenSlug(x: char, y: char)
    requires IsLowerAlnum(x) && IsLowerAlnum(y)
    ensures CategorySlug([x, ' ', '-', ' ', y]) == [x, '-', '-', '-', y]
  {
    SpacedHyphenLowered(x, y);
    HyphenateSpacedHyphen(x, y);
    TripleHyphenKept(x, y);
  }

  lemma SpacedHyphenLowered(x: char, y: char)
    requires IsLowerAlnum(x) && IsLowerAlnum(y)
    ensures ToLower([x, ' ', '-', ' ', y]) == [x, ' ', '-', ' ', y]
  {
    ToLowerKeepsLowercase([x, ' ', '-', ' ', y]);
  }

  lemma TripleHyphenKept(x: char, y: char)
    requires IsLowerAlnum(x) && IsLowerAlnum(y)
    ensures Filter([x, '-', '-', '-', y], IsSlugChar) == [x, '-', '-', '-', y]
  {
    FilterAll([x, '-', '-', '-', y], IsSlugChar);
  }

  lemma TripleHyphenIsNotSlug(x: char, y: char)
    ensures !IsSlug([x, '-', '-', '-', y])
  {
    var slug := [x, '-', '-', '-', y];
    assert !NoDoubleHyphen(slug) by {
      assert slug[2] == '-' && slug[1] == '-';
    }
    SlugPatternIff(slug);
  }

  lemma HyphenateSpacedHyphen(x: char, y: char)
    requires IsLowerAlnum(x) && IsLowerAlnum(y)
    ensures HyphenateSpaces([x, ' ', '-', ' ', y]) == [x, '-', '-', '-', y]
  {
    var t1, t2, t3, t4 := [y], [' ', y], ['-', ' ', y], [' ', '-', ' ', y];
    HyphenateKeeps(y, []);
    assert [y] + [] == t1;
    HyphenateOneSpace(t1);
    assert [' '] + t1 == t2;
    HyphenateKeeps('-', t2);
    assert ['-'] + t2 == t3;
    HyphenateOneSpace(t3);
    assert [' '] + t3 == t4;
    HyphenateKeeps(x, t4);
    assert [x] + t4 == [x, ' ', '-', ' ', y];
  }

  lemma HyphenateKeeps(c: char, t: string)
    requires !IsSpace(c)
    ensures HyphenateSpaces([c] + t) == [c] + HyphenateSpaces(t)
  {
    assert ([c] + t)[1..] == t;
  }

  lemma HyphenateOneSpace(t: string)
    requires t == [] || !IsSpace(t[0])
    ensures HyphenateSpaces([' '] + t) == ['-'] + HyphenateSpaces(t)
  {
    assert ([' '] + t)[1..] == t;
  }

  /** Leading white space gives a leading hyphen, which the pattern refuses. */
  lemma LeadingSpaceIsNotSlug(word: string)
    requires IsSlug(word)
    ensures CategorySlug([' '] + word) == ['-'] + word
    ensures !IsSlug(['-'] + word)
  {
    SlugPatternIff(word);
    HyphenateRun([], [' '], word);
    assert [] + [' '] + word == [' '] + word;
    HyphenateNoSpaces(word);
    ToLowerKeepsLowercase([' '] + word);
    FilterAll(['-'] + word, IsSlugChar);
  }
}
