/**
 * The name and slug rules that the category API and the category form both apply,
 * building a field-error map keyed by "name" and "slug".
 */
module CategoryRules {
  import opened Wrappers
  import opened Slugs

  const NameLengthMessage := "Name must be at least 2 characters"
  const SlugLengthMessage := "Slug must be at least 2 characters"
  const SlugPatternMessage := "Slug must contain only lowercase letters, numbers, and hyphens"

  /** `!name || name.length < 2` */
  predicate NameTooShort(name: Option<string>) {
    name.None? || |name.value| < 2
  }

  /** `!slug || slug.length < 2` */
  predicate SlugTooShort(slug: Option<string>) {
    slug.None? || |slug.value| < 2
  }

  /** A name and slug the rules accept, stated through the character-level description of the pattern. */
  predicate Acceptable(name: Option<string>, slug: Option<string>) {
    && name.Some? && |name.value| >= 2
    && slug.Some? && |slug.value| >= 2 && SlugShaped(slug.value)
  }

  /**
   * The field-error map. A name error exactly when the name is missing or shorter than 2;
   * at most one slug message: the length message for a missing or short slug, the pattern
   * message only for a slug of length 2 or more; the map is empty exactly when both are acceptable.
   */
  function CategoryErrors(name: Option<string>, slug: Option<string>): (errors: map<string, string>)
    ensures errors.Keys <= {"name", "slug"}
    ensures "name" in errors <==> NameTooShort(name)
    ensures "name" in errors ==> errors["name"] == NameLengthMessage
    ensures "slug" in errors <==> !(slug.Some? && |slug.value| >= 2 && SlugShaped(slug.value))
    ensures "slug" in errors ==> (errors["slug"] == SlugLengthMessage <==> SlugTooShort(slug))
    ensures "slug" in errors ==> (errors["slug"] == SlugPatternMessage <==> !SlugTooShort(slug))
    ensures errors == map[] <==> Acceptable(name, slug)
  {
    var nameErrors := if NameTooShort(name) then map["name" := NameLengthMessage] else map[];
    if SlugTooShort(slug) then nameErrors["slug" := SlugLengthMessage]
    else
      SlugPatternIff(slug.value);
      if !IsSlug(slug.value) then nameErrors["slug" := SlugPatternMessage]
      else nameErrors
  }

  /** A name error and a slug error can be reported together. */
  lemma BothErrorsTogether()
    ensures CategoryErrors(Some("a"), Some("-")) == map["name" := NameLengthMessage, "slug" := SlugLengthMessage]
  {
  }
}
