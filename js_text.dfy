/**
 * The few JavaScript string facilities the validators and slug generators rely on:
 * the `\s` character class, `toLowerCase`, the `[a-z0-9]` and `\w` classes, and
 * the falsiness of strings and numbers.
 */
module JsText {
  import opened Wrappers

  /** The characters JavaScript's `\s` matches (white space and line terminators). */
  predicate IsSpace(c: char) {
    if c < '\U{80}' then c == ' ' || '\t' <= c <= '\r' else IsWideSpace(c)
  }

  /** The non-ASCII members of `\s`: no-break space, the Unicode space separators, the line and paragraph separators and the byte-order mark. */
  predicate IsWideSpace(c: char) {
    || c == '\U{A0}' || c == '\U{1680}' || ('\U{2000}' <= c <= '\U{200A}')
    || c == '\U{2028}' || c == '\U{2029}' || c == '\U{202F}' || c == '\U{205F}'
    || c == '\U{3000}' || c == '\U{FEFF}'
  }

  predicate IsUpper(c: char) { 'A' <= c <= 'Z' }

  /** `[a-z0-9]` */
  predicate IsLowerAlnum(c: char) { 'a' <= c <= 'z' || '0' <= c <= '9' }

  /** `\w`, that is `[A-Za-z0-9_]` */
  predicate IsWordChar(c: char) { IsUpper(c) || IsLowerAlnum(c) || c == '_' }

  function LowerChar(c: char): (r: char)
    ensures !IsUpper(r)
    ensures IsUpper(c) ==> r as int == c as int + 32
    ensures !IsUpper(c) ==> r == c
  {
    if IsUpper(c) then (c as int + 32) as char else c
  }

  /** `toLowerCase`, restricted to the ASCII letters. */
  function ToLower(s: string): (r: string)
    ensures |r| == |s|
    ensures forall i | 0 <= i < |s| :: r[i] == LowerChar(s[i])
  {
    seq(|s|, i requires 0 <= i < |s| => LowerChar(s[i]))
  }

  /** Lowering an already lowered text changes nothing. */
  lemma ToLowerIdempotent(s: string)
    ensures ToLower(ToLower(s)) == ToLower(s)
  {
  }

  /** A text without ASCII capitals is its own lowercase form. */
  lemma ToLowerKeepsLowercase(s: string)
    requires forall i | 0 <= i < |s| :: !IsUpper(s[i])
    ensures ToLower(s) == s
  {
  }

  /** JavaScript truthiness of a string-valued field: present and not "". */
  predicate TruthyText(v: Option<string>) {
    v.Some? && v.value != ""
  }

  /** JavaScript truthiness of a number-valued JSON field: present and not 0 (JSON carries no NaN). */
  predicate TruthyNumber(v: Option<real>) {
    v.Some? && v.value != 0.0
  }

  /** `a || b` on strings: the first operand when it is truthy, else the second. */
  function OrElse(a: Option<string>, b: string): (r: string)
    ensures TruthyText(a) ==> r == a.value
    ensures !TruthyText(a) ==> r == b
  {
    if a.Some? && a.value != "" then a.value else b
  }
}
