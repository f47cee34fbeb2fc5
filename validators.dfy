/**
 * The request-field validators of middleware/validators.js. A JavaScript value
 * is either a string or something else (`undefined`, a number, an object); the
 * `typeof x === 'string'` guards are the `Str?` tests.
 */
module Validators {
  import opened JsString

  datatype JsValue = Str(s: string) | NonString

  const USERNAME_MIN_LENGTH := 3
  const USERNAME_MAX_LENGTH := 32
  const PASSWORD_MIN_LENGTH := 8

  /** The character class `[a-zA-Z0-9_]`. */
  predicate IsWordChar(c: char) {
    'a' <= c <= 'z' || 'A' <= c <= 'Z' || '0' <= c <= '9' || c == '_'
  }

  /** Scans a string for a character outside `[a-zA-Z0-9_]`. */
  function AllWordChars(s: string): (r: bool)
    ensures r <==> forall k | 0 <= k < |s| :: IsWordChar(s[k])
  {
    s == [] || (IsWordChar(s[0]) && AllWordChars(s[1..]))
  }

  /** `/^[a-zA-Z0-9_]+$/.test(s)`: one or more word characters and nothing else. */
  function MatchesWordPattern(s: string): bool {
    s != [] && AllWordChars(s)
  }

  /** Scans a string for some character in `lo..hi`: `/[lo-hi]/.test(s)`. */
  function HasCharIn(s: string, lo: char, hi: char): (r: bool)
    ensures r <==> exists k | 0 <= k < |s| :: lo <= s[k] <= hi
  {
    if s == [] then false
    else if lo <= s[0] <= hi then true
    else
      var rest := HasCharIn(s[1..], lo, hi);
      assert forall k | 1 <= k < |s| :: s[k] == s[1..][k - 1];
      rest
  }

  /** `validateUsername(u)` */
  function ValidateUsername(u: JsValue): (r: bool)
    ensures r <==> && u.Str?
                   && USERNAME_MIN_LENGTH <= |u.s| <= USERNAME_MAX_LENGTH
                   && forall k | 0 <= k < |u.s| :: IsWordChar(u.s[k])
  {
    u.Str? && |u.s| >= USERNAME_MIN_LENGTH && |u.s| <= USERNAME_MAX_LENGTH && MatchesWordPattern(u.s)
  }

  /** `validatePassword(p)` */
  function ValidatePassword(p: JsValue): (r: bool)
    ensures r <==> && p.Str?
                   && |p.s| >= PASSWORD_MIN_LENGTH
                   && (exists k | 0 <= k < |p.s| :: 'A' <= p.s[k] <= 'Z')
                   && (exists k | 0 <= k < |p.s| :: 'a' <= p.s[k] <= 'z')
                   && (exists k | 0 <= k < |p.s| :: '0' <= p.s[k] <= '9')
  {
    && p.Str?
    && |p.s| >= PASSWORD_MIN_LENGTH
    && HasCharIn(p.s, 'A', 'Z')
    && HasCharIn(p.s, 'a', 'z')
    && HasCharIn(p.s, '0', '9')
  }

  /** `sanitize(x)`; `escape` stands for `validator.escape`. */
  function Sanitize(x: JsValue, escape: string -> string): (r: string)
    ensures x.NonString? ==> r == ""
    ensures x.Str? ==> r == escape(Trim(x.s))
  {
    match x
    case NonString => ""
    case Str(s) => escape(Trim(s))
  }

  /** `n` copies of the character `c`. */
  function Repeat(c: char, n: nat): (r: string)
    ensures |r| == n && forall k | 0 <= k < n :: r[k] == c
  {
    if n == 0 then [] else [c] + Repeat(c, n - 1)
  }

  /** Both length bounds of `validateUsername` are inclusive: of the all-`a` names,
      exactly those of length 3 to 32 pass, so lengths 2 and 33 fail. */
  lemma UsernameLengthBoundsInclusive(n: nat)
    ensures ValidateUsername(Str(Repeat('a', n))) <==> 3 <= n <= 32
  {
  }

  /** Neither validator accepts a value that is not a string. */
  lemma NonStringsRejected()
    ensures !ValidateUsername(NonString) && !ValidatePassword(NonString)
    ensures Sanitize(NonString, s => s) == ""
  {
  }

  /** Missing any one of the three character classes fails a password of any length. */
  lemma PasswordNeedsEveryClass(p: string)
    requires || (forall k | 0 <= k < |p| :: !('A' <= p[k] <= 'Z'))
             || (forall k | 0 <= k < |p| :: !('a' <= p[k] <= 'z'))
             || (forall k | 0 <= k < |p| :: !('0' <= p[k] <= '9'))
    ensures !ValidatePassword(Str(p))
  {
  }

  /** A valid username contains no white space, so trimming leaves it as it is. */
  lemma ValidUsernameIsTrimmed(u: string)
    requires ValidateUsername(Str(u))
    ensures Trim(u) == u
  {
    TrimOfTrimmed(u);
  }
}
