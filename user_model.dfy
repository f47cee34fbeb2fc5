/**
 * The `User` schema of models/User.js: the stored form of an account, the
 * defaults a new document receives, and the constraints the store enforces
 * on every save (field validators and the unique indexes).
 *
 * `isEmail` stands for `validator.isEmail`, which is not part of this model.
 */
module UserModel {
  import opened Wrappers
  import opened JsString
  import opened Validators

  /** A document's `_id`. */
  type Id = nat

  datatype Account = Account(
    id: Id,
    username: string,
    email: string,
    passwordHash: string,
    linkCode: Option<string>,
    discordId: Option<string>,
    isBanned: bool,
    banReason: Option<string>,
    createdAt: nat)

  /** The username as stored: after the `trim` setter it passes `minlength`,
      `maxlength` and `match`. */
  predicate StoredUsername(u: string) {
    USERNAME_MIN_LENGTH <= |u| <= USERNAME_MAX_LENGTH && MatchesWordPattern(u)
  }

  /** The `lowercase` and `trim` setters of `email`. */
  function NormalizeEmail(e: string): string {
    Trim(ToLowerCase(e))
  }

  /** The email as stored: normalised, present (`required`) and accepted by `isEmail`. */
  predicate StoredEmail(e: string, isEmail: string -> bool) {
    e != "" && e == NormalizeEmail(e) && isEmail(e)
  }

  /** Every field validator of the schema holds of the document. */
  predicate DocumentValid(a: Account, isEmail: string -> bool) {
    StoredUsername(a.username) && StoredEmail(a.email, isEmail) && a.passwordHash != ""
  }

  /** The document `User.create({ username, email, passwordHash, linkCode })` builds:
      the setters normalise the two strings and every other field takes its default. */
  function NewAccount(id: Id, username: string, email: string, passwordHash: string,
                      linkCode: Option<string>, now: nat): (a: Account)
    ensures a.discordId == None && !a.isBanned && a.banReason == None
    ensures a.username == Trim(username) && a.email == NormalizeEmail(email)
    ensures a.id == id && a.passwordHash == passwordHash && a.linkCode == linkCode && a.createdAt == now
  {
    Account(id, Trim(username), NormalizeEmail(email), passwordHash, linkCode, None, false, None, now)
  }

  /** Two distinct documents respect every unique index: `_id`, `username`,
      `email`, and `discordId` where it is not null. `linkCode` has no unique index. */
  predicate NoClash(a: Account, b: Account) {
    && a.id != b.id
    && a.username != b.username
    && a.email != b.email
    && !(a.discordId.Some? && a.discordId == b.discordId)
  }

  predicate Unique(s: seq<Account>) {
    forall i, j | 0 <= i < |s| && 0 <= j < |s| && i != j :: NoClash(s[i], s[j])
  }

  /** A collection the store can hold: every document valid, every unique index respected. */
  predicate Admissible(s: seq<Account>, isEmail: string -> bool) {
    (forall i {:trigger DocumentValid(s[i], isEmail)} | 0 <= i < |s| :: DocumentValid(s[i], isEmail)) && Unique(s)
  }

  /** What an admissible collection tells about the accounts in it: the schema's
      bounds on each username, and no username, email or non-null `discordId`
      shared by two accounts. */
  lemma AdmissibleFields(s: seq<Account>, isEmail: string -> bool, i: nat)
    requires Admissible(s, isEmail) && i < |s|
    ensures 3 <= |s[i].username| <= 32
    ensures forall k | 0 <= k < |s[i].username| :: IsWordChar(s[i].username[k])
    ensures s[i].email != "" && isEmail(s[i].email) && s[i].passwordHash != ""
    ensures forall j | 0 <= j < |s| && j != i ::
      && s[i].username != s[j].username
      && s[i].email != s[j].email
      && (s[i].discordId.Some? ==> s[i].discordId != s[j].discordId)
  {
    assert DocumentValid(s[i], isEmail);
  }

  /** The stored username and email are fixed points of their setters. */
  lemma StoredFieldsNormalized(s: seq<Account>, isEmail: string -> bool, i: nat)
    requires Admissible(s, isEmail) && i < |s|
    ensures Trim(s[i].username) == s[i].username
    ensures Trim(s[i].email) == s[i].email && ToLowerCase(s[i].email) == s[i].email
  {
    assert DocumentValid(s[i], isEmail);
    ValidUsernameIsTrimmed(s[i].username);
    NormalizedEmailIsFixed(s[i].email);
  }

  /** Lower-casing does nothing to a string without upper-case ASCII letters. */
  lemma LowerOfLower(s: string)
    requires forall k | 0 <= k < |s| :: !('A' <= s[k] <= 'Z')
    ensures ToLowerCase(s) == s
  {
  }

  /** A normalised email is its own normal form, and it is trimmed and lower-case. */
  lemma NormalizedEmailIsFixed(e: string)
    requires e == NormalizeEmail(e)
    ensures Trim(e) == e && ToLowerCase(e) == e
  {
    NormalizeEmailIdempotent(e);
    var l := ToLowerCase(e);
    TrimIsInfix(l);
    LowerOfLower(e);
  }

  /** Applying the email setters twice is applying them once. */
  lemma NormalizeEmailIdempotent(e: string)
    ensures NormalizeEmail(NormalizeEmail(e)) == NormalizeEmail(e)
    ensures forall k | 0 <= k < |NormalizeEmail(e)| :: !('A' <= NormalizeEmail(e)[k] <= 'Z')
  {
    var l := ToLowerCase(e);
    var t := Trim(l);
    TrimIsInfix(l);
    var off := TrimOffset(l);
    forall k | 0 <= k < |t| ensures !('A' <= t[k] <= 'Z') {
      assert t[k] == l[off + k];
    }
    LowerOfLower(t);
    TrimIdempotent(l);
  }

  /** The schema accepts the raw fields given to `User.create` exactly when the
      normalised username passes `validateUsername`, the normalised email is
      non-empty and passes `isEmail`, and the hash is non-empty. */
  lemma NewAccountValidIff(id: Id, username: string, email: string, passwordHash: string,
                           linkCode: Option<string>, now: nat, isEmail: string -> bool)
    ensures DocumentValid(NewAccount(id, username, email, passwordHash, linkCode, now), isEmail)
        <==> && ValidateUsername(Str(Trim(username)))
             && NormalizeEmail(email) != ""
             && isEmail(NormalizeEmail(email))
             && passwordHash != ""
  {
    NormalizeEmailIdempotent(email);
  }

  /** `NoClash` does not depend on the order of its arguments. */
  lemma NoClashSymmetric(a: Account, b: Account)
    ensures NoClash(a, b) <==> NoClash(b, a)
  {
  }

  /** Every document of `s` satisfies `P`: the validators' half of `Admissible`,
      taken apart from what the validators say so that the proofs below stay small. */
  predicate Every<T>(s: seq<T>, P: T -> bool) {
    forall i | 0 <= i < |s| :: P(s[i])
  }

  lemma EveryValid(s: seq<Account>, isEmail: string -> bool)
    ensures Every(s, a => DocumentValid(a, isEmail)) <==> forall i | 0 <= i < |s| :: DocumentValid(s[i], isEmail)
  {
  }

  /** Replacing one element keeps `P` of every element iff `P` holds of the new one. */
  lemma EveryAfterUpdate<T>(s: seq<T>, i: nat, a: T, P: T -> bool)
    requires Every(s, P) && i < |s|
    ensures Every(s[i := a], P) <==> P(a)
  {
    assert s[i := a][i] == a;
  }

  /** Appending keeps `P` of every element iff `P` holds of the new one. */
  lemma EveryAfterAppend<T>(s: seq<T>, a: T, P: T -> bool)
    requires Every(s, P)
    ensures Every(s + [a], P) <==> P(a)
  {
    assert (s + [a])[|s|] == a;
  }

  /** Replacing one document keeps the unique indexes iff the new one clashes with no other. */
  lemma {:induction false} UniqueAfterUpdate(s: seq<Account>, i: nat, a: Account)
    requires Unique(s) && i < |s|
    ensures Unique(s[i := a]) <==> forall j | 0 <= j < |s| && j != i :: NoClash(a, s[j])
  {
    var t := s[i := a];
    if forall j | 0 <= j < |s| && j != i :: NoClash(a, s[j]) {
      forall p, q | 0 <= p < |t| && 0 <= q < |t| && p != q ensures NoClash(t[p], t[q]) {
        if q == i {
          NoClashSymmetric(t[p], t[q]);
        }
      }
    } else if Unique(t) {
      forall j | 0 <= j < |s| && j != i ensures NoClash(a, s[j]) {
        assert NoClash(t[i], t[j]);
      }
    }
  }

  /** Appending a document keeps the unique indexes iff it clashes with no existing one. */
  lemma {:induction false} UniqueAfterAppend(s: seq<Account>, a: Account)
    requires Unique(s)
    ensures Unique(s + [a]) <==> forall j | 0 <= j < |s| :: NoClash(a, s[j])
  {
    var t := s + [a];
    if forall j | 0 <= j < |s| :: NoClash(a, s[j]) {
      forall p, q | 0 <= p < |t| && 0 <= q < |t| && p != q ensures NoClash(t[p], t[q]) {
        if p < |s| && q < |s| {
          assert NoClash(s[p], s[q]);
        } else if q == |s| {
          NoClashSymmetric(t[p], t[q]);
        }
      }
    } else if Unique(t) {
      forall j | 0 <= j < |s| ensures NoClash(a, s[j]) {
        assert NoClash(t[|s|], t[j]);
      }
    }
  }

  /** What the store checks when `a` is inserted: the validators on `a`, and the
      unique indexes of `a` against every stored document. */
  predicate Insertable(s: seq<Account>, a: Account, isEmail: string -> bool) {
    DocumentValid(a, isEmail) && forall j | 0 <= j < |s| :: NoClash(a, s[j])
  }

  /** What the store checks when `a` is saved over the document at `i`: the same,
      against every other document. */
  predicate Replaceable(s: seq<Account>, i: nat, a: Account, isEmail: string -> bool) {
    DocumentValid(a, isEmail) && forall j | 0 <= j < |s| && j != i :: NoClash(a, s[j])
  }

  /** Checking only the saved document is enough: the collection after the save is
      admissible exactly when that document passes. */
  lemma SaveIsLocal(s: seq<Account>, i: nat, a: Account, isEmail: string -> bool)
    requires Admissible(s, isEmail) && i < |s|
    ensures Admissible(s[i := a], isEmail) <==> Replaceable(s, i, a, isEmail)
  {
    EveryValid(s, isEmail);
    EveryValid(s[i := a], isEmail);
    EveryAfterUpdate(s, i, a, x => DocumentValid(x, isEmail));
    UniqueAfterUpdate(s, i, a);
  }

  /** Likewise for an insert. */
  lemma CreateIsLocal(s: seq<Account>, a: Account, isEmail: string -> bool)
    requires Admissible(s, isEmail)
    ensures Admissible(s + [a], isEmail) <==> Insertable(s, a, isEmail)
  {
    EveryValid(s, isEmail);
    EveryValid(s + [a], isEmail);
    EveryAfterAppend(s, a, x => DocumentValid(x, isEmail));
    UniqueAfterAppend(s, a);
  }

  /** A save that changes no key field and keeps a non-empty hash is always accepted. */
  lemma SaveKeepingKeys(s: seq<Account>, i: nat, a: Account, isEmail: string -> bool)
    requires Admissible(s, isEmail) && i < |s|
    requires a.id == s[i].id && a.username == s[i].username && a.email == s[i].email
    requires a.discordId == s[i].discordId && a.passwordHash != ""
    ensures Replaceable(s, i, a, isEmail) && Admissible(s[i := a], isEmail)
  {
    assert DocumentValid(s[i], isEmail);
    forall j | 0 <= j < |s| && j != i ensures NoClash(a, s[j]) {
      assert NoClash(s[i], s[j]);
    }
    SaveIsLocal(s, i, a, isEmail);
  }

  /** A save that keeps every validated and unique field except `discordId` is
      accepted exactly when no other document holds the new, non-null `discordId`. */
  lemma SaveChangingDiscordId(s: seq<Account>, i: nat, a: Account, isEmail: string -> bool)
    requires Admissible(s, isEmail) && i < |s|
    requires a.id == s[i].id && a.username == s[i].username && a.email == s[i].email
    requires a.passwordHash == s[i].passwordHash
    ensures Replaceable(s, i, a, isEmail)
        <==> forall j | 0 <= j < |s| && j != i :: !(a.discordId.Some? && a.discordId == s[j].discordId)
  {
    assert DocumentValid(s[i], isEmail);
    forall j | 0 <= j < |s| && j != i
      ensures NoClash(a, s[j]) <==> !(a.discordId.Some? && a.discordId == s[j].discordId)
    {
      assert NoClash(s[i], s[j]);
    }
  }

  /** `linkCode` carries no constraint: any account may be given any code,
      including one another account already holds. */
  lemma LinkCodeUnconstrained(s: seq<Account>, i: nat, code: Option<string>, isEmail: string -> bool)
    requires Admissible(s, isEmail) && i < |s|
    ensures Admissible(s[i := s[i].(linkCode := code)], isEmail)
  {
    assert DocumentValid(s[i], isEmail);
    SaveKeepingKeys(s, i, s[i].(linkCode := code), isEmail);
  }

  // The `discordId` index as MongoDB builds it from `unique: true, sparse: true`:
  // a sparse index leaves out only documents where the field is absent, and the
  // `default: null` stores an explicit null in every new document, so nulls are
  // indexed and collide with each other.
  predicate DiscordIdIndexedWithNulls(s: seq<Account>) {
    forall i, j | 0 <= i < |s| && 0 <= j < |s| && i != j :: s[i].discordId != s[j].discordId
  }

  /** With null indexed, a second unlinked document is a duplicate key, although the
      intended rule (unique only where not null) admits it. */
  lemma SparseIndexRejectsSecondUnlinkedAccount(s: seq<Account>, i: nat, doc: Account)
    requires i < |s| && s[i].discordId.None? && doc.discordId.None?
    ensures !DiscordIdIndexedWithNulls(s + [doc])
    ensures forall j | 0 <= j < |s| :: !(doc.discordId.Some? && doc.discordId == s[j].discordId)
  {
    var t := s + [doc];
    assert t[i].discordId == t[|s|].discordId;
  }
}
