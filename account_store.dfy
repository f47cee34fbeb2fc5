/**
 * The `User` collection as the handlers see it: the queries they issue
 * (`findOne`, `findById`), answered by the first matching document in
 * insertion order, and a `Store` object whose `Create` and `Save` are
 * `User.create` and `document.save()`, enforcing the schema of models/User.js.
 *
 * The store also holds the one browser session the web handlers read and
 * write (`req.session.userId`).
 */
module AccountStore {
  import opened Wrappers
  import opened JsString
  import opened UserModel

  /** The filters the handlers pass to `findOne` / `findById`. */
  datatype Query =
    | ById(id: Id)                                         // findById(id)
    | ByUsernameOrEmail(username: string, email: string)   // { $or: [{ username }, { email }] }
    | ByLinkCode(code: string)                             // { linkCode: code }
    | ByDiscordId(discordId: string)                       // { discordId }

  /**
   * Whether a document satisfies a filter. Mongoose casts a filter's values
   * through the schema's setters before the query runs, so a username is
   * compared after `trim` and an email after `lowercase` and `trim`, exactly
   * as the stored fields were normalised on write.
   */
  predicate Matches(a: Account, q: Query) {
    match q
    case ById(id) => a.id == id
    case ByUsernameOrEmail(u, e) => a.username == Trim(u) || a.email == NormalizeEmail(e)
    case ByLinkCode(c) => a.linkCode == Some(c)
    case ByDiscordId(d) => a.discordId == Some(d)
  }

  /** The index of the document `findOne` returns: the first that matches. */
  function FirstMatch(s: seq<Account>, q: Query): (r: Option<nat>)
    ensures r.Some? ==> r.value < |s| && Matches(s[r.value], q)
    ensures r.Some? ==> forall j | 0 <= j < r.value :: !Matches(s[j], q)
    ensures r.None? ==> forall j | 0 <= j < |s| :: !Matches(s[j], q)
  {
    if s == [] then None
    else if Matches(s[0], q) then Some(0)
    else
      match FirstMatch(s[1..], q)
      case None =>
        assert forall j | 1 <= j < |s| :: s[j] == s[1..][j - 1];
        None
      case Some(k) =>
        assert forall j | 1 <= j < |s| :: s[j] == s[1..][j - 1];
        Some(k + 1)
  }

  /** Nothing matches exactly when `findOne` comes back empty. */
  lemma FirstMatchNoneIff(s: seq<Account>, q: Query)
    ensures FirstMatch(s, q).None? <==> forall j | 0 <= j < |s| :: !Matches(s[j], q)
  {
    if FirstMatch(s, q).Some? {
      assert Matches(s[FirstMatch(s, q).value], q);
    }
  }

  /** Queries that see no difference between two collections get the same answer. */
  lemma {:induction false} FirstMatchSameMatches(s: seq<Account>, s': seq<Account>, q: Query)
    requires |s| == |s'| && forall k | 0 <= k < |s| :: Matches(s[k], q) == Matches(s'[k], q)
    ensures FirstMatch(s', q) == FirstMatch(s, q)
    decreases |s|
  {
    if s != [] && !Matches(s[0], q) {
      assert !Matches(s'[0], q);
      forall k | 0 <= k < |s| - 1 ensures Matches(s[1..][k], q) == Matches(s'[1..][k], q) {
        assert s[1..][k] == s[k + 1] && s'[1..][k] == s'[k + 1];
      }
      FirstMatchSameMatches(s[1..], s'[1..], q);
    }
  }

  /** `findOne`: scans the collection in order. */
  method FindOne(s: seq<Account>, q: Query) returns (r: Option<nat>)
    ensures r == FirstMatch(s, q)
  {
    var i := 0;
    while i < |s|
      invariant 0 <= i <= |s|
      invariant forall j | 0 <= j < i :: !Matches(s[j], q)
    {
      if Matches(s[i], q) {
        return Some(i);
      }
      i := i + 1;
    }
    return None;
  }

  /** On a unique key (`_id`, non-null `discordId`) the first match is the only one. */
  lemma FirstMatchOfUniqueKey(s: seq<Account>, i: nat)
    requires Unique(s) && i < |s|
    ensures FirstMatch(s, ById(s[i].id)) == Some(i)
    ensures s[i].discordId.Some? ==> FirstMatch(s, ByDiscordId(s[i].discordId.value)) == Some(i)
  {

  }

  /** The unique-index probe: `doc` clashes with no document other than the one at `except`. */
  method IndexProbe(s: seq<Account>, doc: Account, except: int) returns (ok: bool)
    ensures ok <==> forall j | 0 <= j < |s| && j != except :: NoClash(doc, s[j])
  {
    var j := 0;
    while j < |s|
      invariant 0 <= j <= |s|
      invariant forall k | 0 <= k < j && k != except :: NoClash(doc, s[k])
    {
      if j != except && !NoClash(doc, s[j]) {
        return false;
      }
      j := j + 1;
    }
    return true;
  }

  /** The collection, the `_id` counter and the session, as one value. */
  datatype State = State(accounts: seq<Account>, nextId: Id, session: Option<Id>)

  /** The collection is admissible and every `_id` in it is below the next one handed out. */
  predicate Consistent(st: State, isEmail: string -> bool) {
    Admissible(st.accounts, isEmail) && IdsBelow(st.accounts, st.nextId)
  }

  /** Every `_id` of `s` is below `bound`. */
  predicate IdsBelow(s: seq<Account>, bound: Id) {
    forall i | 0 <= i < |s| :: s[i].id < bound
  }

  lemma AppendFreshId(s: seq<Account>, bound: Id, doc: Account)
    requires IdsBelow(s, bound) && doc.id == bound
    ensures IdsBelow(s + [doc], bound + 1)
  {
  }

  lemma UpdateKeepsIds(s: seq<Account>, bound: Id, i: nat, doc: Account)
    requires IdsBelow(s, bound) && i < |s| && doc.id == s[i].id
    ensures IdsBelow(s[i := doc], bound)
  {
  }

  /** The insert decision: the validators accept `doc` and no unique index clashes. */
  method Admits(s: seq<Account>, doc: Account, isEmail: string -> bool) returns (ok: bool)
    ensures ok <==> Insertable(s, doc, isEmail)
  {
    var indexed := IndexProbe(s, doc, -1);
    ok := DocumentValid(doc, isEmail) && indexed;
  }

  lemma CreateKeepsConsistent(st: State, doc: Account, isEmail: string -> bool, session: Option<Id>)
    requires Consistent(st, isEmail) && doc.id == st.nextId
    requires Insertable(st.accounts, doc, isEmail)
    ensures Consistent(State(st.accounts + [doc], st.nextId + 1, session), isEmail)
  {
    CreateIsLocal(st.accounts, doc, isEmail);
    AppendFreshId(st.accounts, st.nextId, doc);
  }

  /** The update decision for position `i`: the validators accept `doc` and no
      unique index clashes with any other document. */
  method AdmitsUpdate(s: seq<Account>, i: nat, doc: Account, isEmail: string -> bool) returns (ok: bool)
    ensures ok <==> Replaceable(s, i, doc, isEmail)
  {
    var indexed := IndexProbe(s, doc, i);
    ok := DocumentValid(doc, isEmail) && indexed;
  }

  lemma SaveKeepsConsistent(st: State, i: nat, doc: Account, isEmail: string -> bool)
    requires Consistent(st, isEmail) && i < |st.accounts| && doc.id == st.accounts[i].id
    requires Replaceable(st.accounts, i, doc, isEmail)
    ensures Consistent(State(st.accounts[i := doc], st.nextId, st.session), isEmail)
  {
    SaveIsLocal(st.accounts, i, doc, isEmail);
    UpdateKeepsIds(st.accounts, st.nextId, i, doc);
  }

  class Store {
    var accounts: seq<Account>
    var nextId: Id
    var session: Option<Id>
    const isEmail: string -> bool

    ghost function Snapshot(): State
      reads this
    {
      State(accounts, nextId, session)
    }

    /** The store's invariant: `Consistent` of the collection and the counter;
        the session is free. */
    ghost predicate Valid()
      reads this`accounts, this`nextId
    {
      Consistent(State(accounts, nextId, None), isEmail)
    }

    constructor (isEmail: string -> bool)
      ensures Valid() && Snapshot() == State([], 0, None) && this.isEmail == isEmail
    {
      accounts, nextId, session := [], 0, None;
      this.isEmail := isEmail;
    }

    /** `User.create(fields)`: builds the document with a fresh `_id` and inserts it
        when the validators and the unique indexes accept it. */
    method Create(username: string, email: string, passwordHash: string,
                  linkCode: Option<string>, now: nat) returns (created: Option<Account>)
      requires Valid()
      modifies this`accounts, this`nextId
      ensures Valid()
      ensures var doc := NewAccount(old(nextId), username, email, passwordHash, linkCode, now);
        && (created.Some? <==> Insertable(old(accounts), doc, isEmail))
        && (created.Some? ==> created.value == doc && accounts == old(accounts) + [doc] && nextId == old(nextId) + 1)
        && (created.None? ==> accounts == old(accounts) && nextId == old(nextId))
    {
      var doc := NewAccount(nextId, username, email, passwordHash, linkCode, now);
      var ok := Admits(accounts, doc, isEmail);
      if ok {
        CreateKeepsConsistent(Snapshot(), doc, isEmail, session);
        accounts := accounts + [doc];
        nextId := nextId + 1;
        created := Some(doc);
      } else {
        created := None;
      }
    }

    /** `document.save()` for the document loaded from position `i`: writes it back
        when the validators and the unique indexes accept the new version. */
    method Save(i: nat, doc: Account) returns (ok: bool)
      requires Valid() && i < |accounts| && doc.id == accounts[i].id
      modifies this`accounts
      ensures Valid()
      ensures ok <==> Replaceable(old(accounts), i, doc, isEmail)
      ensures ok ==> accounts == old(accounts)[i := doc]
      ensures !ok ==> accounts == old(accounts)
    {
      ok := AdmitsUpdate(accounts, i, doc, isEmail);
      if ok {
        ghost var post := State(accounts[i := doc], nextId, session);
        SaveKeepsConsistent(Snapshot(), i, doc, isEmail);
        assert Consistent(post, isEmail);
        accounts := accounts[i := doc];
        assert Snapshot() == post;
      }
    }
  }
}
