/**
 * The web routes of server.js over the account store: signup, login, the
 * `requireAuth` and `checkBan` middleware, the link and home pages, and logout.
 *
 * Each route is a step function from the store's state (collection, `_id`
 * counter, session) and the request fields to the new state and the response,
 * and a method on `Store` that performs the same queries and writes in the
 * handler's order. A request field is `None` when the form leaves it out.
 * `hash` stands for `bcrypt.hash(·, 12)`, `matches` for `bcrypt.compare`, and
 * `linkCode` for the code `Math.random()` yields; none of them is modelled.
 *
 * `Crash` is the outcome of an exception the handler does not catch: a `null`
 * user dereferenced, a `User.create` the schema refuses, a `bcrypt.compare`
 * without a password. The request then gets no page of its own. What follows
 * differs by route, and the model does not tell these apart:
 *  - `GET /home` has a synchronous handler, so Express's error handler answers
 *    with a 500 and the server goes on;
 *  - `GET /link`, `POST /signup` and `POST /login` are `async`, so the rejection
 *    goes unhandled, and on Node 15 or later that ends the process, losing the
 *    in-memory request history and ban sets of the middlewares as well.
 */
module Server {
  import opened Wrappers
  import opened JsString
  import opened Validators
  import opened UserModel
  import opened AccountStore

  datatype Response =
    | Redirect(location: string)
    | RenderSignup(error: string)
    | RenderLogin(error: string)
    | RenderBan(banReason: Option<string>)
    | RenderLink(username: string)
    | RenderHome(username: string)
    | Crash

  const ALL_FIELDS_REQUIRED := "All fields required."
  const USERNAME_OR_EMAIL_TAKEN := "Username or email taken."
  const INVALID_CREDENTIALS := "Invalid credentials."
  const DEFAULT_BAN_REASON := "Banned from service."

  /** The document `findById` returns. */
  function AccountById(s: seq<Account>, id: Id): (r: Option<Account>)
    ensures r.Some? <==> exists j | 0 <= j < |s| :: s[j].id == id
    ensures r.Some? ==> r.value.id == id && r.value in s
  {
    match FirstMatch(s, ById(id))
    case None => None
    case Some(k) => Some(s[k])
  }

  // ----- requireAuth and checkBan -----

  /** `requireAuth`: without `req.session.userId` the request goes to the login page. */
  function RequireAuth(st: State): (r: Option<Response>)
    ensures r.Some? <==> st.session.None?
    ensures r.Some? ==> r.value == Redirect("/login")
  {
    if st.session.None? then Some(Redirect("/login")) else None
  }

  /** What `checkBan` hands on: the request stops with a response, or goes on
      with the session's account in `res.locals.user` (`None` for `null`). */
  datatype Gate = Halt(response: Response) | Continue(user: Option<Account>)

  /** The text the ban page shows: `user.banReason || 'Banned from service.'`. */
  function BanNotice(a: Account): string {
    if Truthy(a.banReason) then a.banReason.value else DEFAULT_BAN_REASON
  }

  /** `checkBan`: a banned account loses its session and sees the ban page. */
  function CheckBan(st: State): (State, Gate) {
    match st.session
    case None => (st, Continue(None))
    case Some(id) =>
      var user := AccountById(st.accounts, id);
      if user.Some? && user.value.isBanned then
        (st.(session := None), Halt(RenderBan(Some(BanNotice(user.value)))))
      else
        (st, Continue(user))
  }

  // ----- POST /signup -----

  /** The document signup creates for the given fields. */
  function SignupDocument(st: State, username: string, email: string, password: string,
                          hash: string -> string, linkCode: string, now: nat): Account
  {
    NewAccount(st.nextId, username, email, hash(password), Some(linkCode), now)
  }

  function SignupStep(st: State, username: Option<string>, email: Option<string>,
                      password: Option<string>, hash: string -> string, linkCode: string,
                      now: nat, isEmail: string -> bool): (State, Response)
  {
    if !Truthy(username) || !Truthy(email) || !Truthy(password) then
      (st, RenderSignup(ALL_FIELDS_REQUIRED))
    else if FirstMatch(st.accounts, ByUsernameOrEmail(username.value, email.value)).Some? then
      (st, RenderSignup(USERNAME_OR_EMAIL_TAKEN))
    else
      var doc := SignupDocument(st, username.value, email.value, password.value, hash, linkCode, now);
      if Insertable(st.accounts, doc, isEmail) then
        (State(st.accounts + [doc], st.nextId + 1, Some(doc.id)), Redirect("/link"))
      else
        (st, Crash)
  }

  /** No effect but the response when a field is missing or empty. */
  lemma SignupMissingField(st: State, username: Option<string>, email: Option<string>,
                           password: Option<string>, hash: string -> string, linkCode: string,
                           now: nat, isEmail: string -> bool)
    requires !Truthy(username) || !Truthy(email) || !Truthy(password)
    ensures SignupStep(st, username, email, password, hash, linkCode, now, isEmail)
         == (st, RenderSignup(ALL_FIELDS_REQUIRED))
  {
  }

  /** An account that already holds the trimmed username or the lower-cased,
      trimmed email is reported as taken and nothing is written: the query
      values pass through the same setters as the stored fields, so "Alice "
      finds "Alice" and "BOB@X.IO" finds "bob@x.io". */
  lemma SignupTaken(st: State, username: string, email: string, password: string,
                    hash: string -> string, linkCode: string, now: nat, isEmail: string -> bool, j: nat)
    requires username != "" && email != "" && password != ""
    requires j < |st.accounts|
    requires st.accounts[j].username == Trim(username) || st.accounts[j].email == NormalizeEmail(email)
    ensures SignupStep(st, Some(username), Some(email), Some(password), hash, linkCode, now, isEmail)
         == (st, RenderSignup(USERNAME_OR_EMAIL_TAKEN))
  {
    assert Matches(st.accounts[j], ByUsernameOrEmail(username, email));
  }

  /** Signup either leaves the state alone or appends one unlinked, unbanned
      account holding the new link code and logs the browser in as that account. */
  lemma SignupEffect(st: State, username: Option<string>, email: Option<string>,
                     password: Option<string>, hash: string -> string, linkCode: string,
                     now: nat, isEmail: string -> bool)
    ensures var (st', resp) := SignupStep(st, username, email, password, hash, linkCode, now, isEmail);
      if resp == Redirect("/link") then
        && |st'.accounts| == |st.accounts| + 1
        && st'.accounts[..|st.accounts|] == st.accounts
        && var a := st'.accounts[|st.accounts|];
        && a.id == st.nextId && st'.nextId == st.nextId + 1 && st'.session == Some(a.id)
        && a.linkCode == Some(linkCode) && a.discordId.None? && !a.isBanned && a.banReason.None?
        && a.username == Trim(username.value) && a.email == NormalizeEmail(email.value)
        && a.passwordHash == hash(password.value) && a.createdAt == now
      else
        st' == st
  {
    var (st', resp) := SignupStep(st, username, email, password, hash, linkCode, now, isEmail);
    if resp == Redirect("/link") {
      assert st'.accounts[..|st.accounts|] == st.accounts;
    }
  }

  /** Signup writes nothing, or appends one unlinked account. */
  lemma SignupAppendsUnlinked(st: State, username: Option<string>, email: Option<string>,
                              password: Option<string>, hash: string -> string, linkCode: string,
                              now: nat, isEmail: string -> bool)
    ensures var s' := SignupStep(st, username, email, password, hash, linkCode, now, isEmail).0.accounts;
      || s' == st.accounts
      || (|s'| == |st.accounts| + 1 && s' == st.accounts + [s'[|st.accounts|]] && s'[|st.accounts|].discordId.None?)
  {
    if Truthy(username) && Truthy(email) && Truthy(password)
       && FirstMatch(st.accounts, ByUsernameOrEmail(username.value, email.value)).None? {
      var doc := SignupDocument(st, username.value, email.value, password.value, hash, linkCode, now);
      if Insertable(st.accounts, doc, isEmail) {
        assert (st.accounts + [doc])[|st.accounts|] == doc;
      }
    }
  }

  /** Signup keeps the store consistent. */
  lemma SignupPreservesConsistent(st: State, username: Option<string>, email: Option<string>,
                                  password: Option<string>, hash: string -> string, linkCode: string,
                                  now: nat, isEmail: string -> bool)
    requires Consistent(st, isEmail)
    ensures Consistent(SignupStep(st, username, email, password, hash, linkCode, now, isEmail).0, isEmail)
  {
    var (st', resp) := SignupStep(st, username, email, password, hash, linkCode, now, isEmail);
    if resp == Redirect("/link") {
      var doc := SignupDocument(st, username.value, email.value, password.value, hash, linkCode, now);
      CreateKeepsConsistent(st, doc, isEmail, Some(doc.id));
    }
  }

  /** When signup succeeds, on a consistent store: every field is present, the
      trimmed username and the normalised email pass the schema, the hash is not
      empty, and no account holds the trimmed username or the normalised email.
      The new account's `discordId: null` never stands in the way, however
      many unlinked accounts there are. */
  lemma SignupSucceedsIff(st: State, username: Option<string>, email: Option<string>,
                          password: Option<string>, hash: string -> string, linkCode: string,
                          now: nat, isEmail: string -> bool)
    requires IdsBelow(st.accounts, st.nextId)
    ensures SignupStep(st, username, email, password, hash, linkCode, now, isEmail).1 == Redirect("/link")
        <==> && Truthy(username) && Truthy(email) && Truthy(password)
             && ValidateUsername(Str(Trim(username.value)))
             && NormalizeEmail(email.value) != "" && isEmail(NormalizeEmail(email.value))
             && hash(password.value) != ""
             && forall j | 0 <= j < |st.accounts| ::
                  && st.accounts[j].username != Trim(username.value)
                  && st.accounts[j].email != NormalizeEmail(email.value)
  {
    if !Truthy(username) || !Truthy(email) || !Truthy(password) {
      SignupMissingField(st, username, email, password, hash, linkCode, now, isEmail);
    } else {
      var u, e, p := username.value, email.value, password.value;
      var s := st.accounts;
      var q := ByUsernameOrEmail(u, e);
      var r := SignupStep(st, username, email, password, hash, linkCode, now, isEmail).1;
      if FirstMatch(s, q).None? {
        var doc := SignupDocument(st, u, e, p, hash, linkCode, now);
        assert (r == Redirect("/link")) == Insertable(s, doc, isEmail) by {
          SignupDecidedByStore(st, u, e, p, hash, linkCode, now, isEmail);
        }
        assert Insertable(s, doc, isEmail)
            <==> && ValidateUsername(Str(Trim(u)))
                 && NormalizeEmail(e) != "" && isEmail(NormalizeEmail(e))
                 && hash(p) != ""
                 && forall j | 0 <= j < |s| :: s[j].username != Trim(u) && s[j].email != NormalizeEmail(e) by {
          SignupDocumentInsertable(st, u, e, p, hash, linkCode, now, isEmail);
        }
        assert forall j | 0 <= j < |s| :: s[j].username != Trim(u) && s[j].email != NormalizeEmail(e) by {
          FirstMatchNoneIff(s, q);
        }
      } else {
        var k := FirstMatch(s, q).value;
        SignupTaken(st, u, e, p, hash, linkCode, now, isEmail, k);
        assert s[k].username == Trim(u) || s[k].email == NormalizeEmail(e);
      }
    }
  }

  /** Once the fields are present and the duplicate check passes, the store decides. */
  lemma SignupDecidedByStore(st: State, username: string, email: string, password: string,
                             hash: string -> string, linkCode: string, now: nat,
                             isEmail: string -> bool)
    requires username != "" && email != "" && password != ""
    requires FirstMatch(st.accounts, ByUsernameOrEmail(username, email)).None?
    ensures var doc := SignupDocument(st, username, email, password, hash, linkCode, now);
      SignupStep(st, Some(username), Some(email), Some(password), hash, linkCode, now, isEmail)
        == if Insertable(st.accounts, doc, isEmail)
           then (State(st.accounts + [doc], st.nextId + 1, Some(st.nextId)), Redirect("/link"))
           else (st, Crash)
  {
  }

  /** What the store checks of the signup document, in terms of the raw fields. */
  lemma SignupDocumentInsertable(st: State, username: string, email: string, password: string,
                                 hash: string -> string, linkCode: string, now: nat,
                                 isEmail: string -> bool)
    requires IdsBelow(st.accounts, st.nextId)
    ensures Insertable(st.accounts, SignupDocument(st, username, email, password, hash, linkCode, now), isEmail)
        <==> && ValidateUsername(Str(Trim(username)))
             && NormalizeEmail(email) != "" && isEmail(NormalizeEmail(email))
             && hash(password) != ""
             && forall j | 0 <= j < |st.accounts| ::
                  st.accounts[j].username != Trim(username) && st.accounts[j].email != NormalizeEmail(email)
  {
    var s := st.accounts;
    var doc := SignupDocument(st, username, email, password, hash, linkCode, now);
    NewAccountValidIff(st.nextId, username, email, hash(password), Some(linkCode), now, isEmail);
    assert (forall j | 0 <= j < |s| :: NoClash(doc, s[j]))
       <==> forall j | 0 <= j < |s| :: s[j].username != doc.username && s[j].email != doc.email;
  }

  /** Because the duplicate check sees the same normalised values as the unique
      indexes, a signup that gets past it crashes exactly when the schema's field
      validators refuse the document (a username outside 3 to 32 word characters,
      an email that is not one, an empty hash). */
  lemma SignupCrashesOnlyOnInvalidFields(st: State, username: string, email: string, password: string,
                                         hash: string -> string, linkCode: string, now: nat,
                                         isEmail: string -> bool)
    requires IdsBelow(st.accounts, st.nextId)
    requires username != "" && email != "" && password != ""
    ensures SignupStep(st, Some(username), Some(email), Some(password), hash, linkCode, now, isEmail).1 == Crash
        <==> && FirstMatch(st.accounts, ByUsernameOrEmail(username, email)).None?
             && !DocumentValid(SignupDocument(st, username, email, password, hash, linkCode, now), isEmail)
  {
    var s := st.accounts;
    var q := ByUsernameOrEmail(username, email);
    if FirstMatch(s, q).None? {
      var doc := SignupDocument(st, username, email, password, hash, linkCode, now);
      SignupDecidedByStore(st, username, email, password, hash, linkCode, now, isEmail);
      assert forall j | 0 <= j < |s| :: NoClash(doc, s[j]) by {
        FirstMatchNoneIff(s, q);
      }
    }
  }

  /** Signup under the `discordId` index MongoDB actually builds, where the
      explicit nulls are indexed: the insert the unique indexes allow is refused
      as well when another null is already stored, and the rejected promise
      leaves the route with nothing written. */
  function SignupStepAsWritten(st: State, username: Option<string>, email: Option<string>,
                               password: Option<string>, hash: string -> string, linkCode: string,
                               now: nat, isEmail: string -> bool): (State, Response)
  {
    var (st', resp) := SignupStep(st, username, email, password, hash, linkCode, now, isEmail);
    if resp == Redirect("/link") && !DiscordIdIndexedWithNulls(st'.accounts) then (st, Crash)
    else (st', resp)
  }

  /** As written, once one unlinked account exists every signup that would
      otherwise succeed crashes instead, and nothing is written. */
  lemma SecondUnlinkedSignupCrashesAsWritten(st: State, username: Option<string>, email: Option<string>,
                                             password: Option<string>, hash: string -> string,
                                             linkCode: string, now: nat, isEmail: string -> bool, i: nat)
    requires i < |st.accounts| && st.accounts[i].discordId.None?
    ensures var intended := SignupStep(st, username, email, password, hash, linkCode, now, isEmail);
      SignupStepAsWritten(st, username, email, password, hash, linkCode, now, isEmail)
        == if intended.1 == Redirect("/link") then (st, Crash) else intended
  {
    var r := SignupStep(st, username, email, password, hash, linkCode, now, isEmail);
    if r.1 == Redirect("/link") {
      var s' := r.0.accounts;
      assert |s'| == |st.accounts| + 1 && s'[|st.accounts|].discordId.None?
             && s' == st.accounts + [s'[|st.accounts|]] by {
        SignupEffect(st, username, email, password, hash, linkCode, now, isEmail);
        SignupAppendsUnlinked(st, username, email, password, hash, linkCode, now, isEmail);
      }
      SparseIndexRejectsSecondUnlinkedAccount(st.accounts, i, s'[|st.accounts|]);
    }
  }

  // ----- POST /login -----

  function LoginStep(st: State, identifier: Option<string>, password: Option<string>,
                     matches: (string, string) -> bool): (State, Response)
  {
    var found := if identifier.Some?
                 then FirstMatch(st.accounts, ByUsernameOrEmail(identifier.value, identifier.value))
                 else None;
    if found.None? then
      (st, RenderLogin(INVALID_CREDENTIALS))
    else
      var user := st.accounts[found.value];
      if password.None? then
        (st, Crash)
      else if !matches(password.value, user.passwordHash) then
        (st, RenderLogin(INVALID_CREDENTIALS))
      else if user.isBanned then
        (st, RenderBan(user.banReason))
      else
        (st.(session := Some(user.id)),
         if Truthy(user.discordId) then Redirect("/home") else Redirect("/link"))
  }

  /** Login writes nothing to the collection, and touches the session only to
      log in the account it found. */
  lemma LoginWritesOnlySession(st: State, identifier: Option<string>, password: Option<string>,
                               matches: (string, string) -> bool)
    ensures var (st', resp) := LoginStep(st, identifier, password, matches);
      && st'.accounts == st.accounts && st'.nextId == st.nextId
      && (st'.session != st.session ==> resp.Redirect?)
  {
  }

  /** Login succeeds exactly for the first account whose username or email is the
      identifier, when the password matches its hash and it is not banned; the
      session then holds that account, and the redirect goes to the home page
      exactly when it is linked. */
  lemma LoginSucceedsIff(st: State, identifier: Option<string>, password: Option<string>,
                         matches: (string, string) -> bool)
    ensures var (st', resp) := LoginStep(st, identifier, password, matches);
      resp.Redirect? <==>
        && identifier.Some? && password.Some?
        && var found := FirstMatch(st.accounts, ByUsernameOrEmail(identifier.value, identifier.value));
        && found.Some?
        && matches(password.value, st.accounts[found.value].passwordHash)
        && !st.accounts[found.value].isBanned
        && st'.session == Some(st.accounts[found.value].id)
        && resp.location == (if Truthy(st.accounts[found.value].discordId) then "/home" else "/link")
  {
  }

  /** A banned account with the right password sees the ban page with its stored
      reason, and the browser's session is left as it was. */
  lemma LoginBanned(st: State, identifier: string, password: string,
                    matches: (string, string) -> bool, i: nat)
    requires FirstMatch(st.accounts, ByUsernameOrEmail(identifier, identifier)) == Some(i)
    requires st.accounts[i].isBanned && matches(password, st.accounts[i].passwordHash)
    ensures LoginStep(st, Some(identifier), Some(password), matches) == (st, RenderBan(st.accounts[i].banReason))
  {
  }

  /** On an admissible collection, a stored username logs into its own account: no other
      account has it as username, and none as email either unless that email is
      the username lower-cased. */
  lemma LoginByUsername(st: State, password: string, matches: (string, string) -> bool,
                        isEmail: string -> bool, i: nat)
    requires Admissible(st.accounts, isEmail) && i < |st.accounts|
    requires forall j | 0 <= j < |st.accounts| :: st.accounts[j].email != NormalizeEmail(st.accounts[i].username)
    requires matches(password, st.accounts[i].passwordHash) && !st.accounts[i].isBanned
    ensures LoginStep(st, Some(st.accounts[i].username), Some(password), matches).0.session
         == Some(st.accounts[i].id)
  {
    var s := st.accounts;
    var q := ByUsernameOrEmail(s[i].username, s[i].username);
    StoredFieldsNormalized(s, isEmail, i);
    assert Matches(s[i], q);
    assert FirstMatch(s, q).value == i;
  }

  /** On an admissible collection, an account's email typed in any letter case and
      with surrounding whitespace logs into that account, unless the trimmed
      string is another account's username. */
  lemma LoginByEmail(st: State, identifier: string, password: string,
                     matches: (string, string) -> bool, isEmail: string -> bool, i: nat)
    requires Admissible(st.accounts, isEmail) && i < |st.accounts|
    requires NormalizeEmail(identifier) == st.accounts[i].email
    requires forall j | 0 <= j < |st.accounts| :: st.accounts[j].username != Trim(identifier)
    requires matches(password, st.accounts[i].passwordHash) && !st.accounts[i].isBanned
    ensures LoginStep(st, Some(identifier), Some(password), matches).0.session
         == Some(st.accounts[i].id)
  {
    var s := st.accounts;
    var q := ByUsernameOrEmail(identifier, identifier);
    assert Matches(s[i], q);
    AdmissibleFields(s, isEmail, i);
  }

  // ----- GET /link and GET /home -----

  /** `GET /link`: `requireAuth`, `checkBan`, then the page; a linked account goes home. */
  function LinkPageStep(st: State): (State, Response) {
    match RequireAuth(st)
    case Some(resp) => (st, resp)
    case None =>
      var (st', gate) := CheckBan(st);
      match gate
      case Halt(resp) => (st', resp)
      case Continue(user) =>
        if user.None? then (st', Crash)
        else if Truthy(user.value.discordId) then (st', Redirect("/home"))
        else (st', RenderLink(user.value.username))
  }

  /** `GET /home`: `requireAuth`, `checkBan`, then the page; an unlinked account is
      sent to the link page. */
  function HomePageStep(st: State): (State, Response) {
    match RequireAuth(st)
    case Some(resp) => (st, resp)
    case None =>
      var (st', gate) := CheckBan(st);
      match gate
      case Halt(resp) => (st', resp)
      case Continue(user) =>
        if user.None? then (st', Crash)
        else if !Truthy(user.value.discordId) then (st', Redirect("/link"))
        else (st', RenderHome(user.value.username))
  }

  /** The pages never write to the collection; the session changes only when a
      banned account is logged out by `checkBan`. */
  lemma PagesWriteOnlySession(st: State)
    ensures LinkPageStep(st).0.accounts == st.accounts && LinkPageStep(st).0.nextId == st.nextId
    ensures HomePageStep(st).0.accounts == st.accounts && HomePageStep(st).0.nextId == st.nextId
    ensures LinkPageStep(st).0.session != st.session ==> LinkPageStep(st).0.session.None? && LinkPageStep(st).1.RenderBan?
    ensures HomePageStep(st).0.session != st.session ==> HomePageStep(st).0.session.None? && HomePageStep(st).1.RenderBan?
  {
  }

  /** Without a session both pages redirect to the login page. */
  lemma PagesNeedSession(st: State)
    requires st.session.None?
    ensures LinkPageStep(st) == (st, Redirect("/login")) && HomePageStep(st) == (st, Redirect("/login"))
  {
  }

  /** A session whose account is banned is destroyed by either page, which shows
      the ban notice instead. */
  lemma BannedSessionEnds(st: State, i: nat)
    requires Unique(st.accounts) && i < |st.accounts|
    requires st.session == Some(st.accounts[i].id) && st.accounts[i].isBanned
    ensures LinkPageStep(st) == (st.(session := None), RenderBan(Some(BanNotice(st.accounts[i]))))
    ensures HomePageStep(st) == (st.(session := None), RenderBan(Some(BanNotice(st.accounts[i]))))
  {
    FirstMatchOfUniqueKey(st.accounts, i);
  }

  /** For a session of an unbanned account, the home page renders exactly when the
      account is linked and the link page exactly when it is not; each otherwise
      redirects to the other. */
  lemma PagesFollowLinkStatus(st: State, i: nat)
    requires Unique(st.accounts) && i < |st.accounts|
    requires st.session == Some(st.accounts[i].id) && !st.accounts[i].isBanned
    ensures var a := st.accounts[i];
      && HomePageStep(st) == (st, if Truthy(a.discordId) then RenderHome(a.username) else Redirect("/link"))
      && LinkPageStep(st) == (st, if Truthy(a.discordId) then Redirect("/home") else RenderLink(a.username))
  {
    FirstMatchOfUniqueKey(st.accounts, i);
  }

  /** A session whose account no longer exists makes both pages dereference `null`. */
  lemma StaleSessionCrashes(st: State)
    requires st.session.Some?
    requires forall j | 0 <= j < |st.accounts| :: st.accounts[j].id != st.session.value
    ensures LinkPageStep(st) == (st, Crash) && HomePageStep(st) == (st, Crash)
  {
  }

  // ----- POST /logout -----

  function LogoutStep(st: State): (r: (State, Response))
    ensures r.0.accounts == st.accounts && r.0.nextId == st.nextId && r.0.session.None?
    ensures r.1 == if st.session.Some? then Redirect("/") else Redirect("/login")
  {
    match RequireAuth(st)
    case Some(resp) => (st, resp)
    case None => (st.(session := None), Redirect("/"))
  }

  // ----- the handlers on the store -----

  method FindById(store: Store, id: Id) returns (user: Option<Account>)
    ensures user == AccountById(store.accounts, id)
  {
    var k := FindOne(store.accounts, ById(id));
    user := if k.Some? then Some(store.accounts[k.value]) else None;
  }

  /** `checkBan` on the store. */
  method RunCheckBan(store: Store) returns (gate: Gate)
    requires store.Valid()
    modifies store`session
    ensures store.Valid()
    ensures (store.Snapshot(), gate) == CheckBan(old(store.Snapshot()))
  {
    if store.session.None? {
      return Continue(None);
    }
    var user := FindById(store, store.session.value);
    if user.Some? && user.value.isBanned {
      store.session := None;
      return Halt(RenderBan(Some(BanNotice(user.value))));
    }
    return Continue(user);
  }

  method PostSignup(store: Store, username: Option<string>, email: Option<string>,
                    password: Option<string>, hash: string -> string, linkCode: string, now: nat)
    returns (resp: Response)
    requires store.Valid()
    modifies store
    ensures store.Valid()
    ensures (store.Snapshot(), resp)
         == SignupStep(old(store.Snapshot()), username, email, password, hash, linkCode, now, store.isEmail)
  {
    ghost var st := store.Snapshot();
    if !Truthy(username) || !Truthy(email) || !Truthy(password) {
      SignupMissingField(st, username, email, password, hash, linkCode, now, store.isEmail);
      return RenderSignup(ALL_FIELDS_REQUIRED);
    }
    var existing := FindOne(store.accounts, ByUsernameOrEmail(username.value, email.value));
    if existing.Some? {
      SignupTaken(st, username.value, email.value, password.value, hash, linkCode, now, store.isEmail, existing.value);
      return RenderSignup(USERNAME_OR_EMAIL_TAKEN);
    }
    SignupDecidedByStore(st, username.value, email.value, password.value, hash, linkCode, now, store.isEmail);
    ghost var doc := SignupDocument(st, username.value, email.value, password.value, hash, linkCode, now);
    var passwordHash := hash(password.value);
    var created := store.Create(username.value, email.value, passwordHash, Some(linkCode), now);
    if created.None? {
      assert !Insertable(st.accounts, doc, store.isEmail) && store.Snapshot() == st;
      return Crash;
    }
    store.session := Some(created.value.id);
    assert Insertable(st.accounts, doc, store.isEmail);
    assert store.Snapshot() == State(st.accounts + [doc], st.nextId + 1, Some(st.nextId));
    return Redirect("/link");
  }

  method PostLogin(store: Store, identifier: Option<string>, password: Option<string>,
                   matches: (string, string) -> bool) returns (resp: Response)
    requires store.Valid()
    modifies store`session
    ensures store.Valid()
    ensures (store.Snapshot(), resp) == LoginStep(old(store.Snapshot()), identifier, password, matches)
  {
    var found := None;
    if identifier.Some? {
      found := FindOne(store.accounts, ByUsernameOrEmail(identifier.value, identifier.value));
    }
    if found.None? {
      return RenderLogin(INVALID_CREDENTIALS);
    }
    var user := store.accounts[found.value];
    if password.None? {
      return Crash;
    }
    if !matches(password.value, user.passwordHash) {
      return RenderLogin(INVALID_CREDENTIALS);
    }
    if user.isBanned {
      return RenderBan(user.banReason);
    }
    store.session := Some(user.id);
    if Truthy(user.discordId) {
      return Redirect("/home");
    }
    return Redirect("/link");
  }

  method GetLink(store: Store) returns (resp: Response)
    requires store.Valid()
    modifies store`session
    ensures store.Valid()
    ensures (store.Snapshot(), resp) == LinkPageStep(old(store.Snapshot()))
  {
    if store.session.None? {
      return Redirect("/login");
    }
    var gate := RunCheckBan(store);
    if gate.Halt? {
      return gate.response;
    }
    var user := gate.user;
    if user.None? {
      return Crash;
    }
    if Truthy(user.value.discordId) {
      return Redirect("/home");
    }
    return RenderLink(user.value.username);
  }

  method GetHome(store: Store) returns (resp: Response)
    requires store.Valid()
    modifies store`session
    ensures store.Valid()
    ensures (store.Snapshot(), resp) == HomePageStep(old(store.Snapshot()))
  {
    if store.session.None? {
      return Redirect("/login");
    }
    var gate := RunCheckBan(store);
    if gate.Halt? {
      return gate.response;
    }
    var user := gate.user;
    if user.None? {
      return Crash;
    }
    if !Truthy(user.value.discordId) {
      return Redirect("/link");
    }
    return RenderHome(user.value.username);
  }

  method PostLogout(store: Store) returns (resp: Response)
    requires store.Valid()
    modifies store`session
    ensures store.Valid()
    ensures (store.Snapshot(), resp) == LogoutStep(old(store.Snapshot()))
  {
    if store.session.None? {
      return Redirect("/login");
    }
    store.session := None;
    return Redirect("/");
  }
}
