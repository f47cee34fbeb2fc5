/**
 * The handlers of server.js, commands/link.js, commands/reset-password.js and
 * bot.js together, as one account store that events from the browser and from
 * Discord change one after another. The lemmas here are about sequences of
 * handlers: what stays true of every account whatever happens next, and what
 * one handler's effect means for the next.
 */
module Protocol {
  import opened Wrappers
  import opened JsString
  import opened UserModel
  import opened AccountStore
  import opened Server
  import LinkCommand
  import BanSync
  import ResetPassword

  /** A request to the web server or an event from Discord. */
  datatype Event =
    | Signup(username: Option<string>, email: Option<string>, password: Option<string>,
             hash: string -> string, linkCode: string, now: nat)
    | Login(identifier: Option<string>, password: Option<string>, matches: (string, string) -> bool)
    | LinkPage
    | HomePage
    | Logout
    | LinkCmd(code: string, discordId: string)
    | GuildBan(ban: BanSync.BanEvent, fetch: BanSync.AuditFetch)
    | ResetCmd(interaction: ResetPassword.Interaction, hash: string -> string)

  /** The state after the event's handler. The Discord commands do not see the
      browser's session. */
  function Apply(st: State, ev: Event, isEmail: string -> bool): State {
    match ev
    case Signup(u, e, p, hash, code, now) => SignupStep(st, u, e, p, hash, code, now, isEmail).0
    case Login(id, p, matches) => LoginStep(st, id, p, matches).0
    case LinkPage => LinkPageStep(st).0
    case HomePage => HomePageStep(st).0
    case Logout => LogoutStep(st).0
    case LinkCmd(code, d) => st.(accounts := LinkCommand.LinkStep(st.accounts, code, d, isEmail).0)
    case GuildBan(ban, fetch) => st.(accounts := BanSync.BanStep(st.accounts, ban, fetch, isEmail).0)
    case ResetCmd(it, hash) => st.(accounts := ResetPassword.ResetStep(st.accounts, it, hash, isEmail).0)
  }

  /** The events one after another. */
  function Run(st: State, evs: seq<Event>, isEmail: string -> bool): State
    decreases |evs|
  {
    if evs == [] then st else Run(Apply(st, evs[0], isEmail), evs[1..], isEmail)
  }

  /** An account that holds a link code has not been linked yet. */
  predicate CodeMeansUnlinked(s: seq<Account>) {
    forall i | 0 <= i < |s| :: s[i].linkCode.Some? ==> s[i].discordId.None?
  }

  /** What a later version `b` of account `a` keeps: its identity, its Discord link
      once made, its ban once set, and a code once consumed stays consumed. */
  predicate Kept(a: Account, b: Account) {
    && b.id == a.id && b.username == a.username && b.email == a.email && b.createdAt == a.createdAt
    && (a.discordId.Some? ==> b.discordId == a.discordId)
    && (a.isBanned ==> b.isBanned)
    && (b.linkCode == a.linkCode || b.linkCode.None?)
  }

  /** `s'` is a later version of the collection `s`: nothing removed, every account kept. */
  predicate Evolves(s: seq<Account>, s': seq<Account>) {
    |s| <= |s'| && forall i | 0 <= i < |s| :: Kept(s[i], s'[i])
  }

  lemma EvolvesTransitive(s: seq<Account>, s': seq<Account>, s'': seq<Account>)
    requires Evolves(s, s') && Evolves(s', s'')
    ensures Evolves(s, s'')
  {
    forall i | 0 <= i < |s| ensures Kept(s[i], s''[i]) {
      assert Kept(s[i], s'[i]) && Kept(s'[i], s''[i]);
    }
  }

  /** Changing one account, keeping what `Kept` asks, is an evolution. */
  lemma UpdateEvolves(s: seq<Account>, s': seq<Account>, i: nat)
    requires i < |s| == |s'| && Kept(s[i], s'[i])
    requires forall j | 0 <= j < |s| && j != i :: s'[j] == s[j]
    ensures Evolves(s, s')
  {
  }

  /** `/link` keeps every account and the code invariant: the account it binds held
      the code, so it was not linked before. */
  lemma LinkKeeps(s: seq<Account>, code: string, d: string, isEmail: string -> bool)
    requires CodeMeansUnlinked(s)
    ensures var s' := LinkCommand.LinkStep(s, code, d, isEmail).0;
      CodeMeansUnlinked(s') && Evolves(s, s')
  {
    LinkCommand.LinkFailuresChangeNothing(s, code, d, isEmail);
    var (s', reply) := LinkCommand.LinkStep(s, code, d, isEmail);
    if reply == LinkCommand.Linked {
      LinkCommand.LinkEffect(s, code, d, isEmail);
      var i := FirstMatch(s, ByLinkCode(code)).value;
      assert s[i].discordId.None?;
      UpdateEvolves(s, s', i);
    }
  }

  /** The ban keeps every account and the code invariant. */
  lemma BanKeeps(s: seq<Account>, ban: BanSync.BanEvent, fetch: BanSync.AuditFetch, isEmail: string -> bool)
    requires CodeMeansUnlinked(s)
    ensures var s' := BanSync.BanStep(s, ban, fetch, isEmail).0;
      CodeMeansUnlinked(s') && Evolves(s, s')
  {
    BanSync.BanEffect(s, ban, fetch, isEmail);
    var (s', outcome) := BanSync.BanStep(s, ban, fetch, isEmail);
    if outcome.MarkedBanned? {
      UpdateEvolves(s, s', FirstMatch(s, ByDiscordId(ban.userId.value)).value);
    }
  }

  /** `/reset-password` keeps every account and the code invariant. */
  lemma ResetKeeps(s: seq<Account>, it: ResetPassword.Interaction, hash: string -> string, isEmail: string -> bool)
    requires CodeMeansUnlinked(s)
    ensures var s' := ResetPassword.ResetStep(s, it, hash, isEmail).0;
      CodeMeansUnlinked(s') && Evolves(s, s')
  {
    ResetPassword.ResetGuardsChangeNothing(s, it, hash, isEmail);
    if ResetPassword.ResetStep(s, it, hash, isEmail).1 == ResetPassword.PasswordReset {
      ResetPassword.ResetEffect(s, it, hash, isEmail);
      var s' := ResetPassword.ResetStep(s, it, hash, isEmail).0;
      UpdateEvolves(s, s', FirstMatch(s, ByDiscordId(it.userId)).value);
    }
  }

  /** Appending an unlinked account keeps every account and the code invariant. */
  lemma AppendUnlinkedKeeps(s: seq<Account>, a: Account)
    requires CodeMeansUnlinked(s) && a.discordId.None?
    ensures CodeMeansUnlinked(s + [a]) && Evolves(s, s + [a])
  {
    forall i | 0 <= i < |s| ensures (s + [a])[i] == s[i] {
    }
  }

  /** Signup keeps every account and the code invariant: it appends an unlinked
      account or writes nothing. */
  lemma SignupKeeps(st: State, u: Option<string>, e: Option<string>, p: Option<string>,
                    hash: string -> string, code: string, now: nat, isEmail: string -> bool)
    requires CodeMeansUnlinked(st.accounts)
    ensures var s' := SignupStep(st, u, e, p, hash, code, now, isEmail).0.accounts;
      CodeMeansUnlinked(s') && Evolves(st.accounts, s')
  {
    SignupAppendsUnlinked(st, u, e, p, hash, code, now, isEmail);
    var s' := SignupStep(st, u, e, p, hash, code, now, isEmail).0.accounts;
    if s' != st.accounts {
      AppendUnlinkedKeeps(st.accounts, s'[|st.accounts|]);
    }
  }

  /** The web routes keep every account and the code invariant: only signup writes,
      and it appends an unlinked account. */
  lemma WebStepKeeps(st: State, ev: Event, isEmail: string -> bool)
    requires !(ev.LinkCmd? || ev.GuildBan? || ev.ResetCmd?)
    requires CodeMeansUnlinked(st.accounts)
    ensures var s' := Apply(st, ev, isEmail).accounts;
      CodeMeansUnlinked(s') && Evolves(st.accounts, s')
  {
    match ev {
      case Signup(u, e, p, hash, code, now) =>
        SignupKeeps(st, u, e, p, hash, code, now, isEmail);
      case Login(id, p, matches) =>
        LoginWritesOnlySession(st, id, p, matches);
        assert Apply(st, ev, isEmail).accounts == st.accounts;
      case LinkPage =>
        PagesWriteOnlySession(st);
        assert Apply(st, ev, isEmail).accounts == st.accounts;
      case HomePage =>
        PagesWriteOnlySession(st);
        assert Apply(st, ev, isEmail).accounts == st.accounts;
      case Logout =>
        assert Apply(st, ev, isEmail).accounts == st.accounts;
    }
  }

  /** Every handler keeps the invariant, and every account it finds. */
  lemma StepKeeps(st: State, ev: Event, isEmail: string -> bool)
    requires CodeMeansUnlinked(st.accounts)
    ensures CodeMeansUnlinked(Apply(st, ev, isEmail).accounts)
    ensures Evolves(st.accounts, Apply(st, ev, isEmail).accounts)
  {
    match ev {
      case LinkCmd(code, d) => LinkKeeps(st.accounts, code, d, isEmail);
      case GuildBan(ban, fetch) => BanKeeps(st.accounts, ban, fetch, isEmail);
      case ResetCmd(it, hash) => ResetKeeps(st.accounts, it, hash, isEmail);
      case _ => WebStepKeeps(st, ev, isEmail);
    }
  }

  /** Whatever events follow, the invariant holds and every account keeps its
      identity, its Discord link, its ban and its consumed code. */
  lemma {:induction false} RunKeeps(st: State, evs: seq<Event>, isEmail: string -> bool)
    requires CodeMeansUnlinked(st.accounts)
    ensures CodeMeansUnlinked(Run(st, evs, isEmail).accounts)
    ensures Evolves(st.accounts, Run(st, evs, isEmail).accounts)
    decreases |evs|
  {
    if evs != [] {
      var st1 := Apply(st, evs[0], isEmail);
      StepKeeps(st, evs[0], isEmail);
      RunKeeps(st1, evs[1..], isEmail);
      EvolvesTransitive(st.accounts, st1.accounts, Run(st1, evs[1..], isEmail).accounts);
    }
  }

  /** A linked account stays linked to the same Discord user, and a banned one stays
      banned, whatever happens afterwards. */
  lemma LinkAndBanAreFinal(st: State, evs: seq<Event>, isEmail: string -> bool, i: nat)
    requires CodeMeansUnlinked(st.accounts) && i < |st.accounts|
    ensures var s' := Run(st, evs, isEmail).accounts;
      && i < |s'| && s'[i].id == st.accounts[i].id
      && (st.accounts[i].discordId.Some? ==> s'[i].discordId == st.accounts[i].discordId)
      && (st.accounts[i].isBanned ==> s'[i].isBanned)
  {
    RunKeeps(st, evs, isEmail);
    assert Kept(st.accounts[i], Run(st, evs, isEmail).accounts[i]);
  }

  /** The schema holds after every handler. */
  lemma StepKeepsConsistent(st: State, ev: Event, isEmail: string -> bool)
    requires Consistent(st, isEmail)
    ensures Consistent(Apply(st, ev, isEmail), isEmail)
  {
    var s := st.accounts;
    match ev {
      case Signup(u, e, p, hash, code, now) =>
        SignupPreservesConsistent(st, u, e, p, hash, code, now, isEmail);
      case Login(id, p, matches) =>
        LoginWritesOnlySession(st, id, p, matches);
      case LinkPage =>
        PagesWriteOnlySession(st);
      case HomePage =>
        PagesWriteOnlySession(st);
      case Logout =>
      case LinkCmd(code, d) =>
        LinkCommand.LinkFailuresChangeNothing(s, code, d, isEmail);
        LinkCommand.LinkPreservesAdmissible(s, code, d, isEmail);
        if LinkCommand.LinkStep(s, code, d, isEmail).1 == LinkCommand.Linked {
          LinkCommand.LinkEffect(s, code, d, isEmail);
        }
      case GuildBan(ban, fetch) =>
        BanSync.BanEffect(s, ban, fetch, isEmail);
        if BanSync.BanStep(s, ban, fetch, isEmail).1.MarkedBanned? {
          BanSync.BanAlwaysRecorded(s, ban, fetch, isEmail);
        }
      case ResetCmd(it, hash) =>
        ResetPassword.ResetGuardsChangeNothing(s, it, hash, isEmail);
        ResetPassword.ResetPreservesAdmissible(s, it, hash, isEmail);
        if ResetPassword.ResetStep(s, it, hash, isEmail).1 == ResetPassword.PasswordReset {
          ResetPassword.ResetEffect(s, it, hash, isEmail);
        }
    }
  }

  /** After the Discord ban, logging in to that account shows the ban page and leaves
      the browser's session as it was. */
  lemma BanBlocksWebLogin(st: State, ban: BanSync.BanEvent, fetch: BanSync.AuditFetch,
                          identifier: string, password: string, matches: (string, string) -> bool,
                          isEmail: string -> bool, j: nat)
    requires Admissible(st.accounts, isEmail)
    requires ban.userId.Some? && ban.hasGuild && j < |st.accounts| && st.accounts[j].discordId == ban.userId
    requires FirstMatch(st.accounts, ByUsernameOrEmail(identifier, identifier)) == Some(j)
    requires matches(password, st.accounts[j].passwordHash)
    ensures var st' := st.(accounts := BanSync.BanStep(st.accounts, ban, fetch, isEmail).0);
      LoginStep(st', Some(identifier), Some(password), matches).1.RenderBan?
      && LoginStep(st', Some(identifier), Some(password), matches).0.session == st.session
  {
    var s := st.accounts;
    var s' := BanSync.BanStep(s, ban, fetch, isEmail).0;
    var q := ByUsernameOrEmail(identifier, identifier);
    BanSync.BanMarksAccount(s, ban, fetch, isEmail, j);
    FirstMatchSameMatches(s, s', q);
    LoginBanned(st.(accounts := s'), identifier, password, matches, j);
  }

  /** After the Discord ban, an open session of that account is ended by the next
      page it asks for. */
  lemma BanEndsOpenSession(st: State, ban: BanSync.BanEvent, fetch: BanSync.AuditFetch,
                           isEmail: string -> bool, j: nat)
    requires Admissible(st.accounts, isEmail)
    requires ban.userId.Some? && ban.hasGuild && j < |st.accounts| && st.accounts[j].discordId == ban.userId
    requires st.session == Some(st.accounts[j].id)
    ensures var st' := st.(accounts := BanSync.BanStep(st.accounts, ban, fetch, isEmail).0);
      HomePageStep(st').0.session.None? && HomePageStep(st').1.RenderBan?
      && LinkPageStep(st').0.session.None? && LinkPageStep(st').1.RenderBan?
  {
    var s := st.accounts;
    var s' := BanSync.BanStep(s, ban, fetch, isEmail).0;
    BanSync.BanMarksAccount(s, ban, fetch, isEmail, j);
    AdmissibleUnique(s', isEmail);
    BannedSessionEnds(st.(accounts := s'), j);
  }

  lemma AdmissibleUnique(s: seq<Account>, isEmail: string -> bool)
    requires Admissible(s, isEmail)
    ensures Unique(s)
  {
  }

  /** The home page sends a logged-in account that holds a link code to the link page. */
  lemma CodeHolderSentToLink(st: State, i: nat)
    requires Unique(st.accounts) && CodeMeansUnlinked(st.accounts) && i < |st.accounts|
    requires st.accounts[i].linkCode.Some? && !st.accounts[i].isBanned
    requires st.session == Some(st.accounts[i].id)
    ensures HomePageStep(st) == (st, Redirect("/link"))
  {
    PagesFollowLinkStatus(st, i);
  }

  /** Before the link the home page of the logged-in account sends it to the link
      page; once `/link` binds it, the home page renders. */
  lemma LinkOpensHome(st: State, code: string, d: string, isEmail: string -> bool)
    requires Admissible(st.accounts, isEmail) && CodeMeansUnlinked(st.accounts) && d != ""
    requires LinkCommand.LinkStep(st.accounts, code, d, isEmail).1 == LinkCommand.Linked
    requires var i := FirstMatch(st.accounts, ByLinkCode(code)).value;
      st.session == Some(st.accounts[i].id) && !st.accounts[i].isBanned
    ensures var i := FirstMatch(st.accounts, ByLinkCode(code)).value;
      var st' := st.(accounts := LinkCommand.LinkStep(st.accounts, code, d, isEmail).0);
      && HomePageStep(st) == (st, Redirect("/link"))
      && HomePageStep(st') == (st', RenderHome(st.accounts[i].username))
  {
    var s := st.accounts;
    var i := FirstMatch(s, ByLinkCode(code)).value;
    assert HomePageStep(st) == (st, Redirect("/link")) by {
      AdmissibleUnique(s, isEmail);
      CodeHolderSentToLink(st, i);
    }
    var st' := st.(accounts := LinkCommand.LinkStep(s, code, d, isEmail).0);
    assert && Unique(st'.accounts) && i < |st'.accounts| && st'.session == Some(st'.accounts[i].id)
           && !st'.accounts[i].isBanned && st'.accounts[i].discordId == Some(d)
           && st'.accounts[i].username == s[i].username by {
      LinkCommand.LinkEffect(s, code, d, isEmail);
      LinkCommand.LinkPreservesAdmissible(s, code, d, isEmail);
      AdmissibleUnique(st'.accounts, isEmail);
    }
    PagesFollowLinkStatus(st', i);
  }

  /** After `/reset-password`, the trimmed new password opens the caller's account
      from the website, when the identifier finds that account and it is not banned
      (given that `bcrypt.compare` accepts what `bcrypt.hash` produced). */
  lemma ResetThenLogin(st: State, it: ResetPassword.Interaction, hash: string -> string,
                       matches: (string, string) -> bool, isEmail: string -> bool,
                       identifier: string, i: nat)
    requires Admissible(st.accounts, isEmail)
    requires forall x :: matches(x, hash(x))
    requires i < |st.accounts| && st.accounts[i].discordId == Some(it.userId) && !st.accounts[i].isBanned
    requires FirstMatch(st.accounts, ByUsernameOrEmail(identifier, identifier)) == Some(i)
    requires ResetPassword.ResetStep(st.accounts, it, hash, isEmail).1 == ResetPassword.PasswordReset
    ensures var st' := st.(accounts := ResetPassword.ResetStep(st.accounts, it, hash, isEmail).0);
      LoginStep(st', Some(identifier), Some(Trim(it.newPassword)), matches).0.session == Some(st.accounts[i].id)
  {
    var s := st.accounts;
    var s' := ResetPassword.ResetStep(s, it, hash, isEmail).0;
    assert FirstMatch(s, ByDiscordId(it.userId)) == Some(i) by {
      AdmissibleUnique(s, isEmail);
      FirstMatchOfUniqueKey(s, i);
    }
    ResetPassword.ResetEffect(s, it, hash, isEmail);
    FirstMatchSameMatches(s, s', ByUsernameOrEmail(identifier, identifier));
  }
}
