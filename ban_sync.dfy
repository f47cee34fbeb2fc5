/**
 * The `guildBanAdd` handler of bot.js: when a member is banned from the Discord
 * server, the PulseHub account linked to that member is marked banned, with the
 * reason from the newest ban entry of the audit log when that entry is about
 * the same member.
 *
 * The Discord event and the audit-log fetch are parameters: `BanEvent` holds
 * `ban.user.id` (`None` when the user is missing) and whether `ban.guild` is
 * present; `AuditFetch` is what `guild.fetchAuditLogs({ limit: 1, ... })`
 * yielded, or its failure.
 */
module BanSync {
  import opened Wrappers
  import opened JsString
  import opened UserModel
  import opened AccountStore

  const DEFAULT_REASON := "No reason provided"

  datatype BanEvent = BanEvent(userId: Option<string>, hasGuild: bool)

  /** The newest audit-log ban entry: whom it is about and the reason given. */
  datatype AuditEntry = AuditEntry(targetId: string, reason: Option<string>)

  datatype AuditFetch = AuditFailed | AuditFetched(latest: Option<AuditEntry>)

  /** What the handler ends with (it only logs it). */
  datatype BanOutcome =
    | MissingData                                  // "Missing user or guild data"
    | NoLinkedAccount                              // "No PulseHub account linked"
    | MarkedBanned(username: string, reason: string)
    | SaveFailed                                   // caught by the outer `catch`

  /** The reason the handler settles on: the entry's when it is about this member
      and truthy, the default otherwise. */
  function BanReason(fetch: AuditFetch, userId: string): string {
    if fetch.AuditFetched? && fetch.latest.Some? && fetch.latest.value.targetId == userId
       && Truthy(fetch.latest.value.reason)
    then fetch.latest.value.reason.value
    else DEFAULT_REASON
  }

  /** The document as the handler saves it. */
  function BannedVersion(a: Account, reason: string): Account {
    a.(isBanned := true, banReason := Some(reason))
  }

  function BanStep(s: seq<Account>, event: BanEvent, fetch: AuditFetch, isEmail: string -> bool)
    : (seq<Account>, BanOutcome)
  {
    if event.userId.None? || !event.hasGuild then (s, MissingData)
    else
      match FirstMatch(s, ByDiscordId(event.userId.value))
      case None => (s, NoLinkedAccount)
      case Some(i) =>
        var reason := BanReason(fetch, event.userId.value);
        var a := BannedVersion(s[i], reason);
        if Replaceable(s, i, a, isEmail) then (s[i := a], MarkedBanned(a.username, reason))
        else (s, SaveFailed)
  }

  /** The stored reason is never empty, and an audit entry about someone else, a
      failed fetch or an empty log never supplies it. */
  lemma BanReasonProperties(fetch: AuditFetch, userId: string)
    ensures BanReason(fetch, userId) != ""
    ensures (fetch.AuditFailed? || fetch.latest.None? || fetch.latest.value.targetId != userId)
        ==> BanReason(fetch, userId) == DEFAULT_REASON
    ensures fetch.AuditFetched? && fetch.latest.Some? && fetch.latest.value.targetId == userId
            && !Truthy(fetch.latest.value.reason)
        ==> BanReason(fetch, userId) == DEFAULT_REASON
    ensures fetch.AuditFetched? && fetch.latest.Some? && fetch.latest.value.targetId == userId
            && Truthy(fetch.latest.value.reason)
        ==> BanReason(fetch, userId) == fetch.latest.value.reason.value
  {
  }

  /** No user, no guild, or no linked account: nothing changes. */
  lemma BanWithoutAccountIgnored(s: seq<Account>, event: BanEvent, fetch: AuditFetch, isEmail: string -> bool)
    requires event.userId.None? || !event.hasGuild
          || forall j | 0 <= j < |s| :: s[j].discordId != event.userId
    ensures BanStep(s, event, fetch, isEmail).0 == s
    ensures BanStep(s, event, fetch, isEmail).1.MissingData? || BanStep(s, event, fetch, isEmail).1.NoLinkedAccount?
  {
    if event.userId.Some? && event.hasGuild {
      FirstMatchNoneIff(s, ByDiscordId(event.userId.value));
    }
  }

  /** The ban writes only the linked account, and there only `isBanned` and
      `banReason`. */
  lemma BanEffect(s: seq<Account>, event: BanEvent, fetch: AuditFetch, isEmail: string -> bool)
    ensures var (s', outcome) := BanStep(s, event, fetch, isEmail);
      && |s'| == |s|
      && (!outcome.MarkedBanned? ==> s' == s)
      && (outcome.MarkedBanned? ==>
            && event.userId.Some?
            && FirstMatch(s, ByDiscordId(event.userId.value)).Some?
            && var i := FirstMatch(s, ByDiscordId(event.userId.value)).value;
            && s[i].discordId == event.userId
            && s'[i] == s[i].(isBanned := true, banReason := Some(outcome.reason))
            && outcome.reason == BanReason(fetch, event.userId.value)
            && forall j | 0 <= j < |s| && j != i :: s'[j] == s[j])
  {
    if event.userId.Some? && event.hasGuild {
      match FirstMatch(s, ByDiscordId(event.userId.value))
      case None =>
      case Some(i) =>
        var reason := BanReason(fetch, event.userId.value);
        if Replaceable(s, i, BannedVersion(s[i], reason), isEmail) {
          assert BanStep(s, event, fetch, isEmail).0 == s[i := BannedVersion(s[i], reason)];
        }
    }
  }

  /** On an admissible collection the save never fails: a linked account is always
      marked banned, and the collection stays admissible. */
  lemma BanAlwaysRecorded(s: seq<Account>, event: BanEvent, fetch: AuditFetch, isEmail: string -> bool)
    requires Admissible(s, isEmail)
    requires event.userId.Some? && event.hasGuild
    requires exists j | 0 <= j < |s| :: s[j].discordId == event.userId
    ensures BanStep(s, event, fetch, isEmail).1.MarkedBanned?
    ensures Admissible(BanStep(s, event, fetch, isEmail).0, isEmail)
  {
    var d := event.userId.value;
    FirstMatchNoneIff(s, ByDiscordId(d));
    var i := FirstMatch(s, ByDiscordId(d)).value;
    var reason := BanReason(fetch, d);
    assert DocumentValid(s[i], isEmail);
    SaveKeepingKeys(s, i, BannedVersion(s[i], reason), isEmail);
  }

  /** On an admissible collection, the ban of a linked member marks exactly that
      member's account, with the chosen reason, and keeps the collection admissible. */
  lemma BanMarksAccount(s: seq<Account>, event: BanEvent, fetch: AuditFetch, isEmail: string -> bool, j: nat)
    requires Admissible(s, isEmail)
    requires event.userId.Some? && event.hasGuild && j < |s| && s[j].discordId == event.userId
    ensures var s' := BanStep(s, event, fetch, isEmail).0;
      && |s'| == |s| && Admissible(s', isEmail)
      && s'[j] == BannedVersion(s[j], BanReason(fetch, event.userId.value))
      && forall k | 0 <= k < |s| && k != j :: s'[k] == s[k]
  {
    assert Unique(s);
    FirstMatchOfUniqueKey(s, j);
    BanAlwaysRecorded(s, event, fetch, isEmail);
    BanEffect(s, event, fetch, isEmail);
  }

  /** The same ban event handled twice leaves the collection as handling it once. */
  lemma BanIdempotent(s: seq<Account>, event: BanEvent, fetch: AuditFetch, isEmail: string -> bool)
    requires Admissible(s, isEmail)
    ensures var s' := BanStep(s, event, fetch, isEmail).0;
      BanStep(s', event, fetch, isEmail).0 == s'
  {
    var (s', outcome) := BanStep(s, event, fetch, isEmail);
    BanEffect(s, event, fetch, isEmail);
    if outcome.MarkedBanned? {
      var d := event.userId.value;
      var i := FirstMatch(s, ByDiscordId(d)).value;
      BanAlwaysRecorded(s, event, fetch, isEmail);
      FirstMatchOfUniqueKey(s', i);
      assert s'[i] == BannedVersion(s'[i], outcome.reason);
      assert s'[i := s'[i]] == s';
    }
  }

  /** `client.on('guildBanAdd', ...)` on the store. */
  method OnGuildBanAdd(store: Store, event: BanEvent, fetch: AuditFetch) returns (outcome: BanOutcome)
    requires store.Valid()
    modifies store`accounts
    ensures store.Valid()
    ensures (store.accounts, outcome) == BanStep(old(store.accounts), event, fetch, store.isEmail)
  {
    if event.userId.None? || !event.hasGuild {
      return MissingData;
    }
    var userId := event.userId.value;
    var found := FindOne(store.accounts, ByDiscordId(userId));
    if found.None? {
      return NoLinkedAccount;
    }
    var i := found.value;
    var reason := DEFAULT_REASON;
    if fetch.AuditFetched? {
      var log := fetch.latest;
      if log.Some? && log.value.targetId == userId {
        if Truthy(log.value.reason) {
          reason := log.value.reason.value;
        }
      }
    }
    var dbUser := BannedVersion(store.accounts[i], reason);
    var ok := store.Save(i, dbUser);
    if !ok {
      return SaveFailed;
    }
    return MarkedBanned(dbUser.username, reason);
  }
}
