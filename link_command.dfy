/**
 * The `/link <code>` slash command of commands/link.js: the first account
 * holding the code gets the caller's Discord id, and its code is cleared.
 * `discordId` is `interaction.user.id`; the reply is one of the three messages
 * the command sends (all ephemeral).
 */
module LinkCommand {
  import opened Wrappers
  import opened UserModel
  import opened AccountStore

  datatype LinkReply =
    | InvalidCode   // "Invalid or expired code. Try generating a new one from the website."
    | Linked        // "Your PulseHub account has been successfully linked!"
    | LinkFailed    // "Something went wrong while linking your account." (the save threw)

  /** The document as the command saves it: linked to `discordId`, code cleared. */
  function LinkedVersion(a: Account, discordId: string): Account {
    a.(discordId := Some(discordId), linkCode := None)
  }

  function LinkStep(s: seq<Account>, code: string, discordId: string, isEmail: string -> bool)
    : (seq<Account>, LinkReply)
  {
    match FirstMatch(s, ByLinkCode(code))
    case None => (s, InvalidCode)
    case Some(i) =>
      var a := LinkedVersion(s[i], discordId);
      if Replaceable(s, i, a, isEmail) then (s[i := a], Linked) else (s, LinkFailed)
  }

  /** A code no account holds changes nothing. */
  lemma UnknownCodeRejected(s: seq<Account>, code: string, discordId: string, isEmail: string -> bool)
    requires forall j | 0 <= j < |s| :: s[j].linkCode != Some(code)
    ensures LinkStep(s, code, discordId, isEmail) == (s, InvalidCode)
  {
    FirstMatchNoneIff(s, ByLinkCode(code));
  }

  /** Every reply but `Linked` leaves the collection as it was. */
  lemma LinkFailuresChangeNothing(s: seq<Account>, code: string, discordId: string, isEmail: string -> bool)
    ensures |LinkStep(s, code, discordId, isEmail).0| == |s|
    ensures LinkStep(s, code, discordId, isEmail).1 != Linked ==> LinkStep(s, code, discordId, isEmail).0 == s
  {
    match FirstMatch(s, ByLinkCode(code))
    case None =>
    case Some(i) =>
      var a := LinkedVersion(s[i], discordId);
      if Replaceable(s, i, a, isEmail) {
        assert LinkStep(s, code, discordId, isEmail) == (s[i := a], Linked);
      } else {
        assert LinkStep(s, code, discordId, isEmail) == (s, LinkFailed);
      }
  }

  /** A link changes only the first account holding the code: it gains the Discord
      id, loses the code, and keeps everything else. */
  lemma LinkEffect(s: seq<Account>, code: string, discordId: string, isEmail: string -> bool)
    requires LinkStep(s, code, discordId, isEmail).1 == Linked
    ensures FirstMatch(s, ByLinkCode(code)).Some?
    ensures var i := FirstMatch(s, ByLinkCode(code)).value;
      && s[i].linkCode == Some(code)
      && LinkStep(s, code, discordId, isEmail).0 == s[i := s[i].(discordId := Some(discordId), linkCode := None)]
  {
    var i := FirstMatch(s, ByLinkCode(code)).value;
    assert LinkStep(s, code, discordId, isEmail).0 == s[i := LinkedVersion(s[i], discordId)];
  }

  /** On an admissible collection the link goes through exactly when some account
      holds the code and no other account is already linked to the caller. */
  lemma LinkSucceedsIff(s: seq<Account>, code: string, discordId: string, isEmail: string -> bool)
    requires Admissible(s, isEmail)
    ensures LinkStep(s, code, discordId, isEmail).1 == Linked
        <==> && FirstMatch(s, ByLinkCode(code)).Some?
             && forall j | 0 <= j < |s| && j != FirstMatch(s, ByLinkCode(code)).value ::
                  s[j].discordId != Some(discordId)
  {
    match FirstMatch(s, ByLinkCode(code))
    case None =>
    case Some(i) =>
      SaveChangingDiscordId(s, i, LinkedVersion(s[i], discordId), isEmail);
  }

  /** Linking keeps the collection admissible. */
  lemma LinkPreservesAdmissible(s: seq<Account>, code: string, discordId: string, isEmail: string -> bool)
    requires Admissible(s, isEmail)
    ensures Admissible(LinkStep(s, code, discordId, isEmail).0, isEmail)
  {
    match FirstMatch(s, ByLinkCode(code))
    case None =>
    case Some(i) =>
      var a := LinkedVersion(s[i], discordId);
      if Replaceable(s, i, a, isEmail) {
        SaveIsLocal(s, i, a, isEmail);
      }
  }

  /** After a successful link the caller's Discord id finds exactly the linked account. */
  lemma LinkedAccountFoundByDiscordId(s: seq<Account>, code: string, discordId: string, isEmail: string -> bool)
    requires Admissible(s, isEmail)
    requires LinkStep(s, code, discordId, isEmail).1 == Linked
    ensures var s' := LinkStep(s, code, discordId, isEmail).0;
      FirstMatch(s', ByDiscordId(discordId)) == FirstMatch(s, ByLinkCode(code))
  {
    var i := FirstMatch(s, ByLinkCode(code)).value;
    var s' := LinkStep(s, code, discordId, isEmail).0;
    LinkPreservesAdmissible(s, code, discordId, isEmail);
    FirstMatchOfUniqueKey(s', i);
  }

  /** A code works once for a caller: repeating the same command, whatever account
      still holds that code, changes nothing, since the caller is now linked. */
  lemma LinkOneTimeUse(s: seq<Account>, code: string, discordId: string, isEmail: string -> bool)
    requires Admissible(s, isEmail)
    requires LinkStep(s, code, discordId, isEmail).1 == Linked
    ensures var s' := LinkStep(s, code, discordId, isEmail).0;
      && LinkStep(s', code, discordId, isEmail).0 == s'
      && LinkStep(s', code, discordId, isEmail).1 != Linked
  {
    var s' := LinkStep(s, code, discordId, isEmail).0;
    var i := FirstMatch(s, ByLinkCode(code)).value;
    assert i < |s'| && s'[i].discordId == Some(discordId) && s'[i].linkCode == None by {
      LinkEffect(s, code, discordId, isEmail);
    }
    assert Admissible(s', isEmail) by {
      LinkPreservesAdmissible(s, code, discordId, isEmail);
    }
    assert LinkStep(s', code, discordId, isEmail).1 != Linked by {
      LinkSucceedsIff(s', code, discordId, isEmail);
      var r := FirstMatch(s', ByLinkCode(code));
      if r.Some? {
        assert r.value != i;
      }
    }
    LinkFailuresChangeNothing(s', code, discordId, isEmail);
  }

  /** A used code is spent for every caller: once the only account holding it has
      been linked, the same code from any Discord user finds no account, gets
      "Invalid or expired code" and changes nothing. */
  lemma UsedCodeRejectedForEveryone(s: seq<Account>, code: string, discordId: string, other: string,
                                    isEmail: string -> bool)
    requires forall j, k | 0 <= j < k < |s| :: !(s[j].linkCode == Some(code) && s[k].linkCode == Some(code))
    requires LinkStep(s, code, discordId, isEmail).1 == Linked
    ensures var s' := LinkStep(s, code, discordId, isEmail).0;
      LinkStep(s', code, other, isEmail) == (s', InvalidCode)
  {
    var s' := LinkStep(s, code, discordId, isEmail).0;
    LinkEffect(s, code, discordId, isEmail);
    var i := FirstMatch(s, ByLinkCode(code)).value;
    forall j | 0 <= j < |s'| ensures s'[j].linkCode != Some(code) {
      if j != i {
        assert !(s[i].linkCode == Some(code) && s[j].linkCode == Some(code));
      }
    }
    UnknownCodeRejected(s', code, other, isEmail);
  }

  /** An account that holds no code, or not this one, is never touched. */
  lemma OtherAccountsUntouched(s: seq<Account>, code: string, discordId: string, isEmail: string -> bool, j: nat)
    requires j < |s| && s[j].linkCode != Some(code)
    ensures |LinkStep(s, code, discordId, isEmail).0| == |s|
    ensures LinkStep(s, code, discordId, isEmail).0[j] == s[j]
  {
    LinkFailuresChangeNothing(s, code, discordId, isEmail);
    if LinkStep(s, code, discordId, isEmail).1 == Linked {
      LinkEffect(s, code, discordId, isEmail);
    }
  }

  /** `execute(interaction)` on the store. */
  method Execute(store: Store, code: string, discordId: string) returns (reply: LinkReply)
    requires store.Valid()
    modifies store`accounts
    ensures store.Valid()
    ensures (store.accounts, reply) == LinkStep(old(store.accounts), code, discordId, store.isEmail)
  {
    var found := FindOne(store.accounts, ByLinkCode(code));
    if found.None? {
      return InvalidCode;
    }
    var i := found.value;
    var user := LinkedVersion(store.accounts[i], discordId);
    var ok := store.Save(i, user);
    reply := if ok then Linked else LinkFailed;
  }
}
