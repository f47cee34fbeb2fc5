/**
 * The `/reset-password <new_password>` slash command of
 * commands/reset-password.js: the account linked to the caller gets the hash of
 * the trimmed new password.
 *
 * The interaction is a parameter: whether it was already replied to or
 * deferred, whether `deferReply` succeeds, the caller's id and the option's
 * value. `hash` stands for `bcrypt.hash(·, 12)`.
 */
module ResetPassword {
  import opened Wrappers
  import opened JsString
  import opened UserModel
  import opened AccountStore

  /** The command's own length rule, on the trimmed password. */
  const MIN_PASSWORD_LENGTH := 6

  datatype Interaction = Interaction(
    replied: bool,
    deferred: bool,
    deferSucceeds: bool,
    userId: string,
    newPassword: string)

  datatype ResetReply =
    | NoReply            // already handled, or `deferReply` failed
    | PasswordTooShort   // "Password must be at least 6 characters long."
    | NotLinked          // "Your Discord account is not linked to a PulseHub account. ..."
    | PasswordReset      // "Your PulseHub password has been successfully reset! ..."
    | ServerError        // "A server error occurred. Please try again later."

  function ResetStep(s: seq<Account>, it: Interaction, hash: string -> string, isEmail: string -> bool)
    : (seq<Account>, ResetReply)
  {
    if it.replied || it.deferred || !it.deferSucceeds then (s, NoReply)
    else
      var p := Trim(it.newPassword);
      if |p| < MIN_PASSWORD_LENGTH then (s, PasswordTooShort)
      else
        match FirstMatch(s, ByDiscordId(it.userId))
        case None => (s, NotLinked)
        case Some(i) =>
          var a := s[i].(passwordHash := hash(p));
          if Replaceable(s, i, a, isEmail) then (s[i := a], PasswordReset) else (s, ServerError)
  }

  /** Every reply but `PasswordReset` leaves the collection as it was. */
  lemma ResetGuardsChangeNothing(s: seq<Account>, it: Interaction, hash: string -> string, isEmail: string -> bool)
    ensures ResetStep(s, it, hash, isEmail).1 != PasswordReset ==> ResetStep(s, it, hash, isEmail).0 == s
    ensures it.replied || it.deferred || !it.deferSucceeds ==> ResetStep(s, it, hash, isEmail).1 == NoReply
    ensures !it.replied && !it.deferred && it.deferSucceeds && |Trim(it.newPassword)| < MIN_PASSWORD_LENGTH
      ==> ResetStep(s, it, hash, isEmail).1 == PasswordTooShort
  {
    if !it.replied && !it.deferred && it.deferSucceeds && |Trim(it.newPassword)| >= MIN_PASSWORD_LENGTH {
      match FirstMatch(s, ByDiscordId(it.userId))
      case None =>
      case Some(i) =>
    }
  }

  /** A reset writes the hash of the trimmed password into the account linked to the
      caller, and nothing else anywhere. */
  lemma ResetEffect(s: seq<Account>, it: Interaction, hash: string -> string, isEmail: string -> bool)
    requires ResetStep(s, it, hash, isEmail).1 == PasswordReset
    ensures FirstMatch(s, ByDiscordId(it.userId)).Some?
    ensures var s' := ResetStep(s, it, hash, isEmail).0;
      var i := FirstMatch(s, ByDiscordId(it.userId)).value;
      && |s'| == |s|
      && s[i].discordId == Some(it.userId)
      && s'[i] == s[i].(passwordHash := hash(Trim(it.newPassword)))
      && forall j | 0 <= j < |s| && j != i :: s'[j] == s[j]
  {
    var i := FirstMatch(s, ByDiscordId(it.userId)).value;
    var a := s[i].(passwordHash := hash(Trim(it.newPassword)));
    assert ResetStep(s, it, hash, isEmail).0 == s[i := a];
  }

  /** On an admissible collection the reset succeeds exactly when the interaction is
      fresh and deferred without error, the trimmed password has at least six
      characters, the caller is linked, and the hash is not empty. */
  lemma ResetSucceedsIff(s: seq<Account>, it: Interaction, hash: string -> string, isEmail: string -> bool)
    requires Admissible(s, isEmail)
    ensures ResetStep(s, it, hash, isEmail).1 == PasswordReset
        <==> && !it.replied && !it.deferred && it.deferSucceeds
             && |Trim(it.newPassword)| >= MIN_PASSWORD_LENGTH
             && (exists j | 0 <= j < |s| :: s[j].discordId == Some(it.userId))
             && hash(Trim(it.newPassword)) != ""
  {
    FirstMatchNoneIff(s, ByDiscordId(it.userId));
    if !it.replied && !it.deferred && it.deferSucceeds && |Trim(it.newPassword)| >= MIN_PASSWORD_LENGTH {
      match FirstMatch(s, ByDiscordId(it.userId))
      case None =>
      case Some(i) =>
        var a := s[i].(passwordHash := hash(Trim(it.newPassword)));
        if a.passwordHash != "" {
          assert DocumentValid(s[i], isEmail);
          SaveKeepingKeys(s, i, a, isEmail);
        }
    }
  }

  /** The reset keeps the collection admissible. */
  lemma ResetPreservesAdmissible(s: seq<Account>, it: Interaction, hash: string -> string, isEmail: string -> bool)
    requires Admissible(s, isEmail)
    ensures Admissible(ResetStep(s, it, hash, isEmail).0, isEmail)
  {
    if !it.replied && !it.deferred && it.deferSucceeds && |Trim(it.newPassword)| >= MIN_PASSWORD_LENGTH {
      match FirstMatch(s, ByDiscordId(it.userId))
      case None =>
      case Some(i) =>
        var a := s[i].(passwordHash := hash(Trim(it.newPassword)));
        if Replaceable(s, i, a, isEmail) {
          SaveIsLocal(s, i, a, isEmail);
        }
    }
  }

  /** `execute(interaction)` on the store. */
  method Execute(store: Store, it: Interaction, hash: string -> string) returns (reply: ResetReply)
    requires store.Valid()
    modifies store`accounts
    ensures store.Valid()
    ensures (store.accounts, reply) == ResetStep(old(store.accounts), it, hash, store.isEmail)
  {
    if it.replied || it.deferred {
      return NoReply;
    }
    if !it.deferSucceeds {
      return NoReply;
    }
    var newPassword := Trim(it.newPassword);
    if |newPassword| < MIN_PASSWORD_LENGTH {
      return PasswordTooShort;
    }
    var found := FindOne(store.accounts, ByDiscordId(it.userId));
    if found.None? {
      return NotLinked;
    }
    var i := found.value;
    var dbUser := store.accounts[i].(passwordHash := hash(newPassword));
    var ok := store.Save(i, dbUser);
    reply := if ok then PasswordReset else ServerError;
  }
}
