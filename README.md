# PulseHub account linking, ban sync and request defences, in Dafny

PulseHub is a website whose accounts are tied to members of a Discord server.
A visitor signs up on the website and gets a one-time link code. In Discord the
member runs `/link <code>`, and the bot writes the member's Discord id into the
account. From then on the member can use `/reset-password` from Discord. A ban
on the Discord server marks the linked account as banned, and the website then
refuses it. In front of the website sit three security middlewares: a burst
detector (`antiDdos`), a ban-evasion detector (`antiVpn`) and an automation
detector (`antiScrape`). All three report to a threat log stored in MongoDB.

The project models:

- the `User` schema;
- the collection's queries and writes;
- every web route of `server.js` (signup, login, `requireAuth`, `checkBan`, the link and home pages, logout);
- the `/link` and `/reset-password` slash commands;
- the `guildBanAdd` handler;
- the validators;
- the threat log;
- the three middlewares.

It proves properties of each of these, and properties of any sequence of web
and Discord events.

## Layout

| file | module | models |
|---|---|---|
| `wrappers.dfy` | `Wrappers` | `Option` |
| `js_string.dfy` | `JsString` | `String.prototype.trim`, `toLowerCase` (ASCII), `startsWith`, `includes`, JavaScript truthiness |
| `validators.dfy` | `Validators` | middleware/validators.js |
| `user_model.dfy` | `UserModel` | models/User.js: the document, the setters, the validators, the unique indexes |
| `account_store.dfy` | `AccountStore` | `findOne`/`findById`, `User.create`, `document.save()` as a `Store` class |
| `server.dfy` | `Server` | server.js routes and middleware |
| `link_command.dfy` | `LinkCommand` | commands/link.js |
| `reset_password.dfy` | `ResetPassword` | commands/reset-password.js |
| `ban_sync.dfy` | `BanSync` | bot.js `guildBanAdd` |
| `http_request.dfy` | `HttpRequest` | the parts of an Express request the middlewares read |
| `threat_log.dfy` | `ThreatLogging` | models/logging.js |
| `anti_ddos.dfy` | `AntiDdos` | security/antiDdos.js |
| `anti_vpn.dfy` | `AntiVpn` | security/antiVpn.js |
| `anti_scrape.dfy` | `AntiScrape` | security/antiScrape.js |
| `protocol.dfy` | `Protocol` | any sequence of web requests and Discord events |

Each handler that changes the database is modelled twice:

- as a pure step function from the old state to the new state and the reply;
- as a method on the `Store` class, or on the `ThreatLog`, `RequestHistory` and `BanLists` classes.

The method issues the same queries and writes in the handler's order. Its
`ensures` ties the new fields and the reply to the step function, and the
lemmas about the step function state what the handler promises.

`findOne` is modelled as returning the first matching document in insertion
order (`FirstMatch`). The `Store` keeps the collection *admissible*: every
document passes the schema's validators, and no two documents share:

- an `_id`;
- a username;
- an email;
- a non-null Discord id.

These parts of the system are function-typed parameters, with their results
left unconstrained:

- `bcrypt.hash` and `bcrypt.compare`;
- `validator.isEmail` and `validator.escape`;
- `Math.random()` (the link code);
- `Date.now()`;
- the SHA-256 fingerprint.

These outcomes are boolean parameters or datatypes:

- Discord's interaction state;
- the audit-log fetch;
- whether the database accepts a write.

Mongoose passes a query's values through the schema's setters before the
query runs. `Matches` therefore compares a queried username after `trim` and a
queried email after `lowercase` and `trim`, as the stored fields were written.

Everywhere but two places the model does what the code does. At those two
places it follows the evidently intended behaviour instead; `## Findings` lists
both, each with a member modelling the code as written:

- `UserModel.NoClash` treats `discordId` as unique only among non-null values.
  So do the members built on it: `AccountStore.Store.Create`,
  `AccountStore.Store.Save`, `Server.SignupStep` and `LinkCommand.LinkStep`.
  `Server.SignupStepAsWritten` and `UserModel.DiscordIdIndexedWithNulls` model
  the index as MongoDB builds it.
- `AntiDdos.OnRateLimited` logs the rate-limit hit with the listed action
  `'redirected'`. `AntiDdos.RateLimitThreatAsWritten` keeps the code's
  `'rate_limited'`.

### Behaviour worth knowing

- **Link codes.** `linkCode` has no unique index (models/User.js:28-34). Signup draws the code from `Math.random()` without checking that it is unused (server.js:79). `LinkCodeUnconstrained` states this, and `LinkOneTimeUse` holds even when two accounts hold the same code.
- **Code format.** `/link` does not trim, upper-case or check the format of the code (commands/link.js:18-23).
- **Already-linked accounts.** `/link` does not refuse an account that is already linked. It relies on the code being cleared once it is used.
- **Username and email case.** Uniqueness is by exact string of the normalised fields. The email is lower-cased and trimmed, so `BOB@X.IO ` is the same email as `bob@x.io`. The username is only trimmed, so `Alice` and `alice` are two usernames.
- **Signup crashes.** Past the duplicate check, signup fails with an unhandled rejection exactly when the schema's validators refuse the document (server.js:81-87).
- **Reset password length.** `/reset-password` requires 6 characters after trimming (commands/reset-password.js:28-31). No route calls the validators' password rule (8 characters with every character class).

## Model

| member | source | states |
|---|---|---|
| JsString.TrimIsInfix | middleware/validators.js:24 | `trim()` yields a contiguous slice of its input with no leading or trailing whitespace |
| JsString.TrimIdempotent | models/User.js:11 | trimming twice is trimming once (the `trim` setter is a normal form) |
| JsString.IncludesIff | security/antiScrape.js:19 | `includes(sub)` holds exactly when `sub` occurs at some position |
| JsString.StartsWithIncludes | security/antiVpn.js:29 | an anchored prefix is also an occurrence |
| Validators.AllWordChars | middleware/validators.js:8 | `/^[a-zA-Z0-9_]+$/` holds exactly when every character is a word character |
| Validators.HasCharIn | middleware/validators.js:16-18 | `/[A-Z]/` (and the others) hold exactly when some character lies in the range |
| Validators.ValidateUsername | middleware/validators.js:3-10 | accepted exactly when the value is a string of 3 to 32 word characters |
| Validators.ValidatePassword | middleware/validators.js:12-20 | accepted exactly when the value is a string of at least 8 characters containing an upper-case letter, a lower-case letter and a digit |
| Validators.Sanitize | middleware/validators.js:22-25 | a non-string gives `''`; a string gives the escape of its trimmed form |
| Validators.UsernameLengthBoundsInclusive | middleware/validators.js:6-7 | both length bounds are inclusive: 3 and 32 pass, 2 and 33 fail |
| Validators.NonStringsRejected | middleware/validators.js:5 | a non-string is refused by both validators |
| Validators.PasswordNeedsEveryClass | middleware/validators.js:15-18 | a password missing any one of the three classes is refused, whatever its length |
| Validators.ValidUsernameIsTrimmed | models/User.js:11-14 | a username that passes the pattern has no surrounding whitespace |
| UserModel.NewAccount | models/User.js:7-53 | a new document takes the normalised username and email, `discordId: null`, `isBanned: false`, `banReason: null`, `createdAt: now` |
| UserModel.AdmissibleFields | models/User.js:7-27 | every stored account has a 3–32 character word username, a non-empty valid email and a non-empty hash, and shares no username, email or non-null Discord id with another account |
| UserModel.StoredFieldsNormalized | models/User.js:11-21 | stored usernames and emails are fixed points of their setters |
| UserModel.NormalizeEmailIdempotent | models/User.js:20-21 | lower-casing and trimming an email twice is doing it once, and leaves no upper-case letter |
| UserModel.NewAccountValidIff | models/User.js:7-27 | `User.create` passes the validators exactly when the trimmed username passes the username rule, the normalised email is non-empty and valid, and the hash is non-empty |
| UserModel.SaveIsLocal | models/User.js:10 | after a save the collection is admissible exactly when the saved document is valid and clashes with no other document |
| UserModel.CreateIsLocal | models/User.js:10 | likewise for an insert |
| UserModel.SaveKeepingKeys | models/User.js:24-27 | a save that keeps every key field and a non-empty hash is always accepted |
| UserModel.SaveChangingDiscordId | models/User.js:35-41 | a save that changes only the Discord id is accepted exactly when no other document holds the new id |
| UserModel.LinkCodeUnconstrained | models/User.js:28-34 | any account may be given any link code, even one that another account holds |
| UserModel.SparseIndexRejectsSecondUnlinkedAccount | models/User.js:35-41 | with explicit nulls indexed, as MongoDB's sparse index does, a second unlinked account is a duplicate key that the non-null rule admits |
| AccountStore.FirstMatch | server.js:73 | the answer to `findOne` is a matching document with no match before it; no answer means that no document matches. A username filter matches after `trim`, an email filter after `lowercase` and `trim` |
| AccountStore.FirstMatchNoneIff | server.js:74 | `findOne` comes back empty exactly when nothing matches |
| AccountStore.FirstMatchSameMatches | commands/reset-password.js:48-50 | a query that matches the same positions in two collections gets the same answer from both |
| AccountStore.FindOne | server.js:98-100 | the scan returns `FirstMatch` |
| AccountStore.FirstMatchOfUniqueKey | server.js:45 | on `_id` and on a non-null Discord id, the first match is the account itself |
| AccountStore.IndexProbe | models/User.js:10 | the probe succeeds exactly when the document clashes with no document other than the excepted one |
| AccountStore.Admits | server.js:81 | the insert decision is `Insertable` |
| AccountStore.AdmitsUpdate | commands/link.js:34 | the update decision is `Replaceable` |
| AccountStore.CreateKeepsConsistent | server.js:81 | an accepted insert of a fresh `_id` keeps the store consistent |
| AccountStore.SaveKeepsConsistent | commands/link.js:34 | an accepted save keeps the store consistent |
| AccountStore.Store.Create | server.js:81 | `User.create` inserts the normalised document with a fresh `_id` exactly when it is insertable, and otherwise changes nothing; `Valid` is kept |
| AccountStore.Store.Save | commands/link.js:34 | `save()` replaces the document exactly when the new version is replaceable, and otherwise changes nothing; `Valid` is kept |
| Server.AccountById | server.js:45 | `findById` finds a document exactly when one has that `_id`, and that document has it |
| Server.RequireAuth | server.js:37-40 | without a session the request is redirected to `/login`, and only then |
| Server.CheckBan | server.js:43-53 | `checkBan`: looks the session's account up by `_id`; a banned one has its session destroyed and sees its ban notice, any other request continues with the account found or `null` |
| Server.SignupMissingField | server.js:69-71 | a missing or empty field renders "All fields required." and writes nothing |
| Server.SignupTaken | server.js:73-76 | an account holding the trimmed username or the lower-cased, trimmed email gives "Username or email taken." and writes nothing; so `Alice ` is taken by `Alice`, and `BOB@X.IO` by `bob@x.io` |
| Server.SignupEffect | server.js:78-87 | signup either changes nothing, or appends one unlinked, unbanned account with the new code, the trimmed username, the normalised email and the hash, and logs the browser into it |
| Server.SignupAppendsUnlinked | server.js:78-87 | signup writes nothing, or appends exactly one account, which is unlinked |
| Server.SignupPreservesConsistent | server.js:67-88 | signup keeps the store consistent |
| Server.SignupSucceedsIff | server.js:67-88 | on a store with fresh ids, signup succeeds exactly when every field is present, the normalised fields pass the schema, the hash is non-empty, and no account holds the trimmed username or the normalised email; existing unlinked accounts never stand in the way |
| Server.SignupDecidedByStore | server.js:78-87 | past the duplicate check, `User.create`'s acceptance decides between the redirect and the crash |
| Server.SignupDocumentInsertable | server.js:81 | what the store checks of the signup document, in terms of the raw fields |
| Server.SignupCrashesOnlyOnInvalidFields | server.js:73-87 | with every field present, signup crashes exactly when the duplicate check passes and the schema's validators refuse the document; a duplicate never reaches `User.create` |
| Server.SignupStep | server.js:67-88 | `POST /signup`: the missing-field check, then the duplicate check on the normalised fields, then `User.create`, a session and a redirect to `/link`, or an unhandled rejection |
| Server.SignupStepAsWritten | models/User.js:35-41 | `SignupStep` under the index MongoDB builds: an insert is also refused when it would store a second `discordId: null` |
| Server.SecondUnlinkedSignupCrashesAsWritten | models/User.js:35-41 | under the index MongoDB builds, once one unlinked account exists, every signup that would otherwise succeed crashes with nothing written, and every other outcome is unchanged |
| Server.LoginWritesOnlySession | server.js:95-119 | login never writes the collection, and changes the session only on a redirect |
| Server.LoginStep | server.js:95-119 | `POST /login`: the lookup by username or email, the password comparison, the ban page, then a session and a redirect to `/home` or `/link` |
| Server.LoginSucceedsIff | server.js:95-119 | login redirects exactly when the first account whose username is the trimmed identifier, or whose email is the lower-cased and trimmed identifier, has a matching password and is not banned; the session then holds it, and the target is `/home` exactly when it is linked |
| Server.LoginBanned | server.js:106-108 | a banned account with the right password sees the ban page with its stored reason, and the session is untouched |
| Server.LoginByUsername | server.js:98-104 | on an admissible collection, a stored username logs into its own account, unless some account's email is that username lower-cased |
| Server.LoginByEmail | server.js:98-104 | on an admissible collection, an account's email typed in any letter case and with surrounding spaces logs into that account, unless the trimmed string is some account's username |
| Server.PagesWriteOnlySession | server.js:43-53 | the pages never write the collection; the session ends only on the ban page |
| Server.LinkPageStep | server.js:122-130 | `GET /link`: `requireAuth`, `checkBan`, then a redirect home for a linked account or the link page |
| Server.HomePageStep | server.js:133-138 | `GET /home`: `requireAuth`, `checkBan`, then a redirect to `/link` for an unlinked account or the home page |
| Server.PagesNeedSession | server.js:122-138 | without a session both pages redirect to `/login` |
| Server.BannedSessionEnds | server.js:46-48 | a session of a banned account is destroyed by either page, which shows its ban notice or "Banned from service." |
| Server.PagesFollowLinkStatus | server.js:122-138 | for an unbanned session, `/home` renders exactly when the account is linked and `/link` exactly when it is not; each otherwise redirects to the other |
| Server.StaleSessionCrashes | server.js:123-124 | a session whose account is gone dereferences `null` on both pages |
| Server.LogoutStep | server.js:141-144 | logout clears the session, writes nothing else, and redirects to `/`, or to `/login` without a session |
| Server.FindById | server.js:45 | the lookup returns `AccountById` |
| Server.RunCheckBan | server.js:43-53 | the middleware's effect on the store and its verdict are `CheckBan`'s |
| Server.PostSignup | server.js:67-88 | the route's effect on the store and its response are `SignupStep`'s, with the duplicate check on the normalised fields |
| Server.PostLogin | server.js:95-119 | the same for `LoginStep`, whose lookup uses the trimmed and the normalised identifier |
| Server.GetLink | server.js:122-130 | the same for `LinkPageStep` |
| Server.GetHome | server.js:133-138 | the same for `HomePageStep` |
| Server.PostLogout | server.js:141-144 | the same for `LogoutStep` |
| LinkCommand.UnknownCodeRejected | commands/link.js:23-29 | a code that no account holds gets "Invalid or expired code" and changes nothing |
| LinkCommand.LinkStep | commands/link.js:17-47 | `/link`: the lookup by code, the refusal of a Discord id already linked elsewhere, then the save that sets the id and clears the code, or the error reply |
| LinkCommand.LinkFailuresChangeNothing | commands/link.js:40-45 | every reply but success leaves the collection as it was |
| LinkCommand.LinkEffect | commands/link.js:32-34 | a success changes only the first account holding the code: it gains the Discord id and loses the code |
| LinkCommand.LinkSucceedsIff | commands/link.js:17-47 | on an admissible collection the link succeeds exactly when some account holds the code and no other account is linked to the caller |
| LinkCommand.LinkPreservesAdmissible | commands/link.js:32-34 | linking keeps the collection admissible |
| LinkCommand.LinkedAccountFoundByDiscordId | commands/link.js:32-34 | after a link, the caller's Discord id finds exactly the linked account |
| LinkCommand.LinkOneTimeUse | commands/link.js:33 | the same caller repeating the command with the same code changes nothing and never reports success again, even when a second account holds that code |
| LinkCommand.UsedCodeRejectedForEveryone | commands/link.js:23-33 | once the only account holding a code is linked, that code from any Discord user gets "Invalid or expired code" and changes nothing |
| LinkCommand.OtherAccountsUntouched | commands/link.js:23-34 | an account not holding the code is never changed |
| LinkCommand.Execute | commands/link.js:17-47 | the command's effect on the store and its reply are `LinkStep`'s |
| ResetPassword.ResetGuardsChangeNothing | commands/reset-password.js:18-35 | an interaction already handled, or a failed defer, sends no reply; a trimmed password under 6 characters is refused; every non-success changes nothing |
| ResetPassword.ResetStep | commands/reset-password.js:17-63 | `/reset-password`: the interaction guards, the length check on the trimmed password, the lookup by Discord id, then the save of the new hash or the error reply |
| ResetPassword.ResetEffect | commands/reset-password.js:39-50 | a reset writes the hash of the trimmed password into the caller's linked account, and nothing else anywhere |
| ResetPassword.ResetSucceedsIff | commands/reset-password.js:17-63 | on an admissible collection the reset succeeds exactly when the interaction is fresh and deferred, the trimmed password has at least 6 characters, the caller is linked and the hash is non-empty |
| ResetPassword.ResetPreservesAdmissible | commands/reset-password.js:48-50 | the reset keeps the collection admissible |
| ResetPassword.Execute | commands/reset-password.js:17-63 | the command's effect on the store and its reply are `ResetStep`'s |
| BanSync.BanReasonProperties | bot.js:24-36 | the reason is never empty; a failed fetch, an empty log, an entry about someone else, or an entry about the member with a null or empty reason gives "No reason provided"; an entry about the member with a non-empty reason gives that reason |
| BanSync.BanReason | bot.js:24-36 | the reason taken from the latest audit-log entry when it is about the member and non-empty, else "No reason provided" |
| BanSync.BanStep | bot.js:3-49 | `guildBanAdd`: ignore a missing user or guild and an unlinked member, otherwise mark the linked account banned with the chosen reason |
| BanSync.BanWithoutAccountIgnored | bot.js:9-21 | a missing user or guild, or an unlinked member, changes nothing |
| BanSync.BanEffect | bot.js:38-41 | the ban writes only `isBanned` and `banReason` of the linked account, with the chosen reason |
| BanSync.BanAlwaysRecorded | bot.js:38-41 | on an admissible collection a linked member's account is always marked banned, and the collection stays admissible |
| BanSync.BanMarksAccount | bot.js:16-41 | the ban of a linked member marks exactly that member's account |
| BanSync.BanIdempotent | bot.js:3-49 | handling the same ban event twice is handling it once |
| BanSync.OnGuildBanAdd | bot.js:3-49 | the handler's effect on the store and its outcome are `BanStep`'s |
| HttpRequest.Header | security/antiScrape.js:20-23 | a header is present exactly when it was sent, and then has the value sent |
| ThreatLogging.ParseReason | models/logging.js:10-19 | the `reason` enum accepts a string only as the name of a reason |
| ThreatLogging.ParseAction | models/logging.js:20 | the `actionTaken` enum accepts a string only as the name of an action |
| ThreatLogging.ReasonRoundTrip | models/logging.js:10-19 | a reason's name parses back to it, and exactly the eight listed names parse |
| ThreatLogging.ActionRoundTrip | models/logging.js:20 | an action's name parses back to it, and exactly the four listed names parse |
| ThreatLogging.ToEntry | models/logging.js:6-29 | the validated document carries the caller's ip, reason, action, user-agent, fingerprint and endpoint, and the current time |
| ThreatLogging.ToEntryIff | models/logging.js:6-29 | validation accepts exactly data with a truthy ip, a listed reason and, if present, a listed action |
| ThreatLogging.LogStep | models/logging.js:39-54 | `logThreat`: "Missing IP" without an ip, otherwise the validated entry appended when the database is up, and nothing stored on any error |
| ThreatLogging.LogAppendOnly | models/logging.js:39-54 | the log only grows, by at most the one entry built from the data |
| ThreatLogging.LogStoresIff | models/logging.js:39-54 | data is stored exactly when it passes validation and the database is up; otherwise the log is unchanged; without an ip it is "Missing IP" |
| ThreatLogging.RateLimitedNeverStored | models/logging.js:20 | an `actionTaken` of `'rate_limited'` is never stored |
| ThreatLogging.ThreatLog.LogThreat | models/logging.js:39-54 | `logThreat` changes the log as `LogStep` says |
| AntiDdos.CountedRecord | security/antiDdos.js:15-20 | a new window starts without a record or after more than 10 s; otherwise the count goes up in the same window, which is still open at exactly 10 s |
| AntiDdos.Counted | security/antiDdos.js:15-20 | the ip's record after counting one request: a new window, or one more in the open window |
| AntiDdos.Sweep | security/antiDdos.js:30-36 | the map without the records whose window has expired |
| AntiDdos.BurstStep | security/antiDdos.js:10-39 | `analyzeRequestBurst`: count the request, flag a burst past 50 in the window, and sweep the map when it holds more than 10000 ips |
| AntiDdos.SweepRemovesOnlyExpired | security/antiDdos.js:30-36 | the cleanup removes exactly the expired records and keeps the rest unchanged |
| AntiDdos.BurstIff | security/antiDdos.js:25-27 | a request is a burst exactly when its ip's window is open and has already counted 50 requests |
| AntiDdos.BurstStepEffect | security/antiDdos.js:10-39 | the map holds the counted record; a cleanup happens only without a burst and past 10000 entries, and deletes only expired records of other ips |
| AntiDdos.BurstAfterFiftyInWindow | security/antiDdos.js:10-39 | requests from a new ip within 10 s of its first are counted in one window, and the 51st is the first flagged |
| AntiDdos.DdosThreatAcceptable | security/antiDdos.js:44-51 | the burst's threat data passes the log schema exactly when the request has an ip |
| AntiDdos.DdosStep | security/antiDdos.js:42-57 | `antiDdosMiddleware`: a burst is logged and redirected, any other request passes |
| AntiDdos.DdosStepIff | security/antiDdos.js:42-57 | the middleware redirects exactly the bursts, logs nothing otherwise, and logs a burst with an ip when the database is up |
| AntiDdos.RateLimitNeverLogged | security/antiDdos.js:66-77 | as written, a rate-limit hit is never logged |
| AntiDdos.RateLimitLogged | security/antiDdos.js:66-77 | with a listed action, a rate-limit hit with an ip is logged as an `api_bomb` exactly when the database is up |
| AntiDdos.RequestHistory.SweepExpired | security/antiDdos.js:30-36 | the cleanup loop leaves `Sweep` of the map |
| AntiDdos.RequestHistory.AnalyzeRequestBurst | security/antiDdos.js:10-39 | the map and the verdict are `BurstStep`'s |
| AntiDdos.OnRateLimited | security/antiDdos.js:66-77 | the handler changes the log as `LogStep` of the corrected data says, and always answers with the 302 to the rate-limit trap |
| AntiDdos.AntiDdosMiddleware | security/antiDdos.js:42-57 | the map, the log and the verdict are `DdosStep`'s |
| AntiVpn.IsPrivateIpIff | security/antiVpn.js:28-30 | the private-address pattern matches exactly the addresses beginning with one of the 20 prefixes `10.`, `172.16.`–`172.31.`, `192.168.`, `127.`, `169.254.` |
| AntiVpn.IsPrivateIp | security/antiVpn.js:28-30 | the private-address regular expression, anchored at the start |
| AntiVpn.Edges172NotPrivate | security/antiVpn.js:29 | `172.15.` and `172.32.` are not private |
| AntiVpn.VpnStep | security/antiVpn.js:33-91 | `detectVpnOrBanEvasion`: a private address passes, a banned ip or fingerprint is logged and trapped, anything else passes with its fingerprint |
| AntiVpn.VpnStepIff | security/antiVpn.js:33-91 | a request is trapped exactly when its address is not private and its ip or fingerprint is banned; a passing request carries its fingerprint on and is not logged; a trapped one is logged when it has an ip and the database is up |
| AntiVpn.PrivateAlwaysPasses | security/antiVpn.js:38-41 | a private address passes even when banned |
| AntiVpn.BansOnlyTighten | security/antiVpn.js:9-10 | adding bans never lets a trapped request through |
| AntiVpn.BannedUserTrapped | security/antiVpn.js:94-99 | after `banUser`, any non-private request from that ip or with that fingerprint is trapped |
| AntiVpn.BanLists.BanUser | security/antiVpn.js:94-99 | both ban sets each gain exactly the given element |
| AntiVpn.BanLists.DetectVpnOrBanEvasion | security/antiVpn.js:33-91 | the log and the verdict are `VpnStep`'s on the current ban sets |
| AntiScrape.SomeIncluded | security/antiScrape.js:19 | holds exactly when some signature occurs in the user-agent |
| AntiScrape.IsHeadless | security/antiScrape.js:19-23 | the headless signals: a signature in the user-agent, `webdriver: true`, `x-puppeteer`, no `accept-language`, `headless: 1` |
| AntiScrape.IsSuspicious | security/antiScrape.js:25-28 | the suspicious signals: `x-scraper`, `Python-urllib`, `scrapy`, or `curl` without `Chrome` |
| AntiScrape.ScrapeStep | security/antiScrape.js:30-48 | `detectAutomation`: a headless or suspicious request is logged and refused with 403, any other passes |
| AntiScrape.ScrapeStepIff | security/antiScrape.js:30-48 | a request is refused exactly when it looks headless or suspicious; a passing one is not logged, a refused one is logged when it has an ip and the database is up |
| AntiScrape.SignatureRefused | security/antiScrape.js:10-19 | any of the six signatures in the user-agent is refused |
| AntiScrape.HeadersRefused | security/antiScrape.js:20-25 | refused by the headers alone: `accept-language` missing or empty, `webdriver: true`, `headless: 1`, or a non-empty `x-puppeteer` or `x-scraper` |
| AntiScrape.CurlRefusedOnlyWithoutChrome | security/antiScrape.js:28 | with no other signal, a `curl` user-agent is refused exactly when it does not also mention `Chrome` |
| AntiScrape.DetectAutomation | security/antiScrape.js:6-49 | the log and the verdict are `ScrapeStep`'s |
| Protocol.Apply | server.js:67-144 | one event: a web route of server.js, or the `/link`, `/reset-password` or `guildBanAdd` handler on the accounts alone |
| Protocol.Run | server.js:67-144 | a sequence of such events, one after another |
| Protocol.LinkKeeps | commands/link.js:32-34 | `/link` keeps every account's identity, and keeps the rule that an account holding a code is unlinked |
| Protocol.BanKeeps | bot.js:38-41 | the ban keeps every account and that rule |
| Protocol.ResetKeeps | commands/reset-password.js:48-50 | the reset keeps every account and that rule |
| Protocol.SignupKeeps | server.js:67-88 | signup keeps every account and the rule that an account holding a code is unlinked |
| Protocol.WebStepKeeps | server.js:67-144 | the web routes keep every account and that rule |
| Protocol.StepKeeps | server.js:67-144 | every handler keeps every account and that rule |
| Protocol.RunKeeps | commands/link.js:32-34 | after any sequence of web and Discord events every account keeps its identity; a Discord link once made stays; a ban once set stays; a consumed code stays consumed |
| Protocol.LinkAndBanAreFinal | bot.js:38-41 | whatever follows, a linked account stays linked to the same id and a banned one stays banned |
| Protocol.StepKeepsConsistent | models/User.js:6-54 | the schema and the unique indexes hold after every handler |
| Protocol.BanBlocksWebLogin | server.js:106-108 | once the member is banned on Discord, the right password on the website shows the ban page |
| Protocol.BanEndsOpenSession | server.js:43-53 | a browser already logged in as the banned member loses its session on its next page |
| Protocol.CodeHolderSentToLink | server.js:135 | an account that still holds a code is sent from `/home` to `/link` |
| Protocol.LinkOpensHome | server.js:133-138 | before `/link` the home page redirects the signed-in account to the link page; after it, the home page renders |
| Protocol.ResetThenLogin | commands/reset-password.js:48-50 | after a reset, logging in with the trimmed new password opens the caller's account when it is not banned |

## Left out

- Express, sessions, cookies, `helmet`, views and templates, static files and the 404 page are left out. They are I/O: the model keeps one session (`req.session.userId`) in the store. `req.session.user`, a copy that no route reads back, is left out.
- Discord itself is left out: `discord.js`, `interaction.reply`/`editReply` and console output. Replies are a datatype; the audit-log fetch and the interaction state are parameters.
- `bcrypt`, `validator.isEmail`, `validator.escape`, `Math.random()`, `Date.now()` and `crypto` are parameters, because they are foreign calls.
- The `generateFingerprint` SHA-256 digest is left out. It is a foreign call, so the fingerprint is a parameter of `DetectVpnOrBanEvasion`.
- `express-rate-limit`'s own counting (60 s window, 40 requests) is library code. Only its `handler` is modelled, as `AntiDdos.OnRateLimited`.
- The IPQualityScore lookup in security/antiVpn.js:59-87 is left out: it is commented out in the source.
- Concurrency is left out. Each handler runs to completion before the next. Un-awaited `logThreat` calls and races between two link commands are not modelled.
- JsString.ToLowerCase maps only ASCII letters, and string length counts characters, not UTF-16 code units. There is no Unicode case mapping or encoding.
- The schema's `headers`, `geo`, `vpnScore`, `tor`, `bot` and `metadata` fields are left out: no model property depends on them.
- Form fields that are arrays or objects (from `qs` parsing) are left out. A field is a string or missing.
- `banUser` with an `undefined` fingerprint, and its `reason` argument, are left out: the reason only reaches the console.
- security/antiAdblock.js, commands/viewuser.js, deploy-commands.js and index.js are not part of this model.
- Server.LogoutStep: the session store's `destroy` callback and its errors are not modelled.
- The `Crash` response of `Server` stands for every uncaught exception alike. `GET /home` is synchronous, so Express answers it with a 500 and the server goes on. The async routes (`GET /link`, `POST /signup`, `POST /login`) leave an unhandled rejection, which on Node 15 or later ends the process together with the middlewares' in-memory request history and ban sets. The model keeps the state across a `Crash`.

## Findings

| source | as written | input that shows it | evidently intended | confidence | as-written member | corrected member |
|---|---|---|---|---|---|---|
| models/User.js:35-41 | `discordId` is `unique: true, sparse: true` with `default: null`, so every new document stores an explicit `null`. A MongoDB sparse index skips only documents that lack the field, so the nulls are indexed. | Sign up `alice` then `bob`. Both documents hold `discordId: null`, so the second insert is a duplicate key and `User.create` throws. | Uniqueness only among non-null Discord ids, so any number of unlinked accounts | medium, not executed (depends on how the deployed index was built) | Server.SecondUnlinkedSignupCrashesAsWritten | Server.SignupSucceedsIff |
| security/antiDdos.js:72 | The rate limiter's handler logs `actionTaken: 'rate_limited'`, which is not in the schema's enum (models/logging.js:20). Validation fails, `logThreat` catches the error, and nothing is stored. | Any request that hits the rate limit with a `clientIp`, while the database is up | A listed action. The handler redirects, so `'redirected'` | high, not executed | AntiDdos.RateLimitNeverLogged | AntiDdos.RateLimitLogged |
