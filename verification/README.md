# agent-do: verified models of its protocols and codecs

This project models the parts of agent-do that keep state across steps or translate between two
forms, and proves what they promise for every input, every run and every interleaving. Each module
follows one component of the repository:

| files | component |
|---|---|
| `Text.dfy` | sequences, splitting, decimal numerals, whitespace: shared by the others |
| `ProfileUri.dfy`, `ProfileAdmission.dfy`, `KeychainCommand.dfy`, `ProfileProtocol.dfy`, `ProfileRuns.dfy`, `ProfileFiles.dfy`, `ProfileStore.dfy` | PostgreSQL profiles: the URI splitter and record validator and what they admit, the command that carries a secret to the Keychain, and the protocol by which processes store and remove profiles across one or several profiles files and the Keychain they share |
| `RefText.dfy`, `RefArithmetic.dfy`, `RefResolve.dfy`, `RefFormula.dfy`, `BoundsGate.dfy` | bounds: the evaluator of refs over authority keys, what the formulas written in refs denote, and the gate and the drift check over shipped literals |
| `LineFraming.dfy`, `PortHash.dfy` | the browser daemon: one buffer drained by several suspended handlers, and the port a session hashes to |
| `LiveModifier.dfy`, `LiveWritten.dfy`, `LiveLease.dfy` | the `+live(...)` modifier language, printed and written by hand, and the table of leases |
| `NotifyGroups.dfy`, `NotifyCooldown.dfy` | recursive recipient groups, and the cooldown of notification rules |
| `StoreWalk.dfy` | the upward walk to a memory store at session start |
| `Base32.dfy`, `Totp.dfy` | decoding of shared secrets and one-time passwords, against RFC 4648, RFC 4226 and RFC 6238 |
| `PendingNudges.dfy` | the life of a pending nudge |
| `SafetySurface.dfy` | the four readings of a tool's verbs as reads or writes |

Objects and files that the code updates in place are classes (`ProfileStore.Store`,
`LineFraming.Connection`, `LiveLease.LeaseTable`, `NotifyCooldown.Notifier`,
`PendingNudges.TelemetryDir`); loops are methods with loops; what is an expression in the code is a
function. Every method is proved against a specification function or a declarative description, and
the theorems are lemmas about those. Concurrency is a step relation: `ProfileProtocol.Step` for
processes that may fail or crash at each call, `ProfileFiles.Next` for such processes on several
profiles files over one Keychain, `LineFraming.Step` for chunks and settled promises.
`ProfileStore.Store` shows that the statements of the two profile operations, in their order, perform
a run of that step relation.

File-system, Keychain, network and clock results are parameters or events of the models. The HMAC is
any function with results of at least 20 bytes, and the URI library's check of a bracketed host is
any predicate on network locations.

Where the code does less than its documentation says, the models follow the code. For each such
promise the project proves when it holds, and an input at which it does not:

- The Keychain belongs to the user, and its items carry no trace of the profiles file, whose path is an
  argument with a lock of its own. Over any number of files, secrets stay with their profiles if and
  only if no account that a profile can have, and a helper's command can carry, is named in calls on
  two files, or written or erased outside the profile calls, and, where there is such an account at all,
  no helper program outlives a crashed parent, which releases the lock
  (`ProfileFiles.SecretsKeptIffSeparate`, and for one file, where calls on another are such outside
  mutations, `ProfileRuns.SecretsKeptIffConfined`; runs that fail are built in `SharedAccountBreaks`, `DirectWriteBreaks`, `DirectEraseBreaks` and `LateHelperBreaks`). The map of
  each file is a sequential run in any case (`ProfileFiles.EachFileSequential`).
- A call answers OK if and only if it has published and its unlock succeeded, so a failed unlock
  reports a state failure although the map has changed (`ProfileRuns.SequentialRun`,
  `ProfileRuns.FailedUnlockHidesCommit`; `ProfileStore.Store.StoreProfile` and `RemoveProfile` say
  exactly when each code is answered).
- An accepted URI yields an acceptable record if and only if the masked text fits the limit and the
  rewritten network location still passes the URI library's bracket and host checks; a password that
  holds the only `]` loses it (`ProfileUri.RecordOfParsedUri`, `ProfileUri.BracketInPasswordRefused`).
- The prefix check folds case, the URI library's splitter knows ASCII schemes only. Of an accepted URI
  spelled out with a password, the password is taken out if and only if the scheme is in ASCII letters;
  with a long s in it the record keeps the password and says it has none
  (`ProfileUri.SecretTakenIffPlain`, `ProfileUri.LongSKeepsPassword`).
- The bounds gate trims a declaration's `source`, the drift check does not: a source is enforced if
  and only if it is unpadded, or `none` (`BoundsGate.SourceEnforcedIffUnpadded`,
  `BoundsGate.PaddedSourceExample`).
- The `+live` printer escapes double quotes, the parser has no escapes: the round trip holds if and
  only if neither app nor reason has a double quote (`LiveModifier.RoundTripIff`,
  `LiveModifier.QuotedReadsEscaped`).
- A lookup of a lease succeeds if and only if an accepted pair's last activation reaches beyond every
  later reading of the clock; a clock that steps back loses leases that have not run out
  (`LiveLease.LookupIff`, `LiveLease.SteppedBackClockLoses`).
- A notification is recorded only by a call that returns. The successes of a fingerprint are spaced by
  its cooldown if and only if no call that raises after one is followed by a repeat within it, and
  spacing is certain if and only if no permitted call can deliver the fingerprint and raise
  (`NotifyCooldown.SpacedIff`, `NotifyCooldown.AlwaysSpacedIff`, `NotifyCooldown.RaisingCallRepeats`).
- A one-time password has the asked number of characters if and only if that is at least one
  (`Totp.CodeIsStandard`).
- A nudge is resolved by its recorded action limit, except that a recorded zero is replaced by the
  limit of whichever process looks (`PendingNudges.ResolvedByLimit`, `PendingNudges.ZeroLimitIsOutlived`).
- `safety_surface` files a verb in a bucket if and only if one of its beats is known
  (`SafetySurface.OneBucketIffKnown`, `SafetySurface.UnknownBeatExample`).

## Model

| member | source | states |
|---|---|---|
| ProfileUri.UnquoteIsPercentDecode | lib/psql_keychain_store.py:370 | splitting on `%` and rewriting the pieces is the percent-decoding of section 2.1 of RFC 3986, for every string |
| ProfileUri.PercentRoundTrip | lib/psql_keychain_store.py:370 | decoding gives back every byte string from its percent-encoding |
| ProfileUri.EncodeCharIs | lib/psql_keychain_store.py:300-305 | the octets of a character are those of section 3 of RFC 3629 |
| ProfileUri.HexDigitsAre | lib/psql_keychain_store.py:370 | percent-decoding knows the sixteen digits in either case, with their values |
| ProfileUri.SplitOfUnsplit | lib/psql_keychain_store.py:264-266 | splitting a printed URI gives the URI back, or the library's error exactly when its network location fails the bracket and host checks |
| ProfileUri.SplitShape | lib/psql_keychain_store.py:261-266 | whatever splitting returns for a text past the prefix check is well formed if and only if the prefix is in ASCII letters; if not, it has neither scheme nor network location |
| ProfileUri.SplitSize | lib/psql_keychain_store.py:365-381 | printing a split URI again never takes more bytes |
| ProfileUri.MaskedValidates | lib/psql_keychain_store.py:357-382 | the masked text of an accepted URI validates again, with the mask as its password, exactly when its new network location passes the library's checks |
| ProfileUri.PasswordlessValidates | lib/psql_keychain_store.py:357-369 | likewise for a URI without a password, which validates unchanged or without its empty password field |
| ProfileUri.MaskedSize | lib/psql_keychain_store.py:373-382 | masking adds at most three bytes |
| ProfileUri.RecordOfParsedUri | lib/psql_keychain_store.py:291-324 | an accepted URI's record is accepted with the same credential bit, with or without the explicit marker, if and only if the masked text fits the limit and a rewritten network location passes the library's checks |
| ProfileUri.ShortInputsFit | lib/psql_keychain_store.py:347-382 | every accepted input at most three bytes below the limit has such a record, if its network location has no brackets, or the host check looks only at the endpoint and the password has none |
| ProfileUri.BracketInPasswordRefused | lib/psql_keychain_store.py:357-382 | a concrete URI whose record is refused under every host check that accepts the URI |
| ProfileUri.MaskHidesPassword | lib/psql_keychain_store.py:360-382 | URIs that differ only in a non-empty password give the same record, and each secret is the percent-decoding of its password |
| ProfileUri.MaskOf | lib/psql_keychain_store.py:370-382 | the record and the secret of a URI spelled out from its parts |
| ProfileUri.FoldedKeptVerbatim | lib/psql_keychain_store.py:344-362 | a text whose prefix only case folding recognises is refused or kept as it stands, as a connection without a credential |
| ProfileUri.SecretTakenIffPlain | lib/psql_keychain_store.py:261-382 | the password of an accepted, spelled-out URI becomes its secret if and only if the scheme is in ASCII letters |
| ProfileUri.LongSKeepsPassword | lib/psql_keychain_store.py:261-362 | a concrete URI that is accepted with its password in the record |
| ProfileUri.LigatureScheme | lib/psql_keychain_store.py:261 | the ligatures of s and t pass the prefix check, too, in a scheme that is not in ASCII letters |
| ProfileAdmission.SecretFieldIff | lib/psql_keychain_store.py:279-287 | a query field is secret exactly if the bytes of its percent-decoded name are, in lower case, `password` or `sslpassword` |
| ProfileAdmission.PortOkIff | lib/psql_keychain_store.py:267-275 | the port check holds exactly if whatever follows the endpoint's colon, after the brackets if there are any, is empty or a decimal up to 65535 |
| ProfileAdmission.ParseIs | lib/psql_keychain_store.py:344-382 | a URI is accepted if and only if it is bounded, free of NUL, CR and LF, prefixed and splittable, without a secret at any index of its query, with a good port and a password free of NUL bytes; the record and the secret are those its user, password and endpoint spell |
| ProfileAdmission.RecordIs | lib/psql_keychain_store.py:291-324 | a record is accepted with a credential bit if and only if its connection is such a text, its password is the mask or empty as the bit says, and an explicit marker agrees |
| KeychainCommand.SendableIff | lib/psql_keychain_store.py:78-92 | a secret can be sent if and only if account and secret are proper and the whole command has fewer than 4096 bytes |
| KeychainCommand.QuotedReads | lib/psql_keychain_store.py:70-75 | reading a quoted argument gives back any account, and what follows its closing quote |
| KeychainCommand.HexRoundTrip | lib/psql_keychain_store.py:84-89 | the digits of the command read back as the secret |
| KeychainCommand.OneLine | lib/psql_keychain_store.py:78-92 | a command that is sent is a single line |
| ProfileProtocol.StepKeepsLedger | lib/psql_keychain_store.py:441-556 | every step keeps the published map equal to the replay of the logged commits, each of them legal |
| ProfileProtocol.PublisherKnows | lib/psql_keychain_store.py:475-498 | a process about to publish still knows the map it loaded, and its secret is in the Keychain already |
| ProfileProtocol.HelperIsPrivate | lib/psql_keychain_store.py:478-492 | a Keychain helper only ever works on a name that is not published at that moment |
| ProfileProtocol.StepKeepsConsistent | lib/psql_keychain_store.py:475-546 | every step keeps each published profile's secret, unless something outside writes or erases it |
| ProfileProtocol.StepSparesOthers | lib/psql_keychain_store.py:208-228 | a step of one process leaves all that another one relies on in its phase |
| ProfileProtocol.StepKeepsInv | lib/psql_keychain_store.py:441-556 | the whole invariant is inductive over lock, load, stage, helper, replace, unlock, cleanup and crash steps of any process |
| ProfileProtocol.RunKeepsInv | lib/psql_keychain_store.py:441-556 | so it holds after every run |
| ProfileRuns.SequentialRun | lib/psql_keychain_store.py:458-556 | in every run the published map is a sequential run, in lock order, of the committed operations; a returned call answers Ok if and only if it committed and its unlock succeeded; it leaves a staged file only if unlinking failed |
| ProfileRuns.MutualExclusion | lib/psql_keychain_store.py:208-228 | no two processes are between lock and unlock at once |
| ProfileRuns.ConfinedRunsConsistent | lib/psql_keychain_store.py:250-255 | with mutations from outside confined to accounts without a storable profile, every published profile stored with a credential has exactly its secret after every run |
| ProfileRuns.DirectWriteBreaks | lib/psql_keychain_store.py:78-117 | a password written from outside to any account that a profile can have and a command can carry breaks this |
| ProfileRuns.DirectEraseBreaks | lib/psql_keychain_store.py:173-206 | so does a password erased from outside under such an account |
| ProfileRuns.LateHelperBreaks | lib/psql_keychain_store.py:214-228 | a helper that outlives its crashed parent breaks this, since the lock is released |
| ProfileRuns.SecretsKeptIffConfined | lib/psql_keychain_store.py:441-556 | for the calls on one file, secrets are kept in all interleavings if and only if all three are excluded for every account that its profiles can have |
| ProfileRuns.FailedUnlockHidesCommit | lib/psql_keychain_store.py:224-228 | a run in which a store has published and answers with a state failure |
| ProfileFiles.EchoIsSeen | lib/psql_keychain_store.py:78-92 | a step of a call on one file is, for every other file, a write or an erasure from outside, or nothing |
| ProfileFiles.ActKeepsInv | lib/psql_keychain_store.py:209-228 | every step on one of several files, each with its own lock, keeps the invariant of all of them |
| ProfileFiles.EachFileSequential | lib/psql_keychain_store.py:441-556 | whatever is done on other files or outside, each file's map is a sequential run of its own calls, with the return codes that go with it |
| ProfileFiles.EachFileKept | lib/psql_keychain_store.py:441-556 | if all runs of the system keep the secrets, so do all runs on each file alone |
| ProfileFiles.SharedAccountBreaks | lib/psql_keychain_store.py:78-92 | an account that can be named on two files can lose its secret, by a store on the second |
| ProfileFiles.SecretsKeptIffSeparate | lib/psql_keychain_store.py:441-556 | over several files and one Keychain, secrets are kept in all interleavings if and only if each file is confined and no account that can have a secret belongs to two files |
| ProfileStore.Store.Enter | lib/psql_keychain_store.py:458-477 | the early checks and the lock are steps of the protocol; the call is inside with the lock, or has returned the code of the first check that fails and left the lock alone |
| ProfileStore.Store.LoadCandidate | lib/psql_keychain_store.py:476-489 | loading yields the candidate map the protocol plans for, or its error code |
| ProfileStore.Store.StageCandidate | lib/psql_keychain_store.py:413-438 | staging leaves exactly the candidate beside the published file, or an error and possibly that candidate as a leftover |
| ProfileStore.Store.WriteCredential | lib/psql_keychain_store.py:491-492 | on success the Keychain holds the secret under the account, and nothing else has changed in it |
| ProfileStore.Store.PublishStaged | lib/psql_keychain_store.py:493-498 | on success the staged map is the published one and no longer staged; otherwise both files are as before |
| ProfileStore.Store.EraseCredential | lib/psql_keychain_store.py:539-546 | the account's credential is gone exactly if the erase took effect |
| ProfileStore.Store.Release | lib/psql_keychain_store.py:224-228 | leaving the critical section frees the lock, and a failed unlock replaces the code |
| ProfileStore.Store.Unlink | lib/psql_keychain_store.py:503-508 | the staged file is gone if there was one and unlinking worked; the code stays |
| ProfileStore.Store.Finish | lib/psql_keychain_store.py:499-508 | the unlock decides the final code, the lock is free, and the staged file is gone unless unlinking failed |
| ProfileStore.Store.StoreInside | lib/psql_keychain_store.py:475-498 | inside the lock, the code, the Keychain and the staged file are those of the first step that fails; OK means an absent name was added with its secret stored first; any other code leaves the published map alone |
| ProfileStore.Store.RemoveInside | lib/psql_keychain_store.py:526-546 | inside the lock, OK means a present name was removed and its credential erased if bound; any other code leaves map and Keychain alone |
| ProfileStore.StoreAnswers | lib/psql_keychain_store.py:458-508 | the exact condition of each code of a store over its arguments, the files, the lock and the faults, and of what it leaves behind |
| ProfileStore.RemoveAnswers | lib/psql_keychain_store.py:521-556 | the same for a removal |
| ProfileStore.Store.StoreProfile | lib/psql_keychain_store.py:441-508 | `store_profile` performs a complete run of the protocol whose steps have the outcomes of its fault schedule; each code is answered exactly in its case, OK if and only if the arguments are proper, the lock is free, the name absent, the record accepted and every step succeeds; map, Keychain, lock and staged file afterwards are exact |
| ProfileStore.Store.StoreProfileUri | lib/psql_keychain_store.py:385-410 | a refused URI changes nothing and is a state failure; an accepted one, passwordless or not, is stored under the same conditions if its record fits |
| ProfileStore.Store.RemoveProfile | lib/psql_keychain_store.py:511-556 | likewise for `remove_profile`, whose OK means exactly that entry is gone, and its credential when bound and erasable; each code exactly in its case |
| RefText.ReplaceWords | lib/bounds.py:450-455 | text replacement of one key changes exactly the words that are the key |
| RefText.RewriteIsSubstitution | lib/bounds.py:447-455 | replacing keys one by one, longest first, is substituting all key words at once, for every set of dotted keys, nested ones included |
| RefArithmetic.ParseNumber | lib/bounds.py:426-433 | a parenthesised published number is one atom of the grammar |
| RefArithmetic.FactorReplace | lib/bounds.py:426-433 | parsing commutes with replacing key tokens by parenthesised numbers |
| RefArithmetic.ValueReplace | lib/bounds.py:426-433 | so does evaluation: the tokens after replacement have the value of the tokens before it in the key environment |
| RefResolve.ResolveRef | lib/bounds.py:436-470 | the loop computes the specified verdict, with the keys it used |
| RefResolve.RewrittenMeaning | lib/bounds.py:447-465 | the rewritten text evaluates to what the ref denotes |
| RefResolve.PlainTextIff | lib/bounds.py:409 | the character check admits exactly the characters of its class |
| RefResolve.ResolveIsMeaning | lib/bounds.py:436-470 | a ref resolves if and only if it names a key and denotes a positive number, to that number, and reports the keys it names |
| RefResolve.BareKeyResolves | lib/bounds.py:436-470 | a bare key resolves to its own number exactly when that is positive |
| RefFormula.NumeralIsDecimal | lib/bounds.py:426-433 | a numeral's value is its digits as one whole number, divided by ten for each digit after the point |
| RefFormula.TreeValue | lib/bounds.py:426-433 | the evaluator gives every formula its value under real addition, subtraction, multiplication, division and floor division, and none exactly where something is divided by zero |
| RefFormula.TokensValue | lib/bounds.py:426-433 | tokens with parentheses only where precedence or left associativity needs them parse and evaluate to that value |
| RefFormula.ReadsShow | lib/bounds.py:436-455 | the text of a formula reads as its tokens, and names exactly its keys |
| RefFormula.ResolveIsValue | lib/bounds.py:436-470 | the text of every formula over keys and numerals resolves to its value and its keys if it has a key and a positive value; otherwise the refusal is the one for no key, no value or no positive value |
| RefFormula.HalfOfKey | lib/bounds.py:436-470 | a key followed by `* 0.5` resolves to half of its published number |
| BoundsGate.CoveringKeyIs | lib/bounds.py:544-550 | a site is covered by its verb's own declaration if there is one, and otherwise by the tool-wide one |
| BoundsGate.ValidateToolBounds | lib/bounds.py:553-596 | the gate reports nothing exactly when every declaration is for a known verb and well shaped, clause by clause, and every gated site has its verb's own declaration or the tool-wide one |
| BoundsGate.AuthorityDeliveryFloor | lib/bounds.py:366-393 | the floor is the least published ratio, or nothing when none is published |
| BoundsGate.CompareLiterals | lib/bounds.py:718-737 | no finding exactly when each covered literal agrees with the cited number |
| BoundsGate.DriftVerb | lib/bounds.py:694-752 | no finding for a verb exactly when its declaration has not drifted |
| BoundsGate.DriftBounds | lib/bounds.py:687-753 | no finding for a tool exactly when every declaration agrees with what it cites: registry literals equal it, derived ones are a nearest integer, measured govern none, and none lies below the floor's share of its largest cited number |
| BoundsGate.ToleranceIsNearest | lib/bounds.py:400-404 | the tolerance of one half admits exactly the nearest integers |
| BoundsGate.CleanReportsGovern | lib/bounds.py:687-752 | two clean reports and unpadded sources mean that every gated literal is governed as its source promises, by its verb's own declaration if there is one and by the tool-wide one otherwise |
| BoundsGate.Ceiling | lib/bounds.py:739-740 | the value of some cited key, and no cited key has a larger one |
| BoundsGate.CleanReportsBack | lib/bounds.py:366-393 | with the floor of the model records, no registry or derived number lies below the least published share of any key it cites |
| BoundsGate.SourceEnforcedIffUnpadded | lib/bounds.py:695-699 | clean reports enforce a source if and only if it is unpadded or is a padded `none` |
| BoundsGate.PaddedSourceExample | lib/bounds.py:695-699 | a concrete padded declaration and a wrong literal that pass both checks |
| LineFraming.DrainKeepsFramed | tools/agent-browse/daemon.js:161-166 | draining keeps the taken lines and the buffer equal to the received text |
| LineFraming.DrainKeepsAccounted | tools/agent-browse/daemon.js:161-222 | draining keeps every taken line answered once or awaited by one handler |
| LineFraming.DrainLive | tools/agent-browse/daemon.js:161-222 | a drained buffer holds a complete line only if its handler awaits or has left |
| LineFraming.RunKeepsInv | tools/agent-browse/daemon.js:156-223 | these hold after every interleaving of chunks and settled handlers |
| LineFraming.FramingIsSplitting | tools/agent-browse/daemon.js:156-223 | for any chunking and interleaving the dispatched lines are, in order, a prefix of the non-blank lines of the whole stream, and none is answered twice |
| LineFraming.NonBlankIs | tools/agent-browse/daemon.js:165-166 | a line is left out exactly if it is all whitespace, and the others keep their order |
| LineFraming.QuiescentIsComplete | tools/agent-browse/daemon.js:156-223 | once all handlers have finished without a close, all complete non-blank lines were dispatched and answered, however the text was cut |
| LineFraming.RunKeepsRoles | tools/agent-browse/daemon.js:201-216 | in every run only commands are awaited, and a handler has left only after the close it awaited was answered |
| LineFraming.LeavesIffClosed | tools/agent-browse/daemon.js:201-222 | a settled handler leaves if and only if what it awaited was a close that succeeded |
| LineFraming.AnsweredBySettling | tools/agent-browse/daemon.js:214-222 | commands are answered by their own settling and by nothing else, one for one |
| LineFraming.NoCloseIsComplete | tools/agent-browse/daemon.js:156-223 | without a close among the complete lines, once nothing is awaited all of them have been dispatched and answered |
| LineFraming.Connection.RunLoop | tools/agent-browse/daemon.js:161-222 | the loop drains the shared buffer as the step relation says |
| LineFraming.Connection.OnData | tools/agent-browse/daemon.js:158-161 | a chunk is one step of the relation |
| LineFraming.Connection.OnSettled | tools/agent-browse/daemon.js:201-222 | so is the resumption of a suspended handler |
| PortHash.RoundIsHorner | tools/agent-browse/daemon.js:40-41 | a round of shift, subtract and add with truncation is one exact Horner step, truncated |
| PortHash.GetPortForSession | tools/agent-browse/daemon.js:37-45 | the loop computes the base-31 polynomial of the code units as a signed 32-bit integer, and the port from it, between 49152 and 65534 |
| LiveModifier.DurationRoundTrip | lib/live/parser.py:51-82 | parsing undoes formatting for every number of seconds |
| LiveModifier.SplitPairs | lib/live/parser.py:12-41 | the quote-aware splitter computes its specification |
| LiveModifier.SplitJoined | lib/live/parser.py:12-41 | joining segments with commas and splitting gives the segments back |
| LiveModifier.ParseLiveModifier | lib/live/parser.py:85-121 | the loop over the parts computes the specified payload or error |
| LiveModifier.ModifierRoundTrip | lib/live/parser.py:85-142 | parsing undoes printing for every allowed scope, positive ttl and trimmed app and reason without double quotes and newlines |
| LiveModifier.CountSplit | lib/live/parser.py:12-41 | the parts together hold every visible character of the text but commas and quotes as often as the text does |
| LiveModifier.PartsEconomical | lib/live/parser.py:102-121 | a payload read from parts holds at most their equals signs, and if it holds all, then also all their backslashes |
| LiveModifier.PrintedCount | lib/live/parser.py:124-142 | the printed body has the payload's equals signs and line breaks, and a backslash more for every double quote |
| LiveModifier.RoundTripIff | lib/live/parser.py:85-142 | for every payload with an allowed scope, a positive ttl and non-empty trimmed one-line texts, commas and quotes included, the round trip holds if and only if neither text has a double quote |
| LiveModifier.QuotedReadsEscaped | lib/live/parser.py:68-72 | a comma-free value that needs quoting comes back with the printer's backslashes |
| LiveWritten.WrittenDuration | lib/live/parser.py:51-65 | digits with a unit in either case, or with none for seconds, and blanks around them are that many seconds |
| LiveWritten.OnlyWrittenDurations | lib/live/parser.py:51-65 | nothing else is a duration |
| LiveWritten.ParseMeans | lib/live/parser.py:85-121 | every modifier is accepted exactly when its segments are good, and has for each key the value given last |
| LiveWritten.QuotedField | lib/live/parser.py:12-48 | a value in quotes of either kind is one segment and reads as what is between them, commas included |
| LiveWritten.PlainField | lib/live/parser.py:12-48 | a trimmed value without commas and quotes reads as itself |
| LiveWritten.ModifierMeans | lib/live/parser.py:85-121 | segments joined by commas, in any order, mean what they say |
| LiveWritten.BareTtl | lib/live/parser.py:51-65 | a `ttl` without a unit is in seconds |
| LiveLease.LeaseTable.Prune | lib/live/lease.py:66-86 | exactly the leases that are unexpired, or have no expiry, stay, in order |
| LiveLease.LeaseTable.Activate | lib/live/lease.py:93-128 | the pruned table with the pair's first lease renewed in place, its creation kept, its update, duration and end new and its reason new if one is given, or with a new lease last |
| LiveLease.LeaseTable.Find | lib/live/lease.py:131-146 | some lease is found exactly if one serves the request, the first without an app if there is one, else the first |
| LiveLease.TableIsExact | lib/live/lease.py:66-128 | after any run under any clock, the table holds exactly what survives of each pair's last activation: no lease is wrong, none missing, none twice |
| LiveLease.NoPairTwice | lib/live/lease.py:105-120 | no pair ever has two leases |
| LiveLease.SurvivingIff | lib/live/lease.py:66-86 | an activation survives exactly if no later reading of the clock has reached its end |
| LiveLease.LookupIff | lib/live/lease.py:131-145 | a lookup succeeds if and only if an accepted pair's last activation reaches beyond now and beyond every later reading, answers with such a pair, and without an app exactly when there is one without |
| LiveLease.PromiseKeptIff | lib/live/lease.py:131-145 | success if and only if an accepted pair's last activation is unexpired: for a request this holds exactly when an uninterrupted pair grants it whenever any pair does |
| LiveLease.PairsAgreeIff | lib/live/lease.py:66-86 | the leases in force are the unexpired activations if and only if no unexpired activation was reached by a reading since |
| LiveLease.MonotoneKeepsPromise | lib/live/lease.py:131-145 | with a clock that never steps back, a lookup succeeds if and only if an accepted pair's last activation is unexpired |
| LiveLease.SteppedBackClockLoses | lib/live/lease.py:66-86 | with a clock that steps back, an activation that has not run out is lost |
| NotifyGroups.ExpandGroupMembers | lib/notify.py:408-433 | the recursive method terminates on every graph and computes the specified expansion |
| NotifyGroups.FailsIffTrouble | lib/notify.py:414-417 | below any path, expansion fails exactly when a walk meets the path or a cycle |
| NotifyGroups.RaisesIffCycle | lib/notify.py:408-433 | expansion raises if and only if a cycle can be reached from the name |
| NotifyGroups.ExpansionListsRecipients | lib/notify.py:423-433 | otherwise it lists exactly the reachable recipients, each once, in order of their first visit by lexicographic walks |
| NotifyGroups.ListingUnique | lib/notify.py:423-433 | that description determines the answer |
| NotifyCooldown.AllowedIffOldEnough | lib/notify.py:606-630 | a positive cooldown allows exactly when the last success is at least that old, whole-second truncation and backward clocks notwithstanding |
| NotifyCooldown.Notifier.EmitEvent | lib/notify.py:1013-1121 | each matching rule has its outcome by the record before the event: due rules are sent, or planned in a dry run, others wait for the rest of their cooldown; the record then holds the time of exactly the successes; the event succeeds exactly if all due rules do; an exception saves nothing |
| NotifyCooldown.DryOrFailedRecordsNothing | lib/notify.py:1064-1116 | dry runs and failed sendings leave the record alone |
| NotifyCooldown.RecordIsLastSend | lib/notify.py:1114-1119 | after any run the record of a fingerprint is its last delivered success, if no call raised after one |
| NotifyCooldown.SuccessRecordedIff | lib/notify.py:1114-1119 | a delivered success is recorded if and only if its call returned, or the same time was recorded before |
| NotifyCooldown.SpacedIff | lib/notify.py:1029-1119 | under any clock the successes of a fingerprint are spaced by its cooldown if and only if no raising call that delivered it is followed by an early repeat |
| NotifyCooldown.AlwaysSpacedIff | lib/notify.py:1029-1119 | all runs of a set of calls are spaced if and only if none of the calls can deliver the fingerprint and raise |
| NotifyCooldown.SuccessesSpaced | lib/notify.py:606-630 | so they are spaced where no call raises after delivering one |
| NotifyCooldown.RateLimit | lib/notify.py:606-630 | any two of them by as many cooldowns as they are apart in the sequence |
| NotifyCooldown.DeliveredIffHistoryAllows | lib/notify.py:1057-1116 | a rule is delivered if and only if its fingerprint was never sent or last sent long enough ago |
| NotifyCooldown.RaisingCallRepeats | lib/notify.py:1029-1119 | a later rule that raises makes the next call repeat a success at once |
| StoreWalk.WorktreeRoot | hooks/codex/agent-do-session-start.py:402-416 | the nearest ancestor-or-self with a `.git`, if any |
| StoreWalk.HomeIsAncestor | hooks/codex/agent-do-session-start.py:498-501 | the comparison of path texts finds home exactly as a leading path |
| StoreWalk.UnderHomeIff | hooks/codex/agent-do-session-start.py:498-501 | the text comparison of directory and home holds exactly if the home is the directory or above it |
| StoreWalk.CeilingBounds | hooks/codex/agent-do-session-start.py:498-513 | the ceiling is an ancestor-or-self of the directory, at or below the worktree root and at or below home where these apply |
| StoreWalk.FirstRowDecides | hooks/codex/agent-do-session-start.py:463-473 | the first row that names a directory decides, trusted or not |
| StoreWalk.BindingFor | hooks/codex/agent-do-session-start.py:435-473 | the scan of the rows computes the binding of a directory |
| StoreWalk.RowBinds | hooks/codex/agent-do-session-start.py:463-472 | a row names exactly its directory, and gives exactly its store if that is an owned `.zpc` directory, and none otherwise |
| StoreWalk.RowsBind | hooks/codex/agent-do-session-start.py:448-473 | a directory is bound to the store of the first row for it, if that may be bound, and to none otherwise |
| StoreWalk.StoreRoot | hooks/codex/agent-do-session-start.py:476-528 | the two loops terminate with the answer of the climb from the directory to its ceiling |
| StoreWalk.WalkIsSafe | hooks/codex/agent-do-session-start.py:476-528 | in every world the answer is the user's own store at a rung within the ceiling, or bound to such a rung; no answer means no such rung; other owners have no influence; without worktree and home only the directory itself is asked |
| StoreWalk.DeepestRungAnswers | hooks/codex/agent-do-session-start.py:516-528 | the answer is that of the deepest rung within the bounds that has one |
| StoreWalk.AnswerIsTrusted | hooks/codex/agent-do-session-start.py:516-528 | every answer has a store directory of the user's own, and is a rung at or below the ceiling or comes from such a rung's binding |
| StoreWalk.OthersChangeNothing | hooks/codex/agent-do-session-start.py:419-432 | removing, adding or changing entries of other owners does not change the answer |
| Base32.PaddedIsFixed | tools/agent-browse/auth.js:103-107 | a left-padded binary numeral is the fixed-width group |
| Base32.Base32Decode | tools/agent-browse/auth.js:98-115 | the first symbol outside the alphabet is the error, else the bytes of the leading full octets |
| Base32.DecodingIsLeadingBits | tools/agent-browse/auth.js:98-115 | n symbols decode to floor(5n/8) bytes, the leading bits of the stream of five-bit groups |
| Base32.DecodeEncode | tools/agent-browse/auth.js:98-115 | decoding inverts the encoding of section 6 of RFC 4648, with any number of trailing `=` |
| Base32.DecodePaddedEncode | tools/agent-browse/auth.js:98-115 | decoding inverts the padded encoding of section 6 of RFC 4648, whose length is a multiple of eight |
| Base32.EncodeDecodeIff | tools/agent-browse/auth.js:98-115 | encoding again gives the symbols back if and only if fewer than five bits are left over and all are zero |
| Totp.MaskIsRemainder | tools/agent-browse/auth.js:42-48 | masking low bits is a remainder |
| Totp.DisjointOr | tools/agent-browse/auth.js:43-48 | the bitwise or of parts that do not overlap is their sum |
| Totp.OffsetInBounds | tools/agent-browse/auth.js:42-48 | the four bytes read lie inside every hash of at least 20 bytes |
| Totp.TruncationIsStandard | tools/agent-browse/auth.js:41-48 | the truncated number is that of section 5.3 of RFC 4226 |
| Totp.CodeIsStandard | tools/agent-browse/auth.js:50-52 | the code is all digits and reads as that number modulo 10^digits; it has `digits` characters if and only if `digits` is at least one |
| Totp.CounterOfSeconds | tools/agent-browse/auth.js:30 | rounding the real quotient down once is dividing the whole seconds |
| Totp.CounterStaysForRemaining | tools/agent-browse/auth.js:90-93 | the counter of section 4.2 of RFC 6238 stays for precisely the seconds reported as remaining and is then one more |
| Totp.CounterMessage | tools/agent-browse/auth.js:32-34 | the eight-byte buffer is the counter, most significant byte first |
| Totp.GenerateTotp | tools/agent-browse/auth.js:18-53 | the code is that of the decoded secret and the counter message, or the error of the secret or of the counter's range; `generateTOTPSync` is the same with a fixed algorithm |
| Totp.CleanIff | tools/agent-browse/auth.js:27 | what a secret is cleaned to is the text it spells, with letters in any case and whitespace anywhere |
| Totp.CodeOfSharedSecret | tools/agent-browse/auth.js:18-53 | for every spelling of an encoded key the code has the asked digits and reads as the number that RFC 4226 and RFC 6238 derive from the keyed hash of the counter |
| PendingNudges.CollectLists | lib/telemetry.py:167-173 | exactly the non-empty names, each once, in order of first appearance |
| PendingNudges.NewPending | lib/telemetry.py:166-193 | there is a record exactly when some tool or command is named, unobserved, with its names, limit and context |
| PendingNudges.TelemetryDir.CreatePendingNudge | lib/telemetry.py:166-193 | the file of the id is written exactly when some tool or command is named, and holds those names once each in their order, the context and limit, and no observed action; no other file changes |
| PendingNudges.TelemetryDir.ResolvePendingForToolCall | lib/telemetry.py:413-456 | whatever the listing order, a nudge outlasts the call or is logged once with the outcome that the call means: expired if too old, else followed if matched, else ignored at its limit |
| PendingNudges.OutcomesMean | lib/telemetry.py:413-456 | every outcome on record is that of a call which found the nudge pending, and means what it says |
| PendingNudges.NudgesAreConserved | lib/telemetry.py:413-456 | created = followed + ignored + expired + pending after any run, and no nudge has two outcomes |
| PendingNudges.StillPending | lib/telemetry.py:443-456 | a pending nudge has counted exactly the calls in its context since its creation, fewer than its limit |
| PendingNudges.ResolvedByLimit | lib/telemetry.py:443-456 | it is resolved by the call in its context that reaches max(1, limit), and as ignored neither earlier nor later |
| PendingNudges.ZeroLimitIsOutlived | lib/telemetry.py:444 | a recorded limit of zero is not the limit applied |
| SafetySurface.BeatUnion | lib/contracts_audit.py:34-39 | the table holds exactly the beats of each declared verb |
| SafetySurface.Surface | lib/contracts.py:192-198 | the buckets of a tool hold, once each and in order, the verbs whose known beats only read, and the others that have one |
| SafetySurface.SortedKeys | lib/contracts.py:185-196 | the keys of a dictionary, each once, in the order of their texts |
| SafetySurface.Buckets | lib/contracts.py:172-199 | every tool's verbs are listed once, in the bucket its own declarations put them in, ordered by tool and verb |
| SafetySurface.AttributeBuckets | lib/contracts.py:182-191 | each attribute's bucket lists its entries by tool and verb, each as often as it is declared |
| SafetySurface.OneBucketIffKnown | lib/contracts.py:172-199 | a declared verb is in exactly one bucket if and only if one of its beats is known, and never in both |
| SafetySurface.UnknownBeatExample | lib/contracts.py:192-198 | a concrete verb that is in neither bucket |
| SafetySurface.Eligible | lib/contracts_audit.py:42-59 | every answer is given exactly in its case, in the order of the checks; a verb is probed exactly when it only reads and no obstacle applies |
| SafetySurface.ReadOnlyVerb | lib/quantities.py:304-338 | the longest declared prefix decides, and is run exactly when it only reads |
| SafetySurface.JoinSplit | lib/quantities.py:324 | candidate verbs are their words with single blanks between them |
| SafetySurface.PlainKeepsOrder | lib/quantities.py:322 | the words that are not flags keep their order |
| SafetySurface.Validate | lib/registry.py:259-370 | no error exactly when beats, commands and attributes are known and a read tool has no world write |
| SafetySurface.ReadingsAgree | lib/contracts.py:192-198 | what audit or census accept is read-only on the surface; the converse fails exactly for reading verbs with an unknown beat beside |
| SafetySurface.ValidReadingsSame | lib/registry.py:283-291 | for a tool that validates, all readings are the same |
| SafetySurface.ReadToolsWriteOnlyTheirOwn | lib/registry.py:344-359 | a `concurrency: read` tool that validates has only own-state verbs in the write bucket |
| SafetySurface.AcceptedIsReadOnly | lib/contracts.py:192-198 | what the audit probes or the census runs is in the read-only bucket and not in the other; in a tool that validates, what the census refuses is in the write bucket only |
| SafetySurface.GateOk | lib/contracts.py:289-306 | the gate passes exactly when there is no error and the baseline lists precisely the tools without contracts, none at all if strict |

## Left out

- `urlsplit` beyond scheme, network location, path, query and fragment: its removal of tabs and leading control characters and its NFKC check; which bracketed hosts it accepts is left open.
- Case folding is modelled as far as it bears on the two URI prefixes: the long s and its ligatures with t. Case and digits are ASCII in the `+live` parser, the port and the secret's upper-casing; texts are already decoded, so the UTF-8 error of raw input is not modelled.
- The limit on the digits of a Python integer in a port.
- Keychain helper programs: beyond the bounds on their arguments and command they are a success flag and whether they took effect; an erase is never reported as failed, as in the code.
- A failing unlock or close on the way out of a refused lock, which would turn the busy code into a state failure.
- Changes of a profiles file other than by its calls, and two paths that lead to one file.
- The profiles file as JSON: unreadable or malformed state is a failed load; a record is what the validator looks at.
- Types of `store_profile`'s flags other than booleans.
- Exponentiation, exponent notation and floating-point rounding in refs: numbers are exact reals, and a text with `**` or an exponent does not evaluate here.
- Refs whose keys touch something other than spaces and parentheses.
- The scanners that find literals and attribute them to verbs, and the audit outside tools: sites are inputs.
- The two awaits of a daemon command (launching the browser, executing it) are one suspension; the exit a close schedules 100 ms later ends the model's run rather than appearing in it; chunks are decoded characters.
- What a `+live` value with a double quote and a comma comes back as; only that it does not come back.
- Lease identifiers, and lease entries that are not dictionaries; other writers of the same files (the code takes no lock for leases, nudges and notify state).
- Rendering of templates and digests of fingerprints: a rule's rendering is an input; the empty per-rule dictionaries that a lookup adds to the notify state.
- How a notification reaches a group's members and providers: the outcome of a sending is an input.
- Relative working directories, and texts that begin with two slashes, in the store walk; the bindings file is given as lines.
- Floating-point rounding of the time and a verb of blanks only, on which validation raises.
- Algorithm names, provisioning URIs, encrypted credential storage and secrets outside ASCII in the authenticator.
- Redaction and previews of tool commands: the preview is an input; deletions of pending files always succeed, and correlation ids are new.
- StoreWalk.BindingFor: does not model a bindings file that changes during the walk, because the walk reads it anew at each rung.
- SafetySurface.Eligible: takes whether a description has a placeholder as an input instead of its regular expressions.
- The verb classification by lexicon that proposes contracts for undeclared tools, warnings of validation, and the rendering of reports.
- Caches, capture deduplication, nudge frequency counts, CI triage, model routing, prompt classification and the drivers of external programs: they would add only easy members.
