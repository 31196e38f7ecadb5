# ServerHub: verified state machines

ServerHub is a home-server panel. Most of it is routes and wrappers around command-line
tools, but a handful of modules keep state across runs that never end: which alerts have
been sent, which caches may still be believed, which tokens are still good, which stacks
owe a start, which keys are revoked, what may reach the audit trail. This project models
those modules in Dafny and proves what their code and comments promise about whole runs.

Loops over dictionaries and lists are methods with loops; objects and module globals are
classes whose methods are proved against a specification function; recursive, pure code is
recursive functions. Where two threads or two processes share state, the lock-protected
regions of the source are the atomic steps of a transition system, and the theorems hold
for every interleaving of any number of threads.

## The parts

- **Alerts** (`AlertState`, `ServiceAlerts`, `ResourceAlerts`, `SmartReasons`, `SmartAlerts`,
  `AlertEngine`, `AlertLaws`). Three machines share one sweep: a two-sweep debounce,
  hysteresis with a cooldown, and edge-plus-growth. The loops are shown equal to a step per
  service, resource and disk; `AlertEngine` composes them and lifts them to runs of sweeps;
  the trace lemmas then say what is emitted as a function of what was observed, and
  `AlertLaws` says it on the inputs and the emitted alerts of whole runs, with no mention of
  the bookkeeping maps.
- **Caches** (`LsofCache`, `LsofFreshness`, `BrewCache`, `BrewFreshness`, `BrewOutcomes`).
  Single-flight refresh with invalidation racing an in-flight probe. The brew cache adds a
  fingerprint that lets a load skip running brew. How old an answer can be, and where it
  comes from, is said about the steps and clock readings of an interleaving.
- **Sessions** (`Base64Url`, `SessionEpochs`, `SessionTokens`, `Accounts`, `AccountRules`,
  `PinnedEntries`, `Sessions`, `LoginLimiter`). The token codec, the per-account logout
  counter, the account list laid over the administrator pair, what survives any sequence of
  logins, logouts, password changes, deletions and re-creations, and what any string
  presented as a token has to be.
- **Backups** (`StackBackup`, `BackupFiles`, `Mounts`). A stopped stack is always on the
  recovery list, with the markers of all stacks in one directory; reports are true; file
  names are exclusive; retention keeps the newest; nested bind mounts are archived once.
- **API keys** (`ApiKeys`, `ApiKeyLife`). One file shared by several processes; a key's life
  from creation to revocation or expiry.
- **Audit** (`Audit`, `AuditRules`). Redact, shape, redact again.
- `Options` and `Text` hold what several modules need.

Cryptography enters as functions with named properties (`SessionTokens.Sound`): a 32-byte
MAC, version stamps that do not collide and hold no separator, UTF-8 and `int()` that invert
their writers. A password hash is a value that was never seen before (`Sessions.Fresh`).
Brew and the file system enter as a world that changes with time (`BrewCache.World`), and
docker and tar as arbitrary exit codes (`StackBackup.Env`). Every clock reading is a
parameter.

## Where the code falls short of its own words

Each of these is stated with the exact condition under which the promise holds.

1. **An interrupted stop strands a stack.** `hub/backups.py:2250-2330` sets `stopped` only
   after the stop command returns. When control flow (a keyboard interrupt, a system exit)
   is raised inside it, the `finally` block skips the start and still removes the marker.
   `StackBackup.StrandedIffStopInterrupted`: that is the only way.
2. **A late peek breaks the reuse token.** Between the look at memory and the peek at the
   disk copy (`hub/brew_cache.py:1043-1052`) a forced load may publish; the peek then puts
   the older copy back while a token for the newer answer is in force or about to be stored.
   `BrewCache.TokenPromisedIffCalm`: in every interleaving the token can be believed at
   every moment exactly when no peek lands there. `BrewCache.StepKeepsPromiseIff` is the same
   for one step, `BrewCache.LatePeekBreaksToken` a run.
3. **Deleting an account can revive ended tokens.** `delete_account` drops the logout
   counter (`hub/auth.py:1554-1558`). When the administrator pair carries the same name, it
   surfaces with its counter at zero. `Sessions.RevivableIff` is the exact condition on the
   file: some run brings an ended token back exactly when a member entry repeats the pair's
   name and hash (`Sessions.SharedHashRevives`), or the pair has no name and an account called
   `admin` can be created over it (`Sessions.UnnamedPairRevives`). The second is barred only
   by an entry that no deletion removes and that spells `admin` in some letter case, or by 32
   such entries of any name. Both need a hand-edited file; every other file is
   safe (`Sessions.SafeConfig`). `Sessions.DeletionRevivesIff` is the exact condition of one
   deletion.
4. **Two spellings of one bind mount vanish.** `/a/` and `/a//` each count as lying inside the
   other, so both are dropped (`hub/backups.py:2063-2066`). `Mounts.EveryBindIsArchived`:
   nothing is lost exactly when every such pair lies inside a third bind.
5. **A revoke removes one record.** With a repeated id the second record stays
   (`hub/api_keys.py:409-419`); `ApiKeys.RevokeClearsIff`.
6. **A recovery can be announced that had no problem.** A service that is bad when first seen,
   or that vanishes while pending, resolves without ever having paged
   (`hub/alerts.py:1509-1511`, `hub/alerts.py:1574-1601`). `ServiceAlerts.UnannouncedRecovery`
   says when, `ServiceAlerts.UnannouncedRecoveriesHappen` has one history of each kind.
7. **A session can also pass as a proof of password** when one account is named
   `totp-pending|` followed by another's name and their versions coincide; the comment at
   `hub/auth.py:1798-1802` says never. `SessionTokens.BothKindsIff` says when;
   `SessionTokens.AlikeAccountsPassBoth` and `SessionTokens.BothKindsHappen` give the accounts.
8. **A temperature below zero keeps its reading** in the deduplicated form
   (`hub/alerts.py:915-929`). `SmartReasons.TemperatureAlone` says when that pages,
   `SmartReasons.BelowZeroPagesAgain` has two readings that do. A limit that such readings
   reach needs a hand-edited file: the settings API accepts 30 to 95
   (`hub/routers/settings_api.py:58`).
9. **An interrupted start keeps a failed archive.** The `finally` block discards a broken
   archive after the start (`hub/backups.py:2313-2326`), so control flow raised inside the
   start leaves it on disk. `StackBackup.ArchiveLeftIffGood`: that is the only way.
10. **A numbered copy of a stack with a dot in its id is never rotated.** The collision number
    goes in front of the first dot of the whole name (`hub/backups.py:199-204`), so the copy no
    longer starts with the prefix that retention looks for.
    `BackupFiles.NumberedCopiesRotateIff`: a copy keeps it exactly when the prefix has no dot.

## Model

| member | source | states |
|---|---|---|
| ServiceAlerts.ServiceTransitionAlerts | hub/alerts.py:1469-1602 | the two loops over whole dictionaries leave exactly the state, the pending set and the alerts that the per-service step describes |
| ServiceAlerts.VisitRow | hub/alerts.py:1503-1566 | one present row changes only its own entries, as the step says |
| ServiceAlerts.VisitVanished | hub/alerts.py:1574-1601 | exactly the remembered bad ids without a row are recovered and taken off the pending set |
| ServiceAlerts.SweepIsPointwise | hub/alerts.py:1503-1601 | a sweep over a whole map is the per-service step applied to each service, alerts included: services do not interfere |
| ServiceAlerts.PendingMeansFirstBadSample | hub/alerts.py:1503-1566 | from an empty state an id is pending exactly when it is bad now and was recorded good one sweep before |
| ServiceAlerts.ThreeSampleLaw | hub/alerts.py:1503-1601 | the alert of any sweep is a function of the last three observations, over every history |
| ServiceAlerts.DebouncedRun | hub/alerts.py:1469-1566 | a bad run of one sample is silent; a longer one pages at its second sample, at each later level change, and resolves once |
| ServiceAlerts.UnannouncedRecovery | hub/alerts.py:1509-1511 | exactly when a recovery is announced for a run that never paged |
| ServiceAlerts.UnannouncedRecoveriesHappen | hub/alerts.py:1503-1601 | two histories with a recovery nobody was told the problem of: bad at first sight, and gone while pending |
| ResourceAlerts.CheckResourceThresholds | hub/alerts.py:635-761 | the check gives every resource its own step, and leaves stamps and other levels alone when it returns early |
| ResourceAlerts.VisitCheck | hub/alerts.py:684-761 | one comparison changes only its own level and stamp, as the step says |
| ResourceAlerts.StampIsLastProblem | hub/alerts.py:1646-1647 | the stored stamp is the time of the latest problem, over sweeps that returned early or had no sample |
| ResourceAlerts.ProblemRule | hub/alerts.py:635-761 | a problem is raised exactly when the value is over the limit and the cooldown since the last problem has passed |
| ResourceAlerts.WarnedMeansOpen | hub/alerts.py:635-761 | the stored level is warn exactly when some problem has been followed only by samples that did not recover |
| ResourceAlerts.ResolvedRule | hub/alerts.py:635-761 | a recovery is announced exactly when the value is five below the limit and a problem is open |
| ResourceAlerts.ResolvedFollowsProblem | hub/alerts.py:635-761 | between two recoveries, and before the first, there is a problem; every recovery is at most limit minus 5 |
| ResourceAlerts.ProblemSpacing | hub/alerts.py:635-761 | two successive problems of one resource are at least the cooldown apart, whatever lies between |
| ResourceAlerts.ProblemCount | hub/alerts.py:635-761 | the number of problems is bounded by elapsed time over cooldown, plus one |
| SmartReasons.Reasons | hub/alerts.py:1043-1150 | the checks a disk trips, fatal and soft, in the order they are rendered |
| SmartReasons.CrossedAttributes | hub/alerts.py:1093-1118 | the loop over the attribute table names exactly the pre-fail attributes at or below a declared threshold |
| SmartReasons.SeverityIff | hub/alerts.py:1043-1150 | what makes a disk fatal and what only worth watching, on its readings and limits; a raw reallocation count never is fatal |
| SmartReasons.FatalTexts | hub/alerts.py:1058-1133 | which details are fatal, and how each is worded |
| SmartReasons.SoftTexts | hub/alerts.py:1119-1150 | the same for the soft ones |
| SmartReasons.ShowMeans | hub/alerts.py:1043-1150 | numbers are shown as the nearest whole one, ties to even |
| SmartReasons.TemperatureAlone | hub/alerts.py:918-929 | at the soft level, a disk whose readings differ in temperature only pages exactly when the limit is newly reached, or a reading below zero prints differently |
| SmartReasons.BelowZeroPagesAgain | hub/alerts.py:915-929 | two readings below zero, one degree apart, page twice |
| SmartReasons.SameTemperatureNews | hub/alerts.py:915-929 | two temperature tokens are the same news exactly when neither reading is below zero or both print alike |
| SmartAlerts.CheckSmartHealth | hub/alerts.py:1153-1332 | the loop over disks steps every identity through its own disks in order, each against what the file held, and touches nothing else; two disks with one identity included |
| SmartAlerts.NextSlotIsStep | hub/alerts.py:1190-1328 | with one disk to an identity that fold is the per-disk step |
| SmartAlerts.VisitDisk | hub/alerts.py:1190-1328 | one disk changes only its own level, stamp and tokens, as the step says |
| SmartAlerts.TemperatureIsNoNews | hub/alerts.py:918-929 | tokens that differ in the live temperature only have one stable form |
| SmartAlerts.StableExact | hub/alerts.py:918-929 | of all tokens exactly those that begin with a temperature in whole degrees lose it; every other is kept |
| SmartAlerts.SlotMeaning | hub/alerts.py:1245-1298 | stamp, level and stored tokens are functions of the readings of the whole history |
| SmartAlerts.FireRule | hub/alerts.py:1245-1298 | a sick disk pages exactly when it entered its level, shows a token absent from the last ones, or is fatal with the cooldown passed |
| SmartAlerts.WarnFiresOnNewsOnly | hub/alerts.py:1245-1298 | a disk readable at both sweeps pages at the soft level exactly when it entered it or some stable token is new |
| SmartAlerts.ImprovementIsSilent | hub/alerts.py:1245-1262 | losing a reason at the soft level is silent |
| Text.SplitJoin | hub/alerts.py:1249-1258 | splitting what join stored gives the tokens back, for tokens without a middle dot |
| AlertEngine.Engine.CheckOnce | hub/alerts.py:1605-1716 | one sweep end to end: every service, resource and disk takes its own step, alerts come in the source's order, and the file becomes the new state |
| AlertEngine.ComposeSweep | hub/alerts.py:1640-1716 | the three checks write disjoint parts of the state, so their steps compose |
| AlertEngine.ServiceRun | hub/alerts.py:1640-1656 | over any run, what the file holds about a service, and the alerts about it, are those of its own history |
| AlertEngine.ResourceRun | hub/alerts.py:1640-1656 | the same for a resource, across sweeps without a sample |
| AlertEngine.DiskRun | hub/alerts.py:1640-1656 | the same for a disk |
| AlertEngine.ServiceAlertsOfARun | hub/alerts.py:1605-1716 | what a sweep of a run emits about a service is decided by the last three observations of it |
| AlertLaws.ServicePages | hub/alerts.py:1503-1566 | over any run: a service pages at a level exactly when a row shows it at that bad level, a row showed it bad one sweep before, and it was seen good before that or changed level since |
| AlertLaws.ServiceRecovers | hub/alerts.py:1509-1601 | over any run: a recovery is announced exactly when the service was bad one sweep before and its row is gone, or shows ok and that was not the first bad sweep after a good one |
| AlertLaws.ResourcePages | hub/alerts.py:635-745 | over any run, on the fields of the sweep: cpu, memory or disk space pages exactly when the check is on, a sample has a usable value at or over its own usable limit, and the cooldown since its last page has passed; load stands in for a missing cpu value only |
| AlertLaws.ResourceRecovers | hub/alerts.py:672-761 | over any run: a recovery is announced exactly when the value is five below its limit and some page has only been followed by sweeps that compared the resource and did not find it five below |
| AlertLaws.OnlyThreeResources | hub/alerts.py:663-667 | nothing is ever said about another resource |
| AlertLaws.DiskPages | hub/alerts.py:1190-1298 | over any run, on the fields of the sweep: a disk pages exactly when the check is on and reads it with tripped checks, and its level is new, a detail is new, or it is failing with the cooldown since its last page over |
| AlertLaws.DiskRecovers | hub/alerts.py:1300-1328 | over any run: a disk is announced recovered exactly when it was read sick one sweep before and reads well now |
| AlertLaws.RunSweeps | hub/alerts.py:1729-1765 | the alerter's loop: every sequence of valid inputs is a run these laws speak of |
| AlertLaws.SeedIsASweep | hub/alerts.py:1732-1751 | the file a fresh installation starts from is what a sweep over those rows makes of an empty one |
| LsofCache.LsofModule.InvalidateLsofSnapshot | hub/adaptive.py:212-218 | the generation moves on and the snapshot is gone |
| LsofCache.LsofModule.Check | hub/adaptive.py:257-269 | the snapshot when the hit test allows it, or the generation to refresh for |
| LsofCache.LsofModule.Store | hub/adaptive.py:292-302 | rows are stored only when no invalidate landed since |
| LsofCache.PortsForPid | hub/adaptive.py:305-334 | the ports of a process: valid, distinct, none missed |
| LsofCache.NoStaleAnswer | hub/adaptive.py:201-302 | in every interleaving, a call that begins after an invalidate never returns rows of a probe begun before it |
| LsofCache.AnswersAreGenuine | hub/adaptive.py:255-302 | every answer and every cached value comes from a probe that really began at the step it names |
| LsofCache.AtMostOneProbe | hub/adaptive.py:255-302 | at most one thread is between the refresh locks, so at most one probe is in flight |
| LsofCache.CacheIsCurrent | hub/adaptive.py:201-218 | a cached value's probe began after the last invalidate |
| LsofFreshness.AnswersAreYoung | hub/adaptive.py:255-269 | in every interleaving, a call that looks at memory answers from it exactly when what is there was published less than five seconds of the clock before; otherwise it goes on to the refresh lock, and with the lock to a probe |
| LsofFreshness.MemoryIsLatest | hub/adaptive.py:212-302 | memory holds what the latest timely publish brought, with its clock reading; a publish is timely when nothing was invalidated since its thread set out |
| LsofFreshness.RowsAreShared | hub/adaptive.py:255-302 | what one call published answers any thread four seconds later, and none five seconds later |
| BrewCache.AnswerAgrees | hub/brew_cache.py:890-927 | the loop answers whether brew and launchd tell the same about every service and some service is loaded |
| BrewCache.BrewModule.InvalidateBrewServices | hub/brew_cache.py:534-548 | generation up, snapshot and token gone, disk copy barred |
| BrewCache.BrewModule.ReadFresh | hub/brew_cache.py:551-578 | the snapshot exactly while it is younger than its lifetime |
| BrewCache.BrewModule.Publish | hub/brew_cache.py:654-669 | a load of an older generation stores nothing |
| BrewCache.BrewModule.PeekDisk | hub/brew_cache.py:1047-1052 | the disk copy answers only while it is not barred, and becomes an expired snapshot |
| BrewCache.TokenMatchesSnapshot | hub/brew_cache.py:890-998 | with no load in flight, a held token means the snapshot is the answer of the run that set it, made after the fingerprint it names |
| BrewCache.SkipRefinesRun | hub/brew_cache.py:930-998 | if equal fingerprints mean unchanged inputs, the skip path publishes what a fresh run would |
| BrewCache.StaleLoadIsInert | hub/brew_cache.py:534-548 | a load that read its generation before an invalidate never changes snapshot or token afterwards, in any interleaving |
| BrewCache.OneLoadAtATime | hub/brew_cache.py:1054-1062 | loads hold the refresh lock: one at a time in every interleaving |
| BrewCache.NoColdAnswerAfterInvalidate | hub/brew_cache.py:609-613 | in every interleaving, after an invalidate the disk copy answers nobody until a load has published |
| BrewCache.OneBackgroundReload | hub/brew_cache.py:1001-1027 | the background reload is single-flight |
| BrewCache.TokenPromisedIffCalm | hub/brew_cache.py:890-1062 | over every interleaving: at every moment a token in force names the run whose answer is in memory, and a load about to store one has its answer there, exactly when no peek is late |
| BrewCache.StepKeepsPromiseIff | hub/brew_cache.py:1043-1052 | from any state of the invariant a step keeps that exactly when it is no late peek |
| BrewCache.LatePeekBreaksToken | hub/brew_cache.py:1043-1052 | a run in which a late peek leaves an old copy under a newer token |
| BrewFreshness.FreshAnswersAreYoung | hub/brew_cache.py:551-578 | in every interleaving, an unforced call answers as fresh exactly when what is in memory was published less than thirty seconds before; a forced one never does |
| BrewFreshness.StaleAnswersIff | hub/brew_cache.py:1040-1046 | past that an unforced call answers whatever is in memory, and looks at the disk copy only when there is nothing |
| BrewFreshness.DiskAnswersIff | hub/brew_cache.py:1047-1052 | the disk copy answers exactly when there is one and no invalidate since the last timely publish bars it |
| BrewFreshness.PrintsWatchEveryLabel | hub/brew_cache.py:930-945 | a load's fingerprint watches the label of every service it found in memory; with one missing it takes none |
| BrewFreshness.MemoryIsLatest | hub/brew_cache.py:534-669 | memory holds what the latest timely publish or peek brought, and ages from the publish; a peeked copy is as old as the clock |
| BrewFreshness.TokenIsLatest | hub/brew_cache.py:890-985 | a reuse token is in force exactly when the latest timely run to end had a fingerprint whose jobs tell the same as its answer |
| BrewFreshness.SkipsExactlyWhen | hub/brew_cache.py:930-957 | a load skips the run exactly when the call is not forced, memory held something, and the token in force when it began was stored less than ten minutes before from an equal fingerprint; otherwise it runs brew unless brew is busy |
| BrewFreshness.ForceIsKept | hub/brew_cache.py:1030-1062 | the flag a call was made with is the one its load decides by; background reloads are never forced |
| BrewOutcomes.PublishStoresTheChoice | hub/brew_cache.py:654-669 | a timely load puts into memory the rows it settled on: its run's, else the last good copy in memory, else on disk, or what it held when it skipped; it goes on to write the disk exactly when it ran brew |
| BrewOutcomes.CallersGetTheChoice | hub/brew_cache.py:1054-1062 | those rows are what a waiting caller gets; a background reload answers nobody |
| BrewOutcomes.DiskIsTheLatestWrite | hub/brew_cache.py:616-669 | the disk holds what the latest load to write it settled on |
| Base64Url.RoundTrip | hub/auth.py:1271-1272 | unpadded base64url decodes back to the encoded bytes, for all byte strings, with the lenient reader of the standard library (section 5 of RFC 4648) |
| Base64Url.ScanInverts | hub/auth.py:1271-1272 | the reader's automaton inverts the encoder on the padded form |
| SessionEpochs.CleanEpochs | hub/auth.py:328-351 | the loop folds every spelling of a name onto one entry with the largest counter |
| SessionEpochs.SessionEpoch | hub/auth.py:1633-1658 | the largest counter under any spelling of the name, or 0 |
| SessionEpochs.CleanKeepsReading | hub/auth.py:328-351 | cleaning changes no account's counter, for any mapping |
| SessionEpochs.CleanTwice | hub/auth.py:328-351 | cleaning is idempotent |
| SessionEpochs.BumpMeaning | hub/auth.py:1661-1694 | a bump raises the named account's counter by one and no other account's |
| SessionEpochs.BumpTakesIffNormal | hub/auth.py:1661-1694 | a bump is seen by its name exactly when the name has no outer white space |
| SessionEpochs.DropMeaning | hub/auth.py:1554-1558 | dropping a counter resets one account only |
| SessionTokens.SplitSignedExact | hub/auth.py:1738-1745 | splitting recovers payload and signature whatever bytes they hold, and nothing else |
| SessionTokens.RSplitExact | hub/auth.py:1721-1732 | right-splitting inverts the payload format for every username, also one with separators |
| SessionTokens.VersionMeans | hub/auth.py:1697-1714 | two version stamps agree exactly when credential and counter both do |
| SessionTokens.SessionVerifiesIff | hub/auth.py:1756-1787 | a session verifies exactly when unexpired, its account exists, and credential and counter are what they were at mint; it then names its account |
| SessionTokens.PendingVerifiesIff | hub/auth.py:1806-1849 | the same for the proof of a password check, with its own lifetime |
| SessionTokens.SessionMeans | hub/auth.py:1756-1787 | for every string: it passes as a session of an account exactly when its bytes are a payload and this server's MAC of it, and the payload is name, expiry still to come and the account's current version |
| SessionTokens.PendingMeans | hub/auth.py:1825-1849 | the same for proofs of a password check, behind the marker |
| SessionTokens.Lifetimes | hub/auth.py:1749-1849 | a session lasts a week and a proof five minutes, to within a second |
| SessionTokens.BothKindsIff | hub/auth.py:1798-1849 | exactly when one byte string passes both verifiers |
| SessionTokens.AlikeAccountsPassBoth | hub/auth.py:1798-1849 | whenever two accounts so named share hash and counter, the session of one passes as the other's proof of password |
| SessionTokens.BothKindsHappen | hub/auth.py:1798-1849 | a registry with two such accounts |
| SessionTokens.KindsAreDisjoint | hub/auth.py:1763-1849 | with separators kept out of names, also for an account named totp-pending, no byte string passes both |
| Accounts.AuthStore.ListAccounts | hub/auth.py:638-707 | the list laid over the administrator pair answers every name with its last entry, else the pair |
| Accounts.AuthStore.SetPassword | hub/auth.py:1336-1380 | the pair is rewritten, or nothing is, with the source's refusals in order |
| Accounts.AuthStore.CompleteSetup | hub/auth.py:1152-1185 | a setup writes only with the expected token and on an unclaimed installation |
| Accounts.AuthStore.CreateAccount | hub/auth.py:1421-1458 | one entry is added, unless the name is taken in any letter case or the list is full |
| Accounts.AuthStore.SetAccountPassword | hub/auth.py:1489-1526 | every entry of the name is rewritten, or the pair when there is none |
| Accounts.AuthStore.DeleteAccount | hub/auth.py:1529-1560 | every entry of a member and its counter go; administrators stay |
| Accounts.AuthStore.BumpSessionEpoch | hub/auth.py:1661-1694 | the counter is one above the cleaned one, and nothing else changes |
| Accounts.AccountsAgree | hub/auth.py:638-714 | the dictionary of accounts and a search from the end of the list give the same answer; no account has an empty name or a colon |
| Accounts.DeletedKeeps | hub/auth.py:1529-1560 | a deletion leaves every other account alone and uncovers the pair of the same name with its counter at zero |
| Accounts.CreateOpensAccount | hub/auth.py:1421-1458 | a created account has its own hash and role, was free before, and no other account changes |
| Accounts.RotationTakes | hub/auth.py:1489-1526 | a password change replaces the account's own hash, keeps its role, and changes no other account, listed or not |
| AccountRules.AccountsAre | hub/auth.py:638-714 | who has an account: a listed name with the hash and role of its last entry, else the pair, as an administrator; never an empty name or one with a colon |
| AccountRules.CreateOutcomes | hub/auth.py:1388-1458 | each refusal of a creation with its reason in the source's order, in characters and numbers, and nothing written on one |
| AccountRules.PasswordOutcomes | hub/auth.py:1336-1380 | the same for writing the pair, and what is written |
| AccountRules.ChangeOutcomes | hub/auth.py:1489-1560 | the same for changing a password and for deleting an account |
| AccountRules.WritesAreClean | hub/auth.py:328-351 | every write leaves one readable counter for each name, whatever the file held |
| Sessions.EndedTokensStayDead | hub/auth.py:1489-1560 | over any run from a safe file, no session handed out before a logout, a password change or a deletion of its account verifies again, whatever follows |
| Sessions.EndedProofsStayDead | hub/auth.py:1798-1849 | the same for proofs of a password check |
| Sessions.BumpRevokes | hub/auth.py:1633-1714 | over any run from a safe file, no token handed out before a logout verifies again, at any time and after any further operations |
| Sessions.EndRevokes | hub/auth.py:1489-1560 | the same from any file, as long as no deletion uncovers the credential |
| Sessions.SessionIsLive | hub/auth.py:1756-1787 | over any run a session verifies exactly while unexpired and its credential and counter are current |
| Sessions.PendingIsLive | hub/auth.py:1806-1849 | the same for proofs of a password check, with the account they name |
| Sessions.WhatPassesWasHandedOut | hub/auth.py:1749-1787 | over any run and for every string: what passes as a session was signed for a login of that account less than a week before, its credential and counter are still current, and from a safe file nothing ended it since |
| Sessions.WhatProvesWasChecked | hub/auth.py:1806-1849 | the same for proofs of a password check, within five minutes |
| Sessions.BumpIsIsolated | hub/auth.py:1661-1694 | logging one account out changes no other account's sessions |
| Sessions.RotationIsIsolated | hub/auth.py:1489-1497 | a password change signs out its own account only |
| Sessions.ListsStaySound | hub/auth.py:1438-1446 | over any run no two listed accounts come to share a name in any letter case, and the list keeps its cap |
| Sessions.DeletionRevivesIff | hub/auth.py:1539-1560 | the exact deletions after which a revoked token can verify again |
| Sessions.SafeFilesNeverUncover | hub/auth.py:1421-1560 | from a safe file no run ever uncovers a credential tokens were minted under |
| Sessions.DeletionUncoversPair | hub/auth.py:1539-1560 | a member entry over the pair, once logged out and deleted, leaves the pair with counter zero |
| Sessions.SharedHashRevives | hub/auth.py:1529-1560 | from every file with a member entry that repeats the pair's name and hash, a run that revives a logged-out token |
| Sessions.UnnamedPairRevives | hub/auth.py:1441-1444 | the same from every file whose pair has no name and whose list does not bar the name admin |
| Sessions.RevivableIff | hub/auth.py:1421-1560 | the exact files from which some run of logins, logouts, password changes, creations and deletions brings an ended token back |
| Sessions.Purge | hub/auth.py:1529-1560 | deleting whatever can be deleted leaves exactly the entries a list pins, and the pair |
| PinnedEntries.WithoutPins | hub/auth.py:1539-1553 | a deletion leaves every entry of an administrator, and every one with a name nobody can sign in with |
| PinnedEntries.AppendPins | hub/auth.py:1438-1453 | a created account displaces no such entry |
| Sessions.OneSetupWins | hub/auth.py:1152-1185 | of any number of setups racing for a fresh installation one wins |
| LoginLimiter.Limiter.LoginAllowed | hub/auth.py:1954-1975 | the answer and the new table, sweep and pruning included |
| LoginLimiter.Limiter.SweepLoginAttempts | hub/auth.py:1932-1951 | above the size bound, exactly the buckets whose newest attempt is stale are dropped |
| LoginLimiter.Limiter.ReleaseLoginReservation | hub/auth.py:1978-1992 | the newest attempt is given back and an empty bucket forgotten |
| LoginLimiter.Limiter.RecordLoginFailure | hub/auth.py:1995-2003 | one attempt more in the client's bucket, nothing else |
| LoginLimiter.Limiter.ClearLoginFailures | hub/auth.py:2006-2008 | the client's bucket is gone, nothing else |
| LoginLimiter.SweepIsUnobservable | hub/auth.py:1932-2008 | with a clock that does not step back, a table that sweeps and one that never does give the same answers to every mix of operations |
| LoginLimiter.GrantsAreCounted | hub/auth.py:1954-1975 | with no slot given back, every grant in a window still counts, and grants five apart are a window apart |
| LoginLimiter.AtMostFivePerWindow | hub/auth.py:1954-1975 | any 300-second window holds at most five granted attempts of one client |
| LoginLimiter.LetInIff | hub/auth.py:1954-1975 | over every mix of operations: a client is let in exactly when fewer than five of its standing attempts are less than 300 seconds old, and otherwise told the seconds left until the oldest of those is |
| LoginLimiter.RunsAre | hub/auth.py:1932-2008 | every mix of operations is such a run as long as the clock does not step back |
| StackBackup.BackupRunner.BackupStack | hub/backups.py:2243-2356 | the operations issued, when control flow leaves it, and the report: ok exactly when every export and tar succeeded, tar wrote something, and the start succeeded when one was due |
| StackBackup.BackupRunner.ArchiveBody | hub/backups.py:2267-2312 | exports stop at the first failure, and the archive is attempted only when all succeeded |
| StackBackup.BackupRunner.Close | hub/backups.py:2313-2330 | the finally block: a start for every stop that returned, the failed archive discarded, the marker removed last |
| StackBackup.BackupLeaves | hub/backups.py:2250-2330 | what a whole backup leaves: debt and marker, whatever failed on the way |
| StackBackup.BackupIsCrashSafe | hub/backups.py:2250-2330 | at every point of a backup a stack that owes a start is on the recovery list |
| StackBackup.StrandedIffStopInterrupted | hub/backups.py:2250-2330 | the one way a finished backup strands a stack |
| StackBackup.ArchiveLeftIffGood | hub/backups.py:2296-2330 | an archive is left on disk exactly when every export and tar succeeded and tar wrote something, or the start was interrupted before a broken one could be discarded |
| StackBackup.GoodReportsAreTrue | hub/backups.py:2250-2356 | what is reported as archived is on disk, and the stack is up and off the recovery list |
| StackBackup.JournalSays | hub/backups.py:2250-2330 | which operations a backup issues, for every way the commands can end |
| StackBackup.RecoverInterruptedStackBackups | hub/backups.py:2105-2181 | the scan gives each leftover marker its start and removal, stack by stack |
| StackBackup.RecoveryPays | hub/backups.py:2105-2181 | recovery pays the debt, and is safe to cut, exactly when the compose file can be found |
| StackBackup.HistoryIsCrashSafe | hub/backups.py:2070-2330 | over any history of backups and recoveries, each cut anywhere, a stop without a later start is on disk for the next scan |
| StackBackup.CompletedSegmentOwesNothing | hub/backups.py:2105-2330 | after a completed finally block or scan the stack owes no start |
| StackBackup.StacksDoNotInterfere | hub/backups.py:2070-2102 | over one directory of markers, what an interleaving does to a stack is what its own operations do |
| StackBackup.InterleavingIsCrashSafe | hub/backups.py:2070-2330 | histories of any number of stacks, interleaved at will over one directory and cut anywhere: every stack that owes a start has its marker file on disk |
| StackBackup.HonestFilesListStacks | hub/backups.py:2105-2135 | listing the directory finds every stack with a marker once |
| StackBackup.ScanSettlesAll | hub/backups.py:2105-2181 | a completed scan over that listing leaves no stack owing a start |
| BackupFiles.Directory.PrivateDest | hub/backups.py:167-214 | the first free candidate is created, refused only when all fifty exist; an unwritable directory hands the name back uncreated |
| BackupFiles.Directory.Prune | hub/backups.py:249-277 | exactly the files past the retained ones go, except those that cannot be unlinked |
| BackupFiles.CandidatesDiffer | hub/backups.py:200-204 | distinct attempts try distinct names |
| BackupFiles.CandidateShape | hub/backups.py:200-204 | the first attempt tries the name itself, a later one puts its number before the first dot |
| BackupFiles.NamesAreExclusive | hub/backups.py:167-214 | in any interleaving of runs, each created name has one owner and was not there before |
| BackupFiles.DistinctDestinations | hub/backups.py:167-214 | two finished runs never hold one name or an existing file |
| BackupFiles.RunsEndAtTheFirstFree | hub/backups.py:167-214 | in any interleaving a run ends with the first of its fifty names that was not there when it came to it, and is refused exactly when all fifty were |
| BackupFiles.FilesAre | hub/backups.py:167-214 | the directory holds what was there, what runs created and what other programs did, and nothing else |
| BackupFiles.SameSecond | hub/backups.py:170-175 | two runs in one second get the name and the second name |
| BackupFiles.StampOrder | hub/backups.py:249-262 | lexicographic order of stamps is chronological |
| BackupFiles.NameOrderIsChronological | hub/backups.py:249-262 | so is the order of names of one prefix, collision numbers included |
| BackupFiles.NumberedCopiesRotateIff | hub/backups.py:199-204 | a numbered copy keeps its prefix and date exactly when the prefix has no dot |
| BackupFiles.PruneKeepsNewest | hub/backups.py:249-277 | exactly min(n, max(1, retain)) files stay, min(n, 14) when the setting is unreadable, and none deleted is later than one kept |
| Mounts.StackMounts | hub/backups.py:2014-2067 | every data bind once, every valid volume once under its resolved name, nested binds dropped |
| Mounts.EveryBindIsArchived | hub/backups.py:2063-2066 | every collected bind equals or lies under a kept one, exactly when no pair of spellings is left to drop each other |
| Mounts.NormalBindsAreArchived | hub/backups.py:2063-2066 | on paths without trailing slashes nothing is lost and the kept binds form an antichain |
| Mounts.UnderDescends | hub/backups.py:2063-2066 | lying inside another bind descends, except between two spellings of one path |
| Mounts.UnderMeansNested | hub/backups.py:2063-2066 | on normalised paths lying inside another means having all its components, in order, and more |
| Mounts.TwinsVanish | hub/backups.py:2063-2066 | two spellings that drop each other leave nothing |
| ApiKeys.PersistableIsStable | hub/api_keys.py:207-219 | rewriting a record twice is rewriting it once, no rewrite changes its expiry verdict, and an unreadable expiry counts as passed |
| ApiKeys.KeyStore.CreateKey | hub/api_keys.py:369-406 | one record more, or the source's refusal, capped at fifty |
| ApiKeys.KeyStore.RevokeKey | hub/api_keys.py:409-419 | the first record of the id goes |
| ApiKeys.KeyStore.VerifyKey | hub/api_keys.py:422-464 | the loop and the branches after it are the specified verification |
| ApiKeys.CreatedKeyVerifies | hub/api_keys.py:369-464 | a key just created is accepted with its own token, exactly until its expiry |
| ApiKeys.Linearizable | hub/api_keys.py:88-117 | for every interleaving of processes, file and results are those of the operations run one at a time in commit order |
| ApiKeys.RevokedIsGone | hub/api_keys.py:409-464 | a revoked id is never in the store again and never answers a verification again |
| ApiKeys.InterleavedRevocation | hub/api_keys.py:88-117 | with any number of processes interleaved, what a committed revoke removed stays out of the file |
| ApiKeys.InterleavedAnswers | hub/api_keys.py:409-464 | and no verification that commits after it, in whatever process, answers with the id |
| ApiKeys.InterleavedResults | hub/api_keys.py:369-464 | every process gets the answer the serial history gives |
| ApiKeyLife.AcceptedIff | hub/api_keys.py:422-464 | in every interleaving a verification answers with an id, name and role exactly when the file at its commit holds such a record with this very digest, not expired, and no later record has the digest; otherwise it denies |
| ApiKeyLife.KeyLife | hub/api_keys.py:369-464 | from an empty file: a digest is answered with a key exactly when an earlier call made that key for it, none in between revoked it, and its days have not passed |
| ApiKeyLife.RevokeFindsIff | hub/api_keys.py:409-419 | from an empty file: a revoke finds a key exactly when an earlier call made it and none in between revoked it |
| ApiKeyLife.FileHoldsTheAlive | hub/api_keys.py:369-419 | the file holds exactly the keys made and not revoked |
| ApiKeyLife.MadeIsComplete | hub/api_keys.py:369-404 | what a creation accepts, in the numbers of the source |
| ApiKeyLife.UseIsWritten | hub/api_keys.py:448-464 | an accepted use is written exactly when an hour has passed since the stored one, and changes that stamp alone |
| ApiKeyLife.LivesHappen | hub/api_keys.py:369-464 | three processes make, use, revoke and are refused a key |
| ApiKeys.RevokeClearsIff | hub/api_keys.py:409-419 | after a revoke the id is gone exactly when no second record carried it |
| ApiKeys.NeverTooMany | hub/api_keys.py:400-404 | a store within its cap stays within it |
| ApiKeys.StampsAreSpaced | hub/api_keys.py:448-464 | two written uses of one key are at least an hour apart, over any history |
| ApiKeys.WithoutTheLockAKeyReturns | hub/api_keys.py:90-101 | the race the file lock is there for: a stale snapshot brings a revoked key back |
| Audit.CappedTwice | hub/audit.py:428-432 | truncation is idempotent |
| Audit.NothingSecretIsWritten | hub/audit.py:758-769 | whatever is handed over, no secret name reaches the trail at any depth, and what does is plain capped JSON |
| AuditRules.SecretsAreMarked | hub/audit.py:236-274 | a name is kept out exactly when, in lower case, one of the marked words occurs in it and no public key's name does |
| AuditRules.TheTrailFits | hub/audit.py:420-436 | whatever is handed over, the trail gets plain values at most 33 deep, texts and names of at most 65549 characters, and no marked name at any depth |
| AuditRules.ValuesArrive | hub/audit.py:436-704 | a single value at most 32 names and indexes deep arrives at its own path, as the trail writes it, unless a name on the way is marked or ambiguous |
| Audit.HintedFieldsAreNeverWritten | hub/audit.py:236-274 | no field whose name holds one of the trail's own hints, and no public key's name, is written |
| Audit.TheTrailKeepsSecretsOut | hub/audit.py:236-274 | every name that holds password, token or key, and no b in the rest of it, is secret to the trail |
| Audit.TheTrailKeepsPeersIn | hub/audit.py:265-274 | a name that holds pubkey is not |
| Audit.SanitisedIsFixed | hub/audit.py:758-769 | sanitising again changes nothing |
| Audit.PublicFieldsAreKept | hub/audit.py:629-704 | a leaf whose whole path is public, unambiguous and within the depth cap is written at that path |
| Audit.EntryShape | hub/audit.py:770-781 | an entry has its own stamp and event, and of the caller's fields exactly the sanitised ones with other names |

## Left out

- Routes, middleware, sockets, probes, notification senders and the wording of alerts.
- The freshness, UPS and stale-runtime alert checks: edge triggers of the same shape as those modelled.
- Parsing of smartctl numbers and of disk identities: readings arrive as numbers, disks with their key.
- `ports_from_plist` and the grouping in `discover_orphan_listeners`: single-pass list building over parsed property lists.
- Parsing of lsof, brew and compose output, and the interpreter guards against hostile objects.
- ServiceAlerts.ServiceTransitionAlerts: rows have ids outside the bookkeeping prefixes, as the state file shares one key space with them.
- SmartAlerts.NextSlotIsStep: with two disks of one identity the slot is the fold of both, which is no single step.
- AlertEngine.Engine.CheckOnce: the UPS, freshness and stale-runtime checks are not part of the sweep, a save of the state file succeeds, and the file an earlier version left is not migrated.
- LsofCache.NoStaleAnswer: what a probe reads is not modelled, only when it began.
- BrewCache.TokenMatchesSnapshot: for interleavings without a late peek; BrewCache.TokenPromisedIffCalm shows that this condition is exact.
- BrewCache.SkipRefinesRun: for interleavings without a late peek; a failed or busy load may republish the last good copy, so nothing is claimed about its age.
- Base64Url.RoundTrip: that other texts may decode to the same bytes is in the model but is not a claim.
- SessionTokens.SessionVerifiesIff: the MAC is an arbitrary function, so that no one else can compute it is not part of the model. Truncated stamps are taken not to collide.
- SessionEpochs.BumpMeaning: counters past the interpreter's limit on printed digits are read as 1 and the bump at that limit is not modelled.
- Sessions.BumpRevokes: each operation is one atomic rewrite together with the check before it; a second process between check and rewrite is not modelled. Hashes hold no separator.
- Accounts.AuthStore.BumpSessionEpoch: the bump at the interpreter's limit on printed digits, which restarts the counter, is not modelled.
- Accounts.AuthStore.CompleteSetup: the file of the setup token is not consumed and the lock around the process is not modelled; the write checks again that nobody has claimed.
- Accounts.AuthStore.CreateAccount: letter case is folded for ASCII letters only; resource grants are not part of the account.
- Accounts.AuthStore.SetAccountPassword: the check on a snapshot and the write are one atomic step.
- Accounts.AuthStore.DeleteAccount: the check on a snapshot and the write are one atomic step.
- LoginLimiter.SweepIsUnobservable: not claimed for a clock that steps back.
- SmartReasons.SeverityIff: a verdict is compared in capitals for ASCII letters only.
- Sessions.WhatPassesWasHandedOut: an account named after the marker and another account is set apart, as SessionTokens.BothKindsIff explains; that nobody else can make a MAC is a hypothesis about the token.
- ApiKeyLife.KeyLife: random ids and digests do not repeat; what happens when they do is ApiKeyLife.AcceptedIff, for any file.
- StackBackup.BackupIsCrashSafe: marker writes succeed, recovery of a stack does not overlap a new backup of it, and two processes do not back up one stack at once.
- StackBackup.BackupRunner.BackupStack: the refusals before the stop, the content of the archive, the pruning of old archives and the log are not modelled.
- StackBackup.ScanSettlesAll: every marker names a stack whose compose file can be found; StackBackup.RecoveryPays says what happens to one that does not.
- BackupFiles.PruneKeepsNewest: files of one prefix; a pattern that also matches another target's files is outside it, as are stamps of a clock that is set back.
- BackupFiles.Directory.Prune: the sorted listing is taken at one moment.
- Mounts.StackMounts: whether a path is a directory, a file or a socket is part of the input.
- ApiKeys.Linearizable: the lock is obtained and saves succeed; without the lock file the code falls back to its own process's lock only.
- ApiKeys.RevokedIsGone: ids are unique in the first file and random ids never repeat.
- Audit.PublicFieldsAreKept: names that render alike at one level are outside it; the later one then wins.
- Audit.EntryShape: the shaping half of an entry, on values; the append to the trail, its trimming and its permissions are not modelled.
