# Verified model of ACH

ACH is a hub in front of LiteLLM. It issues personal and environment keys, caches their
resolution, reaps LiteLLM keys it no longer tracks, classifies work sessions and publishes
skills out of fetched repositories. This project models the parts of it whose guarantees are
about whole runs, and proves those guarantees in Dafny 4.11. `dafny verify dfyconfig.toml`
covers every file.

## How it is laid out

| files | what they model |
|---|---|
| `Strings`, `Paths` | byte-wise string order; the documented rules of Go's `path.Clean`, `Base`, `Dir` and `Join` on segments |
| `TarSafety`, `SkillVerify`, `SkillTree`, `SkillPipeline`, `SubPaths`, `SliceLaws` | the entry safety gate, skill verification, discovery and slicing, how they compose, and which sub-paths publish what discovery found; an archive is the sequence of its entries |
| `KeyRows`, `KeyTables`, `KeyGrant` | key rows and the single-statement updates on them, the tables they live in (each statement tied to its step below), and the grant rules |
| `KeyCache`, `KeyCacheProofs`, `KeyCacheExact`, `KeyCacheLimits` | the read-through credential cache of several processes as a step system, its invariant and the bound on stale hits, that the bound is exact, and a run that shows why it is stated as it is |
| `ReadCache` | the generation-guarded GET cache: the class, every interleaving of its operations, and what happens when the generation comes round |
| `OrphanTick`, `OrphanRun` | one reaper tick with its counters, and ticks interleaved with mints, inserts and status flips |
| `Classifier`, `ClassifierProgress` | the resumable session scan: what it never forgets, and how fast it finishes |
| `SpendWindow` | the start of a budget cycle over the Gregorian calendar |
| `Cursor`, `Pages`, `PageWalk` | the page cursor, one page, and following cursors to the end |

Code that changes state step by step is a class or a method proved against a specification
function; the step systems are built from the same functions. A behaviour is a sequence of
states in which every two neighbours are related by some enabled step, so a theorem over
behaviours is a theorem over every interleaving.

Parameters stand for what is outside the code: the clock, the upstream answers, the YAML
decoder, the timestamp formatter, the outcome of labelling a session. All parts of a step
system share one clock. `delta` is the time between a caller's first clock reading after a
shared lookup and its SET. Credential hashes are injective, so a bearer is its own cache key.
Every process has its own singleflight group; the database and Redis are shared, so lookups of
one bearer may run in any number of processes at once.

## Where the code and a natural reading differ

Each of these is a property that fails on some input; the model keeps the code's behaviour and
states exactly when the property holds.

- `SpendWindowStart` steps back from the nearest UTC midnight. Local midnight in a zone more
  than 12 hours ahead of UTC is nearest to the last day of the previous month, so the step is
  right exactly when two month lengths agree (`MonthsBackExact`, `FarEastMarch`), and stepping
  forward again returns exactly when the day did not run over a shorter month (`ForwardReturns`).
- The marketplace reconciler joins the sub-path it was given rather than the normalised one.
  Discovery finds a skill below "/skills" or " skills", and slicing it finds nothing. A skill is
  published exactly when normalising changes nothing that cleaning would not
  (`PublishedIffKept`, `SlashSkillsIsEmpty`).
- `ListKeys` reads a cursor whose time is Go's zero time as no cursor, so a walk that meets one
  at a page boundary starts over and never ends (`WalkEndsIff`, `TwoAtZeroNeverEnds`). The
  inserts leave created_at to its default, now(), so only a row written by other means has that
  time. The listings by owner have no such case.
- The reaper compares issuers as text, with an absent stamp read as "". Unstamped keys are
  spared exactly when the release's own issuer is not empty (`UnstampedSpared`); the operator
  refuses to start without one.
- `keyLive` has no 90-day cap. It agrees with check-and-extend on every row a history can reach,
  and on an arbitrary row exactly when the row is not active or expires within the cap
  (`LivenessTestsAgree`, `LivenessAgreesIff`).
- An exchange JWT reads its row first and its grants second. That at every moment one of the two
  refuses it is not enough to keep it out of the cache (`MixedRefusalServes`). What matters is
  that the row never accepts it in a state from which, then or later, the grants cover it
  (`NoStaleHit`). The exact condition, for every bearer and delta, names the states in which the
  row is read, the grants cover it and the entry's lifetime is measured and stored
  (`ServedIffOpening`).
- The read cache's generation is 64 bits wide. As long as fewer than 2^64 drops overtake any one
  GET no read is stale (`ReadAfterWrite`). The generation test lets an overtaken fetch through
  only after that many (`WrapTakesAWord`); once it does, some continuation reads stale
  (`WrapReadsStale`), and such a run exists (`ReadsStaleAfterAWord`).
- The reaper's ten-minute floor is tight: a longer mint-to-insert delay lets it reach a live key
  (`ReaperSparesManaged`, `DelayBoundTight`).

## Model

| member | source | states |
|---|---|---|
| `KeyCacheProofs.StepKeepsInv` | internal/keystore/keystore.go:186-267 | every step of hits, misses, joined fills, follower SETs, deletes, commits and ticks, in any number of processes, keeps: each entry comes from a finished flight of its own bearer and ends within 60 s of that flight's anchor and by its own expiry, up to delta |
| `KeyCacheProofs.DeadlineBound` | internal/keystore/keystore.go:248-265 | in every reachable state of every interleaving of any number of processes an entry's deadline is at most its flight's anchor + 60 s + delta and at most its ExpiresAt + delta, the anchor not being in the future |
| `KeyCacheProofs.HitJustified` | internal/keystore/keystore.go:186-267 | behind every hit there are states, in order, in which the row accepted the bearer and was looked up, the grants covered it, and the entry's lifetime was measured and stored within delta; less than 60 s plus that gap has gone by since the row was read, and what was looked up has not expired |
| `KeyCacheProofs.NoStaleHit` | internal/keystore/keystore.go:186-267 | if from time T on the row never accepts the bearer in a state from which, then or later, the grants cover it, no hit at or after T + 60 s + delta serves it, with any deletes lost and any fills racing |
| `KeyCacheExact.OpeningServes` | internal/keystore/exchangeresolver.go:66-100 | conversely, a history of rows (last_used_at of environment keys apart), grants and times with such states has a run through it that serves the bearer now, for every kind of bearer and every delta; where a personal key's lookup slides its expiry, the history must show that slide |
| `KeyCacheExact.ServedIffOpening` | internal/keystore/keystore.go:186-267 | so a run through a history can serve a bearer from the cache now exactly when the history has such states |
| `KeyCacheProofs.RevokedStays` | internal/db/environment_keys.go:116-141 | revoked is absorbing along every behaviour |
| `KeyCacheProofs.RevokedNotServed` | internal/keystore/keystore.go:182-185 | a key whose row is revoked at T is never served from the cache at or after T + 60 s + delta |
| `KeyCacheProofs.PersonalRevocationHolds` | internal/db/personal_keys.go:152-177 | committing the revocation of an active personal key at T revokes and stamps its row, and no hit at or after T + 60 s + delta serves the key |
| `KeyCacheProofs.EnvironmentRevocationHolds` | internal/db/environment_keys.go:107-141 | the same for an environment key, under its own bearer and under every exchange JWT for it |
| `KeyCacheProofs.HitNotExpired` | internal/keystore/exchangeresolver.go:83-100 | no hit is served at or after the expiry the key row holds at that moment, nor, for an exchange JWT, at or after its own exp; the hit names the bearer's own key |
| `KeyCacheLimits.MixedRefusalServes` | internal/keystore/exchangeresolver.go:66-80 | for every delta, a behaviour in which row or grants refuse the token at every state for 60 s + delta and a hit still serves it |
| `KeyCache.CachedResolver.Cached` | internal/keystore/keystore.go:200-215 | a live entry answers without a lookup and is served unless its own expiry has passed |
| `KeyCache.CachedResolver.Fill` | internal/keystore/keystore.go:240-267 | what each joined caller stores: only its own entry, ending within 60 s of the shared anchor and by the expiry, up to the gap between clock reading and SET; an expired info is neither stored nor returned |
| `KeyRows.RunKeepsWindow` | internal/db/check_extend.go:86-119 | every time-ordered history of uses and revocations keeps the window invariant and the identity columns, never moves the expiry back and leaves a revoked row alone |
| `KeyRows.WindowLaw` | internal/db/check_extend.go:99-110 | after any history of a fresh key: once used, expires_at = min(last_used_at + 7 d, created_at + 90 d); unused, the inserted expiry |
| `KeyRows.ExpiryMonotone` | internal/db/check_extend.go:104-109 | the expiry never decreases along a history |
| `KeyRows.UsedStaysValid` | internal/db/check_extend.go:86-119 | a key accepted at t is accepted at every later time before min(t + 7 d - 5 min, created_at + 90 d), whatever uses happen in between |
| `KeyRows.RejectedForever` | internal/db/check_extend.go:93-96 | a rejected row stays rejected at every later time after any further events |
| `KeyRows.PkRevokedForGood` | internal/db/personal_keys.go:152-161 | revoking a personal key that is active after any history leaves it revoked, stamped with that time and rejected at every time, whatever follows |
| `KeyRows.LivenessTestsAgree` | internal/db/keys_list.go:70-72 | on every row a history reaches, check-and-extend, keyLive, the listing's derived status and (oauth rows) ActiveOAuthPK agree at every time |
| `KeyRows.LivenessAgreesIff` | internal/keystore/keylive.go:44-57 | on an arbitrary row keyLive and check-and-extend agree at all times exactly when it is not active or expires within 90 days of creation |
| `KeyRows.EkLivenessTestsAgree` | internal/db/ek_resolve.go:51-53 | EkResolve, keyLive and the listing agree on every environment key row at every time |
| `KeyRows.EkRevokedAbsorbing` | internal/db/environment_keys.go:116-141 | no history of uses, suspensions, resumptions and revocations changes identity or expiry, or anything of a revoked row |
| `KeyRows.ExpiredNeverResumes` | internal/db/environment_keys.go:132-141 | once its expiry has passed a row never authenticates again and a non-active one never becomes active |
| `KeyRows.RevokedForGood` | internal/db/environment_keys.go:116-141 | after any history a revocation leaves the row revoked, whatever follows, and stamped with that time if it was not revoked before |
| `KeyRows.SuspensionIsUndone` | internal/db/environment_keys.go:116-141 | a suspended key does not authenticate, and resuming an active key that was suspended gives back the same row if and only if its expiry has not passed |
| `KeyTables.Tables.CheckAndExtend` | internal/db/check_extend.go:86-136 | answers exactly for an active row before its expiry and its 90th day; slides exactly one not used in the last 5 minutes, to the earlier of 7 days from now and the 90th day; leaves every other row alone; it is the lookup step of a flight |
| `KeyTables.Tables.RevokePersonalKey` | internal/db/personal_keys.go:152-177 | flips exactly an active row, to revoked with its stamp, and leaves every other row alone; it is the cache system's revocation step |
| `KeyTables.Tables.ResolveEnvironmentKey` | internal/db/ek_resolve.go:42-73 | answers exactly for an active unexpired row and stamps last_used_at at most every 5 minutes; it is the lookup step of a flight |
| `KeyTables.Tables.ResolveExchangeKey` | internal/db/environment_keys.go:315-345 | answers exactly for an active unexpired exchange key, found by its id, and stamps last_used_at at most every 5 minutes; it is the first statement of an exchange JWT's lookup |
| `KeyTables.Tables.FlipEnvironmentKey` | internal/db/environment_keys.go:116-168 | suspends exactly an active row, resumes exactly a suspended unexpired one, revokes and stamps exactly one not revoked; each is the cache system's commit step |
| `KeyTables.Tables.Drain` | internal/db/environment_keys.go:37-42 | leaves no undrained row of the environment, keeps earlier revocation stamps and other environments |
| `KeyTables.Tables.ListManaged` | internal/db/managed_keys.go:52-84 | returns the managed set the reaper's run snapshots: the ids of either table whose row is not revoked |
| `KeyGrant.Covering` | internal/keygrant/keygrant.go:18-26 | the loop returns the covering grants in order |
| `KeyGrant.CoveringMembers` | internal/keygrant/keygrant.go:17-26 | a grant is returned exactly when it is given and itself names identity, environment and requester |
| `KeyGrant.BudgetLessTotal` | internal/keygrant/keygrant.go:62-73 | the budget order is total and strict up to equal rank |
| `KeyGrant.BudgetLessTransitive` | internal/keygrant/keygrant.go:62-73 | the budget order is transitive |
| `Strings.LessExact` | internal/keygrant/keygrant.go:62-73 | text is compared in lexicographic order |
| `KeyGrant.Budget` | internal/keygrant/keygrant.go:45-60 | the ceiling is that of a budgeted grant nothing undercuts, or none when no grant sets one |
| `KeyGrant.LeastBudgetUnique` | internal/keygrant/keygrant.go:42-60 | a set of grants has one ceiling, so input order does not matter |
| `KeyGrant.Plan` | internal/keygrant/keygrant.go:78-91 | revokes exactly the keys no grant gives to by owner, environment and requester, in order, and gives exactly the others with a budgeted grant the budget of the cheapest, ties broken by namespace, name and duration |
| `KeyGrant.PlanMatchesResolver` | internal/keystore/exchangeresolver.go:66-80 | the keys Plan revokes are exactly those the exchange resolver refuses for lack of a grant |
| `KeyGrant.RevokedHasNoCeiling` | internal/keygrant/keygrant.go:75-91 | no revoked key carries a ceiling |
| `KeyGrant.PlanIgnoresOrder` | internal/keygrant/keygrant.go:42-91 | reordering or repeating grants changes neither ceilings nor the revoked keys |
| `KeyGrant.MoreGrantsNeverHurt` | internal/keygrant/keygrant.go:75-91 | adding grants revokes no kept key, removes no ceiling and raises none |
| `ReadCache.ReadCache.Get` | internal/litellm/readcache.go:45-50 | the body kept for the path exactly while it is younger than ttl, and the generation |
| `ReadCache.ReadCache.Store` | internal/litellm/readcache.go:52-58 | stores only under the current generation |
| `ReadCache.ReadCache.Clear` | internal/litellm/readcache.go:60-65 | advances the 64-bit generation and empties the map |
| `ReadCache.ReadCache.MakeRequest` | internal/litellm/restclient.go:111-131 | a body younger than ttl answers without upstream; otherwise upstream answers, only good GET answers are kept, and every write but /tag/info empties the cache even when it failed |
| `ReadCache.AnsweredIffAvailable` | internal/litellm/readcache.go:45-65 | in every interleaving a GET is answered without a fetch of its own exactly when a body of its path was stored less than ttl ago and no drop has come since, and with such a body |
| `ReadCache.FailedStays` | internal/litellm/restclient.go:111-131 | in every interleaving a GET whose fetch failed is never answered and changes nothing in the cache |
| `ReadCache.ApplyGuarded` | internal/litellm/readcache.go:45-65 | every step of concurrent GETs and writes keeps: the generation counts the drops modulo 2^64, each GET holds the one it read, and a fetch no drop has overtaken began after every returned write had ended upstream |
| `ReadCache.ApplyKeeps` | internal/litellm/readcache.go:18-21 | every step, a store only while fewer than 2^64 drops have overtaken its GET, also keeps every cached body's fetch begun after every returned write had ended upstream |
| `ReadCache.ReadAfterWrite` | internal/litellm/readcache.go:45-65 | in every interleaving in which fewer than 2^64 drops overtake any one GET, a GET that begins after a write returned yields a body of its own path whose fetch began no earlier than that write's upstream call ended |
| `ReadCache.WrapTakesAWord` | internal/litellm/readcache.go:52-65 | in every run, the generation test passes a fetch that a returned write has overtaken only after 2^64 drops during that GET |
| `ReadCache.WrapReadsStale` | internal/litellm/readcache.go:52-65 | from any state in which that has happened, some continuation reads a body fetched before a returned write had ended |
| `ReadCache.ReadsStaleAfterAWord` | internal/litellm/readcache.go:52-65 | such a run exists |
| `OrphanTick.Reaper.CollectUser` | internal/orphan/runnable.go:241-274 | the gates of pass 1 in loop form collect the orphans of one user in order |
| `OrphanTick.Reaper.Collect` | internal/orphan/runnable.go:210-275 | pass 1 over all users; the first failed listing fails the pass |
| `OrphanTick.Reaper.PreviewDryRun` | internal/orphan/runnable.go:383-389 | counts every candidate and nothing else |
| `OrphanTick.Reaper.RevokeAll` | internal/orphan/runnable.go:349-375 | one call per candidate in order, each counted as revoked or failed |
| `OrphanTick.Reaper.TickOnce` | internal/orphan/runnable.go:186-376 | the calls and counters of a whole tick |
| `OrphanTick.CollectedSound` | internal/orphan/runnable.go:218-275 | pass 1 succeeds exactly when every listing does, and its candidates are exactly the listed keys with an unmanaged ACH id, this release's issuer and more than ten minutes of age |
| `OrphanTick.TickRevokes` | internal/orphan/runnable.go:276-353 | a tick calls LiteLLM exactly when it is not a dry run, everything was listed, something is managed and the untracked keys are at most MaxRevoke, ten when that is not positive; then once for each of them and for nothing else |
| `OrphanTick.TickCounts` | internal/orphan/runnable.go:276-389 | what a tick adds to each counter, in terms of the number of untracked keys listed, the limit and the calls that succeed |
| `OrphanTick.UnstampedSpared` | internal/orphan/runnable.go:246-259 | keys without this release's id and issuer are never orphans, exactly when the release's issuer is not empty |
| `OrphanTick.CandidatesConserved` | internal/orphan/runnable.go:276-389 | over every history of ticks candidates = revoked + failed + empty-set + breaker (dry-run off) or = dry-run count (on), and calls = revoked + failed, at most MaxRevoke, or ten, per tick |
| `OrphanRun.OrphanIsNotLive` | internal/orphan/runnable.go:17-23 | a key old enough whose id the managed set lacks has no live row when delay plus gap is at most ten minutes |
| `OrphanRun.StepKeepsInv` | internal/orphan/runnable.go:186-275 | every mint, insert, flip and tick step keeps all collected and pending candidates stamped and not live |
| `OrphanRun.ReaperSparesManaged` | internal/orphan/runnable.go:186-275 | at any point of any run each key about to be revoked was minted and stamped by this release and its row is absent or revoked at that moment |
| `OrphanRun.ReaperKeepsLive` | internal/orphan/runnable.go:349-375 | in every run a successful call takes exactly that key from LiteLLM, a failed one none, and no call takes a key whose row is live |
| `OrphanRun.ReaperIsGuarded` | internal/orphan/runnable.go:323-353 | in every run keys are pending only outside dry run and at most MaxRevoke of them, ten when that is not positive |
| `OrphanRun.DelayBoundTight` | internal/orphan/runnable.go:17-23 | for any looser delay and gap there is a run in which a live key is about to be revoked |
| `Classifier.Job.Pass` | ee/classifier/job.go:59-87 | a pass takes as many rows as the batch allows, all if there are fewer, unless cancelled before, and leaves the cursor and failure counts of those rows |
| `Classifier.PassKeepsCovered` | ee/classifier/job.go:68-86 | a pass over any listing keeps the failure counts equal to each session's failures in a row, leaves every row at or before the cursor finished and never moves the cursor back |
| `Classifier.AttemptsWereListed` | ee/classifier/reader.go:66-90 | a pass attempts each row it takes once and in order; none was scored when listed, and all lie past the cursor |
| `Classifier.NothingForgotten` | ee/classifier/job.go:54-87 | at every point of every run each row at or before the cursor is scored, or was itself attempted with success or as the third failure in a row of its session, and the cursor only moves forward |
| `ClassifierProgress.PassProgress` | ee/classifier/job.go:68-86 | a pass with a non-empty listing moves the cursor to or past the front row or raises that row's count, still below 3 |
| `ClassifierProgress.FullPassProgress` | ee/classifier/job.go:59-87 | each uncancelled pass lowers the measure 3 x visible rows - failures of the front row, while scores may become visible meanwhile |
| `ClassifierProgress.ThreePassesEach` | ee/classifier/job.go:39-40 | after 3N passes over N sessions nothing is left to list |
| `ClassifierProgress.GoodLabels` | ee/classifier/job.go:68-86 | when every label succeeds a pass leaves the cursor on the last row it took |
| `ClassifierProgress.BatchesSuffice` | ee/classifier/job.go:59-87 | when every label succeeds, k passes with k x batch >= N leave none of N sessions to list |
| `Paths.CleanShape` | internal/contentkit/skillmarketplace_discover.go:34-40 | cleaning keeps rootedness, and of a relative path leaves "." or a path in reduced form |
| `Paths.CleanKeeps` | internal/contentkit/skillmarketplace_discover.go:34-40 | a path in reduced form is left alone |
| `TarSafety.SafeRelExact` | internal/contentkit/tar_safety.go:117-135 | among names without backslash or volume prefix, exactly the non-empty relative names whose segment walk never goes above the root are accepted |
| `TarSafety.SymlinkTargetExact` | internal/contentkit/tar_safety.go:151-165 | a well-formed relative target is accepted exactly when its walk from the entry's parent never goes above the root |
| `TarSafety.TarEntrySafeExact` | internal/contentkit/tar_safety.go:65-103 | the whole gate, flag by flag: exactly files, links and directories whose name, extended-header path and link target are relative, free of backslashes and drive letters, and never walk above the root, from the entry's own depth for a target |
| `SkillPipeline.RepackedEntry` | internal/contentkit/tar_safety.go:65-103 | a re-packed entry below a skill is safe exactly when its type needs no link target and its name has no backslash, and is the manifest exactly when it is <dir>/SKILL.md |
| `SkillVerify.ValidNameIsSegment` | internal/contentkit/skill_verify.go:61-88 | a valid skill name is a safe single path segment |
| `SkillVerify.ValidNameExact` | internal/contentkit/skill_verify.go:61-88 | the names are exactly those of 1 to 64 lower-case letters, digits and hyphens with no hyphen first, last or twice in a row |
| `SkillVerify.FencedDocument` | internal/contentkit/skill_verify.go:159-174 | after a byte-order mark and blanks, what stands between the fences is handed to the decoder unchanged |
| `SkillVerify.FrontmatterExact` | internal/contentkit/skill_verify.go:159-174 | front matter is found exactly when the text is such a fenced document that decodes |
| `SkillVerify.SizeExact` | internal/contentkit/skill_verify.go:98-123 | each entry counts a header block and the least whole blocks that hold its body, and two blocks end the archive |
| `SkillVerify.VerifySkillContents` | internal/contentkit/skill_verify.go:98-157 | succeeds exactly for an archive of at most 100,000 entries and 1 GiB, every entry of which passes the gate, whose first SKILL.md at the root or one directory down has a fenced document, in its first MiB, with a valid name and a description of 1 to 1024 characters |
| `SkillTree.DetectArchiveRoot` | internal/contentkit/skillmarketplace_discover.go:69-85 | the early-returning loop computes the recursive definition that DetectMeaning characterises |
| `SkillTree.FoundMeans` | internal/contentkit/skillmarketplace_discover.go:113-149 | discovery finds exactly the directories holding a skill, each with its last manifest and named after it, and fails exactly past 2000 of them |
| `SkillPipeline.SkillAtExact` | internal/contentkit/skillmarketplace_discover.go:113-149 | an entry is a skill exactly when it is the regular SKILL.md of a directory below the sub-path whose front matter is valid and names that directory |
| `SkillTree.DiscoverSkillsInTree` | internal/contentkit/skillmarketplace_discover.go:100-156 | returns the detected root and those skills sorted by name |
| `SkillTree.SliceSubtree` | internal/contentkit/skillmarketplace_discover.go:212-282 | the copying loop with its size and emptiness errors |
| `SkillTree.SlicedExact` | internal/contentkit/skillmarketplace_discover.go:212-282 | a slice holds exactly the entries of the subtree, in order, each with its body and type under its new name and without link target or extended header; it fails exactly when one of them is a file over the limit |
| `SkillTree.EmptyExact` | internal/contentkit/skillmarketplace_discover.go:276-282 | it is refused as empty exactly when nothing lies in the subtree |
| `SkillPipeline.SliceVerifiesExactly` | internal/contentkit/skillmarketplace_discover.go:191-282 | slicing a skill directory and verifying the result succeeds exactly when the files are within the size cap, the entries plain, the archive within the caps and the first manifest valid |
| `SkillPipeline.DiscoveredSkillVerifies` | internal/contentkit/skillmarketplace_discover.go:87-156 | every discovered skill of a well-formed tree, sliced with the returned root and the same sub-path, passes verification |
| `SubPaths.SubPathOuter` | internal/contentkit/skillmarketplace_discover.go:45-51 | outer blanks and a leading slash do not change the normalised sub-path |
| `SubPaths.BlankStays` | internal/controller/ach/skillmarketplace_controller.go:369-375 | a sub-path that does not lead out of the archive either reduces to the same segments trimmed or not, or keeps a segment edged with a blank |
| `SubPaths.KeptIsPublished` | internal/controller/ach/skillmarketplace_controller.go:369-382 | over any archive with unique files, a discovered well-formed skill is published whenever trimming blanks and slashes off the sub-path changes nothing that cleaning would not |
| `SubPaths.PublishedIffKept` | internal/controller/ach/skillmarketplace_controller.go:369-382 | for every sub-path over an archive of relative names without blank-edged segments, only then; otherwise its slice is empty |
| `SubPaths.SlashSkillsIsEmpty` | internal/controller/ach/skillmarketplace_controller.go:369-378 | the archive of README.md and skills/pdf/SKILL.md under "/skills": the skill is discovered and its slice is the empty-subtree error |
| `SliceLaws.SliceComposes` | internal/contentkit/skillmarketplace_discover.go:212-282 | slicing a then b with the prefix stripped is slicing a/b, result for result, when the first succeeds |
| `SliceLaws.DetectMeaning` | internal/contentkit/skillmarketplace_discover.go:66-85 | for clean relative names the detected root is the first segment all of them share |
| `SliceLaws.WrapperIndependence` | internal/contentkit/skillmarketplace_discover.go:69-156 | wrapping a tree without a common root in one directory makes that directory the root and changes no discovered skill for any sub-path |
| `SpendWindow.YearLength` | internal/litellm/tags.go:164-164 | the calendar the month step uses has years of 365 and 366 days |
| `SpendWindow.MonthsBackExact` | internal/litellm/tags.go:155-164 | from local midnight on the 1st, n months back is local midnight on the 1st n months earlier at the same offset exactly when the zone is at most 12 h ahead of UTC or two month lengths agree |
| `SpendWindow.ForwardReturns` | internal/litellm/tags.go:155-164 | n months forward from where n months back landed is the reset again exactly when the zone is at most 12 h ahead of UTC or the month before the reset is no longer than the month before the start |
| `SpendWindow.CycleStart` | internal/litellm/tags.go:141-177 | "Nmo", or "30d" as one month, yields the later of that date and creation |
| `SpendWindow.FixedCycleStart` | internal/litellm/tags.go:165-177 | weeks, other days, hours, minutes and seconds: the cycle began that long before the reset, or at creation if later |
| `SpendWindow.NoCycleStart` | internal/litellm/tags.go:141-151 | without a budget or a reset spend counts from creation; what does not parse leaves the start unknown |
| `SpendWindow.FarEastMarch` | internal/litellm/tags.go:159-164 | 13 hours ahead of UTC, a reset on 1 March of a common year is traced to 29 January |
| `Cursor.DecodeEncode` | internal/db/personal_keys.go:59-76 | unpadded URL-safe base64 decodes to what was encoded, for every byte string |
| `Cursor.DecodesExact` | internal/db/personal_keys.go:69-76 | a token decodes exactly when, line breaks apart, it is of the URL-safe alphabet and not one character over a multiple of four |
| `Cursor.CursorRoundTrip` | internal/db/personal_keys.go:56-86 | a cursor made from a NUL-free timestamp text and any id decodes to that time and id and is never empty |
| `Cursor.CursorExact` | internal/db/personal_keys.go:66-86 | a token reads as a position exactly when it holds a time that parses, a NUL and the id; the empty token reads as none and any other is an error |
| `Pages.ClampLimit` | internal/db/personal_keys.go:45-54 | a limit from 1 to 500 is kept, one that is not positive becomes 100, a larger one 500 |
| `Pages.SelectedExact` | internal/db/keys_list.go:66-92 | what is listed: the keys of both tables with their derived status (expired past the expiry or, for an active personal key, past 90 days) that the filter lets pass |
| `Pages.ListingExists` | internal/db/keys_list.go:84-92 | every set of items with distinct positions has a descending listing |
| `Pages.Paginate` | internal/db/paginate.go:17-45 | the page is the first limit rows, with a cursor on its last row exactly when a further row was seen |
| `Pages.ListKeys` | internal/db/keys_list.go:37-126 | a malformed token is an error; any other yields the page past its position |
| `PageWalk.WalkListsAll` | internal/db/keys_list.go:37-126 | over rows whose times read back from their text, a walk that ends has fetched every row of the listing once, in order |
| `PageWalk.WalkEndsIff` | internal/db/keys_list.go:44-49 | the walk ends exactly when no page is asked for with Go's zero time while that is read as no cursor |
| `PageWalk.TwoAtZeroNeverEnds` | internal/db/keys_list.go:44-49 | two personal keys at the zero time, one per page: the walk never ends |
| `PageWalk.EveryTablePages` | internal/db/keys_list.go:66-126 | for every table, time, filter and limit without zero times, whose times read back from their text, the walk ends and its pages concatenate to the full ordered listing |

## Left out

- HTTP servers, routers, proxies, audit events, Prometheus registration and access logs: plumbing without a hard invariant.
- Cryptography: hashes are injective, and verifying an exchange JWT yields its subject and exp or refuses.
- The OAuth resolver inside the exchange resolver, and the extend hook that mirrors an expiry to LiteLLM.
- Answers of the resolver that are not cache hits: a slow caller may return a fill it read earlier.
- KeyCache.CachedResolver.Fill: does not model Redis rounding a lifetime to whole milliseconds; that rounding counts into delta.
- ReaperSparesManaged: LiteLLM's created_at and the operator's clock are one clock.
- LiteLLM's listing pages and its caching by the read cache: a listing is any keys ever minted for the user, a superset.
- NothingForgotten: assumes new sessions appear past the cursor; a session that resumes is a new row.
- ThreePassesEach: assumes one row per session id and a fixed population, as the listing's GROUP BY and the claim itself do.
- SpendWindowStart: texts arrive parsed, durations do not wrap at 64 bits, and a parsed offset is not mapped to the process's local zone.
- WalkEndsIff: formatting and parsing of RFC 3339 timestamps is a parameter, required to round-trip for the times of the listed rows only.
- WalkListsAll: key ids are compared byte by byte, where a database collation may order them otherwise; any strict total order would do.
- VerifySkillContents: a header takes one block; extended headers for long names, which would count towards the byte cap, are not modelled.
- SliceSubtree: does not model the tar writer's own refusals of unusual header types.
- PublishedIffKept: archive names are relative and no segment of them begins or ends with a blank, since otherwise the joined path may name a second skill; where names lead out of the archive, sub-paths with outer blanks are left out for the same reason.
- gzip and tar encoding, git subprocesses, the file system and on-disk symlink resolution.
- The other LiteLLM helpers, the CRUD projections and the console: they would only add easy members.
