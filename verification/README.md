# Verified models of the operational scripts and front-end infrastructure

This project models, in Dafny, the parts of the School OS repository whose correctness depends on
loops over shared state, on interleavings, or on hand-written scanning, and proves what those parts
promise for every input, every run and every reachable state.

`dafny verify dfyconfig.toml` checks everything. The modules follow the source files:

- `Text`, `Utf8`, `Decimal`: the JavaScript primitives the scripts stand on. `split`/`join`, UTF-16
  strings against UTF-8 bytes (RFC 3629, with the replacement of unpaired surrogates and ill-formed
  subparts), and decimal numerals.
- `Cipher`: hex (section 8 of RFC 4648) and the `iv:tag:ciphertext` text format, over any authenticated
  cipher that obeys the inverse law of section 7 of NIST SP 800-38D.
- `KeyRing`: key references and the two environment loaders.
- `Rotation`, `RotationRun`: key rotation of three tables. `Rotation` says what a partial rotation is
  and why it never loses a plaintext; `RotationRun` holds the loops over an updated table.
- `MfaMigration`: the one-time encryption of plaintext MFA secrets, and later rotations of them.
- `LeaseLock`, `LeaseRace`: the coverage lock as whole commands, and with reads and writes apart.
- `ServiceWorker`: the offline cache, with fetches and unawaited cache writes as separate steps.
- `PostMigrate`: runs of the post-migrate runner that may stop between executing and recording.
- `Scanners`: the top-level comma splitter and the walk to a matching close.
- `Complexity`, `Messages`: the two tree computations.
- `Tiers`, `TierRoutes`: the import rule over any tier map and whitelist, and route scoping over any lists.
- `Backfill`: the permission backfill over roles that several tenants share.

## What the code does that one might not expect

- A live rotation ends exactly when every selected row can be re-encrypted. One row with a missing
  key, a broken ciphertext or (for staff) no encrypted field is selected for ever, because the live loop
  never advances its offset; `docs/operations/key-rotation-runbook.md:194-198` instead expects the
  rotation to end with such rows left over and to be run again. Fifty or more of them in front starve
  every row behind them, and one of them keeps the tables after its own from being rotated at all.
- Encrypting and decrypting returns the string for every string without unpaired surrogates, and for
  no other: `Cipher.LoneSurrogateIsLost` gives one that is changed. Whatever was read from a
  ciphertext is well formed, so rotation itself never loses anything.
- Where rotation refuses a current version that is not loaded, the MFA loader goes on: with the legacy
  key if one is set, labelled version 1 even where version 1 is another key, and with version 1 otherwise.
  `KeyRing.LoadMislabelledKey` gives the input, and `MfaMigration.MislabelledSecretIsStuck` what follows.
- A heartbeat on a foreign lock that has run out takes it over and keeps its old acquisition time,
  unlike an acquire.
- Leases hold exactly as long as no command changes a lock file that by then holds an unexpired lease of
  another session. Nothing in the script prevents that: two sessions that both read a lock as free both
  come away holding it, and a cleanup can delete a lease taken since it looked.
- An API entry older than five minutes is served all the same: both branches return it.
- An unmatched opening delimiter makes all three scanners drop the last character of the text.
- The tier check accepts every import between Tier 3 modules; the header comment at
  `scripts/check-module-tiers.js:8` allows whitelisted ones only. The code is followed.
- The list of out-of-scope route prefixes never influences an answer.
- Dotted or leading empty message keys can make one message hide another; `Messages.FlatteningIsFaithful` says
  exactly when flattening loses nothing.

## Model

| member | source | states |
|---|---|---|
| Text.JoinOfSplit | scripts/rotate-encryption-key.ts:91 | joining what a split returns gives the string back, and no part holds the separator |
| Text.SplitLength | scripts/rotate-encryption-key.ts:91-96 | a split has one part more than there are separators |
| Text.SplitIsTheOnlyDecomposition | apps/web/i18n/tier-routes.ts:83 | a list of parts is the split of a string iff it is non-empty, separator-free and joins to that string |
| Utf8.DecodeOfEncode | scripts/rotate-encryption-key.ts:85 | writing any string as UTF-8 and reading it back replaces unpaired surrogates and nothing else |
| Utf8.RepairedIffIllFormed | scripts/rotate-encryption-key.ts:85 | that replacement is the identity on exactly the strings without unpaired surrogates |
| Utf8.DecodedIsWellFormed | scripts/rotate-encryption-key.ts:105 | any bytes whatever, valid UTF-8 or not, are read as a string without unpaired surrogates |
| Utf8.StrayByteIsReplaced | scripts/rotate-encryption-key.ts:105 | a byte that begins no character, or whose successor does not fit it (overlong forms, surrogates, above U+10FFFF), is replaced alone and reading resumes right after it |
| Utf8.TruncatedCharacterIsReplaced | scripts/rotate-encryption-key.ts:105 | any character cut short is replaced as a whole by one U+FFFD |
| Utf8.EncodeIsNoShorter | packages/prisma/scripts/backfill-tenant-communications-configs.ts:64 | a string never has more code units than its UTF-8 form has bytes |
| Cipher.HexRoundTrip | scripts/rotate-encryption-key.ts:98-100 | reading back hex gives the bytes; hex is twice as long and has no colon in it |
| Cipher.HexIsPositional | scripts/rotate-encryption-key.ts:87 | byte i is the two lower-case digits at 2i and 2i + 1, the higher half first |
| Cipher.HexIgnoresCase | scripts/rotate-encryption-key.ts:98-100 | upper-case hex gives the same bytes |
| Cipher.HexStopsAtJunk | scripts/rotate-encryption-key.ts:98-100 | reading stops silently where two hex digits no longer follow |
| Cipher.EncryptedParts | scripts/rotate-encryption-key.ts:87-92 | splitting an encrypted text on colons gives exactly the iv, the tag and the body |
| Cipher.DecryptOfEncrypt | scripts/rotate-encryption-key.ts:82-106 | decryption succeeds on every encrypted text and returns the plaintext with unpaired surrogates replaced |
| Cipher.DecryptNeedsTwoColons | scripts/rotate-encryption-key.ts:91-96 | any text without exactly two colons is an error |
| Cipher.DecryptOfParts | scripts/rotate-encryption-key.ts:98-105 | with two colons the result is what the cipher opens from the bytes of the three fields, or its error |
| Cipher.RoundTripIffWellFormed | packages/prisma/scripts/backfill-tenant-communications-configs.ts:61-83 | decryption returns the plaintext itself iff it has no unpaired surrogate |
| Cipher.LoneSurrogateIsLost | packages/prisma/scripts/backfill-tenant-communications-configs.ts:64 | the one-unit string D83D comes back as U+FFFD under every key and iv, so the round trip fails for some strings |
| Cipher.DecryptedIsWellFormed | scripts/rotate-encryption-key.ts:105 | whatever decryption returns is well formed, also from text that nobody encrypted here |
| Cipher.ReencryptionIsLossless | scripts/rotate-encryption-key.ts:162-165 | decrypting under the old key and encrypting under the new one loses nothing, for every readable text |
| Cipher.EncryptedLength | packages/prisma/scripts/backfill-tenant-communications-configs.ts:61-70 | the length is 58 plus two per byte of UTF-8, and so more than twice the input's |
| Cipher.EncryptedShapeHolds | packages/prisma/scripts/backfill-tenant-communications-configs.ts:183-194 | the regression guard never trips on what the encryptor produced |
| Cipher.ShapeErrors | packages/prisma/scripts/backfill-tenant-communications-configs.ts:183-194 | the guard's first error is exactly for the plaintext itself, its second for anything else without exactly two colons |
| Cipher.ParseKeyOfHex | packages/prisma/scripts/backfill-tenant-communications-configs.ts:52-57 | every 32-byte key is accepted as its 64 hex characters, and read as that key |
| Cipher.KeysHaveThirtyTwoBytes | scripts/rotate-encryption-key.ts:52-55 | hex of any bytes, whatever non-hex follows it, is a key iff there are 32 of them |
| Decimal.ValueOfPrint | scripts/rotate-encryption-key.ts:365 | a printed number is one or more digits that denote it |
| Decimal.PrintOfValue | scripts/rotate-encryption-key.ts:365 | a numeral without leading zeros is what its value prints as, so printing is one-to-one onto these |
| Decimal.ParseIntOfDigits | scripts/rotate-encryption-key.ts:109-111 | `parseInt` of a digit string is what the digits denote, leading zeros included |
| Decimal.ParseIntOfNumeral | scripts/rotate-encryption-key.ts:364 | white space, an optional sign and digits give the signed value, whatever follows the digits |
| Decimal.ParseIntOfNoNumeral | scripts/rotate-encryption-key.ts:364 | without a digit after the space and the sign it is NaN |
| KeyRing.KeyRefRoundTrip | scripts/rotate-encryption-key.ts:108-118 | reading the reference written for a version gives that version |
| KeyRing.KeyRefOfDigits | scripts/rotate-encryption-key.ts:109-112 | `v` and digits mean what the digits denote |
| KeyRing.OtherKeyRefsMeanVersionOne | scripts/rotate-encryption-key.ts:113-117 | `aws`, `local` and every other text mean version 1 |
| KeyRing.LoadKeys | scripts/rotate-encryption-key.ts:46-78 | succeeds iff the environment holds a gapless run of good keys from 1 or one good legacy key, and returns exactly those; each error says why |
| KeyRing.LegacyKeyIsTheFirstSet | scripts/rotate-encryption-key.ts:61-62 | the second legacy variable counts only when the first is unset; an empty first one hides it |
| KeyRing.CurrentVersionIs | scripts/rotate-encryption-key.ts:364 | unset means 1; a printed version is read back, whatever non-digit follows it |
| KeyRing.BadKeyBlocksLoading | scripts/rotate-encryption-key.ts:49-57 | one ill-sized key inside the run makes every key map wrong |
| KeyRing.LoadEncryptionKey | scripts/migrate-mfa-secrets.ts:26-68 | picks rotation's current key and version in every environment rotation accepts; for every environment that holds keys, returns a key that rotation loads under that very version unless, and only unless, the version asked for is not loaded and a legacy key is set that is not version 1's; says exactly what is returned when it is not loaded |
| KeyRing.LoadMislabelledKey | scripts/migrate-mfa-secrets.ts:46-52 | with version 1 set, another legacy key set and current version 2, the legacy key is returned as version 1, for any two different keys |
| Rotation.ResealedReadsSame | scripts/rotate-encryption-key.ts:161-175 | a re-encrypted field reads as before under the key that its row now names; an absent one stays absent |
| Rotation.ReencryptionKeepsPlaintexts | scripts/rotate-encryption-key.ts:224-262 | a re-encrypted row reads as before in all fields and leaves the query |
| Rotation.AttemptsMean | scripts/rotate-encryption-key.ts:152-184 | a row fails iff its version's key is loaded and decryption under it refuses a column in use; it is skipped iff that key is not loaded, or (staff) is loaded and both columns are absent or empty; in use means stored, and for staff not empty |
| Rotation.SelectedAreOutdated | scripts/rotate-encryption-key.ts:291-296 | selected are the rows that name another key than the current one; of users, those that have a secret |
| Rotation.ProgressKeepsPlaintexts | scripts/rotate-encryption-key.ts:150-185 | after any part of a live rotation every row of the table reads as before |
| Rotation.ProgressComposes | scripts/rotate-encryption-key.ts:309-343 | stopping anywhere and rotating again amounts to one partial rotation of the original table |
| Rotation.CompletedRotationIsStable | scripts/rotate-encryption-key.ts:134-147 | when nothing is selected any more, no further rotation changes any row |
| Rotation.SelectedIdsAre | scripts/rotate-encryption-key.ts:206-219 | the query returns all selected rows, no others, each once, in table order |
| Rotation.RankOf | scripts/rotate-encryption-key.ts:143-144 | a selected row's offset in the query is the number of selected rows before it |
| Rotation.DeselectOne | scripts/rotate-encryption-key.ts:167-177 | overwriting a selected row with a rotated one shrinks the query by exactly one |
| Rotation.TallyIsBalanced | scripts/rotate-encryption-key.ts:148-184 | total = rotated + skipped + failed for any outcomes |
| RotationRun.PageOf | scripts/rotate-encryption-key.ts:135-147 | a page holds selected rows only, in table order without repetition, and is as long as the query allows: empty exactly when the offset has passed the last selected row |
| RotationRun.PageRanks | scripts/rotate-encryption-key.ts:143-144 | the rows of a page at offset `skip` are those with `skip`, `skip` + 1, … selected rows before them, so successive pages leave no row out and repeat none |
| RotationRun.ReencryptRow | scripts/rotate-encryption-key.ts:237-250 | every present field is its old plaintext under the current key and a fresh iv, the others are untouched, the reference is current |
| RotationRun.ProcessRow | scripts/rotate-encryption-key.ts:150-185 | one row's outcome, with the exact conditions for failing and for being skipped; one stored row changes iff live and rotated, and then the query shrinks by one |
| RotationRun.ProcessBatch | scripts/rotate-encryption-key.ts:224-270 | the counters tally each row of the batch tried once; live, exactly its ready rows are re-encrypted and the query shrinks by the rotated count; every intermediate table is a partial rotation |
| RotationRun.RotateTable | scripts/rotate-encryption-key.ts:124-193 | live: ends iff every selected row is ready, after one more query than batches, with nothing selected and all counted as rotated, and in any case rotates every ready row that is not behind a full batch of stuck rows and no row that is, counting as rotated exactly the rows that left the query; dry: always ends, changes nothing, counts each selected row once; every table state in between is a partial rotation |
| RotationRun.RotateAll | scripts/rotate-encryption-key.ts:361-420 | the three tables one after the other, each with its own outcome; a live run ends iff every selected row of all three is ready, and one row that cannot be rotated leaves the tables after it untouched for ever |
| RotationRun.DryRunCounts | scripts/rotate-encryption-key.ts:131-190 | a finished dry run counts as total the outdated rows, as skipped those without a loaded key or anything to encrypt, as failed those with a refused column |
| RotationRun.EndedRunIsComplete | scripts/rotate-encryption-key.ts:131-190 | after an ended live run no row is outdated and each that was is re-encrypted; ended or not, every other row is as before |
| RotationRun.StuckStaysSelected | scripts/rotate-encryption-key.ts:280-351 | with one selected row that cannot be rotated, no reachable state of a live run has an empty query |
| RotationRun.StuckAmongSelected | scripts/rotate-encryption-key.ts:155-159 | all selected rows are ready iff none is stuck; if no row is ready the selected ones are exactly the stuck ones |
| RotationRun.FirstBatchSparesStarved | scripts/rotate-encryption-key.ts:195-278 | no row behind fifty stuck rows is ever in a live batch |
| RotationRun.FirstBatchReaches | scripts/rotate-encryption-key.ts:195-278 | while some ready row is not starved, the next live batch has a ready row in it |
| RotationRun.BatchMovesOn | scripts/rotate-encryption-key.ts:134-190 | so every live batch rotates something until all that can be reached is rotated |
| RotationRun.LiveStep | scripts/rotate-encryption-key.ts:134-190 | one live turn keeps the loop's invariant: plaintexts, starved rows, counters, and the query's size |
| RotationRun.DryStep | scripts/rotate-encryption-key.ts:187-189 | one dry turn extends the tally of the first rows of the query by exactly the next page |
| RotationRun.ForeseenIfAllReady | scripts/rotate-encryption-key.ts:131-190 | a dry run over all selected rows counts no skip and no failure iff every selected row is ready |
| RotationRun.DryRunForetellsLiveRun | scripts/rotate-encryption-key.ts:131-190 | given a finished dry run and a live run over the same rows, watched for more turns than there are batches: the live run ends iff the dry run counted no skip and no failure, and then both report the same totals |
| MfaMigration.MigrateSecrets | scripts/migrate-mfa-secrets.ts:80-135 | encrypts exactly the non-empty plaintext secrets under the loaded key, counts them and leaves all other rows, and every state stored on the way is part of that migration; uses rotation's current key wherever rotation would run, some key under rotation's own version unless the current version is missed and a legacy key is set, and then the legacy key labelled version 1 |
| MfaMigration.InterruptedMigrationIsResumed | scripts/migrate-mfa-secrets.ts:112-133 | after a stop or failures anywhere, a whole migration under whatever key encrypts each pending secret exactly once, those already encrypted keeping what they have; under the same key the two are one migration |
| MfaMigration.SecondMigrationIsNoop | scripts/migrate-mfa-secrets.ts:89-133 | a second migration, with any key, changes nothing |
| MfaMigration.MigrationLeavesNoPlaintext | scripts/migrate-mfa-secrets.ts:90-124 | no non-empty secret is left without a key reference; rows with a reference, without a secret or with an empty one are untouched; changed rows name the version used |
| MfaMigration.PendingAreCounted | scripts/migrate-mfa-secrets.ts:109-126 | the reported count is the number of non-empty secrets that had no key reference |
| MfaMigration.MigratedSecretReads | scripts/migrate-mfa-secrets.ts:112-124 | a migrated secret reads as the original with unpaired surrogates replaced |
| MfaMigration.MigratedSecretSurvivesRotation | scripts/migrate-mfa-secrets.ts:90-133 | after the migration and any part of any rotation a secret reads as the original iff the original has no unpaired surrogate |
| MfaMigration.MislabelledSecretIsStuck | scripts/migrate-mfa-secrets.ts:46-53 | a secret sealed under a legacy key and labelled version 1, where rotation knows version 1 by a key that refuses it, cannot be read and keeps every live rotation to another version from ending |
| Cipher.WrongKeyIsRefused | scripts/migrate-mfa-secrets.ts:70-76 | text encrypted under a key whose ciphertexts another key refuses is an error under that other key |
| LeaseLock.BackedIsExclusive | scripts/coverage-lock.ts:302-412 | if every unexpired lease is what the lock file says, no target has two holders |
| LeaseLock.DecisionKeepsLeases | scripts/coverage-lock.ts:302-412 | acting on an up-to-date reading keeps every lease backed and never changes a foreign unexpired record |
| LeaseLock.SweepKeepsLeases | scripts/coverage-lock.ts:455-461 | removing a lock that has run out keeps every lease backed |
| LeaseLock.AcceptedTimesArePositive | scripts/coverage-lock.ts:95-104 | whatever the two numeric flags, accepted options have a positive term and a positive poll interval, as waiting requires |
| LeaseLock.PrintedTimesAreAccepted | scripts/coverage-lock.ts:95-104 | every positive term and interval can be asked for in decimal and is what is then used |
| LeaseLock.DefaultTimes | scripts/coverage-lock.ts:51-52 | without flags the term is 300 seconds and the poll interval 60 |
| LeaseLock.RefusedTimes | scripts/coverage-lock.ts:95-104 | a flag is refused iff it is non-empty and not a number, or not positive; an empty one means the default |
| LeaseLock.LockDirectory.Attempt | scripts/coverage-lock.ts:359-412 | one acquire, heartbeat or release: the new lock files and leases, all leases backed, nothing written over a foreign unexpired record |
| LeaseLock.LockDirectory.AcquireLock | scripts/coverage-lock.ts:302-357 | with nobody else writing, a waiting acquire always ends holding the lock, for exactly its term from its heartbeat, after at most ceil(remaining lease / poll) sleeps; a refresh keeps what the options leave open, an acquire or reclaim starts afresh; without waiting it fails only by changing nothing |
| LeaseLock.LockDirectory.HeartbeatLock | scripts/coverage-lock.ts:359-382 | renews the session's own lease for a full term from now, or takes over one that has run out, keeping acquisition time and whatever the options leave open; answers NoLock iff there is no file; leaves a foreign lease alone |
| LeaseLock.LockDirectory.ReleaseLock | scripts/coverage-lock.ts:384-412 | removes the session's own lock, or one that has run out, and the session's lease with it; answers AlreadyFree iff there is no file; leaves a foreign lease alone |
| LeaseLock.LockDirectory.Cleanup | scripts/coverage-lock.ts:455-469 | removes every lock that had run out before it began and none that is still unexpired at its end; leases stay backed |
| LeaseRace.RunKeepsMirrored | scripts/coverage-lock.ts:165-228 | in every run, racing or not, each unexpired record is a lease its session believes to hold, with the same expiry |
| LeaseRace.UninterruptedCommand | scripts/coverage-lock.ts:165-228 | a command whose read and write nothing comes between does what the whole command does, and a sweep removes the lock iff it has run out |
| LeaseRace.StepKeepsBackedIff | scripts/coverage-lock.ts:334-336 | one step keeps every unexpired lease what the lock file says iff it does not clobber, that is, change the file while it holds an unexpired lease of another session |
| LeaseRace.SoundThroughoutIffUnclobbered | scripts/coverage-lock.ts:165-228 | over every run, with reads and writes of any commands interleaved: all unexpired leases are what the lock files say throughout iff no step clobbers |
| LeaseRace.UnclobberedRunIsExclusive | scripts/coverage-lock.ts:302-412 | throughout every run in which no step clobbers, no target has two unexpired holders |
| LeaseRace.ClobberingWriteBreaksExclusion | scripts/coverage-lock.ts:334-336 | a clobbering write of an unexpired record, be it an acquire, a reclaim or a heartbeat, gives the target two holders at once |
| LeaseRace.ClobberingOpensTheTarget | scripts/coverage-lock.ts:405 | after any other clobbering, such as a release or cleanup of a record written since it was read, the next acquire by any other session makes a second holder |
| LeaseRace.UnracedIsUnclobbered | scripts/coverage-lock.ts:308-334 | only a command that acts on an outdated reading can clobber |
| LeaseRace.UnracedRunIsExclusive | scripts/coverage-lock.ts:217-221 | hence every run in which no command acts on an outdated reading keeps mutual exclusion |
| LeaseRace.OwnRaceIsHarmless | scripts/coverage-lock.ts:322-324 | but not only those: a command of the session that the file names keeps every lease what the file says, however outdated its reading |
| LeaseRace.SerialRunIsUpToDate | scripts/coverage-lock.ts:165-228 | when read-write windows on a target never overlap, every pending reading is still what the file holds |
| LeaseRace.SerialRunIsUnraced | scripts/coverage-lock.ts:165-228 | hence such runs, whole commands one after another among them, are without races |
| LeaseRace.ForeignStepLeavesRecord | scripts/coverage-lock.ts:359-412 | short of a race an unexpired record is changed only by a command of its own session |
| LeaseRace.RaceIsReachable | scripts/coverage-lock.ts:308-320 | from an empty directory four steps of any two sessions lead there, so the condition is needed |
| ServiceWorker.FamiliesAreDisjoint | apps/web/public/sw.js:21-49 | no URL belongs in two of the three caches |
| ServiceWorker.RoutesByFamily | apps/web/public/sw.js:82-122 | each strategy has its own GET requests, whatever the order of the tests: cacheable API reads outside the forbidden paths, visits of cacheable pages, build assets, and other visits |
| ServiceWorker.ArrivalStarts | apps/web/public/sw.js:82-122 | page visits and build assets start with a look in the caches, API reads and other visits with a fetch, all else is not handled |
| ServiceWorker.LookAnswers | apps/web/public/sw.js:126-194 | a build asset in the static cache is answered and done with; a page in its cache is answered and revalidated; an API read that failed gets its entry whatever its age, or 503; what is not found is fetched |
| ServiceWorker.NetworkAnswerIsKept | apps/web/public/sw.js:130-183 | a network answer is passed on, unless the page was answered already, and if OK leaves exactly one new pending write of that response for that URL in the cache of the strategy, API responses with their time |
| ServiceWorker.FailureAnswers | apps/web/public/sw.js:116-200 | a failed API read turns to its cache, a failed build asset is 503, a failed visit gets the offline page, a failed revalidation nothing |
| ServiceWorker.LandedIsFound | apps/web/public/sw.js:134-181 | after a write has landed its URL is found in its cache with exactly that response and every other lookup is as before |
| ServiceWorker.GlobalMatchIsStaticLookup | apps/web/public/sw.js:126-128 | in every good state the search through all caches equals a lookup in the static cache, for build assets and precached paths |
| ServiceWorker.StepKeepsInv | apps/web/public/sw.js:53-200 | every step of any request or pending write, and every later installation or activation between them, keeps caches, pending writes and answers good: OK responses fetched for that same URL, within the cache's family, timestamped in the API cache |
| ServiceWorker.StartIsGood | apps/web/public/sw.js:53-78 | after installation and activation, over caches of this version as well, the other versions' caches are gone, this version's entries are kept, all precached paths are stored, and the state is good |
| ServiceWorker.ActivationKeeps | apps/web/public/sw.js:62-78 | activation leaves the three caches of this version as they were and no others |
| ServiceWorker.NextGenerationIsAdmissible | apps/web/public/sw.js:53-78 | what any state of any run leaves in the caches is something the next installation may start from, so all of this holds over any number of installations |
| ServiceWorker.RunKeepsInv | apps/web/public/sw.js:82-200 | every state of every interleaving after activation is good |
| ServiceWorker.NeverCachedIsNeverKey | apps/web/public/sw.js:90-92 | no authentication or PDF path is ever a key in any cache |
| ServiceWorker.EntriesNeverVanish | apps/web/public/sw.js:53-200 | once stored, a URL stays stored in every later state, later installations and activations included |
| ServiceWorker.OfflineReadIsServed | apps/web/public/sw.js:184-194 | an offline API read of a URL stored at any earlier time is answered with the entry then present, whatever its age |
| ServiceWorker.ReadOnlineReadOffline | apps/web/public/sw.js:167-194 | once an OK answer to an API read has been written, every later read of that URL whose fetch fails is answered from the cache with an OK response for that URL, and with that very response unless another write to the entry has landed since |
| ServiceWorker.OfflinePageIsAlwaysFound | apps/web/public/sw.js:164 | the offline page is found in every reachable state |
| ServiceWorker.HandledRequestsAreAnsweredOnce | apps/web/public/sw.js:82-122 | in every state and for each request: its arrivals number its answers, plus one iff it is waiting; so each arrival is answered once or still waiting |
| ServiceWorker.NothingIsLeftUnanswered | apps/web/public/sw.js:118-164 | in no run is a handled request ever answered with nothing |
| PostMigrate.Database.RunScripts | scripts/post-migrate.ts:86-130 | the loop over the state table carries out a run cut off after any number of writes, whose exact effect `RunIsExact` states |
| PostMigrate.RunIsExact | scripts/post-migrate.ts:92-130 | on any list of distinct paths, from any table and cut off after any number of writes: executes and records the unrecorded scripts before the first drift in list order as far as the writes reach, one more executed if cut off between, and answers with exact counts, the cut or the drift |
| PostMigrate.CompletedRunRecordsAll | scripts/post-migrate.ts:98-130 | completing means that every listed script is recorded with its checksum, the counts being the new executions and the rest; drift names the first drifted script |
| PostMigrate.RunAccounts | scripts/post-migrate.ts:92-125 | a run adds one execution for each script it newly records and one for the script it was cut off after; earlier records stay |
| PostMigrate.DriftStopsRun | scripts/post-migrate.ts:98-107 | a changed checksum keeps a run from completing, and nothing at or after that script is executed |
| PostMigrate.ExecutionsAreAccountedFor | scripts/post-migrate.ts:114-124 | over any runs with any lists, a script's executions are one if it is recorded plus one per cut between its execution and its record |
| PostMigrate.ChecksumsAreImmutable | scripts/post-migrate.ts:98-107 | over any runs with any lists a recorded checksum never changes |
| PostMigrate.RunAfterPrefix | scripts/post-migrate.ts:92-125 | with a prefix recorded, a run executes precisely the following scripts in order, as far as its writes reach, and reports those counts |
| PostMigrate.RecordedIsAlwaysAPrefix | scripts/post-migrate.ts:63-76 | over any runs on one list from an empty table, a prefix of the list is recorded with its checksums and executions follow list order without going back or leaving out a recorded script |
| PostMigrate.RunAfterCompletionIsNoop | scripts/post-migrate.ts:86-125 | a run after a completed one executes nothing, skips everything and completes |
| Scanners.SplitTopLevel | scripts/generate-module-graph.ts:258-274 | the parts join back to the input, all but the last have net depth zero, and none has a comma at net depth zero |
| Scanners.NetCounts | scripts/generate-module-graph.ts:265-266 | net depth is the number of opening less closing delimiters of all three kinds |
| Scanners.SplitIsUnique | scripts/generate-module-graph.ts:258-274 | no other list of parts has these properties |
| Scanners.PartSplitsToItself | scripts/generate-module-graph.ts:258-274 | splitting any part again returns just that part |
| Scanners.SplitUndoesJoin | scripts/generate-module-graph.ts:258-274 | splitting a join of unsplittable parts, all but the last closed, returns those parts |
| Scanners.EnclosedText | scripts/generate-module-graph.ts:190-200 | the text up to the first matching close if there is one; otherwise the rest of the text less its last character |
| Scanners.ClosingIsUnique | scripts/audit-rls.ts:72-81 | at most one position closes an opening, so scanners that start at the same bracket agree |
| Scanners.BalanceCounts | scripts/check-cross-module-deps.js:107-112 | the balance that a close is matched by is the number of opening less closing delimiters of its kind |
| Complexity.Analyzer.Count | scripts/check-hotspot-budgets.js:87-120 | the inner visitor raises the counter by the node's weight |
| Complexity.Analyzer.CalculateComplexity | scripts/check-hotspot-budgets.js:84-127 | the counter ends at one plus the weight of the body, whatever it was |
| Complexity.Analyzer.Visit | scripts/check-hotspot-budgets.js:141-154 | the outer visitor reports every function with a body, nested ones too, in visiting order |
| Complexity.DecisionsAre | scripts/check-hotspot-budgets.js:92-117 | the twelve kinds of node that are decisions |
| Complexity.ReportsEachFunction | scripts/check-hotspot-budgets.js:141-154 | the report has the complexity of each function with a body, nested or not, exactly once, and nothing else |
| Complexity.ComplexityOfOne | scripts/check-hotspot-budgets.js:84-127 | a function's complexity is one more than the number of decision nodes in its body outside nested functions |
| Complexity.WeightCountsVisited | scripts/check-hotspot-budgets.js:87-120 | the weight is the number of visited decision nodes |
| Complexity.VisitedExactlyOnce | scripts/check-hotspot-budgets.js:87-120 | the inner visitor meets each decision node once if no function lies on the way to it, else never |
| Complexity.CountedExactlyOnce | scripts/check-hotspot-budgets.js:84-154 | over all reported functions a decision node is counted once if it is in the body of its nearest enclosing function, else never |
| Complexity.ComplexityCountsChargedNodes | scripts/check-hotspot-budgets.js:84-154 | the sum of (complexity - 1) over a file is the number of such decision nodes |
| Messages.Flattener.Flatten | scripts/check-i18n.js:64-83 | the map ends with every leaf stored in visiting order under its extended prefix |
| Messages.KeySplitsBackIff | scripts/check-i18n.js:67-76 | splitting a key on dots gives its path back iff no segment has a dot and no empty segment leads a longer path |
| Messages.LeavesAreReachable | scripts/check-i18n.js:64-83 | flattening meets exactly the leaves that paths lead to |
| Messages.LeadsToIsGet | scripts/check-i18n.js:65-78 | the paths that flattening follows are those that indexing follows: canonical indices below the length in arrays, keys in objects |
| Messages.LeavesAreDistinct | scripts/check-i18n.js:64-83 | no two leaves have the same path |
| Messages.LastLeafIsStored | scripts/check-i18n.js:81 | of the leaves with one key the last in visiting order is stored, with its value |
| Messages.NoLeafIsLostIffKeysDistinct | scripts/check-i18n.js:81 | the map has as many entries as there are leaves iff no two leaves have one key, and fewer otherwise |
| Messages.FlatteningIsFaithful | scripts/check-i18n.js:64-83 | one entry per leaf, holding its value, under a key that splits back into the leaf's path, iff every path to a leaf is plain: not empty, no dot in any segment, and no empty segment leading a longer path |
| Messages.PlainKeysAreFaithful | scripts/check-i18n.js:64-83 | so it is for all messages whose object keys are non-empty and dot-free, of any depth |
| Messages.DottedKeysCollide | scripts/check-i18n.js:75-81 | with a dot in a key, two leaves have one key and the map is left with the second only |
| Messages.LeadingEmptyKeysCollide | scripts/check-i18n.js:75-81 | the same without any dot, with an empty key that leads a longer path |
| Tiers.FindViolations | scripts/check-module-tiers.js:289-318 | the edge loop collects the violations of every scanned module in order |
| Tiers.ForbiddenImportsAreReported | scripts/check-module-tiers.js:248-318 | an edge is reported iff it was scanned, both ends are known, it is not whitelisted, and it goes neither down the tiers nor between two Tier 3 modules |
| Tiers.ViolationsInOrder | scripts/check-module-tiers.js:264-318 | the violations are one for each such import, in scan order, each naming the rule of its importer's tier |
| Tiers.CleanIffDescends | scripts/check-module-tiers.js:259-285 | a path without whitelisted edges has no reported one iff tiers fall along it wherever they are not both 3 |
| Tiers.FewOutsideTier3 | scripts/check-module-tiers.js:259-285 | a clean path has at most three modules outside Tier 3 |
| Tiers.CyclesStayInTier3 | scripts/check-module-tiers.js:259-285 | an import cycle lies wholly in Tier 3 or has a whitelisted or reported edge |
| TierRoutes.PrefixMatchIsSegmentMatch | apps/web/i18n/tier-routes.ts:74-80 | on normalised paths the string test is the segment-wise prefix test, with `/` matching the root only |
| TierRoutes.StripRendersRest | apps/web/i18n/tier-routes.ts:82-92 | stripping drops exactly one leading registered locale segment |
| TierRoutes.TrailingSlashesAreDropped | apps/web/i18n/tier-routes.ts:82-92 | slashes after the last segment do not matter; after a bare locale one leaves the root and more leave the empty string |
| TierRoutes.ScopeIsSegmentWise | apps/web/i18n/tier-routes.ts:94-121 | a normalised path is in scope iff, without its locale, some in-scope prefix is a segment-wise prefix of it and none of the three exclusions is |
| TierRoutes.LocaleDoesNotMatter | apps/web/i18n/tier-routes.ts:82-121 | a locale in front of a path that has none never changes the answer |
| TierRoutes.OutOfScopeListIsRedundant | apps/web/i18n/tier-routes.ts:109-114 | for every path at all the out-of-scope list has no influence |
| Backfill.Database.RunBackfill | packages/prisma/scripts/backfill-communications-permissions.ts:67-210 | fails iff a permission is missing, naming it and changing nothing; otherwise ends with exactly the old grants plus every role in scope crossed with both permissions, added = growth of the table, added + skipped = twice the role visits |
| Backfill.Database.GrantTenant | packages/prisma/scripts/backfill-communications-permissions.ts:118-190 | one tenant's roles get both permissions, old grants stay, and the two counts are exact |
| Backfill.Database.Insert | packages/prisma/scripts/backfill-communications-permissions.ts:165-178 | one row, or nothing when the key exists |
| Backfill.RolesForMembers | packages/prisma/scripts/backfill-communications-permissions.ts:141-149 | the role query returns exactly the target roles of the tenant and the platform-level owner |
| Backfill.RolesForMultiplicity | packages/prisma/scripts/backfill-communications-permissions.ts:141-149 | and each of them as often as the table has it |
| Backfill.RolesInScopeAre | packages/prisma/scripts/backfill-communications-permissions.ts:141-149 | for a tenant these are its own owner and principal and the platform's owner |
| Backfill.GrantedComposes | packages/prisma/scripts/backfill-communications-permissions.ts:119-199 | granting to one set of roles and then to another, overlapping or not, is granting to their union |
| Backfill.SecondRunAddsNothing | packages/prisma/scripts/backfill-communications-permissions.ts:119-199 | a second run changes nothing |

## Left out

- RotationRun.RotateTable: a run that may never end is watched for `budget` turns of the outer loop, any number of them; it then says whether the loop has ended by itself.
- RotationRun.Database.FindMany: rows keep their order between queries, which the source does not ask for, and a row's id is its position.
- Rotation: the three table loops are one, with the table's query and its treatment of absent fields as parameters; `key_last_rotated_at` is not kept.
- Database errors other than a stop between writes, and other writers during a rotation, migration or backfill.
- The internals of AES-GCM and SHA and the choice of random ivs: the cipher is any pair of functions with the inverse law, the iv any 12 bytes, a checksum a given value.
- Cipher.HexRoundTrip: `Buffer.from(…, 'hex')` reads code units above 0xFF by their low byte in some versions of Node; here they are not hex digits.
- Decimal.ParseIntOfDigits: numbers too large for a double are neither rounded nor infinite.
- Recognition of command-line flags other than the two numeric ones, host name, process id and working directory in lock records; the lock path stands for its target, so its hash is taken as injective.
- LeaseRace: `cleanup` is one sweep per file, as its removals are separate system calls, and the clock never runs backwards.
- `setTimeout` is taken to sleep at least its delay, and one millisecond for a delay above 2147483647; terms beyond the range of `Date` are not modelled.
- LeaseLock.LockDirectory.AcquireLock: nobody else writes while it waits; other sessions' writes between its attempts are in `LeaseRace`, where each attempt is one command.
- Unparsable lock files, and the `status` and `help` commands, which only print.
- Eviction of caches by the browser, workers of another version after the first activation, `Vary`, request modes other than navigation, redirects and partial responses; a failed install, after which the worker never handles a fetch.
- ServiceWorker.HandledRequestsAreAnsweredOnce: it does not say that the network ever answers, so a request may wait for ever.
- PostMigrate.Database.RunScripts: SQL that fails half-way counts as not executed; directory listing and sorting, reading of files and concurrent runners are not modelled.
- Trimming and filtering of tokens in `parseImportsArray`, the regular expressions that find where a scan starts, and the model attributes read by `parseSchema`.
- Names and lines of reported functions, and the final sorting by complexity.
- Parity comparison and rewriting of locale files in `check-i18n.js`: they compare the maps that flattening fills.
- The concrete tier map, whitelist, locale and route lists: every theorem is for any of them.
- Tiers.FindViolations: the text of a violation is its kind and its edge; modules without a file are simply not scanned.
- Upserts and masking in the tenant configuration backfill, row-level security settings, and the console, exit codes and command lines of all scripts.
- The other grant, fix and seed scripts: same shape as the permission backfill with less to prove.
