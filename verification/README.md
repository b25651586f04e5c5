# A verified model of pkv

pkv is a paid key-value service whose state lives in Redis.  This project models its
protocols over that state in Dafny and proves what holds in every run: of the provider
index, of the prepaid session ledger, of stream retention and paging, of content-addressed
values and their prolonging, and of the names and IDs the handlers parse.

`dafny verify dfyconfig.toml` checks everything.

## How it is modelled

- Each Redis command is one atomic step on typed maps, each key with an expiry, under a
  clock in milliseconds that never runs backwards.  A key can be read as long as the clock is
  not past its expiry.  Expired data stays in the model's maps and is told apart by the clock.
- Objects whose methods change Redis keys are classes (`ProviderIndex.Registry`,
  `Sessions.RedisSessionManager`, `StreamRetention.StreamStore`, `Values.ValueStore`).  Every
  method is proved equal to a function on the state, and runs of those functions carry the
  theorems.
- Hashes, the Merkle root, dag-pb decoding and CID text encodings are function parameters.
  What a theorem needs of them is a visible hypothesis (`Lawful`, `CollisionFree`,
  `Injective`).
- Randomness (the session salt), clock readings, Redis' choice of how much an approximate
  trim drops, and the verdict of signature checks are parameters or events.

| file | models |
|---|---|
| Common, Cids, SortedSets | int64 arithmetic and expiries; CID normalisation; ZADD GT |
| ProviderIndex | internal/api/virtual_service.go, internal/api/index.go |
| IndexLog, IndexSearch, IndexCapacity, IndexCompleteness | the index against a plain log of registrations |
| IndexCommands | one registration command by command |
| IndexProvenance, IndexInterleaving | invariants that rest on the Merkle root check |
| Pricing, Sessions, Ledger | pkg/middleware/pricing.go, session.go, interceptor.go; internal/api/login.go |
| Admissions | who is admitted in a run, read off its events alone |
| Holdings | the ledger joined with the value, stream and index stores |
| EntryIds, StreamRetention, StreamPaging | internal/api/stream_value_handler.go |
| Values, Prolonging, ProlongOverlap, ValueLifetimes | internal/api/handler.go |
| ResourceNames | pkg/middleware/utils.go |

## Where the code does not do what is intended

Each of these is proved, with the exact condition under which the code does meet the intent.

- The EXPIRE of a stream write may come after the stream has expired, and then it does nothing
  and the entry just added is lost, although the answer promises STREAM_TTL
  (`LateRefreshLosesEntry`).  With the commands of all writers interleaved in any way, an entry
  is kept for STREAM_TTL exactly when the stream had no expiry when it was added or the first
  EXPIRE after it came no later than that expiry (`KeptForStreamTtlIff`).
- A stream entry may outlive twice the stream TTL, because the minimum ID is rounded to a
  second: with complete trimming by up to the rest of the second it was written in
  (`GoneAfterTwiceStreamTtl`), which is attained for every time of writing
  (`TwiceStreamTtlIsExceeded`), so the intended bound holds exactly for entries written in the
  last millisecond of a second (`GoneInTimeIff`).  Approximate trimming alone gives no bound
  (`ApproximateTrimmingHasNoBound`).
- Request validation wants accounts that are DIDs, but `:` is not an ID character, so a DID is
  never the account whose token is checked (`DidIsNeverChecked`).  A name is accepted exactly
  when some segment of it ends with `accounts` and is followed by an ID, by `streams` and by a
  segment that starts with an ID, and the first such place counts (`StreamNameParsesIff`,
  `ValueNameParsesIff`).  So a DID with a slash-free stream is refused
  (`DidAccountsAreRejected`), but for a stream that is itself a stream name the inner account is
  checked while the outer key is listed (`InnerNameIsChecked`, `CheckedIsOwnerIff`).
  GetStreamValue rebuilds its key from what it checked, so it never reads another account's key
  (`ReadKeyBelongsToChecked`).
- A restart draws a new salt, so a quota token redeemed before and after it grants twice
  (`RestartGrantsAgain`, `GrantsOncePerSalt`).
- A prolong whose sum leaves int64 nanoseconds deletes the value (`ProlongKeepsIffFits`,
  `OneMoreYearDeletes`).
- A prolong that finds its value gone when it reads the TTL is answered Ok, exactly then with the
  lifetime asked for less two nanoseconds, and nothing is prolonged (`ProlongOfGone`).
- A value created again while a prolong of it is under way can be cut short: the prolong writes
  what it computed from the old lifetime (`StaleProlongCutsShort`).  A created value is read
  until its requested lifetime is over, whatever follows, exactly when no prolong of it that has
  already read would set a shorter one (`CreatedIsReadUntilTtlIff`).
- A prolong counts in full exactly when the TTL it read is still right when it writes
  (`WriteCountsIff`).  Over whole runs, all prolongs always count in full exactly when for
  each of them the time between its read and its write is what others added meanwhile, up to
  rounding (`AlwaysExactIff`).  On a clock of whole seconds: if no time passes there, the final
  expiry is the original and all requests exactly when no prolongs overlap, and is less
  otherwise (`PromptExactIff`); if none overlap, exactly when no time passes there, and is more
  otherwise (`SerialExactIff`).  With both, the two errors can cancel (`TwoOverlapping`).
- Stale providers use up ranks, so SearchInstance can miss a live one (`LateProviderIsMissed`);
  it misses none exactly when at most 100 are live and none has over 100 members of the streak
  ahead of it (`SearchInstanceCompleteIff`), and SearchCid misses none exactly when that holds of
  every service found and these have at most 101 live providers in all
  (`SearchCidCompleteIff`).
- The EXPIRE of a registration may come after the key has expired, and then the provider or the
  CIDs just written are lost (`LateExpireRun`); a registration leaves what it should exactly
  when neither key expires between its write and its EXPIRE (`SplitRegisterIff`).
- The two directions of the index are each other's converse in all runs exactly when any two
  accepted advertisements of one service list the same CID strings (`ConverseIffSameStrings`);
  two spellings of one CID break it (`DifferentStringsBreakConverse`).
- CreateSession dereferences a nil error exactly for a genuine create-session token of positive
  quantity that has no expiry, or that expires after it was verified and before the handler
  looks at the clock again (`CreateSessionPanicsIff`); the model has this as the status `Panic`.
- The behaviour check ignores letter case in base58 hashes (`ServeAllAndCaseVariantsMatch`).
- GetStreamValue's branch for NotFound is never taken: with no later entry its XREAD blocks until
  there is one (`StreamPaging.GetStreamValue`, `WaitEndsIff`).

## Model

| member | source | states |
|---|---|---|
| IndexLog.EveryRunAgrees | internal/api/virtual_service.go:129-206 | in every run of registrations and clock advances, `instance`, `vsvc:detail`, `vsvc:cid`, `vsvc:instance` and `cid:vsvc` with their separate expiries are exactly what the log of accepted registrations determines; ranked members are the DIDs of the latest unbroken live streak, scored by their largest stamp there, and `vsvc:cid` holds the CIDs of all registrations of that streak |
| IndexLog.RegisterAgrees | internal/api/virtual_service.go:129-206 | one accepted registration keeps that agreement of all five structures |
| IndexLog.StreakGrows | internal/api/virtual_service.go:154-166 | a registration joins the provider streak its service still has, and starts a new one if the sorted set has expired |
| IndexSearch.SearchAgreesWithLog | internal/api/index.go:161-236 | with at most 100 ranked providers for each service found and at most 101 candidates, SearchCid's answer holds an advertisement exactly once for each service that lists the CID now and whose streak its provider takes part in, and only a provider's latest advertisement under DEFAULT_TTL old |
| IndexSearch.NotFoundAgreesWithLog | internal/api/index.go:172-209 | NotFound exactly when no registration under DEFAULT_TTL old lists the normalised CID |
| IndexSearch.FoundIff | internal/api/index.go:172-201 | a service is found under a CID, with readable details, iff some registration of it under DEFAULT_TTL old lists that CID |
| IndexSearch.FoundForAWeek | internal/api/virtual_service.go:26 | what is registered once is found for exactly 604,800,000 ms |
| IndexSearch.RankedByTopStamp | internal/api/index.go:78-103 | in every run one service yields at most 100 advertisements, in ascending score, all live, each scored by the largest time its provider submitted in the streak |
| IndexCapacity.SearchInstanceCompleteIff | internal/api/index.go:78-103 | in every run, SearchInstance shows every provider of the streak whose own latest registration is under DEFAULT_TTL old iff there are at most 100 of them and each has at most 100 members of the streak, stale or not, ahead of it by (largest stamp, DID) |
| IndexCapacity.LateProviderIsMissed | internal/api/index.go:78-103 | for any accepted advertisement: with over 100 providers on day 0 and one more on day 6, the search on day 8 is empty although that one is current |
| IndexCapacity.MissedRankLast | internal/api/index.go:78-103 | in every run a provider that should be shown and is not ranks behind all that are |
| IndexCompleteness.SearchCidCompleteIff | internal/api/index.go:161-236 | in every run SearchCid's answer holds each advertisement once for each service listing the CID whose streak its provider takes part in iff every such service has at most 100 current providers, none with over 100 members ahead of it, and all have at most 101 in sum |
| IndexCompleteness.AnswersInOrder | internal/api/index.go:210-235 | in every run SearchCid answers at most 101 advertisements in ascending order of scores, each the largest stamp of its provider in the streak of a service listing the CID, and no candidate left out has a smaller one |
| IndexCommands.SplitRegisterIff | internal/api/virtual_service.go:129-194 | a registration whose commands run at their own times leaves what it should iff neither the CIDs nor the providers of its service expire between their write and its EXPIRE |
| IndexCommands.IntendedAtOnce | internal/api/virtual_service.go:129-194 | with no time in between that is the single step |
| IndexCommands.LateExpireRun | internal/api/virtual_service.go:152-166 | for any two advertisements of a service, a run in which the second provider's EXPIRE is a millisecond late and a search finds nobody |
| IndexProvenance.ConverseIffSameStrings | internal/api/virtual_service.go:116-194 | h is live under `cid:vsvc:c` iff c is live under `vsvc:cid:h` iff details and providers of h are live and its advertisements list c, with all four expiries one, in all runs over a set of advertisements, iff any two accepted ones of one service list the same strings |
| IndexProvenance.CanonicalSpellingsAreConverse | internal/api/virtual_service.go:116-194 | canonical spellings with collision-free hashes meet that condition |
| IndexProvenance.DifferentStringsBreakConverse | internal/api/virtual_service.go:137-147 | any two accepted advertisements of one service of which only one lists c break the converse in a run of two registrations |
| IndexProvenance.SameServiceSameCids | internal/api/virtual_service.go:116-127 | the root check makes all accepted advertisements of a service decode to the same CID list, and canonical ones carry the same strings |
| IndexProvenance.ResultsHaveProvenance | internal/api/index.go:188-218 | every advertisement returned for c, without any cap, is from a DID that registered a root-checked advertisement listing that CID in some spelling, and lists it itself if that DID only registered one service |
| IndexInterleaving.InterleavedProvenance | internal/api/index.go:161-236 | the same when registrations and the search are split into single Redis commands interleaved in any way, with anything expiring between the reads |
| IndexInterleaving.StepBacked | internal/api/virtual_service.go:129-194 | every single command and every expiry keeps each readable datum backed by an accepted advertisement |
| SortedSets.AddGTMeaning | internal/api/virtual_service.go:154-162 | ZADD GT keeps (score, member) order, leaves other members alone and gives the member the larger of its scores |
| SortedSets.AddAllKeepsHighest | internal/api/virtual_service.go:154-162 | after any submissions the set holds exactly each member's highest one |
| SortedSets.ArrivalOrderIrrelevant | internal/api/virtual_service.go:154-162 | submissions that differ only in arrival order build the same sorted set |
| ProviderIndex.CalculateMerkleRoot | internal/api/virtual_service.go:37-72 | InvalidArgument iff there is no CID or one does not decode, otherwise the root of the CIDs the strings spell, one by one in order |
| ProviderIndex.AcceptsIff | internal/api/virtual_service.go:112-127 | an advertisement is accepted iff its behaviour matches, it lists a CID, all its CIDs decode, and its variant is named by their root in order |
| ProviderIndex.Registry.RegisterVirtualService | internal/api/virtual_service.go:129-174 | the new state of the four keys, command by command, with a fresh start for expired ones |
| ProviderIndex.Registry.RegisterCid | internal/api/virtual_service.go:176-194 | the service becomes a field of each listed CID for DEFAULT_TTL, all else unchanged |
| ProviderIndex.Registry.RegisterInstance | internal/api/index.go:19-56 | Ok and the whole registration iff the behaviour matches, there is a CID, all CIDs decode and their root in order names the variant; otherwise InvalidArgument and no effect |
| ProviderIndex.CollectLive | internal/api/index.go:88-103 | the live advertisements in rank order, cut at the count |
| ProviderIndex.Registry.SearchInstancesOf | internal/api/index.go:63-104 | the live ones among the first count + 1 ranks, at most count |
| ProviderIndex.Registry.ScanServices | internal/api/index.go:172-201 | each live service with readable details under the CID, once, in any order |
| ProviderIndex.SortByScore | internal/api/index.go:219-221 | an ascending permutation by score |
| ProviderIndex.FirstAds | internal/api/index.go:222-231 | the first 101 advertisements of the ranking |
| ProviderIndex.Registry.SearchCid | internal/api/index.go:161-236 | InvalidArgument iff the CID does not normalise, NotFound iff nothing is found, otherwise the scanned services and a prefix of at most 101 of all candidates in ascending score |
| ProviderIndex.AnswerNamesServices | internal/api/index.go:172-209 | NotFound iff no service has both a readable field under the CID and readable details, and otherwise the answer names exactly those |
| ProviderIndex.ServeAllAndCaseVariantsMatch | internal/api/virtual_service.go:84-114 | with collision-free link hashes the behaviour check accepts the serve-all link and exactly those others whose hash differs from its hash in letter case only |
| Cids.AcceptedIffRawOrDagPb | internal/api/index.go:138-159 | exactly raw and dag-pb CIDs of either version are accepted, and the normal form decodes to version 1 of the same content |
| Cids.NormalizeIsIdempotent | internal/api/index.go:138-159 | an accepted spelling normalises to one that normalisation leaves alone |
| Cids.SameKeyIffSameContent | internal/api/index.go:138-159 | two accepted spellings, version 0 or 1, reach the same key iff they have the same codec and hash |
| Pricing.PriceCoversUnits | pkg/middleware/pricing.go:19-52 | for every paid request that passes validation the price charged before it is exactly the units it may store, or one if it stores nothing, so no int64 product has wrapped |
| Pricing.PriceList | pkg/middleware/pricing.go:20-51 | the prices in numbers: one for a CID, one for a value byte, the size cap of a prolong, 100 for a stream byte, one for anything else |
| Pricing.MistypedHasNoPrice | pkg/middleware/pricing.go:22-48 | a message of the wrong type has no price |
| Pricing.LimitsInPrices | pkg/proto/kvstore/v1/kvstore.proto:295-330 | the size limits in prices: a valid value costs 1 to 2^30, a valid stream entry 100 to 409,600 |
| Pricing.FreeIff | pkg/middleware/interceptor.go:21-27 | exactly five procedures, by name, are free |
| Pricing.FreeCallsStoreNothing | pkg/middleware/interceptor.go:21-32 | a well-typed call of a free procedure stores nothing |
| Pricing.StreamPriceExactIff | pkg/middleware/pricing.go:43-48 | without the size limit, for every slice length Go allows, the price is 100 for each byte iff that fits int64 |
| Pricing.PriceWrapsForHugeEntries | pkg/middleware/pricing.go:43-48 | beyond that it wraps: 2^62 stream bytes cost nothing |
| Sessions.RedisSessionManager.CreateSession | pkg/middleware/session.go:47-73 | SET NX GET: a new counter holds the quantity, an existing one is left alone, and the answer is what the counter holds |
| Sessions.RedisSessionManager.DeductSessionBalance | pkg/middleware/session.go:85-103 | DECRBY with its refusals: not positive, below the int64 range, and negative without refund |
| Sessions.CreateSessionHandler | internal/api/login.go:41-100 | the guards in order with their codes and their two readings of the clock, then redemption and a minted token for that session that expires with the quota token; no change on refusal |
| Sessions.TokenAcceptedIff | internal/api/login.go:44-76 | exactly which quota tokens are redeemed, and how the others are refused |
| Sessions.CreateSessionPanicsIff | internal/api/login.go:44-76 | the nil error is dereferenced iff the token is genuine, for creating sessions, of positive quantity, and has no expiry or expires between the check of the verifier and the guard |
| Sessions.Intercept | pkg/middleware/interceptor.go:18-88 | free procedures pass uncharged; otherwise header, signature and expiry of the token, usage, price and charge in that order |
| Sessions.AdmitIff | pkg/middleware/interceptor.go:18-88 | free iff one of the five procedures; charged iff a minted unexpired session token of the right usage is borne and the price is positive and within the balance, which falls by it; the codes of all refusals; no charge without a good token |
| Admissions.RunAsSaid | pkg/middleware/session.go:47-103 | in every run the tokens that verify are those handed out for redemptions, and each counter is the first quantity redeemed for it less all that was asked of it, or negative once that is more |
| Admissions.AdmittedIff | pkg/middleware/interceptor.go:18-88 | after any run a request is charged iff it bears a token handed out and unexpired and its positive price with all asked of the session before is within the first quantity redeemed; what the answer reports is left |
| Admissions.RedeemedTokenPays | internal/api/login.go:78-99 | end to end: a request with the session token of a redemption is admitted iff it comes before the quota token's expiry and fits what is left, whatever happened in between |
| Admissions.FirstChargeFits | pkg/middleware/session.go:47-73 | after a first redemption the counter holds the quantity and one charge up to all of it is accepted |
| Sessions.AcceptedIffWithinGrant | pkg/middleware/session.go:85-103 | among attempts on any sessions in DECRBY order, one is accepted iff it is positive and all that was asked of its session so far fits in the grant, also across underflow errors |
| Sessions.RefusalIsFinal | pkg/middleware/session.go:90-98 | after one refused positive charge every later charge on that session is refused |
| Ledger.EverythingStoredIsPaidFor | pkg/middleware/interceptor.go:28-85 | over every interleaving of redemptions, charges, handlers of paid and free calls and restarts: units stored are at most accepted charges, which are at most the quantities of redeemed quota tokens, each counted once for each salt |
| Holdings.EverythingHeldIsPaidFor | pkg/middleware/pricing.go:19-52 | over the same interleavings with the handlers at work: all value bytes, stream bytes at 100 and listings the stores hold, expired ones too, are at most the quantities of redeemed quota tokens, each counted once for each salt |
| Holdings.ApplyHolds | pkg/middleware/pricing.go:19-52 | handling a request adds at most its units to what the stores hold |
| Holdings.NewValueHolds | pkg/middleware/pricing.go:30-37 | a value that was not there adds exactly its units |
| Holdings.NewEntryHolds | pkg/middleware/pricing.go:43-48 | so does an entry of a stream that loses none |
| Ledger.RunBalanced | pkg/middleware/session.go:47-103 | every step keeps the books: for each session accepted is at most granted, the balance is the rest until a charge is refused and negative only from then on, and stored plus charged but unhandled is at most accepted |
| Ledger.GrantsAreFirstQuantities | pkg/middleware/session.go:41-73 | what was granted in a run is the sum of first redemptions, computed from the events alone |
| Ledger.GrantsOncePerSalt | internal/api/login.go:78-99 | a valid token grants its quantity, which the counter then holds, iff its jti was not redeemed under this salt; a replay yields the same session and its current balance |
| Ledger.RestartGrantsAgain | pkg/middleware/session.go:29-45 | redeeming before and after a restart grants twice |
| Ledger.MintedTokensHaveBalances | internal/api/login.go:78-88 | every session token ever minted names a stored balance |
| Ledger.GrantsPersist | pkg/middleware/session.go:47-73 | no later event revises a grant or forgets a redemption |
| StreamRetention.StreamStore.CreateStreamValue | internal/api/stream_value_handler.go:24-63 | XADD, any delay, then EXPIRE of one stream, no other stream touched, answered with the name of the new entry and the TTL whether or not the EXPIRE came in time |
| StreamRetention.AppendAddsLast | internal/api/stream_value_handler.go:34-45 | an XADD adds its value as the last entry, stamped with the clock and above every ID ever given, keeps only entries that could be read, and leaves the expiry alone |
| StreamRetention.NextIdIsLeast | internal/api/stream_value_handler.go:35-45 | the ID of an entry is the least that carries the clock and is above the last |
| StreamRetention.RunSane | internal/api/stream_value_handler.go:34-58 | under every interleaving of XADD, EXPIRE and time, IDs strictly increase, none lies in the future, and the last one was given while the stream existed |
| StreamRetention.KeptForStreamTtlIff | internal/api/stream_value_handler.go:29-58 | however commands interleave and however much is trimmed, an entry is readable until STREAM_TTL after its XADD iff the stream had no expiry then, or the first EXPIRE after it, or the present if none, is no later than that expiry |
| StreamRetention.KeptForStreamTtl | internal/api/stream_value_handler.go:29-58 | so an entry whose EXPIRE follows at once is kept for STREAM_TTL whatever other writers' commands do |
| StreamRetention.KeptForAWeek | internal/api/stream_value_handler.go:21 | a single whole write can be read for exactly 604,800,000 ms |
| StreamRetention.LateRefreshLosesEntry | internal/api/stream_value_handler.go:35-58 | a run in which an entry is gone a millisecond after its XADD |
| StreamRetention.GoneAfterTwiceStreamTtl | internal/api/stream_value_handler.go:29-58 | with whole writes and complete trimming no readable entry is older than 2 * STREAM_TTL and the rest of the second it was written in |
| StreamRetention.TwiceStreamTtlIsExceeded | internal/api/stream_value_handler.go:32-34 | whenever an entry is written, three writes keep it readable for exactly that long |
| StreamRetention.GoneInTimeIff | internal/api/stream_value_handler.go:29-34 | no completely trimmed run keeps an entry past 2 * STREAM_TTL iff it was written in the last millisecond of a second |
| StreamRetention.UnrefreshedStays | internal/api/stream_value_handler.go:35-58 | a new stream whose EXPIRE never comes is never gone |
| StreamRetention.ApproximateTrimmingHasNoBound | internal/api/stream_value_handler.go:38-41 | with approximate trimming an entry can still be readable any number of STREAM_TTLs after its write |
| StreamPaging.NothingSkipped | internal/api/stream_value_handler.go:122-186 | in every run interleaving page reads of any sizes with the commands of writes, trims and expiry, each readable entry with ID at most the walker's token has been returned to it |
| StreamPaging.WalkPosition | internal/api/stream_value_handler.go:140-185 | on a fixed stream of m entries, k pages of size n end on entry min(m - 1, k(n - 1)) having delivered everything up to it, with one entry shared between successive pages |
| StreamPaging.LastReachedIff | internal/api/stream_value_handler.go:140-185 | the last entry is reached after k pages iff k(n - 1) >= m - 1; never with n = 1 and m > 1 |
| StreamPaging.RequestsNeeded | internal/api/stream_value_handler.go:140-185 | with n >= 2 the last entry is reached exactly from request ceil((m - 1)/(n - 1)) on |
| StreamPaging.TwoReadersAgree | internal/api/stream_value_handler.go:140-271 | pages without boundary duplicates and the chain of GetStreamValue successors are both exactly the stream |
| StreamPaging.ClientGetsStream | internal/api/stream_value_handler.go:65-83 | a client that hands back each page token gets exactly the stream's values with their IDs, each once and in order |
| StreamPaging.ListStreamValues | internal/api/stream_value_handler.go:122-186 | status codes in order, Internal also for a page token Redis cannot read; otherwise for each entry of the page its own value and an ID text that parses to its ID, and a token that parses to the last ID, or to 0-0 |
| StreamPaging.Describe | internal/api/stream_value_handler.go:161-185 | the loop returns each entry's own value and ID text and ends with the last ID as maximum |
| StreamPaging.GetStreamValue | internal/api/stream_value_handler.go:216-272 | status codes in order, then the least entry strictly above the named ID; the call waits iff there is none |
| StreamPaging.WaitEndsIff | internal/api/stream_value_handler.go:234-238 | an entry added while a call waits answers it iff its ID is above the one named |
| EntryIds.ParsePrintEntryId | internal/api/stream_value_handler.go:85-102 | parsing the printed form of any pair of nonnegative int64 values gives the pair back |
| EntryIds.ParsedIsRepresentable | internal/api/stream_value_handler.go:85-102 | whatever parses has nonnegative int64 halves |
| EntryIds.MaxEntryId | internal/api/stream_value_handler.go:161-181 | the fold of getMaxEntryID from "0-0" is the text of the lexicographic maximum |
| EntryIds.MaximumIsLast | internal/api/stream_value_handler.go:104-120 | on an ID-ordered page the maximum is the last ID |
| Values.RunContentAddressed | internal/api/handler.go:45-97 | in every reachable state the bytes under values/cid hash to that CID |
| Values.KeyDeterminesContent | internal/api/handler.go:25-65 | raw and dag-pb keys never collide and equal keys mean equal bytes |
| Values.GetReturnsCreated | internal/api/handler.go:67-132 | after a create, whatever else is created, prolonged or expires, any accepted spelling of the CID reads exactly the created bytes while the key is there and NotFound otherwise |
| ValueLifetimes.CreatedIsReadUntilTtlIff | internal/api/handler.go:67-185 | a value created in any state, for the first time or again, is read back under any accepted spelling until its requested lifetime is over, whatever else is created and however prolongs overlap, iff no prolong of it under way that has read would set a shorter lifetime |
| ValueLifetimes.CreatedIsReadUntilTtl | internal/api/handler.go:67-185 | so it is if no prolong under way has read yet, through up to 291 prolongs |
| ValueLifetimes.KeptUntilExpiryIff | internal/api/handler.go:134-185 | from any moment on a value stays readable up to its expiry however prolongs overlap iff none that has already read would set an earlier one |
| ValueLifetimes.StaleProlongCutsShort | internal/api/handler.go:161-174 | a run of create, begin, read, create and write in which the second create is cut to two seconds |
| Values.CreatedCidNamesContent | internal/api/handler.go:25-65 | the CID a create answers with decodes to the chosen codec and the hash of the bytes, and normalisation leaves it alone |
| Values.CreateSucceedsIff | internal/api/handler.go:25-97 | a create succeeds iff the bytes are raw or decode as a dag-pb node, answers the key under values/ and changes that key alone |
| Values.GetAnswers | internal/api/handler.go:99-132 | the answer to any name: the bytes under the key of the CID it spells, NotFound if there are none, InvalidArgument for all other names |
| Values.ValueStore.CreateValue | internal/api/handler.go:67-97 | stores the bytes under their CID with the requested lifetime, or InvalidArgument and no change |
| Values.ValueStore.GetValue | internal/api/handler.go:99-132 | prefix, normalisation, lookup, with their status codes |
| Values.ValueStore.ProlongValue | internal/api/handler.go:134-185 | MEMORY USAGE, TTL and EXPIRE with any delays in between: status codes in order and no change on refusal; otherwise only the expiry of that key changes |
| Prolonging.ProlongAdds | internal/api/handler.go:161-174 | a prolong that fits moves the expiry by the whole seconds asked for, within the half second TTL rounds, and exactly iff the remaining time is whole seconds |
| Prolonging.ProlongKeepsIffFits | internal/api/handler.go:173-174 | a prolong of a live value keeps it iff the sum fits int64 nanoseconds |
| Prolonging.ProlongOfGone | internal/api/handler.go:161-183 | a value gone when its TTL is read is answered Ok with the lifetime asked for less 2 ns, and nothing changes |
| Prolonging.ValidTtlIff | pkg/proto/kvstore/v1/kvstore.proto:300-306 | a request may ask for one second up to 365 days |
| Prolonging.SerialProlongsAdd | internal/api/handler.go:134-185 | serial prolongs on a whole-second clock add exactly the seconds they ask for |
| Prolonging.ProlongsNeverOverflow | internal/api/handler.go:173-174 | while the years left at the start and the prolongs written, overlapping in any way, number at most 291, the next sum fits: a value created for a year takes 291 prolongs of a year |
| Prolonging.OneMoreYearDeletes | internal/api/handler.go:173-174 | with 292 years left a one-year prolong deletes the value |
| Prolonging.OverlappingProlongs | internal/api/handler.go:161-174 | under any interleaving on a value that stays live, the expiry never falls below the original, and after a write is at least the original plus the smallest request, up to 499 ms of rounding and without it on a whole-second clock |
| ProlongOverlap.WriteCountsIff | internal/api/handler.go:161-174 | a write moves the expiry by the seconds asked for and by how far the TTL it read is off, so it counts in full iff that TTL is still right |
| ProlongOverlap.AlwaysExactIff | internal/api/handler.go:161-174 | at every moment of any run the expiry is the original and all seconds written iff for each write the time since its read is what others added since, up to rounding |
| ProlongOverlap.PromptExactIff | internal/api/handler.go:161-174 | on a whole-second clock with no time between reads and their writes, the final expiry is at most the original and all seconds written, and equal iff no prolong writes between another's read and write |
| ProlongOverlap.SerialExactIff | internal/api/handler.go:161-174 | on a whole-second clock with no writes in between, it is at least that, and equal iff no time passes between any read and its write |
| ProlongOverlap.TwoOverlapping | internal/api/handler.go:161-174 | of two prolongs that both read before either writes the first is lost and the time between the writes given away, so the result is exact iff the two are equal |
| ResourceNames.IdCharIff | pkg/middleware/utils.go:23 | the ID characters one by one |
| ResourceNames.MatchIffOccurs | pkg/middleware/utils.go:22-32 | the pattern matches at a position with given IDs iff the name printed from them stands there and no ID character follows |
| ResourceNames.SearchIff | pkg/middleware/utils.go:22-32 | parsing returns IDs iff they occur at some position and nothing occurs earlier |
| ResourceNames.ParsePrint | pkg/middleware/utils.go:34-51 | parsing a printed name, whatever follows it, returns exactly its IDs |
| ResourceNames.PrintParse | pkg/middleware/utils.go:34-51 | printing what was parsed gives a contiguous piece of the name, and no ID is empty |
| ResourceNames.SearchParts | pkg/middleware/utils.go:22-32 | what a pattern finds in any name at all: the first segment that ends with the first prefix and is followed by whole-segment IDs between the further prefixes and a last ID |
| ResourceNames.StreamNameParsesIff | internal/api/stream_value_handler.go:127-136 | for any account and any stream, exactly which stream names parse and what is handed on |
| ResourceNames.CheckedIsOwnerIff | internal/api/stream_value_handler.go:127-142 | the account checked is the owner of the key listed iff it is made of ID characters and the stream starts with one or names that account again |
| ResourceNames.InnerNameIsChecked | internal/api/stream_value_handler.go:127-142 | a stream of a non-ID account whose ID is a stream name is listed to the inner account |
| ResourceNames.DidInnerNameIsChecked | internal/api/stream_value_handler.go:127-142 | such a name with a DID as account |
| ResourceNames.DidIsNeverChecked | internal/api/stream_value_handler.go:188-214 | whatever the name, neither handler checks a DID |
| ResourceNames.ValueNameParsesIff | internal/api/stream_value_handler.go:219-231 | the same for the value names of any account, stream and entry |
| ResourceNames.ReadKeyBelongsToChecked | internal/api/stream_value_handler.go:219-233 | the key GetStreamValue reads always belongs to the account it checked |
| ResourceNames.DidAccountsAreRejected | internal/api/stream_value_handler.go:127-136 | no stream name and no value name of a DID with a slash-free stream parses |
| ResourceNames.ValueNameRoundTrip | internal/api/stream_value_handler.go:59-62 | for slash-free account and stream, the name a create answers with parses back to its three IDs iff both are made of ID characters, and is refused otherwise |

## Left out

- JWT signatures, key derivation, OAuth login and DID parsing: cryptography; a verdict or a set of minted tokens stands for them.
- The insides of SHA-256, Keccak, the Merkle tree, dag-pb, protobuf and base58: function parameters with stated hypotheses.
- Redis and network errors, HSCAN cursor anomalies: commands are atomic and succeed.
- DelegatedRouting, SearchInstance's wrapper and Ping: they only copy fields or a constant.
- StreamRetention.GoneAfterTwiceStreamTtl: assumes complete trimming and that each EXPIRE follows its XADD at once, because without them the bound is false: a stream whose EXPIRE never comes does not expire (`UnrefreshedStays`).
- StreamRetention.GoneInTimeIff: takes times from 8 January 1970 on, because before that no write succeeds.
- ValueLifetimes.CreatedIsReadUntilTtlIff: runs do not create the value again, because that sets a new lifetime, to which the statement applies anew; and int64 bounds the years in play by 292.
- IndexLog.EveryRunAgrees: registrations are single steps, because between the commands of one registration the structures do disagree; what separate commands can lose is in IndexCommands.
- IndexCommands.SplitRegisterIff: no other registration of the service comes in between, and the listings of all CIDs share one time.
- ResourceNames.ParsePrint: takes prefixes without pattern characters, which is how every caller uses them.
- StreamPaging.ListStreamValues: how Redis reads a page token (such as "-" or a bare number) is a parameter.
- StreamPaging.GetStreamValue: how Redis reads an entry ID is a parameter.
- Values.ValueStore.ProlongValue: no other command on the key comes in between; interleavings are in Prolonging, ProlongOverlap and ValueLifetimes.
- EntryIds.ParsePrintEntryId: Redis IDs at or above 2^63 are not covered; the Go code cannot parse them.
- Sequence numbers of stream IDs are unbounded integers.
- The gateway, CORS, command-line tools, generated code and the email example.
