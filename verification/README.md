# Verification of the agent toolkit's stateful core

This project models the parts of the repository in which state, parsing or arithmetic is hard to get
right, and proves what they promise over all inputs, all runs and all interleavings. `dafny verify
dfyconfig.toml` checks everything.

| module | models |
|---|---|
| `SessionLock` | the lock-file protocol of several processes that may crash, one file-system call a step |
| `SpendingPolicy`, `CapFailures` | the DEM ledger: checks, records, day rollover, load and save, over whole histories; exactly when its caps fail |
| `Tips`, `TipScores`, `TipRuns`, `TipLimits` | choosing and executing tips, what is chosen and how much is paid, what holds over every run of the tipping hook, and exactly when its announced limits hold |
| `HiveCodec`, `Base64` | the two encoders and the decoder of HIVE payloads in their five encodings |
| `HintText`, `HintLaws`, `FrontMatter`, `FrontMatterFile`, `FrontMatterLaws` | the front-matter normaliser, from characters up to whole files, and the laws that determine it |
| `TestBody`, `Lexing`, `StrayBraces` | the brace matcher that cuts a test's body out of its file, which braces count, and exactly when the body is returned |
| `ChainReader` | backward pagination over the chain |
| `DeepMerge` | laying an agent's configuration over the base persona |
| `Improvements`, `ImprovementLaws`, `ReviewFindings` | the improvement tracker with its two writers, and what each command does; the findings file |
| `BudgetTracker`, `ReferenceAgent`, `PlanContents` | budget shares; the reference agent's plan of actions, its cost and its contents |
| `ShapeTree`, `Census`, `Calibration` | response shapes; the Gini coefficient; the calibration offset |
| `Text`, `Reals`, `Wrappers` | what several of these share: text, minimum and maximum, options |

Objects that the source updates in place are classes whose methods are proved against a function on
their fields' values; the theorems about whole runs are lemmas about that function. Loops are loops,
proved against a definition that does not use them. Expressions and recursion are functions.

## Where the code does not do what one would expect

Each of these is a lemma with a concrete input, beside a theorem that says when the code does keep the
property; for all but the last it is an if-and-only-if.

- **Lock.** Recovery of a stale lock reads, checks, unlinks and re-creates in separate calls. Two
  recoveries that overlap can both succeed (`OverlappingRecoveriesBothWin`), and a process that finds
  a lock file created but not yet written takes it for corrupt (`EmptyFileWindowBreaksExclusion`).
  A step keeps the protocol's invariant if and only if it does not unlink a live process's file
  (`StepIsSafeExactly`), and a single such step is enough to break mutual exclusion
  (`TheftBreaksExclusion`). None can occur when creating and writing the file is one step and recovery
  is one step, with any number of processes interleaving their steps and crashing between them
  (`AtomicRunIsSafe`; `SerialRunIsSafe` lets crashes and releases fall inside these steps too). Two
  comments in `src/lib/state.ts` speak of locks older than two hours; the code never looks at the age,
  and neither does the model.
- **Spending.** A configuration whose minimum tip is negative lets the daily cap be exceeded:
  negative tips make room for a bet that is checked before midnight and booked after it
  (`NegativeMinimumBreaksDailyCap`). The daily cap holds in all runs if and only if the configuration
  bars negative tips (`DailyCapHoldsExactly`), whatever dry runs are recorded. The session cap does not
  depend on that, but on the dry runs: recordSpend adds a dry run of a negative amount to the session's
  sum without a check, which makes room for real spending (`NegativeDryRunBreaksSessionCap`). After
  any earlier sessions of the configuration, the session cap holds if and only if the dry runs recorded
  so far never add up to less than nothing, or nothing can be spent at all, in a dry run or under a
  daily cap of 0 with negative tips barred (`SessionCapHoldsExactly`).
- **Tip limits.** The plugin announces at most so many tips a recipient and day, and a cooldown between
  tips, but both are looked at once, before the invocation's up to two tips. With the default
  configuration, which allows two tips a recipient and day, one can get three, the last two without a
  pause (`DefaultsAllowAnOverrun`). From counts within the limit an invocation exceeds it exactly when
  it tips a recipient twice on one day who was one short of it (`InvocationExceedsExactly`,
  `DailyLimitHoldsExactly`), and the cooldown holds exactly when it does within each invocation
  (`CooldownHoldsExactly`). With one tip a session both limits always hold (`OneTipKeepsBothLimits`).
- **Warm-up.** The gate looks at the counter of warm-up sessions, which is incremented at the first
  call of the hook in a session and saved when the hook ends. A session that calls the hook twice is
  let through one session early (`RepeatedInvocationSkipsWarmUp`). `WarmUpGate` says exactly when the
  gate is open, and `WarmUpIsSkippedExactly` when it is open too early.
- **Front matter.** Normalising is not idempotent when removing a hint field leaves an empty hint
  heading above a list (`NormalizeIsNotAlwaysIdempotent`); `SecondPassExactly` characterises the
  files that a second pass changes.
- **Test bodies.** The text is cut relative to the start line even when the opening brace stands on a
  later one, and is then wrong (`LaterOpenerExample`); a stray closing brace before the first opening
  one derails the count (`StrayCloserExample`). The body is returned if and only if neither is the case
  (`BodyIsReturnedExactly`).
- **Pagination.** The last page is clipped to start at 1 but still holds 100 entries, so of a chain of
  150 transactions 50 are read twice (`ClippedPageExample`). This happens exactly to chains of 101 to
  499 transactions that are not a whole number of pages (`PagesLeaveNoGap`).
- **deepMerge** is not associative when a middle layer replaces an object and the third brings one back
  (`NonObjectBetweenObjects`); it is exactly when the third layer's object covers the first layer's
  (`AssociativeExactly`).
- **Shapes.** Below the fifth level the example of a shape is the string "...", so a number five levels
  down is lost (`FifthLevelIsLost`); the shapes agree exactly when nothing else is there
  (`ExampleHasTheShapeExactly`).
- **Planned budget.** The reference agent subtracts a tip's budgeted cost, not its amount, so that
  bets can spend the same DEM again (`OverdrawnPlan`). `PlanStaysWithinBudget` bounds the excess, and
  `PlanKeepsTheBudget` says when there is none.

## Assumptions

- Amounts, confidences and offsets are real numbers; counters, times and ids are unbounded integers.
- Every reading of the clock is a separate parameter. Readings never go back, within a session and
  from one session to the next.
- The ledger, the tip state, the improvements file and the findings file have one writer at a time,
  are well-formed, and every session that loads one also saves it.
- Caps are not negative. Where a result speaks of distinct sessions rather than changes of the session
  number, session numbers never go back.
- Process ids are never reused. releaseLock is called by a process that holds the lock.
- The tip API confirms the author as recipient; no exception interrupts a tipping session; a feed
  that passed filterPosts has distinct hashes.
- JSON.parse inverts JSON.stringify and TextDecoder inverts TextEncoder (RFC 8259; section 3 of
  RFC 3629). Buffer.from skips characters that are not in the Base64 alphabets.
- Keys, addresses and hints are folded to lower case as ASCII. Strings are sequences of Unicode
  scalar values.

## Model

| member | source | states |
|---|---|---|
| SessionLock.StepIsSafeExactly | src/lib/state.ts:167-238 | one file-system call or crash, from any state that satisfies the protocol invariant, keeps it if and only if it is not a recovery unlinking a live process's file |
| SessionLock.CleanRunIsSafe | src/lib/state.ts:181-238 | in every interleaving with crashes anywhere and no such unlink, at most one live process holds the lock, and the file on disk is complete and that holder's own |
| SessionLock.LiveFileIsUntouched | src/lib/state.ts:181-238 | nobody but the live owner changes or removes its lock file |
| SessionLock.TheftBreaksExclusion | src/lib/state.ts:203-222 | conversely one unlink of a live process's file always leads to two holders when both acquireLock calls finish |
| SessionLock.SerialStep | src/lib/state.ts:181-222 | while creation and recovery are one step each, every call keeps what a recovering process has read true and unlinks nobody's live file |
| SessionLock.SerialRunIsClean | src/lib/state.ts:181-238 | so such a run has no dangerous step, however many processes wait after a failed creation and wherever releases and crashes come |
| SessionLock.SerialRunIsSafe | src/lib/state.ts:181-238 | mutual exclusion in every run in which no other process reads, removes or creates the file while one is between creating and writing it or inside a recovery |
| SessionLock.AtomicRunIsSafe | src/lib/state.ts:181-238 | with create-and-write as one step and recovery as one step, every interleaving of any number of processes with crashes anywhere keeps mutual exclusion and never removes a live process's file |
| SessionLock.OverlappingRecoveriesBothWin | src/lib/state.ts:210-222 | a run in which two recoveries of one stale lock overlap and both processes end up holding it |
| SessionLock.EmptyFileWindowBreaksExclusion | src/lib/state.ts:187-208 | a run in which a lock file seen between its creation and its write is removed as corrupt and two processes hold the lock |
| SessionLock.UndisturbedAcquire | src/lib/state.ts:181-222 | an acquireLock that nobody interrupts succeeds unless the file names a live process, which then holds the lock: a dead holder, or a process that died before writing, never blocks it, and a refusal leaves the file alone |
| SessionLock.UndisturbedRelease | src/lib/state.ts:228-238 | a releaseLock of a holder that nobody interrupts removes the lock file and changes nothing else |
| SessionLock.ReleasedLockIsFree | src/lib/state.ts:181-238 | after it an acquireLock of any idle process succeeds |
| SessionLock.HolderReleases | src/lib/state.ts:228-238 | in any clean run, whatever others do between its three calls, a holder that has released no longer holds the lock and its file is gone |
| SessionLock.ReleaseSparesAnother | src/lib/state.ts:231-233 | a releaseLock of a process whose lock another has taken over leaves the other's file alone |
| SessionLock.AcquireEnds | src/lib/state.ts:181-222 | whatever others do, in clean runs or not, an acquireLock under way has ended after at most so many calls of its own |
| SpendingPolicy.Ledger.Load | src/lib/spending-policy.ts:290-320 | a loaded ledger starts the session at zero and drops the daily sum exactly when the stored date is not today |
| SpendingPolicy.Ledger.CanSpend | src/lib/spending-policy.ts:103-196 | a real tip is allowed if and only if it is within the per-tip bounds, both caps on today's counters and, up to case, the allowlist; each refusal names a limit that really is exceeded, with what remains |
| SpendingPolicy.Ledger.CheckSessionBudget | src/lib/spending-policy.ts:203-248 | a real spend is allowed if and only if it is positive and within both caps on today's counters |
| SpendingPolicy.Ledger.RecordSpend | src/lib/spending-policy.ts:256-279 | the whole new ledger after a record: rollover, sums, and the last hundred transactions |
| SpendingPolicy.Ledger.Perform | src/lib/spending-policy.ts:418-432 | check and record through a signing guard is one step of the run model, and books exactly when that step does |
| SpendingPolicy.AllowlistIgnoresCase | src/lib/spending-policy.ts:172-177 | two spellings of an address are on the allowlist together, and a listed address is |
| SpendingPolicy.RolloverConsistent | src/lib/spending-policy.ts:111-114 | resetting the daily sum on a later date keeps it equal to what the history says about that date |
| SpendingPolicy.RecordConsistent | src/lib/spending-policy.ts:256-279 | recording a checked spend keeps the ledger equal to the history it has forgotten, even when midnight falls between check and record |
| SpendingPolicy.OpsConsistent | src/lib/spending-policy.ts:103-279 | any mix of tips, bets and dry runs in a session keeps the ledger consistent with the history |
| SpendingPolicy.SessionsConsistent | src/lib/spending-policy.ts:290-337 | the same over any number of sessions that load and save |
| SpendingPolicy.DailyCapHoldsOverAllRuns | src/lib/spending-policy.ts:103-337 | over all runs of configurations that bar negative tips no UTC day sees more real DEM than the daily cap, and the stored transactions are exactly the last hundred of the full history |
| SpendingPolicy.SessionCapHolds | src/lib/spending-policy.ts:160-170 | whatever a session does and whenever, its real spending stays within the session cap as long as its dry runs never add up to less than nothing; the session's sum is the real spending plus the dry runs |
| SpendingPolicy.SessionCapHoldsOverAllRuns | src/lib/spending-policy.ts:160-320 | so it is in every session of every run |
| SpendingPolicy.SessionCapAddsUp | src/lib/spending-policy.ts:160-170 | the DEM of one day is at most the session cap for each session that books on it |
| SpendingPolicy.DayIsBoundedBySessions | src/lib/spending-policy.ts:148-170 | k sessions that book on a day spend at most the smaller of the daily cap and k session caps on it |
| CapFailures.DailyCapHoldsExactly | src/lib/spending-policy.ts:127-158 | all runs under a configuration keep its daily cap if and only if the configuration bars negative tips, whatever dry runs they record |
| CapFailures.NegativeTipsMakeRoom | src/lib/spending-policy.ts:127-158 | for every configuration that lets a negative tip through there is a run over its daily cap |
| CapFailures.NegativeMinimumBreaksDailyCap | src/lib/spending-policy.ts:127-158 | a concrete run, with dates in order, of one tip of -5 and one bet of 12 under a daily cap of 10 |
| CapFailures.SessionCapHoldsExactly | src/lib/spending-policy.ts:225-320 | given the dry runs a session records, in order, every session under a configuration keeps its session cap, after whatever earlier sessions, if and only if they never add up to less than nothing or the configuration allows no real spending: a dry run, or a daily cap of 0 with negative tips barred |
| CapFailures.NegativeDryRunsMakeRoom | src/lib/spending-policy.ts:225-320 | for every other configuration and dry runs there is a run, with dates in order, whose last session is over its cap |
| CapFailures.DailySumOfRun | src/lib/spending-policy.ts:256-320 | in a run that bars negative tips the daily sum never falls below 0 |
| CapFailures.NegativeDryRunBreaksSessionCap | src/lib/spending-policy.ts:267-270 | a concrete session of a dry run of -5 and a bet of 10 under a session cap of 5 |
| Tips.SelectTakesTheBest | src/lib/tips.ts:256-355 | everything selected is eligible and from the feed, in rank order and without repetition; nothing eligible left behind ranks before it, and the list is cut only by the limit of two |
| Tips.RankedIsSorted | src/lib/tips.ts:334-334 | the ranking is an ordered permutation of the candidates |
| TipScores.SelectedAreRight | src/lib/tips.ts:184-333 | every selected candidate is a post of the feed that may be tipped, with an amount of 1, 2 or 3 DEM by the two thresholds and a sufficient score |
| TipScores.OnlyTheLimitLeavesOut | src/lib/tips.ts:268-335 | a post that may be tipped and scores enough is left out only when two, or as many as configured, were chosen |
| TipScores.ScoreAddsUp | src/lib/tips.ts:156-220 | a score is quality, reactions up to 20, topic and freshness by age, less 15 for each tip of the author's today |
| TipScores.FresherIsNotRankedAfter | src/lib/tips.ts:156-163 | of two posts that differ only in age the fresher ranks first |
| TipScores.TiesKeepTheirOrder | src/lib/tips.ts:334-334 | candidates already in rank order stay as they are, so ties keep the order of the feed |
| TipScores.CandidatesComeInOrder | src/lib/tips.ts:268-270 | candidates are looked at in the order of the feed |
| TipScores.InvocationBooksTips | src/lib/tips.ts:424-434 | everything an invocation books, two entries at most, tips a post of its feed with the right amount and recipient |
| TipScores.InvocationSpendsAtMostSix | src/plugins/tips-plugin.ts:113-125 | so it spends at most 6 DEM, caps or no caps |
| TipScores.TipIsPaidExactly | src/plugins/tips-plugin.ts:92-98 | a tip of 1 to 3 DEM is paid if and only if tipping is live and it fits into 10 DEM a day and 5 a session |
| Tips.ExecuteTip | src/lib/tips.ts:357-463 | exactly when the policy lets the spend through, the ledger books it and the tip state remembers post, recipient count and time; otherwise only the day may roll over |
| Tips.TipsAfterAct | src/plugins/tips-plugin.ts:82-128 | the loop over the candidates leaves in both files what the invocation's specification says |
| TipRuns.TippedIsFaithful | src/lib/tips.ts:424-446 | a transfer keeps the tip state equal to what the full history of transfers says, wherever midnight falls between its clock readings |
| TipRuns.AfterActKeeps | src/plugins/tips-plugin.ts:82-128 | an invocation of the hook keeps the state faithful and every tipping guarantee, and transfers nothing while the gate is shut |
| TipRuns.AfterKeeps | src/plugins/tips-plugin.ts:82-128 | the same over any number of invocations, with the warm-up counter equal to the number of session changes |
| TipRuns.TippingGuarantees | src/lib/tips.ts:293-323 | over all runs two tips of one post have at least 500 other tips between them, tips of different invocations keep the cooldown, and no recipient gets more than maxPerRecipientPerDay + min(2, maxTipsPerSession) - 1 tips on one day |
| TipRuns.WarmUpGate | src/plugins/tips-plugin.ts:94-98 | tipping is live if and only if it is enabled, not a dry run, and the session number has changed often enough in earlier invocations (the number of distinct sessions, if numbers never go back); while not live nothing is transferred |
| TipRuns.WarmUpTransfersNothing | src/plugins/tips-plugin.ts:82-98 | as long as the session number had changed less than minSessionsBeforeLive times before the latest invocation nothing has been transferred, however often earlier sessions invoke the hook |
| TipRuns.WarmUpIsSkippedExactly | src/plugins/tips-plugin.ts:82-98 | tipping is live in one of the first minSessionsBeforeLive distinct sessions if and only if the last of them invokes the hook again |
| TipRuns.RepeatedInvocationSkipsWarmUp | src/lib/tips.ts:465-475 | a first session that invokes the hook twice transfers although one warm-up session is required |
| TipRuns.RunIsASpendingRun | src/plugins/tips-plugin.ts:92-127 | the ledger file of a tipping run is that of a run of the spending policy, and the transfers are its real entries |
| TipRuns.TipsStayWithinDailyCap | src/plugins/tips-plugin.ts:92-127 | so tips never come to more than 10 DEM on a UTC day |
| TipRuns.TipsStayWithinSessionCap | src/plugins/tips-plugin.ts:92-127 | and never to more than 5 DEM in one invocation |
| TipLimits.InvocationExceedsExactly | src/lib/tips.ts:299-309 | from counts within the limit, an invocation exceeds maxPerRecipientPerDay if and only if it tips a recipient twice on one day who stood one short of it |
| TipLimits.DailyLimitHoldsExactly | src/plugins/tips-plugin.ts:4-6 | a run keeps the daily limit if and only if none of its invocations does that |
| TipLimits.CooldownHoldsExactly | src/lib/tips.ts:310-323 | a run keeps the cooldown between any two tips if and only if it does within each invocation |
| TipLimits.OneTipKeepsBothLimits | src/lib/tips.ts:299-335 | with at most one tip a session both limits hold in every run |
| TipLimits.DefaultsAllowAnOverrun | src/lib/agent-config.ts:494-500 | a run under the default configuration in which one recipient gets three tips on a day, two of them at once |
| Base64.DecodeInvertsEncode | src/toolkit/hive-codec.ts:55-66 | RFC 4648, section 4: decoding the Base64 text of any bytes restores them |
| Base64.AlphabetLetters | src/toolkit/hive-codec.ts:7-8 | the letters of the Base64 alphabet of RFC 4648, table 1 |
| Base64.AlphabetRest | src/toolkit/hive-codec.ts:7-8 | its digits and signs |
| Base64.SextetsAreDigits | src/toolkit/hive-codec.ts:55-66 | four sextets are the base-64 digits of the number that three bytes form |
| Base64.TestVectors | src/toolkit/hive-codec.ts:55-66 | test vectors of RFC 4648, section 10, padding included |
| Base64.EncodeLooksBase64 | src/toolkit/hive-codec.ts:7-8 | the Base64 text of any non-empty bytes passes the decoder's character test |
| Base64.HexDecodeRestores | src/toolkit/hive-codec.ts:46-49 | RFC 4648, section 8: reading hex digits of either case in pairs restores the bytes |
| Base64.HexDigits | src/toolkit/hive-codec.ts:46-49 | the hexadecimal digits of RFC 4648, table 5, in either case |
| HiveCodec.EncodeHivePayload | src/toolkit/hive-codec.ts:18-25 | the array holds the four prefix bytes and the UTF-8 bytes of the JSON text, nothing else |
| HiveCodec.EncodeHivePost | src/actions/publish-pipeline-normalize.ts:8-15 | the publish pipeline's encoder emits the same bytes |
| HiveCodec.BytesRoundTrip | src/toolkit/hive-codec.ts:37-42 | decoding the encoder's bytes gives the payload back |
| HiveCodec.HexOfPayload | src/toolkit/hive-codec.ts:43-50 | a hex text of a payload, in either case, takes the hex branch, and what follows the prefix is the hex of the JSON bytes |
| HiveCodec.HexRoundTrip | src/toolkit/hive-codec.ts:44-50 | it decodes to the payload exactly up to 64 KB of JSON and to null beyond |
| HiveCodec.Base64OfPayload | src/toolkit/hive-codec.ts:45-56 | Base64 text of a payload is never taken for hex or raw text |
| HiveCodec.Base64RoundTrip | src/toolkit/hive-codec.ts:55-66 | and decodes to the payload |
| HiveCodec.RawRoundTrip | src/toolkit/hive-codec.ts:51-54 | raw text of a payload takes the raw branch and decodes to the payload |
| HiveCodec.EnvelopeRoundTrip | src/toolkit/hive-codec.ts:74-94 | a storage envelope decodes to its payload exactly up to 172 KB of Base64; a longer one is returned itself if it looks pre-decoded, and is null otherwise |
| HiveCodec.WrappingIsTransparent | src/toolkit/hive-codec.ts:67-73 | any number of storage tuples around data changes nothing |
| HiveCodec.EveryEncodingDecodes | src/toolkit/hive-codec.ts:32-105 | all five encodings within their limits decode to the payload under any wrapping |
| HiveCodec.EncodingsDoNotClash | src/toolkit/hive-codec.ts:32-105 | no data is an accepted encoding of two different payloads |
| HiveCodec.DecodesExactly | src/toolkit/hive-codec.ts:32-105 | the decoder gives a payload if and only if the data carries it: prefix bytes and JSON, as they are, as one of three kinds of string told apart by how they start and what they are made of, in an envelope, or wrapped; everything else gives null |
| HiveCodec.ForeignBytesAreRefused | src/toolkit/hive-codec.ts:39-84 | bytes without the prefix give null, bare or in an envelope, and so does their Base64 text unless it starts like another string form |
| HiveCodec.ObjectWithoutEnvelope | src/toolkit/hive-codec.ts:75-94 | an object without a bytes string gives itself if and only if it looks pre-decoded |
| HintText.SplitCommaList | scripts/normalize-doc-frontmatter.ts:119-145 | the loop splits at exactly the commas outside quotes, and joining the parts with commas restores the value |
| HintText.JoinInvertsSplitComma | scripts/normalize-doc-frontmatter.ts:119-145 | splitting loses nothing, from inside or outside quotes |
| HintText.MergeHints | scripts/normalize-doc-frontmatter.ts:87-113 | every non-blank comma part of every value of every field is among the merged hints, up to case; every merged hint is such a part; and they are the first spellings, in order |
| HintText.DedupIsDistinct | scripts/normalize-doc-frontmatter.ts:99-113 | no two merged hints agree up to case and every hint is represented |
| HintText.DedupKeepsFirstSpellings | scripts/normalize-doc-frontmatter.ts:104-109 | each merged hint is the first one with its key |
| HintText.UnquoteInvertsJsonQuote | scripts/normalize-doc-frontmatter.ts:147-156 | unquoting the JSON string of a hint without escapes restores it |
| HintLaws.TrimIsExact | scripts/normalize-doc-frontmatter.ts:93-96 | trimming takes the blanks off both ends and nothing else |
| HintLaws.UnquoteTakesQuotesOff | scripts/normalize-doc-frontmatter.ts:147-156 | quotation marks of either kind come off, with blanks around them, and what is inside stays |
| HintLaws.UnquoteOnlyTrims | scripts/normalize-doc-frontmatter.ts:147-156 | anything not enclosed in equal quotation marks is only trimmed |
| HintLaws.CommaSplits | scripts/normalize-doc-frontmatter.ts:135-139 | a comma outside quotes splits |
| HintLaws.QuotesKeepCommas | scripts/normalize-doc-frontmatter.ts:124-141 | commas between quotes of either kind do not, and an unclosed quote keeps the rest together |
| HintLaws.InlineListParses | scripts/normalize-doc-frontmatter.ts:158-164 | an inline list of bare and quoted hints gives exactly those hints, in brackets or not |
| HintLaws.HintsComeInOrder | scripts/normalize-doc-frontmatter.ts:87-113 | hints come in the order of the fields, their values and the parts of a value |
| HintLaws.UnescapeInvertsEscape | scripts/normalize-doc-frontmatter.ts:193-193 | reading a hint written by JSON.stringify gives it back, whatever its characters |
| HintLaws.EscapeIsJson | scripts/normalize-doc-frontmatter.ts:193-193 | and what is written is a JSON string |
| FrontMatter.ParseHintFieldAt | scripts/normalize-doc-frontmatter.ts:166-187 | the loop takes exactly the maximal list of deeper indented items below the heading |
| FrontMatter.ParseInvertsSerialize | scripts/normalize-doc-frontmatter.ts:166-195 | parsing a serialised field consumes exactly its lines and restores field and hints |
| FrontMatter.ScanFindsAllHints | scripts/normalize-doc-frontmatter.ts:209-221 | a pass removes a field if and only if some line is a hint of that field: none is swallowed as a list item |
| FrontMatter.SecondPassFinds | scripts/normalize-doc-frontmatter.ts:209-228 | a second pass over the merged lines finds exactly the merged field and the headings the first pass left above a list |
| FrontMatter.KeptHasFewer | scripts/normalize-doc-frontmatter.ts:209-221 | each pass removes at least one heading of every field it found |
| FrontMatter.MergedDiffers | scripts/normalize-doc-frontmatter.ts:226-232 | merging a field other than the target leaves fewer of its headings, so the text changes |
| FrontMatter.NothingAdopted | scripts/normalize-doc-frontmatter.ts:166-187 | if no list item directly follows a hint field, no kept heading gets a list |
| FrontMatterFile.SplitReassembles | scripts/normalize-doc-frontmatter.ts:72-85 | the parts of a file put together are the file, and the yaml holds no fence |
| FrontMatterFile.SplitInvertsAssemble | scripts/normalize-doc-frontmatter.ts:72-85 | splitting the assembled file returns the same parts |
| FrontMatterFile.FencesAreLines | scripts/normalize-doc-frontmatter.ts:74-74 | a fence is found inside the yaml exactly if a line after the first starts like one |
| FrontMatterFile.NormalizeFile | scripts/normalize-doc-frontmatter.ts:197-239 | the loop of the function equals the scan of the lines, and its result the specified rewriting |
| FrontMatterFile.SecondPassReads | scripts/normalize-doc-frontmatter.ts:226-238 | a rewritten file splits into the same body and fence, and its lines are the merged lines without trailing empty ones |
| FrontMatterFile.SecondPassExactly | scripts/normalize-doc-frontmatter.ts:197-239 | a second run changes a rewritten file if and only if the first left another field's heading directly above a list and the file still holds use_when or read_when |
| FrontMatterFile.NormalizeIsIdempotent | scripts/normalize-doc-frontmatter.ts:197-239 | on every file in which no list item directly follows a hint field a second run reports no change |
| FrontMatterFile.NormalizeIsNotAlwaysIdempotent | scripts/normalize-doc-frontmatter.ts:197-239 | a file that the second run changes again |
| FrontMatterFile.RewritingChanges | scripts/normalize-doc-frontmatter.ts:223-232 | a file with a drifting field is really reported as changed |
| FrontMatterLaws.HeadingLineIsRead | scripts/normalize-doc-frontmatter.ts:168-173 | blanks, one of the three names, a colon and a value on one line are read as a hint heading |
| FrontMatterLaws.HeadingsAreSuchLines | scripts/normalize-doc-frontmatter.ts:168-173 | and no other line is |
| FrontMatterLaws.ItemLineIsRead | scripts/normalize-doc-frontmatter.ts:178-181 | more blanks than the heading has, a dash and a value are read as a list item with that value |
| FrontMatterLaws.ItemsAreSuchLines | scripts/normalize-doc-frontmatter.ts:178-181 | and no other line is |
| FrontMatterLaws.KeptLinesExactly | scripts/normalize-doc-frontmatter.ts:209-221 | the pass keeps, in order, exactly the lines that are neither a hint nor an item of the list under one |
| FrontMatterLaws.ChangesExactly | scripts/normalize-doc-frontmatter.ts:197-239 | a file is rewritten if and only if it has a hint of another field than its place calls for and a hint of use_when or read_when |
| FrontMatterLaws.NewLines | scripts/normalize-doc-frontmatter.ts:226-231 | the new lines are the old ones up to the first hint, the merged field, and the rest without hints; only empty lines at the end are dropped |
| FrontMatterLaws.HintsSurvive | scripts/normalize-doc-frontmatter.ts:202-238 | every hint of the old file, inline or in a list, is held by topic_hint, or under docs/rules by read_when, in the new file, up to case, if it needs no escapes |
| TestBody.ExtractTestBody | src/lib/test-quality-validator.ts:81-139 | the nested loops compute the search over the braces outside strings and line comments |
| TestBody.ScanLine | src/lib/test-quality-validator.ts:88-135 | the column loop continues the search across one line |
| TestBody.SkipLiteral | src/lib/test-quality-validator.ts:94-106 | the inner loop stops at the closing quote or past the end of the line |
| Lexing.PlainTextCountsAll | src/lib/test-quality-validator.ts:109-115 | in text without quotation marks and double slashes exactly every brace counts |
| Lexing.LiteralsHideBraces | src/lib/test-quality-validator.ts:92-102 | a literal in double, single or back quotes hides all braces in it, escaped quotation marks included, and the braces before and behind it count; an unclosed one hides the rest of its line |
| Lexing.UnclosedLiteralHidesTheRest | src/lib/test-quality-validator.ts:96-100 | also when it ends in a backslash |
| Lexing.CommentsHideBraces | src/lib/test-quality-validator.ts:104-107 | behind two slashes outside a literal nothing counts |
| Lexing.BracesShift | src/lib/test-quality-validator.ts:89-130 | what stands before a place on the line does not change how the rest is read |
| TestBody.SearchFindsTheMatch | src/lib/test-quality-validator.ts:110-133 | when the first brace opens, the search ends at its match, with every proper prefix nested, and fails if and only if there is none |
| TestBody.MatchIsUnique | src/lib/test-quality-validator.ts:110-133 | a brace has at most one match |
| TestBody.BetweenIsJoin | src/lib/test-quality-validator.ts:118-131 | the lines put together are the text of the file between the two places |
| TestBody.ExtractedIsBetweenMatchingBraces | src/lib/test-quality-validator.ts:81-139 | when the first brace opens, the result is null if and only if it has no match, and otherwise is the text strictly between the two if and only if the first stands on the start line |
| StrayBraces.BodyIsReturnedExactly | src/lib/test-quality-validator.ts:81-139 | with the first opening brace behind any number of stray closing ones and a match for it, the text returned is the text strictly between the two if and only if there is no stray closing brace and the opening one stands on the start line |
| StrayBraces.StrayCloserDerails | src/lib/test-quality-validator.ts:110-133 | after a stray closing brace on the start line the text returned is never the body |
| StrayBraces.LaterOpenerDerails | src/lib/test-quality-validator.ts:118-128 | with the opening brace on a later line the text returned is never the body |
| StrayBraces.DepthAtBrace | src/lib/test-quality-validator.ts:87-117 | the running depth at a brace is what the lines above it and its own line up to it add up to |
| StrayBraces.LaterOpenerExample | src/lib/test-quality-validator.ts:118-128 | a file of two lines with body "x" for which another text is returned |
| StrayBraces.StrayCloserExample | src/lib/test-quality-validator.ts:110-128 | a line with body "{x}" for which "{x" is returned |
| ChainReader.GetHivePosts | src/toolkit/chain-reader.ts:112-149 | stopping early returns the first `limit` items of the full five-page scan, or all of them |
| ChainReader.GetRepliesTo | src/toolkit/chain-reader.ts:193-236 | the result is the scan of exactly as many pages as it takes, from the second on, until every target has a reply, and of ten if that never happens |
| ChainReader.StepBack | src/toolkit/chain-reader.ts:135-145 | the next page starts below the oldest transaction, at most a page below and never below 1, and is never the page it comes from; there is no next page only if nothing older is left or that page was just read |
| ChainReader.EnoughIsEnough | src/toolkit/chain-reader.ts:120-148 | items beyond the limit do not change the first ones |
| ChainReader.ScanOfAChain | src/toolkit/chain-reader.ts:112-149 | closed form of the scan of a chain of n transactions |
| ChainReader.PagesLeaveNoGap | src/toolkit/chain-reader.ts:135-145 | the scan reads each of the newest 500 ids, and some id twice if and only if the chain is longer than a page, shorter than five and not a whole number of pages |
| ChainReader.ClippedPageExample | src/toolkit/chain-reader.ts:139-141 | the scan of 150 transactions reads 200, the ids 100 to 51 twice |
| ChainReader.PagesCoverNewest | src/toolkit/chain-reader.ts:112-149 | a scan of any number of pages reads exactly the newest 100 ids for each of them |
| ChainReader.RepliesReachBack | src/toolkit/chain-reader.ts:198-233 | the full scan for replies reads exactly the newest 1000 |
| ChainReader.UnansweredReadsAll | src/toolkit/chain-reader.ts:218-221 | and it is read in full if the targets are never all answered |
| DeepMerge.DeepMerge | src/lib/agent-config.ts:427-442 | the loop over the override's keys computes the merge |
| DeepMerge.OverrideWinsAtEveryPath | src/lib/agent-config.ts:427-442 | at every path the override decides what it shadows and the base everything else |
| DeepMerge.PathsDetermineTree | src/lib/agent-config.ts:427-442 | trees that agree at every path are equal, so the previous law determines the merge |
| DeepMerge.EmptyObjectIsIdentity | src/lib/agent-config.ts:427-442 | the empty object is neutral on both sides |
| DeepMerge.MergingTwiceIsMergingOnce | src/lib/agent-config.ts:427-442 | laying the same override over the result changes nothing |
| DeepMerge.CoveredIsAbsorbed | src/lib/agent-config.ts:427-442 | a merge equals its override exactly when the override covers the base |
| DeepMerge.AssociativeExactly | src/lib/agent-config.ts:427-442 | merging is associative on three layers if and only if, wherever the middle one puts a non-object between two objects, the third covers the first |
| DeepMerge.NoGapAssociates | src/lib/agent-config.ts:427-442 | in particular merging is associative when the middle layer puts no non-object between two objects |
| DeepMerge.NonObjectBetweenObjects | src/lib/agent-config.ts:427-442 | three layers whose merges from the left and from the right differ |
| Improvements.IdIsInjective | cli/improvements.ts:86-91 | different session and sequence numbers give different ids |
| Improvements.Tracker.CheckDuplicate | src/lib/improvement-utils.ts:68-83 | a duplicate is reported if and only if an active item has the same normalised description, with such an item's id |
| Improvements.Tracker.NextId | cli/improvements.ts:86-91 | the id carries the session's next sequence number, and only that counter moves |
| Improvements.Tracker.Add | cli/improvements.ts:198-224 | an item is added unless it duplicates an active one |
| Improvements.Tracker.AddAll | cli/improve.ts:434-453 | the auto-apply loop proposes each issue in turn |
| Improvements.Tracker.Move | cli/improvements.ts:227-275 | the first item with the id moves exactly when the transition is valid and carries its evidence or reason; otherwise nothing changes |
| Improvements.Tracker.AgeOutStale | src/lib/improvement-utils.ts:129-147 | exactly the proposed items twenty or more sessions old become stale, and are counted |
| Improvements.Tracker.Perform | cli/improvements.ts:365-394 | each command acts on the file as the run model says |
| Improvements.AddKeepsInv | cli/improve.ts:290-325 | both proposing programs keep ids unique and active descriptions distinct |
| Improvements.ExecuteKeepsInv | cli/improvements.ts:365-394 | every command keeps the invariant and moves existing items by at most one valid transition |
| Improvements.EveryRunKeepsInv | cli/improvements.ts:175-284 | over every sequence of commands ids are unique, at most one active item has a normalised description, and each history is a path of valid transitions from proposed to the status |
| Improvements.ItemsOnlyMoveForward | src/lib/improvement-utils.ts:38-45 | later commands only extend an item's history, never touch its id or description, and leave terminal items unchanged forever |
| ImprovementLaws.PathsAreLives | src/lib/improvement-utils.ts:41-45 | the paths of valid transitions from proposed are exactly seven lives |
| ImprovementLaws.RunsLiveSoFar | src/lib/improvement-utils.ts:41-45 | in every run every item has one of them so far |
| ImprovementLaws.TransitionMovesOne | cli/improvements.ts:227-275 | the named item moves if and only if its status allows it, a verification has evidence and a rejection a reason; its other fields and all other items stay |
| ImprovementLaws.UnknownIdIsRefused | cli/improvements.ts:235-244 | an unknown or missing id changes nothing |
| ImprovementLaws.ProposalIsAppended | cli/improvements.ts:181-222 | a complete proposal without an open double is appended with exactly its fields and the next id of its session; any other changes nothing |
| ImprovementLaws.AutoApplyAppends | cli/improve.ts:290-325 | so does the other program, for the current session |
| ImprovementLaws.CleanupAgesOut | src/lib/improvement-utils.ts:129-147 | a cleanup changes exactly the proposed items of twenty sessions ago or more |
| ImprovementLaws.DecimalReads | cli/improvements.ts:86-91 | the numbers in an id are decimal |
| ReviewFindings.FindingsFile.Save | src/lib/review-findings.ts:78-95 | the file after a save: the session's old entry gone, the new one last, five at most |
| ReviewFindings.FindingsFile.LoadLatest | src/lib/review-findings.ts:101-105 | after any history of saves the findings loaded are those saved last |
| ReviewFindings.LatestAppend | src/lib/review-findings.ts:81-87 | replacing and appending agrees with keeping each session's latest save of the whole history |
| ReviewFindings.TruncateEarly | src/lib/review-findings.ts:89-92 | truncating before a save loses nothing that truncating after it would keep |
| ReviewFindings.FileHoldsLastFive | src/lib/review-findings.ts:78-95 | after every history the file holds the last five sessions of it, each with its latest findings, in order |
| BudgetTracker.Tracker.CanAfford | src/lib/budget-tracker.ts:75-89 | what is not positive is always affordable, and a positive amount if and only if with it the category's spending stays within its share of the balance and within its cap |
| BudgetTracker.Tracker.RecordSpend | src/lib/budget-tracker.ts:92-103 | the spend is recorded even when it is not affordable, which the result reports |
| BudgetTracker.Tracker.RecordIncome | src/lib/budget-tracker.ts:106-116 | income raises the category's counter and the balance and is recorded |
| BudgetTracker.EntriesReplay | src/lib/budget-tracker.ts:92-116 | after any operations the entries of each category add up to its two counters |
| BudgetTracker.BalanceIsSetPlusIncome | src/lib/budget-tracker.ts:106-121 | the balance is the one set last plus the income recorded since; spending does not move it |
| BudgetTracker.IncomeIsConserved | src/lib/budget-tracker.ts:106-116 | if none is set, the balance has grown by the income of all categories |
| BudgetTracker.StepStaysWithinShares | src/lib/budget-tracker.ts:75-121 | a guarded operation keeps every category within its share of the balance |
| BudgetTracker.RunStaysWithinShares | src/lib/budget-tracker.ts:75-121 | so does any run of guarded operations |
| BudgetTracker.GuardedSpendingIsCovered | src/lib/budget-tracker.ts:75-121 | if every spend was affordable when made, amounts are not negative, the shares come to at most 100 percent and the balance is never set lower, spending over all categories never exceeds the balance |
| BudgetTracker.DefaultAllocationsAreSound | src/lib/budget-tracker.ts:45-52 | the default shares are not negative and come to at most 100 percent |
| ReferenceAgent.Decide | agents/reference/agent.ts:50-123 | the loops, with their early exits and the shared budget, produce the specified plan |
| ReferenceAgent.PlanStaysWithinBudget | agents/reference/agent.ts:50-123 | for costs that are not negative a plan comes to at most the smaller of daily cap and balance, plus what one tip may exceed its budgeted cost |
| ReferenceAgent.PlanKeepsTheBudget | agents/reference/agent.ts:92-122 | when a tip may cost no more than budgeted, or bets are off or free, a plan never exceeds the budget |
| ReferenceAgent.OverdrawnPlan | agents/reference/agent.ts:92-122 | a plan of 19 DEM under a budget of 10, the most the bound allows |
| ReferenceAgent.PlanRespectsLimits | agents/reference/agent.ts:50-123 | at most one publish and one tip, and reactions and bets within their limits |
| PlanContents.PlanIsJustified | agents/reference/agent.ts:54-122 | every action of a plan is for a signal or a post that qualifies, not one of our own; a reaction disagrees only with an unattested post; a tip is the smaller of the maximum and the whole DEM left; a bet follows its signal's direction |
| PlanContents.NothingIsPassedOver | agents/reference/agent.ts:76-104 | other posts get reactions up to the limit, and a tip is planned if and only if the budget covers one and a post may be tipped |
| PlanContents.BetsAreAllThereIs | agents/reference/agent.ts:107-122 | bets are placed on all directed signals until limit or budget is used up |
| PlanContents.FirstTippableIsTipped | agents/reference/agent.ts:92-104 | the tip goes to the first post that may be tipped |
| PlanContents.ReactionsComeInOrder | agents/reference/agent.ts:79-89 | the k-th reaction is to the k-th post that is not our own, and agrees as configured |
| PlanContents.PostsComeInOrder | agents/reference/agent.ts:73-77 | leaving out our own posts keeps the others in order |
| PlanContents.SignalsComeInOrder | agents/reference/agent.ts:54-56 | so does leaving out signals that do not qualify |
| ReferenceAgent.RotationOffersEachOnce | agents/reference/agent.ts:58-61 | of as many consecutive cycles as there are eligible signals, exactly one offers each position |
| ReferenceAgent.TurnsGoRound | agents/reference/agent.ts:57-60 | the first cycle offers the first signal, and each cycle the one after its predecessor's |
| ReferenceAgent.PlanOpensWithTheTurn | agents/reference/agent.ts:58-68 | a cycle's plan opens by publishing the signal whose turn it is, exactly when the budget covers it |
| ShapeTree.ExampleHasTheShapeExactly | scripts/verify-primitives.ts:108-171 | the example of a value's shape has that shape if and only if nothing but the ellipsis stands five levels below the root |
| ShapeTree.ShapeRetraction | scripts/verify-primitives.ts:108-171 | in particular for every value at most four levels deep |
| ShapeTree.FifthLevelIsLost | scripts/verify-primitives.ts:108-171 | a number inside five arrays comes back with another shape |
| ShapeTree.SameShapeExactly | scripts/verify-primitives.ts:108-123 | two values have the same shape if and only if they agree in kind, scalars, names and first items down to the eighth level |
| Census.GiniNumerator | scripts/colony-census.ts:84-91 | the single pass over sorted counts computes the sum of the differences of all pairs of the unsorted ones |
| Census.WeightedIsPairSpread | scripts/colony-census.ts:128-131 | the weighted sum over ascending counts equals the sum over all pairs |
| Census.SortedIsFaithful | scripts/colony-census.ts:124-124 | sorting is ascending and keeps every total and spread |
| Census.NumeratorBounds | scripts/colony-census.ts:88-91 | the numerator lies between 0 and (n - 1) times the total |
| Census.ZeroMeansEqual | scripts/colony-census.ts:88-91 | and is 0 if and only if all counts are equal |
| Census.GiniBounds | scripts/colony-census.ts:92-92 | the coefficient lies between 0 and (n - 1) / n for a positive total |
| Census.OneHasEverything | scripts/colony-census.ts:84-92 | the upper bound is reached when one of n has everything |
| Calibration.OffsetsContract | src/lib/improvement-utils.ts:104-110 | under any sequence of errors two offsets approach each other by 0.7 a step, and every offset is in range after a step |
| Calibration.ConstantErrorConverges | src/lib/improvement-utils.ts:104-110 | under a constant error in range the offset approaches it geometrically |
| Calibration.ApproachIsExact | src/lib/improvement-utils.ts:104-110 | from an offset in range the distance to a constant error in range shrinks by exactly 0.7 a step |
| Calibration.LargeErrorsSaturate | src/lib/improvement-utils.ts:109-109 | an average beyond 15 either way is cut off at 15 |

## Left out

- Wallets, SDK and RPC transport, HTTP, authentication and language-model calls: only their results appear, as parameters.
- Floating-point rounding.
- The phase record of a session in `src/lib/state.ts` (begin, complete, fail, next phase, migration): each operation overwrites one entry, so its properties would be easy members.
- Fallbacks for corrupt or missing state files, and the atomicity of write-then-rename.
- The spending policy's confirmation flag, its log entries, and the other fields of a transaction.
- Scoring a post against the agent's topics: the score is an input of the selection.
- The normalisation of improvement descriptions, a chain of regular expressions: an arbitrary function.
- Which test blocks the quality validator looks at, and its assertion patterns: only the brace matcher is modelled.
- Block comments, regular-expression literals and template nesting, which the brace matcher does not lex either.
- Grouping observations into issues, and the list of top items.
- `src/toolkit/chain-scanner.ts`, which pages by block number.
- How a raw transaction is decoded into a post: a function parameter of the pagination loops.
- The attestation checks of the publish pipeline and the other normalisers of its inputs.
- Configuration validation around deepMerge, and the key `__proto__`.
- Budget snapshots and summaries, and the descriptions and timestamps of budget entries.
- Which paths lie under docs/rules: a parameter of the normaliser.
- Command-line parsing, printing and report generation.
