# Verified model of the SafeOpsAgent backend

A Dafny model of seven parts of the SafeOpsAgent backend, with proofs of what
their documentation promises or, where the code falls short of a promise, of
exactly when it holds.

- **Audit log** (`CanonicalJson`, `HashChain`, `AuditChain`, `AuditHistory`,
  `DayTables`, `AuditLogger`): the hashed encodings, the chain walk over day
  tables, the logger as a class, and what a clean report means.
- **Reversible cleanup** (`Relocation`, `CleanupScan`, `CleanupMoves`,
  `Cleanup`, `CleanupTheorems`): the bounded scan, single-use plans, quarantine
  and restore with rollback. A parameter of each call says what may go wrong in
  it: nothing, only the manifest write, or any check and any system call.
- **Robust baseline** (`OrderStatistics`, `Baseline`): median and MAD learning
  and the anomaly rule.
- **JSON bounds** (`JsonBounds`, `JsonNesting`): the explicit-stack walk and the
  character scanner.
- **Console authentication** (`SlidingWindow`, `RateBound`, `AttemptLimiter`,
  `Base64Url`, `Numerals`, `PasswordVerifier`, `SessionTokens`): the attempt tables, the three token
  classes and the password verifier.
- **Execution gate** (`RiskScore`, `PlanLoop`, `Confirmations`,
  `ExecutionGate`, `RequestHandlers`): risk score, plan loop, one-time
  confirmations, and a state machine in which any number of requests interleave.
- **Client identity** (`Splitting`, `ClientIdentity`): the forwarded chain.

SHA-256, HMAC and PBKDF2 are parameters. Collision-freeness is required of the
digests of the texts actually hashed only, and unforgeability only of the
signatures actually presented; both are hypotheses of the lemmas that need them.
Clock readings, random bytes, check results of the guardrail, tool results and
failures are parameters or nondeterministic choices.

What the proofs show beyond, or against, the promises of the code:

- Without a key, a report is also clean when no chained row is left at all,
  because the head is compared only after a chained row was seen
  (`AuditHistory.UnkeyedSoundness`).
- A run of honest `log` calls verifies exactly when the days of its committed
  calls never go back and no legacy row is of a later day than any of them
  (`AuditLogger.CleanExactlyWhenOrdered`).
- The move loop of restore looks at a source again but not at a destination; the
  moves it makes lose no file exactly when no two of them share an original path.
  Manifests written by quarantine never share one
  (`CleanupTheorems.RestoreLoopKeepsFiles`).
- A manifest write that breaks half-way leaves `manifest.tmp` behind: the files
  go back to the quarantine, and no later restore of it succeeds, whatever calls
  come between (`CleanupTheorems.BrokenWriteBlocksRestore`). For an undisturbed
  quarantine a restore without faults succeeds exactly when no `manifest.tmp` is
  left (`CleanupTheorems.UndisturbedRestore`).
- The order of severities fails for a negative median whose band reaches 0, and
  for no other learned baseline (`Baseline.SeverityOrderedExactly`).
- A text whose parsed value is within the limits can still be too deep for the
  scanner, through a value that a repeated name shadows
  (`JsonNesting.LimitsMeetScanner`, `JsonNesting.RepeatedNameHidesDepth`).
- The clock is read before the lock is taken, so a limiter can see readings that
  go back even from a steady clock. Every pruned table answers all runs with
  given readings as the complete log does exactly when no three of the readings,
  in their order, make it forget (`SlidingWindow.ExactReadings`); readings that
  never go back are among them (`SlidingWindow.SteadyClock`). The rate bound itself
  holds for more readings: exactly where no three of them split a window
  (`RateBound.BoundedExactly`).
- Several texts decode to the same bytes. Encoding gives a text back exactly when
  it has only url letters, no length that fills no byte, and no unused bit set
  (`Base64Url.CanonicalExactly`; `Base64Url.SeveralTextsDecodeAlike` gives examples).
- A verifier can be generated for a salt shorter than 8 or longer than 64 bytes,
  and then accepts no password (`PasswordVerifier.GeneratedVerifier`).
- With a user name outside ASCII every authentication of an issued session
  raises (`SessionTokens.SessionRoundTrip`).
- A chat plan is rejected exactly when tools answered but every entry ends
  blocked, or no tool answered and some entry is forbidden
  (`PlanLoop.PlanRejectedExactly`). Only the flag `executed` is then sure to be
  unset: in the first case tools have run, and a blocked output may have come from
  a success. In the second, tools asked to run have raised, which the registry in
  `safeopsagent/backend/tools/registry.py:49-60` turns into results, so that case
  takes another registry (`PlanLoop.RejectedAfterCalls`).
- An address in `X-Forwarded-For`, whoever sent it, makes a proxy's `Forwarded`
  header irrelevant (`ClientIdentity.XForwardedForOverrides`).
- `/tools/call` and `/tools/confirm` answer "reject" with `executed` set exactly
  when the tool succeeded and its output was blocked, and `/chat` answers that
  nothing was executed, untruly, exactly when the log write fails after a tool
  was asked to run (`RequestHandlers`).

## Model

| member | source | states |
|---|---|---|
| CanonicalJson.DumpsInjective | safeopsagent/backend/audit/chain.py:75-77 | Compact JSON of string pairs, with the escapes of RFC 8259 section 7, is injective. |
| CanonicalJson.EscapeReadsBack | safeopsagent/backend/audit/chain.py:75-77 | A JSON reader, by section 7 of RFC 8259, gives back every escaped text. |
| AuditChain.PayloadUnambiguous | safeopsagent/backend/audit/chain.py:66-77 | Two records have the same canonical payload exactly when in each of the 26 named columns they hold alike values: equal ones, an integer and its own numeral as text, or the empty text and no value. |
| Numerals.PrintedExactly | safeopsagent/backend/audit/chain.py:75-76 | A text is what an integer prints as exactly when it is a numeral without plus sign, blanks or superfluous zeros that reads as that integer. |
| HashChain.LinkTextInjective | safeopsagent/backend/audit/chain.py:84-86 | `prev:digest` is unambiguous for digests of one length, whatever the predecessors are. |
| HashChain.SameHead | safeopsagent/backend/audit/chain.py:84-86 | Two honest histories with the same head are the same sequence of payloads. |
| HashChain.HeadsDistinct | safeopsagent/backend/audit/chain.py:84-86 | No two heads of one history coincide, genesis included. |
| AuditChain.ScanCharacterised | safeopsagent/backend/audit/logger.py:304-338 | After any rows, no break has been noted exactly when the chained rows after the legacy prefix are linked from genesis; expected link and flag are then determined. |
| AuditChain.VerdictCharacterised | safeopsagent/backend/audit/logger.py:280-347 | The report is clean exactly for a legacy prefix followed by a chain linked from genesis whose last entry is the stored head; its counters and authenticity are exact. |
| AuditChain.FirstBreakAt | safeopsagent/backend/audit/logger.py:294-302 | The first break is the one reported, whatever follows it and whatever the head is. |
| AuditHistory.SignedIsPrefix | safeopsagent/backend/audit/logger.py:333-337 | A linked chain with only honest signatures is a prefix of the honest history. |
| AuditHistory.KeyedSoundness | safeopsagent/backend/audit/logger.py:304-343 | With a key, and whatever was done to rows and head, the report is clean exactly when the chained rows are, in order, the first honest records and the head is the last of them. |
| AuditHistory.UnkeyedSoundness | safeopsagent/backend/audit/logger.py:269-343 | Without a key and with the honest head, the report is clean exactly when all honest records are there unchanged and in order, or no chained row is left at all. |
| AuditHistory.EditIsLocated | safeopsagent/backend/audit/logger.py:327-329 | Editing any one of the 26 columns of a chained row, to a value that is not alike, makes that row the first break, as modified content. |
| AuditHistory.DeletionIsLocated | safeopsagent/backend/audit/logger.py:324-326 | Deleting a chained row that is not the last makes the next row the first break, as a broken link. |
| AuditHistory.TruncationIsLocated | safeopsagent/backend/audit/logger.py:340-343 | Cutting off the last rows, but not all chained ones, is reported at the head. |
| AuditHistory.StrippingIsLocated | safeopsagent/backend/audit/logger.py:313-321 | Blanking the chain fields of a row is reported at that row, or for the first chained row at the next. |
| AuditHistory.EntriesDistinct | safeopsagent/backend/audit/chain.py:84-86 | The links of an accepted chain are pairwise distinct and differ from genesis. |
| DayTables.AppendExtendsWalk | safeopsagent/backend/audit/logger.py:304-309 | A row inserted into today's table is the last of the sorted walk when no row is from a later day. |
| DayTables.FlattenSorted | safeopsagent/backend/audit/logger.py:308-309 | The walk meets the tables in ascending order of their names. |
| DayTables.RowsIdentified | safeopsagent/backend/audit/logger.py:71-71 | Where numbers rise within each table, table name and row number name one row of the walk. |
| AuditLogger.Logger.Log | safeopsagent/backend/audit/logger.py:179-212 | One call inserts one linked and signed row and advances the head to it, or fails leaving at most an empty table for today. |
| AuditLogger.Logger.VerifyChain | safeopsagent/backend/audit/logger.py:269-347 | The loops over tables and rows compute the verdict on the sorted walk. |
| AuditLogger.Logger.VerifyRow | safeopsagent/backend/audit/logger.py:309-338 | One row's checks, in their order, keep the first break and the running link. |
| AuditLogger.RunMembers | safeopsagent/backend/audit/logger.py:179-212 | After any run, failed calls included, the walk holds exactly the rows present before and the rows written. |
| AuditLogger.RunRising | safeopsagent/backend/audit/logger.py:67-108 | No run, failed calls included, gives two rows of one table the same number, so a report of table and row number names one row. |
| AuditLogger.HonestRunVerifies | safeopsagent/backend/audit/logger.py:179-212 | From legacy rows, every run whose committed days never go back and are no earlier than a legacy row's verifies clean, failed calls included, with one chained row per committed call. |
| AuditLogger.CleanExactlyWhenOrdered | safeopsagent/backend/audit/logger.py:304-343 | Such a run verifies clean if and only if the days of its committed calls never go back and no legacy row is of a later day than one of them. |
| Relocation.RenameConserves | safeopsagent/backend/cleanup/service.py:214 | Renaming onto a free path keeps every file, unchanged, at exactly one path. |
| Relocation.RoundTrip | safeopsagent/backend/cleanup/service.py:206-229 | A batch of moves followed by the opposite batch takes every file back where it was. |
| CleanupScan.WalkReaches | safeopsagent/backend/cleanup/service.py:434-458 | The walk meets only paths below the root that pass through no quarantine directory. |
| CleanupScan.WalkFinds | safeopsagent/backend/cleanup/service.py:434-458 | The walk meets exactly the files reached from the root through directories that are neither symlinks nor quarantine directories. |
| CleanupScan.WalkDistinct | safeopsagent/backend/cleanup/service.py:434-458 | In a tree whose directories have no name twice, the walk meets no path twice. |
| CleanupScan.ScanDirectory | safeopsagent/backend/cleanup/service.py:83-108 | The inner loop takes every qualifying file in order until a budget stops it, keeping the totals exact. |
| CleanupScan.Scan | safeopsagent/backend/cleanup/service.py:62-127 | `total_bytes` is the sum of the candidates' sizes, all four budgets hold, and a qualifying file is left out only for a used-up budget. |
| CleanupScan.TotalSizeAdds | safeopsagent/backend/cleanup/service.py:105-106 | `total_bytes` is the sum of the sizes. |
| CleanupScan.SelectionEligible | safeopsagent/backend/cleanup/service.py:347-375 | Every candidate is the snapshot (path, size, time, inode, device) of a file of the tree that is regular, of an allowed suffix, owned, with one link, old and small enough, below the root, and outside quarantine directories and protected assets. |
| CleanupScan.SelectionComplete | safeopsagent/backend/cleanup/service.py:83-108 | Where no budget was used up, every such file of the tree is a candidate. |
| CleanupScan.SelectionDistinct | safeopsagent/backend/cleanup/service.py:80-108 | In such a tree no file is listed twice. |
| CleanupMoves.Disk.Replace | safeopsagent/backend/cleanup/service.py:214 | `os.replace` onto a free path moves one file or, where faults are allowed, does nothing. |
| CleanupMoves.Disk.RollBack | safeopsagent/backend/cleanup/service.py:557-579 | Reverse-order rollback leaves standing exactly the moves it counts as errors; without errors every file is back. |
| CleanupMoves.FileStands | safeopsagent/backend/cleanup/service.py:206-229 | Each file of a batch is, unchanged, at exactly one of the two paths of its move, whichever moves still stand. |
| Cleanup.Service.CleanupExpiredPlans | safeopsagent/backend/cleanup/service.py:581-589 | Exactly the expired plans go, except the one named. |
| CleanupTheorems.SweepExactly | safeopsagent/backend/cleanup/service.py:581-589 | A sweep leaves every unexpired plan, and the one named, unchanged, and no other. |
| Cleanup.Service.CreatePlan | safeopsagent/backend/cleanup/service.py:129-169 | A new unused plan, bound to the digest of its content, holds exactly the candidates a scan of its root selects, none twice; besides, only expired plans go. |
| Cleanup.Service.ConsumePlan | safeopsagent/backend/cleanup/service.py:171-189 | A plan is let through exactly when it is known, unused, unexpired, non-empty and its hash matches, and is used from then on; other plans change only by expiring. |
| Cleanup.Service.MakeMove | safeopsagent/backend/cleanup/service.py:214-229 | A move counts for rollback as soon as it is made, before its result is checked. |
| Cleanup.Service.QuarantineFiles | safeopsagent/backend/cleanup/service.py:206-259 | The moves made are those of the first candidates, in order, into the new directory; all are made and recorded, or those left standing are exactly the reported rollback errors. Distinct candidates without faults are all moved. |
| Cleanup.Service.Quarantine | safeopsagent/backend/cleanup/service.py:171-269 | In every call, failed ones included, only planned candidates move, and only into the new directory; after a failure exactly as many moves stand as rollback errors are reported. Success implies the plan was ready, and a ready plan succeeds without faults. |
| Cleanup.Service.WriteManifest | safeopsagent/backend/cleanup/service.py:516-529 | Writing succeeds only with no `manifest.tmp` in the way; a failure changes no manifest, and a broken write leaves `manifest.tmp`, which no call removes. |
| Cleanup.Service.RestoreFiles | safeopsagent/backend/cleanup/service.py:287-338 | The moves made are the first of the manifest's opposite moves; all are made and recorded, or those left standing are exactly the reported rollback errors. |
| Cleanup.Service.Restore | safeopsagent/backend/cleanup/service.py:271-345 | Success makes exactly the opposite moves of the manifest, at most once per quarantine; after a failure exactly as many of them stand as errors are reported. Success implies the quarantine was restorable, and a restorable one succeeds without faults. |
| CleanupTheorems.FirstRootExactly | safeopsagent/backend/cleanup/service.py:422-426 | The allowed root of a path is the first that contains it. |
| CleanupTheorems.FirstManifestExactly | safeopsagent/backend/cleanup/service.py:499-514 | The quarantine restored is the one below the first allowed root that has one of that name. |
| CleanupTheorems.QuarantinedNotScanned | safeopsagent/backend/cleanup/service.py:434-458 | No scan of an allowed root, or of one above it, meets a file quarantined below that root. |
| CleanupTheorems.ManifestPaths | safeopsagent/backend/cleanup/service.py:206-259 | In any reachable state a manifest records paths inside its directory that go back below the scanned root, to known directories and to no protected asset. |
| CleanupTheorems.QuarantineKeepsFiles | safeopsagent/backend/cleanup/service.py:171-269 | After any quarantine call each file is, unchanged, at its own path or in the quarantine directory, and files outside the plan have not moved. |
| CleanupTheorems.RestoreKeepsFiles | safeopsagent/backend/cleanup/service.py:271-345 | After any restore call each file is where it was or, for a quarantined one, unchanged at its original path, which was free. |
| CleanupTheorems.UndisturbedRestore | safeopsagent/backend/cleanup/service.py:271-345 | For an unrestored quarantine nobody has touched, a restore without faults succeeds if and only if no `manifest.tmp` is left; else the files are as before. |
| CleanupTheorems.BrokenWriteBlocksRestore | safeopsagent/backend/cleanup/service.py:322-345 | One broken manifest write fails the restore without rollback errors, and after any further calls that quarantine is still unrestored. |
| CleanupTheorems.QuarantineThenRestore | safeopsagent/backend/cleanup/service.py:171-345 | A successful quarantine followed by a successful restore is the identity on the file store; a ready plan without faults is quarantined, and a restore without faults right after it succeeds. |
| CleanupTheorems.QuarantineCallsRestore | safeopsagent/backend/cleanup/service.py:129-345 | With any other calls in between, a successful restore leaves at the path of each quarantined file the very file that was there before; whether quarantine and restore succeeded is what manifests and restored directories show. |
| CleanupTheorems.MakeCall | safeopsagent/backend/cleanup/service.py:129-345 | One call, and the quarantine or restore it completed as the state shows it. |
| CleanupTheorems.AnySequence | safeopsagent/backend/cleanup/service.py:129-345 | Over any sequence of calls each plan is quarantined and each quarantine restored at most once, none after a `manifest.tmp` was left in it, and the completions returned are exactly the new manifests and newly restored directories; the same files remain, each at one path, and every manifest stays. |
| CleanupTheorems.RestoreLoopKeepsFiles | safeopsagent/backend/cleanup/service.py:303-320 | On items that passed the first loop, all moves are made exactly when no two share a quarantine path, and the moves made keep every file exactly when no two of them have the same original path. |
| CleanupTheorems.SharedOriginalLosesFile | safeopsagent/backend/cleanup/service.py:297-309 | Two items with one original path pass the checks, and one file is lost. |
| OrderStatistics.MedianBelow | safeopsagent/backend/monitoring/baseline.py:94-95 | A median is at most any bound that more than half of the values respect. |
| OrderStatistics.HalfBelowMedian | safeopsagent/backend/monitoring/baseline.py:94-95 | At least half of the values are at most the median, averaged middle elements included. |
| OrderStatistics.MedianExactly | safeopsagent/backend/monitoring/baseline.py:94-95 | The median is the mean of the two middle samples by rank, which coincide for an odd number. |
| Baseline.MedianRobust | safeopsagent/backend/monitoring/baseline.py:79-108 | Changing fewer than half of the samples leaves the median within the bounds of the others and the MAD within their spread. |
| Baseline.OutlierStillFlagged | safeopsagent/backend/monitoring/baseline.py:94-145 | A value beyond the unchanged samples by the widened margin is flagged whatever fewer than half of the history was changed to. |
| Baseline.HalfIsNormal | safeopsagent/backend/monitoring/baseline.py:94-108 | At least half of a learned, non-negative history, rounded up, lies inside the learned band. |
| Baseline.EvaluateExactly | safeopsagent/backend/monitoring/baseline.py:79-155 | What a value is judged, from its history: critical from the ceiling on; else with at least 12 samples abnormal below 0 or outside median ± max(3.5 MAD / 0.6745, minimum delta), and then critical from twice that tolerance or a rounded score of 7 on. |
| Baseline.SeverityOrderedExactly | safeopsagent/backend/monitoring/baseline.py:111-155 | Severity never falls as a value grows from the median, if and only if not median < 0 <= upper; MAD = 0 included. |
| JsonBounds.ValidateJsonLimits | safeopsagent/backend/security/codex_results.py:313-331 | The explicit-stack walk ends and accepts exactly the values within the recursive node, depth and width limits; a rejection names a limit that is exceeded. |
| JsonBounds.LimitsByPlaces | safeopsagent/backend/security/codex_results.py:313-331 | What the limits mean place by place: as many nodes as there are places in the value, no place deeper than the limit, and no list or dictionary wider. |
| JsonNesting.ValidateJsonNesting | safeopsagent/backend/security/codex_results.py:289-310 | The character loop with depth, string and escape state computes the scanner. |
| JsonNesting.ScannerExact | safeopsagent/backend/security/codex_results.py:289-310 | On every well-formed text, with any blanks, escapes and brackets inside strings, the scanner accepts exactly container nesting up to the limit. |
| JsonNesting.ScannerByPlaces | safeopsagent/backend/security/codex_results.py:289-310 | Without repeated names, the scanner accepts a text exactly when every list and dictionary of its value lies less deep than the limit. |
| JsonNesting.LimitsMeetScanner | safeopsagent/backend/security/codex_results.py:289-331 | A text whose value is within the parsed limits passes the scanner exactly when the values its repeated names shadow nest within the limit too. |
| JsonNesting.LimitsImplyScanner | safeopsagent/backend/security/codex_results.py:289-331 | Without repeated names, the parsed limits imply the scanner. |
| JsonNesting.RepeatedNameHidesDepth | safeopsagent/backend/security/codex_results.py:289-331 | A concrete text within the parsed limits that the scanner rejects. |
| JsonNesting.SpelledAlike | safeopsagent/backend/security/codex_results.py:264-265 | Which spellings of a member name are the same key: a short escape, and a character up to U+FFFF, mean what their four digits mean; any other character is its surrogate pair. |
| JsonNesting.UnicodeExactly | safeopsagent/backend/security/codex_results.py:264-265 | Four digits mean a code unit exactly when they print it, in either case of the letters. |
| SlidingWindow.StepRefines | safeopsagent/backend/security/console_auth.py:399-435 | One operation on the pruned table answers as on the complete log and keeps the two alike for the readings to come, if these do not make it forget. |
| SlidingWindow.LogExactly | safeopsagent/backend/security/console_auth.py:154-194 | What the complete log answers, by counting: a slot exactly where fewer than `limit` events of the key lie in the window, and the key has one there or fewer than `key_limit` keys have; and what is added. |
| SlidingWindow.TableAnswers | safeopsagent/backend/security/console_auth.py:154-194 | Whatever the clock reads, what the pruned table answers, by counting live keys and shown events. |
| SlidingWindow.TableKeeps | safeopsagent/backend/security/console_auth.py:154-194 | It keeps exactly the keys whose last event is in the window, and the one that gains an event. |
| SlidingWindow.TableHolds | safeopsagent/backend/security/console_auth.py:154-194 | What it holds: of the key asked about exactly the events in the window and the one gained, of other live keys all. |
| SlidingWindow.FreshRunRefines | safeopsagent/backend/security/console_auth.py:399-435 | Every run whose readings forget nothing answers exactly as over the complete never-pruned log, key-capacity decisions included. |
| SlidingWindow.SteadyClock | safeopsagent/backend/security/console_auth.py:399-435 | Readings that never go back make no table forget. |
| SlidingWindow.ExactReadings | safeopsagent/backend/security/console_auth.py:399-435 | Every table of a given window answers every run with given readings as the complete log, if and only if no three of the readings, in their order, make it forget an event. |
| RateBound.RunWindowBound | safeopsagent/backend/security/console_auth.py:399-425 | In every run of the pruned table whose readings split no window, recorded failures in between included, no interval (t - W, t] of any key holds more than `limit` of the slots given since its last clear. |
| RateBound.BoundedExactly | safeopsagent/backend/security/console_auth.py:154-194 | That bound holds of every table of a given window and every run with given readings, over the operations of both limiters, if and only if no three readings, in their order, split a window. |
| RateBound.NoForgettingSplitsNothing | safeopsagent/backend/security/console_auth.py:399-435 | Readings that forget nothing split no window. |
| AttemptLimiter.Limiter.constructor | safeopsagent/backend/security/console_auth.py:392-394 | Limit, window and key limit are those asked for, or the nearer bound. |
| AttemptLimiter.Limiter.ReserveSlot | safeopsagent/backend/security/console_auth.py:399-412 | At any reading the answer is that of the pruned table; where the readings forget nothing, a slot is given exactly when the complete log has room for the key and fewer than `limit` recent events. |
| AttemptLimiter.Limiter.CountEvents | safeopsagent/backend/security/console_auth.py:414-417 | The count is that of the pruned table, and of the complete log where the readings forget nothing. |
| AttemptLimiter.Limiter.ClearEvents | safeopsagent/backend/security/console_auth.py:419-421 | Clearing forgets the key in the table as in the log, and nothing else. |
| AttemptLimiter.LoginAttempts.constructor | safeopsagent/backend/security/console_auth.py:131-133 | The same with the bounds for logins. |
| AttemptLimiter.LoginAttempts.AttemptsAllowed | safeopsagent/backend/security/console_auth.py:154-165 | Checking consumes nothing at any reading, and answers as the complete log where the readings forget nothing. |
| AttemptLimiter.LoginAttempts.ReserveAttempt | safeopsagent/backend/security/console_auth.py:167-180 | The same as for the limiter, for login attempts. |
| AttemptLimiter.LoginAttempts.RecordFailedAttempt | safeopsagent/backend/security/console_auth.py:182-190 | A failure is recorded beyond the limit too, but not for a new key without room. |
| AttemptLimiter.LoginAttempts.ClearAttempts | safeopsagent/backend/security/console_auth.py:192-194 | The same as for the limiter, when a login succeeds. |
| Base64Url.RoundTrip | safeopsagent/backend/security/console_auth.py:363-373 | Decoding with recomputed padding gives back every byte string. |
| Base64Url.EncodedAlphabet | safeopsagent/backend/security/console_auth.py:363-364 | Encoded text has only letters, digits, `-` and `_`, so no separator, and its exact length. |
| Base64Url.LetterExactly | safeopsagent/backend/security/console_auth.py:363-364 | The 64 letters are those of Table 2 of RFC 4648. |
| Base64Url.CanonicalExactly | safeopsagent/backend/security/console_auth.py:367-373 | A text decodes to bytes that encode to it if and only if it has only url letters, its length is not 1 modulo 4, and its last letter sets no unused bit. |
| Numerals.DecimalRoundTrip | safeopsagent/backend/security/console_auth.py:79-90 | The printed iteration count reads back as itself. |
| Numerals.ReadsSpelled | safeopsagent/backend/security/console_auth.py:88-94 | Blanks around, a sign, zeros in front and single underscores between digits: an iteration count spelled so is read as its number. |
| Numerals.SpelledAsRead | safeopsagent/backend/security/console_auth.py:88-94 | A text that is read as an iteration count is spelled in that way, so every other text is refused. |
| Numerals.NumberingDistinguishes | safeopsagent/backend/cleanup/service.py:591-593 | Quarantine names with different numbers differ, whatever follows the number and however many digits it has. |
| PasswordVerifier.GeneratedVerifier | safeopsagent/backend/security/console_auth.py:58-107 | A generated verifier accepts exactly the passwords with the same digest when the salt, random where none or an empty one was given, has 8 to 64 bytes, and nothing otherwise. |
| PasswordVerifier.OwnPasswordAccepted | safeopsagent/backend/security/console_auth.py:58-107 | A verifier is generated exactly for a non-empty password and 200 000 to 2 000 000 iterations, and accepts its own password exactly for salts of 8 to 64 bytes. |
| PasswordVerifier.VerifyExactly | safeopsagent/backend/security/console_auth.py:81-107 | Of all texts with the scheme and three more parts, the verifier accepts exactly those with a count in range, a salt of 8 to 64 bytes and the 32-byte digest of the password. |
| PasswordVerifier.AcceptedForm | safeopsagent/backend/security/console_auth.py:86-107 | Nothing but such texts is ever accepted. |
| SessionTokens.SessionRoundTrip | safeopsagent/backend/security/console_auth.py:203-262 | A session is issued exactly with a complete configuration; its token gives back user name and CSRF token exactly while int(now) < int(issue) + ttl, and raises for a user name outside ASCII. |
| SessionTokens.SandboxRoundTrip | safeopsagent/backend/security/console_auth.py:272-338 | The same for deception sessions, with the time to live asked for or the nearer of 60 and 86 400 seconds. |
| SessionTokens.GateRoundTrip | safeopsagent/backend/security/console_auth.py:487-520 | A gate token is issued exactly for an enabled gate, and accepted exactly while int(now) < int(issue) + ttl. |
| SessionTokens.ConsoleAccepts | safeopsagent/backend/security/console_auth.py:229-262 | Of all payloads signed with the session secret, exactly those of version 1, scope console, the own ASCII user name, an integer expiry to come and a CSRF token of at least 24 characters are accepted. |
| SessionTokens.SandboxAccepts | safeopsagent/backend/security/console_auth.py:309-338 | The same for deception sessions: session id of 4 to 64 characters, integer opening time. |
| SessionTokens.GateAccepts | safeopsagent/backend/security/console_auth.py:502-520 | The same for gate tokens. |
| SessionTokens.ClaimsExactly | safeopsagent/backend/security/console_auth.py:234-244 | The claims of a token are those of its first part, if this is ASCII, signed by the second, and decodes; everything else is malformed. |
| SessionTokens.BrokenTokens | safeopsagent/backend/security/console_auth.py:229-338 | Malformed tokens are refused by all three verifiers, and a signed payload that is no object makes them raise. |
| SessionTokens.WithoutSecrets | safeopsagent/backend/security/console_auth.py:229-233 | Without signing material or a complete configuration nothing is accepted; with the console off everyone is the local user. |
| SessionTokens.ScopeBarrier | safeopsagent/backend/security/console_auth.py:246-250 | A payload of one class passes no other class's verifier, whatever the keys: the scope field alone refuses it. |
| SessionTokens.IssuedTokensKeepClass | safeopsagent/backend/security/console_auth.py:203-520 | A token issued for one class passes the verifiers of that class only. |
| SessionTokens.SessionsAreIssued | safeopsagent/backend/security/console_auth.py:229-262 | Whatever token is presented, an accepted identity is one that was issued and has not expired. |
| SessionTokens.SandboxesAreIssued | safeopsagent/backend/security/console_auth.py:309-338 | The same for deception sessions. |
| SessionTokens.GateTokensAreIssued | safeopsagent/backend/security/console_auth.py:502-520 | An accepted gate token was issued by the gate less than its time to live ago. |
| RiskScore.Score | safeopsagent/backend/security/risk_score.py:75-160 | The running maxima over checks, rules, tool, arguments and factors compute the largest contribution; the final clamp changes nothing. |
| RiskScore.ScoreReaches | safeopsagent/backend/security/risk_score.py:86-126 | The score reaches a bound above its floor exactly when some part of the request does. |
| RiskScore.LevelFloors | safeopsagent/backend/security/risk_score.py:29-35 | A check's level sets its floor; levels 4 and 5 demand at least a confirmation, no other does. |
| RiskScore.MovingTools | safeopsagent/backend/security/risk_score.py:37-55 | Exactly quarantine and restore have a base score that demands a confirmation. |
| RiskScore.RuleTable | safeopsagent/backend/security/risk_score.py:57-70 | Which rules forbid, demand a confirmation, or neither. |
| RiskScore.WeightOfFirst | safeopsagent/backend/security/risk_score.py:146-150 | The weight of a hit is that of the first rule that matches it, or 0. |
| RiskScore.MatchesWhere | safeopsagent/backend/security/risk_score.py:146-150 | A rule matches a hit that begins with its name or holds it after a colon, wherever. |
| RiskScore.ValueFloors | safeopsagent/backend/security/risk_score.py:152-167 | An argument forbids exactly when a text has a character a shell interprets; what else it contributes. |
| RiskScore.RejectedExactly | safeopsagent/backend/security/risk_score.py:127-138 | Rejection, forbidden level, legacy level 5 and a reason to forbid are one and the same. |
| RiskScore.AllowedExactly | safeopsagent/backend/security/risk_score.py:182-187 | Allowed means nothing reaches 70; confirmation means something does and nothing forbids. |
| RiskScore.SeventyExactly | safeopsagent/backend/security/risk_score.py:86-126 | Apart from reasons to forbid, exactly a check of level 4 or 5, a hit of weight 70 or more, and the two moving tools demand a confirmation. |
| RiskScore.LevelsExactly | safeopsagent/backend/security/risk_score.py:169-187 | The four levels and the five of the older scale, by what the request reaches. |
| RiskScore.MatchedExactly | safeopsagent/backend/security/risk_score.py:84-126 | The rules reported are the hits of all checks, the caller's factors and an unknown tool, and no others. |
| RiskScore.ToolsGuarded | safeopsagent/backend/security/risk_score.py:92-101 | A tool with base score 70 or more is never simply allowed, an unknown one always rejected. |
| RiskScore.FurtherCheckRaises | safeopsagent/backend/security/risk_score.py:103-113 | A further check never lowers the score, and a failed one makes it 100. |
| PlanLoop.ExtractToolPlan | safeopsagent/backend/agent/orchestrator.py:226-260 | The actionable ones of the first three proposals, in order, all planned. |
| PlanLoop.ProposalsOf | safeopsagent/backend/agent/orchestrator.py:226-240 | What an absent, single, listed and unusable plan propose. |
| PlanLoop.PlanExactly | safeopsagent/backend/agent/orchestrator.py:242-260 | A plan holds exactly the items that name a tool, in their order, with name stripped and arguments kept. |
| PlanLoop.ExecuteToolPlan | safeopsagent/backend/agent/orchestrator.py:262-425 | Every entry settles as its own checks and result say, exactly the allowed ones are called, flags and decision agree with the settled plan, and level and legacy level, kept by maxima of their own, are those of the final score. |
| PlanLoop.EntryExactly | safeopsagent/backend/agent/orchestrator.py:278-411 | How an entry ends and with which score: blocked, failed or run, as its refusal, its tool and the check of its output say; a refusal before scoring and a blocked output score 100, and what it brings to the plan is its score with its output. |
| PlanLoop.FinalScoreIsLargest | safeopsagent/backend/agent/orchestrator.py:278-411 | The final score, at most 100 without the cap, covers every entry and is the largest that one brings up, or 10. |
| PlanLoop.StatusMeaning | safeopsagent/backend/agent/orchestrator.py:427-439 | What each overall status says of the settled entries, and when each is reached; nothing stays planned. |
| PlanLoop.PlanRejectedExactly | safeopsagent/backend/agent/orchestrator.py:278-450 | A non-empty plan is rejected exactly when tools answered but all entries end blocked, or none answered and some entry is refused before scoring or rejected by the scorer; `executed` is then unset. |
| PlanLoop.RejectedAfterCalls | safeopsagent/backend/agent/orchestrator.py:278-450 | The two cases in which a rejected plan has asked the registry to run a tool. |
| PlanLoop.DecisionsExactly | safeopsagent/backend/agent/orchestrator.py:427-450 | Allowed, partial and no-action decisions in the same terms, the empty plan included. |
| PlanLoop.CalledToolsAreReadOnly | safeopsagent/backend/agent/orchestrator.py:278-340 | A plan calls only tools that are on the read-only list, known to the scorer, and in no need of confirmation. |
| PlanLoop.CalledExactly | safeopsagent/backend/agent/orchestrator.py:278-340 | The registry is asked to run exactly the listed tools with valid arguments whose checks reach no 70. |
| Confirmations.Store.CleanupConfirmations | safeopsagent/backend/app.py:1209-1218 | Exactly the expired records go, except the one named. |
| Confirmations.SweepExactly | safeopsagent/backend/app.py:1209-1218 | A sweep leaves every unexpired record, and the one named, unchanged, and no other. |
| Confirmations.Store.ConsumeConfirmation | safeopsagent/backend/app.py:1221-1244 | A grant exactly for a known, unused, unexpired, confirmable record, which is used from then on; when each refusal is given; other records only expire. |
| Confirmations.Store.CreateConfirmation | safeopsagent/backend/app.py:1247-1282 | The table gains one unused record with the dry run's tool and arguments. |
| Confirmations.GrantedOnce | safeopsagent/backend/app.py:1229-1244 | A token once granted is refused ever after, whatever other table operations come between. |
| Confirmations.MintedIsGranted | safeopsagent/backend/app.py:1209-1282 | A confirmable token is granted, with the very call it was minted for, until it expires, whatever is done with other tokens in between. |
| ExecutionGate.StepKeeps | safeopsagent/backend/app.py:769-1179 | Every step of every request, and the sweep, keeps the invariant. |
| ExecutionGate.EveryRunIsSafe | safeopsagent/backend/app.py:769-1282 | The invariant holds after any interleaving of steps. |
| ExecutionGate.CallsAreAuthorised | safeopsagent/backend/app.py:898-945 | In a safe history each called tool is known and follows a preflight of its own request and checks made for that request, tool and arguments that all passed and let it through: nothing reaching 70, or on a token nothing forbidding. With base 70 or more it has a token issued for that tool and those arguments, consumed in time by the same request before those checks. |
| ExecutionGate.OneCallPerToken | safeopsagent/backend/app.py:1119-1135 | A token authorises at most one call. |
| ExecutionGate.ConfirmationSafety | safeopsagent/backend/app.py:769-1282 | All of this for every call of every run from an empty start. |
| ExecutionGate.AllowedCallRuns | safeopsagent/backend/app.py:769-945 | A registered call whose checks reach no 70 runs once the log is writable. |
| ExecutionGate.ConfirmedCallRuns | safeopsagent/backend/app.py:989-1135 | A usable token's call runs where the checks made anew forbid nothing and the log is writable. |
| ExecutionGate.TokenIsGiven | safeopsagent/backend/app.py:849-897 | A call that demands a confirmation, and that nothing forbids, is given an unused token for its own tool and arguments. |
| RequestHandlers.CallTool | safeopsagent/backend/app.py:769-986 | The tool runs exactly when it is registered, its arguments are valid, nothing reaches 70 and the log is writable; a token is minted exactly when something does and nothing forbids; every answer and its score. |
| RequestHandlers.ConfirmTool | safeopsagent/backend/app.py:989-1179 | The token's own tool and arguments run exactly when the token is usable, tool and arguments still valid, nothing in the checks made anew forbids and the log is writable; every answer; afterwards the token is used or gone. |
| RequestHandlers.Chat | safeopsagent/backend/app.py:1182-1198 | The plan carried out is the one proposed; no tool runs before message check and preflight; every answer; a rejected one has `executed` unset; the answer that nothing was executed is untrue exactly when the log write fails after a call. |
| Splitting.SplitJoined | safeopsagent/backend/security/console_auth.py:89 | Splitting joined pieces gives them back. |
| Splitting.JoinedSplit | safeopsagent/backend/security/console_auth.py:89 | The pieces of a bounded split joined give the text back, and only the last may hold the separator. |
| Splitting.RightSplitKeepsLast | safeopsagent/backend/security/client_identity.py:157-158 | The bounded right split ends with the last n pieces of the full split. |
| ClientIdentity.ForwardedCandidates | safeopsagent/backend/security/client_identity.py:154-174 | The chain is that of the last 16 elements of the full split of the first header that reports one. |
| ClientIdentity.WindowExactly | safeopsagent/backend/security/client_identity.py:157-158 | The window is the last 16 elements of the header, or all of fewer. |
| ClientIdentity.HopsExactly | safeopsagent/backend/security/client_identity.py:157-160 | The hops are exactly the non-empty readings of the texts, in their order. |
| ClientIdentity.ChainExactly | safeopsagent/backend/security/client_identity.py:154-174 | The chain holds exactly the addresses of the window of the first header that reports one, in order, none of them empty. |
| ClientIdentity.ResolveClient | safeopsagent/backend/security/client_identity.py:181-222 | Behind a trusted peer the source is the rightmost untrusted hop; without one, where no header names an address, and behind any other peer, it is the peer; it is never empty. |
| ClientIdentity.PrefixIgnored | safeopsagent/backend/security/client_identity.py:154-205 | With an untrusted hop in the window, text put in front of the header changes nothing. |
| ClientIdentity.PrefixesIgnoredExactly | safeopsagent/backend/security/client_identity.py:154-205 | No prefix changes the source if and only if the peer is untrusted, the window has an untrusted hop, or it is full. |
| ClientIdentity.ForwardedPrefixIgnored | safeopsagent/backend/security/client_identity.py:164-205 | The same for the `Forwarded` header. |
| ClientIdentity.ForwardedPrefixesIgnoredExactly | safeopsagent/backend/security/client_identity.py:154-205 | No prefix of `Forwarded` changes the source if and only if the peer is untrusted, `X-Forwarded-For` names an address, or the window of `Forwarded` has an untrusted hop or is full. |
| ClientIdentity.XForwardedForOverrides | safeopsagent/backend/security/client_identity.py:154-163 | An address in `X-Forwarded-For` makes `Forwarded` irrelevant, and an untrusted one becomes the source. |
| ClientIdentity.HeadersIgnoredExactly | safeopsagent/backend/security/client_identity.py:196-205 | The headers are irrelevant if and only if the peer is untrusted. |

## Left out

- AuditChain.PayloadUnambiguous: columns hold text, integers or nothing; floats, booleans and SQLite's type affinity between writing and reading a row are not modelled, nor lone surrogates.
- SHA-256, HMAC and PBKDF2 are parameters, not implementations; encoding to UTF-8 is part of the parameter.
- The SQL schema, its migrations, table creation inside a transaction, `query` and `trace`; a store is a sequence of tables and a head.
- AuditLogger.Logger.Log: the date is read once per call, where the code reads it for the table and again for the insert.
- CleanupScan.Scan: reading a directory or a file's status never fails in the scan (the code skips it with a warning), and the final sort of the candidates by age and path is not modelled; candidates stay in walk order.
- Path resolution through symbolic links: paths are component lists and containment is the prefix relation; forbidden characters and forbidden cleanup roots are not modelled.
- Other processes changing files between the steps of one cleanup call; the checks that would notice may fail at any time instead, where the call's parameter allows it.
- Manifests and `manifest.tmp` are kept apart from the file map, so plans whose root lies inside a quarantine directory are not covered where they would pick up another quarantine's manifest.
- Owner and mode checks of quarantine directories, `chmod` and `fsync`: folded into steps that may fail.
- Floating point: samples, scores and clock readings are reals, and rounding is an arbitrary monotone function that fixes 0.
- Baseline.OutlierStillFlagged: the texts of anomaly records are not modelled.
- JsonNesting.ScannerExact: well-formed texts are syntax trees; that every accepted JSON text has such a tree is the grammar's own statement and not proved. Scalars may be any letters, digits, signs and points.
- Base64Url.RoundTrip: texts that carry `=` after complete groups are refused, where Python versions differ.
- PasswordVerifier.GeneratedVerifier: digits outside ASCII and spaces outside ASCII, which Python's `int` also takes, are not modelled.
- SessionTokens.SessionRoundTrip: the JSON library is a parameter asked only to read back what it wrote; constant-time comparison is equality.
- RiskScore.Score: the explanatory factor texts are not modelled; matched rules are.
- The guardrail's regular expressions, keyword lists and Unicode normalisation: check results are arbitrary.
- PlanLoop.ExtractToolPlan: `strip` and `lower` are parameters; display names and reasons are not modelled.
- Planner, session context, diagnosis and summaries of `run`; they decide nothing about execution.
- ExecutionGate.ConfirmationSafety: issued tokens are fresh, as random UUIDs are; a preflight once passed is not tied to the later log write.
- RequestHandlers.Chat: answers for invalid messages, and how a failed log write surfaces in `/tools/call` and `/tools/confirm`, are one "unavailable" answer.
- ClientIdentity.ResolveClient: address normalisation, network containment and reading a `for=` directive are parameters; fingerprint, retained headers and user agent are not modelled.
- Concurrency beyond locks: each locked method is one atomic step.
- Frontend, LLM providers, the operating-system tools, deception pages, metric storage and packaging.
