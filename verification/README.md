# SWAYAM: a verified model of its shared-state protocols

SWAYAM lets many nodes mutate, compile and run generated programs. What keeps the
nodes from stepping on each other is a small amount of code: a compare-and-swap
commit against a remote file, a rate limiter on top of it, a structural fingerprint
of syntax trees, a quarantine log that survives crashes, a two-level lease, three
append-only ledgers, and a budgeted merge of what other nodes quarantined. This
project models that code and proves what it promises over every input, every
interleaving and every reachable state.

| file | models |
|---|---|
| `Basics.dfy`, `Bytes.dfy` | byte strings, `std::to_string`, `std::getline`, `std::string::find` |
| `Fnv.dfy` | 64-bit FNV-1a with its wrap-around and both ways of widening a byte |
| `Moltbook.dfy` | the checksummed ledger and its cache |
| `DelimitedLedgers.dfy` | the ban ledger and the hive ledger, searched by substring |
| `QuarantineLog.dfy` | the quarantine log as text |
| `NodeRegistry.dfy`, `SyncConvergence.dfy` | one peer merge, one sync cycle, repeated cycles |
| `AppendProtocol.dfy` | any number of processes appending to the log, with kills anywhere |
| `Lease.dfy` | the mutation lease over open file descriptions, fork, exec and kill |
| `SecureArtifact.dfy`, `MutationRunner.dfy` | publication under a new name, and the pipeline on top |
| `CasProtocol.dfy`, `CasScripts.dfy` | the commit protocol, and the two shell scripts as runs of it |
| `RateLimit.dfy` | the fixed-window limiter applied through the protocol |
| `Canonicalize.dfy` | the alpha-normal form of a syntax tree |

Loops, fields and buffers of the original are loops, fields and buffers here: each
such method is proved equal to a function the promises are proved about, or is shown to
be a run of the state machine they are proved about, with everybody else acting between
its steps.

## Assumptions

* **The remote file.** The server answers 200 or 201 exactly when it applied the
  write; it applies a write exactly when the sent sha is that of the current content,
  or no sha was sent and the file is absent; the file is never deleted. The sha is an
  injective function of the content, so an old content brings back its old sha.
  Contents are compared after decoding: one text per decoded value, as the transforms
  print it.
* **Clocks.** `RateLimit.MaxPerWindow` and freedom from ABA hold for any readings.
  `RateBound` assumes one clock that all runs read and that never runs backwards.
  Lemmas on the windows of single hours are about starting files whose window can end
  (`Timed`); `EndlessTotal` is about the others, and the bounds are about all.
* **The file system.** `rename` replaces the log atomically, `flock` excludes and is
  dropped with the last reference to its open file description, appends to a ledger
  under its lock are not torn by other writers.
* **Processes.** A process has one append at a time, since its temporary file is named
  by pid; pids, descriptions and tickets are not reused. Where a lemma says `Complete`,
  every rename finds its temporary file complete, which holds when processes complete
  the writes they live through. A source file does not change between the pre-flight
  check and the quarantine of its hash.
* **Labels and logs.** Where a lemma says so, labels (source paths, peer file names) hold
  no newline and the initial log is absent, empty or ends with one.
* `std::hash`, the analyzer's verdict and the transform of a commit are arbitrary
  functions.

## Where the code does not do what it says

The names in parentheses are the lemmas with a concrete input or run, and those with
the condition under which the promise does hold.

* `include/QuarantineRegistry.hpp:7` and `include/HiveMind.hpp:7` claim exact matching.
  The search matches any recorded key that ends with the queried one (`SuffixCollision`,
  `HiveSuffixCollision`). A write cut short, which the code only warns of, lends its
  bytes to the next entry, so that keys are matched no recorded key ends with
  (`CutBanCollides`, `CutHiveCollides`). `BannedExactly` and `AssimilatedExactly` give
  the answers after any writes; they are those of the recorded keys exactly under the
  conditions of `OnlyRecordedExactly` and `OnlyRegisteredExactly`.
* `include/core.hpp:20-21` says the shared lock closes the window between check and
  fork. It is dropped before the fork, and a content can be forked while quarantined
  (`WindowStaysOpen`): exactly when some rename since the check recorded it
  (`QuarantinedSinceExactly`).
* `include/core.hpp:16-19` says the live log is never partial. The state of the
  temporary stream is not checked after the write, so a full disk can replace the log
  by any prefix of what was to be written (`ShortWriteCutsLog`). The log is whole
  throughout exactly when every rename finds its temporary file complete
  (`WholeExactly`, `AppendWholeExactly`).
* An append to the quarantine log is lost behind an unfinished last line, and with a
  newline-free label only there (`AppendVisibleExactly`). A label with a newline writes
  rows of its own (`LabelInjectsHash`, `LabelExactly`).
* A `Moltbook` record is lost behind an unfinished last line or when a field holds a
  bar, and if its fields hold no newline only then (`SurvivesExactly`); the object that
  wrote it goes on knowing it (`BarForgotten`). Cache and file agree exactly when every
  record that takes effect reads back (`CacheAgreesExactly`, `ReadsBackExactly`,
  `CacheAgreesWithDisk`).
* `scripts/cas_commit.sh:11-12` says only a genuine conflict is retried. The code
  retries after every answer but 200 and 201 (`RetryWithoutConflict`); a run's retries
  are genuine exactly when none of its writes is refused for another reason
  (`RetriesGenuineExactly`). Its header also says `cas_increment.sh` uses it, but that
  script makes a single attempt of its own.
* The limiter's name for its limit, `MAX_MUTATIONS_PER_HOUR`, promises more than it
  keeps: for every limit up to `2 * max - 1` commits fall into one hour, and `2 * max`
  when the file starts with an unused window (`HourBoundTight`, `RateBound`). The limit
  is kept in every hour of every run exactly in the cases of `KeepsHourlyExactly`, of
  which a limit of one from an absent file is the one of practical use; for every other
  limit and file `UnsafeHour` gives a run. Which hours of a given run keep to it is
  `HourWithinLimit` and `RateExactly`.
* A kind with a closing parenthesis, or with a space and either an opening parenthesis or
  the letters of a symbol, can make different trees print alike. Over any other alphabet
  the print decides, and these are all (`KindsMatter`, `DecidesExactly`).

## Model

| member | source | states |
|---|---|---|
| `CasProtocol.Linearizable` | scripts/cas_commit.sh:27-68 | Whatever the transforms and the interleaving, the file is the end of a chain in which each version is the transform of its predecessor by exactly one run; no run makes two links; a run exits 0 exactly when it made one. |
| `CasProtocol.StepKeepsInv` | scripts/cas_commit.sh:27-68 | Every step of any run (start, GET, transform, PUT, refusal, clock) keeps the chain, the one-link-per-run rule and what each run holds from its last GET. |
| `CasProtocol.WinnersCounted` | scripts/cas_commit.sh:60-63 | There are exactly as many commits as runs that exit with 0. |
| `CasProtocol.ConflictMeansCommit` | scripts/cas_commit.sh:56-67 | A PUT refused for its sha implies that the file has moved on since this run's GET. |
| `CasProtocol.ConflictsHaveWitnesses` | scripts/cas_commit.sh:27-68 | Every attempt lost to a mismatch has commits between its GET and its PUT, all by other runs, and different attempts of a run have different ones. |
| `CasProtocol.ExhaustionNeedsRivals` | scripts/cas_commit.sh:27-71 | A run that gives up met at least attempts-minus-other-refusals commits, none its own; and there are at most as many commits as other runs. |
| `CasProtocol.SixRunsNeverExhaust` | scripts/cas_commit.sh:27-71 | When PUTs fail on a mismatch only, none of at most six runs ends by exhausting its six attempts. |
| `CasProtocol.SixthAttemptCommits` | scripts/cas_commit.sh:27-68 | A run that loses five attempts in a row to rivals and commits at its sixth. |
| `CasProtocol.SixConflictsExhaust` | scripts/cas_commit.sh:27-71 | A run among seven that gives up at its sixth conflict. |
| `CasProtocol.RetriesGenuineExactly` | scripts/cas_commit.sh:56-68 | The attempts a run lost are its conflicts plus its other refusals; all of them were genuine conflicts if and only if none of its staged PUTs was refused for another reason. |
| `CasProtocol.RetryWithoutConflict` | scripts/cas_commit.sh:60-68 | One PUT refused for any other reason sends a run into a second attempt with no conflict and no commit anywhere. |
| `CasProtocol.VersionsIncrease` | scripts/cas_commit.sh:32-63 | Under transforms that move up in some strict order, later versions are strictly greater than earlier ones, so no content ever returns. |
| `CasProtocol.NoForeignCommitBetween` | scripts/cas_commit.sh:32-63 | Under such transforms an accepted PUT is accepted in the very version its run read: no other commit landed between its last GET and its PUT. |
| `CasProtocol.ConflictExactly` | scripts/cas_commit.sh:56-63 | Under transforms that move up in some order, a staged PUT meets a mismatch if and only if another commit landed since its GET. |
| `CasProtocol.ShaAloneAllowsABA` | scripts/cas_commit.sh:48-63 | The content sha alone does not give that: with a transform that goes back and forth a PUT is accepted although two other commits came in between. |
| `CasProtocol.RunAlone` | scripts/cas_commit.sh:27-63 | An undisturbed run commits the transform of the file it found, at its first attempt. |
| `CasScripts.CasCommit` | scripts/cas_commit.sh:23-71 | The script, with other runs acting between any two of its steps, is one run of the protocol; its four exits match how that run ended, and on exit 0 the printed content is the one now in the file, committed by this run. |
| `CasScripts.Attempt` | scripts/cas_commit.sh:27-68 | One pass of the loop ends the script with the run's outcome, or leaves the run ready for the next attempt, or exhausted after the last. |
| `CasScripts.AfterRead` | scripts/cas_commit.sh:41-68 | A rejecting transform ends the run without a PUT and without a retry; otherwise the outcome of the PUT decides. |
| `CasScripts.Store` | scripts/cas_commit.sh:46-67 | The PUT reports success exactly when this run's content landed as the newest commit; otherwise the attempt counter moves by one. |
| `CasScripts.CasIncrement` | scripts/cas_increment.sh:9-55 | The counter script is a run of the same protocol with a single attempt; exit 0 means its commit landed. |
| `CasScripts.Increment` | scripts/cas_increment.sh:14-55 | Both branches, genesis without a sha and increment with one, are the same protocol steps; failure is a rejection or exhaustion of the one attempt. |
| `CasScripts.IncrementerIncreases` | scripts/cas_increment.sh:37-41 | The count goes strictly up with every commit, so the counter has no ABA. |
| `CasScripts.CountAlongChain` | scripts/cas_increment.sh:14-41 | The i-th version holds the initial count plus i, or i minus one when the file was absent at first, and the day its own run read. |
| `CasScripts.CountIsSuccesses` | scripts/cas_increment.sh:14-55 | From an absent file and under every interleaving, the count is the number of runs that exited with 0, less one. |
| `CasScripts.CountGrowsBySuccesses` | scripts/cas_increment.sh:32-55 | From an existing counter every successful run adds exactly one. |
| `RateLimit.Transform` | scripts/transforms/rate_limit_transform.sh:8-30 | The script's assignments, a missing count that an expired window overwrites and a window_start that shell arithmetic chokes on included, compute the decision the theorems below are about. |
| `RateLimit.DecideInSeconds` | scripts/transforms/rate_limit_transform.sh:12-30 | In seconds: up to 3600 after its start a window only counts up and rejects at the limit, from 3601 on a reading opens a new one if the limit allows any; and the remaining kinds of file. |
| `RateLimit.LimiterIncreases` | scripts/transforms/rate_limit_transform.sh:19-30 | Every accepted update raises (window_start, count) lexicographically, under any clock readings, backward ones included. |
| `RateLimit.LimiterHasNoABA` | scripts/cas_commit.sh:32-63 | Hence no other commit lands between a limiter run's last GET and its accepted PUT, although the sha is only a content hash. |
| `RateLimit.NextCommit` | scripts/transforms/rate_limit_transform.sh:12-30 | Along the chain, from any file whose window can end, a commit either counts one up in the same window or opens a window, at its own reading, more than 3600 after the last start. |
| `RateLimit.CountsInRange` | scripts/transforms/rate_limit_transform.sh:25-30 | Every commit counts above what its window started from and at most to max, and no window lies before the initial one. |
| `RateLimit.WindowsOrdered` | scripts/transforms/rate_limit_transform.sh:19-30 | Of two commits, from any file whose window can end, the later has the greater (window_start, count), and different starts lie at least 3601 apart. |
| `RateLimit.MaxPerWindow` | scripts/transforms/rate_limit_transform.sh:25-30 | Over any interleaving of any number of runs, at most max commits carry the same window_start, less the count the initial file had in that window (more, if that was negative), whatever the clocks do. |
| `RateLimit.EndlessTotal` | scripts/transforms/rate_limit_transform.sh:19-30 | From a file whose window never ends at most max commits are made in all, less its count. |
| `RateLimit.ReadingsMonotone` | scripts/cas_commit.sh:41-63 | With one clock, the readings of the commits do not decrease along the chain. |
| `RateLimit.AtMostTwoWindows` | scripts/transforms/rate_limit_transform.sh:19-22 | The readings of one hour never touch three windows. |
| `RateLimit.HourSplits` | scripts/transforms/rate_limit_transform.sh:12-30 | The commits of an hour are a stretch of the chain: up to some commit in one window, behind it in one other. |
| `RateLimit.HourCount` | scripts/transforms/rate_limit_transform.sh:12-30 | The exact number of commits in an hour, from the counts of its first and last commit and of the last one of the old window. |
| `RateLimit.HourWithinLimit` | scripts/transforms/rate_limit_transform.sh:12-30 | From a file without a negative count an hour holds at most max commits if and only if it touches one window only, or what it sees of the old window and the count of the new one add up to at most max. |
| `RateLimit.HourFromOpening` | scripts/transforms/rate_limit_transform.sh:19-22 | An hour that begins at the reading that opened a window, one the file had no negative count in, holds at most max commits. |
| `RateLimit.HourBound` | scripts/transforms/rate_limit_transform.sh:12-30 | For any decided chain and any starting file: at most 2 * max readings in [t, t + 3600], plus the size of a negative initial count, and at most 2 * max - 1 unless the file started with an unused window. |
| `RateLimit.RateBound` | scripts/transforms/rate_limit_transform.sh:12-30 | The same over the whole protocol: every interleaving of any number of limiter runs reading one clock keeps both bounds for every t. |
| `RateLimit.RateExactly` | scripts/transforms/rate_limit_transform.sh:12-30 | From any file whose window can end: the exact size of every hour, over every interleaving of runs reading one clock. |
| `RateLimit.KeepsHourlyExactly` | scripts/transforms/rate_limit_transform.sh:10-30 | For which limits and starting files no run on one clock ever has more than max commits in an hour, if and only if: the script rejects the file for good; its window never ends and has no negative count; max is 0 and the count is not negative; or max is 1 and the file holds no unused window. |
| `RateLimit.UnsafeHour` | scripts/transforms/rate_limit_transform.sh:10-30 | For every other limit and file, a run on one clock with more than max commits in one hour. |
| `RateLimit.FreshHour` | scripts/transforms/rate_limit_transform.sh:12-30 | From every file that can open a window, a run with exactly 2 * max - 1 commits in one hour. |
| `RateLimit.FullHour` | scripts/transforms/rate_limit_transform.sh:12-30 | For every max and every initial count below it, a run of the protocol on one clock with exactly 2 * max - count commits in one hour. |
| `RateLimit.HourBoundTight` | scripts/transforms/rate_limit_transform.sh:12-30 | For every max > 0, runs of the protocol on one clock that reach 2 * max - 1 commits in one hour from an absent file and 2 * max from an unused window: neither bound can be lowered. |
| `Canonicalize.CanonicalDecides` | scripts/structural_hash.py:22-34 | With kinds free of spaces and closing parentheses, two trees print the same string if and only if some one-to-one map of (field, value) keys carries one to the other with the same shape, kinds and field presence. |
| `Canonicalize.DecidesExactly` | scripts/structural_hash.py:22-34 | For which alphabets of kinds that holds for all trees, if and only if: no closing parenthesis; and next to a space neither an opening one nor all the letters of NAME_ or VALUE_ with a digit. |
| `Canonicalize.DecidesOver` | scripts/structural_hash.py:22-34 | The equivalence of CanonicalDecides for kinds over any such alphabet. |
| `Canonicalize.RenamingInvariant` | scripts/master_deployment_matrix.py:106-128 | A one-to-one renaming never changes the canonical string, whatever the kinds. |
| `Canonicalize.LabelsDecide` | scripts/structural_hash.py:25-33 | The numbering alone, before printing, is equal for two trees exactly when they are renamings of each other. |
| `Canonicalize.NodeInStep` | scripts/structural_hash.py:25-33 | Running two renamed trees side by side keeps the two tables in correspondence and gives equal numbers. |
| `Canonicalize.MatchNode` | scripts/structural_hash.py:25-33 | Two trees with the same numbers are carried into each other by matching keys of equal field and number. |
| `Canonicalize.AlphaIsEquivalence` | scripts/structural_hash.py:22-34 | Being a renaming of each other is reflexive, symmetric and transitive. |
| `Canonicalize.PrintUnambiguous` | scripts/structural_hash.py:31-34 | Over a legible alphabet, any text that starts with a printed tree determines the tree and the rest of the text. |
| `Canonicalize.KindsMatter` | scripts/structural_hash.py:23-34 | For every other alphabet, two trees over it that print the same string and are no renamings of each other. |
| `Canonicalize.ClosingCollides` | scripts/structural_hash.py:32-34 | With a closing parenthesis alone, two children print like a child with a child. |
| `Canonicalize.OpeningCollides` | scripts/structural_hash.py:32-34 | With a space and an opening parenthesis, text of the parent prints like text of the child. |
| `Canonicalize.SymbolCollides` | scripts/structural_hash.py:25-34 | With a space and the letters of a symbol, a kind prints like a name or a value. |
| `Canonicalize.Table.AddField` | scripts/structural_hash.py:25-31 | One pass of the field loop appends the symbol of a key, new keys getting the next number, and keeps the dictionary equal to the abstract numbering. |
| `Canonicalize.CanonicalizeNode` | scripts/structural_hash.py:22-34 | The recursive traversal over the shared dictionaries prints the numbered tree and leaves the dictionary the numbering describes. |
| `Canonicalize.AddChildren` | scripts/structural_hash.py:32-33 | The loop over the children appends their prints in order, threading one dictionary through all of them. |
| `Canonicalize.Canonicalize` | scripts/structural_hash.py:52 | Started with fresh dictionaries the traversal returns the canonical string of the theorems above. |
| `Canonicalize.ExamplePrint` | scripts/structural_hash.py:22-34 | One print in characters: names before values, parents before children, one counter for both fields, and a key met again keeps its symbol. |
| `Fnv.StepBijective` | include/core.hpp:59-62 | For every byte, signed or not, the step is a permutation of the 64-bit states: the step with the inverse prime undoes it from both sides. |
| `Fnv.MulUndo` | include/core.hpp:51-52 | Multiplication by the FNV prime modulo 2^64 is undone by its inverse. |
| `Fnv.XorInvolution` | include/core.hpp:60 | Exclusive or of any width is its own inverse. |
| `Fnv.StepSeparatesBytes` | include/core.hpp:59-62 | From one state, different bytes lead to different states. |
| `Fnv.FoldConcat` | include/core.hpp:57-64 | The hash of a concatenation is the fold continued from the hash of the first part. |
| `Fnv.FoldInjective` | include/core.hpp:57-64 | For a fixed content the final state determines the initial one. |
| `Fnv.OneByteChangesHash` | include/core.hpp:57-64 | Two contents that differ in exactly one byte never share a hash. |
| `Fnv.HashLoop` | include/core.hpp:57-64 | The loop computes the fold the lemmas are about, for both ways of widening a byte. |
| `Fnv.PublishedVectors` | include/core.hpp:51-64 | The published FNV-1a values of the empty text and of the letter a. |
| `Fnv.WideningMatters` | include/Moltbook.hpp:21-27 | The two ways of widening give a byte from 128 on different hashes, each with its value. |
| `Bytes.DecValue` | include/core.hpp:293 | Reading back the decimal that std::to_string prints gives the number. |
| `Bytes.DecInjective` | include/core.hpp:293 | Different numbers have different decimals. |
| `Bytes.DecIntValue` | include/core.hpp:230 | Reading back the signed decimal that std::to_string prints gives the number. |
| `Bytes.DecIntInjective` | include/core.hpp:230 | Different signed numbers have different decimals. |
| `Bytes.CanonicalSuffix` | include/QuarantineRegistry.hpp:42 | The decimal of the number that digits spell is an end of them: leading zeros go. |
| `Bytes.SuffixOfCanonical` | include/QuarantineRegistry.hpp:42 | Every decimal that ends some digits ends the decimal of their number. |
| `Bytes.LinesConcat` | include/core.hpp:304 | getline splits a file ended by a newline and a text behind it into the lines of the one and the lines of the other. |
| `Bytes.TornSplit` | include/core.hpp:304 | Every file is a newline-ended part and an open last line, which getline still returns when it is not empty. |
| `Bytes.InStream.GetLine` | include/Moltbook.hpp:46-51 | One getline call fails only when nothing is left, takes up to the first delimiter and drops it, and marks the end of the data. |
| `Bytes.Find` | include/QuarantineRegistry.hpp:67 | The search finds a needle exactly when it occurs. |
| `QuarantineLog.Scan` | include/core.hpp:300-313 | The line scan finds a hash exactly when its decimal is the first column of some line that is no comment. |
| `QuarantineLog.QuarantinedExactly` | include/core.hpp:300-313 | Independently of the scan: a hash is quarantined exactly when some line of the log starts with its decimal and a comma. |
| `QuarantineLog.ColumnsOfExactly` | include/core.hpp:305-308 | A line gives a column exactly when it is no comment and has a comma, namely what stands before the first one. |
| `QuarantineLog.Log.IsQuarantined` | include/core.hpp:288-320 | The answer for a source is whether the log holds the decimal of its FNV-1a hash. |
| `QuarantineLog.Log.Append` | include/core.hpp:208-259 | One append on its own replaces the log by the headed log and the new row, or leaves it alone when the temporary file or the rename fails. |
| `QuarantineLog.AppendedQuarantines` | include/core.hpp:221-242 | After an append with a newline-free label to a newline-ended log, exactly the appended hash is newly quarantined. |
| `QuarantineLog.AppendedColumns` | include/core.hpp:221-242 | An append adds its own hash and whatever rows its label holds behind a newline, nothing else, and leaves the log newline-ended. |
| `QuarantineLog.FirstAppend` | include/core.hpp:221-232 | The first append to a fresh log in characters: the version line, then hash, signal, time and label. |
| `QuarantineLog.AppendVisibleExactly` | include/core.hpp:211-242 | On any log at all, a hash not yet there is visible after its append if and only if the log's last line was ended. |
| `QuarantineLog.ColumnsGrow` | include/core.hpp:304-312 | Whatever is appended to a log, behind an unfinished line or not, no column the scan could read is lost. |
| `QuarantineLog.LabelExactly` | include/core.hpp:229-232 | After an append with any label a hash is quarantined if and only if it was before, is the appended one, or stands in the rows the label holds behind a newline. |
| `QuarantineLog.LabelInjectsHash` | include/core.hpp:229-232 | For every n there is a source path with a newline whose quarantine also quarantines n. |
| `AppendProtocol.LogIsInitialPlusWholeEntries` | include/core.hpp:198-265 | In every run of any number of processes, killed anywhere and mid-write included, in which every rename publishes a complete temporary file, the live log is the initial log, headed once, followed by whole entries in rename order. |
| `AppendProtocol.StepKeepsGuard` | include/core.hpp:198-265 | Every system call of any process, faulty ones included, and a kill between any two, keeps what each lock holder relies on; only a rename changes the log. |
| `AppendProtocol.WholeExactly` | include/core.hpp:234-258 | The live log is whole at every moment of a run if and only if every rename of the run published a complete temporary file. |
| `AppendProtocol.AppendWholeExactly` | include/core.hpp:234-258 | One append whose stream was closed early or not leaves the log whole if and only if all its bytes were in the temporary file. |
| `AppendProtocol.RenamePublishesPrefix` | include/core.hpp:234-258 | Whatever was written, a rename makes the live log a prefix of the old log, headed, with the entry. |
| `AppendProtocol.FaultlessIsComplete` | include/core.hpp:242-243 | With processes that complete the writes they live through, every rename is complete; kills in the middle of a write do no harm. |
| `AppendProtocol.AppendsExactlyOnce` | include/core.hpp:198-265 | No append is lost or made twice: each rename belongs to a call of its own, every call that returned after its rename is among them, and one still under way is among them exactly when it is past its rename. |
| `AppendProtocol.FailedAppendChangesNothing` | include/core.hpp:237-264 | An append that fails at the lock, the temporary file or the rename leaves log and history alone, gives back the lock and is not counted as returned. |
| `AppendProtocol.KillDropsLock` | include/core.hpp:102-111 | A kill ends the process and drops its lock, and touches no file. |
| `AppendProtocol.FoldQuarantines` | include/core.hpp:221-242 | In the resulting log a hash is quarantined exactly when it was at the start or some rename recorded it. |
| `AppendProtocol.UndisturbedAppendLands` | include/core.hpp:198-265 | The steps of one process left alone, for any entry and from any state with a free lock, compose to the sequential append: its row in the log, one rename, the process back and the lock free. |
| `AppendProtocol.ShortWriteCutsLog` | include/core.hpp:234-258 | For any log, entry and n: a run that replaces the log by the first n bytes of what was to be written and returns normally. |
| `AppendProtocol.ShortWriteErasesLog` | include/core.hpp:234-258 | In particular by an empty file, with the call returning as if all had gone well. |
| `AppendProtocol.ForkedOnlyIfReadFirst` | include/core.hpp:327-344 | A call forks a content only if the hash was not in the initial log and its pre-flight read preceded the first rename that recorded it. |
| `AppendProtocol.CrashIsRecorded` | include/core.hpp:358-361 | From the crash of a forked child on, with the lock free, the process alone brings its hash into the log, with the signal of the crash, and is back with the lock free. |
| `AppendProtocol.CrashThenRefused` | include/core.hpp:327-361 | After that the hash is quarantined and a call for it by any process ends refused at its pre-flight check. |
| `AppendProtocol.CrashAccounted` | include/core.hpp:198-265 | In every concurrent run the job of every crashed child is still under way, or in the history of renames, or was lost in a step that kills its process or fails its append; there is no fourth case. |
| `AppendProtocol.CleanRunRecordsNothing` | include/core.hpp:327-362 | A call for a content that is not quarantined gets to the fork, and if its child exits by itself the log, the history and the lock are as before. |
| `AppendProtocol.LaterCallsRefused` | include/core.hpp:322-331 | Once a hash is recorded, every call that begins later is refused before it forks, in any concurrent run and after any crashes. |
| `AppendProtocol.QuarantinedSinceExactly` | include/core.hpp:315-335 | Between its check and its fork a content is quarantined if and only if a rename since the check recorded it. |
| `AppendProtocol.WindowStaysOpen` | include/core.hpp:315-335 | For any log and any entry for a hash not in it, a run in which a call forks that content after another process quarantined it. |
| `Lease.StepKeepsInv` | include/core.hpp:78-161 | Every step of construction, destruction, fork, exec, exit and kill keeps flag, lock and descriptions in agreement. |
| `Lease.AtMostOneLease` | include/core.hpp:144-161 | In every reachable state at most one MutationLease exists system-wide. |
| `Lease.FlagMeansLease` | include/core.hpp:117-161 | A process's flag is set exactly while one of its threads has the lease, and that thread's own description owns the flock. |
| `Lease.ThrowUnreachable` | include/core.hpp:127-133 | The in-process throw is never reached through MutationLease. |
| `Lease.ReleaseClearsOwnFlag` | include/core.hpp:155-157 | A release clears its own process's flag only, and nobody else holds a lease at that moment. |
| `Lease.KillFreesLock` | include/core.hpp:339-344 | A taken lock is always referenced by a live process; killing a process frees it exactly when no other process shares the description. |
| `Lease.DescriptorsExactly` | include/core.hpp:83-111 | A supervisor has a description open exactly while one of its threads is between open and close with it; a program after exec has none open. |
| `Lease.LockHeldByWhom` | include/core.hpp:339-344 | A taken lock is referenced by a supervisor or by a child that has neither exec'd nor exited, never by a program after exec. |
| `Lease.ForkShares` | include/core.hpp:335 | fork gives the child exactly the descriptions of its parent and leaves the lock alone. |
| `Lease.EndsHoldNothing` | include/core.hpp:85 | exec (through O_CLOEXEC), exit and kill take all of a process's descriptions away. |
| `Lease.ChildKeepsUntilExec` | include/core.hpp:339-344 | A kill of the lease holder leaves the lock to its forked child while that is between fork and exec; once the child has exec'd or exited the kill frees it. |
| `Lease.GuardedRunForks` | include/core.hpp:333-344 | The run of a guarded call up to its fork, and its continuations: killed at once the lock stays taken, killed after the exec it is free. |
| `Lease.UnlockFreesDespiteChildren` | include/core.hpp:104-108 | LOCK_UN frees the lock at once even while children share the description. |
| `Lease.CrossProcessGuard.Acquire` | include/core.hpp:83-100 | The constructor is its thread's run Open, Flock among all others, waiting while the lock is taken; it fails exactly when open or flock does, ends with its own locked description or none, and otherwise still waits for a taken lock. |
| `Lease.CrossProcessGuard.Release` | include/core.hpp:104-111 | Release is its thread's run Unflock, Close; a second call, or one on a guard never locked, does nothing. |
| `Lease.MutationLease.Construct` | include/core.hpp:149-153 | The constructor is the run Open, Flock, SetFlag of its thread with all others acting in between, or the failing or waiting part of it; in a reachable system it fails only with its system calls, never by the throw, and once built it is the only lease and owns the lock. |
| `Lease.MutationLease.Destroy` | include/core.hpp:155-157 | The destructor is the run ClearFlag, Unflock, Close of its thread with all others acting in between, and leaves the thread without lease and descriptor. |
| `MoltbookLedger.CorruptionDetected` | include/Moltbook.hpp:41-77 | In any ledger of clean, distinct records, replacing any one byte of a record, delimiters and digits included, by any other non-newline byte makes the next load drop exactly that hash and keep all others. |
| `MoltbookLedger.CorruptLineRejected` | include/Moltbook.hpp:46-59 | No record line with one byte replaced by another passes the checksum test. |
| `MoltbookLedger.ParseThree` | include/Moltbook.hpp:47-51 | The three chained getline calls give back the fields a record was written from. |
| `MoltbookLedger.RecordText` | include/Moltbook.hpp:72-73 | One record in characters: both fields and the decimal of the sign-extending FNV-1a hash of both, with bars between. |
| `MoltbookLedger.SurvivesExactly` | include/Moltbook.hpp:41-77 | A record appended to any file whatsoever is known after the next load if and only if the file was newline-ended and neither field holds a bar. |
| `MoltbookLedger.LoadPrint` | include/Moltbook.hpp:41-77 | Loading a printed ledger of any records, whatever their fields hold, gives exactly what each printed record gives on its own. |
| `MoltbookLedger.LoadEntryExactly` | include/Moltbook.hpp:46-74 | A record without newlines loads as its hash if neither field holds a bar, and as nothing otherwise. |
| `MoltbookLedger.LoadClean` | include/Moltbook.hpp:41-77 | Loading records with clean fields gives exactly their hashes. |
| `MoltbookLedger.CacheAgreesWithDisk` | include/Moltbook.hpp:41-77 | After any calls with newline-free fields whose writes get through, a fresh object never knows more than the one that wrote, and it knows the same if and only if no call that took effect had a bar in a field. |
| `MoltbookLedger.CacheAgreesExactly` | include/Moltbook.hpp:41-77 | For any calls, any strings and any writes cut short: cache and file agree, the file ended, at every moment if and only if what is stored of every record that takes effect is ended and reads back as its hash and nothing else new. |
| `MoltbookLedger.ReadsBackExactly` | include/Moltbook.hpp:67-77 | Of records without newlines those read back that are stored whole and hold no bar. |
| `MoltbookLedger.BarForgotten` | include/Moltbook.hpp:67-77 | Any record with a bar in a field that takes effect is known in memory and unknown to every fresh load. |
| `MoltbookLedger.OneRecordPerHash` | include/Moltbook.hpp:67-77 | Started on a fresh ledger, any calls leave in the file what got through of one record per known hash, the first that could open it. |
| `MoltbookLedger.StoredIsPrinted` | include/Moltbook.hpp:71-74 | With whole writes that is exactly the printed records. |
| `MoltbookLedger.Moltbook.LoadLedger` | include/Moltbook.hpp:41-61 | The loop adds to the known set exactly the hashes of the accepted lines. |
| `MoltbookLedger.Moltbook.RecordMutation` | include/Moltbook.hpp:67-77 | A known hash or an unwritable file changes nothing; otherwise the set grows by the hash and the file by what gets through of its record. |
| `MoltbookLedger.CheckLine` | include/Moltbook.hpp:47-59 | The loop body accepts a line exactly when its third field is the decimal of the checksum of the first two. |
| `MoltbookLedger.ParseRecord` | include/Moltbook.hpp:47-51 | The stream calls split a line as the parse function says, the missing and the empty third field included. |
| `DelimitedLedgers.FoundExactly` | include/QuarantineRegistry.hpp:65-67 | After any writes to any text, each whole or cut short anywhere, the search finds q exactly when it did before, or when some write got past its separator and q ends the text before it and its key together. |
| `DelimitedLedgers.CutAppend` | include/QuarantineRegistry.hpp:87-89 | What one write of any length adds to the answers: the keys that end the old text and the new key together, once the separator is in, and nothing else. |
| `DelimitedLedgers.BannedExactly` | include/QuarantineRegistry.hpp:41-68 | After any bans in any ledger, whole, cut short or failed, is_banned holds exactly for the hashes banned before and those whose decimal ends the digits in front of some landed separator: the recorded decimal and, glued to it, the digits the ledger ended in. |
| `DelimitedLedgers.OnlyRecordedExactly` | include/QuarantineRegistry.hpp:65-89 | From an absent ledger the answers are those of the recorded decimals for every hash if and only if every number that a landed ban shows, glued digits included, ends some recorded decimal. |
| `DelimitedLedgers.CleanTailsSuffice` | include/QuarantineRegistry.hpp:65-89 | In particular when no landed ban met a ledger ending in a digit. |
| `DelimitedLedgers.CutBanCollides` | include/QuarantineRegistry.hpp:87-89 | For all n > 0 and hash: n cut behind its digits and then hash in full make the number written as both in a row banned (12 and 34: 1234), with which neither decimal ends. |
| `DelimitedLedgers.ExactAmongEqualLengths` | include/QuarantineRegistry.hpp:65-67 | Among hashes of equally many digits the answer is exact membership among the bans that got past their separator, however any write was cut. |
| `DelimitedLedgers.SuffixCollision` | include/QuarantineRegistry.hpp:65-67 | With only 1234 banned, 34 is answered as banned. |
| `DelimitedLedgers.BanPersists` | include/QuarantineRegistry.hpp:80-93 | No false negatives: once a write got past the separator, no text before or after it, truncated or not, hides the ban. |
| `DelimitedLedgers.QuarantineRegistry.IsBanned` | include/QuarantineRegistry.hpp:41-68 | Not banned when the ledger cannot be opened, banned when it cannot be locked, otherwise the answer of the search in what could be read. |
| `DelimitedLedgers.AnswerWithoutReading` | include/QuarantineRegistry.hpp:45-51 | An absent or unopenable ledger bans nothing, one that opens and cannot be locked bans everything. |
| `DelimitedLedgers.AnswerFromReading` | include/QuarantineRegistry.hpp:53-67 | A ledger read to its end bans exactly what the search for the decimal, a space and a bar finds in it. |
| `DelimitedLedgers.QuarantineRegistry.BanMutation` | include/QuarantineRegistry.hpp:70-99 | The ledger is created if need be and grows by the entry, cut where the write stopped, or stays when it cannot be opened or locked. |
| `DelimitedLedgers.AfterBanExactly` | include/QuarantineRegistry.hpp:74-89 | A ban that opens the ledger creates it, locked or not, and adds its whole line when locked and not cut; one that does not open it leaves no trace. |
| `DelimitedLedgers.BanLine` | include/QuarantineRegistry.hpp:85 | The line of a ban in characters. |
| `DelimitedLedgers.ReadAll` | include/QuarantineRegistry.hpp:53-60 | However read splits the data, the loop collects all that arrives. |
| `DelimitedLedgers.AssimilatedExactly` | include/HiveMind.hpp:25-51 | After any registrations of newline-free keys in any ledger, whole, cut short or failed, is_assimilated holds exactly for the keys known before and those that end a line some registration closed: its key and, glued to it, the unfinished line before it. |
| `DelimitedLedgers.OnlyRegisteredExactly` | include/HiveMind.hpp:48-71 | From an absent ledger the answers are those of the registered keys if and only if every line a registration closed ends some registered key. |
| `DelimitedLedgers.CutHiveCollides` | include/HiveMind.hpp:69-71 | For all x and key: x cut before its newline and then key in full make x + key known, with which no registered key ends. |
| `DelimitedLedgers.HiveSuffixCollision` | include/HiveMind.hpp:48-50 | With only x + key registered, key is answered as assimilated, for all x and key. |
| `DelimitedLedgers.RegistrationPersists` | include/HiveMind.hpp:67-71 | Once a registration got past its newline, no text before or after it hides it. |
| `DelimitedLedgers.HiveMind.IsAssimilated` | include/HiveMind.hpp:25-51 | Unknown when the ledger cannot be opened or locked, otherwise the answer of the search in what could be read. |
| `DelimitedLedgers.HiveMind.RegisterMutationHash` | include/HiveMind.hpp:53-80 | The ledger grows by the key and a newline, cut where the write stopped, or stays when it cannot be opened or locked. |
| `NodeRegistry.FreshExactly` | include/NodeRegistry.hpp:177-221 | Without budgets the loop takes every valid hash of the file that is absent locally, each once, and nothing else. |
| `NodeRegistry.FreshInOrder` | include/NodeRegistry.hpp:177-221 | It takes them in the order of their first valid lines, which with FreshExactly leaves one sequence. |
| `NodeRegistry.OffersExactly` | include/NodeRegistry.hpp:177-190 | A line offers h if and only if it is h, a comma and anything, h being 1 to 20 decimal digits. |
| `NodeRegistry.ImportsExactly` | include/NodeRegistry.hpp:121-213 | A merge imports distinct, valid, locally absent hashes: nothing from an oversized file or with the session budget spent, otherwise the first min(fresh, per-peer limit, remaining session budget) of them. |
| `NodeRegistry.DefaultLimits` | include/NodeRegistry.hpp:50-66 | By default a file of more than 500 lines imports nothing, a merge at most 300 and a session at most 2000, and what fits is imported whole. |
| `NodeRegistry.MergedRow` | include/NodeRegistry.hpp:215-217 | The row of an import in characters: the hash, signal 0, the time and the file it came from. |
| `NodeRegistry.CutRows` | include/NodeRegistry.hpp:165-220 | What gets through of the rows: nothing if the log does not open, otherwise all, or a prefix when the stream is cut. |
| `NodeRegistry.MergePeerSignatures` | include/NodeRegistry.hpp:115-230 | The log grows by what gets through of the rows of the first min(per-peer limit, remaining session budget) fresh hashes; the returned value is the number of those hashes and the session counter rises by it, cut or not; a rejected or unreadable file changes nothing. |
| `NodeRegistry.ImportLoop` | include/NodeRegistry.hpp:172-221 | The line loop with its two inner gates sends exactly the rows of the greedy prefix to the stream and stops where it ends. |
| `NodeRegistry.Consider` | include/NodeRegistry.hpp:178-197 | A line passes the checks exactly when its column is a decimal of 1 to 20 digits that is not known yet. |
| `NodeRegistry.LoadExisting` | include/NodeRegistry.hpp:150-160 | The hashes loaded are the columns the line scan sees, in order. |
| `NodeRegistry.CountLines` | include/NodeRegistry.hpp:133-139 | The pre-count is the number of lines getline gives. |
| `NodeRegistry.MergeAllPeerFiles` | include/NodeRegistry.hpp:258-293 | The directory loop merges file by file, each into the log the ones before left, under one shared counter; a stream that does not open or is cut costs that file only. |
| `NodeRegistry.MergeEntry` | include/NodeRegistry.hpp:266-279 | An entry not named like a peer file is skipped; any other is merged. |
| `NodeRegistry.PeerNameExactly` | include/NodeRegistry.hpp:268-272 | A directory entry is a peer file if and only if its name is peer_, a non-empty stem and .csv. |
| `NodeRegistry.PeerFileMerged` | include/NodeRegistry.hpp:258-293 | By name and text alone: a readable file peer_*.csv within the limits gets every hash it offers into the log. |
| `NodeRegistry.CycleRunExactly` | include/NodeRegistry.hpp:149-160 | On a newline-ended log, with no row cut, re-reading the log before every file imports the same as knowing the initial set and the imports so far. |
| `NodeRegistry.CycleColumns` | include/NodeRegistry.hpp:258-293 | A cycle on a newline-ended log adds exactly its imports, in order, and leaves it newline-ended. |
| `SyncConvergence.LogRefinesSet` | include/core.hpp:221-313 | After any appends and cycles with newline-free labels and uncut rows, from a newline-ended log, the scan answers true exactly for hashes whose decimal is in the set the same operations make. |
| `SyncConvergence.QuarantinedByEvents` | include/core.hpp:198-320 | After any run with newline-free labels and uncut rows a hash is quarantined exactly when it was at the start, or an append of it got through, or a cycle imported its decimal. |
| `SyncConvergence.NeverForgotten` | include/core.hpp:198-320 | A quarantined hash stays quarantined under any further appends and cycles, from any log, with any labels and with rows cut anywhere. |
| `SyncConvergence.CycleSound` | include/NodeRegistry.hpp:258-293 | The imports of a cycle are new, pairwise distinct, each offered by some file, and within the session limit. |
| `SyncConvergence.PoolExactly` | include/NodeRegistry.hpp:177-190 | What a directory offers, by names and texts: the decimals of 1 to 20 digits before a comma in a line of a readable file peer_*.csv for which the log opens. |
| `SyncConvergence.CycleAbsorbsOrSpends` | include/NodeRegistry.hpp:199-213 | After a cycle over files none of which is oversized either everything offered is known, or at least the smaller limit was imported. |
| `SyncConvergence.CycleProgress` | include/NodeRegistry.hpp:258-293 | A cycle takes at least min(missing, per-peer limit, session limit) hashes off the missing ones, exactly as many as it imports. |
| `SyncConvergence.SyncConverges` | include/NodeRegistry.hpp:258-293 | With what the peer files offer fixed (readable, not oversized, the log opening for append and taking all rows) and m hashes missing, any n cycles with n times the smaller limit at least m reach exactly the union, in any directory orders. |
| `SyncConvergence.SyncStable` | include/NodeRegistry.hpp:258-293 | From the union on a cycle over any log imports nothing and leaves it untouched. |
| `SyncConvergence.CycleKeepsDistinct` | include/NodeRegistry.hpp:192-218 | A log without duplicates has none after a cycle. |
| `SecureArtifact.NeverOverwrites` | include/SecureArtifact.hpp:46-94 | Success means the name was free and now holds exactly the content; in every case files that were there are untouched, no other name appears and what a failure leaves is a prefix of the content. |
| `SecureArtifact.PublishesExactly` | include/SecureArtifact.hpp:23-94 | Publication succeeds if and only if the name is free and every call works, the cross-device copy included where it is needed; a failure leaves nothing, or of that copy the part that got through. |
| `SecureArtifact.Directory.WriteSecurely` | include/SecureArtifact.hpp:23-94 | Every combination of failing calls, the cross-device copy included, ends in the outcome NeverOverwrites is about. |
| `SecureArtifact.Directory.CopyLoop` | include/SecureArtifact.hpp:59-74 | The chunked loop copies as far as reads and writes go and reports whether that was everything. |
| `MutationRunner.EachIdSucceedsOnce` | include/MutationRunner.hpp:56-124 | Over any sequence of calls each id returns true at most once: its source stays in the vault, and every later call with that id fails before it reaches a compiler. |
| `MutationRunner.NoCompileAfterBan` | include/MutationRunner.hpp:56-124 | With a ledger that can be written and read, no compiler is forked for a source once a ban of it was recorded, under any id and after any calls between. |
| `MutationRunner.BansExactly` | include/MutationRunner.hpp:56-124 | Which calls ban, if and only if: an unsafe source with 254, a compiler not seen to exit with 0 within 600 ticks with 255, a binary not seen to within 30 with 1; no other call touches the ledger. |
| `MutationRunner.FailedNeverRetried` | include/MutationRunner.hpp:56-124 | A source that was rejected, did not compile or did not run to its end is never compiled again, under any id, with a ledger that can be written and read. |
| `MutationRunner.VaultExactly` | include/MutationRunner.hpp:65-121 | What each call leaves in the vault: its source after a success or when the compiler could not be forked, a binary only from a compiler that failed, and otherwise nothing of its own. |
| `MutationRunner.SourcesKept` | include/MutationRunner.hpp:74-121 | A call never changes or removes a source another call left in the vault. |
| `MutationRunner.BansKept` | include/MutationRunner.hpp:56-124 | No call lifts a ban. |
| `MutationRunner.CallBans` | include/MutationRunner.hpp:59-115 | A call that records a ban makes the search find it from then on. |
| `MutationRunner.SuccessExactly` | include/MutationRunner.hpp:56-124 | A call returns true exactly when the source is safe, could be published, is not answered as banned, and compiler and binary both exited with 0 within 600 and 30 ticks. |
| `MutationRunner.SucceedsExactly` | include/MutationRunner.hpp:36-52 | The watch succeeds exactly when some answer is an exit with code 0, only running or interrupted answers precede it, and no more of them are running than there are ticks. |
| `MutationRunner.TimesOutExactly` | include/MutationRunner.hpp:36-48 | The watch times out exactly when the child is found running once more after as many ticks as it had. |
| `MutationRunner.EnforceTimeout` | include/MutationRunner.hpp:29-53 | The polling loop returns true exactly on that condition and kills the process group exactly when the ticks run out. |
| `MutationRunner.Runner.EvaluateAndExecute` | include/MutationRunner.hpp:56-124 | One call takes vault and ledger where the pipeline step takes them, branch by branch, a partial binary of a failed compiler left behind included, and returns its verdict. |
| `MutationRunner.Runner.RunBinary` | include/MutationRunner.hpp:97-116 | A failed lease or fork neither succeeds nor bans; a run that is not seen to exit with 0 in time bans with code 1. |

## Left out

- `curl`, `jq`, `base64`, `mktemp`, the token check at `scripts/cas_commit.sh:21`, and the backoff sleeps: the client starts at line 23 with a decoded content.
- A PUT that was applied while its reply was lost: the server is assumed to answer for what it did.
- Stripping of trailing newlines by `$(...)`, the shell's 64-bit wrap-around, and text that shell arithmetic evaluates to a number without being one: contents are decoded values and integers unbounded.
- `scripts/transforms/manifest_transform.sh` is not part of this model; the protocol is proved for any transform.
- `clang`, SHA-256 and the registration loop of `scripts/structural_hash.py`; a `name` or `value` Python cannot hash raises an error there and does not occur here, nor does NaN.
- `include/HeuristicAnalyzer.hpp`: its verdict is an arbitrary predicate. What the top README says of its passes and rules is not claimed.
- `include/CognitiveForge.hpp`, `include/SafeShell.hpp`, `include/NexusC2.hpp`, `include/GitCortex.hpp`, `include/SwayamGitCortex.hpp`, `scripts/safe_extract.py`, `Moltbook::write_mutation`, `include/Supervisor.hpp`, `src/main.cpp`: generators, thin wrappers over tools, and glue.
- `migrate_quarantine_if_needed` (`include/core.hpp:163-196`): it resets a legacy log on purpose, so nothing here claims monotonicity across it.
- `derive_node_id`, `export_node_signatures`: straight-line.
- NodeRegistry.CycleRunExactly: the set refinement and the convergence are for cycles whose rows all get through; a cut row is counted by the code and imported again by a later cycle only if its hash stayed unreadable.
- Merges running beside appends: the merge takes no lock (`include/NodeRegistry.hpp:165`), so it is modelled as running alone.
- Failing reads of a log that exists: its readers see its text.
- Durability across power failure: `fsync` is a step without effect here.
- Wall-clock times are parameters; console output is dropped.
- The shared lock of `is_quarantined` (`include/core.hpp:296-298`) and the lease are not taken in `AppendProtocol.dfy`, which therefore has more interleavings than the code; that a waiter gets its turn is not claimed.
- Reuse of pids and of file descriptors; a child that survives without exec or exit is a state of the lease model, a child that inherits a held ledger lock is not.
- Child processes that write into the vault or the ledger themselves.
- MutationRunner.EnforceTimeout: the answers of `waitpid` come as a list that decides the outcome; the two kill signals and the sleeps are one event.
- MutationRunner.Runner.EvaluateAndExecute: creating the vault directory and setting its permissions have no outcome.
- Lease.CrossProcessGuard.Acquire: how long it waits; the lock is taken as soon as it is found free, and a kill of the caller ends the method (the state machine has kills everywhere).
- CasScripts.CasIncrement: a GET answer other than 200 or 404 is a rejection, as it makes `jq` fail on the missing content.
