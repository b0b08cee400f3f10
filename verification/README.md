# OpenSoverignBlog: verified models

This project models the parts of OpenSoverignBlog in which a mistake would be
silent: a cache that must not serve content older than an edit, a limiter that must
not lock people out, backups that must come back as they went in, a check of
`.gitignore` files that guards secrets, pagination, the MCP adapter's
access rules, and the updater's choice of a release. The models are written in
Dafny 4.11; `dafny verify dfyconfig.toml` checks all of them. Nothing of the
original program was executed.

## The files

| files | what they model |
|---|---|
| `Common`, `Orders` | options, results and bytes; sorted lists |
| `CoherenceWord` | the coherence word `(sequence << 1) \| dirty`, its 64-bit wrap-around, and the rotation loop as imperative code |
| `CoherenceProtocol`, `CoherenceInvariant`, `CoherenceTheorems`, `CoherenceRotation`, `CoherenceProgress`, `CoherenceWitness` | the derivative-cache protocol as a state machine, its inductive invariant, what holds over every run, and what is achieved without interference |
| `Connections` | connection leases with generations, and the reconnect breaker |
| `Admission`, `Eviction` | the bounded sliding-window limiter, against an unbounded log, and exactly when its evictions matter |
| `Text`, `Glob`, `Gitignore`, `GitignoreFiles`, `GitignoreWitness` | the glob tokenizer and its two-row program, Git's reading of the same patterns, the acceptance of an existing `.gitignore` from its text on, exactly when it protects, and files that defeat it |
| `Base64Url`, `AdminTree`, `NodeIds` | program-tree pages, cursors and node ids |
| `Paths`, `FileTree`, `Manifests`, `Bundles`, `Backups`, `LegacyManifests` | portable paths, trees, manifests, the command-line tool's writer and verifier, and the earlier form of manifests |
| `Disk`, `Restore`, `RoundTrip` | a file system whose operations can fail, the transactional restore, and the round trip |
| `Generations`, `Retention` | the server's managed backups: writing, interoperating with the verifier, pruning |
| `McpLimiter`, `McpCommands`, `McpMeaning`, `Mcp`, `McpRuns` | the MCP adapter: limiter, argument parsing and what calls mean, lifecycle, and what holds over every run |
| `ReleaseChannel`, `ControlSnapshots` | the updater: release selection, and snapshots of control files |

## How the cache protocol is modelled

A state holds the canonical store's version, the two atomics, the operations in
flight with their program counters, and Redis with the commands that are still on
their way to it. Each atomic access, each Redis command and each Lua script is one
step. A command may land after its caller gave up, its reply may be lost, it may
never land; the epoch key and entries may be evicted; the process may stop anywhere
and start again dirty. The assumptions are those under which the protocol is meant
to work:

- The coherence word and the count of active mutations are sequentially consistent:
  the original uses acquire and release orderings on two separate atomics, and here
  every step sees one total order of all accesses.
- Redis is one linearizable store, without failover that loses acknowledged writes,
  and one process serves a namespace and content release.
- Generation strings are unique, and each command lands at most once.
- A render starts after its lookup returned the epoch, and reads one version of the
  canonical store.
- Every canonical commit happens while its mutation guard is held. Callers hold the
  guard in an async handler while the commit runs on a blocking thread
  (`apps/server/src/community.rs:754`), so a handler that is cancelled while its
  commit goes on is outside this assumption.
- The coherence word does not wrap within one process. `ShortRunsNeverWrap` says how
  long that takes.

## Where the code does less than one might read into it

Each of these is a lemma or a method with a concrete input, next to the condition
under which the property does hold.

- The limiter evicts under crowding, and can then admit more than its limit for one
  identity (`Admission.CrowdAdmitsTooMuch`, and `Eviction.EveryLimiterCanBeCrowded` for
  any limits). It never rejects too much, and it agrees with an unbounded log as long as
  every eviction is harmless, and no longer (`Eviction.HarmlessExactly`).
- The `.gitignore` check and Git read some rules differently, so that an accepted file
  can include a protected name again. For Git a character class goes on after a `]`
  among its members or in a named class, and may hold a slash, a line ends at a NUL, and
  trailing tabs stay (`BracketsDefeatTheCheck`, `NamedClassesDefeatTheCheck`,
  `SlashesDefeatTheCheck`, `NulsDefeatTheCheck` and `TabsDefeatTheCheck` in
  `GitignoreWitness`). `GitignoreFiles.FileProtectedExactly` has the exact condition, and
  `GitignoreFiles.AcceptedFileProtects` one under which acceptance is enough.
- The managed writer does not look at the names of directories, so it can publish a
  generation that the command-line verifier refuses
  (`Generations.UnportableDirectoryIsRefused`). `Generations.GenerationsInteroperate`
  has the exact condition.
- A new generation whose name is not the greatest can be pruned by its own run
  (`Retention.LaterNamesWin`). `Retention.Store.Publish` has the exact condition.
- A request that does not declare version 2.0 is answered without its id
  (`McpRuns.WrongVersionLosesId`). `McpRuns.ResponsesEchoIds` has the exact condition.
- A control file with mode bits beyond the nine permission bits can be captured but
  not restored (`ControlSnapshots.SetUserIdIsRefused`).
  `ControlSnapshots.SnapshotIsUsable` has the exact condition.

## Model

| member | source | states |
|---|---|---|
| CoherenceWord.TruncationCommutes | apps/server/src/cache.rs:708-726 | Working modulo 2^64 loses nothing: marking dirty and publishing on the stored word is the truncation of the same updates on an unbounded counter, and the dirty bit survives truncation. |
| CoherenceWord.CompareExchangeConfusesExactlyAtWrap | apps/server/src/cache.rs:717-726 | A compare-exchange takes an old ticket for the current word if and only if the counter moved by a multiple of 2^64 since; below that distance never. |
| CoherenceWord.Coherence.MarkDirty | apps/server/src/cache.rs:708-715 | An invalidation leaves the word odd and moves the counter by at least two. |
| CoherenceWord.Coherence.Publish | apps/server/src/cache.rs:717-726 | A publish succeeds if and only if the word still is the ticket; otherwise nothing changes. |
| CoherenceWord.Coherence.SetFreshGeneration | apps/server/src/cache.rs:438-465 | A generation is published exactly if its SET was accepted and nothing was invalidated meanwhile; the word is clean exactly then. |
| CoherenceWord.Coherence.RotateUntilSafe | apps/server/src/cache.rs:425-436 | The loop, under any interference, decided by the turns alone: each turn before the last read a dirty ticket, sent one accepted SET, and was overtaken by an invalidation. The last one suspends exactly if a mutation was active, reports an error exactly if its SET was not accepted, which leaves the word dirty, and is safe otherwise: with a word that was clean already, or after an accepted SET during which nothing was invalidated. At most one SET more than there were invalidations. |
| CoherenceInvariant.InvPreserved | apps/server/src/cache.rs:320-465 | Inductive invariant: every step of every operation (mutation, rotation, lookup, render, store, failed command, lost reply, late landing, eviction, restart) keeps it; in particular while the word is even, everything tagged with the live generation is at least as new as the last dropped guard. |
| CoherenceInvariant.InvThroughout | apps/server/src/cache.rs:212-237 | The invariant holds in every state of every run from a fresh process, through restarts. |
| CoherenceTheorems.HitsAreLinearizable | apps/server/src/cache.rs:320-349 | In every interleaving, a value that a lookup returns is the rendering of its own route by the origin at some instant between the first active-mutation check of that lookup and its return. |
| CoherenceTheorems.CleanMeansFresh | apps/server/src/cache.rs:391-465 | Whenever the word is clean, every entry, store on the wire and rendering tagged with the live generation is at least as new as every mutation whose guard was dropped before, also if an in-flight repair published while a mutation was active. |
| CoherenceTheorems.AbandonedForever | apps/server/src/cache.rs:29-49 | A generation that stopped being live is never live again: not by eviction of the epoch key, a SET that lands late, a lost reply or a restart. |
| CoherenceTheorems.ReplacedEpochIsInvisible | apps/server/src/cache.rs:360-386 | A store that carries a replaced epoch changes no entry, and no lookup is answered from a replaced generation. |
| CoherenceTheorems.MarksMoveTheWord | apps/server/src/cache.rs:708-715 | Within one process, the word strictly grows across every invalidation, whatever else happens in between. |
| CoherenceTheorems.ShortRunsNeverWrap | apps/server/src/cache.rs:69-71 | The assumption that the word does not wrap holds in every run of fewer than about 2^62 steps. |
| CoherenceRotation.PublishExactlyIfUndisturbed | apps/server/src/cache.rs:438-453 | No lost invalidation and no ABA: a publish makes the word clean if and only if nothing was invalidated since its ticket was read. |
| CoherenceRotation.RotationIsBounded | apps/server/src/cache.rs:404-436 | In every interleaving, a rotation that holds the mutex sends at most one SET more than there were invalidations since it took it. |
| CoherenceRotation.LoopPreserved | apps/server/src/cache.rs:404-465 | Invariant of the loop: at most one rotation is inside it, and each failed compare-exchange is paid for by a dirty mark. |
| CoherenceWitness.HitsHappen | apps/server/src/cache.rs:320-386 | The statements about hits are not empty: from the initial state a run reaches a lookup that is answered with a stored rendering. |
| CoherenceProgress.CleanLookupAnswers | apps/server/src/cache.rs:320-349 | From every state with a clean word and no active mutation, a lookup without interference returns in five steps exactly what the live generation holds for its route, up to 86 MiB. |
| CoherenceProgress.FilledIsReturned | apps/server/src/cache.rs:27-49 | And a page of any size up to 86 MiB that was rendered after a miss is what the next lookup of its route returns; a bigger one is not returned. |
| CoherenceProgress.DirtyLookupAnswers | apps/server/src/cache.rs:320-465 | From every state with a dirty word, no active mutation and a free mutex, a lookup makes a fresh generation live, the word clean, and is answered, in fourteen steps. |
| CoherenceProgress.LookupMintsEpoch | apps/server/src/cache.rs:28-40 | If the epoch key is gone, the lookup makes its own minted generation live and finds nothing stored under an older one. |
| CoherenceProgress.RepairCleans | apps/server/src/cache.rs:415-465 | So does a repair on its own account, in ten steps. |
| CoherenceProgress.CompletionCleans | apps/server/src/cache.rs:404-465 | And the completion of a mutation, in eight. |
| CoherenceProgress.MutationCompletes | apps/server/src/cache.rs:391-402 | A mutation never waits for the cache: from every state it can run to its end, adds one commit, marks the word dirty twice and leaves none active. |
| Connections.InstallsCount | apps/server/src/cache.rs:569-573 | The generation after n installs is a closed form of n: it counts 1 to 2^64 - 1 and then starts again at 1, never at 0. |
| Connections.GenerationsRepeatExactlyAtWrap | apps/server/src/cache.rs:569-573 | Two leases share a generation if and only if a multiple of 2^64 - 1 installs lies between them. |
| Connections.BackoffIsExact | apps/server/src/cache.rs:139-147 | After the n-th consecutive failure the delay is min(100 * 2^(n-1), 2000) ms for every n: the 32-bit shift never overflows, and saturation and the clamp of the exponent change nothing. |
| Connections.StaleErrorsAreHarmless | apps/server/src/cache.rs:641-661 | In every run, an error of an older lease changes the client if and only if a manager is installed and a multiple of 2^64 - 1 installs lies between; short of that it changes nothing. |
| Connections.EachLeaseFailsOnce | apps/server/src/cache.rs:651-661 | In every run of fewer than 2^64 installs, each connection adds at most one command failure to the breaker, whatever other requests do between the drop of its manager and the count. |
| Connections.CountedAreDropped | apps/server/src/cache.rs:651-661 | In every run the failures counted for a lease, and those still owed, are exactly the drops of its manager. |
| Connections.EachLeaseIsDroppedOnce | apps/server/src/cache.rs:641-649 | In every run of fewer than 2^64 installs, the manager of one lease is dropped at most once, and then the slot ends with another manager or none. |
| Connections.BreakerFollowsFailures | apps/server/src/cache.rs:91-160 | In every run the breaker is a function of the failures since the last success, and its deadline is the exact delay after the latest of them. |
| Connections.DeadlineFollowsFailures | apps/server/src/cache.rs:139-153 | Whatever happened since the latest of n failures, short of a success, the deadline is the exact delay after it; with no failure since the last success there is none. |
| Connections.RedisClient.HandleCommandError | apps/server/src/cache.rs:651-661 | The two steps of a command error, with any events of other requests between them: the manager is dropped exactly if the lease is the installed one, and exactly then the failure is counted. |
| Connections.RedisClient.DropManager | apps/server/src/cache.rs:641-649 | Afterwards no manager of that generation is installed and a manager of another generation is untouched; the caller learns whether it was the one to drop it. |
| Connections.RedisClient.RecordFailure | apps/server/src/cache.rs:139-147 | The saturating counter and the clamped shift compute the next breaker state. |
| Connections.RedisClient.BeginAttempt | apps/server/src/cache.rs:114-137 | An attempt starts exactly if there is no deadline, or it has been reached, at either of the two looks, and nobody holds the gate when it is tried, whatever other requests do to the gate, the slot and the breaker in between. |
| Connections.AttemptAfter | apps/server/src/cache.rs:114-147 | After any run of events, with a free gate and nothing in between, an attempt starts if and only if there was no failure since the last success or min(100 * 2^(n-1), 2000) ms have passed since the latest of n. |
| Admission.KeyedRateLimiter.AdmitAt | apps/server/src/admission.rs:49-81 | One call, with retain, eviction and the pop-front loop, does what the relation AdmitStep says of the map, the queue and the answer. |
| Admission.KeyedRateLimiter.Oldest | apps/server/src/admission.rs:53-60 | The evicted bucket is one whose last attempt is the oldest. |
| Admission.AlwaysBounded | apps/server/src/admission.rs:6-22 | In every run, whatever the clock does, buckets and queue lengths stay within their limits. |
| Admission.NeverRejectsTooMuch | apps/server/src/admission.rs:49-81 | With chronological times and no other condition, every bucket is a suffix of the unbounded log, so that no attempt is rejected which the log would allow. |
| Admission.RecentIsCount | apps/server/src/admission.rs:69-75 | What the log counts is the number of its times t with t plus the window later than now: an attempt exactly one window old no longer counts. |
| Admission.RefinesOracle | apps/server/src/admission.rs:45-81 | While every call is harmless, in that the buckets it drops hold nothing within the window, each decision equals "fewer than N admitted attempts in the last window" over an unbounded log, including after forget. |
| Admission.RunsAgree | apps/server/src/admission.rs:45-81 | Hence the whole list of decisions of a harmless run is the list of the oracle. |
| Admission.UncrowdedRunsAgree | apps/server/src/admission.rs:45-81 | In particular if every newly seen identity finds fewer than the maximum of others whose last attempt plus the window is later than now, which the calls alone decide. |
| Eviction.HarmlessExactly | apps/server/src/admission.rs:45-81 | The condition is exact: after harmless calls, a further call is harmless if and only if every continuation by harmless calls makes exactly the decisions of the oracle. |
| Eviction.HarmIsFelt | apps/server/src/admission.rs:51-62 | After any harmful call of any run there is a continuation by harmless calls in which the limiter admits an attempt that the log refuses. |
| Eviction.EveryLimiterCanBeCrowded | apps/server/src/admission.rs:51-62 | Whatever its limits, a limiter has a run in which eviction makes its decisions differ from those of the log. |
| Admission.CrowdAdmitsTooMuch | apps/server/src/admission.rs:51-62 | A concrete run in which eviction makes the limiter admit what the log refuses. |
| Glob.JoinMatches | apps/cli/src/bootstrap.rs:1731-1747 | The recursive matching relation on tokens is closed under concatenation of patterns and values. |
| Glob.SplitMatches | apps/cli/src/bootstrap.rs:1731-1747 | And conversely: a value that a concatenated pattern matches can be cut so that each part matches. |
| Glob.Tokenize | apps/cli/src/bootstrap.rs:1692-1726 | The index loop yields the tokens of the pattern with repeated stars collapsed. |
| Glob.CollapsingKeepsLanguage | apps/cli/src/bootstrap.rs:1697-1702 | Collapsing repeated stars keeps the language, for every token list. |
| Glob.MayMatch | apps/cli/src/bootstrap.rs:1684-1748 | The two-row program decides exactly the recursive matching relation on the uncollapsed tokens. |
| Glob.OverApproximationExactly | apps/cli/src/bootstrap.rs:1707-1716 | For ASCII names without slashes, reading a class as any one character accepts everything that Git accepts, for every class membership, if and only if Git rejects the pattern as a whole, or the pattern can match no such name, or it has no NUL and no class with a closing bracket in its body: as its first member, escaped, or at the end of a named class. |
| Glob.AcceptedSomehow | apps/cli/src/bootstrap.rs:1707-1716 | Git can accept a name for some content of the classes if and only if the pattern with every class read as any character matches it: the text of the pattern decides that. |
| Gitignore.NegationMayRestore | apps/cli/src/bootstrap.rs:1676-1682 | The check of one negation is the existence of a component that matches the protected name. |
| Gitignore.ValidateEntries | apps/cli/src/bootstrap.rs:1631-1673 | The loop accepts exactly the files in which, after the last exact entry for each protected name, no negation may match it. |
| Gitignore.AcceptedHasEntries | apps/cli/src/bootstrap.rs:1634-1646 | An accepted file holds each of the four required entries, as it is or behind a slash. |
| Gitignore.EitherFormIsAccepted | apps/cli/src/bootstrap.rs:1631-1673 | And a file that holds each of them in either form, with no negation behind it, is accepted. |
| Gitignore.ReadsExactly | apps/cli/src/bootstrap.rs:1676-1682 | Hence the text of a rule decides whether some content of its classes makes it match a protected name. |
| Gitignore.ProtectedExactly | apps/cli/src/bootstrap.rs:1647-1673 | The exact condition, for every list of rules: from its last exact entry on, a protected name stays ignored, wherever the list is cut short and whatever the classes contain, if and only if no later negation reads the name. |
| Gitignore.AcceptedProtects | apps/cli/src/bootstrap.rs:1611-1673 | If a file is accepted, and its negations have no NUL and no class with a closing bracket or a slash in its body, last-match-wins evaluation leaves each of the four protected names ignored, for every entry list and every class membership. |
| GitignoreFiles.ValidateText | apps/cli/src/bootstrap.rs:1611-1673 | From the text of the file on: comments, blanks and trailing white space of its lines are dropped, and the rest is accepted exactly if it is protective. |
| GitignoreFiles.CommentsAreSkipped | apps/cli/src/bootstrap.rs:1626-1630 | Comments and blank lines are neither entries of the check nor rules of Git; any other line without white space at its end is an entry. |
| GitignoreFiles.WhiteSpaceExactly | apps/cli/src/bootstrap.rs:1628 | The check trims exactly the 25 code points that Unicode calls white space. |
| GitignoreFiles.MarkIsDropped | apps/cli/src/bootstrap.rs:1624-1630 | A byte order mark at the start of the file makes no difference to Git. |
| GitignoreFiles.FileProtectedExactly | apps/cli/src/bootstrap.rs:1611-1673 | The exact condition for whole files: Git keeps all four names ignored, in the sense above, if and only if the rules that it makes of the lines (without a byte order mark, carriage returns, what follows a NUL, and trailing spaces) are safely read. |
| GitignoreFiles.AcceptedFileProtects | apps/cli/src/bootstrap.rs:1611-1673 | The promise for whole files: if the check and Git trim every line alike, an accepted file whose negations are plain keeps each protected name ignored, also behind a byte order mark. |
| GitignoreFiles.SecretsStayIgnored | apps/cli/src/bootstrap.rs:47-52 | By name: `.env`, `admin-access-key.txt`, `.osb-backups` and `.osb-update` stay ignored. |
| GitignoreWitness.BracketsDefeatTheCheck | apps/cli/src/bootstrap.rs:1707-1716 | The condition on brackets is needed: a file that ends in the rule `![].]env` is accepted, and that rule includes `.env` again. |
| GitignoreWitness.NamedClassesDefeatTheCheck | apps/cli/src/bootstrap.rs:1707-1716 | So is a file that ends in `![[:punct:]]env`, where the bracket ends a named class. |
| GitignoreWitness.SlashesDefeatTheCheck | apps/cli/src/bootstrap.rs:1676-1682 | The condition on slashes is needed: a file that ends in `![a/.]env` is accepted, because the check splits the class in two. |
| GitignoreWitness.NulsDefeatTheCheck | apps/cli/src/bootstrap.rs:1716-1723 | The condition on NULs is needed: a file that ends in `!.env`, a NUL and an `x` is accepted, and Git, for which the NUL ends the line, includes `.env` again. |
| GitignoreWitness.TabsDefeatTheCheck | apps/cli/src/bootstrap.rs:1627-1632 | The condition on line ends is needed: the line `.env` with a trailing tab is accepted as the exact entry, and Git does not ignore `.env`. |
| GitignoreWitness.FourLinesAreAccepted | apps/cli/src/bootstrap.rs:47-52 | A file with just the four literal lines is accepted. |
| Gitignore.LastExact | apps/cli/src/bootstrap.rs:1651-1654 | The position found holds an exact entry and none follows it; if none is found, there is none. |
| Text.JoinOfSplit | apps/cli/src/bootstrap.rs:1679-1681 | Splitting text at a separator loses nothing. |
| Text.SplitOfJoin | apps/cli/src/main.rs:717-733 | Joining parts that lack the separator is undone by splitting. |
| Base64Url.DecodeOfEncode | apps/server/src/admin_tree.rs:565-571 | Unpadded base64url (section 5 of RFC 4648) decodes what it encodes, for every byte string. |
| Base64Url.EncodeOfDecode | apps/server/src/admin_tree.rs:565-571 | And conversely: every text that decodes is the encoding of what it decodes to, so that no two texts decode alike. |
| AdminTree.CursorRoundTrip | apps/server/src/admin_tree.rs:551-580 | A 64-bit offset survives its cursor if and only if it is at most the greatest signed 64-bit number; a greater one is refused. |
| AdminTree.CursorsAreCanonical | apps/server/src/admin_tree.rs:551-580 | A text is accepted as the cursor of an offset if and only if it is the cursor made for it and the offset is at most the greatest signed 64-bit number. |
| AdminTree.NodesForParent | apps/server/src/admin_tree.rs:171-197 | The site branch, with its shifted offset and limit, is the slice of the uncategorized node followed by the categories. |
| AdminTree.FinishPage | apps/server/src/admin_tree.rs:586-602 | Truncation of a look-ahead page, and the cursor exactly if something was cut off. |
| AdminTree.GetPage | apps/server/src/admin_tree.rs:103-120 | One request is refused exactly for a limit outside 1 to 200 or a bad cursor; otherwise it returns the slice of that many children, or of 100, at the offset of its cursor, and a next cursor exactly if children follow. |
| AdminTree.FollowCursors | apps/server/src/admin_tree.rs:92-120 | Following cursors from the start, with any limit in 1..=200 on each request, terminates and yields every child once and in order. |
| NodeIds.NodeIdRoundTrip | apps/server/src/admin_tree.rs:278-291 | The printed node id of a category parent is parsed back to it, with and without a category. |
| NodeIds.NodeIdIsInjective | apps/server/src/admin_tree.rs:618-644 | No two category parents share a node id. |
| NodeIds.CategoryIsReadExactly | apps/server/src/admin_tree.rs:618-644 | Exactly which texts are read as a category parent, and as which: two parts behind the prefix, UUIDs, the second one possibly the word for no category; a text without the prefix is left to others. |
| NodeIds.UuidNodeRoundTrip | apps/server/src/admin_tree.rs:604-616 | A prefixed UUID is parsed back. |
| NodeIds.UuidIsReadExactly | apps/server/src/admin_tree.rs:604-616 | Exactly which texts are read as a prefixed UUID. |
| Paths.PrintedIsSafe | apps/cli/src/main.rs:722-733 | A path of portable names prints as a safe manifest path and is read back from it. |
| Paths.ParsedIsPortable | apps/cli/src/main.rs:691-720 | And conversely: a safe manifest path is a path of portable names, so that its components cannot leave the bundle. |
| Paths.NamesExactly | apps/cli/src/main.rs:735-748 | A name is portable exactly if it is not empty or a dot name and has no control character (C0, DEL, C1), slash, backslash or colon. |
| Paths.TextsExactly | apps/cli/src/main.rs:691-716 | A manifest path is safe exactly if every part between its slashes is such a name. |
| FileTree.CollectRegularFiles | apps/cli/src/main.rs:473-502 | The recursive walk lists the files below a directory and succeeds exactly on trees with portable names and nothing but files and directories. |
| FileTree.CopyDirectoryContents | apps/cli/src/main.rs:525-552 | The recursive copy succeeds on exactly those trees and equals its source. |
| FileTree.FilesAreThere | apps/cli/src/main.rs:473-502 | Everything listed is a file at its path. |
| FileTree.FilesAreComplete | apps/cli/src/main.rs:473-502 | Every file at a path is listed. |
| FileTree.FilesAreDistinct | apps/cli/src/main.rs:473-502 | No path is listed twice. |
| Manifests.CollectFileRecords | apps/cli/src/main.rs:455-471 | The loop over the walk computes the sorted records, and the check of each path text never fails. |
| Manifests.CollectedIsCanonical | apps/cli/src/main.rs:455-471 | Collected records are strictly sorted with safe, distinct paths and valid digests; and a strictly sorted list describes the tree if and only if it is the collected one: the tree determines its manifest, whatever order directories are read in. |
| Manifests.ValidateFileRecords | apps/cli/src/main.rs:435-453 | Comparing neighbours decides safety of every path, the 64 lower-case hexadecimal digits of every digest, and the strict order of all pairs. |
| Manifests.SortedIsUnique | apps/cli/src/main.rs:469-470 | A strictly sorted list of records is determined by its elements. |
| Bundles.VerifyRootLayout | apps/cli/src/main.rs:663-689 | The root check accepts exactly a database file, a manifest file and a blobs directory. |
| Bundles.RootLayoutExactly | apps/cli/src/main.rs:663-689 | In a directory without repeated names the accepted layouts are exactly the three entries `database.sqlite3`, `manifest.json` and `blobs`, with their types. |
| Bundles.VerifyBundle | apps/cli/src/main.rs:173-205 | The verifier succeeds exactly on bundles whose layout, namespace, manifest of either form, payload and database agree. |
| Bundles.NormalizeUndoesSplit | apps/cli/src/main.rs:380-424 | Splitting a valid portable manifest into the legacy form and normalizing it returns the same manifest. |
| Bundles.SplitUndoesNormalize | apps/cli/src/main.rs:380-424 | And conversely: whatever normalizes is the split form of its result, and that result is a valid manifest of a database and blobs. |
| LegacyManifests.ReadExactly | apps/cli/src/main.rs:366-424 | The manifests that are accepted, and with which records: the portable form of these records, or the earlier form of them with a valid generation name of at most 160 characters and a valid time. |
| LegacyManifests.LegacyVerifiesAlike | apps/cli/src/main.rs:173-205 | Of two bundles that differ in their manifest only, one in the earlier and one in the portable form of the same records, either both verify or neither. |
| LegacyManifests.VerifiedSays | apps/cli/src/main.rs:366-378 | Every bundle that verifies has a manifest in one of the two forms, of exactly the records it verifies with. |
| LegacyManifests.LegacyGenerationVerifies | apps/cli/src/main.rs:173-205 | A published generation with its manifest in the earlier form verifies if and only if its names are portable and it has a sha256 directory. |
| Bundles.TamperEvident | apps/cli/src/main.rs:198-199 | Bundles that verify against the same manifest have files at the same paths, and a changed file would have the same SHA-256 and size: nothing is added, removed or moved. |
| Bundles.BlobPathIsBelowBlobs | apps/cli/src/main.rs:193-195 | A portable path starts with the text of the blobs prefix if and only if it lies below the blobs directory. |
| Backups.BackupBundle | apps/cli/src/main.rs:127-161 | A backup succeeds if and only if the snapshot is readable and the blob source is a portable tree with a sha256 directory; its bundle holds that payload and verifies. |
| Backups.BundleVerifies | apps/cli/src/main.rs:147-151 | The bundle of such a tree always passes its self-verification. |
| Generations.CollectRecords | apps/server/src/backup.rs:379-393 | The managed walk appends the records of all files, and fails exactly on special entries and on files whose path is not safe. |
| Generations.CopyTree | apps/server/src/backup.rs:346-377 | The managed copy ignores names and equals its source exactly on plain trees. |
| Generations.VerifyGeneration | apps/server/src/backup.rs:438-489 | The managed verifier decides layout, manifest, records and database. |
| Generations.CreateGeneration | apps/server/src/backup.rs:155-226 | A generation is published exactly for a readable snapshot and a source of plain files at safe paths: its own checks cannot fail after that; what is published is the payload with its records. |
| Generations.GenerationRecordsAgree | apps/server/src/backup.rs:193-202 | The managed writer records exactly what the command-line writer would. |
| Generations.GenerationsInteroperate | apps/server/src/backup.rs:155-226 | A published generation passes the command-line verifier if and only if every name in it is portable, directories included, and it has a sha256 directory. |
| Generations.UnportableDirectoryIsRefused | apps/server/src/backup.rs:379-393 | An empty directory with a name that is not portable is published by the server and then refused by the command-line verifier. |
| Retention.Store.Prune | apps/server/src/backup.rs:583-604 | Pruning removes a prefix of the oldest names, stops at one that is not a directory, and never touches the newest ones or anything that is not a generation. |
| Retention.Store.Publish | apps/server/src/backup.rs:216-219 | One run under any name: a taken name changes nothing; otherwise exactly the newest generations that retention allows remain, with unchanged contents, and the new one is among them if and only if fewer than retention existing names are greater. |
| Retention.Store.PublishAll | apps/server/src/backup.rs:583-604 | Over every sequence of runs with ascending names, exactly the newest min(n, retention) generations remain in the store, the last one among them. |
| Retention.NewIsKeptExactly | apps/server/src/backup.rs:583-604 | In any list of ascending names, pruning keeps a name if and only if fewer than retention names follow it. |
| Retention.LaterNamesWin | apps/server/src/backup.rs:216-219 | A concrete store with two later-named generations and the least retention that the server takes: the new generation is published and pruned by its own run. |
| Disk.FileSystem.CreateDirAll | apps/cli/src/main.rs:217-222 | Missing parents are created from the top; a failure leaves a part of them and nothing else. |
| Disk.FileSystem.CopyVerifiedNew | apps/cli/src/main.rs:580-626 | A copy is new, has the digest and size of its record, or leaves no trace. |
| Restore.RestoreBlob | apps/cli/src/main.rs:239-257 | One blob: what the copy adds below the target, and that it cannot fail without a fault if nothing is in its way. |
| Restore.RestoreBlobs | apps/cli/src/main.rs:239-257 | The loop over the blob records adds exactly their files, and succeeds for records that can be restored side by side. |
| Restore.RestoreGuard.Drop | apps/cli/src/main.rs:975-987 | A committed guard changes nothing; an uncommitted one removes exactly the database file if it was created, and exactly the target directory with all below it if that was created. |
| Restore.FillTargets | apps/cli/src/main.rs:229-270 | From the moment the target directory exists: complete, or the target is gone again and the disk as before. |
| RoundTrip.VerifiedIsRestorable | apps/cli/src/main.rs:207-270 | Whatever verifies can be restored: each blob has a matching source, and no restored file is in the way of another or of the sha256 directory. |
| RoundTrip.RestoreBundle | apps/cli/src/main.rs:207-270 | All or nothing at every point of failure: the files are the old ones and only directories above the targets may be new. On success exactly the recorded files were added, with the verified digests, even if the bundle changed meanwhile, and the target has its sha256 directory. Without faults it succeeds if and only if the bundle verifies, the targets are new, apart from the bundle and each other, and reachable. |
| RoundTrip.BundleIsUntouched | apps/cli/src/main.rs:833-850 | Whether a restore succeeds or fails, no file or directory changes where the bundle lies. |
| RoundTrip.RestoredIsBundle | apps/cli/src/main.rs:239-257 | Restored blobs are exactly the blobs of the verified bundle, path by path and byte by byte. |
| RoundTrip.RestoredIsSource | apps/cli/src/main.rs:127-270 | For the bundle that a backup writes of any snapshot and source tree, the restored path-to-content map equals the source and its database is the snapshot. |
| RoundTrip.LaterIsTheSame | apps/cli/src/main.rs:580-626 | Even if the bundle changed after it was verified: what a successful restore copied is what was verified, unless two different files have the same SHA-256. |
| RoundTrip.BackupThenRestore | apps/cli/src/main.rs:127-270 | The round trip, end to end: after a successful backup and a successful restore, with any change of the bundle in between, the disk below the target holds exactly the files of the source, the database is the snapshot and all else is as before, unless there is a collision of SHA-256; after a failure all files are as before. For an unchanged bundle and a disk without faults it succeeds if and only if the snapshot is readable, the source is a portable tree with a sha256 directory, and the targets are free. |
| McpLimiter.RateLimiter.Allow | apps/mcp/src/lib.rs:427-438 | One consultation: after 60 seconds a new window begins at the second clock reading, and a call is granted exactly while its window holds fewer calls than the limit. |
| McpLimiter.FixedWindowBound | apps/mcp/src/lib.rs:413-439 | For every sequence of calls on a clock that never goes back, every half-open span of 60 seconds holds at most twice the limit of granted calls. |
| McpLimiter.QuietMinuteGrants | apps/mcp/src/lib.rs:427-438 | And nobody is refused without reason: with a limit above zero, a call is granted if none was granted in the 60 seconds before it. |
| McpLimiter.BoundIsMet | apps/mcp/src/lib.rs:427-438 | That bound is attained, for every limit. |
| McpCommands.ValidateAuthorship | apps/mcp/src/lib.rs:982-1023 | The branches accept exactly declarations that name a person and no generator, or a generator by name. |
| McpCommands.ContentBody | apps/mcp/src/lib.rs:947-980 | The loop succeeds exactly on acceptable content, and the body is the content part of the arguments, nothing added and nothing lost. |
| McpCommands.ModesAgree | apps/mcp/src/lib.rs:838-945 | What reading accepts is what writing accepts, unchanged, as far as it needs no token: the access mode makes no other difference. |
| McpCommands.DraftIsForwarded | apps/mcp/src/lib.rs:879-896 | A draft is sent exactly as given and names an accountable author. |
| McpCommands.RevisionIsForwarded | apps/mcp/src/lib.rs:897-934 | A revision carries everything given except the document id, with the base revision in canonical form, and names an accountable author. |
| McpMeaning.ParsedExactly | apps/mcp/src/lib.rs:838-945 | For every tool, all arguments and both modes, parsing yields a command if and only if the call means it: which tool, which keys, which argument becomes which part of the command, and the default view. |
| McpMeaning.AccountableExactly | apps/mcp/src/lib.rs:982-1023 | The accepted declarations of authorship, one by one: a person without a generator, or one of three uses of a named generator, each with a review flag and nothing else. |
| Mcp.Adapter.HandleMessage | apps/mcp/src/lib.rs:458-511 | One message: the next state, the response with its id, and the API command it leads to. |
| Mcp.Adapter.InitializeConnection | apps/mcp/src/lib.rs:520-556 | Initialization succeeds exactly once, for well-formed parameters, with an agreed protocol version. |
| Mcp.Adapter.CallTool | apps/mcp/src/lib.rs:558-595 | The limiter is consulted exactly for a known tool with an object of arguments, and a command is issued exactly if it grants and the arguments parse; `McpMeaning.ParsedExactly` says as what. |
| McpRuns.ReadyExactlyAfterHandshake | apps/mcp/src/lib.rs:513-541 | Over every message sequence, the connection is ready if and only if a well-formed initialize request was followed by the initialized notification. |
| McpRuns.NoCommandBeforeHandshake | apps/mcp/src/lib.rs:489-491 | No API command is executed before that handshake. |
| McpRuns.IssuedExactly | apps/mcp/src/lib.rs:458-595 | Over every run, a message leads to an API command if and only if the handshake is done, the limiter has room, and the message calls a tool with arguments that mean this command. |
| McpRuns.ReadModeIsAnonymous | apps/mcp/src/lib.rs:838-945 | Over every run, read mode never issues a command that needs authentication. |
| McpRuns.TokenIsNeverMissing | apps/mcp/src/lib.rs:388-394 | With a configuration that Config::new accepts, no run reaches the missing-token error. |
| McpRuns.ConfigsAreSafe | apps/mcp/src/lib.rs:53-115 | Exactly the accepted configurations: a plain HTTP address, encrypted or local and with a clean token in write mode, and limits in their ranges. |
| McpRuns.WrittenContentIsAccountable | apps/mcp/src/lib.rs:879-934 | Over every run, everything created or revised declares an accountable author. |
| McpRuns.ResponsesEchoIds | apps/mcp/src/lib.rs:458-487 | A message with a string or number id is answered with that id if and only if it declares version 2.0; one is silent if and only if it has that version and no id; everything else is answered with a null id (sections 4 and 5 of JSON-RPC 2.0). |
| McpRuns.InitializeIsAnswered | apps/mcp/src/lib.rs:520-541 | The answer to every initialize request, by state and parameters: the requested version if it is one of four, the newest otherwise. |
| McpRuns.RequestsAreAnswered | apps/mcp/src/lib.rs:489-511 | The answer to every other request but tool calls, by method and state, with its error code. |
| McpRuns.ToolCallsAreAnswered | apps/mcp/src/lib.rs:558-595 | A tool call is answered with the API value exactly if a command was issued, the API accepted it, and the token was there if it needs one; an unknown tool is a parameter error. |
| McpRuns.WrongVersionLosesId | apps/mcp/src/lib.rs:462-464 | A request with an id and another version is answered without its id. |
| McpRuns.ExecutionsAreBounded | apps/mcp/src/lib.rs:575-587 | Hence every half-open span of 60 seconds holds at most twice the limit of API commands. |
| ReleaseChannel.ValidateChannel | scripts/osb-update-support.py:142-173 | One pass over neighbours and two sets accepts exactly channels that are newest-first for all pairs, without repeated commits, and with the right latest entry. |
| ReleaseChannel.NewerIsNumeric | scripts/osb-update-support.py:204-214 | The order of versions is that of the numbers they form in any large enough base, major before minor before patch; two different versions are always ordered, one way. |
| ReleaseChannel.AutomaticSelection | scripts/osb-update-support.py:204-214 | Without a target, the plan selects the greatest allowed release (section 11 of Semantic Versioning 2.0.0), if and only if there is one. |
| ReleaseChannel.AutomaticStatus | scripts/osb-update-support.py:202-218 | And its status says why nothing was selected: no release, nothing newer, or only other majors. |
| ReleaseChannel.TargetedPlan | scripts/osb-update-support.py:193-201 | With a target, the plan is made if and only if the channel has an allowed release of that version, and it is the only one. |
| ReleaseChannel.PlansGoForward | scripts/osb-update-support.py:190-218 | No plan goes back, stays, or crosses a major version without the flag. |
| ControlSnapshots.TakeSnapshot | scripts/osb-update-support.py:677-711 | A snapshot is taken exactly if required controls are present and all present ones are regular and bounded; it captures presence, bytes and mode. |
| ControlSnapshots.SnapshottableExactly | scripts/osb-update-support.py:677-700 | What can be captured: the five required controls are present, and all that is present is regular and at most 16 MiB. |
| ControlSnapshots.ValidExactly | scripts/osb-update-support.py:714-737 | A snapshot is valid exactly if it has a record for each of the seven controls, and present ones have nine-bit modes, at most 16 MiB and a digest. |
| ControlSnapshots.SnapshotMatches | scripts/osb-update-support.py:802-829 | The comparison decides presence, size, digest and mode of every control. |
| ControlSnapshots.Target.Restore | scripts/osb-update-support.py:763-799 | For any snapshot directory whatever, restore succeeds exactly if it is valid and every control can be restored, the evidence directory is safe where it is needed, and no move, replacement or sync fails; then the comparison accepts. After a failure each control is as it was or as the snapshot has it. A control that disappears was moved aside. |
| ControlSnapshots.Target.RestoreControl | scripts/osb-update-support.py:772-798 | One control: replaced by the verified copy, or moved aside, or nothing changes. A failed sync comes after the change and is reported without undoing it. |
| ControlSnapshots.RestoredAsTaken | scripts/osb-update-support.py:677-829 | After a snapshot, any edits and a successful restore, every control is what it was: presence, bytes and mode. |
| ControlSnapshots.RestoreTaken | scripts/osb-update-support.py:677-829 | End to end: a snapshot of controls with nine-bit modes, any edits that leave regular files of at most 16 MiB, and a restore without failures bring every control back as it was. |
| ControlSnapshots.SnapshotIsUsable | scripts/osb-update-support.py:714-737 | A snapshot just taken is valid, and matches, if and only if no control has mode bits beyond the nine permission bits. |
| ControlSnapshots.SetUserIdIsRefused | scripts/osb-update-support.py:714-737 | A concrete deployment whose `.env` has mode 0o4644: every control can be captured, and no capture of it is valid. |

## Left out

- Redis client, Sentinel discovery, timeouts, metrics and the Redis fixed-window script: foreign calls; only success, failure and late landing of a command are kept.
- HTTP handlers, sessions, passwords, OIDC and AI providers: plumbing around libraries.
- The SQLite repository, plugin and DLC handling: their sources are not part of this model; a snapshot is a given content, and whether it opens is a parameter.
- SHA-256, UUID text, JSON and TOML: SHA-256 is an uninterpreted function, a printed manifest is a content that says what it says, UUID text is an assumed inverse pair.
- Expiry of cache entries: an entry can disappear at any step, which includes expiry.
- Admission.KeyedRateLimiter.AdmitAt: identities are numbers instead of 32-byte hashes, and hashing is left out.
- Gitignore.ProtectedExactly: leaves what a class contains to an arbitrary membership function; Git with `core.ignorecase` and paths below the top level are not modelled.
- GitignoreFiles.ValidateText: takes the text as given; the size limit and files that are not UTF-8, both refused, are not modelled.
- AdminTree.FollowCursors: is about a fixed child list; rows that change between requests are not modelled.
- Real file-system effects: permissions, fsync, hard links, case-insensitive names, symbolic links above the restore targets, and replacement of a file between inspection and opening. Clean-up after a failure succeeds.
- RoundTrip.RestoreBundle: reads each source file as a whole instead of in 64 KiB pieces; the bundle may change between verification and copying, but not while one file is copied.
- Backups.BackupBundle: leaves out the output directory guard and nesting check; an I/O failure while writing simply gives no bundle.
- Generations.CreateGeneration: leaves out the staging directory, its guard and the checks of the backup root; publication is one rename. A dangling symbolic link as blob source counts as a missing source.
- Retention.Store.Publish: takes the generation name as given; that names grow with time follows from their timestamp format only as far as the clock does. A taken name is refused, also where a rename would replace an empty directory, and removing a directory does not fail half-way.
- The asset export command and the plugin manifest check of the command-line tool: single-branch checks.
- The stdio loop of the MCP adapter, tool definitions and the shaping of results: presentation; a message is a JSON value and a reply carries the API's value unshaped.
- McpCommands.ContentBody: takes the checks on the text of a string (lengths, control characters, slugs) as parameters.
- Mcp.Adapter.HandleMessage: processes one message at a time with the API's reply given in advance, as the original awaits each reply before it reads the next message.
- ReleaseChannel.ValidateChannel: takes each entry as already checked field by field, and versions as triples, which their canonical text determines.
- ControlSnapshots.Target.Restore: leaves out the checks that the snapshot lies inside the deployment, a crash in the middle, and whatever else changes the deployment while it runs.
- Release signatures, lock promotion, the Compose plan and environment rewriting in the updater, the feature registry, the references page and the web user interface.
