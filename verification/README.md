# mail-muncher: the delivery protocol, modelled and proved

mail-muncher fetches mail from Gmail and IMAP accounts, routes each message to the first rule that
claims it, files it as `.eml` and markdown, and remembers how far it got. This project models that
path in Dafny and proves what it promises: no message is both undelivered and forgotten, whatever
stops, fails, crashes, expires or races.

`dafny verify dfyconfig.toml` checks the whole project with Dafny 4.11.

## How the pieces fit

| files | what they model |
|---|---|
| `Filter`, `FilterEngine`, `ListFiles` | match trees compiled from YAML, the per-cycle cache of externally owned lists and the parsers behind it, first-match routing |
| `Pipeline`, `PipelineTheorems`, `RecordTheorems`, `Offers` | the fetch callback: parse, evaluate, deliver, quarantine, count; what it keeps; and what each fetch offers it, with what verdicts |
| `SyncState`, `StateStore`, `Quarantine` | the cursor with its bounded seen set, its file, and where undeliverable mail is parked |
| `ImapKeys`, `Imap`, `ImapTheorems`, `ImapHistory` | the IMAP provider, and every history of an account: server moves and runs |
| `Gmail`, `GmailHistory` | the Gmail provider with its two watermarks, and every history of an account |
| `Runner`, `Health`, `Conservation` | a whole cycle over every account, its step-by-step agreement with the histories; degraded lists from their bytes to the mail; manifests that add up, and dry runs |
| `SinkNames`, `Stretches`, `Attachments`, `Documents` | the names files get, the markdown document, and reading both back |
| `Sinks`, `Filing`, `Publish`, `MarkdownRace` | the sinks as file operations that may fail, one message filed from its parts to the disk, and the sinks as protocols between racing writers |
| `Locks`, `Interleaving`, `Daemon` | processes sharing a state directory, the providers' runs among them, and the daemon's loop |
| `Archive`, `Grouping`, `Threads` | the archive reader's index, conversations, and the thread key read from headers |
| `Text`, `TextLines`, `Seqs`, `Mail` | strings as Go's library treats them, lists without repeats, messages |

Code that changes state step by step is modelled as classes and methods proved against
specification functions; what the system promises is then proved of those functions. A run's
nondeterminism (when a stop is seen, the clock, which write fails, what the server shows, what
arrives meanwhile) is an argument of the functions, so a theorem over all arguments is a theorem
over all runs. A crash is a run whose save is lost, or a file operation after which every other
one fails.

## Main results

- IMAP: `ImapHistory.NothingElseIsForgotten`, `OnlyStopsMiss`, `MissedForever`. Over every history,
  each message the saved cursor has passed is delivered in every rendering, quarantined, rightly
  unmatched or outside a lookback, except for the messages on offer at a graceful stop; and a history
  has such messages exactly when one of its runs was so stopped and saved.
- Gmail: `GmailHistory.NothingIsForgotten`, `RecoveryMissesNothing`, `RelapseExactly`. The history
  cursor and the time of the last sync never disagree about what is still waiting, so a recovery
  scan misses nothing while clock skew plus date drift is at most the 24-hour overlap.
- Degraded lists: `Health.ImapPassedInHealth`, `GmailPassedInHealth`, `ImapMissedIsOfferedAgain`,
  `GmailMissedIsOfferedAgain`. What a saved state has passed under `hold` or `fail` was judged with no
  list any rule could consult missing, cut short or refused an entry; the rest is offered again.
- Files: `Publish.ReportsAreTrue`, `PublishedNeverChanges`, `PartialExactly`,
  `Sinks.Disk.StoreMarkdown`, `Filing.Store`, `MarkdownRace.LosesExactlyWhenRobbed`,
  `Attachments.NamesAreSafe`, `SinkNames.NameRoundTrip`, `Documents.DocumentReadsBack`.
- Processes: `Locks.AtMostOne`, `SavesFormAChain`, `Interleaving.OneHistory`,
  `ImapNothingElseIsForgotten`, `GmailNothingIsForgotten`. Under any interleaving with crashes
  anywhere an account's runs make one history, so what its state file has passed is accounted for.
- Reading back: `Archive.IndexRecovers`, `WarmEqualsColdExactly`, `Threads.ConversationsGroup`,
  `Grouping.GroupingPartitions`.

## Where the code differs from its own comments

The model follows the code. Each difference has a lemma with the exact condition.

- The IMAP delivery loop raises the cursor before the callback is asked (imap.go:361-378), so after
  a graceful stop the saved cursor is at the message declined and not at the last one accepted
  (imap.go:156-160): `ImapHistory.OnlyStopsMiss`, `StopLosesMail`.
- A state file with a history cursor and no time of last sync, whose cursor has expired and whose
  recovery is stopped, is saved with neither, and the next run applies the first-run query and
  lookback (fetch.go:101-114): `GmailHistory.RelapseExactly`, `RelapseLosesMail`.
- Such a stopped recovery is saved without the cursor it started from (gmail.go:276-284), so what the
  state on disk has passed does shrink then, and only then: `GmailHistory.CursorShrinksExactly`,
  `Interleaving.StoppedRecoveryGoesBack`.
- Quarantine files are written in place (quarantine.go:79), so a write that fails partway costs the
  copy an earlier cycle had parked: `Offers.CopySurvivesExactly`, `GmailHistory.CopyLostExactly`,
  `TearingLosesCopy`. The next run of the same route asks for the message again:
  `GmailHistory.TornIsAskedForAgain`.
- `safeSegment` is not injective (quarantine.go:118-135): `Quarantine.ImapCollision`.
- A link planted between the check and the claim is reported as skipped if the second Lstat fails
  (sink.go:446-457): `Publish.LinkSkippedExactlyBlind`, `BlindRunSkipsTheLink`.
- The markdown cleanup can take the attachments of a racing writer, whether that one has published or
  is about to (markdown.go:159-170): `MarkdownRace.LosesExactlyWhenRobbed`, `RaceStripsTheWinner`,
  `RaceRobsTheLast`.
- Any link error but a taken name, and not only a filesystem without hard links, leads to the file
  being created in place (sink.go:406-419). Part of one is left exactly where the write or the close
  then fails and the removal after it too, or the process dies between: `Sinks.Disk.CreateFileExclusive`,
  `Sinks.Disk.DeathBotchesExactly`, `Sinks.DiesInTheCreate`, `Publish.PartialExactly`. And a second
  writer may report as archived what the first then removes: `Publish.SkippedForNothingLeavesNothing`.
- The archive cache is keyed by path alone (archive.go:283-287): `Archive.WarmEqualsColdExactly`.
- The daemon's counters of consecutive failures and skips count since the last clean tick
  (daemon.go:239-245): `Daemon.ConsecutiveExactly`,
  `SkipsNeedNotBeConsecutive`.
- An indented first line is stored with its indentation and read back without it (record.go:196):
  `Documents.BodyReadsBack`, `IndentationIsLost`.
- A parent with several In-Reply-To ids and no References splits its thread (parse.go:136-152):
  `Threads.ReplyJoinsParent`, `ExchangeSplits`.

## Assumptions

- Names: the histories ask that the ids in play have distinct 64-bit digests and distinct quarantine
  segments (`Runner.WiredNamesAreFaithful`); neither holds of all strings.
- IMAP servers: uids ascend and are not reused within a validity value, a new validity value is
  greater, UIDVALIDITY does not change within a session (section 2.3.1.1 of RFC 9051), FETCH replies
  ascend, and `n:*` answers as section 6.4.8 of RFC 3501 says. SEARCH SINCE compares days.
- Gmail: a message id names one message, a completed listing is complete for the mailbox it covers, the
  profile's cursor is no earlier than the mailbox before it was read, a completed history listing
  reports no cursor beyond it, history ids of later arrivals are higher, a 404 on a message means it
  was deleted, and `after:` lists a date equal to its bound.
- Libraries are arguments: MIME parsing, RE2, SHA-256, Unicode lower-casing, the calendar, the JSON
  codec and the content readers of the archive.
- In the histories a store that fails leaves the message's name free. Part of a file left at one, as
  above, is one the next run would skip as archived.
- Over one history an account keeps its name and the paths its files go to; mailboxes, lookbacks,
  queries, rules and policies may differ from run to run.
- The kernel follows at most 40 links for one path.
- The 1 MiB cap on a list's line counts characters.
- Times are whole seconds and strings are sequences of characters; `strings.ToLower` is the ASCII one
  outside slugs.

## Model

| member | source | states |
|---|---|---|
| `Filter.Files.Lookup` | internal/filter/files.go:222-252 | A list is read on its first use in a cycle, reused after, and recorded as degraded once; the cache changes for no other reason. |
| `Filter.Files.Preload` | internal/filter/files.go:126-145 | Preloading is the in-order reading of every reference into the cache. |
| `Filter.Files.BeginCycle` | internal/filter/files.go:111-124 | A new cycle starts from an empty cache with nothing degraded. |
| `Filter.UseAllCovers` | internal/filter/files.go:126-145 | Reading a list of references caches each of them and nothing else, keeps what was cached, and holds what the disk held. |
| `Filter.UseAllDegrades` | internal/filter/files.go:147-166 | A path becomes degraded if and only if a reference to it, not yet cached, reads with an error. |
| `Filter.EvalReadsNothing` | internal/filter/compile.go:149-296 | Once every file a match tree can consult is cached, its lazy, short-circuiting evaluation reads nothing, leaves the cache alone and equals the tree's meaning on the cached lists. |
| `Filter.EvalUntilReadsNothing` | internal/filter/compile.go:189-226 | The combinator loop, stopping at the first deciding child, computes the for-all or there-exists over its children. |
| `Filter.ListsAreMonotone` | internal/filter/compile.go:248-296 | With every file predicate under an even number of nots a sub-list can only lose matches; under an odd number it can only gain them. |
| `FilterEngine.Compiler.Reference` | internal/filter/compile.go:40-47 | A reference is recorded once, at its first use. |
| `FilterEngine.Compiler.Compile` | internal/filter/compile.go:126-187 | Compiling yields the tree or an error exactly as the compile function says, and records every file of the tree in first-use order. |
| `FilterEngine.Compiler.CompileChildren` | internal/filter/compile.go:189-226 | The same for the children of all and any: the first bad child fails the whole. |
| `FilterEngine.FilesInOrderAreFilesOf` | internal/filter/compile.go:40-47 | The references collected while compiling are exactly the files some evaluation of the tree may consult. |
| `FilterEngine.NewEngine` | internal/filter/engine.go:36-51 | An engine exists if and only if every rule compiles; its rules are the configured ones in order and its references cover every file any matcher can consult, each once, and no other. |
| `FilterEngine.FirstMatchIsFirst` | internal/filter/engine.go:119-137 | First match wins: the claiming rule is in scope and accepts, no earlier rule does; without a claim, no rule accepts. |
| `FilterEngine.RoutingReadsNothing` | internal/filter/engine.go:119-137 | Over covered lists the lazy search over the rules is the first match on the lists, and reads no file. |
| `FilterEngine.Engine.Evaluate` | internal/filter/engine.go:119-137 | The imperative search returns what the lazy specification returns, and the first match on the cached lists once they are covered. |
| `FilterEngine.Engine.Test` | internal/filter/compile.go:149-296 | Running one compiled tree gives the lazy evaluation's result and cache. |
| `FilterEngine.DegradedIsFinal` | internal/filter/engine.go:63-86 | After the preload no sequence of evaluations, with the files changing at will, reads a file, changes what is degraded, or sees any list but the preloaded one. |
| `FilterEngine.DegradedIsComplete` | internal/filter/files.go:147-166 | After the preload a path is reported degraded if and only if some reference to it could not be read in full. |
| `FilterEngine.ClaimsSurviveRecovery` | internal/filter/engine.go:119-137 | With file predicates under even nots, a message claimed while lists are short is claimed by some rule once they are whole. |
| `FilterEngine.RefusalsSurviveRecovery` | internal/filter/engine.go:119-137 | With file predicates under odd nots, a message refused while lists are short is refused once they are whole. |
| `FilterEngine.NegatedListsOverclaim` | internal/filter/compile.go:154-163 | Why the polarity matters: under one not, an unreadable list makes a rule claim a message it refuses once the list is back. |
| `ListFiles.TruncatedExactly` | internal/filter/domainfile.go:71-78 | A scan stops short if and only if the file has a stretch of 1 MiB without a line end. |
| `ListFiles.WrittenLinesAreRead` | internal/filter/domainfile.go:71-78 | Lines a program wrote, each ended and none too long, are the lines read, whatever follows them. |
| `ListFiles.LinesBeforeTheCut` | internal/filter/domainfile.go:23-26 | A truncated scan has read every line before the one too long, and reads them again whatever replaces that one. |
| `ListFiles.ParseDomainList` | internal/filter/domainfile.go:27-69 | The loop over the scanned lines returns the domains they name, once each in order. |
| `ListFiles.DomainsAreExact` | internal/filter/domainfile.go:16-21 | An entry is listed if and only if some line read names it, and it is listed once. |
| `ListFiles.PatternFileStats` | internal/filter/regexfile.go:155-221 | The accounting loop returns the patterns in force, the counts and the fault of one and the same read. |
| `ListFiles.PatternsAreExact` | internal/filter/regexfile.go:31-41 | A pattern is in force if and only if some entry reads so, compiles and does not match the empty string; a refused line costs its own entry only. |
| `ListFiles.RefusalsAreNamed` | internal/filter/regexfile.go:184-219 | The report names the first five refused lines, each a refused line, and counts the others. |
| `ListFiles.CountsAddUp` | internal/filter/regexfile.go:69-82 | Patterns in force plus refusals are the total if and only if no accepted entry repeats, and never more. |
| `ListFiles.CleanExactly` | internal/filter/regexfile.go:84-90 | The fault is nil if and only if no line was too long and every entry is in force. |
| `ListFiles.DegradedMeansShort` | internal/filter/files.go:147-166 | From bytes to policy: after the preload a path is degraded if and only if a reference to it is unreadable, is cut by a line too long, or has an entry refused. |
| `ListFiles.ShortReadingsAreSubLists` | internal/filter/files.go:202-209 | What was read of a short file stays listed once its owner has put the missing lines back. |
| `ListFiles.ClaimsSurviveRepair` | internal/filter/engine.go:119-137 | So a message claimed while a file was short is claimed once it is whole, with file predicates under even nots. |
| `Stretches.BuiltStep` | internal/sink/sink.go:180-192 | One turn of the builder loop: the text so far is the acceptable stretches joined by single dashes, with a dash waiting only after an unacceptable character. |
| `SinkNames.Slug` | internal/sink/sink.go:176-201 | The loop with a flag computes the reference slug: the alphanumeric stretches of the lowercased subject joined by dashes and cut to 40. |
| `SinkNames.SlugShape` | internal/sink/sink.go:165-201 | A slug is 1 to 40 characters of a-z, 0-9 and dash, and neither begins, ends nor doubles a dash. |
| `SinkNames.Identity` | internal/sink/sink.go:159-163 | The digest fragment is 16 lowercase hexadecimal characters. |
| `SinkNames.NameRoundTrip` | internal/mcpserver/record.go:132-151 | For every message, destination and extension, the archive reader recovers from the delivered path exactly the message's digest. |
| `SinkNames.PathsIdentifyMessages` | internal/sink/sink.go:135-163 | Two messages of an account share a path, under any rules, only if they are one message in one format, while their digests differ. |
| `Attachments.SanitizeFilename` | internal/sink/markdown.go:524-570 | The loop computes the reference name: acceptable stretches of the last path element, joined, trimmed and cut. |
| `Attachments.SanitizedIsTame` | internal/sink/markdown.go:520-570 | Whatever the sender chose, the name has 1 to 120 safe characters and neither begins nor ends with a dot or a dash. |
| `Attachments.ReservedByExt` | internal/sink/markdown.go:440-468 | Whether a name is reserved depends on its extension alone, ignoring case. |
| `Attachments.NeutralIsNotReserved` | internal/sink/markdown.go:445-468 | No attachment is written under a name ending in .md or .eml, ignoring case. |
| `Attachments.KeyInjective` | internal/sink/markdown.go:490-500 | Different counters give names that a case-insensitive disk tells apart. |
| `Attachments.TriedAreTaken` | internal/sink/markdown.go:493-499 | The pigeonhole: counters that were all taken are no more than the names there are. |
| `Attachments.FirstFree` | internal/sink/markdown.go:493-499 | The search with no bound of its own ends on every input, at the first free counter. |
| `Attachments.AttachmentFiles` | internal/sink/markdown.go:481-505 | Each attachment gets its own name where that is free and else the first free numbered one, given those before it. |
| `Attachments.ChoiceIsUnique` | internal/sink/markdown.go:470-505 | The naming rule leaves nothing open: two runs over the same attachments give the same names. |
| `Attachments.NamesAreDistinct` | internal/sink/markdown.go:470-480 | The names of one message's attachments are pairwise distinct ignoring case. |
| `Attachments.NamesAreSafe` | internal/sink/markdown.go:440-468 | Every name holds no separator, does not begin with a dot, does not end in .md or .eml, and is at most 120, a dash, the counter's digits and the suffix. |
| `Documents.NormalizeBody` | internal/sink/markdown.go:230-241 | The loop over the lines computes the normal body. |
| `Documents.NormalExactly` | internal/sink/markdown.go:230-233 | A stored body has no CR, no trailing white space on a line and no blank line at its ends, and text is stored as it is if and only if it is like that. |
| `Documents.NormalKeepsText` | internal/sink/markdown.go:230-241 | Normalizing keeps every visible character, in order. |
| `Documents.Render` | internal/sink/markdown.go:179-206 | The document is the fenced header, the body and a link for each attachment in order. |
| `Documents.DocumentReadsBack` | internal/mcpserver/record.go:247-264 | The reader splits a document where the sink fenced it, whatever the body holds, if and only if no line of the header but the first is a fence. |
| `Documents.BodyReadsBack` | internal/mcpserver/record.go:174-196 | Without attachments the header comes back, and the body as stored if and only if it neither begins nor ends with white space. |
| `Documents.IndentationIsLost` | internal/mcpserver/record.go:196 | A body of one indented letter is not read back as it is stored. |
| `Threads.TokensAreIds` | internal/model/parse.go:154-164 | The scanner finds a text if and only if it is a well-formed bracketed id standing somewhere in the value. |
| `Threads.TokensAround` | internal/model/parse.go:157-164 | A well-formed id is found whatever precedes and follows it, and scanning goes on afresh behind it. |
| `Threads.WovenTokens` | internal/model/parse.go:154-164 | Of ids woven with gaps that hold none, the scanner returns those ids in order. |
| `Threads.ParseReferences` | internal/model/parse.go:165-202 | The scan over all header values returns their ids in order with repeats dropped at their later places. |
| `Threads.AddTokens` | internal/model/parse.go:174-197 | One value's scan with its start index adds exactly that value's ids. |
| `Threads.ThreadNeverEmpty` | internal/model/parse.go:133-152 | Every message gets a non-empty thread key. |
| `Threads.ReplyJoinsParent` | internal/model/parse.go:136-152 | A reply built by section 3.6.4 of RFC 5322 gets its parent's key if and only if the parent has a readable References id, or no readable In-Reply-To, or exactly one In-Reply-To id and no References, or names itself. |
| `Threads.ExchangeSplits` | internal/model/parse.go:136-152 | Two threads of one exchange, below a message that answers two at once. |
| `Threads.ConversationsGroup` | internal/model/parse.go:136-152 | Below a message that chains, every message of the reply tree gets the same key. |
| `Pipeline.FetchCallback.Store` | internal/pipeline/pipeline.go:673-710 | One sink's turn writes the rendering, finds it there, or fails, and counts and lists it accordingly. |
| `Pipeline.FetchCallback.Deliver` | internal/pipeline/pipeline.go:667-713 | Every format the rule asks for is tried, whatever the others did. |
| `Pipeline.FetchCallback.MessageFailed` | internal/pipeline/pipeline.go:605-652 | abort refuses the message; quarantine parks it and accepts it, and refuses it if the write fails. |
| `Pipeline.FetchCallback.Fanout` | internal/pipeline/pipeline.go:521-534 | A claimed message is delivered, and failed if any of its renderings did. |
| `Pipeline.FetchCallback.Call` | internal/pipeline/pipeline.go:493-535 | The callback over its mutable manifest equals the step function, from the stop check to the verdict. |
| `PipelineTheorems.DeliverWrites` | internal/pipeline/pipeline.go:657-667 | No failure means every rendering the rule asks for is on disk under its own name, and no file that was there has changed. |
| `PipelineTheorems.HandleRecords` | internal/pipeline/pipeline.go:493-535 | Only an accepted message is settled or marked seen, and a stop touches nothing. |
| `PipelineTheorems.HandleKeepsFates` | internal/pipeline/pipeline.go:590-652 | Through every message, whatever stops or fails: what was accepted is on disk in every rendering, in quarantine, or matched no rule; no delivered file is lost or changed. |
| `PipelineTheorems.ParkingKeepsFates` | internal/pipeline/quarantine.go:61-65 | Parking one message disturbs no other, while the ids in play have distinct quarantine paths. |
| `Offers.HandleVerdict` | internal/pipeline/pipeline.go:493-535 | The verdict on a message is settled by the script, its policies and the message before the callback is called: a stop seen, or undeliverable and refused or not parked. |
| `Offers.HandleAllEnds` | internal/pipeline/pipeline.go:493-535 | Handing messages over ends at the first that is not accepted, and else with all of them. |
| `Offers.StopsExactly` | internal/pipeline/pipeline.go:547-554 | Handing messages over is stopped if and only if as many as the stop waits for are accepted and there is one more. |
| `Offers.CopySurvivesExactly` | internal/pipeline/quarantine.go:79-81 | An earlier quarantine copy outlives a whole fetch if and only if its message is not the first one refused with the write that parks it again failing partway. |
| `Offers.TearsExactly` | internal/pipeline/quarantine.go:79-81 | Which copies a fetch tears, by the same condition on what it is offered. |
| `Offers.ImapFetchHands` | internal/provider/imap/imap.go:161-205 | An IMAP fetch does exactly what handing over the messages it offers does, over all its mailboxes, and breaks off at the same message. |
| `Offers.GmailFetchHands` | internal/provider/gmail/fetch.go:250-377 | The same for a Gmail fetch, whatever its route. |
| `PipelineTheorems.CountsAreConserved` | internal/pipeline/manifest.go:151-164 | Over a whole fetch, however it ends: fetched is matched plus unmatched plus parse errors, stored plus skipped plus sink errors is what the claiming rules ask for, and every array has its counter's length. |
| `Offers.HandleAllConcat` | internal/pipeline/pipeline.go:493-535 | Handing over one list of messages and then another is handing over both, up to the first that is not accepted. |
| `Conservation.ImapManifestAddsUp` | internal/pipeline/manifest.go:151-164 | Whatever the mailboxes, stops and failures, an IMAP fetch's manifest adds up over the messages it offers, as far as it looks at them. |
| `Conservation.GmailManifestAddsUp` | internal/pipeline/manifest.go:151-164 | The same for a Gmail fetch, whatever its route. |
| `Conservation.GmailDownloadsAddUp` | internal/provider/gmail/fetch.go:316-371 | Every download of a Gmail fetch that got through is counted once: its message was fetched, had vanished, or was in Spam or Trash. |
| `Conservation.ImapDryRunTouchesNothing` | internal/pipeline/pipeline.go:679-685 | A dry run leaves an IMAP account's files and quarantine as they were, whatever happens in it, and saves nothing. |
| `Conservation.GmailDryRunTouchesNothing` | internal/pipeline/pipeline.go:679-685 | The same for a Gmail account. |
| `PipelineTheorems.RerunStoresNothing` | internal/pipeline/manifest.go:161-164 | Re-running over messages whose renderings are on disk, or that are in quarantine, stores nothing, skips everything and changes no file. |
| `PipelineTheorems.CleanCycleDelivers` | internal/pipeline/manifest.go:161-164 | A faultless cycle leaves the disk as that re-run needs it, messages that do not parse included where failures are quarantined. |
| `RecordTheorems.HandleAdvances` | internal/pipeline/pipeline.go:493-535 | A message handled keeps the cycle's record sound, its lists the cycle's, and every parked copy but a torn one. |
| `RecordTheorems.NamesDecideFate` | internal/pipeline/pipeline.go:590-597 | Whether a settled message is still delivered depends on its account's file names alone, not on rules or policies edited since. |
| `RecordTheorems.UnsavedKeepsRecord` | internal/pipeline/pipeline.go:557-588 | A cycle that is not saved leaves every settled message delivered or parked, but for a copy it tore. |
| `RecordTheorems.SavedKeepsRecord` | internal/pipeline/pipeline.go:557-588 | A saved one adds its own, judged in full where the policy is hold or fail. |
| `Quarantine.BuildSafeSegment` | internal/pipeline/quarantine.go:118-135 | The loop computes the reference segment. |
| `Quarantine.PathDeterminesSegment` | internal/pipeline/quarantine.go:61-65 | Quarantine paths of one account collide only if the segments do. |
| `Quarantine.SafeIdsKeepTheirName` | internal/pipeline/quarantine.go:114-135 | An id that is already a safe segment is parked under itself. |
| `Quarantine.ImapCollision` | internal/pipeline/quarantine.go:114-135 | Two quarantined messages of an IMAP account overwrite each other if and only if validity and uid agree and their mailbox names clean to the same text. |
| `Quarantine.SegmentsCanCollide` | internal/pipeline/quarantine.go:118-135 | safeSegment is not injective: mailboxes `a/b` and `a b` share a path for the same validity and uid. |
| `Sync.SyncState.Seen` | internal/provider/provider.go:75-83 | The linear search answers membership. |
| `Sync.SyncState.MarkSeen` | internal/provider/provider.go:85-94 | Marking appends a new id and evicts the oldest beyond the bound; a known id keeps its place. |
| `Sync.SyncState.SetExtra` | internal/provider/provider.go:114-125 | Setting an empty value deletes the key; anything else is stored. |
| `Sync.SyncState.Clone` | internal/provider/provider.go:127-141 | A clone has the same value and may be changed apart. |
| `Sync.MarkedAllKeeps` | internal/provider/provider.go:85-104 | However many ids are marked the set stays bounded, without repeats, and holds only what it held or was told. |
| `Sync.RecentIsRemembered` | internal/provider/provider.go:85-104 | An id is forgotten only after as many others have been marked as the set can hold. |
| `StateStore.Load` | internal/state/store.go:49-70 | A missing file is the zero state, an unreadable one is an error and never a zero state. |
| `StateStore.Save` | internal/state/store.go:72-151 | Loading after a save gives the saved state, trimmed to its bound; a save that fails or dies anywhere leaves the previous state loadable as it was. |
| `ImapKeys.ParseUndoesFormat` | internal/provider/imap/imap.go:524-538 | parseUID undoes formatUID for every 32-bit uid. |
| `ImapKeys.ExtraKeyInjective` | internal/provider/imap/imap.go:508-512 | Cursor keys of different mailboxes or fields differ, whatever dots the names hold. |
| `ImapKeys.MessageIDInjective` | internal/provider/imap/imap.go:514-521 | Within an account an id names one mailbox, validity and uid, whatever colons the names hold. |
| `Imap.Provider.Deliver` | internal/provider/imap/imap.go:317-392 | The delivery loop equals the reading function, including the cursor raised before the callback is asked. |
| `Imap.Provider.FetchOne` | internal/provider/imap/imap.go:207-276 | One mailbox's visit updates its cursor pair, or leaves the state alone, as the visit function says. |
| `Imap.Provider.Run` | internal/provider/imap/imap.go:161-205 | A fetch visits the mailboxes in order and hands back the state actually reached, with the start time only if all were finished. |
| `ImapTheorems.AnswerFilters` | internal/provider/imap/imap.go:285-291 | What a UID FETCH answers, with the rule that n:* above every uid still answers with the last message. |
| `ImapTheorems.RequestCovers` | internal/provider/imap/imap.go:278-315 | Every message above the cursor is asked for, unless a resync's lookback excludes it or it arrived after EXAMINE. |
| `ImapTheorems.ReadSettles` | internal/provider/imap/imap.go:319-392 | Every message a read passes was seen, accepted, or is the one declined, which is the last passed; and nothing else was accepted. |
| `ImapTheorems.PairIsLocal` | internal/provider/imap/imap.go:243-275 | Writing one mailbox's pair leaves every other mailbox's cursor alone. |
| `ImapTheorems.PairReadsBack` | internal/provider/imap/imap.go:243-275 | The pair written is the pair read back. |
| `ImapTheorems.CursorAfter` | internal/provider/imap/imap.go:254-275 | Within a validity a visit's cursor ends where the delivery did, and is written as a pair or not at all. |
| `ImapTheorems.LedgerStays` | internal/provider/imap/imap.go:209-239 | Mail arriving, expunges and new validity values never break what the cursors promise. |
| `ImapTheorems.VisitKeepsLedger` | internal/provider/imap/imap.go:209-276 | One visit: what its cursor newly passes is accepted, outside the lookback, or the message declined, and nothing is in two of these. |
| `ImapHistory.FetchKeepsLedger` | internal/provider/imap/imap.go:161-205 | The same for a whole fetch over any mailbox list, repeats included, with the server moving between visits. |
| `ImapHistory.FetchAdvances` | internal/provider/imap/imap.go:161-205 | However a fetch ends, its record is sound and no delivered or parked file of another message is touched. |
| `ImapHistory.RunTears` | internal/pipeline/quarantine.go:79-81 | A run of this provider tears no settled message's quarantine copy, because it is offered none. |
| `ImapHistory.StepKeepsInv` | internal/pipeline/pipeline.go:448-589 | Every event, a server move or a run under any options, rules and policies, with any stop, abort, dead connection, failed write or lost save, keeps the invariant. |
| `ImapHistory.NothingElseIsForgotten` | internal/provider/imap/imap.go:137-160 | After any history each message the saved cursor has passed is settled with its fate kept, or was outside a resync's lookback, if and only if it is not one of the missed. |
| `ImapHistory.StopsAreSaved` | internal/provider/imap/imap.go:361-378 | A fetch is saved having declined a message if and only if its script stops it while one more is on offer, its policies save it and the save is not lost. |
| `ImapHistory.OnlyStopsMiss` | internal/provider/imap/imap.go:361-378 | A history misses mail if and only if some run of it was so stopped and saved. |
| `ImapHistory.DeclinedIsNew` | internal/pipeline/pipeline.go:547-554 | Such a run misses exactly the message on offer when it was stopped, which no cursor had passed before. |
| `ImapHistory.MissedForever` | internal/provider/imap/imap.go:254-262 | A missed message stays missed: however the history goes on, no run settles it. |
| `ImapHistory.NoStopNoLoss` | internal/provider/imap/imap.go:156-160 | Without a saved stop, whatever the cursor has passed is delivered, quarantined, rightly unmatched or outside a lookback. |
| `ImapHistory.StepKeepsPassed` | internal/provider/imap/imap.go:254-275 | Whatever happens to an account, what its saved cursors have passed stays passed, and no mailbox's cursor goes back. |
| `ImapHistory.AboveIsOffered` | internal/provider/imap/imap.go:278-315 | Mail above the cursor is offered by the next run that gets through to its mailbox, unless a resync's lookback leaves it out. |
| `ImapHistory.UnsavedIsOfferedAgain` | internal/pipeline/pipeline.go:564-588 | What a run that is not saved did not settle stays above the cursor and is offered again. |
| `ImapHistory.FatesAreOfRuns` | internal/pipeline/pipeline.go:564-588 | Every message settled was settled in one of the history's own saved runs. |
| `ImapHistory.StopLosesMail` | internal/provider/imap/imap.go:361-378 | The smallest loss: one message, one stop as it is offered, and it is behind the saved cursor with nothing settled. |
| `Gmail.AddListed` | internal/provider/gmail/fetch.go:170-179 | Adding a page's ids drops blanks and repeats and keeps first-seen order. |
| `Gmail.HistoryIds` | internal/provider/gmail/history.go:55-123 | Paging returns the added ids once each in first-seen order, and the highest cursor seen on any record or page. |
| `Gmail.ListIds` | internal/provider/gmail/fetch.go:139-190 | Paging the message list returns its ids once each in order. |
| `Gmail.Provider.DownloadIds` | internal/provider/gmail/fetch.go:250-377 | The download offers each message that is not seen, vanished or excluded, marks it seen once accepted, and ends at the first failure. |
| `Gmail.Provider.Scan` | internal/provider/gmail/fetch.go:26-59 | A full scan installs the cursor and the time sampled before it listed, and only if it completed. |
| `Gmail.Provider.Run` | internal/provider/gmail/gmail.go:237-291 | The incremental route while the cursor is good, and a full scan where there is none or history has expired; whether it is a first run is read off the incoming state. |
| `GmailHistory.HighestFrom` | internal/provider/gmail/history.go:30-33 | The cursor returned is the higher of the one asked from and the highest anywhere in the reply. |
| `GmailHistory.DrainSettles` | internal/provider/gmail/fetch.go:319-350 | Only accepted messages are marked seen, and a completed download has settled every message it got. |
| `GmailHistory.DownloadCompletes` | internal/provider/gmail/fetch.go:212-249 | After a completed download every listed id is seen, settled, deleted, or excluded as spam. |
| `GmailHistory.GrowthKeepsWatermarks` | internal/provider/gmail/gmail.go:232-236 | Mail that arrives later is above any cursor and after any watermark the account holds. |
| `GmailHistory.CompletionKeepsWatermarks` | internal/provider/gmail/fetch.go:27-40 | A pair sampled before the listing stands, however much arrived while the run was under way. |
| `GmailHistory.SavedRunKeepsWatermarks` | internal/provider/gmail/gmail.go:254-290 | Every saved run, completed or stopped, leaves both watermarks sound. |
| `GmailHistory.StepKeepsInv` | internal/pipeline/pipeline.go:448-589 | Every event keeps the invariant, whatever fails. |
| `GmailHistory.LeftMisses` | internal/provider/gmail/fetch.go:61-114 | A completed run leaves unsettled only messages that its own scan's query or bound does not match. |
| `GmailHistory.PassedIsSettled` | internal/provider/gmail/gmail.go:232-236 | After any history each message at or below the cursor is settled, vanished, excluded, or does not match the scan that left it out. |
| `GmailHistory.RecoveryMissesNothing` | internal/provider/gmail/gmail.go:38-53 | Every message is accounted for so, or is above the cursor and matches the recovery scan's query, while skew plus drift is at most the 24 hours of overlap. |
| `GmailHistory.OnlyFirstScansLeave` | internal/provider/gmail/fetch.go:61-82 | An incremental run and a recovery leave nothing of the mailbox they listed unsettled; only a scan that takes itself for the first does. |
| `GmailHistory.RelapseExactly` | internal/provider/gmail/gmail.go:254-284 | An account that had a cursor comes to look never synced if and only if a run whose cursor has expired, with no watermark stored, is stopped while one more message is on offer, and saved. |
| `GmailHistory.CursorShrinksExactly` | internal/provider/gmail/gmail.go:276-284 | A run leaves a lower cursor than it found, and then none, if and only if it is a recovery from an expired one that is so stopped and saved. |
| `GmailHistory.LateOnlyAfterRelapse` | internal/provider/gmail/fetch.go:98-114 | Nothing is left out late but by the run that follows such a relapse. |
| `GmailHistory.RelapseLosesMail` | internal/provider/gmail/fetch.go:106-114 | What a relapse costs: a message since the old cursor falls outside the new lookback and behind the new cursor. |
| `GmailHistory.NothingIsForgotten` | internal/provider/gmail/gmail.go:237-291 | From a first run on, across stops, aborts, crashes, degraded lists and expired cursors: whatever the cursor has passed is settled, vanished, excluded, or does not match the query or the lookback of the first scan; a settled message's quarantine copy may have been torn. |
| `GmailHistory.TearsOnlyTheForgotten` | internal/pipeline/quarantine.go:79-81 | A run adds a message to the torn ones if and only if it is the first on offer that is refused and its parking write fails partway; the run is then not saved, and the bounded seen set had forgotten the message. |
| `GmailHistory.CopyLostExactly` | internal/pipeline/quarantine.go:79-81 | A settled message loses its quarantine copy if and only if a run tears it so. |
| `GmailHistory.TearingLosesCopy` | internal/pipeline/quarantine.go:79-81 | A history that ends with a settled message the cursor has passed neither delivered nor in quarantine; a next such run asks for it again. |
| `GmailHistory.AskedExactly` | internal/provider/gmail/fetch.go:251-257 | With listings that name only what they are asked for, a run asks for a message if and only if it has not seen it and its route is meant to list it: above the cursor, or matching the scan. |
| `GmailHistory.TornIsAskedForAgain` | internal/pipeline/quarantine.go:79-81 | A message whose copy a run tore is asked for again if and only if the next run's route is meant to list it, and it is while the route stays the same and this is no first scan. |
| `GmailHistory.UnsavedIsOfferedAgain` | internal/pipeline/pipeline.go:564-588 | What a run that is not saved did not settle the next run asks for again, unless it is a first scan the message does not match. |
| `Health.DegradedExactly` | internal/pipeline/pipeline.go:331-363 | A wired cycle is degraded if and only if some list its rules may consult is missing, cut short or has an entry refused. |
| `Health.ImapPassedInHealth` | internal/pipeline/pipeline.go:394-398 | Whatever an IMAP account's saved cursor has passed was routed by first match with, unless told to proceed, no such list short; or was outside a lookback, or on offer at a graceful stop. |
| `Health.GmailPassedInHealth` | internal/pipeline/pipeline.go:394-398 | The same for a Gmail account, but for mail deleted, excluded, or not matching the first scan. |
| `Health.ImapMissedIsOfferedAgain` | internal/pipeline/pipeline.go:349-363 | What a held or refused cycle did not settle the next run that gets through to the mailbox offers again. |
| `Health.GmailMissedIsOfferedAgain` | internal/pipeline/pipeline.go:349-363 | And the next Gmail run asks for it again. |
| `Runner.WiredNamesAreFaithful` | internal/sink/sink.go:135-163 | What the histories ask of names follows from distinct digests and distinct quarantine segments on the ids in play. |
| `Runner.CollidingIdsAreNotFaithful` | internal/pipeline/quarantine.go:114-135 | Two ids in play that share a segment break that promise. |
| `Runner.Runner.CycleAccount` | internal/pipeline/pipeline.go:448-589 | One account's turn: fetch through the callback, mark the accounted ids, and save, hold or discard. |
| `Runner.Runner.CycleWithStop` | internal/pipeline/pipeline.go:331-381 | A cycle reads and judges the lists before anything is fetched, then gives each account its turn, under the process's own policies and its engine's rules, until a stop; a held lock or a refused degraded cycle touches nothing. |
| `Runner.TurnsAreIndependent` | internal/pipeline/pipeline.go:365-378 | Each account before the stop has had exactly its own turn, and no account after it was touched. |
| `Runner.ImapTurnIsStep` | internal/pipeline/pipeline.go:448-589 | An IMAP account's turn changes its disk exactly as a run of that account's history does. |
| `Runner.GmailTurnIsStep` | internal/pipeline/pipeline.go:448-589 | The same for a Gmail account. |
| `Sinks.Disk.Plan` | internal/sink/sink.go:313-334 | A path is taken, free, or refused because a symlink is there. |
| `Sinks.Disk.MkdirNoFollow` | internal/sink/sink.go:276-293 | An existing entry is accepted if and only if it is a directory in its own right and no operation fails; otherwise nothing has changed. |
| `Sinks.Disk.EnsureDir` | internal/sink/sink.go:231-251 | It succeeds if and only if the chain can be used or made and no operation fails; year and month are then plain directories, and nothing that was there has changed. |
| `Sinks.Disk.VerifyDir` | internal/sink/sink.go:253-274 | The dry-run check refuses exactly what making the directories would refuse. |
| `Sinks.Disk.PlanStore` | internal/sink/markdown.go:71-82 | A dry run foresees the outcome of a store from the same tree when nothing fails. |
| `Sinks.Disk.WriteTemp` | internal/sink/sink.go:353-380 | A complete temporary file if and only if none of its four operations fails; a failure leaves no other file changed. |
| `Sinks.Disk.CreateFileExclusive` | internal/sink/sink.go:382-443 | A taken name is untouched, and a link there is reported as taken if and only if the look at it failed; a free one is claimed whole if and only if the temporary file is complete and the link or the create in its place goes through, and is left with part of the file if and only if the link and the create in its place are botched. |
| `Sinks.Disk.DeathBotchesExactly` | internal/sink/sink.go:422-443 | A process that dies leaves part of a file if and only if the link had failed for another reason before and it dies at the write or the close that stand in for it; so never while no link fails for another reason. |
| `Sinks.DiesInTheCreate` | internal/sink/sink.go:422-443 | The concrete run: a refused link, a death at the write, an empty file at the name, and a next run that skips it as archived. |
| `Sinks.Disk.WriteFileAtomic` | internal/sink/sink.go:459-482 | The file is replaced whole or not at all. |
| `Sinks.Disk.StoreEml` | internal/sink/eml.go:60-85 | A stored message is whole at a name that was free, a skip found a plain entry, an error left the name alone unless, and exactly if, the store got as far as its claim and botched it; and when nothing fails the dry run's forecast holds. |
| `Sinks.Disk.WriteAttachments` | internal/sink/markdown.go:144-171 | It succeeds if and only if the directory and the names can be used and nothing fails; every attachment is then there with its content, and nothing outside the directory has changed. |
| `Sinks.Disk.StoreMarkdown` | internal/sink/markdown.go:84-135 | Whatever fails and wherever the process dies, a document on disk has every attachment it lists, but for what is left where, and exactly if, the store reaches its document's claim and botches it; and when nothing fails the forecast holds. |
| `Filing.ChosenSpotIsApart` | internal/sink/markdown.go:60-69 | The names chosen for any attachments keep the document, its attachments and its directories apart. |
| `Filing.DocumentLinks` | internal/sink/markdown.go:179-206 | Whatever the header and the body hold, the links behind the document's last attachments heading are read back as its attachments, in order, and nothing else. |
| `Filing.LinksAreFiles` | internal/sink/markdown.go:197-206 | Each link, joined onto the document's directory, is the path its attachment is written at. |
| `Filing.Store` | internal/sink/markdown.go:96-135 | From the message to the disk: a stored document links to as many files as the message has attachments, and each is there with its content. |
| `Sinks.SpotsAreSeparate` | internal/sink/markdown.go:60-69 | Two messages of one destination with different basenames have places that do not meet, whatever their months and attachments. |
| `Sinks.OthersStayDocumented` | internal/sink/markdown.go:84-135 | Storing one message, however it fails, leaves the document of every such other with its attachments. |
| `Sinks.LayoutIsApart` | internal/sink/markdown.go:60-69 | The layout keeps the document, its attachments and its directories apart for every name. |
| `Sinks.Disk.WriteQuarantine` | internal/pipeline/quarantine.go:67-105 | Success means the sidecar is found at its path, links followed, and the message at its own unless both paths lead to one file; a sidecar touched at a file of its own stands beside a whole message. |
| `Publish.StepKeepsInv` | internal/sink/sink.go:382-443 | Every step of every writer, by link or in place, every crash and every planted link keeps the protocol's invariant. |
| `Publish.PublishedNeverChanges` | internal/sink/sink.go:382-420 | Once a name is taken and nobody is filling a file in place there, neither the name nor a byte behind it changes, whoever else runs, fails or crashes. |
| `Publish.PartialExactly` | internal/sink/sink.go:411-443 | A name that held none comes to hold part of a file if and only if a writer, its link refused, has created the file in place and neither completed nor removed it. |
| `Publish.NeverPartial` | internal/sink/sink.go:391-395 | Otherwise such a name holds one writer's complete bytes or a planted link as soon as it holds anything. |
| `Publish.ReportsAreTrue` | internal/sink/eml.go:47-59 | At most one writer reports created and its bytes are at the name for good; one that reports skipped left an entry there that is a plain file unless its last look failed, or a file created in place has since been removed. |
| `Publish.SkippedForNothingLeavesNothing` | internal/sink/sink.go:422-443 | Nine steps of two writers after which one has reported the message archived and nothing is at the name. |
| `Publish.LinkSkippedExactlyBlind` | internal/sink/sink.go:446-457 | Over any run, a writer comes to report a link at the name as skipped if and only if the link was planted before that writer judged the race it lost with a failing Lstat. |
| `Publish.BlindRunSkipsTheLink` | internal/sink/sink.go:446-457 | Eight steps of one writer that end so. |
| `Publish.SoloPublishes` | internal/sink/eml.go:60-85 | Alone and undisturbed a writer skips a plain file and otherwise publishes its bytes, which is what the pipeline relies on. |
| `MarkdownRace.SingleWriterIsSafe` | internal/sink/markdown.go:84-135 | One writer, whatever fails: a document has every attachment. |
| `MarkdownRace.FaultlessRaceIsSafe` | internal/sink/markdown.go:126-133 | Any number of writers in any order, crashing anywhere: while no operation fails, a document has every attachment. |
| `MarkdownRace.LosesExactlyWhenRobbed` | internal/sink/markdown.go:159-170 | Over any run of any number of writers, a document comes to lack an attachment if and only if a writer that found no directory fails while a document is up, or fails before one is published and nobody writes again what it took. |
| `MarkdownRace.RaceStripsTheWinner` | internal/sink/markdown.go:159-170 | Ten steps of two writers that end with a published document and no attachment, taken after it was published. |
| `MarkdownRace.RaceRobsTheLast` | internal/sink/markdown.go:159-170 | Ten that end so with the attachment taken before. |
| `Locks.StepKeepsInv` | internal/state/lock.go:32-80 | Every step of every process, crashes included, keeps the lock protocol's invariant. |
| `Locks.AtMostOne` | internal/pipeline/pipeline.go:290-297 | Under any interleaving at most one process is inside a cycle and at most one daemon is alive. |
| `Locks.NoLostUpdate` | internal/pipeline/pipeline.go:293-296 | The state a save replaces is the very one its fetch started from. |
| `Locks.SavesFormAChain` | internal/pipeline/pipeline.go:293-296 | Under any interleaving, with crashes anywhere, an account's saves form one sequential history: each was fetched from what the one before it wrote. |
| `Locks.PassedOnlyGrows` | internal/pipeline/pipeline.go:293-296 | Whatever order an account's fetches respect, its state file respects. |
| `Interleaving.OneHistory` | internal/pipeline/pipeline.go:293-296 | Under any interleaving of processes, each working on the state it loaded, with crashes anywhere, an account's runs and its mailboxes' changes are one history of its provider's, and the state file is that history's. |
| `Interleaving.ImapNothingElseIsForgotten` | internal/pipeline/pipeline.go:293-296 | So what an IMAP account's state file on disk has passed has its fate kept or was outside a lookback unless it was missed, and nothing is missed without a run of the interleaving that was stopped and saved. |
| `Interleaving.GmailNothingIsForgotten` | internal/pipeline/pipeline.go:293-296 | And what a Gmail account's cursor on disk has passed is settled, gone, hidden, unmatched by the first scan, or had its copy torn. |
| `Interleaving.ImapCursorsOnlyAdvance` | internal/pipeline/pipeline.go:293-296 | Whoever runs and whoever dies, no cursor of an IMAP account goes back. |
| `Interleaving.GmailCursorOnlyAdvances` | internal/pipeline/pipeline.go:293-296 | Nor does a Gmail account's history cursor, but by a stopped recovery. |
| `Interleaving.StoppedRecoveryGoesBack` | internal/provider/gmail/gmail.go:276-284 | And a stopped recovery takes it back to none. |
| `Locks.FreeWhenNobodyHolds` | internal/state/lock.go:32-47 | The next to ask gets the lock if and only if no process is inside a cycle: a dead holder blocks no one. |
| `Daemon.Run` | cmd/mail-muncher/daemon.go:198-311 | The loop ends at the first tick after which a shutdown shows or at a first tick that finds the lock held, which alone is fatal; totals are the sum of every report, and the counters count failed and skipped ticks since the last clean one. |
| `Daemon.Sum` | internal/pipeline/manifest.go:203-213 | Adding summaries one by one, the vanished counter included, gives their total. |
| `Daemon.ConsecutiveExactly` | cmd/mail-muncher/daemon.go:239-245 | A counter of failed or of skipped ticks is the number of consecutive ones if and only if no tick of the other kind has followed one of its kind since the last clean tick. |
| `Daemon.SkipsNeedNotBeConsecutive` | cmd/mail-muncher/daemon.go:239-245 | The skip counter is not consecutive as its comment has it: a failed tick between two skipped ones does not reset it. |
| `Archive.Index.Walk` | internal/mcpserver/archive.go:237-303 | The walk serves unchanged files from the cache, parses the rest, groups by message and keeps a new cache. |
| `Archive.ByMessageIsExact` | internal/mcpserver/archive.go:313-318 | Each message holds exactly the records with its rule and digest, in walk order. |
| `Archive.MergedPrefersMarkdown` | internal/mcpserver/archive.go:329-343 | A record holds all its renderings and leads with markdown if and only if there is one. |
| `Archive.WarmEqualsCold` | internal/mcpserver/archive.go:231-236 | A warm index equals a cold one on a tree changed in any way since, while each path is under one rule and a change shows in size or time. |
| `Archive.WarmEqualsColdExactly` | internal/mcpserver/archive.go:283-287 | On an unchanged tree the second call answers as the first if and only if no readable file is walked under two rules. |
| `Archive.DeliveredIsShown` | internal/mcpserver/archive.go:260-275 | Every delivered rendering is reached by the walk of its rule's root. |
| `Archive.AttachmentIsNotShown` | internal/mcpserver/archive.go:262-268 | Nothing inside a message's attachments directory is, whatever it is called. |
| `Archive.AttachmentIsNotComeTo` | internal/mcpserver/archive.go:262-270 | No walk from any root comes to an attachment or a temporary file: no name the sink chooses for one is readable. |
| `Archive.WalkIsOfDeliveries` | internal/mcpserver/archive.go:244-297 | Over the tree the sinks write, under roots that do not nest, the walk comes to exactly the delivered files, each under its rule. |
| `Archive.IndexRecovers` | internal/mcpserver/archive.go:231-236 | Over whatever tree the sinks have written, the index holds a rendering of a message if and only if a sink delivered it. |
| `Archive.YieldsOnce` | internal/mcpserver/archive.go:237-311 | No file is in the index twice. |
| `Archive.RecordsAreMessages` | internal/mcpserver/archive.go:313-318 | While digests differ, two deliveries share a record if and only if they are of one message under one rule. |
| `Grouping.SliceStable` | internal/mcpserver/tools.go:543-553 | The sort in place gives the same records in stable order. |
| `Grouping.SortedIsSorted` | internal/mcpserver/tools.go:543-553 | A stable sort permutes and orders, for both of the orders used. |
| `Grouping.SortRecords` | internal/mcpserver/archive.go:345-358 | Pages are cut from records sorted newest first. |
| `Grouping.WeakestSource` | internal/mcpserver/tools.go:529-541 | The source reported is some member's, and no member's is weaker. |
| `Grouping.Collect` | internal/mcpserver/tools.go:493-501 | The grouping loop lists each thread once in the order the page first mentions it, with its records in page order. |
| `Grouping.GroupThreads` | internal/mcpserver/tools.go:491-527 | Each thread is its records oldest first, with its first and last date and weakest source. |
| `Grouping.GroupingPartitions` | internal/mcpserver/tools.go:491-527 | Every record is in exactly the thread it names, as often as on the page, and no thread is listed twice. |
| `Grouping.ThreadsByLastDate` | internal/mcpserver/tools.go:491-493 | On a page sorted newest first, threads come in non-increasing order of their last date. |

## Left out

- OAuth, tokens, TLS, the Gmail and IMAP client libraries, retries and backoff: a retried call is one call that succeeds or fails.
- MIME parsing, HTML conversion, YAML encoding and decoding, and regular expressions: the libraries or the text they produce are arguments.
- Config loading, validation reports, `init`, rule listing and MCP schemas and path resolution: user interface around the protocol.
- The wording of errors; `selector.apply` and the limits of the archive tools: filters over records one at a time.
- The string a Gmail query is rendered to: the model keeps the query and the bound apart.
- The goroutines of the download pool and of `drainContext`: results arrive in arbitrary order and the callback is called in sequence.
- Permissions and fsync: no outcome the model speaks of depends on them while the machine stays up.
- The log, and the participants and snippets of a thread summary: no later decision reads them.
- A recursive removal in `MarkdownRace` is one step; in `Sinks` it may stop halfway. Its publishing step puts up the whole document or nothing; what a refused link leads to is in `Publish` and `Sinks`.
- Moving a quarantine or renaming an account in the middle of a history.
- Several accounts sharing one destination tree in one history: a history's files are its own account's, and names of different accounts differ while their digests do.
- Locks.PassedOnlyGrows: whatever order the fetches respect; which ones do is proved in `Interleaving`.
