# Verified model of email-backup-tool

A Dafny model of the tool's backup pipeline, its naming scheme and its config file,
with proofs of what they promise. `dafny verify dfyconfig.toml` checks everything.

The tool downloads mail over IMAP, flattens each message into artifacts, optionally
encrypts them, and stores them in every configured backend. A timestamp file (the
watermark) makes repeated runs incremental. The model covers three connected parts.

**Names.** `Slug.dfy`, `Paths.dfy` (subject slugs, sanitised mailboxes and filenames),
`Stages.dfy` (artifact paths: uniquely decodable, never a directory of one another),
`Local.dfy` (lexical clean/join/rel, containment in the root, the file tree),
`Transform.dfy` (suffixes, decrypted names). `Text.dfy` and `Runes.dfy` hold the string
primitives.

**Runs.** `Mime.dfy` (attachment walk), `Imap.dfy` (search, batches, exact bound),
`Sinks.dfy` (backends and fan-out), `Emitter.dfy` and `Pipeline.dfy` (one run and its
accounting), `Backup.dfy` (window choice and watermark). These are classes and methods
whose loops may be cut short by any failure. `Delivery.dfy` says when a message counts
as saved; `History.dfy`, `Windows.dfy`, `Progress.dfy`, `Retry.dfy` and `Lookback.dfy`
prove claims about whole histories of deliveries, removals, failed and successful runs, for
any way of filing messages; `Filing.dfy` instantiates them with the documented names, and
`Refinement.dfy` proves that the backup command is a step of such a history and keeps
what the histories promise.

**Config.** `Reflect.dfy` (tagged struct types, printing and parsing of document nodes),
`JsonSchema.dfy` (an interpreter for the schema keywords in use), `SchemaGen.dfy` (the
schema compiler), `ConfigFile.dfy`, `Envelope.dfy`, `Validation.dfy` (the version 1
config, its envelope and its validator), `ConfigReading.dfy` (what a config file means, key
by key), `ConfigSchema.dfy` and `Agreement.dfy` (printer, validator and generated schema
agree), `ConfigDocument.dfy` (the grammar the schema accepts, key by key).

## What the environment is taken to be

- Unicode letters, digits and case mapping, the UTC calendar, ciphers, key material,
  regular expressions, the clock and the server's account are parameters; only what is
  fixed for ASCII, idempotence of lower-casing, injectivity of the calendar, and "what
  is sealed opens again" are used.
- Disk, network, encryption and cancellation failures are arbitrary choices at each call. A
  backend, a connection or a disk marked `reliable` makes none, and the contracts say that a
  run in a reliable environment succeeds.
- A refused store may truncate the object it was writing, but touches no other, and writing
  the timestamp file is all or nothing.
- Histories assume: a run sees a snapshot of the account, the scope and the key pair are
  fixed, messages are dated and have bodies. Mail may be delivered with any date and removed
  at any time.
- What a theorem about one message asks of a history concerns that message (`History.Fair`):
  it is not delivered behind the watermark; a success asks for it unless the watermark has
  passed it; a failed run that asks for it again after that tears no file.
  `History.ResumingSkipsOldDates`, `Windows.SafeWindowsReachTheWatermark` and
  `Windows.SafeFailuresStayAhead` show what each of the three is for. Runs that are --all or
  resume, and tear files only ahead of the watermark, are fair to every message
  (`History.DisciplinedIsFair`).
- Claims about a stored artifact ask that it owns its key: no other message that was
  ever there uses it, and no artifact of the same message uses it for other data.
  `Filing.OwnedIffNameIsItsOwn` puts this in terms of names, and `Filing.LastOfANameStays`
  says what becomes of the rest.

## Where the code and its documentation disagree

The model follows the code. Each disagreement is a lemma with the exact condition.

- A failed run is said to retry the same window (documentation/docs/stages/fetch.md).
  Without a timestamp file the window is measured from the clock, so the retry starts
  later and can skip mail: `Backups.RetryKeepsWindow`, `Backups.SlidingRetrySkips`,
  `Backups.SlidingRetryExample`.
- The same sentence takes it that a failed run does no harm. A store that is refused after
  truncating its file does, when the run reached back behind the watermark: no resuming run
  looks there again. Failing is safe exactly for windows that stay ahead of the watermark:
  `Windows.SafeFailuresStayAhead`, with an emptied file in `Windows.TornBehindTheMark`. A
  success is safe exactly for windows that reach it, so resuming is the only window safe
  either way: `Windows.OnlyResumingIsSafe`.
- `--duration` is described as reaching further back. A shorter one moves the watermark
  over mail that was never stored: `Windows.SafeWindowsReachTheWatermark`.
- The search by date is called a superset of the exact window (stages/fetch/imap.go:213-215).
  It is one exactly when the server keeps dates in a zone not west of the request's:
  `Imap.SearchIsSuperset`, with a message left out in `Imap.DroppedBySearch`.
- One file per attachment is promised. Attachments of one message with one name share a
  path, and the last one stays: `Stages.OneFilePerAttachment`, `Filing.LastOfANameStays`,
  `Stages.AttachmentsCanCollide`.
- Slugs are said to be capped at 60 (stages/paths.go:8-11). The cap counts bytes and is
  tested after a rune is written, so it is overrun exactly when byte 60 falls inside a
  rune: `Slugs.SlugExceedsCapIff`, with 63 bytes in `Slugs.SlugCanExceedCap`.
- The validator accepts TLS aliases that the generated schema rejects:
  `Agreement.ValidConfigsSatisfySchema`, `Agreement.AliasIsRejected`.
- `Result.Messages` is documented as what stage 1 produced; it is that exactly when every
  artifact was stored, and one less otherwise: `Pipelines.MessagesCountsStored`, with a
  refused first message in `Pipelines.RefusedMessageIsNotCounted`.

Limits that no document denies:

- `SafeFilename` is not idempotent: `Paths.SafeFilenameIdempotent` says exactly when it is,
  `Paths.SafeFilenameNotIdempotent` gives a name.
- A success that stores no dated mail, an `--all` on an empty account for instance, records
  no watermark, and the next default run falls back to its duration:
  `Backups.FallsBackIff`. `Lookback.LookbackCoversDeliveries` covers such histories, with
  `--all` runs anywhere.
- The watermark can move back: exactly when a success asks for dated mail but for none at or
  after it, as an `--all` does after the newest messages were removed:
  `Progress.MarkHoldsIffOnward`.

## Model

| member | source | states |
|---|---|---|
| History.NothingIsEverLost | cmd/backup.go:88-104 | at every moment of every history of deliveries, removals, failures that may tear files, and successes, an artifact that owns its key is in every backend whenever the watermark has reached its message, and after every success; only what concerns that message is asked of the history |
| History.SavedForGood | stages/store/local.go:43-55 | once the watermark has reached a saved message, or the server has lost it, it stays in every backend for good, whatever is removed |
| History.AccountsLoseNothing | cmd/backup.go:88-104 | if all mail arrives dated after the watermark and the runs are --all or resume, nothing at or before the watermark is ever missing, and nothing at all after a success |
| Filing.BackupsHoldEverything | cmd/backup.go:88-104 | the same in names: if no other message ever had its sanitised mailbox and UID, the source of a message, and each attachment whose own stored name stands for one content, is in every backend under the documented path and opens to the original bytes, at every moment the watermark has reached it and after every success |
| Filing.BackupsOutliveTheServer | stages/store/local.go:43-55 | and it stays there after the server has lost the message |
| Filing.OwnedIffNameIsItsOwn | stages/stages.go:120-153 | for a message told apart by mailbox and UID, the source always owns its key, and an attachment does iff its stored name stands for one content |
| Filing.LastOfANameStays | stages/stages.go:118-136 | a completed run leaves an attachment in a backend iff the last attachment stored under its name has the same content |
| History.SuccessSavesExactly | stages/pipeline.go:60-91 | a successful run adds to the saved artifacts exactly those of its window, for each that owns its key |
| History.ResumingSkipsOldDates | stages/fetch/imap.go:275-279 | after resuming, an artifact that owns its key is saved iff its message is dated strictly after the watermark or it was saved before |
| Retries.RetryConverges | cmd/backup.go:93-104 | any number of failed attempts, tearing files, with mail arriving meanwhile, and one success leave each backend as that success alone would, the watermark untouched until then |
| Retries.RetryConvergesDespiteRemovals | cmd/backup.go:93-104 | with mail also removed between the attempts, the same at every key that no removed message uses |
| Progress.MarkHoldsIffOnward | stages/pipeline.go:77-79 | the watermark moves back iff a success asks for dated mail but for none at or after it |
| Progress.MarkNeverRegresses | stages/pipeline.go:77-79 | otherwise it never does, over any stretch of a history |
| Progress.DisciplinedRunsAreOnward | cmd/backup.go:140-150 | runs that are --all or resume never move it back while a message of its date stays on the server |
| Progress.NothingIsEmittedTwice | stages/fetch/imap.go:275-279 | a resuming success emits no dated message an earlier success emitted, whatever runs, deliveries and removals lie between |
| Progress.ResumesMoveOn | cmd/backup.go:140-150 | after a resuming success that stored dated mail, later ones resume from a strictly later watermark, unless a run between moved it back |
| Lookback.LookbackCoversDeliveries | cmd/backup.go:140-159 | with successes at most the lookback apart, --all or not, an artifact that owns its key, of a message delivered after the first success and still there at the latest one, is saved, through the switch to a watermark, whatever other mail does |
| Lookback.LateRunsSkip | cmd/backup.go:153 | without a watermark a success saves an artifact iff it starts less than the lookback after its date, or it was saved before |
| Windows.SafeWindowsReachTheWatermark | cmd/backup.go:131-138 | a window of the user's choosing keeps the no-loss invariant for all mail iff it takes everything or reaches back to the watermark |
| Windows.SafeFailuresStayAhead | cmd/backup.go:93-95 | a window of the user's choosing keeps the no-loss invariant through every failure iff it asks for nothing dated at or before the watermark |
| Windows.TornBehindTheMark | stages/store/local.go:51-53 | a stored message whose file a failing run that reaches back leaves empty |
| Windows.OnlyResumingIsSafe | cmd/backup.go:118-160 | the watermark itself is the only bound safe whether the run succeeds or fails |
| Refinement.BackupStep | cmd/backup.go:57-110 | what the command does to backends and timestamp file is one success or one failure step of a history, for the window it chose |
| Refinement.BackupKeepsEverything | cmd/backup.go:57-110 | the command, run with --all or from a recorded stamp, keeps every message that was safe, whatever the state of others, and saves everything reached or not yet reached on success, so it keeps an account without loss; the exception is a failing --all that tears an object. A successful --all saves everything that owns its key, with no hypothesis on what was there, and in a reliable environment the command succeeds |
| History.AllSavesEverything | cmd/backup.go:123-126 | a successful run with no bound saves every artifact that owns its key, whatever was saved and recorded before |
| Refinement.OutcomeIsStep | cmd/backup.go:88-109 | the guarantees of a finished command imply the step relation |
| Refinement.WindowMembers | stages/fetch/imap.go:213-226 | the window of a run is the account's mail dated after its bound |
| Delivery.CompleteRunSaves | stages/pipeline.go:60-82 | a completed run leaves every artifact of its messages that owns its key there, opening to the original data |
| Delivery.LastOfAKeyStays | stages/pipeline.go:60-82 | with no hypothesis on names: after a completed run an artifact is saved iff the last artifact handed over under its key has the same data |
| Delivery.SavedStaysSaved | stages/pipeline.go:60-82 | any part of any run's writes keeps saved an artifact that owns its key |
| Delivery.OthersUntouched | stages/store/local.go:43-55 | a run, torn objects included, changes nothing for an artifact that owns its key and whose message it was not given |
| Delivery.RewritingForgets | stages/store/local.go:43-55 | writes that are all repeated later leave no trace in a keyed backend |
| Backups.Tool.Backup | cmd/backup.go:57-110 | the window is the documented one; each backend is overwritten by its own log and by what a refused store tore; the timestamp moves only on full success, to the newest message of the window; in a reliable environment the command succeeds |
| Backups.FetchRequestFor | cmd/backup.go:118-160 | --all takes everything and looks at no file, then an explicit duration, then the recorded stamp in UTC, then the duration for a missing or blank file; any other file is an error; the request carries the flags |
| Backups.RequestFollowsPrecedence | stages/watermark.go:29-48 | the same of the specification the histories use |
| Backups.RetryKeepsWindow | cmd/backup.go:93-95 | a retry keeps the window iff --all, or resuming from a stamp, or the clock stood still |
| Backups.SlidingRetrySkips | cmd/backup.go:153 | the messages a sliding retry no longer asks for |
| Backups.FallsBackIff | cmd/backup.go:140-159 | after a success the next default run falls back to its duration iff nothing was recorded before and no dated mail was stored |
| Backups.Watermark.WriteWatermark | stages/watermark.go:53-67 | the file is replaced by the stamp and the program version, or left alone |
| Pipelines.Pipeline.Run | stages/pipeline.go:43-103 | at every abort point: what reached each backend is a prefix of the transformed flattening of what was emitted, in lockstep; the counters match; each backend is closed exactly once, after its stores; success iff fetch and every close worked |
| Pipelines.EmitterReports | stages/pipeline.go:60-81 | the closure's bookkeeping implies lockstep, faithfulness and the counters |
| Pipelines.MessagesCountsStored | stages/pipeline.go:77-81 | Messages equals what stage 1 handed over iff every artifact of that was stored, and is one less otherwise |
| Pipelines.RefusedMessageIsNotCounted | stages/pipeline.go:60-81 | a run that was handed a message and counts none |
| Emitters.Emitter.Emit | stages/pipeline.go:60-81 | one message is flattened, transformed and stored artifact by artifact, keeping the accounting invariant on success and on every failure |
| Emitters.Latest | stages/pipeline.go:77-79 | the newest date, attained, and zero for no dated message |
| Sinks.Multi.Store | stages/store/multi.go:47-54 | the first refusal stops the fan-out: a prefix of the backends has the artifact, the rest are untouched |
| Sinks.Multi.Close | stages/store/multi.go:58-66 | every backend is closed, and the result is nil iff all closed cleanly |
| Sinks.NewMulti | stages/store/multi.go:24-33 | combining no backends is an error |
| Imap.IMAP.Fetch | stages/fetch/imap.go:135-151 | without an error exactly the window is emitted, with multiplicity; with one, a part of it; mailbox by mailbox in order; every message emitted depicts a message of the account that was asked for, and without an error each of those is depicted; only the environment or a missing mailbox makes it fail |
| Imap.ConvertDepicts | stages/fetch/imap.go:268-325 | a message is kept iff it has a body and is undated or dated after the bound, and carries its mailbox, UID, raw bytes, subject, date and, iff asked for, its attachments |
| Imap.ListedIffSelectable | stages/fetch/imap.go:165-173 | an unrestricted run visits a name iff a mailbox of that name is selectable |
| Imap.ListedInOrder | stages/fetch/imap.go:165-173 | in the server's order |
| Imap.FindIsFirst | stages/fetch/imap.go:177-183 | select opens the first selectable mailbox of the name |
| Imap.IMAP.FetchMailbox | stages/fetch/imap.go:177-211 | select, search and batches together emit the window of the mailbox |
| Imap.IMAP.FetchBatches | stages/fetch/imap.go:201-211 | the batches of a hundred together emit what the search result converts to |
| Imap.IMAP.FetchBatch | stages/fetch/imap.go:230-266 | in any server order, one batch emits what the exact bound keeps of its responses |
| Imap.IMAP.Mailboxes | stages/fetch/imap.go:155-174 | every selectable mailbox, or the one asked for |
| Imap.ResponsesOfHits | stages/fetch/imap.go:201-240 | fetching by the UIDs of a slice of the search result answers exactly that slice |
| Imap.SearchIsSuperset | stages/fetch/imap.go:213-226 | date-only comparison drops nothing the exact bound keeps iff the message's zone is not west of the request's |
| Imap.DroppedBySearch | stages/fetch/imap.go:213-226 | a message of the intended window that the search leaves out |
| Imap.WindowIsIntended | stages/fetch/imap.go:248-288 | search plus exact bound emit, in order and with multiplicity, every message with a body dated after the bound |
| Imap.ConvertIsSafe | stages/fetch/imap.go:302-314 | every emitted message has safe attachment names |
| Mime.WalkParts | stages/fetch/attachments.go:45-80 | appends what the walk collects; fails iff the tree is too deep or a part reader breaks |
| Mime.CollectedIsPrefix | stages/fetch/attachments.go:45-80 | what is kept is a prefix of all decodable attachments in part order, and all of them without an error |
| Mime.WalkableIffShallowAndReadable | stages/fetch/attachments.go:45-62 | the walk succeeds iff no node is more than 16 levels down and every part reader reaches its end |
| Mime.ExtractAttachments | stages/fetch/attachments.go:27-41 | succeeds iff the message is readable, at most 16 levels deep and every part reader ends; then every attachment leaf is there, in order, with its own name and bytes, and otherwise a prefix |
| Mime.LeafContributes | stages/fetch/attachments.go:64-108 | a leaf contributes one attachment iff its body decodes, its disposition parses, and it is dispositioned as attachment or named; under the safe form of the disposition's name, else of the Content-Type's, with the decoded body; and nothing otherwise |
| Mime.AttachmentsAreLeaves | stages/fetch/attachments.go:45-80 | the attachments of a tree are those of its leaves, one by one in part order |
| Mime.ExtractedIsSafe | stages/fetch/attachments.go:83-109 | every extracted attachment has a safe name |
| Slugs.Slug | stages/paths.go:15-36 | the loop with flag, cap and break computes the slug function |
| Slugs.SlugMeaning | stages/paths.go:15-36 | the slug is the dash-joined words of the lower-cased text, whole under 60 bytes, else a prefix of at least 59 |
| Slugs.SlugIsNormal | stages/paths.go:13-36 | letters, digits and single interior dashes, never empty |
| Slugs.SlugFixedPoints | stages/paths.go:13-36 | the normal forms are exactly the fixed points |
| Slugs.SlugIdempotent | stages/paths.go:15-36 | idempotent, at most 63 bytes |
| Runes.RuneLenIsLeast | stages/paths.go:29 | the size the cap counts: each rune takes the shortest UTF-8 encoding it fits in |
| Slugs.SlugExceedsCapIff | stages/paths.go:15-36 | the slug is longer than 60 bytes iff byte 60 of the dash-joined words falls inside a rune |
| Slugs.AsciiSlugIsCapped | stages/paths.go:8-11 | so never for ASCII text |
| Slugs.SlugCanExceedCap | stages/paths.go:27-29 | a slug of 63 bytes |
| Paths.SafeFilename | stages/paths.go:66-88 | the loop computes the filename function |
| Paths.ScrubRune | stages/paths.go:73-82 | control characters vanish, reserved ones become one underscore, others stay, wherever they stand |
| Paths.BaseNameIsLastElement | stages/paths.go:67-71 | what stands after the last separator of either kind, or the whole name |
| Paths.SafeFilenameIsSafe | stages/paths.go:64-88 | one component without separators, control or reserved characters, never "." or ".." |
| Paths.SafeFilenameIdempotent | stages/paths.go:66-88 | idempotent iff in the scrubbed base name no run of dots at either end, spaces aside, hides a space |
| Paths.SafeFilenameNotIdempotent | stages/paths.go:83-87 | a name on which a second pass differs |
| Paths.SafePath | stages/paths.go:41-62 | the loop computes the path function |
| Paths.SafePathFixedPoints | stages/paths.go:38-62 | the fixed points are exactly the non-empty joins of clean components |
| Paths.SafePathIdempotent | stages/paths.go:41-62 | idempotent |
| Paths.SafePathHasNoDot | stages/paths.go:38-62 | no dot, backslash, control or reserved character |
| Paths.SafePathMirrorsHierarchy | stages/paths.go:45-49 | each of the three delimiters joins the layouts of its two sides |
| Paths.SafePathOfOneName | stages/paths.go:51-60 | a name without delimiters is one component, or "unknown" |
| Stages.Artifacts | stages/stages.go:120-136 | the source first, then one artifact per attachment, in order |
| Stages.ArtifactsHoldTheMessage | stages/stages.go:120-136 | the raw source under the base path and ".eml", then each attachment's bytes under its own name or its position counted from one |
| Stages.LeafReads | stages/stages.go:146-152 | before the first dash the UTC stamp, between the first two the UID in decimal, after them the slug |
| Stages.StampReads | stages/stages.go:149 | the stamp is year, month, day, T, hour, minute, second, Z, digit by digit |
| Stages.BasePathDecodes | stages/stages.go:141-153 | base paths agree iff sanitised mailbox, UTC second, UID and slug do |
| Stages.PathDecodes | stages/stages.go:120-136 | a stored path determines base and kind, so messages and attachments never coincide |
| Stages.MessagesNeverShareAPath | stages/stages.go:120-153 | different UIDs or sanitised mailboxes never share an artifact path |
| Stages.OneFilePerAttachment | stages/stages.go:118-136 | the artifacts of a message have distinct paths iff its stored attachment names are distinct |
| Stages.AttachmentsCanCollide | stages/stages.go:124-131 | equal filenames, or a filename that spells a position, collide |
| Stages.PositionalNamesDistinct | stages/stages.go:126-128 | unnamed attachments never collide with each other |
| Stages.NoFileDirectoryClash | stages/stages.go:120-153 | no artifact path is a directory of another, with any suffixes |
| LocalStore.ResolveIsContainment | stages/store/local.go:63-70 | a path is accepted iff its lexical target is at or below the root |
| LocalStore.UpUndoesName | stages/store/local.go:64 | a proper name followed by ".." cleans to nothing |
| LocalStore.NothingToClean | stages/store/local.go:64 | and so do empty components and "." |
| LocalStore.ProperPathResolves | stages/store/local.go:63-70 | a path of proper names lands at the root followed by its components |
| LocalStore.ResolveInjective | stages/store/local.go:63-70 | different paths of proper names never land on one file |
| LocalStore.ArtifactPathsAreProper | stages/stages.go:120-153 | every artifact path, suffixed or not, is made of proper names |
| LocalStore.ArtifactComponents | stages/stages.go:141-153 | mailbox, year, month, then the message's own name, as documented |
| LocalStore.Local.Store | stages/store/local.go:43-55 | a store fails iff the path escapes, the disk fails, or a file or directory is in the way, and changes only its own file, which a failing write may truncate |
| LocalStore.ArtifactsAreNeverBlocked | stages/store/local.go:43-55 | whatever artifacts were stored before, the next one is accepted under the root and nothing is in its way |
| LocalStore.FileWriteIsKeyedUpdate | stages/store/local.go:43-55 | writing a file is updating a keyed map at the artifact's path |
| LocalStore.StoreKeyed | stages/store/local.go:43-55 | for artifacts the directory sink is a keyed backend: a store succeeds iff the disk works, updates the map at the path, and torn or not changes nothing else |
| Transform.Transformer.Transform | stages/transform/transform.go:193-206 | the result keeps the path up to the suffix and opens to the original data |
| Transform.Transformer.TransformSeals | stages/transform/transform.go:193-206 | without encryption the artifact passes unchanged; with it the sealed data goes on under ".age" or ".pgp", unless sealing fails |
| Transform.ForeignNamesAreMarked | cmd/decrypt.go:111-116 | a name without the suffix decrypts to the name and ".decrypted" |
| Transform.DecryptedInDirectory | cmd/decrypt.go:117-119 | in an output directory a sealed artifact lands under its last name |
| Transform.DecryptUndoesSealing | cmd/decrypt.go:110-121 | decrypting in place gives a sealed artifact its own file name back |
| Transform.DecryptNeverOverwritesInput | cmd/decrypt.go:110-116 | in place, the input is never the output |
| Transform.DecryptedTogether | cmd/decrypt.go:117-119 | in an output directory two sealed artifacts share a file iff their last names are equal |
| SchemaGen.SchemaPreservesMeaning | cmd/schema.go:62-176 | for every type with distinct names, supported kinds and parseable tags the compiled schema accepts exactly the documents of the type, the overrides included |
| SchemaGen.RequiredFromTags | cmd/schema.go:76-104 | a field may be absent iff its required tag is a false word, or it has none and omitempty is among the options; any other word than the twelve of strconv.ParseBool is an error |
| SchemaGen.UntaggedFieldIsPassedOver | cmd/schema.go:70-75 | a field without a yaml tag, or tagged "-", changes nothing, whatever its type |
| SchemaGen.AtoiReadsDecimals | cmd/schema.go:157-166 | bounds are signed decimals within 64 bits |
| SchemaGen.DefaultsArePublished | cmd/schema.go:167-175 | a default is a number for an integer field that parses, and text otherwise |
| SchemaGen.CompilesIffSupported | cmd/schema.go:62-138 | compilation succeeds iff every kind is supported and every required tag parses |
| SchemaGen.StructSchema | cmd/schema.go:62-117 | the field loop computes the compiled object schema, or fails with the first bad field |
| SchemaGen.ApplyTags | cmd/schema.go:142-176 | the tag-by-tag update |
| SchemaGen.TagsRestrict | cmd/schema.go:142-176 | tags restrict a schema by exactly what they say, unparseable bounds being ignored |
| SchemaGen.TwoSourcesMeansNotAtMostOne | cmd/schema.go:20-29 | the negated alternative means more than one key source is present |
| ConfigSchema.GenerateConfigSchema | cmd/schema.go:36-57 | the compiled config type plus a required version property |
| ConfigSchema.GeneratedMeans | cmd/schema.go:36-57 | a document is accepted iff its version is 1 and the rest is a document of the config type |
| ConfigDocuments.SchemaIsGrammar | cmd/configfile.go:174-244 | the generated schema accepts exactly the documents of the grammar of the config file, written out key by key |
| ConfigDocuments.PublishedDefaults | cmd/configfile.go:189-215 | the schema publishes 993 for the port and keys.openpgp.org for the keyserver |
| ConfigSchema.PrintedStruct | cmd/configfile.go:138-163 | a printed struct conforms iff each printed field does and no required one is left out |
| Agreement.PrintedAcceptedIff | cmd/schema.go:36-57 | for every config, the exact condition under which its printed document is accepted |
| Agreement.ValidConfigsSatisfySchema | cmd/configfile.go:247-316 | a valid config prints to an accepted document iff its TLS mode is empty or canonical |
| Agreement.AliasIsRejected | cmd/config_keys.go:53-61 | a valid config with an alias that the schema rejects |
| Validation.Validate | cmd/configfile.go:247-316 | accepts exactly the valid configs, and otherwise names the first problem in the order of the checks |
| Validation.ValidIffNoProblem | cmd/configfile.go:247-316 | a config is valid iff it has none of the fifteen problems |
| Validation.FingerprintAccepted | stages/transform/keyserver.go:34-40 | accepted iff forty hex digits with spaces anywhere |
| Validation.AcceptedLooksRight | stages/transform/keyserver.go:26-40 | accepted fingerprints match the published pattern |
| Validation.FingerprintIsCleaned | stages/transform/keyserver.go:34-40 | the result is the fingerprint without its spaces, in upper case |
| Validation.NormalizeTLSReads | cmd/config_keys.go:53-71 | spaces around it and case do not matter; three names and three aliases are known, an empty mode passes through, and nothing else is read |
| Validation.NormalizeTLSCanonical | cmd/config_keys.go:65-71 | the result is canonical, and canonical names are kept |
| Validation.NormalizeTLSIdempotent | cmd/config_keys.go:65-71 | idempotent |
| Envelopes.ConfigFile.MarshalYAML | cmd/configfile.go:138-163 | prints the document, or fails without a config |
| Envelopes.ConfigFile.UnmarshalYAML | cmd/configfile.go:114-134 | sets both fields from the document or leaves them alone |
| ConfigReadings.ParsedIsRead | cmd/configfile.go:114-134 | a document parses iff it is a mapping of version 1 whose known keys hold what they should, and every field of the config is what stands under its own key |
| ConfigReadings.PrintedIsRead | cmd/configfile.go:138-163 | a printed config reads back, key by key, as the config |
| Envelopes.PrintedKeys | cmd/configfile.go:138-163 | the keys of a printed config, in order |
| Envelopes.EnvelopeShape | cmd/configfile.go:149-162 | exactly one version key, first; every other key keeps its value, even if the body has a version |
| Envelopes.EntriesKeepOrder | cmd/configfile.go:154-161 | the other keys keep their order |
| Envelopes.EnvelopeRoundTrips | cmd/configfile.go:112-163 | for every config, parsing what it prints gives back version and config |
| Reflect.DecodeOfEncode | cmd/configfile.go:174-244 | for every regular tagged type, parsing a printed value gives it back |

Definitions rather than results, so without a row: `Backups.ReadingOf` is the case table of
stages/watermark.go:29-48, which `Watermark.ReadWatermark` computes branch by branch;
`Refinement.WindowOfCommand` and `History.DisciplinedIsFair` read definitions off, and
`Backups.SlidingRetryExample`, `Stages.StampExample` and
`Reflect.DoublePointerDoesNotRoundTrip` are examples.

## Left out

- Dialling, TLS, login and logout of the IMAP client, and its wire protocol.
- age and OpenPGP themselves, key parsing and key generation; validation treats key material as an oracle.
- The S3 client and the keyserver fetch; a bucket is another keyed map, its key prefix being a constant put in front of the path.
- The tar sink's format. It truncates its archive on every run, so the claims over several runs are about keyed backends only; within one run it takes part in the fan-out like any other.
- Flags, logging, completion, the init command, the config cache and key lookup.
- YAML text and quoting, and scalar conversions between kinds; documents are nodes with typed scalars.
- Error texts.
- Go's calendar arithmetic and years before 0 or beyond what prints; a run reads the clock once for messages without a date.
- Invalid UTF-8: texts are sequences of runes.
- 64-bit overflow of the byte counter and of decoded integers.
- Case-insensitive file systems; and of two messages with one UID in mailboxes that sanitise to one path nothing is promised unless their names differ otherwise.
- Sinks.NewMulti: does not model that a single backend is returned unwrapped, because a fan-out of one behaves the same apart from its name.
- Backups.Watermark.WriteWatermark: does not model a write that fails half way, because the histories take it to be atomic.
- Imap.IMAP.Fetch: does not model mail that changes during a run, because a run is taken to see a snapshot; between runs it may change.
- LocalStore.Local.Store: does not model symbolic links or other programs writing under the root.
