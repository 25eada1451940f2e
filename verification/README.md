# BrisaBase: a verified model of its protocols, parsers and stores

BrisaBase is a backend platform: functions with a persistent job queue, backups,
a GraphQL and a REST interface, migrations, passkeys and one-time passwords,
login limits, alerts and infrastructure manifests. This project models the parts
of its server whose correctness cannot be seen from one body, and proves what
they promise.

How the files are organised:

- **Protocols and stores** are state machines: a state, the steps, what one step
  does, runs of any length, an invariant, and theorems about every run.
  `JobQueue`, `JobQueueSafety` (the persistent queue with any number of workers,
  crashes and stale writes), `Backup`, `BackupRetention` (the delta chain of full,
  incremental and differential backups), `Migrations` (any number of concurrent
  runners), `FunctionVersions`, `FunctionLaws`, `FunctionTheorems`,
  `FunctionSlugs` (versions, deployment, export and restore), `RateLimiter`,
  `Alerts`, `AlertWebhook`.
- **Objects whose methods change their fields** are classes whose methods are
  proved equal to those step functions: `FunctionQueue.Engine`,
  `BackupEngine.Engine`, `MigrationEngine.Server`, `FunctionEngine.Engine`,
  `GraphqlEngine.Parser`, `RateLimiter.Limiter`, `Alerts.Engine`,
  `AlertWebhook.Dispatcher`, `QueryParams.QueryBuilder`.
- **Parsers and printers** have a specification function for each loop, the loop
  proved equal to it, and round trips: `GraphqlLexer`, `GraphqlParser`,
  `GraphqlSyntax`, `GraphqlRoundTrip`, `GraphqlAcceptance`, `Cbor`, `Base32`, `Csv`,
  `QueryParams`, `QueryFilters`, `QueryLaws`, `QueryExecution`.
- **Normal forms and arithmetic**: `Iac`, `IacDrift`, `Cidr`, `CidrForms`.
- `JsText` (strings as 16-bit code units), `JsNumbers` (numerals, `parseFloat`,
  `Number` and the texts of numbers), `Arithmetic`, `Outcome` (Option and Result)
  and `FiniteSets` are shared.

Where the code does not keep a promise one would expect, the code is modelled as
it is, a concrete run or input shows the failure, and the exact condition under
which the promise holds is proved:

- A job that has completed is queued again when the acknowledgement of its
  completion is lost, and a worker that starts while a job is claimed or executing
  makes a second worker execute it. Claims stay exclusive in all states of a run
  exactly when no step of either kind takes a row away from a call that holds it;
  starts that recover the rows of crashed workers are not of that kind. Such a start
  takes a row over its limit of attempts exactly when it finds it in its last one:
  over whole runs the limit holds exactly when no start does.
- Strings such as `$` and `]`, duplicate keys, and names that JavaScript objects
  inherit do not survive the GraphQL parser. The round trip holds exactly on the
  documents that avoid them. Tokens in any layout are read back exactly when no two
  touch of which the first runs on into the second, as a number does before a name
  that starts with e.
- A truncated CBOR encoding decodes to something else exactly when the cut falls
  before an item or before the only argument byte of a head, because those two
  bytes are indexed without a bounds check. The returned offset then lies past the
  buffer or is not a number.
- The drift walk of the manifests and their checksums disagree on empty objects, on
  arrays that are not canonical, and on objects that look like strings to the walk.
- An alert webhook event is lost exactly when the head is removed after a delivery
  whose own event a full queue has pushed out in the meantime. A start without
  events strands a waiting queue.
- Alert events of one rule can come closer than a minute: all runs over at most n
  rule ids that keep m events are spaced exactly when n <= m, and a step keeps what
  suppression needs exactly when it drops no event younger than a minute.
- Restoring one function can leave two functions with one slug, exactly when
  another function of the scope has taken it since.
- A list filter is recovered exactly when it is not empty and its items have no
  commas and no spaces at their edges. A comparison filter is compared as the number
  it means exactly when its text is a numeral, begins with none, or begins with zero.
  Filters arrive exactly when no two of them are on one field: a range on a column
  loses both ends over the query string and its first end inside a function.
- A text of an IPv6 address is read as its 128-bit number exactly when it does not
  begin with `::ffff:` in lower case, and is not read at all exactly when it does
  and no IPv4 address follows.
- A function's versions disappear or change exactly by the step that deletes it or
  restores an export that does not continue them.
- Rows whose sort column mixes strings and numbers may have no order at all.
- An alternative that tests a list of more than one item is cut at its comma.
- An export with a header line of empty names loses its first row.

`dafny verify dfyconfig.toml` checks everything.

## Model

| member | source | states |
|---|---|---|
| JobQueue.StepKeepsInv | server/functions/persistentFunctionEngine.ts:304-323 | every enqueue, claim, outcome write, recovery and manual retry keeps the ledger in which each return to the queue is paid for by the enqueue, a claim number below the maximum, a retry or a start |
| JobQueue.ClaimsAreBounded | server/functions/persistentFunctionEngine.ts:317-323 | over every interleaving a job is claimed at most (1 + retries) * maxAttempts times plus once for each start that recovered it; without retries at most maxAttempts plus the number of starts |
| JobQueue.ClaimsFollowTheOrder | server/functions/persistentFunctionEngine.ts:317-320 | along a run every claim takes a queued, due and unlocked row, and every other such row has a lower priority number, or the same one and is no older |
| JobQueue.BackoffTable | server/functions/persistentFunctionEngine.ts:321-323 | the waits are 1, 2, 4, 8, 16 and 32 seconds and then a minute: doubled with each failed attempt, never above 60000 ms |
| JobQueueSafety.ExclusiveExactlyUnlessBroken | server/functions/persistentFunctionEngine.ts:74-86 | a step keeps every held ticket the current claim of its row, and every job in one call's hands, if and only if it is neither an unacknowledged completion of an existing row nor a start while a call holds an existing row |
| JobQueueSafety.RunsAreExclusiveExactlyWhen | server/functions/persistentFunctionEngine.ts:317-323 | a run is exclusive in all its states if and only if none of its steps is of those two kinds |
| JobQueueSafety.UnbrokenRunsAreSafe | server/functions/persistentFunctionEngine.ts:317-323 | in such runs, crashes and recovered orphans included, one worker at a time executes a job, and attempts and executions stay within the limits plus one for each start that recovered the row |
| JobQueueSafety.LimitKeptExactlyUnlessOverdrawn | server/functions/persistentFunctionEngine.ts:74-86 | while a step breaks no exclusiveness, it keeps every row's attempts within maxAttempts, and those of queued rows below it, if and only if it is no start that finds a processing row in its last attempt |
| JobQueueSafety.LimitHoldsExactlyWhen | server/functions/persistentFunctionEngine.ts:317-323 | in all states of an unbroken run from the start attempts stay within maxAttempts if and only if no start finds a processing row in its last attempt |
| JobQueueSafety.RecoveryExceedsTheLimit | server/functions/persistentFunctionEngine.ts:74-86 | a run in which the recovery of an orphaned row takes its attempts over the maximum, reaching both bounds |
| JobQueueSafety.CompletedStays | server/functions/persistentFunctionEngine.ts:321-323 | in such runs, recoveries of orphaned rows included, a completed row never changes again |
| JobQueueSafety.DeadLetterStaysUntilRetried | server/functions/persistentFunctionEngine.ts:309-316 | in such runs a dead-lettered row changes only by a manual retry |
| JobQueueSafety.BackoffIsRespected | server/functions/persistentFunctionEngine.ts:321-323 | in such runs the next claim after the n-th failed attempt comes no sooner than 1000 ms doubled n - 1 times, or a minute if that is less |
| JobQueueSafety.LostAcknowledgementReopensJob | server/functions/persistentFunctionEngine.ts:321-323 | a run in which a completed job is queued again because the acknowledgement of its completion was lost |
| JobQueueSafety.LateStartRunsJobTwice | server/functions/persistentFunctionEngine.ts:74-86 | a run in which a worker that starts later executes a job that is still being executed |
| FunctionQueue.Engine.Start | server/functions/persistentFunctionEngine.ts:74-86 | recovery puts every processing row back to queued without an owner, leaves every other row as it was, and does nothing when already started |
| FunctionQueue.Engine.Enqueue | server/functions/persistentFunctionEngine.ts:304-306 | a new row is queued without attempts, with attempts from 1 to 10, priority from -10 to 10 and a delay of at most seven days, as given when within range and 3, 0 and 0 when absent |
| FunctionQueue.Engine.ClaimNextJob | server/functions/persistentFunctionEngine.ts:317-320 | the loop claims a queued, due, unlocked row such that all others have a lower priority number, or the same one and are no older, and claims none only when every queued and due row is locked |
| FunctionQueue.Engine.WriteFailure | server/functions/persistentFunctionEngine.ts:321-323 | dead letter at the maximum, below it back in the queue after 1 to 32 seconds or a minute, by the ticket of the writer and without an owner check |
| FunctionQueue.Engine.RetryJob | server/functions/persistentFunctionEngine.ts:309-316 | only a dead-lettered row is retried; it is queued at once with attempts at zero |
| GraphqlLexer.TokenizeSource | server/graphql/parser.ts:33-93 | a text of more than 65536 bytes in UTF-8 (section 3 of RFC 3629) is refused; of any other the loops over escapes, numbers, names and comments compute the token specification, errors included |
| GraphqlLexer.NumberExactlyWhenNumeral | server/graphql/parser.ts:77-81 | what counts as a number is exactly an optional minus, an integer part without superfluous zero, an optional fraction and an optional exponent with at least one digit each |
| GraphqlLexer.TokenizeUndoesRenderExactlyWhen | server/graphql/parser.ts:33-93 | well-formed tokens with any blanks, commas and comments, or nothing, before, between and after them are read back token by token if and only if nowhere two touch of which the first runs on into the second |
| GraphqlLexer.LexYieldsTokens | server/graphql/parser.ts:33-93 | whatever is tokenized is a list of well-formed tokens |
| GraphqlRoundTrip.SyntaxParses | server/graphql/parser.ts:118-233 | every document, with any variable definitions (types bracketed or not, with or without exclamation marks, defaults, directives), any directives on operations and fields, empty parentheses and shorthand queries, in any layout that keeps its tokens apart, parses to its operations |
| GraphqlRoundTrip.ParseUndoesPrint | server/graphql/parser.ts:95-237 | printing any printable document in any layout that keeps its tokens apart, with nothing between those that may touch, and parsing it returns the same document |
| GraphqlAcceptance.AcceptedIsPrintable | server/graphql/parser.ts:163-233 | every accepted document keeps the limits on fields, selection depth and value depth and is printable |
| GraphqlAcceptance.PrintingIsANormalForm | server/graphql/parser.ts:95-237 | printing an accepted document and parsing it again gives the same result as the source |
| GraphqlAcceptance.RoundTripsExactlyWhenPrintable | server/graphql/parser.ts:99-111 | a document survives the round trip if and only if it is printable: no string that peek takes for punctuation, no repeated or inherited key, all limits kept |
| GraphqlAcceptance.WidthIsLimitedExactly | server/graphql/parser.ts:163-173 | a selection of n fields is read back if and only if n is at most 100 |
| GraphqlAcceptance.NestingIsLimitedExactly | server/graphql/parser.ts:163-184 | n selection sets within each other are read back if and only if n is at most 9 |
| GraphqlAcceptance.ValueDepthIsLimitedExactly | server/graphql/parser.ts:199-212 | n lists around an empty one are read back if and only if n is at most 16 |
| GraphqlParser.OrdinaryKeysAreNew | server/graphql/parser.ts:186-197 | of the argument names in lower-case letters and digits only constructor is taken for a repeated one |
| GraphqlEngine.ParseSource | server/graphql/parser.ts:235-237 | the parser object with its moving index computes the specification of the parser, errors included |
| Backup.StepKeepsInv | server/backup/backupEngine.ts:314-380 | creating, deleting and retention keep every stored base present, in scope and captured with its components |
| Backup.ReachableBackupsResolve | server/backup/backupEngine.ts:138-143 | in every reachable store each backup resolves without a missing base or a cycle |
| Backup.BackupsReadBackAsCaptured | server/backup/backupEngine.ts:138-143 | at any later moment a kept backup resolves to exactly the values its components had at its creation, whatever chain of deltas it rests on |
| Backup.StoredPayload | server/backup/backupEngine.ts:314-345 | a creation stores exactly the requested components whose captured value differs from what the base resolves to, and all of them without a base |
| Backup.RequestedMeans | server/backup/backupEngine.ts:314-323 | without a choice of components all six are captured in test mode and otherwise database, storage and security |
| Backup.ChangedIsLeast | server/backup/backupEngine.ts:328-336 | no smaller payload over that base restores what was captured |
| Backup.PassKeepsExactly | server/backup/backupEngine.ts:540-550 | after a pass a backup is stored if and only if it is of another scope, has fewer than maxBackups newer ones and is at most maxAgeDays * 86400000 ms old, or has a backup based on it |
| Backup.NewBackupStaysExactlyWhen | server/backup/backupEngine.ts:314-380 | the retention at the end of a creation leaves the new backup if and only if fewer than maxBackups of its scope are newer and it is at most maxAgeDays days old |
| Backup.NewestBackupStays | server/backup/backupEngine.ts:314-380 | under any policy that a run can set, the newest backup of its scope is stored when its creation ends within a day |
| BackupRetention.KeptIsFixed | server/backup/backupEngine.ts:540-550 | a retention pass does not change which backups the policy keeps, although it uses a listing taken before it |
| BackupRetention.KeptExactlyWhenEntitled | server/backup/backupEngine.ts:540-550 | the kept backups are those with fewer than maxBackups newer ones in their scope that are at most maxAgeDays * 86400000 ms old |
| BackupRetention.RetentionConverges | server/backup/backupEngine.ts:540-550 | repeated passes at a fixed time end with exactly the kept backups and their ancestors, other scopes untouched |
| BackupEngine.Engine.EnforceRetention | server/backup/backupEngine.ts:540-550 | for a manager the loop never fails, counts what it removes, and leaves exactly the backups of other scopes, those entitled by number and age, and those with a backup based on them, all unchanged |
| BackupEngine.Engine.DeleteBackup | server/backup/backupEngine.ts:515-529 | refuses a backup that another one is based on, otherwise removes exactly the one named |
| BackupEngine.Engine.CreateBackup | server/backup/backupEngine.ts:314-380 | chooses an allowed base, stores only the changed components and enforces retention; the new backup is there on return if and only if the policy entitles it by number and age |
| BackupEngine.IndexIsRank | server/backup/backupEngine.ts:382-391 | the index in the newest-first listing is the number of newer backups |
| Cbor.DecodeCbor | server/auth/webauthn.ts:11-12 | the recursive decoder with its moving offset computes the specification for every buffer: errors, missing bytes that count as zero, and lengths that are undefined included |
| Cbor.SetEntryReplaces | server/auth/webauthn.ts:11-12 | in a decoded map a key that is compared by value replaces the value of its first equal in place, or comes last |
| Cbor.DecodeUndoesEncode | server/auth/webauthn.ts:11-12 | decoding an encoding at any place, whatever follows, gives the value and stops at its end |
| Cbor.EncodingsArePrefixFree | server/auth/webauthn.ts:11-12 | no encoding is a prefix of another |
| Cbor.DecodingReadsOnlyItsItem | server/auth/webauthn.ts:11-12 | a decoding that ends inside the buffer depends on no byte outside the item |
| Cbor.TruncationDecodesExactlyWhen | server/auth/webauthn.ts:11-12 | a truncated encoding decodes if and only if the cut falls before an item or before the single argument byte of a head, and then ends past the buffer |
| Cbor.TruncatedArrayDecodesToZeros | server/auth/webauthn.ts:12 | an array header with nothing behind it decodes to zeros |
| Cbor.MissingArgumentIsAccepted | server/auth/webauthn.ts:11-12 | heads without their argument byte decode to undefined, NaN, an empty string that ends nowhere and an empty array |
| Base32.Base32Encode | server/auth/mfa.ts:19-39 | the loop over the unmasked 32-bit accumulator emits the bit string in groups of five (RFC 4648 section 6) |
| Base32.Base32Decode | server/auth/mfa.ts:44-66 | the cleaned text in upper case, characters outside ASCII whose upper case has letters of the alphabet included, is decoded by a loop that emits the bit string of its symbols in groups of eight |
| Base32.ShiftIn | server/auth/mfa.ts:26-27 | shifting new bits into the accumulator never loses a pending bit while all fit into 32 |
| Base32.EncodingLength | server/auth/mfa.ts:19-39 | n bytes become ceil(8n / 5) symbols |
| Base32.DecodeUndoesEncode | server/auth/mfa.ts:44-66 | every text that cleans up to an encoding decodes to its bytes |
| Base32.PaddedRoundTrip | server/auth/mfa.ts:44-66 | an encoding with any padding decodes to its bytes |
| Base32.EncodeUndoesDecodeExactly | server/auth/mfa.ts:19-66 | symbols survive decoding and encoding if and only if the left-over bits are fewer than five and zero |
| Csv.ParseCsv | server/db/databasePhase2.ts:56-89 | the character loop and the header checks compute the specification for every text |
| Csv.RecordsUndoJoin | server/db/databasePhase2.ts:46-81 | any table of texts, with any of the three line breaks, is read back without its blank rows |
| Csv.ParseUndoesEncode | server/db/databasePhase2.ts:46-89 | for distinct identifier columns an export reads back as its rows, whatever the cells hold, without rows whose cells are all empty |
| Csv.ReadsBackExactlyWhen | server/db/databasePhase2.ts:46-89 | for any column names an export reads back if and only if the trimmed names are distinct identifiers and trimming changed nothing that a row shows; with a header line of empty names, if and only if there is no row |
| Csv.UnterminatedExactlyWhenOdd | server/db/databasePhase2.ts:81 | the error for an unclosed field is raised exactly for an odd number of quotes |
| Csv.HeaderRefusals | server/db/databasePhase2.ts:84-87 | a header is refused for a name that is no identifier if and only if it has one, and for repeated names if and only if all are identifiers and two are equal |
| Migrations.StepKeepsInv | server/db/postgres.ts:97-129 | every query of every runner keeps history, schema, lock and runners consistent |
| Migrations.CommittedIsAPrefix | server/db/postgres.ts:97-129 | with any number of concurrent runners the recorded migrations are always a prefix of the file list |
| Migrations.EachCommitsOnce | server/db/postgres.ts:108-125 | each file's SQL commits at most once, in list order, none skipped, together with its row |
| Migrations.SchemaIsTheFold | server/db/postgres.ts:108-125 | the schema is what the committed files alone give in order |
| Migrations.FinishedMeansAllApplied | server/db/postgres.ts:97-129 | a runner that returns normally leaves every file recorded with its checksum |
| Migrations.FailuresHaveCauses | server/db/postgres.ts:101-107 | apart from interruptions a runner fails only for an edited old file or a refused destructive one |
| Migrations.StepsRunOut | server/db/postgres.ts:97-129 | every step of a runner reduces the number of queries it has left |
| Migrations.NoDeadlock | server/db/postgres.ts:108-113 | while a runner is unfinished some runner can take an ordinary step |
| MigrationEngine.Server.Migrate | server/db/postgres.ts:97-129 | a lone run succeeds if and only if no recorded file was edited and no new one is refused, and then has applied exactly the missing files |
| RateLimiter.Limiter.Check | server/auth/rateLimiter.ts:18-45 | the checking branches, their lock and their expiry, as the specification |
| RateLimiter.Limiter.RecordFailure | server/auth/rateLimiter.ts:47-59 | a new window, a counted failure or a lock, as the specification |
| RateLimiter.ManyFailuresTakeLong | server/auth/rateLimiter.ts:18-59 | any 2 * maxAttempts consecutive failures of a key span more than the window |
| RateLimiter.AtMostTwiceTheLimit | server/auth/rateLimiter.ts:18-59 | every closed interval of the window's length holds at most 2 * maxAttempts - 1 failures of a key |
| RateLimiter.BoundIsReachedExactlyWhen | server/auth/rateLimiter.ts:18-59 | some run reaches that bound if and only if one attempt is the limit, or the window is not empty and at least as long as the lockout |
| RateLimiter.FewerWhenLockedLonger | server/auth/rateLimiter.ts:18-59 | otherwise every such interval holds at most 2 * maxAttempts - 2 failures of a key |
| RateLimiter.LockoutHolds | server/auth/rateLimiter.ts:26-29 | after the failure that reaches the limit every check is denied until the lockout is over |
| RateLimiter.RetryAfterIsHonest | server/auth/rateLimiter.ts:26-43 | after a denial everything is denied up to less than a second before the announced time |
| RateLimiter.RetryAfterIsEnough | server/auth/rateLimiter.ts:26-43 | from the announced time on that lock refuses nothing: a check with nothing recorded in between is allowed if and only if the window is over, and otherwise starts a lockout of full length |
| Iac.CanonicalExactlyWhenSame | server/iac/iacEngine.ts:7 | two trees have equal canonical forms, keys in JavaScript's order, if and only if they agree up to key order and generatedAt at every depth |
| Iac.CanonicalIsIdempotent | server/iac/iacEngine.ts:7 | canonicalising twice changes nothing more |
| IacDrift.Walk | server/iac/iacEngine.ts:27 | the walk pushes the specified paths in the specified order |
| IacDrift.ReportedExactlyWhenDifferent | server/iac/iacEngine.ts:27 | a text is reported if and only if it is the keys of a route joined by dots, none of them generatedAt and empty ones at the start left out, at whose end the manifests differ and down to which the walk goes |
| IacDrift.SortedKeysAscend | server/iac/iacEngine.ts:27 | the keys of each level are walked in the order of their code units, each once |
| IacDrift.DriftExactlyWhenChecksumsDiffer | server/iac/iacEngine.ts:7-27 | on clean manifests no drift is reported if and only if the checksummed forms agree |
| IacDrift.UncleanHasPartner | server/iac/iacEngine.ts:7-27 | every manifest that is not clean has another one, its keys enumerated as JavaScript does, on which walk and checksum disagree |
| IacDrift.SpellingLooksEqual | server/iac/iacEngine.ts:27 | an object that spells a string does not drift from it |
| IacDrift.LooksLikeStringSpells | server/iac/iacEngine.ts:27 | an object without empty parts that does not drift from a string spells it |
| Alerts.Engine.Evaluate | server/observability/alerts.ts:52-65 | every event comes from an enabled rule on the metric and project of the point whose threshold the value is on the right side of; with one rule an id, a rule has its event if and only if this holds and its kept events are at least 60000 ms old |
| Alerts.OperatorLaws | server/observability/alerts.ts:56 | above, equal and below exclude each other and one holds, the other two operators join them, and rules above or below go on firing at larger or smaller values |
| Alerts.RuleIdsStayDistinct | server/observability/alerts.ts:41-49 | in every run no two rules share an id |
| Alerts.TruncationDropsOldOnly | server/observability/alerts.ts:64 | with room for one event of each rule truncation drops only events at least a minute old |
| Alerts.EventsAreSpaced | server/observability/alerts.ts:52-65 | in every run with that room any two events of one rule are at least a minute apart |
| Alerts.FiresExactlyWhenQuiet | server/observability/alerts.ts:58-62 | an enabled rule on the metric and project of a point beyond its threshold fires if and only if none of its events ever emitted is younger than a minute |
| Alerts.KeepsCoverExactlyWhen | server/observability/alerts.ts:58-66 | an evaluation or a pruning keeps what suppression needs if and only if it drops no event younger than a minute |
| Alerts.DroppingYoungFails | server/observability/alerts.ts:58-66 | a step that drops one can be followed by two events of one rule within a minute |
| Alerts.SpacedExactlyWhenRoomForEach | server/observability/alerts.ts:52-65 | all runs over at most n rule ids that keep m events have the events of each rule a minute apart if and only if n <= m; otherwise a run from the start fails |
| Alerts.EarlyPruningFails | server/observability/alerts.ts:66 | a run from the start in which pruning a young event lets its rule fire again at once |
| AlertWebhook.Dispatcher.Enqueue | server/observability/alertWebhook.ts:23-28 | dropping the head of a full queue, appending and starting a loop, as the step |
| AlertWebhook.Dispatcher.OnDelivered | server/observability/alertWebhook.ts:58-62 | the removal of the head after a delivery and the next turn of the loop, as the step |
| AlertWebhook.BoundedAndSingle | server/observability/alertWebhook.ts:23-74 | the queue never exceeds 1000 events and at most one delivery loop is active |
| AlertWebhook.CountersBalance | server/observability/alertWebhook.ts:23-74 | accepted events, with a delivered head still queued, equal delivered plus dropped plus queued |
| AlertWebhook.InOrderWithoutDrops | server/observability/alertWebhook.ts:55-74 | while nothing was dropped, settled deliveries followed by the queue are the accepted events in order |
| AlertWebhook.DeliveredOnceInOrder | server/observability/alertWebhook.ts:55-74 | no event is delivered twice, and deliveries keep the order of acceptance |
| AlertWebhook.GivesUpExactlyAfterFour | server/observability/alertWebhook.ts:34-53 | in every run a failed attempt ends the delivery if it was the fourth and is followed by a wait otherwise |
| AlertWebhook.StoppedTakesUpNothing | server/observability/alertWebhook.ts:21-74 | a stopped dispatcher takes up no event until it is started again |
| AlertWebhook.LosesExactlyWhenOvertaken | server/observability/alertWebhook.ts:25-62 | a step loses an event if and only if it removes the head after a delivery whose event has already left the queue |
| AlertWebhook.OvertakenExactlyByFullQueue | server/observability/alertWebhook.ts:23-28 | an enqueue pushes the event in flight out of the queue if and only if it finds 1000 events and a delivery under way |
| AlertWebhook.OvertakenByNothingElse | server/observability/alertWebhook.ts:55-74 | no other step does |
| AlertWebhook.LostExactlyWhenDroppedInFlight | server/observability/alertWebhook.ts:25-62 | over whole runs, between deliveries: some event is lost if and only if some delivered event was also dropped |
| AlertWebhook.AFullQueueLosesAnEvent | server/observability/alertWebhook.ts:25-62 | a reachable run that loses an event |
| AlertWebhook.StrandedExactlyByIdleStart | server/observability/alertWebhook.ts:16-19 | a step strands a waiting queue if and only if it is a start without events while no loop and no timer is active |
| AlertWebhook.AnIdleStartStrands | server/observability/alertWebhook.ts:16-28 | a run in which an event waits because it arrived before a start without events |
| Cidr.ParseIpv6 | server/enterprise/enterpriseEngine.ts:15 | the parser with its loops computes the specification for every text |
| Cidr.MatchesExactlyInBlock | server/enterprise/enterpriseEngine.ts:18 | membership is exactly lying in the aligned block of size 2^(bits - prefix) |
| Cidr.MatchesExactlyOnPrefixBits | server/enterprise/enterpriseEngine.ts:18 | membership is exactly agreement in the first prefix bits (RFC 4632 section 3.1) |
| Cidr.ShorterPrefixMatchesMore | server/enterprise/enterpriseEngine.ts:18 | a shorter prefix matches every address that a longer one matches |
| Cidr.BlocksNestOrMiss | server/enterprise/enterpriseEngine.ts:18 | two blocks are nested or have no address in common |
| CidrForms.EveryFormReads | server/enterprise/enterpriseEngine.ts:14-15 | every way of writing an address (case, leading zeros, place of "::", dotted tail) is read as the number of its eight groups |
| CidrForms.SameAddressExactlyWhenSameGroups | server/enterprise/enterpriseEngine.ts:15 | two ways of writing read as the same number if and only if they stand for the same groups |
| CidrForms.BlockTextMeans | server/enterprise/enterpriseEngine.ts:14-18 | every valid block text, of either family, contains an address text if and only if that reads into the aligned block; every IPv6 text reads below 2^128 |
| CidrForms.FormAddress | server/enterprise/enterpriseEngine.ts:16 | a way of writing an IPv6 address is read as its 128-bit number if and only if it does not begin with "::ffff:" in lower case, and is not read at all if and only if it does and no IPv4 address follows |
| CidrForms.HexadecimalMappedIsNotRead | server/enterprise/enterpriseEngine.ts:16 | the address ::ffff:1:2 is valid and stands for eight groups, but is not read |
| CidrForms.DottedBlockMeans | server/enterprise/enterpriseEngine.ts:16-18 | a dotted block text contains a dotted address exactly when it lies in the aligned block |
| QueryParams.ParseQueryParams | server/apiEngine/queryBuilder.ts:142-197 | the loops over filters, alternatives and sorts and the clamped paging, with arrays for repeated names passed over, as the specification |
| QueryParams.BuildRpcQuery | server/functions/functionEngine.ts:364-366 | the query object of a function's select call, filled property by property |
| QueryParams.QueryBuilder.ListPath | developer/sdk/client.ts:97-106 | the client's query string in the order of its entries |
| QueryParams.SetParamReplaces | developer/sdk/client.ts:97-106 | setting a name of the query string leaves it with that value alone and all other names as they were |
| QueryParams.FilterReaches | server/apiEngine/queryBuilder.ts:312-356 | whatever is sent for an operator, dots included, reaches the reader of its value whole |
| JsNumbers.ScanIsLongest | server/apiEngine/queryBuilder.ts:326-333 | what parseFloat reads is the longest decimal literal at the head of the text, and nothing if and only if there is none |
| JsNumbers.FloatOrTextExactlyWhen | server/apiEngine/queryBuilder.ts:326-333 | parseFloat(t) or else t means Number(t) if and only if t is a numeral between blanks, begins with none, or begins with one that is zero; numbers are exact, so that a literal which a double rounds to zero counts as not zero |
| JsNumbers.FigureReads | developer/sdk/client.ts:58-61 | the text String gives a finite number is a numeral that parseFloat and Number both read as that number |
| JsNumbers.ZeroAndInfinity | server/apiEngine/queryBuilder.ts:326-333 | zero is written 0, and Infinity and -Infinity are read as the infinities |
| QueryParams.ListRecoveredExactlyWhen | developer/sdk/client.ts:58-61 | a list filter is recovered if and only if it is not empty and its items have no commas or edge spaces |
| QueryParams.RpcListRecoveredExactlyWhen | server/functions/functionEngine.ts:361-367 | without parentheses, if and only if in addition stripping parentheses changes nothing |
| QueryParams.ComparisonMeansNumberExactlyWhen | server/apiEngine/queryBuilder.ts:326-333 | a comparison means the number sent if and only if its text is a numeral between blanks, begins with none, or begins with one that is zero; numbers are exact, so that 1e-400abc counts as not zero although a double rounds it |
| QueryParams.NumbersAreComparedAsSent | server/apiEngine/queryBuilder.ts:326-333 | the text of every finite number is compared as that number |
| QueryParams.TextAfterNumeralIsDropped | server/apiEngine/queryBuilder.ts:326-333 | the text 12abc is compared as 12, although it means no number |
| QueryFilters.FilterMeansWhatWasSent | server/apiEngine/queryBuilder.ts:375-417 | encoded, parsed and applied, a filter with any of the fourteen operators keeps exactly the values asked for: null tests, truth values, parts, beginnings and ends of texts included |
| QueryFilters.RpcFilterMeansWhatWasSent | server/functions/functionEngine.ts:366 | so does a filter of a function's select call, when its list loses nothing to the stripped parentheses |
| QueryFilters.NumbersAreSendable | developer/sdk/client.ts:83-88 | every filter by a number is one of those |
| QueryFilters.NumbersCompareBySize | server/apiEngine/queryBuilder.ts:391-398 | on stored numbers the four comparisons by a number go by size |
| QueryFilters.NumbersEqualByValue | server/apiEngine/queryBuilder.ts:387-388 | equality by a number keeps only stored numbers of that value |
| QueryFilters.TruthValuesEqualTheirNames | server/apiEngine/queryBuilder.ts:387-413 | a stored truth value equals the text of that truth value and no other |
| QueryFilters.PlainTextMeansEquality | server/apiEngine/queryBuilder.ts:312-355 | a text that does not begin with the name of an operator and a dot asks for equality with all of it |
| QueryLaws.QueryReaches | server/apiEngine/queryBuilder.ts:105-197 | of a built query the filters that share their field with no other, the order and the paging are parsed, part by part |
| QueryLaws.FiltersArriveExactlyWhen | server/apiEngine/queryBuilder.ts:142-154 | all its filters are parsed if and only if no two are on one field |
| QueryLaws.RpcQueryReaches | server/functions/functionEngine.ts:361-367 | of a function's select call the last filter on each field, the order and the limit are parsed, part by part |
| QueryLaws.RpcFiltersArriveExactlyWhen | server/functions/functionEngine.ts:366 | all its filters are parsed if and only if no two are on one field |
| QueryLaws.RangesAreLost | developer/sdk/client.ts:85-88 | a range on one field loses both its ends over the query string and the first inside a function |
| QueryLaws.ParseSelectString | server/apiEngine/queryBuilder.ts:291-310 | the loop with its nesting depth computes the specification |
| QueryLaws.SelectRecovered | server/apiEngine/queryBuilder.ts:291-310 | a select list of balanced parts is taken apart into exactly those parts |
| QueryExecution.ExecuteSelect | server/apiEngine/queryBuilder.ts:200-256 | the three filter passes, the sort and the slice return rows that pass all conditions, in number the rest of the total from the offset up to the limit, in the order asked for on columns of one kind |
| QueryExecution.PagesGiveTheWholeResult | server/apiEngine/queryBuilder.ts:213-256 | consecutive pages are together the whole result, each passing row as often as it is stored |
| QueryExecution.AnswerIsMeant | server/apiEngine/queryBuilder.ts:200-256 | a list request returns its page of the allowed rows that satisfy the filters it did not repeat a field in, in the order asked for on columns of one kind |
| QueryExecution.RpcAnswerIsMeant | server/functions/functionEngine.ts:361-367 | a function's select call returns the first of the allowed rows that satisfy the last filter on each field, in the order asked for on columns of one kind |
| QueryExecution.PagedQueryAnswersExactly | server/apiEngine/queryBuilder.ts:105-256 | the pages of a query built by the client, encoded, parsed and executed, are together exactly the allowed rows satisfying what was asked, each as often as stored, in the order asked for |
| QueryExecution.AnswerRisesOrFalls | developer/sdk/client.ts:96-105 | with order(field, ascending) the cells of the column never fall, or never rise, along the answer: texts by code units, numbers by size |
| QueryExecution.AlternativesAreJoined | server/apiEngine/queryBuilder.ts:153-158 | a request with alternatives gives each row as often as it is stored that satisfies the other filters, at least one alternative and the policy |
| QueryExecution.AlternativesReach | server/apiEngine/queryBuilder.ts:358-373 | alternatives without commas are read back one by one |
| QueryExecution.ListAlternativeIsCut | server/apiEngine/queryBuilder.ts:358-373 | or=(a.in.(x,y)) asks for x alone |
| QueryExecution.SortOrders | server/apiEngine/queryBuilder.ts:240-252 | of any two rows of the result the earlier one has, in the first sort column where they differ, the smaller cell, or the larger if descending, when every sort column holds only strings, or only numbers, truth values and null |
| QueryExecution.MixedColumnsHaveNoOrder | server/apiEngine/queryBuilder.ts:240-252 | no arrangement of three rows that hold the number 9.5 and the texts "10" and "9" is in order |
| QueryExecution.SortIsStable | server/apiEngine/queryBuilder.ts:240-252 | rows that compare as equal keep their order |
| FunctionEngine.Engine.CreateFunction | server/functions/functionEngine.ts:89-108 | name, slug, uniqueness and limits are checked before anything is stored |
| FunctionEngine.Engine.UpdateFunction | server/functions/functionEngine.ts:151-168 | the new draft and the access are stored even when the limits are then refused |
| FunctionEngine.Engine.DeployFunction | server/functions/functionEngine.ts:170-186 | the loop retires the published version and publishes the target |
| FunctionEngine.Engine.RestoreBackupState | server/functions/functionEngine.ts:121-140 | the loops delete what is replaced and put the export back, as the specification |
| FunctionLaws.StepKeepsInv | server/functions/functionEngine.ts:89-205 | every operation keeps ids, owners, numbering, publication and stored exports consistent |
| FunctionTheorems.VersionsAreNumbered | server/functions/functionEngine.ts:151-186 | in every reachable state versions are numbered 1 to n and only the current one, if any, is published |
| FunctionTheorems.CreatedExactlyWhen | server/functions/functionEngine.ts:89-108 | a creation succeeds if and only if the name is not blank, the slug has 1 to 80 units, nothing in the scope has it as id or slug, and the limits are among those offered |
| FunctionTheorems.CreationAddsADraft | server/functions/functionEngine.ts:95-108 | a created function is inactive with one draft numbered 1; a refused creation changes nothing |
| FunctionTheorems.ExecuteFindsItsVersion | server/functions/functionEngine.ts:304-308 | executing a function reports that nothing is deployed or runs the one published version |
| FunctionTheorems.DeployIsWhatRuns | server/functions/functionEngine.ts:170-192 | after a successful deploy or rollback execute runs the requested version with its code untouched |
| FunctionTheorems.DeploysExactlyWhen | server/functions/functionEngine.ts:170-186 | a deployment succeeds if and only if the function is there and has the version asked for, or any version when none is; each refusal says which was missing and changes nothing |
| FunctionTheorems.DeploySupersedes | server/functions/functionEngine.ts:170-186 | a deployment supersedes what was published, publishes one version and leaves every other status, all code and all numbers as they were |
| FunctionTheorems.UpdatesExactlyWhen | server/functions/functionEngine.ts:151-168 | an update adds a draft with its code if and only if the function is there and the code is not blank; refused limits leave the limits alone, but not the draft and the access |
| FunctionTheorems.NothingDeployedExactlyWhen | server/functions/functionEngine.ts:304-308 | executing reports nothing deployed if and only if the function is missing, inactive or without a current version |
| FunctionTheorems.UpdateKeepsRunning | server/functions/functionEngine.ts:151-168 | an update, even a refused one, does not change what any function runs |
| FunctionTheorems.DeployKeepsOthers | server/functions/functionEngine.ts:170-186 | a deploy changes only what its own function runs |
| FunctionTheorems.VersionsAreImmutable | server/functions/functionEngine.ts:89-205 | every step, deletions and restores included, keeps a function's versions with their numbers and code, adding at most new ones, if and only if it neither deletes that function nor replaces it by an export that does not continue its versions |
| FunctionTheorems.HistoryLastsExactlyWhen | server/functions/functionEngine.ts:89-205 | in any stretch of a run from the start a function's versions are kept in every state if and only if no step is of those two kinds |
| FunctionTheorems.RestoreUndoesARun | server/functions/functionEngine.ts:114-140 | an export restored after any further steps makes its scope export to the same value again and leaves every other scope as it was |
| FunctionTheorems.SingleRestoreIsLocal | server/functions/functionEngine.ts:121-140 | restoring one function brings back that one and leaves all others and all secrets alone |
| FunctionSlugs.SingleRestoreKeepsSlugsExactlyWhen | server/functions/functionEngine.ts:121-140 | it keeps slugs unique if and only if no other function of the scope has taken the slug |
| FunctionSlugs.SlugIsItsWords | server/functions/functionEngine.ts:29-31 | the slug of a name is its longest runs of ASCII letters and digits, in lower case, joined by single dashes |
| FunctionSlugs.SlugsAgreeExactlyWhenWordsDo | server/functions/functionEngine.ts:29-31 | two names have one slug if and only if they consist of the same words |
| FunctionSlugs.StepKeepsSlugsExactlyWhen | server/functions/functionEngine.ts:89-205 | a step keeps the slugs of the state and of every export unique if and only if it does not bring back a function whose slug another one has taken |
| FunctionSlugs.SlugsStayUniqueExactlyWhen | server/functions/functionEngine.ts:89-205 | in a run from the start slugs stay unique throughout if and only if no step does |
| FunctionSlugs.WholeRestoresOnly | server/functions/functionEngine.ts:121-140 | runs without the restore of single functions have no such step |
| FunctionSlugs.SingleRestoreClashes | server/functions/functionEngine.ts:121-140 | create, export, delete, create again under the name, restore the first: a run that leaves two functions with one slug |
| FunctionSlugs.KeysAreUnambiguous | server/functions/functionEngine.ts:69-71 | in every run without such a step an id or a slug names at most one function of a scope |

## Left out

- Job queue: cron schedules, health checks, subscriptions and the function that a job executes; a lease is the in-memory set of running jobs, as in the code; an outcome that a worker had sent before it died, and that reaches the database after a recovery, is no step of the model.
- Backups: encryption, compression and JSON are inverse pairs; each operation is one step; `createdAt` values are distinct; hydration, verification, schedules and restoring into live systems are not modelled.
- GraphQL: token positions and error messages, `Number()` of numeric literals (integers are unbounded, other numbers keep their text), and resolving variables.
- CBOR: text strings are kept as their UTF-8 bytes; the COSE keys and the authenticator data that are read from the decoded values.
- CSV: `String` and `JSON.stringify` of a cell are its text; columns named like inherited object members; coercion and insertion of imported rows.
- Migrations: reading the directory, SHA-256 and the recognition of destructive SQL are given; READ COMMITTED and one file list for all runners are assumed; the migration of the legacy history is not modelled.
- Rate limiter: time is a natural number that never decreases; failures of one key are recorded after an allowed check of that key with no other event of the key in between, as POST handlers do it.
- Alerts: persistence and hydration, NaN values, and the validation of rule texts; `PutRule` stands for creating, updating and loading a rule, so that it can bring back an id.
- Webhook: the JSON copy, headers and time stamps of a delivery; a failed delivery that the receiver did get.
- Manifests: SHA-256 and JSON text are taken as injective; members that every object inherits; the list is cut to 500 paths afterwards.
- Cidr: `net.isIP` is a parameter; zone identifiers.
- Queries: URL encoding is an inverse pair; a name repeated more than twenty times and names with brackets, which the web framework makes into objects; numbers are exact; stored dates, lists and objects; lower-casing outside ASCII; the row policy is a parameter.
- QueryParams.ParseQueryParams: leaves out the lists of selected fields and of relationships, and with them the projection of rows, because they do not decide which rows are returned.
- QueryParams.ComparisonMeansNumberExactlyWhen: numbers are exact, not doubles, so a literal that a double rounds to zero falls on the other side of the condition; the same holds for JsNumbers.FloatOrTextExactlyWhen.
- QueryExecution.SortOrders: assumes that a sort column holds only strings, or only numbers, truth values and null, because JavaScript's comparison of other mixtures is not an order, as MixedColumnsHaveNoOrder shows, and its sort is then unspecified.
- Functions: roles, logs, executions, cron jobs, queue jobs and queues of an export; encryption of secrets and the form of their names; lower-casing outside ASCII.
- Billing, HTTP plumbing, configuration, simulators, registries, the SQL rewriting rules, pages and end-to-end helpers: provider calls, small maps or user interface.
