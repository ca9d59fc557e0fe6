# Janus CryptoBOM: verified model

Janus finds cryptography on hosts and migrates it. An agent scans files, certificates and TLS
endpoints, keeps a cache of what it has parsed and a queue of telemetry, and sends the queue to a
controller. The controller assesses findings, alerts, scores the fleet, and sends signed migration
commands that the agent carries out on configuration files or registry values.

This project models the parts of that system whose correctness is not visible in one function, and
proves what they are for. `dafny verify dfyconfig.toml` checks everything.

| file | component |
|---|---|
| `Lexer.dfy` | the comment and string stripper, both copies, as one six-mode automaton |
| `ServerHello.dfy`, `Tlv.dfy`, `CertTime.dfy`, `Certificate.dfy` | the binary parsers: TLS key share, ASN.1 elements, calendar time, certificate expiry |
| `Paths.dfy`, `FileSystem.dfy`, `Migration.dfy` | the migration transaction over a file system that fails or loses power at any step |
| `Registry.dfy` | the registry transaction |
| `Commands.dfy`, `Envelope.dfy` | the canonical command text, its signature envelopes, and what acceptance identifies |
| `Storage.dfy`, `ScanCache.dfy`, `Delivery.dfy`, `Sync.dfy`, `EndToEnd.dfy`, `Readers.dfy`, `Daemon.dfy` | the incremental scan, the offline queue, the sync protocol, what the controller's readers see of it, and the daemon loop that joins them |
| `RateLimit.dfy`, `Circuit.dfy`, `Auth.dfy` | the time-window machines: rate limiter, webhook breaker, session revocation |
| `Policy.dfy`, `Scorecard.dfy` | the finding fold and the averages |
| `Options.dfy`, `Bytes.dfy`, `Text.dfy` | shared vocabulary |

The outcome of every file operation, database statement, network call and child process is a
nondeterministic result, and clocks are arbitrary or non-decreasing parameters. Each environment has a
`reliable` flag under which none of its calls fails; contracts say what is promised whatever fails, and
also what must then happen. Hashes, signatures,
password hashing, base64, the patch engine and the per-file analysis are abstract functions; what is
assumed of them stands in the `requires` clauses (`Injective`, `OnlyLogged`, `Unforged`, `Sound`,
`SoundEncodings`).

Operations are proved against specification functions. What those decide is then stated once more in the
words of the input, with the constants written out: which commands may change a host (`Migration.Execute`),
which extensions have which comments (`Lexer.SlashComments` and its neighbours), what the trust settings
bind (`Envelope.FingerprintBinds`, `Envelope.RootBinds`), what a session is (`Auth.SessionLaw`), and which
findings an inventory comes to (`Policy.AssessmentIff`).

## What the code does that its documentation does not say

Each is a theorem below: an exact condition, or a concrete input.

- The stripper's backslash flag survives a line break. An unfinished string that ends in a backslash
  hides code on the next line (`Lexer.BackslashLeaksAcrossLines`); stripping is line-local exactly
  when the automaton is back in its start state (`Lexer.LineLocalIff`).
- Two different commands can share a canonical text. For a given command another one exists exactly when
  one of its seven leading fields holds a line break, or its patch holds a line that reads as a checklist
  followed by a line that reads as a rollback window (`Commands.SharesTextIff`). The controller takes
  several of those fields, and the patch, as they stand in the request.
- The controller escapes `<`, `>`, `&` and two line separators in the checklist, where the agent does not.
  A command signed in a mode the agent trusts is accepted exactly when no checklist entry holds one of the five
  (`Envelope.SignedIsAcceptedIff`); the checklist ends in the checksum the agent reported
  (`Commands.BuiltIsPlainIff`). A command rejected as itself may be accepted as another one: what is signed
  for a command is accepted for some other command exactly when the fields above collide, or could be read
  that way (`Envelope.SignedForAnotherIff`, and a pair of commands in `Commands.RejectedAndAccepted`). A nil checklist would be written as `null` instead of `[]`
  (`Commands.CanonicalsAgreeIff`); today the controller signs no command without checklist entries.
- Certificate times before 1970 are read as if in 1970 (`CertTime.UtcTimeIff`, `CertTime.GeneralizedTimeIff`).
- The registry rollback does not bring back a touched value that was not a DWORD: it deletes it, or, where
  the text of the query holds the type name, as for a big-endian DWORD, leaves a DWORD (`Registry.UndoAt`,
  `Registry.UndoRestoresIff`).
- Backups are named after file name and command id, so a command carried out again, or for another file of
  that name, saves over the original (`Paths.DotFreeBackupsIff`, `Migration.ReplayReplacesBackup`).
- Payloads are inserted in the order they were queued, in every run, exactly when their creation times
  increase strictly. Two payloads of one second, or a clock that steps back, have a run that overtakes
  (`Delivery.InOrderIff`). Even then the last payload that mentions a file is kept or delivered
  (`EndToEnd.NothingIsLost`).
- Findings of skipped files stay with the controller: what the inserted and queued payloads ever said is
  exactly what full scans would have said (`Readers.RunIsComplete`). But its component list, component
  count and configuration checksum are read from the latest payload alone, and are those of a full scan
  exactly when the walk passed over no file with findings (`Readers.LatestIsFullIff`). For a configuration
  that was passed over, a migration command carries no checksum and drift is not noticed
  (`Readers.DriftIsSeenIff`).
- The last word of the payloads on each file is that of full scans exactly when the view they give covers
  the cache (`ScanCache.SkippingIsSafeIff`). A scan whose payload is never queued and a failed cache write
  can break that (`ScanCache.LostPayloadUncoversIff`, `ScanCache.FailedWriteUncoversIff`). A file
  that then stays as it is is reported at the first visit at which its cache row has reached the cache
  age, and not before (`ScanCache.LossIsBounded`, `ScanCache.LostPayloadDelaysAnalysis`).
- A cancellation is not cleared when the next scan starts, only by a scan command (`Sync.CancelStandsIff`).
- A session minted in the very second of a password change survives it (`Auth.ChangeEndsSessionsIff`). A
  restart that cannot read the saved changes revives every ended session that has not expired
  (`Auth.RevivesIff`).
- The order of an inventory shows in the findings exactly when two different drafts of it share a key that
  is new; only descriptions differ then (`Policy.OrderMattersIff`, `Policy.OrderKeepsCores`).
- A public-key algorithm is reported as classical exactly when its name or its family holds one of a few
  texts (`Policy.ReportedClassicalIff`). DSA in the name is one of them, so every ML-DSA and SLH-DSA
  signature is reported (`Policy.PostQuantumIsReported`).
- The fleet can score above every one of its hosts; exactly when its sums beat the thresholds of the level
  after the best host's (`Scorecard.FleetExceedsBestIff`, and three hosts in
  `Scorecard.FleetCanExceedEveryHost`). The dashboard passes no service counts, and as it calls the code
  every level is 0, the fleet's included (`Scorecard.Dashboard`).

## Model

| member | source | states |
|---|---|---|
| Lexer.Turn | agent/src/discovery/source.rs:128-275 | one turn of the loop over the five flags is one move of the automaton; at most one mode flag is ever set |
| Lexer.StripCommentsAndStrings | agent/src/discovery/source.rs:83-278 | the flag loop computes the automaton's output for every text and extension |
| Lexer.StripComments | agent/src/discovery/sidechannel.rs:235-422 | the second copy computes the same automaton, with its own rule for when strings are stripped |
| Lexer.StripMasks | agent/src/discovery/source.rs:83-278 | the output has the input's length; each character is kept or becomes a space; no CR or LF is blanked |
| Lexer.StrippedLinesPair | agent/src/discovery/source.rs:419-435 | raw and stripped text have the same number of lines, and each stripped line masks the raw line it is zipped with |
| Lexer.StripIdempotent | agent/src/discovery/source.rs:83-278 | stripping twice is stripping once, for every text and dialect |
| Lexer.CopiesAgreeIff | agent/src/discovery/sidechannel.rs:235-422 | the two copies agree on every text if and only if the extension is not yaml, yml, toml, conf, cnf or xml |
| Lexer.StripsExactlyTheTokens | agent/src/discovery/source.rs:83-278 | for any printed sequence of code, comments and strings, exactly the comments and strings are blanked |
| Lexer.SlashComments | agent/src/discovery/source.rs:99-118 | in both copies `//` to the end of the line goes in exactly eighteen named extensions, and stays as code in all others |
| Lexer.BlockComments | agent/src/discovery/source.rs:99-118 | the same for `/*` to `*/`, over any number of lines |
| Lexer.HashComments | agent/src/discovery/source.rs:119-122 | `#` to the end of the line goes in py, rb, sh, and for the first copy in yaml, yml, toml, conf, cnf; it stays in all others |
| Lexer.XmlComments | agent/src/discovery/source.rs:123 | `<!--` to `-->` goes in xml and stays in all others |
| Lexer.TripleQuotes | agent/src/discovery/source.rs:83-278 | in py a triple-quoted text goes, over any number of lines |
| Lexer.QuotedValues | agent/src/discovery/source.rs:124-126 | a quoted value stays exactly in the six configuration formats for the first copy, and nowhere for the second |
| Lexer.BacktickQuotes | agent/src/discovery/sidechannel.rs:235-422 | a text in backticks goes exactly in the eighteen extensions |
| Lexer.LineLocalIff | agent/src/discovery/source.rs:83-278 | at a line end, stripping splits into before and after if and only if the automaton is in its start state, backslash flag included |
| Lexer.BackslashLeaksAcrossLines | agent/src/discovery/source.rs:83-278 | a concrete two-line text on which the uncleared backslash flag hides code |
| ServerHello.ExtractNamedGroup | agent/src/discovery/network.rs:565-629 | in bounds and terminating on every byte string; the loops compute the record, message and extension walk |
| ServerHello.GroupWasThere | agent/src/discovery/network.rs:565-629 | a returned group is the group of a key_share extension of a ServerHello in a handshake record found in the bytes |
| ServerHello.ExtractsPrintedGroup | agent/src/discovery/network.rs:565-629 | a printed ServerHello (sections 4.1.3 and 4.2.8 of RFC 8446) yields its group for any session id, other messages, surrounding extensions and trailing bytes |
| Tlv.FoldLength | agent/src/discovery/network.rs:651-655 | the length loop computes the big-endian value modulo 2^64 |
| Tlv.ReadElements | agent/src/discovery/network.rs:636-670 | terminates in bounds on every byte string and returns the elements of the recursive reader |
| Tlv.ReadUndoesTile | agent/src/discovery/network.rs:636-670 | read(encode(es) + rest) = es + read(rest) for any accepted length forms |
| Tlv.ReadUndoesDerAll | agent/src/discovery/network.rs:636-670 | the same for the shortest definite length forms (section 8.1.3 of X.690) |
| Tlv.ElementsTileAPrefix | agent/src/discovery/network.rs:636-670 | on arbitrary bytes the returned slices, each after a header that announces it, tile a prefix of the input in order, and the remainder reads as nothing |
| CertTime.ParseTime | agent/src/discovery/network.rs:744-798 | every input is parsed without overflow to the seconds of the closed form |
| CertTime.CountDays | agent/src/discovery/network.rs:770-790 | the year and month loops equal the closed form of the calendar and stay within 32 bits |
| CertTime.GregorianMonths | agent/src/discovery/network.rs:770-790 | the months have their lengths, February by the Gregorian leap rule |
| CertTime.NoTimeIsZero | agent/src/discovery/network.rs:744-765 | text that is not ASCII or too short reads as second zero |
| CertTime.GarbledFields | agent/src/discovery/network.rs:744-768 | a field that is no number reads as month 1, day 1, and zero otherwise |
| CertTime.NumberSigns | agent/src/discovery/network.rs:744-768 | a number may carry a sign |
| CertTime.NextDayCounts | agent/src/discovery/network.rs:770-798 | the closed form is the proleptic Gregorian day count: the day after is one more |
| CertTime.SecondsIncrease | agent/src/discovery/network.rs:744-798 | seconds are strictly increasing in year, month, day, hour, minute, second |
| CertTime.FromUnixInverts | agent/src/discovery/network.rs:744-798 | the inverse conversion gives a valid date and time of exactly those seconds |
| CertTime.FromUnixUnique | agent/src/discovery/network.rs:744-798 | from 1970 on, converting back gives the same date and time |
| CertTime.CenturyWindow | agent/src/discovery/network.rs:744-765 | two-digit years are read as section 4.1.2.5.1 of RFC 5280 says, 1950 to 2049 |
| CertTime.GeneralizedTimeIff | agent/src/discovery/network.rs:744-798 | a printed GeneralizedTime parses to its calendar seconds if and only if the year is 1970 or later |
| CertTime.ParseUndoesPrint | agent/src/discovery/network.rs:744-798 | every second from 1970 to the end of year 9999, printed as a GeneralizedTime, parses back to itself |
| CertTime.UtcTimeIff | agent/src/discovery/network.rs:744-798 | the same for a printed UTCTime |
| Certificate.ParseNotAfter | agent/src/discovery/network.rs:672-712 | the nested walk with its optional fields computes the expiry function |
| Certificate.NotAfterOfPrinted | agent/src/discovery/network.rs:672-712 | of a printed certificate, with or without a version and whatever follows, exactly the second time of its validity is read |
| Certificate.ExpiryOfPrinted | agent/src/discovery/network.rs:672-798 | a certificate expiring between 1970 and 2049 yields its expiry second |
| Paths.BackupNeverAdmitted | agent/src/mutation.rs:245-292 | the backup path is never a configuration path the allowlist admits, whatever the command id holds |
| Paths.EndingIsAdmittedIff | agent/src/mutation.rs:245-275 | a file with an ending, after something, is admitted if and only if the ending is one of ten, in any case |
| Paths.BareNameIsAdmittedIff | agent/src/mutation.rs:256-266 | a file without a dot is admitted if and only if it is sshd_config or ssh_config |
| Paths.HiddenIsNotAdmitted | agent/src/mutation.rs:256-266 | a hidden file without a further dot is not |
| Paths.BackupStands | agent/src/mutation.rs:284-292 | for a command id without slashes the backup lies right in the backup directory, with the file's name made safe character by character |
| Paths.TempApart | agent/src/mutation.rs:284-292 | the temporary file of a write is neither the backup nor an admitted configuration |
| Paths.BackupsCoincideIff | agent/src/mutation.rs:284-292 | two backups are one file if and only if safe file name and command id join to the same text |
| Paths.DotFreeBackupsIff | agent/src/mutation.rs:284-292 | for command ids without a dot, if and only if ids and safe file names are equal |
| FileSystem.Disk.FillTemp | agent/src/mutation.rs:533-555 | creating, filling and syncing the temporary file touches no other path at any step; an existing one fails the write |
| FileSystem.Disk.Publish | agent/src/mutation.rs:556-584 | the rename and the directory sync: at every step the target is the old or the new file |
| FileSystem.Disk.AtomicWrite | agent/src/mutation.rs:527-564 | stopping at any point leaves the target with all old or all new bytes; success means new bytes and no temporary file; with a fresh temporary name no other path changes |
| Migration.CheckConfigPath | agent/src/mutation.rs:233-282 | a path is admitted if and only if it resolves, the allowlist admits it, and it lies under an allowed root met before any root that fails to resolve |
| Migration.RefusalIff | agent/src/mutation.rs:49-80 | a command is not refused if and only if the agent is active, the command's age is within the limit if there is one, its service is allowed and is nginx, apache or ssh, and its directive is verified |
| Migration.Service.ValidateWith | agent/src/mutation.rs:294-345 | the validators of the service are run in order up to the first success; the result is that of the last one run |
| Migration.Service.ReloadWith | agent/src/mutation.rs:309-345 | the same for the reloaders; a success has loaded the given content |
| Migration.Launch | agent/src/mutation.rs:127-146 | validate, reload, TLS check where there is a TLS target, up to the first failure, which is named; what the service has loaded after each of them |
| Migration.UntouchedIsSafe | agent/src/mutation.rs:106-123 | before the write a crash shows the original |
| Migration.GuardedIsSafe | agent/src/mutation.rs:122-163 | once the backup is permanent, a crash at any step shows the original or the patched file whole, and the backup holds the original |
| Migration.GuardedStep | agent/src/mutation.rs:527-572 | every step of writing or restoring the configuration keeps that state |
| Migration.BackUp | agent/src/mutation.rs:120-123 | success means the original is permanent in the backup; the configuration is untouched throughout |
| Migration.Decide | agent/src/mutation.rs:81-118 | the checks before any change end the command with exactly the verdict; `VerdictIff` says what that is |
| Migration.VerdictIff | agent/src/mutation.rs:78-118 | what goes on, and what ends as a dry run, are the commands on an admitted text file under an allowed root whose patch applies and whose first checksum entry, if it holds one, is the file's; the dry-run field tells the two apart |
| Migration.DriftedOrAgrees | agent/src/mutation.rs:84-104 | a file has drifted if and only if the first checksum entry, its markers removed, is not empty and differs from the file's checksum |
| Migration.DriftedIff | agent/src/mutation.rs:84-104 | for a checklist the controller built, drift is a difference from the checksum it was given, and nothing is drift without one |
| Migration.WriteConfig | agent/src/mutation.rs:124-125 | success means the whole new content is in place and permanent, with the mode of its source |
| Migration.RollbackFile | agent/src/mutation.rs:566-572 | success means the original content is in place and permanent |
| Migration.Change | agent/src/mutation.rs:124-163 | writing the patched file and settling, with the backup in place at every step |
| Migration.RestoreAndReload | agent/src/mutation.rs:132-156 | a reload or TLS failure restores the file, then reloads; the report says how far that came |
| Migration.StoryDetermines | agent/src/mutation.rs:127-163 | the report is a success if and only if validation, reload and TLS check all went well; otherwise the events and whether the file was restored determine which failure it names |
| Migration.Settle | agent/src/mutation.rs:127-163 | success only if every step succeeded; any trouble restores the file; the file and the loaded configuration of every outcome, failed rollbacks and failed second reloads included |
| Migration.Apply | agent/src/mutation.rs:120-163 | the whole transaction under the write-ahead invariant at every step |
| Migration.Transact | agent/src/mutation.rs:81-163 | the invariant in terms of crash outcomes: wholly original or wholly patched, and the backup holds the original whenever the configuration may be found patched |
| Migration.Execute | agent/src/mutation.rs:49-163 | one command from gate to outcome: whatever changes disk or service, runs an adapter or checks TLS is no dry run, passed the gate, was verified and signed up to mistakable texts, and concerns a changeable file; on a disk that does not fail such a command ends as a dry run if and only if it is one; success has the patched content on disk and loaded, the service's own checker and reloader, and a TLS check if some target is not on port 80; every failure says what is on disk and what the service may be running |
| Migration.AdmittedWasSigned | agent/src/mutation.rs:49-80 | a command that passes the gate is identified with a signed one |
| Migration.ReplayReplacesBackup | agent/src/mutation.rs:120-123 | a second transaction with the same backup saves the patched file over the original |
| Registry.UndoAt | agent/src/mutation.rs:670-703 | after the undo a touched key holds its old DWORD, or what the text search found for a value of another type, or nothing; any other key what it held |
| Registry.UndoRestoresIff | agent/src/mutation.rs:478-510 | for any change list, repeated keys included, and any values after the writes, undoing restores every value and every absence if and only if no touched key held a value of another type |
| Registry.Hive.Rollback | agent/src/mutation.rs:670-703 | if every command runs, the reverse loop computes the undo; it touches no other key |
| Registry.Hive.Commit | agent/src/mutation.rs:478-510 | snapshot, writes up to the first failure, optional TLS check, undo: the registry of each outcome |
| Registry.Hive.ApplyPolicy | agent/src/mutation.rs:454-517 | the transaction with its validation and dry run: the changes admitted are the two switches under the Schannel key, on or off; when it applies, and the exact condition for a clean failure to restore the registry |
| Commands.CanonicalInjective | agent/src/mutation.rs:765-783 | with newline-free leading fields on both sides, equal texts mean equal commands, field by field, for any patch |
| Commands.TextInjective | agent/src/mutation.rs:765-783 | a text with newline-free leading fields gives back every field, the checklist as it is written, whoever wrote it |
| Commands.JsonInjective | agent/src/mutation.rs:765-783 | the checklist's string-array form (section 7 of RFC 8259) is injective |
| Commands.EscapesRead | agent/src/mutation.rs:765-783 | a reader of JSON strings (section 7 of RFC 8259) gets back what the agent's encoder escaped |
| Commands.ServerEscapesRead | server/internal/orchestrator/orchestrator.go:229-245 | and what the controller's encoder escaped: where the two texts differ they mean the same |
| Commands.NumbersAndTruthValues | agent/src/mutation.rs:765-783 | numbers are written in decimal without leading zeros, truth values as true and false |
| Commands.ChecklistIs | server/internal/orchestrator/orchestrator.go:118-121 | the four fixed checklist entries, and the checksum entry if there is a checksum |
| Commands.SharesTextIff | agent/src/mutation.rs:765-783 | some other command has the same text if and only if a leading field holds a line break or the patch is ambiguous, for every command |
| Commands.ShiftedCollides | agent/src/mutation.rs:765-783 | the command that collides, given the split of the patch, whatever the leading fields hold and however the checklist is written |
| Commands.BrokenCollides | agent/src/mutation.rs:765-783 | a command with a line break in a leading field shares its text with one whose fields are cut there instead |
| Commands.ServerJsonIff | server/internal/orchestrator/orchestrator.go:229-245 | the controller's encoder writes what the agent's writes for some list if and only if it has that very list, not nil and free of the five escaped characters |
| Commands.CanonicalsAgreeIff | server/internal/orchestrator/orchestrator.go:229-245 | the controller signs the text the agent checks exactly in that case |
| Commands.BuiltIsPlainIff | server/internal/orchestrator/orchestrator.go:109-138 | of the checklists the controller builds, those both sides write alike are those whose checksum is free of the five characters |
| Commands.SignedReadsAsItself | server/internal/orchestrator/orchestrator.go:229-245 | in what is signed for a command with newline-free leading fields and an unambiguous patch, whatever its checklist, the agent reads no other command |
| Commands.SignedMistakenIff | server/internal/orchestrator/orchestrator.go:229-245 | the agent reads some other command there if and only if the patch is ambiguous, or, with a line break in a leading field, the checklist is plain or the text can be read as a command |
| Commands.RejectedAndAccepted | server/internal/orchestrator/orchestrator.go:229-245 | two commands: what is signed for the first is the text of the second and not its own |
| Envelope.AcceptedWasSigned | agent/src/command_sig.rs:31-117 | with an ideal keyed hash, an accepted command was signed field by field, or reads what was signed for a command that has an ambiguous patch or a line break in a leading field, whatever checklists were signed |
| Envelope.DirectiveIdentifiesIff | agent/src/mutation.rs:165-200 | one directive admits one command if and only if that command's leading fields hold no line break and its patch is unambiguous |
| Envelope.PinnedCarriesSignature | agent/src/command_sig.rs:31-76 | with a pinned fingerprint, acceptance also carries a signature under a key of that fingerprint |
| Envelope.RootCarriesSignature | agent/src/command_sig.rs:78-117 | with a root certificate, acceptance also carries a signature under a key the root vouches for |
| Envelope.FingerprintBinds | agent/src/mutation.rs:187-199 | with no root set and a fingerprint that is not blank, acceptance exhibits a key and a signature by it, and for a fingerprint without outer white space the key is of that fingerprint |
| Envelope.RootBinds | agent/src/mutation.rs:168-187 | with a root set, acceptance exhibits a version 2 envelope and a leaf that the root at that path vouches for |
| Envelope.NoDowngrade | agent/src/command_sig.rs:56-63 | with either set, a directive of one line is never accepted |
| Envelope.BareHashSuffices | agent/src/command_sig.rs:31-63 | with neither set, a directive of one line is accepted if and only if it is the keyed hash |
| Envelope.HashIsPresented | agent/src/command_sig.rs:31-117 | every accepted directive is the keyed hash of the command's text, or a header with exactly three lines of which it is the first |
| Envelope.KeyGuards | agent/src/command_sig.rs:139-180 | the lengths of key and signature, and that neither is all zero |
| Envelope.SignedIsAcceptedIff | server/internal/orchestrator/orchestrator.go:154-191 | what the controller signs, in each of its three modes, the agent accepts if and only if no checklist entry holds one of the five escaped characters |
| Envelope.SignedForAnotherIff | server/internal/orchestrator/orchestrator.go:154-191 | what the controller signs for a command the agent accepts for some other command exactly in the cases of the mistaken text, accepted for its own or not |
| Storage.OfflineStore.UnchangedAndFresh | agent/src/storage.rs:110-139 | skip if and only if the query ran and the row has this hash and is younger than the cache age; a reliable store runs it |
| Storage.OfflineStore.UpsertScanState | agent/src/storage.rs:141-154 | success replaces the row, failure changes nothing |
| Storage.OfflineStore.PurgeStaleScanState | agent/src/storage.rs:156-171 | no walked path is dropped and no row changed; success leaves only walked paths |
| Storage.OfflineStore.EnqueuePayload | agent/src/storage.rs:194-203 | success adds the row under its id, failure changes nothing |
| Storage.OfflineStore.PendingPayloads | agent/src/storage.rs:205-222 | at most the limit of rows, distinct, oldest first, and none left behind is older than one returned |
| Storage.OfflineStore.DeletePayload | agent/src/storage.rs:224-231 | success removes exactly that id |
| ScanCache.VisitEntry | agent/src/discovery/source.rs:344-360 | one file: skipped if fresh, else its hash is recorded before it is parsed; a skip leaves its timestamp |
| ScanCache.Scan | agent/src/discovery/source.rs:287-635 | the walk with its cache writes, its components and its purge |
| ScanCache.WalkCovers | agent/src/discovery/source.rs:344-360 | over one walk, the reports of the skipping scan and of a full scan lead to the same view, and the new cache is covered by it |
| ScanCache.ForcedReportsAll | agent/src/main.rs:282-303 | a forced scan skips nothing and reports everything |
| ScanCache.IncrementalEqualsFull | agent/src/discovery/source.rs:344-360 | in every run of full, targeted and cancelled scans over files edited in any way, the last word of the incremental payloads on each file is that of full scans |
| ScanCache.EverySkipIsRecent | agent/src/storage.rs:110-139 | at every skip of every run, the same content of the same file was parsed less than the cache age before |
| ScanCache.SkippingIsSafeIff | agent/src/discovery/source.rs:344-360 | from a given cache and view, all skipping walks leave the view full walks would if and only if the view covers the cache |
| ScanCache.LostPayloadUncoversIff | agent/src/main.rs:282-303 | a parsed file whose payload is never queued leaves the cache covered if and only if the view already had its analysis |
| ScanCache.FailedWriteUncoversIff | agent/src/discovery/source.rs:350-360 | a parsed file whose cache write fails leaves the cache covered if and only if the old row's content has the reported analysis, or one of the two has none |
| ScanCache.LossIsBounded | agent/src/storage.rs:110-139 | a visit to a file whose row has reached the cache age reports its analysis, whatever was lost before |
| ScanCache.LostPayloadDelaysAnalysis | agent/src/main.rs:282-303 | a first scan that never reaches the queue: the file is passed over until its row has the cache age and reported at any later visit |
| ScanCache.FailedWriteLosesAnalysis | agent/src/discovery/source.rs:350-360 | a failed cache write: within the cache age a reverted file is skipped although the last report says otherwise |
| Delivery.AtLeastOnce | agent/src/comms.rs:239-322 | over all interleavings and failures, every payload ever queued is still queued or was inserted, and nothing else was inserted |
| Delivery.RunKeepsInv | agent/src/comms.rs:239-322 | what every step of agent and server keeps |
| Delivery.BatchIsStretch | agent/src/storage.rs:205-222 | the ordered query returns the stretch of the log at the queue's head |
| Delivery.InOrder | agent/src/comms.rs:239-322 | with increasing creation times, the server has inserted a prefix of the log in order, each payload once, and the queue holds a suffix that overlaps or meets it |
| Delivery.OvertakingRun | agent/src/storage.rs:205-209 | for any log with two neighbours whose creation times do not increase, a run that delivers the second before the first |
| Delivery.InOrderIff | agent/src/comms.rs:239-322 | every run that queues a given log inserts a prefix of it in order if and only if the creation times increase strictly |
| Sync.ScanControl.HandleCommands | agent/src/comms.rs:251-307 | one report for each command in order; a scan is requested if and only if a scan verb came |
| Sync.CancelStandsIff | agent/src/comms.rs:260-287 | after any commands a cancellation stands if and only if no scan was started since |
| Sync.PauseStandsIff | agent/src/comms.rs:260-287 | a pause stands if and only if no resuming or starting command came since |
| Sync.RootIsLastTarget | agent/src/comms.rs:264-273 | the root of the next scan is that of the last targeted scan with a path |
| Sync.Controller.StreamTelemetry | server/internal/grpcserver/server.go:178-255 | the server's loop, broken anywhere, is a run of insert steps; it ends well only with the whole batch inserted, and does so when nothing fails and every payload names its host |
| Sync.DeleteBatch | agent/src/comms.rs:320-322 | the delete loop is a run of delete steps; success removes exactly the batch |
| Sync.Exchange | agent/src/comms.rs:241-322 | stream, commands, reports and deletes as a run of the delivery machine, whatever fails; success has reported on every command in order |
| Sync.SyncOnce | agent/src/comms.rs:225-350 | every outcome of a sync is a run of the delivery machine; success removes exactly a batch of the 256 oldest and reports on every command; no outcome adds or changes a row; it succeeds when nothing fails |
| Sync.Drain | agent/src/comms.rs:239-322 | n pending payloads shrink to at most max(0, n - 256k) after k successful syncs, failed ones between them included |
| EndToEnd.ViewIsAPrefix | agent/src/main.rs:282-312 | with increasing creation times, at every moment of every run, the last word of the inserted payloads on each file is that of full scans of the first n jobs, and n is all of them when the queue is empty |
| EndToEnd.NothingIsLost | agent/src/main.rs:282-312 | whatever the clock does, for every file full scans would have reported, the last payload that mentions it carries that analysis and is queued or was inserted |
| Readers.SkippingAddsAllIff | agent/src/discovery/source.rs:344-360 | all skipping walks add to what was ever reported what full walks would if and only if what is cached was reported |
| Readers.EverIsFull | agent/src/discovery/source.rs:344-360 | in every run, whatever cache writes fail, the incremental payloads say altogether exactly what those of full scans would |
| Readers.RunIsComplete | server/internal/store/store.go:1275-1307 | at every moment of every run of scans and deliveries, whatever the clock does, all that full scans would have reported is inserted or queued, and nothing else is inserted |
| Readers.LatestIsFullIff | server/internal/store/store.go:2014-2040 | a walk's payload has the components, and the number of components, of a full scan if and only if no file with an analysis was skipped |
| Readers.LatestInsertedIsFullIff | server/internal/store/store.go:2014-2040 | in every run, the payload inserted last is some job's, and has all its components if and only if that job skipped no file with an analysis |
| Readers.DriftIsSeenIff | server/internal/store/store.go:1479-1498 | a command built from the latest payload is stopped for drift if and only if the walk parsed the configuration, found something in it, and the file differs from what was read |
| Daemon.Cycle | agent/src/main.rs:282-312 | scan, enqueue, sync is one job and one run; a failed enqueue ends the daemon |
| Daemon.Loop | agent/src/main.rs:219-362 | the loop from a fresh installation yields a run of jobs and deliveries; whatever cache writes fail, the inserted and queued payloads say all that full scans would; if every cache write of the jobs succeeded, as with a reliable store, so does the last word on each file, whatever the clock does |
| RateLimit.Limiter.Sweep | server/internal/httpapi/features.go:408-414 | exactly the expired windows go |
| RateLimit.Limiter.Handle | server/internal/httpapi/features.go:398-430 | each decision is that of the limiter that never evicts, on the whole history; above 4096 windows only live ones stay |
| RateLimit.MinuteBound | server/internal/httpapi/features.go:389-431 | in any closed 60 seconds a client gets at most 2 max - 1 requests through, whatever others do; none if the limit is not positive |
| RateLimit.BoundIsReached | server/internal/httpapi/features.go:389-431 | the bound is reached for every positive limit |
| Circuit.StreakIsFailedLast | server/internal/grpcserver/server.go:37-51 | the failure count is at least n if and only if the URL's last n deliveries failed |
| Circuit.WebhookCircuit.RecordFailure | server/internal/grpcserver/server.go:37-44 | both tables go on summarising the history |
| Circuit.WebhookCircuit.RecordSuccess | server/internal/grpcserver/server.go:46-51 | both tables go on summarising the history |
| Circuit.WebhookCircuit.CheckOpen | server/internal/grpcserver/server.go:53-60 | open if and only if the URL's last five deliveries failed and the latest is less than 60 seconds old |
| Circuit.WebhookCircuit.Deliver | server/internal/grpcserver/server.go:410-448 | an event succeeds if and only if one of three attempts does, and no attempt follows a success |
| Circuit.WebhookCircuit.Dispatch | server/internal/grpcserver/server.go:398-460 | an open circuit sends and records nothing; otherwise every event is tried until it succeeds or three times, with exactly one record each, in order |
| Circuit.HalfOpen | server/internal/grpcserver/server.go:37-60 | after the cooldown one failure reopens at once and one success closes |
| Circuit.OthersDoNotMatter | server/internal/grpcserver/server.go:31-60 | deliveries to other URLs open and close nothing |
| Auth.Lifetime | server/internal/httpapi/auth.go:59-73 | token lifetimes lie between 5 minutes and 720 hours, and any configured value in that range is used |
| Auth.AcceptedIff | server/internal/httpapi/auth.go:112-149 | a token is accepted with given claims if and only if it is, character for character, one minted with them, and has not expired |
| Auth.Api.Login | server/internal/httpapi/auth.go:333-395 | a token is minted if and only if the first credential of that name exists and the password matches its saved hash, or the configured one if none can be read; its claims are the user, the credential's role and tenant, the second of the login and that of the end of the lifetime |
| Auth.SessionLaw | server/internal/httpapi/auth.go:76-149 | the token of a login passes if and only if the lifetime is not over and the user's cutoff is not later than the second of the login, and stands for those claims alone |
| Auth.BearerIff | server/internal/httpapi/auth.go:197-207 | which header carries which token |
| Auth.Api.Authorize | server/internal/httpapi/auth.go:203-231 | a request passes if and only if it carries a minted token that is unexpired and not older than its user's cutoff in memory, and it acts with exactly the minted claims; while every change is known there, these are the live sessions |
| Auth.Api.ChangePassword | server/internal/httpapi/auth_password.go:79-142 | success saves a hash that matches the new password, and at 72 characters what extends it, and advances the cutoff; any other outcome changes nothing; the outcome when no call fails, a new password too long to be hashed included |
| Auth.Api.ExpectedIff | server/internal/httpapi/auth_password.go:59-142 | a change goes through if and only if a named user gives the current password, saved or else configured, and a different new one of 12 to 72 characters |
| Auth.Api.Restart | server/internal/httpapi/server.go:78-86 | if the saved changes can be read, a restart changes no decision; if not, every cutoff is lost |
| Auth.RevivesIff | server/internal/httpapi/auth.go:215-220 | an ended session passes again if and only if it has not expired and the table has no cutoff later than its minting; with an empty table every unexpired one does |
| Auth.ChangeEndsSessionsIff | server/internal/httpapi/auth_password.go:129-134 | an earlier session is live after a password change if and only if it was minted in the second of the change |
| Auth.OthersKeepSessions | server/internal/httpapi/auth.go:215-220 | only the user's own changes end a session |
| Policy.FindEvidenceIds | agent/src/policy.rs:20-41 | the loop collects the ids that the selection lemma speaks of |
| Policy.EvidenceIdsSelect | agent/src/policy.rs:20-41 | the ids are those at the strictly increasing positions of all the evidence that concerns the asset, and of no other |
| Policy.Assessment.PushFinding | agent/src/policy.rs:271-300 | a draft is appended unless its rule, asset and algorithm are there |
| Policy.Assessment.AssessAlgorithm | agent/src/policy.rs:43-189 | the rules of one algorithm with its early return |
| Policy.Assessment.AssessNetwork | agent/src/policy.rs:191-268 | the rules of one observation with its early return |
| Policy.Assessment.Assess | agent/src/policy.rs:7-18 | the nested loops push every draft, components first |
| Policy.PushExtends | agent/src/policy.rs:271-300 | earlier findings stay an unchanged prefix; what is added is drafted and repeats no key; every drafted key ends up present |
| Policy.AssessmentIff | agent/src/policy.rs:7-268 | over the fields of the whole inventory and all observations: a rule is reported of an asset and an algorithm if and only if it was before, or some algorithm or observation is a sign of it |
| Policy.ObservationFindingsIff | agent/src/policy.rs:191-268 | the same for one observation: cleartext alone, or an old version, a key exchange without ML-KEM, a classical certificate signature, each on its own sign |
| Policy.AlgorithmFindingsIff | agent/src/policy.rs:43-189 | the same for one algorithm: one of three public-key rules by role and key size, or else four independent rules |
| Policy.NewFindingsAreRated | agent/src/policy.rs:43-268 | every new finding has its rule's severity, profile and description |
| Policy.ConcernsIff | agent/src/policy.rs:20-41 | which evidence concerns an asset named by a scheme and a path |
| Policy.AssessIdempotent | agent/src/policy.rs:7-18 | a second assessment appends nothing |
| Policy.StaysDistinct | agent/src/policy.rs:282-288 | assessing adds no duplicate rule, asset and algorithm |
| Policy.OrderKeepsCores | agent/src/policy.rs:7-268 | any order, grouping or repetition of the same inventory gives the same findings but for their descriptions |
| Policy.FirstDraftWins | agent/src/policy.rs:282-288 | the finding of a new key is the first draft of that key, and the only one |
| Policy.OrderMattersIff | agent/src/policy.rs:7-300 | every rearrangement of an inventory gives the same findings, descriptions included, if and only if no two different drafts of it share a new key |
| Policy.DescriptionNamesTheFirst | agent/src/policy.rs:78-86 | two short RSA keys in one component: two such drafts, and the description names the first listed |
| Policy.ReportedClassicalIff | agent/src/policy.rs:43-113 | a public-key algorithm is reported as classical if and only if its name holds RSA, DH or DSA or its family holds RSA, ECC, ECDH, DIFFIE or DSA, in any case |
| Policy.DsaNamesAreReported | agent/src/policy.rs:43-113 | a signature whose name holds DSA gets exactly the classical finding, whatever its family; the rule depends on RSA in the name and the key size |
| Policy.PostQuantumIsReported | agent/src/policy.rs:50-77 | so do signatures whose name ends in DSA, as the scanners' ML-DSA and SLH-DSA do |
| Scorecard.AssetsAtMostFindings | server/internal/agility/scorecard.go:94-113 | distinct assets per algorithm never exceed the findings |
| Scorecard.ComputeScorecard | server/internal/agility/scorecard.go:65-130 | the shares are what they are named for, the clamp changes nothing, and without service counts the level is 0 |
| Scorecard.LargestRadiusBounds | server/internal/agility/scorecard.go:152-156 | the merged radius of an algorithm is the largest any host reports |
| Scorecard.ReachesIff | server/internal/agility/scorecard.go:197-224 | a level is reached if and only if both its thresholds are met |
| Scorecard.MaturityIff | server/internal/agility/scorecard.go:197-224 | the thresholds of the four levels |
| Scorecard.SourceIff | server/internal/agility/scorecard.go:226-238 | which assets count as source |
| Scorecard.FleetReaches | server/internal/agility/scorecard.go:133-174 | the averages reach every level that all hosts have |
| Scorecard.ComputeFleetScorecard | server/internal/agility/scorecard.go:133-174 | averages, largest radii, and a level that is at least the least host level |
| Scorecard.FleetLevelIff | server/internal/agility/scorecard.go:133-224 | the fleet reaches a level if and only if its sums beat that level's thresholds times the number of hosts |
| Scorecard.FleetExceedsBestIff | server/internal/agility/scorecard.go:133-224 | the fleet scores above its best host if and only if its sums beat the thresholds of the next level |
| Scorecard.NoCoverageNoLevel | server/internal/agility/scorecard.go:133-224 | hosts without counted services put the fleet at level 0, whatever was found |
| Scorecard.Dashboard | server/internal/httpapi/agility_waves.go:119-129 | as the dashboard calls the code, every host and the fleet are at level 0 |
| Scorecard.FleetCanExceedEveryHost | server/internal/agility/scorecard.go:65-174 | three hosts' cards, computed from findings and service counts, each at level 0, whose averages reach level 1 |

## Left out

- Lexer.StripComments: both copies of the loop are modelled by one loop; that the second copy's text is the first's with another dialect was established by reading.
- Circuit.WebhookCircuit.Dispatch: assumes one dispatcher at a time; the server runs one goroutine for each payload, so the records of one URL may interleave and attempts already under way are made although the circuit has opened meanwhile.
- Policy.OrderKeepsCores: leaves out the random finding ids, and titles and descriptions are kept as their rule and their inserted values, not as text.
- Scorecard.ComputeScorecard: exact reals instead of floating point, so thresholds that rounding could cross are not modelled; adoption latency is not computed.
- Auth.Api.ChangePassword: a failed store call changes nothing, and the database's clock is the server's; a replica that did not serve the change is not modelled.
- Registry.Hive.ReadDword: what the text search finds for a value of another type is a parameter of that value; a key path that itself holds the type name is not modelled.
- Auth.Sound: passwords hold no zero characters, which the hash may confuse with the end of a shorter one.
- Readers.RunIsComplete: one host; the findings table's key leaves the host out, and the columns that a payload sent again overwrites (severity, title, description) are not modelled, nor closing a finding by hand.
- Readers.DriftIsSeenIff: evidence of the other scanners about the same path.
- Daemon.Loop: starts from a fresh installation; a crash between cache writes and enqueue is the case of `ScanCache.LostPayloadUncoversIff`.
- The engine's build for other systems than Windows: services that need Windows end in an error there; the registry model is the Windows build. Certificate import into Windows stores is left out.
- Directory creation is assumed permanent when it succeeds; file names are text, without symbolic links, backslash separators, repeated slashes or dot components.
- Adapters (validators and reloaders) are assumed not to write the configuration file, and the TLS check is one nondeterministic result.
- The transaction's invariant at crashes is stated for a configuration that is itself permanent when the transaction starts.
- Lengths in the policy's evidence match, in the password rule and in the limit on hashed passwords count characters where the source counts bytes; they agree on ASCII.
- Commands in a stream are handled after the stream's inserts in the model; in the source the two interleave without sharing state.
- Whether the dashboard is used without authentication, the public paths, agent tokens and web-socket tickets.
- Pattern tables, redaction, reports, the user interface, Windows collectors, and the binary, runtime and plugin scanners: tables and plumbing.
- Server storage, the orchestrator's queue and the wave planner, except for the signer and the canonical text.
- Heartbeats and the polled scan commands between scans.
