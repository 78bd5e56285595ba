# kei in Dafny: redaction, crash-safe files, selectors, configuration, retries, reporting

kei copies an iCloud photo library to disk. This project models the parts of it
whose correctness spans more than one function, and proves what they promise.

**The log redactor** (`Search`, `Streaming`, `Redaction`, `MaskSafety`,
`FlushSafety`, `LogWriter`). Log bytes arrive in arbitrary chunks; the password
must not reach the inner writer, even when it is split across writes.
`Streaming.Replace` is the one-shot reference. The writer's in-place buffer and
scanning loop are proved against `Redaction.Step`, and runs of `Step` against the
reference. Hiding has two exact limits. `MaskSafety`: a password that begins or
ends with `*`, or holds eight stars in a row, can reappear out of the mask; every
other password is hidden on every run of writes. `FlushSafety`: a flush between
two bytes of a password lets it through; a run of writes and flushes shows a safe
password only across a flush, and only one-byte passwords are hidden on all runs.

**Crash-safe files** (`Machine`, `CrashFs`, `Crashes`, `Kernels`, `AtomicInstall`,
`CredentialWrite`). The disk has a volatile and a durable side; every system call
may fail, writes happen in pieces, and the power may go after any of them. A kernel
object records every such moment in `trail` and every request in `calls`. The
documentation of the credential writer (src/credential.rs:369-377) reads as if
success were durable; the code only logs when the closing directory sync fails, and
the model follows the code: success is durable exactly when no warning was logged.
Old-or-new holds when a left-over temporary is not a second name of the file it
protects; `Crashes.TruncationSafeIff` shows that the first step of the writing
already needs it, except where nothing at the protected path was synced to begin
with. An installation that succeeds by its first rename never touches its sibling
and needs no such condition. A crash that tears a rename in two, leaving the file
under both names, breaks old-or-new for the next write; where crashes keep renames
whole, programs that call the writer or the installer over and over, and are stopped
after each call in any state it went through, keep it for good.

**Paths** (`Paths`, `ConfinedOpen`). The lexical normaliser; and the descent that
opens a regular file below a root without following links while the tree changes
underneath, with the removal it guards set against a removal that walks the path
again.

**Selectors** (`Text`, `Ordering`, `SelectorGrammar`, `SelectorLists`,
`SelectorPrinting`, `Selection`, `SelectionMeaning`). Three parsers and three printers over one
grammar. A list of entries is described without regard to order (`Gather`); the
parsers' loops are proved against that description, and printing is inverted
exactly for the well-formed selectors. The one accepted spelling that does not
survive is an `=` literal whose text begins with white space.

**Configuration** (`DateWindow`, `Templates`, `Media`, `RecentLimits`, `Doubles`,
`Bandwidth`, `Config`, `ConfigMeaning`, `ConfigLosses`). The date-window decision, the
folder-template validator, the media filter, the `recent` limit, the bandwidth limit
with its detour through double-precision rounding, and the resolver and printer of
the whole durable configuration. Three things can keep a resolved configuration from
surviving `config show`: a data directory (never printed, so the cookie directory
falls back to the default), `notify_systemd = false` under `NOTIFY_SOCKET` (only
`true` is printed), and selector names that cannot be printed. Nothing else can: the
condition is exact, and each of the three has its failing edit. Two computations on
dates panic on the very first day of the calendar: the window decision, when that day
opens a window that closes at an instant (such a configuration does not build), and
the lower bound pushed down to queries. Everywhere else both are exact.

**Retries and waiting** (`Arithmetic`, `Retry`, `PollLoop`). 64-bit backoff against
mathematical powers of two, the retry loop over every outcome trace, and the wait
for the password command under a clock that may run ahead at will. `validate` does
not bound the delays, so the jittered sum can exceed 64 bits, where a build panics
or wraps; both are modelled, and `Retry.OverflowIff` says exactly when it can happen.

**Reporting** (`Reporting`). Health, counters, the liveness endpoint and
notifications as functions of the whole history of cycles.

Beside the loops and the functions they are proved against, `SelectionMeaning`,
`ConfigMeaning` and the lemmas named `...Meaning` say what those functions mean in the
raw terms of the input: letters, file fields, trees, pauses and cycles.

Conventions: an entity the program updates in place is a class, and each of its
methods is proved against a function of the old state; error texts are one value;
randomness, clocks and foreign calls are parameters or nondeterministic choices.

## Model

| member | source | states |
|---|---|---|
| `LogWriter.RedactingWriter.Write` | src/lib.rs:106-126 | A write of any size, with or without a password, consumes the whole buffer and performs exactly the abstract step: pass through raw, or hold back and release as `Drain` says |
| `LogWriter.RedactingWriter.Flush` | src/lib.rs:128-136 | A flush releases everything held back, redacted as one whole |
| `LogWriter.RedactingWriter.Drop` | src/lib.rs:209-213 | Dropping a writer loses no byte: it is a flush |
| `LogWriter.RedactingWriter.FlushPendingWithoutRedaction` | src/lib.rs:148-154 | Held-back bytes go out unchanged, once |
| `LogWriter.RedactingWriter.FlushRedactedPending` | src/lib.rs:156-206 | What is sent and what stays in the buffer are those of the recursive drain, for either hold-back |
| `LogWriter.RedactingWriter.Scan` | src/lib.rs:161-199 | The loop over `consumed`, `search_from` and a shrinking cutoff computes the recursive drain; it terminates |
| `Streaming.DrainRefines` | src/lib.rs:156-206 | Whatever bytes follow, released output plus the redaction of the held tail with them equals the redaction of everything: no match is lost or split |
| `Streaming.DrainAll` | src/lib.rs:161-165 | With no hold-back the drain is the one-shot replacement and leaves nothing |
| `Streaming.HeldBack` | src/lib.rs:166-204 | What stays is a suffix shorter than the password, or begins with a complete match straddling the cutoff and has at most 2n-2 bytes |
| `Streaming.MaskedCounts` | src/lib.rs:175-199 | Whatever follows, the matches masked now and those still to come are the matches of the undrained input |
| `Streaming.DrainedLength` | src/lib.rs:156-206 | A drain trades each match it masks for one mask and keeps every other byte, sent or held |
| `Redaction.StreamingRefinesOneShot` | src/lib.rs:106-206 | For any writes and flushes in any order, the inner writer ends with the flush-delimited pieces, each redacted as one whole |
| `Redaction.RawThenRedacted` | src/lib.rs:107-117 | A run whose password is set once: everything before passes raw, everything after is the one-shot redaction |
| `Redaction.ChunkingNeverMatters` | src/lib.rs:94-98 | Two ways of cutting the same bytes into writes give the same output, the redaction of the whole |
| `Redaction.WritesAreResumable` | src/lib.rs:106-126 | Between flushes, for every future input, output so far plus redaction of (held tail + future) is the redaction of the whole input |
| `Redaction.HoldBackBounded` | src/lib.rs:161-204 | After any run of writes at most 2n-2 bytes are held back |
| `Redaction.EmittedLength` | src/lib.rs:156-206 | Between flushes the emitted length is consumed length minus k*n plus 8*k, where k is the number of masks sent and equals the matches of the whole input less those still held back |
| `Redaction.MaskIsEightStars` | src/lib.rs:193 | The mask is eight stars |
| `Redaction.LengthConserved` | src/lib.rs:106-206 | Over any run of writes and flushes from any state, nothing but matches is lost and nothing but masks is added, one for one |
| `Redaction.MasksAreMatches` | src/lib.rs:175-199 | For every future input the masks sent so far and the matches still to be released are the matches of the whole input |
| `MaskSafety.HiddenIffSafe` | src/lib.rs:94-98 | The redacted output is free of the password on every input if and only if the password neither begins nor ends with a star nor holds eight in a row |
| `MaskSafety.SafeIsHidden` | src/lib.rs:175-199 | A safe password occurs nowhere in the redaction of any input, across mask boundaries included |
| `MaskSafety.UnsafeLeaks` | src/lib.rs:193 | For every unsafe password a concrete input whose redaction spells it out |
| `MaskSafety.StarFreeIsSafe` | src/lib.rs:193 | A password without a star is safe |
| `MaskSafety.EmittedNeverShowsPassword` | src/lib.rs:156-206 | At every moment between flushes the emitted bytes are free of a safe password |
| `FlushSafety.MidFlushLeaks` | src/lib.rs:128-136 | The failing run: a flush between its bytes sends any password of two or more bytes out whole |
| `FlushSafety.OccurrenceSpansFlush` | src/lib.rs:106-206 | Wherever a safe password shows in the output of a run of writes and flushes, a flush fell between its first byte and its last |
| `FlushSafety.HiddenOnEveryRunIff` | src/lib.rs:106-206 | A password is hidden on every run of writes and flushes if and only if it is safe and one byte long |
| `CrashFs.GuardedIsOldOrNew` | src/fs_util.rs:410-419 | The step invariant is enough: a crash then leaves what a crash before could have left, or the complete new bytes |
| `CrashFs.SettledIsExact` | src/fs_util.rs:416-419 | A synced file under a synced directory leaves a crash exactly one outcome |
| `CrashFs.RenameGuards` | src/fs_util.rs:475-477 | Renaming over the destination is safe because the file was synced before |
| `CrashFs.RewriteGuards` | src/credential.rs:386-396 | Creating, truncating or writing a temporary that stands apart leaves the protected path guarded and the temporary apart |
| `Crashes.RecoverableIffShown` | src/fs_util.rs:410-419 | What one path may show after a crash is exactly what some crash of the whole disk leaves there |
| `Crashes.RenameMayLink` | src/credential.rs:401-402 | A crash that tears a rename can leave the new file under both names |
| `Crashes.TruncationSafeIff` | src/credential.rs:386-391 | Opening the temporary for writing keeps old-or-new if and only if it is not a second name of anything the protected path may turn out to be, or something unsynced could show at that path anyway |
| `Crashes.TornRenameBreaksNextWrite` | src/credential.rs:386-402 | The failing run: rename, torn crash, and the first step of the next write destroys the file |
| `Crashes.RoundsAreSafe` | src/fs_util.rs:410-419 | Over any number of safe writes, harmless steps of others and crashes that keep renames whole, the path shows its first content or the complete bytes of one of the writes, and the temporary stays apart |
| `Crashes.RunIsRound` | src/fs_util.rs:410-419 | A run whose recorded states are safe, stopped in its first state or any it recorded, is one such round |
| `Kernels.Kernel.WriteFile` | src/fs_util.rs:463 | Creating or truncating and writing in pieces touches only the one path and the file it names, in every intermediate state |
| `Kernels.Kernel.Copy` | src/fs_util.rs:463 | A copy reproduces the bytes the source had, nothing without a source, and is empty when both names are one file |
| `Kernels.Kernel.Fsync` | src/fs_util.rs:434-449 | A missing file is told apart from a failed sync |
| `Kernels.Kernel.SyncDir` | src/fs_util.rs:374-386 | Syncing a directory fixes its bindings; failure changes nothing |
| `AtomicInstall.SiblingIsApart` | src/fs_util.rs:461-462 | The cross-device sibling lies in the destination's directory and is never the destination |
| `AtomicInstall.SiblingName` | src/fs_util.rs:461-462 | The sibling's name is the destination's with the suffix on the end, `tmp` standing in for a missing extension |
| `AtomicInstall.AtomicInstallWith` | src/fs_util.rs:455-492 | From any valid disk: the calls made are exactly those of the protocol, every state in between is recorded up to the last, nothing else changes, and what arrives is the source, or nothing when the fallback meets a sibling that is its second name. When the first rename works, or the sibling is no second name of the destination or the source: a crash after any step leaves the old or the whole new file; success is durable and leaves no new sibling; failure changes the destination only when the directory sync failed; a missing source never touches it |
| `AtomicInstall.InstallSynced` | src/fs_util.rs:460-491 | The same from the source sync on |
| `AtomicInstall.InstallCrashInstall` | src/fs_util.rs:455-492 | A program that installs over and over, stopped after each call in any state it went through by a kill or a crash, others fetching files in between: the destination is its first file or the complete bytes of one of the sources |
| `AtomicInstall.InstallOnce` | src/fs_util.rs:455-492 | One call of the installer, stopped in any state it went through, is a safe round |
| `AtomicInstall.LinkedSourceIsLost` | src/fs_util.rs:463-476 | The failing run: a sibling that is a second name of the source makes the fallback install an empty file |
| `AtomicInstall.RefusedIffCallFailed` | src/fs_util.rs:459-491 | The installation is refused if and only if some call other than the first rename failed |
| `AtomicInstall.CallsSpelledOut` | src/fs_util.rs:455-492 | The full conversation for each way an installation can go: a copy in place removes the source, a failed final rename removes both temporaries, a failed sync of the copy removes neither |
| `AtomicInstall.FallbackFailsIffRefused` | src/fs_util.rs:460-482 | The same for the cross-device fallback, stage by stage |
| `AtomicInstall.RenameOrCopy` | src/fs_util.rs:460-483 | After the source sync: placed by one rename, or by the fallback, never half placed |
| `AtomicInstall.InstallViaSibling` | src/fs_util.rs:461-482 | The fallback either places a synced copy or leaves the destination untouched, in the order copy, sync, rename, unlink |
| `AtomicInstall.CopyToSibling` | src/fs_util.rs:463-473 | The copy waits under its own name with the source's bytes and cannot disturb the destination, at any crash point |
| `AtomicInstall.PlaceSibling` | src/fs_util.rs:475-480 | The copy is synced before it is renamed; a failed rename removes both temporaries, a failed sync removes neither |
| `AtomicInstall.RenameSibling` | src/fs_util.rs:476 | Renaming the synced copy places it or changes nothing |
| `AtomicInstall.DropSource` | src/fs_util.rs:481 | Removing the source afterwards keeps the placed file placed |
| `AtomicInstall.PlaceAndDrop` | src/fs_util.rs:474-481 | The copy placed and the source dropped, or neither |
| `AtomicInstall.SourceSyncCovered` | src/fs_util.rs:459 | Syncing the source changes nothing a crash may leave, whatever the sibling is |
| `AtomicInstall.DropTemp` | src/fs_util.rs:477-478 | Best-effort removal of a temporary keeps the destination recoverable |
| `AtomicInstall.SyncDestination` | src/fs_util.rs:484-491 | The closing directory sync is what makes the new file the only recoverable one |
| `AtomicInstall.PlaceCopy` | src/fs_util.rs:475-476 | Renaming the synced copy moves from the preparing to the placed invariant |
| `AtomicInstall.PlaceSource` | src/fs_util.rs:459-460 | So does renaming the synced source itself |
| `AtomicInstall.SyncDirStep` | src/fs_util.rs:484-491 | Syncing the directory of a placed file makes it the only outcome of a crash |
| `CredentialWrite.AtomicWriteSync` | src/credential.rs:378-411 | From any valid disk: it stops at the first failing call, every state in between is recorded up to the last, and nothing else changes. Unless the temporary is a second name of the credential: old or complete new credential at every crash point; success is durable when no warning was logged and may revert when one was; failure leaves the file as it was |
| `CredentialWrite.DraftSpelledOut` | src/credential.rs:381-402 | The full conversation up to each failing step: it is `.tmp` beside the file that is written, synced, restricted and renamed |
| `CredentialWrite.WriteDraft` | src/credential.rs:384-400 | The temporary is complete and synced before anything touches the credential, safe at every crash point |
| `CredentialWrite.DraftRenamed` | src/credential.rs:401-402 | The rename replaces the bytes seen by programs and keeps every outcome a crash had before |
| `CredentialWrite.RenameDraft` | src/credential.rs:401-402 | One rename replaces the credential or changes nothing |
| `CredentialWrite.WriteCrashWrite` | src/credential.rs:378-411 | A program that writes the credential over and over, stopped after each call in any state it went through by a kill or a crash: what is left is the first credential or the complete bytes of one of the writes |
| `CredentialWrite.WriteOnce` | src/credential.rs:378-411 | One call of the writer, stopped in any state it went through, is a safe round |
| `Paths.AbsoluteLexical` | src/fs_util.rs:317-330 | The push-and-pop loop computes the recursive normal form; an empty path is an error, and so is a relative one without a current directory |
| `Paths.NormalizeShape` | src/fs_util.rs:317-330 | The result is the root followed by names: no `.`, no `..`, never above the root |
| `Paths.NormalizeFixes` | src/fs_util.rs:317-330 | An absolute path is its own normal form if and only if it has that shape |
| `Paths.NormalizeIdempotent` | src/fs_util.rs:317-330 | Normalising twice is normalising once |
| `Paths.CancelAnywhere` | src/fs_util.rs:323-326 | A name followed by `..`, or a `.`, can be struck out anywhere in a path |
| `Paths.ClampedAtRoot` | src/fs_util.rs:324-326 | `..` at the root stays at the root |
| `Paths.RelativeStaysBelow` | src/fs_util.rs:317-330 | A relative path of names lies below the current directory with its names in order; an absolute one ignores that directory |
| `ConfinedOpen.OpenConfinedRegularFile` | src/fs_util.rs:71-191 | The answer is that of the recursive walk, and a file is handed out only with a descent: root and directories entered through real entries to real directories, each at its own moment, and a regular file under that name at the last step, its time clamped at zero |
| `ConfinedOpen.AnswerMeaning` | src/fs_util.rs:71-191 | From the trees and failing calls alone: a file exactly at the end of a descent with a regular file there; an error exactly where the next call of a descent fails for a reason of its own; retired exactly where it meets no directory on the way or no regular file at the end, or the path has other components or none; outside exactly when not below the root |
| `ConfinedOpen.TrailDecides` | src/fs_util.rs:134-191 | Any descent that breaks, is blocked or ends at a regular file settles the answer |
| `ConfinedOpen.OpenThenRemove` | src/fs_util.rs:26-40 | Open, let the tree change in any way, remove: only the named entry of the directory at the end of the link-free descent can go, and unless the call is denied it goes exactly when that directory still has such an entry with no directory behind it |
| `ConfinedOpen.SwapRedirectsOnlyThePath` | src/fs_util.rs:68-70 | For every descent through a directory there is a swap after which removing by path deletes from a directory outside it, while removal by the guard leaves that one alone |
| `ConfinedOpen.UndisturbedRemovalsAgree` | src/fs_util.rs:26-40 | While the descent still stands, removing by path and by the guard are the same |
| `ConfinedOpen.Descend` | src/fs_util.rs:142-191 | The loop that reassigns the parent directory computes the recursive walk and extends the descent |
| `SelectorGrammar.BangReadsBack` | src/selection.rs:149-173 | A printed exclusion reads back as itself if and only if its name is printable |
| `SelectorGrammar.EscapeReadsBack` | src/selection.rs:175-184 | A printed inclusion reads back as itself if and only if its name is non-empty and trimmed (and colon-free for libraries) |
| `SelectorGrammar.ProducedInclude` | src/selection.rs:149-173 | Any entry read as an inclusion gives a printable name, unless it is an `=` literal beginning with white space |
| `SelectorGrammar.ProducedExclude` | src/selection.rs:149-173 | Any entry read as an exclusion gives a printable name |
| `SelectorGrammar.UnmarkedMeaning` | src/selection.rs:149-173 | An entry without a marker is a reserved word in any ASCII letter case, or else a name with its letters unchanged; a colon refuses it where colons are |
| `SelectorGrammar.ExclusionMeaning` | src/selection.rs:149-173 | Behind `!`: an excludable word in any letter case gives that word, another reserved word, nothing or `=` is refused, and anything else is the excluded name |
| `SelectorGrammar.LiteralMeaning` | src/selection.rs:149-158 | Behind `=` stands a name, reserved or not |
| `SelectorGrammar.EscapeMeaning` | src/selection.rs:175-184 | A name is printed with `=` exactly when it begins with a marker or spells a reserved word in some letter case |
| `Text.LowerMeaning` | src/selection.rs:178 | Comparing lower case is comparing letter by letter up to ASCII case |
| `Text.TrimMeaning` | src/selection.rs:223 | Trimming takes white space off both ends, all of it and nothing else |
| `Text.SpacesListed` | src/selection.rs:223 | White space is the Unicode property, code point by code point |
| `SelectorLists.GatherAppend` | src/selection.rs:191-201 | One more entry extends the order-free description as the loops do, duplicates refused |
| `SelectorLists.GatherPermutes` | src/selection.rs:206-443 | The description of a list is that of each of its permutations, errors included |
| `SelectorPrinting.PrintedReadsBack` | src/selection.rs:480-546 | A printed list of printable names gathers to exactly the same words and names |
| `SelectorPrinting.ReadBackMeansPrintable` | src/selection.rs:480-546 | Only printable names can come back as they were, other names in the same list notwithstanding |
| `SelectorPrinting.GatheredPrintable` | src/selection.rs:149-173 | What was read from a list is printable if and only if no literal in it begins with white space |
| `Selection.ParseAlbumSelector` | src/selection.rs:206-272 | The loop with its flags, sets and early exits computes the order-free meaning |
| `Selection.ParseSmartFolderSelector` | src/selection.rs:276-347 | The same for smart folders |
| `Selection.ParseLibrarySelector` | src/selection.rs:356-443 | The same for libraries, with the primary library implied by exclusions alone |
| `Selection.PrintLibraries` | src/selection.rs:526-546 | The building loop prints words, included names in order, then exclusions |
| `Selection.AlbumsMeaning` | src/selection.rs:206-272 | Which lists are accepted, and which names they select and exclude, entry by entry |
| `Selection.SmartFoldersMeaning` | src/selection.rs:276-347 | Which lists are accepted, and what they select and exclude; the two `all` words exclude each other and decide sensitivity |
| `Selection.LibrariesMeaning` | src/selection.rs:356-443 | Which lists are accepted and what they select; no accepted list selects nothing |
| `Selection.AlbumsRoundTrip` | src/selection.rs:484-496 | Print then parse restores an album selector if and only if it is well formed |
| `Selection.SmartFoldersRoundTrip` | src/selection.rs:500-522 | The same for smart folders |
| `Selection.LibrariesRoundTrip` | src/selection.rs:525-546 | The same for libraries |
| `Selection.AlbumsPrintFixpoint` | src/selection.rs:206-272 | For an accepted list, parse-print-parse equals parse if and only if no literal in it begins with white space |
| `Selection.SmartFoldersPrintFixpoint` | src/selection.rs:276-347 | The same for smart folders |
| `Selection.LibrariesPrintFixpoint` | src/selection.rs:356-443 | The same for libraries |
| `Selection.AlbumsToRawInjective` | src/selection.rs:484-496 | Distinct well-formed selectors print differently |
| `Selection.SmartFoldersToRawInjective` | src/selection.rs:500-522 | The same for smart folders |
| `Selection.LibrariesToRawInjective` | src/selection.rs:526-546 | The same for libraries |
| `Selection.AlbumsOrderIndependent` | src/selection.rs:206-272 | Every permutation of the entries gives the same success or failure and the same value |
| `Selection.SmartFoldersOrderIndependent` | src/selection.rs:276-347 | The same for smart folders |
| `Selection.LibrariesOrderIndependent` | src/selection.rs:356-443 | The same for libraries |
| `Selection.SpacedLiteralTrap` | src/selection.rs:175-184 | The witness for the excluded family: `= all` names an album, prints without its `=` and reads as the word |
| `Selection.DefaultLibrariesReadAlike` | src/config.rs:1775-1785 | Omitting the default library list when printing is sound |
| `Selection.DefaultAlbumsReadAlike` | src/config.rs:1786-1799 | Omitting the default album list when printing is sound |
| `Selection.SpellingsAreValid` | src/selection.rs:206-443 | The actual reserved words satisfy what the proofs ask of a vocabulary |
| `SelectionMeaning.AlbumEntries` | src/selection.rs:222-258 | What each kind of album entry means, letter by letter |
| `SelectionMeaning.SmartFolderEntries` | src/selection.rs:287-330 | What each kind of smart-folder entry means, letter by letter |
| `SelectionMeaning.LibraryEntries` | src/selection.rs:369-420 | What each kind of library entry means: colons refused, the primary and the shared library excludable in any letter case |
| `SelectionMeaning.AlbumWordAlone` | src/selection.rs:228-240 | One reserved word in any letter case, white space around it, selects all albums or none |
| `SelectionMeaning.SmartFolderWordAlone` | src/selection.rs:292-306 | The same for smart folders, the sensitive ones included exactly by their own word |
| `SelectionMeaning.LibraryWordAlone` | src/selection.rs:385-406 | The same for libraries, `none` refused |
| `SelectionMeaning.AbsentLists` | src/selection.rs:210-216 | What each selector means when nothing is written |
| `SelectionMeaning.AlbumsPrinted` | src/selection.rs:484-496 | The printed album list: its word, then names in order and escaped where needed, then exclusions in order |
| `SelectionMeaning.SmartFoldersPrinted` | src/selection.rs:500-522 | The same for smart folders |
| `SelectionMeaning.LibrariesPrinted` | src/selection.rs:526-546 | The same for libraries, with one word for both when nothing is named |
| `DateWindow.WindowDecisionExact` | src/config.rs:319-378 | The two bounds are reported contradictory if and only if no asset that can exist passes both, for all four combinations and right up to the ends of the calendar; only a window from the first day to an instant has no answer |
| `DateWindow.LowerBoundIsTight` | src/config.rs:381-393 | The bound panics if and only if it is for the first day of the calendar; everywhere else no asset that can exist below it could pass, and it is optimal for instants and one second short of it for dates |
| `Templates.AcceptsIffNormalForm` | src/config.rs:690-745 | A template is accepted if and only if its segments are an optional `{library}`, an optional token of its own category, then segments without tokens |
| `Templates.AlbumTemplates` | src/config.rs:690-745 | For album templates the leading tokens are an optional `{library}` and an optional `{album}` |
| `Templates.SmartFolderTemplates` | src/config.rs:690-745 | For smart-folder templates, an optional `{library}` and an optional `{smart-folder}` |
| `Templates.UnfiledTemplates` | src/config.rs:668-745 | For unfiled photos, an optional `{library}` and no token of their own |
| `Templates.SegmentsLaws` | src/config.rs:724-727 | Cutting at slashes with empty pieces dropped, by laws that leave no choice |
| `Templates.WrapperComesOff` | src/download/paths.rs:36-42 | The legacy wrapper comes off whole and nothing else does |
| `Templates.CountAtSlash` | src/config.rs:712-722 | No token occurrence spans a slash, so counts add up across a split |
| `Templates.CountIsTotal` | src/config.rs:712-744 | Counting in the whole template equals counting segment by segment |
| `Templates.TokensAreValid` | src/download/paths.rs:13-25 | The actual tokens satisfy what the proofs ask of them |
| `Media.ResolveMediaSelection` | src/config.rs:578-621 | The loop with its seen-set accepts exactly the non-empty duplicate-free lists that leave something selected after the overrides |
| `Media.MediaRoundTrip` | src/config.rs:168-178 | Printing and resolving restores a selection if and only if it selects something |
| `Media.OverridesWin` | src/config.rs:607-612 | Which override governs which kind, and that it wins over the list |
| `Media.MediaRefused` | src/config.rs:583-620 | Refused: an empty list, a kind listed twice, nothing left |
| `Media.KindsInOrder` | src/config.rs:168-178 | Photos are printed first and live photos last |
| `Config.ConfigRoundTrip` | src/config.rs:1710-2002 | Resolving the print of a resolved configuration restores every effective setting if and only if the cookie directory is the default, notifications are not silenced under a socket and selector names are printable; then a second print is identical |
| `ConfigLosses.DataDirIsLost` | src/config.rs:1712 | Adding a data directory to any configuration that builds gives one that builds and does not survive |
| `ConfigLosses.SilenceIsLost` | src/config.rs:1941-1962 | So does switching notifications off under a socket |
| `ConfigLosses.SpacedAlbumIsLost` | src/config.rs:1786-1799 | So does naming an album by a reserved word behind a space |
| `ConfigLosses.EmptyBuilds` | src/config.rs:1310-1607 | The empty configuration builds, so there are configurations to edit |
| `Config.AuthRoundTrip` | src/config.rs:1089-1123 | Authentication settings come back if and only if the cookie directory does not depend on the unprinted data directory |
| `Config.DownloadRoundTrip` | src/config.rs:1313-1418 | Download settings always come back, the bandwidth limit included |
| `Config.BandwidthRoundTrip` | src/config.rs:1323-1331 | A resolved bandwidth limit, printed as whole bytes, resolves to itself |
| `Bandwidth.ParsedReadsBack` | src/cli.rs:20-83 | Whatever text and unit a limit came from, the parsed number printed in decimal parses to itself |
| `Bandwidth.ReadsBackIff` | src/cli.rs:20-83 | The 64-bit numbers that survive print and parse are exactly those a double holds and the largest one |
| `Bandwidth.LimitMeaning` | src/cli.rs:24-83 | A number and a unit that doubles hold exactly give that many bytes, halves rounded up; refused below half a byte and above 2^64 |
| `Bandwidth.DecimalMeaning` | src/cli.rs:32-39 | A decimal number is its whole part and its digits after the point at their place value |
| `Bandwidth.DecimalRefused` | src/cli.rs:32-39 | Nothing but digits around at most one point is a number |
| `Bandwidth.UnitMeaning` | src/cli.rs:44-58 | Decimal units are powers of 1000 and binary ones of 1024, in any letter case and with an optional `b` |
| `Bandwidth.ParsedParts` | src/cli.rs:24-58 | The number ends where digits and points do and the rest is the unit; which texts are refused for either |
| `Doubles.RoundIsIdempotent` | src/cli.rs:37-39 | Rounding yields exactly the numbers of the format, which it leaves alone |
| `Doubles.RoundIsNearest` | src/cli.rs:37-39 | Rounding gives the nearest number of the format, and of two equally near the even one |
| `Doubles.RoundFits` | src/cli.rs:64-70 | Nothing up to 2^64 rounds to infinity |
| `Doubles.LargeIsWhole` | src/cli.rs:67-71 | From 2^52 up a double is a whole number, so rounding to whole bytes changes nothing there |
| `Doubles.TopRoundsUp` | src/cli.rs:66-83 | The largest 64-bit number reads as 2^64 and saturates back |
| `Config.SelectedRoundTrip` | src/config.rs:1775-1808 | Selections come back if and only if their names are printable, defaults omitted |
| `Config.DatesRoundTrip` | src/config.rs:1464-1529 | `recent`, its scope and both date bounds come back, the default scope omitted |
| `Config.FiltersRoundTrip` | src/config.rs:1420-1519 | The whole filter section comes back if and only if the selector names are printable |
| `Config.WatchRoundTrip` | src/config.rs:1061-1067 | Watch settings come back if and only if a present socket would not switch notifications back on |
| `Config.OtherRoundTrip` | src/config.rs:1963-2000 | Scripts, report, server and display settings always come back |
| `Config.PhotosRoundTrip` | src/config.rs:1833-1884 | Photo settings come back although every default is omitted |
| `Config.MetadataRoundTrip` | src/config.rs:1890-1940 | So do metadata settings |
| `Config.ExpandTwice` | src/config.rs:814-829 | Expanding `~` in an expanded path changes nothing |
| `ConfigMeaning.ExpandMeaning` | src/config.rs:814-829 | Only a leading `~/` is expanded, and only when there is a home |
| `ConfigMeaning.AuthMeaning` | src/config.rs:1231-1301 | The environment wins over the file and the file over the default; which authentication sections are refused |
| `ConfigMeaning.DownloadMeaning` | src/config.rs:1313-1418 | Every download setting is the value given or its default; a bandwidth limit without a thread count means one thread |
| `ConfigMeaning.DownloadRefused` | src/config.rs:1313-1429 | Exactly which download sections are refused |
| `ConfigMeaning.DatesMeaning` | src/config.rs:1464-1519 | Each bound is the reading of its own text, a window of days being the lower one; a count and nothing else limits the number of assets |
| `ConfigMeaning.DatesRefused` | src/config.rs:1476-1529 | Exactly which combinations of limits, scopes and dates are refused |
| `ConfigMeaning.AssetPassesAsWritten` | src/config.rs:1512-1519 | An asset passes the resolved window if and only if it passes the bounds as written |
| `ConfigMeaning.SelectedMeaning` | src/config.rs:1421-1451 | Each list is read by its own selector; what makes one explicit |
| `ConfigMeaning.FiltersMeaning` | src/config.rs:1420-1529 | Exactly which filter sections are refused, and that patterns are kept |
| `ConfigMeaning.PhotosMeaning` | src/config.rs:945-1037 | Every photo setting is the value given or its default; refused exactly when no picture would be left |
| `ConfigMeaning.MetadataMeaning` | src/config.rs:1373-1398 | A metadata switch is on exactly when it is given as true |
| `ConfigMeaning.WatchMeaning` | src/config.rs:1531-1564 | The interval's range, the socket deciding where nothing is said, and zero cycles meaning never |
| `ConfigMeaning.OtherMeaning` | src/config.rs:1566-1607 | Scripts, report, server and display settings are the values given or their defaults |
| `ConfigMeaning.BuildMeaning` | src/config.rs:1597-1607 | A file is refused exactly when one of its sections is, or when it selects live photos alone and skips them |
| `ConfigMeaning.AuthPrinted` | src/config.rs:1714-1732 | Which authentication settings are printed: those that are not the default, and never a password |
| `ConfigMeaning.DownloadPrinted` | src/config.rs:1733-1773 | Which download settings are printed |
| `ConfigMeaning.FiltersPrinted` | src/config.rs:1774-1832 | Which filters are printed, defaults left out |
| `ConfigMeaning.PhotosPrinted` | src/config.rs:1833-1884 | Which photo settings are printed, defaults left out |
| `ConfigMeaning.SectionsPrinted` | src/config.rs:1885-2000 | Which sections and switches are printed, empty ones left out |
| `RecentLimits.RecentRoundTrip` | src/cli.rs:135-193 | Text and configuration forms of a limit both read back if and only if it is a positive 32-bit number |
| `RecentLimits.ParsedLimitInRange` | src/cli.rs:135-155 | Only positive 32-bit limits are ever accepted |
| `RecentLimits.ShowParses` | src/cli.rs:157-164 | Decimal text parses to its number, or overflows exactly above 32 bits |
| `RecentLimits.ParseMeaning` | src/cli.rs:135-155 | Exactly which texts are which limits: digits, perhaps behind a plus sign, positive and within 32 bits, with a `d` for days |
| `RecentLimits.ReadNatMeaning` | src/cli.rs:135-155 | Digits are read at their place value, and nothing else is read |
| `RecentLimits.ConfigurationForm` | src/cli.rs:166-175 | A count is a bare integer in the configuration and days are text |
| `Retry.CappedIsExact` | src/retry.rs:78-90 | Shift, saturation and cap equal min(base * 2^retry, max) for every 64-bit base and limit and every retry |
| `Retry.DelayIsMonotone` | src/retry.rs:78-90 | The capped delay never shrinks from one retry to a later one |
| `Retry.ValidatesMeaning` | src/retry.rs:64-72 | A configuration validates if and only if its first retry waits the full base delay |
| `Retry.DelayFits` | src/retry.rs:78-90 | The jittered sum fits 64 bits for every jitter if and only if capped delay plus base does not exceed 2^64, or the base is zero |
| `Retry.OverflowIff` | src/retry.rs:78-90 | Some retry of a run can overflow if and only if the last one with the largest jitter does |
| `Retry.ValidConfigOverflows` | src/retry.rs:64-90 | A configuration that validates and overflows on its first retry |
| `Retry.NeverPanics` | src/retry.rs:78-90 | With limit plus base up to 2^64 no pause overflows, and both kinds of build agree |
| `Retry.RetryWithBackoff` | src/retry.rs:127-194 | For every outcome trace: the first success, the first abort or the last of min(max_retries + 1, 2^32 - 1) attempts is reported; the k-th failure before it is followed by exactly one pause, announced and slept, of min(base * 2^k, max) seconds plus jitter, or what the server asked for up to the limit; at most one closing line, only after a pause; a build that checks panics exactly where a sum overflows, one that wraps loses 2^64; the sleep is at most a full pause per retry |
| `Retry.PauseMeaning` | src/retry.rs:78-90 | The pause after attempt k is the backoff of attempt k or the server's wait, and is missing exactly where a checking build overflows |
| `Retry.TotalSleepBounded` | src/retry.rs:160-190 | The pauses before any attempt take at most one full pause each, wrapped or not |
| `PollLoop.WaitWithTimeout` | src/password.rs:305-331 | Under any clock that does not cut sleeps short: no nap is asked to end beyond the deadline, naps follow the doubling interval, and the command is killed only when still running at or after the deadline |
| `PollLoop.NapsBounded` | src/password.rs:305-331 | A command that never exits is killed after at most 4 + ceil((T - 75 ms) / 50 ms) naps |
| `PollLoop.ShortNaps` | src/password.rs:305-331 | A timeout of at most 75 ms allows at most four naps |
| `PollLoop.IntervalStep` | src/password.rs:323-324 | The doubling update keeps the interval at min(5 * 2^k, 50) ms |
| `PollLoop.BudgetShape` | src/password.rs:305-324 | k unclamped naps take at least 75 ms + (k - 4) * 50 ms |
| `Reporting.HealthStatus.RecordSuccess` | src/health.rs:24-30 | All four fields after a success |
| `Reporting.HealthStatus.RecordFailure` | src/health.rs:32-36 | All four fields after a failure; the last success is kept |
| `Reporting.MetricsHandle.Update` | src/metrics.rs:431-486 | Every counter grows by exactly its own contribution of the cycle, no counter by another's |
| `Reporting.MetricsHandle.IncSkip` | src/metrics.rs:587-593 | One skip label grows, and a zero leaves every label as it was |
| `Reporting.MetricsHandle.UpdateHealthOnly` | src/metrics.rs:492-494 | Only the health snapshot changes |
| `Reporting.MetricsHandle.RecordSessionExpiration` | src/metrics.rs:500-502 | Only the expiration counter changes, by one |
| `Reporting.CycleReporter.ReportCompletedCycle` | src/cycle_reporter.rs:178-190 | Health, every counter, expirations, the endpoint's snapshot and the notices remain the folds of the history, now one cycle longer |
| `Reporting.CycleReporter.ReportSkippedWatchCycle` | src/cycle_reporter.rs:169-175 | A skipped cycle counts as a success for health and adds to no counter, notice or duration |
| `Reporting.CycleReporter.UpdateHealth` | src/cycle_reporter.rs:235-245 | Each status leads to its own record and reason |
| `Reporting.CycleReporter.UpdateMetrics` | src/cycle_reporter.rs:256-259 | The expiration is counted once and each counter grows by the cycle's own contribution |
| `Reporting.CycleReporter.Notify` | src/cycle_reporter.rs:336-362 | One notice per completed cycle, none when the session expired |
| `Reporting.CycleReporter.HealthzMeaning` | src/metrics.rs:614-663 | The endpoint answers 503 if and only if the last five cycles all failed, in the raw facts of the cycles, or the last that succeeded is older than the threshold |
| `Reporting.TrailingFailuresMeaning` | src/health.rs:24-36 | The failure count is at least n if and only if each of the last n cycles completed with an expired session, an interruption or a failed download |
| `Reporting.StatusMeaning` | src/cycle_reporter.rs:132-146 | A cycle succeeded if and only if it was skipped, or the session held, it was not interrupted and nothing failed; the reason otherwise, in that priority |
| `Reporting.LastSuccessMeaning` | src/health.rs:24-36 | The last success is the time of a cycle that succeeded with none after it |
| `Reporting.NoticeMeaning` | src/cycle_reporter.rs:336-362 | Which notice each cycle causes, in its raw facts |
| `Reporting.CycleReporter.HealthMeaning` | src/health.rs:24-36 | The recorded failure count, error and time, read off the raw facts of the history |
| `Reporting.NoticesCounted` | src/cycle_reporter.rs:336-362 | Notices plus expirations are the completed cycles |
| `Reporting.OneMoreCycle` | src/cycle_reporter.rs:178-190 | How each fold over the history moves with one more cycle |

## Left out

- Redactor: errors of the inner writer and its own flush, the lock around the shared password and its poisoning; two different non-empty passwords in one run are covered call by call, not by the whole-run theorems.
- Installer and credential writer: two writers at once; equal names for source, destination and sibling; file permissions beyond whether setting them worked; the Windows branches; a panic of the blocking pool.
- AtomicInstall.AtomicInstallWith: promises old-or-new through the fallback only when the left-over sibling is not a second name of the destination or the source, because otherwise the code loses the file (`Crashes.TruncationSafeIff`, `AtomicInstall.LinkedSourceIsLost`); does not promise that the new bytes survive a crash during the cross-device fallback, nor that every failure removes its temporaries.
- CredentialWrite.AtomicWriteSync: promises old-or-new only when the left-over temporary is not a second name of the credential, because otherwise the code loses it (`Crashes.TruncationSafeIff`).
- ConfinedOpen.OpenConfinedRegularFile: the Windows implementation is not part of this model; the directories above the root's own name are resolved by the operating system and appear as the directory they lead to.
- Selection: reserved words are compared by ASCII lower case as in the code; the words themselves are a value with the properties proved for the actual spellings. Unicode normalisation is not applied by the code either.
- Config.ConfigRoundTrip: command-line flags of a single run, the password sources of a run and `log_level`; date, address and glob parsing and the directory checks are functions of the environment.
- Bandwidth: decimal text is converted to a double correctly rounded, as the standard library documents; the theorems hold for any format with 53-bit significands that reaches 2^64.
- DateWindow: calendar text and the clock; dates are day numbers and instants nanoseconds.
- Retry.RetryWithBackoff: the words of the narration and the logging; `parse_retry_after_header` would add only a one-branch fact.
- PollLoop: spawning the command, reading its output and its exit status.
- Reporting.HealthStatus.RecordFailure: 32-bit overflow of the failure count is shut out by a precondition; 64-bit wrap of the counters is not modelled.
- Reporting: a reporter without a metrics endpoint; database summary gauges, the JSON report, friendly output and OpenMetrics text; gauges that copy the snapshot.
- Error wording, help text, command-line parsing, HTTP, the keyring and encryption, signals, and the modules for authentication, downloading, the state database and the sync loop.
