# Verified model of the xfce-linux image tooling

The project models five programs of the repository, each in the form its source has, and proves
what they promise.

* **Component xattrs.** `gen-filemap.py` turns an artifact listing into a file map (JSON) and a
  sorted manifest (TSV). `apply-xattrs.py` writes xattrs from the first, `fakecap-restore.c` from
  the second, and `fakecap.c` serves them from an index over the second. Modules `Filemap`,
  `Manifest`, `Writers`, `WritersAgree`, `WritersDiffer`, `ManifestIndex`.
* **The metadata store of fakecap**: a flat directory as a map, and the listing of attribute names
  into a caller's buffer. Modules `MetadataStore`, `XattrListing`.
* **The BuildStream dashboard**: the state machine driven by log lines, the incremental log reader,
  and the reader of dependency output. Modules `DashboardState`, `DashboardRuns`,
  `DashboardEffects`, `LogTail`, `DepTree`.
* **The LUKS unlock driver**: the serial-log classifier and the two polling loops. Modules
  `SerialClassifier`, `BootWatch`.
* **The resumable blob stream** and its reference parsing. Modules `BlobStream`, `Reference`.

`Text`, `Ansi` and `CStrings` hold the string functions these programs share.

## Where the code and its promise differ

Each item names the exact condition and, behind it, the member with a failing input.

* The manifest and the file map leave the same xattrs exactly when, on every file, the claim that
  `apply-xattrs.py` reaches last says the same as the claim with the greatest manifest line, and
  reaches none when the listed paths lead to none (`WritersAgree`). Where no exception ends the
  program, the respelling of paths makes no difference to the kernel, and no two listed paths lead to
  one file, this is a matter of names: no owner of a path of one spelling may be, up to a character
  that sorts before TAB, a prefix of the path's last owner (`SafeOwnersAgree`; `OvertakenOwner`). The
  other three can separate the writers whatever the names: two paths to one file (`AliasedFile`), a path
  listed with a slash behind it, which the path library drops (`TrailingSlash`), and a path on which
  `exists()` raises (`RaisingPath`), be it one that may not be searched or, in Python releases that
  let that error through, one whose name is too long. The maps of these inputs are made
  of listings (`TwoGenerated`), with names such as those of `NamesExist`.
* Where respelling makes no difference, the two programs print the same counters exactly when no
  second xattr call fails, no file is hidden by another error than ENOENT (a parent that is a plain
  file or a loop of links), and nothing raises (`TalliesAgree`; `CountedDifferently`, `RaisingPath`).
  For all kernels they do when the outcomes of the listed and of the respelled paths balance
  (`TalliesBalance`).
* The loader of fakecap sizes its array by newlines, which suffices exactly when some piece of the
  text makes no entry (`CapacitySuffices`; `LastLineUncounted`). Which of several owners of a file is
  served depends on the search; it is determined exactly when the entries of the file are equal
  (`ServedClaimDetermined`; `TwoOwnersServed`).
* A complete `XATTR_REPLACE` write reads back exactly when the old value was not longer
  (`ReplaceReadsBack`; `ReplaceKeepsTail`). A listing that does not fit reports an error exactly when
  the kernel's own list is empty (`ShortBufferIsReported`; `ShortBufferUnseen`).
* The failure table of the dashboard stays in order throughout a run exactly when no tracked job with
  a blank hash fails while every entry has a hash and its element has an entry (`TableIntegrity`;
  `BlankHashClashes`). Runs in which every job has a hash meet this (`HashedRunsKeepTable`).
* The log reader recognises a new log by its length alone: one that is not shorter is read rightly
  exactly when the old one is a prefix of it (`ReplacedLogIsMisread`; `SameLengthUnseen`).
* A download from a server that honours Range succeeds exactly when the attempts before one that
  loses the token, of the allowed 40, together deliver the size, the blob has it and the digest
  matches (`DownloadCompletes`, `EnoughBeforeLoss`). An attempt loses the token when it is refused
  with 401 and the request for a new one fails, which ends the program (`LostTokenEnds`).
* The picture recorded when the passphrase is sent is the prompt's, except when the serial line gave
  the prompt away and the last picture counted before that, if any, was another one
  (`RecordedPicture`). Exactly then a boot that never leaves the prompt is decided at its second poll
  instead of running into the deadline, and a bright prompt passes for a finished boot
  (`StuckAtPrompt`; `FirmwarePictureMisleads`). On any boot it matters exactly when the first two
  polls show one of the two pictures and no marker (`RecordingMatters`).
* Two screen dumps in a row that fail, before anything has decided the boot and without a marker, pass
  for a dark picture at rest and end it as failed, exactly when a picture was recorded or one has been
  seen since (`FailedDumpsDecide`).

## Model

| member | source | states |
|---|---|---|
| `Filemap.ListAllContents` | scripts/gen-filemap.py:94-126 | every element gets exactly the paths listed under its headers, in order; elements without a path are absent |
| `Filemap.ListedUnder` | scripts/gen-filemap.py:100-124 | a path is listed for an element if and only if some file line has it while the last header before is the element's |
| `Filemap.HeadersMean` | scripts/gen-filemap.py:102-109 | a line without a tab in front is a header, however it starts, unless it is empty once stripped |
| `Filemap.FieldsMean` | scripts/gen-filemap.py:113-124 | a tab-indented line of four or more fields lists its fourth, unless its second is `dir` |
| `Filemap.ListedPathsAreClean` | scripts/gen-filemap.py:102-124 | whatever the listing, reported paths start with a slash and hold no white space, and owners hold no line break |
| `Filemap.BuildFilemap` | scripts/gen-filemap.py:152-165 | the map over the sorted keys, without layer aggregations and empty lists, and the number of files |
| `Filemap.EntriesMean` | scripts/gen-filemap.py:150-162 | an entry is in the map if and only if its element has files and is no layer aggregation, its interval is the guessed one and its files are sorted and those listed |
| `Filemap.FilemapAscending` | scripts/gen-filemap.py:154-163 | the elements of the map strictly ascend, and each entry is a kept element with its sorted files |
| `Filemap.FilemapComplete` | scripts/gen-filemap.py:154-163 | no element but empty and layer ones is left out |
| `Filemap.PrintManifest` | scripts/gen-filemap.py:169-176 | the header line and the sorted claim lines |
| `Filemap.HeaderText` | scripts/gen-filemap.py:175 | the header line, character by character |
| `Text.SortedPermutationIsSort` | scripts/gen-filemap.py:154-176 | a sorted permutation of strings is unique, so the sort used is Python's |
| `Text.OneLineMore` | scripts/gen-filemap.py:102 | a line boundary ends one line, "\r\n" included |
| `Text.SpacesMean` | scripts/gen-filemap.py:102-114 | line boundaries and white space by their code points |
| `Manifest.ParsePrinted` | scripts/gen-filemap.py:174 | a printed claim is parsed back as it was |
| `Manifest.LineReads` | files/fakecap/fakecap.c:280-289 | a line with two tabs says path, component and, up to its end, interval |
| `Manifest.IntervalByDefault` | files/fakecap/fakecap.c:287 | a line with one tab gets the interval "weekly" |
| `Manifest.SkippedLines` | files/fakecap/fakecap.c:280-282 | lines that are blank, start with a hash or lack a tab make no claim, and no others |
| `Manifest.LinesOrderOwners` | scripts/gen-filemap.py:176 | lines of one path are ordered as their owners, except for a prefix followed by a character before TAB |
| `Writers.Restore` | files/fakecap/fakecap-restore.c:38-75 | the marks and counters are those of the claims read through the 8192-character line buffer, in text order |
| `Writers.OneClaimCounted` | files/fakecap/fakecap-restore.c:64-74 | for each outcome of a path, how either program counts one claim |
| `Writers.OneChunk` | files/fakecap/fakecap-restore.c:40-42 | a chunk is a line with its newline, but no more than 8191 characters |
| `Writers.LongPathSkipped` | files/fakecap/fakecap-restore.c:59-62 | a path that does not fit behind the root is passed over, and all others are not |
| `Writers.ChunkUpToNul` | files/fakecap/fakecap-restore.c:44-45 | a chunk counts up to its first NUL and without its newline |
| `Writers.Apply` | scripts/apply-xattrs.py:35-53 | the marks are those of the claims of the file map, in JSON order, up to the first path that raises; the counters are printed if none does |
| `Writers.TargetKeepsParts` | scripts/apply-xattrs.py:38-39 | joining a path with the root keeps all of its pieces that name something, in order |
| `Writers.PathPartsAppend` | scripts/apply-xattrs.py:38-39 | the pieces of a path are kept or dropped each on its own |
| `Writers.OnePathPart` | scripts/apply-xattrs.py:38-39 | and dropped exactly when they are empty or a single dot |
| `Writers.SpelledStays` | scripts/apply-xattrs.py:38-39 | a path in the usual spelling is opened as it is listed |
| `WritersAgree.SpelledApplied` | scripts/apply-xattrs.py:35-53 | where all listed paths are in the usual spelling, the attempted claims are the listed ones, under every kernel |
| `WritersAgree.ListedFilesMarked` | scripts/apply-xattrs.py:35-49 | on such a map, if nothing raises, every file carries what the last listed claim that leads to it says |
| `WritersAgree.SpelledOnce` | scripts/apply-xattrs.py:38-39 | and every path has one spelling only, as `SafeOwnersAgree` asks for |
| `WritersAgree.ManifestReadBack` | files/fakecap/fakecap-restore.c:42-62 | fakecap-restore attempts exactly the generator's claims, in line order |
| `WritersAgree.WritersAgree` | scripts/gen-filemap.py:154-176 | under every kernel, also with respelled paths, paths that lead to one file and paths that raise, and for all earlier marks both writers leave the same marks, if and only if every file is settled |
| `WritersAgree.SafeOwnersAgree` | scripts/gen-filemap.py:154-176 | they do so under all kernels without aliases and exceptions for which respelling a path makes no difference, if and only if no last owner of a path of one spelling is overtaken |
| `WritersDiffer.OvertakenOwner` | scripts/gen-filemap.py:176 | an owner that goes on with a character before TAB separates the writers on a generated map |
| `WritersDiffer.AliasedFile` | files/fakecap/fakecap-restore.c:64-65 | two paths to one file separate them on a generated map although the owners are safe |
| `WritersDiffer.TrailingSlash` | scripts/apply-xattrs.py:38-39 | and so does a path listed with a slash behind it |
| `WritersDiffer.RaisingPath` | scripts/apply-xattrs.py:40 | an exception outside the try block ends one program and not the other, on a generated map |
| `WritersAgree.PlainNamesAreSafe` | scripts/gen-filemap.py:141-145 | names whose characters sort after TAB are never overtaken, also when they share files |
| `WritersAgree.TalliesAgree` | files/fakecap/fakecap-restore.c:64-74 | every claim is accounted for; where respelling makes no difference the printed counters are equal if and only if no claim meets one of the three outcomes that are treated differently |
| `WritersAgree.TalliesBalance` | scripts/apply-xattrs.py:35-53 | under every kernel the printed counters are equal if and only if nothing raises and the outcomes met by the two programs balance |
| `WritersDiffer.CountedDifferently` | scripts/apply-xattrs.py:40-51 | a hidden file, and a second call that fails, are counted differently on a generated map |
| `WritersDiffer.TwoGenerated` | scripts/gen-filemap.py:94-176 | the maps of these inputs are made of listings of two owners with a file each |
| `WritersAgree.GeneratedMapFits` | scripts/gen-filemap.py:94-176 | for every listing, the built map ascends and its claims fit but for NULs, tabs in names and the buffer sizes |
| `ManifestIndex.CutLine` | files/fakecap/fakecap.c:280-291 | a line is cut in place into the pieces the parser gives, and nothing outside the line changes |
| `ManifestIndex.Load` | files/fakecap/fakecap.c:247-294 | after tokenizing the whole buffer in place the pointers resolve to exactly the claims of a linear scan |
| `ManifestIndex.CapacitySuffices` | files/fakecap/fakecap.c:267-271 | entries never exceed newlines by more than one, and do not exceed them if and only if some piece makes no entry |
| `ManifestIndex.LastLineUncounted` | files/fakecap/fakecap.c:267-271 | a last line without a newline makes one entry more than was counted |
| `ManifestIndex.BsearchFinds` | files/fakecap/fakecap.c:311-316 | on a sorted index no order of probing misses a path |
| `ManifestIndex.LoadedLookup` | files/fakecap/fakecap.c:273-316 | with the loaded slots sorted through their pointers, a lookup below the prefix succeeds if and only if some line of the loaded text has the path, and gives a claim of such a line |
| `ManifestIndex.ServedClaimDetermined` | files/fakecap/fakecap.c:311-316 | the served claim is independent of the probing if and only if the entries of the path are equal |
| `ManifestIndex.TwoOwnersServed` | files/fakecap/fakecap.c:311-316 | of two owners of a file either may be served |
| `ManifestIndex.LoadedClaims` | files/fakecap/fakecap.c:266-294 | loading what the generator printed recovers its claims, and the array suffices |
| `ManifestIndex.LengthThenValue` | files/fakecap/fakecap.c:335-352 | a query with the length it was told succeeds with a value of that length, and with less is ERANGE |
| `ManifestIndex.ServedValues` | files/fakecap/fakecap.c:335-352 | for a path with one claim, getxattr gives the claim's component under "user.component", its interval under "user.update-interval", each within the buffer, and nothing under any other name |
| `ManifestIndex.UnknownPath` | files/fakecap/fakecap.c:335-352 | a path without claims has no such xattr |
| `ManifestIndex.OutsidePrefix` | files/fakecap/fakecap.c:300-309 | a prefix is stripped only where it ends a path component |
| `ManifestIndex.PrefixItself` | files/fakecap/fakecap.c:304-307 | the prefix itself is looked up as the empty path |
| `ManifestIndex.ServedClaim` | files/fakecap/fakecap.c:311-316 | for a path with one claim fakecap serves that claim, whatever the search |
| `ManifestIndex.ServedIsWritten` | files/fakecap/fakecap.c:335-352 | for a file with one claim, what getxattr tells is what fakecap-restore writes on it under either name, and apply-xattrs if it gets there |
| `MetadataStore.FileNameInjective` | files/fakecap/fakecap.c:75-80 | different keys have different file names |
| `MetadataStore.FileNameReads` | files/fakecap/fakecap.c:75-80 | major, minor, inode and attribute name, in this order |
| `MetadataStore.DecimalMeans` | files/fakecap/fakecap.c:76 | numbers are written in decimal without leading zeros |
| `MetadataStore.PrefixSelects` | files/fakecap/fakecap.c:174-192 | the prefix test selects exactly the files of one inode and leaves the attribute name |
| `MetadataStore.Db.WriteXattr` | files/fakecap/fakecap.c:141-163 | the return value and the new directory for all flags, short writes included; the values of all other keys stay |
| `MetadataStore.Db.WriteAll` | files/fakecap/fakecap.c:141-163 | a client's calls take the directory through the run that the results below are about |
| `MetadataStore.Db.WriteThenRead` | files/fakecap/fakecap.c:93-163 | after any calls a read gives what the history of its key says |
| `MetadataStore.Db.ReadXattr` | files/fakecap/fakecap.c:93-138 | value, length query, missing value and too small a buffer |
| `MetadataStore.DirectoryRefinesMap` | files/fakecap/fakecap.c:71-163 | after every sequence of writes the directory holds for each key what the history of that key alone says |
| `MetadataStore.LastWriteIsRead` | files/fakecap/fakecap.c:141-163 | after any operations, what the last accepted write on a key left is read, whatever follows on other keys or is refused |
| `MetadataStore.ShortWriteStays` | files/fakecap/fakecap.c:156-159 | a write that is cut short leaves exactly the bytes that were written, until the next accepted one on its key |
| `MetadataStore.UnopenedWrite` | files/fakecap/fakecap.c:152-154 | a write whose file cannot be opened leaves everything as it was |
| `MetadataStore.PlainWriteWins` | files/fakecap/fakecap.c:144-150 | a complete write without flags, or one that creates, is read back until another one on its key is accepted |
| `MetadataStore.CreateOnlyOnce` | files/fakecap/fakecap.c:144-145 | CREATE on a key with a value could be left out of any run |
| `MetadataStore.ReplaceReadsBack` | files/fakecap/fakecap.c:146-147 | REPLACE keeps the tail of a longer value, and reads back at any later time if and only if there is none |
| `MetadataStore.ReplaceKeepsTail` | files/fakecap/fakecap.c:146-147 | one byte that replaces two is read as two |
| `XattrListing.InList` | files/fakecap/fakecap.c:193-207 | the scan finds a name if and only if it is in the caller's list |
| `XattrListing.FillMetadata` | files/fakecap/fakecap.c:166-227 | the buffer afterwards, the length, and when the call fails |
| `XattrListing.ListXattr` | files/fakecap/fakecap.c:556-632 | the result for every kernel list, store and buffer size; nothing behind the buffer size is written |
| `XattrListing.QueryCounts` | files/fakecap/fakecap.c:563-577 | a query gives the length of the kernel's names and of all that are stored for the inode; ENOTSUP counts as no names |
| `XattrListing.FillCounts` | files/fakecap/fakecap.c:563-577 | a call with a buffer that is large enough gives the length of the kernel's names and of the stored ones it lacks, also after ENOTSUP |
| `XattrListing.StoredNamesOnly` | files/fakecap/fakecap.c:564-575 | after ENOTSUP the list holds exactly the stored names |
| `XattrListing.KernelAlone` | files/fakecap/fakecap.c:571-573 | without the file's inode the kernel's answer is passed on, ENOTSUP as an empty list |
| `XattrListing.KernelErrors` | files/fakecap/fakecap.c:564-567 | other errors of the kernel, ERANGE included, are passed on |
| `XattrListing.TwoCalls` | files/fakecap/fakecap.c:556-577 | with the store unchanged, but read in any order by the second call, the query fails exactly when the kernel does with another error than ENOTSUP, and a buffer of the queried size suffices and then reads as the kernel's names and the stored ones it lacks |
| `XattrListing.DecodeEncode` | files/fakecap/fakecap.c:193-222 | a NUL-separated list is read back as the names it was made of |
| `XattrListing.NoDuplicates` | files/fakecap/fakecap.c:193-207 | no name is listed twice |
| `XattrListing.ListsTheStore` | files/fakecap/fakecap.c:174-192 | a name is listed if and only if the kernel has it or a value is kept for the inode under it |
| `XattrListing.ShortBufferIsReported` | files/fakecap/fakecap.c:575-577 | a buffer too small for the stored names gives the kernel's length less one, an error only if the kernel's list is empty |
| `XattrListing.ShortBufferUnseen` | files/fakecap/fakecap.c:575-577 | a stored name that does not fit goes missing behind a positive length |
| `DashboardState.State.ParseLine` | tools/bst_dashboard/parser.py:68-251 | the whole new state for every classified line |
| `DashboardState.State.ResetState` | tools/bst_dashboard/parser.py:49-65 | everything is cleared but the element total |
| `DashboardState.AttachToLast` | tools/bst_dashboard/parser.py:159-163 | the backward search over the failure table |
| `DashboardState.FillOrAppend` | tools/bst_dashboard/parser.py:233-238 | the search for a placeholder to fill |
| `DashboardRuns.Reachable` | tools/bst_dashboard/parser.py:68-251 | in every run jobs stand under their own hash, the table covers the summary and the count the table, and the successes are those of the finished jobs |
| `DashboardRuns.TableIntegrity` | tools/bst_dashboard/parser.py:147-164 | throughout a run hashes are distinct and placeholders alone with their elements, if and only if no blank hash clashes |
| `DashboardRuns.RecordBlank` | tools/bst_dashboard/parser.py:231-238 | a failing job with a blank hash leaves the table in order if and only if an entry without a hash is there or its element has none |
| `DashboardRuns.HashedRunsKeepTable` | tools/bst_dashboard/parser.py:196-208 | runs whose jobs all have a hash keep the table in order |
| `DashboardRuns.BlankHashClashes` | tools/bst_dashboard/parser.py:219-241 | four lines after which an element has two entries |
| `DashboardRuns.AttachLogIs` | tools/bst_dashboard/parser.py:159-163 | the last failure without a log gets the path and nothing else changes |
| `DashboardRuns.SummaryIsAuthoritative` | tools/bst_dashboard/parser.py:105-122 | in every run, after a Pipeline Summary the table holds exactly the named root causes, counted, and no job is active |
| `DashboardEffects.SummaryWithoutNames` | tools/bst_dashboard/parser.py:105-122 | without a Failure Summary before it, a Pipeline Summary keeps the table and the count; all jobs end, and the build if its end is open |
| `DashboardEffects.SummaryNames` | tools/bst_dashboard/parser.py:105-152 | in every run, the named elements are those of the Failure Summary lines since the last header, truncation or Pipeline Summary |
| `DashboardEffects.KeepAppend` | tools/bst_dashboard/parser.py:115 | filtering the table keeps its entries in place, one by one |
| `DashboardEffects.KeepOne` | tools/bst_dashboard/parser.py:115 | and those whose element is named, each whole |
| `DashboardRuns.ExcessIsBackfilled` | tools/bst_dashboard/parser.py:131-139 | in every run, the count exceeds the table only by a Build Queue number that has stood since |
| `DashboardEffects.QueueMeans` | tools/bst_dashboard/parser.py:131-139 | a Build Queue line sets the count if and only if it is zero, and nothing else but the total and the recent log can change |
| `DashboardEffects.ElementMeans` | tools/bst_dashboard/parser.py:143-152 | a Failure Summary line adds a placeholder if and only if the table lacks its element, and raises the count no further than to cover it |
| `DashboardEffects.LogMeans` | tools/bst_dashboard/parser.py:155-164 | a log path goes to the last entry without one and to no other |
| `DashboardRuns.JobsConserved` | tools/bst_dashboard/parser.py:196-241 | started jobs = overwritten + succeeded + failed + dropped + active, in every run |
| `DashboardRuns.FailuresWereJobs` | tools/bst_dashboard/parser.py:219-241 | every failure with a hash was a job started earlier and active until it failed |
| `DashboardEffects.JobTracked` | tools/bst_dashboard/parser.py:196-208 | in every run, a job that was started and not touched since is tracked as its start described it |
| `DashboardEffects.JobFails` | tools/bst_dashboard/parser.py:219-241 | its failure closes it with the time since its start, enters the table with the log its start named, and sets the count to that of the table |
| `DashboardEffects.JobSucceeds` | tools/bst_dashboard/parser.py:210-217 | its success closes it with that time and is counted |
| `DashboardEffects.RecordMeans` | tools/bst_dashboard/parser.py:230-238 | a known hash is left alone, the first placeholder of the element is filled, and otherwise the entry is appended |
| `DashboardEffects.UntrackedFailure` | tools/bst_dashboard/parser.py:222-225 | a failure that belongs to no tracked job changes nothing but the recent log |
| `DashboardEffects.UntrackedSuccess` | tools/bst_dashboard/parser.py:211-217 | a success without a tracked job is counted with no duration |
| `DashboardEffects.StartMeans` | tools/bst_dashboard/parser.py:196-208 | a start tracks its job and leaves everything else |
| `DashboardEffects.OtherEvents` | tools/bst_dashboard/parser.py:192-251 | all other events only appear in the recent log |
| `DashboardEffects.PullMeans` | tools/bst_dashboard/parser.py:243-251 | a skipped pull counts as cached, a successful one as pulled |
| `DashboardRuns.CountersCount` | tools/bst_dashboard/parser.py:210-251 | cached, pulled and succeeded count the events since the build began |
| `DashboardRuns.TotalIsLast` | tools/bst_dashboard/parser.py:124-129 | the total is the last one given, across headers and resets |
| `DashboardEffects.ClearsEverything` | tools/bst_dashboard/parser.py:49-97 | a header and a truncation clear every field but the total; the header sets the start and is shown |
| `DashboardEffects.CatchingUp` | tools/bst-dashboard.py:462-472 | in every run, the dashboard is catching up until everything has been read or the pipeline is done, and again after every new start |
| `DashboardEffects.AllReadMeans` | tools/bst-dashboard.py:462-472 | when everything has been read, a build with successes, no jobs and no end ends when the log was written |
| `DashboardEffects.RecentIsShown` | tools/bst_dashboard/parser.py:166-194 | in every run, the recent log is what the lines since the last new start show, in order, deeply indented ones excepted |
| `DashboardRuns.VersionCountsUpdates` | tools/bst_dashboard/model.py:71-74 | the version is the number of updates |
| `DashboardRuns.LastHeaderWins` | tools/bst_dashboard/parser.py:49-97 | from any state and after any log, the result is that of a fresh start at the last header or truncation, but for total and version |
| `DashboardRuns.ClockIndependent` | tools/bst_dashboard/parser.py:68-251 | clock readings reach nothing but the time fields: all others, catch-up flag and version included, depend on the line alone |
| `LogTail.Tailer.Poll` | tools/bst-dashboard.py:436-474 | one look at the log, measured and then read: truncation, carried-over piece, exactly the completed lines parsed in order, and when the catch-up ends; nothing else is done to the dashboard |
| `LogTail.ChunkMeans` | tools/bst-dashboard.py:451-454 | what is read is the part of the log from the offset to the measured size, or what there is of it |
| `LogTail.TailLog` | tools/bst-dashboard.py:432-474 | after any looks the dashboard's object is in a state of some run, so that the invariant of all runs holds of it |
| `LogTail.PollingIndependent` | tools/bst-dashboard.py:432-474 | however the growth of a log is cut into polls, the reader is where one pass would be |
| `LogTail.SchedulesAgree` | tools/bst-dashboard.py:432-474 | two schedules that have shown equally much leave the same state |
| `LogTail.NothingLost` | tools/bst-dashboard.py:455-459 | what was read is the parsed lines with newlines and the carry |
| `LogTail.ShorterLogStartsOver` | tools/bst-dashboard.py:443-447 | after a shorter log the reader shows what a fresh dashboard would, but for the total |
| `LogTail.ReplacedLogIsMisread` | tools/bst-dashboard.py:443-454 | after any polls, a log that is not shorter is read as it is, for every classifier of lines, if and only if it has grown from the old one |
| `LogTail.SameLengthUnseen` | tools/bst-dashboard.py:443-454 | a log replaced by one of the same length is not noticed |
| `DepTree.FetchDepTree` | tools/bst-dashboard.py:237-262 | the tree is the fold of the lines of the output |
| `DepTree.PrintedTreeReadBack` | tools/bst-dashboard.py:231-262 | printing any nodes and reading the text recovers them |
| `DepTree.MeaningOf` | tools/bst-dashboard.py:241-262 | the names of the tree are exactly the printed ones, and each has the dependencies of its last block, in order |
| `DepTree.StrayLines` | tools/bst-dashboard.py:256-258 | lines with neither tab nor dash say nothing, nor do items before the first name |
| `DepTree.EmptyItems` | tools/bst-dashboard.py:251-261 | an item of dashes alone is no dependency |
| `Ansi.StripAppend` | xfce-linux/src/luks-unlock.py:174 | stripping escape sequences splits at the point no later text can change |
| `Ansi.EscapeIsMatch` | xfce-linux/src/luks-unlock.py:174 | a match of the pattern is found at the front of a text if and only if it is there, with its length |
| `SerialClassifier.CollapsePrefix` | xfce-linux/src/luks-unlock.py:175 | collapsing white space of a prefix gives a prefix |
| `SerialClassifier.VerdictNeverFalls` | xfce-linux/src/luks-unlock.py:166-187 | as the log grows the verdict never falls |
| `SerialClassifier.EscapesKeepVerdict` | xfce-linux/src/luks-unlock.py:171-187 | an escape sequence put anywhere outside another changes no verdict above the passphrase prompt |
| `SerialClassifier.VerdictsMean` | xfce-linux/src/luks-unlock.py:166-187 | each verdict if and only if its markers are in the text they are looked for in, and none of a verdict above |
| `SerialClassifier.CollapsedWords` | xfce-linux/src/luks-unlock.py:175 | the collapsed text is the words with one blank between any two |
| `SerialClassifier.GapCollapsed` | xfce-linux/src/luks-unlock.py:175 | white space of any kind and length between two words becomes one blank |
| `SerialClassifier.NewlinesAreOne` | xfce-linux/src/luks-unlock.py:168 | text-mode reading makes one newline of either carriage return |
| `BootWatch.WaitForPrompt` | xfce-linux/src/luks-unlock.py:257-327 | the passphrase is sent once, at the first poll that shows the prompt, or never when none does in time; at most 100 polls |
| `BootWatch.SerialPromptFound` | xfce-linux/src/luks-unlock.py:263-281 | the first serial prompt within 300 seconds, with no framebuffer trigger before, ends the phase |
| `BootWatch.PromptTooLate` | xfce-linux/src/luks-unlock.py:257-327 | whatever ends the phase is a serial prompt or a framebuffer trigger within that time |
| `BootWatch.FrameTriggerNeedsThreeDumps` | xfce-linux/src/luks-unlock.py:286-305 | the framebuffer triggers if and only if there are three valid dumps of one picture, the last two adjacent and only failed ones between the others, after some content |
| `BootWatch.ContentMeans` | xfce-linux/src/luks-unlock.py:292-293 | content is a picture brighter than 0.5 |
| `BootWatch.WatchBoot` | xfce-linux/src/luks-unlock.py:332-421 | the exit code is that of the first decisive poll in time, else 2; at most 60 polls |
| `BootWatch.BootEndsOneWay` | xfce-linux/src/luks-unlock.py:337-421 | trace and recorded hash fix the exit code |
| `BootWatch.DecisionMeans` | xfce-linux/src/luks-unlock.py:338-414 | at the deciding poll an emergency ends with 2, a display manager with 0, and a picture at rest with 0 if it is brighter than 1.8, else 2 |
| `BootWatch.NoDecisionMeans` | xfce-linux/src/luks-unlock.py:419-421 | and no decision within 300 seconds ends with 2 |
| `BootWatch.MarkerConfirmsBoot` | xfce-linux/src/luks-unlock.py:358-380 | over a growing log, the first poll in time that shows a display-manager marker, if no picture came to rest before, ends with 0 |
| `BootWatch.FailedDumpsDecide` | xfce-linux/src/luks-unlock.py:343-414 | two failed dumps in a row decide an undecided boot if and only if a picture was recorded or seen since, and then end it with 2 |
| `BootWatch.RunQemu` | xfce-linux/src/luks-unlock.py:235-421 | exit 1 means never sent; otherwise sent once and the boot phase decides |
| `BootWatch.SuccessSawNoEmergency` | xfce-linux/src/luks-unlock.py:337-414 | exit 0 means no emergency marker up to the decision, or two equal bright dumps |
| `BootWatch.EmergencyDecides` | xfce-linux/src/luks-unlock.py:338-341 | an emergency marker in a growing log decides at once and stays |
| `BootWatch.SerialPromptWindowCloses` | xfce-linux/src/luks-unlock.py:267-281 | once the log shows more than the prompt only the framebuffer can trigger |
| `BootWatch.RecordedPicture` | xfce-linux/src/luks-unlock.py:267-334 | the recorded hash differs from the prompt's if and only if the serial line triggered and the last counted picture was another one |
| `BootWatch.UnchangedScreenDecides` | xfce-linux/src/luks-unlock.py:344-414 | while the screen never changes the framebuffer decides if and only if another picture was recorded |
| `BootWatch.RecordingMatters` | xfce-linux/src/luks-unlock.py:333-414 | of two recorded pictures it matters to a boot which one it is, if and only if the first two polls show one of them and no marker |
| `BootWatch.StuckAtPrompt` | xfce-linux/src/luks-unlock.py:267-421 | the whole run of a boot that never leaves the prompt: when it is decided, and when it passes for a success |
| `BootWatch.FirmwarePictureMisleads` | xfce-linux/src/luks-unlock.py:333-414 | a counted firmware picture before a serial prompt lets the unchanged prompt decide the boot |
| `BlobStream.Stream` | scripts/ghcr-blob-stream.py:76-124 | the session for every server, and exit 0 if and only if there was a token, the output has the size and its hash is the digest, else 1; the hash is that of the output |
| `BlobStream.AttemptSleeps` | scripts/ghcr-blob-stream.py:103-114 | an attempt that breaks costs two seconds for each attempt so far, at most thirty; a short read costs nothing |
| `BlobStream.AttemptEnds` | scripts/ghcr-blob-stream.py:93-107 | the program is ended exactly by a 401 without a new token and by an answer other than 206 to a request for the rest, and neither adds output |
| `BlobStream.EndedIsOver` | scripts/ghcr-blob-stream.py:93-118 | and then it is over, with exit code 1 |
| `BlobStream.OneRead` | scripts/ghcr-blob-stream.py:96-102 | a read gives what is there, up to 4 MiB and to what is missing |
| `BlobStream.ReadingEnds` | scripts/ghcr-blob-stream.py:96-112 | the end of the body and a broken connection end the reading, and only the second counts as broken |
| `BlobStream.AnyServer` | scripts/ghcr-blob-stream.py:81-114 | for every server at most 40 requests and 990 seconds of back-off, and output that only grows up to the size |
| `BlobStream.UnreachableServer` | scripts/ghcr-blob-stream.py:82-112 | the bound is reached by a server that is never there |
| `BlobStream.OutputIsPrefix` | scripts/ghcr-blob-stream.py:89-102 | with a server honouring Range the output is a prefix of the blob, for every schedule of faults |
| `BlobStream.DownloadCompletes` | scripts/ghcr-blob-stream.py:81-124 | for every size, exit 0 if and only if the blob has the size, the attempts before a lost token together deliver it, and the digest matches |
| `BlobStream.EnoughBeforeLoss` | scripts/ghcr-blob-stream.py:82-107 | they do if and only if some number of allowed attempts suffices and none of them loses the token |
| `BlobStream.LostTokenEnds` | scripts/ghcr-blob-stream.py:103-107 | a schedule that delivers enough and fails because the token cannot be renewed once |
| `Reference.BareReference` | scripts/ghcr-blob-stream.py:70-73 | a bare reference is split as meant if and only if the path has no at-sign and no colon in its last segment |
| `Reference.TagAndDigestBlind` | scripts/ghcr-blob-stream.py:70-73 | bare, tagged, pinned, and tagged and pinned references give the same registry and repository |
| `Reference.NoRepository` | scripts/ghcr-blob-stream.py:70 | a reference without a slash is all registry |

## Left out

- Writers.Restore: characters stand for bytes, so the 8192-byte buffers are counted in characters; UTF-8 is not modelled.
- Writers.Apply: paths are below a root that both programs name alike; the JSON text between generator and writer is not modelled.
- ManifestIndex.Load: the sort and the search of the C library are any sorted permutation and any order of probing; allocation failures are not modelled.
- XattrListing.ListXattr: dlsym, errno other than ENOTSUP, the choice between stat, lstat and fstat, and the read-only loop at the end of `flistxattr`.
- DashboardState.State.ParseLine: lines come classified; the regular expressions, the choice of log paths and the 200-character cut are inputs. Entries are values, so the sharing of a failed item between `completed` and `failures` (through which a later log path shows in both) is not captured, and `completed` does not keep the log.
- LogTail.Tailer.Poll: one character per byte; a UTF-8 sequence cut by a poll is not modelled, and neither are errors in opening or reading the log.
- DepTree.FetchDepTree: the container run, its errors and the status fields around the tree.
- SerialClassifier.Classify: decoding errors of the log file.
- BootWatch.RunQemu: screen dumps, key presses and screenshots are inputs or effects outside the model; sleeping is the clock advancing by at least the time slept.
- BlobStream.Stream: SHA-256 is an arbitrary function, token fetches are outcomes in the schedule, writes to the output succeed.
- `snapshot`, the HTTP server, system sampling, `start_build` and `stop_build` of the dashboard: I/O around the state.
- `list_elements`, `guess_interval` on its own, `handle_cap`, `manifest_capture` and `cap_set_flag`: would only add easy members.
- `run_libvirt` and `run_wait_live`: the first is thin, the second repeats the stability automaton of `run_qemu`.
- Shell scripts, justfiles, BuildStream elements and patches.
