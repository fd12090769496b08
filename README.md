# Container extractor model

This project models `main.py`, a command-line tool that finds the files embedded in a container and extracts them into one flat output directory. The containers are ZIP/JAR archives and OLE compound files. The model covers three parts of the tool:

- **Safe output names** (`safe_names.dfy`, module `SafeNames`).
  - A ZIP entry is written under the part of its name after the last `/`, which is `os.path.basename` on POSIX.
  - An OLE stream's name components are joined with `/`. Every `/` is then replaced by `_`, and the basename of the result is taken.
  - The lemmas show what these names guarantee:
    - no `/` survives;
    - a ZIP name is a suffix of the entry name, and directory components, `..` among them, are dropped;
    - an OLE name is the components, each with any `/` replaced, joined with `_`, and sanitising it again changes nothing;
    - the two examples `../../etc/passwd` → `passwd` and `a/b/../../c` → `c` hold.
- **The two extractors** (`extraction.dfy`, module `Extraction`; properties in `extraction_facts.dfy`, module `ExtractionFacts`).
  - `extract_zip` and `extract_ole` are methods of an `OutputDir` object. The object holds:
    - whether the directory exists;
    - its files, as a map from name to bytes;
    - the log, as a sequence of `Event`s.
  - Each method walks the container's entries in directory order with a loop. Its postconditions tie the new state to specification functions: a fold of per-entry writes (`ApplyAll`) and a concatenation of per-entry log records (`Flatten`).
  - The lemmas about those functions cover:
    - list-only runs write nothing and report every entry;
    - the last entry to open a name decides its content, and the bytes are copied unchanged;
    - names nobody writes keep their content;
    - a failing entry affects only its own file, and the entries after it are still processed;
    - a second run changes nothing;
    - every changed file has a name without `/` that is not `''`, `.` or `..`;
    - a container that cannot be opened gives `False` and writes nothing;
    - OLE streams whose name list is empty are skipped entirely.
- **The dispatch in `main`** (`dispatch.dfy`, module `Dispatch`).
  - A missing input path is reported before the output directory is created.
  - Otherwise the ZIP test comes first, then the OLE test, then a probe of the first four bytes for the ZIP signature `50 4B 03 04`.
  - `Analyze` performs one run on an `OutputDir`. `RunFiles` and `RunEvents` say what a run leaves behind and what it logs.

The container libraries are not modelled. An opened container is the sequence of its entries, and each entry carries its name, its bytes and a `Fate`. The fate is the environment's answer to reading the entry and writing it out:

- `Completes`: the entry is read and written in full.
- `Unreadable`: reading fails before the output file is opened.
- `TargetFails`: the output file cannot be opened.
- `FailsAfterOpen(kept)`: the output file was opened in `'wb'` mode, which empties it, and then a read or write failed after `kept` bytes.

The answers of `zipfile.is_zipfile` and `olefile.isOleFile`, the outcome of opening each container, and the file's bytes for the probe are fields of an `InputFile`. The names `''`, `'.'` and `'..'` name a directory, so opening them for writing always fails (`Writable`).

Behaviours of `main.py` a reader might not expect:

- **Skipped OLE streams.** `extract_ole` skips a stream only when its whole name list is empty (`if stream_name:`). A stream whose list merely contains an empty component is processed.
- **Failed writes.** A failure after the output file was opened leaves that file truncated or partly written. It is not cleanly "skipped".
- **Unreadable streams in list-only mode.** An OLE stream is read before it is reported, so in list-only mode an unreadable stream is logged as an error, not listed.
- **Name collisions.** OLE names are not collision-aware. `["a", "b"]` and `["a_b"]` are both written as `a_b`, and the later stream overwrites the earlier one. `SafeNames.OleNamesCollide` states this for any two components without '/'.
- **Return values.** `main` ignores the extractors' return values. An unsupported format or a corrupt container writes no file, but by then the output directory has already been created (main.py:114), so it changes the log and the directory's existence.

## Model

| member | source | states |
|---|---|---|
| SafeNames.ZipSafeName | main.py:38 | The name a ZIP entry is written under has no '/', is a suffix of the entry name, and is preceded by '/' in it whenever it is shorter |
| SafeNames.Join | main.py:69 | `str.join`: no parts give the empty string, one part gives that part, and otherwise the result starts with the first part and ends with the last; `JoinConcat` fixes the parts in between |
| SafeNames.JoinConcat | main.py:69 | Joining two non-empty lists is joining each with one separator between them. With the empty and one-part cases that `Join` ensures, this fixes `str.join`: every part appears, in order, one separator apart |
| SafeNames.OleStreamPath | main.py:69 | The stream path is `Join(components, '/')`: empty for no components, the component itself for one, otherwise starting with the first and ending with the last; `JoinConcat` fixes the parts in between |
| SafeNames.ReplaceSeparators | main.py:80 | `replace('/', '_')`: same length, every '/' becomes '_' and every other character is kept, position by position |
| SafeNames.OleSafeName | main.py:80 | The OLE safe name has no '/' and is the whole replaced stream path: the basename drops nothing |
| SafeNames.Basename | main.py:38 | The safe ZIP name has no '/', is a suffix of the entry name, and is preceded by '/' whenever it is shorter than the name, so it is the longest separator-free suffix |
| SafeNames.BasenameUnique | main.py:38 | Those three properties determine the basename: any string with them equals `Basename(s)` |
| SafeNames.BasenameOfPlain | main.py:38 | A name without '/' is its own safe name |
| SafeNames.BasenameIdempotent | main.py:38 | Taking the basename of a basename changes nothing |
| SafeNames.BasenameAfterSeparator | main.py:37-39 | Everything up to a '/' is discarded: `Basename(dir + "/" + rest) == Basename(rest)`, whatever `dir` holds, `..` included |
| SafeNames.BasenameOfPlainAfterSeparator | main.py:37-39 | A name without '/' after any directory part is the safe name |
| SafeNames.TraversalToPasswd | main.py:37-39 | The entry `../../etc/passwd` is written as `passwd` |
| SafeNames.TraversalToC | main.py:37-39 | The entry `a/b/../../c` is written as `c` |
| SafeNames.ReplaceSeparatorsConcat | main.py:80 | The '/'-to-'_' replacement works character by character: it distributes over concatenation |
| SafeNames.ReplaceSeparatorsOfPlain | main.py:80 | A string without '/' is left unchanged by the replacement |
| SafeNames.ReplaceJoin | main.py:69-80 | Replacing '/' in the '/'-joined path equals joining the components, each with its own '/' replaced, with '_' |
| SafeNames.OleSafeNameIsUnderscoreJoin | main.py:69-80 | The OLE safe name is the '_'-join of the components, each with its own '/' replaced |
| SafeNames.OleSafeNameStable | main.py:80 | Sanitising an OLE safe name a second time leaves it unchanged |
| SafeNames.OleTwoPlainComponents | main.py:69-80 | A stream with two components, neither holding '/', is written as the two joined with '_' |
| SafeNames.OleOnePlainComponent | main.py:69-80 | A stream with one component without '/' is written under that component |
| SafeNames.OleExampleName | main.py:69-80 | The stream `["Root Entry", "Data"]` is written as `Root Entry_Data` |
| SafeNames.OleNamesCollide | main.py:69-80 | For any components a and b without '/', the two different streams `[a, b]` and `[a_b]` share the safe name `a_b` |
| Extraction.Leaves | main.py:41-46 | A write leaves a file exactly when the target is writable and its open succeeds. A completed write leaves exactly the entry's bytes; a failed one leaves a prefix of them |
| Extraction.WriteEventReports | main.py:41-46 | For a ZIP entry, and likewise for an OLE stream at main.py:83-88, a write is reported as extracted (under its target name) exactly when it completes under a writable name, and then the file holds all the entry's bytes; otherwise it is reported as an error |
| Extraction.Store | main.py:42-43 | One write: the target holds what the write left when it opened the file, nothing changes when it did not, and every other name keeps its content |
| Extraction.ZipEntryEventsShape | main.py:32-46 | One ZIP entry logs Found with its name and declared size; outside list-only mode one more record follows: extracted under its safe name exactly when its write succeeds, an error otherwise |
| Extraction.ZipFilesShape | main.py:22-54 | After extract_zip the directory is unchanged when the archive does not open or in list-only mode; otherwise no file is removed and every file added is writable and has no '/' |
| Extraction.ZipLog | main.py:26-53 | extract_zip logs first whether the archive opened (processing, not a ZIP archive, or an error), then, only when it opened, the records of its entries |
| Extraction.Listed | main.py:67-68 | The streams looked at are exactly the directory's streams with a non-empty name list: each one returned is such a stream, every such stream is returned, and there are no more of them than the directory has |
| ExtractionFacts.ListedAppend | main.py:67-68 | The filter distributes over a split of the directory, so it keeps the directory's order |
| ExtractionFacts.ListedSingle | main.py:68 | One stream is looked at exactly when its name list is not empty |
| Extraction.OleStreamEventsShape | main.py:68-88 | A nameless stream logs nothing; an unreadable one logs only an error, since it is read before it is reported; otherwise Found with its path and size, then, outside list-only mode, extracted under its safe name exactly when its write succeeds, or an error |
| Extraction.OleFilesShape | main.py:57-93 | After extract_ole the directory is unchanged when the file is rejected, does not open, or in list-only mode; otherwise no file is removed and every file added is writable and has no '/' |
| Extraction.OleLog | main.py:60-91 | extract_ole logs first whether the file was accepted and opened (processing, not an OLE file, or an error), then, only when it was, the records of its streams |
| Extraction.OutputDir.Report | main.py:110 | Logging a record appends it to the log and changes neither the files nor the directory flag |
| Extraction.ZipLogStep | main.py:27-46 | The ZIP log grows by one entry's records at a time, in order |
| Extraction.ZipWritesAppend | main.py:27-43 | The writes of two runs of entries, one after the other, are the first run's writes followed by the second's |
| Extraction.ZipFilesStep | main.py:38-43 | An entry's write is applied after those of the earlier entries |
| Extraction.ApplyAllNewNames | main.py:42-43 | Writes to names without '/', here and at main.py:83-84, remove no file, and every name they add is writable and has no '/' |
| Extraction.OleLogStep | main.py:67-88 | The OLE log grows by one stream's records at a time, in order |
| Extraction.OleFilesStep | main.py:79-84 | A stream's write, if it has a name, is applied after those of the earlier streams |
| Extraction.OutputDir.Create | main.py:114 | After mkdir the directory exists; its files and the log are unchanged |
| Extraction.OutputDir.WriteOut | main.py:39-46 | One `open(..., 'wb')` and write: the files become `Store(old files, write)` and one record, extracted or error, is logged |
| Extraction.OutputDir.VisitEntry | main.py:28-46 | One ZIP entry: it is reported as found and, unless in list-only mode, its write is applied and reported |
| Extraction.OutputDir.ExtractEntries | main.py:27-46 | The loop over `infolist()`: the files become the fold of all entries' writes (none in list-only mode), and the log gains every entry's records in order |
| Extraction.OutputDir.ExtractZip | main.py:22-54 | Returns True exactly when the archive opens. Then files and log are those of the loop; otherwise one `NotValidZip` or `ContainerError` record is logged. The directory flag is untouched |
| Extraction.OutputDir.VisitStream | main.py:68-88 | One OLE stream: skipped when nameless; otherwise read, reported, then written unless in list-only mode; a read failure is logged as an error |
| Extraction.OutputDir.ReadStream | main.py:70-85 | A named stream that can be read is reported as found with its path and size, then written unless in list-only mode; the log gains exactly that stream's records |
| Extraction.OutputDir.ExtractStreams | main.py:67-88 | The loop over `listdir()`: the files become the fold of the named streams' writes, and the log gains every stream's records in order |
| Extraction.OutputDir.ExtractOle | main.py:57-93 | Returns True exactly when `isOleFile` accepts the file and it opens. Then files and log are those of the loop; otherwise one `NotValidOle` or `ContainerError` record is logged |
| ExtractionFacts.ApplyAllAppend | main.py:27-46 | Writes done in two batches: the second batch starts from the directory the first left |
| ExtractionFacts.InertWriteIgnored | main.py:41-46 | A write whose target is never opened can be removed from the sequence without changing the result |
| ExtractionFacts.ApplyAllOverlay | main.py:42-43 | A run lays the files it writes over the directory it found: existing files it does not write are kept |
| ExtractionFacts.ApplyAllIdempotent | main.py:42-43 | Repeating the same writes changes nothing |
| ExtractionFacts.UntouchedKept | main.py:42-43 | A name no write opens keeps its previous content, or stays absent |
| ExtractionFacts.ChangedOnlyByWrites | main.py:42-43 | A name whose content changed was opened by some write |
| ExtractionFacts.LastWriterWins | main.py:42-43 | A name holds what the last write to open it left, whatever earlier writes put there |
| ExtractionFacts.FailureIsLocal | main.py:41-46 | Changing one write's fate changes no file except that write's target |
| ExtractionFacts.ZipListingReportsEveryEntry | main.py:27-35 | In list-only mode every entry is reported once, in order, with its name and declared size, and nothing else is logged |
| ExtractionFacts.ZipExtractionVisitsEveryEntry | main.py:27-46 | In extraction mode every entry, whatever its fate, logs exactly a found record followed by its extracted-or-error record |
| ExtractionFacts.ZipExtractedMeansWritten | main.py:41-44 | An entry is reported as extracted exactly when its write completes under a writable safe name, and then the file holds the entry's bytes |
| ExtractionFacts.ZipLastEntryWins | main.py:38-43 | The file named after an entry holds that entry's bytes, unchanged, when no later entry with the same safe name opens it |
| ExtractionFacts.ZipWritesStayInside | main.py:37-39 | Every file extract_zip creates or changes has a writable name without '/', equal to the basename of some entry's name, and a suffix of it |
| ExtractionFacts.ZipFailureContinues | main.py:41-46 | An entry whose output file is never opened (its read fails first, the open fails, or its safe name is '', '.' or '..') is reported as found and then as an error. It leaves the directory as if it were absent, and the entries after it are still processed |
| ExtractionFacts.ReadmeName | main.py:38 | `readme.txt` keeps its name |
| ExtractionFacts.InfoJsonName | main.py:38 | `data/info.json` is written as `info.json` |
| ExtractionFacts.ZipTwoEntryListing | main.py:26-35 | Listing the archive holding `readme.txt` (11 bytes) and `data/info.json` (20 bytes) reports both, with those sizes |
| ExtractionFacts.ZipTwoEntryExtraction | main.py:37-44 | Extracting that archive into an empty directory yields exactly `readme.txt` and `info.json`, holding the entries' bytes |
| ExtractionFacts.SpecialNamesNeverWritten | main.py:39-46 | A write whose target is '', '.' or '..' leaves the directory unchanged and is reported as an error, whatever the entry's own fate; the same holds for an OLE stream at main.py:81-88 |
| ExtractionFacts.ZipDirectoryEntryFails | main.py:38-46 | An entry whose name ends in '/' has the empty safe name: it is reported as found, then as an error, and writes nothing |
| ExtractionFacts.ZipExtractionIdempotent | main.py:22-54 | Extracting the same archive twice into the same directory leaves what extracting it once left, when the first run leaves the archive file itself unchanged and every entry meets the same fate in both runs |
| ExtractionFacts.OleNamelessStreamIgnored | main.py:67-68 | Inserting a stream whose name list is empty anywhere in the directory changes neither the streams looked at, nor the writes, nor the log |
| ExtractionFacts.OleFailureContinues | main.py:70-88 | A named stream that cannot be read is logged as an error, in list-only mode too. It leaves the directory as if it were absent, and the streams after it are still processed |
| ExtractionFacts.OleWritesOfListed | main.py:67-84 | The writes are exactly those of the named streams, one each, in directory order |
| ExtractionFacts.OleListingReportsEveryStream | main.py:67-77 | In list-only mode every named stream is reported once, in order: by path and size, or as an error when it cannot be read |
| ExtractionFacts.OleLastStreamWins | main.py:80-84 | The file named after a stream holds that stream's bytes, unchanged, when no later named stream with the same safe name opens it |
| ExtractionFacts.OleWritesStayInside | main.py:79-81 | Every file extract_ole creates or changes has a writable name without '/', equal to some named stream's components joined with '_' |
| ExtractionFacts.OleExtractionIdempotent | main.py:57-93 | Extracting the same compound file twice leaves what extracting it once left, when the first run leaves the compound file itself unchanged and every entry meets the same fate in both runs |
| ExtractionFacts.ZipUnopenedWritesNothing | main.py:48-53 | An archive that cannot be opened leaves the directory as it was and is reported once, as not a ZIP archive or as an error |
| ExtractionFacts.OleUnopenedWritesNothing | main.py:59-92 | A file `isOleFile` rejects, or a compound file that cannot be opened, leaves the directory as it was and is reported once |
| Dispatch.Detect | main.py:109-132 | The route is taken in this order: missing path, ZIP test, OLE test, a failed probe, and the four-byte probe, which picks ZIP exactly for files of at least four bytes starting with `50 4B 03 04`. Each route is stated as an if-and-only-if on the inputs |
| Dispatch.ShortFileUnidentified | main.py:122-132 | A readable file shorter than four bytes that neither library accepts is reported as unsupported and unidentified, and nothing is written |
| Dispatch.Analyze | main.py:108-134 | A run logs FileNotFound and returns before mkdir when the path is missing. Otherwise it creates the directory and leaves the files and log of the chosen route |
| Dispatch.Header | main.py:125-128 | `f.read(4)` gives the first four bytes, or the whole of a shorter file, and equals `50 4B 03 04` exactly when the file has at least four bytes and starts with them |
| Dispatch.RunFiles | main.py:109-134 | Both ZIP routes leave what extract_zip leaves and the OLE route what extract_ole leaves; in list-only mode, for a missing file, an unidentified file or a failed probe, the output directory is left as it was |
| Dispatch.RunEvents | main.py:109-134 | A missing path logs FileNotFound alone. The ZIP-test route logs what extract_zip logs and the OLE route what extract_ole logs. A file neither library accepts logs UnsupportedFormat first, followed by ZipHeaderDetected and extract_zip's log, by TypeUnidentified, or by ProbeError. The first record is FileNotFound exactly when the path is missing, and UnsupportedFormat exactly when the path exists and neither library accepts the file |
| Dispatch.ZipTestRoute | main.py:116-118 | When the ZIP test accepts the file, a run leaves and logs exactly what extract_zip does |
| Dispatch.OleTestRoute | main.py:116-120 | When only the OLE test accepts the file, a run leaves and logs exactly what extract_ole does |
| Dispatch.ProbeRoutes | main.py:121-134 | For a file neither library accepts, a run logs UnsupportedFormat, then ProbeError when the file cannot be read, ZipHeaderDetected followed by extract_zip's log when it starts with `50 4B 03 04`, or TypeUnidentified otherwise; only the ZIP header leads to writes, those of extract_zip |
| Dispatch.Probe | main.py:121-134 | The probe of the first four bytes: the files and the log become exactly those `ProbeRoutes` gives, and the directory flag is untouched |
| Dispatch.RunIdempotent | main.py:109-134 | Running twice on the same file into the same directory leaves what one run left, when the first run leaves the input file itself unchanged and every entry meets the same fate in both runs |
| Dispatch.RunStaysInside | main.py:114-130 | Whatever the input, every file a run creates or changes has a writable name without '/', so the name written lies directly in the output directory |

## Left out

- Argument parsing, logging configuration and verbosity (main.py:13-20, 96-106): the log is modelled as the sequence of records, without levels, timestamps or message text.
- `mimetypes.guess_type` (main.py:30, 73): it only affects log text, so the `Found` record carries the name and size but no type.
- The ZIP and OLE parsers: an opened container is given as the list of its entries. Their order is whatever `infolist()` and `listdir()` return.
- Operating-system error semantics: which reads, opens and writes fail is part of the input (`Fate`). Only the names `''`, `.` and `..` are known always to fail.
- Only the POSIX separator `/` is modelled. `os.path.basename` on Windows also splits at `\`.
- An `isOleFile` call that raises (main.py:60, 119) is not modelled. At main.py:119 it would end the program; here the OLE test is a boolean.
- A failing `mkdir` (main.py:114), which would end the program, is not modelled: `Create` always succeeds.
- The OLE handle is never closed when an exception is raised outside the inner `try` (by `listdir()`, for example). An exception from `ole.close()` (main.py:89), which would make `extract_ole` return False after the writes, is not modelled.
- `listdir()` failing after `OleFileIO` succeeded is folded into `OleOpenFails`, so the model omits the "Processing OLE" record that precedes that error.
- The process exit code is not modelled. It is 0 on every path where no exception escapes `main`, and 1 when one does (main.py:114, 119).
- The input file is assumed not to be one of the files written. `InputFile` is kept apart from `OutputDir.files`, but with the default output directory `.` the container can sit in it: an entry whose safe name equals the container's own name truncates the container while it is still being read (main.py:42, 83), and a later run then reads different bytes. The idempotence lemmas hold only when the first run leaves the container file unchanged and every entry meets the same fate in both runs: a write that completed in the first run but fails after its open in the second (a full disk, say) leaves a truncated file (main.py:42, 83).
- The file system is assumed to be case-sensitive and free of links. Output files are independent keys of a map, so on a case-insensitive file system `README.TXT` overwrites an existing `readme.txt`, which `UntouchedKept`, `FailureIsLocal` and `LastWriterWins` do not allow for. `open(..., 'wb')` (main.py:42, 83) also follows a symbolic link already in the output directory and writes outside it; `RunStaysInside` speaks only of the name written.
