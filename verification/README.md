# SoulsFormatsTester discovery core in Dafny

This project models the discovery core of SoulsFormatsTester. The tool walks a
folder of game files, identifies each file's format, and descends into containers:

- binders (BND2, BND3, BND4, MGF);
- DCX compression;
- split binders (BHF/BDF);
- BHD5 and LDMU archives;
- Zero3 multi-part archives.

For every blob it finds it hands a payload (`SearchData`) to a subscriber. It
keeps a ledger (`FoundSplitFiles`) of names it must not search twice. The buffered
console `Logger` is modelled too.

Everything is pure functions over immutable datatypes:

| module | file | models |
|---|---|---|
| `Results` | `results.dfy` | `Option` and `Result` with failure propagation |
| `Text` | `text.dfy` | The .NET string operations the engine relies on: invariant case mapping (ASCII), ordinal `StartsWith`/`EndsWith`, ordinal `string.Replace`, `Path.GetExtension`, `int.ToString()` and the `D3` format |
| `Streams` | `streams.dfy` | `StreamExtensions.GetByte`/`GetBytes` on a stream that is its content, a position and a disposed flag |
| `Payloads` | `payloads.dfy` | `SearchData`: its constructors, `Dispose`, and the engine's `ResetStream` |
| `Sniffing` | `sniffing.dfy` | `GetMagic`, `GuessFormat`, `GuessFlverFormat`, `SearchBytesInternal`, `SearchStreamInternal` and `IsDCX` |
| `Naming` | `naming.dfy` | The split-file name substitutions, `CombineContainer` and `GetBinderFileName` |
| `Discovery` | `discovery.dfy` | The engine itself: `SearchFolder`, `SearchFile`, `SearchFeedbackFormat` and its arms, the container loops, `SearchDCX`, `SearchZero3`, and the `TryGetSplitFile` family |
| `Logging` | `logging.dfy` | `Logger` as a state machine; a timer tick is an explicit call |

How the engine is modelled:

- **File system.** A map from path to `Blob`.
- **Format readers.** The SoulsFormats readers and the DCX decompressor are not
  part of this model. Each `Blob` instead carries what they would produce:
  - the entry list a single-blob reader yields;
  - the entry list of the merged split view;
  - the decompressed content;
  - or the fact that the reader throws.
- **State.** `Engine` holds the ledger and the sequence of emitted payloads.
  Each search function takes an `Engine` and returns the later one.
- **Exceptions.** An exception becomes a `Failure`.

## Model

| member | source | states |
|---|---|---|
| Text.ReplaceAll | SoulsFormatsTester/Search/SearchEngine.cs:508-525 | Replacing a pattern that does not occur is the identity. Equal-length patterns keep the length; a shorter replacement never lengthens the string and a longer one never shortens it. |
| Text.ReplaceRoundTrip | SoulsFormatsTester/Search/SearchEngine.cs:516-521 | Replacing `a` by `b` and then `b` by `a` restores a string that contained no `b`. |
| Text.ReplaceRemovesAll | SoulsFormatsTester/Search/SearchEngine.cs:516-525 | For the three-letter substitutions the engine uses, no occurrence of the pattern survives the replacement. |
| Text.UpperOfLower | SoulsFormatsTester/Search/SearchEngine.cs:1036-1042 | Upper-casing the lower-cased extension equals upper-casing the original. |
| Text.DotZerosIgnoreCase | SoulsFormatsTester/Search/SearchEngine.cs:94 | The case-insensitive `.000` test of `GuessFormat` and the ordinal one of `SearchFile` accept exactly the same names. |
| Text.GetExtension | SoulsFormatsTester/Search/SearchEngine.cs:1036 | The extension is non-empty iff a dot that is not the last character is followed by no dot and no directory separator. It is then the text from that dot onward. |
| Text.IntToString | SoulsFormatsTester/Search/SearchEngine.cs:842 | A non-negative number renders as digits denoting it, with no leading zero. A negative one renders as `-` followed by digits denoting its magnitude, again with no leading zero, and only negatives start with `-`. |
| Text.D3 | SoulsFormatsTester/Search/SearchEngine.cs:230 | Part numbers render as digits denoting the number: exactly three below 1000, zero-padded, and no leading zero when longer. |
| Text.D3Injective | SoulsFormatsTester/Search/SearchEngine.cs:250 | Distinct part numbers give distinct `D3` renderings. |
| Streams.Open | SoulsFormatsTester/Search/SearchEngine.cs:82 | A newly opened file stream holds the file's content at position 0 and is not disposed. |
| Streams.GetByte | SoulsFormatsTester/IO/StreamExtensions.cs:7-20 | The read succeeds iff the stream is open and the offset lies inside it, and yields the byte at that offset. A negative offset fails on the seek and an offset past the end fails with end-of-stream. The position is restored on every path. |
| Streams.GetBytes | SoulsFormatsTester/IO/StreamExtensions.cs:22-31 | The read succeeds iff the stream is open, the offset and length are non-negative, and the range is empty or lies inside the stream. It yields exactly those bytes and restores the position, so reading no bytes past the end yields nothing. A non-empty range that overruns fails with end-of-stream and leaves the position where the partial read stopped. |
| Streams.GetBytesAgreesWithGetByte | SoulsFormatsTester/IO/StreamExtensions.cs:7-31 | Each byte of a successful range read equals a single-byte read at that offset. |
| Payloads.FromBytes | SoulsFormatsTester/Search/SearchData.cs:16-23 | The byte constructor keeps the name, container, format and bytes, leaves the stream null, and yields one live source. |
| Payloads.FromStream | SoulsFormatsTester/Search/SearchData.cs:25-32 | The stream constructor keeps the stream and the leave-open flag and leaves the bytes null. |
| Payloads.FromOwnedStream | SoulsFormatsTester/Search/SearchData.cs:34 | The four-argument constructor does not leave the stream open. |
| Payloads.Dispose | SoulsFormatsTester/Search/SearchData.cs:38-59 | The first disposal closes the stream iff it is not left open and always marks the payload disposed. A disposed payload is unchanged. No identifying field changes. |
| Payloads.DisposeIdempotent | SoulsFormatsTester/Search/SearchData.cs:40-50 | Disposing twice is disposing once. |
| Payloads.DisposeLeavesBorrowedStreamOpen | SoulsFormatsTester/Search/SearchData.cs:44-47 | A payload told to leave its stream open still has a usable stream after disposal. |
| Payloads.ResetStream | SoulsFormatsTester/Search/SearchEngine.cs:645-651 | Afterwards the payload is at position 0 with the same content and identity. An already rewound payload is unchanged. |
| Sniffing.AsciiChar | SoulsFormatsTester/Search/SearchEngine.cs:1051 | ASCII decoding keeps bytes below 0x80 and turns every other byte into `?`. |
| Sniffing.GetMagic | SoulsFormatsTester/Search/SearchEngine.cs:1045-1058 | The magic is always four characters, each the ASCII decoding of the corresponding byte. The empty-string fallback cannot happen. |
| Sniffing.PngMagicUnreachable | SoulsFormatsTester/Search/SearchEngine.cs:938-939 | No byte sequence decodes to the magic of the PNG arm, so that arm never fires. |
| Sniffing.FirstSuffixMatch | SoulsFormatsTester/Search/SearchEngine.cs:952-1033 | The result is absent iff no file-name rule matches. Otherwise it is the tag of a matching rule with no earlier rule matching. |
| Sniffing.ExtensionFormat | SoulsFormatsTester/Search/SearchEngine.cs:1035-1042 | The fallback tag is the lower-cased name's extension without its dot, upper-cased (so it holds no lower-case letter), or empty when there is no extension. |
| Sniffing.GuessFormat | SoulsFormatsTester/Search/SearchEngine.cs:865-871 | The tag is `Zero3` iff the name ends in `.000`, ignoring case. No magic, name rule or extension produces `Zero3` otherwise. |
| Sniffing.NotZero3FromMagic | SoulsFormatsTester/Search/SearchEngine.cs:875-950 | No arm of the magic switch yields `Zero3`. |
| Sniffing.NotZero3FromSuffix | SoulsFormatsTester/Search/SearchEngine.cs:952-1033 | No file-name rule yields `Zero3`. |
| Sniffing.NotZero3FromExtension | SoulsFormatsTester/Search/SearchEngine.cs:1035-1042 | The extension fallback never yields `Zero3`, whose `ero` is lower case. |
| Sniffing.PassThroughRule | SoulsFormatsTester/Search/SearchEngine.cs:877-896 | Each of the nineteen pass-through magics is its own tag. |
| Sniffing.DcxRule | SoulsFormatsTester/Search/SearchEngine.cs:901-903 | Both DCX magics give `DCX`. |
| Sniffing.FlveRule | SoulsFormatsTester/Search/SearchEngine.cs:904-905 | `FLVE` gives `FLVER`. |
| Sniffing.Bhf4Rule | SoulsFormatsTester/Search/SearchEngine.cs:897-900 | `BHF4` gives `BHD5` iff the lower-cased name ends `.bdt`, and `BHF4` otherwise. |
| Sniffing.RiffRule | SoulsFormatsTester/Search/SearchEngine.cs:932-935 | `RIFF` gives `FEV5` iff the lower-cased name ends `.fev`, and `WAV` otherwise. |
| Sniffing.NameRules | SoulsFormatsTester/Search/SearchEngine.cs:952-1042 | With no magic arm applying, the first matching name rule decides. With none matching, the extension decides. |
| Sniffing.GuessFlverFormat | SoulsFormatsTester/Search/SearchEngine.cs:848-863 | `FLVER` becomes `FLVER2` iff the version is 2, `FLVER0` iff it is below 2, and stays `FLVER` iff it is above 2. Every other tag passes through. |
| Sniffing.SearchBytesInternal | SoulsFormatsTester/Search/SearchEngine.cs:340-365 | The payload carries the bytes, name and container and is emittable. Under four bytes the tag is empty. The tag is `Zero3` iff there are at least four bytes and the `.000` rule holds. |
| Sniffing.FlverRefinement | SoulsFormatsTester/Search/SearchEngine.cs:353-362 | FLVER refinement happens only above ten bytes. It reads the version at offset 9 after a 0x42 endianness byte and at offset 10 otherwise, with the three outcomes exact. |
| Sniffing.SearchStreamInternal | SoulsFormatsTester/Search/SearchEngine.cs:367-391 | The stream path gives the same tag as the byte path on the same content, keeps the stream untouched, and keeps the leave-open flag. |
| Sniffing.IsDCX | SoulsFormatsTester/Search/SearchEngine.cs:701-722 | True iff the payload's content, from the array or the stream, has at least four bytes and starts with a DCX magic. |
| Sniffing.ExtensionDcxIsNotDecompressed | SoulsFormatsTester/Search/SearchEngine.cs:417-423 | A blob tagged DCX by anything but its magic fails the re-check and is not decompressed. |
| Sniffing.DcxMagicIsTaggedDcx | SoulsFormatsTester/Search/SearchEngine.cs:901-903 | A blob with a DCX magic, not named `.000`, is tagged DCX and passes the re-check. |
| Naming.GetBdtName | SoulsFormatsTester/Search/SearchEngine.cs:520-521 | The data path has the same length as the header path, contains no `bhd`, and is the same path when there was none. |
| Naming.GetBhdName | SoulsFormatsTester/Search/SearchEngine.cs:516-517 | The header path has the same length, contains no `bdt`, and is the same path when there was none. |
| Naming.GetLdmuDataName | SoulsFormatsTester/Search/SearchEngine.cs:524-525 | The LDMU data path has the same length, contains no `bhd`, and is the same path when there was none. |
| Naming.GetBhd5DataName | SoulsFormatsTester/Search/SearchEngine.cs:512-513 | The result is never longer than the input and is the same path when there is no `dvdbnd5`. |
| Naming.GetBhd5Name | SoulsFormatsTester/Search/SearchEngine.cs:508-509 | The result is never shorter than the input and is the same path when there is no `dvdbnd`. |
| Naming.BhdNameOfBdtName | SoulsFormatsTester/Search/SearchEngine.cs:516-521 | The header name of the data name of a header path without `bdt` is that path. |
| Naming.BdtNameOfBhdName | SoulsFormatsTester/Search/SearchEngine.cs:516-521 | The data name of the header name of a data path without `bhd` is that path. |
| Naming.LdmuDataNameInjective | SoulsFormatsTester/Search/SearchEngine.cs:524-525 | Two LDMU header paths without `bnd` that share a data path are the same path. |
| Naming.Bhd5DataNameOfBhd5Name | SoulsFormatsTester/Search/SearchEngine.cs:508-513 | For every path, turning each `dvdbnd` into `dvdbnd5` and then each `dvdbnd5` back into `dvdbnd` gives the original path. |
| Naming.CombineContainer | SoulsFormatsTester/Search/SearchEngine.cs:833-834 | The key starts with the container and ends with the name. It equals the name iff the container is empty. Otherwise a single bar character separates the two. |
| Naming.GetBinderFileName | SoulsFormatsTester/Search/SearchEngine.cs:841-842 | An entry is named by its own name if it has one. Otherwise it is named by the decimal digits of its ID, or of its index when the ID is -1, with no leading zero and a `-` for a negative ID. |
| Discovery.Load | SoulsFormatsTester/Search/SearchEngine.cs:527-549 | A file found on disk is read whole below 500 MiB and opened as an owned stream otherwise. The result is emittable, with the file's content, name and tag. |
| Discovery.FindInReader | SoulsFormatsTester/Search/SearchEngine.cs:551-639 | The only failure is the null-name error. A find is a live, byte-backed payload with the requested name and tag under the caller's container. |
| Discovery.FindInReaderNone | SoulsFormatsTester/Search/SearchEngine.cs:551-564 | The lookup finds nothing iff every entry is named and none has the name. |
| Discovery.FindInReaderFails | SoulsFormatsTester/Search/SearchEngine.cs:551-564 | The lookup raises iff an unnamed entry comes before any entry with the name. |
| Discovery.FindInReaderFindsFirst | SoulsFormatsTester/Search/SearchEngine.cs:551-564 | A find carries the bytes of the first entry with the name. |
| Discovery.TryGetSplitFile | SoulsFormatsTester/Search/SearchEngine.cs:527-549 | On disk, the lookup never fails and finds a file iff the path exists. In a reader it finds a byte-backed payload under the reader's container. Every find has the requested name and tag. |
| Discovery.EntryName | SoulsFormatsTester/Search/SearchEngine.cs:117-334 | BND2 and Zero3 entries are named by their own name and fail when it is null. Every BND3/BND4/BXF entry is named `GetBinderFileName` of its name, ID and position: its own name, else its ID, else its position when the ID is -1. LDMU entries are named by the decimal digits of their ID, with a `-` when negative, and MGF entries by those of their index. Neither has a leading zero. |
| Discovery.CompanionTag | SoulsFormatsTester/Search/SearchEngine.cs:424-471 | A header half expects a data half of the same version, and a data half expects a header half. |
| Discovery.CompanionTagInvolutive | SoulsFormatsTester/Search/SearchEngine.cs:424-471 | The companion of the companion is the original tag. |
| Discovery.CompanionName | SoulsFormatsTester/Search/SearchEngine.cs:424-471 | A header looks for its data file under `GetBdtName` of its name, a `bhd`-free name of the same length. A data file looks for its header under `GetBhdName` of its name, a `bdt`-free one. |
| Discovery.CompanionNameRoundTrip | SoulsFormatsTester/Search/SearchEngine.cs:424-471 | A header whose name has no `bdt` is found again from its data file: the data file's companion name is the header's name. |
| Discovery.CompanionNameRoundTripData | SoulsFormatsTester/Search/SearchEngine.cs:424-471 | A data file whose name has no `bhd` is found again from its header in the same way. |
| Discovery.DcxInnerName | SoulsFormatsTester/Search/SearchEngine.cs:278-287 | A name ending `.dcx` in any case loses exactly those four characters. Any other name is kept. |
| Discovery.Feedback | SoulsFormatsTester/Search/SearchEngine.cs:397-501 | Every successful pass only extends the engine and hands back the same payload, rewound. Split, BHD5 and LDMU tags record the payload's name. Each container tag goes to its own arm: BND2/BND3/BND4/MGF to the binder arm, DCX to the DCX arm, BHF/BDF to the split-binder arm, BHD5 and LDMU to theirs. Tags without an arm change nothing. |
| Discovery.BinderArm | SoulsFormatsTester/Search/SearchEngine.cs:401-416 | An unreadable binder fails. A readable one succeeds iff the entry loop over its files does, and leaves the engine that loop leaves. MGF names entries by index with on-disk companions. BND2 names them by name, and BND3/BND4 by header, both with companions among the binder's own files. |
| Discovery.BinderNaming | SoulsFormatsTester/Search/SearchEngine.cs:117-333 | BND2 entries are named by name, MGF entries by index, and BND3/BND4 entries by header, and no other way. |
| Discovery.BinderLocator | SoulsFormatsTester/Search/SearchEngine.cs:117-333 | Only MGF looks for companions on disk. Every other binder looks among its own files under its own container. |
| Discovery.DcxArm | SoulsFormatsTester/Search/SearchEngine.cs:417-423 | Without a real DCX magic nothing happens. An undecompressible DCX fails. A decompressed one succeeds iff `SearchDCX` on its content does, and leaves the engine `SearchDCX` leaves. |
| Discovery.SplitBinderArm | SoulsFormatsTester/Search/SearchEngine.cs:424-471 | The payload's own name is always recorded. A missing companion records only that. A found companion is emitted last under its name and tag and recorded too. A failing lookup fails. With the companion found, an unreadable merged view fails. A readable one succeeds iff the search of the merged view's entries does. The ledger is then that search's ledger plus both names, and one payload is emitted after that search's. |
| Discovery.SplitBinderMerge | SoulsFormatsTester/Search/SearchEngine.cs:425-434 | With the other half found, an unreadable merged view fails. A readable one succeeds iff its entry search does. The ledger is then that search's ledger plus both names, and the emitted list is that search's list plus the companion, rewound. |
| Discovery.Bhd5Arm | SoulsFormatsTester/Search/SearchEngine.cs:472-486 | Under any lookup, on disk or in a reader, the arm succeeds iff `Bhd5Lookup` does. A found data file is emitted as found and is the only emission. The ledger then gains its name and the header's. With nothing found only the header's name is recorded. On disk the lookup never fails, the `bdt` name is tried first, and the `dvdbnd` variant only when it is missing. |
| Discovery.Bhd5Lookup | SoulsFormatsTester/Search/SearchEngine.cs:474-483 | Under any lookup, a file found under the `bdt` name is the result. When nothing is found there, the result is the lookup of the `bdt` name of the `dvdbnd` variant. A failing first lookup fails the whole. On disk the lookup never fails, and a file is found iff one of the two names exists. |
| Discovery.LdmuArm | SoulsFormatsTester/Search/SearchEngine.cs:487-497 | The header name is recorded. A missing data file leaves only the record. With a data file found and the archive readable, the arm succeeds iff the entry search does. The ledger is then that search's ledger plus the header name, and the emitted list is that search's list plus the data file, emitted last. With the data file found but the archive unreadable, the arm fails. |
| Discovery.SearchDCX | SoulsFormatsTester/Search/SearchEngine.cs:276-297 | A container key already in the ledger changes nothing. Otherwise the decompressed bytes are classified again under the name without `.dcx`, and that payload goes through the feedback pass with on-disk companions. The search succeeds iff that pass does, and the payload is then emitted last, under the key, with the re-classified tag and the decompressed bytes. |
| Discovery.Search | SoulsFormatsTester/Search/SearchEngine.cs:117-217 | The entry loop only extends the engine. A container key already in the ledger skips every entry. A non-empty container with a fresh key emits something. |
| Discovery.SearchEmitsEntriesInOrder | SoulsFormatsTester/Search/SearchEngine.cs:117-217 | Under a fresh container key the loop emits one payload per entry, in entry order. Each payload has the entry's name as the container names it, the container key, the tag its bytes classify to under that name, and the entry's bytes. Every entry gets one unless a feedback pass recorded the key itself, and the first entry always does. After a full container the last entry's payload is emitted last. |
| Discovery.SearchFirstEntry | SoulsFormatsTester/Search/SearchEngine.cs:117-217 | The first entry under a fresh key is classified under its name and key, and goes through the feedback pass with the container's companion lookup. The pass succeeds, and the payload it hands back is emitted on top of the engine it leaves, with the entry's name, key, tag and bytes. The loop then carries on from that engine with the remaining entries. |
| Discovery.PartNameNumber | SoulsFormatsTester/Search/SearchEngine.cs:229-230 | A part path is the base followed by digits that denote the part number. |
| Discovery.PartNamesCount | SoulsFormatsTester/Search/SearchEngine.cs:228-251 | Parts 1 to n have n distinct paths. |
| Discovery.Zero3Stop | SoulsFormatsTester/Search/SearchEngine.cs:231 | The walk stops at the first missing part, and every part before it exists. |
| Discovery.Zero3Parts | SoulsFormatsTester/Search/SearchEngine.cs:228-251 | The part walk only extends the engine and records every part up to the first missing one. |
| Discovery.Zero3PartsEmitsFreshParts | SoulsFormatsTester/Search/SearchEngine.cs:236-247 | Only parts not already in the ledger are emitted. Each is a top-level `Zero3` payload, once, in increasing part order. |
| Discovery.Zero3PartsEmitsEveryFreshPart | SoulsFormatsTester/Search/SearchEngine.cs:236-247 | Every part before the first missing one that the ledger did not hold is emitted during the walk, loaded from disk under its own path with the `Zero3` tag. |
| Discovery.Zero3Base | SoulsFormatsTester/Search/SearchEngine.cs:229 | The base is the path without its last three characters. |
| Discovery.SearchZero3 | SoulsFormatsTester/Search/SearchEngine.cs:223-252 | A missing archive fails, and so does an unreadable one. A readable archive's search succeeds iff the search of its entries by name does. The result is then the part walk from part 1 on the engine that search leaves. A successful search records every numbered part before the first missing one. |
| Discovery.Zero3Branch | SoulsFormatsTester/Search/SearchEngine.cs:92-107 | A `.000` path is searched as the Zero3 archive. Any other path of four or more characters searches its sibling `.000` archive when that file exists. Otherwise nothing happens. Either way the engine is only extended. |
| Discovery.Zero3TagMeansDotZeros | SoulsFormatsTester/Search/SearchEngine.cs:92-107 | A blob tagged `Zero3` has a name ending `.000` exactly. So for every file system and engine the special case searches the path itself, and the sibling-archive branch never runs. |
| Discovery.RootPayload | SoulsFormatsTester/Search/SearchEngine.cs:72-84 | The payload of a file on disk is top-level, classified like its bytes, and byte-backed iff the file is under 500 MiB. |
| Discovery.SearchFile | SoulsFormatsTester/Search/SearchEngine.cs:64-111 | A path in the ledger changes nothing and a missing path fails. Otherwise the engine is only extended and the file's own payload is emitted last: top-level, classified, and byte-backed iff under 500 MiB. A file not tagged Zero3 succeeds iff its payload's feedback pass does, and its payload is emitted on top of the engine that pass leaves. A Zero3-tagged file ends `.000`. It first has its archive searched, then the same feedback pass runs on the engine that search leaves. |
| Discovery.SearchFolder | SoulsFormatsTester/Search/SearchEngine.cs:55-62 | A walk only extends the engine. On success every enumerated path exists or is in the final ledger. |
| Discovery.HeaderThenDataSearchedOnce | SoulsFormatsTester/Search/SearchEngine.cs:424-435 | After a split header is searched with its data file present, both are in the ledger, and searching either again changes nothing. |
| Discovery.LeafFileEmittedAlone | SoulsFormatsTester/Search/SearchEngine.cs:109-110 | A file with no container tag is emitted alone and rewound, and the ledger is untouched. |
| Discovery.LdmuDataFileNotRecorded | SoulsFormatsTester/Search/SearchEngine.cs:487-497 | On disk, with the data file present and the archive readable, the LDMU arm succeeds iff the archive's entry search does. The ledger then gains only the header's name beyond that search's ledger, and the data file is emitted last. |
| Discovery.FolderCoversEveryPath | SoulsFormatsTester/Search/SearchEngine.cs:55-62 | After a successful walk every enumerated path is in the ledger or was emitted as a top-level payload during the walk. |
| Logging.Increment | SoulsFormatsTester/Logging/Logger.cs:103 | The write count goes up by one and wraps from 2^31-1 to -2^31. |
| Logging.New | SoulsFormatsTester/Logging/Logger.cs:36-54 | Construction fails exactly when the interval is under one millisecond or over `int.MaxValue` milliseconds, as building the timer throws. Otherwise the new logger has an empty buffer and console, zero counts, the given thresholds, the dumped flag set, and a timer running iff `start`. |
| Logging.DumpBuffer | SoulsFormatsTester/Logging/Logger.cs:94-99 | The whole buffer is appended to the console and emptied. Nothing else changes and the transcript is preserved. |
| Logging.Flush | SoulsFormatsTester/Logging/Logger.cs:147-149 | Flushing prints the buffer and leaves the counts alone. |
| Logging.ThresholdBufferDump | SoulsFormatsTester/Logging/Logger.cs:73-92 | At or above the write threshold the buffer is dumped and the write count zeroed. Below it the skip count grows until it reaches the force threshold; then it restarts and the buffer is dumped. Output happens only with the count zeroed. |
| Logging.Tick | SoulsFormatsTester/Logging/Logger.cs:56-71 | A tick on a dumped buffer prints nothing. It disables the timer iff the logger believed it running. Otherwise the tick is a threshold dump. |
| Logging.UpdateBufferState | SoulsFormatsTester/Logging/Logger.cs:101-109 | One more write, not dumped. A timer believed stopped is enabled again with the stopped flag left set. |
| Logging.Write | SoulsFormatsTester/Logging/Logger.cs:111-115 | The text is appended to the transcript but not printed. |
| Logging.WriteLine | SoulsFormatsTester/Logging/Logger.cs:117-121 | The text and a line terminator are appended to the transcript but not printed. |
| Logging.WriteEmptyLine | SoulsFormatsTester/Logging/Logger.cs:123-127 | A line terminator is appended to the transcript but not printed. |
| Logging.DirectWrite | SoulsFormatsTester/Logging/Logger.cs:129-133 | The buffered text is printed first, then the text. |
| Logging.DirectWriteLine | SoulsFormatsTester/Logging/Logger.cs:135-139 | The buffered text is printed first, then the text and a terminator. |
| Logging.DirectWriteEmptyLine | SoulsFormatsTester/Logging/Logger.cs:141-145 | The buffered text is printed first, then a terminator. |
| Logging.Clear | SoulsFormatsTester/Logging/Logger.cs:151-156 | The buffer is discarded unprinted and the write count zeroed. |
| Logging.Start | SoulsFormatsTester/Logging/Logger.cs:158-165 | Start acts only when the logger believes the timer stopped. Afterwards it never believes so. |
| Logging.Stop | SoulsFormatsTester/Logging/Logger.cs:167-174 | Stop acts only when the logger believes the timer running. Afterwards it always believes it stopped. |
| Logging.Dispose | SoulsFormatsTester/Logging/Logger.cs:176-202 | The first disposal prints the buffer, stops and disposes the timer, and clears. Later disposals change nothing. |
| Logging.DisposeIdempotent | SoulsFormatsTester/Logging/Logger.cs:176-195 | Disposing twice is disposing once, and everything buffered reaches the console. |
| Logging.WriteRestartsTimerBehindStop | SoulsFormatsTester/Logging/Logger.cs:101-109 | On a logger built without starting, one write enables the timer while the stopped flag stays set. `Stop` then cannot disable it, and ticks on a dumped buffer never pause it. |
| Logging.Apply | SoulsFormatsTester/Logging/Logger.cs:111-174 | Each call appends exactly its text to the transcript and never disposes the timer. |
| Logging.ApplyKeepsSkipsBounded | SoulsFormatsTester/Logging/Logger.cs:76-87 | No single call takes the skip count out of its bounds. |
| Logging.TranscriptInCallOrder | SoulsFormatsTester/Logging/Logger.cs:94-149 | Over any sequence of calls and ticks, console followed by buffer is the earlier text followed by the calls' texts in call order. |
| Logging.FlushedConsoleInCallOrder | SoulsFormatsTester/Logging/Logger.cs:147-149 | After a final flush the console holds everything written, in call order. |
| Logging.SkipsStayBounded | SoulsFormatsTester/Logging/Logger.cs:76-87 | No sequence of calls takes the skip count below zero or past the force threshold. When that threshold is negative, the count stays at zero. |

## Left out

- **Format readers and decompression.** The SoulsFormats readers (`ReadBND2` … `ReadLDMU`, `DCX.Decompress`, `Zero3.Read`) are external code. Each `Blob` carries their outcome instead. Their "no source data" throws cannot happen, because every payload has exactly one source.
- **File-system I/O.**
  - The file system is an immutable map. A file's length is its byte count.
  - `Directory.EnumerateFiles` order is a parameter of `SearchFolder`.
  - Files changing during a walk are not modelled.
- **The `OnSearch` event.** It is modelled as appending to `Engine.emitted`. A missing subscriber, and subscribers that dispose or read payloads, are not modelled.
- **Exceptions.** An exception is a `Failure` that ends the walk. Ledger updates made before the throw persist in the C# engine object but are not carried by the model's `Failure`. Likewise, payloads already handed to `OnSearch` before the throw were delivered in the C# program, while the model's `Failure` drops the emitted list with the rest of the engine.
- Discovery.EntryName: a null BND2 or Zero3 entry name is always the `NullName` error. The C# program only throws once classification looks at the name, which it skips for blobs under four bytes.
- Discovery.FindInReader: a null entry name met before the match is the `NullName` error, as `file.Name.Equals` throws.
- **Reader consumption.** Reading a stream-backed payload is modelled as moving its position to the end. `ResetStream` rewinds it.
- **Text operations.**
  - Case mapping covers ASCII letters only.
  - Culture-sensitive `EndsWith(string)` is modelled as ordinal.
  - `Path.GetExtension` follows the Windows runtime: it stops at `/` and `\`.
- Text.IntToString: `int.ToString()` uses the current culture's negative sign, which some cultures render as U+2212 (minus sign); the model always uses `-`.
- **SearchDCX companion lookup.** `SearchDCX` ignores the companion lookup it is passed and uses the on-disk one; the model does the same.
- **Loop indexes.** The 32-bit binder and Zero3 loop indexes are unbounded integers. Overflow would need more than 2^31 entries.
- **Sibling-archive branch.** The branch of `SearchFile` that searches a sibling `.000` archive is modelled, and `Zero3TagMeansDotZeros` shows it cannot run.
- **Logger timer.**
  - Timer scheduling and the threads it involves are not modelled. A tick is a call made only while the timer is enabled.
  - Races between ticks and writers are not modelled.
- Logging.Write: writing to a disposed logger throws from `Timer.Start`. The model makes it a precondition (`CanStartTimer`) rather than modelling the partially applied write.
- Logging.WriteLine: the same `CanStartTimer` precondition stands for the `Timer.Start` throw on a disposed logger.
- Logging.WriteEmptyLine: the same `CanStartTimer` precondition stands for the `Timer.Start` throw on a disposed logger.
- Logging.UpdateBufferState: restarting a disposed timer throws; the model requires `CanStartTimer` instead of modelling that exception.
- Logging.Start: starting a disposed timer throws; the model requires `CanStartTimer` instead of modelling that exception.
- **Logger settings.** The `IntervalSeconds`, `WriteThreshold` and `ForceWriteThreshold` setters, and `IsDisposed`, are plain field updates and reads. They are not modelled as operations.
- **Line terminator.** It is fixed to the Windows `\r\n`.
- **Code outside this model.** `AppLogger.cs`, `ConsoleLog.cs`, `TestEngine.cs`, `Program.cs`, `SearchDataEventArgs.cs` and `SearchResult.cs` are not part of it. The `SearchData` finalizer plumbing is not modelled.
