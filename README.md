# frida-ios-dump, modelled in Dafny

frida-ios-dump pulls a decrypted copy of an installed iOS application off a
jailbroken device. An agent script runs inside the target process. It
walks the application bundle and sends every directory and file to the
host. For each of the application's own Mach-O modules, it also reads the
module file, finds the `LC_ENCRYPTION_INFO(_64)` load command, and does
two things to the file buffer: it zeroes the `cryptid` word, and it
overwrites the encrypted range with the plaintext that is already mapped
in memory. It then sends the patched buffer. On the host, a controller
session (`decrypter.py`) rebuilds the bundle in a staging directory and
decides the exit status. An older SSH-based dumper (`dump.py`) contributes
a few helpers.

The project models these parts:

- The Mach-O parser, as pure functions over byte sequences. The file is
  `seq<byte>` and addresses are integers.
  - `MachOHeader.dfy`: the header decode.
  - `LoadCommand.dfy`, `EncryptionInfo.dfy`, `CommandFactory.dfy`: the
    load-command records.
  - `MachO.dfy`: the walk over the command table, with its loop as a
    method. The loop as written (`SourceLoop`) is kept beside it to show
    where the two differ.
  - `LittleEndian.dfy`: Node's little-endian buffer reads and writes.
- `Agent.dfy` covers the agent's work in `agent/index.ts`:
  - the payload-path and remote-path derivation;
  - the bundle walk over an abstract directory tree, plus the loop and
    recursion that send its messages;
  - the in-place patch of the module buffer, which is an `array<byte>`,
    proved equal to a functional specification;
  - the per-module dump.
- `Pull.dfy`: the buffer chunking of the pull stream, the settle-once
  outcome of a transfer as a class over the listener set, and the
  incoming-message filter.
- `Decrypter.dfy`: the controller session as a class.
  - Its fields, methods and the staging file system (a map from path to
    node) follow `DecrypterApplication`.
  - A pure `Process` function specifies the message dispatch. An
    `EntryRule` parameter selects the `pull:io-error` entry. `AsWritten`
    is what the code records, and `Corrected` is the fix described under
    Findings.
  - Python exceptions are returned as values. A state change made before
    an exception is kept.
- `Dump.dfy`: the `dump.py` helpers.
  - The application comparator and `cmp_to_key`.
  - Icon trimming and the process filter.
  - The insertion-ordered file table and the moves derived from it.
  - The progress bookkeeping and the `.ipa` suffix rule.
- `Common.dfy`: `Result`/`Option`, the integer widths, and the string
  helpers that mirror JavaScript's `replace`/`substring`.

## Model

| member | source | states |
|---|---|---|
| LittleEndian.ToInt32 | agent/lib/macho/header.ts:31-32 | a word below 2^31 is kept; any other word becomes itself minus 2^32 (two's complement) |
| LittleEndian.SignedRoundTrip | agent/lib/macho/header.ts:31-32 | reinterpreting a signed word as unsigned and back gives the word back |
| LittleEndian.ReadUInt32LE | agent/lib/macho/header.ts:30-36 | the read succeeds exactly when all four bytes lie inside the buffer; otherwise it fails with OutOfRange at that offset |
| LittleEndian.ReadInt32LE | agent/lib/macho/header.ts:31-32 | succeeds exactly when the unsigned read succeeds, and yields that word's two's-complement value |
| LittleEndian.DecodeEncodeU32 | agent/lib/macho/header.ts:29-38 | decoding the four little-endian bytes of a word gives the word back |
| LittleEndian.EncodeDecodeU32 | agent/lib/macho/header.ts:29-38 | encoding the word that four bytes decode to gives those bytes back |
| LittleEndian.ReadEncoded | agent/lib/macho/header.ts:29-38 | a read at an offset holding a word's encoding returns that word |
| LittleEndian.WriteUInt32LE | agent/index.ts:73 | the write succeeds exactly when the word fits; the length is kept; every byte outside the four written ones is unchanged |
| LittleEndian.ReadAfterWrite | agent/index.ts:73-74 | reading back the word just written returns it, so the "cryptid is not properly set" assertion always holds |
| LittleEndian.WriteUInt32LEInPlace | agent/index.ts:73 | afterwards the array holds exactly what the functional write produces from its old contents |
| MachOHeader.HeaderSizes | agent/lib/macho/header.ts:1-7 | the header is 28 bytes (7 words), or 32 bytes (8 words) for 64-bit |
| MachOHeader.DecodeHeader | agent/lib/macho/header.ts:29-38 | it succeeds exactly when 28 bytes are present, or 32 for a 64-bit magic; it gives the fields at offsets 0, 12, 16, 20 and 24 unsigned, and those at 4 and 8 signed; `reserved` is present exactly for a 64-bit magic and is the word at 28 |
| MachOHeader.EncodeHeader | agent/lib/macho/header.ts:29-38 | the encoded header is 32 bytes when `reserved` is present and 28 otherwise |
| MachOHeader.WordAt | agent/lib/macho/header.ts:29-38 | a word encoded at some position reads back from that position, whatever surrounds it |
| MachOHeader.DecodeFromWords | agent/lib/macho/header.ts:29-38 | a buffer whose words at the field offsets are a header's fields decodes to that header |
| MachOHeader.DecodeEncodeHeader | agent/lib/macho/header.ts:29-38 | encoding a well-formed header and decoding it, with any trailing bytes, gives the header back |
| LoadCommand.NewLoadCommand | agent/lib/macho/commands/command.ts:27-31 | `cmd` and `base` are kept as passed; `cmdsize` is the word at the given offset; the constructor fails exactly when that word is out of range |
| EncryptionInfo.NewEncryptionInfo | agent/lib/macho/commands/encryption_info.ts:12-17 | 16 bytes are needed from the offset; `cmdsize` is the word at offset+0; `cryptoff`, `cryptsize` and `cryptid` are the words at +4, +8 and +12 |
| EncryptionInfo.IsEncrypted | agent/lib/macho/commands/encryption_info.ts:19-21 | `isEncrypted()` compares `cryptid` with 1; its contract is stated by EncryptedOnlyForCryptid1 |
| EncryptionInfo.NewEncryptionInfo64 | agent/lib/macho/commands/encryption_info.ts:31-34 | 20 bytes are needed; `pad` is the word at +16 |
| EncryptionInfo.EncryptionInfo64Extends | agent/lib/macho/commands/encryption_info.ts:28-34 | a 64-bit record has the same `cmd`, `cmdsize`, `base`, `cryptoff`, `cryptsize` and `cryptid` as the 32-bit record built at the same place |
| EncryptionInfo.EncryptedOnlyForCryptid1 | agent/lib/macho/commands/encryption_info.ts:19-21 | `isEncrypted` holds if and only if `cryptid` is 1, so a `cryptid` of 0 or 2 is not encrypted |
| CommandFactory.RecordSize | agent/lib/macho/commands/factory.ts:13-20 | 0x21 needs 20 bytes from the command start, 0x2C needs 24, and any other type needs 8 |
| CommandFactory.RetrieveCommand | agent/lib/macho/commands/factory.ts:9-21 | `cmd` is the word at the start and `cmdsize` the next word; `base` is the module base plus the offset; 0x21 and 0x2C (and only they) give the 32- and 64-bit encryption records, with crypt fields at start+8, +12 and +16 and pad at +20; it fails only when a read is out of range |
| CommandFactory.RetrieveIsTotal | agent/lib/macho/commands/factory.ts:13-20 | with 24 bytes available every command word yields a record, and the record is a plain one exactly when the word is neither 0x21 nor 0x2C |
| MachO.Is64 | agent/lib/macho/macho.ts:25-27 | the image is 64-bit exactly when the magic is MH_MAGIC_64; HeaderSize gives the walk's start from it |
| MachO.WalkFrom | agent/lib/macho/macho.ts:29-36 | a start at or past the end yields no command; otherwise a successful walk yields at least one command and at most one per byte of the table; it fails only on an out-of-range read or a zero `cmdsize` |
| MachO.HeaderSize | agent/lib/macho/macho.ts:25-30 | the walk starts at 32 if and only if the magic is MH_MAGIC_64; any other magic, byte-swapped ones included, starts it at 28 |
| MachO.WalkStep | agent/lib/macho/macho.ts:32-35 | one loop step appends the command and moves the offset on by its `cmdsize` |
| MachO.ParseLoadCommands | agent/lib/macho/macho.ts:29-38 | the loop yields exactly the walk from the header's end to header size plus `sizeofcmds`, followed by the `ncmds` check |
| MachO.NewMachO | agent/lib/macho/macho.ts:18-23 | the header is decoded first and its error is returned; then the command table is parsed from that header |
| MachO.WalkUnfold | agent/lib/macho/macho.ts:32-35 | a successful walk begins with the command at its start offset, which has a non-zero size, followed by the walk from the next offset |
| MachO.WalkChain | agent/lib/macho/macho.ts:30-35 | the first command sits at the start; each next command sits `cmdsize` bytes after the previous one; the last one reaches the end; an empty walk means start >= end |
| MachO.WalkRecords | agent/lib/macho/macho.ts:32-35 | every command of a walk lies in [start, end), has a non-zero `cmdsize`, and is the record the factory builds at its own offset |
| MachO.ZeroSizeRejected | agent/lib/macho/macho.ts:32-35 | a command whose `cmdsize` is 0 stops the walk with NonAdvancingCommand at its offset |
| MachO.SourceAdvance | agent/lib/macho/macho.ts:33-35 | one pass of the loop as written succeeds exactly when the command can be read, fails only with a range error, never moves the offset back, and leaves it in place exactly when `cmdsize` is 0 |
| MachO.SourceLoop | agent/lib/macho/macho.ts:32-35 | the loop as written, run for a bounded number of passes: the offset never decreases, it moves only when a pass ran from below the end, and the only failure is a range error |
| MachO.ZeroSizeSpins | agent/lib/macho/macho.ts:32-36 | in the loop as written, a command whose `cmdsize` is 0 keeps the offset where it is, below the end, after any number of passes |
| MachO.SourceLoopAgrees | agent/lib/macho/macho.ts:32-36 | where the walk succeeds, the loop as written leaves the table after exactly one pass per command, and not before |
| MachO.ZeroCommandStalls | agent/lib/macho/macho.ts:32-36 | a table of one 8-byte command whose two words are 0: the loop as written stays at offset 0 for any number of passes, and the walk reports the stall there |
| MachO.StallMeansZeroSize | agent/lib/macho/macho.ts:32-35 | the walk stops without advancing only at an offset inside the table whose `cmdsize` word is 0 |
| MachO.AlignedWalk | agent/lib/macho/commands/command.ts:13-16 | when every `cmdsize` is a positive multiple of 4 (or 8 for 64-bit), every command starts on such a boundary |
| MachO.CountChecked | agent/lib/macho/macho.ts:37 | the parse succeeds if and only if the walk succeeds with exactly `ncmds` commands; otherwise it reports the mismatch |
| Agent.IdRun | agent/index.ts:14 | the length of the longest run of `[A-F0-9-]` characters starting at the position |
| Agent.RemotePath | agent/index.ts:22 | when the payload path does not occur, only the first character is dropped; when it does occur in a longer path, the result is one character shorter than what follows its removal |
| Agent.PayloadPathOf | agent/index.ts:14 | a match is a prefix of the application path; it is the container root followed by a non-empty, maximal run of `[A-F0-9-]`; there is no match exactly when no such run follows the root |
| Agent.RemotePathOfChild | agent/index.ts:22 | removing the payload path and then the first character leaves the part below `payload/` |
| Agent.Walk | agent/index.ts:16-58 | the visits of a listing, in listing order, pre-order; WalkBelow, WalkSiblings, WalkPreOrder and SkippedNeverEntered state its properties |
| Agent.WalkEntry | agent/index.ts:27-56 | a file is one visit; `_CodeSignature` and `SC_Info` give none; any other directory is announced, then walked; WalkEntryBelow, WalkEntryPreOrder and SkippedNeverEnteredEntry state its properties |
| Agent.VisitMessagePath | agent/index.ts:39-55 | each walk message carries the entry's path below the payload directory; it is a `directory` message exactly for directories |
| Agent.WalkBelow | agent/index.ts:16-58 | every visit of a directory's walk lies strictly below that directory |
| Agent.WalkEntryBelow | agent/index.ts:16-58 | every visit an entry causes lies below the entry itself |
| Agent.WalkSiblings | agent/index.ts:19-22 | every visit of a listing lies below one of the listing's entries |
| Agent.WalkPreOrder | agent/index.ts:39-43 | when sibling names are unique, a directory is visited before anything inside it |
| Agent.WalkEntryPreOrder | agent/index.ts:39-43 | the same holds for the visits of a single entry |
| Agent.SkippedNeverEntered | agent/index.ts:27-28 | `_CodeSignature` and `SC_Info` directories are neither announced nor descended into; the name can occur only as a file's own name |
| Agent.SkippedNeverEnteredEntry | agent/index.ts:27-28 | the same holds for a single entry |
| Agent.WalkMessages | agent/index.ts:39-55 | one message per visit, in order, each the message that visit sends |
| Agent.WalkSnoc | agent/index.ts:19-57 | walking one more listing entry appends that entry's visits |
| Agent.WalkMessagesAppend | agent/index.ts:19-57 | the messages of two visit runs are the messages of each, concatenated |
| Agent.EntryMessages | agent/index.ts:27-56 | a file sends one `file` message; a skipped directory sends nothing; any other directory sends its `directory` message and then the messages of its contents |
| Agent.LoadDynamicLibraries | agent/index.ts:16-58 | the index loop with its recursion sends exactly the messages of the walk |
| Agent.ScriptMessages | agent/index.ts:96-110 | `info` is sent first and the application's `directory` second; no later message is an `info`; after the walk's messages come only the dumps, each an `executable` file |
| Agent.CryptidOffset | agent/index.ts:73 | the offset of the `cryptid` word in the file is the command's address plus 16 minus the file's base; an offset below the base wraps to that offset plus 2^32 |
| Agent.Splice | agent/index.ts:82-83 | bytes in [at, at+len) are the plaintext and every other byte is unchanged |
| Agent.PatchSpec | agent/index.ts:73-83 | the patch never changes the file's length |
| Agent.CopyPlaintext | agent/index.ts:78-83 | bytes outside the encrypted range are untouched; on success the range fits both buffers and equals the in-memory image |
| Agent.PatchOutcome | agent/index.ts:73-83 | the patch succeeds if and only if four conditions hold: the `cryptid` word fits the file; the loaded image holds 1 there; the range fits the image; the range fits the file. A `cryptid` word past the file end fails with the file untouched. A later failure leaves the zeroed word written |
| Agent.PatchZeroesCryptid | agent/index.ts:73-74 | when the `cryptid` word lies outside the encrypted range, it reads 0 after the patch |
| Agent.PatchContents | agent/index.ts:73-83 | after a successful patch: the encrypted range equals the image; the `cryptid` bytes outside it are 0; every other byte is as before |
| Agent.PatchChecksLoadedCryptid | agent/index.ts:78 | an unreadable word in memory, or a word other than 1, aborts the patch with that error |
| Agent.ParsedCryptidWord | agent/index.ts:73 | for a command parsed from the file, the patched word is the command's `cryptid` field at start+16 |
| Agent.WriteByteArray | agent/index.ts:83 | the array afterwards is the old contents with the plaintext spliced in |
| Agent.PatchCommand | agent/index.ts:70-83 | the in-place patch leaves the buffer, and returns the outcome, that the functional specification gives for the old buffer |
| Agent.PatchAll | agent/index.ts:66-93 | the patches never change the buffer's length, and at most one message is sent per command |
| Agent.PatchAllSends | agent/index.ts:66-91 | only encrypted commands send; each message is a `file` with mode `executable` for the module's remote path; there is one per encrypted command on success and fewer on failure |
| Agent.NothingEncryptedNothingSent | agent/index.ts:66-68 | a module without an encrypted command sends nothing and leaves the buffer unchanged |
| Agent.DumpSpec | agent/index.ts:60-94 | the buffer's length is kept; a candidate count other than 1 throws MachONotFound and sends nothing; success needs exactly one candidate and a decodable header |
| Agent.Candidates | agent/index.ts:61 | the count is at most the number of modules, and 0 exactly when no module has the name |
| Agent.Selected | agent/index.ts:108-110 | the dumped modules are exactly the loaded modules whose path starts with the application path |
| Agent.SelectedAppend | agent/index.ts:108-110 | the selection keeps the enumeration order: selecting from two consecutive runs of modules is selecting from each in turn |
| Agent.DumpSpecSendsFiles | agent/index.ts:87-91 | a module's dump sends only `executable` files, at the module's remote path |
| Agent.DumpOne | agent/index.ts:108-110 | one module's dump: it throws "Cannot find Mach-O" with nothing sent unless exactly one loaded module has its name; it succeeds only then; every message is an `executable` file at the module's remote path |
| Agent.DumpAll | agent/index.ts:108-110 | every message is an `executable` file; the dumps finish without an exception exactly when every selected module's dump does |
| Agent.DumpModule | agent/index.ts:60-94 | the module dump (candidate check, parse, and patch loop over the commands) sends the messages, leaves the buffer and returns the outcome that the functional specification gives |
| Pull.ChunksFrom | agent/lib/pull.ts:8-11 | the chunks from an offset on; ChunksFromConcat, ChunkSizes and ChunkCount state its properties |
| Pull.ChunkSizeBound | agent/lib/pull.ts:6 | the chunk size is positive and below 2^27 |
| Pull.ChunksFromConcat | agent/lib/pull.ts:8-11 | the chunks from an offset on concatenate to the buffer's suffix from that offset |
| Pull.Chunks | agent/lib/pull.ts:8-11 | concatenating all chunks gives the buffer back exactly; every chunk is non-empty and at most CHUNK_SIZE, and every chunk but the last is exactly CHUNK_SIZE |
| Pull.ChunkSizes | agent/lib/pull.ts:9-10 | every chunk is non-empty and at most CHUNK_SIZE, and every chunk but the last is exactly CHUNK_SIZE |
| Pull.ChunkCount | agent/lib/pull.ts:9 | the number of chunks is the ceiling of the length over CHUNK_SIZE |
| Pull.Start | agent/lib/pull.ts:29-39 | the awaiting transfer: `pull:status` sent, the stream opened with the mode, all three listeners attached, nothing settled |
| Pull.Step | agent/lib/pull.ts:41-62 | effects are only appended; an event without an attached listener changes nothing; any event that changes the transfer detaches all listeners and settles it |
| Pull.Run | agent/lib/pull.ts:41-62 | effects are only appended; if the transfer is still unsettled after the events, none of them had any effect |
| Pull.EmptyBufferNoChunks | agent/lib/pull.ts:9 | an empty buffer yields no chunk |
| Pull.DetachedIgnoresEvents | agent/lib/pull.ts:41-62 | once the listeners are detached, no event changes the transfer |
| Pull.FirstEventDecides | agent/lib/pull.ts:36-63 | the first event alone decides the outcome, and the transfer is settled after it |
| Pull.IoErrorIffReaderError | agent/lib/pull.ts:41-74 | exactly one `pull:io-error` is sent, carrying "TODO", the remote path and the message, if and only if the first event is a reader error; otherwise none is sent |
| Pull.Transfer.constructor | agent/lib/pull.ts:29-39 | `pull:status` is sent before the stream is opened with the mode, and all three listeners are attached |
| Pull.Transfer.DetachListeners | agent/lib/pull.ts:58-62 | all three listeners are removed and nothing else changes |
| Pull.Transfer.Deliver | agent/lib/pull.ts:41-56 | an event moves the transfer as the outcome function says |
| Pull.Channel.constructor | agent/lib/pull.ts:16-17 | the receive handler is registered |
| Pull.Channel.OnMessage | agent/lib/pull.ts:77-89 | only `stream` messages are forwarded, with their data (absent data stays absent); the handler is always registered again |
| Decrypter.PermissionModes | decrypter.py:213-219 | the two permission combinations are 0o755 and 0o644 |
| Decrypter.ModeFor | decrypter.py:216-219 | mode `executable` gets 0o755 and every other mode gets 0o644 |
| Decrypter.PathJoin | decrypter.py:204 | joining under the staging path appends the label after a slash; an absolute label replaces the base |
| Decrypter.AbsoluteJoinIgnoresCwd | decrypter.py:204 | a path joined under an absolute base resolves to itself from any working directory |
| Decrypter.MakeMissing | decrypter.py:188 | the directory exists afterwards, and every entry that existed is kept as it was |
| Decrypter.MakeDirs | decrypter.py:188 | an existing target raises FileExistsError; otherwise the target is created as a directory and nothing existing changes |
| Decrypter.Chmod | decrypter.py:189-190 | succeeds exactly on an existing path, sets its mode, and changes nothing else |
| Decrypter.OpenForWriting | decrypter.py:207 | success leaves a regular file at the path and changes nothing else; it fails only on a directory, a missing parent or a parent that is a file |
| Decrypter.Cleanup | decrypter.py:119-124 | the cleanup only removes entries; whatever remains is as it was |
| Decrypter.UnlinkQuietly | decrypter.py:121-124 | a regular file is removed; any other path leaves the file system unchanged, because the error is swallowed |
| Decrypter.CleanupRemovesPartials | decrypter.py:119-124 | the cleanup removes exactly the regular files that some `partial` entry resolves to; `unopened` entries, directories and everything else stay |
| Decrypter.ExitStatus | decrypter.py:131-132 | the status is 0 if and only if no path failed and there was no error; otherwise it is 1 |
| Decrypter.IoErrorEntryAsWritten | decrypter.py:196-198 | as called, the recorded `partial` path is the payload's `remotePath` |
| Decrypter.IoErrorRecord | decrypter.py:181 | the entry is `partial`; as written it is the payload's `remotePath`; corrected, it is the path under the staging directory |
| Decrypter.IoErrorEntry | decrypter.py:196-198 | the corrected entry records the partial file's path under the staging directory |
| Decrypter.PartialSurvivesAsWritten | decrypter.py:119-124 | with the entry as written, the partial file in the staging tree survives the cleanup |
| Decrypter.IoErrorThenCleanupAsWritten | decrypter.py:118-124 | a `pull:io-error` for `A.app/A` in the staging directory `/tmp/t/Payload`, then the cleanup from `/home/u`: the partial file is still there |
| Decrypter.IoErrorThenCleanupCorrected | decrypter.py:118-124 | with the corrected entry, a `pull:io-error` followed by the cleanup removes the partial file, from any working directory |
| Decrypter.CorrectedCleanupRemovesPartial | decrypter.py:119-124 | with the corrected entry, the partial file is removed, from any working directory |
| Decrypter.TrailingSlashes | decrypter.py:88 | counts the slashes a path ends with: they are all slashes, and the character before them is not one |
| Decrypter.Name | decrypter.py:88 | `Path(...).name`: the result has no slash and is the text just before the trailing slashes, preceded by a slash or by nothing; it is empty exactly when the path is all slashes |
| Decrypter.NameBelowRoot | decrypter.py:88 | a non-empty, slash-free name joined below the root comes back whole as that path's last component |
| Decrypter.OutputStem | decrypter.py:88 | the archive stem has no slash, and is `{bundle_id}_{version}` itself when that has none |
| Decrypter.ArchiveNames | decrypter.py:88-91 | the archive is written as `<stem>.zip` and renamed to `<stem>.ipa` |
| Decrypter.HandlePayload | decrypter.py:166-191 | a handled payload never changes the exit status, the current pull or the stream controller; it appends at most one failed path; every existing file or directory stays, of the same kind |
| Decrypter.Process | decrypter.py:163-194 | the same holds for any message |
| Decrypter.IdentityAssertionMeansBoth | decrypter.py:83 | since a bundle id never exists without a version, the assertion holds exactly when both are set |
| Decrypter.UnhandledOnlyPrinted | decrypter.py:163-194 | a message that is not `send`, or has an unhandled type, is printed and changes nothing else |
| Decrypter.InfoSetsIdentityOnly | decrypter.py:183-186 | `info` sets the version and the bundle id from the payload and nothing else |
| Decrypter.TimeStartedOnce | decrypter.py:175-177 | the first `pull:status` records the current time; a set start time is never overwritten; only `pull:status` changes it |
| Decrypter.IoErrorAppendsOne | decrypter.py:180-181 | each `pull:io-error` appends exactly one `partial` entry, the payload's `remotePath` as written; apart from the printed error, nothing else changes |
| Decrypter.IdentityInvariant | decrypter.py:183-186 | no message leaves a bundle id without a version, because the version is set first |
| Decrypter.DirectoryCreated | decrypter.py:187-191 | `directory` creates the path under the staging directory with mode 0o755, keeps everything else, and fails on an existing path |
| Decrypter.DecrypterApplication.constructor | decrypter.py:27-38 | no start time, no failed paths, no identity, no current pull and no stream controller yet; the entry rule is fixed for the session |
| Decrypter.DecrypterApplication.CreateStreamController | decrypter.py:72-77 | the stream controller exists from then on |
| Decrypter.DecrypterApplication.OnIoError | decrypter.py:196-198 | prints `path: error` and appends the rule's `partial` entry; as written, that entry is the payload's `remotePath` |
| Decrypter.DecrypterApplication.ProcessMessage | decrypter.py:163-194 | the new state and the raised error are those of the dispatch function |
| Decrypter.DecrypterApplication.OnIncomingStreamRequest | decrypter.py:203-211 | the label becomes the current pull first. A successful open creates the file. A failed open leaves the files as they were, appends an `unopened` entry with the local path, prints the error and raises it |
| Decrypter.DecrypterApplication.OnIncomingStreamClosed | decrypter.py:213-219 | a missing `mode` raises KeyError and a missing file raises FileNotFoundError; otherwise the file gets 0o755 or 0o644 as ModeFor says |
| Decrypter.DecrypterApplication.OnDumpFinished | decrypter.py:118-134 | the partial files are cleaned up first. Without an error, the summary needs a start time, a stream controller and a non-zero duration, or it raises. `_exit(1)` happens exactly when the status is 1 |
| Dump.LexTrichotomy | dump.py:158-163 | exactly one of `a < b`, `a == b`, `b < a` holds for strings |
| Dump.LexTransitive | dump.py:158-163 | string `<` is transitive |
| Dump.CompareApplications | dump.py:154-167 | the result is -1, 0 or 1, and a running application sorts before one that is not running |
| Dump.CompareZeroIff | dump.py:154-167 | the comparison is 0 if and only if both have the same running status and the same name |
| Dump.CompareByName | dump.py:154-167 | with equal running status the result follows the name order |
| Dump.CompareAntisymmetric | dump.py:154-167 | cmp(a, b) = -cmp(b, a) |
| Dump.CompareTransitive | dump.py:154-167 | cmp(a, b) <= 0 and cmp(b, c) <= 0 give cmp(a, c) <= 0 |
| Dump.CompareStrictTransitive | dump.py:154-167 | cmp(a, b) < 0 and cmp(b, c) < 0 give cmp(a, c) < 0 |
| Dump.Key.Le | dump.py:186-187 | `<=` is `<` or `==` |
| Dump.Key.Ge | dump.py:189-190 | `>=` is `>` or `==` |
| Dump.Key.Ne | dump.py:192-193 | `!=` is the negation of `==` |
| Dump.ApplicationKeyOrder | dump.py:170-195 | keyed by the comparator: `>` is `<` swapped; exactly one of `<`, `==`, `>` holds; `<` is irreflexive; `<` and `<=` are transitive |
| Dump.TrimIcon | dump.py:261-264 | a copy with the same keys, where only `image` changes: its first 16 bytes followed by `...`. A missing image raises KeyError and a non-bytes image raises TypeError |
| Dump.IsListed | dump.py:277 | the path starts with one of the two container roots and does not contain `appex`; ListedUnderOneRoot and ListingFilters state its properties |
| Dump.TrimShortImageAppendsOnly | dump.py:263 | an image of at most 16 bytes is kept whole, with `...` appended |
| Dump.ListedUnderOneRoot | dump.py:267-268 | a listed path lies under exactly one of the two container roots |
| Dump.TrimIcons | dump.py:275-276 | every icon is trimmed in order; otherwise the error raised is that of an icon all of whose predecessors trim successfully, that is the first failing icon's |
| Dump.Shown | dump.py:277 | a process is printed when it has a path that IsListed accepts |
| Dump.Fault | dump.py:274-289 | a process that raises nothing has a path, and a shown one also has `user`, `ppid` and `started`; without icons and without a path it raises KeyError `path` |
| Dump.Listing | dump.py:271-289 | the processes printed, in order, up to the first one that raises, and that exception: the loop `ListingBy` with Fault as the raise test and Shown as the print test; ListingFilters and ListingAppend state its properties |
| Dump.CheckProcess | dump.py:274-286 | what the loop body raises for one process before printing it is exactly Fault: the icon trim, then `path`, then, for a shown process, `user`, `ppid` and `started` |
| Dump.ListingAppend | dump.py:273-289 | the listing of two runs is the first run's printout and exception; if the first run raises nothing, the second run's printout and outcome follow |
| Dump.ListingFilters | dump.py:271-289 | every printed process is a shown one; without an exception every shown process is printed; with one, it is some process's exception, raised after the shown processes before it were printed |
| Dump.PrintedBeforeKeyError | dump.py:273-289 | a shown process without icons, then one whose only icon has no `image`: the first is printed, then KeyError `image` is raised |
| Dump.ListProcesses | dump.py:271-289 | the loop prints what the listing prints and raises what it raises, keeping what was printed before the exception |
| Dump.Basename | dump.py:130 | the name has no slash; it is the whole path when there is no slash, and otherwise what follows the last slash |
| Dump.BundleRelative | dump.py:129-130 | the slice starts 5 characters after the first `.app/`; without one, `find` gives -1 and the slice starts at index 4 |
| Dump.BundleRelativeSuffix | dump.py:129-130 | the origin is its part before `.app/`, then `.app/`, then the extracted path |
| Dump.OutsideBundleIsAbsolute | dump.py:129-130 | without `.app/`, an origin with a slash at index 4 yields an absolute path |
| Dump.Lookup | dump.py:80 | a key is absent exactly when no entry has it, and a found value belongs to an entry with that key |
| Dump.Assign | dump.py:130 | assigning a new key appends it; assigning an existing key keeps the order of the keys; entries with other keys are unchanged |
| Dump.AssignUnique | dump.py:130 | assignment keeps the table's keys unique |
| Dump.AssignLookup | dump.py:129-147 | after the assignment the key maps to the value, and other keys map to what they did before |
| Dump.DumpSession.constructor | dump.py:45-47 | the file table is empty and `finished` is clear |
| Dump.DumpSession.OnMessage | dump.py:110-150 | a message without a payload changes nothing. `dump` maps the dumped file's name to its bundle-relative path, and raises KeyError when `path` is missing. `app` records the bundle name. `done` sets `finished` |
| Dump.OsJoin | dump.py:82-83 | an absolute second part replaces the first; otherwise a slash is inserted unless the first part is empty or already ends in one |
| Dump.Moves | dump.py:81-85 | at most one move per table entry |
| Dump.MovesIntoBundle | dump.py:80-85 | every move takes a non-`app` entry out of the payload directory into the bundle, or to the recorded path itself when that is absolute |
| Dump.PlanMoves | dump.py:76-85 | a table without `app` raises KeyError; otherwise the loop yields exactly the moves of the table's entries in order |
| Dump.ProgressAppend | dump.py:100-108 | the updates over two runs of calls add up, with the counter carried over |
| Dump.OneFileTelescopes | dump.py:100-108 | for one file whose last report reaches its size, the updates sum to the size minus the starting counter, and the counter ends at 0 |
| Dump.FilesAddUp | dump.py:100-108 | for a sequence of complete files, the updates sum to the sum of the sizes |
| Dump.Progress | dump.py:100-108 | no call leaves the counter and the total unchanged; otherwise the counter is what the last call leaves: 0 when it completed its file, its `sent` otherwise |
| Dump.RepeatedCompletionCountsTwice | dump.py:107-108 | a completed file reported twice is counted twice |
| Dump.ProgressBar.constructor | dump.py:97-98 | the counter and the bar start at 0 |
| Dump.ProgressBar.Report | dump.py:100-108 | the bar shows the file's name and size; it advances by `sent - last_sent`; the counter restarts at 0 on completion |
| Dump.StripIpa | dump.py:340 | a trailing `.ipa` is removed once; one just before a final newline is removed too, and the newline kept; any other name is unchanged |
| Dump.StripIpaOnce | dump.py:340 | removing the suffix from `stem.ipa` gives `stem` back, even when the stem itself ends in `.ipa` |
| Dump.IpaFileName | dump.py:77 | for a name not ending in `.ipa` followed by a newline: the archive written is the name itself when it ends in `.ipa`, and otherwise the name with `.ipa` added |

## Left out

- Frida, the ObjC runtime and `NSFileManager`/`NSBundle` calls are not modelled. This covers `loadBundle`, `dlopen`, module enumeration, and script compile, load and RPC. The directory tree and the module list are parameters. The `dlopen` branch at agent/index.ts:48 can never be taken.
- The agent script throws when the container-path regex does not match (agent/index.ts:14). This is modelled as `PayloadPathOf` returning `None`, and the walk then takes the payload path as a parameter.
- `console.log`, tqdm, colorama and the progress and summary rendering are output only. Of the rendering, only the assertions and the division by a zero duration are modelled.
- SSH/SCP transfers, the `chmod` subprocess, `shutil.move`, `zipfile`, `make_archive`, `rename` and `rmtree` are not modelled. Only the names and moves they are given are.
- Threading, the `finished` event wait, the worker thread and asynchrony are not modelled. The model is sequential, and a rejected transfer reports its `pull:io-error` at the moment it is rejected.
- The internals of `StreamController` and `frida-remote-stream` are library code that is not part of this model. Stream stanzas are only collected.
- `#onStreamControllerSendRequest` (agent/lib/pull.ts:91-96) only forwards packets and is not modelled.
- Agent.CryptidOffset: `NativePointer` arithmetic is modelled on unbounded integers, with `toUInt32` as reduction modulo 2^32. A 64-bit pointer wrap-around is not modelled.
- Agent.CopyPlaintext: a native `readByteArray` or `writeByteArray` on unmapped memory throws an access-violation error, which the `AccessViolation` outcome models; it is checked before anything is copied. The file buffer's backing store is ordinary memory, so a write past its end into memory that is still mapped does not throw in the source: it overwrites whatever follows the buffer, and the file is still sent. The model reports `AccessViolation` whenever the range passes the end of the file, and does not model that overwrite.
- Pull.Step: an `error` event with no listener makes Node's EventEmitter throw. The model ignores every event that arrives after the transfer has settled.
- Agent.Walk: the walk over the abstract tree always terminates. The source's walk of a real file system could follow links.
- Decrypter.Name: pathlib's collapsing of `.` components and of repeated slashes inside the path is not modelled. The name is the last component after trailing slashes are stripped.
- Decrypter.PathJoin: pathlib normalisation is not modelled.
- MachO.ParseLoadCommands: on a command whose `cmdsize` is 0 the source loop never moves its offset, so it never reaches the end; it keeps pushing the same command until the array or the memory runs out. The model returns NonAdvancingCommand there instead, as described under Findings. `SourceLoop` keeps the loop as written.
- MachO.WalkFrom: the same: a zero `cmdsize` ends the walk with NonAdvancingCommand, where the source loops in place.
- The `--list` printout's formatting, device selection and argument parsing are not modelled.
- `dump.py` under Python 2 (`IS_PY2`, byte file names) is not modelled.
- The time is a parameter. Float durations are modelled as integers, and only the zero check matters.

## Findings

| source | as written | input that shows it | evidently intended | confidence | as-written member | corrected member |
|---|---|---|---|---|---|---|
| agent/lib/macho/macho.ts:32-36 | the loop adds each command's `cmdsize` to the offset and stops only once the offset reaches the table's end, so a command whose `cmdsize` is 0 keeps it at the same offset; the loop pushes that command on every pass and ends only when the array or the memory runs out | a table of one 8-byte command of zero bytes (ZeroCommandStalls): the offset stays at 0, below the end at 8, after every pass | reject a command that does not move the offset, since the documented alignment rule requires a positive `cmdsize` | not executed | MachO.ZeroSizeSpins | MachO.ZeroSizeRejected |
| decrypter.py:181 | `_on_io_error(remote_path, local_path, error)` is called with the payload's `path` and `remotePath`, so the `partial` entry holds the bundle-relative remote path. `os.unlink` at line 122 then resolves it against the working directory | local staging path `/tmp/t/Payload` holding the partial file `A.app/A`, working directory `/home/u`: the cleanup unlinks `/home/u/A.app/A`, and `/tmp/t/Payload/A.app/A` stays | record the partial file's own path, `local_path / remotePath`, so the cleanup removes it | not executed | Decrypter.PartialSurvivesAsWritten | Decrypter.CorrectedCleanupRemovesPartial |
