// agent/index.ts: the agent script injected into the target. It announces the
// bundle identity, walks the bundle directory tree (one `directory` message
// per directory, one `file` message per file), and for every Mach-O module
// loaded from the bundle patches an in-memory copy of its file: the cryptid
// word is zeroed and the encrypted range is overwritten with the decrypted
// bytes of the loaded image, then the whole copy is sent.
module Agent {
  import opened Common
  import opened LittleEndian
  import opened LoadCommand
  import opened EncryptionInfo
  import MachOHeader
  import CommandFactory
  import MachO

  /** The messages the agent sends to the controller. */
  datatype Message =
    | Info(bundleId: string, version: string)
    | Directory(path: string)
    | File(path: string, mode: Option<string>, data: seq<byte>)

  const EXECUTABLE: string := "executable"

  // ---------------------------------------------------------------------
  // Paths

  const APPLICATION_ROOT: string := "/private/var/containers/Bundle/Application/"

  predicate IsContainerIdChar(c: char) {
    ('A' <= c <= 'F') || ('0' <= c <= '9') || c == '-'
  }

  /** Length of the run of `[A-F0-9-]` characters starting at `from`. */
  function IdRun(s: string, from: nat): (n: nat)
    requires from <= |s|
    ensures from + n <= |s|
    ensures forall k :: from <= k < from + n ==> IsContainerIdChar(s[k])
    ensures from + n < |s| ==> !IsContainerIdChar(s[from + n])
    decreases |s| - from
  {
    if from < |s| && IsContainerIdChar(s[from]) then 1 + IdRun(s, from + 1) else 0
  }

  /**
   * `payloadPath`: the match of `^/private/var/containers/Bundle/Application/[A-F0-9-]+`
   * against the app path (greedy). No match makes the script throw at load.
   */
  function PayloadPathOf(appPath: string): (r: Option<string>)
    ensures r.Some? ==> StartsWith(appPath, r.value) && StartsWith(r.value, APPLICATION_ROOT)
    ensures r.Some? ==> |r.value| > |APPLICATION_ROOT|
    ensures r.Some? ==> forall k :: |APPLICATION_ROOT| <= k < |r.value| ==> IsContainerIdChar(r.value[k])
    ensures r.Some? && |r.value| < |appPath| ==> !IsContainerIdChar(appPath[|r.value|])
    ensures r.None? ==> !StartsWith(appPath, APPLICATION_ROOT) ||
                        |appPath| == |APPLICATION_ROOT| || !IsContainerIdChar(appPath[|APPLICATION_ROOT|])
  {
    if StartsWith(appPath, APPLICATION_ROOT) then
      var n := IdRun(appPath, |APPLICATION_ROOT|);
      if n > 0 then Some(appPath[..|APPLICATION_ROOT| + n]) else None
    else None
  }

  /**
   * `fullPath.replace(payloadPath, "").substring(1)`: drop the first
   * occurrence of the payload path, then the first character. Where the
   * payload path does occur, the value at each call site is given by
   * `RemotePathOfChild` below.
   */
  function RemotePath(fullPath: string, payloadPath: string): (r: string)
    ensures !Contains(fullPath, payloadPath) && fullPath != [] ==> r == fullPath[1..]
    ensures Contains(fullPath, payloadPath) && |fullPath| > |payloadPath| ==> |r| == |fullPath| - |payloadPath| - 1
  {
    SubstringFrom(RemoveFirst(fullPath, payloadPath), 1)
  }

  /** For a path inside the payload directory the remote path is the part after `payload/`. */
  lemma {:induction false} RemotePathOfChild(payloadPath: string, rel: string)
    ensures RemotePath(payloadPath + "/" + rel, payloadPath) == rel
  {
    var full := payloadPath + "/" + rel;
    assert full[..|payloadPath|] == payloadPath;
    FindPrefix(full, payloadPath);
    assert RemoveFirst(full, payloadPath) == full[|payloadPath|..];
    assert full[|payloadPath|..] == "/" + rel;
  }

  /** Components joined with `/`, as `stringByAppendingPathComponent` builds them. */
  function JoinPath(comps: seq<string>): string {
    if comps == [] then ""
    else if |comps| == 1 then comps[0]
    else JoinPath(comps[..|comps| - 1]) + "/" + comps[|comps| - 1]
  }

  /** The absolute path of an entry given by its components under the payload directory. */
  function FullPath(payloadPath: string, comps: seq<string>): string {
    payloadPath + "/" + JoinPath(comps)
  }

  // ---------------------------------------------------------------------
  // The bundle walk (`loadDynamicLibraries`), on an abstract directory tree

  datatype Entry =
    | FileEntry(name: string, contents: seq<byte>)
    | DirEntry(name: string, children: seq<Entry>)

  /** Sibling names are distinct, at every level: a directory listing. */
  predicate UniqueNames(entries: seq<Entry>)
    decreases entries
  {
    && (forall i, j :: 0 <= i < j < |entries| ==> entries[i].name != entries[j].name)
    && (forall i :: 0 <= i < |entries| ==> entries[i].DirEntry? ==> UniqueNames(entries[i].children))
  }

  /** Directories that are neither announced nor descended into. */
  predicate IsSkippedDirectory(name: string) {
    name == "_CodeSignature" || name == "SC_Info"
  }

  /** One step of the walk: the entry, by its components under the payload directory. */
  datatype Visit =
    | VisitDirectory(comps: seq<string>)
    | VisitFile(comps: seq<string>, contents: seq<byte>)

  /** The visits `loadDynamicLibraries(dir)` makes, in order: pre-order, listing order. */
  function Walk(dir: seq<string>, entries: seq<Entry>): seq<Visit>
    decreases entries
  {
    if entries == [] then []
    else WalkEntry(dir, entries[0]) + Walk(dir, entries[1..])
  }

  /**
   * The visits one listing entry contributes: a file is sent; a directory is
   * announced and then walked, unless it is `_CodeSignature` or `SC_Info`.
   */
  function WalkEntry(dir: seq<string>, e: Entry): seq<Visit>
    decreases e
  {
    match e
    case FileEntry(name, contents) => [VisitFile(dir + [name], contents)]
    case DirEntry(name, children) =>
      if IsSkippedDirectory(name) then []
      else [VisitDirectory(dir + [name])] + Walk(dir + [name], children)
  }

  /** The message each visit sends: `directory` or `file`, with the remote path. */
  function VisitMessage(payloadPath: string, v: Visit): Message {
    match v
    case VisitDirectory(comps) => Directory(RemotePath(FullPath(payloadPath, comps), payloadPath))
    case VisitFile(comps, contents) => File(RemotePath(FullPath(payloadPath, comps), payloadPath), None, contents)
  }

  /** The path a walk message carries is the entry's path below the payload directory. */
  lemma VisitMessagePath(payloadPath: string, v: Visit)
    ensures VisitMessage(payloadPath, v).path == JoinPath(v.comps)
    ensures VisitMessage(payloadPath, v).Directory? <==> v.VisitDirectory?
  {
    RemotePathOfChild(payloadPath, JoinPath(v.comps));
  }

  predicate ProperPrefix(p: seq<string>, q: seq<string>) {
    |p| < |q| && q[..|p|] == p
  }

  /** Every visit lies strictly below `dir`. */
  lemma {:induction false} WalkBelow(dir: seq<string>, entries: seq<Entry>)
    ensures forall v :: v in Walk(dir, entries) ==> ProperPrefix(dir, v.comps)
    decreases entries
  {
    if entries != [] {
      WalkEntryBelow(dir, entries[0]);
      WalkBelow(dir, entries[1..]);
    }
  }

  /** Every visit an entry contributes lies below `dir + [name]`, or is the entry itself. */
  lemma {:induction false} WalkEntryBelow(dir: seq<string>, e: Entry)
    ensures forall v :: v in WalkEntry(dir, e) ==>
              |v.comps| > |dir| && v.comps[..|dir| + 1] == dir + [e.name]
    decreases e
  {
    if e.DirEntry? && !IsSkippedDirectory(e.name) {
      var sub := dir + [e.name];
      WalkBelow(sub, e.children);
      forall v | v in Walk(sub, e.children)
        ensures |v.comps| > |dir| && v.comps[..|dir| + 1] == sub
      {
        assert v.comps[..|sub|] == sub;
      }
    }
  }

  /** Every `directory` visit comes before every visit below it. */
  predicate DirectoriesFirst(vs: seq<Visit>) {
    forall i, j :: (0 <= i < |vs| && 0 <= j < |vs| && vs[i].VisitDirectory? &&
                    ProperPrefix(vs[i].comps, vs[j].comps)) ==> i < j
  }

  /**
   * Pre-order: a directory is announced before anything inside it is sent.
   * This needs the listing's names to be unique: a later sibling with the
   * same name would otherwise own visits below an earlier one.
   */
  lemma {:induction false} WalkPreOrder(dir: seq<string>, entries: seq<Entry>)
    requires UniqueNames(entries)
    ensures DirectoriesFirst(Walk(dir, entries))
    decreases entries
  {
    if entries != [] {
      var head := WalkEntry(dir, entries[0]);
      var tail := Walk(dir, entries[1..]);
      var vs := Walk(dir, entries);
      assert vs == head + tail;
      assert UniqueNames(entries[1..]) by {
        forall i | 0 <= i < |entries[1..]| ensures entries[1..][i] == entries[i + 1] {}
      }
      WalkEntryPreOrder(dir, entries[0]);
      WalkPreOrder(dir, entries[1..]);
      WalkEntryBelow(dir, entries[0]);
      WalkSiblings(dir, entries[1..]);
      forall i, j | 0 <= i < |vs| && 0 <= j < |vs| && vs[i].VisitDirectory? &&
                    ProperPrefix(vs[i].comps, vs[j].comps)
        ensures i < j
      {
        if i < |head| && j < |head| {
          assert vs[i] == head[i] && vs[j] == head[j];
          assert head[i].VisitDirectory? && ProperPrefix(head[i].comps, head[j].comps);
        } else if i >= |head| && j >= |head| {
          var i', j' := i - |head|, j - |head|;
          assert vs[i] == tail[i'] && vs[j] == tail[j'];
          assert tail[i'].VisitDirectory? && ProperPrefix(tail[i'].comps, tail[j'].comps);
        } else if i >= |head| {
          // vs[i] belongs to a later sibling, vs[j] to the first entry: they
          // differ in the component at |dir|, so neither is a prefix of the other
          assert false;
        }
      }
    }
  }

  /** Every visit of the rest of a listing lies below one of its later entries. */
  lemma {:induction false} WalkSiblings(dir: seq<string>, rest: seq<Entry>)
    ensures forall v :: v in Walk(dir, rest) ==>
              |v.comps| > |dir| && exists k :: 0 <= k < |rest| && v.comps[|dir|] == rest[k].name
    decreases rest
  {
    if rest != [] {
      WalkEntryBelow(dir, rest[0]);
      WalkSiblings(dir, rest[1..]);
      forall v | v in Walk(dir, rest)
        ensures |v.comps| > |dir| && exists k :: 0 <= k < |rest| && v.comps[|dir|] == rest[k].name
      {
        if v in WalkEntry(dir, rest[0]) {
          assert v.comps[|dir|] == (v.comps[..|dir| + 1])[|dir|];
          assert v.comps[|dir|] == rest[0].name;
        } else {
          assert v in Walk(dir, rest[1..]);
          var k :| 0 <= k < |rest[1..]| && v.comps[|dir|] == rest[1..][k].name;
          assert v.comps[|dir|] == rest[k + 1].name;
        }
      }
    }
  }

  lemma {:induction false} WalkEntryPreOrder(dir: seq<string>, e: Entry)
    requires e.DirEntry? ==> UniqueNames(e.children)
    ensures DirectoriesFirst(WalkEntry(dir, e))
    decreases e
  {
    if e.DirEntry? && !IsSkippedDirectory(e.name) {
      var sub := dir + [e.name];
      var inner := Walk(sub, e.children);
      var vs := WalkEntry(dir, e);
      assert vs == [VisitDirectory(sub)] + inner;
      WalkPreOrder(sub, e.children);
      WalkBelow(sub, e.children);
      forall i, j | 0 <= i < |vs| && 0 <= j < |vs| && vs[i].VisitDirectory? &&
                    ProperPrefix(vs[i].comps, vs[j].comps)
        ensures i < j
      {
        // j == 0 is impossible: the directory is no proper prefix of itself,
        // and every visit inside it is longer than it
        if i > 0 && j > 0 {
          assert vs[i] == inner[i - 1] && vs[j] == inner[j - 1];
          assert inner[i - 1].VisitDirectory? && ProperPrefix(inner[i - 1].comps, inner[j - 1].comps);
        }
      }
    }
  }

  /**
   * A skipped directory is never entered: a skipped name can only be the
   * last component of a visit, and then only of a file.
   */
  lemma {:induction false} SkippedNeverEntered(dir: seq<string>, entries: seq<Entry>)
    ensures forall v, k :: v in Walk(dir, entries) && |dir| <= k < |v.comps| && IsSkippedDirectory(v.comps[k]) ==>
              v.VisitFile? && k == |v.comps| - 1
    decreases entries
  {
    if entries != [] {
      SkippedNeverEnteredEntry(dir, entries[0]);
      SkippedNeverEntered(dir, entries[1..]);
    }
  }

  lemma {:induction false} SkippedNeverEnteredEntry(dir: seq<string>, e: Entry)
    ensures forall v, k :: v in WalkEntry(dir, e) && |dir| <= k < |v.comps| && IsSkippedDirectory(v.comps[k]) ==>
              v.VisitFile? && k == |v.comps| - 1
    decreases e
  {
    if e.DirEntry? && !IsSkippedDirectory(e.name) {
      var sub := dir + [e.name];
      SkippedNeverEntered(sub, e.children);
      WalkBelow(sub, e.children);
      forall v, k | v in Walk(sub, e.children) && |dir| <= k < |v.comps| && IsSkippedDirectory(v.comps[k])
        ensures v.VisitFile? && k == |v.comps| - 1
      {
        assert v.comps[..|sub|] == sub;
      }
    }
  }

  /** The messages a sequence of visits sends, in order. */
  function WalkMessages(payloadPath: string, vs: seq<Visit>): (ms: seq<Message>)
    ensures |ms| == |vs|
    ensures forall i :: 0 <= i < |vs| ==> ms[i] == VisitMessage(payloadPath, vs[i])
  {
    seq(|vs|, i requires 0 <= i < |vs| => VisitMessage(payloadPath, vs[i]))
  }

  /** Walking a listing one entry further appends that entry's visits. */
  lemma {:induction false} WalkSnoc(dir: seq<string>, entries: seq<Entry>, i: nat)
    requires i < |entries|
    ensures Walk(dir, entries[..i + 1]) == Walk(dir, entries[..i]) + WalkEntry(dir, entries[i])
    decreases i
  {
    if i == 0 {
      assert entries[..1][1..] == [];
    } else {
      var tail := entries[1..];
      assert entries[..i + 1][1..] == tail[..i];
      assert entries[..i][1..] == tail[..i - 1];
      assert entries[..i + 1][0] == entries[0] && entries[..i][0] == entries[0];
      WalkSnoc(dir, tail, i - 1);
    }
  }

  lemma WalkMessagesAppend(payloadPath: string, a: seq<Visit>, b: seq<Visit>)
    ensures WalkMessages(payloadPath, a + b) == WalkMessages(payloadPath, a) + WalkMessages(payloadPath, b)
  {}

  /** The messages one listing entry contributes, case by case. */
  lemma EntryMessages(payloadPath: string, dir: seq<string>, e: Entry)
    ensures var remotePath := RemotePath(FullPath(payloadPath, dir + [e.name]), payloadPath);
            WalkMessages(payloadPath, WalkEntry(dir, e)) ==
              if e.FileEntry? then [File(remotePath, None, e.contents)]
              else if IsSkippedDirectory(e.name) then []
              else [Directory(remotePath)] + WalkMessages(payloadPath, Walk(dir + [e.name], e.children))
  {
    var comps := dir + [e.name];
    var remotePath := RemotePath(FullPath(payloadPath, comps), payloadPath);
    if e.FileEntry? {
      var vs := WalkEntry(dir, e);
      assert vs == [VisitFile(comps, e.contents)];
      assert VisitMessage(payloadPath, vs[0]) == File(remotePath, None, e.contents);
    } else if !IsSkippedDirectory(e.name) {
      var inner := Walk(comps, e.children);
      assert WalkEntry(dir, e) == [VisitDirectory(comps)] + inner;
      WalkMessagesAppend(payloadPath, [VisitDirectory(comps)], inner);
      assert VisitMessage(payloadPath, VisitDirectory(comps)) == Directory(remotePath);
      assert WalkMessages(payloadPath, [VisitDirectory(comps)]) == [Directory(remotePath)];
    }
  }

  /** The messages of one more listing entry, as the loop body sends them. */
  lemma WalkMessagesStep(payloadPath: string, dir: seq<string>, entries: seq<Entry>, i: nat)
    requires i < |entries|
    ensures var e := entries[i];
            var remotePath := RemotePath(FullPath(payloadPath, dir + [e.name]), payloadPath);
            WalkMessages(payloadPath, Walk(dir, entries[..i + 1]))
              == WalkMessages(payloadPath, Walk(dir, entries[..i])) +
                 if e.FileEntry? then [File(remotePath, None, e.contents)]
                 else if IsSkippedDirectory(e.name) then []
                 else [Directory(remotePath)] + WalkMessages(payloadPath, Walk(dir + [e.name], e.children))
  {
    WalkSnoc(dir, entries, i);
    WalkMessagesAppend(payloadPath, Walk(dir, entries[..i]), WalkEntry(dir, entries[i]));
    EntryMessages(payloadPath, dir, entries[i]);
  }

  /** One entered directory: its announcement, then its own walk, follow the messages so far. */
  lemma WalkMessagesEnter(payloadPath: string, dir: seq<string>, entries: seq<Entry>, i: nat, inner: seq<Message>)
    requires i < |entries| && entries[i].DirEntry? && !IsSkippedDirectory(entries[i].name)
    requires inner == WalkMessages(payloadPath, Walk(dir + [entries[i].name], entries[i].children))
    ensures WalkMessages(payloadPath, Walk(dir, entries[..i]))
              + [Directory(RemotePath(FullPath(payloadPath, dir + [entries[i].name]), payloadPath))] + inner
            == WalkMessages(payloadPath, Walk(dir, entries[..i + 1]))
  {
    WalkMessagesStep(payloadPath, dir, entries, i);
  }

  /**
   * `loadDynamicLibraries(path)`: the loop over the directory listing, with
   * the recursive call for each directory that is not skipped. It sends
   * exactly the messages of the walk, in the walk's order.
   */
  method LoadDynamicLibraries(payloadPath: string, dir: seq<string>, entries: seq<Entry>)
    returns (sent: seq<Message>)
    ensures sent == WalkMessages(payloadPath, Walk(dir, entries))
    decreases entries
  {
    sent := [];
    var i := 0;
    while i != |entries|
      invariant 0 <= i <= |entries|
      invariant sent == WalkMessages(payloadPath, Walk(dir, entries[..i]))
    {
      var file := entries[i];
      var fullPath := dir + [file.name];
      var remotePath := RemotePath(FullPath(payloadPath, fullPath), payloadPath);
      match file {
        case DirEntry(name, children) =>
          if !IsSkippedDirectory(name) {
            sent := sent + [Directory(remotePath)];
            assert file in entries;
            var inner := LoadDynamicLibraries(payloadPath, fullPath, children);
            sent := sent + inner;
            WalkMessagesEnter(payloadPath, dir, entries, i, inner);
          } else {
            WalkMessagesStep(payloadPath, dir, entries, i);
            assert sent + [] == sent;
          }
        case FileEntry(name, contents) =>
          WalkMessagesStep(payloadPath, dir, entries, i);
          sent := sent + [File(remotePath, None, contents)];
      }
      i := i + 1;
    }
    assert entries[..i] == entries;
  }

  // ---------------------------------------------------------------------
  // The decrypt patch (`dumpModule`)
  //
  // `file` is the module's file read into a buffer, whose first byte sits at
  // address `fileBase`; `image` is the module as mapped in memory, from
  // address `moduleBase`. A raw memory access outside `image`, or a raw
  // write outside `file`, is reported as AccessViolation.

  /** Offset of the cryptid word in the file: `command.base + 16 - patchedModule.base`, as a u32. */
  function CryptidOffset(cmd: LoadCommand, fileBase: int): (pos: u32)
    ensures 0 <= cmd.base + 16 - fileBase < TWO_32 ==> pos == cmd.base + 16 - fileBase
    ensures -TWO_32 <= cmd.base + 16 - fileBase < 0 ==> pos == cmd.base + 16 - fileBase + TWO_32
  {
    ToUInt32(cmd.base + 16 - fileBase)
  }

  /** `data` written over `buf` from `at` on. */
  function Splice(buf: seq<byte>, at: nat, data: seq<byte>): (r: seq<byte>)
    requires at + |data| <= |buf|
    ensures |r| == |buf|
    ensures forall k :: 0 <= k < |buf| ==> r[k] == if at <= k < at + |data| then data[k - at] else buf[k]
  {
    buf[..at] + data + buf[at + |data|..]
  }

  /** The buffer a patch leaves behind, and how the patch ended. */
  datatype Patched = Patched(file: seq<byte>, outcome: Result<(), AgentError>)

  /**
   * The patch for one encrypted command: zero the cryptid word of the file,
   * then copy the decrypted range of the loaded image over it.
   */
  function PatchSpec(file: seq<byte>, fileBase: int, image: seq<byte>, moduleBase: int, cmd: LoadCommand): (p: Patched)
    requires cmd.IsEncryptionInfo()
    ensures |p.file| == |file|
  {
    var pos := CryptidOffset(cmd, fileBase);
    match WriteUInt32LE(file, pos, 0)
    case Err(e) => Patched(file, Err(e))
    case Ok(zeroed) => CopyPlaintext(zeroed, fileBase, image, moduleBase, cmd, pos)
  }

  /**
   * The steps after the cryptid word of the file is zeroed: check that the
   * loaded image carries cryptid 1 at the same offset, then copy
   * `[cryptoff, cryptoff + cryptsize)` of the loaded image over the file.
   */
  function CopyPlaintext(zeroed: seq<byte>, fileBase: int, image: seq<byte>, moduleBase: int,
                         cmd: LoadCommand, pos: u32): (p: Patched)
    requires cmd.IsEncryptionInfo()
    ensures |p.file| == |zeroed|
    ensures forall k :: 0 <= k < |zeroed| && !(cmd.cryptoff <= k < cmd.cryptoff + cmd.cryptsize) ==> p.file[k] == zeroed[k]
    ensures p.outcome.Ok? ==> cmd.cryptoff + cmd.cryptsize <= |image| && cmd.cryptoff + cmd.cryptsize <= |zeroed|
    ensures p.outcome.Ok? ==> forall k :: cmd.cryptoff <= k < cmd.cryptoff + cmd.cryptsize ==> p.file[k] == image[k]
  {
    if pos + 4 > |image| then Patched(zeroed, Err(AccessViolation(moduleBase + pos)))
    else
      var word := U32Of(image[pos], image[pos + 1], image[pos + 2], image[pos + 3]);
      if word != 1 then Patched(zeroed, Err(CryptidMismatch(word)))
      else if cmd.cryptoff + cmd.cryptsize > |image| then
        Patched(zeroed, Err(AccessViolation(moduleBase + cmd.cryptoff)))
      else if cmd.cryptoff + cmd.cryptsize > |zeroed| then
        Patched(zeroed, Err(AccessViolation(fileBase + cmd.cryptoff)))
      else
        Patched(Splice(zeroed, cmd.cryptoff, image[cmd.cryptoff..cmd.cryptoff + cmd.cryptsize]), Ok(()))
  }

  /**
   * When the patch succeeds: the cryptid word lies in the file, the loaded
   * image carries cryptid 1 there, and the encrypted range lies in both.
   * When it fails before the write, the file is untouched; after it, only
   * the cryptid word has changed.
   */
  lemma PatchOutcome(file: seq<byte>, fileBase: int, image: seq<byte>, moduleBase: int, cmd: LoadCommand)
    requires cmd.IsEncryptionInfo()
    ensures var pos := CryptidOffset(cmd, fileBase);
            var p := PatchSpec(file, fileBase, image, moduleBase, cmd);
            && (p.outcome.Ok? <==> && pos + 4 <= |file|
                                   && ReadUInt32LE(image, pos) == Ok(1)
                                   && cmd.cryptoff + cmd.cryptsize <= |image|
                                   && cmd.cryptoff + cmd.cryptsize <= |file|)
            && (pos + 4 > |file| ==> p == Patched(file, Err(OutOfRange(pos))))
            && (pos + 4 <= |file| && p.outcome.Err? ==> p.file == WriteUInt32LE(file, pos, 0).value)
  {}

  /** The source's own check after the write: the cryptid word of the file now reads 0. */
  lemma {:induction false} PatchZeroesCryptid(file: seq<byte>, fileBase: int, image: seq<byte>, moduleBase: int, cmd: LoadCommand)
    requires cmd.IsEncryptionInfo()
    requires CryptidOffset(cmd, fileBase) + 4 <= |file|
    requires var pos := CryptidOffset(cmd, fileBase);
             pos + 4 <= cmd.cryptoff || cmd.cryptoff + cmd.cryptsize <= pos
    ensures ReadUInt32LE(PatchSpec(file, fileBase, image, moduleBase, cmd).file, CryptidOffset(cmd, fileBase)) == Ok(0)
  {
    var pos := CryptidOffset(cmd, fileBase);
    var zeroed := WriteUInt32LE(file, pos, 0).value;
    ReadAfterWrite(file, pos, 0);
    var p := CopyPlaintext(zeroed, fileBase, image, moduleBase, cmd, pos);
    assert PatchSpec(file, fileBase, image, moduleBase, cmd) == p;
    assert p.file[pos] == zeroed[pos] && p.file[pos + 1] == zeroed[pos + 1];
    assert p.file[pos + 2] == zeroed[pos + 2] && p.file[pos + 3] == zeroed[pos + 3];
  }

  /**
   * A successful patch leaves the decrypted bytes of the loaded image in
   * `[cryptoff, cryptoff + cryptsize)`, zero in the cryptid word, and every
   * other byte of the file as it was.
   */
  lemma {:induction false} PatchContents(file: seq<byte>, fileBase: int, image: seq<byte>, moduleBase: int, cmd: LoadCommand)
    requires cmd.IsEncryptionInfo()
    requires PatchSpec(file, fileBase, image, moduleBase, cmd).outcome.Ok?
    ensures var p := PatchSpec(file, fileBase, image, moduleBase, cmd).file;
            var pos := CryptidOffset(cmd, fileBase);
            && (forall k :: cmd.cryptoff <= k < cmd.cryptoff + cmd.cryptsize ==> p[k] == image[k])
            && (forall k :: pos <= k < pos + 4 && !(cmd.cryptoff <= k < cmd.cryptoff + cmd.cryptsize) ==> p[k] == 0)
            && (forall k :: 0 <= k < |file| && !(pos <= k < pos + 4) && !(cmd.cryptoff <= k < cmd.cryptoff + cmd.cryptsize) ==>
                              p[k] == file[k])
  {
    var pos := CryptidOffset(cmd, fileBase);
    var zeroed := WriteUInt32LE(file, pos, 0).value;
    assert zeroed[pos..pos + 4] == EncodeU32LE(0);
    assert forall k :: pos <= k < pos + 4 ==> zeroed[k] == zeroed[pos..pos + 4][k - pos];
  }

  /** The patch goes ahead only when the loaded image still carries cryptid 1. */
  lemma PatchChecksLoadedCryptid(file: seq<byte>, fileBase: int, image: seq<byte>, moduleBase: int, cmd: LoadCommand)
    requires cmd.IsEncryptionInfo()
    requires CryptidOffset(cmd, fileBase) + 4 <= |file|
    ensures var r := ReadUInt32LE(image, CryptidOffset(cmd, fileBase));
            var p := PatchSpec(file, fileBase, image, moduleBase, cmd);
            && (r.Err? ==> p.outcome == Err(AccessViolation(moduleBase + CryptidOffset(cmd, fileBase))))
            && (r.Ok? && r.value != 1 ==> p.outcome == Err(CryptidMismatch(r.value)))
  {}

  /**
   * For a command the parser found at `offset`, the word the patch zeroes is
   * exactly the command's cryptid field, and it lies inside the file.
   */
  lemma ParsedCryptidWord(file: seq<byte>, fileBase: int, offset: nat, cmd: LoadCommand)
    requires |file| <= TWO_32
    requires CommandFactory.RetrieveCommand(file, offset, fileBase) == Ok(cmd)
    requires cmd.IsEncryptionInfo()
    ensures CryptidOffset(cmd, fileBase) == offset + 16
    ensures ReadUInt32LE(file, CryptidOffset(cmd, fileBase)) == Ok(cmd.cryptid)
  {}

  /** `NativePointer.writeByteArray`: copy `data` into the buffer from `at` on. */
  method WriteByteArray(buf: array<byte>, at: nat, data: seq<byte>)
    requires at + |data| <= buf.Length
    modifies buf
    ensures buf[..] == Splice(old(buf[..]), at, data)
  {
    forall k | at <= k < at + |data| {
      buf[k] := data[k - at];
    }
    assert buf[..] == Splice(old(buf[..]), at, data) by {
      var spliced := Splice(old(buf[..]), at, data);
      forall k | 0 <= k < buf.Length ensures buf[k] == spliced[k] {}
    }
  }

  /** The patch of one encrypted command, in place on the file buffer. */
  method PatchCommand(file: array<byte>, fileBase: int, image: seq<byte>, moduleBase: int, cmd: LoadCommand)
    returns (outcome: Result<(), AgentError>)
    requires cmd.IsEncryptionInfo()
    modifies file
    ensures Patched(file[..], outcome) == PatchSpec(old(file[..]), fileBase, image, moduleBase, cmd)
  {
    var pos := CryptidOffset(cmd, fileBase);
    if pos + 4 > file.Length {
      return Err(OutOfRange(pos));
    }
    WriteUInt32LEInPlace(file, pos, 0);
    ghost var zeroed := file[..];
    // the source re-reads the word here and asserts it is 0; that check
    // cannot fail (ReadAfterWrite, PatchZeroesCryptid)
    assert PatchSpec(old(file[..]), fileBase, image, moduleBase, cmd)
        == CopyPlaintext(zeroed, fileBase, image, moduleBase, cmd, pos);
    if pos + 4 > |image| {
      return Err(AccessViolation(moduleBase + pos));
    }
    var word := U32Of(image[pos], image[pos + 1], image[pos + 2], image[pos + 3]);
    if word != 1 {
      return Err(CryptidMismatch(word));
    }
    var cryptoff: nat, cryptsize: nat := cmd.cryptoff, cmd.cryptsize;
    if cryptoff + cryptsize > |image| {
      return Err(AccessViolation(moduleBase + cryptoff));
    }
    if cryptoff + cryptsize > file.Length {
      return Err(AccessViolation(fileBase + cryptoff));
    }
    var plainBuffer := image[cryptoff..cryptoff + cryptsize];
    WriteByteArray(file, cryptoff, plainBuffer);
    return Ok(());
  }

  /** What `dumpModule` sends, the state it leaves the file buffer in, and how it ends. */
  datatype Dumped = Dumped(sent: seq<Message>, file: seq<byte>, outcome: Result<(), AgentError>)

  predicate IsEncryptedCommand(c: LoadCommand) {
    c.IsEncryptionInfo() && IsEncrypted(c)
  }

  /**
   * The `forEach` over the load commands: each encrypted command is patched
   * and the whole buffer sent as an executable; the first failure ends the dump.
   */
  function PatchAll(file: seq<byte>, fileBase: int, image: seq<byte>, moduleBase: int,
                    remotePath: string, cmds: seq<LoadCommand>): (d: Dumped)
    ensures |d.file| == |file|
    ensures |d.sent| <= |cmds|
    decreases |cmds|
  {
    if cmds == [] then Dumped([], file, Ok(()))
    else if !IsEncryptedCommand(cmds[0]) then
      PatchAll(file, fileBase, image, moduleBase, remotePath, cmds[1..])
    else
      var p := PatchSpec(file, fileBase, image, moduleBase, cmds[0]);
      if p.outcome.Err? then Dumped([], p.file, p.outcome)
      else
        var rest := PatchAll(p.file, fileBase, image, moduleBase, remotePath, cmds[1..]);
        Dumped([File(remotePath, Some(EXECUTABLE), p.file)] + rest.sent, rest.file, rest.outcome)
  }

  /** The number of commands `dumpModule` patches. */
  function EncryptedCount(cmds: seq<LoadCommand>): nat {
    if cmds == [] then 0
    else (if IsEncryptedCommand(cmds[0]) then 1 else 0) + EncryptedCount(cmds[1..])
  }

  /**
   * Only encrypted commands produce messages, each a `file` message with mode
   * `executable` for the module's remote path; one per encrypted command when
   * the dump succeeds, fewer when it fails.
   */
  lemma {:induction false} PatchAllSends(file: seq<byte>, fileBase: int, image: seq<byte>, moduleBase: int,
                                         remotePath: string, cmds: seq<LoadCommand>)
    ensures var d := PatchAll(file, fileBase, image, moduleBase, remotePath, cmds);
            && (forall m :: m in d.sent ==> m.File? && m.mode == Some(EXECUTABLE) && m.path == remotePath)
            && |d.sent| <= EncryptedCount(cmds)
            && (d.outcome.Ok? ==> |d.sent| == EncryptedCount(cmds))
            && |d.file| == |file|
    decreases |cmds|
  {
    if cmds != [] {
      if !IsEncryptedCommand(cmds[0]) {
        PatchAllSends(file, fileBase, image, moduleBase, remotePath, cmds[1..]);
      } else {
        var p := PatchSpec(file, fileBase, image, moduleBase, cmds[0]);
        if p.outcome.Ok? {
          PatchAllSends(p.file, fileBase, image, moduleBase, remotePath, cmds[1..]);
        }
      }
    }
  }

  /** A module with no encrypted command is neither changed nor sent. */
  lemma {:induction false} NothingEncryptedNothingSent(file: seq<byte>, fileBase: int, image: seq<byte>, moduleBase: int,
                                                       remotePath: string, cmds: seq<LoadCommand>)
    requires forall c :: c in cmds ==> !IsEncryptedCommand(c)
    ensures PatchAll(file, fileBase, image, moduleBase, remotePath, cmds) == Dumped([], file, Ok(()))
    decreases |cmds|
  {
    if cmds != [] {
      assert cmds[0] in cmds;
      assert forall c :: c in cmds[1..] ==> c in cmds;
      NothingEncryptedNothingSent(file, fileBase, image, moduleBase, remotePath, cmds[1..]);
    }
  }

  /** Messages already sent, followed by the rest of the dump. */
  function SentBefore(sent: seq<Message>, rest: Dumped): Dumped {
    Dumped(sent + rest.sent, rest.file, rest.outcome)
  }

  /** One turn of the `forEach`: the dump from command `i` on, in terms of the dump from `i + 1` on. */
  lemma PatchAllStep(file: seq<byte>, fileBase: int, image: seq<byte>, moduleBase: int,
                     remotePath: string, cmds: seq<LoadCommand>, i: nat)
    requires i < |cmds|
    ensures var rest := cmds[i + 1..];
            var p := if IsEncryptedCommand(cmds[i]) then PatchSpec(file, fileBase, image, moduleBase, cmds[i])
                     else Patched(file, Ok(()));
            PatchAll(file, fileBase, image, moduleBase, remotePath, cmds[i..])
              == if !IsEncryptedCommand(cmds[i]) then PatchAll(file, fileBase, image, moduleBase, remotePath, rest)
                 else if p.outcome.Err? then Dumped([], p.file, p.outcome)
                 else SentBefore([File(remotePath, Some(EXECUTABLE), p.file)],
                                 PatchAll(p.file, fileBase, image, moduleBase, remotePath, rest))
  {
    assert cmds[i..][0] == cmds[i] && cmds[i..][1..] == cmds[i + 1..];
  }

  /** Sending one more message before a dump. */
  lemma SentBeforeAppend(sent: seq<Message>, m: Message, rest: Dumped)
    ensures SentBefore(sent, SentBefore([m], rest)) == SentBefore(sent + [m], rest)
  {
    assert sent + ([m] + rest.sent) == (sent + [m]) + rest.sent;
  }

  /** `dumpModule(module)`, as a function of the buffer it starts from. */
  function DumpSpec(candidates: nat, modulePath: string, payloadPath: string,
                    file: seq<byte>, fileBase: int, image: seq<byte>, moduleBase: int): (d: Dumped)
    ensures |d.file| == |file|
    ensures d.outcome.Ok? ==> candidates == 1 && MachOHeader.DecodeHeader(file).Ok?
    ensures candidates != 1 ==> d == Dumped([], file, Err(MachONotFound))
  {
    if candidates != 1 then Dumped([], file, Err(MachONotFound))
    else match MachOHeader.DecodeHeader(file)
      case Err(e) => Dumped([], file, Err(e))
      case Ok(header) =>
        match MachO.LoadCommandsOf(file, fileBase, header)
        case Err(e) => Dumped([], file, Err(e))
        case Ok(cmds) => PatchAll(file, fileBase, image, moduleBase, RemotePath(modulePath, payloadPath), cmds)
  }

  /**
   * `dumpModule(module)`: find the module, parse its file, and patch and
   * send the file buffer once per encrypted command, in command order.
   */
  method DumpModule(candidates: nat, modulePath: string, payloadPath: string,
                    file: array<byte>, fileBase: int, image: seq<byte>, moduleBase: int)
    returns (sent: seq<Message>, outcome: Result<(), AgentError>)
    modifies file
    ensures Dumped(sent, file[..], outcome)
         == DumpSpec(candidates, modulePath, payloadPath, old(file[..]), fileBase, image, moduleBase)
  {
    sent := [];
    if candidates != 1 {
      return sent, Err(MachONotFound);
    }
    var patchedModule := MachO.NewMachO(file[..], fileBase);
    if patchedModule.Err? {
      return sent, Err(patchedModule.error);
    }
    var cmds := patchedModule.value.loadCommands;
    var remotePath := RemotePath(modulePath, payloadPath);
    ghost var goal := DumpSpec(candidates, modulePath, payloadPath, old(file[..]), fileBase, image, moduleBase);
    assert goal == PatchAll(file[..], fileBase, image, moduleBase, remotePath, cmds);
    var i := 0;
    while i < |cmds|
      invariant 0 <= i <= |cmds|
      invariant SentBefore(sent, PatchAll(file[..], fileBase, image, moduleBase, remotePath, cmds[i..])) == goal
    {
      var command := cmds[i];
      ghost var before := file[..];
      PatchAllStep(before, fileBase, image, moduleBase, remotePath, cmds, i);
      if IsEncryptedCommand(command) {
        var r := PatchCommand(file, fileBase, image, moduleBase, command);
        if r.Err? {
          assert PatchAll(before, fileBase, image, moduleBase, remotePath, cmds[i..]) == Dumped([], file[..], r);
          return sent, r;
        }
        SentBeforeAppend(sent, File(remotePath, Some(EXECUTABLE), file[..]),
                         PatchAll(file[..], fileBase, image, moduleBase, remotePath, cmds[i + 1..]));
        sent := sent + [File(remotePath, Some(EXECUTABLE), file[..])];
      }
      i := i + 1;
    }
    assert cmds[i..] == [];
    return sent, Ok(());
  }

  // ---------------------------------------------------------------------
  // The script's top level

  /** A loaded module: its name and path, its file on disk and its image in memory. */
  datatype LoadedModule = LoadedModule(name: string, path: string, file: seq<byte>, fileBase: int,
                                       image: seq<byte>, base: int)

  /** The loaded modules that carry `name`: the `candidates` of `dumpModule`. */
  function Candidates(modules: seq<LoadedModule>, name: string): (n: nat)
    ensures n <= |modules|
    ensures n == 0 <==> forall m :: m in modules ==> m.name != name
    decreases |modules|
  {
    if modules == [] then 0
    else
      assert forall m :: m in modules ==> m == modules[0] || m in modules[1..];
      (if modules[0].name == name then 1 else 0) + Candidates(modules[1..], name)
  }

  /** The modules the script dumps: those whose path starts with the application path, in order. */
  function Selected(modules: seq<LoadedModule>, appPath: string): (sel: seq<LoadedModule>)
    ensures forall m :: m in sel ==> m in modules && StartsWith(m.path, appPath)
    ensures forall m :: m in modules && StartsWith(m.path, appPath) ==> m in sel
    decreases |modules|
  {
    if modules == [] then []
    else
      assert forall m :: m in modules ==> m == modules[0] || m in modules[1..];
      (if StartsWith(modules[0].path, appPath) then [modules[0]] else []) + Selected(modules[1..], appPath)
  }

  /** The selection keeps the enumeration's order: selecting from two runs is selecting from each in turn. */
  lemma {:induction false} SelectedAppend(a: seq<LoadedModule>, b: seq<LoadedModule>, appPath: string)
    ensures Selected(a + b, appPath) == Selected(a, appPath) + Selected(b, appPath)
    decreases |a|
  {
    if a == [] {
      assert a + b == b;
    } else {
      assert (a + b)[0] == a[0] && (a + b)[1..] == a[1..] + b;
      SelectedAppend(a[1..], b, appPath);
    }
  }

  /**
   * `dumpModule` for one loaded module, from its file as read from disk: it
   * throws unless the module's name is unique, and it sends only the
   * module's own file, as an executable.
   */
  function DumpOne(m: LoadedModule, all: seq<LoadedModule>, payloadPath: string): (d: Dumped)
    ensures Candidates(all, m.name) != 1 ==> d.sent == [] && d.outcome == Err(MachONotFound)
    ensures d.outcome.Ok? ==> Candidates(all, m.name) == 1
    ensures forall msg :: msg in d.sent ==>
              msg.File? && msg.mode == Some(EXECUTABLE) && msg.path == RemotePath(m.path, payloadPath)
  {
    DumpSpecSendsFiles(Candidates(all, m.name), m.path, payloadPath, m.file, m.fileBase, m.image, m.base);
    DumpSpec(Candidates(all, m.name), m.path, payloadPath, m.file, m.fileBase, m.image, m.base)
  }

  /** A module's dump sends only its own file, as an executable under its remote path. */
  lemma DumpSpecSendsFiles(candidates: nat, modulePath: string, payloadPath: string,
                           file: seq<byte>, fileBase: int, image: seq<byte>, moduleBase: int)
    ensures forall m :: m in DumpSpec(candidates, modulePath, payloadPath, file, fileBase, image, moduleBase).sent ==>
              m.File? && m.mode == Some(EXECUTABLE) && m.path == RemotePath(modulePath, payloadPath)
  {
    if candidates == 1 && MachOHeader.DecodeHeader(file).Ok? {
      var header := MachOHeader.DecodeHeader(file).value;
      if MachO.LoadCommandsOf(file, fileBase, header).Ok? {
        var cmds := MachO.LoadCommandsOf(file, fileBase, header).value;
        PatchAllSends(file, fileBase, image, moduleBase, RemotePath(modulePath, payloadPath), cmds);
      }
    }
  }

  /**
   * The `forEach` over the selected modules: each is dumped in turn, and the
   * first exception ends the script, so no later module is dumped.
   */
  function DumpAll(selected: seq<LoadedModule>, all: seq<LoadedModule>, payloadPath: string)
    : (r: (seq<Message>, Result<(), AgentError>))
    ensures forall m :: m in r.0 ==> m.File? && m.mode == Some(EXECUTABLE)
    ensures r.1.Ok? <==> forall i :: 0 <= i < |selected| ==> DumpOne(selected[i], all, payloadPath).outcome.Ok?
    decreases |selected|
  {
    if selected == [] then ([], Ok(()))
    else
      var d := DumpOne(selected[0], all, payloadPath);
      if d.outcome.Err? then (d.sent, d.outcome)
      else
        var rest := DumpAll(selected[1..], all, payloadPath);
        assert forall i :: 1 <= i < |selected| ==> selected[i] == selected[1..][i - 1];
        (d.sent + rest.0, rest.1)
  }

  /**
   * What the script sends, in order: `info`, then the application directory,
   * then the walk below it, then the modules under the application path.
   * No later message is an `info`, and the dumps come last, as executables.
   */
  function ScriptMessages(bundleId: string, version: string, payloadPath: string,
                          appComps: seq<string>, entries: seq<Entry>, modules: seq<LoadedModule>): (ms: seq<Message>)
    ensures |ms| >= 2 && ms[0] == Info(bundleId, version)
    ensures ms[1] == Directory(RemotePath(FullPath(payloadPath, appComps), payloadPath))
    ensures forall i :: 0 < i < |ms| ==> !ms[i].Info?
    ensures forall i :: 2 + |Walk(appComps, entries)| <= i < |ms| ==> ms[i].File? && ms[i].mode == Some(EXECUTABLE)
  {
    var appPath := FullPath(payloadPath, appComps);
    var walk := WalkMessages(payloadPath, Walk(appComps, entries));
    var dumps := DumpAll(Selected(modules, appPath), modules, payloadPath).0;
    assert forall i :: 0 <= i < |walk| ==> !walk[i].Info?;
    Segments([Info(bundleId, version), Directory(RemotePath(appPath, payloadPath))], walk, dumps);
    [Info(bundleId, version), Directory(RemotePath(appPath, payloadPath))] + walk + dumps
  }

  /** The three segments of the script's messages, as indices into the whole. */
  lemma Segments(head: seq<Message>, walk: seq<Message>, dumps: seq<Message>)
    requires |head| == 2 && !head[1].Info?
    requires forall i :: 0 <= i < |walk| ==> !walk[i].Info?
    requires forall m :: m in dumps ==> m.File? && m.mode == Some(EXECUTABLE)
    ensures var ms := head + walk + dumps;
            && (forall i :: 0 < i < |ms| ==> !ms[i].Info?)
            && (forall i :: 2 + |walk| <= i < |ms| ==> ms[i].File? && ms[i].mode == Some(EXECUTABLE))
  {
    var ms := head + walk + dumps;
    forall i | 0 < i < |ms| ensures !ms[i].Info? && (2 + |walk| <= i ==> ms[i].File? && ms[i].mode == Some(EXECUTABLE)) {
      if i >= 2 + |walk| {
        assert ms[i] == dumps[i - 2 - |walk|];
        assert ms[i] in dumps;
      } else if i >= 2 {
        assert ms[i] == walk[i - 2];
      }
    }
  }
}
