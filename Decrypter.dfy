// decrypter.py: the controller session of the decrypter. It receives the
// agent's messages, creates the bundle's directories in a local staging
// tree, opens and closes the files the agent streams, records the paths
// that failed, and decides the exit status once the dump is over.
//
// The local file system is a map from absolute path to node; the clock is
// a parameter. Python exceptions are the PyError values the operations
// return; a state change made before the exception is kept, as in Python.
module Decrypter {
  import opened Common

  // ---------------------------------------------------------------------
  // Permission bits (the `stat` module)

  const S_IRUSR: bv16 := 0x100
  const S_IWUSR: bv16 := 0x80
  const S_IRWXU: bv16 := 0x1C0
  const S_IRGRP: bv16 := 0x20
  const S_IXGRP: bv16 := 0x8
  const S_IROTH: bv16 := 0x4
  const S_IXOTH: bv16 := 0x1

  /** rwxr-xr-x: directories and executables. */
  const EXECUTABLE_MODE: bv16 := S_IRWXU | S_IRGRP | S_IXGRP | S_IROTH | S_IXOTH
  /** rw-r--r--: every other file. */
  const REGULAR_MODE: bv16 := S_IRUSR | S_IWUSR | S_IRGRP | S_IROTH

  /** The two modes are the octal 755 and 644. */
  lemma PermissionModes()
    ensures EXECUTABLE_MODE == 0x1ED && REGULAR_MODE == 0x1A4
  {}

  /** The mode a closed stream's file gets from the `mode` the agent sent. */
  function ModeFor(mode: string): (m: bv16)
    ensures m == EXECUTABLE_MODE <==> mode == "executable"
    ensures m == REGULAR_MODE <==> mode != "executable"
  {
    if mode == "executable" then EXECUTABLE_MODE else REGULAR_MODE
  }

  // ---------------------------------------------------------------------
  // Paths and the local file system

  /** `Path(base) / p`: an absolute `p` replaces the base. */
  function PathJoin(base: string, p: string): (r: string)
    ensures StartsWith(p, "/") ==> r == p
    ensures !StartsWith(p, "/") ==> r == base + "/" + p
  {
    if StartsWith(p, "/") then p else base + "/" + p
  }

  /** A relative path given to the operating system is resolved against the working directory. */
  function Resolve(cwd: string, p: string): string {
    PathJoin(cwd, p)
  }

  /** An absolute join no longer depends on the working directory. */
  lemma AbsoluteJoinIgnoresCwd(cwd: string, base: string, p: string)
    requires StartsWith(base, "/")
    ensures Resolve(cwd, PathJoin(base, p)) == PathJoin(base, p)
  {
    var j := PathJoin(base, p);
    if !StartsWith(p, "/") {
      assert j[..1] == base[..1];
    }
  }

  /** The directory that holds `p` ("" when `p` has no slash, "/" for a top-level entry). */
  function Parent(p: string): (r: string)
    ensures |r| < |p| || r == "" || r == "/"
  {
    match LastSlash(p)
    case None => ""
    case Some(i) => if i == 0 then "/" else p[..i]
  }

  datatype Node =
    | Directory(mode: Option<bv16>)
    | RegularFile(mode: Option<bv16>)

  type FileSystem = map<string, Node>

  datatype PyError =
    | KeyError(key: string)
    | AssertionError
    | FileExistsError(path: string)
    | FileNotFoundError(path: string)
    | NotADirectoryError(path: string)
    | IsADirectoryError(path: string)
    | ZeroDivisionError

  /** `str(e)` as Python formats these exceptions. */
  function ErrorText(e: PyError): string {
    match e
    case KeyError(key) => "'" + key + "'"
    case AssertionError => ""
    case FileExistsError(path) => "[Errno 17] File exists: '" + path + "'"
    case FileNotFoundError(path) => "[Errno 2] No such file or directory: '" + path + "'"
    case NotADirectoryError(path) => "[Errno 20] Not a directory: '" + path + "'"
    case IsADirectoryError(path) => "[Errno 21] Is a directory: '" + path + "'"
    case ZeroDivisionError => "float division by zero"
  }

  /**
   * Create the missing `p` after its missing ancestors; `mkdir` fails when
   * the parent is a regular file.
   */
  function MakeMissing(fs: FileSystem, p: string): (r: Result<FileSystem, PyError>)
    requires p !in fs
    decreases |p|
    ensures r.Ok? ==> p in r.value && r.value[p] == Directory(None)
    ensures r.Ok? ==> forall q :: q in fs ==> q in r.value && r.value[q] == fs[q]
  {
    var parent := Parent(p);
    var fs1 :- if parent != "" && |parent| < |p| && parent !in fs then MakeMissing(fs, parent) else Ok(fs);
    if parent in fs1 && fs1[parent].RegularFile? then Err(NotADirectoryError(p))
    else Ok(fs1[p := Directory(None)])
  }

  /** `os.makedirs(p)`: fails on an existing `p`, creates it and its missing ancestors otherwise. */
  function MakeDirs(fs: FileSystem, p: string): (r: Result<FileSystem, PyError>)
    ensures p in fs ==> r == Err(FileExistsError(p))
    ensures r.Ok? ==> p !in fs && p in r.value && r.value[p] == Directory(None)
    ensures r.Ok? ==> forall q :: q in fs ==> q in r.value && r.value[q] == fs[q]
  {
    if p in fs then Err(FileExistsError(p)) else MakeMissing(fs, p)
  }

  /** `os.chmod(p, mode)`. */
  function Chmod(fs: FileSystem, p: string, mode: bv16): (r: Result<FileSystem, PyError>)
    ensures r.Ok? <==> p in fs
    ensures r.Ok? ==> r.value.Keys == fs.Keys && r.value[p].mode == Some(mode)
    ensures r.Ok? ==> r.value[p].Directory? == fs[p].Directory?
    ensures r.Ok? ==> forall q :: q in fs && q != p ==> r.value[q] == fs[q]
  {
    if p !in fs then Err(FileNotFoundError(p))
    else if fs[p].Directory? then Ok(fs[p := Directory(Some(mode))])
    else Ok(fs[p := RegularFile(Some(mode))])
  }

  /** `open(p, "w+b")`: the parent must be a directory and `p` must not be one. */
  function OpenForWriting(fs: FileSystem, p: string): (r: Result<FileSystem, PyError>)
    ensures r.Ok? ==> p in r.value && r.value[p].RegularFile?
    ensures r.Ok? ==> r.value.Keys == fs.Keys + {p}
    ensures r.Ok? ==> forall q :: q in fs && q != p ==> r.value[q] == fs[q]
    ensures r.Err? ==> (p in fs && fs[p].Directory?) || Parent(p) !in fs || fs[Parent(p)].RegularFile?
  {
    var parent := Parent(p);
    if p in fs && fs[p].Directory? then Err(IsADirectoryError(p))
    else if parent !in fs then Err(FileNotFoundError(p))
    else if fs[parent].RegularFile? then Err(NotADirectoryError(p))
    else if p in fs then Ok(fs)
    else Ok(fs[p := RegularFile(None)])
  }

  /** `os.unlink(p)` whose failure is swallowed: only a regular file goes away. */
  function UnlinkQuietly(fs: FileSystem, p: string): (r: FileSystem)
    ensures p in fs && fs[p].RegularFile? ==> r == fs - {p}
    ensures !(p in fs && fs[p].RegularFile?) ==> r == fs
  {
    if p in fs && fs[p].RegularFile? then fs - {p} else fs
  }

  // ---------------------------------------------------------------------
  // Failed paths and the end of the dump

  datatype PathState = Partial | Unopened

  datatype FailedPath = FailedPath(path: string, state: PathState)

  /**
   * The cleanup loop of `_on_dump_finished`: every `partial` entry is
   * unlinked, relative paths against the working directory; failures are
   * ignored.
   */
  function Cleanup(fs: FileSystem, cwd: string, failed: seq<FailedPath>): (r: FileSystem)
    ensures r.Keys <= fs.Keys
    ensures forall p :: p in r ==> r[p] == fs[p]
    decreases |failed|
  {
    if failed == [] then fs
    else
      var before := Cleanup(fs, cwd, failed[..|failed| - 1]);
      var last := failed[|failed| - 1];
      if last.state == Partial then UnlinkQuietly(before, Resolve(cwd, last.path)) else before
  }

  /** Some `partial` entry resolves to `p`. */
  predicate Targeted(cwd: string, failed: seq<FailedPath>, p: string) {
    exists i :: 0 <= i < |failed| && failed[i].state == Partial && Resolve(cwd, failed[i].path) == p
  }

  /**
   * The cleanup removes exactly the regular files some `partial` entry
   * resolves to, and nothing else: `unopened` entries and directories stay.
   */
  lemma {:induction false} CleanupRemovesPartials(fs: FileSystem, cwd: string, failed: seq<FailedPath>)
    ensures var r := Cleanup(fs, cwd, failed);
            && (forall p :: p in r ==> p in fs && r[p] == fs[p])
            && (forall p :: p in fs && !Targeted(cwd, failed, p) ==> p in r)
            && (forall p :: p in fs && fs[p].RegularFile? && Targeted(cwd, failed, p) ==> p !in r)
            && (forall p :: p in fs && fs[p].Directory? ==> p in r)
    decreases |failed|
  {
    if failed != [] {
      var init := failed[..|failed| - 1];
      var last := failed[|failed| - 1];
      CleanupRemovesPartials(fs, cwd, init);
      var r := Cleanup(fs, cwd, failed);
      forall p | p in fs && !Targeted(cwd, failed, p) ensures p in r {
        assert !Targeted(cwd, init, p) by {
          forall i | 0 <= i < |init| ensures !(init[i].state == Partial && Resolve(cwd, init[i].path) == p) {
            assert failed[i] == init[i];
          }
        }
        assert last.state == Partial ==> Resolve(cwd, last.path) != p by {
          assert failed[|failed| - 1] == last;
        }
      }
      forall p | p in fs && fs[p].RegularFile? && Targeted(cwd, failed, p) ensures p !in r {
        var i :| 0 <= i < |failed| && failed[i].state == Partial && Resolve(cwd, failed[i].path) == p;
        if i < |failed| - 1 {
          assert init[i] == failed[i];
        }
      }
    }
  }

  /** `status = 0 if success else 1`: success means no failed path and no error. */
  function ExitStatus(failed: seq<FailedPath>, error: Option<string>): (status: int)
    ensures status == 0 <==> |failed| == 0 && error.None?
    ensures status == 1 <==> |failed| > 0 || error.Some?
  {
    if |failed| == 0 && error.None? then 0 else 1
  }

  // ---------------------------------------------------------------------
  // The `pull:io-error` entry

  /**
   * The entry `_on_io_error` records, as written: its parameters are
   * (remote_path, local_path, error) but it is called with the payload's
   * `path`, `remotePath` and `error`, so the recorded "local" path is the
   * agent's remote path, relative to the bundle.
   */
  function IoErrorEntryAsWritten(path: string, remotePath: string): (e: FailedPath)
    ensures e.state == Partial && e.path == remotePath
  {
    FailedPath(remotePath, Partial)
  }

  /** The entry the cleanup needs: the partial file's own path in the staging tree. */
  function IoErrorEntry(localPath: string, remotePath: string): (e: FailedPath)
    ensures e.state == Partial
    ensures !StartsWith(remotePath, "/") ==> e.path == localPath + "/" + remotePath
  {
    FailedPath(PathJoin(localPath, remotePath), Partial)
  }

  /**
   * Which entry a `pull:io-error` records: the one the code writes, or the
   * corrected one described under Findings.
   */
  datatype EntryRule = AsWritten | Corrected

  /** The `partial` entry a `pull:io-error` with this `path` and `remotePath` appends. */
  function IoErrorRecord(rule: EntryRule, localPath: string, path: string, remotePath: string): (e: FailedPath)
    ensures e.state == Partial
    ensures rule == AsWritten ==> e.path == remotePath
    ensures rule == Corrected && !StartsWith(remotePath, "/") ==> e.path == localPath + "/" + remotePath
  {
    match rule
    case AsWritten => IoErrorEntryAsWritten(path, remotePath)
    case Corrected => IoErrorEntry(localPath, remotePath)
  }

  /**
   * As written, the cleanup unlinks the remote path relative to the working
   * directory: the partial file in the staging tree survives.
   */
  lemma PartialSurvivesAsWritten()
    ensures var localPath := "/tmp/t/Payload";
            var partial := "/tmp/t/Payload/A.app/A";
            var fs := map[localPath := Directory(None), partial := RegularFile(None)];
            var r := Cleanup(fs, "/home/u", [IoErrorEntryAsWritten("TODO", "A.app/A")]);
            partial in r
  {
    var fs := map["/tmp/t/Payload" := Directory(None), "/tmp/t/Payload/A.app/A" := RegularFile(None)];
    assert !StartsWith("A.app/A", "/") by {
      assert "A.app/A"[..1][0] == 'A';
    }
    var target := Resolve("/home/u", "A.app/A");
    assert target == "/home/u" + "/" + "A.app/A";
    assert target != "/tmp/t/Payload/A.app/A" by {
      assert target[1] == 'h';
    }
  }

  /**
   * With the entry resolved under the staging directory, the cleanup removes
   * every partial file, wherever the process runs.
   */
  lemma {:induction false} CorrectedCleanupRemovesPartial(fs: FileSystem, cwd: string, localPath: string,
                                                         failed: seq<FailedPath>, remotePath: string)
    requires StartsWith(localPath, "/")
    requires PathJoin(localPath, remotePath) in fs && fs[PathJoin(localPath, remotePath)].RegularFile?
    ensures PathJoin(localPath, remotePath) !in Cleanup(fs, cwd, failed + [IoErrorEntry(localPath, remotePath)])
  {
    var entries := failed + [IoErrorEntry(localPath, remotePath)];
    AbsoluteJoinIgnoresCwd(cwd, localPath, remotePath);
    CleanupRemovesPartials(fs, cwd, entries);
    assert entries[|entries| - 1] == IoErrorEntry(localPath, remotePath);
    assert Targeted(cwd, entries, PathJoin(localPath, remotePath));
  }

  // ---------------------------------------------------------------------
  // Output name

  /** The number of slashes `s` ends with: all of them are slashes, and the character before is not. */
  function TrailingSlashes(s: string): (n: nat)
    ensures n <= |s| && forall k :: |s| - n <= k < |s| ==> s[k] == '/'
    ensures n < |s| ==> s[|s| - n - 1] != '/'
  {
    if s != [] && s[|s| - 1] == '/' then TrailingSlashes(s[..|s| - 1]) + 1 else 0
  }

  /**
   * `Path(...).name`, the last component: `s` is a head that is empty or ends
   * in a slash, then the name, then its trailing slashes. The name is empty
   * only when `s` is all slashes.
   */
  function Name(s: string): (r: string)
    ensures forall k :: 0 <= k < |r| ==> r[k] != '/'
    ensures var end := |s| - TrailingSlashes(s);
            |r| <= end && s[end - |r|..end] == r && (end - |r| == 0 || s[end - |r| - 1] == '/')
    ensures r == [] <==> TrailingSlashes(s) == |s|
  {
    var end := |s| - TrailingSlashes(s);
    assert end > 0 ==> s[..end][end - 1] != '/';
    match LastSlash(s[..end])
    case None => s[..end]
    case Some(i) => s[i + 1..end]
  }

  /** The archive's name: `{bundle_id}_{version}` reduced to its last path component. */
  function OutputStem(bundleId: string, version: string): (r: string)
    ensures forall k :: 0 <= k < |r| ==> r[k] != '/'
    ensures (forall k :: 0 <= k < |bundleId + "_" + version| ==> (bundleId + "_" + version)[k] != '/') ==>
              r == bundleId + "_" + version
  {
    var joined := bundleId + "_" + version;
    var r := Name(PathJoin("", joined));
    if forall k :: 0 <= k < |joined| ==> joined[k] != '/' then
      assert joined[0] != '/';
      NameBelowRoot(joined);
      r
    else r
  }

  /** A slash-free name directly below the root is its own last component. */
  lemma NameBelowRoot(x: string)
    requires x != [] && forall k :: 0 <= k < |x| ==> x[k] != '/'
    ensures Name(PathJoin("", x)) == x
  {
    var full := "/" + x;
    assert PathJoin("", x) == full;
    assert forall k :: 0 < k < |full| ==> full[k] == x[k - 1];
    assert TrailingSlashes(full) == 0 by { assert full[|full| - 1] != '/'; }
    var r := Name(full);
    assert |full| - |r| == 1 by { assert full[0] == '/'; }
    assert full[1..] == x;
  }

  /** The `.zip` that `make_archive` writes is renamed to `.ipa`. */
  function ArchiveNames(bundleId: string, version: string): (names: (string, string))
    ensures names.0 == OutputStem(bundleId, version) + ".zip"
    ensures names.1 == OutputStem(bundleId, version) + ".ipa"
    ensures |names.0| == |names.1| && names.0[..|names.0| - 4] == names.1[..|names.1| - 4]
  {
    var stem := OutputStem(bundleId, version);
    (stem + ".zip", stem + ".ipa")
  }

  /**
   * `assert (self._bundle_id and self._version) is not None`: Python's `and`
   * yields the bundle id when it is None or empty, the version otherwise.
   */
  predicate IdentityAssertionHolds(bundleId: Option<string>, version: Option<string>) {
    if bundleId.None? then false
    else if bundleId.value == "" then true
    else version.Some?
  }

  /**
   * Since `info` sets the version before the bundle id, a bundle id without a
   * version never occurs, and the assertion holds exactly when both are set.
   */
  lemma IdentityAssertionMeansBoth(bundleId: Option<string>, version: Option<string>)
    requires version.None? ==> bundleId.None?
    ensures IdentityAssertionHolds(bundleId, version) <==> bundleId.Some? && version.Some?
  {}

  // ---------------------------------------------------------------------
  // Messages

  /** A message from the script: its `type` and, for `send`, the payload's string fields. */
  datatype ScriptMessage = ScriptMessage(kind: string, payload: map<string, string>)

  function Get(m: map<string, string>, key: string): (r: Result<string, PyError>)
    ensures r.Ok? <==> key in m
    ensures r.Ok? ==> r.value == m[key]
    ensures r.Err? ==> r.error == KeyError(key)
  {
    if key in m then Ok(m[key]) else Err(KeyError(key))
  }

  /** The `ptype`s `_process_message` handles; anything else is printed. */
  predicate IsHandledType(ptype: string) {
    ptype in {"stream", "pull:status", "pull:io-error", "info", "directory"}
  }

  /** The session's fields, as one value. */
  datatype Session = Session(
    timeStarted: Option<int>,
    failedPaths: seq<FailedPath>,
    bundleId: Option<string>,
    version: Option<string>,
    currentPull: Option<string>,
    hasStreamController: bool,
    streamInbox: seq<(string, seq<byte>)>,
    unhandled: seq<ScriptMessage>,
    errorsPrinted: seq<string>,
    fs: FileSystem,
    exitStatus: Option<int>)

  /** The five handled payload types, once `ptype` is known. */
  function HandlePayload(s: Session, rule: EntryRule, localPath: string, ptype: string, payload: map<string, string>,
                         data: seq<byte>, now: int): (result: (Session, Result<(), PyError>))
    requires IsHandledType(ptype)
    ensures var (s', _) := result;
            && s'.exitStatus == s.exitStatus && s'.currentPull == s.currentPull
            && s'.hasStreamController == s.hasStreamController
            && |s.failedPaths| <= |s'.failedPaths| <= |s.failedPaths| + 1
            && s'.failedPaths[..|s.failedPaths|] == s.failedPaths
            && forall p :: p in s.fs ==> p in s'.fs && s'.fs[p].RegularFile? == s.fs[p].RegularFile?
  {
    if ptype == "stream" then
      match Get(payload, "payload")
      case Err(e) => (s, Err(e))
      case Ok(stanza) =>
        if !s.hasStreamController then (s, Err(AssertionError))
        else (s.(streamInbox := s.streamInbox + [(stanza, data)]), Ok(()))
    else if ptype == "pull:status" then
      var s1 := if s.timeStarted.None? then s.(timeStarted := Some(now)) else s;
      // the progress line asserts the stream controller exists
      if !s1.hasStreamController then (s1, Err(AssertionError)) else (s1, Ok(()))
    else if ptype == "pull:io-error" then
      match Get(payload, "path")
      case Err(e) => (s, Err(e))
      case Ok(path) =>
        match Get(payload, "remotePath")
        case Err(e) => (s, Err(e))
        case Ok(remotePath) =>
          match Get(payload, "error")
          case Err(e) => (s, Err(e))
          case Ok(error) =>
            (s.(errorsPrinted := s.errorsPrinted + [path + ": " + error],
                failedPaths := s.failedPaths + [IoErrorRecord(rule, localPath, path, remotePath)]), Ok(()))
    else if ptype == "info" then
      match Get(payload, "version")
      case Err(e) => (s, Err(e))
      case Ok(version) =>
        var s1 := s.(version := Some(version));
        match Get(payload, "bundleId")
        case Err(e) => (s1, Err(e))
        case Ok(bundleId) => (s1.(bundleId := Some(bundleId)), Ok(()))
    else
      match Get(payload, "path")
      case Err(e) => (s, Err(e))
      case Ok(path) =>
        var target := PathJoin(localPath, path);
        match MakeDirs(s.fs, target)
        case Err(e) => (s, Err(e))
        case Ok(fs1) =>
          (s.(fs := Chmod(fs1, target, EXECUTABLE_MODE).value), Ok(()))
  }

  /** `_process_message(message, data)`, with `time.time()` as `now`. */
  function Process(s: Session, rule: EntryRule, localPath: string, message: ScriptMessage, data: seq<byte>, now: int)
    : (result: (Session, Result<(), PyError>))
    ensures var (s', _) := result;
            && s'.exitStatus == s.exitStatus && s'.currentPull == s.currentPull
            && s'.hasStreamController == s.hasStreamController
            && |s.failedPaths| <= |s'.failedPaths| <= |s.failedPaths| + 1
            && s'.failedPaths[..|s.failedPaths|] == s.failedPaths
            && forall p :: p in s.fs ==> p in s'.fs && s'.fs[p].RegularFile? == s.fs[p].RegularFile?
  {
    if message.kind != "send" then (s.(unhandled := s.unhandled + [message]), Ok(()))
    else
      match Get(message.payload, "type")
      case Err(e) => (s, Err(e))
      case Ok(ptype) =>
        if IsHandledType(ptype) then HandlePayload(s, rule, localPath, ptype, message.payload, data, now)
        else (s.(unhandled := s.unhandled + [message]), Ok(()))
  }

  /** A message that is not `send`, or whose type is not handled, is printed and changes nothing else. */
  lemma UnhandledOnlyPrinted(s: Session, rule: EntryRule, localPath: string, message: ScriptMessage, data: seq<byte>, now: int)
    requires message.kind != "send" || ("type" in message.payload && !IsHandledType(message.payload["type"]))
    ensures Process(s, rule, localPath, message, data, now) == (s.(unhandled := s.unhandled + [message]), Ok(()))
  {}

  /** `info` sets the version and the bundle id from the payload and nothing else. */
  lemma InfoSetsIdentityOnly(s: Session, rule: EntryRule, localPath: string, message: ScriptMessage, data: seq<byte>, now: int)
    requires message.kind == "send" && "type" in message.payload && message.payload["type"] == "info"
    requires "version" in message.payload && "bundleId" in message.payload
    ensures Process(s, rule, localPath, message, data, now)
         == (s.(version := Some(message.payload["version"]), bundleId := Some(message.payload["bundleId"])), Ok(()))
  {}

  /** The first `pull:status` records the time; a later one never overwrites it. */
  lemma {:induction false} TimeStartedOnce(s: Session, rule: EntryRule, localPath: string, message: ScriptMessage, data: seq<byte>, now: int)
    ensures var s' := Process(s, rule, localPath, message, data, now).0;
            && (s.timeStarted.Some? ==> s'.timeStarted == s.timeStarted)
            && (s.timeStarted.None? && s'.timeStarted.Some? ==> s'.timeStarted == Some(now))
            && (s'.timeStarted != s.timeStarted ==>
                  message.kind == "send" && "type" in message.payload && message.payload["type"] == "pull:status")
  {
  }

  /** Each `pull:io-error` appends exactly one `partial` entry and nothing else to the failed paths. */
  lemma IoErrorAppendsOne(s: Session, rule: EntryRule, localPath: string, message: ScriptMessage, data: seq<byte>, now: int)
    requires message.kind == "send" && "type" in message.payload && message.payload["type"] == "pull:io-error"
    requires "path" in message.payload && "remotePath" in message.payload && "error" in message.payload
    ensures var s' := Process(s, rule, localPath, message, data, now).0;
            && s'.failedPaths == s.failedPaths + [IoErrorRecord(rule, localPath, message.payload["path"], message.payload["remotePath"])]
            && (rule == AsWritten ==> s'.failedPaths[|s.failedPaths|].path == message.payload["remotePath"])
            && s'.failedPaths[|s.failedPaths|].state == Partial
            && s'.(failedPaths := s.failedPaths, errorsPrinted := s.errorsPrinted) == s
  {}

  /**
   * A `pull:io-error` for a partial file in the staging tree, then the
   * cleanup, as written: the session is left holding the file.
   */
  lemma IoErrorThenCleanupAsWritten()
    ensures var localPath := "/tmp/t/Payload";
            var partial := "/tmp/t/Payload/A.app/A";
            var fs := map[localPath := Directory(None), partial := RegularFile(None)];
            var s := Session(None, [], None, None, None, true, [], [], [], fs, None);
            var message := ScriptMessage("send", map["type" := "pull:io-error", "path" := "/private/var/A.app/A",
                                                     "remotePath" := "A.app/A", "error" := "EIO"]);
            var s' := Process(s, AsWritten, localPath, message, [], 0).0;
            partial in Cleanup(s'.fs, "/home/u", s'.failedPaths)
  {
    var localPath := "/tmp/t/Payload";
    var fs := map[localPath := Directory(None), "/tmp/t/Payload/A.app/A" := RegularFile(None)];
    var s := Session(None, [], None, None, None, true, [], [], [], fs, None);
    var message := ScriptMessage("send", map["type" := "pull:io-error", "path" := "/private/var/A.app/A",
                                             "remotePath" := "A.app/A", "error" := "EIO"]);
    IoErrorAppendsOne(s, AsWritten, localPath, message, [], 0);
    var s' := Process(s, AsWritten, localPath, message, [], 0).0;
    assert s'.failedPaths == [IoErrorEntryAsWritten("/private/var/A.app/A", "A.app/A")];
    assert s'.fs == fs;
    PartialSurvivesAsWritten();
  }

  /**
   * With the corrected entry, a `pull:io-error` for a partial file in the
   * staging tree, then the cleanup, removes that file from any working
   * directory.
   */
  lemma {:induction false} IoErrorThenCleanupCorrected(s: Session, localPath: string, cwd: string,
                                                      message: ScriptMessage, data: seq<byte>, now: int)
    requires message.kind == "send" && "type" in message.payload && message.payload["type"] == "pull:io-error"
    requires "path" in message.payload && "remotePath" in message.payload && "error" in message.payload
    requires StartsWith(localPath, "/")
    requires var partial := PathJoin(localPath, message.payload["remotePath"]);
             partial in s.fs && s.fs[partial].RegularFile?
    ensures var s' := Process(s, Corrected, localPath, message, data, now).0;
            PathJoin(localPath, message.payload["remotePath"]) !in Cleanup(s'.fs, cwd, s'.failedPaths)
  {
    var remotePath := message.payload["remotePath"];
    IoErrorAppendsOne(s, Corrected, localPath, message, data, now);
    CorrectedCleanupRemovesPartial(s.fs, cwd, localPath, s.failedPaths, remotePath);
  }

  /** No message leaves a bundle id without a version. */
  lemma {:induction false} IdentityInvariant(s: Session, rule: EntryRule, localPath: string, message: ScriptMessage, data: seq<byte>, now: int)
    requires s.version.None? ==> s.bundleId.None?
    ensures var s' := Process(s, rule, localPath, message, data, now).0;
            s'.version.None? ==> s'.bundleId.None?
  {
    if message.kind == "send" && "type" in message.payload && message.payload["type"] == "info" {
      if "version" in message.payload {
        assert Process(s, rule, localPath, message, data, now).0.version == Some(message.payload["version"]);
      }
    }
  }

  /** A `directory` message creates the directory under the staging root with mode 755. */
  lemma DirectoryCreated(s: Session, rule: EntryRule, localPath: string, message: ScriptMessage, data: seq<byte>, now: int)
    requires message.kind == "send" && "type" in message.payload && message.payload["type"] == "directory"
    requires "path" in message.payload
    ensures var target := PathJoin(localPath, message.payload["path"]);
            var r := Process(s, rule, localPath, message, data, now);
            && (target in s.fs ==> r == (s, Err(FileExistsError(target))))
            && (r.1.Ok? ==> target in r.0.fs && r.0.fs[target] == Directory(Some(EXECUTABLE_MODE)))
            && (r.1.Ok? ==> forall q :: q in s.fs ==> q in r.0.fs && r.0.fs[q] == s.fs[q])
  {}

  /** The staging tree and the session's other state, as `DecrypterApplication` holds them. */
  class DecrypterApplication {
    const localPath: string
    const cwd: string
    const rule: EntryRule
    var timeStarted: Option<int>
    var failedPaths: seq<FailedPath>
    var bundleId: Option<string>
    var version: Option<string>
    var currentPull: Option<string>
    var hasStreamController: bool
    var streamInbox: seq<(string, seq<byte>)>
    var unhandled: seq<ScriptMessage>
    var errorsPrinted: seq<string>
    var fs: FileSystem
    var exitStatus: Option<int>

    function State(): Session
      reads this
    {
      Session(timeStarted, failedPaths, bundleId, version, currentPull, hasStreamController,
              streamInbox, unhandled, errorsPrinted, fs, exitStatus)
    }

    /** `__init__`, with the staging directory already created by `_start`. */
    constructor (localPath: string, cwd: string, rule: EntryRule, fs: FileSystem)
      ensures this.localPath == localPath && this.cwd == cwd && this.rule == rule
      ensures State() == Session(None, [], None, None, None, false, [], [], [], fs, None)
    {
      this.localPath := localPath;
      this.cwd := cwd;
      this.rule := rule;
      timeStarted := None;
      failedPaths := [];
      bundleId := None;
      version := None;
      currentPull := None;
      hasStreamController := false;
      streamInbox := [];
      unhandled := [];
      errorsPrinted := [];
      this.fs := fs;
      exitStatus := None;
    }

    /** The stream controller is created once the script is loaded. */
    method CreateStreamController()
      modifies this
      ensures State() == old(State()).(hasStreamController := true)
    {
      hasStreamController := true;
    }

    /**
     * `_on_io_error(remote_path, local_path, error)`, called with the payload's
     * `path`, `remotePath` and `error`: prints `path: error` and records the
     * entry the rule gives (as written, the payload's `remotePath`).
     */
    method OnIoError(path: string, remotePath: string, error: string)
      modifies this
      ensures State() == old(State()).(errorsPrinted := old(errorsPrinted) + [path + ": " + error],
                                       failedPaths := old(failedPaths) + [IoErrorRecord(rule, localPath, path, remotePath)])
      ensures rule == AsWritten ==> failedPaths[|failedPaths| - 1] == FailedPath(remotePath, Partial)
    {
      errorsPrinted := errorsPrinted + [path + ": " + error];
      failedPaths := failedPaths + [IoErrorRecord(rule, localPath, path, remotePath)];
    }

    /** `_process_message(message, data)`. */
    method ProcessMessage(message: ScriptMessage, data: seq<byte>, now: int) returns (r: Result<(), PyError>)
      modifies this
      ensures (State(), r) == Process(old(State()), rule, localPath, message, data, now)
    {
      if message.kind != "send" {
        unhandled := unhandled + [message];
        return Ok(());
      }
      var payload := message.payload;
      var ptype :- Get(payload, "type");
      if ptype == "stream" {
        var stanza :- Get(payload, "payload");
        if !hasStreamController {
          return Err(AssertionError);
        }
        streamInbox := streamInbox + [(stanza, data)];
      } else if ptype == "pull:status" {
        if timeStarted.None? {
          timeStarted := Some(now);
        }
        if !hasStreamController {
          return Err(AssertionError);
        }
      } else if ptype == "pull:io-error" {
        var path :- Get(payload, "path");
        var remotePath :- Get(payload, "remotePath");
        var error :- Get(payload, "error");
        OnIoError(path, remotePath, error);
      } else if ptype == "info" {
        var v :- Get(payload, "version");
        version := Some(v);
        var b :- Get(payload, "bundleId");
        bundleId := Some(b);
      } else if ptype == "directory" {
        var path :- Get(payload, "path");
        var target := PathJoin(localPath, path);
        var fs1 :- MakeDirs(fs, target);
        fs := Chmod(fs1, target, EXECUTABLE_MODE).value;
      } else {
        unhandled := unhandled + [message];
      }
      return Ok(());
    }

    /**
     * `_on_incoming_stream_request(label, details)`: the label becomes the
     * current pull before the open is attempted; a failed open is recorded as
     * `unopened` and re-raised.
     */
    method OnIncomingStreamRequest(streamLabel: string) returns (r: Result<(), PyError>)
      modifies this
      ensures currentPull == Some(streamLabel)
      ensures var target := PathJoin(localPath, streamLabel);
              var attempt := OpenForWriting(old(fs), target);
              && (attempt.Ok? ==>
                    r.Ok? && fs == attempt.value && failedPaths == old(failedPaths) &&
                    errorsPrinted == old(errorsPrinted))
              && (attempt.Err? ==>
                    r == Err(attempt.error) && fs == old(fs) &&
                    failedPaths == old(failedPaths) + [FailedPath(target, Unopened)] &&
                    errorsPrinted == old(errorsPrinted) + [ErrorText(attempt.error)])
      ensures State().(currentPull := old(currentPull), fs := old(fs), failedPaths := old(failedPaths),
                       errorsPrinted := old(errorsPrinted)) == old(State())
    {
      var target := PathJoin(localPath, streamLabel);
      currentPull := Some(streamLabel);
      var attempt := OpenForWriting(fs, target);
      if attempt.Err? {
        errorsPrinted := errorsPrinted + [ErrorText(attempt.error)];
        failedPaths := failedPaths + [FailedPath(target, Unopened)];
        return Err(attempt.error);
      }
      fs := attempt.value;
      return Ok(());
    }

    /** `_on_incoming_stream_closed(label, details)`: 755 for executables, 644 otherwise. */
    method OnIncomingStreamClosed(streamLabel: string, details: map<string, string>) returns (r: Result<(), PyError>)
      modifies this
      ensures var target := PathJoin(localPath, streamLabel);
              && ("mode" !in details ==> r == Err(KeyError("mode")) && fs == old(fs))
              && ("mode" in details && target !in old(fs) ==> r == Err(FileNotFoundError(target)) && fs == old(fs))
              && ("mode" in details && target in old(fs) ==>
                    r.Ok? && fs == Chmod(old(fs), target, ModeFor(details["mode"])).value)
      ensures State().(fs := old(fs)) == old(State())
    {
      var mode :- Get(details, "mode");
      var target := PathJoin(localPath, streamLabel);
      var changed :- Chmod(fs, target, ModeFor(mode));
      fs := changed;
      return Ok(());
    }

    /**
     * `_on_dump_finished(error)`: unlink the partial files, report, and exit
     * with status 1 when anything failed. Without an error the summary needs
     * the start time, the stream controller and a non-zero duration.
     */
    method OnDumpFinished(error: Option<string>, now: int) returns (r: Result<(), PyError>)
      modifies this
      ensures fs == Cleanup(old(fs), cwd, old(failedPaths))
      ensures error.None? && (timeStarted.None? || !hasStreamController) ==> r == Err(AssertionError) && exitStatus == old(exitStatus)
      ensures error.None? && timeStarted.Some? && hasStreamController && now == timeStarted.value ==>
                r == Err(ZeroDivisionError) && exitStatus == old(exitStatus)
      ensures r.Ok? ==> exitStatus == (if ExitStatus(failedPaths, error) == 1 then Some(1) else old(exitStatus))
      ensures r.Ok? <==> error.Some? || (timeStarted.Some? && hasStreamController && now != timeStarted.value)
      ensures errorsPrinted == old(errorsPrinted) + (if error.Some? then [error.value] else [])
      ensures State().(fs := old(fs), exitStatus := old(exitStatus), errorsPrinted := old(errorsPrinted)) == old(State())
    {
      var i := 0;
      while i < |failedPaths|
        invariant 0 <= i <= |failedPaths|
        invariant fs == Cleanup(old(fs), cwd, failedPaths[..i])
        invariant State().(fs := old(fs)) == old(State())
      {
        var entry := failedPaths[i];
        assert failedPaths[..i + 1][..i] == failedPaths[..i];
        if entry.state == Partial {
          fs := UnlinkQuietly(fs, Resolve(cwd, entry.path));
        }
        i := i + 1;
      }
      assert failedPaths[..i] == failedPaths;
      if error.None? {
        // `_render_summary_ui`
        if timeStarted.None? || !hasStreamController {
          return Err(AssertionError);
        }
        if now - timeStarted.value == 0 {
          return Err(ZeroDivisionError);
        }
      } else {
        errorsPrinted := errorsPrinted + [error.value];
      }
      var status := ExitStatus(failedPaths, error);
      if status == 1 {
        exitStatus := Some(status);
      }
      return Ok(());
    }
  }
}
