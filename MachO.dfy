// agent/lib/macho/macho.ts: decode the header, then walk the load-command
// table from the end of the header, adding each command's cmdsize to the
// running offset, until the offset reaches headerSize + sizeofcmds; finally
// assert that the walk produced exactly ncmds commands.
module MachO {
  import opened Common
  import opened LittleEndian
  import opened MachOHeader
  import opened LoadCommand
  import opened CommandFactory

  datatype MachO = MachO(image: seq<byte>, base: int, header: MachOHeader, loadCommands: seq<LoadCommand>)
  {
    /** `is64()`: a byte-swapped or unknown magic counts as 32-bit. */
    predicate Is64() {
      header.magic == MH_MAGIC_64
    }
  }

  function HeaderSize(h: MachOHeader): (n: nat)
    ensures n == MH_HEADER_SIZE_64 <==> h.magic == MH_MAGIC_64
    ensures n == MH_HEADER_SIZE <==> h.magic != MH_MAGIC_64
  {
    if h.magic == MH_MAGIC_64 then MH_HEADER_SIZE_64 else MH_HEADER_SIZE
  }

  /** Prefix the commands already parsed to the outcome of the rest of the walk. */
  function Prepend(done: seq<LoadCommand>, rest: Result<seq<LoadCommand>, AgentError>): (r: Result<seq<LoadCommand>, AgentError>)
    ensures r.Ok? <==> rest.Ok?
    ensures r.Ok? ==> |r.value| == |done| + |rest.value|
    ensures r.Err? ==> r.error == rest.error
  {
    match rest
    case Ok(cmds) => Ok(done + cmds)
    case Err(e) => Err(e)
  }

  /**
   * The load commands found from `offset` on, in file order. On a command
   * whose cmdsize is 0 the source loop never moves its offset and runs until
   * memory runs out; the walk reports that as NonAdvancingCommand instead.
   */
  function WalkFrom(image: seq<byte>, base: int, offset: nat, end: nat): (r: Result<seq<LoadCommand>, AgentError>)
    ensures offset >= end ==> r == Ok([])
    ensures r.Ok? && offset < end ==> 0 < |r.value| <= end - offset
    ensures r.Err? ==> r.error.OutOfRange? || r.error.NonAdvancingCommand?
    decreases end - offset
  {
    if offset >= end then Ok([])
    else
      var command :- RetrieveCommand(image, offset, base);
      if command.cmdsize == 0 then Err(NonAdvancingCommand(offset))
      else Prepend([command], WalkFrom(image, base, offset + command.cmdsize, end))
  }

  /** What parseLoadCommands leaves in `loadCommands`, or the error it throws. */
  function LoadCommandsOf(image: seq<byte>, base: int, header: MachOHeader): Result<seq<LoadCommand>, AgentError> {
    var headerSize := HeaderSize(header);
    var cmds :- WalkFrom(image, base, headerSize, headerSize + header.sizeofcmds);
    if |cmds| == header.ncmds then Ok(cmds)
    else Err(LoadCommandCount(|cmds|, header.ncmds))
  }

  /** One step of the walk: a command with a non-zero cmdsize moves the walk past it. */
  lemma WalkStep(done: seq<LoadCommand>, image: seq<byte>, base: int, offset: nat, end: nat, command: LoadCommand)
    requires offset < end
    requires RetrieveCommand(image, offset, base) == Ok(command) && command.cmdsize != 0
    ensures Prepend(done, WalkFrom(image, base, offset, end))
         == Prepend(done + [command], WalkFrom(image, base, offset + command.cmdsize, end))
  {
    var rest := WalkFrom(image, base, offset + command.cmdsize, end);
    if rest.Ok? {
      assert done + ([command] + rest.value) == done + [command] + rest.value;
    }
  }

  /** `parseLoadCommands()`, the loop as the source writes it. */
  method ParseLoadCommands(image: seq<byte>, base: int, header: MachOHeader)
    returns (r: Result<seq<LoadCommand>, AgentError>)
    ensures r == LoadCommandsOf(image, base, header)
  {
    var headerSize: nat := if header.magic == MH_MAGIC_64 then MH_HEADER_SIZE_64 else MH_HEADER_SIZE;
    var end: nat := headerSize + header.sizeofcmds;
    var loadCommands: seq<LoadCommand> := [];
    var offset: nat := headerSize;
    assert Prepend(loadCommands, WalkFrom(image, base, offset, end)) == WalkFrom(image, base, headerSize, end) by {
      var w := WalkFrom(image, base, offset, end);
      if w.Ok? { assert [] + w.value == w.value; }
    }
    while offset < end
      invariant Prepend(loadCommands, WalkFrom(image, base, offset, end)) == WalkFrom(image, base, headerSize, end)
      decreases end - offset
    {
      var command :- RetrieveCommand(image, offset, base);
      if command.cmdsize == 0 {
        assert WalkFrom(image, base, offset, end) == Err(NonAdvancingCommand(offset));
        return Err(NonAdvancingCommand(offset));
      }
      WalkStep(loadCommands, image, base, offset, end, command);
      loadCommands := loadCommands + [command];
      offset := offset + command.cmdsize;
    }
    assert WalkFrom(image, base, headerSize, end) == Ok(loadCommands) by {
      assert WalkFrom(image, base, offset, end) == Ok([]);
      assert loadCommands + [] == loadCommands;
    }
    if |loadCommands| != header.ncmds {
      return Err(LoadCommandCount(|loadCommands|, header.ncmds));
    }
    return Ok(loadCommands);
  }

  /** `new MachO(module)`: the header is decoded first, then the command table. */
  method NewMachO(image: seq<byte>, base: int) returns (r: Result<MachO, AgentError>)
    ensures DecodeHeader(image).Err? ==> r == Err(DecodeHeader(image).error)
    ensures DecodeHeader(image).Ok? ==>
              var cmds := LoadCommandsOf(image, base, DecodeHeader(image).value);
              && (cmds.Err? ==> r == Err(cmds.error))
              && (cmds.Ok? ==> r == Ok(MachO(image, base, DecodeHeader(image).value, cmds.value)))
  {
    var header :- DecodeHeader(image);
    var loadCommands :- ParseLoadCommands(image, base, header);
    return Ok(MachO(image, base, header, loadCommands));
  }

  /** The command the walk starts with, and what remains after it. */
  lemma WalkUnfold(image: seq<byte>, base: int, offset: nat, end: nat)
    requires offset < end && WalkFrom(image, base, offset, end).Ok?
    ensures RetrieveCommand(image, offset, base).Ok?
    ensures var command := RetrieveCommand(image, offset, base).value;
            && command.cmdsize > 0
            && WalkFrom(image, base, offset + command.cmdsize, end).Ok?
            && WalkFrom(image, base, offset, end).value
               == [command] + WalkFrom(image, base, offset + command.cmdsize, end).value
  {}

  /**
   * The successful walk chains its commands: the first sits at `offset`,
   * each next one sits cmdsize bytes after the previous one, and the last
   * one reaches `end` or beyond.
   */
  lemma {:induction false} WalkChain(image: seq<byte>, base: int, offset: nat, end: nat)
    requires WalkFrom(image, base, offset, end).Ok?
    ensures var cmds := WalkFrom(image, base, offset, end).value;
            && (cmds == [] <==> offset >= end)
            && (cmds != [] ==> cmds[0].base == base + offset)
            && (forall i :: 0 <= i < |cmds| - 1 ==> cmds[i + 1].base == cmds[i].base + cmds[i].cmdsize)
            && (cmds != [] ==> cmds[|cmds| - 1].base - base + cmds[|cmds| - 1].cmdsize >= end)
    decreases end - offset
  {
    if offset < end {
      WalkUnfold(image, base, offset, end);
      var command := RetrieveCommand(image, offset, base).value;
      var next := offset + command.cmdsize;
      WalkChain(image, base, next, end);
      var rest := WalkFrom(image, base, next, end).value;
      var cmds := WalkFrom(image, base, offset, end).value;
      forall i | 0 <= i < |cmds| - 1
        ensures cmds[i + 1].base == cmds[i].base + cmds[i].cmdsize
      {
        if i > 0 {
          assert cmds[i] == rest[i - 1] && cmds[i + 1] == rest[i];
        }
      }
      if rest != [] {
        assert cmds[|cmds| - 1] == rest[|rest| - 1];
      }
    }
  }

  /**
   * Every command of a successful walk lies in [offset, end), has a non-zero
   * cmdsize, and is the record retrieveCommand builds at its own offset.
   */
  lemma {:induction false} WalkRecords(image: seq<byte>, base: int, offset: nat, end: nat)
    requires WalkFrom(image, base, offset, end).Ok?
    ensures forall c :: c in WalkFrom(image, base, offset, end).value ==>
              && offset <= c.base - base < end
              && c.cmdsize > 0
              && RetrieveCommand(image, c.base - base, base) == Ok(c)
    decreases end - offset
  {
    if offset < end {
      WalkUnfold(image, base, offset, end);
      var command := RetrieveCommand(image, offset, base).value;
      WalkRecords(image, base, offset + command.cmdsize, end);
    }
  }

  /** The walk only stalls on a command whose cmdsize word is 0. */
  lemma {:induction false} StallMeansZeroSize(image: seq<byte>, base: int, offset: nat, end: nat)
    requires WalkFrom(image, base, offset, end).Err?
    requires WalkFrom(image, base, offset, end).error.NonAdvancingCommand?
    ensures var at := WalkFrom(image, base, offset, end).error.at;
            offset <= at < end && ReadUInt32LE(image, at + 4) == Ok(0)
    decreases end - offset
  {
    var command := RetrieveCommand(image, offset, base).value;
    if command.cmdsize != 0 {
      StallMeansZeroSize(image, base, offset + command.cmdsize, end);
    }
  }

  // ---------------------------------------------------------------------
  // The loop as written, which never moves past a zero cmdsize

  /** One pass of the source loop body: retrieve the command, add its cmdsize. */
  function SourceAdvance(image: seq<byte>, base: int, offset: nat): (r: Result<nat, AgentError>)
    ensures r.Ok? <==> RetrieveCommand(image, offset, base).Ok?
    ensures r.Err? ==> r.error.OutOfRange?
    ensures r.Ok? ==> offset <= r.value && (r.value == offset <==> RetrieveCommand(image, offset, base).value.cmdsize == 0)
  {
    var command :- RetrieveCommand(image, offset, base);
    Ok(offset + command.cmdsize)
  }

  /**
   * The offset after at most `steps` passes of the source loop, which only
   * stops once the offset reaches `end`.
   */
  function SourceLoop(image: seq<byte>, base: int, offset: nat, end: nat, steps: nat): (r: Result<nat, AgentError>)
    ensures r.Ok? ==> offset <= r.value
    ensures r.Ok? && offset < r.value ==> 0 < steps && offset < end
    ensures r.Err? ==> r.error.OutOfRange?
    decreases steps
  {
    if steps == 0 || offset >= end then Ok(offset)
    else
      var next :- SourceAdvance(image, base, offset);
      SourceLoop(image, base, next, end, steps - 1)
  }

  /** As written, a command whose cmdsize is 0 holds the loop at its offset, below `end`, for any number of passes. */
  lemma {:induction false} ZeroSizeSpins(image: seq<byte>, base: int, offset: nat, end: nat, steps: nat)
    requires offset < end
    requires RetrieveCommand(image, offset, base).Ok? && RetrieveCommand(image, offset, base).value.cmdsize == 0
    ensures SourceLoop(image, base, offset, end, steps) == Ok(offset)
    decreases steps
  {
    if steps > 0 {
      ZeroSizeSpins(image, base, offset, end, steps - 1);
    }
  }

  /**
   * Where the walk succeeds, the source loop ends after exactly one pass per
   * command it found: the two agree on every table without a zero cmdsize.
   */
  lemma {:induction false} SourceLoopAgrees(image: seq<byte>, base: int, offset: nat, end: nat)
    requires WalkFrom(image, base, offset, end).Ok?
    ensures var n := |WalkFrom(image, base, offset, end).value|;
            && SourceLoop(image, base, offset, end, n).Ok?
            && SourceLoop(image, base, offset, end, n).value >= end
            && (n > 0 ==> SourceLoop(image, base, offset, end, n - 1).Ok? && SourceLoop(image, base, offset, end, n - 1).value < end)
    decreases end - offset
  {
    if offset < end {
      WalkUnfold(image, base, offset, end);
      var command := RetrieveCommand(image, offset, base).value;
      var next := offset + command.cmdsize;
      SourceLoopAgrees(image, base, next, end);
      var m := |WalkFrom(image, base, next, end).value|;
      assert |WalkFrom(image, base, offset, end).value| == m + 1;
      assert SourceAdvance(image, base, offset) == Ok(next);
      assert SourceLoop(image, base, offset, end, m + 1) == SourceLoop(image, base, next, end, m);
      if m > 0 {
        assert SourceLoop(image, base, offset, end, m) == SourceLoop(image, base, next, end, m - 1);
      }
    }
  }

  /** The walk stops with NonAdvancingCommand at the first command whose cmdsize is 0. */
  lemma ZeroSizeRejected(image: seq<byte>, base: int, offset: nat, end: nat)
    requires offset < end
    requires RetrieveCommand(image, offset, base).Ok? && RetrieveCommand(image, offset, base).value.cmdsize == 0
    ensures WalkFrom(image, base, offset, end) == Err(NonAdvancingCommand(offset))
  {}

  /**
   * A command table of one 8-byte command whose cmd and cmdsize words are 0:
   * the source loop never leaves offset 0, and the walk reports the stall there.
   */
  lemma ZeroCommandStalls(image: seq<byte>)
    requires |image| == 8 && ReadUInt32LE(image, 0) == Ok(0) && ReadUInt32LE(image, 4) == Ok(0)
    ensures WalkFrom(image, 0, 0, 8) == Err(NonAdvancingCommand(0))
    ensures forall steps: nat :: SourceLoop(image, 0, 0, 8, steps) == Ok(0)
  {
    assert RetrieveCommand(image, 0, 0).Ok? && RetrieveCommand(image, 0, 0).value.cmdsize == 0;
    forall steps: nat ensures SourceLoop(image, 0, 0, 8, steps) == Ok(0) {
      ZeroSizeSpins(image, 0, 0, 8, steps);
    }
  }

  /**
   * Under the documented alignment rule (every cmdsize a positive multiple
   * of the word size), every command starts on an aligned offset.
   */
  lemma {:induction false} AlignedWalk(image: seq<byte>, base: int, offset: nat, end: nat, is64: bool)
    requires WalkFrom(image, base, offset, end).Ok?
    requires offset % (if is64 then 8 else 4) == 0
    requires forall c :: c in WalkFrom(image, base, offset, end).value ==> AlignedCommandSize(c.cmdsize, is64)
    ensures forall c :: c in WalkFrom(image, base, offset, end).value ==>
              (c.base - base) % (if is64 then 8 else 4) == 0
    decreases end - offset
  {
    if offset < end {
      WalkUnfold(image, base, offset, end);
      var command := RetrieveCommand(image, offset, base).value;
      var next := offset + command.cmdsize;
      var cmds := WalkFrom(image, base, offset, end).value;
      var rest := WalkFrom(image, base, next, end).value;
      assert cmds == [command] + rest;
      assert AlignedCommandSize(command.cmdsize, is64) by {
        assert command in cmds;
      }
      NextAligned(offset, command.cmdsize, is64);
      forall c | c in rest ensures AlignedCommandSize(c.cmdsize, is64) {
        assert c in cmds;
      }
      AlignedWalk(image, base, next, end, is64);
    }
  }

  /** An aligned offset moved on by an aligned cmdsize stays aligned. */
  lemma NextAligned(offset: nat, cmdsize: u32, is64: bool)
    requires offset % (if is64 then 8 else 4) == 0
    requires AlignedCommandSize(cmdsize, is64)
    ensures (offset + cmdsize) % (if is64 then 8 else 4) == 0
  {
    if is64 {
      assert (offset + cmdsize) % 8 == 0;
    } else {
      assert (offset + cmdsize) % 4 == 0;
    }
  }

  /** The final assertion: a parse succeeds only with exactly ncmds commands. */
  lemma {:induction false} CountChecked(image: seq<byte>, base: int, header: MachOHeader)
    ensures var walk := WalkFrom(image, base, HeaderSize(header), HeaderSize(header) + header.sizeofcmds);
            var r := LoadCommandsOf(image, base, header);
            && (r.Ok? <==> walk.Ok? && |walk.value| == header.ncmds)
            && (r.Ok? ==> r.value == walk.value)
            && (walk.Ok? && |walk.value| != header.ncmds ==> r == Err(LoadCommandCount(|walk.value|, header.ncmds)))
  {
  }
}
