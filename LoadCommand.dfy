// agent/lib/macho/commands/command.ts: the load-command record every command
// starts with (`cmd`, `cmdsize`) and the address (`base`) it was found at.
//
// The TypeScript class hierarchy LoadCommand <- EncryptionInfo <- EncryptionInfo64
// becomes one datatype with a constructor per class; the fields the
// subclasses add appear only on their constructors.
module LoadCommand {
  import opened Common
  import opened LittleEndian

  const LC_ENCRYPTION_INFO: u32 := 0x21
  const LC_ENCRYPTION_INFO_64: u32 := 0x2C

  datatype LoadCommand =
    | Generic(base: int, cmd: u32, cmdsize: u32)
    | EncryptionInfo(base: int, cmd: u32, cmdsize: u32,
                     cryptoff: u32, cryptsize: u32, cryptid: u32)
    | EncryptionInfo64(base: int, cmd: u32, cmdsize: u32,
                       cryptoff: u32, cryptsize: u32, cryptid: u32, pad: u32)
  {
    /** `command instanceof EncryptionInfo`: true of the subclass as well. */
    predicate IsEncryptionInfo() {
      EncryptionInfo? || EncryptionInfo64?
    }
  }

  /**
   * The documented well-formedness of a command table, which the parser
   * never checks: every cmdsize is a positive multiple of the word alignment
   * (4 bytes for 32-bit images, 8 for 64-bit ones).
   */
  predicate AlignedCommandSize(cmdsize: u32, is64: bool) {
    cmdsize > 0 && cmdsize % (if is64 then 8 else 4) == 0
  }

  /**
   * `new LoadCommand(cmd, module, offset, base)`: `cmd` and `base` are kept as
   * passed and only `cmdsize` is read, at `offset`.
   */
  function NewLoadCommand(cmd: u32, image: seq<byte>, offset: int, base: int): (r: Result<LoadCommand, AgentError>)
    ensures r.Ok? <==> ReadUInt32LE(image, offset).Ok?
    ensures r.Err? ==> r.error == OutOfRange(offset)
    ensures r.Ok? ==> r.value.Generic? && r.value.cmd == cmd && r.value.base == base
    ensures r.Ok? ==> r.value.cmdsize == ReadUInt32LE(image, offset).value
  {
    var cmdsize :- ReadUInt32LE(image, offset);
    Ok(Generic(base, cmd, cmdsize))
  }
}
