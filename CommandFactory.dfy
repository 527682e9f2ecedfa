// agent/lib/macho/commands/factory.ts: read the command word at the start
// of a load command and build the matching record. The record is built one
// word further on, so its `cmdsize` is the word right after `cmd`, and its
// `base` is the module base plus the command's start offset.
module CommandFactory {
  import opened Common
  import opened LittleEndian
  import opened LoadCommand
  import opened EncryptionInfo

  /** The number of bytes a command of this type needs from its start offset. */
  function RecordSize(cmd: u32): (n: nat)
    ensures cmd == LC_ENCRYPTION_INFO ==> n == 20
    ensures cmd == LC_ENCRYPTION_INFO_64 ==> n == 24
    ensures cmd != LC_ENCRYPTION_INFO && cmd != LC_ENCRYPTION_INFO_64 ==> n == 8
  {
    if cmd == LC_ENCRYPTION_INFO then 20
    else if cmd == LC_ENCRYPTION_INFO_64 then 24
    else 8
  }

  /** `LoadCommandFactory.retrieveCommand(module, offset, base)`. */
  function RetrieveCommand(image: seq<byte>, offset: nat, base: int): (r: Result<LoadCommand, AgentError>)
    ensures r.Ok? <==> offset + 4 <= |image| &&
                       offset + RecordSize(ReadUInt32LE(image, offset).value) <= |image|
    ensures r.Err? ==> r.error.OutOfRange?
    ensures r.Ok? ==> && r.value.cmd == ReadUInt32LE(image, offset).value
                      && r.value.base == base + offset
                      && r.value.cmdsize == ReadUInt32LE(image, offset + 4).value
    ensures r.Ok? ==> && (r.value.cmd == LC_ENCRYPTION_INFO <==> r.value.EncryptionInfo?)
                      && (r.value.cmd == LC_ENCRYPTION_INFO_64 <==> r.value.EncryptionInfo64?)
    ensures r.Ok? && r.value.IsEncryptionInfo() ==>
              && r.value.cryptoff == ReadUInt32LE(image, offset + 8).value
              && r.value.cryptsize == ReadUInt32LE(image, offset + 12).value
              && r.value.cryptid == ReadUInt32LE(image, offset + 16).value
    ensures r.Ok? && r.value.EncryptionInfo64? ==> r.value.pad == ReadUInt32LE(image, offset + 20).value
  {
    var cmd :- ReadUInt32LE(image, offset);
    var cmdBase := base + offset;
    if cmd == LC_ENCRYPTION_INFO then
      NewEncryptionInfo(cmd, image, offset + 4, cmdBase)
    else if cmd == LC_ENCRYPTION_INFO_64 then
      var c :- NewEncryptionInfo64(cmd, image, offset + 4, cmdBase);
      EncryptionInfo64Extends(cmd, image, offset + 4, cmdBase);
      Ok(c)
    else
      NewLoadCommand(cmd, image, offset + 4, cmdBase)
  }

  /** Every u32 command word yields a record; only the two encryption words are special. */
  lemma {:induction false} RetrieveIsTotal(image: seq<byte>, offset: nat, base: int)
    requires offset + 24 <= |image|
    ensures RetrieveCommand(image, offset, base).Ok?
    ensures var c := RetrieveCommand(image, offset, base).value;
            c.Generic? <==> c.cmd != LC_ENCRYPTION_INFO && c.cmd != LC_ENCRYPTION_INFO_64
  {
    var cmd := ReadUInt32LE(image, offset).value;
    assert RecordSize(cmd) <= 24;
  }
}
