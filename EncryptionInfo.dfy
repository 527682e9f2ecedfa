// agent/lib/macho/commands/encryption_info.ts: encryption_info_command and
// encryption_info_command_64. Both constructors first run the LoadCommand
// constructor (the read of `cmdsize` at `offset`), then read their own words.
module EncryptionInfo {
  import opened Common
  import opened LittleEndian
  import opened LoadCommand

  /** `new EncryptionInfo(cmd, module, offset, base)`. */
  function NewEncryptionInfo(cmd: u32, image: seq<byte>, offset: int, base: int): (r: Result<LoadCommand, AgentError>)
    ensures r.Ok? <==> 0 <= offset && offset + 16 <= |image|
    ensures r.Ok? ==> && r.value.EncryptionInfo?
                      && r.value.cmd == cmd && r.value.base == base
                      && r.value.cmdsize == ReadUInt32LE(image, offset).value
                      && r.value.cryptoff == ReadUInt32LE(image, offset + 4).value
                      && r.value.cryptsize == ReadUInt32LE(image, offset + 8).value
                      && r.value.cryptid == ReadUInt32LE(image, offset + 12).value
    ensures r.Err? ==> r.error.OutOfRange?
  {
    var head :- NewLoadCommand(cmd, image, offset, base);
    var cryptoff :- ReadUInt32LE(image, offset + 4);
    var cryptsize :- ReadUInt32LE(image, offset + 8);
    var cryptid :- ReadUInt32LE(image, offset + 12);
    Ok(EncryptionInfo(head.base, head.cmd, head.cmdsize, cryptoff, cryptsize, cryptid))
  }

  /** `new EncryptionInfo64(...)`: everything EncryptionInfo reads, then `pad`. */
  function NewEncryptionInfo64(cmd: u32, image: seq<byte>, offset: int, base: int): (r: Result<LoadCommand, AgentError>)
    ensures r.Ok? <==> 0 <= offset && offset + 20 <= |image|
    ensures r.Ok? ==> && r.value.EncryptionInfo64?
                      && r.value.pad == ReadUInt32LE(image, offset + 16).value
    ensures r.Err? ==> r.error.OutOfRange?
  {
    var head :- NewEncryptionInfo(cmd, image, offset, base);
    var pad :- ReadUInt32LE(image, offset + 16);
    Ok(EncryptionInfo64(head.base, head.cmd, head.cmdsize,
                        head.cryptoff, head.cryptsize, head.cryptid, pad))
  }

  /** The 64-bit record carries exactly the fields of the 32-bit one, plus `pad`. */
  lemma {:induction false} EncryptionInfo64Extends(cmd: u32, image: seq<byte>, offset: int, base: int)
    requires NewEncryptionInfo64(cmd, image, offset, base).Ok?
    ensures var c64 := NewEncryptionInfo64(cmd, image, offset, base).value;
            var c := NewEncryptionInfo(cmd, image, offset, base);
            && c.Ok?
            && c64.base == c.value.base && c64.cmd == c.value.cmd && c64.cmdsize == c.value.cmdsize
            && c64.cryptoff == c.value.cryptoff && c64.cryptsize == c.value.cryptsize
            && c64.cryptid == c.value.cryptid
  {
    var c64 := NewEncryptionInfo64(cmd, image, offset, base).value;
    var c := NewEncryptionInfo(cmd, image, offset, base);
    assert c.Ok?;
  }

  /** `isEncrypted()`: only cryptid 1 counts as encrypted. */
  predicate IsEncrypted(c: LoadCommand)
    requires c.IsEncryptionInfo()
  {
    c.cryptid == 1
  }

  lemma EncryptedOnlyForCryptid1(c: LoadCommand)
    requires c.IsEncryptionInfo()
    ensures IsEncrypted(c) <==> c.cryptid == 1
    ensures c.cryptid == 0 || c.cryptid == 2 ==> !IsEncrypted(c)
  {}
}
