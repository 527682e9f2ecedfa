// agent/lib/macho/header.ts: the mach_header / mach_header_64 at the very
// beginning of a Mach-O image, decoded field by field as little-endian words.
module MachOHeader {
  import opened Common
  import opened LittleEndian

  const MH_FIELDS: nat := 7
  const MH_HEADER_SIZE: nat := MH_FIELDS * 4
  const MH_FIELDS_64: nat := 8
  const MH_HEADER_SIZE_64: nat := MH_FIELDS_64 * 4

  const MH_MAGIC: u32 := 0xfeed_face
  const MH_MAGIC_64: u32 := 0xfeed_facf

  lemma HeaderSizes()
    ensures MH_HEADER_SIZE == 28 && MH_HEADER_SIZE_64 == 32
    ensures MH_HEADER_SIZE_64 == MH_HEADER_SIZE + 4
  {}

  datatype MachOHeader = MachOHeader(
    magic: u32,
    cputype: i32,
    cpusubtype: i32,
    filetype: u32,
    ncmds: u32,
    sizeofcmds: u32,
    flags: u32,
    reserved: Option<u32>)
  {
    /** The shape the decoder produces: `reserved` is present exactly for 64-bit magic. */
    predicate WellFormed() {
      reserved.Some? <==> magic == MH_MAGIC_64
    }
  }

  /** The word at offset 0, if the buffer holds one. */
  function MagicOf(buf: seq<byte>): Option<u32> {
    if |buf| >= 4 then Some(ReadUInt32LE(buf, 0).value) else None
  }

  /** The offset of the first word a buffer of `n` bytes cannot hold, for the header's eight words. */
  lemma FirstMissingWord(n: nat)
    ensures n < 4 ==> 4 * (n / 4) == 0
    ensures 4 <= n < 8 ==> 4 * (n / 4) == 4
    ensures 8 <= n < 12 ==> 4 * (n / 4) == 8
    ensures 12 <= n < 16 ==> 4 * (n / 4) == 12
    ensures 16 <= n < 20 ==> 4 * (n / 4) == 16
    ensures 20 <= n < 24 ==> 4 * (n / 4) == 20
    ensures 24 <= n < 28 ==> 4 * (n / 4) == 24
    ensures 28 <= n < 32 ==> 4 * (n / 4) == 28
  {
  }

  /** `new MachOHeader(module)`: seven reads, and an eighth for 64-bit magic. */
  function DecodeHeader(buf: seq<byte>): (r: Result<MachOHeader, AgentError>)
    ensures r.Ok? <==> |buf| >= MH_HEADER_SIZE &&
                       (MagicOf(buf) == Some(MH_MAGIC_64) ==> |buf| >= MH_HEADER_SIZE_64)
    ensures r.Err? ==> r.error == OutOfRange(4 * (|buf| / 4))
    ensures r.Ok? ==> r.value.WellFormed()
    ensures r.Ok? ==> && r.value.magic == ReadUInt32LE(buf, 0).value
                      && r.value.cputype == ToInt32(ReadUInt32LE(buf, 4).value)
                      && r.value.cpusubtype == ToInt32(ReadUInt32LE(buf, 8).value)
                      && r.value.filetype == ReadUInt32LE(buf, 12).value
                      && r.value.ncmds == ReadUInt32LE(buf, 16).value
                      && r.value.sizeofcmds == ReadUInt32LE(buf, 20).value
                      && r.value.flags == ReadUInt32LE(buf, 24).value
    ensures r.Ok? && r.value.reserved.Some? ==> r.value.reserved.value == ReadUInt32LE(buf, 28).value
  {
    FirstMissingWord(|buf|);
    var magic :- ReadUInt32LE(buf, 0);
    var cputype :- ReadInt32LE(buf, 4);
    var cpusubtype :- ReadInt32LE(buf, 8);
    var filetype :- ReadUInt32LE(buf, 12);
    var ncmds :- ReadUInt32LE(buf, 16);
    var sizeofcmds :- ReadUInt32LE(buf, 20);
    var flags :- ReadUInt32LE(buf, 24);
    var reserved :- if MH_MAGIC_64 == magic then
                      var w :- ReadUInt32LE(buf, 28); Ok(Some(w))
                    else Ok(None);
    Ok(MachOHeader(magic, cputype, cpusubtype, filetype, ncmds, sizeofcmds, flags, reserved))
  }

  /** The header's on-disk bytes: the inverse of DecodeHeader. */
  function EncodeHeader(h: MachOHeader): (r: seq<byte>)
    ensures |r| == if h.reserved.Some? then MH_HEADER_SIZE_64 else MH_HEADER_SIZE
  {
    EncodeU32LE(h.magic) + EncodeU32LE(ToUnsigned(h.cputype)) + EncodeU32LE(ToUnsigned(h.cpusubtype))
    + EncodeU32LE(h.filetype) + EncodeU32LE(h.ncmds) + EncodeU32LE(h.sizeofcmds) + EncodeU32LE(h.flags)
    + (if h.reserved.Some? then EncodeU32LE(h.reserved.value) else [])
  }

  /** A word encoded after `k` bytes reads back at offset `k`. */
  lemma WordAt(pre: seq<byte>, x: u32, post: seq<byte>)
    ensures ReadUInt32LE(pre + EncodeU32LE(x) + post, |pre|) == Ok(x)
  {
    var buf := pre + EncodeU32LE(x) + post;
    assert buf[|pre|..|pre| + 4] == EncodeU32LE(x);
    ReadEncoded(buf, |pre|, x);
  }

  /** DecodeHeader is determined by the words it reads. */
  lemma DecodeFromWords(buf: seq<byte>, h: MachOHeader)
    requires h.WellFormed()
    requires ReadUInt32LE(buf, 0) == Ok(h.magic)
    requires ReadUInt32LE(buf, 4) == Ok(ToUnsigned(h.cputype))
    requires ReadUInt32LE(buf, 8) == Ok(ToUnsigned(h.cpusubtype))
    requires ReadUInt32LE(buf, 12) == Ok(h.filetype)
    requires ReadUInt32LE(buf, 16) == Ok(h.ncmds)
    requires ReadUInt32LE(buf, 20) == Ok(h.sizeofcmds)
    requires ReadUInt32LE(buf, 24) == Ok(h.flags)
    requires h.reserved.Some? ==> ReadUInt32LE(buf, 28) == Ok(h.reserved.value)
    ensures DecodeHeader(buf) == Ok(h)
  {
    SignedRoundTrip(h.cputype);
    SignedRoundTrip(h.cpusubtype);
    assert MagicOf(buf) == Some(h.magic);
  }

  /** Encoding a well-formed header and decoding it, whatever follows, gives it back. */
  lemma {:induction false} DecodeEncodeHeader(h: MachOHeader, rest: seq<byte>)
    requires h.WellFormed()
    ensures DecodeHeader(EncodeHeader(h) + rest) == Ok(h)
  {
    var e0, e1, e2 := EncodeU32LE(h.magic), EncodeU32LE(ToUnsigned(h.cputype)), EncodeU32LE(ToUnsigned(h.cpusubtype));
    var e3, e4, e5 := EncodeU32LE(h.filetype), EncodeU32LE(h.ncmds), EncodeU32LE(h.sizeofcmds);
    var e6 := EncodeU32LE(h.flags);
    var tail := (if h.reserved.Some? then EncodeU32LE(h.reserved.value) else []) + rest;
    var buf := EncodeHeader(h) + rest;
    assert buf == e0 + e1 + e2 + e3 + e4 + e5 + e6 + tail;
    WordAt([], h.magic, e1 + e2 + e3 + e4 + e5 + e6 + tail);
    WordAt(e0, ToUnsigned(h.cputype), e2 + e3 + e4 + e5 + e6 + tail);
    WordAt(e0 + e1, ToUnsigned(h.cpusubtype), e3 + e4 + e5 + e6 + tail);
    WordAt(e0 + e1 + e2, h.filetype, e4 + e5 + e6 + tail);
    WordAt(e0 + e1 + e2 + e3, h.ncmds, e5 + e6 + tail);
    WordAt(e0 + e1 + e2 + e3 + e4, h.sizeofcmds, e6 + tail);
    WordAt(e0 + e1 + e2 + e3 + e4 + e5, h.flags, tail);
    if h.reserved.Some? {
      WordAt(e0 + e1 + e2 + e3 + e4 + e5 + e6, h.reserved.value, rest);
    }
    DecodeFromWords(buf, h);
  }
}
