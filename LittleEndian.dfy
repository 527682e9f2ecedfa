// Node's Buffer accessors used by the Mach-O parser and the decrypt patch:
// `readUInt32LE`, `readInt32LE` and `writeUInt32LE`. A read or a write
// whose four bytes do not all lie inside the buffer throws a RangeError.
module LittleEndian {
  import opened Common

  /** Everything the agent side can throw while parsing or patching. */
  datatype AgentError =
    | OutOfRange(offset: int)              // Buffer RangeError on a read or a write
    | LoadCommandCount(parsed: nat, ncmds: nat)  // assertion at the end of parseLoadCommands
    | NonAdvancingCommand(at: nat)         // cmdsize 0: the parse loop would not move the offset
    | MachONotFound                        // zero or several loaded modules share the name
    | CryptidMismatch(found: u32)          // the loaded image does not carry cryptid 1
    | AccessViolation(address: int)        // the error a native read or write throws on unmapped memory

  function U32Of(b0: byte, b1: byte, b2: byte, b3: byte): (r: u32) {
    b0 + 256 * b1 + 65536 * b2 + 16777216 * b3
  }

  /** Two's-complement reinterpretation of an unsigned word. */
  function ToInt32(x: u32): (r: i32)
    ensures 0 <= r ==> r == x
    ensures r < 0 ==> r == x - TWO_32
  {
    if x < TWO_31 then x else x - TWO_32
  }

  function ToUnsigned(x: i32): (r: u32)
  {
    if x < 0 then x + TWO_32 else x
  }

  lemma SignedRoundTrip(x: i32)
    ensures ToInt32(ToUnsigned(x)) == x
  {}

  function ReadUInt32LE(buf: seq<byte>, offset: int): (r: Result<u32, AgentError>)
    ensures r.Ok? <==> 0 <= offset && offset + 4 <= |buf|
    ensures r.Err? ==> r.error == OutOfRange(offset)
  {
    if 0 <= offset && offset + 4 <= |buf| then
      Ok(U32Of(buf[offset], buf[offset + 1], buf[offset + 2], buf[offset + 3]))
    else
      Err(OutOfRange(offset))
  }

  function ReadInt32LE(buf: seq<byte>, offset: int): (r: Result<i32, AgentError>)
    ensures r.Ok? <==> ReadUInt32LE(buf, offset).Ok?
    ensures r.Ok? ==> r.value == ToInt32(ReadUInt32LE(buf, offset).value)
  {
    var u :- ReadUInt32LE(buf, offset);
    Ok(ToInt32(u))
  }

  /** The four bytes of `x`, least significant first. */
  function EncodeU32LE(x: u32): (r: seq<byte>)
    ensures |r| == 4
  {
    [x % 256, (x / 256) % 256, (x / 65536) % 256, x / 16777216]
  }

  lemma {:induction false} DecodeEncodeU32(x: u32)
    ensures var e := EncodeU32LE(x); U32Of(e[0], e[1], e[2], e[3]) == x
  {
    var q1 := x / 256;
    var q2 := q1 / 256;
    assert x == x % 256 + 256 * q1;
    assert q1 == q1 % 256 + 256 * q2;
    assert q2 == q2 % 256 + 256 * (q2 / 256);
    assert x / 65536 == q2;
    assert x / 16777216 == q2 / 256;
  }

  lemma {:induction false} EncodeDecodeU32(b0: byte, b1: byte, b2: byte, b3: byte)
    ensures EncodeU32LE(U32Of(b0, b1, b2, b3)) == [b0, b1, b2, b3]
  {
    var x := U32Of(b0, b1, b2, b3);
    var t := b1 + 256 * b2 + 65536 * b3;
    assert x == b0 + 256 * t;
    assert x % 256 == b0 && x / 256 == t;
    var u := b2 + 256 * b3;
    assert t == b1 + 256 * u;
    assert t % 256 == b1 && t / 256 == u;
    assert x / 65536 == u by {
      assert x == b0 + 256 * b1 + 65536 * u;
    }
    assert u % 256 == b2 && u / 256 == b3;
    assert x / 16777216 == b3 by {
      assert x == (b0 + 256 * b1 + 65536 * b2) + 16777216 * b3;
    }
  }

  /** Reading back what was just encoded gives the word back. */
  lemma ReadEncoded(buf: seq<byte>, offset: nat, x: u32)
    requires offset + 4 <= |buf|
    requires buf[offset..offset + 4] == EncodeU32LE(x)
    ensures ReadUInt32LE(buf, offset) == Ok(x)
  {
    var e := EncodeU32LE(x);
    assert buf[offset] == e[0] && buf[offset + 1] == e[1];
    assert buf[offset + 2] == e[2] && buf[offset + 3] == e[3];
    DecodeEncodeU32(x);
  }

  /** The bytes `writeUInt32LE(x, offset)` leaves in the buffer. */
  function WriteUInt32LE(buf: seq<byte>, offset: int, x: u32): (r: Result<seq<byte>, AgentError>)
    ensures r.Ok? <==> 0 <= offset && offset + 4 <= |buf|
    ensures r.Err? ==> r.error == OutOfRange(offset)
    ensures r.Ok? ==> |r.value| == |buf|
    ensures r.Ok? ==> forall k :: 0 <= k < |buf| && !(offset <= k < offset + 4) ==> r.value[k] == buf[k]
  {
    if 0 <= offset && offset + 4 <= |buf| then
      Ok(buf[..offset] + EncodeU32LE(x) + buf[offset + 4..])
    else
      Err(OutOfRange(offset))
  }

  lemma {:induction false} ReadAfterWrite(buf: seq<byte>, offset: int, x: u32)
    requires WriteUInt32LE(buf, offset, x).Ok?
    ensures ReadUInt32LE(WriteUInt32LE(buf, offset, x).value, offset) == Ok(x)
  {
    var w := WriteUInt32LE(buf, offset, x).value;
    assert w[offset..offset + 4] == EncodeU32LE(x);
    ReadEncoded(w, offset, x);
  }

  /** `buf.writeUInt32LE(x, offset)` on a buffer updated in place. */
  method WriteUInt32LEInPlace(buf: array<byte>, offset: nat, x: u32)
    requires offset + 4 <= buf.Length
    modifies buf
    ensures buf[..] == WriteUInt32LE(old(buf[..]), offset, x).value
  {
    var e := EncodeU32LE(x);
    buf[offset], buf[offset + 1], buf[offset + 2], buf[offset + 3] := e[0], e[1], e[2], e[3];
    assert buf[..] == WriteUInt32LE(old(buf[..]), offset, x).value by {
      var w := WriteUInt32LE(old(buf[..]), offset, x).value;
      assert w[offset..offset + 4] == e;
      forall k | 0 <= k < buf.Length ensures buf[k] == w[k] {
        if offset <= k < offset + 4 {
          assert w[k] == w[offset..offset + 4][k - offset];
        }
      }
    }
  }
}
