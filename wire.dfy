/**
 * Wire format of the RUDP protocol: bytes, the fixed-width integers the
 * frames carry, and the data frame itself.
 *
 * A data frame is `[uint16 sequence][int32 length][length payload bytes]`,
 * an ACK is the bare `uint16 sequence`. The implementation writes the
 * integers in the host's native byte order; this model fixes little-endian.
 */
module Wire {

  type Byte = b: int | 0 <= b < 0x100
  type U16 = x: int | 0 <= x < 0x1_0000
  type Int32 = x: int | -0x8000_0000 <= x < 0x8000_0000

  /** Size of the sequence field, of the length field and of both together. */
  const SequenceSize: nat := 2
  const LengthSize: nat := 4
  const HeaderSize: nat := SequenceSize + LengthSize

  /** `USHRT_MAX`: the modulus the implementation uses for every sequence increment. */
  const UshrtMax: nat := 65535

  /** The successor of a sequence number, `(s + 1) % USHRT_MAX`. */
  function NextSequence(s: U16): (r: U16)
    ensures r < UshrtMax
    ensures s < UshrtMax - 1 ==> r == s + 1
    ensures s >= UshrtMax - 1 ==> r == s + 1 - UshrtMax
  {
    (s + 1) % UshrtMax
  }

  /** The little-endian encoding of a 16-bit value. */
  function EncodeU16(x: U16): (r: seq<Byte>)
    ensures |r| == SequenceSize
  {
    [x % 0x100, x / 0x100]
  }

  function DecodeU16(b: seq<Byte>): (x: U16)
    requires |b| == SequenceSize
  {
    b[0] as int + 0x100 * (b[1] as int)
  }

  /** The little-endian two's-complement encoding of a 32-bit signed value. */
  function EncodeI32(x: Int32): (r: seq<Byte>)
    ensures |r| == LengthSize
  {
    var u := if x < 0 then x + 0x1_0000_0000 else x;
    [u % 0x100, (u / 0x100) % 0x100, (u / 0x1_0000) % 0x100, u / 0x100_0000]
  }

  function DecodeI32(b: seq<Byte>): (x: Int32)
    requires |b| == LengthSize
  {
    var u := b[0] as int + 0x100 * (b[1] as int) + 0x1_0000 * (b[2] as int) + 0x100_0000 * (b[3] as int);
    if u >= 0x8000_0000 then u - 0x1_0000_0000 else u
  }

  lemma U16RoundTrip(x: U16)
    ensures DecodeU16(EncodeU16(x)) == x
  {
  }

  lemma U16EncodeDecode(b: seq<Byte>)
    requires |b| == SequenceSize
    ensures EncodeU16(DecodeU16(b)) == b
  {
  }

  lemma I32RoundTrip(x: Int32)
    ensures DecodeI32(EncodeI32(x)) == x
  {
    var u := if x < 0 then x + 0x1_0000_0000 else x;
    var b := EncodeI32(x);
    assert 0 <= u < 0x1_0000_0000;
    assert b[0] as int + 0x100 * (b[1] as int) + 0x1_0000 * (b[2] as int) + 0x100_0000 * (b[3] as int) == u by {
      var q1 := u / 0x100;
      var q2 := q1 / 0x100;
      var q3 := q2 / 0x100;
      assert u == u % 0x100 + 0x100 * q1;
      assert q1 == q1 % 0x100 + 0x100 * q2;
      assert q2 == q2 % 0x100 + 0x100 * q3;
      assert u / 0x1_0000 == q2;
      assert u / 0x100_0000 == q3;
    }
  }

  /**
   * The frame `send` writes into its byte stream: the sequence number, the
   * length `len` and the first `len` bytes of the caller's buffer.
   */
  function BuildFrame(sequence: U16, len: Int32, buf: seq<Byte>): (r: seq<Byte>)
    requires 0 <= len <= |buf|
    ensures |r| == HeaderSize + len
    ensures r[HeaderSize..] == buf[..len]
  {
    EncodeU16(sequence) + EncodeI32(len) + buf[..len]
  }

  /** The three fields of a frame as `receive` reads them, at offsets 0, 2 and 6. */
  function SequenceField(b: seq<Byte>): (sequence: U16)
    requires |b| >= HeaderSize
  {
    DecodeU16(b[0..SequenceSize])
  }

  function LengthField(b: seq<Byte>): (len: Int32)
    requires |b| >= HeaderSize
  {
    DecodeI32(b[SequenceSize..HeaderSize])
  }

  function PayloadField(b: seq<Byte>, len: nat): (payload: seq<Byte>)
    requires HeaderSize + len <= |b|
  {
    b[HeaderSize..HeaderSize + len]
  }

  /**
   * Reading a frame built by `send` at the offsets `receive` uses gives back
   * the sequence number, the length and the payload; this holds for every
   * buffer that starts with the frame.
   */
  lemma FrameRoundTrip(sequence: U16, payload: seq<Byte>, b: seq<Byte>)
    requires |payload| < 0x8000_0000
    requires |b| >= HeaderSize + |payload|
    requires b[..HeaderSize + |payload|] == BuildFrame(sequence, |payload|, payload)
    ensures SequenceField(b) == sequence
    ensures LengthField(b) == |payload|
    ensures PayloadField(b, |payload|) == payload
  {
    var f := BuildFrame(sequence, |payload|, payload);
    assert b[0..SequenceSize] == f[0..SequenceSize] == EncodeU16(sequence);
    assert b[SequenceSize..HeaderSize] == f[SequenceSize..HeaderSize] == EncodeI32(|payload|);
    assert PayloadField(b, |payload|) == f[HeaderSize..];
    U16RoundTrip(sequence);
    I32RoundTrip(|payload|);
  }
}
