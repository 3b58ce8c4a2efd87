/**
  The three streams an OpenWire marshaller works on: the presence-bit stream of the tight
  encoding (BooleanStream), the growable output buffer (DataByteArrayOutputStream) and the
  input buffer with its read position (DataByteArrayInputStream). Only what a marshaller can
  observe is modelled: bits are a sequence of booleans, not the packed bytes that carry them.
*/
module OpenWireStreams {
  import opened Wrappers

  /** One octet on the wire. */
  type byte = x: int | 0 <= x < 0x100

  /** A Java `byte`: a signed 8-bit value. */
  type int8 = x: int | -0x80 <= x < 0x80

  /** A Java `int`: a signed 32-bit value. */
  type int32 = x: int | -0x8000_0000 <= x < 0x8000_0000

  /** The structural errors a decoder can meet; both are fatal for the session. */
  datatype CodecError = BufferUnderrun | BitStreamUnderrun

  /** What is left to read: the unread presence bits and the unread payload bytes. */
  datatype Input = Input(bits: seq<bool>, bytes: seq<byte>)

  /**
    A reader's result `r` and the input `now` it leaves agree with the decoding function's
    verdict `d`: on success the same value and exactly the input the function leaves unread.
  */
  ghost predicate Agrees<T>(d: Result<(T, Input), CodecError>, r: Result<T, CodecError>, now: Input) {
    match d
    case Success(p) => r == Success(p.0) && now == p.1
    case Failure(e) => r == Failure(e)
  }

  /** The same agreement for a reader of the loose encoding, which has no bit stream. */
  ghost predicate AgreesLoose<T>(d: Result<(T, seq<byte>), CodecError>, r: Result<T, CodecError>, now: seq<byte>) {
    match d
    case Success(p) => r == Success(p.0) && now == p.1
    case Failure(e) => r == Failure(e)
  }

  /** Cutting a concatenation short: within the first part, or the first part and a cut of the second. */
  lemma PrefixOfConcat<T>(a: seq<T>, b: seq<T>, k: nat)
    requires k <= |a| + |b|
    ensures k < |a| ==> (a + b)[..k] == a[..k]
    ensures k >= |a| ==> (a + b)[..k] == a + b[..k - |a|]
  {
    if k >= |a| {
      assert (a + b)[..k] == a + b[..k - |a|];
    }
  }

  /** Reading one bit: the first unread bit, or an underrun when none is left. */
  function TakeBit(bits: seq<bool>): (r: Result<(bool, seq<bool>), CodecError>)
    ensures r.Success? <==> |bits| > 0
    ensures r.Success? ==> bits == [r.value.0] + r.value.1
    ensures r.Failure? ==> r.error == BitStreamUnderrun
  {
    if |bits| == 0 then Failure(BitStreamUnderrun) else Success((bits[0], bits[1..]))
  }

  /** Reading `n` bytes: the next `n` unread bytes, or an underrun when fewer are left. */
  function TakeBytes(bytes: seq<byte>, n: nat): (r: Result<(seq<byte>, seq<byte>), CodecError>)
    ensures r.Success? <==> n <= |bytes|
    ensures r.Success? ==> |r.value.0| == n && bytes == r.value.0 + r.value.1
    ensures r.Failure? ==> r.error == BufferUnderrun
  {
    if |bytes| < n then Failure(BufferUnderrun) else Success((bytes[..n], bytes[n..]))
  }

  /** Java's `(byte) v` seen as an octet: two's complement. */
  function ToOctet(x: int8): (b: byte)
    ensures FromOctet(b) == x
  {
    if x < 0 then x + 0x100 else x
  }

  /** Java's `readByte()`: the octet read back as a signed byte. */
  function FromOctet(b: byte): int8 {
    if b >= 0x80 then b - 0x100 else b
  }

  /** The low `n` octets of `u`, most significant first. */
  function BigEndian(u: nat, n: nat): (r: seq<byte>)
    ensures |r| == n
  {
    if n == 0 then [] else BigEndian(u / 0x100, n - 1) + [u % 0x100]
  }

  /** The number whose big-endian octets these are. */
  function FromBigEndian(b: seq<byte>): nat {
    if b == [] then 0 else FromBigEndian(b[..|b| - 1]) * 0x100 + b[|b| - 1]
  }

  /** `n` octets hold every number below 256^n. */
  function OctetRange(n: nat): (m: nat)
    ensures m > 0
  {
    if n == 0 then 1 else 0x100 * OctetRange(n - 1)
  }

  lemma {:induction false} BigEndianRoundTrip(u: nat, n: nat)
    requires u < OctetRange(n)
    ensures FromBigEndian(BigEndian(u, n)) == u
  {
    if n > 0 {
      var b := BigEndian(u, n);
      assert b[..n - 1] == BigEndian(u / 0x100, n - 1);
      BigEndianRoundTrip(u / 0x100, n - 1);
    }
  }

  lemma {:induction false} FromBigEndianBound(b: seq<byte>)
    ensures FromBigEndian(b) < OctetRange(|b|)
  {
    if b != [] {
      FromBigEndianBound(b[..|b| - 1]);
    }
  }

  /** `DataOutput.writeInt`: four octets, most significant first, two's complement. */
  function Int32Bytes(x: int32): (r: seq<byte>)
    ensures |r| == 4
  {
    BigEndian(if x < 0 then x + 0x1_0000_0000 else x, 4)
  }

  /** `DataInput.readInt`: the four octets read back as a signed value. */
  function Int32Of(b: seq<byte>): int32
    requires |b| == 4
  {
    FromBigEndianBound(b);
    var u := FromBigEndian(b);
    if u >= 0x8000_0000 then u - 0x1_0000_0000 else u
  }

  /** `DataOutput.writeShort` of a length: two octets, most significant first. */
  function U16Bytes(n: nat): (r: seq<byte>)
    requires n < 0x1_0000
    ensures |r| == 2
  {
    BigEndian(n, 2)
  }

  /** Reading an unsigned 16-bit length back. */
  function U16Of(b: seq<byte>): (n: nat)
    requires |b| == 2
    ensures n < 0x1_0000
  {
    FromBigEndianBound(b);
    FromBigEndian(b)
  }

  lemma Int32RoundTrip(x: int32)
    ensures Int32Of(Int32Bytes(x)) == x
  {
    BigEndianRoundTrip(if x < 0 then x + 0x1_0000_0000 else x, 4);
  }

  lemma U16RoundTrip(n: nat)
    requires n < 0x1_0000
    ensures U16Of(U16Bytes(n)) == n
  {
    BigEndianRoundTrip(n, 2);
  }

  /**
    BooleanStream: pass 1 of the tight encoding appends presence bits; pass 2 and the decoder
    read them back from a cursor, in the order they were written.
  */
  class BooleanStream {
    var bits: seq<bool>
    var pos: nat

    ghost predicate Valid()
      reads this
    {
      pos <= |bits|
    }

    /** The bits not yet read. */
    function Remaining(): seq<bool>
      reads this
      requires Valid()
    {
      bits[pos..]
    }

    /** A fresh stream for marshalling: nothing written, nothing read. */
    constructor ()
      ensures Valid() && bits == [] && pos == 0
    {
      bits, pos := [], 0;
    }

    /** A stream holding bits received from a peer, ready to be read from the first one. */
    constructor FromBits(received: seq<bool>)
      ensures Valid() && bits == received && pos == 0
    {
      bits, pos := received, 0;
    }

    method WriteBoolean(b: bool)
      requires Valid()
      modifies this
      ensures Valid() && bits == old(bits) + [b] && pos == old(pos)
    {
      bits := bits + [b];
    }

    method ReadBoolean() returns (r: Result<bool, CodecError>)
      requires Valid()
      modifies this
      ensures Valid() && bits == old(bits)
      ensures match TakeBit(old(Remaining()))
        case Success(p) => r == Success(p.0) && Remaining() == p.1
        case Failure(e) => r == Failure(e) && pos == old(pos)
    {
      if pos == |bits| {
        r := Failure(BitStreamUnderrun);
      } else {
        r := Success(bits[pos]);
        assert bits[pos..][1..] == bits[pos + 1..];
        pos := pos + 1;
      }
    }
  }

  /** DataByteArrayOutputStream: bytes are only ever appended. */
  class DataOut {
    var data: seq<byte>

    constructor ()
      ensures data == []
    {
      data := [];
    }

    method WriteByte(b: byte)
      modifies this
      ensures data == old(data) + [b]
    {
      data := data + [b];
    }

    method Write(bytes: seq<byte>)
      modifies this
      ensures data == old(data) + bytes
    {
      data := data + bytes;
    }
  }

  /** DataByteArrayInputStream: a fixed buffer and a read position that only moves forward. */
  class DataIn {
    var data: seq<byte>
    var pos: nat

    ghost predicate Valid()
      reads this
    {
      pos <= |data|
    }

    /** The bytes not yet read. */
    function Remaining(): seq<byte>
      reads this
      requires Valid()
    {
      data[pos..]
    }

    constructor (received: seq<byte>)
      ensures Valid() && data == received && pos == 0
    {
      data, pos := received, 0;
    }

    /** `readFully` of `n` bytes; an underrun (EOFException) when fewer are left. */
    method ReadBytes(n: nat) returns (r: Result<seq<byte>, CodecError>)
      requires Valid()
      modifies this
      ensures Valid() && data == old(data)
      ensures match TakeBytes(old(Remaining()), n)
        case Success(p) => r == Success(p.0) && Remaining() == p.1
        case Failure(e) => r == Failure(e) && pos == old(pos)
    {
      if |data| - pos < n {
        r := Failure(BufferUnderrun);
      } else {
        r := Success(data[pos..pos + n]);
        assert data[pos..][..n] == data[pos..pos + n] && data[pos..][n..] == data[pos + n..];
        pos := pos + n;
      }
    }

    /** `readByte`: one octet; an underrun (EOFException) at the end of the buffer. */
    method ReadByte() returns (r: Result<byte, CodecError>)
      requires Valid()
      modifies this
      ensures Valid() && data == old(data)
      ensures match TakeBytes(old(Remaining()), 1)
        case Success(p) => r == Success(p.0[0]) && Remaining() == p.1
        case Failure(e) => r == Failure(e) && pos == old(pos)
    {
      if pos == |data| {
        r := Failure(BufferUnderrun);
      } else {
        r := Success(data[pos]);
        assert data[pos..][1..] == data[pos + 1..];
        pos := pos + 1;
      }
    }
  }
}
