/**
  The collaborators every OpenWire v1 command marshaller delegates to: the base-command header
  (command id and response-required flag) and the cached-object helpers that write and read a
  nested data structure such as a ConnectionId. Their sources are not part of this model; the
  layouts below are stand-ins in the shape of the OpenWire v1 format, and what a variant marshaller
  relies on is only their contracts: pass 1 appends the presence bits and returns the byte count
  pass 2 writes, pass 2 writes those bytes, and each decoder inverts its encoder exactly.
*/
module BaseMarshaller {
  import opened Wrappers
  import opened OpenWireStreams

  /** The fields every command shares. */
  datatype Header = Header(commandId: int32, responseRequired: bool)

  /** A byte string short enough for a 16-bit length prefix. */
  type ShortBytes = s: seq<byte> | |s| < 0x1_0000

  /** A nested data structure referenced from a command: its type code and its marshalled fields. */
  datatype DataStructure = DataStructure(typeCode: byte, body: ShortBytes)

  function BoolByte(b: bool): byte {
    if b then 1 else 0
  }

  // ---------------------------------------------------------------- base header

  /** Pass-1 bits of the header: the response-required flag. */
  function HeaderBits(h: Header): seq<bool> {
    [h.responseRequired]
  }

  /** Pass-2 bytes of the header: the command id. */
  function HeaderTightBytes(h: Header): seq<byte> {
    Int32Bytes(h.commandId)
  }

  /** The size pass 1 reports for the header is what pass 2 writes for it. */
  function HeaderTightSize(h: Header): (n: nat)
    ensures n == |HeaderTightBytes(h)|
  {
    4
  }

  /** Loose bytes of the header: the command id, then the flag as one byte. */
  function HeaderLooseBytes(h: Header): seq<byte> {
    Int32Bytes(h.commandId) + [BoolByte(h.responseRequired)]
  }

  function DecodeHeaderTight(inp: Input): Result<(Header, Input), CodecError> {
    if |inp.bytes| < 4 then Failure(BufferUnderrun)
    else if |inp.bits| < 1 then Failure(BitStreamUnderrun)
    else Success((Header(Int32Of(inp.bytes[..4]), inp.bits[0]), Input(inp.bits[1..], inp.bytes[4..])))
  }

  function DecodeHeaderLoose(bytes: seq<byte>): Result<(Header, seq<byte>), CodecError> {
    if |bytes| < 5 then Failure(BufferUnderrun)
    else Success((Header(Int32Of(bytes[..4]), bytes[4] != 0), bytes[5..]))
  }

  lemma HeaderTightRoundTrip(h: Header, rest: Input)
    ensures DecodeHeaderTight(Input(HeaderBits(h) + rest.bits, HeaderTightBytes(h) + rest.bytes))
         == Success((h, rest))
  {
    Int32RoundTrip(h.commandId);
    assert (HeaderTightBytes(h) + rest.bytes)[..4] == HeaderTightBytes(h);
    assert (HeaderTightBytes(h) + rest.bytes)[4..] == rest.bytes;
    assert (HeaderBits(h) + rest.bits)[1..] == rest.bits;
  }

  lemma HeaderLooseRoundTrip(h: Header, rest: seq<byte>)
    ensures DecodeHeaderLoose(HeaderLooseBytes(h) + rest) == Success((h, rest))
  {
    Int32RoundTrip(h.commandId);
    var all := HeaderLooseBytes(h) + rest;
    assert all[..4] == Int32Bytes(h.commandId);
    assert all[5..] == rest;
  }

  /** A header cut short is an underrun, never a header. */
  lemma HeaderLooseTruncated(h: Header, k: nat)
    requires k < |HeaderLooseBytes(h)|
    ensures DecodeHeaderLoose(HeaderLooseBytes(h)[..k]) == Failure(BufferUnderrun)
  {
  }

  lemma HeaderTightTruncated(h: Header, bits: seq<bool>, k: nat)
    requires k < |HeaderTightBytes(h)|
    ensures DecodeHeaderTight(Input(bits, HeaderTightBytes(h)[..k])) == Failure(BufferUnderrun)
  {
  }

  // ---------------------------------------------------------------- cached objects

  /** Pass-1 bits of a cached object: whether it is present (non-null). */
  function CachedBits(o: Option<DataStructure>): seq<bool> {
    [o.Some?]
  }

  /** A nested structure on the wire: its type code, then its length-prefixed body. */
  function NestedBytes(d: DataStructure): seq<byte> {
    [d.typeCode] + U16Bytes(|d.body|) + d.body
  }

  /** Pass-2 bytes of a cached object: nothing for null, else the nested structure. */
  function CachedTightBytes(o: Option<DataStructure>): seq<byte> {
    if o.None? then [] else NestedBytes(o.value)
  }

  /** The size pass 1 reports for a cached object is what pass 2 writes for it. */
  function CachedTightSize(o: Option<DataStructure>): (n: nat)
    ensures n == |CachedTightBytes(o)|
  {
    if o.None? then 0 else 1 + 2 + |o.value.body|
  }

  /** Loose bytes of a cached object: an inline presence byte, then the nested structure. */
  function CachedLooseBytes(o: Option<DataStructure>): seq<byte> {
    if o.None? then [BoolByte(false)] else [BoolByte(true)] + NestedBytes(o.value)
  }

  function DecodeNested(bytes: seq<byte>): Result<(DataStructure, seq<byte>), CodecError> {
    if |bytes| < 3 then Failure(BufferUnderrun)
    else
      var len := U16Of(bytes[1..3]);
      if |bytes| < 3 + len then Failure(BufferUnderrun)
      else Success((DataStructure(bytes[0], bytes[3..3 + len]), bytes[3 + len..]))
  }

  function DecodeCachedTight(inp: Input): Result<(Option<DataStructure>, Input), CodecError> {
    if |inp.bits| < 1 then Failure(BitStreamUnderrun)
    else if !inp.bits[0] then Success((None, Input(inp.bits[1..], inp.bytes)))
    else match DecodeNested(inp.bytes)
      case Failure(e) => Failure(e)
      case Success(d) => Success((Some(d.0), Input(inp.bits[1..], d.1)))
  }

  function DecodeCachedLoose(bytes: seq<byte>): Result<(Option<DataStructure>, seq<byte>), CodecError> {
    if |bytes| < 1 then Failure(BufferUnderrun)
    else if bytes[0] == 0 then Success((None, bytes[1..]))
    else match DecodeNested(bytes[1..])
      case Failure(e) => Failure(e)
      case Success(d) => Success((Some(d.0), d.1))
  }

  lemma NestedRoundTrip(d: DataStructure, rest: seq<byte>)
    ensures DecodeNested(NestedBytes(d) + rest) == Success((d, rest))
  {
    var all := NestedBytes(d) + rest;
    U16RoundTrip(|d.body|);
    assert all[1..3] == U16Bytes(|d.body|);
    assert all[3..3 + |d.body|] == d.body;
    assert all[3 + |d.body|..] == rest;
  }

  lemma NestedTruncated(d: DataStructure, k: nat)
    requires k < |NestedBytes(d)|
    ensures DecodeNested(NestedBytes(d)[..k]) == Failure(BufferUnderrun)
  {
    var cut := NestedBytes(d)[..k];
    if k >= 3 {
      U16RoundTrip(|d.body|);
      assert cut[1..3] == U16Bytes(|d.body|);
    }
  }

  lemma CachedTightRoundTrip(o: Option<DataStructure>, rest: Input)
    ensures DecodeCachedTight(Input(CachedBits(o) + rest.bits, CachedTightBytes(o) + rest.bytes))
         == Success((o, rest))
  {
    assert (CachedBits(o) + rest.bits)[1..] == rest.bits;
    if o.Some? {
      NestedRoundTrip(o.value, rest.bytes);
    } else {
      assert CachedTightBytes(o) + rest.bytes == rest.bytes;
    }
  }

  lemma CachedLooseRoundTrip(o: Option<DataStructure>, rest: seq<byte>)
    ensures DecodeCachedLoose(CachedLooseBytes(o) + rest) == Success((o, rest))
  {
    var all := CachedLooseBytes(o) + rest;
    if o.Some? {
      var tail := NestedBytes(o.value) + rest;
      assert all == [1] + tail;
      NestedRoundTrip(o.value, rest);
      assert DecodeNested(all[1..]) == Success((o.value, rest));
    } else {
      assert all == [0] + rest;
    }
  }

  lemma CachedTightTruncated(o: Option<DataStructure>, bits: seq<bool>, k: nat)
    requires k < |CachedTightBytes(o)|
    ensures DecodeCachedTight(Input(CachedBits(o) + bits, CachedTightBytes(o)[..k])) == Failure(BufferUnderrun)
  {
    NestedTruncated(o.value, k);
  }

  lemma CachedLooseTruncated(o: Option<DataStructure>, k: nat)
    requires k < |CachedLooseBytes(o)|
    ensures DecodeCachedLoose(CachedLooseBytes(o)[..k]) == Failure(BufferUnderrun)
  {
    if k > 0 && o.Some? {
      assert CachedLooseBytes(o)[..k][1..] == NestedBytes(o.value)[..k - 1];
      NestedTruncated(o.value, k - 1);
    }
  }

  // ---------------------------------------------------------------- the helpers on streams

  /** Base tightMarshal1: appends the header's bits and reports its pass-2 size. */
  method TightMarshalHeader1(h: Header, bs: BooleanStream) returns (rc: int)
    requires bs.Valid()
    modifies bs
    ensures bs.Valid() && bs.bits == old(bs.bits) + HeaderBits(h) && bs.pos == old(bs.pos)
    ensures rc == HeaderTightSize(h)
  {
    bs.WriteBoolean(h.responseRequired);
    rc := 4;
  }

  /** Base tightMarshal2: writes the command id and steps over the flag's bit. */
  method TightMarshalHeader2(h: Header, out: DataOut, bs: BooleanStream)
    requires bs.Valid() && HeaderBits(h) <= bs.Remaining()
    modifies out, bs
    ensures out.data == old(out.data) + HeaderTightBytes(h)
    ensures bs.Valid() && bs.bits == old(bs.bits) && bs.Remaining() == old(bs.Remaining())[|HeaderBits(h)|..]
  {
    out.Write(Int32Bytes(h.commandId));
    var skipped := bs.ReadBoolean();
  }

  /** Base tightUnmarshal: reads the command id, then the flag's bit. */
  method TightUnmarshalHeader(inp: DataIn, bs: BooleanStream) returns (r: Result<Header, CodecError>)
    requires inp.Valid() && bs.Valid()
    modifies inp, bs
    ensures inp.Valid() && bs.Valid() && inp.data == old(inp.data) && bs.bits == old(bs.bits)
    ensures Agrees(DecodeHeaderTight(Input(old(bs.Remaining()), old(inp.Remaining()))), r,
                   Input(bs.Remaining(), inp.Remaining()))
  {
    var id := inp.ReadBytes(4);
    if id.Failure? {
      return Failure(id.error);
    }
    var rr := bs.ReadBoolean();
    if rr.Failure? {
      return Failure(rr.error);
    }
    r := Success(Header(Int32Of(id.value), rr.value));
  }

  /** Base looseMarshal: the command id, then the flag as a byte. */
  method LooseMarshalHeader(h: Header, out: DataOut)
    modifies out
    ensures out.data == old(out.data) + HeaderLooseBytes(h)
  {
    out.Write(Int32Bytes(h.commandId));
    out.WriteByte(BoolByte(h.responseRequired));
  }

  /** Base looseUnmarshal: reads the command id, then the flag byte (any non-zero byte is true). */
  method LooseUnmarshalHeader(inp: DataIn) returns (r: Result<Header, CodecError>)
    requires inp.Valid()
    modifies inp
    ensures inp.Valid() && inp.data == old(inp.data)
    ensures AgreesLoose(DecodeHeaderLoose(old(inp.Remaining())), r, inp.Remaining())
  {
    var id := inp.ReadBytes(4);
    if id.Failure? {
      return Failure(id.error);
    }
    var rr := inp.ReadByte();
    if rr.Failure? {
      return Failure(rr.error);
    }
    r := Success(Header(Int32Of(id.value), rr.value != 0));
  }

  method MarshalNested(d: DataStructure, out: DataOut)
    modifies out
    ensures out.data == old(out.data) + NestedBytes(d)
  {
    out.WriteByte(d.typeCode);
    out.Write(U16Bytes(|d.body|));
    out.Write(d.body);
  }

  method UnmarshalNested(inp: DataIn) returns (r: Result<DataStructure, CodecError>)
    requires inp.Valid()
    modifies inp
    ensures inp.Valid() && inp.data == old(inp.data)
    ensures AgreesLoose(DecodeNested(old(inp.Remaining())), r, inp.Remaining())
  {
    ghost var all := inp.Remaining();
    var t := inp.ReadByte();
    if t.Failure? {
      return Failure(t.error);
    }
    var len := inp.ReadBytes(2);
    if len.Failure? {
      return Failure(len.error);
    }
    assert all[1..3] == len.value && all[1..][2..] == all[3..];
    var body := inp.ReadBytes(U16Of(len.value));
    if body.Failure? {
      return Failure(body.error);
    }
    ghost var n := U16Of(len.value);
    assert all[3..][..n] == all[3..3 + n] && all[3..][n..] == all[3 + n..];
    r := Success(DataStructure(t.value, body.value));
  }

  /** tightMarshalCachedObject1: appends the presence bit and reports the pass-2 size. */
  method TightMarshalCachedObject1(o: Option<DataStructure>, bs: BooleanStream) returns (rc: int)
    requires bs.Valid()
    modifies bs
    ensures bs.Valid() && bs.bits == old(bs.bits) + CachedBits(o) && bs.pos == old(bs.pos)
    ensures rc == CachedTightSize(o)
  {
    bs.WriteBoolean(o.Some?);
    if o.None? {
      return 0;
    }
    rc := 1 + 2 + |o.value.body|;
  }

  /** tightMarshalCachedObject2: consumes the presence bit and writes the structure only when it is set. */
  method TightMarshalCachedObject2(o: Option<DataStructure>, out: DataOut, bs: BooleanStream)
    requires bs.Valid() && CachedBits(o) <= bs.Remaining()
    modifies out, bs
    ensures out.data == old(out.data) + CachedTightBytes(o)
    ensures bs.Valid() && bs.bits == old(bs.bits) && bs.Remaining() == old(bs.Remaining())[|CachedBits(o)|..]
  {
    var present := bs.ReadBoolean();
    if present == Success(true) {
      MarshalNested(o.value, out);
    }
  }

  /** tightUnmarsalCachedObject: reads the presence bit, then the structure only when it is set. */
  method TightUnmarshalCachedObject(inp: DataIn, bs: BooleanStream) returns (r: Result<Option<DataStructure>, CodecError>)
    requires inp.Valid() && bs.Valid()
    modifies inp, bs
    ensures inp.Valid() && bs.Valid() && inp.data == old(inp.data) && bs.bits == old(bs.bits)
    ensures Agrees(DecodeCachedTight(Input(old(bs.Remaining()), old(inp.Remaining()))), r,
                   Input(bs.Remaining(), inp.Remaining()))
  {
    var present := bs.ReadBoolean();
    if present.Failure? {
      return Failure(present.error);
    }
    if !present.value {
      return Success(None);
    }
    var d := UnmarshalNested(inp);
    if d.Failure? {
      return Failure(d.error);
    }
    r := Success(Some(d.value));
  }

  /** looseMarshalCachedObject: an inline presence byte, then the structure when present. */
  method LooseMarshalCachedObject(o: Option<DataStructure>, out: DataOut)
    modifies out
    ensures out.data == old(out.data) + CachedLooseBytes(o)
  {
    out.WriteByte(BoolByte(o.Some?));
    if o.Some? {
      MarshalNested(o.value, out);
    }
  }

  /** looseUnmarsalCachedObject: reads the presence byte, then the structure when it is non-zero. */
  method LooseUnmarshalCachedObject(inp: DataIn) returns (r: Result<Option<DataStructure>, CodecError>)
    requires inp.Valid()
    modifies inp
    ensures inp.Valid() && inp.data == old(inp.data)
    ensures AgreesLoose(DecodeCachedLoose(old(inp.Remaining())), r, inp.Remaining())
  {
    var present := inp.ReadByte();
    if present.Failure? {
      return Failure(present.error);
    }
    if present.value == 0 {
      return Success(None);
    }
    var d := UnmarshalNested(inp);
    if d.Failure? {
      return Failure(d.error);
    }
    r := Success(Some(d.value));
  }
}
