/**
  The OpenWire v1 marshaller for the TransactionInfo command: a base-command header followed by
  three fields, always in this order: the connection id (a cached object), the transaction id
  (a cached object) and the transaction type (one byte). The tight encoding runs in two passes
  over that order (pass 1 appends presence bits and computes the payload size, pass 2 writes the
  payload), the loose encoding in one.
*/
module TransactionInfoMarshaller {
  import opened Wrappers
  import opened OpenWireStreams
  import opened BaseMarshaller

  /** The fields a TransactionInfo carries, as one value. */
  datatype Info = Info(
    header: Header,
    connectionId: Option<DataStructure>,
    transactionId: Option<DataStructure>,
    txType: int8)

  /** A freshly constructed TransactionInfo: Java's default field values. */
  const DefaultInfo := Info(Header(0, false), None, None, 0)

  /** The command object the marshaller reads from and fills in through its setters. */
  class TransactionInfo {
    /** OpenWire's type code for TransactionInfo. */
    static const DATA_STRUCTURE_TYPE: byte := 7

    var commandId: int32
    var responseRequired: bool
    var connectionId: Option<DataStructure>
    var transactionId: Option<DataStructure>
    var txType: int8

    constructor ()
      ensures Value() == DefaultInfo
    {
      commandId, responseRequired := 0, false;
      connectionId, transactionId, txType := None, None, 0;
    }

    function Value(): Info
      reads this
    {
      Info(Header(commandId, responseRequired), connectionId, transactionId, txType)
    }

    function GetDataStructureType(): byte {
      DATA_STRUCTURE_TYPE
    }
  }

  // ---------------------------------------------------------------- specification

  /** The presence bits pass 1 appends: the header's, the connection id's, the transaction id's. */
  function TightBits(v: Info): seq<bool> {
    HeaderBits(v.header) + CachedBits(v.connectionId) + CachedBits(v.transactionId)
  }

  /** The payload pass 2 writes, field by field in the same order, ending with the type byte. */
  function TightBytes(v: Info): seq<byte> {
    HeaderTightBytes(v.header) + CachedTightBytes(v.connectionId) + CachedTightBytes(v.transactionId)
      + [ToOctet(v.txType)]
  }

  /** The size pass 1 returns: the header's, each cached object's, and one for the type byte. */
  function TightSize(v: Info): (n: nat)
    ensures n == |TightBytes(v)|
  {
    HeaderTightSize(v.header) + CachedTightSize(v.connectionId) + CachedTightSize(v.transactionId) + 1
  }

  /** The loose encoding: the same fields in the same order, presence recorded inline. */
  function LooseBytes(v: Info): seq<byte> {
    HeaderLooseBytes(v.header) + CachedLooseBytes(v.connectionId) + CachedLooseBytes(v.transactionId)
      + [ToOctet(v.txType)]
  }

  /** What tight unmarshal reads, in the order it reads it. */
  function DecodeTight(inp: Input): Result<(Info, Input), CodecError> {
    match DecodeHeaderTight(inp)
    case Failure(e) => Failure(e)
    case Success(h) =>
      match DecodeCachedTight(h.1)
      case Failure(e) => Failure(e)
      case Success(c) =>
        match DecodeCachedTight(c.1)
        case Failure(e) => Failure(e)
        case Success(t) =>
          if |t.1.bytes| < 1 then Failure(BufferUnderrun)
          else Success((Info(h.0, c.0, t.0, FromOctet(t.1.bytes[0])), Input(t.1.bits, t.1.bytes[1..])))
  }

  /** What loose unmarshal reads, in the order it reads it. */
  function DecodeLoose(bytes: seq<byte>): Result<(Info, seq<byte>), CodecError> {
    match DecodeHeaderLoose(bytes)
    case Failure(e) => Failure(e)
    case Success(h) =>
      match DecodeCachedLoose(h.1)
      case Failure(e) => Failure(e)
      case Success(c) =>
        match DecodeCachedLoose(c.1)
        case Failure(e) => Failure(e)
        case Success(t) =>
          if |t.1| < 1 then Failure(BufferUnderrun)
          else Success((Info(h.0, c.0, t.0, FromOctet(t.1[0])), t.1[1..]))
  }

  // ---------------------------------------------------------------- properties

  /**
    Tight round trip: decoding the bits of pass 1 and the bytes of pass 2 gives back every field
    and consumes exactly those bits and bytes, whatever follows them.
  */
  lemma {:induction false} TightRoundTrip(v: Info, rest: Input)
    ensures DecodeTight(Input(TightBits(v) + rest.bits, TightBytes(v) + rest.bytes)) == Success((v, rest))
  {
    var c, t, ty := v.connectionId, v.transactionId, [ToOctet(v.txType)];
    var afterT := Input(rest.bits, ty + rest.bytes);
    var afterC := Input(CachedBits(t) + afterT.bits, CachedTightBytes(t) + afterT.bytes);
    var afterH := Input(CachedBits(c) + afterC.bits, CachedTightBytes(c) + afterC.bytes);
    var inp := Input(HeaderBits(v.header) + afterH.bits, HeaderTightBytes(v.header) + afterH.bytes);
    assert inp.bits == TightBits(v) + rest.bits;
    assert inp.bytes == TightBytes(v) + rest.bytes;
    HeaderTightRoundTrip(v.header, afterH);
    CachedTightRoundTrip(c, afterC);
    CachedTightRoundTrip(t, afterT);
    assert afterT.bytes[1..] == rest.bytes;
    DecodeTightSteps(inp, afterH, afterC, afterT, v);
  }

  /** DecodeTight as the chain of its steps, when each step succeeds. */
  lemma DecodeTightSteps(inp: Input, afterH: Input, afterC: Input, afterT: Input, v: Info)
    requires DecodeHeaderTight(inp) == Success((v.header, afterH))
    requires DecodeCachedTight(afterH) == Success((v.connectionId, afterC))
    requires DecodeCachedTight(afterC) == Success((v.transactionId, afterT))
    requires |afterT.bytes| > 0 && afterT.bytes[0] == ToOctet(v.txType)
    ensures DecodeTight(inp) == Success((v, Input(afterT.bits, afterT.bytes[1..])))
  {
  }

  /** Loose round trip: every field comes back and exactly the written bytes are consumed. */
  lemma {:induction false} LooseRoundTrip(v: Info, rest: seq<byte>)
    ensures DecodeLoose(LooseBytes(v) + rest) == Success((v, rest))
  {
    var c, t, ty := v.connectionId, v.transactionId, [ToOctet(v.txType)];
    var afterT := ty + rest;
    var afterC := CachedLooseBytes(t) + afterT;
    var afterH := CachedLooseBytes(c) + afterC;
    assert LooseBytes(v) + rest == HeaderLooseBytes(v.header) + afterH;
    HeaderLooseRoundTrip(v.header, afterH);
    CachedLooseRoundTrip(c, afterC);
    CachedLooseRoundTrip(t, afterT);
    assert afterT[..1] == ty && afterT[1..] == rest;
  }

  /** A loose frame cut short anywhere is a buffer underrun: no field set is ever decoded from it. */
  lemma {:induction false} LooseTruncatedFails(v: Info, k: nat)
    requires k < |LooseBytes(v)|
    ensures DecodeLoose(LooseBytes(v)[..k]) == Failure(BufferUnderrun)
  {
    var h, c, t := HeaderLooseBytes(v.header), CachedLooseBytes(v.connectionId), CachedLooseBytes(v.transactionId);
    var afterC := t + [ToOctet(v.txType)];
    var afterH := c + afterC;
    var cut := LooseBytes(v)[..k];
    assert LooseBytes(v) == h + afterH;
    PrefixOfConcat(h, afterH, k);
    if k < |h| {
      HeaderLooseTruncated(v.header, k);
      LooseStops(cut, DecodeHeaderLoose(cut), Failure(BufferUnderrun), Failure(BufferUnderrun));
      return;
    }
    var k1 := k - |h|;
    HeaderLooseRoundTrip(v.header, afterH[..k1]);
    PrefixOfConcat(c, afterC, k1);
    if k1 < |c| {
      CachedLooseTruncated(v.connectionId, k1);
      LooseStops(cut, DecodeHeaderLoose(cut), DecodeCachedLoose(afterH[..k1]), Failure(BufferUnderrun));
      return;
    }
    var k2 := k1 - |c|;
    CachedLooseRoundTrip(v.connectionId, afterC[..k2]);
    PrefixOfConcat(t, [ToOctet(v.txType)], k2);
    if k2 < |t| {
      CachedLooseTruncated(v.transactionId, k2);
    } else {
      assert afterC[..k2] == t + [];
      CachedLooseRoundTrip(v.transactionId, []);
    }
    LooseStops(cut, DecodeHeaderLoose(cut), DecodeCachedLoose(afterH[..k1]), DecodeCachedLoose(afterC[..k2]));
  }

  /**
    DecodeLoose fails with the first failing step's error: the header, then each cached object,
    then the type byte.
  */
  lemma LooseStops(bytes: seq<byte>, h: Result<(Header, seq<byte>), CodecError>,
                   c: Result<(Option<DataStructure>, seq<byte>), CodecError>,
                   t: Result<(Option<DataStructure>, seq<byte>), CodecError>)
    requires h == DecodeHeaderLoose(bytes)
    requires h.Success? ==> c == DecodeCachedLoose(h.value.1)
    requires h.Success? && c.Success? ==> t == DecodeCachedLoose(c.value.1)
    requires h.Failure? || c.Failure? || t.Failure? || t.value.1 == []
    ensures DecodeLoose(bytes).Failure?
    ensures DecodeLoose(bytes).error ==
      if h.Failure? then h.error else if c.Failure? then c.error else if t.Failure? then t.error else BufferUnderrun
  {
  }

  /**
    A tight payload cut short anywhere is a buffer underrun, even when all presence bits have
    arrived: the codec never yields a command from a partial frame.
  */
  lemma {:induction false} TightTruncatedFails(v: Info, moreBits: seq<bool>, k: nat)
    requires k < |TightBytes(v)|
    ensures DecodeTight(Input(TightBits(v) + moreBits, TightBytes(v)[..k])) == Failure(BufferUnderrun)
  {
    var h, c := HeaderTightBytes(v.header), CachedTightBytes(v.connectionId);
    if k < |h| {
      TightCutInHeader(v, moreBits, k);
    } else if k < |h| + |c| {
      TightCutInConnectionId(v, moreBits, k);
    } else {
      TightCutLate(v, moreBits, k);
    }
  }

  /** The pieces of the tight frame, for the three cases of TightTruncatedFails. */
  lemma TightLayout(v: Info, moreBits: seq<bool>)
    ensures TightBits(v) + moreBits
         == HeaderBits(v.header) + (CachedBits(v.connectionId) + (CachedBits(v.transactionId) + moreBits))
    ensures TightBytes(v)
         == HeaderTightBytes(v.header)
            + (CachedTightBytes(v.connectionId) + (CachedTightBytes(v.transactionId) + [ToOctet(v.txType)]))
  {
  }

  lemma TightCutInHeader(v: Info, moreBits: seq<bool>, k: nat)
    requires k < |HeaderTightBytes(v.header)|
    ensures DecodeTight(Input(TightBits(v) + moreBits, TightBytes(v)[..k])) == Failure(BufferUnderrun)
  {
    var h := HeaderTightBytes(v.header);
    var afterH := CachedTightBytes(v.connectionId) + (CachedTightBytes(v.transactionId) + [ToOctet(v.txType)]);
    TightLayout(v, moreBits);
    var bits := TightBits(v) + moreBits;
    var inp := Input(bits, TightBytes(v)[..k]);
    PrefixOfConcat(h, afterH, k);
    HeaderTightTruncated(v.header, bits, k);
    TightStops(inp, DecodeHeaderTight(inp), Failure(BufferUnderrun), Failure(BufferUnderrun));
  }

  lemma TightCutInConnectionId(v: Info, moreBits: seq<bool>, k: nat)
    requires |HeaderTightBytes(v.header)| <= k < |HeaderTightBytes(v.header)| + |CachedTightBytes(v.connectionId)|
    ensures DecodeTight(Input(TightBits(v) + moreBits, TightBytes(v)[..k])) == Failure(BufferUnderrun)
  {
    var h, c := HeaderTightBytes(v.header), CachedTightBytes(v.connectionId);
    var afterC := CachedTightBytes(v.transactionId) + [ToOctet(v.txType)];
    var afterH := c + afterC;
    var bitsAfterC := CachedBits(v.transactionId) + moreBits;
    var bitsAfterH := CachedBits(v.connectionId) + bitsAfterC;
    TightLayout(v, moreBits);
    var inp := Input(TightBits(v) + moreBits, TightBytes(v)[..k]);
    PrefixOfConcat(h, afterH, k);
    var k1 := k - |h|;
    HeaderTightRoundTrip(v.header, Input(bitsAfterH, afterH[..k1]));
    PrefixOfConcat(c, afterC, k1);
    CachedTightTruncated(v.connectionId, bitsAfterC, k1);
    TightStops(inp, DecodeHeaderTight(inp), DecodeCachedTight(Input(bitsAfterH, afterH[..k1])), Failure(BufferUnderrun));
  }

  lemma TightCutLate(v: Info, moreBits: seq<bool>, k: nat)
    requires |HeaderTightBytes(v.header)| + |CachedTightBytes(v.connectionId)| <= k < |TightBytes(v)|
    ensures DecodeTight(Input(TightBits(v) + moreBits, TightBytes(v)[..k])) == Failure(BufferUnderrun)
  {
    var h, c, t := HeaderTightBytes(v.header), CachedTightBytes(v.connectionId), CachedTightBytes(v.transactionId);
    var afterC := t + [ToOctet(v.txType)];
    var afterH := c + afterC;
    var bitsAfterC := CachedBits(v.transactionId) + moreBits;
    var bitsAfterH := CachedBits(v.connectionId) + bitsAfterC;
    TightLayout(v, moreBits);
    var inp := Input(TightBits(v) + moreBits, TightBytes(v)[..k]);
    PrefixOfConcat(h, afterH, k);
    var k1 := k - |h|;
    HeaderTightRoundTrip(v.header, Input(bitsAfterH, afterH[..k1]));
    PrefixOfConcat(c, afterC, k1);
    var k2 := k1 - |c|;
    CachedTightRoundTrip(v.connectionId, Input(bitsAfterC, afterC[..k2]));
    PrefixOfConcat(t, [ToOctet(v.txType)], k2);
    if k2 < |t| {
      CachedTightTruncated(v.transactionId, moreBits, k2);
    } else {
      assert afterC[..k2] == t + [];
      CachedTightRoundTrip(v.transactionId, Input(moreBits, []));
    }
    TightStops(inp, DecodeHeaderTight(inp), DecodeCachedTight(Input(bitsAfterH, afterH[..k1])),
               DecodeCachedTight(Input(bitsAfterC, afterC[..k2])));
  }

  /** DecodeTight fails with the first failing step's error, as DecodeLoose does. */
  lemma TightStops(inp: Input, h: Result<(Header, Input), CodecError>,
                   c: Result<(Option<DataStructure>, Input), CodecError>,
                   t: Result<(Option<DataStructure>, Input), CodecError>)
    requires h == DecodeHeaderTight(inp)
    requires h.Success? ==> c == DecodeCachedTight(h.value.1)
    requires h.Success? && c.Success? ==> t == DecodeCachedTight(c.value.1)
    requires h.Failure? || c.Failure? || t.Failure? || t.value.1.bytes == []
    ensures DecodeTight(inp).Failure?
    ensures DecodeTight(inp).error ==
      if h.Failure? then h.error else if c.Failure? then c.error else if t.Failure? then t.error else BufferUnderrun
  {
  }

  /** The header comes first in every layout: both payloads and the bit stream start with it. */
  lemma HeaderFirst(v: Info)
    ensures HeaderBits(v.header) <= TightBits(v)
    ensures HeaderTightBytes(v.header) <= TightBytes(v)
    ensures HeaderLooseBytes(v.header) <= LooseBytes(v)
  {
  }

  /** The type field owns no presence bit: changing it leaves pass 1's bits as they were. */
  lemma TypeUsesNoBit(v: Info, t: int8)
    ensures TightBits(v.(txType := t)) == TightBits(v)
  {
  }

  // ---------------------------------------------------------------- the marshaller

  /** getDataStructureType: the type code this marshaller is registered under. */
  function GetDataStructureType(): (t: byte)
    ensures t == 7
  {
    TransactionInfo.DATA_STRUCTURE_TYPE
  }

  /** Registry consistency: every TransactionInfo reports the type code its marshaller is registered under. */
  lemma RegisteredUnderOwnType(o: TransactionInfo)
    ensures o.GetDataStructureType() == GetDataStructureType() == 7
  {
  }

  /** createObject: a new, default TransactionInfo of the type this marshaller handles. */
  method CreateObject() returns (info: TransactionInfo)
    ensures fresh(info) && info.Value() == DefaultInfo
    ensures info.GetDataStructureType() == GetDataStructureType()
  {
    info := new TransactionInfo();
  }

  /** tightMarshal1: appends the presence bits and returns the size pass 2 will write. */
  method TightMarshal1(info: TransactionInfo, bs: BooleanStream) returns (rc: int)
    requires bs.Valid()
    modifies bs
    ensures bs.Valid() && bs.bits == old(bs.bits) + TightBits(info.Value()) && bs.pos == old(bs.pos)
    ensures rc == HeaderTightSize(info.Value().header) + CachedTightSize(info.connectionId)
                  + CachedTightSize(info.transactionId) + 1
    ensures rc == |TightBytes(info.Value())|
  {
    rc := TightMarshalHeader1(Header(info.commandId, info.responseRequired), bs);
    var n := TightMarshalCachedObject1(info.connectionId, bs);
    rc := rc + n;
    n := TightMarshalCachedObject1(info.transactionId, bs);
    rc := rc + n;
    rc := rc + 1;
  }

  /** tightMarshal2: consumes the bits pass 1 appended and writes the payload in the same order. */
  method TightMarshal2(info: TransactionInfo, out: DataOut, bs: BooleanStream)
    requires bs.Valid() && TightBits(info.Value()) <= bs.Remaining()
    modifies out, bs
    ensures out.data == old(out.data) + TightBytes(info.Value())
    ensures bs.Valid() && bs.bits == old(bs.bits)
    ensures bs.Remaining() == old(bs.Remaining())[|TightBits(info.Value())|..]
  {
    ghost var v := info.Value();
    ghost var bits0 := bs.Remaining();
    assert HeaderBits(v.header) <= bits0;
    TightMarshalHeader2(Header(info.commandId, info.responseRequired), out, bs);
    assert CachedBits(v.connectionId) <= bs.Remaining();
    TightMarshalCachedObject2(info.connectionId, out, bs);
    assert bs.Remaining() == bits0[|HeaderBits(v.header)| + |CachedBits(v.connectionId)|..];
    assert CachedBits(v.transactionId) <= bs.Remaining();
    TightMarshalCachedObject2(info.transactionId, out, bs);
    out.WriteByte(ToOctet(info.txType));
  }

  /** tightUnmarshal: reads the header, both cached objects and the type byte, setting each field. */
  method TightUnmarshal(info: TransactionInfo, inp: DataIn, bs: BooleanStream) returns (r: Outcome<CodecError>)
    requires inp.Valid() && bs.Valid()
    modifies info, inp, bs
    ensures inp.Valid() && bs.Valid() && inp.data == old(inp.data) && bs.bits == old(bs.bits)
    ensures match DecodeTight(Input(old(bs.Remaining()), old(inp.Remaining())))
      case Success(p) => r == Pass && info.Value() == p.0 && Input(bs.Remaining(), inp.Remaining()) == p.1
      case Failure(e) => r == Fail(e)
  {
    var h := TightUnmarshalHeader(inp, bs);
    if h.Failure? {
      return Fail(h.error);
    }
    info.commandId, info.responseRequired := h.value.commandId, h.value.responseRequired;
    var c := TightUnmarshalCachedObject(inp, bs);
    if c.Failure? {
      return Fail(c.error);
    }
    info.connectionId := c.value;
    var t := TightUnmarshalCachedObject(inp, bs);
    if t.Failure? {
      return Fail(t.error);
    }
    info.transactionId := t.value;
    var ty := inp.ReadByte();
    if ty.Failure? {
      return Fail(ty.error);
    }
    info.txType := FromOctet(ty.value);
    r := Pass;
  }

  /** looseMarshal: the header, both cached objects and the type byte, in one pass. */
  method LooseMarshal(info: TransactionInfo, out: DataOut)
    modifies out
    ensures out.data == old(out.data) + LooseBytes(info.Value())
  {
    ghost var v := info.Value();
    ghost var d0 := out.data;
    LooseMarshalHeader(Header(info.commandId, info.responseRequired), out);
    ghost var d1 := out.data;
    LooseMarshalCachedObject(info.connectionId, out);
    ghost var d2 := out.data;
    LooseMarshalCachedObject(info.transactionId, out);
    ghost var d3 := out.data;
    out.WriteByte(ToOctet(info.txType));
    assert d1 == d0 + HeaderLooseBytes(v.header);
    assert d2 == d1 + CachedLooseBytes(v.connectionId);
    assert d3 == d2 + CachedLooseBytes(v.transactionId);
    assert out.data == d3 + [ToOctet(v.txType)];
  }

  /** looseUnmarshal: reads the fields back in the order looseMarshal wrote them. */
  method LooseUnmarshal(info: TransactionInfo, inp: DataIn) returns (r: Outcome<CodecError>)
    requires inp.Valid()
    modifies info, inp
    ensures inp.Valid() && inp.data == old(inp.data)
    ensures match DecodeLoose(old(inp.Remaining()))
      case Success(p) => r == Pass && info.Value() == p.0 && inp.Remaining() == p.1
      case Failure(e) => r == Fail(e)
  {
    var h := LooseUnmarshalHeader(inp);
    if h.Failure? {
      return Fail(h.error);
    }
    info.commandId, info.responseRequired := h.value.commandId, h.value.responseRequired;
    var c := LooseUnmarshalCachedObject(inp);
    if c.Failure? {
      return Fail(c.error);
    }
    info.connectionId := c.value;
    var t := LooseUnmarshalCachedObject(inp);
    if t.Failure? {
      return Fail(t.error);
    }
    info.transactionId := t.value;
    var ty := inp.ReadByte();
    if ty.Failure? {
      return Fail(ty.error);
    }
    info.txType := FromOctet(ty.value);
    r := Pass;
  }

  // ---------------------------------------------------------------- a whole exchange

  /** A sender filling in a command through its setters. */
  method SetFields(info: TransactionInfo, v: Info)
    modifies info
    ensures info.Value() == v
  {
    info.commandId, info.responseRequired := v.header.commandId, v.header.responseRequired;
    info.connectionId, info.transactionId, info.txType := v.connectionId, v.transactionId, v.txType;
  }

  /**
    One tight exchange as the wire format drives it: pass 1 into a fresh bit stream, pass 2 into
    a fresh buffer, then a peer unmarshals a fresh object from the bits and bytes it receives.
    The size pass 1 reports is the number of bytes pass 2 writes, and every field arrives.
  */
  method TightExchange(v: Info) returns (estimate: int, written: seq<byte>, received: Info)
    ensures estimate == |written|
    ensures written == TightBytes(v)
    ensures received == v
  {
    var info := CreateObject();
    SetFields(info, v);
    var bs := new BooleanStream();
    estimate := TightMarshal1(info, bs);
    assert bs.bits == TightBits(v) && bs.Remaining() == TightBits(v);
    var out := new DataOut();
    TightMarshal2(info, out, bs);
    written := out.data;
    assert written == TightBytes(v);

    var inp := new DataIn(written);
    var peerBits := new BooleanStream.FromBits(bs.bits);
    var target := CreateObject();
    TightRoundTrip(v, Input([], []));
    assert Input(peerBits.Remaining(), inp.Remaining()) == Input(TightBits(v) + [], TightBytes(v) + []);
    var r := TightUnmarshal(target, inp, peerBits);
    assert r == Pass;
    received := target.Value();
  }

  /** One loose exchange: every field arrives and the reader stops exactly at the end of the frame. */
  method LooseExchange(v: Info) returns (written: seq<byte>, received: Info, consumed: nat)
    ensures written == LooseBytes(v)
    ensures received == v
    ensures consumed == |written|
  {
    var info := CreateObject();
    SetFields(info, v);
    var out := new DataOut();
    LooseMarshal(info, out);
    written := out.data;

    var inp := new DataIn(written);
    var target := CreateObject();
    LooseRoundTrip(v, []);
    assert LooseBytes(v) + [] == written;
    var r := LooseUnmarshal(target, inp);
    assert r == Pass;
    received := target.Value();
    consumed := inp.pos;
  }
}
