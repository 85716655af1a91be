/**
 Where the partial writers stop being faithful: 16-bit counters that wrap, and
 a data length set beyond the buffer. And what any sequence of writes and
 length changes leaves.
 */
module PartialLimits {
  import opened Bytes
  import opened Fields
  import opened Messages
  import opened Tables
  import opened Framing
  import opened Writers
  import opened Partials
  import opened PartialData
  import opened Refinement

  lemma {:induction false} TextsAppend(ss: seq<Text>, tt: seq<Text>)
    ensures EncodeTexts(ss + tt) == EncodeTexts(ss) + EncodeTexts(tt)
  {
    hide EncodeText;
    if ss == [] {
      assert ss + tt == tt;
    } else {
      assert (ss + tt)[1..] == ss[1..] + tt;
      TextsAppend(ss[1..], tt);
    }
  }

  /**
   A path written segment by segment reads back as its first `count` segments,
   `count` being the number of segments in 16 bits: as the whole path exactly up
   to 65535 segments.
   */
  lemma SegmentCounterLimit(segments: seq<Text>)
    ensures var count := |segments| % TWO_16;
            DecodePath(PathPayload([], segments)) == Ok(segments[..count], EncodeTexts(segments[count..]))
    ensures (exists rest :: DecodePath(PathPayload([], segments)) == Ok(segments, rest)) <==> |segments| < TWO_16
  {
    hide LE;
    hide EncodeTexts;
    hide DecodePath;
    var count := |segments| % TWO_16;
    var p, more := segments[..count], segments[count..];
    TextsAppend(p, more);
    assert segments == p + more;
    PathRoundTrip(p, EncodeTexts(more));
    assert PathPayload([], segments) == LE(|p|, 2) + EncodeTexts(p) + EncodeTexts(more);
    if |segments| < TWO_16 {
      assert p == segments;
    }
  }

  /** The same for a string written in pieces: whole exactly up to 65535 bytes. */
  lemma StringLengthLimit(text: seq<byte>)
    ensures var n := |text| % TWO_16; DecodeText(TextPayload([], text)) == Ok(text[..n], text[n..])
    ensures (exists rest :: DecodeText(TextPayload([], text)) == Ok(text, rest)) <==> |text| < TWO_16
  {
    var n := |text| % TWO_16;
    assert TextPayload([], text) == EncodeText(text[..n]) + text[n..];
    TextRoundTrip(text[..n], text[n..]);
    if |text| < TWO_16 {
      assert text[..n] == text;
    }
  }

  /**
   After `UpdateSize(n)` the payload is `head`, the length `n`, and as many data
   bytes as the position moved over: all `n` of them or none. A decoder of the
   message finds its data exactly in the first case.
   */
  lemma UpdatedPayloadReadable(ks: seq<Kind>, vs: seq<Value>, n: u32, data: seq<byte>)
    requires Typed(ks, vs) && (|data| == n || data == [])
    ensures Decode(ks + [Data], Encode(vs) + (LE(n, 4) + data))
         == if |data| == n then Ok(vs + [VData(data)], []) else OutOfData(|ks|)
  {
    hide DecodeOne;
    hide EncodeOne;
    hide LE;
    var tail := LE(n, 4) + data;
    DecodeAppend(ks, [Data], Encode(vs) + tail);
    RoundTrip(ks, vs, tail);
    DataTail(n, data);
  }

  lemma DataTail(n: u32, data: seq<byte>)
    requires |data| == n || data == []
    ensures Decode([Data], LE(n, 4) + data) == if |data| == n then Ok([VData(data)], []) else OutOfData(0)
  {
    hide LE;
    hide DecodeData;
    assert [Data][1..] == [];
    if |data| == n {
      DataRoundTrip(data, []);
      assert LE(n, 4) + data + [] == LE(n, 4) + data;
      assert DecodeOne(Data, LE(n, 4) + data) == Ok(VData(data), []);
      assert [VData(data)] + [] == [VData(data)];
    } else {
      LengthWithoutData(n);
      assert LE(n, 4) + data == LE(n, 4);
    }
  }

  lemma LengthWithoutData(n: u32)
    requires n > 0
    ensures DecodeData(LE(n, 4)) == OutOfData(0)
  {
    hide LE;
    SpanOfWidths();
    NumRoundTrip(n, 4, []);
    assert LE(n, 4) + [] == LE(n, 4);
  }

  lemma SplicedStretch(b: seq<byte>, at: nat, x: seq<byte>, to: nat)
    requires at + |x| <= to <= |b|
    ensures Splice(b, at, x)[at..to] == x + b[at + |x|..to]
  {
  }

  /** The bytes that are in the buffer behind the length field: `n` of them, or none if there are fewer. */
  function Prefilled(b: seq<byte>, from: nat, n: nat): seq<byte> {
    if from + n <= |b| then b[from..from + n] else []
  }

  /** The leading fields are written and the data is empty. */
  method BeginData(w: MessageWriter, code: u8, fields: seq<Value>) returns (dw: PartialDataWriter)
    requires w.Valid() && w.out.position == w.pos && w.Room(HEADER_SIZE + |Encode(fields)| + 4)
    modifies w, w.out, w.out.buf
    ensures fresh(dw) && dw.Whole() && dw.w == w && dw.head == Encode(fields) && w.typ == code
    ensures w.out.buf[..] == Splice(old(w.out.buf[..]), w.pos, Frame(code, w.tag, Encode(fields) + LE(0, 4)))
  {
    hide HeaderBytes;
    hide Splice;
    hide Holds;
    hide Encode;
    hide LE;
    ghost var b := w.out.buf[..];
    BeginWith(w, code, fields);
    ghost var h := w.Head() + Encode(fields);
    dw := new PartialDataWriter(w, Encode(fields));
    SpliceOver(b, w.pos, h, Frame(code, w.tag, Encode(fields) + LE(0, 4)));
  }

  /**
   A message whose data has been put into the buffer beforehand: its leading
   fields are written and the data writer is told the length. A receiver sees
   the announced length and the bytes that the position moved over.
   */
  method WriteAround(w: MessageWriter, code: u8, fields: seq<Value>, n: u32)
    requires w.Valid() && w.out.position == w.pos && w.Room(HEADER_SIZE + |Encode(fields)| + 4)
    requires HEADER_SIZE + |Encode(fields)| + 4 + n < TWO_32
    modifies w, w.out, w.out.buf
    ensures w.Valid() && w.pos <= w.out.position
    ensures var data := Prefilled(old(w.out.buf[..]), w.pos + HEADER_SIZE + |Encode(fields)| + 4, n);
            |data| <= n && Seen(w) == Frame(code, w.tag, Encode(fields) + (LE(n, 4) + data))
  {
    hide HeaderBytes;
    hide Splice;
    hide Holds;
    hide Encode;
    hide LE;
    hide Seen;
    ghost var b, head := w.out.buf[..], Encode(fields);
    var dw := BeginData(w, code, fields);
    dw.UpdateSize(n);
    SpliceOver(b, w.pos, Frame(code, w.tag, head + LE(0, 4)), w.Head() + (head + LE(n, 4)));
    SeenAround(w, b, head, n);
  }

  lemma SeenAround(w: MessageWriter, b: seq<byte>, head: seq<byte>, n: u32)
    requires w.Valid() && |b| == w.out.buf.Length
    requires w.pos + HEADER_SIZE + |head| + 4 <= w.out.position && w.size == w.out.position - w.pos
    requires w.out.buf[..] == Splice(b, w.pos, w.Head() + (head + LE(n, 4)))
    ensures Seen(w)
         == Frame(w.typ, w.tag, head + (LE(n, 4) + b[w.pos + HEADER_SIZE + |head| + 4..w.out.position]))
  {
    hide HeaderBytes;
    hide Splice;
    hide LE;
    var x := w.Head() + (head + LE(n, 4));
    var data := b[w.pos + |x|..w.out.position];
    SplicedStretch(b, w.pos, x, w.out.position);
    assert Seen(w) == w.out.buf[..][w.pos..w.out.position];
    assert x + data == w.Head() + (head + (LE(n, 4) + data));
  }

  lemma UpdatedResponseParses(v: Version, t: ResponseType, ks: seq<Kind>, vs: seq<Value>, n: u32, data: Blob,
      tag: u16, maxPayload: u32)
    requires ResponseSlot(v, ResponseCode(t)) == Some(t) && ResponseKinds(t) == ks + [Data] && Typed(ks, vs)
    requires |data| == n || data == []
    requires HEADER_SIZE + |Encode(vs)| + 4 + n < TWO_32
    requires |Encode(vs)| + 4 + |data| <= maxPayload && HEADER_SIZE + maxPayload < TWO_32
    ensures ParseResponse(v, maxPayload, Frame(ResponseCode(t), tag, Encode(vs) + (LE(n, 4) + data)))
         == if |data| == n
            then Message(Header(HEADER_SIZE + |Encode(vs)| + 4 + n, ResponseCode(t), tag),
                         AssembleResponse(t, vs + [VData(data)]), [])
            else Failed(PayloadRead(|ks|))
  {
    hide ParseHeader;
    hide Validate;
    hide Decode;
    hide Encode;
    hide LE;
    hide ResponseSlot;
    hide ResponseKinds;
    hide ResponseCode;
    hide AssembleResponse;
    FrameDispatched(ResponseCode(t), tag, Encode(vs) + (LE(n, 4) + data), maxPayload);
    UpdatedPayloadReadable(ks, vs, n, data);
  }

  lemma UpdatedRequestParses(v: Version, t: RequestType, ks: seq<Kind>, vs: seq<Value>, n: u32, data: Blob,
      tag: u16, maxPayload: u32)
    requires RequestSlot(v, RequestCode(t)) == Some(t) && RequestKinds(t) == ks + [Data] && Typed(ks, vs)
    requires |data| == n || data == []
    requires HEADER_SIZE + |Encode(vs)| + 4 + n < TWO_32
    requires |Encode(vs)| + 4 + |data| <= maxPayload && HEADER_SIZE + maxPayload < TWO_32
    ensures ParseRequest(v, maxPayload, Frame(RequestCode(t), tag, Encode(vs) + (LE(n, 4) + data)))
         == if |data| == n
            then Message(Header(HEADER_SIZE + |Encode(vs)| + 4 + n, RequestCode(t), tag),
                         AssembleRequest(t, vs + [VData(data)]), [])
            else Failed(PayloadRead(|ks|))
  {
    hide ParseHeader;
    hide Validate;
    hide Decode;
    hide Encode;
    hide LE;
    hide RequestSlot;
    hide RequestKinds;
    hide RequestCode;
    hide AssembleRequest;
    FrameDispatched(RequestCode(t), tag, Encode(vs) + (LE(n, 4) + data), maxPayload);
    UpdatedPayloadReadable(ks, vs, n, data);
  }

  /**
   A read response around data that is in the buffer already. A receiver of any
   version gets the data if the buffer holds all of it; otherwise it gets no
   message, because the data field is announced and not there.
   */
  method UpdateRead(w: MessageWriter, n: u32, ghost v: Version, ghost maxPayload: u32)
    requires w.Valid() && w.out.position == w.pos && w.Room(HEADER_SIZE + 4)
    requires HEADER_SIZE + 4 + n < TWO_32 && HEADER_SIZE + maxPayload < TWO_32
    requires 4 + |Prefilled(w.out.buf[..], w.pos + HEADER_SIZE + 4, n)| <= maxPayload
    modifies w, w.out, w.out.buf
    ensures w.Valid() && w.pos <= w.out.position
    ensures var from := w.pos + HEADER_SIZE + 4;
            ParseResponse(v, maxPayload, Seen(w))
            == if from + n <= w.out.buf.Length
               then Message(Header(HEADER_SIZE + 4 + n, RREAD, w.tag), BaseR(RRead(old(w.out.buf[..])[from..from + n])), [])
               else Failed(PayloadRead(0))
  {
    hide Seen;
    hide ParseResponse;
    hide LE;
    ghost var b := w.out.buf[..];
    ReadEverywhere(v);
    WriteAround(w, RREAD, [], n);
    ghost var data := Prefilled(b, w.pos + HEADER_SIZE + 4, n);
    UpdatedResponseParses(v, BaseRsp(RspRead), [], [], n, data, w.tag, maxPayload);
    assert [] + [VData(data)] == [VData(data)];
  }

  lemma ReadEverywhere(v: Version)
    ensures ResponseSlot(v, ResponseCode(BaseRsp(RspRead))) == Some(BaseRsp(RspRead))
    ensures ResponseKinds(BaseRsp(RspRead)) == [] + [Data] && ResponseCode(BaseRsp(RspRead)) == RREAD
  {
  }

  lemma WriteEverywhere(v: Version)
    ensures RequestSlot(v, RequestCode(BaseReq(ReqWrite))) == Some(BaseReq(ReqWrite))
    ensures RequestKinds(BaseReq(ReqWrite)) == [U32, U64] + [Data] && RequestCode(BaseReq(ReqWrite)) == TWRITE
  {
  }

  /** The same for a write request: with too little data in the buffer its third field cannot be read. */
  method UpdateWrite(w: MessageWriter, fid: u32, offset: u64, n: u32, ghost v: Version, ghost maxPayload: u32)
    requires w.Valid() && w.out.position == w.pos && w.Room(HEADER_SIZE + 16)
    requires HEADER_SIZE + 16 + n < TWO_32 && HEADER_SIZE + maxPayload < TWO_32
    requires 16 + |Prefilled(w.out.buf[..], w.pos + HEADER_SIZE + 16, n)| <= maxPayload
    modifies w, w.out, w.out.buf
    ensures w.Valid() && w.pos <= w.out.position
    ensures var from := w.pos + HEADER_SIZE + 16;
            ParseRequest(v, maxPayload, Seen(w))
            == if from + n <= w.out.buf.Length
               then Message(Header(HEADER_SIZE + 16 + n, TWRITE, w.tag),
                            Base(TWrite(fid, offset, old(w.out.buf[..])[from..from + n])), [])
               else Failed(PayloadRead(2))
  {
    hide Seen;
    hide ParseRequest;
    hide LE;
    hide Encode;
    ghost var b := w.out.buf[..];
    var fields := [V32(fid), V64(offset)];
    WriteEverywhere(v);
    TwelveBytes(fid, offset);
    WriteAround(w, TWRITE, fields, n);
    ghost var data := Prefilled(b, w.pos + HEADER_SIZE + 16, n);
    UpdatedRequestParses(v, BaseReq(ReqWrite), [U32, U64], fields, n, data, w.tag, maxPayload);
    assert fields + [VData(data)] == [V32(fid), V64(offset), VData(data)];
  }

  lemma TwelveBytes(fid: u32, offset: u64)
    ensures |Encode([V32(fid), V64(offset)])| == 12
  {
    hide LE;
    var vs := [V32(fid), V64(offset)];
    assert vs[1..] == [V64(offset)] && vs[1..][1..] == [];
    assert |Encode(vs[1..])| == 8;
  }

  // ------------------------------------------------------------------------
  // Any interleaving of writes and length changes
  // ------------------------------------------------------------------------

  datatype DataOp = Chunk(bytes: Blob) | Resize(size: u32)

  /** The bytes behind the length field, up to the end of the buffer, and how many of them are data. */
  datatype TapeState = TapeState(bytes: seq<byte>, size: nat) {
    predicate Fits() { size <= |bytes| }

    function Data(): seq<byte>
      requires Fits()
    {
      bytes[..size]
    }
  }

  predicate Allowed(t: TapeState, op: DataOp) {
    && t.Fits()
    && match op
       case Chunk(x) => t.size + |x| <= |t.bytes|
       case Resize(n) => n <= |t.bytes|
  }

  function Turn(t: TapeState, op: DataOp): (r: TapeState)
    requires Allowed(t, op)
    ensures r.Fits() && |r.bytes| == |t.bytes|
  {
    match op
    case Chunk(x) => TapeState(Splice(t.bytes, t.size, x), t.size + |x|)
    case Resize(n) => TapeState(t.bytes, n)
  }

  predicate AllAllowed(t: TapeState, ops: seq<DataOp>)
    requires t.Fits()
    decreases |ops|
  {
    ops == [] || (Allowed(t, ops[0]) && AllAllowed(Turn(t, ops[0]), ops[1..]))
  }

  function Turns(t: TapeState, ops: seq<DataOp>): (r: TapeState)
    requires t.Fits() && AllAllowed(t, ops)
    ensures r.Fits() && |r.bytes| == |t.bytes|
    decreases |ops|
  {
    if ops == [] then t else Turns(Turn(t, ops[0]), ops[1..])
  }

  /** A chunk extends the data; a length change forgets the earlier length and touches no byte. */
  lemma TurnMeaning(t: TapeState, x: Blob, m: u32, n: u32)
    requires t.size < TWO_32
    requires Allowed(t, Chunk(x)) && Allowed(t, Resize(m)) && Allowed(t, Resize(n))
    ensures Turn(t, Chunk(x)).Data() == t.Data() + x
    ensures Turn(Turn(t, Resize(m)), Resize(n)) == Turn(t, Resize(n))
    ensures Turn(Turn(t, Resize(m)), Resize(t.size)) == t
  {
    SpliceHolds(t.bytes, t.size, x);
    assert Splice(t.bytes, t.size, x)[..t.size + |x|] == t.bytes[..t.size] + x;
  }

  /** The data writer shows the tape `t`. */
  ghost predicate Shows(dw: PartialDataWriter, t: TapeState)
    reads dw, dw.w, dw.w.out, dw.w.out.buf
  {
    dw.Whole() && dw.Tape() == t.bytes && dw.dataSize == t.size && t.Fits()
  }

  lemma TapeOfSplice(b: seq<byte>, at: nat, x: seq<byte>, from: nat)
    requires at + |x| <= |b| && from <= |b|
    ensures at + |x| <= from ==> Splice(b, at, x)[from..] == b[from..]
    ensures from <= at ==> Splice(b, at, x)[from..] == Splice(b[from..], at - from, x)
  {
  }

  method PerformData(dw: PartialDataWriter, ghost t: TapeState, op: DataOp)
    requires Shows(dw, t) && Allowed(t, op)
    requires dw.w.out.buf.Length < TWO_32
    modifies dw, dw.w, dw.w.out, dw.w.out.buf
    ensures Shows(dw, Turn(t, op))
    ensures dw.w.out.buf[..dw.w.pos] == old(dw.w.out.buf[..dw.w.pos])
  {
    hide HeaderBytes;
    hide Splice;
    hide Holds;
    ghost var b, from := dw.w.out.buf[..], dw.segmentsPos + 4;
    assert dw.Tape() == b[from..];
    match op
    case Chunk(x) =>
      dw.Append(x);
      ghost var c, h := Splice(b, from + t.size, x), dw.w.Head() + (dw.head + LE(dw.dataSize, 4));
      TapeOfSplice(b, from + t.size, x, from);
      TapeOfSplice(c, dw.w.pos, h, from);
      BeforeKept(c, dw.w.pos, h);
      SplicePrefix(b, from + t.size, x, dw.w.pos);
      assert dw.Tape() == dw.w.out.buf[..][from..];
      assert dw.w.out.buf[..dw.w.pos] == dw.w.out.buf[..][..dw.w.pos];
    case Resize(n) =>
      dw.UpdateSize(n);
      ghost var h := dw.w.Head() + (dw.head + LE(n, 4));
      TapeOfSplice(b, dw.w.pos, h, from);
      BeforeKept(b, dw.w.pos, h);
      assert dw.Tape() == dw.w.out.buf[..][from..];
      assert dw.w.out.buf[..dw.w.pos] == dw.w.out.buf[..][..dw.w.pos];
  }

  lemma SplicePrefix(b: seq<byte>, at: nat, x: seq<byte>, n: nat)
    requires n <= at && at + |x| <= |b|
    ensures Splice(b, at, x)[..n] == b[..n]
  {
  }

  /**
   Any interleaving of chunks and length changes that stays within the buffer:
   the message is whole throughout, its position is that of the data end, and
   its data is what the tape holds.
   */
  method PerformAllData(dw: PartialDataWriter, ghost t: TapeState, ops: seq<DataOp>)
    requires Shows(dw, t) && AllAllowed(t, ops)
    requires dw.w.out.buf.Length < TWO_32
    modifies dw, dw.w, dw.w.out, dw.w.out.buf
    ensures Shows(dw, Turns(t, ops)) && dw.Data() == Turns(t, ops).Data()
    ensures dw.w.out.position == dw.segmentsPos + 4 + dw.dataSize
    ensures dw.w.out.buf[..dw.w.pos] == old(dw.w.out.buf[..dw.w.pos])
  {
    hide HeaderBytes;
    hide Splice;
    hide Holds;
    ghost var now := t;
    for i := 0 to |ops|
      invariant Shows(dw, now) && AllAllowed(now, ops[i..]) && Turns(now, ops[i..]) == Turns(t, ops)
      invariant dw.w.out.buf[..dw.w.pos] == old(dw.w.out.buf[..dw.w.pos])
    {
      assert ops[i..][0] == ops[i] && ops[i..][1..] == ops[i + 1..];
      PerformData(dw, now, ops[i]);
      now := Turn(now, ops[i]);
    }
    assert dw.Tape()[..dw.dataSize] == dw.Data();
  }
}
