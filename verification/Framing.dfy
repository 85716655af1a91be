/**
 Frames: the seven-byte header, its validation, the dispatch to a decoder, and
 what parsing a written message gives back.
 */
module Framing {
  import opened Bytes
  import opened Fields
  import opened Messages
  import opened Orders
  import opened Tables

  const HEADER_SIZE := 7

  datatype Header = Header(size: u32, typ: u8, tag: u16)

  function HeaderFields(h: Header): seq<Value> {
    [V32(h.size), V8(h.typ), V16(h.tag)]
  }

  function HeaderKinds(): seq<Kind> { [U32, U8, U16] }

  function HeaderBytes(h: Header): (bs: seq<byte>)
    ensures |bs| == HEADER_SIZE
  {
    Encode3(V32(h.size), V8(h.typ), V16(h.tag));
    Encode(HeaderFields(h))
  }

  /** A complete message: a header that declares the total size, then the payload. */
  function Frame(typ: u8, tag: u16, payload: seq<byte>): (bs: seq<byte>)
    requires HEADER_SIZE + |payload| < TWO_32
    ensures |bs| == HEADER_SIZE + |payload|
  {
    HeaderBytes(Header(HEADER_SIZE + |payload|, typ, tag)) + payload
  }

  // ------------------------------------------------------------------------
  // Parsing
  // ------------------------------------------------------------------------

  datatype Error =
    | HeaderRead(field: nat)
    | FrameTooShort
    | FrameTooBig
    | NotEnoughData
    | MoreThanExpectedData
    | UnsupportedMessageType
    | PayloadRead(field: nat)

  datatype Result<+T> = Success(value: T) | Failure(error: Error)

  /** `Unmodelled` is the outcome of a payload whose decoding is `Undefined`. */
  datatype Parsed<+T> =
    | Message(header: Header, value: T, unread: seq<byte>)
    | Failed(error: Error)
    | Unmodelled

  datatype HeaderAndRest = HeaderAndRest(header: Header, rest: seq<byte>)

  function ParseHeader(bs: seq<byte>): Result<HeaderAndRest> {
    match Decode(HeaderKinds(), bs)
    case Ok(vs, rest) =>
      var h := Header(Num32(vs, 0), Num8(vs, 1), Num16(vs, 2));
      if h.size < HEADER_SIZE then Failure(FrameTooShort) else Success(HeaderAndRest(h, rest))
    case OutOfData(i) => Failure(HeaderRead(i))
    case Undefined => Failure(HeaderRead(0))
  }

  /** `messageSize - headerSize()` in unsigned 32-bit arithmetic. */
  function PayloadSize(h: Header): u32 {
    (h.size - HEADER_SIZE) % TWO_32
  }

  /** `headerSize() + maxPayload` in unsigned 32-bit arithmetic. */
  function MaxMessageSize(maxPayload: u32): u32 {
    (HEADER_SIZE + maxPayload) % TWO_32
  }

  function Validate(h: Header, available: nat, maxMessage: u32): Option<Error> {
    if h.size < HEADER_SIZE then Some(FrameTooShort)
    else if h.size > maxMessage then Some(FrameTooBig)
    else if PayloadSize(h) > available then Some(NotEnoughData)
    else if PayloadSize(h) < available then Some(MoreThanExpectedData)
    else None
  }

  function ParseRequestPayload(v: Version, h: Header, data: seq<byte>): Parsed<Request> {
    match RequestSlot(v, h.typ)
    case None => Failed(UnsupportedMessageType)
    case Some(t) =>
      match Decode(RequestKinds(t), data)
      case Ok(vs, rest) => Message(h, AssembleRequest(t, vs), rest)
      case OutOfData(i) => Failed(PayloadRead(i))
      case Undefined => Unmodelled
  }

  function ParseResponsePayload(v: Version, h: Header, data: seq<byte>): Parsed<Response> {
    match ResponseSlot(v, h.typ)
    case None => Failed(UnsupportedMessageType)
    case Some(t) =>
      match Decode(ResponseKinds(t), data)
      case Ok(vs, rest) => Message(h, AssembleResponse(t, vs), rest)
      case OutOfData(i) => Failed(PayloadRead(i))
      case Undefined => Unmodelled
  }

  /** Header and payload of one frame, read by a parser of version `v`. */
  function ParseRequest(v: Version, maxPayload: u32, bs: seq<byte>): Parsed<Request> {
    match ParseHeader(bs)
    case Failure(e) => Failed(e)
    case Success(hr) =>
      match Validate(hr.header, |hr.rest|, MaxMessageSize(maxPayload))
      case Some(e) => Failed(e)
      case None => ParseRequestPayload(v, hr.header, hr.rest)
  }

  function ParseResponse(v: Version, maxPayload: u32, bs: seq<byte>): Parsed<Response> {
    match ParseHeader(bs)
    case Failure(e) => Failed(e)
    case Success(hr) =>
      match Validate(hr.header, |hr.rest|, MaxMessageSize(maxPayload))
      case Some(e) => Failed(e)
      case None => ParseResponsePayload(v, hr.header, hr.rest)
  }

  // ------------------------------------------------------------------------
  // Headers
  // ------------------------------------------------------------------------

  lemma HeaderRoundTrip(h: Header, rest: seq<byte>)
    ensures Decode(HeaderKinds(), HeaderBytes(h) + rest) == Ok(HeaderFields(h), rest)
    ensures h.size >= HEADER_SIZE ==> ParseHeader(HeaderBytes(h) + rest) == Success(HeaderAndRest(h, rest))
  {
    hide Decode;
    hide Encode;
    RoundTrip(HeaderKinds(), HeaderFields(h), rest);
  }

  /** size[4] type[1] tag[2] */
  lemma HeaderLayout(h: Header)
    ensures HeaderBytes(h)[..4] == LE(h.size, 4)
    ensures HeaderBytes(h)[4..5] == LE(h.typ, 1)
    ensures HeaderBytes(h)[5..] == LE(h.tag, 2)
  {
    hide Encode;
    hide LE;
    Encode3(V32(h.size), V8(h.typ), V16(h.tag));
  }

  lemma HeaderCanonical(bs: seq<byte>)
    requires ParseHeader(bs).Success?
    ensures var hr := ParseHeader(bs).value; HeaderBytes(hr.header) + hr.rest == bs
  {
    hide Decode;
    hide Encode;
    Canonical(HeaderKinds(), bs);
    var vs := Decode(HeaderKinds(), bs).value;
    assert vs == HeaderFields(ParseHeader(bs).value.header);
  }

  lemma HeaderNeedsSeven(bs: seq<byte>)
    ensures Decode(HeaderKinds(), bs).Ok? <==> |bs| >= HEADER_SIZE
    ensures !Decode(HeaderKinds(), bs).Undefined?
  {
    assert HeaderKinds()[1..] == [U8, U16] && [U8, U16][1..] == [U16] && [U16][1..] == [];
    if |bs| >= 4 {
      if |bs| >= 5 {
        var tail := DecodeOne(U8, bs[4..]).rest;
        assert tail == bs[5..];
        assert Decode([U16], tail).Ok? <==> |bs| >= HEADER_SIZE;
      }
      assert Decode([U8, U16], bs[4..]).Ok? <==> |bs| >= HEADER_SIZE;
    }
  }

  /** The declared size of a frame: its first four bytes. */
  function DeclaredSize(bs: seq<byte>): u32
    requires |bs| >= HEADER_SIZE
  {
    SpanOfWidths();
    FromLE(bs[..4])
  }

  predicate Dispatched(maxPayload: u32, bs: seq<byte>) {
    && ParseHeader(bs).Success?
    && var hr := ParseHeader(bs).value;
       Validate(hr.header, |hr.rest|, MaxMessageSize(maxPayload)) == None
  }

  // ------------------------------------------------------------------------
  // Framing acceptance
  // ------------------------------------------------------------------------

  lemma DeclaredSizeIsHeaderSize(bs: seq<byte>)
    requires ParseHeader(bs).Success?
    ensures |bs| >= HEADER_SIZE && ParseHeader(bs).value.header.size == DeclaredSize(bs)
    ensures |ParseHeader(bs).value.rest| == |bs| - HEADER_SIZE
  {
    hide ParseHeader;
    HeaderCanonical(bs);
    var h := ParseHeader(bs).value.header;
    Encode3(V32(h.size), V8(h.typ), V16(h.tag));
    assert bs[..4] == LE(h.size, 4);
    SpanOfWidths();
    FromLEOfLE(h.size, 4);
  }

  lemma HeaderParses(bs: seq<byte>)
    ensures ParseHeader(bs).Success? <==> |bs| >= HEADER_SIZE && DeclaredSize(bs) >= HEADER_SIZE
    ensures |bs| >= HEADER_SIZE && DeclaredSize(bs) < HEADER_SIZE ==> ParseHeader(bs) == Failure(FrameTooShort)
    ensures |bs| < HEADER_SIZE ==> ParseHeader(bs).Failure? && ParseHeader(bs).error.HeaderRead?
  {
    hide Decode;
    hide Encode;
    HeaderNeedsSeven(bs);
    if |bs| >= HEADER_SIZE {
      Canonical(HeaderKinds(), bs);
      var Ok(vs, rest) := Decode(HeaderKinds(), bs);
      var h := Header(Num32(vs, 0), Num8(vs, 1), Num16(vs, 2));
      assert vs == HeaderFields(h);
      Encode3(V32(h.size), V8(h.typ), V16(h.tag));
      assert bs[..4] == LE(h.size, 4);
      SpanOfWidths();
      FromLEOfLE(h.size, 4);
    }
  }

  /** Whether a frame of this length and declared size may be dispatched. */
  predicate Acceptable(maxPayload: u32, bs: seq<byte>) {
    |bs| >= HEADER_SIZE && DeclaredSize(bs) == |bs| <= HEADER_SIZE + maxPayload
  }

  /**
   A decoder is reached exactly by the byte strings that are one whole frame
   within the negotiated limit, as long as the limit plus the header does not
   leave the 32-bit range. From there on no frame at all is accepted.
   */
  lemma FramingAcceptance(maxPayload: u32, bs: seq<byte>)
    ensures Dispatched(maxPayload, bs) <==> Acceptable(maxPayload, bs) && HEADER_SIZE + maxPayload < TWO_32
  {
    hide ParseHeader;
    HeaderParses(bs);
    if ParseHeader(bs).Success? {
      DeclaredSizeIsHeaderSize(bs);
    }
  }

  /** The field of the header at which fewer than seven bytes run out. */
  lemma HeaderCutShort(bs: seq<byte>)
    requires |bs| < HEADER_SIZE
    ensures Decode(HeaderKinds(), bs) == OutOfData(if |bs| < 4 then 0 else if |bs| < 5 then 1 else 2)
  {
    assert HeaderKinds()[1..] == [U8, U16] && [U8, U16][1..] == [U16];
    if |bs| >= 4 {
      if |bs| >= 5 {
        var tail := DecodeOne(U8, bs[4..]).rest;
        assert tail == bs[5..];
        assert Decode([U16], tail) == OutOfData(0);
        assert Decode([U8, U16], bs[4..]) == OutOfData(1);
      } else {
        assert Decode([U8, U16], bs[4..]) == OutOfData(0);
      }
    }
  }

  /**
   Under every limit, a frame that reaches no decoder is answered by the error of
   the first check that it fails. A limit that wraps leaves no header small enough.
   */
  lemma FramingErrors(v: Version, maxPayload: u32, bs: seq<byte>)
    requires !Acceptable(maxPayload, bs) || HEADER_SIZE + maxPayload >= TWO_32
    ensures var e :=
              if |bs| < 4 then HeaderRead(0)
              else if |bs| < 5 then HeaderRead(1)
              else if |bs| < HEADER_SIZE then HeaderRead(2)
              else if DeclaredSize(bs) < HEADER_SIZE then FrameTooShort
              else if DeclaredSize(bs) > HEADER_SIZE + maxPayload || HEADER_SIZE + maxPayload >= TWO_32 then FrameTooBig
              else if DeclaredSize(bs) > |bs| then NotEnoughData
              else MoreThanExpectedData;
            && ParseRequest(v, maxPayload, bs) == Failed(e)
            && ParseResponse(v, maxPayload, bs) == Failed(e)
  {
    hide Decode;
    hide ParseRequestPayload;
    hide ParseResponsePayload;
    if |bs| < HEADER_SIZE {
      HeaderCutShort(bs);
    } else {
      HeaderParses(bs);
      if ParseHeader(bs).Success? {
        DeclaredSizeIsHeaderSize(bs);
      }
    }
  }

  lemma FrameDispatched(typ: u8, tag: u16, payload: seq<byte>, maxPayload: u32)
    requires |payload| <= maxPayload && HEADER_SIZE + maxPayload < TWO_32
    ensures ParseHeader(Frame(typ, tag, payload))
         == Success(HeaderAndRest(Header(HEADER_SIZE + |payload|, typ, tag), payload))
    ensures Validate(Header(HEADER_SIZE + |payload|, typ, tag), |payload|, MaxMessageSize(maxPayload)) == None
  {
    hide ParseHeader;
    HeaderRoundTrip(Header(HEADER_SIZE + |payload|, typ, tag), payload);
  }

  // ------------------------------------------------------------------------
  // Round trips
  // ------------------------------------------------------------------------

  function RequestPayload(m: Request): seq<byte> { Encode(RequestFields(m)) }
  function ResponsePayload(m: Response): seq<byte> { Encode(ResponseFields(m)) }

  function RequestHeader(m: Request, tag: u16): Header
    requires HEADER_SIZE + |RequestPayload(m)| < TWO_32
  {
    Header(HEADER_SIZE + |RequestPayload(m)|, RequestCode(TypeOfRequest(m)), tag)
  }

  function ResponseHeader(m: Response, tag: u16): Header
    requires HEADER_SIZE + |ResponsePayload(m)| < TWO_32
  {
    Header(HEADER_SIZE + |ResponsePayload(m)|, ResponseCode(TypeOfResponse(m)), tag)
  }

  /** The frame that a writer with tag `tag` produces for the message. */
  function RequestFrame(m: Request, tag: u16): seq<byte>
    requires HEADER_SIZE + |RequestPayload(m)| < TWO_32
  {
    Frame(RequestCode(TypeOfRequest(m)), tag, RequestPayload(m))
  }

  function ResponseFrame(m: Response, tag: u16): seq<byte>
    requires HEADER_SIZE + |ResponsePayload(m)| < TWO_32
  {
    Frame(ResponseCode(TypeOfResponse(m)), tag, ResponsePayload(m))
  }

  /**
   A payload that starts with the encoding of a message of type `t` parses to
   that message in every version that dispatches the code to `t`.
   */
  lemma RequestPayloadParses(v: Version, m: Request, h: Header, rest: seq<byte>)
    requires RequestSlot(v, h.typ) == Some(TypeOfRequest(m))
    ensures ParseRequestPayload(v, h, RequestPayload(m) + rest) == Message(h, m, rest)
  {
    hide RequestFields;
    hide RequestKinds;
    hide AssembleRequest;
    hide RequestSlot;
    hide Decode;
    hide Encode;
    RequestOrderAgrees(m);
    RoundTrip(RequestKinds(TypeOfRequest(m)), RequestFields(m), rest);
  }

  lemma ResponsePayloadParses(v: Version, m: Response, h: Header, rest: seq<byte>)
    requires ResponseSlot(v, h.typ) == Some(TypeOfResponse(m))
    ensures ParseResponsePayload(v, h, ResponsePayload(m) + rest) == Message(h, m, rest)
  {
    hide ResponseFields;
    hide ResponseKinds;
    hide AssembleResponse;
    hide ResponseSlot;
    hide Decode;
    hide Encode;
    ResponseOrderAgrees(m);
    RoundTrip(ResponseKinds(TypeOfResponse(m)), ResponseFields(m), rest);
  }

  /**
   Whatever a payload parses to has the type that the version dispatches the
   code to, and writing it again gives exactly the consumed bytes.
   */
  lemma RequestPayloadCanonical(v: Version, h: Header, data: seq<byte>)
    requires ParseRequestPayload(v, h, data).Message?
    ensures var r := ParseRequestPayload(v, h, data);
            && r.header == h
            && RequestSlot(v, h.typ) == Some(TypeOfRequest(r.value))
            && RequestPayload(r.value) + r.unread == data
  {
    hide RequestFields;
    hide RequestKinds;
    hide AssembleRequest;
    hide TypeOfRequest;
    hide RequestSlot;
    hide Decode;
    hide Encode;
    var t := RequestSlot(v, h.typ).value;
    Canonical(RequestKinds(t), data);
    RequestOrderComplete(t, Decode(RequestKinds(t), data).value);
  }

  lemma ResponsePayloadCanonical(v: Version, h: Header, data: seq<byte>)
    requires ParseResponsePayload(v, h, data).Message?
    ensures var r := ParseResponsePayload(v, h, data);
            && r.header == h
            && ResponseSlot(v, h.typ) == Some(TypeOfResponse(r.value))
            && ResponsePayload(r.value) + r.unread == data
  {
    hide ResponseFields;
    hide ResponseKinds;
    hide AssembleResponse;
    hide TypeOfResponse;
    hide ResponseSlot;
    hide Decode;
    hide Encode;
    var t := ResponseSlot(v, h.typ).value;
    Canonical(ResponseKinds(t), data);
    ResponseOrderComplete(t, Decode(ResponseKinds(t), data).value);
  }

  /**
   Full round trip: a written request parses back to the same message, tag and
   fields with nothing left over, in exactly the versions that have the message.
   */
  lemma RequestRoundTrip(v: Version, m: Request, tag: u16, maxPayload: u32)
    requires |RequestPayload(m)| <= maxPayload && HEADER_SIZE + maxPayload < TWO_32
    ensures Supports(v, TypeOfRequest(m)) <==>
              ParseRequest(v, maxPayload, RequestFrame(m, tag)) == Message(RequestHeader(m, tag), m, [])
  {
    hide ParseHeader;
    hide RequestSlot;
    hide RequestCode;
    hide TypeOfRequest;
    hide RequestKinds;
    hide AssembleRequest;
    hide Decode;
    hide RequestPayload;
    hide Supports;
    hide ParseRequestPayload;
    var p, t := RequestPayload(m), TypeOfRequest(m);
    var h := RequestHeader(m, tag);
    FrameDispatched(RequestCode(t), tag, p, maxPayload);
    RequestSlotExact(v, h.typ, t);
    if RequestSlot(v, h.typ) == Some(t) {
      RequestPayloadParses(v, m, h, []);
      assert p + [] == p;
    } else if ParseRequestPayload(v, h, p).Message? {
      RequestPayloadCanonical(v, h, p);
    }
  }

  lemma ResponseRoundTrip(v: Version, m: Response, tag: u16, maxPayload: u32)
    requires |ResponsePayload(m)| <= maxPayload && HEADER_SIZE + maxPayload < TWO_32
    ensures SupportsResponse(v, TypeOfResponse(m)) <==>
              ParseResponse(v, maxPayload, ResponseFrame(m, tag)) == Message(ResponseHeader(m, tag), m, [])
  {
    hide ParseHeader;
    hide ResponseSlot;
    hide ResponseCode;
    hide TypeOfResponse;
    hide ResponseKinds;
    hide AssembleResponse;
    hide Decode;
    hide ResponsePayload;
    hide SupportsResponse;
    hide ParseResponsePayload;
    var p, t := ResponsePayload(m), TypeOfResponse(m);
    var h := ResponseHeader(m, tag);
    FrameDispatched(ResponseCode(t), tag, p, maxPayload);
    ResponseSlotExact(v, h.typ, t);
    if ResponseSlot(v, h.typ) == Some(t) {
      ResponsePayloadParses(v, m, h, []);
      assert p + [] == p;
    } else if ParseResponsePayload(v, h, p).Message? {
      ResponsePayloadCanonical(v, h, p);
    }
  }

  /**
   Canonical form: whenever a frame parses, it is the header, the encoding of
   the message and the unread bytes; the version has the message.
   */
  lemma RequestCanonical(v: Version, maxPayload: u32, bs: seq<byte>)
    requires ParseRequest(v, maxPayload, bs).Message?
    ensures var Message(h, m, unread) := ParseRequest(v, maxPayload, bs);
            && bs == HeaderBytes(h) + RequestPayload(m) + unread
            && h.typ == RequestCode(TypeOfRequest(m))
            && Supports(v, TypeOfRequest(m))
  {
    hide ParseHeader;
    hide Validate;
    hide ParseRequestPayload;
    hide RequestPayload;
    hide RequestCode;
    hide RequestSlot;
    hide TypeOfRequest;
    hide Supports;
    HeaderCanonical(bs);
    var hr := ParseHeader(bs).value;
    RequestPayloadCanonical(v, hr.header, hr.rest);
    var m := ParseRequestPayload(v, hr.header, hr.rest).value;
    RequestSlotExact(v, hr.header.typ, TypeOfRequest(m));
  }

  lemma ResponseCanonical(v: Version, maxPayload: u32, bs: seq<byte>)
    requires ParseResponse(v, maxPayload, bs).Message?
    ensures var Message(h, m, unread) := ParseResponse(v, maxPayload, bs);
            && bs == HeaderBytes(h) + ResponsePayload(m) + unread
            && h.typ == ResponseCode(TypeOfResponse(m))
            && SupportsResponse(v, TypeOfResponse(m))
  {
    hide ParseHeader;
    hide Validate;
    hide ParseResponsePayload;
    hide ResponsePayload;
    hide ResponseCode;
    hide ResponseSlot;
    hide TypeOfResponse;
    hide SupportsResponse;
    HeaderCanonical(bs);
    var hr := ParseHeader(bs).value;
    ResponsePayloadCanonical(v, hr.header, hr.rest);
    var m := ParseResponsePayload(v, hr.header, hr.rest).value;
    ResponseSlotExact(v, hr.header.typ, TypeOfResponse(m));
  }

  // ------------------------------------------------------------------------
  // Before a version is agreed
  // ------------------------------------------------------------------------

  const TVERSION: u8 := 100

  /** `parseVersionRequest`: its limit is that of the whole message, not of the payload. */
  function ParseVersionRequest(h: Header, data: seq<byte>, maxMessage: u32): Parsed<BaseRequest> {
    match Validate(h, |data|, maxMessage)
    case Some(e) => Failed(e)
    case None =>
      if h.typ != TVERSION then Failed(UnsupportedMessageType)
      else
        match Decode([U32, Str], data)
        case Ok(vs, rest) => Message(h, TVersion(Num32(vs, 0), TextAt(vs, 1)), rest)
        case OutOfData(i) => Failed(PayloadRead(i))
        case Undefined => Unmodelled
  }

  /** `parseMessageHeader`, then `parseVersionRequest`. */
  function ParseFirstFrame(maxMessage: u32, bs: seq<byte>): Parsed<BaseRequest> {
    match ParseHeader(bs)
    case Failure(e) => Failed(e)
    case Success(hr) => ParseVersionRequest(hr.header, hr.rest, maxMessage)
  }

  function AsRequest(r: Parsed<BaseRequest>): Parsed<Request> {
    match r
    case Message(h, m, unread) => Message(h, Base(m), unread)
    case Failed(e) => Failed(e)
    case Unmodelled => Unmodelled
  }

  /**
   The parser of the first request agrees with the parser of every version on
   Tversion frames and on frames that are not dispatched, and refuses the rest.
   */
  lemma FirstFrameAgrees(v: Version, maxPayload: u32, bs: seq<byte>)
    requires HEADER_SIZE + maxPayload < TWO_32
    ensures AsRequest(ParseFirstFrame(HEADER_SIZE + maxPayload, bs))
         == if Dispatched(maxPayload, bs) && ParseHeader(bs).value.header.typ != TVERSION
            then Failed(UnsupportedMessageType)
            else ParseRequest(v, maxPayload, bs)
  {
    hide ParseHeader;
    hide Decode;
    hide Validate;
    VersionIsUniversal(v);
  }

  lemma VersionIsUniversal(v: Version)
    ensures RequestSlot(v, TVERSION) == Some(BaseReq(ReqVersion)) && RequestKinds(BaseReq(ReqVersion)) == [U32, Str]
    ensures Supports(v, BaseReq(ReqVersion))
  {
  }

  /** A version request is received with nothing left over exactly from its own frame, if the limit admits that. */
  lemma FirstFrameExact(maxMessage: u32, bs: seq<byte>, tag: u16, msize: u32, version: Text)
    ensures var m := TVersion(msize, version);
            HEADER_SIZE + |RequestPayload(Base(m))| < TWO_32
            && (ParseFirstFrame(maxMessage, bs) == Message(RequestHeader(Base(m), tag), m, [])
                <==> bs == RequestFrame(Base(m), tag) && |bs| <= maxMessage)
  {
    hide ParseHeader;
    hide ParseRequest;
    hide RequestPayload;
    hide Supports;
    hide Decode;
    var r := Base(TVersion(msize, version));
    VersionPayloadSize(msize, version);
    VersionIsUniversal(V9P2000);
    if ParseFirstFrame(maxMessage, bs).Message? {
      FirstFrameWithin(maxMessage, bs);
      FirstFrameAgrees(V9P2000, maxMessage - HEADER_SIZE, bs);
      RequestCanonical(V9P2000, maxMessage - HEADER_SIZE, bs);
      if ParseFirstFrame(maxMessage, bs) == Message(RequestHeader(r, tag), r.base, []) {
        assert bs == HeaderBytes(RequestHeader(r, tag)) + RequestPayload(r) + [];
      }
    }
    if bs == RequestFrame(r, tag) && |bs| <= maxMessage {
      RequestRoundTrip(V9P2000, r, tag, maxMessage - HEADER_SIZE);
      FirstFrameAgrees(V9P2000, maxMessage - HEADER_SIZE, bs);
      FrameDispatched(RequestCode(TypeOfRequest(r)), tag, RequestPayload(r), maxMessage - HEADER_SIZE);
    }
  }

  lemma FirstFrameWithin(maxMessage: u32, bs: seq<byte>)
    requires ParseFirstFrame(maxMessage, bs).Message?
    ensures HEADER_SIZE <= |bs| <= maxMessage
  {
    hide ParseHeader;
    hide Decode;
    DeclaredSizeIsHeaderSize(bs);
    HeaderParses(bs);
  }

  lemma VersionPayloadSize(msize: u32, version: Text)
    ensures |RequestPayload(Base(TVersion(msize, version)))| == 6 + |version|
  {
    hide LE;
    var vs := [V32(msize), VText(version)];
    assert vs[1..] == [VText(version)] && vs[1..][1..] == [];
    assert |Encode(vs[1..])| == 2 + |version|;
  }

  /** Two requests of one type share no encoding, and neither encoding is a prefix of the other. */
  lemma RequestsPrefixFree(m: Request, n: Request, rest: seq<byte>)
    requires TypeOfRequest(m) == TypeOfRequest(n)
    requires RequestPayload(n) == RequestPayload(m) + rest
    ensures m == n && rest == []
  {
    hide RequestFields;
    hide RequestKinds;
    hide AssembleRequest;
    hide TypeOfRequest;
    hide Encode;
    RequestOrderAgrees(m);
    RequestOrderAgrees(n);
    PrefixFree(RequestKinds(TypeOfRequest(m)), RequestFields(m), RequestFields(n), rest);
  }

  lemma ResponsesPrefixFree(m: Response, n: Response, rest: seq<byte>)
    requires TypeOfResponse(m) == TypeOfResponse(n)
    requires ResponsePayload(n) == ResponsePayload(m) + rest
    ensures m == n && rest == []
  {
    hide ResponseFields;
    hide ResponseKinds;
    hide AssembleResponse;
    hide TypeOfResponse;
    hide Encode;
    ResponseOrderAgrees(m);
    ResponseOrderAgrees(n);
    PrefixFree(ResponseKinds(TypeOfResponse(m)), ResponseFields(m), ResponseFields(n), rest);
  }

  /** A request payload cut short is refused at the first field that is not whole, unless a path is cut behind its count. */
  lemma RequestTruncated(v: Version, m: Request, h: Header, n: nat)
    requires RequestSlot(v, h.typ) == Some(TypeOfRequest(m)) && n < |RequestPayload(m)|
    ensures ParseRequestPayload(v, h, RequestPayload(m)[..n])
         == if CutInsidePath(RequestFields(m), n) then Unmodelled
            else Failed(PayloadRead(FirstUncovered(RequestFields(m), n)))
  {
    hide RequestFields;
    hide RequestKinds;
    hide AssembleRequest;
    hide TypeOfRequest;
    hide RequestSlot;
    hide Encode;
    hide Decode;
    hide CutInsidePath;
    RequestOrderAgrees(m);
    Truncated(RequestKinds(TypeOfRequest(m)), RequestFields(m), n);
  }

  lemma ResponseTruncated(v: Version, m: Response, h: Header, n: nat)
    requires ResponseSlot(v, h.typ) == Some(TypeOfResponse(m))
    requires n < |ResponsePayload(m)|
    ensures ParseResponsePayload(v, h, ResponsePayload(m)[..n]) == Failed(PayloadRead(FirstUncovered(ResponseFields(m), n)))
  {
    hide ResponseFields;
    hide AssembleResponse;
    hide TypeOfResponse;
    hide ResponseSlot;
    hide Encode;
    hide Decode;
    hide ResponseKinds;
    ResponseOrderAgrees(m);
    NoPathInResponses(TypeOfResponse(m));
    Truncated(ResponseKinds(TypeOfResponse(m)), ResponseFields(m), n);
    var i := FirstUncovered(ResponseFields(m), n);
    assert ResponseKinds(TypeOfResponse(m))[i] in ResponseKinds(TypeOfResponse(m));
  }

  lemma NoPathInResponses(t: ResponseType)
    ensures Segments !in ResponseKinds(t)
  {
  }
}
