/**
 9P2000.u extends six base messages. Each extended payload is the base payload
 followed by further bytes, under the same code.
 */
module Extensions {
  import opened Bytes
  import opened Fields
  import opened Messages
  import opened Orders
  import opened Tables
  import opened Framing

  /** The base message inside an extended one. */
  function BaseOf(u: UnixRequest): BaseRequest {
    match u
    case TAuthU(afid, uname, aname, _) => TAuth(afid, uname, aname)
    case TAttachU(fid, afid, uname, aname, _) => TAttach(fid, afid, uname, aname)
    case TCreateU(fid, name, perm, mode, _) => TCreate(fid, name, perm, mode)
    case TWStatU(fid, statEx) => TWStat(fid, statEx.base)
  }

  function Extension(u: UnixRequest): seq<Value> {
    match u
    case TAuthU(_, _, _, nUname) => [V32(nUname)]
    case TAttachU(_, _, _, _, nUname) => [V32(nUname)]
    case TCreateU(_, _, _, _, extension) => [VText(extension)]
    case TWStatU(_, statEx) => StatExtension(statEx)
  }

  function BaseResponseOf(u: UnixResponse): BaseResponse {
    match u
    case RErrorU(ename, _) => RError(ename)
    case RStatU(dummySize, statEx) => RStat(dummySize, statEx.base)
  }

  function ResponseExtension(u: UnixResponse): seq<Value> {
    match u
    case RErrorU(_, errcode) => [V32(errcode)]
    case RStatU(_, statEx) => StatExtension(statEx)
  }

  function StatExtension(s: StatEx): seq<Value> {
    [VText(s.extension), V32(s.nUid), V32(s.nGid), V32(s.nMuid)]
  }

  /** What a .u decoder reads after the base message. */
  function ExtensionKinds(t: UnixRequestType): (ks: seq<Kind>)
    ensures ks != [] && Segments !in ks
  {
    match t
    case ReqAuthU => [U32]
    case ReqAttachU => [U32]
    case ReqCreateU => [Str]
    case ReqWStatU => [Str, U32, U32, U32]
  }

  function ResponseExtensionKinds(t: UnixResponseType): (ks: seq<Kind>)
    ensures ks != [] && Segments !in ks
  {
    match t
    case RspErrorU => [U32]
    case RspStatU => [Str, U32, U32, U32]
  }

  /** The extended message type that takes the place of a base one. */
  function Replacement(b: BaseRequestType): UnixRequestType
    requires Extended(b)
  {
    match b
    case ReqAuth => ReqAuthU
    case ReqAttach => ReqAttachU
    case ReqCreate => ReqCreateU
    case ReqWStat => ReqWStatU
  }

  function ResponseReplacement(b: BaseResponseType): UnixResponseType
    requires ExtendedResponse(b)
  {
    match b
    case RspError => RspErrorU
    case RspStat => RspStatU
  }

  lemma ExtendedFields(u: UnixRequest)
    ensures UnixRequestFields(u) == BaseRequestFields(BaseOf(u)) + Extension(u)
    ensures UnixRequestCode(TypeOfUnixRequest(u)) == BaseRequestCode(TypeOfBaseRequest(BaseOf(u)))
  {
    hide StatFields;
  }

  lemma ExtendedResponseFields(u: UnixResponse)
    ensures UnixResponseFields(u) == BaseResponseFields(BaseResponseOf(u)) + ResponseExtension(u)
    ensures UnixResponseCode(TypeOfUnixResponse(u)) == BaseResponseCode(TypeOfBaseResponse(BaseResponseOf(u)))
  {
    hide StatFields;
  }

  lemma ExtendedKinds(b: BaseRequestType)
    requires Extended(b)
    ensures UnixRequestKinds(Replacement(b)) == BaseRequestKinds(b) + ExtensionKinds(Replacement(b))
    ensures UnixRequestCode(Replacement(b)) == BaseRequestCode(b)
  {
    hide StatKinds;
  }

  lemma ExtendedResponseKinds(b: BaseResponseType)
    requires ExtendedResponse(b)
    ensures UnixResponseKinds(ResponseReplacement(b))
         == BaseResponseKinds(b) + ResponseExtensionKinds(ResponseReplacement(b))
    ensures UnixResponseCode(ResponseReplacement(b)) == BaseResponseCode(b)
  {
    hide StatKinds;
  }

  /** A parser that does not know 9P2000.u reads the base message and leaves the extension bytes unread. */
  lemma BaseParserReadsExtendedRequest(v: Version, u: UnixRequest, tag: u16, maxPayload: u32)
    requires v.V9P2000? || v.V9P2000e?
    requires |RequestPayload(Unix(u))| <= maxPayload && HEADER_SIZE + maxPayload < TWO_32
    ensures RequestPayload(Unix(u)) == RequestPayload(Base(BaseOf(u))) + Encode(Extension(u))
    ensures ParseRequest(v, maxPayload, RequestFrame(Unix(u), tag))
         == Message(RequestHeader(Unix(u), tag), Base(BaseOf(u)), Encode(Extension(u)))
  {
    hide ParseHeader;
    hide ParseRequestPayload;
    hide BaseRequestFields;
    hide UnixRequestFields;
    hide UnixRequestCode;
    hide BaseRequestCode;
    hide Extension;
    hide BaseOf;
    hide RequestSlot;
    hide TypeOfBaseRequest;
    hide TypeOfUnixRequest;
    hide Encode;
    ExtendedFields(u);
    EncodeAppend(BaseRequestFields(BaseOf(u)), Extension(u));
    var h := RequestHeader(Unix(u), tag);
    FrameDispatched(h.typ, tag, RequestPayload(Unix(u)), maxPayload);
    RequestSlotExact(v, h.typ, TypeOfRequest(Base(BaseOf(u))));
    RequestPayloadParses(v, Base(BaseOf(u)), h, Encode(Extension(u)));
  }

  lemma BaseParserReadsExtendedResponse(v: Version, u: UnixResponse, tag: u16, maxPayload: u32)
    requires v.V9P2000? || v.V9P2000e?
    requires |ResponsePayload(UnixR(u))| <= maxPayload && HEADER_SIZE + maxPayload < TWO_32
    ensures ResponsePayload(UnixR(u)) == ResponsePayload(BaseR(BaseResponseOf(u))) + Encode(ResponseExtension(u))
    ensures ParseResponse(v, maxPayload, ResponseFrame(UnixR(u), tag))
         == Message(ResponseHeader(UnixR(u), tag), BaseR(BaseResponseOf(u)), Encode(ResponseExtension(u)))
  {
    hide ParseHeader;
    hide ParseResponsePayload;
    hide BaseResponseFields;
    hide UnixResponseFields;
    hide UnixResponseCode;
    hide BaseResponseCode;
    hide ResponseExtension;
    hide BaseResponseOf;
    hide ResponseSlot;
    hide TypeOfBaseResponse;
    hide TypeOfUnixResponse;
    hide Encode;
    ExtendedResponseFields(u);
    EncodeAppend(BaseResponseFields(BaseResponseOf(u)), ResponseExtension(u));
    var h := ResponseHeader(UnixR(u), tag);
    FrameDispatched(h.typ, tag, ResponsePayload(UnixR(u)), maxPayload);
    ResponseSlotExact(v, h.typ, TypeOfResponse(BaseR(BaseResponseOf(u))));
    ResponsePayloadParses(v, BaseR(BaseResponseOf(u)), h, Encode(ResponseExtension(u)));
  }

  lemma NothingDecodesToSome(ks: seq<Kind>)
    requires ks != [] && Segments !in ks
    ensures Decode(ks, []) == OutOfData(0)
  {
    assert ks[0] in ks;
  }

  lemma MissingExtension(ks: seq<Kind>, vs: seq<Value>, ext: seq<Kind>)
    requires Typed(ks, vs) && ext != [] && Segments !in ext
    ensures Decode(ks + ext, Encode(vs)) == OutOfData(|ks|)
  {
    hide DecodeOne;
    hide EncodeOne;
    DecodeAppend(ks, ext, Encode(vs));
    RoundTrip(ks, vs, []);
    assert Encode(vs) + [] == Encode(vs);
    NothingDecodesToSome(ext);
  }

  /** A .u or .L parser refuses every base frame whose message 9P2000.u extends, at the missing field. */
  lemma ExtendedParserRejectsBaseRequest(v: Version, b: BaseRequest, tag: u16, maxPayload: u32)
    requires v.V9P2000u? || v.V9P2000L?
    requires Extended(TypeOfBaseRequest(b))
    requires |RequestPayload(Base(b))| <= maxPayload && HEADER_SIZE + maxPayload < TWO_32
    ensures ParseRequest(v, maxPayload, RequestFrame(Base(b), tag)) == Failed(PayloadRead(|BaseRequestFields(b)|))
  {
    hide ParseHeader;
    hide BaseRequestFields;
    hide BaseRequestKinds;
    hide UnixRequestKinds;
    hide BaseRequestCode;
    hide UnixRequestCode;
    hide RequestSlot;
    hide TypeOfBaseRequest;
    hide Replacement;
    hide ExtensionKinds;
    hide Decode;
    hide Encode;
    var t := TypeOfBaseRequest(b);
    var h := RequestHeader(Base(b), tag);
    FrameDispatched(h.typ, tag, RequestPayload(Base(b)), maxPayload);
    ExtendedKinds(t);
    RequestSlotExact(v, h.typ, UnixReq(Replacement(t)));
    RequestOrderAgrees(Base(b));
    MissingExtension(BaseRequestKinds(t), BaseRequestFields(b), ExtensionKinds(Replacement(t)));
  }

  lemma ExtendedParserRejectsBaseResponse(v: Version, b: BaseResponse, tag: u16, maxPayload: u32)
    requires v.V9P2000u? || v.V9P2000L?
    requires ExtendedResponse(TypeOfBaseResponse(b))
    requires |ResponsePayload(BaseR(b))| <= maxPayload && HEADER_SIZE + maxPayload < TWO_32
    ensures ParseResponse(v, maxPayload, ResponseFrame(BaseR(b), tag)) == Failed(PayloadRead(|BaseResponseFields(b)|))
  {
    hide ParseHeader;
    hide BaseResponseFields;
    hide BaseResponseKinds;
    hide UnixResponseKinds;
    hide BaseResponseCode;
    hide UnixResponseCode;
    hide ResponseSlot;
    hide TypeOfBaseResponse;
    hide ResponseReplacement;
    hide ResponseExtensionKinds;
    hide Decode;
    hide Encode;
    var t := TypeOfBaseResponse(b);
    var h := ResponseHeader(BaseR(b), tag);
    FrameDispatched(h.typ, tag, ResponsePayload(BaseR(b)), maxPayload);
    ExtendedResponseKinds(t);
    ResponseSlotExact(v, h.typ, UnixRsp(ResponseReplacement(t)));
    ResponseOrderAgrees(BaseR(b));
    MissingExtension(BaseResponseKinds(t), BaseResponseFields(b), ResponseExtensionKinds(ResponseReplacement(t)));
  }
}
