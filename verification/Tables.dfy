/**
 The parse tables: which decoder each protocol version runs for a message code.
 */
module Tables {
  import opened Bytes
  import opened Messages

  datatype Version = V9P2000 | V9P2000u | V9P2000e | V9P2000L

  function BaseRequestSlot(c: u8): Option<RequestType> {
    match c
    case 100 => Some(BaseReq(ReqVersion))
    case 102 => Some(BaseReq(ReqAuth))
    case 108 => Some(BaseReq(ReqFlush))
    case 104 => Some(BaseReq(ReqAttach))
    case 110 => Some(BaseReq(ReqWalk))
    case 112 => Some(BaseReq(ReqOpen))
    case 114 => Some(BaseReq(ReqCreate))
    case 116 => Some(BaseReq(ReqRead))
    case 118 => Some(BaseReq(ReqWrite))
    case 120 => Some(BaseReq(ReqClunk))
    case 122 => Some(BaseReq(ReqRemove))
    case 124 => Some(BaseReq(ReqStat))
    case 126 => Some(BaseReq(ReqWStat))
    case _ => None
  }

  function UnixRequestSlot(c: u8): Option<RequestType> {
    match c
    case 102 => Some(UnixReq(ReqAuthU))
    case 104 => Some(UnixReq(ReqAttachU))
    case 114 => Some(UnixReq(ReqCreateU))
    case 126 => Some(UnixReq(ReqWStatU))
    case _ => BaseRequestSlot(c)
  }

  function ErlangRequestSlot(c: u8): Option<RequestType> {
    match c
    case 150 => Some(ErlangReq(ReqSession))
    case 152 => Some(ErlangReq(ReqShortRead))
    case 154 => Some(ErlangReq(ReqShortWrite))
    case _ => BaseRequestSlot(c)
  }

  function LinuxRequestSlot(c: u8): Option<RequestType> {
    match c
    case 8 => Some(LinuxReq(ReqStatFS))
    case 12 => Some(LinuxReq(ReqLOpen))
    case 14 => Some(LinuxReq(ReqLCreate))
    case 16 => Some(LinuxReq(ReqSymlink))
    case 18 => Some(LinuxReq(ReqMkNode))
    case 20 => Some(LinuxReq(ReqRename))
    case 22 => Some(LinuxReq(ReqReadLink))
    case 24 => Some(LinuxReq(ReqGetAttr))
    case 26 => Some(LinuxReq(ReqSetAttr))
    case 30 => Some(LinuxReq(ReqXAttrWalk))
    case 32 => Some(LinuxReq(ReqXAttrCreate))
    case 40 => Some(LinuxReq(ReqReadDir))
    case 50 => Some(LinuxReq(ReqFSync))
    case 52 => Some(LinuxReq(ReqLock))
    case 54 => Some(LinuxReq(ReqGetLock))
    case 60 => Some(LinuxReq(ReqLink))
    case 72 => Some(LinuxReq(ReqMkDir))
    case 74 => Some(LinuxReq(ReqRenameAt))
    case 76 => Some(LinuxReq(ReqUnlinkAt))
    case _ => UnixRequestSlot(c)
  }

  function BaseResponseSlot(c: u8): Option<ResponseType> {
    match c
    case 101 => Some(BaseRsp(RspVersion))
    case 103 => Some(BaseRsp(RspAuth))
    case 105 => Some(BaseRsp(RspAttach))
    case 107 => Some(BaseRsp(RspError))
    case 109 => Some(BaseRsp(RspFlush))
    case 111 => Some(BaseRsp(RspWalk))
    case 113 => Some(BaseRsp(RspOpen))
    case 115 => Some(BaseRsp(RspCreate))
    case 117 => Some(BaseRsp(RspRead))
    case 119 => Some(BaseRsp(RspWrite))
    case 121 => Some(BaseRsp(RspClunk))
    case 123 => Some(BaseRsp(RspRemove))
    case 125 => Some(BaseRsp(RspStat))
    case 127 => Some(BaseRsp(RspWStat))
    case _ => None
  }

  function UnixResponseSlot(c: u8): Option<ResponseType> {
    match c
    case 107 => Some(UnixRsp(RspErrorU))
    case 125 => Some(UnixRsp(RspStatU))
    case _ => BaseResponseSlot(c)
  }

  function ErlangResponseSlot(c: u8): Option<ResponseType> {
    match c
    case 151 => Some(ErlangRsp(RspSession))
    case 153 => Some(ErlangRsp(RspShortRead))
    case 155 => Some(ErlangRsp(RspShortWrite))
    case _ => BaseResponseSlot(c)
  }

  function LinuxResponseSlot(c: u8): Option<ResponseType> {
    match c
    case 7 => Some(LinuxRsp(RspLError))
    case 9 => Some(LinuxRsp(RspStatFS))
    case 13 => Some(LinuxRsp(RspLOpen))
    case 15 => Some(LinuxRsp(RspLCreate))
    case 17 => Some(LinuxRsp(RspSymlink))
    case 19 => Some(LinuxRsp(RspMkNode))
    case 21 => Some(LinuxRsp(RspRename))
    case 23 => Some(LinuxRsp(RspReadLink))
    case 25 => Some(LinuxRsp(RspGetAttr))
    case 27 => Some(LinuxRsp(RspSetAttr))
    case 31 => Some(LinuxRsp(RspXAttrWalk))
    case 33 => Some(LinuxRsp(RspXAttrCreate))
    case 41 => Some(LinuxRsp(RspReadDir))
    case 51 => Some(LinuxRsp(RspFSync))
    case 53 => Some(LinuxRsp(RspLock))
    case 55 => Some(LinuxRsp(RspGetLock))
    case 61 => Some(LinuxRsp(RspLink))
    case 73 => Some(LinuxRsp(RspMkDir))
    case 75 => Some(LinuxRsp(RspRenameAt))
    case 77 => Some(LinuxRsp(RspUnlinkAt))
    case _ => UnixResponseSlot(c)
  }

  function RequestSlot(v: Version, c: u8): Option<RequestType> {
    match v
    case V9P2000 => BaseRequestSlot(c)
    case V9P2000u => UnixRequestSlot(c)
    case V9P2000e => ErlangRequestSlot(c)
    case V9P2000L => LinuxRequestSlot(c)
  }

  function ResponseSlot(v: Version, c: u8): Option<ResponseType> {
    match v
    case V9P2000 => BaseResponseSlot(c)
    case V9P2000u => UnixResponseSlot(c)
    case V9P2000e => ErlangResponseSlot(c)
    case V9P2000L => LinuxResponseSlot(c)
  }

  // ------------------------------------------------------------------------
  // Which messages a version has
  // ------------------------------------------------------------------------

  /** The base requests that 9P2000.u replaces by extended ones. */
  predicate Extended(b: BaseRequestType) {
    b.ReqAuth? || b.ReqAttach? || b.ReqCreate? || b.ReqWStat?
  }

  predicate ExtendedResponse(b: BaseResponseType) {
    b.RspError? || b.RspStat?
  }

  predicate Supports(v: Version, t: RequestType) {
    match t
    case BaseReq(b) => (v.V9P2000u? || v.V9P2000L?) ==> !Extended(b)
    case UnixReq(_) => v.V9P2000u? || v.V9P2000L?
    case ErlangReq(_) => v.V9P2000e?
    case LinuxReq(_) => v.V9P2000L?
  }

  predicate SupportsResponse(v: Version, t: ResponseType) {
    match t
    case BaseRsp(b) => (v.V9P2000u? || v.V9P2000L?) ==> !ExtendedResponse(b)
    case UnixRsp(_) => v.V9P2000u? || v.V9P2000L?
    case ErlangRsp(_) => v.V9P2000e?
    case LinuxRsp(_) => v.V9P2000L?
  }

  lemma RequestSlotSound(v: Version, c: u8)
    requires RequestSlot(v, c).Some?
    ensures Supports(v, RequestSlot(v, c).value) && RequestCode(RequestSlot(v, c).value) == c
  {
  }

  lemma RequestSlotTotal(v: Version, t: RequestType)
    requires Supports(v, t)
    ensures RequestSlot(v, RequestCode(t)) == Some(t)
  {
  }

  lemma ResponseSlotSound(v: Version, c: u8)
    requires ResponseSlot(v, c).Some?
    ensures SupportsResponse(v, ResponseSlot(v, c).value) && ResponseCode(ResponseSlot(v, c).value) == c
  {
  }

  lemma ResponseSlotTotal(v: Version, t: ResponseType)
    requires SupportsResponse(v, t)
    ensures ResponseSlot(v, ResponseCode(t)) == Some(t)
  {
  }

  /** A version dispatches a code to exactly the message it has for that code, if any. */
  lemma RequestSlotExact(v: Version, c: u8, t: RequestType)
    ensures RequestSlot(v, c) == Some(t) <==> Supports(v, t) && RequestCode(t) == c
  {
    hide RequestSlot;
    hide RequestCode;
    if RequestSlot(v, c) == Some(t) {
      RequestSlotSound(v, c);
    }
    if Supports(v, t) {
      RequestSlotTotal(v, t);
    }
  }

  lemma ResponseSlotExact(v: Version, c: u8, t: ResponseType)
    ensures ResponseSlot(v, c) == Some(t) <==> SupportsResponse(v, t) && ResponseCode(t) == c
  {
    hide ResponseSlot;
    hide ResponseCode;
    if ResponseSlot(v, c) == Some(t) {
      ResponseSlotSound(v, c);
    }
    if SupportsResponse(v, t) {
      ResponseSlotTotal(v, t);
    }
  }

  /** The codes at which the 9P2000.u tables, and so those of 9P2000.L, differ from the base tables. */
  predicate Replaced(c: u8) {
    c == 102 || c == 104 || c == 114 || c == 126 || c == 107 || c == 125
  }

  /** A base message code lies in 100..127; the other versions change only what they say they add. */
  lemma VersionsConservative(c: u8)
    ensures !(150 <= c <= 155) ==>
              RequestSlot(V9P2000e, c) == RequestSlot(V9P2000, c) && ResponseSlot(V9P2000e, c) == ResponseSlot(V9P2000, c)
    ensures !Replaced(c) ==>
              RequestSlot(V9P2000u, c) == RequestSlot(V9P2000, c) && ResponseSlot(V9P2000u, c) == ResponseSlot(V9P2000, c)
    ensures 100 <= c <= 127 && !Replaced(c) ==>
              RequestSlot(V9P2000L, c) == RequestSlot(V9P2000, c) && ResponseSlot(V9P2000L, c) == ResponseSlot(V9P2000, c)
    ensures 100 <= c <= 127 ==>
              RequestSlot(V9P2000L, c) == RequestSlot(V9P2000u, c) && ResponseSlot(V9P2000L, c) == ResponseSlot(V9P2000u, c)
  {
  }

  // ------------------------------------------------------------------------
  // The numbers of the tables
  // ------------------------------------------------------------------------

  /** The request numbers that each version dispatches; every other number is unsupported. */
  lemma RequestNumbers(c: u8)
    ensures RequestSlot(V9P2000, c).Some? <==> c in {100, 102, 104, 108, 110, 112, 114, 116, 118, 120, 122, 124, 126}
    ensures RequestSlot(V9P2000u, c).Some? <==> RequestSlot(V9P2000, c).Some?
    ensures RequestSlot(V9P2000e, c).Some? <==> RequestSlot(V9P2000, c).Some? || c in {150, 152, 154}
    ensures RequestSlot(V9P2000L, c).Some? <==>
              RequestSlot(V9P2000, c).Some?
              || c in {8, 12, 14, 16, 18, 20, 22, 24, 26, 30, 32, 40, 50, 52, 54, 60, 72, 74, 76}
  {
  }

  lemma ResponseNumbers(c: u8)
    ensures ResponseSlot(V9P2000, c).Some? <==>
              c in {101, 103, 105, 107, 109, 111, 113, 115, 117, 119, 121, 123, 125, 127}
    ensures ResponseSlot(V9P2000u, c).Some? <==> ResponseSlot(V9P2000, c).Some?
    ensures ResponseSlot(V9P2000e, c).Some? <==> ResponseSlot(V9P2000, c).Some? || c in {151, 153, 155}
    ensures ResponseSlot(V9P2000L, c).Some? <==>
              ResponseSlot(V9P2000, c).Some?
              || c in {7, 9, 13, 15, 17, 19, 21, 23, 25, 27, 31, 33, 41, 51, 53, 55, 61, 73, 75, 77}
  {
  }

  function ReplyToBase(v: Version, t: BaseRequestType): ResponseType {
    match t
    case ReqVersion => BaseRsp(RspVersion)
    case ReqAuth => BaseRsp(RspAuth)
    case ReqFlush => BaseRsp(RspFlush)
    case ReqAttach => BaseRsp(RspAttach)
    case ReqWalk => BaseRsp(RspWalk)
    case ReqOpen => BaseRsp(RspOpen)
    case ReqCreate => BaseRsp(RspCreate)
    case ReqRead => BaseRsp(RspRead)
    case ReqWrite => BaseRsp(RspWrite)
    case ReqClunk => BaseRsp(RspClunk)
    case ReqRemove => BaseRsp(RspRemove)
    case ReqStat => if v.V9P2000u? || v.V9P2000L? then UnixRsp(RspStatU) else BaseRsp(RspStat)
    case ReqWStat => BaseRsp(RspWStat)
  }

  function ReplyToLinux(t: LinuxRequestType): LinuxResponseType {
    match t
    case ReqStatFS => RspStatFS
    case ReqLOpen => RspLOpen
    case ReqLCreate => RspLCreate
    case ReqSymlink => RspSymlink
    case ReqMkNode => RspMkNode
    case ReqRename => RspRename
    case ReqReadLink => RspReadLink
    case ReqGetAttr => RspGetAttr
    case ReqSetAttr => RspSetAttr
    case ReqXAttrWalk => RspXAttrWalk
    case ReqXAttrCreate => RspXAttrCreate
    case ReqReadDir => RspReadDir
    case ReqFSync => RspFSync
    case ReqLock => RspLock
    case ReqGetLock => RspGetLock
    case ReqLink => RspLink
    case ReqMkDir => RspMkDir
    case ReqRenameAt => RspRenameAt
    case ReqUnlinkAt => RspUnlinkAt
  }

  /** The response of the same name: what answers a request that succeeded. */
  function ReplyTo(v: Version, t: RequestType): ResponseType {
    match t
    case BaseReq(b) => ReplyToBase(v, b)
    case UnixReq(ReqAuthU) => BaseRsp(RspAuth)
    case UnixReq(ReqAttachU) => BaseRsp(RspAttach)
    case UnixReq(ReqCreateU) => BaseRsp(RspCreate)
    case UnixReq(ReqWStatU) => BaseRsp(RspWStat)
    case ErlangReq(ReqSession) => ErlangRsp(RspSession)
    case ErlangReq(ReqShortRead) => ErlangRsp(RspShortRead)
    case ErlangReq(ReqShortWrite) => ErlangRsp(RspShortWrite)
    case LinuxReq(l) => LinuxRsp(ReplyToLinux(l))
  }

  /** In every version, the number behind that of a request is that of the response of the same name. */
  lemma ReplyIsNext(v: Version, c: u8, t: RequestType)
    requires RequestSlot(v, c) == Some(t)
    ensures c < 255 && ResponseSlot(v, c + 1) == Some(ReplyTo(v, t))
  {
    hide ResponseSlot;
    hide RequestSlot;
    RequestSlotExact(v, c, t);
    ReplyCode(v, t);
    ResponseSlotExact(v, c + 1, ReplyTo(v, t));
  }

  lemma ReplyCode(v: Version, t: RequestType)
    requires Supports(v, t)
    ensures SupportsResponse(v, ReplyTo(v, t)) && ResponseCode(ReplyTo(v, t)) == RequestCode(t) + 1
  {
  }

  /** Every response but the errors, 107 and in 9P2000.L 7, answers some request. */
  lemma ResponseHasRequest(v: Version, c: u8)
    requires ResponseSlot(v, c).Some?
    ensures c == 107 || (c == 7 && v.V9P2000L?) || RequestSlot(v, c - 1).Some?
  {
    hide RequestSlot;
    hide ResponseSlot;
    ResponseNumbers(c);
    assert c > 0;
    RequestNumbers(c - 1);
  }
}
