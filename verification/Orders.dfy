/** The writing order and the reading order of every message agree. */
module Orders {
  import opened Bytes
  import opened Fields
  import opened Messages

  lemma TypedAppend(ks: seq<Kind>, vs: seq<Value>, ls: seq<Kind>, ws: seq<Value>)
    requires Typed(ks, vs) && Typed(ls, ws)
    ensures Typed(ks + ls, vs + ws)
  {
  }

  /** A qid in a message and a qid in the array of a walk response are encoded alike. */
  lemma QidOneEncoding(q: Qid)
    ensures Encode(QidFields(q)) == EncodeQid(q)
  {
    hide LE;
    Encode3(V8(q.typ), V32(q.version), V64(q.path));
  }

  lemma StatTyped(s: Stat)
    ensures Typed(StatKinds(), StatFields(s))
  {
  }

  lemma StatOrderAgrees(pre: seq<Value>, s: Stat, post: seq<Value>)
    ensures Typed(StatKinds(), StatFields(s))
    ensures StatAt(pre + StatFields(s) + post, |pre|) == s
  {
    hide Typed;
    hide StatKinds;
    StatTyped(s);
    var vs := pre + StatFields(s) + post;
    assert forall i | 0 <= i < 14 :: vs[|pre| + i] == StatFields(s)[i];
  }

  lemma StatExOrderAgrees(pre: seq<Value>, s: StatEx, post: seq<Value>)
    ensures Typed(StatExKinds(), StatExFields(s))
    ensures StatExAt(pre + StatExFields(s) + post, |pre|) == s
  {
    hide StatFields;
    hide StatAt;
    hide StatKinds;
    var ext := [VText(s.extension), V32(s.nUid), V32(s.nGid), V32(s.nMuid)];
    StatOrderAgrees(pre, s.base, ext + post);
    TypedAppend(StatKinds(), StatFields(s.base), [Str, U32, U32, U32], ext);
    assert pre + StatExFields(s) + post == pre + StatFields(s.base) + (ext + post);
  }

  lemma TypedSplit(ks: seq<Kind>, ls: seq<Kind>, vs: seq<Value>)
    requires Typed(ks + ls, vs)
    ensures Typed(ks, vs[..|ks|]) && Typed(ls, vs[|ks|..])
  {
    forall i | 0 <= i < |ls|
      ensures KindOf(vs[|ks|..][i]) == ls[i]
    {
      assert (ks + ls)[|ks| + i] == ls[i];
    }
    forall i | 0 <= i < |ks|
      ensures KindOf(vs[..|ks|][i]) == ks[i]
    {
      assert (ks + ls)[i] == ks[i];
    }
  }

  predicate StatShape(w: seq<Value>) {
    && |w| == 14
    && w[0].V16? && w[1].V16? && w[2].V32?
    && w[3].V8? && w[4].V32? && w[5].V64?
    && w[6].V32? && w[7].V32? && w[8].V32? && w[9].V64?
    && w[10].VText? && w[11].VText? && w[12].VText? && w[13].VText?
  }

  lemma StatShaped(w: seq<Value>)
    requires Typed(StatKinds(), w)
    ensures StatShape(w)
  {
    var ks := StatKinds();
    assert ks[0] == U16 && ks[1] == U16 && ks[2] == U32 && ks[3] == U8 && ks[4] == U32 && ks[5] == U64;
    assert ks[6] == U32 && ks[7] == U32 && ks[8] == U32 && ks[9] == U64;
    assert ks[10] == Str && ks[11] == Str && ks[12] == Str && ks[13] == Str;
  }

  lemma StatOfShape(w: seq<Value>)
    requires StatShape(w)
    ensures StatFields(StatAt(w, 0)) == w
  {
  }

  lemma StatAtSlice(vs: seq<Value>, at: nat)
    requires at + 14 <= |vs|
    ensures StatAt(vs, at) == StatAt(vs[at..at + 14], 0)
  {
    var w := vs[at..at + 14];
    assert forall i | 0 <= i < 14 :: vs[at + i] == w[i];
  }

  lemma StatOrderComplete(vs: seq<Value>, at: nat)
    requires at + 14 <= |vs| && Typed(StatKinds(), vs[at..at + 14])
    ensures StatFields(StatAt(vs, at)) == vs[at..at + 14]
  {
    hide StatFields;
    hide StatAt;
    hide StatKinds;
    hide StatShape;
    StatShaped(vs[at..at + 14]);
    StatOfShape(vs[at..at + 14]);
    StatAtSlice(vs, at);
  }

  lemma ExtensionOrderComplete(vs: seq<Value>, i: nat)
    requires i + 4 <= |vs| && Typed([Str, U32, U32, U32], vs[i..i + 4])
    ensures [VText(TextAt(vs, i)), V32(Num32(vs, i + 1)), V32(Num32(vs, i + 2)), V32(Num32(vs, i + 3))] == vs[i..i + 4]
  {
    var ks := [Str, U32, U32, U32];
    var w := vs[i..i + 4];
    assert KindOf(w[0]) == ks[0] && KindOf(w[1]) == ks[1] && KindOf(w[2]) == ks[2] && KindOf(w[3]) == ks[3];
  }

  lemma StatExOrderComplete(vs: seq<Value>, at: nat)
    requires at + 18 <= |vs| && Typed(StatExKinds(), vs[at..at + 18])
    ensures StatExFields(StatExAt(vs, at)) == vs[at..at + 18]
  {
    assert |StatKinds()| == 14;
    hide StatFields;
    hide StatAt;
    hide StatKinds;
    hide Typed;
    hide TextAt;
    hide Num32;
    var w := vs[at..at + 18];
    TypedSplit(StatKinds(), [Str, U32, U32, U32], w);
    assert w[..14] == vs[at..at + 14] && w[14..] == vs[at + 14..at + 18];
    StatOrderComplete(vs, at);
    ExtensionOrderComplete(vs, at + 14);
    assert w == w[..14] + w[14..];
  }

  lemma TypedCons(first: Kind, ks: seq<Kind>, vs: seq<Value>)
    requires Typed([first] + ks, vs)
    ensures |vs| == 1 + |ks| && KindOf(vs[0]) == first && Typed(ks, vs[1..])
  {
    TypedSplit([first], ks, vs);
    assert vs[..1][0] == vs[0];
  }

  lemma StatBehind(first: Kind, vs: seq<Value>)
    requires Typed([first] + StatKinds(), vs)
    ensures |vs| == 15 && KindOf(vs[0]) == first && vs == [vs[0]] + StatFields(StatAt(vs, 1))
  {
    assert |StatKinds()| == 14;
    hide StatFields;
    hide StatAt;
    hide StatKinds;
    hide Typed;
    TypedCons(first, StatKinds(), vs);
    assert vs[1..15] == vs[1..];
    StatOrderComplete(vs, 1);
  }

  lemma StatExBehind(first: Kind, vs: seq<Value>)
    requires Typed([first] + StatExKinds(), vs)
    ensures |vs| == 19 && KindOf(vs[0]) == first && vs == [vs[0]] + StatExFields(StatExAt(vs, 1))
  {
    assert |StatExKinds()| == 18;
    hide StatExFields;
    hide StatExAt;
    hide StatExKinds;
    hide Typed;
    TypedCons(first, StatExKinds(), vs);
    assert vs[1..19] == vs[1..];
    StatExOrderComplete(vs, 1);
  }

  // Requests: what the writer emits is typed as the decoder expects, and the
  // decoder assigns it to the fields it came from.

  lemma WStatTyped(m: BaseRequest)
    requires m.TWStat?
    ensures Typed(BaseRequestKinds(TypeOfBaseRequest(m)), BaseRequestFields(m))
  {
    hide StatFields;
    hide StatKinds;
    StatOrderAgrees([], m.stat, []);
    TypedAppend([U32], [V32(m.fid)], StatKinds(), StatFields(m.stat));
  }

  lemma BaseRequestTyped(m: BaseRequest)
    ensures Typed(BaseRequestKinds(TypeOfBaseRequest(m)), BaseRequestFields(m))
  {
    if m.TWStat? {
      WStatTyped(m);
    }
  }

  lemma WStatAssigned(m: BaseRequest)
    requires m.TWStat?
    ensures AssembleBaseRequest(TypeOfBaseRequest(m), BaseRequestFields(m)) == m
  {
    hide StatFields;
    hide StatAt;
    StatOrderAgrees([V32(m.fid)], m.stat, []);
    assert BaseRequestFields(m) == [V32(m.fid)] + StatFields(m.stat) + [];
  }

  lemma BaseRequestAssigned(m: BaseRequest)
    ensures AssembleBaseRequest(TypeOfBaseRequest(m), BaseRequestFields(m)) == m
  {
    if m.TWStat? {
      WStatAssigned(m);
    }
  }

  lemma WStatUTyped(m: UnixRequest)
    requires m.TWStatU?
    ensures Typed(UnixRequestKinds(TypeOfUnixRequest(m)), UnixRequestFields(m))
  {
    hide StatExFields;
    hide StatExKinds;
    StatExOrderAgrees([], m.statEx, []);
    TypedAppend([U32], [V32(m.fid)], StatExKinds(), StatExFields(m.statEx));
  }

  lemma UnixRequestTyped(m: UnixRequest)
    ensures Typed(UnixRequestKinds(TypeOfUnixRequest(m)), UnixRequestFields(m))
  {
    if m.TWStatU? {
      WStatUTyped(m);
    }
  }

  lemma WStatUAssigned(m: UnixRequest)
    requires m.TWStatU?
    ensures AssembleUnixRequest(TypeOfUnixRequest(m), UnixRequestFields(m)) == m
  {
    hide StatExFields;
    hide StatExAt;
    StatExOrderAgrees([V32(m.fid)], m.statEx, []);
    assert UnixRequestFields(m) == [V32(m.fid)] + StatExFields(m.statEx) + [];
  }

  lemma UnixRequestAssigned(m: UnixRequest)
    ensures AssembleUnixRequest(TypeOfUnixRequest(m), UnixRequestFields(m)) == m
  {
    if m.TWStatU? {
      WStatUAssigned(m);
    }
  }

  lemma ErlangRequestAgrees(m: ErlangRequest)
    ensures Typed(ErlangRequestKinds(TypeOfErlangRequest(m)), ErlangRequestFields(m))
    ensures AssembleErlangRequest(TypeOfErlangRequest(m), ErlangRequestFields(m)) == m
  {
  }

  lemma LongRequestTyped(m: LinuxRequest)
    requires m.TSetAttr? || m.TLock? || m.TGetLock?
    ensures Typed(LinuxRequestKinds(TypeOfLinuxRequest(m)), LinuxRequestFields(m))
  {
  }

  lemma LinuxRequestTyped(m: LinuxRequest)
    ensures Typed(LinuxRequestKinds(TypeOfLinuxRequest(m)), LinuxRequestFields(m))
  {
    if m.TSetAttr? || m.TLock? || m.TGetLock? {
      LongRequestTyped(m);
    }
  }

  lemma LinuxRequestAssigned(m: LinuxRequest)
    ensures AssembleLinuxRequest(TypeOfLinuxRequest(m), LinuxRequestFields(m)) == m
  {
  }

  lemma RequestOrderAgrees(m: Request)
    ensures Typed(RequestKinds(TypeOfRequest(m)), RequestFields(m))
    ensures AssembleRequest(TypeOfRequest(m), RequestFields(m)) == m
  {
    match m
    case Base(b) => BaseRequestTyped(b); BaseRequestAssigned(b);
    case Unix(u) => UnixRequestTyped(u); UnixRequestAssigned(u);
    case Erlang(e) => ErlangRequestAgrees(e);
    case Linux(l) => LinuxRequestTyped(l); LinuxRequestAssigned(l);
  }

  // Conversely, every value list that a decoder can produce is what the
  // writer of the assembled message emits.

  lemma WStatComplete(vs: seq<Value>)
    requires Typed(BaseRequestKinds(ReqWStat), vs)
    ensures TypeOfBaseRequest(AssembleBaseRequest(ReqWStat, vs)) == ReqWStat
    ensures BaseRequestFields(AssembleBaseRequest(ReqWStat, vs)) == vs
  {
    hide StatFields;
    hide StatAt;
    hide StatKinds;
    StatBehind(U32, vs);
  }

  lemma BaseRequestComplete(t: BaseRequestType, vs: seq<Value>)
    requires Typed(BaseRequestKinds(t), vs)
    ensures TypeOfBaseRequest(AssembleBaseRequest(t, vs)) == t
    ensures BaseRequestFields(AssembleBaseRequest(t, vs)) == vs
  {
    if t.ReqWStat? {
      WStatComplete(vs);
    }
  }

  lemma WStatUComplete(vs: seq<Value>)
    requires Typed(UnixRequestKinds(ReqWStatU), vs)
    ensures TypeOfUnixRequest(AssembleUnixRequest(ReqWStatU, vs)) == ReqWStatU
    ensures UnixRequestFields(AssembleUnixRequest(ReqWStatU, vs)) == vs
  {
    hide StatExFields;
    hide StatExAt;
    hide StatExKinds;
    StatExBehind(U32, vs);
  }

  lemma UnixRequestComplete(t: UnixRequestType, vs: seq<Value>)
    requires Typed(UnixRequestKinds(t), vs)
    ensures TypeOfUnixRequest(AssembleUnixRequest(t, vs)) == t
    ensures UnixRequestFields(AssembleUnixRequest(t, vs)) == vs
  {
    if t.ReqWStatU? {
      WStatUComplete(vs);
    }
  }

  lemma ErlangRequestComplete(t: ErlangRequestType, vs: seq<Value>)
    requires Typed(ErlangRequestKinds(t), vs)
    ensures TypeOfErlangRequest(AssembleErlangRequest(t, vs)) == t
    ensures ErlangRequestFields(AssembleErlangRequest(t, vs)) == vs
  {
  }

  lemma SetAttrComplete(vs: seq<Value>)
    requires Typed(LinuxRequestKinds(ReqSetAttr), vs)
    ensures LinuxRequestFields(AssembleLinuxRequest(ReqSetAttr, vs)) == vs
  {
  }

  lemma LockComplete(t: LinuxRequestType, vs: seq<Value>)
    requires t.ReqLock? || t.ReqGetLock?
    requires Typed(LinuxRequestKinds(t), vs)
    ensures LinuxRequestFields(AssembleLinuxRequest(t, vs)) == vs
  {
  }

  lemma NodeRequestComplete(t: LinuxRequestType, vs: seq<Value>)
    requires t.ReqMkNode? || t.ReqLCreate?
    requires Typed(LinuxRequestKinds(t), vs)
    ensures LinuxRequestFields(AssembleLinuxRequest(t, vs)) == vs
  {
  }

  lemma NamedRequestComplete(t: LinuxRequestType, vs: seq<Value>)
    requires t.ReqSymlink? || t.ReqXAttrCreate? || t.ReqMkDir? || t.ReqRenameAt?
    requires Typed(LinuxRequestKinds(t), vs)
    ensures LinuxRequestFields(AssembleLinuxRequest(t, vs)) == vs
  {
  }

  lemma ShortRequestComplete(t: LinuxRequestType, vs: seq<Value>)
    requires |LinuxRequestKinds(t)| <= 3 && Typed(LinuxRequestKinds(t), vs)
    ensures LinuxRequestFields(AssembleLinuxRequest(t, vs)) == vs
  {
  }

  lemma LinuxRequestTypeKept(t: LinuxRequestType, vs: seq<Value>)
    ensures TypeOfLinuxRequest(AssembleLinuxRequest(t, vs)) == t
  {
    hide Num8;
    hide Num16;
    hide Num32;
    hide Num64;
    hide TextAt;
    hide DataAt;
    hide PathAt;
    hide QidsAt;
    hide QidAt;
  }

  lemma LongKinds(t: LinuxRequestType)
    ensures |LinuxRequestKinds(t)| <= 3
         || t.ReqSetAttr? || t.ReqLock? || t.ReqGetLock? || t.ReqMkNode? || t.ReqLCreate?
         || t.ReqSymlink? || t.ReqXAttrCreate? || t.ReqMkDir? || t.ReqRenameAt?
  {
  }

  lemma LinuxRequestComplete(t: LinuxRequestType, vs: seq<Value>)
    requires Typed(LinuxRequestKinds(t), vs)
    ensures TypeOfLinuxRequest(AssembleLinuxRequest(t, vs)) == t
    ensures LinuxRequestFields(AssembleLinuxRequest(t, vs)) == vs
  {
    hide AssembleLinuxRequest;
    hide LinuxRequestFields;
    hide LinuxRequestKinds;
    LinuxRequestTypeKept(t, vs);
    LongKinds(t);
    if t.ReqSetAttr? {
      SetAttrComplete(vs);
    } else if t.ReqLock? || t.ReqGetLock? {
      LockComplete(t, vs);
    } else if t.ReqMkNode? || t.ReqLCreate? {
      NodeRequestComplete(t, vs);
    } else if t.ReqSymlink? || t.ReqXAttrCreate? || t.ReqMkDir? || t.ReqRenameAt? {
      NamedRequestComplete(t, vs);
    } else {
      ShortRequestComplete(t, vs);
    }
  }

  lemma RequestOrderComplete(t: RequestType, vs: seq<Value>)
    requires Typed(RequestKinds(t), vs)
    ensures TypeOfRequest(AssembleRequest(t, vs)) == t
    ensures RequestFields(AssembleRequest(t, vs)) == vs
  {
    match t
    case BaseReq(b) => BaseRequestComplete(b, vs);
    case UnixReq(u) => UnixRequestComplete(u, vs);
    case ErlangReq(e) => ErlangRequestComplete(e, vs);
    case LinuxReq(l) => LinuxRequestComplete(l, vs);
  }

  // Responses.

  lemma RStatTyped(m: BaseResponse)
    requires m.RStat?
    ensures Typed(BaseResponseKinds(TypeOfBaseResponse(m)), BaseResponseFields(m))
  {
    hide StatFields;
    hide StatKinds;
    StatOrderAgrees([], m.stat, []);
    TypedAppend([U16], [V16(m.dummySize)], StatKinds(), StatFields(m.stat));
  }

  lemma BaseResponseTyped(m: BaseResponse)
    ensures Typed(BaseResponseKinds(TypeOfBaseResponse(m)), BaseResponseFields(m))
  {
    if m.RStat? {
      RStatTyped(m);
    }
  }

  lemma RStatAssigned(m: BaseResponse)
    requires m.RStat?
    ensures AssembleBaseResponse(TypeOfBaseResponse(m), BaseResponseFields(m)) == m
  {
    hide StatFields;
    hide StatAt;
    StatOrderAgrees([V16(m.dummySize)], m.stat, []);
    assert BaseResponseFields(m) == [V16(m.dummySize)] + StatFields(m.stat) + [];
  }

  lemma BaseResponseAssigned(m: BaseResponse)
    ensures AssembleBaseResponse(TypeOfBaseResponse(m), BaseResponseFields(m)) == m
  {
    if m.RStat? {
      RStatAssigned(m);
    }
  }

  lemma RStatUAgrees(m: UnixResponse)
    requires m.RStatU?
    ensures Typed(UnixResponseKinds(TypeOfUnixResponse(m)), UnixResponseFields(m))
    ensures AssembleUnixResponse(TypeOfUnixResponse(m), UnixResponseFields(m)) == m
  {
    hide StatExFields;
    hide StatExAt;
    hide StatExKinds;
    StatExOrderAgrees([V16(m.dummySize)], m.statEx, []);
    assert UnixResponseFields(m) == [V16(m.dummySize)] + StatExFields(m.statEx) + [];
    TypedAppend([U16], [V16(m.dummySize)], StatExKinds(), StatExFields(m.statEx));
  }

  lemma UnixResponseAgrees(m: UnixResponse)
    ensures Typed(UnixResponseKinds(TypeOfUnixResponse(m)), UnixResponseFields(m))
    ensures AssembleUnixResponse(TypeOfUnixResponse(m), UnixResponseFields(m)) == m
  {
    if m.RStatU? {
      RStatUAgrees(m);
    }
  }

  lemma ErlangResponseAgrees(m: ErlangResponse)
    ensures Typed(ErlangResponseKinds(TypeOfErlangResponse(m)), ErlangResponseFields(m))
    ensures AssembleErlangResponse(TypeOfErlangResponse(m), ErlangResponseFields(m)) == m
  {
  }

  predicate GetAttrShape(vs: seq<Value>) {
    && |vs| == 22
    && vs[0].V64?
    && vs[1].V8? && vs[2].V32? && vs[3].V64?
    && vs[4].V32? && vs[5].V32? && vs[6].V32?
    && forall i | 7 <= i < 22 :: vs[i].V64?
  }

  lemma GetAttrHasShape(m: LinuxResponse)
    requires m.RGetAttr?
    ensures GetAttrShape(LinuxResponseFields(m))
  {
  }

  lemma GetAttrShapeTyped(vs: seq<Value>)
    requires GetAttrShape(vs)
    ensures Typed(LinuxResponseKinds(RspGetAttr), vs)
  {
    var ks := LinuxResponseKinds(RspGetAttr);
    assert forall i | 7 <= i < 22 :: ks[i] == U64;
  }

  lemma GetAttrAssigned(m: LinuxResponse)
    requires m.RGetAttr?
    ensures AssembleLinuxResponse(RspGetAttr, LinuxResponseFields(m)) == m
  {
  }

  lemma LongResponseTyped(m: LinuxResponse)
    requires m.RStatFS? || m.RGetLock?
    ensures Typed(LinuxResponseKinds(TypeOfLinuxResponse(m)), LinuxResponseFields(m))
  {
  }

  lemma LinuxResponseTyped(m: LinuxResponse)
    ensures Typed(LinuxResponseKinds(TypeOfLinuxResponse(m)), LinuxResponseFields(m))
  {
    if m.RGetAttr? {
      GetAttrHasShape(m);
      GetAttrShapeTyped(LinuxResponseFields(m));
    } else if m.RStatFS? || m.RGetLock? {
      LongResponseTyped(m);
    }
  }

  lemma LinuxResponseAssigned(m: LinuxResponse)
    ensures AssembleLinuxResponse(TypeOfLinuxResponse(m), LinuxResponseFields(m)) == m
  {
    if m.RGetAttr? {
      GetAttrAssigned(m);
    }
  }

  lemma ResponseOrderAgrees(m: Response)
    ensures Typed(ResponseKinds(TypeOfResponse(m)), ResponseFields(m))
    ensures AssembleResponse(TypeOfResponse(m), ResponseFields(m)) == m
  {
    match m
    case BaseR(b) => BaseResponseTyped(b); BaseResponseAssigned(b);
    case UnixR(u) => UnixResponseAgrees(u);
    case ErlangR(e) => ErlangResponseAgrees(e);
    case LinuxR(l) => LinuxResponseTyped(l); LinuxResponseAssigned(l);
  }

  lemma RStatComplete(vs: seq<Value>)
    requires Typed(BaseResponseKinds(RspStat), vs)
    ensures TypeOfBaseResponse(AssembleBaseResponse(RspStat, vs)) == RspStat
    ensures BaseResponseFields(AssembleBaseResponse(RspStat, vs)) == vs
  {
    hide StatFields;
    hide StatAt;
    hide StatKinds;
    StatBehind(U16, vs);
  }

  lemma BaseResponseComplete(t: BaseResponseType, vs: seq<Value>)
    requires Typed(BaseResponseKinds(t), vs)
    ensures TypeOfBaseResponse(AssembleBaseResponse(t, vs)) == t
    ensures BaseResponseFields(AssembleBaseResponse(t, vs)) == vs
  {
    if t.RspStat? {
      RStatComplete(vs);
    }
  }

  lemma RStatUComplete(vs: seq<Value>)
    requires Typed(UnixResponseKinds(RspStatU), vs)
    ensures TypeOfUnixResponse(AssembleUnixResponse(RspStatU, vs)) == RspStatU
    ensures UnixResponseFields(AssembleUnixResponse(RspStatU, vs)) == vs
  {
    hide StatExFields;
    hide StatExAt;
    hide StatExKinds;
    StatExBehind(U16, vs);
  }

  lemma UnixResponseComplete(t: UnixResponseType, vs: seq<Value>)
    requires Typed(UnixResponseKinds(t), vs)
    ensures TypeOfUnixResponse(AssembleUnixResponse(t, vs)) == t
    ensures UnixResponseFields(AssembleUnixResponse(t, vs)) == vs
  {
    if t.RspStatU? {
      RStatUComplete(vs);
    }
  }

  lemma ErlangResponseComplete(t: ErlangResponseType, vs: seq<Value>)
    requires Typed(ErlangResponseKinds(t), vs)
    ensures TypeOfErlangResponse(AssembleErlangResponse(t, vs)) == t
    ensures ErlangResponseFields(AssembleErlangResponse(t, vs)) == vs
  {
  }

  lemma GetAttrShaped(vs: seq<Value>)
    requires Typed(LinuxResponseKinds(RspGetAttr), vs)
    ensures GetAttrShape(vs)
  {
    hide AssembleLinuxResponse;
    hide LinuxResponseFields;
    var ks := LinuxResponseKinds(RspGetAttr);
    assert forall i | 7 <= i < 22 :: ks[i] == U64;
  }

  lemma GetAttrComplete(vs: seq<Value>)
    requires GetAttrShape(vs)
    ensures LinuxResponseFields(AssembleLinuxResponse(RspGetAttr, vs)) == vs
  {
    hide LinuxResponseKinds;
    var ws := LinuxResponseFields(AssembleLinuxResponse(RspGetAttr, vs));
    assert forall i | 7 <= i < 22 :: ws[i] == vs[i];
  }

  lemma LongResponseComplete(t: LinuxResponseType, vs: seq<Value>)
    requires t.RspStatFS? || t.RspGetLock?
    requires Typed(LinuxResponseKinds(t), vs)
    ensures LinuxResponseFields(AssembleLinuxResponse(t, vs)) == vs
  {
  }

  lemma ShortResponseComplete(t: LinuxResponseType, vs: seq<Value>)
    requires !t.RspGetAttr? && !t.RspStatFS? && !t.RspGetLock?
    requires Typed(LinuxResponseKinds(t), vs)
    ensures LinuxResponseFields(AssembleLinuxResponse(t, vs)) == vs
  {
  }

  lemma LinuxResponseTypeKept(t: LinuxResponseType, vs: seq<Value>)
    ensures TypeOfLinuxResponse(AssembleLinuxResponse(t, vs)) == t
  {
    hide Num8;
    hide Num16;
    hide Num32;
    hide Num64;
    hide TextAt;
    hide DataAt;
    hide PathAt;
    hide QidsAt;
    hide QidAt;
  }

  lemma LinuxResponseComplete(t: LinuxResponseType, vs: seq<Value>)
    requires Typed(LinuxResponseKinds(t), vs)
    ensures TypeOfLinuxResponse(AssembleLinuxResponse(t, vs)) == t
    ensures LinuxResponseFields(AssembleLinuxResponse(t, vs)) == vs
  {
    hide AssembleLinuxResponse;
    hide LinuxResponseFields;
    hide LinuxResponseKinds;
    LinuxResponseTypeKept(t, vs);
    if t.RspGetAttr? {
      GetAttrShaped(vs);
      GetAttrComplete(vs);
    } else if t.RspStatFS? || t.RspGetLock? {
      LongResponseComplete(t, vs);
    } else {
      ShortResponseComplete(t, vs);
    }
  }

  lemma ResponseOrderComplete(t: ResponseType, vs: seq<Value>)
    requires Typed(ResponseKinds(t), vs)
    ensures TypeOfResponse(AssembleResponse(t, vs)) == t
    ensures ResponseFields(AssembleResponse(t, vs)) == vs
  {
    match t
    case BaseRsp(b) => BaseResponseComplete(b, vs);
    case UnixRsp(u) => UnixResponseComplete(u, vs);
    case ErlangRsp(e) => ErlangResponseComplete(e, vs);
    case LinuxRsp(l) => LinuxResponseComplete(l, vs);
  }
}
