/**
 The frames that are written and parsed are those of the protocol's manual: each
 message has the manual's number, and each field lies where the manual puts it.
 */
module Layout {
  import opened Bytes
  import opened Fields
  import opened Messages
  import opened Tables
  import opened Framing
  import opened Wire

  // ------------------------------------------------------------------------
  // Fields and values
  // ------------------------------------------------------------------------

  lemma TwoBytes(x: u16)
    ensures LE(x, 2) == W2(x)
  {
    assert LE(x / 256, 1) == [x / 256 % 256];
  }

  lemma FourBytes(x: u32)
    ensures LE(x, 4) == W4(x)
  {
    assert LE(x / 256 / 256 / 256, 1) == [x / 256 / 256 / 256 % 256];
    assert LE(x / 256 / 256, 2) == [x / 256 / 256 % 256] + LE(x / 256 / 256 / 256, 1);
    assert LE(x / 256, 3) == [x / 256 % 256] + LE(x / 256 / 256, 2);
  }

  lemma {:induction false} LESplit(value: nat, low: nat, high: nat)
    ensures LE(value, low + high) == LE(value, low) + LE(value / Span(low), high)
    decreases low
  {
    if low > 0 {
      LESplit(value / 256, low - 1, high);
      DivDiv(value, Span(low - 1));
      assert value / Span(low) == value / 256 / Span(low - 1);
    }
  }

  lemma {:induction false} LECutsOff(value: nat, width: nat)
    ensures LE(value, width) == LE(value % Span(width), width)
    decreases width
  {
    if width > 0 {
      var r := value % Span(width);
      LECutsOff(value / 256, width - 1);
      LECutsOff(r / 256, width - 1);
      ModShift(value, Span(width - 1));
    }
  }

  lemma ModShift(value: nat, n: nat)
    requires n > 0
    ensures value % (256 * n) % 256 == value % 256
    ensures value % (256 * n) / 256 == value / 256 % n
  {
    DivDiv(value, n);
    var q := value / 256 / n;
    var d := value / 256 - q * n;
    assert d == value / 256 % n;
    assert q * (256 * n) == 256 * (q * n);
    assert value % (256 * n) == value - 256 * (q * n) == 256 * d + value % 256;
  }

  lemma EightBytes(x: u64)
    ensures LE(x, 8) == W8(x)
  {
    SpanOfWidths();
    LESplit(x, 4, 4);
    LECutsOff(x, 4);
    FourBytes(x % TWO_32);
    FourBytes(x / TWO_32);
  }

  lemma {:induction false} TextsOnTheWire(ss: seq<Text>)
    ensures EncodeTexts(ss) == WTexts(ss)
  {
    if ss != [] {
      TwoBytes(|ss[0]|);
      TextsOnTheWire(ss[1..]);
    }
  }

  lemma QidOnTheWire(q: Qid)
    ensures EncodeQid(q) == W1(q.typ) + W4(q.version) + W8(q.path)
  {
    FourBytes(q.version);
    EightBytes(q.path);
    assert LE(q.typ, 1) == W1(q.typ);
  }

  lemma {:induction false} QidsOnTheWire(qs: seq<Qid>)
    ensures EncodeQids(qs) == WQidList(qs)
  {
    hide EncodeQid;
    if qs != [] {
      QidOnTheWire(qs[0]);
      QidsOnTheWire(qs[1..]);
    }
  }

  function ValueBytes(v: Value): seq<byte> {
    match v
    case V8(n) => W1(n)
    case V16(n) => W2(n)
    case V32(n) => W4(n)
    case V64(n) => W8(n)
    case VText(s) => WText(s)
    case VData(d) => WData(d)
    case VPath(p) => WPath(p)
    case VQids(q) => WQids(q)
  }

  lemma ValueOnTheWire(v: Value)
    ensures EncodeOne(v) == ValueBytes(v)
  {
    hide EncodeTexts;
    hide EncodeQids;
    hide WTexts;
    hide WQidList;
    hide W2;
    hide W4;
    hide W8;
    match v
    case V8(n) => assert LE(n, 1) == [n];
    case V16(n) => TwoBytes(n);
    case V32(n) => FourBytes(n);
    case V64(n) => EightBytes(n);
    case VText(s) => TwoBytes(|s|);
    case VData(d) => FourBytes(|d|);
    case VPath(p) => TwoBytes(|p|); TextsOnTheWire(p);
    case VQids(q) => TwoBytes(|q|); QidsOnTheWire(q);
  }

  /** The values of a message and the fields of its form, one by one. */
  predicate Shows(vs: seq<Value>, fields: seq<seq<byte>>) {
    |vs| == |fields| && forall i | 0 <= i < |vs| :: ValueBytes(vs[i]) == fields[i]
  }

  lemma ShowsAppend(vs: seq<Value>, fs: seq<seq<byte>>, ws: seq<Value>, gs: seq<seq<byte>>)
    requires Shows(vs, fs) && Shows(ws, gs)
    ensures Shows(vs + ws, fs + gs)
  {
    hide ValueBytes;
  }

  lemma {:induction false} EncodingShown(vs: seq<Value>, fields: seq<seq<byte>>)
    requires Shows(vs, fields)
    ensures Encode(vs) == Flat(fields)
  {
    hide EncodeOne;
    hide ValueBytes;
    if vs != [] {
      ValueOnTheWire(vs[0]);
      EncodingShown(vs[1..], fields[1..]);
    }
  }

  // ------------------------------------------------------------------------
  // Every message
  // ------------------------------------------------------------------------

  lemma StatShown(s: Stat)
    ensures Shows(StatFields(s), WStat(s))
  {
    hide W1;
    hide W2;
    hide W4;
    hide W8;
    hide WText;
    hide WData;
    hide WPath;
    hide WQids;
  }

  lemma StatExShown(s: StatEx)
    ensures Shows(StatExFields(s), WStatEx(s))
  {
    hide W1;
    hide W2;
    hide W4;
    hide W8;
    hide WText;
    hide WData;
    hide WPath;
    hide WQids;
    hide StatFields;
    hide WStat;
    StatShown(s.base);
    var vs, fs := [VText(s.extension), V32(s.nUid), V32(s.nGid), V32(s.nMuid)],
                  [WText(s.extension), W4(s.nUid), W4(s.nGid), W4(s.nMuid)];
    ShowsAppend(StatFields(s.base), WStat(s.base), vs, fs);
  }

  lemma BaseRequestShown(m: BaseRequest)
    ensures BaseRequestCode(TypeOfBaseRequest(m)) == BaseRequestForm(m).number
    ensures Shows(BaseRequestFields(m), BaseRequestForm(m).fields)
  {
    hide W1;
    hide W2;
    hide W4;
    hide W8;
    hide WText;
    hide WData;
    hide WPath;
    hide WQids;
    hide StatFields;
    hide WStat;
    if m.TWStat? {
      StatShown(m.stat);
      ShowsAppend([V32(m.fid)], [W4(m.fid)], StatFields(m.stat), WStat(m.stat));
    }
  }

  lemma UnixRequestShown(m: UnixRequest)
    ensures UnixRequestCode(TypeOfUnixRequest(m)) == UnixRequestForm(m).number
    ensures Shows(UnixRequestFields(m), UnixRequestForm(m).fields)
  {
    hide W1;
    hide W2;
    hide W4;
    hide W8;
    hide WText;
    hide WData;
    hide WPath;
    hide WQids;
    hide StatExFields;
    hide WStatEx;
    if m.TWStatU? {
      StatExShown(m.statEx);
      ShowsAppend([V32(m.fid)], [W4(m.fid)], StatExFields(m.statEx), WStatEx(m.statEx));
    }
  }

  lemma ErlangRequestShown(m: ErlangRequest)
    ensures ErlangRequestCode(TypeOfErlangRequest(m)) == ErlangRequestForm(m).number
    ensures Shows(ErlangRequestFields(m), ErlangRequestForm(m).fields)
  {
    hide W1;
    hide W2;
    hide W4;
    hide W8;
    hide WText;
    hide WData;
    hide WPath;
    hide WQids;
  }

  lemma LongLinuxRequestShown(m: LinuxRequest)
    requires m.TSetAttr? || m.TLock? || m.TGetLock?
    ensures Shows(LinuxRequestFields(m), LinuxRequestForm(m).fields)
  {
    hide W1;
    hide W2;
    hide W4;
    hide W8;
    hide WText;
    hide WData;
    hide WPath;
    hide WQids;
  }

  lemma LinuxRequestNumber(m: LinuxRequest)
    ensures LinuxRequestCode(TypeOfLinuxRequest(m)) == LinuxRequestForm(m).number
  {
    hide W1;
    hide W2;
    hide W4;
    hide W8;
    hide WText;
    hide WData;
    hide WPath;
    hide WQids;
  }

  lemma LinuxRequestShown(m: LinuxRequest)
    ensures LinuxRequestCode(TypeOfLinuxRequest(m)) == LinuxRequestForm(m).number
    ensures Shows(LinuxRequestFields(m), LinuxRequestForm(m).fields)
  {
    hide W1;
    hide W2;
    hide W4;
    hide W8;
    hide WText;
    hide WData;
    hide WPath;
    hide WQids;
    LinuxRequestNumber(m);
    hide LinuxRequestCode;
    hide TypeOfLinuxRequest;
    if m.TSetAttr? || m.TLock? || m.TGetLock? {
      LongLinuxRequestShown(m);
    }
  }

  lemma RequestShown(m: Request)
    ensures RequestCode(TypeOfRequest(m)) == RequestForm(m).number
    ensures RequestPayload(m) == Flat(RequestForm(m).fields)
  {
    hide Shows;
    hide Encode;
    match m {
    case Base(b) => BaseRequestShown(b);
    case Unix(u) => UnixRequestShown(u);
    case Erlang(e) => ErlangRequestShown(e);
    case Linux(l) => LinuxRequestShown(l);
    }
    EncodingShown(RequestFields(m), RequestForm(m).fields);
  }

  lemma BaseResponseShown(m: BaseResponse)
    ensures BaseResponseCode(TypeOfBaseResponse(m)) == BaseResponseForm(m).number
    ensures Shows(BaseResponseFields(m), BaseResponseForm(m).fields)
  {
    hide W1;
    hide W2;
    hide W4;
    hide W8;
    hide WText;
    hide WData;
    hide WPath;
    hide WQids;
    hide StatFields;
    hide WStat;
    if m.RStat? {
      StatShown(m.stat);
      ShowsAppend([V16(m.dummySize)], [W2(m.dummySize)], StatFields(m.stat), WStat(m.stat));
    }
  }

  lemma UnixResponseShown(m: UnixResponse)
    ensures UnixResponseCode(TypeOfUnixResponse(m)) == UnixResponseForm(m).number
    ensures Shows(UnixResponseFields(m), UnixResponseForm(m).fields)
  {
    hide W1;
    hide W2;
    hide W4;
    hide W8;
    hide WText;
    hide WData;
    hide WPath;
    hide WQids;
    hide StatExFields;
    hide WStatEx;
    if m.RStatU? {
      StatExShown(m.statEx);
      ShowsAppend([V16(m.dummySize)], [W2(m.dummySize)], StatExFields(m.statEx), WStatEx(m.statEx));
    }
  }

  lemma ErlangResponseShown(m: ErlangResponse)
    ensures ErlangResponseCode(TypeOfErlangResponse(m)) == ErlangResponseForm(m).number
    ensures Shows(ErlangResponseFields(m), ErlangResponseForm(m).fields)
  {
    hide W1;
    hide W2;
    hide W4;
    hide W8;
    hide WText;
    hide WData;
    hide WPath;
    hide WQids;
  }

  lemma LinuxResponseNumber(m: LinuxResponse)
    ensures LinuxResponseCode(TypeOfLinuxResponse(m)) == LinuxResponseForm(m).number
  {
    hide W1;
    hide W2;
    hide W4;
    hide W8;
    hide WText;
    hide WData;
    hide WPath;
    hide WQids;
  }

  lemma AttributesShown(m: LinuxResponse)
    requires m.RGetAttr?
    ensures Shows(LinuxResponseFields(m), LinuxResponseForm(m).fields)
  {
    hide W1;
    hide W2;
    hide W4;
    hide W8;
    hide WText;
    hide WData;
    hide WPath;
    hide WQids;
  }

  lemma LinuxResponseShown(m: LinuxResponse)
    ensures LinuxResponseCode(TypeOfLinuxResponse(m)) == LinuxResponseForm(m).number
    ensures Shows(LinuxResponseFields(m), LinuxResponseForm(m).fields)
  {
    hide W1;
    hide W2;
    hide W4;
    hide W8;
    hide WText;
    hide WData;
    hide WPath;
    hide WQids;
    LinuxResponseNumber(m);
    hide LinuxResponseCode;
    hide TypeOfLinuxResponse;
    if m.RGetAttr? {
      AttributesShown(m);
    }
  }

  lemma ResponseShown(m: Response)
    ensures ResponseCode(TypeOfResponse(m)) == ResponseForm(m).number
    ensures ResponsePayload(m) == Flat(ResponseForm(m).fields)
  {
    hide Shows;
    hide Encode;
    match m {
    case BaseR(b) => BaseResponseShown(b);
    case UnixR(u) => UnixResponseShown(u);
    case ErlangR(e) => ErlangResponseShown(e);
    case LinuxR(l) => LinuxResponseShown(l);
    }
    EncodingShown(ResponseFields(m), ResponseForm(m).fields);
  }

  // ------------------------------------------------------------------------
  // Frames
  // ------------------------------------------------------------------------

  lemma HeaderOnTheWire(h: Header)
    ensures HeaderBytes(h) == W4(h.size) + W1(h.typ) + W2(h.tag)
  {
    hide Encode;
    hide LE;
    hide W2;
    hide W4;
    HeaderLayout(h);
    FourBytes(h.size);
    TwoBytes(h.tag);
    ValueOnTheWire(V8(h.typ));
    var bs := HeaderBytes(h);
    assert bs == bs[..4] + bs[4..5] + bs[5..];
  }

  /** What the writer of a request emits is, byte for byte, the manual's line for it. */
  lemma RequestOnTheWire(m: Request, tag: u16)
    requires HEADER_SIZE + |RequestPayload(m)| < TWO_32
    ensures 7 + |Flat(RequestForm(m).fields)| < TWO_32
    ensures RequestFrame(m, tag) == OnTheWire(RequestForm(m), tag)
  {
    hide RequestPayload;
    hide RequestForm;
    hide RequestCode;
    hide HeaderBytes;
    RequestShown(m);
    HeaderOnTheWire(RequestHeader(m, tag));
  }

  lemma ResponseOnTheWire(m: Response, tag: u16)
    requires HEADER_SIZE + |ResponsePayload(m)| < TWO_32
    ensures 7 + |Flat(ResponseForm(m).fields)| < TWO_32
    ensures ResponseFrame(m, tag) == OnTheWire(ResponseForm(m), tag)
  {
    hide ResponsePayload;
    hide ResponseForm;
    hide ResponseCode;
    hide HeaderBytes;
    ResponseShown(m);
    HeaderOnTheWire(ResponseHeader(m, tag));
  }

  lemma RequestVersions(v: Version, m: Request)
    ensures HasRequest(v, m) <==> Supports(v, TypeOfRequest(m))
  {
  }

  lemma ResponseVersions(v: Version, m: Response)
    ensures HasResponse(v, m) <==> SupportsResponse(v, TypeOfResponse(m))
  {
  }

  /** The manual's bytes for a request are received as that request by exactly the versions that have it. */
  lemma RequestReceived(v: Version, m: Request, tag: u16, maxPayload: u32)
    requires |Flat(RequestForm(m).fields)| <= maxPayload && 7 + maxPayload < TWO_32
    ensures var f := RequestForm(m);
            HasRequest(v, m) <==>
              ParseRequest(v, maxPayload, OnTheWire(f, tag)) == Message(Header(7 + |Flat(f.fields)|, f.number, tag), m, [])
  {
    hide RequestPayload;
    hide RequestForm;
    hide RequestCode;
    hide ParseRequest;
    hide Supports;
    hide HasRequest;
    hide TypeOfRequest;
    hide OnTheWire;
    RequestShown(m);
    RequestOnTheWire(m, tag);
    RequestRoundTrip(v, m, tag, maxPayload);
    RequestVersions(v, m);
  }

  lemma ResponseReceived(v: Version, m: Response, tag: u16, maxPayload: u32)
    requires |Flat(ResponseForm(m).fields)| <= maxPayload && 7 + maxPayload < TWO_32
    ensures var f := ResponseForm(m);
            HasResponse(v, m) <==>
              ParseResponse(v, maxPayload, OnTheWire(f, tag)) == Message(Header(7 + |Flat(f.fields)|, f.number, tag), m, [])
  {
    hide ResponsePayload;
    hide ResponseForm;
    hide ResponseCode;
    hide ParseResponse;
    hide SupportsResponse;
    hide HasResponse;
    hide TypeOfResponse;
    hide OnTheWire;
    ResponseShown(m);
    ResponseOnTheWire(m, tag);
    ResponseRoundTrip(v, m, tag, maxPayload);
    ResponseVersions(v, m);
  }

  /** Conversely, whatever a version parses is a message that it has, in the manual's form, and the unread bytes. */
  lemma ReceivedRequestForm(v: Version, maxPayload: u32, bs: seq<byte>)
    requires ParseRequest(v, maxPayload, bs).Message?
    ensures var Message(h, m, unread) := ParseRequest(v, maxPayload, bs);
            && HasRequest(v, m) && h.typ == RequestForm(m).number
            && bs == W4(h.size) + W1(h.typ) + W2(h.tag) + Flat(RequestForm(m).fields) + unread
  {
    hide RequestPayload;
    hide RequestForm;
    hide RequestCode;
    hide ParseRequest;
    hide Supports;
    hide HasRequest;
    hide TypeOfRequest;
    hide HeaderBytes;
    RequestCanonical(v, maxPayload, bs);
    var Message(h, m, unread) := ParseRequest(v, maxPayload, bs);
    RequestShown(m);
    HeaderOnTheWire(h);
    RequestVersions(v, m);
  }

  lemma ReceivedResponseForm(v: Version, maxPayload: u32, bs: seq<byte>)
    requires ParseResponse(v, maxPayload, bs).Message?
    ensures var Message(h, m, unread) := ParseResponse(v, maxPayload, bs);
            && HasResponse(v, m) && h.typ == ResponseForm(m).number
            && bs == W4(h.size) + W1(h.typ) + W2(h.tag) + Flat(ResponseForm(m).fields) + unread
  {
    hide ResponsePayload;
    hide ResponseForm;
    hide ResponseCode;
    hide ParseResponse;
    hide SupportsResponse;
    hide HasResponse;
    hide TypeOfResponse;
    hide HeaderBytes;
    ResponseCanonical(v, maxPayload, bs);
    var Message(h, m, unread) := ParseResponse(v, maxPayload, bs);
    ResponseShown(m);
    HeaderOnTheWire(h);
    ResponseVersions(v, m);
  }

  // ------------------------------------------------------------------------
  // Offsets
  // ------------------------------------------------------------------------

  /** Field `i` lies behind the fields before it. */
  lemma FieldAt(fields: seq<seq<byte>>, i: nat)
    requires i < |fields|
    ensures var at := |Flat(fields[..i])|;
            at + |fields[i]| <= |Flat(fields)| && Flat(fields)[at..at + |fields[i]|] == fields[i]
  {
    FlatAppend(fields[..i], fields[i..]);
    assert fields == fields[..i] + fields[i..];
    var tail := fields[i] + Flat(fields[i + 1..]);
    assert Flat(fields[i..]) == tail;
    Cut(Flat(fields[..i]), tail);
    assert tail[..|fields[i]|] == fields[i];
  }

  lemma FieldFollows(fields: seq<seq<byte>>, i: nat)
    requires i < |fields|
    ensures var at, next := |Flat(fields[..i])|, |Flat(fields[..i + 1])|;
            next == at + |fields[i]| <= |Flat(fields)| && Flat(fields)[at..next] == fields[i]
  {
    hide Flat;
    FieldAt(fields, i);
    FlatSnoc(fields[..i], fields[i]);
    assert fields[..i + 1] == fields[..i] + [fields[i]];
  }

  lemma EmptyFlat()
    ensures Flat([]) == []
  {
  }

  lemma Widths()
    ensures forall x: u8 :: |W1(x)| == 1
    ensures forall x: u16 :: |W2(x)| == 2
    ensures forall x: u32 :: |W4(x)| == 4
    ensures forall x: u64 :: |W8(x)| == 8
  {
  }

  /** In every request, each field lies behind the widths of the fields before it. */
  lemma RequestFieldAt(m: Request, i: nat)
    requires i < |RequestForm(m).fields|
    ensures var f, p := RequestForm(m).fields, RequestPayload(m);
            var at := |Flat(f[..i])|;
            |p| == |Flat(f)| && at + |f[i]| <= |p| && p[at..at + |f[i]|] == f[i]
  {
    hide RequestForm;
    hide RequestPayload;
    RequestShown(m);
    FieldAt(RequestForm(m).fields, i);
  }

  lemma ResponseFieldAt(m: Response, i: nat)
    requires i < |ResponseForm(m).fields|
    ensures var f, p := ResponseForm(m).fields, ResponsePayload(m);
            var at := |Flat(f[..i])|;
            |p| == |Flat(f)| && at + |f[i]| <= |p| && p[at..at + |f[i]|] == f[i]
  {
    hide ResponseForm;
    hide ResponsePayload;
    ResponseShown(m);
    FieldAt(ResponseForm(m).fields, i);
  }

  lemma WalkLayout(fid: u32, newfid: u32, path: Path)
    ensures var p := RequestPayload(Base(TWalk(fid, newfid, path)));
            && |p| >= 10
            && p[..4] == LE(fid, 4) && p[4..8] == LE(newfid, 4) && p[8..10] == LE(|path|, 2)
            && p[10..] == EncodeTexts(path)
  {
    hide LE;
    hide EncodeTexts;
    Encode3(V32(fid), V32(newfid), VPath(path));
  }

  lemma LinkLayout(dfid: u32, fid: u32, name: Text)
    ensures var p := RequestPayload(Linux(TLink(dfid, fid, name)));
            && |p| == 10 + |name|
            && p[..4] == LE(dfid, 4) && p[4..8] == LE(fid, 4) && p[8..10] == LE(|name|, 2) && p[10..] == name
  {
    hide LE;
    Encode3(V32(dfid), V32(fid), VText(name));
  }

  /** Sixteen qids are read from their bytes. */
  lemma SixteenQids(qids: seq<Qid>, rest: seq<byte>)
    requires |qids| == 16
    ensures DecodeQidArray([16, 0] + WQidList(qids) + rest) == Ok(qids, rest)
  {
    hide WQidList;
    hide LE;
    TwoBytes(16);
    QidsOnTheWire(qids);
    QidArrayRoundTrip(qids, rest);
  }

  lemma AttributesHead(f: seq<seq<byte>>)
    requires |f| == 22 && |f[0]| == 8 && |f[1]| == 1 && |f[2]| == 4 && |f[3]| == 8
    requires |f[4]| == |f[5]| == |f[6]| == 4
    ensures var p := Flat(f);
            && |p| >= 33 && |Flat(f[..7])| == 33
            && p[..8] == f[0] && p[8..9] == f[1] && p[9..13] == f[2] && p[13..21] == f[3]
            && p[21..25] == f[4] && p[25..29] == f[5] && p[29..33] == f[6]
  {
    hide Flat;
    assert f[..0] == [];
    EmptyFlat();
    FieldFollows(f, 0);
    FieldFollows(f, 1);
    FieldFollows(f, 2);
    FieldFollows(f, 3);
    FieldFollows(f, 4);
    FieldFollows(f, 5);
    FieldFollows(f, 6);
  }

  lemma {:induction false} AttributesTail(f: seq<seq<byte>>, i: nat)
    requires 7 <= i < |f| && |Flat(f[..7])| == 33 && forall k | 7 <= k < |f| :: |f[k]| == 8
    ensures |Flat(f[..i])| == 8 * i - 23 && 8 * i - 15 <= |Flat(f)| && Flat(f)[8 * i - 23..8 * i - 15] == f[i]
  {
    hide Flat;
    if i > 7 {
      AttributesTail(f, i - 1);
      FieldFollows(f, i - 1);
    }
    FieldFollows(f, i);
  }

  lemma AttributesRest(f: seq<seq<byte>>)
    requires |f| == 22 && |Flat(f[..7])| == 33 && forall k | 7 <= k < 22 :: |f[k]| == 8
    ensures var p := Flat(f);
            && |p| == 153
            && p[33..41] == f[7] && p[41..49] == f[8] && p[49..57] == f[9]
            && p[57..65] == f[10] && p[65..73] == f[11] && p[73..81] == f[12]
            && p[81..89] == f[13] && p[89..97] == f[14] && p[97..105] == f[15]
            && p[105..113] == f[16] && p[113..121] == f[17] && p[121..129] == f[18]
            && p[129..137] == f[19] && p[137..145] == f[20] && p[145..] == f[21]
  {
    hide Flat;
    AttributesTail(f, 7);
    AttributesTail(f, 8);
    AttributesTail(f, 9);
    AttributesTail(f, 10);
    AttributesTail(f, 11);
    AttributesTail(f, 12);
    AttributesTail(f, 13);
    AttributesTail(f, 14);
    AttributesTail(f, 15);
    AttributesTail(f, 16);
    AttributesTail(f, 17);
    AttributesTail(f, 18);
    AttributesTail(f, 19);
    AttributesTail(f, 20);
    AttributesTail(f, 21);
    FieldFollows(f, 21);
    assert f[..22] == f;
  }

  /** valid[8] qid[13] mode[4] uid[4] gid[4] nlink[8] */
  lemma AttributesLayout(m: LinuxResponse)
    requires m.RGetAttr?
    ensures var p := ResponsePayload(LinuxR(m));
            && |p| == 153
            && p[..8] == W8(m.valid) && p[8..9] == W1(m.qid.typ) && p[9..13] == W4(m.qid.version)
            && p[13..21] == W8(m.qid.path)
            && p[21..25] == W4(m.bits) && p[25..29] == W4(m.uid) && p[29..33] == W4(m.gid)
  {
    hide ResponsePayload;
    hide Flat;
    hide W1;
    hide W4;
    hide W8;
    Widths();
    ResponseShown(LinuxR(m));
    var f := LinuxResponseForm(m).fields;
    AttributesHead(f);
    AttributesRest(f);
  }

  /** rdev[8] size[8] blksize[8] blocks[8], four times of 16 bytes, gen[8] data_version[8] */
  lemma AttributesLayoutRest(m: LinuxResponse)
    requires m.RGetAttr?
    ensures var p := ResponsePayload(LinuxR(m));
            && |p| == 153
            && p[33..41] == W8(m.nlink) && p[41..49] == W8(m.rdev) && p[49..57] == W8(m.size)
            && p[57..65] == W8(m.blksize) && p[65..73] == W8(m.blocks)
            && p[73..81] == W8(m.atimeSec) && p[81..89] == W8(m.atimeNsec)
            && p[89..97] == W8(m.mtimeSec) && p[97..105] == W8(m.mtimeNsec)
            && p[105..113] == W8(m.ctimeSec) && p[113..121] == W8(m.ctimeNsec)
            && p[121..129] == W8(m.btimeSec) && p[129..137] == W8(m.btimeNsec)
            && p[137..145] == W8(m.gen) && p[145..] == W8(m.dataVersion)
  {
    hide ResponsePayload;
    hide Flat;
    hide W1;
    hide W4;
    hide W8;
    Widths();
    ResponseShown(LinuxR(m));
    var f := LinuxResponseForm(m).fields;
    AttributesHead(f);
    AttributesRest(f);
  }
}
