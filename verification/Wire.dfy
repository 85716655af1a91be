/**
 The protocol as its manual writes it: each message is a number and a list of
 byte fields, with every integer spelled out in bytes. Nothing here refers to the
 field lists, the codes or the parse tables that the writers and parsers use;
 that those describe the same bytes is what is proved. The one line that departs
 from the manual is Twstat, whose stat follows the fid without a count, as in the code.
 */
module Wire {
  import opened Bytes
  import opened Fields
  import opened Messages
  import opened Tables

  // ------------------------------------------------------------------------
  // Fields: name[1], name[2], name[4], name[8], name[s], data[count]
  // ------------------------------------------------------------------------

  function W1(x: u8): seq<byte> { [x] }

  function W2(x: u16): seq<byte> { [x % 0x100, x / 0x100] }

  function W4(x: u32): seq<byte> { [x % 0x100, x / 0x100 % 0x100, x / 0x1_0000 % 0x100, x / 0x100_0000] }

  function W8(x: u64): seq<byte> { W4(x % 0x1_0000_0000) + W4(x / 0x1_0000_0000) }

  function WText(s: Text): seq<byte> { W2(|s|) + s }

  function WData(d: Blob): seq<byte> { W4(|d|) + d }

  function WTexts(ss: seq<Text>): seq<byte> {
    if ss == [] then [] else WText(ss[0]) + WTexts(ss[1..])
  }

  /** nwname[2] nwname*(wname[s]) */
  function WPath(p: Path): seq<byte> { W2(|p|) + WTexts(p) }

  /** qid[13] is type[1] version[4] path[8]. */
  function WQid(q: Qid): seq<seq<byte>> { [W1(q.typ), W4(q.version), W8(q.path)] }

  function WQidList(qs: seq<Qid>): seq<byte> {
    if qs == [] then [] else W1(qs[0].typ) + W4(qs[0].version) + W8(qs[0].path) + WQidList(qs[1..])
  }

  /** nwqid[2] nwqid*(wqid[13]) */
  function WQids(q: QidArray): seq<byte> { W2(|q|) + WQidList(q) }

  function WStat(s: Stat): seq<seq<byte>> {
    [W2(s.size), W2(s.typ), W4(s.dev)] + WQid(s.qid) +
    [W4(s.mode), W4(s.atime), W4(s.mtime), W8(s.length), WText(s.name), WText(s.uid), WText(s.gid), WText(s.muid)]
  }

  function WStatEx(s: StatEx): seq<seq<byte>> {
    WStat(s.base) + [WText(s.extension), W4(s.nUid), W4(s.nGid), W4(s.nMuid)]
  }

  // ------------------------------------------------------------------------
  // Messages
  // ------------------------------------------------------------------------

  /** One line of the manual: the message number and the fields behind the tag. */
  datatype Form = Form(number: u8, fields: seq<seq<byte>>)

  function BaseRequestForm(m: BaseRequest): Form {
    match m
    case TVersion(msize, version) => Form(100, [W4(msize), WText(version)])
    case TAuth(afid, uname, aname) => Form(102, [W4(afid), WText(uname), WText(aname)])
    case TAttach(fid, afid, uname, aname) => Form(104, [W4(fid), W4(afid), WText(uname), WText(aname)])
    case TFlush(oldtag) => Form(108, [W2(oldtag)])
    case TWalk(fid, newfid, path) => Form(110, [W4(fid), W4(newfid), WPath(path)])
    case TOpen(fid, mode) => Form(112, [W4(fid), W1(mode)])
    case TCreate(fid, name, perm, mode) => Form(114, [W4(fid), WText(name), W4(perm), W1(mode)])
    case TRead(fid, offset, count) => Form(116, [W4(fid), W8(offset), W4(count)])
    case TWrite(fid, offset, data) => Form(118, [W4(fid), W8(offset), WData(data)])
    case TClunk(fid) => Form(120, [W4(fid)])
    case TRemove(fid) => Form(122, [W4(fid)])
    case TStat(fid) => Form(124, [W4(fid)])
    case TWStat(fid, stat) => Form(126, [W4(fid)] + WStat(stat))
  }

  function UnixRequestForm(m: UnixRequest): Form {
    match m
    case TAuthU(afid, uname, aname, nUname) => Form(102, [W4(afid), WText(uname), WText(aname), W4(nUname)])
    case TAttachU(fid, afid, uname, aname, nUname) =>
      Form(104, [W4(fid), W4(afid), WText(uname), WText(aname), W4(nUname)])
    case TCreateU(fid, name, perm, mode, extension) =>
      Form(114, [W4(fid), WText(name), W4(perm), W1(mode), WText(extension)])
    case TWStatU(fid, statEx) => Form(126, [W4(fid)] + WStatEx(statEx))
  }

  function ErlangRequestForm(m: ErlangRequest): Form {
    match m
    case TSession(key) =>
      Form(150, [W1(key[0]), W1(key[1]), W1(key[2]), W1(key[3]), W1(key[4]), W1(key[5]), W1(key[6]), W1(key[7])])
    case TShortRead(fid, path) => Form(152, [W4(fid), WPath(path)])
    case TShortWrite(fid, path, data) => Form(154, [W4(fid), WPath(path), WData(data)])
  }

  function LinuxRequestForm(m: LinuxRequest): Form {
    match m
    case TStatFS(fid) => Form(8, [W4(fid)])
    case TLOpen(fid, flags) => Form(12, [W4(fid), W4(flags)])
    case TLCreate(fid, name, flags, bits, gid) => Form(14, [W4(fid), WText(name), W4(flags), W4(bits), W4(gid)])
    case TSymlink(fid, name, symtgt, gid) => Form(16, [W4(fid), WText(name), WText(symtgt), W4(gid)])
    case TMkNode(dfid, name, bits, major, minor, gid) =>
      Form(18, [W4(dfid), WText(name), W4(bits), W4(major), W4(minor), W4(gid)])
    case TRename(fid, dfid, name) => Form(20, [W4(fid), W4(dfid), WText(name)])
    case TReadLink(fid) => Form(22, [W4(fid)])
    case TGetAttr(fid, requestMask) => Form(24, [W4(fid), W8(requestMask)])
    case TSetAttr(fid, valid, bits, uid, gid, size, atimeSec, atimeNsec, mtimeSec, mtimeNsec) =>
      Form(26, [W4(fid), W4(valid), W4(bits), W4(uid), W4(gid), W8(size), W8(atimeSec), W8(atimeNsec),
                W8(mtimeSec), W8(mtimeNsec)])
    case TXAttrWalk(fid, newfid, name) => Form(30, [W4(fid), W4(newfid), WText(name)])
    case TXAttrCreate(fid, name, attrSize, flags) => Form(32, [W4(fid), WText(name), W8(attrSize), W4(flags)])
    case TReadDir(fid, offset, count) => Form(40, [W4(fid), W8(offset), W4(count)])
    case TFSync(fid) => Form(50, [W4(fid)])
    case TLock(fid, typ, flags, start, length, procId, clientId) =>
      Form(52, [W4(fid), W1(typ), W4(flags), W8(start), W8(length), W4(procId), WText(clientId)])
    case TGetLock(fid, typ, start, length, procId, clientId) =>
      Form(54, [W4(fid), W1(typ), W8(start), W8(length), W4(procId), WText(clientId)])
    case TLink(dfid, fid, name) => Form(60, [W4(dfid), W4(fid), WText(name)])
    case TMkDir(dfid, name, bits, gid) => Form(72, [W4(dfid), WText(name), W4(bits), W4(gid)])
    case TRenameAt(olddirfid, oldname, newdirfid, newname) =>
      Form(74, [W4(olddirfid), WText(oldname), W4(newdirfid), WText(newname)])
    case TUnlinkAt(dfid, name, flags) => Form(76, [W4(dfid), WText(name), W4(flags)])
  }

  function RequestForm(m: Request): Form {
    match m
    case Base(b) => BaseRequestForm(b)
    case Unix(u) => UnixRequestForm(u)
    case Erlang(e) => ErlangRequestForm(e)
    case Linux(l) => LinuxRequestForm(l)
  }

  function BaseResponseForm(m: BaseResponse): Form {
    match m
    case RVersion(msize, version) => Form(101, [W4(msize), WText(version)])
    case RAuth(qid) => Form(103, WQid(qid))
    case RAttach(qid) => Form(105, WQid(qid))
    case RError(ename) => Form(107, [WText(ename)])
    case RFlush => Form(109, [])
    case RWalk(qids) => Form(111, [WQids(qids)])
    case ROpen(qid, iounit) => Form(113, WQid(qid) + [W4(iounit)])
    case RCreate(qid, iounit) => Form(115, WQid(qid) + [W4(iounit)])
    case RRead(data) => Form(117, [WData(data)])
    case RWrite(count) => Form(119, [W4(count)])
    case RClunk => Form(121, [])
    case RRemove => Form(123, [])
    case RStat(dummySize, stat) => Form(125, [W2(dummySize)] + WStat(stat))
    case RWStat => Form(127, [])
  }

  function UnixResponseForm(m: UnixResponse): Form {
    match m
    case RErrorU(ename, errcode) => Form(107, [WText(ename), W4(errcode)])
    case RStatU(dummySize, statEx) => Form(125, [W2(dummySize)] + WStatEx(statEx))
  }

  function ErlangResponseForm(m: ErlangResponse): Form {
    match m
    case RSession => Form(151, [])
    case RShortRead(data) => Form(153, [WData(data)])
    case RShortWrite(count) => Form(155, [W4(count)])
  }

  function LinuxResponseForm(m: LinuxResponse): Form {
    match m
    case RLError(ecode) => Form(7, [W4(ecode)])
    case RStatFS(fsType, bsize, blocks, bfree, bavail, files, ffree, fsid, namelen) =>
      Form(9, [W4(fsType), W4(bsize), W8(blocks), W8(bfree), W8(bavail), W8(files), W8(ffree), W8(fsid), W4(namelen)])
    case RLOpen(qid, iounit) => Form(13, WQid(qid) + [W4(iounit)])
    case RLCreate(qid, iounit) => Form(15, WQid(qid) + [W4(iounit)])
    case RSymlink(qid) => Form(17, WQid(qid))
    case RMkNode(qid) => Form(19, WQid(qid))
    case RRename => Form(21, [])
    case RReadLink(target) => Form(23, [WText(target)])
    case RGetAttr(qid, valid, bits, uid, gid, size, atimeSec, atimeNsec, mtimeSec, mtimeNsec, ctimeSec, ctimeNsec,
                  nlink, rdev, blksize, blocks, btimeSec, btimeNsec, gen, dataVersion) =>
      Form(25, [W8(valid)] + WQid(qid) + [W4(bits), W4(uid), W4(gid)] +
               [W8(nlink), W8(rdev), W8(size), W8(blksize), W8(blocks)] +
               [W8(atimeSec), W8(atimeNsec), W8(mtimeSec), W8(mtimeNsec)] +
               [W8(ctimeSec), W8(ctimeNsec), W8(btimeSec), W8(btimeNsec)] + [W8(gen), W8(dataVersion)])
    case RSetAttr => Form(27, [])
    case RXAttrWalk(size) => Form(31, [W8(size)])
    case RXAttrCreate => Form(33, [])
    case RReadDir(data) => Form(41, [WData(data)])
    case RFSync => Form(51, [])
    case RLock(status) => Form(53, [W1(status)])
    case RGetLock(typ, start, length, procId, clientId) =>
      Form(55, [W1(typ), W8(start), W8(length), W4(procId), WText(clientId)])
    case RLink => Form(61, [])
    case RMkDir(qid) => Form(73, WQid(qid))
    case RRenameAt => Form(75, [])
    case RUnlinkAt => Form(77, [])
  }

  function ResponseForm(m: Response): Form {
    match m
    case BaseR(b) => BaseResponseForm(b)
    case UnixR(u) => UnixResponseForm(u)
    case ErlangR(e) => ErlangResponseForm(e)
    case LinuxR(l) => LinuxResponseForm(l)
  }

  /** size[4] number[1] tag[2] and the fields. */
  function OnTheWire(f: Form, tag: u16): seq<byte>
    requires 7 + |Flat(f.fields)| < TWO_32
  {
    W4(7 + |Flat(f.fields)|) + W1(f.number) + W2(tag) + Flat(f.fields)
  }

  /** The versions that have a request in this form. */
  predicate HasRequest(v: Version, m: Request) {
    match m
    case Base(b) =>
      if b.TAuth? || b.TAttach? || b.TCreate? || b.TWStat? then v == V9P2000 || v == V9P2000e else true
    case Unix(_) => v == V9P2000u || v == V9P2000L
    case Erlang(_) => v == V9P2000e
    case Linux(_) => v == V9P2000L
  }

  predicate HasResponse(v: Version, m: Response) {
    match m
    case BaseR(b) => if b.RError? || b.RStat? then v == V9P2000 || v == V9P2000e else true
    case UnixR(_) => v == V9P2000u || v == V9P2000L
    case ErlangR(_) => v == V9P2000e
    case LinuxR(_) => v == V9P2000L
  }
}
