/**
 The records and messages of 9P2000 and its extensions. The order in which the
 writers emit the fields and the order in which the decoders fill them are
 written down separately; that they agree is proved.
 */
module Messages {
  import opened Bytes
  import opened Fields

  datatype Option<+T> = None | Some(value: T)

  datatype Stat = Stat(
    size: u16, typ: u16, dev: u32, qid: Qid, mode: u32, atime: u32, mtime: u32, length: u64,
    name: Text, uid: Text, gid: Text, muid: Text)

  /** The 9P2000.u stat: the base record and four extension fields. */
  datatype StatEx = StatEx(base: Stat, extension: Text, nUid: u32, nGid: u32, nMuid: u32)

  datatype DirEntry = DirEntry(qid: Qid, offset: u64, typ: u8, name: Text)

  type SessionKey = k: seq<byte> | |k| == 8 witness [0, 0, 0, 0, 0, 0, 0, 0]

  // ------------------------------------------------------------------------
  // Records inside messages: writing order
  // ------------------------------------------------------------------------

  function QidFields(q: Qid): seq<Value> {
    [V8(q.typ), V32(q.version), V64(q.path)]
  }

  function StatFields(s: Stat): (vs: seq<Value>)
    ensures |vs| == 14
  {
    [V16(s.size), V16(s.typ), V32(s.dev)] + QidFields(s.qid) +
    [V32(s.mode), V32(s.atime), V32(s.mtime), V64(s.length),
     VText(s.name), VText(s.uid), VText(s.gid), VText(s.muid)]
  }

  function StatExFields(s: StatEx): (vs: seq<Value>)
    ensures |vs| == 18
  {
    StatFields(s.base) + [VText(s.extension), V32(s.nUid), V32(s.nGid), V32(s.nMuid)]
  }

  function KeyFields(k: SessionKey): seq<Value> {
    [V8(k[0]), V8(k[1]), V8(k[2]), V8(k[3]), V8(k[4]), V8(k[5]), V8(k[6]), V8(k[7])]
  }

  function DirEntryFields(e: DirEntry): seq<Value> {
    QidFields(e.qid) + [V64(e.offset), V8(e.typ), VText(e.name)]
  }

  // ------------------------------------------------------------------------
  // Records inside messages: reading order
  // ------------------------------------------------------------------------

  function QidKinds(): seq<Kind> { [U8, U32, U64] }

  function StatKinds(): seq<Kind> {
    [U16, U16, U32] + QidKinds() + [U32, U32, U32, U64, Str, Str, Str, Str]
  }

  function StatExKinds(): seq<Kind> { StatKinds() + [Str, U32, U32, U32] }

  function KeyKinds(): seq<Kind> { [U8, U8, U8, U8, U8, U8, U8, U8] }

  function DirEntryKinds(): seq<Kind> { QidKinds() + [U64, U8, Str] }

  // The base decoders that 9P2000.u runs before it reads its extension field.

  function AuthKinds(): seq<Kind> { [U32, Str, Str] }
  function AttachKinds(): seq<Kind> { [U32, U32, Str, Str] }
  function CreateKinds(): seq<Kind> { [U32, Str, U32, U8] }
  function ErrorKinds(): seq<Kind> { [Str] }

  // The i-th decoded value; the default stands for a field that was not assigned.

  function Num8(vs: seq<Value>, i: nat): u8 { if i < |vs| && vs[i].V8? then vs[i].n8 else 0 }
  function Num16(vs: seq<Value>, i: nat): u16 { if i < |vs| && vs[i].V16? then vs[i].n16 else 0 }
  function Num32(vs: seq<Value>, i: nat): u32 { if i < |vs| && vs[i].V32? then vs[i].n32 else 0 }
  function Num64(vs: seq<Value>, i: nat): u64 { if i < |vs| && vs[i].V64? then vs[i].n64 else 0 }
  function TextAt(vs: seq<Value>, i: nat): Text { if i < |vs| && vs[i].VText? then vs[i].text else [] }
  function DataAt(vs: seq<Value>, i: nat): Blob { if i < |vs| && vs[i].VData? then vs[i].data else [] }
  function PathAt(vs: seq<Value>, i: nat): Path { if i < |vs| && vs[i].VPath? then vs[i].segments else [] }
  function QidsAt(vs: seq<Value>, i: nat): QidArray { if i < |vs| && vs[i].VQids? then vs[i].qids else [] }

  function QidAt(vs: seq<Value>, i: nat): Qid {
    Qid(Num64(vs, i + 2), Num32(vs, i + 1), Num8(vs, i))
  }

  function StatAt(vs: seq<Value>, i: nat): Stat {
    Stat(Num16(vs, i), Num16(vs, i + 1), Num32(vs, i + 2), QidAt(vs, i + 3),
         Num32(vs, i + 6), Num32(vs, i + 7), Num32(vs, i + 8), Num64(vs, i + 9),
         TextAt(vs, i + 10), TextAt(vs, i + 11), TextAt(vs, i + 12), TextAt(vs, i + 13))
  }

  function StatExAt(vs: seq<Value>, i: nat): StatEx {
    StatEx(StatAt(vs, i), TextAt(vs, i + 14), Num32(vs, i + 15), Num32(vs, i + 16), Num32(vs, i + 17))
  }

  function KeyAt(vs: seq<Value>, i: nat): SessionKey {
    [Num8(vs, i), Num8(vs, i + 1), Num8(vs, i + 2), Num8(vs, i + 3),
     Num8(vs, i + 4), Num8(vs, i + 5), Num8(vs, i + 6), Num8(vs, i + 7)]
  }

  function DirEntryAt(vs: seq<Value>, i: nat): DirEntry {
    DirEntry(QidAt(vs, i), Num64(vs, i + 3), Num8(vs, i + 4), TextAt(vs, i + 5))
  }

  // ------------------------------------------------------------------------
  // Messages
  // ------------------------------------------------------------------------

  // 9P2000 requests

  datatype BaseRequest =
    | TVersion(msize: u32, version: Text)
    | TAuth(afid: u32, uname: Text, aname: Text)
    | TFlush(oldtag: u16)
    | TAttach(fid: u32, afid: u32, uname: Text, aname: Text)
    | TWalk(fid: u32, newfid: u32, path: Path)
    | TOpen(fid: u32, mode: u8)
    | TCreate(fid: u32, name: Text, perm: u32, mode: u8)
    | TRead(fid: u32, offset: u64, count: u32)
    | TWrite(fid: u32, offset: u64, data: Blob)
    | TClunk(fid: u32)
    | TRemove(fid: u32)
    | TStat(fid: u32)
    | TWStat(fid: u32, stat: Stat)

  datatype BaseRequestType =
    | ReqVersion | ReqAuth | ReqFlush | ReqAttach | ReqWalk | ReqOpen | ReqCreate | ReqRead
    | ReqWrite | ReqClunk | ReqRemove | ReqStat | ReqWStat

  function TypeOfBaseRequest(m: BaseRequest): BaseRequestType {
    match m
    case TVersion(_, _) => ReqVersion
    case TAuth(_, _, _) => ReqAuth
    case TFlush(_) => ReqFlush
    case TAttach(_, _, _, _) => ReqAttach
    case TWalk(_, _, _) => ReqWalk
    case TOpen(_, _) => ReqOpen
    case TCreate(_, _, _, _) => ReqCreate
    case TRead(_, _, _) => ReqRead
    case TWrite(_, _, _) => ReqWrite
    case TClunk(_) => ReqClunk
    case TRemove(_) => ReqRemove
    case TStat(_) => ReqStat
    case TWStat(_, _) => ReqWStat
  }

  function BaseRequestCode(t: BaseRequestType): u8 {
    match t
    case ReqVersion => 100
    case ReqAuth => 102
    case ReqFlush => 108
    case ReqAttach => 104
    case ReqWalk => 110
    case ReqOpen => 112
    case ReqCreate => 114
    case ReqRead => 116
    case ReqWrite => 118
    case ReqClunk => 120
    case ReqRemove => 122
    case ReqStat => 124
    case ReqWStat => 126
  }

  function BaseRequestFields(m: BaseRequest): seq<Value> {
    match m
    case TVersion(msize, version) => [V32(msize), VText(version)]
    case TAuth(afid, uname, aname) => [V32(afid), VText(uname), VText(aname)]
    case TFlush(oldtag) => [V16(oldtag)]
    case TAttach(fid, afid, uname, aname) => [V32(fid), V32(afid), VText(uname), VText(aname)]
    case TWalk(fid, newfid, path) => [V32(fid), V32(newfid), VPath(path)]
    case TOpen(fid, mode) => [V32(fid), V8(mode)]
    case TCreate(fid, name, perm, mode) => [V32(fid), VText(name), V32(perm), V8(mode)]
    case TRead(fid, offset, count) => [V32(fid), V64(offset), V32(count)]
    case TWrite(fid, offset, data) => [V32(fid), V64(offset), VData(data)]
    case TClunk(fid) => [V32(fid)]
    case TRemove(fid) => [V32(fid)]
    case TStat(fid) => [V32(fid)]
    case TWStat(fid, stat) => [V32(fid)] + StatFields(stat)
  }

  function BaseRequestKinds(t: BaseRequestType): seq<Kind> {
    match t
    case ReqVersion => [U32, Str]
    case ReqAuth => AuthKinds()
    case ReqFlush => [U16]
    case ReqAttach => AttachKinds()
    case ReqWalk => [U32, U32, Segments]
    case ReqOpen => [U32, U8]
    case ReqCreate => CreateKinds()
    case ReqRead => [U32, U64, U32]
    case ReqWrite => [U32, U64, Data]
    case ReqClunk => [U32]
    case ReqRemove => [U32]
    case ReqStat => [U32]
    case ReqWStat => [U32] + StatKinds()
  }

  function AssembleBaseRequest(t: BaseRequestType, vs: seq<Value>): BaseRequest {
    match t
    case ReqVersion => TVersion(Num32(vs, 0), TextAt(vs, 1))
    case ReqAuth => TAuth(Num32(vs, 0), TextAt(vs, 1), TextAt(vs, 2))
    case ReqFlush => TFlush(Num16(vs, 0))
    case ReqAttach => TAttach(Num32(vs, 0), Num32(vs, 1), TextAt(vs, 2), TextAt(vs, 3))
    case ReqWalk => TWalk(Num32(vs, 0), Num32(vs, 1), PathAt(vs, 2))
    case ReqOpen => TOpen(Num32(vs, 0), Num8(vs, 1))
    case ReqCreate => TCreate(Num32(vs, 0), TextAt(vs, 1), Num32(vs, 2), Num8(vs, 3))
    case ReqRead => TRead(Num32(vs, 0), Num64(vs, 1), Num32(vs, 2))
    case ReqWrite => TWrite(Num32(vs, 0), Num64(vs, 1), DataAt(vs, 2))
    case ReqClunk => TClunk(Num32(vs, 0))
    case ReqRemove => TRemove(Num32(vs, 0))
    case ReqStat => TStat(Num32(vs, 0))
    case ReqWStat => TWStat(Num32(vs, 0), StatAt(vs, 1))
  }

  // 9P2000.u: base messages extended by further fields requests

  datatype UnixRequest =
    | TAuthU(afid: u32, uname: Text, aname: Text, nUname: u32)
    | TAttachU(fid: u32, afid: u32, uname: Text, aname: Text, nUname: u32)
    | TCreateU(fid: u32, name: Text, perm: u32, mode: u8, extension: Text)
    | TWStatU(fid: u32, statEx: StatEx)

  datatype UnixRequestType =
    | ReqAuthU | ReqAttachU | ReqCreateU | ReqWStatU

  function TypeOfUnixRequest(m: UnixRequest): UnixRequestType {
    match m
    case TAuthU(_, _, _, _) => ReqAuthU
    case TAttachU(_, _, _, _, _) => ReqAttachU
    case TCreateU(_, _, _, _, _) => ReqCreateU
    case TWStatU(_, _) => ReqWStatU
  }

  function UnixRequestCode(t: UnixRequestType): u8 {
    match t
    case ReqAuthU => 102
    case ReqAttachU => 104
    case ReqCreateU => 114
    case ReqWStatU => 126
  }

  function UnixRequestFields(m: UnixRequest): seq<Value> {
    match m
    case TAuthU(afid, uname, aname, nUname) => [V32(afid), VText(uname), VText(aname), V32(nUname)]
    case TAttachU(fid, afid, uname, aname, nUname) => [V32(fid), V32(afid), VText(uname), VText(aname), V32(nUname)]
    case TCreateU(fid, name, perm, mode, extension) => [V32(fid), VText(name), V32(perm), V8(mode), VText(extension)]
    case TWStatU(fid, statEx) => [V32(fid)] + StatExFields(statEx)
  }

  function UnixRequestKinds(t: UnixRequestType): seq<Kind> {
    match t
    case ReqAuthU => AuthKinds() + [U32]
    case ReqAttachU => AttachKinds() + [U32]
    case ReqCreateU => CreateKinds() + [Str]
    case ReqWStatU => [U32] + StatExKinds()
  }

  function AssembleUnixRequest(t: UnixRequestType, vs: seq<Value>): UnixRequest {
    match t
    case ReqAuthU => TAuthU(Num32(vs, 0), TextAt(vs, 1), TextAt(vs, 2), Num32(vs, 3))
    case ReqAttachU => TAttachU(Num32(vs, 0), Num32(vs, 1), TextAt(vs, 2), TextAt(vs, 3), Num32(vs, 4))
    case ReqCreateU => TCreateU(Num32(vs, 0), TextAt(vs, 1), Num32(vs, 2), Num8(vs, 3), TextAt(vs, 4))
    case ReqWStatU => TWStatU(Num32(vs, 0), StatExAt(vs, 1))
  }

  // 9P2000.e requests

  datatype ErlangRequest =
    | TSession(key: SessionKey)
    | TShortRead(fid: u32, path: Path)
    | TShortWrite(fid: u32, path: Path, data: Blob)

  datatype ErlangRequestType =
    | ReqSession | ReqShortRead | ReqShortWrite

  function TypeOfErlangRequest(m: ErlangRequest): ErlangRequestType {
    match m
    case TSession(_) => ReqSession
    case TShortRead(_, _) => ReqShortRead
    case TShortWrite(_, _, _) => ReqShortWrite
  }

  function ErlangRequestCode(t: ErlangRequestType): u8 {
    match t
    case ReqSession => 150
    case ReqShortRead => 152
    case ReqShortWrite => 154
  }

  function ErlangRequestFields(m: ErlangRequest): seq<Value> {
    match m
    case TSession(key) => KeyFields(key)
    case TShortRead(fid, path) => [V32(fid), VPath(path)]
    case TShortWrite(fid, path, data) => [V32(fid), VPath(path), VData(data)]
  }

  function ErlangRequestKinds(t: ErlangRequestType): seq<Kind> {
    match t
    case ReqSession => KeyKinds()
    case ReqShortRead => [U32, Segments]
    case ReqShortWrite => [U32, Segments, Data]
  }

  function AssembleErlangRequest(t: ErlangRequestType, vs: seq<Value>): ErlangRequest {
    match t
    case ReqSession => TSession(KeyAt(vs, 0))
    case ReqShortRead => TShortRead(Num32(vs, 0), PathAt(vs, 1))
    case ReqShortWrite => TShortWrite(Num32(vs, 0), PathAt(vs, 1), DataAt(vs, 2))
  }

  // 9P2000.L requests

  datatype LinuxRequest =
    | TStatFS(fid: u32)
    | TLOpen(fid: u32, flags: u32)
    | TLCreate(fid: u32, name: Text, flags: u32, bits: u32, gid: u32)
    | TSymlink(fid: u32, name: Text, symtgt: Text, gid: u32)
    | TMkNode(dfid: u32, name: Text, bits: u32, major: u32, minor: u32, gid: u32)
    | TRename(fid: u32, dfid: u32, name: Text)
    | TReadLink(fid: u32)
    | TGetAttr(fid: u32, requestMask: u64)
    | TSetAttr(fid: u32, valid: u32, bits: u32, uid: u32, gid: u32, size: u64, atimeSec: u64,
        atimeNsec: u64, mtimeSec: u64, mtimeNsec: u64)
    | TXAttrWalk(fid: u32, newfid: u32, name: Text)
    | TXAttrCreate(fid: u32, name: Text, attrSize: u64, flags: u32)
    | TReadDir(fid: u32, offset: u64, count: u32)
    | TFSync(fid: u32)
    | TLock(fid: u32, typ: u8, flags: u32, start: u64, length: u64, procId: u32, clientId: Text)
    | TGetLock(fid: u32, typ: u8, start: u64, length: u64, procId: u32, clientId: Text)
    | TLink(dfid: u32, fid: u32, name: Text)
    | TMkDir(dfid: u32, name: Text, bits: u32, gid: u32)
    | TRenameAt(olddirfid: u32, oldname: Text, newdirfid: u32, newname: Text)
    | TUnlinkAt(dfid: u32, name: Text, flags: u32)

  datatype LinuxRequestType =
    | ReqStatFS | ReqLOpen | ReqLCreate | ReqSymlink | ReqMkNode | ReqRename | ReqReadLink
    | ReqGetAttr | ReqSetAttr | ReqXAttrWalk | ReqXAttrCreate | ReqReadDir | ReqFSync | ReqLock
    | ReqGetLock | ReqLink | ReqMkDir | ReqRenameAt | ReqUnlinkAt

  function TypeOfLinuxRequest(m: LinuxRequest): LinuxRequestType {
    match m
    case TStatFS(_) => ReqStatFS
    case TLOpen(_, _) => ReqLOpen
    case TLCreate(_, _, _, _, _) => ReqLCreate
    case TSymlink(_, _, _, _) => ReqSymlink
    case TMkNode(_, _, _, _, _, _) => ReqMkNode
    case TRename(_, _, _) => ReqRename
    case TReadLink(_) => ReqReadLink
    case TGetAttr(_, _) => ReqGetAttr
    case TSetAttr(_, _, _, _, _, _, _, _, _, _) => ReqSetAttr
    case TXAttrWalk(_, _, _) => ReqXAttrWalk
    case TXAttrCreate(_, _, _, _) => ReqXAttrCreate
    case TReadDir(_, _, _) => ReqReadDir
    case TFSync(_) => ReqFSync
    case TLock(_, _, _, _, _, _, _) => ReqLock
    case TGetLock(_, _, _, _, _, _) => ReqGetLock
    case TLink(_, _, _) => ReqLink
    case TMkDir(_, _, _, _) => ReqMkDir
    case TRenameAt(_, _, _, _) => ReqRenameAt
    case TUnlinkAt(_, _, _) => ReqUnlinkAt
  }

  function LinuxRequestCode(t: LinuxRequestType): u8 {
    match t
    case ReqStatFS => 8
    case ReqLOpen => 12
    case ReqLCreate => 14
    case ReqSymlink => 16
    case ReqMkNode => 18
    case ReqRename => 20
    case ReqReadLink => 22
    case ReqGetAttr => 24
    case ReqSetAttr => 26
    case ReqXAttrWalk => 30
    case ReqXAttrCreate => 32
    case ReqReadDir => 40
    case ReqFSync => 50
    case ReqLock => 52
    case ReqGetLock => 54
    case ReqLink => 60
    case ReqMkDir => 72
    case ReqRenameAt => 74
    case ReqUnlinkAt => 76
  }

  function LinuxRequestFields(m: LinuxRequest): seq<Value> {
    match m
    case TStatFS(fid) => [V32(fid)]
    case TLOpen(fid, flags) => [V32(fid), V32(flags)]
    case TLCreate(fid, name, flags, bits, gid) => [V32(fid), VText(name), V32(flags), V32(bits), V32(gid)]
    case TSymlink(fid, name, symtgt, gid) => [V32(fid), VText(name), VText(symtgt), V32(gid)]
    case TMkNode(dfid, name, bits, major, minor, gid) =>
      [V32(dfid), VText(name), V32(bits), V32(major), V32(minor), V32(gid)]
    case TRename(fid, dfid, name) => [V32(fid), V32(dfid), VText(name)]
    case TReadLink(fid) => [V32(fid)]
    case TGetAttr(fid, requestMask) => [V32(fid), V64(requestMask)]
    case TSetAttr(fid, valid, bits, uid, gid, size, atimeSec, atimeNsec, mtimeSec, mtimeNsec) =>
      [V32(fid), V32(valid), V32(bits), V32(uid), V32(gid), V64(size), V64(atimeSec), V64(atimeNsec),
       V64(mtimeSec), V64(mtimeNsec)]
    case TXAttrWalk(fid, newfid, name) => [V32(fid), V32(newfid), VText(name)]
    case TXAttrCreate(fid, name, attrSize, flags) => [V32(fid), VText(name), V64(attrSize), V32(flags)]
    case TReadDir(fid, offset, count) => [V32(fid), V64(offset), V32(count)]
    case TFSync(fid) => [V32(fid)]
    case TLock(fid, typ, flags, start, length, procId, clientId) =>
      [V32(fid), V8(typ), V32(flags), V64(start), V64(length), V32(procId), VText(clientId)]
    case TGetLock(fid, typ, start, length, procId, clientId) =>
      [V32(fid), V8(typ), V64(start), V64(length), V32(procId), VText(clientId)]
    case TLink(dfid, fid, name) => [V32(dfid), V32(fid), VText(name)]
    case TMkDir(dfid, name, bits, gid) => [V32(dfid), VText(name), V32(bits), V32(gid)]
    case TRenameAt(olddirfid, oldname, newdirfid, newname) =>
      [V32(olddirfid), VText(oldname), V32(newdirfid), VText(newname)]
    case TUnlinkAt(dfid, name, flags) => [V32(dfid), VText(name), V32(flags)]
  }

  function LinuxRequestKinds(t: LinuxRequestType): seq<Kind> {
    match t
    case ReqStatFS => [U32]
    case ReqLOpen => [U32, U32]
    case ReqLCreate => [U32, Str, U32, U32, U32]
    case ReqSymlink => [U32, Str, Str, U32]
    case ReqMkNode => [U32, Str, U32, U32, U32, U32]
    case ReqRename => [U32, U32, Str]
    case ReqReadLink => [U32]
    case ReqGetAttr => [U32, U64]
    case ReqSetAttr => [U32, U32, U32, U32, U32, U64, U64, U64, U64, U64]
    case ReqXAttrWalk => [U32, U32, Str]
    case ReqXAttrCreate => [U32, Str, U64, U32]
    case ReqReadDir => [U32, U64, U32]
    case ReqFSync => [U32]
    case ReqLock => [U32, U8, U32, U64, U64, U32, Str]
    case ReqGetLock => [U32, U8, U64, U64, U32, Str]
    case ReqLink => [U32, U32, Str]
    case ReqMkDir => [U32, Str, U32, U32]
    case ReqRenameAt => [U32, Str, U32, Str]
    case ReqUnlinkAt => [U32, Str, U32]
  }

  function AssembleLinuxRequest(t: LinuxRequestType, vs: seq<Value>): LinuxRequest {
    match t
    case ReqStatFS => TStatFS(Num32(vs, 0))
    case ReqLOpen => TLOpen(Num32(vs, 0), Num32(vs, 1))
    case ReqLCreate => TLCreate(Num32(vs, 0), TextAt(vs, 1), Num32(vs, 2), Num32(vs, 3), Num32(vs, 4))
    case ReqSymlink => TSymlink(Num32(vs, 0), TextAt(vs, 1), TextAt(vs, 2), Num32(vs, 3))
    case ReqMkNode => TMkNode(Num32(vs, 0), TextAt(vs, 1), Num32(vs, 2), Num32(vs, 3), Num32(vs, 4), Num32(vs, 5))
    case ReqRename => TRename(Num32(vs, 0), Num32(vs, 1), TextAt(vs, 2))
    case ReqReadLink => TReadLink(Num32(vs, 0))
    case ReqGetAttr => TGetAttr(Num32(vs, 0), Num64(vs, 1))
    case ReqSetAttr =>
      TSetAttr(Num32(vs, 0), Num32(vs, 1), Num32(vs, 2), Num32(vs, 3), Num32(vs, 4), Num64(vs, 5), Num64(vs, 6),
               Num64(vs, 7), Num64(vs, 8), Num64(vs, 9))
    case ReqXAttrWalk => TXAttrWalk(Num32(vs, 0), Num32(vs, 1), TextAt(vs, 2))
    case ReqXAttrCreate => TXAttrCreate(Num32(vs, 0), TextAt(vs, 1), Num64(vs, 2), Num32(vs, 3))
    case ReqReadDir => TReadDir(Num32(vs, 0), Num64(vs, 1), Num32(vs, 2))
    case ReqFSync => TFSync(Num32(vs, 0))
    case ReqLock =>
      TLock(Num32(vs, 0), Num8(vs, 1), Num32(vs, 2), Num64(vs, 3), Num64(vs, 4), Num32(vs, 5), TextAt(vs, 6))
    case ReqGetLock => TGetLock(Num32(vs, 0), Num8(vs, 1), Num64(vs, 2), Num64(vs, 3), Num32(vs, 4), TextAt(vs, 5))
    case ReqLink => TLink(Num32(vs, 0), Num32(vs, 1), TextAt(vs, 2))
    case ReqMkDir => TMkDir(Num32(vs, 0), TextAt(vs, 1), Num32(vs, 2), Num32(vs, 3))
    case ReqRenameAt => TRenameAt(Num32(vs, 0), TextAt(vs, 1), Num32(vs, 2), TextAt(vs, 3))
    case ReqUnlinkAt => TUnlinkAt(Num32(vs, 0), TextAt(vs, 1), Num32(vs, 2))
  }

  // 9P2000 responses

  datatype BaseResponse =
    | RVersion(msize: u32, version: Text)
    | RAuth(qid: Qid)
    | RAttach(qid: Qid)
    | RError(ename: Text)
    | RFlush
    | RWalk(qids: QidArray)
    | ROpen(qid: Qid, iounit: u32)
    | RCreate(qid: Qid, iounit: u32)
    | RRead(data: Blob)
    | RWrite(count: u32)
    | RClunk
    | RRemove
    | RStat(dummySize: u16, stat: Stat)
    | RWStat

  datatype BaseResponseType =
    | RspVersion | RspAuth | RspAttach | RspError | RspFlush | RspWalk | RspOpen | RspCreate
    | RspRead | RspWrite | RspClunk | RspRemove | RspStat | RspWStat

  function TypeOfBaseResponse(m: BaseResponse): BaseResponseType {
    match m
    case RVersion(_, _) => RspVersion
    case RAuth(_) => RspAuth
    case RAttach(_) => RspAttach
    case RError(_) => RspError
    case RFlush => RspFlush
    case RWalk(_) => RspWalk
    case ROpen(_, _) => RspOpen
    case RCreate(_, _) => RspCreate
    case RRead(_) => RspRead
    case RWrite(_) => RspWrite
    case RClunk => RspClunk
    case RRemove => RspRemove
    case RStat(_, _) => RspStat
    case RWStat => RspWStat
  }

  function BaseResponseCode(t: BaseResponseType): u8 {
    match t
    case RspVersion => 101
    case RspAuth => 103
    case RspAttach => 105
    case RspError => 107
    case RspFlush => 109
    case RspWalk => 111
    case RspOpen => 113
    case RspCreate => 115
    case RspRead => 117
    case RspWrite => 119
    case RspClunk => 121
    case RspRemove => 123
    case RspStat => 125
    case RspWStat => 127
  }

  function BaseResponseFields(m: BaseResponse): seq<Value> {
    match m
    case RVersion(msize, version) => [V32(msize), VText(version)]
    case RAuth(qid) => QidFields(qid)
    case RAttach(qid) => QidFields(qid)
    case RError(ename) => [VText(ename)]
    case RFlush => []
    case RWalk(qids) => [VQids(qids)]
    case ROpen(qid, iounit) => QidFields(qid) + [V32(iounit)]
    case RCreate(qid, iounit) => QidFields(qid) + [V32(iounit)]
    case RRead(data) => [VData(data)]
    case RWrite(count) => [V32(count)]
    case RClunk => []
    case RRemove => []
    case RStat(dummySize, stat) => [V16(dummySize)] + StatFields(stat)
    case RWStat => []
  }

  function BaseResponseKinds(t: BaseResponseType): seq<Kind> {
    match t
    case RspVersion => [U32, Str]
    case RspAuth => QidKinds()
    case RspAttach => QidKinds()
    case RspError => ErrorKinds()
    case RspFlush => []
    case RspWalk => [Qids]
    case RspOpen => QidKinds() + [U32]
    case RspCreate => QidKinds() + [U32]
    case RspRead => [Data]
    case RspWrite => [U32]
    case RspClunk => []
    case RspRemove => []
    case RspStat => [U16] + StatKinds()
    case RspWStat => []
  }

  function AssembleBaseResponse(t: BaseResponseType, vs: seq<Value>): BaseResponse {
    match t
    case RspVersion => RVersion(Num32(vs, 0), TextAt(vs, 1))
    case RspAuth => RAuth(QidAt(vs, 0))
    case RspAttach => RAttach(QidAt(vs, 0))
    case RspError => RError(TextAt(vs, 0))
    case RspFlush => RFlush
    case RspWalk => RWalk(QidsAt(vs, 0))
    case RspOpen => ROpen(QidAt(vs, 0), Num32(vs, 3))
    case RspCreate => RCreate(QidAt(vs, 0), Num32(vs, 3))
    case RspRead => RRead(DataAt(vs, 0))
    case RspWrite => RWrite(Num32(vs, 0))
    case RspClunk => RClunk
    case RspRemove => RRemove
    case RspStat => RStat(Num16(vs, 0), StatAt(vs, 1))
    case RspWStat => RWStat
  }

  // 9P2000.u: base messages extended by further fields responses

  datatype UnixResponse =
    | RErrorU(ename: Text, errcode: u32)
    | RStatU(dummySize: u16, statEx: StatEx)

  datatype UnixResponseType =
    | RspErrorU | RspStatU

  function TypeOfUnixResponse(m: UnixResponse): UnixResponseType {
    match m
    case RErrorU(_, _) => RspErrorU
    case RStatU(_, _) => RspStatU
  }

  function UnixResponseCode(t: UnixResponseType): u8 {
    match t
    case RspErrorU => 107
    case RspStatU => 125
  }

  function UnixResponseFields(m: UnixResponse): seq<Value> {
    match m
    case RErrorU(ename, errcode) => [VText(ename), V32(errcode)]
    case RStatU(dummySize, statEx) => [V16(dummySize)] + StatExFields(statEx)
  }

  function UnixResponseKinds(t: UnixResponseType): seq<Kind> {
    match t
    case RspErrorU => ErrorKinds() + [U32]
    case RspStatU => [U16] + StatExKinds()
  }

  function AssembleUnixResponse(t: UnixResponseType, vs: seq<Value>): UnixResponse {
    match t
    case RspErrorU => RErrorU(TextAt(vs, 0), Num32(vs, 1))
    case RspStatU => RStatU(Num16(vs, 0), StatExAt(vs, 1))
  }

  // 9P2000.e responses

  datatype ErlangResponse =
    | RSession
    | RShortRead(data: Blob)
    | RShortWrite(count: u32)

  datatype ErlangResponseType =
    | RspSession | RspShortRead | RspShortWrite

  function TypeOfErlangResponse(m: ErlangResponse): ErlangResponseType {
    match m
    case RSession => RspSession
    case RShortRead(_) => RspShortRead
    case RShortWrite(_) => RspShortWrite
  }

  function ErlangResponseCode(t: ErlangResponseType): u8 {
    match t
    case RspSession => 151
    case RspShortRead => 153
    case RspShortWrite => 155
  }

  function ErlangResponseFields(m: ErlangResponse): seq<Value> {
    match m
    case RSession => []
    case RShortRead(data) => [VData(data)]
    case RShortWrite(count) => [V32(count)]
  }

  function ErlangResponseKinds(t: ErlangResponseType): seq<Kind> {
    match t
    case RspSession => []
    case RspShortRead => [Data]
    case RspShortWrite => [U32]
  }

  function AssembleErlangResponse(t: ErlangResponseType, vs: seq<Value>): ErlangResponse {
    match t
    case RspSession => RSession
    case RspShortRead => RShortRead(DataAt(vs, 0))
    case RspShortWrite => RShortWrite(Num32(vs, 0))
  }

  // 9P2000.L responses

  datatype LinuxResponse =
    | RLError(ecode: u32)
    | RStatFS(fsType: u32, bsize: u32, blocks: u64, bfree: u64, bavail: u64, files: u64, ffree: u64,
        fsid: u64, namelen: u32)
    | RLOpen(qid: Qid, iounit: u32)
    | RLCreate(qid: Qid, iounit: u32)
    | RSymlink(qid: Qid)
    | RMkNode(qid: Qid)
    | RRename
    | RReadLink(target: Text)
    | RGetAttr(qid: Qid, valid: u64, bits: u32, uid: u32, gid: u32, size: u64, atimeSec: u64,
        atimeNsec: u64, mtimeSec: u64, mtimeNsec: u64, ctimeSec: u64, ctimeNsec: u64, nlink: u64,
        rdev: u64, blksize: u64, blocks: u64, btimeSec: u64, btimeNsec: u64, gen: u64,
        dataVersion: u64)
    | RSetAttr
    | RXAttrWalk(size: u64)
    | RXAttrCreate
    | RReadDir(data: Blob)
    | RFSync
    | RLock(status: u8)
    | RGetLock(typ: u8, start: u64, length: u64, procId: u32, clientId: Text)
    | RLink
    | RMkDir(qid: Qid)
    | RRenameAt
    | RUnlinkAt

  datatype LinuxResponseType =
    | RspLError | RspStatFS | RspLOpen | RspLCreate | RspSymlink | RspMkNode | RspRename
    | RspReadLink | RspGetAttr | RspSetAttr | RspXAttrWalk | RspXAttrCreate | RspReadDir | RspFSync
    | RspLock | RspGetLock | RspLink | RspMkDir | RspRenameAt | RspUnlinkAt

  function TypeOfLinuxResponse(m: LinuxResponse): LinuxResponseType {
    match m
    case RLError(_) => RspLError
    case RStatFS(_, _, _, _, _, _, _, _, _) => RspStatFS
    case RLOpen(_, _) => RspLOpen
    case RLCreate(_, _) => RspLCreate
    case RSymlink(_) => RspSymlink
    case RMkNode(_) => RspMkNode
    case RRename => RspRename
    case RReadLink(_) => RspReadLink
    case RGetAttr(_, _, _, _, _, _, _, _, _, _, _, _, _, _, _, _, _, _, _, _) => RspGetAttr
    case RSetAttr => RspSetAttr
    case RXAttrWalk(_) => RspXAttrWalk
    case RXAttrCreate => RspXAttrCreate
    case RReadDir(_) => RspReadDir
    case RFSync => RspFSync
    case RLock(_) => RspLock
    case RGetLock(_, _, _, _, _) => RspGetLock
    case RLink => RspLink
    case RMkDir(_) => RspMkDir
    case RRenameAt => RspRenameAt
    case RUnlinkAt => RspUnlinkAt
  }

  function LinuxResponseCode(t: LinuxResponseType): u8 {
    match t
    case RspLError => 7
    case RspStatFS => 9
    case RspLOpen => 13
    case RspLCreate => 15
    case RspSymlink => 17
    case RspMkNode => 19
    case RspRename => 21
    case RspReadLink => 23
    case RspGetAttr => 25
    case RspSetAttr => 27
    case RspXAttrWalk => 31
    case RspXAttrCreate => 33
    case RspReadDir => 41
    case RspFSync => 51
    case RspLock => 53
    case RspGetLock => 55
    case RspLink => 61
    case RspMkDir => 73
    case RspRenameAt => 75
    case RspUnlinkAt => 77
  }

  function LinuxResponseFields(m: LinuxResponse): seq<Value> {
    match m
    case RLError(ecode) => [V32(ecode)]
    case RStatFS(fsType, bsize, blocks, bfree, bavail, files, ffree, fsid, namelen) =>
      [V32(fsType), V32(bsize), V64(blocks), V64(bfree), V64(bavail), V64(files), V64(ffree), V64(fsid),
       V32(namelen)]
    case RLOpen(qid, iounit) => QidFields(qid) + [V32(iounit)]
    case RLCreate(qid, iounit) => QidFields(qid) + [V32(iounit)]
    case RSymlink(qid) => QidFields(qid)
    case RMkNode(qid) => QidFields(qid)
    case RRename => []
    case RReadLink(target) => [VText(target)]
    case RGetAttr(qid, valid, bits, uid, gid, size, atimeSec, atimeNsec, mtimeSec, mtimeNsec, ctimeSec, ctimeNsec,
                  nlink, rdev, blksize, blocks, btimeSec, btimeNsec, gen, dataVersion) =>
      [V64(valid)] + QidFields(qid) + [V32(bits), V32(uid), V32(gid), V64(nlink), V64(rdev), V64(size),
       V64(blksize), V64(blocks), V64(atimeSec), V64(atimeNsec), V64(mtimeSec), V64(mtimeNsec),
       V64(ctimeSec), V64(ctimeNsec), V64(btimeSec), V64(btimeNsec), V64(gen), V64(dataVersion)]
    case RSetAttr => []
    case RXAttrWalk(size) => [V64(size)]
    case RXAttrCreate => []
    case RReadDir(data) => [VData(data)]
    case RFSync => []
    case RLock(status) => [V8(status)]
    case RGetLock(typ, start, length, procId, clientId) =>
      [V8(typ), V64(start), V64(length), V32(procId), VText(clientId)]
    case RLink => []
    case RMkDir(qid) => QidFields(qid)
    case RRenameAt => []
    case RUnlinkAt => []
  }

  function LinuxResponseKinds(t: LinuxResponseType): seq<Kind> {
    match t
    case RspLError => [U32]
    case RspStatFS => [U32, U32, U64, U64, U64, U64, U64, U64, U32]
    case RspLOpen => QidKinds() + [U32]
    case RspLCreate => QidKinds() + [U32]
    case RspSymlink => QidKinds()
    case RspMkNode => QidKinds()
    case RspRename => []
    case RspReadLink => [Str]
    case RspGetAttr =>
      [U64] + QidKinds() +
      [U32, U32, U32, U64, U64, U64, U64, U64, U64, U64, U64, U64, U64, U64, U64, U64, U64, U64]
    case RspSetAttr => []
    case RspXAttrWalk => [U64]
    case RspXAttrCreate => []
    case RspReadDir => [Data]
    case RspFSync => []
    case RspLock => [U8]
    case RspGetLock => [U8, U64, U64, U32, Str]
    case RspLink => []
    case RspMkDir => QidKinds()
    case RspRenameAt => []
    case RspUnlinkAt => []
  }

  function AssembleLinuxResponse(t: LinuxResponseType, vs: seq<Value>): LinuxResponse {
    match t
    case RspLError => RLError(Num32(vs, 0))
    case RspStatFS =>
      RStatFS(Num32(vs, 0), Num32(vs, 1), Num64(vs, 2), Num64(vs, 3), Num64(vs, 4), Num64(vs, 5), Num64(vs, 6),
              Num64(vs, 7), Num32(vs, 8))
    case RspLOpen => RLOpen(QidAt(vs, 0), Num32(vs, 3))
    case RspLCreate => RLCreate(QidAt(vs, 0), Num32(vs, 3))
    case RspSymlink => RSymlink(QidAt(vs, 0))
    case RspMkNode => RMkNode(QidAt(vs, 0))
    case RspRename => RRename
    case RspReadLink => RReadLink(TextAt(vs, 0))
    case RspGetAttr =>
      RGetAttr(QidAt(vs, 1), Num64(vs, 0), Num32(vs, 4), Num32(vs, 5), Num32(vs, 6), Num64(vs, 9), Num64(vs, 12),
               Num64(vs, 13), Num64(vs, 14), Num64(vs, 15), Num64(vs, 16), Num64(vs, 17), Num64(vs, 7),
               Num64(vs, 8), Num64(vs, 10), Num64(vs, 11), Num64(vs, 18), Num64(vs, 19), Num64(vs, 20),
               Num64(vs, 21))
    case RspSetAttr => RSetAttr
    case RspXAttrWalk => RXAttrWalk(Num64(vs, 0))
    case RspXAttrCreate => RXAttrCreate
    case RspReadDir => RReadDir(DataAt(vs, 0))
    case RspFSync => RFSync
    case RspLock => RLock(Num8(vs, 0))
    case RspGetLock => RGetLock(Num8(vs, 0), Num64(vs, 1), Num64(vs, 2), Num32(vs, 3), TextAt(vs, 4))
    case RspLink => RLink
    case RspMkDir => RMkDir(QidAt(vs, 0))
    case RspRenameAt => RRenameAt
    case RspUnlinkAt => RUnlinkAt
  }

  // ------------------------------------------------------------------------
  // All messages
  // ------------------------------------------------------------------------

  datatype Request =
    | Base(base: BaseRequest)
    | Unix(unix: UnixRequest)
    | Erlang(erlang: ErlangRequest)
    | Linux(linux: LinuxRequest)

  /** The alternatives of the request variant; each has its own decoder. */
  datatype RequestType =
    | BaseReq(base: BaseRequestType)
    | UnixReq(unix: UnixRequestType)
    | ErlangReq(erlang: ErlangRequestType)
    | LinuxReq(linux: LinuxRequestType)

  function TypeOfRequest(m: Request): RequestType {
    match m
    case Base(b) => BaseReq(TypeOfBaseRequest(b))
    case Unix(u) => UnixReq(TypeOfUnixRequest(u))
    case Erlang(e) => ErlangReq(TypeOfErlangRequest(e))
    case Linux(l) => LinuxReq(TypeOfLinuxRequest(l))
  }

  function RequestCode(t: RequestType): u8 {
    match t
    case BaseReq(b) => BaseRequestCode(b)
    case UnixReq(u) => UnixRequestCode(u)
    case ErlangReq(e) => ErlangRequestCode(e)
    case LinuxReq(l) => LinuxRequestCode(l)
  }

  function RequestFields(m: Request): seq<Value> {
    match m
    case Base(b) => BaseRequestFields(b)
    case Unix(u) => UnixRequestFields(u)
    case Erlang(e) => ErlangRequestFields(e)
    case Linux(l) => LinuxRequestFields(l)
  }

  function RequestKinds(t: RequestType): seq<Kind> {
    match t
    case BaseReq(b) => BaseRequestKinds(b)
    case UnixReq(u) => UnixRequestKinds(u)
    case ErlangReq(e) => ErlangRequestKinds(e)
    case LinuxReq(l) => LinuxRequestKinds(l)
  }

  function AssembleRequest(t: RequestType, vs: seq<Value>): Request {
    match t
    case BaseReq(b) => Base(AssembleBaseRequest(b, vs))
    case UnixReq(u) => Unix(AssembleUnixRequest(u, vs))
    case ErlangReq(e) => Erlang(AssembleErlangRequest(e, vs))
    case LinuxReq(l) => Linux(AssembleLinuxRequest(l, vs))
  }

  datatype Response =
    | BaseR(base: BaseResponse)
    | UnixR(unix: UnixResponse)
    | ErlangR(erlang: ErlangResponse)
    | LinuxR(linux: LinuxResponse)

  datatype ResponseType =
    | BaseRsp(base: BaseResponseType)
    | UnixRsp(unix: UnixResponseType)
    | ErlangRsp(erlang: ErlangResponseType)
    | LinuxRsp(linux: LinuxResponseType)

  function TypeOfResponse(m: Response): ResponseType {
    match m
    case BaseR(b) => BaseRsp(TypeOfBaseResponse(b))
    case UnixR(u) => UnixRsp(TypeOfUnixResponse(u))
    case ErlangR(e) => ErlangRsp(TypeOfErlangResponse(e))
    case LinuxR(l) => LinuxRsp(TypeOfLinuxResponse(l))
  }

  function ResponseCode(t: ResponseType): u8 {
    match t
    case BaseRsp(b) => BaseResponseCode(b)
    case UnixRsp(u) => UnixResponseCode(u)
    case ErlangRsp(e) => ErlangResponseCode(e)
    case LinuxRsp(l) => LinuxResponseCode(l)
  }

  function ResponseFields(m: Response): seq<Value> {
    match m
    case BaseR(b) => BaseResponseFields(b)
    case UnixR(u) => UnixResponseFields(u)
    case ErlangR(e) => ErlangResponseFields(e)
    case LinuxR(l) => LinuxResponseFields(l)
  }

  function ResponseKinds(t: ResponseType): seq<Kind> {
    match t
    case BaseRsp(b) => BaseResponseKinds(b)
    case UnixRsp(u) => UnixResponseKinds(u)
    case ErlangRsp(e) => ErlangResponseKinds(e)
    case LinuxRsp(l) => LinuxResponseKinds(l)
  }

  function AssembleResponse(t: ResponseType, vs: seq<Value>): Response {
    match t
    case BaseRsp(b) => BaseR(AssembleBaseResponse(b, vs))
    case UnixRsp(u) => UnixR(AssembleUnixResponse(u, vs))
    case ErlangRsp(e) => ErlangR(AssembleErlangResponse(e, vs))
    case LinuxRsp(l) => LinuxR(AssembleLinuxResponse(l, vs))
  }
}
