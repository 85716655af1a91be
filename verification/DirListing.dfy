/**
 The directory listing writer: a read response filled entry by entry, with two
 lengths patched after each entry.
 */
module DirListing {
  import opened Bytes
  import opened Fields
  import opened Messages
  import opened Framing
  import opened Streams
  import opened Writers
  import opened Partials
  import opened Refinement
  import opened Paging

  // ------------------------------------------------------------------------
  // Encoded stats
  // ------------------------------------------------------------------------

  function ValueSize(v: Value): nat {
    match v
    case V8(_) => 1
    case V16(_) => 2
    case V32(_) => 4
    case V64(_) => 8
    case VText(s) => 2 + |s|
    case VData(d) => 4 + |d|
    case VPath(p) => |EncodeOne(v)|
    case VQids(q) => 2 + 13 * |q|
  }

  /** `protocolSize(Stat)` */
  function StatSize(s: Stat): nat {
    2 + 2 + 4 + 13 + 4 + 4 + 4 + 8 + (2 + |s.name|) + (2 + |s.uid|) + (2 + |s.gid|) + (2 + |s.muid|)
  }

  /** `protocolSize(StatEx)` */
  function StatExSize(s: StatEx): nat {
    StatSize(s.base) + (2 + |s.extension|) + 4 + 4 + 4
  }

  function SumOfSizes(vs: seq<Value>): nat {
    if vs == [] then 0 else ValueSize(vs[0]) + SumOfSizes(vs[1..])
  }

  lemma {:induction false} EncodedSize(vs: seq<Value>)
    ensures |Encode(vs)| == SumOfSizes(vs)
  {
    hide EncodeTexts;
    if vs != [] {
      EncodedSize(vs[1..]);
    }
  }

  lemma {:induction false} SumAppend(vs: seq<Value>, ws: seq<Value>)
    ensures SumOfSizes(vs + ws) == SumOfSizes(vs) + SumOfSizes(ws)
  {
    if vs == [] {
      assert vs + ws == ws;
    } else {
      assert (vs + ws)[1..] == vs[1..] + ws;
      SumAppend(vs[1..], ws);
    }
  }

  lemma SumOfFour(a: Value, b: Value, c: Value, d: Value)
    ensures SumOfSizes([a, b, c, d]) == ValueSize(a) + ValueSize(b) + ValueSize(c) + ValueSize(d)
  {
    hide ValueSize;
    assert [a, b, c, d][1..] == [b, c, d] && [b, c, d][1..] == [c, d] && [c, d][1..] == [d] && [d][1..] == [];
    assert SumOfSizes([c, d]) == ValueSize(c) + SumOfSizes([d]);
    assert SumOfSizes([b, c, d]) == ValueSize(b) + SumOfSizes([c, d]);
  }

  lemma SumOfThree(a: Value, b: Value, c: Value)
    ensures SumOfSizes([a, b, c]) == ValueSize(a) + ValueSize(b) + ValueSize(c)
  {
    hide ValueSize;
    assert [a, b, c][1..] == [b, c] && [b, c][1..] == [c] && [c][1..] == [];
    assert SumOfSizes([b, c]) == ValueSize(b) + SumOfSizes([c]);
  }

  function StatBytes(s: Stat): seq<byte> { Encode(StatFields(s)) }
  function StatExBytes(s: StatEx): seq<byte> { Encode(StatExFields(s)) }

  /** The size that the listing writer adds up is the number of bytes that the encoder emits. */
  lemma StatSizeIsEncodedSize(s: Stat)
    ensures |StatBytes(s)| == StatSize(s)
  {
    var q := QidFields(s.qid);
    var a := [V16(s.size), V16(s.typ), V32(s.dev)];
    var b := [V32(s.mode), V32(s.atime), V32(s.mtime), V64(s.length)];
    var c := [VText(s.name), VText(s.uid), VText(s.gid), VText(s.muid)];
    hide Encode;
    hide SumOfSizes;
    assert StatFields(s) == a + q + b + c;
    SumAppend(a + q + b, c);
    SumAppend(a + q, b);
    SumAppend(a, q);
    SumOfThree(a[0], a[1], a[2]);
    SumOfThree(q[0], q[1], q[2]);
    SumOfFour(b[0], b[1], b[2], b[3]);
    SumOfFour(c[0], c[1], c[2], c[3]);
    EncodedSize(StatFields(s));
  }

  lemma StatExSizeIsEncodedSize(s: StatEx)
    ensures |StatExBytes(s)| == StatExSize(s)
  {
    var ext := [VText(s.extension), V32(s.nUid), V32(s.nGid), V32(s.nMuid)];
    hide Encode;
    hide SumOfSizes;
    hide StatFields;
    EncodeAppend(StatFields(s.base), ext);
    StatSizeIsEncodedSize(s.base);
    SumOfFour(ext[0], ext[1], ext[2], ext[3]);
    EncodedSize(ext);
  }

  /** A stat as an entry of a listing. */
  function StatItem(s: Stat): (item: Item)
    ensures item == StatBytes(s) && |item| == StatSize(s) < 0x5_0000
  {
    StatSizeIsEncodedSize(s);
    StatBytes(s)
  }

  function StatItems(stats: seq<Stat>): (items: seq<Item>)
    ensures |items| == |stats| && forall i | 0 <= i < |stats| :: items[i] == StatBytes(stats[i])
  {
    seq(|stats|, i requires 0 <= i < |stats| => StatItem(stats[i]))
  }

  // ------------------------------------------------------------------------
  // The writer
  // ------------------------------------------------------------------------

  class DirListingWriter {
    const w: MessageWriter
    const dataPosition: nat
    const offset: u64
    const maxBytes: u32
    var bytesTraversed: u64
    var bytesEncoded: u32
    ghost var emitted: seq<Item>

    ghost function Abstract(): Progress
      reads this
    {
      Progress(bytesTraversed, bytesEncoded, emitted)
    }

    ghost function Payload(): seq<byte>
      reads this
    {
      DataPayload([], Flat(emitted))
    }

    /** Whatever has been offered so far, the buffer holds a complete read response with the emitted entries. */
    ghost predicate Valid()
      reads this, w, w.out, w.out.buf
    {
      && w.typ == RREAD
      && dataPosition == w.pos + HEADER_SIZE
      && Complete(w, Payload())
    }

    constructor (writer: MessageWriter, max: u32, from: u64)
      requires writer.Valid() && writer.out.position == writer.pos && writer.Room(HEADER_SIZE + 4)
      modifies writer, writer.out, writer.out.buf
      ensures Valid() && w == writer && maxBytes == max && offset == from && Abstract() == START
      ensures w.out.buf[..] == Splice(old(writer.out.buf[..]), w.pos, Frame(RREAD, w.tag, Payload()))
    {
      w := writer;
      dataPosition := writer.pos + HEADER_SIZE;
      offset := from;
      maxBytes := max;
      bytesTraversed := 0;
      bytesEncoded := 0;
      emitted := [];
      new;
      hide HeaderBytes;
      hide Splice;
      hide Holds;
      ghost var b := w.out.buf[..];
      w.MessageType(RREAD);
      SpliceHolds(b, w.pos, w.Head());
      assert w.Head() + [] == w.Head();
      ghost var h := w.Head();
      OpenField(w, [], 4);
      assert [] + LE(0, 4) == Payload();
      SpliceOver(b, w.pos, h, Frame(RREAD, w.tag, Payload()));
    }

    /** The verdict on an entry, as the counters stand. */
    ghost function Next(stat: Stat): Verdict
      reads this
    {
      Offer(Abstract(), offset, maxBytes, StatItem(stat))
    }

    method EncodeStat(stat: Stat) returns (more: bool)
      requires Valid()
      requires Next(stat).progress.emitted != emitted ==> w.Room(StatSize(stat))
      modifies this, w, w.out, w.out.buf
      ensures Valid() && Verdict(Abstract(), more) == old(Next(stat))
      ensures w.out.buf[..] == Splice(old(w.out.buf[..]), w.pos, Frame(RREAD, w.tag, Payload()))
    {
      hide Splice;
      hide Holds;
      hide StatBytes;
      ghost var b := w.out.buf[..];
      SpliceHeld(b, w.pos, Frame(RREAD, w.tag, Payload()));
      var protoSize := StatSize(stat);
      assert |StatItem(stat)| == protoSize;
      bytesTraversed := (bytesTraversed + protoSize) % TWO_64;
      if bytesTraversed <= offset {
        return true;
      }
      bytesEncoded := (bytesEncoded + protoSize) % TWO_32;
      if bytesEncoded > maxBytes {
        return false;
      }
      assert emitted + [StatItem(stat)] != emitted by {
        assert |emitted + [StatItem(stat)]| == |emitted| + 1;
      }
      EmitStat(stat);
      return true;
    }

    /** `encoder << stat`, then `updateDataSize`. */
    method EmitStat(stat: Stat)
      requires Valid() && w.Room(StatSize(stat))
      modifies this`emitted, w, w.out, w.out.buf
      ensures Valid() && emitted == old(emitted) + [StatItem(stat)]
      ensures w.out.buf[..] == Splice(old(w.out.buf[..]), w.pos, Frame(RREAD, w.tag, Payload()))
    {
      hide HeaderBytes;
      hide Splice;
      hide Holds;
      hide StatFields;
      hide Encode;
      hide LE;
      ghost var b, h, data := w.out.buf[..], w.Head(), Flat(emitted);
      StatSizeIsEncodedSize(stat);
      PutFields(w.out, StatFields(stat));
      ghost var x := StatBytes(stat);
      var dataSize := w.out.position - dataPosition - 4;
      PatchField(w.out, dataPosition, dataSize, 4);
      ghost var h' := HeaderBytes(Header(w.out.position - w.pos, w.typ, w.tag));
      assert DataPayload([], data) == [] + LE(|data|, 4) + data;
      AppendThenPatch(b, w.pos, h, [], LE(|data|, 4), data, LE(dataSize, 4), x, h');
      w.UpdateMessageSize();
      FlatSnoc(emitted, StatItem(stat));
      emitted := emitted + [StatItem(stat)];
      assert DataPayload([], data + x) == [] + LE(dataSize, 4) + (data + x);
      SpliceHolds(b, w.pos, h' + Payload());
    }
  }

  // ------------------------------------------------------------------------
  // Answering one read
  // ------------------------------------------------------------------------

  /** The data that a read of `count` bytes from `offset` returns. */
  function PageData(stats: seq<Stat>, offset: u64, count: u32): (data: Blob)
  {
    WindowFits(StatItems(stats), offset, count);
    Flat(Window(StatItems(stats), offset, count))
  }

  lemma WindowFits(items: seq<Item>, offset: nat, max: nat)
    ensures |Flat(Window(items, offset, max))| <= max
  {
    var a, b := WindowIsMaximalRun(items, offset, max);
  }

  /** One entry is offered inside the loop: the counters and the bytes agree while nothing was refused. */
  method OfferStat(dw: DirListingWriter, ghost b: seq<byte>, ghost room: nat, stat: Stat) returns (more: bool)
    requires dw.Valid() && |b| == dw.w.out.buf.Length
    requires dw.bytesEncoded == |Flat(dw.emitted)| <= dw.maxBytes
    requires dw.w.out.buf[..] == Splice(b, dw.w.pos, Frame(RREAD, dw.w.tag, dw.Payload()))
    requires |Flat(dw.Next(stat).progress.emitted)| <= room
    requires dw.w.pos + HEADER_SIZE + 4 + room <= dw.w.out.buf.Length && HEADER_SIZE + 4 + room < TWO_32
    modifies dw, dw.w, dw.w.out, dw.w.out.buf
    ensures dw.Valid() && Verdict(dw.Abstract(), more) == old(dw.Next(stat))
    ensures !more ==> dw.bytesEncoded > dw.maxBytes
    ensures more ==> dw.bytesEncoded == |Flat(dw.emitted)| <= dw.maxBytes
    ensures !more ==> dw.emitted == old(dw.emitted)
    ensures dw.w.out.buf[..] == Splice(b, dw.w.pos, Frame(RREAD, dw.w.tag, dw.Payload()))
  {
    hide HeaderBytes;
    hide Splice;
    hide Holds;
    hide LE;
    hide StatBytes;
    ghost var p := dw.Payload();
    ghost var e := dw.emitted;
    FlatSnoc(e, StatItem(stat));
    more := dw.EncodeStat(stat);
    SpliceOver(b, dw.w.pos, Frame(RREAD, dw.w.tag, p), Frame(RREAD, dw.w.tag, dw.Payload()));
  }

  /**
   The documented loop around the listing writer: the response is the read
   message whose data is the window of the listing that the request names.
   */
  method ServeRead(w: MessageWriter, stats: seq<Stat>, offset: u64, count: u32) returns (encoded: u32)
    requires w.Valid() && w.out.position == w.pos && w.Room(HEADER_SIZE + 4 + |PageData(stats, offset, count)|)
    requires |Flat(StatItems(stats))| < TWO_64 && CounterHolds(StatItems(stats), offset, count)
    modifies w, w.out, w.out.buf
    ensures HEADER_SIZE + |ResponsePayload(BaseR(RRead(PageData(stats, offset, count))))| < TWO_32
    ensures Wrote(old(w.out.buf[..]), w.pos, w.out, ResponseFrame(BaseR(RRead(PageData(stats, offset, count))), w.tag))
    ensures encoded == |PageData(stats, offset, count)|
                     + SizeAt(StatItems(stats), Behind(StatItems(stats), offset, count))
  {
    hide HeaderBytes;
    hide Splice;
    hide Holds;
    hide LE;
    hide StatBytes;
    hide Encode;
    hide Offer;
    hide Window;
    hide StatSize;
    hide ResponseFields;
    hide Behind;
    hide SizeAt;
    ghost var b, items, data := w.out.buf[..], StatItems(stats), PageData(stats, offset, count);
    var dw := new DirListingWriter(w, count, offset);
    assert items[0..] == items;
    ServeIsWindow(offset, count, items);
    var i := 0;
    var more := true;
    while i < |stats| && more
      invariant i <= |stats| && dw.Valid() && fresh(dw) && dw.w == w && dw.maxBytes == count && dw.offset == offset
      invariant more ==> dw.bytesEncoded == |Flat(dw.emitted)| <= count
      invariant !more ==> dw.bytesEncoded > count
      invariant Serve(START, offset, count, items)
             == if more then Serve(dw.Abstract(), offset, count, items[i..]) else dw.Abstract()
      invariant w.out.buf[..] == Splice(b, w.pos, Frame(RREAD, w.tag, dw.Payload()))
      decreases |stats| - i, more
    {
      assert items[i..][0] == StatItem(stats[i]) && items[i..][1..] == items[i + 1..];
      EmittedInPage(dw.Abstract(), offset, count, items[i..]);
      more := OfferStat(dw, b, |data|, stats[i]);
      i := i + 1;
    }
    assert Serve(START, offset, count, items) == dw.Abstract();
    ReadPayload(PageData(stats, offset, count));
    CounterOfRun(offset, count, items);
    encoded := dw.bytesEncoded;
  }

  lemma ReadPayload(data: Blob)
    ensures ResponsePayload(BaseR(RRead(data))) == DataPayload([], data)
  {
    hide EncodeOne;
    DataFieldPayload([], data);
    assert [] + [VData(data)] == [VData(data)];
  }

  /** What an entry adds is part of what the run will have emitted in the end. */
  lemma EmittedInPage(p: Progress, offset: u64, max: u32, items: seq<Item>)
    requires items != []
    ensures var next := Offer(p, offset, max, items[0]).progress;
            |Flat(p.emitted)| <= |Flat(next.emitted)| <= |Flat(Serve(p, offset, max, items).emitted)|
  {
    var v := Offer(p, offset, max, items[0]);
    FlatSnoc(p.emitted, items[0]);
    if v.more {
      var all := Serve(v.progress, offset, max, items[1..]).emitted;
      EmittedExtends(v.progress, offset, max, items[1..]);
      FlatAppend(v.progress.emitted, all[|v.progress.emitted|..]);
      assert all == v.progress.emitted + all[|v.progress.emitted|..];
    }
  }
}
