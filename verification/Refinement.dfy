/**
 A message written in pieces leaves the same buffer and position as the same
 message written in one go, and after every piece the buffer already holds the
 complete frame of the message with the pieces so far.
 */
module Refinement {
  import opened Bytes
  import opened Fields
  import opened Messages
  import opened Framing
  import opened Wire
  import opened Layout
  import opened Streams
  import opened Writers
  import opened Partials
  import opened PartialData

  const RREAD: u8 := 117
  const TWRITE: u8 := 118

  /** The bytes of the message as a receiver would see them now. */
  ghost function Seen(w: MessageWriter): seq<byte>
    requires w.Valid() && w.pos <= w.out.position
    reads w, w.out, w.out.buf
  {
    w.out.buf[w.pos..w.out.position]
  }

  /** Begins a message and writes its leading fields, without updating the size. */
  method BeginWith(w: MessageWriter, code: u8, fields: seq<Value>)
    requires w.Valid() && w.out.position == w.pos && w.Room(HEADER_SIZE + |Encode(fields)|)
    modifies w, w.out, w.out.buf
    ensures Opened(w, Encode(fields)) && w.typ == code
    ensures w.out.buf[..] == Splice(old(w.out.buf[..]), w.pos, w.Head() + Encode(fields))
  {
    hide HeaderBytes;
    hide Encode;
    hide Splice;
    hide Holds;
    ghost var b := w.out.buf[..];
    w.MessageType(code);
    PutFields(w.out, fields);
    SpliceTwice(b, w.pos, w.Head(), Encode(fields));
    SpliceHolds(b, w.pos, w.Head() + Encode(fields));
    HoldsConcat(w.out.buf[..], w.pos, w.Head(), Encode(fields));
  }

  lemma SeenIsFrame(w: MessageWriter, payload: seq<byte>)
    requires Complete(w, payload)
    ensures Seen(w) == Frame(w.typ, w.tag, payload)
  {
    hide HeaderBytes;
  }

  // ------------------------------------------------------------------------
  // Segments, pieces and chunks
  // ------------------------------------------------------------------------

  /** A payload that ends with the path of the given segments. */
  function PathPayload(head: seq<byte>, segments: seq<Text>): seq<byte> {
    head + LE(|segments| % TWO_16, 2) + EncodeTexts(segments)
  }

  lemma PathPayloadGrows(head: seq<byte>, segments: seq<Text>, i: nat)
    requires i < |segments|
    ensures |PathPayload(head, segments[..i + 1])| == |PathPayload(head, segments[..i])| + |EncodeText(segments[i])|
    ensures |PathPayload(head, segments[..i + 1])| <= |PathPayload(head, segments)|
  {
    EncodeTextsPrefix(segments, i);
  }

  method AddSegments(pp: PartialPathWriter, segments: seq<Text>) returns (ghost trail: seq<seq<byte>>)
    requires pp.Valid() && pp.segments == []
    requires HEADER_SIZE + |PathPayload(pp.head, segments)| < TWO_32
    requires pp.w.pos + HEADER_SIZE + |PathPayload(pp.head, segments)| <= pp.w.out.buf.Length
    modifies pp, pp.w, pp.w.out, pp.w.out.buf
    ensures pp.Valid() && pp.segments == segments && pp.w.typ == old(pp.w.typ)
    ensures pp.w.out.buf[..] == Splice(old(pp.w.out.buf[..]), pp.w.pos, Frame(pp.w.typ, pp.w.tag, pp.Payload()))
    ensures |trail| == |segments| + 1
    ensures forall i | 0 <= i <= |segments| ::
              HEADER_SIZE + |PathPayload(pp.head, segments[..i])| < TWO_32
              && trail[i] == Frame(pp.w.typ, pp.w.tag, PathPayload(pp.head, segments[..i]))
  {
    hide HeaderBytes;
    hide Holds;
    hide LE;
    hide Splice;
    hide EncodeText;
    ghost var b := pp.w.out.buf[..];
    SpliceHeld(b, pp.w.pos, Frame(pp.w.typ, pp.w.tag, pp.Payload()));
    SeenIsFrame(pp.w, pp.Payload());
    trail := [Seen(pp.w)];
    assert segments[..0] == [];
    for i := 0 to |segments|
      invariant pp.Valid() && pp.segments == segments[..i] && pp.w.typ == old(pp.w.typ)
      invariant pp.w.out.buf[..] == Splice(b, pp.w.pos, Frame(pp.w.typ, pp.w.tag, pp.Payload()))
      invariant |trail| == i + 1
      invariant forall j | 0 <= j <= i ::
                  HEADER_SIZE + |PathPayload(pp.head, segments[..j])| < TWO_32
                  && trail[j] == Frame(pp.w.typ, pp.w.tag, PathPayload(pp.head, segments[..j]))
    {
      ghost var before := pp.Payload();
      PathPayloadGrows(pp.head, segments, i);
      assert pp.Payload() == PathPayload(pp.head, segments[..i]);
      assert segments[..i + 1] == segments[..i] + [segments[i]];
      pp.Segment(segments[i]);
      assert pp.Payload() == PathPayload(pp.head, segments[..i + 1]);
      SpliceOver(b, pp.w.pos, Frame(pp.w.typ, pp.w.tag, before), Frame(pp.w.typ, pp.w.tag, pp.Payload()));
      SeenIsFrame(pp.w, pp.Payload());
      trail := trail + [Seen(pp.w)];
    }
    assert segments[..|segments|] == segments;
  }

  function Joined(pieces: seq<seq<byte>>): seq<byte> {
    if pieces == [] then [] else Joined(pieces[..|pieces| - 1]) + pieces[|pieces| - 1]
  }

  lemma JoinedGrows(pieces: seq<seq<byte>>, i: nat)
    requires i < |pieces|
    ensures Joined(pieces[..i + 1]) == Joined(pieces[..i]) + pieces[i]
    ensures |Joined(pieces[..i + 1])| <= |Joined(pieces)|
    decreases |pieces| - i
  {
    assert pieces[..i + 1][..i] == pieces[..i];
    if i + 1 < |pieces| {
      JoinedGrows(pieces, i + 1);
    } else {
      assert pieces[..i + 1] == pieces;
    }
  }

  function TextPayload(head: seq<byte>, text: seq<byte>): seq<byte> {
    head + LE(|text| % TWO_16, 2) + text
  }

  method AddPieces(sw: PartialStringWriter, pieces: seq<Text>) returns (ghost trail: seq<seq<byte>>)
    requires sw.Valid() && sw.text == []
    requires HEADER_SIZE + |TextPayload(sw.head, Joined(pieces))| < TWO_32
    requires sw.w.pos + HEADER_SIZE + |TextPayload(sw.head, Joined(pieces))| <= sw.w.out.buf.Length
    modifies sw, sw.w, sw.w.out, sw.w.out.buf
    ensures sw.Valid() && sw.text == Joined(pieces) && sw.w.typ == old(sw.w.typ)
    ensures sw.w.out.buf[..] == Splice(old(sw.w.out.buf[..]), sw.w.pos, Frame(sw.w.typ, sw.w.tag, sw.Payload()))
    ensures |trail| == |pieces| + 1
    ensures forall i | 0 <= i <= |pieces| ::
              HEADER_SIZE + |TextPayload(sw.head, Joined(pieces[..i]))| < TWO_32
              && trail[i] == Frame(sw.w.typ, sw.w.tag, TextPayload(sw.head, Joined(pieces[..i])))
  {
    hide HeaderBytes;
    hide Holds;
    hide LE;
    hide Splice;
    ghost var b := sw.w.out.buf[..];
    SpliceHeld(b, sw.w.pos, Frame(sw.w.typ, sw.w.tag, sw.Payload()));
    SeenIsFrame(sw.w, sw.Payload());
    trail := [Seen(sw.w)];
    assert pieces[..0] == [];
    for i := 0 to |pieces|
      invariant sw.Valid() && sw.text == Joined(pieces[..i]) && sw.w.typ == old(sw.w.typ)
      invariant sw.w.out.buf[..] == Splice(b, sw.w.pos, Frame(sw.w.typ, sw.w.tag, sw.Payload()))
      invariant |trail| == i + 1
      invariant forall j | 0 <= j <= i ::
                  HEADER_SIZE + |TextPayload(sw.head, Joined(pieces[..j]))| < TWO_32
                  && trail[j] == Frame(sw.w.typ, sw.w.tag, TextPayload(sw.head, Joined(pieces[..j])))
    {
      ghost var before := sw.Payload();
      JoinedGrows(pieces, i);
      sw.String(pieces[i]);
      assert sw.Payload() == TextPayload(sw.head, Joined(pieces[..i + 1]));
      SpliceOver(b, sw.w.pos, Frame(sw.w.typ, sw.w.tag, before), Frame(sw.w.typ, sw.w.tag, sw.Payload()));
      SeenIsFrame(sw.w, sw.Payload());
      trail := trail + [Seen(sw.w)];
    }
    assert pieces[..|pieces|] == pieces;
  }

  function DataPayload(head: seq<byte>, data: seq<byte>): (payload: seq<byte>)
    ensures |payload| == |head| + 4 + |data|
  {
    head + (LE(|data|, 4) + data)
  }

  lemma Regroup(h: seq<byte>, head: seq<byte>, f: seq<byte>, d: seq<byte>, value: seq<byte>)
    ensures h + (head + (f + d)) + value == (h + (head + f)) + (d + value)
    ensures d + [] == d && h + (head + (f + d)) + [] == h + (head + (f + d))
  {
  }

  lemma AppendedField(b: seq<byte>, at: nat, h: seq<byte>, head: seq<byte>, f: seq<byte>, d: seq<byte>,
                      value: seq<byte>, h': seq<byte>, f': seq<byte>, x: seq<byte>, z: seq<byte>)
    requires x == h + (head + (f + d)) && z == h' + (head + (f' + (d + value)))
    requires at + |x| + |value| <= |b| && |h'| == |h| && |f'| == |f|
    ensures Splice(Splice(Splice(b, at, x), at + |x|, value), at, h' + (head + f')) == Splice(b, at, z)
  {
    hide Splice;
    SpliceTwice(b, at, x, value);
    Regroup(h, head, f, d, value);
    HeldHead(b, at, h + (head + f), d + value, h' + (head + f'));
    Regroup(h', head, f', d + value, []);
  }

  lemma AppendedData(b: seq<byte>, at: nat, h: seq<byte>, head: seq<byte>, d: seq<byte>, value: seq<byte>, h': seq<byte>)
    requires at + |h| + |head| + 4 + |d| + |value| <= |b| && |h'| == |h|
    ensures var x := h + DataPayload(head, d);
            (Splice(Splice(Splice(b, at, x), at + |x|, value), at, h' + (head + LE(|d + value|, 4)))
             == Splice(b, at, h' + DataPayload(head, d + value)))
  {
    hide LE;
    hide Splice;
    AppendedField(b, at, h, head, LE(|d|, 4), d, value, h', LE(|d + value|, 4),
                  h + DataPayload(head, d), h' + DataPayload(head, d + value));
  }

  /** The data writer stands behind a complete message whose data is `d`. */
  ghost predicate Carries(dw: PartialDataWriter, d: seq<byte>)
    reads dw, dw.w, dw.w.out, dw.w.out.buf
  {
    dw.Whole() && dw.dataSize == |d| && Complete(dw.w, DataPayload(dw.head, d))
  }

  method AddChunk(dw: PartialDataWriter, ghost b: seq<byte>, ghost d: seq<byte>, value: Blob)
    requires Carries(dw, d) && |b| == dw.w.out.buf.Length
    requires dw.w.out.buf[..] == Splice(b, dw.w.pos, Frame(dw.w.typ, dw.w.tag, DataPayload(dw.head, d)))
    requires dw.w.Room(|value|)
    modifies dw, dw.w, dw.w.out, dw.w.out.buf
    ensures Carries(dw, d + value) && dw.w.typ == old(dw.w.typ)
    ensures dw.w.out.buf[..] == Splice(b, dw.w.pos, Frame(dw.w.typ, dw.w.tag, DataPayload(dw.head, d + value)))
  {
    hide HeaderBytes;
    hide Splice;
    hide Holds;
    ghost var h := dw.w.Head();
    dw.Append(value);
    AppendedData(b, dw.w.pos, h, dw.head, d, value, dw.w.Head());
    SpliceHolds(b, dw.w.pos, dw.w.Head() + DataPayload(dw.head, d + value));
  }

  method AddChunks(dw: PartialDataWriter, chunks: seq<Blob>) returns (ghost trail: seq<seq<byte>>)
    requires Carries(dw, [])
    requires HEADER_SIZE + |DataPayload(dw.head, Joined(chunks))| < TWO_32
    requires dw.w.pos + HEADER_SIZE + |DataPayload(dw.head, Joined(chunks))| <= dw.w.out.buf.Length
    modifies dw, dw.w, dw.w.out, dw.w.out.buf
    ensures Carries(dw, Joined(chunks)) && dw.w.typ == old(dw.w.typ)
    ensures dw.w.out.buf[..]
         == Splice(old(dw.w.out.buf[..]), dw.w.pos, Frame(dw.w.typ, dw.w.tag, DataPayload(dw.head, Joined(chunks))))
    ensures |trail| == |chunks| + 1
    ensures forall i | 0 <= i <= |chunks| ::
              HEADER_SIZE + |DataPayload(dw.head, Joined(chunks[..i]))| < TWO_32
              && trail[i] == Frame(dw.w.typ, dw.w.tag, DataPayload(dw.head, Joined(chunks[..i])))
  {
    hide HeaderBytes;
    hide Splice;
    hide Holds;
    hide LE;
    hide DataPayload;
    ghost var b := dw.w.out.buf[..];
    SpliceHeld(b, dw.w.pos, Frame(dw.w.typ, dw.w.tag, DataPayload(dw.head, [])));
    SeenIsFrame(dw.w, DataPayload(dw.head, []));
    trail := [Seen(dw.w)];
    assert chunks[..0] == [];
    for i := 0 to |chunks|
      invariant Carries(dw, Joined(chunks[..i])) && dw.w.typ == old(dw.w.typ)
      invariant dw.w.out.buf[..] == Splice(b, dw.w.pos, Frame(dw.w.typ, dw.w.tag, DataPayload(dw.head, Joined(chunks[..i]))))
      invariant |trail| == i + 1
      invariant forall j | 0 <= j <= i ::
                  HEADER_SIZE + |DataPayload(dw.head, Joined(chunks[..j]))| < TWO_32
                  && trail[j] == Frame(dw.w.typ, dw.w.tag, DataPayload(dw.head, Joined(chunks[..j])))
    {
      JoinedGrows(chunks, i);
      AddChunk(dw, b, Joined(chunks[..i]), chunks[i]);
      SeenIsFrame(dw.w, DataPayload(dw.head, Joined(chunks[..i + 1])));
      trail := trail + [Seen(dw.w)];
    }
    assert chunks[..|chunks|] == chunks;
  }

  // ------------------------------------------------------------------------
  // The six partial messages
  // ------------------------------------------------------------------------

  lemma PathFieldPayload(vs: seq<Value>, p: Path)
    ensures Encode(vs + [VPath(p)]) == PathPayload(Encode(vs), p)
  {
    hide Encode;
    hide LE;
    hide EncodeTexts;
    EncodeSnoc(vs, VPath(p));
    assert Encode(vs) + (LE(|p|, 2) + EncodeTexts(p)) == Encode(vs) + LE(|p|, 2) + EncodeTexts(p);
  }

  lemma TextFieldPayload(vs: seq<Value>, t: Text)
    ensures Encode(vs + [VText(t)]) == TextPayload(Encode(vs), t)
  {
    hide Encode;
    hide LE;
    EncodeSnoc(vs, VText(t));
    assert Encode(vs) + (LE(|t|, 2) + t) == Encode(vs) + LE(|t|, 2) + t;
  }

  lemma DataFieldPayload(vs: seq<Value>, d: Blob)
    ensures Encode(vs + [VData(d)]) == DataPayload(Encode(vs), d)
  {
    hide Encode;
    hide LE;
    EncodeSnoc(vs, VData(d));
  }

  /** What a message whose last field is a path leaves, written segment by segment. */
  method WritePathMessage(w: MessageWriter, code: u8, fields: seq<Value>, segments: Path)
    returns (pp: PartialPathWriter, ghost trail: seq<seq<byte>>)
    requires w.Valid() && w.out.position == w.pos && w.Room(HEADER_SIZE + |Encode(fields + [VPath(segments)])|)
    modifies w, w.out, w.out.buf
    ensures fresh(pp) && pp.Valid() && pp.w == w && w.typ == code && pp.Payload() == Encode(fields + [VPath(segments)])
    ensures Wrote(old(w.out.buf[..]), w.pos, w.out, Frame(code, w.tag, Encode(fields + [VPath(segments)])))
    ensures |trail| == |segments| + 1
    ensures forall i | 0 <= i <= |segments| ::
              HEADER_SIZE + |Encode(fields + [VPath(segments[..i])])| < TWO_32
              && trail[i] == Frame(code, w.tag, Encode(fields + [VPath(segments[..i])]))
  {
    hide HeaderBytes;
    hide Encode;
    hide Splice;
    hide Holds;
    ghost var b := w.out.buf[..];
    PathFieldPayload(fields, segments);
    BeginWith(w, code, fields);
    ghost var h := w.Head();
    pp := new PartialPathWriter(w, Encode(fields));
    SpliceOver(b, w.pos, h + Encode(fields), Frame(code, w.tag, pp.Payload()));
    ghost var first := Frame(code, w.tag, pp.Payload());
    trail := AddSegments(pp, segments);
    SpliceOver(b, w.pos, first, Frame(code, w.tag, pp.Payload()));
    forall i | 0 <= i <= |segments|
      ensures Encode(fields + [VPath(segments[..i])]) == PathPayload(Encode(fields), segments[..i])
    {
      PathFieldPayload(fields, segments[..i]);
    }
  }

  method WriteTextMessage(w: MessageWriter, code: u8, fields: seq<Value>, pieces: seq<Text>)
    returns (ghost trail: seq<seq<byte>>)
    requires |Joined(pieces)| < TWO_16
    requires w.Valid() && w.out.position == w.pos && w.Room(HEADER_SIZE + |Encode(fields + [VText(Joined(pieces))])|)
    modifies w, w.out, w.out.buf
    ensures Complete(w, Encode(fields + [VText(Joined(pieces))])) && w.typ == code
    ensures Wrote(old(w.out.buf[..]), w.pos, w.out, Frame(code, w.tag, Encode(fields + [VText(Joined(pieces))])))
    ensures |trail| == |pieces| + 1
    ensures forall i | 0 <= i <= |pieces| ::
              |Joined(pieces[..i])| < TWO_16
              && HEADER_SIZE + |Encode(fields + [VText(Joined(pieces[..i]))])| < TWO_32
              && trail[i] == Frame(code, w.tag, Encode(fields + [VText(Joined(pieces[..i]))]))
  {
    hide HeaderBytes;
    hide Encode;
    hide Splice;
    hide Holds;
    ghost var b := w.out.buf[..];
    TextFieldPayload(fields, Joined(pieces));
    BeginWith(w, code, fields);
    ghost var h := w.Head();
    var sw := new PartialStringWriter(w, Encode(fields));
    SpliceOver(b, w.pos, h + Encode(fields), Frame(code, w.tag, sw.Payload()));
    ghost var first := Frame(code, w.tag, sw.Payload());
    trail := AddPieces(sw, pieces);
    SpliceOver(b, w.pos, first, Frame(code, w.tag, sw.Payload()));
    forall i | 0 <= i <= |pieces|
      ensures |Joined(pieces[..i])| < TWO_16
      ensures Encode(fields + [VText(Joined(pieces[..i]))]) == TextPayload(Encode(fields), Joined(pieces[..i]))
    {
      JoinedPrefix(pieces, i);
      TextFieldPayload(fields, Joined(pieces[..i]));
    }
  }

  lemma JoinedPrefix(pieces: seq<seq<byte>>, i: nat)
    requires i <= |pieces|
    ensures |Joined(pieces[..i])| <= |Joined(pieces)|
  {
    if i < |pieces| {
      JoinedGrows(pieces, i);
    } else {
      assert pieces[..i] == pieces;
    }
  }

  method WriteDataMessage(w: MessageWriter, code: u8, fields: seq<Value>, chunks: seq<Blob>)
    returns (ghost trail: seq<seq<byte>>)
    requires |Joined(chunks)| < TWO_32
    requires w.Valid() && w.out.position == w.pos && w.Room(HEADER_SIZE + |Encode(fields + [VData(Joined(chunks))])|)
    modifies w, w.out, w.out.buf
    ensures Complete(w, Encode(fields + [VData(Joined(chunks))])) && w.typ == code
    ensures Wrote(old(w.out.buf[..]), w.pos, w.out, Frame(code, w.tag, Encode(fields + [VData(Joined(chunks))])))
    ensures |trail| == |chunks| + 1
    ensures forall i | 0 <= i <= |chunks| ::
              |Joined(chunks[..i])| < TWO_32
              && HEADER_SIZE + |Encode(fields + [VData(Joined(chunks[..i]))])| < TWO_32
              && trail[i] == Frame(code, w.tag, Encode(fields + [VData(Joined(chunks[..i]))]))
  {
    hide HeaderBytes;
    hide Encode;
    hide Splice;
    hide Holds;
    hide LE;
    ghost var b, head := w.out.buf[..], Encode(fields);
    DataFieldPayload(fields, Joined(chunks));
    BeginWith(w, code, fields);
    ghost var h := w.Head();
    var dw := new PartialDataWriter(w, head);
    assert DataPayload(head, []) == head + LE(0, 4);
    SpliceOver(b, w.pos, h + head, Frame(code, w.tag, DataPayload(head, [])));
    SpliceHolds(b, w.pos, Frame(code, w.tag, DataPayload(head, [])));
    trail := AddChunks(dw, chunks);
    SpliceOver(b, w.pos, Frame(code, w.tag, DataPayload(head, [])), Frame(code, w.tag, DataPayload(head, Joined(chunks))));
    forall i | 0 <= i <= |chunks|
      ensures |Joined(chunks[..i])| < TWO_32
      ensures Encode(fields + [VData(Joined(chunks[..i]))]) == DataPayload(head, Joined(chunks[..i]))
    {
      JoinedPrefix(chunks, i);
      DataFieldPayload(fields, Joined(chunks[..i]));
    }
  }

  method PartialWalk(w: MessageWriter, fid: u32, newfid: u32, segments: Path) returns (ghost trail: seq<seq<byte>>)
    requires w.Valid() && w.out.position == w.pos
    requires w.Room(HEADER_SIZE + |RequestPayload(Base(TWalk(fid, newfid, segments)))|)
    modifies w, w.out, w.out.buf
    ensures Wrote(old(w.out.buf[..]), w.pos, w.out, RequestFrame(Base(TWalk(fid, newfid, segments)), w.tag))
    ensures var form := Form(110, [W4(fid), W4(newfid), WPath(segments)]);
            && 7 + |Flat(form.fields)| < TWO_32
            && RequestFrame(Base(TWalk(fid, newfid, segments)), w.tag) == OnTheWire(form, w.tag)
    ensures |trail| == |segments| + 1
    ensures forall i | 0 <= i <= |segments| ::
              HEADER_SIZE + |RequestPayload(Base(TWalk(fid, newfid, segments[..i])))| < TWO_32
              && trail[i] == RequestFrame(Base(TWalk(fid, newfid, segments[..i])), w.tag)
  {
    hide Encode;
    hide HeaderBytes;
    hide Splice;
    hide OnTheWire;
    RequestOnTheWire(Base(TWalk(fid, newfid, segments)), w.tag);
    var fields := [V32(fid), V32(newfid)];
    assert forall p: Path :: RequestFields(Base(TWalk(fid, newfid, p))) == fields + [VPath(p)];
    var pp;
    pp, trail := WritePathMessage(w, 110, fields, segments);
  }

  method PartialShortRead(w: MessageWriter, fid: u32, segments: Path) returns (ghost trail: seq<seq<byte>>)
    requires w.Valid() && w.out.position == w.pos
    requires w.Room(HEADER_SIZE + |RequestPayload(Erlang(TShortRead(fid, segments)))|)
    modifies w, w.out, w.out.buf
    ensures Wrote(old(w.out.buf[..]), w.pos, w.out, RequestFrame(Erlang(TShortRead(fid, segments)), w.tag))
    ensures |trail| == |segments| + 1
    ensures forall i | 0 <= i <= |segments| ::
              HEADER_SIZE + |RequestPayload(Erlang(TShortRead(fid, segments[..i])))| < TWO_32
              && trail[i] == RequestFrame(Erlang(TShortRead(fid, segments[..i])), w.tag)
  {
    hide Encode;
    hide HeaderBytes;
    hide Splice;
    var fields := [V32(fid)];
    assert forall p: Path :: RequestFields(Erlang(TShortRead(fid, p))) == fields + [VPath(p)];
    var pp;
    pp, trail := WritePathMessage(w, 152, fields, segments);
  }

  /** A short write: a path in segments, then the data in one piece. */
  method PartialShortWrite(w: MessageWriter, fid: u32, segments: Path, data: Blob)
    requires w.Valid() && w.out.position == w.pos
    requires w.Room(HEADER_SIZE + |RequestPayload(Erlang(TShortWrite(fid, segments, data)))|)
    modifies w, w.out, w.out.buf
    ensures Wrote(old(w.out.buf[..]), w.pos, w.out, RequestFrame(Erlang(TShortWrite(fid, segments, data)), w.tag))
  {
    hide Encode;
    hide HeaderBytes;
    hide Splice;
    ghost var b := w.out.buf[..];
    var fields := [V32(fid)];
    EncodeSnoc(fields + [VPath(segments)], VData(data));
    assert RequestFields(Erlang(TShortWrite(fid, segments, data))) == fields + [VPath(segments)] + [VData(data)];
    var pp, _ := WritePathMessage(w, 154, fields, segments);
    ghost var first := Frame(154, w.tag, pp.Payload());
    pp.Data(data);
    SpliceOver(b, w.pos, first, Frame(154, w.tag, pp.Payload() + (LE(|data|, 4) + data)));
  }

  method PartialWrite(w: MessageWriter, fid: u32, offset: u64, chunks: seq<Blob>) returns (ghost trail: seq<seq<byte>>)
    requires |Joined(chunks)| < TWO_32
    requires w.Valid() && w.out.position == w.pos
    requires w.Room(HEADER_SIZE + |RequestPayload(Base(TWrite(fid, offset, Joined(chunks))))|)
    modifies w, w.out, w.out.buf
    ensures Wrote(old(w.out.buf[..]), w.pos, w.out, RequestFrame(Base(TWrite(fid, offset, Joined(chunks))), w.tag))
    ensures |trail| == |chunks| + 1
    ensures forall i | 0 <= i <= |chunks| ::
              |Joined(chunks[..i])| < TWO_32
              && HEADER_SIZE + |RequestPayload(Base(TWrite(fid, offset, Joined(chunks[..i]))))| < TWO_32
              && trail[i] == RequestFrame(Base(TWrite(fid, offset, Joined(chunks[..i]))), w.tag)
  {
    hide Encode;
    hide HeaderBytes;
    hide Splice;
    var fields := [V32(fid), V64(offset)];
    assert forall d: Blob :: RequestFields(Base(TWrite(fid, offset, d))) == fields + [VData(d)];
    trail := WriteDataMessage(w, TWRITE, fields, chunks);
  }

  method PartialRead(w: MessageWriter, chunks: seq<Blob>) returns (ghost trail: seq<seq<byte>>)
    requires |Joined(chunks)| < TWO_32
    requires w.Valid() && w.out.position == w.pos
    requires w.Room(HEADER_SIZE + |ResponsePayload(BaseR(RRead(Joined(chunks))))|)
    modifies w, w.out, w.out.buf
    ensures Wrote(old(w.out.buf[..]), w.pos, w.out, ResponseFrame(BaseR(RRead(Joined(chunks))), w.tag))
    ensures |trail| == |chunks| + 1
    ensures forall i | 0 <= i <= |chunks| ::
              |Joined(chunks[..i])| < TWO_32
              && HEADER_SIZE + |ResponsePayload(BaseR(RRead(Joined(chunks[..i]))))| < TWO_32
              && trail[i] == ResponseFrame(BaseR(RRead(Joined(chunks[..i]))), w.tag)
  {
    hide Encode;
    hide HeaderBytes;
    hide Splice;
    assert forall d: Blob :: ResponseFields(BaseR(RRead(d))) == [] + [VData(d)];
    trail := WriteDataMessage(w, RREAD, [], chunks);
  }

  lemma ErrorPayloadSize(t: Text)
    ensures |ResponsePayload(BaseR(RError(t)))| == 2 + |t|
  {
    hide LE;
    TextFieldPayload([], t);
    assert [] + [VText(t)] == [VText(t)];
  }

  method PartialError(w: MessageWriter, pieces: seq<Text>) returns (ghost trail: seq<seq<byte>>)
    requires |Joined(pieces)| < TWO_16
    requires w.Valid() && w.out.position == w.pos
    requires w.Room(HEADER_SIZE + 2 + |Joined(pieces)|)
    modifies w, w.out, w.out.buf
    ensures HEADER_SIZE + |ResponsePayload(BaseR(RError(Joined(pieces))))| < TWO_32
    ensures Wrote(old(w.out.buf[..]), w.pos, w.out, ResponseFrame(BaseR(RError(Joined(pieces))), w.tag))
    ensures |trail| == |pieces| + 1
    ensures forall i | 0 <= i <= |pieces| ::
              |Joined(pieces[..i])| < TWO_16
              && HEADER_SIZE + |ResponsePayload(BaseR(RError(Joined(pieces[..i]))))| < TWO_32
              && trail[i] == ResponseFrame(BaseR(RError(Joined(pieces[..i]))), w.tag)
  {
    hide Encode;
    hide HeaderBytes;
    hide Splice;
    assert forall t: Text :: ResponseFields(BaseR(RError(t))) == [] + [VText(t)];
    ErrorPayloadSize(Joined(pieces));
    trail := WriteTextMessage(w, 107, [], pieces);
  }
}
