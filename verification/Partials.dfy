/**
 The partial writers: a message whose last fields arrive in pieces. Each piece
 patches a count or a length inside the payload and then the size in the
 header.
 */
module Partials {
  import opened Bytes
  import opened Fields
  import opened Framing
  import opened Streams
  import opened Writers

  /** Adjacent stretches of a buffer, all overwritten in one go. */
  lemma SpliceInside(b: seq<byte>, at: nat, x: seq<byte>, y: seq<byte>, z: seq<byte>, y': seq<byte>)
    requires at + |x| + |y| + |z| <= |b| && |y'| == |y|
    ensures Splice(Splice(b, at, x + y + z), at + |x|, y') == Splice(b, at, x + y' + z)
  {
  }

  lemma SpliceHeld(b: seq<byte>, at: nat, x: seq<byte>)
    requires Holds(b, at, x)
    ensures Splice(b, at, x) == b
  {
  }

  lemma SpliceOver(b: seq<byte>, at: nat, x: seq<byte>, y: seq<byte>)
    requires |x| <= |y| && at + |y| <= |b|
    ensures Splice(Splice(b, at, x), at, y) == Splice(b, at, y)
  {
  }

  lemma HeldHead(b: seq<byte>, at: nat, h: seq<byte>, rest: seq<byte>, h': seq<byte>)
    requires at + |h| + |rest| <= |b| && |h'| == |h|
    ensures Holds(Splice(b, at, h + rest), at, h)
    ensures Splice(Splice(b, at, h + rest), at, h') == Splice(b, at, h' + rest)
  {
    hide Splice;
    hide Holds;
    SpliceHolds(b, at, h + rest);
    HoldsConcat(Splice(b, at, h + rest), at, h, rest);
    assert h + rest == [] + h + rest && h' + rest == [] + h' + rest;
    SpliceInside(b, at, [], h, rest, h');
  }

  /**
   A held message `h + head + f + body`, after the field `f` is patched, `extra`
   is appended and the header is patched.
   */
  lemma PatchThenAppend(b: seq<byte>, at: nat, h: seq<byte>, head: seq<byte>, f: seq<byte>, body: seq<byte>,
                        f': seq<byte>, extra: seq<byte>, h': seq<byte>)
    requires Holds(b, at, h + (head + f + body)) && |f'| == |f| && |h'| == |h|
    requires at + |h| + |head| + |f| + |body| + |extra| <= |b|
    ensures var c := Splice(b, at + |h| + |head|, f');
            var d := Splice(c, at + |h| + |head| + |f| + |body|, extra);
            && Holds(d, at, h)
            && Splice(d, at, h') == Splice(b, at, h' + (head + f' + (body + extra)))
  {
    hide Splice;
    hide Holds;
    assert h + (head + f + body) == (h + head) + f + body;
    SpliceHeld(b, at, (h + head) + f + body);
    SpliceInside(b, at, h + head, f, body, f');
    SpliceTwice(b, at, (h + head) + f' + body, extra);
    assert (h + head) + f' + body + extra == h + (head + f' + (body + extra));
    HeldHead(b, at, h, head + f' + (body + extra), h');
  }

  /** The same message, with `extra` appended first. */
  lemma AppendThenPatch(b: seq<byte>, at: nat, h: seq<byte>, head: seq<byte>, f: seq<byte>, body: seq<byte>,
                        f': seq<byte>, extra: seq<byte>, h': seq<byte>)
    requires Holds(b, at, h + (head + f + body)) && |f'| == |f| && |h'| == |h|
    requires at + |h| + |head| + |f| + |body| + |extra| <= |b|
    ensures var c := Splice(b, at + |h| + |head| + |f| + |body|, extra);
            var d := Splice(c, at + |h| + |head|, f');
            && Holds(d, at, h)
            && Splice(d, at, h') == Splice(b, at, h' + (head + f' + (body + extra)))
  {
    hide Splice;
    hide Holds;
    assert h + (head + f + body) == (h + head) + f + body;
    SpliceHeld(b, at, h + (head + f + body));
    SpliceTwice(b, at, h + (head + f + body), extra);
    assert h + (head + f + body) + extra == (h + head) + f + (body + extra);
    SpliceInside(b, at, h + head, f, body + extra, f');
    assert (h + head) + f' + (body + extra) == h + (head + f' + (body + extra));
    HeldHead(b, at, h, head + f' + (body + extra), h');
  }

  /** A message under construction: everything so far is one complete frame. */
  ghost predicate Complete(w: MessageWriter, payload: seq<byte>)
    reads w, w.out, w.out.buf
  {
    && w.Valid()
    && HEADER_SIZE + |payload| < TWO_32
    && w.size == HEADER_SIZE + |payload|
    && w.out.position == w.pos + HEADER_SIZE + |payload|
    && Holds(w.out.buf[..], w.pos, Frame(w.typ, w.tag, payload))
  }

  /** A begun message with the payload bytes `head`, before the first size update. */
  ghost predicate Opened(w: MessageWriter, head: seq<byte>)
    reads w, w.out, w.out.buf
  {
    && w.Started()
    && w.out.position == w.pos + HEADER_SIZE + |head|
    && Holds(w.out.buf[..], w.pos, w.Head() + head)
  }

  /** Appends an empty counted field to an opened message and completes it. */
  method OpenField(w: MessageWriter, ghost head: seq<byte>, width: nat)
    requires Opened(w, head) && w.Room(width)
    modifies w, w.out, w.out.buf
    ensures Complete(w, head + LE(0, width)) && w.typ == old(w.typ)
    ensures w.out.buf[..] == Splice(old(w.out.buf[..]), w.pos, Frame(w.typ, w.tag, head + LE(0, width)))
  {
    hide HeaderBytes;
    hide Splice;
    hide Holds;
    ghost var b, h := w.out.buf[..], w.Head();
    PutNum(w.out, 0, width);
    ExtendHeld(b, w.pos, h, head, LE(0, width));
    HoldsConcat(w.out.buf[..], w.pos, h, head + LE(0, width));
    w.UpdateMessageSize();
    OpenedAndPatched(b, w.pos, h, head, LE(0, width), w.Head());
    SpliceHolds(b, w.pos, w.Head() + (head + LE(0, width)));
  }

  lemma OpenedAndPatched(b: seq<byte>, at: nat, h: seq<byte>, head: seq<byte>, x: seq<byte>, h': seq<byte>)
    requires Holds(b, at, h + head) && |h'| == |h| && at + |h| + |head| + |x| <= |b|
    ensures Splice(Splice(b, at + |h| + |head|, x), at, h') == Splice(b, at, h' + (head + x))
  {
    SpliceHeld(b, at, h + head);
    SpliceTwice(b, at, h + head, x);
    assert h + head + x == [] + h + (head + x);
    SpliceInside(b, at, [], h, head + x, h');
    assert [] + h' + (head + x) == h' + (head + x);
  }

  /** Goes back to `at`, overwrites a number there, and returns to the end of the message. */
  method PatchField(out: ByteWriter, at: nat, value: nat, width: nat)
    requires out.Valid() && at + width <= out.buf.Length
    modifies out, out.buf
    ensures out.Valid() && out.position == old(out.position)
    ensures out.buf[..] == Splice(old(out.buf[..]), at, LE(value, width))
  {
    var finalPos := out.position;
    out.Seek(at);
    PutNum(out, value, width);
    out.Seek(finalPos);
  }

  // ------------------------------------------------------------------------
  // Paths
  // ------------------------------------------------------------------------

  class PartialPathWriter {
    const w: MessageWriter
    const segmentsPos: nat
    var nSegments: u16
    /** The payload before the path, and the segments so far. */
    ghost const head: seq<byte>
    ghost var segments: seq<Text>

    ghost function Payload(): seq<byte>
      reads this
    {
      head + LE(nSegments, 2) + EncodeTexts(segments)
    }

    ghost predicate Valid()
      reads this, w, w.out, w.out.buf
    {
      && nSegments == |segments| % TWO_16
      && segmentsPos == w.pos + HEADER_SIZE + |head|
      && Complete(w, Payload())
    }

    constructor (writer: MessageWriter, ghost before: seq<byte>)
      requires Opened(writer, before) && writer.Room(2)
      modifies writer, writer.out, writer.out.buf
      ensures Valid() && w == writer && head == before && segments == [] && w.typ == old(writer.typ)
      ensures w.out.buf[..] == Splice(old(writer.out.buf[..]), w.pos, Frame(w.typ, w.tag, Payload()))
    {
      w := writer;
      segmentsPos := writer.out.position;
      nSegments := 0;
      head := before;
      segments := [];
      new;
      OpenField(w, head, 2);
      assert Payload() == head + LE(0, 2);
    }

    /** One more segment: the counter is a u16 and wraps like one. */
    method Segment(value: Text)
      requires Valid() && w.Room(|EncodeText(value)|)
      modifies this, w, w.out, w.out.buf
      ensures Valid() && segments == old(segments) + [value] && w.typ == old(w.typ)
      ensures w.out.buf[..] == Splice(old(w.out.buf[..]), w.pos, Frame(w.typ, w.tag, Payload()))
    {
      hide HeaderBytes;
      hide Splice;
      hide Holds;
      hide LE;
      hide EncodeTexts;
      hide EncodeText;
      ghost var b, h := w.out.buf[..], w.Head();
      ghost var body, field := EncodeTexts(segments), LE(nSegments, 2);
      nSegments := (nSegments + 1) % TWO_16;
      PatchField(w.out, segmentsPos, nSegments, 2);
      PutText(w.out, value);
      ghost var h' := HeaderBytes(Header(w.out.position - w.pos, w.typ, w.tag));
      PatchThenAppend(b, w.pos, h, head, field, body, LE(nSegments, 2), EncodeText(value), h');
      w.UpdateMessageSize();
      EncodeTextsSnoc(segments, value);
      segments := segments + [value];
      SpliceHolds(b, w.pos, h' + Payload());
    }

    /** `PathDataWriter::data`: the data field that ends a short write. */
    method Data(value: Blob)
      requires Valid() && w.Room(4 + |value|)
      modifies w, w.out, w.out.buf
      ensures Complete(w, Payload() + (LE(|value|, 4) + value)) && w.typ == old(w.typ)
      ensures w.out.buf[..] == Splice(old(w.out.buf[..]), w.pos, Frame(w.typ, w.tag, Payload() + (LE(|value|, 4) + value)))
    {
      hide HeaderBytes;
      hide Splice;
      hide Holds;
      ghost var b, h, p := w.out.buf[..], w.Head(), Payload();
      ghost var x := LE(|value|, 4) + value;
      PutData(w.out, value);
      ExtendHeld(b, w.pos, h, p, x);
      HoldsConcat(w.out.buf[..], w.pos, h, p + x);
      w.UpdateMessageSize();
      OpenedAndPatched(b, w.pos, h, p, x, w.Head());
      SpliceHolds(b, w.pos, w.Head() + (p + x));
    }
  }
}
