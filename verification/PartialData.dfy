/**
 The partial writers for trailing data and trailing strings.
 */
module PartialData {
  import opened Bytes
  import opened Fields
  import opened Framing
  import opened Streams
  import opened Writers
  import opened Partials

  lemma LengthAdds(n: nat, m: nat)
    ensures (n % TWO_16 + m) % TWO_16 == (n + m) % TWO_16
  {
  }

  class PartialStringWriter {
    const w: MessageWriter
    const segmentsPos: nat
    var dataSize: u16
    ghost const head: seq<byte>
    /** The pieces so far, joined. */
    ghost var text: seq<byte>

    ghost function Payload(): seq<byte>
      reads this
    {
      head + LE(dataSize, 2) + text
    }

    ghost predicate Valid()
      reads this, w, w.out, w.out.buf
    {
      && dataSize == |text| % TWO_16
      && segmentsPos == w.pos + HEADER_SIZE + |head|
      && Complete(w, Payload())
    }

    constructor (writer: MessageWriter, ghost before: seq<byte>)
      requires Opened(writer, before) && writer.Room(2)
      modifies writer, writer.out, writer.out.buf
      ensures Valid() && w == writer && head == before && text == [] && w.typ == old(writer.typ)
      ensures w.out.buf[..] == Splice(old(writer.out.buf[..]), w.pos, Frame(w.typ, w.tag, Payload()))
    {
      w := writer;
      segmentsPos := writer.out.position;
      dataSize := 0;
      head := before;
      text := [];
      new;
      OpenField(w, head, 2);
      assert Payload() == head + LE(0, 2);
    }

    /** One more piece: the length is a u16 and wraps like one. */
    method String(value: Text)
      requires Valid() && w.Room(|value|)
      modifies this, w, w.out, w.out.buf
      ensures Valid() && text == old(text) + value && w.typ == old(w.typ)
      ensures w.out.buf[..] == Splice(old(w.out.buf[..]), w.pos, Frame(w.typ, w.tag, Payload()))
    {
      hide HeaderBytes;
      hide Splice;
      hide LE;
      hide Holds;
      ghost var b, h := w.out.buf[..], w.Head();
      ghost var field := LE(dataSize, 2);
      LengthAdds(|text|, |value|);
      dataSize := (dataSize + |value|) % TWO_16;
      var _ := w.out.Write(value);
      PatchField(w.out, segmentsPos, dataSize, 2);
      ghost var h' := HeaderBytes(Header(w.out.position - w.pos, w.typ, w.tag));
      AppendThenPatch(b, w.pos, h, head, field, text, LE(dataSize, 2), value, h');
      w.UpdateMessageSize();
      text := text + value;
      SpliceHolds(b, w.pos, h' + Payload());
    }
  }

  class PartialDataWriter {
    const w: MessageWriter
    const segmentsPos: nat
    var dataSize: u32
    ghost const head: seq<byte>

    /** The header and the fields before the data are in place, and so is the room for the length. */
    ghost predicate Valid()
      reads this, w, w.out, w.out.buf
    {
      && w.Started()
      && segmentsPos == w.pos + HEADER_SIZE + |head|
      && segmentsPos + 4 <= w.out.position
      && Holds(w.out.buf[..], w.pos, w.Head() + (head + LE(dataSize, 4)))
    }

    /** The length field covers exactly the bytes up to the position, and the header covers all. */
    ghost predicate Whole()
      reads this, w, w.out, w.out.buf
    {
      && Valid()
      && w.out.position == segmentsPos + 4 + dataSize
      && w.size == w.out.position - w.pos
    }

    ghost function Data(): seq<byte>
      requires Whole()
      reads this, w, w.out, w.out.buf
    {
      w.out.buf[segmentsPos + 4..w.out.position]
    }

    /** Everything in the buffer after the length field, whether or not it is part of the message. */
    ghost function Tape(): seq<byte>
      requires Valid()
      reads this, w, w.out, w.out.buf
    {
      w.out.buf[segmentsPos + 4..]
    }

    constructor (writer: MessageWriter, ghost before: seq<byte>)
      requires Opened(writer, before) && writer.Room(4)
      modifies writer, writer.out, writer.out.buf
      ensures Whole() && w == writer && head == before && dataSize == 0 && w.typ == old(writer.typ)
      ensures w.out.buf[..] == Splice(old(writer.out.buf[..]), w.pos, Frame(w.typ, w.tag, head + LE(0, 4)))
    {
      w := writer;
      segmentsPos := writer.out.position;
      dataSize := 0;
      head := before;
      new;
      OpenField(w, head, 4);
      HoldsConcat(w.out.buf[..], w.pos, w.Head(), head + LE(0, 4));
    }

    /**
     Sets the length of the data, whose bytes are already in the buffer. The
     message is consistent afterwards exactly when the data fits the buffer:
     the failed `advance` is not noticed, and the position stays at the start.
     */
    method UpdateSize(n: u32)
      requires Valid() && segmentsPos + 4 + n < w.pos + TWO_32
      modifies this, w, w.out, w.out.buf
      ensures Valid() && dataSize == n && w.typ == old(w.typ)
      ensures w.size == w.out.position - w.pos
      ensures w.out.position == segmentsPos + 4 + if segmentsPos + 4 + n <= w.out.buf.Length then n else 0
      ensures w.out.buf[..] == Splice(old(w.out.buf[..]), w.pos, w.Head() + (head + LE(n, 4)))
      ensures Whole() <==> segmentsPos + 4 + n <= w.out.buf.Length
    {
      hide HeaderBytes;
      hide Splice;
      hide Holds;
      ghost var b, h, field := w.out.buf[..], w.Head(), LE(dataSize, 4);
      dataSize := n;
      w.out.Seek(segmentsPos);
      PutNum(w.out, n, 4);
      var _ := w.out.Advance(n);
      ghost var h' := HeaderBytes(Header(w.out.position - w.pos, w.typ, w.tag));
      assert head + field == head + field + [];
      PatchThenAppend(b, w.pos, h, head, field, [], LE(n, 4), [], h');
      SpliceNothing(Splice(b, w.pos + |h| + |head|, LE(n, 4)), w.pos + |h| + |head| + 4);
      assert head + LE(n, 4) + ([] + []) == head + LE(n, 4);
      w.UpdateMessageSize();
      SpliceHolds(b, w.pos, h' + (head + LE(n, 4)));
    }

    /** Writes `value` behind the data so far and takes it into the data. */
    method Append(value: Blob)
      requires Whole() && dataSize + |value| < TWO_32 && w.out.position + |value| < w.pos + TWO_32
      modifies this, w, w.out, w.out.buf
      ensures Valid() && dataSize == old(dataSize) + |value| && w.typ == old(w.typ)
      ensures Whole() <==> old(w.out.position) + |value| <= w.out.buf.Length
      ensures Whole() ==>
                w.out.buf[..] == Splice(Splice(old(w.out.buf[..]), old(w.out.position), value),
                                        w.pos, w.Head() + (head + LE(dataSize, 4)))
    {
      hide HeaderBytes;
      hide Splice;
      hide Holds;
      ghost var b, x := w.out.buf[..], w.Head() + (head + LE(dataSize, 4));
      var ok := w.out.Write(value);
      if ok {
        SpliceKeeps(b, old(w.out.position), value, w.pos, x);
        HoldsConcat(w.out.buf[..], w.pos, w.Head(), head + LE(dataSize, 4));
      }
      UpdateSize(dataSize + |value|);
    }
  }
}
