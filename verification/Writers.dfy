/**
 The message writer: a header with a provisional size is written first and
 patched when the payload is complete.
 */
module Writers {
  import opened Bytes
  import opened Fields
  import opened Messages
  import opened Framing
  import opened Wire
  import opened Layout
  import opened Streams

  class MessageWriter {
    const out: ByteWriter
    /** Where the header of the message starts. */
    const pos: nat
    const tag: u16
    var size: u32
    var typ: u8

    constructor (dest: ByteWriter, messageTag: u16)
      requires dest.Valid()
      ensures Valid() && out == dest && pos == dest.position && tag == messageTag
      ensures size == HEADER_SIZE && typ == 0
    {
      out := dest;
      pos := dest.position;
      tag := messageTag;
      size := HEADER_SIZE;
      typ := 0;
    }

    ghost predicate Valid()
      reads this, out
    {
      out.Valid() && pos <= out.buf.Length
    }

    /** The header as the writer remembers it. */
    ghost function Head(): seq<byte>
      reads this
    {
      HeaderBytes(Header(size, typ, tag))
    }

    /** A message has been begun, and the seven bytes at `pos` are the remembered header. */
    ghost predicate Started()
      reads this, out, out.buf
    {
      Valid() && pos + HEADER_SIZE <= out.position && Holds(out.buf[..], pos, Head())
    }

    /** `n` more bytes fit the buffer and leave a message that a u32 can measure. */
    ghost predicate Room(n: nat)
      reads this, out
    {
      out.position + n <= out.buf.Length && out.position + n < pos + TWO_32
    }

    /** One-argument `messageType`: begins a message. */
    method MessageType(code: u8)
      requires Valid() && out.position == pos && Room(HEADER_SIZE)
      modifies this, out, out.buf
      ensures Started() && typ == code && size == old(size)
      ensures Wrote(old(out.buf[..]), pos, out, Head())
    {
      MessageTypeTagged(code, tag);
      SpliceHolds(old(out.buf[..]), pos, Head());
    }

    /** Two-argument `messageType`: the given tag is written but not remembered. */
    method MessageTypeTagged(code: u8, otherTag: u16)
      requires Valid() && out.position == pos && Room(HEADER_SIZE)
      modifies this, out, out.buf
      ensures Valid() && typ == code && size == old(size)
      ensures Wrote(old(out.buf[..]), pos, out, HeaderBytes(Header(size, code, otherTag)))
    {
      typ := code;
      PutHeader(out, Header(size, code, otherTag));
    }

    method UpdateMessageSize()
      requires Valid() && Room(0)
      requires out.position == pos || pos + HEADER_SIZE <= out.position
      modifies this, out, out.buf
      ensures Valid() && out.position == old(out.position) && typ == old(typ)
      ensures out.position == pos || old(size) == out.position - pos ==>
                size == old(size) && out.buf[..] == old(out.buf[..])
      ensures out.position != pos && old(size) != out.position - pos ==>
                size == out.position - pos && out.buf[..] == Splice(old(out.buf[..]), pos, Head())
      // The early return is sound: on a begun message the result is always the full patch.
      ensures old(Started()) ==>
                Started() && size == out.position - pos && out.buf[..] == Splice(old(out.buf[..]), pos, Head())
    {
      hide HeaderBytes;
      var finalPos := out.position;
      var messageSize := finalPos - pos;
      if finalPos == pos || size == messageSize {
        if pos + HEADER_SIZE <= out.position && Holds(out.buf[..], pos, Head()) {
          SpliceUnique(out.buf[..], out.buf[..], pos, Head());
        }
        return;
      }
      size := messageSize;
      out.Seek(pos);
      PutHeader(out, Header(size, typ, tag));
      out.Seek(finalPos);
      SpliceHolds(old(out.buf[..]), pos, Head());
    }
  }

  method PutHeader(w: ByteWriter, h: Header)
    requires w.Valid() && w.position + HEADER_SIZE <= w.buf.Length
    modifies w, w.buf
    ensures Wrote(old(w.buf[..]), old(w.position), w, HeaderBytes(h))
  {
    hide Encode;
    assert |HeaderBytes(h)| == HEADER_SIZE;
    PutFields(w, HeaderFields(h));
  }

  // ------------------------------------------------------------------------
  // One-shot writers
  // ------------------------------------------------------------------------

  lemma SpliceFrame(b: seq<byte>, at: nat, h: seq<byte>, h': seq<byte>, p: seq<byte>)
    requires |h| == |h'| && at + |h| + |p| <= |b|
    ensures Splice(Splice(Splice(b, at, h), at + |h|, p), at, h') == Splice(b, at, h' + p)
  {
  }

  /** `encode`: begin, fold the fields, patch the size. */
  method WriteMessage(w: MessageWriter, code: u8, fields: seq<Value>)
    requires w.Valid() && w.out.position == w.pos && w.Room(HEADER_SIZE + |Encode(fields)|)
    modifies w, w.out, w.out.buf
    ensures w.Started() && w.typ == code && w.size == HEADER_SIZE + |Encode(fields)|
    ensures Wrote(old(w.out.buf[..]), w.pos, w.out, Frame(code, w.tag, Encode(fields)))
  {
    hide HeaderBytes;
    hide Encode;
    ghost var b := w.out.buf[..];
    w.MessageType(code);
    ghost var h := w.Head();
    PutFields(w.out, fields);
    SpliceKeeps(Splice(b, w.pos, h), w.pos + HEADER_SIZE, Encode(fields), w.pos, h);
    w.UpdateMessageSize();
    SpliceFrame(b, w.pos, h, w.Head(), Encode(fields));
  }

  /** Whatever size an earlier message left behind, the buffer receives exactly the frame of the request. */
  method WriteRequest(w: MessageWriter, m: Request)
    requires w.Valid() && w.out.position == w.pos && w.Room(HEADER_SIZE + |RequestPayload(m)|)
    modifies w, w.out, w.out.buf
    ensures w.Started()
    ensures Wrote(old(w.out.buf[..]), w.pos, w.out, RequestFrame(m, w.tag))
    ensures var form := RequestForm(m);
            7 + |Flat(form.fields)| < TWO_32 && RequestFrame(m, w.tag) == OnTheWire(form, w.tag)
  {
    hide RequestFields;
    hide RequestForm;
    hide OnTheWire;
    RequestOnTheWire(m, w.tag);
    WriteMessage(w, RequestCode(TypeOfRequest(m)), RequestFields(m));
  }

  method WriteResponse(w: MessageWriter, m: Response)
    requires w.Valid() && w.out.position == w.pos && w.Room(HEADER_SIZE + |ResponsePayload(m)|)
    modifies w, w.out, w.out.buf
    ensures w.Started()
    ensures Wrote(old(w.out.buf[..]), w.pos, w.out, ResponseFrame(m, w.tag))
    ensures var form := ResponseForm(m);
            7 + |Flat(form.fields)| < TWO_32 && ResponseFrame(m, w.tag) == OnTheWire(form, w.tag)
  {
    hide ResponseFields;
    hide ResponseForm;
    hide OnTheWire;
    ResponseOnTheWire(m, w.tag);
    WriteMessage(w, ResponseCode(TypeOfResponse(m)), ResponseFields(m));
  }

  /**
   A message begun with an explicit tag. The patch of the size writes the tag of
   the writer, so the frame carries the explicit tag exactly when no patch
   happens or the two tags are the same.
   */
  method WriteTagged(w: MessageWriter, code: u8, otherTag: u16, payload: seq<byte>) returns (carried: u16)
    requires w.Valid() && w.out.position == w.pos && w.Room(HEADER_SIZE + |payload|)
    modifies w, w.out, w.out.buf
    ensures Wrote(old(w.out.buf[..]), w.pos, w.out, Frame(code, carried, payload))
    ensures carried == otherTag || carried == w.tag
    ensures carried == otherTag <==> otherTag == w.tag || old(w.size) == HEADER_SIZE + |payload|
  {
    hide HeaderBytes;
    ghost var b := w.out.buf[..];
    w.MessageTypeTagged(code, otherTag);
    ghost var h := HeaderBytes(Header(w.size, code, otherTag));
    carried := if w.size == HEADER_SIZE + |payload| then otherTag else w.tag;
    var _ := w.out.Write(payload);
    SpliceTwice(b, w.pos, h, payload);
    w.UpdateMessageSize();
    if carried != otherTag || old(w.size) != HEADER_SIZE + |payload| {
      SpliceFrame(b, w.pos, h, w.Head(), payload);
    }
  }

  // ------------------------------------------------------------------------
  // Whole runs
  // ------------------------------------------------------------------------

  datatype Op =
    | Begin(code: u8)
    | Emit(bytes: seq<byte>)
    | Update
    | Rewind

  /** What a run has produced: the message under construction, if any, and the last size recorded. */
  datatype Run = Run(begun: bool, code: u8, payload: seq<byte>, recorded: u32)

  function Step(s: Run, op: Op): Run {
    match op
    case Begin(c) => s.(begun := true, code := c, payload := [])
    case Emit(x) => s.(payload := s.payload + x)
    case Update => if s.begun then s.(recorded := (HEADER_SIZE + |s.payload|) % TWO_32) else s
    case Rewind => s.(begun := false, payload := [])
  }

  function After(s: Run, ops: seq<Op>): Run {
    if ops == [] then s else Step(After(s, ops[..|ops| - 1]), ops[|ops| - 1])
  }

  /** Messages begin at `pos`, bytes follow a begun message, and everything fits `room` bytes. */
  predicate LegalStep(s: Run, op: Op, room: nat) {
    match op
    case Begin(_) => !s.begun && HEADER_SIZE <= room
    case Emit(x) => s.begun && HEADER_SIZE + |s.payload| + |x| <= room
    case Update => true
    case Rewind => true
  }

  predicate Legal(s: Run, ops: seq<Op>, room: nat) {
    forall i | 0 <= i < |ops| :: LegalStep(After(s, ops[..i]), ops[i], room)
  }

  /** The buffer and the writer agree with the run so far. */
  ghost predicate Reflects(w: MessageWriter, before: seq<byte>, s: Run)
    reads w, w.out, w.out.buf
  {
    && w.Valid() && |before| == w.out.buf.Length
    && w.size == s.recorded
    && w.out.buf[..w.pos] == before[..w.pos]
    && if s.begun then
         && w.typ == s.code
         && w.out.position == w.pos + HEADER_SIZE + |s.payload|
         && Holds(w.out.buf[..], w.pos, HeaderBytes(Header(s.recorded, s.code, w.tag)) + s.payload)
       else w.out.position == w.pos
  }

  method Perform(w: MessageWriter, ghost before: seq<byte>, ghost s: Run, op: Op, ghost room: nat)
    requires Reflects(w, before, s) && LegalStep(s, op, room)
    requires room < TWO_32 && w.pos + room <= w.out.buf.Length
    requires s.begun ==> HEADER_SIZE + |s.payload| <= room
    modifies w, w.out, w.out.buf
    ensures Reflects(w, before, Step(s, op))
  {
    hide HeaderBytes;
    hide Splice;
    hide Holds;
    ghost var b := w.out.buf[..];
    match op
    case Begin(c) =>
      w.MessageType(c);
      assert w.Head() + [] == w.Head();
      BeforeKept(b, w.pos, w.Head());
    case Emit(x) =>
      ExtendHeld(b, w.pos, w.Head(), s.payload, x);
      var _ := w.out.Write(x);
    case Update =>
      if s.begun {
        HoldsConcat(b, w.pos, w.Head(), s.payload);
      }
      w.UpdateMessageSize();
      if s.begun {
        PatchHeld(b, w.pos, old(w.Head()), w.Head(), s.payload);
      }
    case Rewind =>
      w.out.Seek(w.pos);
  }

  lemma BeforeKept(b: seq<byte>, at: nat, x: seq<byte>)
    requires at + |x| <= |b|
    ensures Splice(b, at, x)[..at] == b[..at]
  {
  }

  lemma ExtendHeld(b: seq<byte>, at: nat, h: seq<byte>, p: seq<byte>, x: seq<byte>)
    requires Holds(b, at, h + p) && at + |h| + |p| + |x| <= |b|
    ensures var c := Splice(b, at + |h| + |p|, x); Holds(c, at, h + (p + x)) && c[..at] == b[..at]
  {
    var c := Splice(b, at + |h| + |p|, x);
    SpliceHolds(b, at + |h| + |p|, x);
    SpliceKeeps(b, at + |h| + |p|, x, at, h + p);
    HoldsConcat(c, at, h + p, x);
    assert (h + p) + x == h + (p + x);
    assert c[..at] == c[..at + |h| + |p|][..at] && b[..at] == b[..at + |h| + |p|][..at];
  }

  lemma PatchHeld(b: seq<byte>, at: nat, h: seq<byte>, h': seq<byte>, p: seq<byte>)
    requires Holds(b, at, h + p) && |h| == |h'|
    ensures Holds(Splice(b, at, h'), at, h' + p) && Splice(b, at, h')[..at] == b[..at]
  {
    HoldsConcat(b, at, h, p);
    SpliceHolds(b, at, h');
    SpliceKeeps(b, at, h', at + |h|, p);
    HoldsConcat(Splice(b, at, h'), at, h', p);
  }

  /**
   Every legal run, with any number of messages and rewinds on one writer:
   the header on the wire is the remembered header, the payload is what was
   emitted, and the bytes before the message are untouched. The sizes that
   earlier messages recorded never get in the way.
   */
  method PerformAll(w: MessageWriter, ops: seq<Op>, ghost room: nat)
    requires w.Valid() && w.out.position == w.pos
    requires room < TWO_32 && w.pos + room <= w.out.buf.Length
    requires Legal(Run(false, 0, [], w.size), ops, room)
    modifies w, w.out, w.out.buf
    ensures Reflects(w, old(w.out.buf[..]), After(Run(false, 0, [], old(w.size)), ops))
  {
    hide HeaderBytes;
    ghost var before := w.out.buf[..];
    ghost var start := Run(false, 0, [], w.size);
    for i := 0 to |ops|
      invariant Reflects(w, before, After(start, ops[..i]))
    {
      assert LegalStep(After(start, ops[..i]), ops[i], room);
      LegalPrefix(start, ops, i, room);
      WithinRoom(start, ops[..i], room);
      assert ops[..i + 1][..i] == ops[..i];
      Perform(w, before, After(start, ops[..i]), ops[i], room);
    }
    assert ops[..|ops|] == ops;
  }

  lemma LegalPrefix(s: Run, ops: seq<Op>, n: nat, room: nat)
    requires Legal(s, ops, room) && n <= |ops|
    ensures Legal(s, ops[..n], room)
  {
    hide LegalStep;
    forall i | 0 <= i < n
      ensures LegalStep(After(s, ops[..n][..i]), ops[..n][i], room)
    {
      assert ops[..n][..i] == ops[..i] && LegalStep(After(s, ops[..i]), ops[i], room);
    }
  }

  lemma {:induction false} WithinRoom(s: Run, ops: seq<Op>, room: nat)
    requires Legal(s, ops, room) && !s.begun
    ensures After(s, ops).begun ==> HEADER_SIZE + |After(s, ops).payload| <= room
  {
    if ops != [] {
      var most := ops[..|ops| - 1];
      LegalPrefix(s, ops, |most|, room);
      WithinRoom(s, most, room);
      assert LegalStep(After(s, most), ops[|ops| - 1], room);
    }
  }

  /** Once a run ends with an update, the message under construction is a complete frame. */
  lemma UpdatedRunIsFrame(w: MessageWriter, before: seq<byte>, s: Run, ops: seq<Op>)
    requires ops != [] && ops[|ops| - 1] == Update && After(s, ops).begun
    requires Reflects(w, before, After(s, ops)) && w.Room(0)
    ensures Holds(w.out.buf[..], w.pos, Frame(After(s, ops).code, w.tag, After(s, ops).payload))
    ensures w.size == w.out.position - w.pos
  {
  }
}
