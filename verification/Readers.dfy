/**
 The reading stream and the decoder over it. Every decoder consumes from one
 shared reader; each is proved against the decoding function on the bytes that
 were left when it started.
 */
module Readers {
  import opened Bytes
  import opened Fields
  import opened Messages
  import opened Tables
  import opened Framing
  import opened Streams

  class ByteReader {
    const data: seq<byte>
    var position: nat

    constructor (bytes: seq<byte>)
      ensures Valid() && data == bytes && position == 0
    {
      data := bytes;
      position := 0;
    }

    predicate Valid()
      reads this
    {
      position <= |data|
    }

    function Remaining(): seq<byte>
      requires Valid()
      reads this
    {
      data[position..]
    }

    method Advance(n: nat) returns (ok: bool)
      requires Valid()
      modifies this
      ensures Valid()
      ensures ok <==> n <= |old(Remaining())|
      ensures Remaining() == if ok then old(Remaining())[n..] else old(Remaining())
    {
      ok := n <= |data| - position;
      if ok {
        position := position + n;
      }
    }

    method ReadNum(width: nat) returns (ok: bool, value: nat)
      requires Valid()
      modifies this
      ensures Valid()
      ensures if ok then DecodeNum(width, old(Remaining())) == Ok(value, Remaining())
              else DecodeNum(width, old(Remaining())) == OutOfData(0) && Remaining() == old(Remaining())
      ensures ok ==> value < Span(width)
    {
      ok := width <= |data| - position;
      value := 0;
      if ok {
        value := FromLE(data[position..position + width]);
        assert Remaining()[..width] == data[position..position + width];
        position := position + width;
      }
    }
  }

  // ------------------------------------------------------------------------
  // What a failed read leaves
  // ------------------------------------------------------------------------

  /** The length prefix is gone if it was there; the bytes behind it are not. */
  function CountedLeft(width: nat, bs: seq<byte>): seq<byte> {
    if |bs| < width then bs else bs[width..]
  }

  /** The type and the version of a qid are consumed one by one. */
  function QidLeft(bs: seq<byte>): seq<byte> {
    if |bs| < 1 then bs else if |bs| < 5 then bs[1..] else bs[5..]
  }

  /** Every whole qid is consumed, and what can be of the next one. */
  function QidsLeft(bs: seq<byte>): seq<byte>
    decreases |bs|
  {
    if DecodeQid(bs).Ok? then QidsLeft(DecodeQid(bs).rest) else QidLeft(bs)
  }

  function QidArrayLeft(bs: seq<byte>): seq<byte> {
    if |bs| < 2 then bs else QidsLeft(bs[2..])
  }

  /** The bytes that the decoder of one field leaves on the reader when it fails on `bs`. */
  function FieldLeft(k: Kind, bs: seq<byte>): seq<byte> {
    match k
    case Str => CountedLeft(2, bs)
    case Data => CountedLeft(4, bs)
    case Qids => QidArrayLeft(bs)
    case _ => bs
  }

  // ------------------------------------------------------------------------
  // The decoder
  // ------------------------------------------------------------------------

  /** Reads into a destination that holds `dest`; it is assigned only if the whole string is there. */
  method ReadText(r: ByteReader, dest: Text) returns (ok: bool, s: Text)
    requires r.Valid()
    modifies r
    ensures r.Valid()
    ensures if ok then DecodeText(old(r.Remaining())) == Ok(s, r.Remaining())
            else DecodeText(old(r.Remaining())) == OutOfData(0)
    ensures !ok ==> var b := old(r.Remaining()); r.Remaining() == if |b| < 2 then b else b[2..]
    ensures !ok ==> s == dest
  {
    SpanOfWidths();
    s := dest;
    var n: nat;
    ok, n := r.ReadNum(2);
    if ok {
      var view := r.Remaining();
      ok := r.Advance(n);
      if ok {
        s := view[..n];
      }
    }
  }

  method ReadData(r: ByteReader) returns (ok: bool, d: Blob)
    requires r.Valid()
    modifies r
    ensures r.Valid()
    ensures if ok then DecodeData(old(r.Remaining())) == Ok(d, r.Remaining())
            else DecodeData(old(r.Remaining())) == OutOfData(0)
    ensures !ok ==> var b := old(r.Remaining()); r.Remaining() == if |b| < 4 then b else b[4..]
  {
    SpanOfWidths();
    d := [];
    var n: nat;
    ok, n := r.ReadNum(4);
    if ok {
      var view := r.Remaining();
      ok := r.Advance(n);
      if ok {
        d := view[..n];
      }
    }
  }

  /** The segments that iterating over a well-formed path of `count` segments yields. */
  function SegmentsIn(count: nat, view: seq<byte>): seq<Text>
    requires DecodeTexts(count, view).Ok?
  {
    DecodeTexts(count, view).value
  }

  /** Skipping the summed sizes of the segments lands where decoding them one at a time lands. */
  lemma SkipLandsAfterSegments(count: nat, view: seq<byte>)
    requires DecodeTexts(count, view).Ok?
    ensures var skip := |EncodeTexts(SegmentsIn(count, view))|;
            skip <= |view| && view[skip..] == DecodeTexts(count, view).rest
  {
    TextsCanonical(count, view);
    Cut(EncodeTexts(SegmentsIn(count, view)), DecodeTexts(count, view).rest);
  }

  /**
   The path decoder does not decode the segments one after the other on the
   reader: it iterates over a view, adds up the sizes and skips the total.
   */
  method ReadPath(r: ByteReader) returns (ok: bool, p: Path)
    requires r.Valid() && !DecodePath(r.Remaining()).Undefined?
    modifies r
    ensures r.Valid()
    ensures if ok then DecodePath(old(r.Remaining())) == Ok(p, r.Remaining())
            else DecodePath(old(r.Remaining())) == OutOfData(0) && r.Remaining() == old(r.Remaining())
  {
    SpanOfWidths();
    p := [];
    var n: nat;
    ok, n := r.ReadNum(2);
    if ok {
      ghost var view := r.Remaining();
      p := SegmentsIn(n, r.Remaining());
      var skip := 0;
      for i := 0 to |p|
        invariant skip == |EncodeTexts(p[..i])|
        modifies {}
      {
        EncodeTextsPrefix(p, i);
        skip := skip + 2 + |p[i]|;
      }
      assert p[..|p|] == p;
      SkipLandsAfterSegments(n, view);
      ok := r.Advance(skip);
    }
  }

  method ReadQid(r: ByteReader) returns (ok: bool, q: Qid)
    requires r.Valid()
    modifies r
    ensures r.Valid()
    ensures if ok then DecodeQid(old(r.Remaining())) == Ok(q, r.Remaining())
            else DecodeQid(old(r.Remaining())) == OutOfData(0) && r.Remaining() == QidLeft(old(r.Remaining()))
  {
    SpanOfWidths();
    q := Qid(0, 0, 0);
    ghost var b := r.Remaining();
    var typ: nat, version: nat, path: nat;
    ok, typ := r.ReadNum(1);
    if ok {
      ok, version := r.ReadNum(4);
      if ok {
        assert b[1..][..4] == b[1..5];
        ok, path := r.ReadNum(8);
        if ok {
          assert b[1..][4..] == b[5..] && b[5..][..8] == b[5..13];
          assert r.Remaining() == b[13..];
          q := Qid(path, version, typ);
        }
      }
    }
  }

  /** What the qid loop still has to do, given what it has done. */
  function QidsAfter(done: seq<Qid>, more: Decoded<seq<Qid>>): Decoded<seq<Qid>> {
    match more
    case Ok(qs, rest) => Ok(done + qs, rest)
    case other => other
  }

  method ReadQids(r: ByteReader) returns (ok: bool, q: QidArray)
    requires r.Valid() && !DecodeQidArray(r.Remaining()).Undefined?
    modifies r
    ensures r.Valid()
    ensures if ok then DecodeQidArray(old(r.Remaining())) == Ok(q, r.Remaining())
            else DecodeQidArray(old(r.Remaining())) == OutOfData(0) && r.Remaining() == QidArrayLeft(old(r.Remaining()))
  {
    hide DecodeQid;
    q := [];
    var n: nat;
    ok, n := r.ReadNum(2);
    if ok {
      ghost var b := r.Remaining();
      var i := 0;
      assert QidsAfter([], DecodeQids(n, MAX_QIDS, b)) == DecodeQids(n, MAX_QIDS, b) by {
        if DecodeQids(n, MAX_QIDS, b).Ok? {
          assert [] + DecodeQids(n, MAX_QIDS, b).value == DecodeQids(n, MAX_QIDS, b).value;
        }
      }
      while i < n && ok
        invariant r.Valid() && |q| <= MAX_QIDS && i <= n
        invariant ok ==> |q| == i
        invariant ok ==> DecodeQids(n, MAX_QIDS, b) == QidsAfter(q, DecodeQids(n - i, MAX_QIDS - i, r.Remaining()))
        invariant !ok ==> DecodeQids(n, MAX_QIDS, b) == OutOfData(0) && r.Remaining() == QidsLeft(b)
        invariant ok ==> QidsLeft(r.Remaining()) == QidsLeft(b)
        decreases n - i, ok
      {
        ghost var left := r.Remaining();
        assert i < MAX_QIDS;
        var qid: Qid;
        ok, qid := ReadQid(r);
        if ok {
          QidsStep(q, qid, n - i - 1, MAX_QIDS - i - 1, left);
          q := q + [qid];
          i := i + 1;
        }
      }
      if ok {
        assert q + [] == q;
      }
    }
  }

  lemma QidsStep(done: seq<Qid>, q: Qid, count: nat, room: nat, bs: seq<byte>)
    requires DecodeQid(bs).Ok? && DecodeQid(bs).value == q
    ensures QidsAfter(done, DecodeQids(count + 1, room + 1, bs))
         == QidsAfter(done + [q], DecodeQids(count, room, DecodeQid(bs).rest))
  {
    hide DecodeQid;
    if DecodeQids(count, room, DecodeQid(bs).rest).Ok? {
      var qs := DecodeQids(count, room, DecodeQid(bs).rest).value;
      assert done + ([q] + qs) == done + [q] + qs;
    }
  }

  method ReadValue(r: ByteReader, k: Kind) returns (ok: bool, v: Value)
    requires r.Valid() && !DecodeOne(k, r.Remaining()).Undefined?
    modifies r
    ensures r.Valid()
    ensures if ok then DecodeOne(k, old(r.Remaining())) == Ok(v, r.Remaining())
            else DecodeOne(k, old(r.Remaining())) == OutOfData(0) && r.Remaining() == FieldLeft(k, old(r.Remaining()))
  {
    hide DecodeText;
    hide DecodeData;
    hide DecodePath;
    hide DecodeQidArray;
    hide DecodeNum;
    SpanOfWidths();
    v := V8(0);
    match k
    case U8 => var n; ok, n := r.ReadNum(1); if ok { v := V8(n); }
    case U16 => var n; ok, n := r.ReadNum(2); if ok { v := V16(n); }
    case U32 => var n; ok, n := r.ReadNum(4); if ok { v := V32(n); }
    case U64 => var n; ok, n := r.ReadNum(8); if ok { v := V64(n); }
    case Str => var s; ok, s := ReadText(r, []); v := VText(s);
    case Data => var d; ok, d := ReadData(r); v := VData(d);
    case Segments => var p; ok, p := ReadPath(r); v := VPath(p);
    case Qids => var q; ok, q := ReadQids(r); v := VQids(q);
  }

  /** What the outcome of field `n` means for the whole list, the fields before it having been read. */
  lemma FieldsStep(ks: seq<Kind>, n: nat, bs: seq<byte>, vs: seq<Value>, rest: seq<byte>)
    requires n < |ks| && |vs| == n && Decode(ks[..n], bs) == Ok(vs, rest)
    ensures match DecodeOne(ks[n], rest)
            case Ok(v, rest') => Decode(ks[..n + 1], bs) == Ok(vs + [v], rest')
            case OutOfData(_) => Decode(ks, bs) == OutOfData(n)
            case Undefined => Decode(ks, bs) == Undefined
  {
    hide DecodeOne;
    assert ks == ks[..n] + ks[n..] && ks[..n + 1] == ks[..n] + [ks[n]];
    DecodeAppend(ks[..n], ks[n..], bs);
    DecodeAppend(ks[..n], [ks[n]], bs);
    assert [ks[n]][1..] == [];
    match DecodeOne(ks[n], rest)
    case Ok(v, rest') => assert [v] + [] == [v] && Decode([ks[n]], rest) == Ok([v], rest');
    case _ =>
  }

  /**
   The fold of `>>` over the arguments of `decode`: the first read that fails
   ends it, and none of the later reads is made: the reader is left where the
   read of the failing field left it.
   */
  method ReadFields(r: ByteReader, ks: seq<Kind>) returns (ok: bool, vs: seq<Value>)
    requires r.Valid() && !Decode(ks, r.Remaining()).Undefined?
    modifies r
    ensures r.Valid()
    ensures if ok then Decode(ks, old(r.Remaining())) == Ok(vs, r.Remaining())
            else Decode(ks, old(r.Remaining())) == OutOfData(|vs|)
    ensures !ok ==>
              && |vs| < |ks|
              && Decode(ks[..|vs|], old(r.Remaining())).Ok?
              && var before := Decode(ks[..|vs|], old(r.Remaining()));
                 vs == before.value && r.Remaining() == FieldLeft(ks[|vs|], before.rest)
  {
    hide DecodeOne;
    hide FieldLeft;
    ok, vs := true, [];
    ghost var b := r.Remaining();
    ghost var rest := b;
    assert ks[..0] == [];
    while |vs| < |ks| && ok
      invariant r.Valid() && |vs| <= |ks|
      invariant Decode(ks[..|vs|], b) == Ok(vs, rest)
      invariant ok ==> r.Remaining() == rest
      invariant !ok ==> |vs| < |ks| && Decode(ks, b) == OutOfData(|vs|) && r.Remaining() == FieldLeft(ks[|vs|], rest)
      decreases |ks| - |vs|, ok
    {
      FieldsStep(ks, |vs|, b, vs, rest);
      var v: Value;
      ok, v := ReadValue(r, ks[|vs|]);
      if ok {
        vs := vs + [v];
        rest := r.Remaining();
      }
    }
    assert ok ==> ks[..|vs|] == ks;
  }

  // ------------------------------------------------------------------------
  // Messages
  // ------------------------------------------------------------------------

  /** Of the bytes `before` exactly the header has been read. */
  predicate HeaderConsumed(before: seq<byte>, after: seq<byte>) {
    |before| >= HEADER_SIZE && after == before[HEADER_SIZE..]
  }

  lemma HeaderLeaves(bs: seq<byte>)
    requires Decode(HeaderKinds(), bs).Ok?
    ensures HeaderConsumed(bs, Decode(HeaderKinds(), bs).rest)
  {
    hide Decode;
    hide Encode;
    Canonical(HeaderKinds(), bs);
    var Ok(vs, rest) := Decode(HeaderKinds(), bs);
    assert vs == [vs[0], vs[1], vs[2]] && vs[0].V32? && vs[1].V8? && vs[2].V16?;
    Encode3(vs[0], vs[1], vs[2]);
    Cut(Encode(vs), rest);
  }

  method ReadHeader(r: ByteReader) returns (res: Result<Header>)
    requires r.Valid()
    modifies r
    ensures r.Valid()
    ensures res.Success? ==> ParseHeader(old(r.Remaining())) == Success(HeaderAndRest(res.value, r.Remaining()))
    ensures res.Failure? ==> ParseHeader(old(r.Remaining())) == Failure(res.error)
    ensures (res.Failure? && res.error.HeaderRead?) || HeaderConsumed(old(r.Remaining()), r.Remaining())
  {
    hide Decode;
    HeaderNeedsSeven(r.Remaining());
    if Decode(HeaderKinds(), r.Remaining()).Ok? {
      HeaderLeaves(r.Remaining());
    }
    var ok, vs := ReadFields(r, HeaderKinds());
    if !ok {
      return Failure(HeaderRead(|vs|));
    }
    var h := Header(Num32(vs, 0), Num8(vs, 1), Num16(vs, 2));
    if h.size < HEADER_SIZE {
      return Failure(FrameTooShort);
    }
    return Success(h);
  }

  datatype Received<+T> = Received(header: Header, message: T)

  /** `parseMessageHeader`, then `RequestParser::parseRequest`, on one reader. */
  method ReceiveRequest(r: ByteReader, v: Version, maxPayload: u32) returns (res: Result<Received<Request>>)
    requires r.Valid() && !ParseRequest(v, maxPayload, r.Remaining()).Unmodelled?
    modifies r
    ensures r.Valid()
    ensures match ParseRequest(v, maxPayload, old(r.Remaining()))
            case Message(h, m, unread) => res == Success(Received(h, m)) && r.Remaining() == unread
            case Failed(e) =>
              && res == Failure(e)
              && (e.HeaderRead? || e.PayloadRead? || HeaderConsumed(old(r.Remaining()), r.Remaining()))
            case Unmodelled => false
  {
    hide ParseHeader;
    hide Decode;
    hide RequestKinds;
    hide AssembleRequest;
    hide RequestSlot;
    var header := ReadHeader(r);
    if header.Failure? {
      return Failure(header.error);
    }
    var h := header.value;
    var invalid := Validate(h, |r.Remaining()|, MaxMessageSize(maxPayload));
    if invalid.Some? {
      return Failure(invalid.value);
    }
    var slot := RequestSlot(v, h.typ);
    if slot.None? {
      return Failure(UnsupportedMessageType);
    }
    var ok, vs := ReadFields(r, RequestKinds(slot.value));
    return if ok then Success(Received(h, AssembleRequest(slot.value, vs))) else Failure(PayloadRead(|vs|));
  }

  method ReceiveResponse(r: ByteReader, v: Version, maxPayload: u32) returns (res: Result<Received<Response>>)
    requires r.Valid() && !ParseResponse(v, maxPayload, r.Remaining()).Unmodelled?
    modifies r
    ensures r.Valid()
    ensures match ParseResponse(v, maxPayload, old(r.Remaining()))
            case Message(h, m, unread) => res == Success(Received(h, m)) && r.Remaining() == unread
            case Failed(e) =>
              && res == Failure(e)
              && (e.HeaderRead? || e.PayloadRead? || HeaderConsumed(old(r.Remaining()), r.Remaining()))
            case Unmodelled => false
  {
    hide ParseHeader;
    hide Decode;
    hide ResponseKinds;
    hide AssembleResponse;
    hide ResponseSlot;
    var header := ReadHeader(r);
    if header.Failure? {
      return Failure(header.error);
    }
    var h := header.value;
    var invalid := Validate(h, |r.Remaining()|, MaxMessageSize(maxPayload));
    if invalid.Some? {
      return Failure(invalid.value);
    }
    var slot := ResponseSlot(v, h.typ);
    if slot.None? {
      return Failure(UnsupportedMessageType);
    }
    var ok, vs := ReadFields(r, ResponseKinds(slot.value));
    return if ok then Success(Received(h, AssembleResponse(slot.value, vs))) else Failure(PayloadRead(|vs|));
  }
}
