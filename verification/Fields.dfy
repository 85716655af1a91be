/**
 The field codec. A message body is an ordered list of fields; encoding is the
 fold of `<<` over the list and decoding the short-circuiting fold of `>>`
 over the list of the expected kinds.
 */
module Fields {
  import opened Bytes

  /** A string or path segment: at most 65535 bytes, since its length travels as a u16. */
  type Text = s: seq<byte> | |s| < TWO_16
  /** Raw data: its length travels as a u32. */
  type Blob = s: seq<byte> | |s| < TWO_32
  /** A path: its segment count travels as a u16. */
  type Path = p: seq<Text> | |p| < TWO_16

  datatype Qid = Qid(path: u64, version: u32, typ: u8)

  const MAX_QIDS := 16
  /** The qids of a walk response, which has room for sixteen of them. */
  type QidArray = q: seq<Qid> | |q| <= MAX_QIDS

  datatype Kind = U8 | U16 | U32 | U64 | Str | Data | Segments | Qids

  datatype Value =
    | V8(n8: u8)
    | V16(n16: u16)
    | V32(n32: u32)
    | V64(n64: u64)
    | VText(text: Text)
    | VData(data: Blob)
    | VPath(segments: Path)
    | VQids(qids: QidArray)

  function KindOf(v: Value): Kind {
    match v
    case V8(_) => U8
    case V16(_) => U16
    case V32(_) => U32
    case V64(_) => U64
    case VText(_) => Str
    case VData(_) => Data
    case VPath(_) => Segments
    case VQids(_) => Qids
  }

  /** The values have the expected kinds, in order. */
  predicate Typed(ks: seq<Kind>, vs: seq<Value>) {
    |ks| == |vs| && forall i | 0 <= i < |ks| :: KindOf(vs[i]) == ks[i]
  }

  // ------------------------------------------------------------------------
  // Encoding
  // ------------------------------------------------------------------------

  function EncodeText(s: Text): seq<byte> {
    LE(|s|, 2) + s
  }

  function EncodeTexts(ss: seq<Text>): seq<byte> {
    if ss == [] then [] else EncodeText(ss[0]) + EncodeTexts(ss[1..])
  }

  function EncodeQid(q: Qid): (bs: seq<byte>)
    ensures |bs| == 13
  {
    LE(q.typ, 1) + LE(q.version, 4) + LE(q.path, 8)
  }

  function EncodeQids(qs: seq<Qid>): (bs: seq<byte>)
    ensures |bs| == 13 * |qs|
  {
    if qs == [] then [] else EncodeQid(qs[0]) + EncodeQids(qs[1..])
  }

  function EncodeOne(v: Value): seq<byte> {
    match v
    case V8(n) => LE(n, 1)
    case V16(n) => LE(n, 2)
    case V32(n) => LE(n, 4)
    case V64(n) => LE(n, 8)
    case VText(s) => EncodeText(s)
    case VData(d) => LE(|d|, 4) + d
    case VPath(p) => LE(|p|, 2) + EncodeTexts(p)
    case VQids(q) => LE(|q|, 2) + EncodeQids(q)
  }

  function Encode(vs: seq<Value>): seq<byte> {
    if vs == [] then [] else EncodeOne(vs[0]) + Encode(vs[1..])
  }

  // ------------------------------------------------------------------------
  // Decoding
  // ------------------------------------------------------------------------

  /**
   The outcome of a decoder: a value and the unread bytes, or the index of the
   field at which the bytes ran out. `Undefined` marks the two inputs whose
   treatment is not modelled: a path whose segments do not fit the bytes, and a
   walk response that fills its sixteen qids and announces more.
   */
  datatype Decoded<+T> =
    | Ok(value: T, rest: seq<byte>)
    | OutOfData(field: nat)
    | Undefined

  function DecodeNum(width: nat, bs: seq<byte>): (r: Decoded<nat>)
    ensures r.Ok? ==> r.value < Span(width)
  {
    if |bs| < width then OutOfData(0) else Ok(FromLE(bs[..width]), bs[width..])
  }

  function DecodeText(bs: seq<byte>): (r: Decoded<Text>)
    ensures r.Ok? ==> |r.rest| < |bs|
  {
    SpanOfWidths();
    match DecodeNum(2, bs)
    case Ok(n, rest) => if n <= |rest| then Ok(rest[..n], rest[n..]) else OutOfData(0)
    case OutOfData(_) => OutOfData(0)
    case Undefined => Undefined
  }

  function DecodeData(bs: seq<byte>): Decoded<Blob> {
    SpanOfWidths();
    match DecodeNum(4, bs)
    case Ok(n, rest) => if n <= |rest| then Ok(rest[..n], rest[n..]) else OutOfData(0)
    case OutOfData(_) => OutOfData(0)
    case Undefined => Undefined
  }

  /** `count` strings, decoded one after the other. */
  function DecodeTexts(count: nat, bs: seq<byte>): (r: Decoded<seq<Text>>)
    ensures r.Ok? ==> |r.value| == count
  {
    if count == 0 then Ok([], bs)
    else
      match DecodeText(bs)
      case Ok(s, rest) =>
        (match DecodeTexts(count - 1, rest)
         case Ok(ss, rest') => Ok([s] + ss, rest')
         case other => other)
      case OutOfData(_) => OutOfData(0)
      case Undefined => Undefined
  }

  function DecodePath(bs: seq<byte>): Decoded<Path> {
    SpanOfWidths();
    match DecodeNum(2, bs)
    case Ok(n, rest) =>
      (match DecodeTexts(n, rest)
       case Ok(ss, rest') => Ok(ss, rest')
       case _ => Undefined)
    case OutOfData(_) => OutOfData(0)
    case Undefined => Undefined
  }

  function DecodeQid(bs: seq<byte>): (r: Decoded<Qid>)
    ensures r.Ok? ==> |r.rest| + 13 == |bs|
    ensures !r.Ok? ==> r == OutOfData(0) && |bs| < 13
  {
    SpanOfWidths();
    if |bs| < 13 then OutOfData(0)
    else Ok(Qid(FromLE(bs[5..13]), FromLE(bs[1..5]), FromLE(bs[..1])), bs[13..])
  }

  /** `count` qids into an array that has room for `room` of them. */
  function DecodeQids(count: nat, room: nat, bs: seq<byte>): (r: Decoded<seq<Qid>>)
    ensures r.Ok? ==> |r.value| == count <= room
  {
    if count == 0 then Ok([], bs)
    else if room == 0 then Undefined
    else
      match DecodeQid(bs)
      case Ok(q, rest) =>
        (match DecodeQids(count - 1, room - 1, rest)
         case Ok(qs, rest') => Ok([q] + qs, rest')
         case other => other)
      case OutOfData(_) => OutOfData(0)
      case Undefined => Undefined
  }

  function DecodeQidArray(bs: seq<byte>): Decoded<QidArray> {
    match DecodeNum(2, bs)
    case Ok(n, rest) =>
      (match DecodeQids(n, MAX_QIDS, rest)
       case Ok(qs, rest') => Ok(qs, rest')
       case OutOfData(_) => OutOfData(0)
       case Undefined => Undefined)
    case OutOfData(_) => OutOfData(0)
    case Undefined => Undefined
  }

  function DecodeOne(k: Kind, bs: seq<byte>): Decoded<Value> {
    SpanOfWidths();
    match k
    case U8 => (match DecodeNum(1, bs) case Ok(n, rest) => Ok(V8(n), rest) case _ => OutOfData(0))
    case U16 => (match DecodeNum(2, bs) case Ok(n, rest) => Ok(V16(n), rest) case _ => OutOfData(0))
    case U32 => (match DecodeNum(4, bs) case Ok(n, rest) => Ok(V32(n), rest) case _ => OutOfData(0))
    case U64 => (match DecodeNum(8, bs) case Ok(n, rest) => Ok(V64(n), rest) case _ => OutOfData(0))
    case Str =>
      (match DecodeText(bs)
       case Ok(s, rest) => Ok(VText(s), rest)
       case OutOfData(_) => OutOfData(0)
       case Undefined => Undefined)
    case Data =>
      (match DecodeData(bs)
       case Ok(d, rest) => Ok(VData(d), rest)
       case OutOfData(_) => OutOfData(0)
       case Undefined => Undefined)
    case Segments =>
      (match DecodePath(bs)
       case Ok(p, rest) => Ok(VPath(p), rest)
       case OutOfData(_) => OutOfData(0)
       case Undefined => Undefined)
    case Qids =>
      (match DecodeQidArray(bs)
       case Ok(q, rest) => Ok(VQids(q), rest)
       case OutOfData(_) => OutOfData(0)
       case Undefined => Undefined)
  }

  /** Fields in order; the first one that fails ends the decoding. */
  function Decode(ks: seq<Kind>, bs: seq<byte>): Decoded<seq<Value>> {
    if ks == [] then Ok([], bs)
    else
      match DecodeOne(ks[0], bs)
      case Ok(v, rest) =>
        (match Decode(ks[1..], rest)
         case Ok(vs, rest') => Ok([v] + vs, rest')
         case OutOfData(i) => OutOfData(i + 1)
         case Undefined => Undefined)
      case OutOfData(_) => OutOfData(0)
      case Undefined => Undefined
  }

  // ------------------------------------------------------------------------
  // Decoding inverts encoding
  // ------------------------------------------------------------------------

  lemma Cut(x: seq<byte>, y: seq<byte>)
    ensures (x + y)[..|x|] == x && (x + y)[|x|..] == y
  {
  }

  lemma NumRoundTrip(value: nat, width: nat, rest: seq<byte>)
    requires value < Span(width)
    ensures DecodeNum(width, LE(value, width) + rest) == Ok(value, rest)
  {
    FromLEOfLE(value, width);
    Cut(LE(value, width), rest);
  }

  lemma NumCanonical(width: nat, bs: seq<byte>)
    requires DecodeNum(width, bs).Ok?
    ensures LE(DecodeNum(width, bs).value, width) + DecodeNum(width, bs).rest == bs
  {
    LEOfFromLE(bs[..width]);
  }

  lemma TextRoundTrip(s: Text, rest: seq<byte>)
    ensures DecodeText(EncodeText(s) + rest) == Ok(s, rest)
  {
    SpanOfWidths();
    assert EncodeText(s) + rest == LE(|s|, 2) + (s + rest);
    NumRoundTrip(|s|, 2, s + rest);
    Cut(s, rest);
  }

  lemma TextCanonical(bs: seq<byte>)
    requires DecodeText(bs).Ok?
    ensures EncodeText(DecodeText(bs).value) + DecodeText(bs).rest == bs
  {
    NumCanonical(2, bs);
    var rest := DecodeNum(2, bs).rest;
    var s := DecodeText(bs).value;
    assert rest == s + rest[|s|..];
    assert LE(|s|, 2) + rest == EncodeText(s) + rest[|s|..];
  }

  lemma {:induction false} TextsRoundTrip(ss: seq<Text>, rest: seq<byte>)
    ensures DecodeTexts(|ss|, EncodeTexts(ss) + rest) == Ok(ss, rest)
  {
    if ss == [] {
      assert EncodeTexts(ss) + rest == rest;
    } else {
      var tail := EncodeTexts(ss[1..]) + rest;
      assert EncodeTexts(ss) + rest == EncodeText(ss[0]) + tail;
      TextRoundTrip(ss[0], tail);
      TextsRoundTrip(ss[1..], rest);
      assert ss == [ss[0]] + ss[1..];
    }
  }

  lemma {:induction false} TextsCanonical(count: nat, bs: seq<byte>)
    requires DecodeTexts(count, bs).Ok?
    ensures EncodeTexts(DecodeTexts(count, bs).value) + DecodeTexts(count, bs).rest == bs
  {
    if count > 0 {
      TextCanonical(bs);
      var Ok(s, rest) := DecodeText(bs);
      TextsCanonical(count - 1, rest);
      var Ok(ss, rest') := DecodeTexts(count - 1, rest);
      assert ([s] + ss)[1..] == ss;
      assert EncodeTexts([s] + ss) + rest' == EncodeText(s) + (EncodeTexts(ss) + rest');
    }
  }

  lemma QidRoundTrip(q: Qid, rest: seq<byte>)
    ensures DecodeQid(EncodeQid(q) + rest) == Ok(q, rest)
  {
    SpanOfWidths();
    var bs := EncodeQid(q) + rest;
    assert bs[..1] == LE(q.typ, 1) && bs[1..5] == LE(q.version, 4) && bs[5..13] == LE(q.path, 8);
    assert bs[13..] == rest;
    FromLEOfLE(q.typ, 1);
    FromLEOfLE(q.version, 4);
    FromLEOfLE(q.path, 8);
  }

  lemma QidCanonical(bs: seq<byte>)
    requires DecodeQid(bs).Ok?
    ensures EncodeQid(DecodeQid(bs).value) + DecodeQid(bs).rest == bs
  {
    LEOfFromLE(bs[..1]);
    LEOfFromLE(bs[1..5]);
    LEOfFromLE(bs[5..13]);
    assert bs == bs[..1] + bs[1..5] + bs[5..13] + bs[13..];
  }

  lemma {:induction false} QidsRoundTrip(qs: seq<Qid>, room: nat, rest: seq<byte>)
    requires |qs| <= room
    ensures DecodeQids(|qs|, room, EncodeQids(qs) + rest) == Ok(qs, rest)
  {
    hide EncodeQid;
    hide DecodeQid;
    if qs == [] {
      assert EncodeQids(qs) + rest == rest;
    } else {
      var tail := EncodeQids(qs[1..]) + rest;
      assert EncodeQids(qs) + rest == EncodeQid(qs[0]) + tail;
      QidRoundTrip(qs[0], tail);
      QidsRoundTrip(qs[1..], room - 1, rest);
      assert qs == [qs[0]] + qs[1..];
    }
  }

  lemma {:induction false} QidsCanonical(count: nat, room: nat, bs: seq<byte>)
    requires DecodeQids(count, room, bs).Ok?
    ensures EncodeQids(DecodeQids(count, room, bs).value) + DecodeQids(count, room, bs).rest == bs
  {
    hide DecodeQid;
    hide EncodeQid;
    if count > 0 {
      QidCanonical(bs);
      var Ok(q, rest) := DecodeQid(bs);
      QidsCanonical(count - 1, room - 1, rest);
      var Ok(qs, rest') := DecodeQids(count - 1, room - 1, rest);
      assert ([q] + qs)[1..] == qs;
      assert EncodeQids([q] + qs) + rest' == EncodeQid(q) + (EncodeQids(qs) + rest');
    }
  }

  lemma {:induction false} QidsDefined(count: nat, room: nat, bs: seq<byte>)
    requires count <= room
    ensures !DecodeQids(count, room, bs).Undefined?
  {
    if count > 0 && DecodeQid(bs).Ok? {
      QidsDefined(count - 1, room - 1, DecodeQid(bs).rest);
    }
  }

  lemma DataRoundTrip(d: Blob, rest: seq<byte>)
    ensures DecodeData(LE(|d|, 4) + d + rest) == Ok(d, rest)
  {
    hide LE;
    hide DecodeNum;
    SpanOfWidths();
    assert LE(|d|, 4) + d + rest == LE(|d|, 4) + (d + rest);
    NumRoundTrip(|d|, 4, d + rest);
    Cut(d, rest);
  }

  lemma DataCanonical(bs: seq<byte>)
    requires DecodeData(bs).Ok?
    ensures var Ok(d, rest) := DecodeData(bs); LE(|d|, 4) + d + rest == bs
  {
    NumCanonical(4, bs);
    var rest := DecodeNum(4, bs).rest;
    var d := DecodeData(bs).value;
    assert LE(|d|, 4) + rest == LE(|d|, 4) + d + rest[|d|..];
  }

  lemma PathRoundTrip(p: Path, rest: seq<byte>)
    ensures DecodePath(LE(|p|, 2) + EncodeTexts(p) + rest) == Ok(p, rest)
  {
    hide LE;
    hide EncodeTexts;
    hide DecodeTexts;
    hide DecodeNum;
    SpanOfWidths();
    assert LE(|p|, 2) + EncodeTexts(p) + rest == LE(|p|, 2) + (EncodeTexts(p) + rest);
    NumRoundTrip(|p|, 2, EncodeTexts(p) + rest);
    TextsRoundTrip(p, rest);
  }

  lemma PathCanonical(bs: seq<byte>)
    requires DecodePath(bs).Ok?
    ensures var Ok(p, rest) := DecodePath(bs); LE(|p|, 2) + EncodeTexts(p) + rest == bs
  {
    NumCanonical(2, bs);
    var Ok(n, rest) := DecodeNum(2, bs);
    TextsCanonical(n, rest);
    var Ok(p, rest') := DecodeTexts(n, rest);
    assert LE(n, 2) + rest == LE(n, 2) + EncodeTexts(p) + rest';
  }

  lemma QidArrayRoundTrip(q: QidArray, rest: seq<byte>)
    ensures DecodeQidArray(LE(|q|, 2) + EncodeQids(q) + rest) == Ok(q, rest)
  {
    hide LE;
    hide EncodeQids;
    hide DecodeQids;
    hide DecodeNum;
    SpanOfWidths();
    assert LE(|q|, 2) + EncodeQids(q) + rest == LE(|q|, 2) + (EncodeQids(q) + rest);
    NumRoundTrip(|q|, 2, EncodeQids(q) + rest);
    QidsRoundTrip(q, MAX_QIDS, rest);
  }

  lemma QidArrayCanonical(bs: seq<byte>)
    requires DecodeQidArray(bs).Ok?
    ensures var Ok(q, rest) := DecodeQidArray(bs); LE(|q|, 2) + EncodeQids(q) + rest == bs
  {
    NumCanonical(2, bs);
    var Ok(n, rest) := DecodeNum(2, bs);
    QidsCanonical(n, MAX_QIDS, rest);
    var Ok(q, rest') := DecodeQids(n, MAX_QIDS, rest);
    assert LE(n, 2) + rest == LE(n, 2) + EncodeQids(q) + rest';
  }

  lemma OneRoundTrip(v: Value, rest: seq<byte>)
    ensures DecodeOne(KindOf(v), EncodeOne(v) + rest) == Ok(v, rest)
  {
    hide DecodeText;
    hide DecodeData;
    hide DecodePath;
    hide DecodeQidArray;
    SpanOfWidths();
    match v
    case V8(n) => NumRoundTrip(n, 1, rest);
    case V16(n) => NumRoundTrip(n, 2, rest);
    case V32(n) => NumRoundTrip(n, 4, rest);
    case V64(n) => NumRoundTrip(n, 8, rest);
    case VText(s) => TextRoundTrip(s, rest);
    case VData(d) => DataRoundTrip(d, rest);
    case VPath(p) => PathRoundTrip(p, rest);
    case VQids(q) => QidArrayRoundTrip(q, rest);
  }

  lemma OneCanonical(k: Kind, bs: seq<byte>)
    requires DecodeOne(k, bs).Ok?
    ensures KindOf(DecodeOne(k, bs).value) == k
    ensures EncodeOne(DecodeOne(k, bs).value) + DecodeOne(k, bs).rest == bs
  {
    hide DecodeText;
    hide DecodeData;
    hide DecodePath;
    hide DecodeQidArray;
    match k
    case U8 => NumCanonical(1, bs);
    case U16 => NumCanonical(2, bs);
    case U32 => NumCanonical(4, bs);
    case U64 => NumCanonical(8, bs);
    case Str => TextCanonical(bs);
    case Data => DataCanonical(bs);
    case Segments => PathCanonical(bs);
    case Qids => QidArrayCanonical(bs);
  }

  /** Decoding what was encoded gives back every field and exactly the bytes that follow. */
  lemma {:induction false} RoundTrip(ks: seq<Kind>, vs: seq<Value>, rest: seq<byte>)
    requires Typed(ks, vs)
    ensures Decode(ks, Encode(vs) + rest) == Ok(vs, rest)
  {
    hide DecodeOne;
    hide EncodeOne;
    if ks == [] {
      assert Encode(vs) + rest == rest;
    } else {
      var tail := Encode(vs[1..]) + rest;
      assert Encode(vs) + rest == EncodeOne(vs[0]) + tail;
      OneRoundTrip(vs[0], tail);
      RoundTrip(ks[1..], vs[1..], rest);
      assert vs == [vs[0]] + vs[1..];
    }
  }

  /** Whatever decodes is the encoding of the decoded fields, followed by the unread bytes. */
  lemma {:induction false} Canonical(ks: seq<Kind>, bs: seq<byte>)
    requires Decode(ks, bs).Ok?
    ensures Typed(ks, Decode(ks, bs).value)
    ensures Encode(Decode(ks, bs).value) + Decode(ks, bs).rest == bs
  {
    hide DecodeOne;
    hide EncodeOne;
    if ks != [] {
      OneCanonical(ks[0], bs);
      var Ok(v, rest) := DecodeOne(ks[0], bs);
      Canonical(ks[1..], rest);
      var Ok(vs, rest') := Decode(ks[1..], rest);
      assert ([v] + vs)[1..] == vs;
      assert Encode([v] + vs) + rest' == EncodeOne(v) + (Encode(vs) + rest');
    }
  }

  /** No encoding of a field list is a prefix of another encoding of the same kinds. */
  lemma PrefixFree(ks: seq<Kind>, vs: seq<Value>, ws: seq<Value>, rest: seq<byte>)
    requires Typed(ks, vs) && Typed(ks, ws)
    requires Encode(ws) == Encode(vs) + rest
    ensures vs == ws && rest == []
  {
    RoundTrip(ks, vs, rest);
    RoundTrip(ks, ws, []);
    assert Encode(ws) + [] == Encode(ws);
  }

  // ------------------------------------------------------------------------
  // Lists in sequence, and truncated input
  // ------------------------------------------------------------------------

  lemma {:induction false} EncodeAppend(vs: seq<Value>, ws: seq<Value>)
    ensures Encode(vs + ws) == Encode(vs) + Encode(ws)
  {
    if vs == [] {
      assert vs + ws == ws;
    } else {
      assert (vs + ws)[1..] == vs[1..] + ws;
      EncodeAppend(vs[1..], ws);
    }
  }

  lemma Encode3(a: Value, b: Value, c: Value)
    ensures Encode([a, b, c]) == EncodeOne(a) + EncodeOne(b) + EncodeOne(c)
  {
    hide EncodeOne;
    assert [a, b, c][1..] == [b, c] && [b, c][1..] == [c] && [c][1..] == [];
    assert Encode([c]) == EncodeOne(c);
    assert Encode([b, c]) == EncodeOne(b) + Encode([c]);
    assert EncodeOne(a) + (EncodeOne(b) + EncodeOne(c)) == EncodeOne(a) + EncodeOne(b) + EncodeOne(c);
  }

  /** Decoding two lists in sequence on one reader. */
  function DecodeThen(first: seq<Kind>, second: seq<Kind>, bs: seq<byte>): Decoded<seq<Value>> {
    match Decode(first, bs)
    case Ok(vs, rest) =>
      (match Decode(second, rest)
       case Ok(ws, rest') => Ok(vs + ws, rest')
       case OutOfData(i) => OutOfData(|first| + i)
       case Undefined => Undefined)
    case other => other
  }

  lemma {:induction false} DecodeAppend(first: seq<Kind>, second: seq<Kind>, bs: seq<byte>)
    ensures Decode(first + second, bs) == DecodeThen(first, second, bs)
  {
    hide DecodeOne;
    if first == [] {
      assert first + second == second;
      match Decode(second, bs)
      case Ok(ws, _) => assert [] + ws == ws;
      case _ =>
    } else {
      assert (first + second)[1..] == first[1..] + second;
      match DecodeOne(first[0], bs)
      case Ok(v, rest) =>
        DecodeAppend(first[1..], second, rest);
        if Decode(first[1..], rest).Ok? && DecodeThen(first[1..], second, rest).Ok? {
          var vs := Decode(first[1..], rest).value;
          var ws := Decode(second, Decode(first[1..], rest).rest).value;
          assert [v] + (vs + ws) == ([v] + vs) + ws;
        }
      case _ =>
    }
  }

  lemma OneNotWhole(v: Value, n: nat)
    requires n < |EncodeOne(v)|
    ensures !DecodeOne(KindOf(v), EncodeOne(v)[..n]).Ok?
  {
    hide DecodeOne;
    hide EncodeOne;
    var cut := EncodeOne(v)[..n];
    if DecodeOne(KindOf(v), cut).Ok? {
      OneCanonical(KindOf(v), cut);
      var Ok(w, rest) := DecodeOne(KindOf(v), cut);
      var tail := rest + EncodeOne(v)[n..];
      assert EncodeOne(v) + [] == EncodeOne(v) == EncodeOne(w) + tail;
      OneRoundTrip(v, []);
      OneRoundTrip(w, tail);
    }
  }

  lemma ShortNum(width: nat, bs: seq<byte>)
    requires |bs| < width
    ensures DecodeNum(width, bs) == OutOfData(0)
  {
  }

  lemma QidArrayDefined(q: QidArray, n: nat)
    requires n < 2 + |EncodeQids(q)|
    ensures !DecodeQidArray((LE(|q|, 2) + EncodeQids(q))[..n]).Undefined?
  {
    hide LE;
    hide EncodeQids;
    hide DecodeQids;
    hide DecodeNum;
    var cut := (LE(|q|, 2) + EncodeQids(q))[..n];
    if n >= 2 {
      SpanOfWidths();
      assert cut == LE(|q|, 2) + cut[2..];
      NumRoundTrip(|q|, 2, cut[2..]);
      QidsDefined(|q|, MAX_QIDS, cut[2..]);
    } else {
      ShortNum(2, cut);
    }
  }

  lemma PathTruncated(p: Path, n: nat)
    requires n < 2 + |EncodeTexts(p)| && !DecodePath((LE(|p|, 2) + EncodeTexts(p))[..n]).Ok?
    ensures DecodePath((LE(|p|, 2) + EncodeTexts(p))[..n]) == if n >= 2 then Undefined else OutOfData(0)
  {
    hide LE;
    hide EncodeTexts;
    hide DecodeTexts;
    if n < 2 {
      ShortNum(2, (LE(|p|, 2) + EncodeTexts(p))[..n]);
    }
  }

  /** A cut field runs out of bytes, except that a path does so only before its count is whole. */
  lemma OneTruncated(v: Value, n: nat)
    requires n < |EncodeOne(v)|
    ensures DecodeOne(KindOf(v), EncodeOne(v)[..n]) == if v.VPath? && n >= 2 then Undefined else OutOfData(0)
  {
    hide EncodeTexts;
    hide EncodeQids;
    hide DecodePath;
    hide DecodeQidArray;
    OneNotWhole(v, n);
    if v.VQids? {
      QidArrayDefined(v.qids, n);
    } else if v.VPath? {
      PathTruncated(v.segments, n);
    }
  }

  /** The index of the first field that `n` bytes of the encoding do not cover. */
  function FirstUncovered(vs: seq<Value>, n: nat): (i: nat)
    requires n < |Encode(vs)|
    ensures i < |vs|
  {
    if n < |EncodeOne(vs[0])| then 0 else 1 + FirstUncovered(vs[1..], n - |EncodeOne(vs[0])|)
  }

  lemma {:induction false} FirstUncoveredIsFirst(vs: seq<Value>, n: nat)
    requires n < |Encode(vs)|
    ensures var i := FirstUncovered(vs, n); |Encode(vs[..i])| <= n < |Encode(vs[..i + 1])|
  {
    var i := FirstUncovered(vs, n);
    if i > 0 {
      FirstUncoveredIsFirst(vs[1..], n - |EncodeOne(vs[0])|);
      assert vs[..i][1..] == vs[1..][..i - 1] && vs[..i + 1][1..] == vs[1..][..i];
    } else {
      assert vs[..1][1..] == [];
    }
  }

  /** The first `n` bytes of the encoding end inside a path, behind its count. */
  predicate CutInsidePath(vs: seq<Value>, n: nat)
    requires n < |Encode(vs)|
  {
    var i := FirstUncovered(vs, n);
    vs[i].VPath? && n >= |Encode(vs[..i])| + 2
  }

  /** Every strict prefix of an encoding fails, at the first field it does not cover. */
  lemma {:induction false} Truncated(ks: seq<Kind>, vs: seq<Value>, n: nat)
    requires Typed(ks, vs) && n < |Encode(vs)|
    ensures Decode(ks, Encode(vs)[..n]) == if CutInsidePath(vs, n) then Undefined else OutOfData(FirstUncovered(vs, n))
  {
    hide DecodeOne;
    hide EncodeOne;
    var head := EncodeOne(vs[0]);
    var cut := Encode(vs)[..n];
    var i := FirstUncovered(vs, n);
    if n < |head| {
      assert cut == head[..n];
      OneTruncated(vs[0], n);
      assert vs[..0] == [];
    } else {
      var tail := Encode(vs[1..])[..n - |head|];
      assert cut == head + tail;
      OneRoundTrip(vs[0], tail);
      Truncated(ks[1..], vs[1..], n - |head|);
      assert vs[..i][1..] == vs[1..][..i - 1];
    }
  }

  // ------------------------------------------------------------------------
  // The inputs that are not modelled
  // ------------------------------------------------------------------------

  /** `count` strings can be read exactly if the bytes begin with the encoding of so many. */
  lemma TextsThere(count: nat, bs: seq<byte>)
    ensures DecodeTexts(count, bs).Ok? <==> exists ss: seq<Text> :: |ss| == count && EncodeTexts(ss) <= bs
  {
    if DecodeTexts(count, bs).Ok? {
      TextsCanonical(count, bs);
      assert EncodeTexts(DecodeTexts(count, bs).value) <= bs;
    }
    if ss: seq<Text> :| |ss| == count && EncodeTexts(ss) <= bs {
      TextsRoundTrip(ss, bs[|EncodeTexts(ss)|..]);
      assert bs == EncodeTexts(ss) + bs[|EncodeTexts(ss)|..];
    }
  }

  lemma {:induction false} QidsUndefined(count: nat, room: nat, bs: seq<byte>)
    ensures DecodeQids(count, room, bs).Undefined? <==> count > room && |bs| >= 13 * room
    decreases count
  {
    hide DecodeQid;
    if count > 0 && room > 0 && DecodeQid(bs).Ok? {
      QidsUndefined(count - 1, room - 1, DecodeQid(bs).rest);
    }
  }

  /**
   `Undefined` arises from two inputs only: a path whose count is there but not
   so many segments, and more than sixteen announced qids with sixteen of them there.
   */
  lemma UndefinedExactly(k: Kind, bs: seq<byte>)
    ensures DecodeOne(k, bs).Undefined? <==>
              |bs| >= 2
              && match k
                 case Segments => !exists ss: seq<Text> :: |ss| == FromLE(bs[..2]) && EncodeTexts(ss) <= bs[2..]
                 case Qids => FromLE(bs[..2]) > 16 && |bs| >= 2 + 16 * 13
                 case _ => false
  {
    hide DecodeTexts;
    hide DecodeQids;
    hide EncodeTexts;
    hide FromLE;
    if |bs| >= 2 {
      TextsThere(FromLE(bs[..2]), bs[2..]);
      QidsUndefined(FromLE(bs[..2]), MAX_QIDS, bs[2..]);
    }
  }

  /** A list is undefined exactly if its decoding reaches a field that is. */
  lemma {:induction false} ListUndefinedExactly(ks: seq<Kind>, bs: seq<byte>)
    ensures Decode(ks, bs).Undefined? <==> exists i | 0 <= i < |ks| :: UndefinedField(ks, i, bs)
  {
    hide DecodeOne;
    forall i | 0 <= i < |ks|
      ensures UndefinedField(ks, i, bs) ==> Decode(ks, bs).Undefined?
    {
      DecodeAppend(ks[..i], ks[i..], bs);
      assert ks == ks[..i] + ks[i..];
    }
    if Decode(ks, bs).Undefined? {
      if DecodeOne(ks[0], bs).Undefined? {
        assert ks[..0] == [] && UndefinedField(ks, 0, bs);
      } else {
        var rest := DecodeOne(ks[0], bs).rest;
        ListUndefinedExactly(ks[1..], rest);
        var i :| 0 <= i < |ks| - 1 && UndefinedField(ks[1..], i, rest);
        assert ks[..i + 1][1..] == ks[1..][..i] && ks[..i + 1][0] == ks[0];
        assert UndefinedField(ks, i + 1, bs);
      }
    }
  }

  predicate UndefinedField(ks: seq<Kind>, i: nat, bs: seq<byte>)
    requires i < |ks|
  {
    Decode(ks[..i], bs).Ok? && DecodeOne(ks[i], Decode(ks[..i], bs).rest).Undefined?
  }
}
