/**
 The two byte streams, and the encoder and decoder that run over them. A write
 or an advance that does not fit fails and leaves the stream as it was.
 */
module Streams {
  import opened Bytes
  import opened Fields

  /** A position in a fixed-size buffer. */
  class ByteWriter {
    const buf: array<byte>
    var position: nat

    constructor (buffer: array<byte>)
      ensures Valid() && buf == buffer && position == 0
    {
      buf := buffer;
      position := 0;
    }

    ghost predicate Valid()
      reads this
    {
      position <= buf.Length
    }

    method Write(x: seq<byte>) returns (ok: bool)
      requires Valid()
      modifies this, buf
      ensures Valid()
      ensures ok <==> old(position) + |x| <= buf.Length
      ensures ok ==> position == old(position) + |x| && buf[..] == Splice(old(buf[..]), old(position), x)
      ensures !ok ==> position == old(position) && buf[..] == old(buf[..])
    {
      if |x| > buf.Length - position {
        return false;
      }
      forall i | 0 <= i < |x| {
        buf[position + i] := x[i];
      }
      position := position + |x|;
      return true;
    }

    /** `position(p)` */
    method Seek(p: nat)
      requires Valid() && p <= buf.Length
      modifies this
      ensures Valid() && position == p
    {
      position := p;
    }

    method Advance(n: nat) returns (ok: bool)
      requires Valid()
      modifies this
      ensures Valid()
      ensures ok <==> old(position) + n <= buf.Length
      ensures position == if ok then old(position) + n else old(position)
    {
      ok := n <= buf.Length - position;
      if ok {
        position := position + n;
      }
    }
  }

  /** `w` stands just after the bytes `x`, written over `before` at `at`. */
  ghost predicate Wrote(before: seq<byte>, at: nat, w: ByteWriter, x: seq<byte>)
    reads w, w.buf
  {
    && at + |x| <= |before|
    && w.position == at + |x|
    && w.buf[..] == Splice(before, at, x)
  }

  lemma SpliceTwice(b: seq<byte>, at: nat, x: seq<byte>, y: seq<byte>)
    requires at + |x| + |y| <= |b|
    ensures Splice(Splice(b, at, x), at + |x|, y) == Splice(b, at, x + y)
  {
  }

  lemma SpliceNothing(b: seq<byte>, at: nat)
    requires at <= |b|
    ensures Splice(b, at, []) == b
  {
  }

  // ------------------------------------------------------------------------
  // Encoder
  // ------------------------------------------------------------------------

  method PutNum(w: ByteWriter, value: nat, width: nat)
    requires w.Valid() && w.position + width <= w.buf.Length
    modifies w, w.buf
    ensures Wrote(old(w.buf[..]), old(w.position), w, LE(value, width))
  {
    var _ := w.Write(LE(value, width));
  }

  method PutText(w: ByteWriter, s: Text)
    requires w.Valid() && w.position + |EncodeText(s)| <= w.buf.Length
    modifies w, w.buf
    ensures Wrote(old(w.buf[..]), old(w.position), w, EncodeText(s))
  {
    SpliceTwice(w.buf[..], w.position, LE(|s|, 2), s);
    PutNum(w, |s|, 2);
    var _ := w.Write(s);
  }

  method PutData(w: ByteWriter, d: Blob)
    requires w.Valid() && w.position + 4 + |d| <= w.buf.Length
    modifies w, w.buf
    ensures Wrote(old(w.buf[..]), old(w.position), w, LE(|d|, 4) + d)
  {
    SpliceTwice(w.buf[..], w.position, LE(|d|, 4), d);
    PutNum(w, |d|, 4);
    var _ := w.Write(d);
  }

  method PutQid(w: ByteWriter, q: Qid)
    requires w.Valid() && w.position + 13 <= w.buf.Length
    modifies w, w.buf
    ensures Wrote(old(w.buf[..]), old(w.position), w, EncodeQid(q))
  {
    ghost var b, at := w.buf[..], w.position;
    var a, v, p := LE(q.typ, 1), LE(q.version, 4), LE(q.path, 8);
    SpliceTwice(b, at, a, v);
    SpliceTwice(b, at, a + v, p);
    PutNum(w, q.typ, 1);
    PutNum(w, q.version, 4);
    PutNum(w, q.path, 8);
  }

  lemma EncodeTextsSnoc(ss: seq<Text>, s: Text)
    ensures EncodeTexts(ss + [s]) == EncodeTexts(ss) + EncodeText(s)
  {
    if ss == [] {
      assert [s][1..] == [];
    } else {
      assert (ss + [s])[1..] == ss[1..] + [s];
    }
  }

  lemma EncodeQidsSnoc(qs: seq<Qid>, q: Qid)
    ensures EncodeQids(qs + [q]) == EncodeQids(qs) + EncodeQid(q)
  {
    hide EncodeQid;
    if qs == [] {
      assert [q][1..] == [];
    } else {
      assert (qs + [q])[1..] == qs[1..] + [q];
    }
  }

  lemma EncodeSnoc(vs: seq<Value>, v: Value)
    ensures Encode(vs + [v]) == Encode(vs) + EncodeOne(v)
  {
    hide EncodeOne;
    EncodeAppend(vs, [v]);
    assert [v][1..] == [];
    assert Encode([v]) == EncodeOne(v) + [];
  }

  lemma EncodeTextsPrefix(ss: seq<Text>, i: nat)
    requires i < |ss|
    ensures EncodeTexts(ss[..i + 1]) == EncodeTexts(ss[..i]) + EncodeText(ss[i])
    ensures |EncodeTexts(ss[..i + 1])| <= |EncodeTexts(ss)|
    decreases |ss| - i
  {
    assert ss[..i + 1] == ss[..i] + [ss[i]];
    EncodeTextsSnoc(ss[..i], ss[i]);
    if i + 1 < |ss| {
      EncodeTextsPrefix(ss, i + 1);
    } else {
      assert ss[..i + 1] == ss;
    }
  }

  lemma EncodePrefix(vs: seq<Value>, i: nat)
    requires i < |vs|
    ensures Encode(vs[..i + 1]) == Encode(vs[..i]) + EncodeOne(vs[i])
    ensures |Encode(vs[..i + 1])| <= |Encode(vs)|
  {
    hide EncodeOne;
    assert vs[..i + 1] == vs[..i] + [vs[i]];
    EncodeSnoc(vs[..i], vs[i]);
    EncodeAppend(vs[..i + 1], vs[i + 1..]);
    assert vs == vs[..i + 1] + vs[i + 1..];
  }

  method PutPath(w: ByteWriter, p: Path)
    requires w.Valid() && w.position + 2 + |EncodeTexts(p)| <= w.buf.Length
    modifies w, w.buf
    ensures Wrote(old(w.buf[..]), old(w.position), w, LE(|p|, 2) + EncodeTexts(p))
  {
    hide EncodeText;
    hide LE;
    hide Splice;
    ghost var b, at := w.buf[..], w.position;
    PutNum(w, |p|, 2);
    assert p[..0] == [] && LE(|p|, 2) + [] == LE(|p|, 2);
    for i := 0 to |p|
      invariant Wrote(b, at, w, LE(|p|, 2) + EncodeTexts(p[..i]))
    {
      EncodeTextsPrefix(p, i);
      ghost var done := LE(|p|, 2) + EncodeTexts(p[..i]);
      SpliceTwice(b, at, done, EncodeText(p[i]));
      assert done + EncodeText(p[i]) == LE(|p|, 2) + EncodeTexts(p[..i + 1]);
      PutText(w, p[i]);
    }
    assert p[..|p|] == p;
  }

  method PutQids(w: ByteWriter, q: QidArray)
    requires w.Valid() && w.position + 2 + |EncodeQids(q)| <= w.buf.Length
    modifies w, w.buf
    ensures Wrote(old(w.buf[..]), old(w.position), w, LE(|q|, 2) + EncodeQids(q))
  {
    hide EncodeQid;
    hide LE;
    hide Splice;
    ghost var b, at := w.buf[..], w.position;
    PutNum(w, |q|, 2);
    assert q[..0] == [] && LE(|q|, 2) + [] == LE(|q|, 2);
    for i := 0 to |q|
      invariant Wrote(b, at, w, LE(|q|, 2) + EncodeQids(q[..i]))
    {
      assert q[..i + 1] == q[..i] + [q[i]];
      EncodeQidsSnoc(q[..i], q[i]);
      ghost var done := LE(|q|, 2) + EncodeQids(q[..i]);
      SpliceTwice(b, at, done, EncodeQid(q[i]));
      assert done + EncodeQid(q[i]) == LE(|q|, 2) + EncodeQids(q[..i + 1]);
      PutQid(w, q[i]);
    }
    assert q[..|q|] == q;
  }

  method PutValue(w: ByteWriter, v: Value)
    requires w.Valid() && w.position + |EncodeOne(v)| <= w.buf.Length
    modifies w, w.buf
    ensures Wrote(old(w.buf[..]), old(w.position), w, EncodeOne(v))
  {
    match v
    case V8(n) => PutNum(w, n, 1);
    case V16(n) => PutNum(w, n, 2);
    case V32(n) => PutNum(w, n, 4);
    case V64(n) => PutNum(w, n, 8);
    case VText(s) => PutText(w, s);
    case VData(d) => PutData(w, d);
    case VPath(p) => PutPath(w, p);
    case VQids(q) => PutQids(w, q);
  }

  /** The fold of `<<` over the arguments of `encode`. */
  method PutFields(w: ByteWriter, vs: seq<Value>)
    requires w.Valid() && w.position + |Encode(vs)| <= w.buf.Length
    modifies w, w.buf
    ensures Wrote(old(w.buf[..]), old(w.position), w, Encode(vs))
  {
    hide EncodeOne;
    ghost var b, at := w.buf[..], w.position;
    SpliceNothing(b, at);
    for i := 0 to |vs|
      invariant Wrote(b, at, w, Encode(vs[..i]))
    {
      EncodePrefix(vs, i);
      SpliceTwice(b, at, Encode(vs[..i]), EncodeOne(vs[i]));
      PutValue(w, vs[i]);
    }
    assert vs[..|vs|] == vs;
  }
}
