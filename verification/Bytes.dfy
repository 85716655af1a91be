/**
 Bytes on the wire: the unsigned integer widths of the protocol, little-endian
 integers, joined byte strings, and overwriting a stretch of a fixed-size buffer.
 */
module Bytes {

  const TWO_8: int := 0x100
  const TWO_16: int := 0x1_0000
  const TWO_32: int := 0x1_0000_0000
  const TWO_64: int := 0x1_0000_0000_0000_0000

  type byte = b: int | 0 <= b < TWO_8
  type u8 = x: int | 0 <= x < TWO_8
  type u16 = x: int | 0 <= x < TWO_16
  type u32 = x: int | 0 <= x < TWO_32
  type u64 = x: int | 0 <= x < TWO_64

  /** The number of values that `width` bytes can hold. */
  function Span(width: nat): (n: nat)
    ensures n > 0
  {
    if width == 0 then 1 else 256 * Span(width - 1)
  }

  lemma SpanOfWidths()
    ensures Span(1) == TWO_8 && Span(2) == TWO_16 && Span(4) == TWO_32 && Span(8) == TWO_64
  {
    assert Span(4) == 256 * (256 * Span(2));
    assert Span(6) == 256 * (256 * Span(4));
    assert Span(8) == 256 * (256 * Span(6));
  }

  /** `value` in `width` bytes, least significant byte first; higher bytes are cut off. */
  function LE(value: nat, width: nat): (bs: seq<byte>)
    ensures |bs| == width
    decreases value, width
  {
    if width == 0 then [] else [value % 256] + LE(value / 256, width - 1)
  }

  function FromLE(bs: seq<byte>): (value: nat)
    ensures value < Span(|bs|)
  {
    if bs == [] then 0 else bs[0] + 256 * FromLE(bs[1..])
  }

  lemma {:induction false} FromLEOfLE(value: nat, width: nat)
    requires value < Span(width)
    ensures FromLE(LE(value, width)) == value
    decreases width
  {
    if width > 0 {
      FromLEOfLE(value / 256, width - 1);
      assert LE(value, width)[1..] == LE(value / 256, width - 1);
    }
  }

  lemma {:induction false} LEOfFromLE(bs: seq<byte>)
    ensures LE(FromLE(bs), |bs|) == bs
  {
    if bs != [] {
      LEOfFromLE(bs[1..]);
      assert FromLE(bs) / 256 == FromLE(bs[1..]) && FromLE(bs) % 256 == bs[0];
      assert bs == [bs[0]] + bs[1..];
    }
  }

  /** Byte `i` of a number is its digit of weight 256^i. */
  lemma {:induction false} LEDigit(value: nat, width: nat, i: nat)
    requires i < width
    ensures LE(value, width)[i] == value / Span(i) % 256
    decreases width
  {
    if i > 0 {
      LEDigit(value / 256, width - 1, i - 1);
      DivDiv(value, Span(i - 1));
    }
  }

  lemma DivDiv(value: nat, n: nat)
    requires n > 0
    ensures value / (256 * n) == value / 256 / n
  {
    var q, r := value / 256 / n, value / 256 % n;
    var d := 256 * n;
    assert value / 256 == q * n + r;
    assert q * d == 256 * (q * n);
    QuotientUnique(value, d, q, value - q * d, value / d, value % d);
  }

  lemma QuotientUnique(value: int, d: int, q: int, r: int, q': int, r': int)
    requires value == q * d + r == q' * d + r' && 0 <= r < d && 0 <= r' < d
    ensures q == q'
  {
    assert (q - q') * d == r' - r;
    if q > q' {
      MulAtLeast(q - q', d);
    } else if q < q' {
      MulAtLeast(q' - q, d);
    }
  }

  lemma MulAtLeast(k: int, d: int)
    requires k >= 1 && d >= 0
    ensures k * d >= d
  {
    assert k * d == (k - 1) * d + d;
  }

  // ------------------------------------------------------------------------
  // Joining byte strings
  // ------------------------------------------------------------------------

  function Flat(items: seq<seq<byte>>): seq<byte> {
    if items == [] then [] else items[0] + Flat(items[1..])
  }

  lemma {:induction false} FlatAppend(a: seq<seq<byte>>, b: seq<seq<byte>>)
    ensures Flat(a + b) == Flat(a) + Flat(b)
  {
    if a == [] {
      assert a + b == b;
    } else {
      assert (a + b)[1..] == a[1..] + b;
      FlatAppend(a[1..], b);
    }
  }

  lemma FlatSnoc(a: seq<seq<byte>>, x: seq<byte>)
    ensures Flat(a + [x]) == Flat(a) + x
  {
    FlatAppend(a, [x]);
    assert [x][1..] == [];
    assert Flat([x]) == x;
  }

  // ------------------------------------------------------------------------
  // Overwriting a stretch of a buffer
  // ------------------------------------------------------------------------

  /** The buffer `b` after the bytes `x` are written over it at `at`. */
  function Splice(b: seq<byte>, at: nat, x: seq<byte>): (r: seq<byte>)
    requires at + |x| <= |b|
    ensures |r| == |b|
  {
    b[..at] + x + b[at + |x|..]
  }

  /** `b` has exactly the bytes `x` at `at`. */
  predicate Holds(b: seq<byte>, at: nat, x: seq<byte>) {
    at + |x| <= |b| && b[at..at + |x|] == x
  }

  /** `b` and `c` differ at most in the positions `lo..hi`. */
  predicate SameOutside(b: seq<byte>, c: seq<byte>, lo: nat, hi: nat) {
    lo <= hi <= |b| && |b| == |c| && b[..lo] == c[..lo] && b[hi..] == c[hi..]
  }

  lemma SpliceHolds(b: seq<byte>, at: nat, x: seq<byte>)
    requires at + |x| <= |b|
    ensures Holds(Splice(b, at, x), at, x)
    ensures SameOutside(b, Splice(b, at, x), at, at + |x|)
  {
  }

  /** A write leaves every stretch that it does not overlap. */
  lemma SpliceKeeps(b: seq<byte>, at: nat, x: seq<byte>, other: nat, y: seq<byte>)
    requires at + |x| <= |b| && Holds(b, other, y)
    requires other + |y| <= at || at + |x| <= other
    ensures Holds(Splice(b, at, x), other, y)
  {
    var c := Splice(b, at, x);
    forall i | 0 <= i < |y|
      ensures c[other + i] == y[i]
    {
      assert b[other..other + |y|][i] == y[i];
    }
    assert c[other..other + |y|] == y;
  }

  lemma HoldsConcat(b: seq<byte>, at: nat, x: seq<byte>, y: seq<byte>)
    ensures Holds(b, at, x + y) <==> Holds(b, at, x) && Holds(b, at + |x|, y)
  {
    if at + |x| + |y| <= |b| {
      var whole := b[at..at + |x| + |y|];
      assert whole == b[at..at + |x|] + b[at + |x|..at + |x| + |y|];
      assert whole[..|x|] == b[at..at + |x|] && whole[|x|..] == b[at + |x|..at + |x| + |y|];
      assert (x + y)[..|x|] == x && (x + y)[|x|..] == y;
    }
  }

  /** A buffer that holds `x` at `at` and is `b` elsewhere is `b` with `x` written at `at`. */
  lemma SpliceUnique(b: seq<byte>, c: seq<byte>, at: nat, x: seq<byte>)
    requires Holds(c, at, x) && SameOutside(b, c, at, at + |x|)
    ensures c == Splice(b, at, x)
  {
    assert c == c[..at] + c[at..at + |x|] + c[at + |x|..];
  }
}
