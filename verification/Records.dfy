/**
 Where the fields of a stat and of a directory entry lie, and what raw bytes hold
 when they are read as one.
 */
module Records {
  import opened Bytes
  import opened Fields
  import opened Messages
  import opened Orders
  import opened Wire
  import opened Layout
  import opened DirListing
  import opened DirEntries

  lemma StatPrefix(s: Stat)
    ensures StatBytes(s) == Flat(WStat(s)) && |WStat(s)| == 14
  {
    hide Encode;
    hide Flat;
    StatShown(s);
    EncodingShown(StatFields(s), WStat(s));
  }

  /** The bytes `x` begin with the stat `s`: 41 bytes of numbers, then four strings. */
  predicate BeginsWithStat(x: seq<byte>, s: Stat) {
    && |x| >= StatSize(s)
    && x[..2] == W2(s.size) && x[2..4] == W2(s.typ) && x[4..8] == W4(s.dev)
    && x[8..9] == W1(s.qid.typ) && x[9..13] == W4(s.qid.version) && x[13..21] == W8(s.qid.path)
    && x[21..25] == W4(s.mode) && x[25..29] == W4(s.atime) && x[29..33] == W4(s.mtime)
    && x[33..41] == W8(s.length)
    && x[41..StatSize(s)] == WText(s.name) + WText(s.uid) + WText(s.gid) + WText(s.muid)
  }

  /** The numbers of a stat. */
  lemma StatNumbersAt(s: Stat)
    ensures var x := StatBytes(s);
            && |x| >= 41
            && x[..2] == W2(s.size) && x[2..4] == W2(s.typ) && x[4..8] == W4(s.dev)
            && x[8..9] == W1(s.qid.typ) && x[9..13] == W4(s.qid.version) && x[13..21] == W8(s.qid.path)
            && x[21..25] == W4(s.mode) && x[25..29] == W4(s.atime) && x[29..33] == W4(s.mtime)
            && x[33..41] == W8(s.length)
  {
    hide StatBytes;
    hide Flat;
    hide W1;
    hide W2;
    hide W4;
    hide W8;
    hide WText;
    Widths();
    var f := WStat(s);
    StatPrefix(s);
    assert f[..0] == [];
    EmptyFlat();
    FieldFollows(f, 0);
    FieldFollows(f, 1);
    FieldFollows(f, 2);
    FieldFollows(f, 3);
    FieldFollows(f, 4);
    FieldFollows(f, 5);
    FieldFollows(f, 6);
    FieldFollows(f, 7);
    FieldFollows(f, 8);
    FieldFollows(f, 9);
  }

  lemma FlatOfFour(a: seq<byte>, b: seq<byte>, c: seq<byte>, d: seq<byte>)
    ensures Flat([a, b, c, d]) == a + b + c + d
  {
    FlatSnoc([], a);
    FlatSnoc([a], b);
    FlatSnoc([a, b], c);
    FlatSnoc([a, b, c], d);
    assert [] + [a] == [a] && [a] + [b] == [a, b] && [a, b] + [c] == [a, b, c] && [a, b, c] + [d] == [a, b, c, d];
  }

  lemma StatNamesAt(s: Stat)
    ensures |StatBytes(s)| == StatSize(s)
    ensures StatBytes(s)[41..] == WText(s.name) + WText(s.uid) + WText(s.gid) + WText(s.muid)
  {
    hide StatBytes;
    hide Flat;
    hide W1;
    hide W2;
    hide W4;
    hide W8;
    var f := WStat(s);
    var names := WText(s.name) + WText(s.uid) + WText(s.gid) + WText(s.muid);
    StatPrefix(s);
    StatSizeIsEncodedSize(s);
    Widths();
    FlatAppend(f[..10], f[10..]);
    assert f == f[..10] + f[10..];
    assert f[10..] == [WText(s.name), WText(s.uid), WText(s.gid), WText(s.muid)];
    FlatOfFour(WText(s.name), WText(s.uid), WText(s.gid), WText(s.muid));
    assert |names| == StatSize(s) - 41;
    Cut(Flat(f[..10]), names);
  }

  lemma StatLayout(s: Stat)
    ensures |StatBytes(s)| == StatSize(s) && BeginsWithStat(StatBytes(s), s)
  {
    hide StatBytes;
    hide WText;
    StatNumbersAt(s);
    StatNamesAt(s);
    assert StatBytes(s)[41..StatSize(s)] == StatBytes(s)[41..];
  }

  /** Whatever decodes as a stat holds its fields at those places. */
  lemma StatReading(bs: seq<byte>)
    requires Decode(StatKinds(), bs).Ok?
    ensures var Ok(vs, rest) := Decode(StatKinds(), bs);
            BeginsWithStat(bs, StatAt(vs, 0)) && rest == bs[StatSize(StatAt(vs, 0))..]
  {
    hide Decode;
    hide Encode;
    hide StatAt;
    hide StatFields;
    hide StatKinds;
    hide BeginsWithStat;
    Canonical(StatKinds(), bs);
    var Ok(vs, rest) := Decode(StatKinds(), bs);
    var s := StatAt(vs, 0);
    StatKindCount();
    assert vs[0..14] == vs;
    StatOrderComplete(vs, 0);
    StatLayout(s);
    BeginsLonger(StatBytes(s), s, rest);
    Cut(StatBytes(s), rest);
  }

  lemma StatKindCount()
    ensures |StatKinds()| == 14
  {
  }

  lemma BeginsLonger(x: seq<byte>, s: Stat, rest: seq<byte>)
    requires BeginsWithStat(x, s)
    ensures BeginsWithStat(x + rest, s)
  {
    hide W1;
    hide W2;
    hide W4;
    hide W8;
    hide WText;
    var y := x + rest;
    assert x == y[..|x|];
    assert y[41..StatSize(s)] == x[41..StatSize(s)];
  }

  lemma StatExLayout(s: StatEx)
    ensures StatExBytes(s) == StatBytes(s.base) + (WText(s.extension) + W4(s.nUid) + W4(s.nGid) + W4(s.nMuid))
  {
    hide Encode;
    hide StatFields;
    hide WText;
    hide W4;
    hide Flat;
    var vs, fs := [VText(s.extension), V32(s.nUid), V32(s.nGid), V32(s.nMuid)],
                  [WText(s.extension), W4(s.nUid), W4(s.nGid), W4(s.nMuid)];
    EncodeAppend(StatFields(s.base), vs);
    EncodingShown(vs, fs);
    FlatOfFour(fs[0], fs[1], fs[2], fs[3]);
  }

  function WEntry(e: DirEntry): seq<seq<byte>> { WQid(e.qid) + [W8(e.offset), W1(e.typ), WText(e.name)] }

  lemma EntryPrefix(e: DirEntry)
    ensures EntryBytes(e) == Flat(WEntry(e))
  {
    hide Encode;
    hide Flat;
    hide W1;
    hide W4;
    hide W8;
    hide WText;
    EncodingShown(DirEntryFields(e), WEntry(e));
  }

  lemma EntryFieldsAt(e: DirEntry)
    ensures var x := EntryBytes(e);
            && |x| == 24 + |e.name|
            && x[..1] == W1(e.qid.typ) && x[1..5] == W4(e.qid.version) && x[5..13] == W8(e.qid.path)
            && x[13..21] == W8(e.offset) && x[21..22] == W1(e.typ) && x[22..] == WText(e.name)
  {
    hide EntryBytes;
    hide Flat;
    hide W1;
    hide W4;
    hide W8;
    Widths();
    EntrySize(e);
    EntryPrefix(e);
    var f := WEntry(e);
    assert f[..0] == [];
    EmptyFlat();
    FieldFollows(f, 0);
    FieldFollows(f, 1);
    FieldFollows(f, 2);
    FieldFollows(f, 3);
    FieldFollows(f, 4);
    FieldFollows(f, 5);
  }

  /** A directory entry: qid[13] offset[8] type[1] name[s]. */
  lemma EntryLayout(e: DirEntry)
    ensures var x := EntryBytes(e);
            && |x| == 24 + |e.name|
            && x[..1] == W1(e.qid.typ) && x[1..5] == W4(e.qid.version) && x[5..13] == W8(e.qid.path)
            && x[13..21] == W8(e.offset) && x[21..22] == W1(e.typ)
            && x[22..24] == W2(|e.name|) && x[24..] == e.name
  {
    hide EntryBytes;
    EntryFieldsAt(e);
    var x := EntryBytes(e);
    assert x[22..24] == x[22..][..2] && x[24..] == x[22..][2..];
    Cut(W2(|e.name|), e.name);
  }

  /** On raw bytes: an entry is there if its 24 bytes and its name are, and these are its fields. */
  lemma EntryReading(bs: seq<byte>)
    ensures DecodeEntry(bs).Ok? <==> |bs| >= 24 && |bs| >= 24 + FromLE(bs[22..24])
    ensures DecodeEntry(bs).Ok? ==>
              var n := FromLE(bs[22..24]);
              DecodeEntry(bs) == Ok(RawEntry(bs), bs[24 + n..])
  {
    hide DecodeEntry;
    hide EntryBytes;
    hide FromLE;
    if DecodeEntry(bs).Ok? {
      EntryCanonical(bs);
      var Ok(e, rest) := DecodeEntry(bs);
      EntryLayout(e);
      assert bs[22..24] == EntryBytes(e)[22..24];
      TwoBytes(|e.name|);
      SpanOfWidths();
      FromLEOfLE(|e.name|, 2);
    }
    if |bs| >= 24 && |bs| >= 24 + FromLE(bs[22..24]) {
      RawEntryBytes(bs);
      var n := FromLE(bs[22..24]);
      EntryRoundTrip(RawEntry(bs), bs[24 + n..]);
      assert bs == bs[..24 + n] + bs[24 + n..];
    }
  }

  function RawEntry(bs: seq<byte>): DirEntry
    requires |bs| >= 24 && |bs| >= 24 + FromLE(bs[22..24])
  {
    SpanOfWidths();
    DirEntry(Qid(FromLE(bs[5..13]), FromLE(bs[1..5]), bs[0]), FromLE(bs[13..21]), bs[21],
             bs[24..24 + FromLE(bs[22..24])])
  }

  lemma RawEntryBytes(bs: seq<byte>)
    requires |bs| >= 24 && |bs| >= 24 + FromLE(bs[22..24])
    ensures EntryBytes(RawEntry(bs)) == bs[..24 + FromLE(bs[22..24])]
  {
    hide EntryBytes;
    hide FromLE;
    hide W4;
    hide W8;
    var e, n := RawEntry(bs), FromLE(bs[22..24]);
    var x := EntryBytes(e);
    EntryLayout(e);
    LEOfFromLE(bs[1..5]);
    LEOfFromLE(bs[5..13]);
    LEOfFromLE(bs[13..21]);
    LEOfFromLE(bs[22..24]);
    TwoBytes(n);
    FourBytes(e.qid.version);
    EightBytes(e.qid.path);
    EightBytes(e.offset);
    assert x == x[..1] + x[1..5] + x[5..13] + x[13..21] + x[21..22] + x[22..24] + x[24..];
    assert bs[..24 + n] == bs[..1] + bs[1..5] + bs[5..13] + bs[13..21] + bs[21..22] + bs[22..24] + bs[24..24 + n];
  }
}
