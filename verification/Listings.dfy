/**
 Reading a listing back: record by record with the decoder, or by jumping over
 records with the size field that each stat starts with.
 */
module Listings {
  import opened Bytes
  import opened Fields
  import opened Messages
  import opened Orders
  import opened Paging
  import opened DirListing

  lemma {:induction false} DecodeShrinks(ks: seq<Kind>, bs: seq<byte>)
    requires ks != [] && Decode(ks, bs).Ok?
    ensures |Decode(ks, bs).rest| < |bs|
  {
    hide DecodeOne;
    hide EncodeOne;
    Canonical(ks, bs);
    NonEmptyEncoding(Decode(ks, bs).value);
  }

  lemma NonEmptyEncoding(vs: seq<Value>)
    ensures vs != [] ==> |Encode(vs)| > 0
  {
  }

  /** The sizes of the records that repeated decoding finds. */
  function DecodedSizes(ks: seq<Kind>, bs: seq<byte>): seq<nat>
    requires ks != []
    decreases |bs|
  {
    if !Decode(ks, bs).Ok? then []
    else
      DecodeShrinks(ks, bs);
      var rest := Decode(ks, bs).rest;
      [|bs| - |rest|] + DecodedSizes(ks, rest)
  }

  /** The sizes of the records that one finds by reading a u16 and jumping that far past it. */
  function JumpedSizes(bs: seq<byte>): seq<nat>
    decreases |bs|
  {
    if |bs| < 2 || FromLE(bs[..2]) + 2 > |bs| then []
    else
      var n := FromLE(bs[..2]) + 2;
      [n] + JumpedSizes(bs[n..])
  }

  /** The record starts with a u16 that counts the bytes after it. */
  predicate SelfDescribed(item: seq<byte>) {
    |item| >= 2 && FromLE(item[..2]) + 2 == |item|
  }

  /** The record is one complete encoding of the kinds. */
  predicate IsRecord(ks: seq<Kind>, item: seq<byte>) {
    Decode(ks, item).Ok? && Decode(ks, item).rest == []
  }

  function Sizes(items: seq<seq<byte>>): seq<nat> {
    if items == [] then [] else [|items[0]|] + Sizes(items[1..])
  }

  lemma {:induction false} JumpsVisitRecords(items: seq<seq<byte>>)
    requires forall i | 0 <= i < |items| :: SelfDescribed(items[i])
    ensures JumpedSizes(Flat(items)) == Sizes(items)
  {
    if items != [] {
      assert SelfDescribed(items[0]);
      var bs, rest := Flat(items), Flat(items[1..]);
      assert bs[..2] == items[0][..2] && bs[|items[0]|..] == rest;
      JumpsVisitRecords(items[1..]);
    }
  }

  lemma RecordThenMore(ks: seq<Kind>, item: seq<byte>, more: seq<byte>)
    requires IsRecord(ks, item)
    ensures Decode(ks, item + more) == Ok(Decode(ks, item).value, more)
  {
    hide Decode;
    hide Encode;
    Canonical(ks, item);
    var vs := Decode(ks, item).value;
    assert Encode(vs) + [] == Encode(vs);
    RoundTrip(ks, vs, more);
  }

  lemma {:induction false} DecodingVisitsRecords(ks: seq<Kind>, items: seq<seq<byte>>)
    requires ks != [] && forall i | 0 <= i < |items| :: IsRecord(ks, items[i])
    ensures DecodedSizes(ks, Flat(items)) == Sizes(items)
  {
    hide Decode;
    if items == [] {
      NothingIsNoRecord(ks);
    } else {
      assert IsRecord(ks, items[0]);
      RecordThenMore(ks, items[0], Flat(items[1..]));
      DecodingVisitsRecords(ks, items[1..]);
    }
  }

  lemma NothingIsNoRecord(ks: seq<Kind>)
    requires ks != []
    ensures !Decode(ks, []).Ok?
  {
    if Decode(ks, []).Ok? {
      DecodeShrinks(ks, []);
    }
  }

  lemma StatIsRecord(s: Stat)
    ensures IsRecord(StatKinds(), StatBytes(s)) && StatAt(Decode(StatKinds(), StatBytes(s)).value, 0) == s
  {
    hide Decode;
    hide Encode;
    hide StatAt;
    hide StatFields;
    hide StatKinds;
    StatOrderAgrees([], s, []);
    assert [] + StatFields(s) + [] == StatFields(s);
    RoundTrip(StatKinds(), StatFields(s), []);
    assert StatBytes(s) + [] == StatBytes(s);
  }

  lemma StatExIsRecord(s: StatEx)
    ensures IsRecord(StatExKinds(), StatExBytes(s)) && StatExAt(Decode(StatExKinds(), StatExBytes(s)).value, 0) == s
  {
    hide Decode;
    hide Encode;
    hide StatExAt;
    hide StatExFields;
    hide StatExKinds;
    StatExOrderAgrees([], s, []);
    assert [] + StatExFields(s) + [] == StatExFields(s);
    RoundTrip(StatExKinds(), StatExFields(s), []);
    assert StatExBytes(s) + [] == StatExBytes(s);
  }

  lemma StatStartsWithSize(s: Stat)
    ensures |StatBytes(s)| >= 2 && StatBytes(s)[..2] == LE(s.size, 2)
  {
    assert StatFields(s)[0] == V16(s.size);
    assert StatBytes(s) == EncodeOne(V16(s.size)) + Encode(StatFields(s)[1..]);
  }

  /**
   A listing of stats whose size field is `sizeStat`: jumping from record to
   record by size + 2 visits exactly the boundaries that full decoding visits.
   */
  lemma StatListingSelfDescribing(stats: seq<Stat>)
    requires forall i | 0 <= i < |stats| :: stats[i].size == StatSize(stats[i]) - 2
    ensures JumpedSizes(Flat(StatItems(stats))) == DecodedSizes(StatKinds(), Flat(StatItems(stats)))
         == Sizes(StatItems(stats))
  {
    hide StatBytes;
    hide StatSize;
    hide Decode;
    var items := StatItems(stats);
    forall i | 0 <= i < |items|
      ensures SelfDescribed(items[i]) && IsRecord(StatKinds(), items[i])
    {
      var s := stats[i];
      assert items[i] == StatBytes(s);
      SpanOfWidths();
      StatStartsWithSize(s);
      FromLEOfLE(s.size, 2);
      StatSizeIsEncodedSize(s);
      StatIsRecord(s);
    }
    JumpsVisitRecords(items);
    DecodingVisitsRecords(StatKinds(), items);
  }

  function StatExItems(stats: seq<StatEx>): (items: seq<seq<byte>>)
    ensures |items| == |stats| && forall i | 0 <= i < |stats| :: items[i] == StatExBytes(stats[i])
  {
    seq(|stats|, i requires 0 <= i < |stats| => StatExBytes(stats[i]))
  }

  lemma StatExListingSelfDescribing(stats: seq<StatEx>)
    requires forall i | 0 <= i < |stats| :: stats[i].base.size == StatExSize(stats[i]) - 2
    ensures JumpedSizes(Flat(StatExItems(stats))) == DecodedSizes(StatExKinds(), Flat(StatExItems(stats)))
         == Sizes(StatExItems(stats))
  {
    hide StatExBytes;
    hide StatExSize;
    hide StatBytes;
    hide Decode;
    var items := StatExItems(stats);
    forall i | 0 <= i < |items|
      ensures SelfDescribed(items[i]) && IsRecord(StatExKinds(), items[i])
    {
      var s := stats[i];
      assert items[i] == StatExBytes(s);
      SpanOfWidths();
      StatExStartsWithSize(s);
      FromLEOfLE(s.base.size, 2);
      StatExSizeIsEncodedSize(s);
      StatExIsRecord(s);
    }
    JumpsVisitRecords(items);
    DecodingVisitsRecords(StatExKinds(), items);
  }

  lemma StatExStartsWithSize(s: StatEx)
    ensures |StatExBytes(s)| >= 2 && StatExBytes(s)[..2] == LE(s.base.size, 2)
  {
    hide StatFields;
    StatStartsWithSize(s.base);
    EncodeAppend(StatFields(s.base), [VText(s.extension), V32(s.nUid), V32(s.nGid), V32(s.nMuid)]);
  }

  // ------------------------------------------------------------------------
  // A served page, received
  // ------------------------------------------------------------------------

  /** The stats in a run of encoded ones, up to the first that does not decode. */
  function ReadStats(bs: seq<byte>): seq<Stat>
    decreases |bs|
  {
    if !Decode(StatKinds(), bs).Ok? then []
    else
      DecodeShrinks(StatKinds(), bs);
      [StatAt(Decode(StatKinds(), bs).value, 0)] + ReadStats(Decode(StatKinds(), bs).rest)
  }

  lemma {:induction false} ReadStatsRoundTrip(stats: seq<Stat>)
    ensures ReadStats(Flat(StatItems(stats))) == stats
  {
    assert StatKinds() != [];
    hide Decode;
    hide StatBytes;
    hide StatAt;
    hide StatKinds;
    var items := StatItems(stats);
    if stats == [] {
      NothingIsNoRecord(StatKinds());
    } else {
      assert items[1..] == StatItems(stats[1..]);
      StatIsRecord(stats[0]);
      RecordThenMore(StatKinds(), StatBytes(stats[0]), Flat(items[1..]));
      ReadStatsRoundTrip(stats[1..]);
      assert Flat(items) == StatBytes(stats[0]) + Flat(items[1..]);
      assert stats == [stats[0]] + stats[1..];
    }
  }

  /** A client that decodes the data of a page finds a contiguous run of the listed stats, unchanged. */
  lemma PageHoldsStats(stats: seq<Stat>, offset: u64, count: u32) returns (a: nat, b: nat)
    ensures a <= b <= |stats| && ReadStats(PageData(stats, offset, count)) == stats[a..b]
    ensures |Flat(StatItems(stats)[..a])| <= offset
    ensures a < |stats| ==> |Flat(StatItems(stats)[..a + 1])| > offset
    ensures b < |stats| ==> |Flat(StatItems(stats)[a..b + 1])| > count
  {
    hide ReadStats;
    hide StatBytes;
    var items := StatItems(stats);
    a, b := WindowIsMaximalRun(items, offset, count);
    assert items[a..b] == StatItems(stats[a..b]);
    ReadStatsRoundTrip(stats[a..b]);
  }
}
