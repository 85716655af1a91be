/**
 Concrete inputs on which a promise one might expect fails. The exact conditions
 are proved beside the members concerned.
 */
module Examples {
  import opened Bytes
  import opened Fields
  import opened Messages
  import opened Tables
  import opened Framing
  import opened Wire
  import opened Layout
  import opened Streams
  import opened Writers
  import opened Refinement
  import opened PartialLimits
  import opened Paging
  import opened DirListing

  /** A message begun with tag 2 on a writer with tag 1 goes out with tag 1 once it has a payload. */
  method TagLost() returns (bytes: seq<byte>)
    ensures bytes == Frame(100, 1, [0]) && bytes != Frame(100, 2, [0])
  {
    hide Encode;
    var buffer := new byte[8](_ => 0);
    var out := new ByteWriter(buffer);
    var w := new MessageWriter(out, 1);
    var carried := WriteTagged(w, 100, 2, [0]);
    bytes := out.buf[..];
    assert Frame(100, 1, [0]) != Frame(100, 2, [0]) by {
      TagsShow(100, [0]);
    }
  }

  lemma TagsShow(code: u8, payload: seq<byte>)
    requires HEADER_SIZE + |payload| < TWO_32
    ensures Frame(code, 1, payload) != Frame(code, 2, payload)
  {
    var h, g := Header(HEADER_SIZE + |payload|, code, 1), Header(HEADER_SIZE + |payload|, code, 2);
    HeaderLayout(h);
    HeaderLayout(g);
    Cut(HeaderBytes(h), payload);
    Cut(HeaderBytes(g), payload);
    assert LE(1, 2)[0] == 1 && LE(2, 2)[0] == 2;
  }

  /** A read response whose length is set to one byte more than its buffer has: no version can parse it. */
  method UpdateBeyondBuffer(ghost v: Version) returns (bytes: seq<byte>)
    ensures ParseResponse(v, 4, bytes) == Failed(PayloadRead(0))
  {
    hide ParseResponse;
    var buffer := new byte[11](_ => 0);
    var out := new ByteWriter(buffer);
    var w := new MessageWriter(out, 1);
    UpdateRead(w, 1, v, 4);
    bytes := out.buf[..out.position];
    assert bytes == Seen(w);
  }

  /** 65536 segments read back as none. */
  lemma SegmentsForgotten()
    ensures var segments := seq(TWO_16, _ => [0]); DecodePath(PathPayload([], segments)) == Ok([], EncodeTexts(segments))
  {
    hide EncodeTexts;
    hide DecodePath;
    hide PathPayload;
    var segments: seq<Text> := seq(TWO_16, _ => [0]);
    SegmentCounterLimit(segments);
    assert segments[..0] == [] && segments[0..] == segments;
  }

  /** 65536 bytes of a string read back as none. */
  lemma StringForgotten()
    ensures var text := seq(TWO_16, _ => 0); DecodeText(TextPayload([], text)) == Ok([], text)
  {
    hide DecodeText;
    hide TextPayload;
    var text: seq<byte> := seq(TWO_16, _ => 0);
    StringLengthLimit(text);
    assert text[..0] == [] && text[0..] == text;
  }

  /** A stat whose encoding takes 65536 bytes. */
  function BigStat(): Stat {
    Stat(TWO_16 - 2, 0, 0, Qid(0, 0, 0), 0, 0, 0, 0, seq(TWO_16 - 49, _ => 0), [], [], [])
  }

  function Copies(n: nat): (items: seq<Item>)
    ensures |items| == n
  {
    seq(n, _ => StatItem(BigStat()))
  }

  lemma BigItem()
    ensures |StatItem(BigStat())| == TWO_16
  {
    assert |seq(TWO_16 - 49, _ => 0)| == TWO_16 - 49;
  }

  lemma {:induction false} CopiesLength(n: nat)
    ensures |Flat(Copies(n))| == n * TWO_16
  {
    hide StatItem;
    hide BigStat;
    BigItem();
    if n > 0 {
      CopiesLength(n - 1);
      assert Copies(n)[1..] == Copies(n - 1);
    }
  }

  lemma PartOfCopies(n: nat, i: nat, j: nat)
    requires i <= j <= n
    ensures |Flat(Copies(n)[i..j])| == (j - i) * TWO_16
  {
    hide StatItem;
    CopiesLength(j - i);
    assert Copies(n)[i..j] == Copies(j - i);
  }

  /**
   A read with the limit 2^32 - 1 of a directory with 65536 such stats: the last
   one wraps the counter to zero and is emitted beyond the limit.
   */
  lemma LimitOverrun()
    ensures var served := Serve(START, 0, TWO_32 - 1, Copies(TWO_16)).emitted;
            served != Window(Copies(TWO_16), 0, TWO_32 - 1) && |Flat(served)| > TWO_32 - 1
  {
    hide Copies;
    hide Fitting;
    hide Flat;
    hide Serve;
    var items := Copies(TWO_16);
    var a, b := WindowIsMaximalRun(items, 0, TWO_32 - 1);
    assert items[..a] == items[0..a] && items[0..|items|] == items;
    PartOfCopies(TWO_16, 0, a);
    PartOfCopies(TWO_16, 0, b);
    PartOfCopies(TWO_16, 0, TWO_16);
    assert a == 0 && b < TWO_16;
    PartOfCopies(TWO_16, 0, b + 1);
    assert !CounterHolds(items, 0, TWO_32 - 1);
    ServeIsWindow(0, TWO_32 - 1, items);
  }

  lemma CounterOverCopies(n: nat)
    requires n < TWO_16
    ensures RefusedFrom(0, Copies(n), 0, 0)
  {
    hide Copies;
    hide Flat;
    var items := Copies(n);
    forall k | 0 <= k < |items|
      ensures CounterAfter(0, items, k) > 0
    {
      PartOfCopies(n, 0, k + 1);
      assert items[..k + 1] == items[0..k + 1];
    }
  }

  lemma NothingFits(items: seq<Item>)
    ensures Fitting(items, 0) == 0 && Window(items, 0, 0) == []
  {
  }

  lemma AcceptedAtLast(items: seq<Item>, item: Item)
    requires RefusedFrom(0, items, 0, 0) && |Flat(items)| + |item| == TWO_32
    ensures var p := ServeOn(START, 0, 0, items); p.emitted == [] && Offer(p, 0, 0, item).more
  {
    hide Flat;
    hide ServeOn;
    hide Offer;
    hide CounterAfter;
    hide RefusedFrom;
    hide Fitting;
    hide Window;
    NothingFits(items);
    assert items[0..] == items;
    ServeOnIsWindow(0, 0, items);
    VerdictRight(0, 0, items, item);
  }

  /** With the limit 0 such a stat is refused 65535 times in a row, and accepted the next time. */
  lemma RefusalForgotten()
    ensures var p := ServeOn(START, 0, 0, Copies(TWO_16 - 1));
            p.emitted == [] && Offer(p, 0, 0, StatItem(BigStat())).more
  {
    hide Copies;
    hide Flat;
    hide ServeOn;
    hide StatItem;
    hide BigStat;
    hide Offer;
    hide RefusedFrom;
    BigItem();
    CopiesLength(TWO_16 - 1);
    CounterOverCopies(TWO_16 - 1);
    AcceptedAtLast(Copies(TWO_16 - 1), StatItem(BigStat()));
  }

  /** A count smaller than a stat never gets past it: every read comes back empty. */
  lemma ReaderStalls(stat: Stat, count: nat, rounds: nat)
    requires count < StatSize(stat)
    ensures Flat(ReadPages([StatItem(stat)], 0, seq(rounds, _ => count))) == []
  {
    hide StatItem;
    var items, counts := [StatItem(stat)], seq(rounds, _ => count);
    StopsBeforeOversized(items, 0, counts, 0);
    PagesAreEntries(items, 0, counts);
    assert items[..0] == [] && items[0..0] == [];
  }

  /** The payload limit 2^32 - 7 refuses the smallest complete frame. */
  lemma LimitWrapped()
    ensures var bs := Frame(120, 1, []); Acceptable(TWO_32 - 7, bs) && !Dispatched(TWO_32 - 7, bs)
  {
    hide Dispatched;
    var h := Header(HEADER_SIZE, 120, 1);
    FramingAcceptance(TWO_32 - 7, Frame(120, 1, []));
    HeaderLayout(h);
    assert Frame(120, 1, [])[..4] == HeaderBytes(h)[..4];
    SpanOfWidths();
    FromLEOfLE(HEADER_SIZE, 4);
  }

  lemma OneFidFrame(number: u8)
    ensures |Flat([W4(5)])| == 4 && OnTheWire(Form(number, [W4(5)]), 1) == [11, 0, 0, 0, number, 1, 0, 5, 0, 0, 0]
  {
    FlatOne(W4(5));
  }

  lemma WalkFrame()
    ensures |Flat([W4(1), W4(2), WPath([])])| == 10
    ensures OnTheWire(Form(110, [W4(1), W4(2), WPath([])]), 1)
         == [17, 0, 0, 0, 110, 1, 0, 1, 0, 0, 0, 2, 0, 0, 0, 0, 0]
  {
    hide Flat;
    FlatThree(W4(1), W4(2), WPath([]));
  }

  /** Tclunk, Tremove and Twalk, byte for byte; every version receives them. */
  lemma LiteralFrames(v: Version)
    ensures ParseRequest(v, 10, [11, 0, 0, 0, 120, 1, 0, 5, 0, 0, 0]) == Message(Header(11, 120, 1), Base(TClunk(5)), [])
    ensures ParseRequest(v, 10, [11, 0, 0, 0, 122, 1, 0, 5, 0, 0, 0]) == Message(Header(11, 122, 1), Base(TRemove(5)), [])
    ensures ParseRequest(v, 10, [17, 0, 0, 0, 110, 1, 0, 1, 0, 0, 0, 2, 0, 0, 0, 0, 0])
         == Message(Header(17, 110, 1), Base(TWalk(1, 2, [])), [])
  {
    hide ParseRequest;
    hide OnTheWire;
    hide Flat;
    hide W4;
    hide WPath;
    OneFidFrame(120);
    OneFidFrame(122);
    WalkFrame();
    RequestReceived(v, Base(TClunk(5)), 1, 10);
    RequestReceived(v, Base(TRemove(5)), 1, 10);
    RequestReceived(v, Base(TWalk(1, 2, [])), 1, 10);
  }

  lemma FlatOne(x: seq<byte>)
    ensures Flat([x]) == x
  {
  }

  lemma FlatThree(x: seq<byte>, y: seq<byte>, z: seq<byte>)
    ensures Flat([x, y, z]) == x + y + z
  {
    FlatSnoc([x], y);
    FlatSnoc([x, y], z);
    assert [x] + [y] == [x, y] && [x, y] + [z] == [x, y, z];
    FlatOne(x);
  }
}
