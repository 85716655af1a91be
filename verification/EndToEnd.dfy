/**
 Writers and parsers together: a message that goes out over one buffer and comes
 in from its bytes, and a whole directory listed page by page.
 */
module EndToEnd {
  import opened Bytes
  import opened Fields
  import opened Messages
  import opened Tables
  import opened Framing
  import opened Readers
  import opened Writers
  import opened Paging
  import opened DirListing
  import opened Listings

  /** A request written by the writer is received, with its tag, by a parser of any version that has it. */
  method ExchangeRequest(w: MessageWriter, v: Version, m: Request, maxPayload: u32)
    returns (res: Result<Received<Request>>, unread: seq<byte>)
    requires w.Valid() && w.out.position == w.pos && w.Room(HEADER_SIZE + |RequestPayload(m)|)
    requires Supports(v, TypeOfRequest(m))
    requires |RequestPayload(m)| <= maxPayload && HEADER_SIZE + maxPayload < TWO_32
    modifies w, w.out, w.out.buf
    ensures res == Success(Received(RequestHeader(m, w.tag), m)) && unread == []
  {
    hide RequestPayload;
    hide RequestFrame;
    hide ParseRequest;
    hide Supports;
    WriteRequest(w, m);
    ghost var f := RequestFrame(m, w.tag);
    SpliceHolds(old(w.out.buf[..]), w.pos, f);
    assert w.out.buf[w.pos..w.out.position] == w.out.buf[..][w.pos..w.pos + |f|];
    var r := new ByteReader(w.out.buf[w.pos..w.out.position]);
    assert r.Remaining() == f;
    RequestRoundTrip(v, m, w.tag, maxPayload);
    res := ReceiveRequest(r, v, maxPayload);
    unread := r.Remaining();
  }

  method ExchangeResponse(w: MessageWriter, v: Version, m: Response, maxPayload: u32)
    returns (res: Result<Received<Response>>, unread: seq<byte>)
    requires w.Valid() && w.out.position == w.pos && w.Room(HEADER_SIZE + |ResponsePayload(m)|)
    requires SupportsResponse(v, TypeOfResponse(m))
    requires |ResponsePayload(m)| <= maxPayload && HEADER_SIZE + maxPayload < TWO_32
    modifies w, w.out, w.out.buf
    ensures res == Success(Received(ResponseHeader(m, w.tag), m)) && unread == []
  {
    hide ResponsePayload;
    hide ResponseFrame;
    hide ParseResponse;
    hide SupportsResponse;
    WriteResponse(w, m);
    ghost var f := ResponseFrame(m, w.tag);
    SpliceHolds(old(w.out.buf[..]), w.pos, f);
    assert w.out.buf[w.pos..w.out.position] == w.out.buf[..][w.pos..w.pos + |f|];
    var r := new ByteReader(w.out.buf[w.pos..w.out.position]);
    assert r.Remaining() == f;
    ResponseRoundTrip(v, m, w.tag, maxPayload);
    res := ReceiveResponse(r, v, maxPayload);
    unread := r.Remaining();
  }

  /** One read of a directory: served by the listing writer, received by a parser, on a reused writer. */
  method ReadPage(w: MessageWriter, v: Version, stats: seq<Stat>, offset: u64, count: u32, maxPayload: u32)
    returns (data: Blob)
    requires w.Valid() && w.Room(0) && w.pos + HEADER_SIZE + 4 + count <= w.out.buf.Length
    requires |Flat(StatItems(stats))| < TWO_64 && CounterHolds(StatItems(stats), offset, count)
    requires 4 + count <= maxPayload && HEADER_SIZE + maxPayload < TWO_32
    modifies w, w.out, w.out.buf
    ensures w.Valid() && w.Room(0)
    ensures data == PageData(stats, offset, count)
  {
    hide ResponsePayload;
    hide ParseResponse;
    hide SupportsResponse;
    hide StatSize;
    hide LE;
    ghost var page := PageData(stats, offset, count);
    ghost var m := BaseR(RRead(page));
    WindowFits(StatItems(stats), offset, count);
    ReadPayload(page);
    assert SupportsResponse(v, TypeOfResponse(m)) by { ReadIsUniversal(v, page); }
    w.out.Seek(w.pos);
    ghost var b := w.out.buf[..];
    var _ := ServeRead(w, stats, offset, count);
    ghost var f := ResponseFrame(m, w.tag);
    SpliceHolds(b, w.pos, f);
    assert w.out.buf[w.pos..w.out.position] == w.out.buf[..][w.pos..w.pos + |f|];
    var r := new ByteReader(w.out.buf[w.pos..w.out.position]);
    assert r.Remaining() == f;
    ResponseRoundTrip(v, m, w.tag, maxPayload);
    var res := ReceiveResponse(r, v, maxPayload);
    assert res == Success(Received(ResponseHeader(m, w.tag), m));
    data := res.value.message.base.data;
  }

  lemma ReadIsUniversal(v: Version, data: Blob)
    ensures SupportsResponse(v, TypeOfResponse(BaseR(RRead(data))))
  {
  }

  /** The counter of the listing writer holds at entry `i` and wherever the reads that follow start. */
  predicate CounterHoldsFrom(items: seq<Item>, i: nat, count: nat)
    requires i <= |items|
    decreases |items| - i
  {
    && CounterHolds(items, |Flat(items[..i])|, count)
    && var n := Fitting(items[i..], count);
       n == 0 || CounterHoldsFrom(items, i + n, count)
  }

  /** Counts that leave room for one more entry of any size in use always do. */
  lemma {:induction false} SmallCountsHold(items: seq<Item>, i: nat, count: nat)
    requires i <= |items| && forall k | 0 <= k < |items| :: count + |items[k]| < TWO_32
    ensures CounterHoldsFrom(items, i, count)
    decreases |items| - i
  {
    hide CounterHolds;
    CounterHoldsForSmallLimits(items, |Flat(items[..i])|, count);
    var n := Fitting(items[i..], count);
    if n > 0 {
      SmallCountsHold(items, i + n, count);
    }
  }

  /**
   The client's loop over a directory: read from the offset reached so far until
   a page is empty. With a count that holds every entry it collects the whole
   listing, decodes to the listed stats, and needs one read more than there are
   pages.
   */
  method ListDirectory(w: MessageWriter, v: Version, stats: seq<Stat>, count: u32, maxPayload: u32)
    returns (listing: seq<byte>, rounds: nat)
    requires w.Valid() && w.Room(0) && w.pos + HEADER_SIZE + 4 + count <= w.out.buf.Length
    requires forall i | 0 <= i < |stats| :: StatSize(stats[i]) <= count
    requires |Flat(StatItems(stats))| < TWO_64 && CounterHoldsFrom(StatItems(stats), 0, count)
    requires 4 + count <= maxPayload && HEADER_SIZE + maxPayload < TWO_32
    modifies w, w.out, w.out.buf
    ensures listing == Flat(StatItems(stats)) && ReadStats(listing) == stats
    ensures rounds <= |stats| + 1
  {
    hide StatSize;
    hide Window;
    hide Fitting;
    hide CounterHolds;
    ghost var items := StatItems(stats);
    ghost var i := 0;
    listing := [];
    rounds := 1;
    assert items[..0] == [];
    SizesFit(stats, count);
    var page := ReadPage(w, v, stats, 0, count, maxPayload);
    while page != []
      invariant w.Valid() && w.Room(0)
      invariant i <= |stats| && listing == Flat(items[..i]) && |listing| < TWO_64
      invariant rounds <= i + 1 && CounterHoldsFrom(items, i, count)
      invariant page == PageData(stats, |listing|, count)
      decreases |stats| - i
    {
      NextPage(items, i, count);
      i := i + Fitting(items[i..], count);
      listing := listing + page;
      page := ReadPage(w, v, stats, |listing|, count, maxPayload);
      rounds := rounds + 1;
    }
    EmptyPageIsLast(items, i, count);
    assert items[..|items|] == items;
    ReadStatsRoundTrip(stats);
  }

  lemma SizesFit(stats: seq<Stat>, count: u32)
    requires forall i | 0 <= i < |stats| :: StatSize(stats[i]) <= count
    ensures forall i | 0 <= i < |stats| :: |StatItems(stats)[i]| <= count
  {
    forall i | 0 <= i < |stats|
      ensures |StatItems(stats)[i]| <= count
    {
      StatSizeIsEncodedSize(stats[i]);
    }
  }

  /** A page that is not empty takes the reader on by at least one entry. */
  lemma NextPage(items: seq<Item>, i: nat, count: nat)
    requires i <= |items|
    ensures var page := Flat(Window(items, |Flat(items[..i])|, count));
            var j := i + Fitting(items[i..], count);
            && j <= |items|
            && Flat(items[..i]) + page == Flat(items[..j]) && |Flat(items[..j])| <= |Flat(items)|
            && (page != [] ==> j > i)
  {
    hide Window;
    PageAtBoundary(items, i, count);
    var j := i + Fitting(items[i..], count);
    FlatAppend(items[..i], items[i..j]);
    assert items[..i] + items[i..j] == items[..j];
    PrefixShorter(items, j);
    assert items[i..i] == [];
  }

  lemma PrefixShorter(items: seq<Item>, i: nat)
    requires i <= |items|
    ensures |Flat(items[..i])| <= |Flat(items)|
  {
    if i < |items| {
      FlatGrows(items, i);
    } else {
      assert items[..i] == items;
    }
  }

  lemma EmptyPageIsLast(items: seq<Item>, i: nat, count: nat)
    requires i <= |items| && forall k | 0 <= k < |items| :: |items[k]| <= count
    requires Flat(Window(items, |Flat(items[..i])|, count)) == []
    ensures i == |items|
  {
    if i < |items| {
      NoEarlyEmptyPage(items, i, count);
    }
  }
}
