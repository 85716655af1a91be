/**
 Directory reads as windows over a listing: a listing is a sequence of encoded
 entries, a read asks for at most `max` bytes from a byte offset, and only
 whole entries are returned.
 */
module Paging {
  import opened Bytes

  /** An encoded entry; none is empty and each is far smaller than a u32 can measure. */
  type Item = s: seq<byte> | 0 < |s| < TWO_32 witness [0]

  // ------------------------------------------------------------------------
  // The listing writer's decisions
  // ------------------------------------------------------------------------

  /** The two counters of the listing writer, in their widths, and what it has emitted. */
  datatype Progress = Progress(traversed: u64, encoded: u32, emitted: seq<Item>)

  const START := Progress(0, 0, [])

  datatype Verdict = Verdict(progress: Progress, more: bool)

  /** One offered entry: skipped, refused or emitted. */
  function Offer(p: Progress, offset: u64, max: u32, item: Item): Verdict {
    var t := (p.traversed + |item|) % TWO_64;
    if t <= offset then Verdict(p.(traversed := t), true)
    else
      var e := (p.encoded + |item|) % TWO_32;
      if e > max then Verdict(p.(traversed := t, encoded := e), false)
      else Verdict(Progress(t, e, p.emitted + [item]), true)
  }

  /** The documented loop: offer entries until the first refusal. */
  function Serve(p: Progress, offset: u64, max: u32, items: seq<Item>): Progress
    decreases |items|
  {
    if items == [] then p
    else
      var v := Offer(p, offset, max, items[0]);
      if v.more then Serve(v.progress, offset, max, items[1..]) else v.progress
  }

  /** A caller that keeps offering entries after a refusal. */
  function ServeOn(p: Progress, offset: u64, max: u32, items: seq<Item>): Progress
    decreases |items|
  {
    if items == [] then p else ServeOn(Offer(p, offset, max, items[0]).progress, offset, max, items[1..])
  }

  // ------------------------------------------------------------------------
  // The window
  // ------------------------------------------------------------------------

  /** How many leading entries end within the first `bound` bytes. */
  function Fitting(items: seq<Item>, bound: nat): (n: nat)
    ensures n <= |items|
  {
    if items == [] || |items[0]| > bound then 0 else 1 + Fitting(items[1..], bound - |items[0]|)
  }

  /** Entries that end by the offset are passed over; then as many as fit are returned. */
  function Window(items: seq<Item>, offset: nat, max: nat): (page: seq<Item>)
    ensures |page| <= |items|
  {
    var wanted := items[Fitting(items, offset)..];
    wanted[..Fitting(wanted, max)]
  }

  lemma {:induction false} FittingIsMaximal(items: seq<Item>, max: nat)
    ensures var n := Fitting(items, max);
            && |Flat(items[..n])| <= max
            && (n < |items| ==> |Flat(items[..n + 1])| > max)
  {
    var n := Fitting(items, max);
    if items != [] && |items[0]| <= max {
      FittingIsMaximal(items[1..], max - |items[0]|);
      assert items[..n][1..] == items[1..][..n - 1];
      if n < |items| {
        assert items[..n + 1][1..] == items[1..][..n];
      }
    } else if items != [] {
      assert items[..1][1..] == [];
    }
  }

  /**
   The window is the contiguous run `items[a..b]` that starts at the first entry
   ending after the offset and is the longest from there within `max` bytes.
   */
  lemma WindowIsMaximalRun(items: seq<Item>, offset: nat, max: nat) returns (a: nat, b: nat)
    ensures a == Fitting(items, offset) && b == a + Fitting(items[a..], max)
    ensures a <= b <= |items| && Window(items, offset, max) == items[a..b]
    ensures |Flat(items[..a])| <= offset && (a < |items| ==> |Flat(items[..a + 1])| > offset)
    ensures |Flat(items[a..b])| <= max && (b < |items| ==> |Flat(items[a..b + 1])| > max)
  {
    a := Fitting(items, offset);
    b := a + Fitting(items[a..], max);
    FittingIsMaximal(items, offset);
    FittingIsMaximal(items[a..], max);
    assert items[a..][..b - a] == items[a..b];
    if b < |items| {
      assert items[a..][..b - a + 1] == items[a..b + 1];
    }
  }

  // ------------------------------------------------------------------------
  // Offering until the first refusal
  // ------------------------------------------------------------------------

  /**
   The u32 counter reaches the first entry that is too much without wrapping:
   the window and the entry behind it together are shorter than 2^32 bytes.
   */
  predicate CounterHolds(items: seq<Item>, offset: nat, max: nat) {
    var a := Fitting(items, offset);
    var b := a + Fitting(items[a..], max);
    b == |items| || |Flat(items[a..b + 1])| < TWO_32
  }

  /** A limit that leaves room for one more entry of any size in use is always enough. */
  lemma CounterHoldsForSmallLimits(items: seq<Item>, offset: nat, max: nat)
    requires forall i | 0 <= i < |items| :: max + |items[i]| < TWO_32
    ensures CounterHolds(items, offset, max)
  {
    hide Fitting;
    var a, b := WindowIsMaximalRun(items, offset, max);
    if b < |items| {
      FlatSnoc(items[a..b], items[b]);
      assert items[a..b] + [items[b]] == items[a..b + 1];
    }
  }

  lemma OfferSkips(p: Progress, offset: u64, max: u32, item: Item)
    requires p.traversed + |item| <= offset
    ensures Offer(p, offset, max, item) == Verdict(p.(traversed := p.traversed + |item|), true)
  {
  }

  lemma OfferFits(p: Progress, offset: u64, max: u32, item: Item)
    requires offset < p.traversed + |item| < TWO_64 && p.encoded + |item| <= max
    ensures Offer(p, offset, max, item)
         == Verdict(Progress(p.traversed + |item|, p.encoded + |item|, p.emitted + [item]), true)
  {
  }

  lemma OfferWanted(p: Progress, offset: u64, max: u32, item: Item)
    requires offset < p.traversed + |item| < TWO_64
    ensures var v := Offer(p, offset, max, item);
            && v.progress.traversed == p.traversed + |item|
            && v.progress.encoded == (p.encoded + |item|) % TWO_32
            && v.progress.emitted == (if v.more then p.emitted + [item] else p.emitted)
            && (v.more <==> v.progress.encoded <= max)
  {
  }

  lemma CounterAdds(total: nat, n: nat)
    ensures (total % TWO_32 + n) % TWO_32 == (total + n) % TWO_32
  {
  }

  /** What has been emitted stays emitted. */
  lemma {:induction false} EmittedExtends(p: Progress, offset: u64, max: u32, items: seq<Item>)
    ensures p.emitted <= Serve(p, offset, max, items).emitted
    decreases |items|
  {
    if items != [] && Offer(p, offset, max, items[0]).more {
      EmittedExtends(Offer(p, offset, max, items[0]).progress, offset, max, items[1..]);
    }
  }

  /** To `before`, all that fits the limit was added, or more if the counter, at `encoded`, wraps at the entry behind. */
  predicate Extended(before: seq<Item>, encoded: nat, max: nat, wanted: seq<Item>, emitted: seq<Item>)
    requires encoded <= max
  {
    var n := Fitting(wanted, max - encoded);
    if n == |wanted| || encoded + |Flat(wanted[..n + 1])| < TWO_32
    then emitted == before + wanted[..n]
    else before + wanted[..n + 1] <= emitted
  }

  /**
   Past the offset: entries are emitted until the first that does not fit, and
   that one is refused unless adding it wraps the counter.
   */
  lemma {:induction false} ServeWanted(p: Progress, offset: u64, max: u32, items: seq<Item>)
    requires p.encoded <= max && p.traversed + |Flat(items)| < TWO_64
    requires items != [] ==> p.traversed + |items[0]| > offset
    ensures Extended(p.emitted, p.encoded, max, items, Serve(p, offset, max, items).emitted)
    decreases |items|
  {
    hide Offer;
    if items != [] {
      var item := items[0];
      var v := Offer(p, offset, max, item);
      var n := Fitting(items, max - p.encoded);
      if |item| <= max - p.encoded {
        OfferFits(p, offset, max, item);
        ServeWanted(v.progress, offset, max, items[1..]);
        assert items[..n] == [item] + items[1..][..n - 1];
        assert p.emitted + items[..n] == (p.emitted + [item]) + items[1..][..n - 1];
        if n < |items| {
          assert items[..n + 1] == [item] + items[1..][..n];
          assert p.emitted + items[..n + 1] == (p.emitted + [item]) + items[1..][..n];
        }
      } else {
        OfferWanted(p, offset, max, item);
        assert items[..1] == [item] && Flat([item]) == item;
        if v.more {
          EmittedExtends(v.progress, offset, max, items[1..]);
        }
      }
    }
  }

  /** Up to the offset: entries are skipped. */
  lemma {:induction false} ServeFrom(p: Progress, offset: u64, max: u32, items: seq<Item>)
    requires p.encoded <= max && p.traversed <= offset && p.traversed + |Flat(items)| < TWO_64
    ensures var wanted := items[Fitting(items, offset - p.traversed)..];
            Extended(p.emitted, p.encoded, max, wanted, Serve(p, offset, max, items).emitted)
    decreases |items|
  {
    hide Extended;
    hide Offer;
    if items == [] || p.traversed + |items[0]| > offset {
      ServeWanted(p, offset, max, items);
      assert items[0..] == items;
    } else {
      var next := p.(traversed := p.traversed + |items[0]|);
      OfferSkips(p, offset, max, items[0]);
      ServeFrom(next, offset, max, items[1..]);
      var k := Fitting(items[1..], offset - next.traversed);
      assert items[1..][k..] == items[k + 1..];
    }
  }

  /**
   Offering a whole listing until the first refusal emits exactly the window,
   and stays within the limit, if and only if the counter reaches the entry
   behind the window without wrapping.
   */
  lemma ServeIsWindow(offset: u64, max: u32, items: seq<Item>)
    requires |Flat(items)| < TWO_64
    ensures Serve(START, offset, max, items).emitted == Window(items, offset, max) <==> CounterHolds(items, offset, max)
    ensures |Flat(Serve(START, offset, max, items).emitted)| <= max <==> CounterHolds(items, offset, max)
  {
    hide Serve;
    hide Fitting;
    hide Flat;
    ServeFrom(START, offset, max, items);
    var a, b := WindowIsMaximalRun(items, offset, max);
    var wanted, emitted := items[a..], Serve(START, offset, max, items).emitted;
    assert wanted[..b - a] == items[a..b];
    assert [] + items[a..b] == items[a..b];
    if b < |items| {
      assert wanted[..b - a + 1] == items[a..b + 1];
      assert [] + items[a..b + 1] == items[a..b + 1];
      if |Flat(items[a..b + 1])| >= TWO_32 {
        FlatAppend(items[a..b + 1], emitted[b + 1 - a..]);
        assert emitted == items[a..b + 1] + emitted[b + 1 - a..];
      }
    }
  }

  /** The first entry behind the window. */
  function Behind(items: seq<Item>, offset: nat, max: nat): (b: nat)
    ensures b <= |items|
  {
    var a := Fitting(items, offset);
    a + Fitting(items[a..], max)
  }

  function SizeAt(items: seq<Item>, i: nat): nat {
    if i < |items| then |items[i]| else 0
  }

  lemma {:induction false} CounterOfWanted(p: Progress, offset: u64, max: u32, items: seq<Item>)
    requires p.encoded <= max && p.traversed + |Flat(items)| < TWO_64
    requires items != [] ==> p.traversed + |items[0]| > offset
    requires var n := Fitting(items, max - p.encoded); p.encoded + |Flat(items[..n])| + SizeAt(items, n) < TWO_32
    ensures var n := Fitting(items, max - p.encoded);
            Serve(p, offset, max, items).encoded == p.encoded + |Flat(items[..n])| + SizeAt(items, n)
    decreases |items|
  {
    hide Offer;
    if items != [] {
      var item := items[0];
      var n := Fitting(items, max - p.encoded);
      if |item| <= max - p.encoded {
        OfferFits(p, offset, max, item);
        assert items[..n][1..] == items[1..][..n - 1];
        CounterOfWanted(Offer(p, offset, max, item).progress, offset, max, items[1..]);
      } else {
        OfferWanted(p, offset, max, item);
      }
    }
  }

  lemma {:induction false} CounterFrom(p: Progress, offset: u64, max: u32, items: seq<Item>)
    requires p.encoded <= max && p.traversed <= offset && p.traversed + |Flat(items)| < TWO_64
    requires var wanted := items[Fitting(items, offset - p.traversed)..];
             var n := Fitting(wanted, max - p.encoded);
             p.encoded + |Flat(wanted[..n])| + SizeAt(wanted, n) < TWO_32
    ensures var wanted := items[Fitting(items, offset - p.traversed)..];
            var n := Fitting(wanted, max - p.encoded);
            Serve(p, offset, max, items).encoded == p.encoded + |Flat(wanted[..n])| + SizeAt(wanted, n)
    decreases |items|
  {
    hide Offer;
    hide SizeAt;
    if items == [] || p.traversed + |items[0]| > offset {
      assert items[0..] == items;
      CounterOfWanted(p, offset, max, items);
    } else {
      OfferSkips(p, offset, max, items[0]);
      var next := p.(traversed := p.traversed + |items[0]|);
      var k := Fitting(items[1..], offset - next.traversed);
      assert items[1..][k..] == items[k + 1..];
      CounterFrom(next, offset, max, items[1..]);
    }
  }

  /** The counter ends at the size of the window, plus that of the refused entry if there is one. */
  lemma CounterOfRun(offset: u64, max: u32, items: seq<Item>)
    requires |Flat(items)| < TWO_64 && CounterHolds(items, offset, max)
    ensures Serve(START, offset, max, items).encoded
         == |Flat(Window(items, offset, max))| + SizeAt(items, Behind(items, offset, max))
  {
    hide Serve;
    hide Fitting;
    hide Flat;
    var a, b := WindowIsMaximalRun(items, offset, max);
    var wanted := items[a..];
    assert wanted[..b - a] == items[a..b];
    if b < |items| {
      FlatSnoc(items[a..b], items[b]);
      assert items[a..b] + [items[b]] == items[a..b + 1];
    }
    assert SizeAt(wanted, b - a) == SizeAt(items, b);
    CounterFrom(START, offset, max, items);
  }

  // ------------------------------------------------------------------------
  // Offering on after a refusal
  // ------------------------------------------------------------------------

  /** The counter when entry `k` has been offered, all entries being wanted and `total` bytes offered before them. */
  function CounterAfter(total: nat, items: seq<Item>, k: nat): u32
    requires k < |items|
  {
    (total + |Flat(items[..k + 1])|) % TWO_32
  }

  predicate RefusedFrom(total: nat, items: seq<Item>, n: nat, max: u32) {
    forall k | n <= k < |items| :: CounterAfter(total, items, k) > max
  }

  lemma CounterShift(total: nat, items: seq<Item>, k: nat)
    requires 0 < k < |items|
    ensures CounterAfter(total, items, k) == CounterAfter(total + |items[0]|, items[1..], k - 1)
  {
    assert items[..k + 1][1..] == items[1..][..k];
  }

  lemma CounterFirst(total: nat, items: seq<Item>)
    requires items != []
    ensures CounterAfter(total, items, 0) == (total % TWO_32 + |items[0]|) % TWO_32
  {
    assert items[..1] == [items[0]] && Flat([items[0]]) == items[0];
  }

  lemma RefusedShift(total: nat, items: seq<Item>, n: nat, max: u32)
    requires items != [] && n > 0
    ensures RefusedFrom(total, items, n, max) <==> RefusedFrom(total + |items[0]|, items[1..], n - 1, max)
  {
    hide CounterAfter;
    var t, rest := total + |items[0]|, items[1..];
    forall k | n <= k < |items|
      ensures CounterAfter(total, items, k) == CounterAfter(t, rest, k - 1)
    {
      CounterShift(total, items, k);
    }
    if RefusedFrom(total, items, n, max) {
      forall k | n - 1 <= k < |rest|
        ensures CounterAfter(t, rest, k) > max
      {
        assert CounterAfter(total, items, k + 1) > max;
      }
    }
  }

  lemma {:induction false} EmittedExtendsOn(p: Progress, offset: u64, max: u32, items: seq<Item>)
    ensures p.emitted <= ServeOn(p, offset, max, items).emitted
    decreases |items|
  {
    if items != [] {
      EmittedExtendsOn(Offer(p, offset, max, items[0]).progress, offset, max, items[1..]);
    }
  }

  /** From any state past the offset: nothing more is emitted exactly if every later counter value exceeds the limit. */
  lemma {:induction false} NothingMore(p: Progress, total: nat, offset: u64, max: u32, items: seq<Item>)
    requires p.encoded == total % TWO_32 && p.traversed + |Flat(items)| < TWO_64
    requires items != [] ==> p.traversed + |items[0]| > offset
    ensures ServeOn(p, offset, max, items).emitted == p.emitted <==> RefusedFrom(total, items, 0, max)
    decreases |items|
  {
    hide CounterAfter;
    hide Offer;
    if items != [] {
      var v := Offer(p, offset, max, items[0]);
      OfferWanted(p, offset, max, items[0]);
      CounterFirst(total, items);
      CounterAdds(total, |items[0]|);
      assert v.more <==> CounterAfter(total, items, 0) <= max;
      if v.more {
        EmittedExtendsOn(v.progress, offset, max, items[1..]);
      } else {
        NothingMore(v.progress, total + |items[0]|, offset, max, items[1..]);
        RefusedShift(total, items, 1, max);
      }
    }
  }

  /** As long as nothing was refused, the counter is the number of bytes emitted. */
  lemma {:induction false} ServeOnWanted(p: Progress, offset: u64, max: u32, items: seq<Item>)
    requires p.encoded <= max && p.traversed + |Flat(items)| < TWO_64
    requires items != [] ==> p.traversed + |items[0]| > offset
    ensures var n := Fitting(items, max - p.encoded);
            ServeOn(p, offset, max, items).emitted == p.emitted + items[..n] <==> RefusedFrom(p.encoded, items, n, max)
    decreases |items|
  {
    hide RefusedFrom;
    hide Offer;
    if items != [] && |items[0]| <= max - p.encoded {
      var item, n := items[0], Fitting(items, max - p.encoded);
      OfferFits(p, offset, max, item);
      ServeOnWanted(Offer(p, offset, max, item).progress, offset, max, items[1..]);
      RefusedShift(p.encoded, items, n, max);
      assert items[..n] == [item] + items[1..][..n - 1];
      assert p.emitted + items[..n] == (p.emitted + [item]) + items[1..][..n - 1];
    } else {
      NothingMore(p, p.encoded, offset, max, items);
      assert p.emitted + items[..0] == p.emitted;
    }
  }

  lemma {:induction false} ServeOnFrom(p: Progress, offset: u64, max: u32, items: seq<Item>)
    requires p.encoded <= max && p.traversed <= offset && p.traversed + |Flat(items)| < TWO_64
    ensures var wanted := items[Fitting(items, offset - p.traversed)..];
            var n := Fitting(wanted, max - p.encoded);
            ServeOn(p, offset, max, items).emitted == p.emitted + wanted[..n] <==> RefusedFrom(p.encoded, wanted, n, max)
    decreases |items|
  {
    hide RefusedFrom;
    hide Offer;
    if items == [] || p.traversed + |items[0]| > offset {
      ServeOnWanted(p, offset, max, items);
      assert items[0..] == items;
    } else {
      OfferSkips(p, offset, max, items[0]);
      var next := p.(traversed := p.traversed + |items[0]|);
      ServeOnFrom(next, offset, max, items[1..]);
      var k := Fitting(items[1..], offset - next.traversed);
      assert items[1..][k..] == items[k + 1..];
    }
  }

  /**
   Offering every entry, refusals or not, emits exactly the window if and only
   if the counter, taken modulo 2^32, exceeds the limit at every entry behind it.
   */
  lemma ServeOnIsWindow(offset: u64, max: u32, items: seq<Item>)
    requires |Flat(items)| < TWO_64
    ensures var wanted := items[Fitting(items, offset)..];
            ServeOn(START, offset, max, items).emitted == Window(items, offset, max)
            <==> RefusedFrom(0, wanted, Fitting(wanted, max), max)
  {
    hide ServeOn;
    hide RefusedFrom;
    ServeOnFrom(START, offset, max, items);
    assert [] + Window(items, offset, max) == Window(items, offset, max);
  }

  /** Whatever was refused, the counter is the number of wanted bytes offered so far, modulo 2^32. */
  lemma {:induction false} CounterIsOffered(p: Progress, total: nat, offset: u64, max: u32, items: seq<Item>)
    requires p.encoded == total % TWO_32 && p.traversed + |Flat(items)| < TWO_64
    ensures var skipped := if p.traversed <= offset then Fitting(items, offset - p.traversed) else 0;
            ServeOn(p, offset, max, items).encoded == (total + |Flat(items[skipped..])|) % TWO_32
    ensures ServeOn(p, offset, max, items).traversed == p.traversed + |Flat(items)|
    decreases |items|
  {
    hide Offer;
    if items != [] {
      var v := Offer(p, offset, max, items[0]);
      assert items[0..] == items;
      if p.traversed + |items[0]| <= offset {
        OfferSkips(p, offset, max, items[0]);
        CounterIsOffered(v.progress, total, offset, max, items[1..]);
        var k := Fitting(items[1..], offset - v.progress.traversed);
        assert items[1..][k..] == items[k + 1..];
      } else {
        OfferWanted(p, offset, max, items[0]);
        CounterAdds(total, |items[0]|);
        CounterIsOffered(v.progress, total + |items[0]|, offset, max, items[1..]);
        assert items[1..][0..] == items[1..];
      }
    }
  }

  /**
   The limit test compares the counter after it was increased. In every state
   that offers can lead to, after refusals too, its verdict on a wanted entry is
   that of an unbounded count of the offered bytes if and only if that count is
   below 2^32 or leaves a remainder above the limit.
   */
  lemma VerdictRight(offset: u64, max: u32, items: seq<Item>, item: Item)
    requires offset < |Flat(items)| + |item| < TWO_64
    ensures var total := |Flat(items[Fitting(items, offset)..])| + |item|;
            (Offer(ServeOn(START, offset, max, items), offset, max, item).more <==> total <= max)
            <==> total < TWO_32 || total % TWO_32 > max
  {
    hide ServeOn;
    hide Offer;
    hide Fitting;
    hide Flat;
    CounterIsOffered(START, 0, offset, max, items);
    var offered := |Flat(items[Fitting(items, offset)..])|;
    var p := ServeOn(START, offset, max, items);
    OfferWanted(p, offset, max, item);
    CounterAdds(offered, |item|);
  }

  /** After a refusal nothing more is emitted, however small, as long as the counter does not wrap. */
  lemma {:induction false} RefusalSticks(p: Progress, offset: u64, max: u32, items: seq<Item>)
    requires p.encoded > max && p.traversed > offset
    requires p.encoded + |Flat(items)| < TWO_32 && p.traversed + |Flat(items)| < TWO_64
    ensures ServeOn(p, offset, max, items).emitted == p.emitted
    decreases |items|
  {
    if items != [] {
      RefusalSticks(Offer(p, offset, max, items[0]).progress, offset, max, items[1..]);
    }
  }

  lemma {:induction false} ServeOnSame(p: Progress, offset: u64, max: u32, items: seq<Item>)
    requires p.encoded <= max
    requires p.encoded + |Flat(items)| < TWO_32 && p.traversed + |Flat(items)| < TWO_64
    ensures ServeOn(p, offset, max, items).emitted == Serve(p, offset, max, items).emitted
    decreases |items|
  {
    if items != [] {
      var v := Offer(p, offset, max, items[0]);
      if v.more {
        ServeOnSame(v.progress, offset, max, items[1..]);
      } else {
        RefusalSticks(v.progress, offset, max, items[1..]);
      }
    }
  }

  // ------------------------------------------------------------------------
  // Successive reads
  // ------------------------------------------------------------------------

  lemma {:induction false} PassedAtBoundary(items: seq<Item>, i: nat)
    requires i <= |items|
    ensures Fitting(items, |Flat(items[..i])|) == i
  {
    if i > 0 {
      assert items[..i][1..] == items[1..][..i - 1];
      PassedAtBoundary(items[1..], i - 1);
    }
  }

  /** An offset inside an entry is answered like the offset of its start. */
  lemma MidEntryOffset(items: seq<Item>, offset: nat, max: nat)
    ensures var start := |Flat(items[..Fitting(items, offset)])|;
            start <= offset && Window(items, offset, max) == Window(items, start, max)
  {
    FittingIsMaximal(items, offset);
    PassedAtBoundary(items, Fitting(items, offset));
  }

  /** At an entry boundary the page is the longest run from there. */
  lemma PageAtBoundary(items: seq<Item>, i: nat, max: nat)
    requires i <= |items|
    ensures var n := Fitting(items[i..], max);
            && Window(items, |Flat(items[..i])|, max) == items[i..i + n]
            && |Flat(items[..i])| + |Flat(items[i..i + n])| == |Flat(items[..i + n])|
    ensures Window(items, |Flat(items[..i])|, max) == [] <==> i == |items| || |items[i]| > max
  {
    PassedAtBoundary(items, i);
    var n := Fitting(items[i..], max);
    assert items[i..][..n] == items[i..i + n];
    FlatAppend(items[..i], items[i..i + n]);
    assert items[..i] + items[i..i + n] == items[..i + n];
  }

  /** The data of successive reads, each from where the previous one ended. */
  function ReadPages(items: seq<Item>, offset: nat, counts: seq<nat>): (pages: seq<seq<byte>>)
    ensures |pages| == |counts|
    decreases |counts|
  {
    if counts == [] then []
    else
      var page := Flat(Window(items, offset, counts[0]));
      [page] + ReadPages(items, offset + |page|, counts[1..])
  }

  /** The entry that a sequence of reads from entry `i` stops before. */
  function Reached(items: seq<Item>, i: nat, counts: seq<nat>): (j: nat)
    requires i <= |items|
    ensures i <= j <= |items|
    decreases |counts|
  {
    if counts == [] then i else Reached(items, i + Fitting(items[i..], counts[0]), counts[1..])
  }

  lemma FlatOfPages(page: seq<byte>, pages: seq<seq<byte>>)
    ensures Flat([page] + pages) == page + Flat(pages)
  {
    assert ([page] + pages)[1..] == pages;
  }

  lemma FlatSlices(items: seq<Item>, i: nat, j: nat, k: nat)
    requires i <= j <= k <= |items|
    ensures Flat(items[i..j]) + Flat(items[j..k]) == Flat(items[i..k])
  {
    FlatAppend(items[i..j], items[j..k]);
    assert items[i..j] + items[j..k] == items[i..k];
  }

  /** Whatever the counts, the pages are whole entries in order: no entry is lost, split or repeated. */
  lemma {:induction false} PagesAreEntries(items: seq<Item>, i: nat, counts: seq<nat>)
    requires i <= |items|
    ensures Flat(ReadPages(items, |Flat(items[..i])|, counts)) == Flat(items[i..Reached(items, i, counts)])
    decreases |counts|
  {
    hide Window;
    hide Fitting;
    if counts == [] {
      assert items[i..i] == [];
    } else {
      PageAtBoundary(items, i, counts[0]);
      var n := Fitting(items[i..], counts[0]);
      PagesAreEntries(items, i + n, counts[1..]);
      FlatOfPages(Flat(items[i..i + n]), ReadPages(items, |Flat(items[..i + n])|, counts[1..]));
      FlatSlices(items, i, i + n, Reached(items, i, counts));
    }
  }

  predicate Covers(counts: seq<nat>, items: seq<Item>) {
    forall c, i | 0 <= c < |counts| && 0 <= i < |items| :: |items[i]| <= counts[c]
  }

  lemma {:induction false} EachReadAdvances(items: seq<Item>, i: nat, counts: seq<nat>)
    requires i <= |items| && Covers(counts, items)
    ensures Reached(items, i, counts) >= if i + |counts| < |items| then i + |counts| else |items|
    decreases |counts|
  {
    if counts != [] {
      var n := Fitting(items[i..], counts[0]);
      assert i < |items| ==> |items[i]| <= counts[0];
      assert Covers(counts[1..], items) by {
        forall c, k | 0 <= c < |counts| - 1 && 0 <= k < |items|
          ensures |items[k]| <= counts[1..][c]
        {
          assert counts[1..][c] == counts[c + 1];
        }
      }
      EachReadAdvances(items, i + n, counts[1..]);
    }
  }

  /**
   Paging tiles the listing: with counts that each hold the largest entry, as
   many reads as there are entries return the whole listing, and the next read
   is empty.
   */
  lemma PagingTiles(items: seq<Item>, counts: seq<nat>, next: nat)
    requires Covers(counts, items) && |counts| >= |items|
    ensures Flat(ReadPages(items, 0, counts)) == Flat(items)
    ensures Window(items, |Flat(items)|, next) == []
  {
    EachReadAdvances(items, 0, counts);
    PagesAreEntries(items, 0, counts);
    assert items[..0] == [] && items[0..|items|] == items && items[..|items|] == items;
    PageAtBoundary(items, |items|, next);
  }

  /** Until the listing is exhausted no read comes back empty. */
  lemma NoEarlyEmptyPage(items: seq<Item>, i: nat, count: nat)
    requires i < |items| && Covers([count], items)
    ensures Window(items, |Flat(items[..i])|, count) != []
  {
    PageAtBoundary(items, i, count);
    assert |items[i]| <= [count][0];
  }

  lemma {:induction false} StopsBeforeOversized(items: seq<Item>, i: nat, counts: seq<nat>, k: nat)
    requires i <= k < |items|
    requires forall c | 0 <= c < |counts| :: counts[c] < |items[k]|
    ensures Reached(items, i, counts) <= k
    decreases |counts|
  {
    if counts != [] {
      var n := Fitting(items[i..], counts[0]);
      FittingIsMaximal(items[i..], counts[0]);
      if i + n > k {
        var run := items[i..][..n];
        assert run == items[i..k] + ([items[k]] + items[k + 1..i + n]);
        FlatAppend(items[i..k], [items[k]] + items[k + 1..i + n]);
      } else {
        assert forall c | 0 <= c < |counts| - 1 :: counts[1..][c] == counts[c + 1];
        StopsBeforeOversized(items, i + n, counts[1..], k);
      }
    }
  }

  lemma {:induction false} FlatGrows(items: seq<Item>, j: nat)
    requires j < |items|
    ensures |Flat(items[..j])| < |Flat(items)|
  {
    FlatAppend(items[..j], items[j..]);
    assert items == items[..j] + items[j..];
  }

  /**
   With one count for all reads, enough reads return the whole listing if and
   only if every entry fits the count: before an entry that does not, the reader
   gets empty pages for ever.
   */
  lemma PagingTilesIff(items: seq<Item>, count: nat, rounds: nat)
    requires rounds >= |items|
    ensures Flat(ReadPages(items, 0, seq(rounds, _ => count))) == Flat(items)
       <==> forall i | 0 <= i < |items| :: |items[i]| <= count
  {
    var counts := seq(rounds, _ => count);
    if forall i | 0 <= i < |items| :: |items[i]| <= count {
      PagingTiles(items, counts, 0);
    } else {
      var k :| 0 <= k < |items| && |items[k]| > count;
      StopsBeforeOversized(items, 0, counts, k);
      PagesAreEntries(items, 0, counts);
      assert items[..0] == [];
      var j := Reached(items, 0, counts);
      assert items[0..j] == items[..j];
      FlatGrows(items, j);
    }
  }
}
