/**
 Iterating over the directory entries in the data of a 9P2000.L directory read.
 */
module DirEntries {
  import opened Bytes
  import opened Fields
  import opened Messages
  import opened Readers
  import opened Paging

  const MIN_ENTRY := 24

  function EntryBytes(e: DirEntry): seq<byte> { Encode(DirEntryFields(e)) }

  function DecodeEntry(bs: seq<byte>): Decoded<DirEntry> {
    match Decode(DirEntryKinds(), bs)
    case Ok(vs, rest) => Ok(DirEntryAt(vs, 0), rest)
    case OutOfData(i) => OutOfData(i)
    case Undefined => Undefined
  }

  lemma EntryOrderAgrees(e: DirEntry)
    ensures Typed(DirEntryKinds(), DirEntryFields(e)) && DirEntryAt(DirEntryFields(e), 0) == e
  {
  }

  lemma EntryOrderComplete(vs: seq<Value>)
    requires Typed(DirEntryKinds(), vs)
    ensures DirEntryFields(DirEntryAt(vs, 0)) == vs
  {
  }

  lemma EntrySize(e: DirEntry)
    ensures |EntryBytes(e)| == MIN_ENTRY + |e.name|
  {
    hide EncodeOne;
    var q, r := QidFields(e.qid), [V64(e.offset), V8(e.typ), VText(e.name)];
    EncodeAppend(q, r);
    Encode3(q[0], q[1], q[2]);
    Encode3(r[0], r[1], r[2]);
    EncodedNumbers(e);
  }

  lemma EncodedNumbers(e: DirEntry)
    ensures |EncodeOne(V8(e.qid.typ))| == 1 && |EncodeOne(V32(e.qid.version))| == 4 && |EncodeOne(V64(e.qid.path))| == 8
    ensures |EncodeOne(V64(e.offset))| == 8 && |EncodeOne(V8(e.typ))| == 1 && |EncodeOne(VText(e.name))| == 2 + |e.name|
  {
  }

  lemma EntryRoundTrip(e: DirEntry, rest: seq<byte>)
    ensures DecodeEntry(EntryBytes(e) + rest) == Ok(e, rest)
  {
    hide Decode;
    hide Encode;
    hide DirEntryFields;
    hide DirEntryKinds;
    hide DirEntryAt;
    EntryOrderAgrees(e);
    RoundTrip(DirEntryKinds(), DirEntryFields(e), rest);
  }

  lemma EntryCanonical(bs: seq<byte>)
    requires DecodeEntry(bs).Ok?
    ensures EntryBytes(DecodeEntry(bs).value) + DecodeEntry(bs).rest == bs
    ensures |DecodeEntry(bs).rest| + MIN_ENTRY <= |bs|
  {
    hide Decode;
    hide Encode;
    hide DirEntryFields;
    hide DirEntryKinds;
    hide DirEntryAt;
    Canonical(DirEntryKinds(), bs);
    EntryOrderComplete(Decode(DirEntryKinds(), bs).value);
    EntrySize(DecodeEntry(bs).value);
  }

  lemma {:induction false} DefinedWithoutPaths(ks: seq<Kind>, bs: seq<byte>)
    requires Segments !in ks && Qids !in ks
    ensures !Decode(ks, bs).Undefined?
  {
    if ks != [] {
      assert ks[0] in ks;
      if DecodeOne(ks[0], bs).Ok? {
        DefinedWithoutPaths(ks[1..], DecodeOne(ks[0], bs).rest);
      }
    }
  }

  /** The entries at the start of `bs`, up to the first that is not wholly there. */
  function Entries(bs: seq<byte>): seq<DirEntry>
    decreases |bs|
  {
    match DecodeEntry(bs)
    case Ok(e, rest) => EntryCanonical(bs); [e] + Entries(rest)
    case _ => []
  }

  lemma EntriesStep(bs: seq<byte>)
    ensures Entries(bs) == if DecodeEntry(bs).Ok? then [DecodeEntry(bs).value] + Entries(DecodeEntry(bs).rest) else []
  {
  }

  function EntryItem(e: DirEntry): (item: Item)
    ensures item == EntryBytes(e)
  {
    EntrySize(e);
    EntryBytes(e)
  }

  function EntryItems(es: seq<DirEntry>): (items: seq<Item>)
    ensures |items| == |es| && forall i | 0 <= i < |es| :: items[i] == EntryBytes(es[i])
  {
    seq(|es|, i requires 0 <= i < |es| => EntryItem(es[i]))
  }

  /** On any bytes: what is found is encoded at the start, and nothing more can be read after it. */
  lemma {:induction false} EntriesMaximal(bs: seq<byte>)
    ensures var found := Flat(EntryItems(Entries(bs)));
            found <= bs && !DecodeEntry(bs[|found|..]).Ok?
    decreases |bs|
  {
    hide DecodeEntry;
    hide EntryBytes;
    if DecodeEntry(bs).Ok? {
      var Ok(e, rest) := DecodeEntry(bs);
      EntryCanonical(bs);
      EntriesMaximal(rest);
      var items, more := EntryItems(Entries(bs)), EntryItems(Entries(rest));
      assert items[1..] == more;
      assert Flat(items) == EntryBytes(e) + Flat(more);
      assert bs[|Flat(items)|..] == rest[|Flat(more)|..];
    } else {
      assert bs[0..] == bs;
    }
  }

  lemma CutEntryFails(e: DirEntry, n: nat)
    requires n < |EntryBytes(e)|
    ensures !DecodeEntry(EntryBytes(e)[..n]).Ok?
  {
    hide Decode;
    hide Encode;
    EntryOrderAgrees(e);
    assert Segments !in DirEntryKinds();
    Truncated(DirEntryKinds(), DirEntryFields(e), n);
  }

  /** Any truncation of an encoded list yields the longest prefix of entries that fits whole. */
  lemma {:induction false} EntriesOfTruncation(es: seq<DirEntry>, n: nat)
    requires n <= |Flat(EntryItems(es))|
    ensures Entries(Flat(EntryItems(es))[..n]) == es[..Fitting(EntryItems(es), n)]
  {
    hide DecodeEntry;
    hide EntryBytes;
    var items := EntryItems(es);
    if es == [] {
      NoEntryInNothing();
      assert Flat(items)[..n] == [];
    } else {
      var first, more := EntryBytes(es[0]), EntryItems(es[1..]);
      assert items[1..] == more;
      assert Flat(items) == first + Flat(more);
      if n < |first| {
        assert Flat(items)[..n] == first[..n];
        CutEntryFails(es[0], n);
      } else {
        var rest := Flat(more)[..n - |first|];
        assert Flat(items)[..n] == first + rest;
        EntryRoundTrip(es[0], rest);
        EntriesOfTruncation(es[1..], n - |first|);
        assert es[..Fitting(items, n)] == [es[0]] + es[1..][..Fitting(more, n - |first|)];
      }
    }
  }

  lemma NoEntryInNothing()
    ensures !DecodeEntry([]).Ok?
  {
    if DecodeEntry([]).Ok? {
      EntryCanonical([]);
    }
  }

  // ------------------------------------------------------------------------
  // The iterator
  // ------------------------------------------------------------------------

  class Iterator {
    const reader: ByteReader
    var offset: nat
    var value: DirEntry

    predicate IsEnd()
      reads this, reader
    {
      offset == |reader.data| && reader.position == |reader.data|
    }

    /**
     The iterator is at the end, or it holds the entry that starts at `offset`
     and ends at the position of its reader.
     */
    predicate Valid()
      reads this, reader
    {
      && reader.Valid()
      && offset <= reader.position
      && (!IsEnd() ==>
            && offset + MIN_ENTRY <= reader.position
            && DecodeEntry(reader.data[offset..]) == Ok(value, reader.Remaining()))
    }

    /** The entries that iterating from here on yields. */
    ghost function Pending(): (es: seq<DirEntry>)
      requires Valid()
      reads this, reader
      ensures IsEnd() <==> es == []
      ensures !IsEnd() ==> es[0] == value
    {
      if IsEnd() then [] else [value] + Entries(reader.Remaining())
    }

    constructor (buffer: seq<byte>, from: nat)
      requires from <= |buffer|
      ensures Valid() && fresh(reader) && reader.data == buffer
      ensures if DecodeEntry(buffer[from..]).Ok? then !IsEnd() && offset == from else IsEnd()
      ensures Pending() == Entries(buffer[from..])
    {
      reader := new ByteReader(buffer);
      offset := from;
      value := DirEntry(Qid(0, 0, 0), 0, 0, []);
      new;
      hide DecodeEntry;
      hide Entries;
      EntriesStep(buffer[from..]);
      reader.position := from;
      if reader.position == |buffer| {
        NoEntryInNothing();
        return;
      }
      var ok := Read();
      if !ok {
        offset := |buffer|;
        reader.position := |buffer|;
      }
    }

    /** Tries to read the entry at the position of the reader. */
    method Read() returns (ok: bool)
      requires reader.Valid()
      modifies this`value, reader
      ensures reader.Valid()
      ensures ok <==> DecodeEntry(old(reader.Remaining())).Ok?
      ensures ok ==> DecodeEntry(old(reader.Remaining())) == Ok(value, reader.Remaining())
      ensures ok ==> old(reader.position) + MIN_ENTRY <= reader.position
    {
      hide Decode;
      hide DirEntryAt;
      ghost var bs := reader.Remaining();
      DefinedWithoutPaths(DirEntryKinds(), bs);
      var vs: seq<Value>;
      ok, vs := ReadFields(reader, DirEntryKinds());
      if ok {
        value := DirEntryAt(vs, 0);
        EntryCanonical(bs);
      }
    }

    /** `operator++`: the next entry starts where the last one ended; a failed read goes to the end. */
    method Next()
      requires Valid()
      modifies this, reader
      ensures Valid()
      ensures if DecodeEntry(old(reader.Remaining())).Ok? then !IsEnd() && offset == old(reader.position) else IsEnd()
      ensures old(IsEnd()) ==> IsEnd()
      ensures !old(IsEnd()) ==> offset >= old(offset) + MIN_ENTRY && Pending() == old(Pending())[1..]
    {
      hide DecodeEntry;
      hide Entries;
      EntriesStep(reader.Remaining());
      ghost var was := IsEnd();
      if was {
        NoEntryInNothing();
        assert reader.Remaining() == [];
      }
      offset := reader.position;
      var ok := Read();
      if !ok {
        offset := |reader.data|;
        reader.position := |reader.data|;
      }
    }

    /**
     Of two iterators over one buffer the positions of the readers need no
     comparison: the iterators are the same exactly when they stand at the same
     entry, and then they yield the same. The loop test against an end iterator
     decides whether any entry is left.
     */
    method Equals(other: Iterator) returns (same: bool)
      requires Valid() && other.Valid() && reader.data == other.reader.data
      ensures same <==> offset == other.offset
      ensures same ==> Pending() == other.Pending() && (!IsEnd() ==> value == other.value)
      ensures other.IsEnd() ==> (same <==> Pending() == [])
    {
      hide DecodeEntry;
      hide Entries;
      same := offset == other.offset && reader.position == other.reader.position;
    }
  }

  /** The range-based loop over a reader: from `begin` until equal to `end`. */
  method Collect(buffer: seq<byte>) returns (es: seq<DirEntry>)
    ensures es == Entries(buffer)
  {
    hide DecodeEntry;
    hide Entries;
    hide Iterator.Pending;
    es := [];
    var it := new Iterator(buffer, 0);
    var end := new Iterator(buffer, |buffer|);
    assert end.IsEnd() by {
      NoEntryInNothing();
      assert buffer[|buffer|..] == [];
    }
    assert es + it.Pending() == Entries(buffer) by {
      assert buffer[0..] == buffer;
    }
    var done := it.Equals(end);
    while !done
      invariant it.Valid() && fresh(it) && fresh(it.reader) && it.reader.data == buffer
      invariant end.Valid() && end.IsEnd() && end.reader.data == buffer && end != it && end.reader != it.reader
      invariant done <==> it.IsEnd()
      invariant es + it.Pending() == Entries(buffer)
      decreases |buffer| - it.offset, !done
    {
      es := TakeEntry(it, es);
      done := it.Equals(end);
    }
  }

  /** The body of the loop: use the entry, move on. */
  method TakeEntry(it: Iterator, es: seq<DirEntry>) returns (more: seq<DirEntry>)
    requires it.Valid() && !it.IsEnd()
    modifies it, it.reader
    ensures it.Valid() && it.offset >= old(it.offset) + MIN_ENTRY
    ensures more + it.Pending() == es + old(it.Pending())
  {
    hide DecodeEntry;
    hide Entries;
    ShiftFirst(es, it.Pending());
    more := es + [it.value];
    it.Next();
  }

  lemma ShiftFirst(es: seq<DirEntry>, more: seq<DirEntry>)
    requires more != []
    ensures es + more == (es + [more[0]]) + more[1..]
  {
  }
}
