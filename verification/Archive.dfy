/**
 The store-only archive writer (`zip_store`) and a reader that goes the way an unpacker goes: from
 the end record to the central directory, and from there to each local header (sections 4.3.7,
 4.3.12 and 4.3.16 of PKWARE APPNOTE.TXT).  Reading gives back what was written.
 */
module Archive {
  import opened Outcomes
  import Crc

  type Byte = b: int | 0 <= b < 256

  datatype Entry = Entry(name: seq<Byte>, bytes: seq<Byte>)

  /** The checksum of an entry's bytes, a 32-bit number. */
  type Checksum = seq<Byte> -> nat

  // ---- little-endian fields --------------------------------------------------------------------

  function Power(width: nat): (r: nat)
    ensures r > 0
  {
    if width == 0 then 1 else 256 * Power(width - 1)
  }

  /** The low `width` bytes of a number, the lowest first; higher ones are cut off. */
  function Le(width: nat, value: nat): (r: seq<Byte>)
    ensures |r| == width
  {
    if width == 0 then [] else [value % 256] + Le(width - 1, value / 256)
  }

  function Number(bytes: seq<Byte>): nat {
    if bytes == [] then 0 else bytes[0] + 256 * Number(bytes[1..])
  }

  lemma {:induction false} NumberOfLe(width: nat, value: nat)
    requires value < Power(width)
    ensures Number(Le(width, value)) == value
  {
    if width > 0 {
      assert value / 256 < Power(width - 1);
      NumberOfLe(width - 1, value / 256);
    }
  }

  function Total(widths: seq<nat>): nat {
    if widths == [] then 0 else widths[0] + Total(widths[1..])
  }

  function Encode(widths: seq<nat>, values: seq<nat>): (r: seq<Byte>)
    requires |widths| == |values|
    ensures |r| == Total(widths)
  {
    if widths == [] then [] else Le(widths[0], values[0]) + Encode(widths[1..], values[1..])
  }

  function Decode(bytes: seq<Byte>, widths: seq<nat>): (r: seq<nat>)
    requires |bytes| == Total(widths)
    ensures |r| == |widths|
  {
    if widths == [] then [] else [Number(bytes[..widths[0]])] + Decode(bytes[widths[0]..], widths[1..])
  }

  predicate Fit(widths: seq<nat>, values: seq<nat>) {
    |widths| == |values| && forall i :: 0 <= i < |widths| ==> values[i] < Power(widths[i])
  }

  lemma {:induction false} DecodeEncode(widths: seq<nat>, values: seq<nat>)
    requires Fit(widths, values)
    ensures Decode(Encode(widths, values), widths) == values
  {
    if widths != [] {
      NumberOfLe(widths[0], values[0]);
      DecodeEncode(widths[1..], values[1..]);
      var first, rest := Le(widths[0], values[0]), Encode(widths[1..], values[1..]);
      assert (first + rest)[..widths[0]] == first && (first + rest)[widths[0]..] == rest;
    }
  }

  // ---- the records -----------------------------------------------------------------------------------

  const LOCAL: seq<nat> := [4, 2, 2, 2, 2, 2, 4, 4, 4, 2, 2]
  const CENTRAL: seq<nat> := [4, 2, 2, 2, 2, 2, 2, 4, 4, 4, 2, 2, 2, 2, 2, 4, 4]
  const END: seq<nat> := [4, 2, 2, 2, 2, 4, 4, 2]

  function LocalValues(crc: Checksum, e: Entry): (r: seq<nat>)
    ensures |r| == |LOCAL|
  {
    [0x0403_4b50, 20, 0, 0, 0, 0, crc(e.bytes), |e.bytes|, |e.bytes|, |e.name|, 0]
  }

  function CentralValues(crc: Checksum, e: Entry, offset: nat): (r: seq<nat>)
    ensures |r| == |CENTRAL|
  {
    [0x0201_4b50, 20, 20, 0, 0, 0, 0, crc(e.bytes), |e.bytes|, |e.bytes|, |e.name|, 0, 0, 0, 0, 0, offset]
  }

  function EndValues(count: nat, centralSize: nat, centralOffset: nat): (r: seq<nat>)
    ensures |r| == |END|
  {
    [0x0605_4b50, 0, 0, count, count, centralSize, centralOffset, 0]
  }

  function LocalRecord(crc: Checksum, e: Entry): seq<Byte> {
    Encode(LOCAL, LocalValues(crc, e)) + (e.name + e.bytes)
  }

  function CentralRecord(crc: Checksum, e: Entry, offset: nat): seq<Byte> {
    Encode(CENTRAL, CentralValues(crc, e, offset)) + e.name
  }

  /** The local records of the first `n` entries. */
  function Locals(crc: Checksum, entries: seq<Entry>, n: nat): seq<Byte>
    requires n <= |entries|
  {
    if n == 0 then [] else Locals(crc, entries, n - 1) + LocalRecord(crc, entries[n - 1])
  }

  /** The central records of the first `n` entries. */
  function Centrals(crc: Checksum, entries: seq<Entry>, n: nat): seq<Byte>
    requires n <= |entries|
  {
    if n == 0 then []
    else Centrals(crc, entries, n - 1) + CentralRecord(crc, entries[n - 1], |Locals(crc, entries, n - 1)|)
  }

  function Archived(crc: Checksum, entries: seq<Entry>): seq<Byte> {
    var locals, central := Locals(crc, entries, |entries|), Centrals(crc, entries, |entries|);
    locals + (central + Encode(END, EndValues(|entries|, |central|, |locals|)))
  }

  /** Writes the archive; more entries than the counter can hold are an error. */
  method ZipStore(crc: Checksum, entries: seq<Entry>) returns (r: Option<seq<Byte>>)
    ensures r == if |entries| < 0x1_0000 then Some(Archived(crc, entries)) else None
  {
    hide Encode, LocalValues, CentralValues, Total;
    var out: seq<Byte> := [];
    var central: seq<Byte> := [];
    var count := 0;
    for i := 0 to |entries|
      invariant count == i < 0x1_0000
      invariant out == Locals(crc, entries, i) && central == Centrals(crc, entries, i)
    {
      var e := entries[i];
      var offset := |out|;
      out := out + (Encode(LOCAL, LocalValues(crc, e)) + (e.name + e.bytes));
      central := central + (Encode(CENTRAL, CentralValues(crc, e, offset)) + e.name);
      if count + 1 >= 0x1_0000 {
        return None;
      }
      count := count + 1;
    }
    var centralOffset, centralSize := |out|, |central|;
    return Some(out + (central + Encode(END, EndValues(count, centralSize, centralOffset))));
  }

  // ---- the reader -------------------------------------------------------------------------------------

  datatype Item = Item(name: seq<Byte>, bytes: seq<Byte>, crc: nat)

  function Part(bytes: seq<Byte>, at: nat, size: nat): Option<seq<Byte>> {
    if at + size <= |bytes| then Some(bytes[at..at + size]) else None
  }

  function Fields(bytes: seq<Byte>, at: nat, widths: seq<nat>): (r: Option<seq<nat>>)
    ensures r.Some? ==> |r.value| == |widths|
  {
    if at + Total(widths) <= |bytes| then Some(Decode(bytes[at..at + Total(widths)], widths)) else None
  }

  /** A record of the central directory. */
  datatype Header = Header(
    version: nat, flags: nat, method': nat, crc: nat, compressed: nat, size: nat, nameSize: nat, extraSize: nat, commentSize: nat, offset: nat)

  /**
   The stored bytes behind a local header that repeats what the directory says, name included; only
   stored entries can be read.
   */
  function ReadLocal(bytes: seq<Byte>, h: Header, name: seq<Byte>): Option<seq<Byte>> {
    var fields := Fields(bytes, h.offset, LOCAL);
    if fields.None? || fields.value[0] != 0x0403_4b50 || h.method' != 0 || h.compressed != h.size then None
    else
      var f := fields.value;
      if f[1] != h.version || f[2] != h.flags || f[3] != h.method' || f[6] != h.crc || f[7] != h.compressed || f[8] != h.size || f[9] != h.nameSize then None
      else if Part(bytes, h.offset + Total(LOCAL), h.nameSize) != Some(name) then None
      else Part(bytes, h.offset + Total(LOCAL) + f[9] + f[10], h.size)
  }

  function ReadHeader(bytes: seq<Byte>, at: nat): Option<Header> {
    var fields := Fields(bytes, at, CENTRAL);
    if fields.None? || fields.value[0] != 0x0201_4b50 then None
    else
      var f := fields.value;
      Some(Header(f[2], f[3], f[4], f[7], f[8], f[9], f[10], f[11], f[12], f[16]))
  }

  /** `count` records of the central directory from `at` on. */
  function ReadCentral(bytes: seq<Byte>, at: nat, count: nat): Option<seq<Item>>
    decreases count
  {
    if count == 0 then Some([])
    else
      var header := ReadHeader(bytes, at);
      if header.None? then None
      else
        var h := header.value;
        var name := Part(bytes, at + Total(CENTRAL), h.nameSize);
        var stored := if name.None? then None else ReadLocal(bytes, h, name.value);
        var rest := ReadCentral(bytes, at + Total(CENTRAL) + h.nameSize + h.extraSize + h.commentSize, count - 1);
        if stored.None? || rest.None? then None
        else Some([Item(name.value, stored.value, h.crc)] + rest.value)
  }

  function ReadArchive(bytes: seq<Byte>): Option<seq<Item>> {
    if |bytes| < Total(END) then None
    else
      var fields := Fields(bytes, |bytes| - Total(END), END);
      if fields.None? || fields.value[0] != 0x0605_4b50 then None
      else if fields.value[3] != fields.value[4] || fields.value[5] + fields.value[6] + Total(END) != |bytes| then None
      else ReadCentral(bytes, fields.value[6], fields.value[4])
  }

  // ---- round trip ----------------------------------------------------------------------------------------

  /** The text `part` stands in `bytes` at `at`. */
  predicate Stands(bytes: seq<Byte>, at: nat, part: seq<Byte>) {
    at + |part| <= |bytes| && bytes[at..at + |part|] == part
  }

  lemma {:induction false} StandsConcat(bytes: seq<Byte>, at: nat, a: seq<Byte>, b: seq<Byte>)
    requires Stands(bytes, at, a + b)
    ensures Stands(bytes, at, a) && Stands(bytes, at + |a|, b)
  {
    var whole := bytes[at..at + |a + b|];
    assert bytes[at..at + |a|] == whole[..|a|] == a;
    assert bytes[at + |a|..at + |a| + |b|] == whole[|a|..] == b;
  }

  lemma {:induction false} FieldsOfRecord(bytes: seq<Byte>, at: nat, widths: seq<nat>, values: seq<nat>)
    requires Fit(widths, values) && Stands(bytes, at, Encode(widths, values))
    ensures Fields(bytes, at, widths) == Some(values)
  {
    DecodeEncode(widths, values);
  }

  /** The widths of the format: 16-bit names and counts, 32-bit sizes, offsets and checksums. */
  ghost predicate WithinWidths(crc: Checksum, entries: seq<Entry>) {
    && |entries| < 0x1_0000
    && |Archived(crc, entries)| < 0x1_0000_0000
    && forall i :: 0 <= i < |entries| ==> |entries[i].name| < 0x1_0000 && crc(entries[i].bytes) < 0x1_0000_0000
  }

  lemma {:induction false} Powers()
    ensures Power(2) == 0x1_0000 && Power(4) == 0x1_0000_0000
  {
    assert Power(1) == 256 && Power(3) == 256 * Power(2);
  }

  lemma {:induction false} LocalsPrefix(crc: Checksum, entries: seq<Entry>, i: nat, n: nat)
    requires i < n <= |entries|
    ensures Stands(Locals(crc, entries, n), |Locals(crc, entries, i)|, LocalRecord(crc, entries[i]))
  {
    hide LocalRecord;
    if i + 1 < n {
      LocalsPrefix(crc, entries, i, n - 1);
    }
  }

  lemma {:induction false} CentralsPrefix(crc: Checksum, entries: seq<Entry>, i: nat, n: nat)
    requires i < n <= |entries|
    ensures Stands(Centrals(crc, entries, n), |Centrals(crc, entries, i)|, CentralRecord(crc, entries[i], |Locals(crc, entries, i)|))
    ensures |Centrals(crc, entries, i + 1)| == |Centrals(crc, entries, i)| + |CentralRecord(crc, entries[i], |Locals(crc, entries, i)|)|
  {
    hide CentralRecord, Locals;
    if i + 1 < n {
      CentralsPrefix(crc, entries, i, n - 1);
    }
  }

  lemma {:induction false} StandsInPart(bytes: seq<Byte>, at: nat, part: seq<Byte>, inner: nat, piece: seq<Byte>)
    requires Stands(bytes, at, part) && Stands(part, inner, piece)
    ensures Stands(bytes, at + inner, piece)
  {
    forall k | 0 <= k < |piece| ensures bytes[at + inner + k] == piece[k] {
      assert bytes[at..at + |part|][inner + k] == part[inner + k] == part[inner..inner + |piece|][k];
    }
    assert bytes[at + inner..at + inner + |piece|] == piece;
  }

  /** The records of an entry stand where the directory says. */
  lemma {:induction false} RecordsStand(crc: Checksum, entries: seq<Entry>, i: nat)
    requires i < |entries|
    ensures var bytes, locals := Archived(crc, entries), Locals(crc, entries, |entries|);
      && Stands(bytes, |Locals(crc, entries, i)|, LocalRecord(crc, entries[i]))
      && Stands(bytes, |locals| + |Centrals(crc, entries, i)|, CentralRecord(crc, entries[i], |Locals(crc, entries, i)|))
  {
    hide LocalRecord, CentralRecord, Locals, Centrals;
    var bytes, locals, central := Archived(crc, entries), Locals(crc, entries, |entries|), Centrals(crc, entries, |entries|);
    var end := Encode(END, EndValues(|entries|, |central|, |locals|));
    WholeStands(bytes);
    StandsConcat(bytes, 0, locals, central + end);
    StandsConcat(bytes, |locals|, central, end);
    LocalsPrefix(crc, entries, i, |entries|);
    CentralsPrefix(crc, entries, i, |entries|);
    StandsInPart(bytes, 0, locals, |Locals(crc, entries, i)|, LocalRecord(crc, entries[i]));
    StandsInPart(bytes, |locals|, central, |Centrals(crc, entries, i)|, CentralRecord(crc, entries[i], |Locals(crc, entries, i)|));
  }

  lemma {:induction false} WholeStands(bytes: seq<Byte>)
    ensures Stands(bytes, 0, bytes)
  {
  }

  /** The header that the directory has for an entry. */
  function HeaderOf(crc: Checksum, e: Entry, offset: nat): Header {
    Header(20, 0, 0, crc(e.bytes), |e.bytes|, |e.bytes|, |e.name|, 0, 0, offset)
  }

  /** An entry's stored bytes are found behind its local header. */
  lemma {:induction false} LocalIsRead(crc: Checksum, bytes: seq<Byte>, at: nat, e: Entry)
    requires Stands(bytes, at, LocalRecord(crc, e))
    requires |e.name| < 0x1_0000 && |e.bytes| < 0x1_0000_0000 && crc(e.bytes) < 0x1_0000_0000
    ensures ReadLocal(bytes, HeaderOf(crc, e, at), e.name) == Some(e.bytes)
  {
    hide Encode, Decode, Total, Power;
    Powers();
    var header := Encode(LOCAL, LocalValues(crc, e));
    StandsConcat(bytes, at, header, e.name + e.bytes);
    StandsConcat(bytes, at + |header|, e.name, e.bytes);
    FieldsOfRecord(bytes, at, LOCAL, LocalValues(crc, e));
  }

  function ItemOf(crc: Checksum, e: Entry): Item {
    Item(e.name, e.bytes, crc(e.bytes))
  }

  function Items(crc: Checksum, entries: seq<Entry>, i: nat): seq<Item>
    requires i <= |entries|
    decreases |entries| - i
  {
    if i == |entries| then [] else [ItemOf(crc, entries[i])] + Items(crc, entries, i + 1)
  }

  /** What is read for one entry of the directory. */
  lemma {:induction false} CentralIsRead(crc: Checksum, bytes: seq<Byte>, at: nat, e: Entry, offset: nat, count: nat)
    requires Stands(bytes, at, CentralRecord(crc, e, offset)) && Stands(bytes, offset, LocalRecord(crc, e)) && count > 0
    requires |e.name| < 0x1_0000 && |e.bytes| < 0x1_0000_0000 && crc(e.bytes) < 0x1_0000_0000 && offset < 0x1_0000_0000
    ensures var rest := ReadCentral(bytes, at + |CentralRecord(crc, e, offset)|, count - 1);
      ReadCentral(bytes, at, count) == if rest.None? then None else Some([ItemOf(crc, e)] + rest.value)
  {
    hide Encode, Decode, Total, Power, ReadLocal, Fields;
    Powers();
    var header := Encode(CENTRAL, CentralValues(crc, e, offset));
    StandsConcat(bytes, at, header, e.name);
    FieldsOfRecord(bytes, at, CENTRAL, CentralValues(crc, e, offset));
    LocalIsRead(crc, bytes, offset, e);
    assert Part(bytes, at + |header|, |e.name|) == Some(e.name);
  }

  lemma {:induction false} DirectoryIsRead(crc: Checksum, entries: seq<Entry>, i: nat)
    requires WithinWidths(crc, entries) && i <= |entries|
    ensures ReadCentral(Archived(crc, entries), |Locals(crc, entries, |entries|)| + |Centrals(crc, entries, i)|, |entries| - i)
         == Some(Items(crc, entries, i))
    decreases |entries| - i
  {
    hide Encode, LocalRecord, CentralRecord, Locals, Centrals, Archived, ReadCentral;
    if i < |entries| {
      var bytes, e, offset := Archived(crc, entries), entries[i], |Locals(crc, entries, i)|;
      RecordsStand(crc, entries, i);
      RecordSizes(crc, e);
      CentralsPrefix(crc, entries, i, |entries|);
      DirectoryIsRead(crc, entries, i + 1);
      CentralIsRead(crc, bytes, |Locals(crc, entries, |entries|)| + |Centrals(crc, entries, i)|, e, offset, |entries| - i);
    } else {
      NothingToRead(Archived(crc, entries), |Locals(crc, entries, |entries|)| + |Centrals(crc, entries, i)|);
    }
  }

  lemma {:induction false} NothingToRead(bytes: seq<Byte>, at: nat)
    ensures ReadCentral(bytes, at, 0) == Some([])
  {
  }

  lemma {:induction false} RecordSizes(crc: Checksum, e: Entry)
    ensures |e.bytes| <= |LocalRecord(crc, e)|
  {
  }

  /**
   Reading an archive gives back the names, bytes and checksums of its entries in order, for all
   entries that fit the widths of the format.
   */
  lemma {:induction false} ArchiveRoundTrip(crc: Checksum, entries: seq<Entry>)
    requires WithinWidths(crc, entries)
    ensures ReadArchive(Archived(crc, entries)) == Some(Items(crc, entries, 0))
  {
    hide Encode, Decode, Total, Power, LocalRecord, CentralRecord, Locals, Centrals, ReadCentral;
    Powers();
    var bytes, locals, central := Archived(crc, entries), Locals(crc, entries, |entries|), Centrals(crc, entries, |entries|);
    var end := EndValues(|entries|, |central|, |locals|);
    WholeStands(bytes);
    StandsConcat(bytes, 0, locals, central + Encode(END, end));
    StandsConcat(bytes, |locals|, central, Encode(END, end));
    FieldsOfRecord(bytes, |locals| + |central|, END, end);
    DirectoryIsRead(crc, entries, 0);
    NoCentrals(crc, entries);
  }

  lemma {:induction false} NoCentrals(crc: Checksum, entries: seq<Entry>)
    ensures |Centrals(crc, entries, 0)| == 0
  {
  }

  // ---- with the checksum of the program -------------------------------------------------------------------

  function Octets(bytes: seq<Byte>): (r: seq<bv8>)
    ensures |r| == |bytes|
  {
    seq(|bytes|, i requires 0 <= i < |bytes| => bytes[i] as bv8)
  }

  /** The CRC-32 of an entry's bytes, as `Crc` defines it bit by bit and proves of the table-driven form. */
  function Crc32(bytes: seq<Byte>): nat {
    Crc.Checksum(Octets(bytes)) as nat
  }

  /**
   The archive that the program writes: within the widths of names, counts and sizes, the reader gets
   the names, the bytes and the CRC-32 of each entry in order.
   */
  lemma {:induction false} CheckedRoundTrip(entries: seq<Entry>)
    requires |entries| < 0x1_0000 && |Archived(Crc32, entries)| < 0x1_0000_0000
    requires forall i :: 0 <= i < |entries| ==> |entries[i].name| < 0x1_0000
    ensures var items := ReadArchive(Archived(Crc32, entries));
      && items.Some? && |items.value| == |entries|
      && forall i :: 0 <= i < |entries| ==>
           items.value[i] == Item(entries[i].name, entries[i].bytes, Crc.Checksum(Octets(entries[i].bytes)) as nat)
  {
    hide Archived, ReadArchive, Octets;
    ArchiveRoundTrip(Crc32, entries);
    ItemsAre(Crc32, entries, 0);
  }

  lemma {:induction false} ItemsAre(crc: Checksum, entries: seq<Entry>, i: nat)
    requires i <= |entries|
    ensures |Items(crc, entries, i)| == |entries| - i
    ensures forall k :: 0 <= k < |entries| - i ==> Items(crc, entries, i)[k] == ItemOf(crc, entries[i + k])
    decreases |entries| - i
  {
    hide ItemOf;
    if i < |entries| {
      var rest := Items(crc, entries, i + 1);
      ItemsAre(crc, entries, i + 1);
      forall k | 0 < k < |entries| - i ensures Items(crc, entries, i)[k] == ItemOf(crc, entries[i + k]) {
        assert Items(crc, entries, i)[k] == rest[k - 1];
      }
    }
  }
}
