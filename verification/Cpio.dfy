/**
 newc cpio archives: the overlay writer (engine/src/protocol.rs) and the parser that reads one archive or
 several placed one after another (engine/src/image_fs.rs). Names are bytes.
 */
module Cpio {
  import opened ByteStrings

  const LIMIT: nat := 0x1_0000_0000
  const TRAILER: Bytes := [84, 82, 65, 73, 76, 69, 82, 33, 33, 33]
  /** "070701", and "070702" with checksums. */
  const MAGIC: Bytes := [48, 55, 48, 55, 48, 49]
  const MAGIC_CRC: Bytes := [48, 55, 48, 55, 48, 50]

  // ---- writing --------------------------------------------------------------------------------------------

  /** A file, or a directory when there is no data. */
  datatype Item = Item(name: Bytes, data: Option<Bytes>)

  function ModeOf(i: Item): nat { if i.data.None? then 0x41ED else 0x81A4 }

  function DataOf(i: Item): Bytes { if i.data.None? then [] else i.data.value }

  /** 16 to the power of the digits from the `k`th on, of eight. */
  function Above(k: nat): (r: nat)
    ensures r > 0
  {
    if k == 0 then 0x1_0000_0000 else if k == 1 then 0x1000_0000 else if k == 2 then 0x100_0000
      else if k == 3 then 0x10_0000
    else if k == 4 then 0x1_0000 else if k == 5 then 0x1000 else if k == 6 then 0x100 else if k == 7 then 0x10 else 1
  }

  /** Digit `i` of the eight `{:08x}` writes. */
  function HexDigit(v: nat, i: nat): Byte { Digit(v / Above(i + 1) % 16) }

  /** Eight digits for each of the thirteen fields. */
  function HexAll(fields: seq<nat>): (r: Bytes)
    requires |fields| == 13
    ensures |r| == 104 && forall i :: 0 <= i < 104 ==> r[i] == HexDigit(fields[i / 8], i % 8)
  {
    seq(104, i requires 0 <= i < 104 => HexDigit(fields[i / 8], i % 8))
  }

  /** A record to write. */
  datatype Raw = Raw(ino: nat, name: Bytes, mode: nat, data: Bytes)

  /** ino, mode, uid, gid, nlink, mtime, size, two device numbers, the name's size with its NUL, a checksum. */
  function FieldsOf(r: Raw): (fields: seq<nat>)
    ensures |fields| == 13
  {
    [r.ino, r.mode, 0, 0, 1, 0, |r.data|, 0, 0, 0, 0, |r.name| + 1, 0]
  }

  function Padded(b: Bytes): (r: Bytes)
    ensures |r| == Align4(|b|)
  {
    b + Zeros(Align4(|b|) - |b|)
  }

  function HeaderBytes(r: Raw): (h: Bytes)
    ensures |h| == 111 + |r.name|
  {
    MAGIC + HexAll(FieldsOf(r)) + r.name + [0]
  }

  /** One entry: header and name, padded, then the data, padded. */
  function RecordBytes(r: Raw): (b: Bytes)
    ensures |b| == Length(r) && |b| % 4 == 0
  {
    Padded(HeaderBytes(r)) + Padded(r.data)
  }

  /** Where a record's data starts, and where it ends. */
  function Start(r: Raw): nat { Align4(111 + |r.name|) }

  function Length(r: Raw): nat { Start(r) + Align4(|r.data|) }

  /** What is written for some items: theirs, numbered from 1, and the trailer's. */
  function Raws(items: seq<Item>): (r: seq<Raw>)
    ensures |r| == |items| + 1 && r[|items|] == Raw(0, TRAILER, 0, [])
    ensures forall i :: 0 <= i < |items| ==> r[i] == Raw(i + 1, items[i].name, ModeOf(items[i]), DataOf(items[i]))
  {
    seq(|items|, i requires 0 <= i < |items| => Raw(i + 1, items[i].name, ModeOf(items[i]), DataOf(items[i])))
      + [Raw(0, TRAILER, 0, [])]
  }

  function Parts(raws: seq<Raw>): (r: seq<Bytes>)
    ensures |r| == |raws| && forall i :: 0 <= i < |raws| ==> r[i] == RecordBytes(raws[i])
  {
    seq(|raws|, i requires 0 <= i < |raws| => RecordBytes(raws[i]))
  }

  function Overlay(items: seq<Item>): Bytes {
    Flat(Parts(Raws(items)), |items| + 1)
  }

  // ---- reading --------------------------------------------------------------------------------------------

  /** u32::from_str_radix, which takes a plus sign too. */
  function Field(t: Bytes): Option<nat>
    requires |t| == 8
  {
    if t[0] == 43 then Digits(t[1..]) else Digits(t)
  }

  /** The fields in a text, eight digits each. */
  function Fields(t: Bytes): (r: Option<seq<nat>>)
    ensures r.Some? ==> |r.value| == |t| / 8
    decreases |t|
  {
    if |t| < 8 then Some([])
    else
      var first, rest := Field(t[..8]), Fields(t[8..]);
      if first.None? || rest.None? then None else Some([first.value] + rest.value)
  }

  function Trimmed(name: Bytes): Bytes {
    if name != [] && name[|name| - 1] == 0 then Trimmed(name[..|name| - 1]) else name
  }

  /** `fields`: the header's first twelve. */
  datatype Entry = Entry(name: Bytes, fields: seq<nat>, offset: nat)

  datatype Record = Record(entry: Entry, next: nat)

  /** A header's first twelve fields. */
  type Header = f: seq<nat> | |f| == 12 witness seq(12, _ => 0)

  function HeaderOf(h: Bytes): Option<Header> {
    if |h| != 110 || (h[..6] != MAGIC && h[..6] != MAGIC_CRC) then None else Fields(h[6..102])
  }

  /** The record whose first byte is at `at`, its header read by `decode`; None when it is not one. */
  function RecordAt(decode: Bytes -> Option<Header>, b: Bytes, at: nat): (r: Option<Record>)
    ensures r.Some? ==> r.value.next > at
  {
    if at % 4 != 0 || at + 110 > |b| then None else WithFields(b, at, decode(b[at..at + 110]))
  }

  function WithFields(b: Bytes, at: nat, fields: Option<Header>): (r: Option<Record>)
    ensures r.Some? ==> r.value.next > at
  {
    if fields.None? || at + 110 + fields.value[11] > |b| then None
    else Some(RecordNamed(at, fields.value, b[at + 110..at + 110 + fields.value[11]]))
  }

  function RecordNamed(at: nat, fields: Header, name: Bytes): (r: Record)
    ensures r.next > at
  {
    var data := Align4(at + 110 + fields[11]);
    Record(Entry(Trimmed(name), fields, data), Align4(data + fields[6]))
  }

  /** What was read, and where the reading ended: at the end, or past it if data was cut off. */
  datatype Parsed = Failed | Parsed(entries: seq<Entry>, end: nat)

  function Before(r: Record, rest: Parsed): Parsed {
    if rest.Failed? || r.entry.name == TRAILER then rest else Parsed([r.entry] + rest.entries, rest.end)
  }

  function Parse(decode: Bytes -> Option<Header>, b: Bytes, at: nat): Parsed
    decreases if at < |b| then |b| - at else 0
  {
    if at >= |b| then Parsed([], at)
    else if b[at] == 0 then Parse(decode, b, at + 1)
    else match RecordAt(decode, b, at)
      case None => Failed
      case Some(r) => Before(r, Parse(decode, b, r.next))
  }

  function ParseArchive(b: Bytes): Parsed { Parse(HeaderOf, b, 0) }

  // ---- as loops -------------------------------------------------------------------------------------------

  /** Zeros up to the next multiple of four. */
  method Pad(out: Bytes) returns (r: Bytes)
    ensures r == Padded(out)
  {
    r := out;
    while |r| % 4 != 0
      invariant |out| <= |r| <= Align4(|out|) && r == out + Zeros(|r| - |out|)
      decreases Align4(|out|) - |r|
    {
      r := r + [0];
    }
  }

  method AddRecord(out: Bytes, raw: Raw) returns (r: Bytes)
    requires |out| % 4 == 0
    ensures r == out + RecordBytes(raw) && |r| % 4 == 0
  {
    r := Pad(out + HeaderBytes(raw));
    PadAfter(out, HeaderBytes(raw));
    ghost var named := r;
    r := Pad(r + raw.data);
    PadAfter(named, raw.data);
    assert out + Padded(HeaderBytes(raw)) + Padded(raw.data) == out + (Padded(HeaderBytes(raw)) + Padded(raw.data));
  }

  lemma {:induction false} PadAfter(a: Bytes, b: Bytes)
    requires |a| % 4 == 0
    ensures Padded(a + b) == a + Padded(b)
  {
    assert Align4(|a + b|) == |a| + Align4(|b|);
  }

  method CpioOverlay(items: seq<Item>) returns (out: Bytes)
    ensures out == Overlay(items)
  {
    ghost var raws := Raws(items);
    ghost var parts := Parts(raws);
    out := [];
    for n := 0 to |items|
      invariant out == Flat(parts, n) && |out| % 4 == 0
    {
      var raw := Raw(n + 1, items[n].name, ModeOf(items[n]), DataOf(items[n]));
      assert raws[n] == raw;
      out := AddRecord(out, raw);
    }
    out := AddRecord(out, Raw(0, TRAILER, 0, []));
  }

  /** Some entries, then the rest of an archive. */
  function After(entries: seq<Entry>, rest: Parsed): Parsed {
    if rest.Failed? then Failed else Parsed(entries + rest.entries, rest.end)
  }

  lemma {:induction false} AfterBefore(entries: seq<Entry>, r: Record, rest: Parsed)
    ensures After(entries, Before(r, rest)) == After(if r.entry.name == TRAILER then entries else entries + [r.entry],
      rest)
  {
    if rest.Parsed? { assert entries + ([r.entry] + rest.entries) == entries + [r.entry] + rest.entries; }
  }

  method ReadEntries(b: Bytes) returns (r: Option<seq<Entry>>)
    ensures var p := ParseArchive(b); r == if p.Failed? then None else Some(p.entries)
  {
    var at: nat := 0;
    var entries: seq<Entry> := [];
    ghost var all := Parse(HeaderOf, b, 0);
    assert all.Parsed? ==> [] + all.entries == all.entries;
    while true
      invariant all == After(entries, Parse(HeaderOf, b, at))
      decreases if at < |b| then |b| - at else 0
    {
      while at < |b| && b[at] == 0
        invariant all == After(entries, Parse(HeaderOf, b, at))
        decreases if at < |b| then |b| - at else 0
      {
        at := at + 1;
      }
      if at >= |b| {
        assert entries + [] == entries;
        return Some(entries);
      }
      var record := RecordAt(HeaderOf, b, at);
      if record.None? { return None; }
      AfterBefore(entries, record.value, Parse(HeaderOf, b, record.value.next));
      if record.value.entry.name != TRAILER { entries := entries + [record.value.entry]; }
      at := record.value.next;
    }
  }
}

module CpioProofs {
  import opened ByteStrings
  import opened Cpio

  // ---- numbers --------------------------------------------------------------------------------------------

  /** One digit more. */
  lemma {:induction false} NextDigit(v: nat, k: nat)
    requires k < 8
    ensures v / Above(k + 1) == 16 * (v / Above(k)) + v / Above(k + 1) % 16
  {
    if k == 0 {} else if k == 1 {} else if k == 2 {} else if k == 3 {} else if k == 4 {} else if k == 5 {}
      else if k == 6 {} else {}
  }

  /** The eight digits of a number. */
  predicate IsHex(t: Bytes, v: nat) {
    |t| == 8 && forall i :: 0 <= i < 8 ==> IsDigit(t, v, i)
  }

  predicate IsDigit(t: Bytes, v: nat, i: nat)
    requires i < |t|
  {
    t[i] == HexDigit(v, i)
  }

  /** Digits written are read back, as far as they go. */
  lemma {:induction false} DigitsBack(t: Bytes, v: nat, k: nat)
    requires IsHex(t, v) && v < LIMIT && k <= 8
    ensures Digits(t[..k]) == Some(v / Above(k))
    decreases k
  {
    if k > 0 {
      DigitsBack(t, v, k - 1);
      NextDigit(v, k - 1);
      assert IsDigit(t, v, k - 1);
      DigitBack(v / Above(k) % 16);
      assert t[..k][..k - 1] == t[..k - 1];
      DigitsSnoc(t[..k], v / Above(k - 1), v / Above(k) % 16);
    }
  }

  lemma {:induction false} FieldBack(t: Bytes, v: nat)
    requires IsHex(t, v) && v < LIMIT
    ensures Field(t) == Some(v)
  {
    DigitsBack(t, v, 8);
    assert t[..8] == t;
    assert IsDigit(t, v, 0);
    DigitBack(v / Above(1) % 16);
  }

  predicate IsHexAt(hex: Bytes, v: nat, n: nat)
    requires |hex| >= 8 * n + 8
  {
    IsHex(hex[8 * n..8 * n + 8], v)
  }

  lemma {:induction false} HexPart(fields: seq<nat>, n: nat)
    requires |fields| == 13 && n < 12
    ensures IsHexAt(HexAll(fields), fields[n], n)
  {
    var hex := HexAll(fields);
    var t := hex[8 * n..8 * n + 8];
    forall i | 0 <= i < 8 ensures IsDigit(t, fields[n], i) {
      assert t[i] == hex[8 * n + i];
      assert (8 * n + i) / 8 == n && (8 * n + i) % 8 == i;
    }
  }

  lemma {:induction false} EightOff(hex: Bytes, n: nat, t: Bytes)
    requires |hex| >= 96 && n < 12 && t == hex[8 * n..96]
    ensures t[..8] == hex[8 * n..8 * n + 8] && t[8..] == hex[8 * (n + 1)..96]
  {
  }

  lemma {:induction false} FieldsBack(fields: seq<nat>, hex: Bytes, t: Bytes, n: nat)
    requires |fields| == 13 && n <= 12 && |hex| == 104 && t == hex[8 * n..96]
    requires forall i :: 0 <= i < 12 ==> fields[i] < LIMIT && IsHexAt(hex, fields[i], i)
    ensures Fields(t) == Some(fields[n..12])
    decreases 12 - n
  {
    if n < 12 {
      EightOff(hex, n, t);
      FieldsBack(fields, hex, t[8..], n + 1);
      assert IsHexAt(hex, fields[n], n);
      FieldBack(t[..8], fields[n]);
      FieldsCons(t, fields[n], fields[n + 1..12]);
      assert [fields[n]] + fields[n + 1..12] == fields[n..12];
    }
  }

  lemma {:induction false} FieldsCons(t: Bytes, v: nat, vs: seq<nat>)
    requires |t| >= 8 && Field(t[..8]) == Some(v) && Fields(t[8..]) == Some(vs)
    ensures Fields(t) == Some([v] + vs)
  {
  }

  // ---- one record -----------------------------------------------------------------------------------------

  predicate Fits(r: Raw) {
    r.ino < LIMIT && r.mode < LIMIT && |r.name| + 1 < LIMIT && |r.data| < LIMIT
  }

  /** What a record at `at` is read as. */
  function EntryOf(r: Raw, at: nat): Entry { Entry(Trimmed(r.name), FieldsOf(r)[..12], at + Start(r)) }

  /** A record somewhere in an archive is read as what it was written from. */
  lemma {:induction false} RecordBack(b: Bytes, at: nat, r: Raw)
    requires Fits(r) && at % 4 == 0 && LiesAt(b, at, RecordBytes(r))
    ensures RecordAt(HeaderOf, b, at) == Some(Record(EntryOf(r, at), at + Length(r))) && at < |b| && b[at] != 0
  {
    RecordStarts(b, at, r, RecordBytes(r));
    HeaderBack(FieldsOf(r), b[at..at + 110]);
    TrimNul(r.name);
    AlignShift(111 + |r.name|, at);
    AlignShift(|r.data|, at + Start(r));
    RecordFrom(HeaderOf, b, at, FieldsOf(r)[..12], r.name + [0], at + Start(r), at + Length(r));
  }

  lemma {:induction false} HeaderBack(fields: seq<nat>, h: Bytes)
    requires |fields| == 13 && (forall i :: 0 <= i < 12 ==> fields[i] < LIMIT) && |h| == 110 && h[..6] == MAGIC
      && h[6..] == HexAll(fields)
    ensures HeaderOf(h) == Some(fields[..12])
  {
    assert h[6..102] == HexAll(fields)[8 * 0..96];
    forall i | 0 <= i < 12 ensures IsHexAt(HexAll(fields), fields[i], i) { HexPart(fields, i); }
    FieldsBack(fields, HexAll(fields), h[6..102], 0);
    assert fields[0..12] == fields[..12];
  }

  lemma {:induction false} RecordFrom(decode: Bytes -> Option<Header>, b: Bytes, at: nat, fields: Header, name: Bytes,
      data: nat, next: nat)
    requires at % 4 == 0 && at + 110 <= |b| && decode(b[at..at + 110]) == Some(fields)
    requires at + 110 + fields[11] <= |b| && b[at + 110..at + 110 + fields[11]] == name
    requires Align4(at + 110 + fields[11]) == data && Align4(data + fields[6]) == next
    ensures RecordAt(decode, b, at) == Some(Record(Entry(Trimmed(name), fields, data), next))
  {
  }

  lemma {:induction false} RecordStarts(b: Bytes, at: nat, r: Raw, c: Bytes)
    requires LiesAt(b, at, c) && c == RecordBytes(r)
    ensures at + 111 + |r.name| <= |b| && b[at] != 0
    ensures b[at..at + 110][..6] == MAGIC && b[at..at + 110][6..] == HexAll(FieldsOf(r))
      && b[at + 110..at + 111 + |r.name|] == r.name + [0]
  {
    HeaderPieces(r);
    var h := HeaderBytes(r);
    assert c[..|h|] == h;
    assert c[0..6] == h[..6] && c[6..110] == h[6..110] && c[110..111 + |r.name|] == h[110..];
    PartIn(b, at, c, 0, 6);
    PartIn(b, at, c, 6, 110);
    PartIn(b, at, c, 110, 111 + |r.name|);
    assert b[at..at + 110][..6] == b[at..at + 6] && b[at..at + 110][6..] == b[at + 6..at + 110];
    ByteIn(b, at, c, 0);
  }

  lemma {:induction false} HeaderPieces(r: Raw)
    ensures var h := HeaderBytes(r); h[..6] == MAGIC && h[6..110] == HexAll(FieldsOf(r)) && h[110..] == r.name + [0]
  {
    var front := MAGIC + HexAll(FieldsOf(r));
    assert HeaderBytes(r) == front + (r.name + [0]);
    assert |front| == 110;
  }

  lemma {:induction false} TrimNul(name: Bytes)
    ensures Trimmed(name + [0]) == Trimmed(name)
  {
    assert (name + [0])[..|name|] == name;
  }

  // ---- a whole archive ------------------------------------------------------------------------------------

  /** Where each record is. */
  function Places(parts: seq<Bytes>): (r: seq<nat>)
    ensures |r| == |parts| + 1 && forall k :: 0 <= k <= |parts| ==> r[k] == |Flat(parts, k)|
  {
    seq(|parts| + 1, k requires 0 <= k <= |parts| => |Flat(parts, k)|)
  }

  function EntriesOf(raws: seq<Raw>, places: seq<nat>): (r: seq<Entry>)
    requires |places| > |raws|
    ensures |r| == |raws| && forall k :: 0 <= k < |raws| ==> r[k] == EntryOf(raws[k], places[k])
  {
    seq(|raws|, k requires 0 <= k < |raws| => EntryOf(raws[k], places[k]))
  }

  /** Entries from the `k`th on, but for those named like the end of an archive. */
  function WithoutTrailers(es: seq<Entry>, k: nat): seq<Entry>
    requires k <= |es|
    decreases |es| - k
  {
    if k == |es| then [] else (if es[k].name == TRAILER then [] else [es[k]]) + WithoutTrailers(es, k + 1)
  }

  predicate ReadsAt(decode: Bytes -> Option<Header>, b: Bytes, places: seq<nat>, es: seq<Entry>, k: nat)
    requires k < |es| < |places|
  {
    places[k] < |b| && b[places[k]] != 0 && RecordAt(decode, b, places[k]) == Some(Record(es[k], places[k + 1]))
  }

  /** Records read one after another are an archive read. */
  lemma {:induction false} AllRead(decode: Bytes -> Option<Header>, b: Bytes, places: seq<nat>, es: seq<Entry>, k: nat)
    requires |places| == |es| + 1 && places[|es|] == |b| && k <= |es|
      && forall i :: 0 <= i < |es| ==> ReadsAt(decode, b, places, es, i)
    ensures Parse(decode, b, places[k]) == Parsed(WithoutTrailers(es, k), |b|)
    decreases |es| - k
  {
    if k < |es| {
      assert ReadsAt(decode, b, places, es, k);
      AllRead(decode, b, places, es, k + 1);
      assert [] + WithoutTrailers(es, k + 1) == WithoutTrailers(es, k + 1);
    }
  }

  lemma {:induction false} FlatAligned(parts: seq<Bytes>, n: nat)
    requires n <= |parts| && forall i :: 0 <= i < |parts| ==> |parts[i]| % 4 == 0
    ensures |Flat(parts, n)| % 4 == 0
  {
    if n > 0 { FlatAligned(parts, n - 1); }
  }

  lemma {:induction false} PlaceReads(raw: Raw, b: Bytes, places: seq<nat>, es: seq<Entry>, k: nat)
    requires k < |es| < |places| && Fits(raw) && places[k] % 4 == 0 && LiesAt(b, places[k], RecordBytes(raw))
    requires es[k] == EntryOf(raw, places[k]) && places[k + 1] == places[k] + Length(raw)
    ensures ReadsAt(HeaderOf, b, places, es, k)
  {
    RecordBack(b, places[k], raw);
  }

  lemma {:induction false} NextPlace(parts: seq<Bytes>, k: nat)
    requires k < |parts|
    ensures Places(parts)[k + 1] == Places(parts)[k] + |parts[k]|
  {
  }

  /** An archive of any records. */
  lemma {:induction false} RawsBack(raws: seq<Raw>, parts: seq<Bytes>, b: Bytes)
    requires (forall i :: 0 <= i < |raws| ==> Fits(raws[i])) && parts == Parts(raws) && b == Flat(parts, |parts|)
    ensures ParseArchive(b) == Parsed(WithoutTrailers(EntriesOf(raws, Places(parts)), 0), |b|)
  {
    forall i | 0 <= i < |raws| ensures ReadsAt(HeaderOf, b, Places(parts), EntriesOf(raws, Places(parts)), i) {
      FlatAligned(parts, i);
      FlatAt(parts, i, |parts|);
      NextPlace(parts, i);
      PlaceReads(raws[i], b, Places(parts), EntriesOf(raws, Places(parts)), i);
    }
    AllRead(HeaderOf, b, Places(parts), EntriesOf(raws, Places(parts)), 0);
  }

  /** Every item and the trailer, where they are. */
  function AllEntries(items: seq<Item>): (r: seq<Entry>)
    ensures |r| == |items| + 1
  {
    EntriesOf(Raws(items), Places(Parts(Raws(items))))
  }

  predicate ItemFits(i: Item) { |i.name| + 1 < LIMIT && |DataOf(i)| < LIMIT }

  lemma {:induction false} OverlayBack(items: seq<Item>)
    requires |items| < LIMIT - 1 && forall i :: 0 <= i < |items| ==> ItemFits(items[i])
    ensures ParseArchive(Overlay(items)) == Parsed(WithoutTrailers(AllEntries(items), 0), |Overlay(items)|)
  {
    forall i | 0 <= i < |Raws(items)| ensures Fits(Raws(items)[i]) {
      if i < |items| { assert ItemFits(items[i]); }
    }
    RawsBack(Raws(items), Parts(Raws(items)), Overlay(items));
  }

  /** The data of a record is where its entry says. */
  lemma {:induction false} DataAt(b: Bytes, at: nat, r: Raw)
    requires LiesAt(b, at, RecordBytes(r))
    ensures var offset := EntryOf(r, at).offset; offset + |r.data| <= |b| && b[offset..offset + |r.data|] == r.data
  {
    assert RecordBytes(r)[Start(r)..Start(r) + |r.data|] == r.data;
    PartIn(b, at, RecordBytes(r), Start(r), Start(r) + |r.data|);
  }

  predicate PlainName(name: Bytes) { (name == [] || name[|name| - 1] != 0) && name != TRAILER }

  /** What an item should be read as. */
  predicate ReadAs(item: Item, ino: nat, b: Bytes, e: Entry) {
    var data := DataOf(item);
    && e.name == item.name && |e.fields| == 12 && e.fields[0] == ino && e.fields[1] == ModeOf(item)
    && e.fields[6] == |data|
    && e.offset + |data| <= |b| && b[e.offset..e.offset + |data|] == data
  }

  lemma {:induction false} RawReadAs(item: Item, r: Raw, b: Bytes, at: nat)
    requires PlainName(item.name) && r.name == item.name && r.mode == ModeOf(item) && r.data == DataOf(item)
      && LiesAt(b, at, RecordBytes(r))
    ensures ReadAs(item, r.ino, b, EntryOf(r, at))
  {
    DataAt(b, at, r);
  }

  lemma {:induction false} ItemReadAs(items: seq<Item>, raws: seq<Raw>, parts: seq<Bytes>, b: Bytes, k: nat)
    requires k < |items| && PlainName(items[k].name) && raws == Raws(items) && parts == Parts(raws)
      && b == Flat(parts, |parts|)
    ensures ReadAs(items[k], k + 1, b, EntriesOf(raws, Places(parts))[k])
  {
    FlatAt(parts, k, |raws|);
    RawReadAs(items[k], raws[k], b, |Flat(parts, k)|);
  }

  /** With a trailer at the end alone, all entries but the last are kept. */
  lemma {:induction false} KeptAll(es: seq<Entry>, k: nat)
    requires k < |es| && es[|es| - 1].name == TRAILER && forall i :: 0 <= i < |es| - 1 ==> es[i].name != TRAILER
    ensures WithoutTrailers(es, k) == es[k..|es| - 1]
    decreases |es| - k
  {
    if k < |es| - 1 {
      KeptAll(es, k + 1);
      assert [es[k]] + es[k + 1..|es| - 1] == es[k..|es| - 1];
    } else {
      assert WithoutTrailers(es, k + 1) == [];
    }
  }

  lemma {:induction false} TrailerLast(items: seq<Item>)
    ensures AllEntries(items)[|items|].name == TRAILER
    ensures forall k :: 0 <= k < |items| ==> AllEntries(items)[k].name == Trimmed(items[k].name)
  {
    assert TRAILER[|TRAILER| - 1] != 0;
  }

  predicate AllReadAs(items: seq<Item>, b: Bytes, es: seq<Entry>) {
    |es| == |items| && forall k :: 0 <= k < |items| ==> ReadAs(items[k], k + 1, b, es[k])
  }

  lemma {:induction false} KeptReadAs(items: seq<Item>, b: Bytes, es: seq<Entry>)
    requires |es| == |items| + 1 && es[|items|].name == TRAILER
      && forall i :: 0 <= i < |items| ==> PlainName(items[i].name)
    requires forall k :: 0 <= k < |items| ==> ReadAs(items[k], k + 1, b, es[k])
    ensures AllReadAs(items, b, WithoutTrailers(es, 0))
  {
    forall k | 0 <= k < |items| ensures es[k].name != TRAILER {
      assert PlainName(items[k].name) && ReadAs(items[k], k + 1, b, es[k]);
    }
    KeptAll(es, 0);
  }

  /** Every item is read back, in order: its name, mode and size, its data where the entry says. */
  lemma {:induction false} RoundTrip(items: seq<Item>)
    requires |items| < LIMIT - 1 && forall i :: 0 <= i < |items| ==> ItemFits(items[i])
    requires forall i :: 0 <= i < |items| ==> PlainName(items[i].name)
    ensures var p := ParseArchive(Overlay(items));
      p.Parsed? && p.end == |Overlay(items)| && AllReadAs(items, Overlay(items), p.entries)
  {
    OverlayBack(items);
    ItemsReadAs(items);
  }

  lemma {:induction false} ItemsReadAs(items: seq<Item>)
    requires forall i :: 0 <= i < |items| ==> PlainName(items[i].name)
    ensures AllReadAs(items, Overlay(items), WithoutTrailers(AllEntries(items), 0))
  {
    TrailerLast(items);
    var b, es := Overlay(items), AllEntries(items);
    forall k | 0 <= k < |items| ensures ReadAs(items[k], k + 1, b, es[k]) {
      ItemReadAs(items, Raws(items), Parts(Raws(items)), b, k);
    }
    KeptReadAs(items, b, es);
  }

  lemma {:induction false} TrimmedIsSame(name: Bytes)
    ensures |Trimmed(name)| <= |name| && (Trimmed(name) == name <==> name == [] || name[|name| - 1] != 0)
    decreases |name|
  {
    if name != [] && name[|name| - 1] == 0 { TrimmedIsSame(name[..|name| - 1]); }
  }

  /** A trailer among the entries is not kept. */
  lemma {:induction false} KeptFewer(es: seq<Entry>, k: nat, i: nat)
    requires k <= |es| && (k <= i < |es| ==> es[i].name == TRAILER)
    ensures |WithoutTrailers(es, k)| <= |es| - k - if k <= i < |es| then 1 else 0
    decreases |es| - k
  {
    if k < |es| { KeptFewer(es, k + 1, i); }
  }

  lemma {:induction false} KeptFewerStill(es: seq<Entry>, k: nat, i: nat)
    requires k <= i < |es| - 1 && es[i].name == TRAILER && es[|es| - 1].name == TRAILER
    ensures |WithoutTrailers(es, k)| < |es| - k - 1
    decreases |es| - k
  {
    if k < i { KeptFewerStill(es, k + 1, i); } else { KeptFewer(es, k + 1, |es| - 1); }
  }

  /** Names kept as they are tell that all were plain. */
  lemma {:induction false} NamesKept(items: seq<Item>, es: seq<Entry>)
    requires |es| == |items| + 1 && es[|items|].name == TRAILER
      && forall k :: 0 <= k < |items| ==> es[k].name == Trimmed(items[k].name)
    requires var kept := WithoutTrailers(es, 0);
      |kept| == |items| && forall k :: 0 <= k < |items| ==> kept[k].name == items[k].name
    ensures forall k :: 0 <= k < |items| ==> PlainName(items[k].name)
  {
    var kept := WithoutTrailers(es, 0);
    forall k | 0 <= k < |items| ensures es[k].name != TRAILER {
      if es[k].name == TRAILER { KeptFewerStill(es, 0, k); }
    }
    KeptAll(es, 0);
    forall k | 0 <= k < |items| ensures PlainName(items[k].name) {
      assert kept[k] == es[k] && kept[k].name == items[k].name;
      TrimmedIsSame(items[k].name);
    }
  }

  predicate SameNames(items: seq<Item>, es: seq<Entry>) {
    |es| == |items| && forall k :: 0 <= k < |items| ==> es[k].name == items[k].name
  }

  /** Exactly the plain names come back as they are: none ends in NUL, none is the trailer's. */
  lemma {:induction false} ExactlyPlainNames(items: seq<Item>)
    requires |items| < LIMIT - 1 && forall i :: 0 <= i < |items| ==> ItemFits(items[i])
    ensures var p := ParseArchive(Overlay(items));
      p.Parsed? && (SameNames(items, p.entries) <==> forall k :: 0 <= k < |items| ==> PlainName(items[k].name))
  {
    OverlayBack(items);
    var kept := WithoutTrailers(AllEntries(items), 0);
    if forall k :: 0 <= k < |items| ==> PlainName(items[k].name) {
      RoundTrip(items);
      forall k | 0 <= k < |items| ensures kept[k].name == items[k].name {
        assert ReadAs(items[k], k + 1, Overlay(items), kept[k]);
      }
    }
    if SameNames(items, kept) {
      TrailerLast(items);
      NamesKept(items, AllEntries(items));
    }
  }

  // ---- archives one after another -------------------------------------------------------------------------

  function Shifted(es: seq<Entry>, shift: nat): (r: seq<Entry>)
    ensures |r| == |es|
  {
    seq(|es|, i requires 0 <= i < |es| => es[i].(offset := es[i].offset + shift))
  }

  function ShiftedParse(p: Parsed, shift: nat): Parsed {
    if p.Failed? then Failed else Parsed(Shifted(p.entries, shift), p.end + shift)
  }

  function ShiftedRecord(r: Option<Record>, shift: nat): Option<Record> {
    if r.None? then None else Some(Record(r.value.entry.(offset := r.value.entry.offset + shift), r.value.next + shift))
  }

  lemma {:induction false} AlignShift(x: nat, shift: nat)
    requires shift % 4 == 0
    ensures Align4(x + shift) == Align4(x) + shift
  {
  }

  /** `all` ends in `b`, which starts at `f`. */
  predicate EndsIn(all: Bytes, f: nat, b: Bytes) { |all| == f + |b| && all[f..] == b }

  lemma {:induction false} SliceBehind(all: Bytes, f: nat, b: Bytes, i: nat, j: nat)
    requires EndsIn(all, f, b) && i <= j <= |b|
    ensures all[f + i..f + j] == b[i..j]
  {
    forall k | 0 <= k < j - i ensures all[f + i..f + j][k] == b[i..j][k] {
      assert all[f + i..f + j][k] == all[f + i + k] == all[f..][i + k];
    }
  }

  lemma {:induction false} ByteBehind(all: Bytes, f: nat, b: Bytes, at: nat)
    requires EndsIn(all, f, b) && at < |b|
    ensures all[f + at] == b[at]
  {
    assert all[f..][at] == all[f + at];
  }

  lemma {:induction false} RecordShift(decode: Bytes -> Option<Header>, all: Bytes, f: nat, b: Bytes, at: nat)
    requires f % 4 == 0 && EndsIn(all, f, b)
    ensures RecordAt(decode, all, f + at) == ShiftedRecord(RecordAt(decode, b, at), f)
  {
    if at % 4 == 0 && at + 110 <= |b| {
      SliceBehind(all, f, b, at, at + 110);
      var h := b[at..at + 110];
      RecordFields(decode, b, at, h);
      RecordFields(decode, all, f + at, h);
      FieldsShift(all, f, b, at, decode(h));
    } else {
      NoRecord(decode, b, at);
      NoRecord(decode, all, f + at);
    }
  }

  lemma {:induction false} RecordFields(decode: Bytes -> Option<Header>, b: Bytes, at: nat, h: Bytes)
    requires at % 4 == 0 && at + 110 <= |b| && b[at..at + 110] == h
    ensures RecordAt(decode, b, at) == WithFields(b, at, decode(h))
  {
  }

  lemma {:induction false} NoRecord(decode: Bytes -> Option<Header>, b: Bytes, at: nat)
    requires at % 4 != 0 || at + 110 > |b|
    ensures RecordAt(decode, b, at) == None
  {
  }

  lemma {:induction false} FieldsShift(all: Bytes, f: nat, b: Bytes, at: nat, fields: Option<Header>)
    requires f % 4 == 0 && EndsIn(all, f, b)
    ensures WithFields(all, f + at, fields) == ShiftedRecord(WithFields(b, at, fields), f)
  {
    if fields.Some? && at + 110 + fields.value[11] <= |b| {
      var end := at + 110 + fields.value[11];
      SliceBehind(all, f, b, at + 110, end);
      AlignShift(end, f);
      AlignShift(Align4(end) + fields.value[6], f);
    }
  }

  lemma {:induction false} BeforeShift(r: Record, rest: Parsed, shift: nat)
    ensures ShiftedParse(Before(r, rest), shift) ==
      Before(ShiftedRecord(Some(r), shift).value, ShiftedParse(rest, shift))
  {
    if rest.Parsed? {
      assert Shifted([r.entry] + rest.entries, shift) == Shifted([r.entry], shift) + Shifted(rest.entries, shift);
    }
  }

  lemma {:induction false} ParseRecord(decode: Bytes -> Option<Header>, b: Bytes, at: nat, r: Option<Record>)
    requires at < |b| && b[at] != 0 && RecordAt(decode, b, at) == r
    ensures Parse(decode, b, at) == if r.None? then Failed else Before(r.value, Parse(decode, b, r.value.next))
  {
  }

  /** An archive behind something: the same entries, further back. */
  lemma {:induction false} ParseShift(decode: Bytes -> Option<Header>, all: Bytes, f: nat, b: Bytes, at: nat)
    requires f % 4 == 0 && EndsIn(all, f, b)
    ensures Parse(decode, all, f + at) == ShiftedParse(Parse(decode, b, at), f)
    decreases if at < |b| then |b| - at else 0
  {
    if at >= |b| {
      assert Shifted([], f) == [];
    } else {
      ByteBehind(all, f, b, at);
      if b[at] == 0 {
        ParseShift(decode, all, f, b, at + 1);
      } else {
        var r := RecordAt(decode, b, at);
        if r.Some? { ParseShift(decode, all, f, b, r.value.next); }
        RecordThen(decode, all, f, b, at, r);
      }
    }
  }

  /** A record and what follows it, further back. */
  lemma {:induction false} RecordThen(decode: Bytes -> Option<Header>, all: Bytes, f: nat, b: Bytes, at: nat,
      r: Option<Record>)
    requires f % 4 == 0 && EndsIn(all, f, b) && at < |b| && b[at] != 0 && RecordAt(decode, b, at) == r
    requires r.Some? ==> Parse(decode, all, f + r.value.next) == ShiftedParse(Parse(decode, b, r.value.next), f)
    ensures Parse(decode, all, f + at) == ShiftedParse(Parse(decode, b, at), f)
  {
    ByteBehind(all, f, b, at);
    RecordShift(decode, all, f, b, at);
    ParseRecord(decode, b, at, r);
    ParseRecord(decode, all, f + at, ShiftedRecord(r, f));
    if r.Some? { BeforeShift(r.value, Parse(decode, b, r.value.next), f); }
  }

  lemma {:induction false} RecordPrefix(decode: Bytes -> Option<Header>, b: Bytes, more: Bytes, at: nat)
    requires RecordAt(decode, b, at).Some?
    ensures RecordAt(decode, b + more, at) == RecordAt(decode, b, at)
  {
    var all := b + more;
    assert all[at..at + 110] == b[at..at + 110];
    var end := at + 110 + decode(b[at..at + 110]).value[11];
    assert all[at + 110..end] == b[at + 110..end];
  }

  lemma {:induction false} OnBefore(r: Record, p: Parsed, end: Parsed)
    requires p.Parsed?
    ensures Before(r, p).Parsed? && Before(r, After(p.entries, end)) == After(Before(r, p).entries, end)
  {
    if end.Parsed? { assert [r.entry] + (p.entries + end.entries) == [r.entry] + p.entries + end.entries; }
  }

  /** An archive that ends where it should, then more: its entries, then whatever follows gives. */
  lemma {:induction false} ParseOn(decode: Bytes -> Option<Header>, b: Bytes, more: Bytes, at: nat, all: Bytes,
      end: Parsed)
    requires Parse(decode, b, at).Parsed? && Parse(decode, b, at).end == |b| && all == b + more
      && end == Parse(decode, all, |b|)
    ensures Parse(decode, all, at) == After(Parse(decode, b, at).entries, end)
    decreases if at < |b| then |b| - at else 0
  {
    if at >= |b| {
      assert at == |b| && (end.Parsed? ==> [] + end.entries == end.entries);
    } else if b[at] == 0 {
      ParseOn(decode, b, more, at + 1, all, end);
    } else {
      var r := RecordAt(decode, b, at);
      ParseRecord(decode, b, at, r);
      RecordPrefix(decode, b, more, at);
      ParseRecord(decode, all, at, r);
      ParseOn(decode, b, more, r.value.next, all, end);
      OnBefore(r.value, Parse(decode, b, r.value.next), end);
    }
  }

  lemma {:induction false} ParseZeros(decode: Bytes -> Option<Header>, b: Bytes, at: nat, n: nat)
    requires at + n <= |b| && forall i :: at <= i < at + n ==> b[i] == 0
    ensures Parse(decode, b, at) == Parse(decode, b, at + n)
    decreases n
  {
    if n > 0 { ParseZeros(decode, b, at + 1, n - 1); }
  }

  /** Two archives, NULs between them up to a multiple of four: the entries of both, the second's further back. */
  lemma {:induction false} BackToBack(a: Bytes, pad: nat, b: Bytes)
    requires ParseArchive(a).Parsed? && ParseArchive(a).end == |a| && (|a| + pad) % 4 == 0
    ensures ParseArchive(a + Zeros(pad) + b) == After(ParseArchive(a).entries, ShiftedParse(ParseArchive(b), |a| + pad))
  {
    ZerosThen(HeaderOf, a, pad, b, a + Zeros(pad) + b);
    ParseOn(HeaderOf, a, Zeros(pad) + b, 0, a + Zeros(pad) + b, ShiftedParse(ParseArchive(b), |a| + pad));
  }

  lemma {:induction false} ZerosThen(decode: Bytes -> Option<Header>, a: Bytes, pad: nat, b: Bytes, all: Bytes)
    requires all == a + Zeros(pad) + b && (|a| + pad) % 4 == 0
    ensures all == a + (Zeros(pad) + b) && Parse(decode, all, |a|) == ShiftedParse(Parse(decode, b, 0), |a| + pad)
  {
    ParseZeros(decode, all, |a|, pad);
    ParseShift(decode, all, |a| + pad, b, 0);
  }

  // ---- any bytes --------------------------------------------------------------------------------------------

  /** Field `i` of a header's text. */
  function FieldText(t: Bytes, i: nat): (r: Bytes)
    requires 8 * i + 8 <= |t|
    ensures |r| == 8
  {
    t[8 * i..8 * i + 8]
  }

  ghost predicate IsFields(t: Bytes, fields: seq<nat>) {
    |t| == 8 * |fields| && forall i :: 0 <= i < |fields| ==> Field(FieldText(t, i)) == Some(fields[i])
  }

  lemma {:induction false} FieldsExactly(t: Bytes)
    requires |t| % 8 == 0
    ensures Fields(t).Some? ==> IsFields(t, Fields(t).value)
    ensures Fields(t).None? ==> exists i :: 0 <= i < |t| / 8 && Field(FieldText(t, i)).None?
    decreases |t|
  {
    if t != [] {
      var tail := t[8..];
      FieldsExactly(tail);
      assert FieldText(t, 0) == t[..8];
      forall i | 0 <= i < |tail| / 8 ensures FieldText(t, i + 1) == FieldText(tail, i) {}
      if Fields(t).None? && Field(t[..8]).Some? {
        var i :| 0 <= i < |tail| / 8 && Field(FieldText(tail, i)).None?;
        assert Field(FieldText(t, i + 1)).None?;
      } else if Fields(t).Some? {
        var rest, fields := Fields(tail).value, Fields(t).value;
        forall i | 0 <= i < |fields| ensures Field(FieldText(t, i)) == Some(fields[i]) {
          if i > 0 { assert FieldText(t, i - 1 + 1) == FieldText(tail, i - 1) && fields[i] == rest[i - 1]; }
        }
      }
    }
  }

  /** The header of a record: one of the two magic numbers, and twelve numbers of eight digits. */
  ghost predicate IsHeader(h: Bytes, fields: Header) {
    |h| == 110 && (h[..6] == [48, 55, 48, 55, 48, 49] || h[..6] == [48, 55, 48, 55, 48, 50])
      && IsFields(h[6..102], fields)
  }

  lemma {:induction false} HeaderExactly(h: Bytes, fields: Header)
    ensures HeaderOf(h) == Some(fields) <==> IsHeader(h, fields)
  {
    if |h| == 110 {
      var t := h[6..102];
      FieldsExactly(t);
      if IsFields(t, fields) && Fields(t).Some? { SameFields(t, Fields(t).value, fields); }
    }
  }

  lemma {:induction false} SameFields(t: Bytes, a: seq<nat>, b: seq<nat>)
    requires IsFields(t, a) && IsFields(t, b)
    ensures a == b
  {
    forall i | 0 <= i < |a| ensures a[i] == b[i] {
      assert Field(FieldText(t, i)) == Some(a[i]) && Field(FieldText(t, i)) == Some(b[i]);
    }
  }

  ghost predicate NextMultiple(r: nat, n: nat) { r % 4 == 0 && n <= r < n + 4 }

  /** The data at the next multiple of four after the name, the next record at the one after the data. */
  ghost predicate Placed(at: nat, r: Record) {
    && |r.entry.fields| == 12 && NextMultiple(r.entry.offset, at + 110 + r.entry.fields[11])
    && NextMultiple(r.next, r.entry.offset + r.entry.fields[6])
  }

  /** A record's name: what is there, without the NULs at its end. */
  ghost predicate NameThere(b: Bytes, at: nat, length: nat, name: Bytes)
    requires at + length <= |b|
  {
    && |name| <= length && (name != [] ==> name[|name| - 1] != 0)
    && (forall i :: 0 <= i < |name| ==> b[at + i] == name[i])
    && forall i :: at + |name| <= i < at + length ==> b[i] == 0
  }

  /** On any bytes, a record is read at a multiple of four where a header is, if its name ends in the archive. */
  lemma {:induction false} RecordExactly(b: Bytes, at: nat, fields: Header)
    ensures (RecordAt(HeaderOf, b, at).Some? && RecordAt(HeaderOf, b, at).value.entry.fields == fields) <==>
      at % 4 == 0 && at + 110 <= |b| && IsHeader(b[at..at + 110], fields) && at + 110 + fields[11] <= |b|
  {
    if at + 110 <= |b| {
      var h := b[at..at + 110];
      HeaderExactly(h, fields);
      assert at % 4 == 0 ==> RecordAt(HeaderOf, b, at) == WithFields(b, at, HeaderOf(h));
    }
  }

  /** What such a record is. */
  lemma {:induction false} RecordPlaced(decode: Bytes -> Option<Header>, b: Bytes, at: nat)
    requires RecordAt(decode, b, at).Some?
    ensures var r := RecordAt(decode, b, at).value;
      && Placed(at, r) && at + 110 + r.entry.fields[11] <= |b|
      && NameThere(b, at + 110, r.entry.fields[11], r.entry.name)
  {
    var fields := decode(b[at..at + 110]).value;
    var name := b[at + 110..at + 110 + fields[11]];
    assert RecordAt(decode, b, at).value == RecordNamed(at, fields, name);
    TrimmedExactly(name);
    NameIsThere(b, at + 110, name, Trimmed(name));
  }

  lemma {:induction false} NameIsThere(b: Bytes, at: nat, text: Bytes, name: Bytes)
    requires at + |text| <= |b| && text == b[at..at + |text|] && name <= text
    requires name != [] ==> name[|name| - 1] != 0
    requires forall i :: |name| <= i < |text| ==> text[i] == 0
    ensures NameThere(b, at, |text|, name)
  {
    forall i | 0 <= i < |text| ensures b[at + i] == text[i] {}
    forall i | at + |name| <= i < at + |text| ensures b[i] == 0 { assert text[i - at] == 0; }
  }

  lemma {:induction false} TrimmedExactly(name: Bytes)
    ensures Trimmed(name) <= name && (Trimmed(name) != [] ==> Trimmed(name)[|Trimmed(name)| - 1] != 0)
    ensures forall i :: |Trimmed(name)| <= i < |name| ==> name[i] == 0
    decreases |name|
  {
    if name != [] && name[|name| - 1] == 0 { TrimmedExactly(name[..|name| - 1]); }
  }
}
