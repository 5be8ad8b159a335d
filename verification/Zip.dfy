/**
 Stored ZIP archives, written and read (host/zip.js; sections 4.3.7, 4.3.12 and 4.3.16 of the PKWARE
 APPNOTE). Names are bytes, times are seconds.
 */
module Zip {
  import opened ByteStrings
  import opened Crc

  const SIG_LOCAL: nat := 0x04034b50
  const SIG_CENTRAL: nat := 0x02014b50
  const SIG_END: nat := 0x06054b50
  const MAX16: nat := 0xffff
  const MAX32: nat := 0xffff_ffff
  const SLASH: Byte := 47
  const DOT: Byte := 46

  datatype Kind = FileKind | DirKind | LinkKind

  /** S_IFMT, as the top four bits of a 16-bit mode. */
  function TypeBits(k: Kind): nat {
    match k
    case FileKind => 8
    case DirKind => 4
    case LinkKind => 10
  }

  /** What is written. `dosTime` and `dosDate` are the mtime as DOS has it. */
  datatype Item = Item(path: Bytes, kind: Kind, data: Bytes, mode: nat, mtime: nat, crc: Option<nat>, dosTime: nat,
    dosDate: nat)

  /** What is read. */
  datatype Entry = Entry(path: Bytes, kind: Kind, data: Bytes, mode: nat, mtime: nat, crc: nat)

  datatype Error = TooMany | TooLarge | NotZip | Zip64 | Corrupt | Encrypted | Compressed | UnsafePath

  datatype Result<+T> = Ok(value: T) | Err(error: Error)

  /** What a name in an archive comes to, a path within it or a refusal. */
  datatype Cleaned = Unsafe | Clean(path: Bytes)

  /**
   What the layout leaves to others: the checksum (Crc.dfy), what a DOS date and time stand for, and which names
   are safe (CleanPath).
   */
  datatype Env = Env(crc: Bytes -> nat, dos: (nat, nat) -> nat, clean: Bytes -> Cleaned)

  // ---- little-endian numbers ----------------------------------------------------------------------------

  /** Byte `i` of a number, as setUint16 and setUint32 store it. */
  function Le(v: nat, i: nat): Byte {
    if i == 0 then v % 256 else if i == 1 then v / 256 % 256 else if i == 2 then v / 65536 % 256 else v / 16777216 % 256
  }

  function U16(b: Bytes, at: nat): nat
    requires at + 2 <= |b|
  {
    (b[at] as int) + 256 * b[at + 1] as int
  }

  function U32(b: Bytes, at: nat): nat
    requires at + 4 <= |b|
  {
    (b[at] as int) + 256 * (b[at + 1] as int) + 65536 * (b[at + 2] as int) + 16777216 * (b[at + 3] as int)
  }

  // ---- writing ------------------------------------------------------------------------------------------

  function NameOf(e: Item): Bytes { if e.kind.DirKind? then e.path + [SLASH] else e.path }

  function DataOf(e: Item): Bytes { if e.kind.DirKind? then [] else e.data }

  function CrcOf(env: Env, e: Item): nat {
    if e.kind.DirKind? then 0 else if e.crc.Some? then e.crc.value else env.crc(e.data)
  }

  function Mode16(e: Item): nat { TypeBits(e.kind) * 4096 + e.mode % 4096 }

  function External(e: Item): nat { Mode16(e) * 65536 + (if e.kind.DirKind? then 16 else 0) }

  /** The "UT" extra field: the exact mtime. */
  function ExtraByte(e: Item, i: nat): Byte {
    if i < 2 then Le(0x5455, i) else if i < 4 then Le(5, i - 2) else if i == 4 then 1 else Le(e.mtime, i - 5)
  }

  function Extra(e: Item): Bytes { seq(9, i requires 0 <= i < 9 => ExtraByte(e, i)) }

  function LocalByte(env: Env, e: Item, i: nat): Byte {
    if i < 4 then Le(SIG_LOCAL, i)
    else if i < 6 then Le(20, i - 4)
    else if i < 8 then Le(0x0800, i - 6)
    else if i < 10 then 0
    else if i < 12 then Le(e.dosTime, i - 10)
    else if i < 14 then Le(e.dosDate, i - 12)
    else if i < 18 then Le(CrcOf(env, e), i - 14)
    else if i < 22 then Le(|DataOf(e)|, i - 18)
    else if i < 26 then Le(|DataOf(e)|, i - 22)
    else if i < 28 then Le(|NameOf(e)|, i - 26)
    else Le(9, i - 28)
  }

  function Local(env: Env, e: Item): (r: Bytes)
    ensures |r| == 39 + |NameOf(e)|
  {
    seq(30, i requires 0 <= i < 30 => LocalByte(env, e, i)) + NameOf(e) + Extra(e)
  }

  function CentralByte(env: Env, e: Item, offset: nat, i: nat): Byte {
    if i < 4 then Le(SIG_CENTRAL, i)
    else if i < 6 then Le(3 * 256 + 20, i - 4)
    else if i < 8 then Le(20, i - 6)
    else if i < 10 then Le(0x0800, i - 8)
    else if i < 12 then 0
    else if i < 14 then Le(e.dosTime, i - 12)
    else if i < 16 then Le(e.dosDate, i - 14)
    else if i < 20 then Le(CrcOf(env, e), i - 16)
    else if i < 24 then Le(|DataOf(e)|, i - 20)
    else if i < 28 then Le(|DataOf(e)|, i - 24)
    else if i < 30 then Le(|NameOf(e)|, i - 28)
    else if i < 32 then Le(9, i - 30)
    else if i < 38 then 0
    else if i < 42 then Le(External(e), i - 38)
    else Le(offset, i - 42)
  }

  function Central(env: Env, e: Item, offset: nat): (r: Bytes)
    ensures |r| == 55 + |NameOf(e)|
  {
    seq(46, i requires 0 <= i < 46 => CentralByte(env, e, offset, i)) + NameOf(e) + Extra(e)
  }

  function EndByte(count: nat, size: nat, offset: nat, i: nat): Byte {
    if i < 4 then Le(SIG_END, i)
    else if i < 8 then 0
    else if i < 10 then Le(count, i - 8)
    else if i < 12 then Le(count, i - 10)
    else if i < 16 then Le(size, i - 12)
    else if i < 20 then Le(offset, i - 16)
    else 0
  }

  function EndRecord(count: nat, size: nat, offset: nat): (r: Bytes)
    ensures |r| == 22
  {
    seq(22, i requires 0 <= i < 22 => EndByte(count, size, offset, i))
  }

  /** Each entry's local header and data. */
  function LocalParts(env: Env, es: seq<Item>): (r: seq<Bytes>)
    ensures |r| == |es|
  {
    seq(|es|, i requires 0 <= i < |es| => Local(env, es[i]) + DataOf(es[i]))
  }

  /** Local headers and data of the first `n` entries. */
  function Locals(env: Env, es: seq<Item>, n: nat): Bytes
    requires n <= |es|
  {
    Flat(LocalParts(env, es), n)
  }

  function CentralParts(env: Env, es: seq<Item>): (r: seq<Bytes>)
    ensures |r| == |es|
  {
    seq(|es|, i requires 0 <= i < |es| => Central(env, es[i], |Locals(env, es, i)|))
  }

  function Centrals(env: Env, es: seq<Item>, n: nat): Bytes
    requires n <= |es|
  {
    Flat(CentralParts(env, es), n)
  }

  /** The writer's own limits, checked entry by entry. */
  function Refusal(env: Env, es: seq<Item>, n: nat): Option<Error>
    requires n <= |es|
  {
    if n == 0 then None
    else if Refusal(env, es, n - 1).Some? then Refusal(env, es, n - 1)
    else if n > MAX16 then Some(TooMany)
    else if |DataOf(es[n - 1])| > MAX32 then Some(TooLarge)
    else if |Locals(env, es, n)| > MAX32 then Some(TooLarge)
    else None
  }

  function Archive(env: Env, es: seq<Item>): Bytes {
    Locals(env, es, |es|) + Centrals(env, es, |es|)
      + EndRecord(|es|, |Centrals(env, es, |es|)|, |Locals(env, es, |es|)|)
  }

  function Written(env: Env, es: seq<Item>): Result<Bytes> {
    if Refusal(env, es, |es|).Some? then Err(Refusal(env, es, |es|).value) else Ok(Archive(env, es))
  }

  method WriteZip(env: Env, es: seq<Item>) returns (r: Result<Bytes>)
    ensures r == Written(env, es)
  {
    var parts: Bytes, central: Bytes, offset: nat := [], [], 0;
    for n := 0 to |es|
      invariant parts == Locals(env, es, n) && central == Centrals(env, es, n) && offset == |parts|
        && Refusal(env, es, n).None?
    {
      var e := es[n];
      if n + 1 > MAX16 {
        StaysRefused(env, es, n + 1, |es|);
        return Err(TooMany);
      }
      var data := DataOf(e);
      if |data| > MAX32 {
        StaysRefused(env, es, n + 1, |es|);
        return Err(TooLarge);
      }
      var local, record := Local(env, e), Central(env, e, offset);
      WritesOne(env, es, n);
      parts := parts + (local + data);
      central := central + record;
      offset := offset + |local| + |data|;
      if offset > MAX32 {
        StaysRefused(env, es, n + 1, |es|);
        return Err(TooLarge);
      }
    }
    r := Ok(parts + central + EndRecord(|es|, |central|, offset));
  }

  /** One entry more. */
  lemma {:induction false} WritesOne(env: Env, es: seq<Item>, n: nat)
    requires n < |es|
    ensures Locals(env, es, n + 1) == Locals(env, es, n) + (Local(env, es[n]) + DataOf(es[n]))
    ensures Centrals(env, es, n + 1) == Centrals(env, es, n) + Central(env, es[n], |Locals(env, es, n)|)
  {
    assert LocalParts(env, es)[n] == Local(env, es[n]) + DataOf(es[n]);
    assert CentralParts(env, es)[n] == Central(env, es[n], |Locals(env, es, n)|);
  }

  lemma {:induction false} StaysRefused(env: Env, es: seq<Item>, k: nat, n: nat)
    requires k <= n <= |es| && Refusal(env, es, k).Some?
    ensures Refusal(env, es, n) == Refusal(env, es, k)
    decreases n
  {
    if k < n { StaysRefused(env, es, k, n - 1); }
  }

  // ---- paths --------------------------------------------------------------------------------------------

  function Split(s: Bytes): (r: seq<Bytes>)
    ensures |r| > 0
    decreases |s|
  {
    if s == [] then [[]]
    else
      var rest := Split(s[1..]);
      if s[0] == SLASH then [[]] + rest else [[s[0]] + rest[0]] + rest[1..]
  }

  function Join(ps: seq<Bytes>): Bytes {
    if ps == [] then [] else if |ps| == 1 then ps[0] else ps[0] + [SLASH] + Join(ps[1..])
  }

  predicate Counts(p: Bytes) { p != [] && p != [DOT] }

  function Kept(ps: seq<Bytes>): seq<Bytes> {
    if ps == [] then [] else (if Counts(ps[0]) then [ps[0]] else []) + Kept(ps[1..])
  }

  function CleanPath(name: Bytes): Cleaned {
    var parts := Kept(Split(name));
    if [DOT, DOT] in parts then Unsafe
    else if exists i :: 0 <= i < |parts| && 0 in parts[i] then Unsafe
    else Clean(Join(parts))
  }

  // ---- reading ------------------------------------------------------------------------------------------

  /** An mtime found, none, or one cut off by the end of the archive. */
  datatype Stamp = Cut | NoStamp | Stamp(time: nat)

  /** The mtime of a UT field among the extra fields in [at, end), if there is one. */
  function ExtraMtime(b: Bytes, at: nat, end: nat): Stamp
    requires end <= |b|
    decreases if end < at then 0 else end - at
  {
    if at + 4 > end then NoStamp
    else
      var id, size := U16(b, at), U16(b, at + 2);
      if id == 0x5455 && size >= 5 && at + 4 >= |b| then NoStamp
      else if id == 0x5455 && size >= 5 && b[at + 4] % 2 == 1 then
        if at + 9 > |b| then Cut else Stamp(U32(b, at + 5))
      else ExtraMtime(b, at + 4 + size, end)
  }

  function KindFrom(rawName: Bytes, unixKind: nat): Kind {
    if (rawName != [] && rawName[|rawName| - 1] == SLASH) || unixKind == 4 then DirKind
    else if unixKind == 10 then LinkKind else FileKind
  }

  /** The fixed part of a central directory record. */
  datatype Header = Header(
    signature: nat, madeBy: nat, flags: nat, compression: nat, dosTime: nat, dosDate: nat, crc: nat, size: nat,
    nameLength: nat, extraLength: nat, commentLength: nat, external: nat, localOffset: nat)

  function HeaderAt(b: Bytes, at: nat): Header
    requires at + 46 <= |b|
  {
    Header(U32(b, at), U16(b, at + 4), U16(b, at + 8), U16(b, at + 10), U16(b, at + 12), U16(b, at + 14),
      U32(b, at + 16), U32(b, at + 24),
           U16(b, at + 28), U16(b, at + 30), U16(b, at + 32), U32(b, at + 38), U32(b, at + 42))
  }

  datatype Start = NoStart | Start(at: nat)

  /** Where an entry's data starts, past its local header. */
  function DataStart(b: Bytes, localOffset: nat): Start {
    if localOffset + 30 > |b| || U32(b, localOffset) != SIG_LOCAL then NoStart
    else Start(localOffset + 30 + U16(b, localOffset + 26) + U16(b, localOffset + 28))
  }

  function UnixMode(h: Header): nat { if h.madeBy / 256 == 3 then h.external / 65536 % 65536 else 0 }

  function EntryOf(h: Header, path: Bytes, rawName: Bytes, data: Bytes, mtime: nat): Entry {
    var unixMode := UnixMode(h);
    var kind := KindFrom(rawName, unixMode / 4096);
    var mode := if unixMode % 4096 != 0 then unixMode % 4096 else if kind.FileKind? then 0x1A4 else 0x1ED;
    Entry(path, kind, if kind.DirKind? then [] else data, mode, mtime, h.crc)
  }

  /**
   What a central directory record gives: nothing readable, the root itself (left out), or an entry; then where
   the next one is.
   */
  datatype Step = Stop(error: Error) | Skip(next: nat) | Take(entry: Entry, next: nat)

  /** The rest of an entry, its name and extra fields read. */
  function EntryFrom(env: Env, b: Bytes, h: Header, rawName: Bytes, mtime: nat, next: nat): Step {
    if h.flags % 2 == 1 then Stop(Encrypted)
    else if h.compression != 0 then Stop(Compressed)
    else match env.clean(rawName)
      case Unsafe => Stop(UnsafePath)
      case Clean(path) => if path == [] then Skip(next)
        else WithData(env, b, h, path, rawName, DataStart(b, h.localOffset), mtime, next)
  }

  function WithData(env: Env, b: Bytes, h: Header, path: Bytes, rawName: Bytes, start: Start, mtime: nat,
      next: nat): Step {
    if start.NoStart? || start.at + h.size > |b| || env.crc(b[start.at..start.at + h.size]) != h.crc then Stop(Corrupt)
    else Take(EntryOf(h, path, rawName, b[start.at..start.at + h.size], mtime), next)
  }

  /** The name and the time of an entry, then the rest of it. */
  function ReadBody(b: Bytes, at: nat, h: Header, env: Env): Step
    requires at + 46 <= |b|
  {
    var names, extras := at + 46, at + 46 + h.nameLength;
    var end := extras + h.extraLength;
    if end > |b| then Stop(Corrupt)
      else Timed(env, b, h, b[names..extras], ExtraMtime(b, extras, end), end + h.commentLength)
  }

  /** DOS times carry no zone: `env.dos` reads them as UTC. */
  function Timed(env: Env, b: Bytes, h: Header, rawName: Bytes, stamp: Stamp, next: nat): Step {
    match stamp
    case Cut => Stop(Corrupt)
    case NoStamp => EntryFrom(env, b, h, rawName, env.dos(h.dosTime, h.dosDate), next)
    case Stamp(time) => EntryFrom(env, b, h, rawName, time, next)
  }

  function ReadEntry(b: Bytes, at: nat, env: Env): Step {
    if at + 46 > |b| || HeaderAt(b, at).signature != SIG_CENTRAL then Stop(Corrupt)
      else ReadBody(b, at, HeaderAt(b, at), env)
  }

  /** `n` central directory entries from `at`, each as `parse` has it. */
  function ReadEntries(parse: nat -> Step, at: nat, n: nat): Result<seq<Entry>>
    decreases n
  {
    if n == 0 then Ok([])
    else match parse(at)
      case Stop(e) => Err(e)
      case Skip(next) => ReadEntries(parse, next, n - 1)
      case Take(entry, next) => Followed([entry], ReadEntries(parse, next, n - 1))
  }

  /** Some entries, then the rest of the directory. */
  function Followed(entries: seq<Entry>, rest: Result<seq<Entry>>): Result<seq<Entry>> {
    match rest
    case Err(e) => Err(e)
    case Ok(es) => Ok(entries + es)
  }

  /** The end record: the last place, within reach of a comment, that has its signature. */
  function FindEnd(b: Bytes, at: int): Option<nat>
    requires at + 22 <= |b|
    decreases at + 1
  {
    if at < 0 || at < |b| - 22 - MAX16 then None
    else if U32(b, at) == SIG_END then Some(at)
    else FindEnd(b, at - 1)
  }

  /** The archive in some bytes, given how a directory record in them reads. */
  function ReadWith(b: Bytes, parse: nat -> Step): Result<seq<Entry>> {
    match FindEnd(b, |b| - 22)
    case None => Err(NotZip)
    case Some(end) =>
      if end + 22 > |b| then Err(NotZip)
      else
        var total, directory := U16(b, end + 10), U32(b, end + 16);
        if total == MAX16 || directory == MAX32 then Err(Zip64) else ReadEntries(parse, directory, total)
  }

  function Read(b: Bytes, env: Env): Result<seq<Entry>> { ReadWith(b, (at: nat) => ReadEntry(b, at, env)) }

  /** The backward search for the end record. */
  method SearchEnd(b: Bytes) returns (r: Option<nat>)
    ensures r == FindEnd(b, |b| - 22) && (r.Some? ==> r.value + 22 <= |b|)
  {
    var at := |b| - 22;
    while at >= 0 && at >= |b| - 22 - MAX16 && U32(b, at) != SIG_END
      invariant at + 22 <= |b| && FindEnd(b, at) == FindEnd(b, |b| - 22)
      decreases at
    {
      at := at - 1;
    }
    r := if at < 0 || at < |b| - 22 - MAX16 then None else Some(at);
  }

  lemma {:induction false} FollowTwice(a: seq<Entry>, b: seq<Entry>, rest: Result<seq<Entry>>)
    ensures Followed(a, Followed(b, rest)) == Followed(a + b, rest)
  {
    if rest.Ok? { assert a + (b + rest.value) == a + b + rest.value; }
  }

  method ReadDirectory(parse: nat -> Step, directory: nat, total: nat) returns (r: Result<seq<Entry>>)
    ensures r == ReadEntries(parse, directory, total)
  {
    var next := directory;
    var entries: seq<Entry> := [];
    ghost var all := ReadEntries(parse, directory, total);
    assert all.Ok? ==> [] + all.value == all.value;
    for i := 0 to total
      invariant all == Followed(entries, ReadEntries(parse, next, total - i))
    {
      var p := parse(next);
      if p.Stop? { return Err(p.error); }
      if p.Take? {
        FollowTwice(entries, [p.entry], ReadEntries(parse, p.next, total - i - 1));
        entries := entries + [p.entry];
      }
      next := p.next;
    }
    assert entries + [] == entries;
    r := Ok(entries);
  }

  method ReadZip(b: Bytes, env: Env) returns (r: Result<seq<Entry>>)
    ensures r == Read(b, env)
  {
    r := ReadAll(b, (at: nat) => ReadEntry(b, at, env));
  }

  method ReadAll(b: Bytes, parse: nat -> Step) returns (r: Result<seq<Entry>>)
    ensures r == ReadWith(b, parse)
  {
    var end := SearchEnd(b);
    if end.None? { return Err(NotZip); }
    var total, directory := U16(b, end.value + 10), U32(b, end.value + 16);
    if total == MAX16 || directory == MAX32 { return Err(Zip64); }
    r := ReadDirectory(parse, directory, total);
  }
}
