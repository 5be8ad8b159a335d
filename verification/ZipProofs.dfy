/** What is written is read back. */
module ZipProofs {
  import opened ByteStrings
  import opened Crc
  import opened Zip

  // ---- numbers ------------------------------------------------------------------------------------------

  lemma {:induction false} Two(c: Bytes, k: nat, v: nat)
    requires k + 2 <= |c| && v < 65536 && c[k] == Le(v, 0) && c[k + 1] == Le(v, 1)
    ensures U16(c, k) == v
  {
  }

  lemma {:induction false} Digits(v: nat)
    requires v <= MAX32
    ensures v == v % 256 + 256 * (v / 256 % 256) + 65536 * (v / 65536 % 256) + 16777216 * (v / 16777216 % 256)
  {
    var a := v / 256;
    assert v / 65536 == a / 256 && v / 16777216 == a / 65536;
    var b := a / 256;
    assert a / 65536 == b / 256 && b < 65536;
    assert b == b % 256 + 256 * (b / 256 % 256);
  }

  lemma {:induction false} Four(c: Bytes, k: nat, v: nat)
    requires k + 4 <= |c| && v <= MAX32 && c[k] == Le(v, 0) && c[k + 1] == Le(v, 1) && c[k + 2] == Le(v, 2)
      && c[k + 3] == Le(v, 3)
    ensures U32(c, k) == v
  {
    Digits(v);
  }

  // ---- paths --------------------------------------------------------------------------------------------

  predicate GoodPart(p: Bytes) { Counts(p) && p != [DOT, DOT] && SLASH !in p && 0 !in p }

  /** A path as the entry model has it: parts joined by slashes, none empty, none special. */
  ghost predicate IsClean(path: Bytes) {
    exists parts: seq<Bytes> :: IsPathOf(path, parts)
  }

  ghost predicate IsPathOf(path: Bytes, parts: seq<Bytes>) {
    parts != [] && (forall i :: 0 <= i < |parts| ==> GoodPart(parts[i])) && path == Join(parts)
  }

  /** A part, then whatever follows its slash. */
  lemma {:induction false} SplitPart(p: Bytes, rest: Bytes)
    requires SLASH !in p
    ensures Split(p + [SLASH] + rest) == [p] + Split(rest)
    decreases |p|
  {
    if p == [] {
      assert p + [SLASH] + rest == [SLASH] + rest && ([SLASH] + rest)[1..] == rest;
    } else {
      SplitPart(p[1..], rest);
      assert (p + [SLASH] + rest)[1..] == p[1..] + [SLASH] + rest;
      assert [p[0]] + p[1..] == p;
      assert ([p[1..]] + Split(rest))[1..] == Split(rest);
    }
  }

  lemma {:induction false} SplitOne(p: Bytes)
    requires SLASH !in p
    ensures Split(p) == [p]
    decreases |p|
  {
    if p != [] {
      SplitOne(p[1..]);
      assert [p[0]] + p[1..] == p;
    }
  }

  /** Joined parts split into the same parts; a slash at the end adds an empty one. */
  lemma {:induction false} SplitJoin(parts: seq<Bytes>, slash: bool)
    requires parts != [] && forall i :: 0 <= i < |parts| ==> GoodPart(parts[i])
    ensures Split(Join(parts) + (if slash then [SLASH] else [])) == parts + (if slash then [[]] else [])
    decreases |parts|
  {
    var end: Bytes := if slash then [SLASH] else [];
    assert GoodPart(parts[0]);
    if |parts| == 1 {
      if slash {
        SplitPart(parts[0], []);
        assert parts[0] + [SLASH] + [] == Join(parts) + end;
      } else {
        SplitOne(parts[0]);
        assert Join(parts) + end == parts[0];
      }
    } else {
      SplitJoin(parts[1..], slash);
      SplitPart(parts[0], Join(parts[1..]) + end);
      assert parts[0] + [SLASH] + (Join(parts[1..]) + end) == Join(parts) + end;
      assert [parts[0]] + parts[1..] == parts;
    }
  }

  lemma {:induction false} KeptAll(parts: seq<Bytes>, slash: bool)
    requires forall i :: 0 <= i < |parts| ==> GoodPart(parts[i])
    ensures Kept(parts + (if slash then [[]] else [])) == parts
    decreases |parts|
  {
    var end: seq<Bytes> := if slash then [[]] else [];
    if parts == [] {
      assert parts + end == end;
    } else {
      KeptAll(parts[1..], slash);
      assert (parts + end)[1..] == parts[1..] + end;
    }
  }

  /** A clean path, as a file's name or with a directory's slash, comes back as it is. */
  lemma {:induction false} CleanStays(path: Bytes, slash: bool, name: Bytes)
    requires IsClean(path) && name == path + (if slash then [SLASH] else [])
    ensures CleanPath(name) == Clean(path)
    ensures path != [] && path[|path| - 1] != SLASH
  {
    var parts: seq<Bytes> :| IsPathOf(path, parts);
    SplitJoin(parts, slash);
    KeptAll(parts, slash);
    JoinEnds(parts);
    assert forall i :: 0 <= i < |parts| ==> GoodPart(parts[i]);
  }

  lemma {:induction false} JoinEnds(parts: seq<Bytes>)
    requires parts != [] && forall i :: 0 <= i < |parts| ==> GoodPart(parts[i])
    ensures Join(parts) != [] && Join(parts)[|Join(parts)| - 1] != SLASH
    decreases |parts|
  {
    if |parts| > 1 { JoinEnds(parts[1..]); } else { assert GoodPart(parts[0]); }
  }

  // ---- where things are ---------------------------------------------------------------------------------

  lemma {:induction false} Num2In(b: Bytes, at: nat, c: Bytes, k: nat)
    requires LiesAt(b, at, c) && k + 2 <= |c|
    ensures at + |c| <= |b| && U16(b, at + k) == U16(c, k)
  {
    ByteIn(b, at, c, k);
    ByteIn(b, at, c, k + 1);
  }

  lemma {:induction false} Num4In(b: Bytes, at: nat, c: Bytes, k: nat)
    requires LiesAt(b, at, c) && k + 4 <= |c|
    ensures at + |c| <= |b| && U32(b, at + k) == U32(c, k)
  {
    ByteIn(b, at, c, k);
    ByteIn(b, at, c, k + 1);
    ByteIn(b, at, c, k + 2);
    ByteIn(b, at, c, k + 3);
  }

  /** Entries, and the numbers in them, that the format has room for, their names safe. */
  predicate Fits(env: Env, e: Item) {
    && InRange(e) && e.path != [] && e.path[|e.path| - 1] != SLASH && env.clean(NameOf(e)) == Clean(e.path)
    && CrcOf(env, e) == env.crc(DataOf(e)) && CrcOf(env, e) <= MAX32
  }

  predicate InRange(e: Item) {
    |NameOf(e)| < 65536 && |DataOf(e)| <= MAX32 && e.mode % 4096 != 0 && e.mtime <= MAX32 && e.dosTime < 65536
      && e.dosDate < 65536
  }

  /** The header the writer's central record reads as. */
  function HeaderOf(env: Env, e: Item, offset: nat): Header {
    Header(SIG_CENTRAL, 788, 0x0800, 0, e.dosTime, e.dosDate, CrcOf(env, e), |DataOf(e)|, |NameOf(e)|, 9, 0,
      External(e), offset)
  }

  /** The bytes of the fixed part of a central record. */
  predicate CentralStart(env: Env, c: Bytes, e: Item, offset: nat) {
    |c| >= 46 && forall i :: 0 <= i < 46 ==> c[i] == CentralByte(env, e, offset, i)
  }

  lemma {:induction false} CentralShorts(env: Env, c: Bytes, e: Item, offset: nat)
    requires CentralStart(env, c, e, offset) && |NameOf(e)| < 65536 && e.dosTime < 65536 && e.dosDate < 65536
    ensures U16(c, 4) == 788 && U16(c, 8) == 0x0800 && U16(c, 10) == 0 && U16(c, 12) == e.dosTime
      && U16(c, 14) == e.dosDate
    ensures U16(c, 28) == |NameOf(e)| && U16(c, 30) == 9 && U16(c, 32) == 0
  {
    Two(c, 4, 788);
    Two(c, 8, 0x0800);
    Two(c, 10, 0);
    Two(c, 12, e.dosTime);
    Two(c, 14, e.dosDate);
    Two(c, 28, |NameOf(e)|);
    Two(c, 30, 9);
    Two(c, 32, 0);
  }

  lemma {:induction false} CentralLongs(env: Env, c: Bytes, e: Item, offset: nat)
    requires CentralStart(env, c, e, offset) && CrcOf(env, e) <= MAX32 && |DataOf(e)| <= MAX32 && External(e) <= MAX32
      && offset <= MAX32
    ensures U32(c, 0) == SIG_CENTRAL && U32(c, 16) == CrcOf(env, e) && U32(c, 24) == |DataOf(e)|
      && U32(c, 38) == External(e) && U32(c, 42) == offset
  {
    Four(c, 0, SIG_CENTRAL);
    Four(c, 16, CrcOf(env, e));
    Four(c, 24, |DataOf(e)|);
    Four(c, 38, External(e));
    Four(c, 42, offset);
  }

  lemma {:induction false} CentralStarts(env: Env, e: Item, offset: nat)
    ensures CentralStart(env, Central(env, e, offset), e, offset)
  {
  }

  /** The header of a record is the same wherever the record lies. */
  lemma {:induction false} HeaderIn(b: Bytes, at: nat, c: Bytes)
    requires LiesAt(b, at, c) && |c| >= 46
    ensures at + |c| <= |b| && HeaderAt(b, at) == HeaderAt(c, 0)
  {
    LiesWithin(b, at, c);
    Num4In(b, at, c, 0);
    Num2In(b, at, c, 4);
    Num2In(b, at, c, 8);
    Num2In(b, at, c, 10);
    Num2In(b, at, c, 12);
    Num2In(b, at, c, 14);
    Num4In(b, at, c, 16);
    Num4In(b, at, c, 24);
    Num2In(b, at, c, 28);
    Num2In(b, at, c, 30);
    Num2In(b, at, c, 32);
    Num4In(b, at, c, 38);
    Num4In(b, at, c, 42);
  }

  lemma {:induction false} HeaderBack(env: Env, e: Item, offset: nat)
    requires Fits(env, e) && offset <= MAX32
    ensures HeaderAt(Central(env, e, offset), 0) == HeaderOf(env, e, offset)
  {
    ModeBack(e);
    CentralStarts(env, e, offset);
    CentralShorts(env, Central(env, e, offset), e, offset);
    CentralLongs(env, Central(env, e, offset), e, offset);
  }

  predicate LocalStart(env: Env, c: Bytes, e: Item) {
    |c| >= 30 && forall i :: 0 <= i < 30 ==> c[i] == LocalByte(env, e, i)
  }

  lemma {:induction false} LocalFields(env: Env, c: Bytes, e: Item)
    requires LocalStart(env, c, e) && |NameOf(e)| < 65536
    ensures U32(c, 0) == SIG_LOCAL && U16(c, 26) == |NameOf(e)| && U16(c, 28) == 9
  {
    Four(c, 0, SIG_LOCAL);
    Two(c, 26, |NameOf(e)|);
    Two(c, 28, 9);
  }

  predicate IsExtra(x: Bytes, e: Item) {
    |x| == 9 && forall i :: 0 <= i < 9 ==> x[i] == ExtraByte(e, i)
  }

  /** The UT field gives the time back. */
  lemma {:induction false} MtimeFound(b: Bytes, at: nat, x: Bytes, e: Item)
    requires e.mtime <= MAX32 && LiesAt(b, at, x) && IsExtra(x, e)
    ensures at + 9 <= |b| && ExtraMtime(b, at, at + 9) == Stamp(e.mtime)
  {
    LiesWithin(b, at, x);
    Num2In(b, at, x, 0);
    Num2In(b, at, x, 2);
    ByteIn(b, at, x, 4);
    Num4In(b, at, x, 5);
    Two(x, 0, 0x5455);
    Two(x, 2, 5);
    Four(x, 5, e.mtime);
  }

  function Expected(env: Env, e: Item): Entry {
    Entry(e.path, e.kind, DataOf(e), e.mode % 4096, e.mtime, CrcOf(env, e))
  }

  lemma {:induction false} ModeBack(e: Item)
    ensures External(e) <= MAX32
    ensures External(e) / 65536 % 65536 == Mode16(e) && Mode16(e) / 4096 == TypeBits(e.kind)
      && Mode16(e) % 4096 == e.mode % 4096
  {
  }

  /** One entry, its central record and its local part in place. */
  lemma {:induction false} EntryBack(b: Bytes, at: nat, offset: nat, e: Item, env: Env)
    requires Fits(env, e) && offset <= MAX32
    requires LiesAt(b, at, Central(env, e, offset)) && LiesAt(b, offset, Local(env, e) + DataOf(e))
    ensures ReadEntry(b, at, env) == Take(Expected(env, e), at + 55 + |NameOf(e)|)
  {
    HeaderIn(b, at, Central(env, e, offset));
    HeaderBack(env, e, offset);
    NameAndTime(env, b, at, offset, e);
    RestOfEntry(env, b, offset, e, HeaderOf(env, e, offset), NameOf(e), at + 55 + |NameOf(e)|);
    ReadsEntry(b, at, HeaderOf(env, e, offset), NameOf(e), e.mtime, Expected(env, e), env, at + 55 + |NameOf(e)|);
  }

  /** An entry put together from what was found. */
  lemma {:induction false} ReadsEntry(b: Bytes, at: nat, h: Header, name: Bytes, mtime: nat, entry: Entry, env: Env,
      next: nat)
    requires at + 46 <= |b| && HeaderAt(b, at) == h && h.signature == SIG_CENTRAL
      && at + 46 + h.nameLength + h.extraLength <= |b|
    requires b[at + 46..at + 46 + h.nameLength] == name
      && next == at + 46 + h.nameLength + h.extraLength + h.commentLength
    requires ExtraMtime(b, at + 46 + h.nameLength, at + 46 + h.nameLength + h.extraLength) == Stamp(mtime)
    requires EntryFrom(env, b, h, name, mtime, next) == Take(entry, next)
    ensures ReadEntry(b, at, env) == Take(entry, next)
  {
    ReadsTimed(env, b, h, name, mtime, Stamp(mtime), next, Take(entry, next));
    ReadsBody(b, at, h, env);
  }

  lemma {:induction false} ReadsTimed(env: Env, b: Bytes, h: Header, name: Bytes, mtime: nat, stamp: Stamp, next: nat,
      step: Step)
    requires stamp == Stamp(mtime) && EntryFrom(env, b, h, name, mtime, next) == step
    ensures Timed(env, b, h, name, stamp, next) == step
  {
  }

  lemma {:induction false} ReadsBody(b: Bytes, at: nat, h: Header, env: Env)
    requires at + 46 + h.nameLength + h.extraLength <= |b|
    ensures ReadBody(b, at, h, env) == Timed(env, b, h, b[at + 46..at + 46 + h.nameLength],
      ExtraMtime(b, at + 46 + h.nameLength, at + 46 + h.nameLength + h.extraLength),
        at + 46 + h.nameLength + h.extraLength + h.commentLength)
  {
  }

  lemma {:induction false} NameAndTime(env: Env, b: Bytes, at: nat, offset: nat, e: Item)
    requires Fits(env, e) && LiesAt(b, at, Central(env, e, offset))
    ensures at + 55 + |NameOf(e)| <= |b| && b[at + 46..at + 46 + |NameOf(e)|] == NameOf(e)
    ensures ExtraMtime(b, at + 46 + |NameOf(e)|, at + 46 + |NameOf(e)| + 9) == Stamp(e.mtime)
  {
    var c, n := Central(env, e, offset), |NameOf(e)|;
    CentralPieces(env, e, offset);
    PartIn(b, at, c, 46, 46 + n);
    PartIn(b, at, c, 46 + n, 55 + n);
    LiesIff(b, at + 46 + n, Extra(e));
    MtimeFound(b, at + 46 + n, Extra(e), e);
  }

  lemma {:induction false} CentralPieces(env: Env, e: Item, offset: nat)
    ensures Central(env, e, offset)[46..46 + |NameOf(e)|] == NameOf(e)
      && Central(env, e, offset)[46 + |NameOf(e)|..55 + |NameOf(e)|] == Extra(e)
    ensures IsExtra(Extra(e), e)
  {
  }

  lemma {:induction false} RestOfEntry(env: Env, b: Bytes, offset: nat, e: Item, h: Header, name: Bytes, next: nat)
    requires Fits(env, e) && LiesAt(b, offset, Local(env, e) + DataOf(e)) && name == NameOf(e)
      && h == HeaderOf(env, e, offset)
    ensures EntryFrom(env, b, h, name, e.mtime, next) == Take(Expected(env, e), next)
  {
    DataInPlace(env, b, offset, e);
    EntryOfBack(env, e, offset, name);
    FromParts(env, b, h, name, e.path, offset + 39 + |NameOf(e)|, DataOf(e), e.mtime, next);
  }

  lemma {:induction false} FromParts(env: Env, b: Bytes, h: Header, name: Bytes, path: Bytes, start: nat, data: Bytes,
      mtime: nat, next: nat)
    requires h.flags % 2 == 0 && h.compression == 0 && env.clean(name) == Clean(path) && path != []
    requires DataStart(b, h.localOffset) == Start(start) && h.size == |data| && LiesAt(b, start, data)
      && env.crc(data) == h.crc
    ensures EntryFrom(env, b, h, name, mtime, next) == Take(EntryOf(h, path, name, data, mtime), next)
  {
    LiesIff(b, start, data);
  }

  lemma {:induction false} EntryOfBack(env: Env, e: Item, offset: nat, name: Bytes)
    requires name == NameOf(e) && e.mode % 4096 != 0 && e.path != [] && e.path[|e.path| - 1] != SLASH
    ensures EntryOf(HeaderOf(env, e, offset), e.path, name, DataOf(e), e.mtime) == Expected(env, e)
  {
    ModeBack(e);
    assert UnixMode(HeaderOf(env, e, offset)) == Mode16(e);
    assert KindFrom(name, TypeBits(e.kind)) == e.kind;
  }

  lemma {:induction false} DataInPlace(env: Env, b: Bytes, offset: nat, e: Item)
    requires Fits(env, e) && LiesAt(b, offset, Local(env, e) + DataOf(e))
    ensures DataStart(b, offset) == Start(offset + 39 + |NameOf(e)|) && LiesAt(b, offset + 39 + |NameOf(e)|, DataOf(e))
  {
    var l := Local(env, e) + DataOf(e);
    LocalPieces(env, e);
    LocalFields(env, l, e);
    Num4In(b, offset, l, 0);
    Num2In(b, offset, l, 26);
    Num2In(b, offset, l, 28);
    TailIn(b, offset, l, |Local(env, e)|, DataOf(e));
  }

  lemma {:induction false} LocalPieces(env: Env, e: Item)
    ensures LocalStart(env, Local(env, e) + DataOf(e), e) && (Local(env, e) + DataOf(e))[|Local(env, e)|..] == DataOf(e)
  {
  }

  // ---- the layout, by offsets ---------------------------------------------------------------------------

  /** Section 4.3.7 of the APPNOTE: a local header, its name and extra field behind it. */
  lemma {:induction false} LocalLayout(env: Env, e: Item)
    requires Fits(env, e)
    ensures var b := Local(env, e);
      && U32(b, 0) == 0x04034b50 && U16(b, 4) == 20 && U16(b, 6) == 0x0800 && U16(b, 8) == 0
      && U16(b, 10) == e.dosTime && U16(b, 12) == e.dosDate && U32(b, 14) == CrcOf(env, e)
      && U32(b, 18) == |DataOf(e)| && U32(b, 22) == |DataOf(e)| && U16(b, 26) == |NameOf(e)| && U16(b, 28) == 9
      && b[30..30 + |NameOf(e)|] == NameOf(e) && b[30 + |NameOf(e)|..] == Extra(e)
  {
    var b := Local(env, e);
    assert forall i :: 0 <= i < 30 ==> b[i] == LocalByte(env, e, i);
    Four(b, 0, SIG_LOCAL);
    Two(b, 4, 20);
    Two(b, 6, 0x0800);
    Two(b, 8, 0);
    Two(b, 10, e.dosTime);
    Two(b, 12, e.dosDate);
    Four(b, 14, CrcOf(env, e));
    Four(b, 18, |DataOf(e)|);
    Four(b, 22, |DataOf(e)|);
    Two(b, 26, |NameOf(e)|);
    Two(b, 28, 9);
  }

  /** Section 4.3.12: a central header. Made by Unix, its mode in the upper half of the external attributes. */
  lemma {:induction false} CentralLayout(env: Env, e: Item, offset: nat)
    requires Fits(env, e) && offset <= MAX32
    ensures var b := Central(env, e, offset);
      && U32(b, 0) == 0x02014b50 && U16(b, 4) == 0x0314 && U16(b, 6) == 20 && U16(b, 8) == 0x0800 && U16(b, 10) == 0
      && U16(b, 12) == e.dosTime && U16(b, 14) == e.dosDate && U32(b, 16) == CrcOf(env, e)
      && U32(b, 20) == |DataOf(e)| && U32(b, 24) == |DataOf(e)| && U16(b, 28) == |NameOf(e)| && U16(b, 30) == 9
      && U32(b, 42) == offset && b[46..46 + |NameOf(e)|] == NameOf(e) && b[46 + |NameOf(e)|..] == Extra(e)
  {
    var b := Central(env, e, offset);
    assert forall i :: 0 <= i < 46 ==> b[i] == CentralByte(env, e, offset, i);
    Four(b, 0, SIG_CENTRAL);
    Two(b, 4, 0x0314);
    Two(b, 6, 20);
    Two(b, 8, 0x0800);
    Two(b, 10, 0);
    Two(b, 12, e.dosTime);
    Two(b, 14, e.dosDate);
    Four(b, 16, CrcOf(env, e));
    Four(b, 20, |DataOf(e)|);
    Four(b, 24, |DataOf(e)|);
    Two(b, 28, |NameOf(e)|);
    Two(b, 30, 9);
    Four(b, 42, offset);
  }

  /** Its external attributes: the Unix type and mode above, the DOS directory bit below. */
  lemma {:induction false} AttributesLayout(env: Env, e: Item, offset: nat)
    requires Fits(env, e) && offset <= MAX32
    ensures var b := Central(env, e, offset);
      var bits := if e.kind.DirKind? then 4 else if e.kind.FileKind? then 8 else 10;
      && U16(b, 40) == bits * 4096 + e.mode % 4096 && U16(b, 38) == (if e.kind.DirKind? then 16 else 0)
      && U16(b, 32) == 0 && U16(b, 34) == 0 && U16(b, 36) == 0
  {
    var b, mode, low := Central(env, e, offset), Mode16(e), if e.kind.DirKind? then 16 else 0;
    assert forall i :: 0 <= i < 46 ==> b[i] == CentralByte(env, e, offset, i);
    Halves(mode, low);
    Two(b, 38, low);
    Two(b, 40, mode);
    Two(b, 32, 0);
    Two(b, 34, 0);
    Two(b, 36, 0);
  }

  lemma {:induction false} Halves(high: nat, low: nat)
    requires high < 65536 && low < 65536
    ensures var v := high * 65536 + low;
      Le(v, 0) == Le(low, 0) && Le(v, 1) == Le(low, 1) && Le(v, 2) == Le(high, 0) && Le(v, 3) == Le(high, 1)
  {
    var v := high * 65536 + low;
    assert v / 65536 == high && v / 256 == high * 256 + low / 256 && v / 16777216 == high / 256;
  }

  /** Section 4.3.16: the end record, of one disk and no comment. */
  lemma {:induction false} EndLayout(count: nat, size: nat, offset: nat)
    requires count <= MAX16 && size <= MAX32 && offset <= MAX32
    ensures var b := EndRecord(count, size, offset);
      && U32(b, 0) == 0x06054b50 && U16(b, 4) == 0 && U16(b, 6) == 0 && U16(b, 8) == count && U16(b, 10) == count
      && U32(b, 12) == size && U32(b, 16) == offset && U16(b, 20) == 0
  {
    var b := EndRecord(count, size, offset);
    assert forall i :: 0 <= i < 22 ==> b[i] == EndByte(count, size, offset, i);
    Four(b, 0, SIG_END);
    Two(b, 4, 0);
    Two(b, 6, 0);
    Two(b, 8, count);
    Two(b, 10, count);
    Four(b, 12, size);
    Four(b, 16, offset);
    Two(b, 20, 0);
  }

  // ---- the whole archive ----------------------------------------------------------------------------------

  function ExpectedAll(env: Env, es: seq<Item>): (r: seq<Entry>)
    ensures |r| == |es| && forall i :: 0 <= i < |es| ==> r[i] == Expected(env, es[i])
  {
    seq(|es|, i requires 0 <= i < |es| => Expected(env, es[i]))
  }

  /** Where each central record is. */
  function Places(start: nat, centrals: seq<Bytes>): (r: seq<nat>)
    ensures |r| == |centrals| + 1 && forall i :: 0 <= i <= |centrals| ==> r[i] == start + |Flat(centrals, i)|
  {
    seq(|centrals| + 1, i requires 0 <= i <= |centrals| => start + |Flat(centrals, i)|)
  }

  predicate ParsesAt(parse: nat -> Step, places: seq<nat>, entries: seq<Entry>, i: nat)
    requires i < |entries| < |places|
  {
    parse(places[i]) == Take(entries[i], places[i + 1])
  }

  /** Records that parse one after another parse as a directory. */
  lemma {:induction false} AllParse(parse: nat -> Step, places: seq<nat>, entries: seq<Entry>, k: nat)
    requires |places| == |entries| + 1 && k <= |entries|
    requires forall i :: 0 <= i < |entries| ==> ParsesAt(parse, places, entries, i)
    ensures ReadEntries(parse, places[k], |entries| - k) == Ok(entries[k..])
    decreases |entries| - k
  {
    if k < |entries| {
      AllParse(parse, places, entries, k + 1);
      assert ParsesAt(parse, places, entries, k);
      assert [entries[k]] + entries[k + 1..] == entries[k..];
      assert |entries| - k - 1 == |entries| - (k + 1);
    } else {
      assert entries[k..] == [];
    }
  }

  /** An entry's local part, at the front of the archive. */
  lemma {:induction false} LocalInPlace(locals: seq<Bytes>, after: Bytes, k: nat)
    requires k < |locals|
    ensures LiesAt(Flat(locals, |locals|) + after, |Flat(locals, k)|, locals[k])
      && |Flat(locals, k)| <= |Flat(locals, |locals|)|
  {
    FlatAt(locals, k, |locals|);
    FlatGrows(locals, k, |locals|);
    LiesFirst(Flat(locals, |locals|), after, |Flat(locals, k)|, locals[k]);
  }

  /** Its central record, behind them. */
  lemma {:induction false} CentralInPlace(before: Bytes, centrals: seq<Bytes>, end: Bytes, k: nat)
    requires k < |centrals|
    ensures LiesAt(before + Flat(centrals, |centrals|) + end, |before| + |Flat(centrals, k)|, centrals[k])
  {
    FlatAt(centrals, k, |centrals|);
    LiesAfter(before, Flat(centrals, |centrals|), end, |Flat(centrals, k)|, centrals[k]);
  }

  /** Part `k` of the entries and of the directory, each in its place. */
  predicate InPlace(b: Bytes, locals: seq<Bytes>, centrals: seq<Bytes>, k: nat)
    requires k < |locals| == |centrals|
  {
    LiesAt(b, |Flat(locals, k)|, locals[k]) && LiesAt(b, |Flat(locals, |locals|)| + |Flat(centrals, k)|, centrals[k])
  }

  lemma {:induction false} BothInPlace(locals: seq<Bytes>, centrals: seq<Bytes>, end: Bytes, k: nat)
    requires k < |locals| == |centrals|
    ensures InPlace(Flat(locals, |locals|) + Flat(centrals, |centrals|) + end, locals, centrals, k)
  {
    var l, c := Flat(locals, |locals|), Flat(centrals, |centrals|);
    LocalInPlace(locals, c + end, k);
    assert l + (c + end) == l + c + end;
    CentralInPlace(l, centrals, end, k);
  }

  /** An entry's local part and its central record. */
  predicate PartsOf(env: Env, e: Item, offset: nat, local: Bytes, central: Bytes) {
    local == Local(env, e) + DataOf(e) && central == Central(env, e, offset)
  }

  predicate PartsAt(env: Env, es: seq<Item>, locals: seq<Bytes>, centrals: seq<Bytes>, k: nat) {
    k < |locals| == |centrals| == |es| && PartsOf(env, es[k], |Flat(locals, k)|, locals[k], centrals[k])
  }

  predicate AllPartsOf(env: Env, es: seq<Item>, locals: seq<Bytes>, centrals: seq<Bytes>) {
    |locals| == |centrals| == |es| && forall k :: 0 <= k < |es| ==> PartsAt(env, es, locals, centrals, k)
  }

  lemma {:induction false} PartsRead(env: Env, e: Item, offset: nat, local: Bytes, central: Bytes, b: Bytes, at: nat)
    requires Fits(env, e) && offset <= MAX32 && PartsOf(env, e, offset, local, central)
    requires LiesAt(b, offset, local) && LiesAt(b, at, central)
    ensures ReadEntry(b, at, env) == Take(Expected(env, e), at + |central|)
  {
    EntryBack(b, at, offset, e, env);
  }

  lemma {:induction false} PlaceReads(env: Env, es: seq<Item>, locals: seq<Bytes>, centrals: seq<Bytes>, b: Bytes,
      k: nat, offset: nat, at: nat)
    requires k < |es| && Fits(env, es[k]) && PartsAt(env, es, locals, centrals, k) && InPlace(b, locals, centrals, k)
    requires offset == |Flat(locals, k)| <= MAX32 && at == |Flat(locals, |locals|)| + |Flat(centrals, k)|
    ensures ReadEntry(b, at, env) == Take(Expected(env, es[k]), at + |centrals[k]|)
  {
    PartsRead(env, es[k], offset, locals[k], centrals[k], b, at);
  }

  lemma {:induction false} NextPlace(centrals: seq<Bytes>, start: nat, k: nat)
    requires k < |centrals|
    ensures Places(start, centrals)[k + 1] == Places(start, centrals)[k] + |centrals[k]|
  {
  }

  lemma {:induction false} PlaceParses(env: Env, es: seq<Item>, locals: seq<Bytes>, centrals: seq<Bytes>, b: Bytes,
      parse: nat -> Step, k: nat)
    requires k < |es| && Fits(env, es[k]) && AllPartsOf(env, es, locals, centrals) && |Flat(locals, |locals|)| <= MAX32
    requires InPlace(b, locals, centrals, k) && parse == ((at: nat) => ReadEntry(b, at, env))
    ensures ParsesAt(parse, Places(|Flat(locals, |locals|)|, centrals), ExpectedAll(env, es), k)
  {
    var places := Places(|Flat(locals, |locals|)|, centrals);
    FlatGrows(locals, k, |locals|);
    NextPlace(centrals, |Flat(locals, |locals|)|, k);
    assert PartsAt(env, es, locals, centrals, k);
    PlaceReads(env, es, locals, centrals, b, k, |Flat(locals, k)|, places[k]);
  }

  lemma {:induction false} PlacesParse(env: Env, es: seq<Item>, locals: seq<Bytes>, centrals: seq<Bytes>, b: Bytes,
      parse: nat -> Step)
    requires (forall i :: 0 <= i < |es| ==> Fits(env, es[i])) && AllPartsOf(env, es, locals, centrals)
      && |Flat(locals, |locals|)| <= MAX32
    requires (forall i :: 0 <= i < |es| ==> InPlace(b, locals, centrals, i))
      && parse == ((at: nat) => ReadEntry(b, at, env))
    ensures forall i :: 0 <= i < |es| ==> ParsesAt(parse, Places(|Flat(locals, |locals|)|, centrals),
      ExpectedAll(env, es), i)
  {
    forall i | 0 <= i < |es| ensures ParsesAt(parse, Places(|Flat(locals, |locals|)|, centrals), ExpectedAll(env, es),
      i) {
      PlaceParses(env, es, locals, centrals, b, parse, i);
    }
  }

  /** Entries in their places are read from there, one after another. */
  lemma {:induction false} PlacesRead(parse: nat -> Step, start: nat, centrals: seq<Bytes>, entries: seq<Entry>)
    requires |entries| == |centrals|
      && forall i :: 0 <= i < |entries| ==> ParsesAt(parse, Places(start, centrals), entries, i)
    ensures ReadEntries(parse, start, |entries|) == Ok(entries)
  {
    AllParse(parse, Places(start, centrals), entries, 0);
    assert entries[0..] == entries;
  }

  /** An archive is read as its directory is. */
  lemma {:induction false} ReadsDirectory(b: Bytes, parse: nat -> Step, total: nat, directory: nat)
    requires |b| >= 22 && FindEnd(b, |b| - 22) == Some(|b| - 22) && U16(b, |b| - 12) == total
      && U32(b, |b| - 6) == directory
    requires total != MAX16 && directory != MAX32
    ensures ReadWith(b, parse) == ReadEntries(parse, directory, total)
  {
  }

  lemma {:induction false} ReadsZip64(b: Bytes, env: Env, total: nat, directory: nat)
    requires |b| >= 22 && FindEnd(b, |b| - 22) == Some(|b| - 22) && U16(b, |b| - 12) == total
      && U32(b, |b| - 6) == directory
    requires total == MAX16 || directory == MAX32
    ensures Read(b, env) == Err(Zip64)
  {
  }

  /** An archive put together from such parts. */
  function Assembled(locals: seq<Bytes>, centrals: seq<Bytes>): Bytes {
    Flat(locals, |locals|) + Flat(centrals, |centrals|) + EndRecord(|locals|, |Flat(centrals, |centrals|)|,
      |Flat(locals, |locals|)|)
  }

  lemma {:induction false} EndFound(locals: seq<Bytes>, centrals: seq<Bytes>, b: Bytes)
    requires b == Assembled(locals, centrals) && |locals| <= MAX16 && |Flat(locals, |locals|)| <= MAX32
    ensures |b| >= 22 && FindEnd(b, |b| - 22) == Some(|b| - 22) && U16(b, |b| - 12) == |locals|
      && U32(b, |b| - 6) == |Flat(locals, |locals|)|
  {
    EndIn(b, EndRecord(|locals|, |Flat(centrals, |centrals|)|, |Flat(locals, |locals|)|), |locals|,
      |Flat(centrals, |centrals|)|, |Flat(locals, |locals|)|);
  }

  lemma {:induction false} PartsReadBack(env: Env, es: seq<Item>, locals: seq<Bytes>, centrals: seq<Bytes>, b: Bytes)
    requires (forall i :: 0 <= i < |es| ==> Fits(env, es[i])) && AllPartsOf(env, es, locals, centrals)
      && |Flat(locals, |locals|)| < MAX32
    requires b == Assembled(locals, centrals) && |es| < MAX16
    ensures Read(b, env) == Ok(ExpectedAll(env, es))
  {
    EndFound(locals, centrals, b);
    forall i | 0 <= i < |es| ensures InPlace(b, locals, centrals, i) {
      BothInPlace(locals, centrals, EndRecord(|locals|, |Flat(centrals, |centrals|)|, |Flat(locals, |locals|)|), i);
    }
    var parse := (at: nat) => ReadEntry(b, at, env);
    PlacesParse(env, es, locals, centrals, b, parse);
    PlacesRead(parse, |Flat(locals, |locals|)|, centrals, ExpectedAll(env, es));
    ReadsDirectory(b, parse, |es|, |Flat(locals, |locals|)|);
  }

  lemma {:induction false} EndIn(b: Bytes, e: Bytes, count: nat, size: nat, offset: nat)
    requires |b| >= 22 && e == EndRecord(count, size, offset) && b[|b| - 22..] == e && count <= MAX16 && offset <= MAX32
    ensures FindEnd(b, |b| - 22) == Some(|b| - 22) && U16(b, |b| - 12) == count && U32(b, |b| - 6) == offset
  {
    LiesIff(b, |b| - 22, e);
    assert b[|b| - 22..|b| - 22 + |e|] == b[|b| - 22..];
    assert forall i :: 0 <= i < 22 ==> e[i] == EndByte(count, size, offset, i);
    Num4In(b, |b| - 22, e, 0);
    Num2In(b, |b| - 22, e, 10);
    Num4In(b, |b| - 22, e, 16);
    Four(e, 0, SIG_END);
    Two(e, 10, count);
    Four(e, 16, offset);
  }

  lemma {:induction false} PrefixNotRefused(env: Env, es: seq<Item>, n: nat)
    requires n <= |es| && |es| <= MAX16 && (forall i :: 0 <= i < |es| ==> |DataOf(es[i])| <= MAX32)
      && |Locals(env, es, |es|)| <= MAX32
    ensures Refusal(env, es, n).None?
    decreases n
  {
    FlatGrows(LocalParts(env, es), n, |es|);
    if n > 0 { PrefixNotRefused(env, es, n - 1); }
  }

  lemma {:induction false} PartsFit(env: Env, es: seq<Item>)
    ensures AllPartsOf(env, es, LocalParts(env, es), CentralParts(env, es))
  {
  }

  /** The archive of these entries is read as the same entries, in order. */
  lemma {:induction false} ReadBack(es: seq<Item>, env: Env)
    requires forall i :: 0 <= i < |es| ==> Fits(env, es[i])
    requires |es| < MAX16 && |Locals(env, es, |es|)| < MAX32
    ensures Read(Archive(env, es), env) == Ok(ExpectedAll(env, es))
  {
    PartsFit(env, es);
    PartsReadBack(env, es, LocalParts(env, es), CentralParts(env, es), Archive(env, es));
  }

  /** The writer takes them, and the reader gives them back. */
  lemma {:induction false} RoundTrip(es: seq<Item>, env: Env)
    requires forall i :: 0 <= i < |es| ==> Fits(env, es[i])
    requires |es| < MAX16 && |Locals(env, es, |es|)| < MAX32
    ensures Written(env, es).Ok? && Read(Written(env, es).value, env) == Ok(ExpectedAll(env, es))
  {
    PrefixNotRefused(env, es, |es|);
    ReadBack(es, env);
  }

  lemma {:induction false} PartsAtTheLimit(locals: seq<Bytes>, centrals: seq<Bytes>, b: Bytes, env: Env)
    requires b == Assembled(locals, centrals) && |locals| <= MAX16 && |Flat(locals, |locals|)| <= MAX32
    requires |locals| == MAX16 || |Flat(locals, |locals|)| == MAX32
    ensures Read(b, env) == Err(Zip64)
  {
    EndFound(locals, centrals, b);
    ReadsZip64(b, env, |locals|, |Flat(locals, |locals|)|);
  }

  /** At the limits: what the writer still takes with one entry or one byte more, the reader refuses. */
  lemma {:induction false} AtTheLimit(es: seq<Item>, env: Env)
    requires Written(env, es).Ok? && !(|es| < MAX16 && |Locals(env, es, |es|)| < MAX32)
    ensures Read(Written(env, es).value, env) == Err(Zip64)
  {
    TakenWithinLimits(env, es, |es|);
    PartsAtTheLimit(LocalParts(env, es), CentralParts(env, es), Archive(env, es), env);
  }

  lemma {:induction false} TakenWithinLimits(env: Env, es: seq<Item>, n: nat)
    requires n <= |es| && Refusal(env, es, n).None?
    ensures n <= MAX16 && |Locals(env, es, n)| <= MAX32
    decreases n
  {
    if n > 0 { TakenWithinLimits(env, es, n - 1); }
  }

  /** What is asked of an entry: a clean path, numbers in range, and a checksum, where one is given, that is right. */
  ghost predicate Sound(e: Item) {
    InRange(e) && IsClean(e.path) && (e.crc.Some? && !e.kind.DirKind? ==> e.crc.value == CrcNumber(e.data))
  }

  lemma {:induction false} SoundFits(e: Item, dos: (nat, nat) -> nat)
    requires Sound(e)
    ensures Fits(Env(CrcNumber, dos, CleanPath), e)
  {
    CleanStays(e.path, e.kind.DirKind?, NameOf(e));
    EmptyIsZero();
  }

  /** With the CRC-32 both sides compute and the reader's check of names. */
  lemma {:induction false} SoundRoundTrip(es: seq<Item>, dos: (nat, nat) -> nat)
    requires forall i :: 0 <= i < |es| ==> Sound(es[i])
    ensures var env := Env(CrcNumber, dos, CleanPath); Written(env, es).Ok? ==>
      (Read(Written(env, es).value, env) == Ok(ExpectedAll(env, es)) <==>
        |es| < MAX16 && |Locals(env, es, |es|)| < MAX32)
    ensures var env := Env(CrcNumber, dos, CleanPath);
      Written(env, es).Ok? <==> |es| <= MAX16 && |Locals(env, es, |es|)| <= MAX32
  {
    var env := Env(CrcNumber, dos, CleanPath);
    forall i | 0 <= i < |es| ensures Fits(env, es[i]) { SoundFits(es[i], dos); }
    if |es| < MAX16 && |Locals(env, es, |es|)| < MAX32 {
      RoundTrip(es, env);
    } else if Written(env, es).Ok? {
      TakenWithinLimits(env, es, |es|);
      AtTheLimit(es, env);
    }
    if |es| <= MAX16 && |Locals(env, es, |es|)| <= MAX32 { PrefixNotRefused(env, es, |es|); }
  }
}
