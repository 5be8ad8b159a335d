/**
 The reader of ZIP archives on any bytes at all (host/zip.js): what it takes for an entry it has checked, and what it
 refuses it says why.
 */
module ZipReader {
  import opened ByteStrings
  import opened Zip

  /** Where the data of a record's entry is, by the local header it points to. */
  function LocalData(b: Bytes, local: nat): nat
    requires local + 30 <= |b|
  {
    local + 30 + U16(b, local + 26) + U16(b, local + 28)
  }

  /** Where the fields of a directory record stand. */
  ghost predicate IsHeader(b: Bytes, at: nat, h: Header) {
    && at + 46 <= |b| && h.signature == U32(b, at) && h.madeBy == U16(b, at + 4) && h.flags == U16(b, at + 8)
    && h.compression == U16(b, at + 10) && h.dosTime == U16(b, at + 12) && h.dosDate == U16(b, at + 14)
    && h.crc == U32(b, at + 16) && h.size == U32(b, at + 24) && h.nameLength == U16(b, at + 28)
    && h.extraLength == U16(b, at + 30) && h.commentLength == U16(b, at + 32) && h.external == U32(b, at + 38)
    && h.localOffset == U32(b, at + 42)
  }

  /** The name and the extra fields of a record lie in the archive. */
  predicate Lies(b: Bytes, at: nat, h: Header) { at + 46 + h.nameLength + h.extraLength <= |b| }

  function NameOf(b: Bytes, at: nat, h: Header): Bytes
    requires Lies(b, at, h)
  {
    b[at + 46..at + 46 + h.nameLength]
  }

  /** The extra fields of a record, up to a time if there is one, lie in their part of it. */
  predicate Whole(b: Bytes, at: nat, h: Header)
    requires Lies(b, at, h)
  {
    !ExtraMtime(b, at + 46 + h.nameLength, at + 46 + h.nameLength + h.extraLength).Cut?
  }

  /** A record's data: its local header is one, and what is there has the record's checksum. */
  ghost predicate DataThere(b: Bytes, h: Header, env: Env) {
    && h.localOffset + 30 <= |b| && U32(b, h.localOffset) == 0x04034b50
    && LocalData(b, h.localOffset) + h.size <= |b|
    && env.crc(b[LocalData(b, h.localOffset)..LocalData(b, h.localOffset) + h.size]) == h.crc
  }

  /** A record that may be read: not encrypted, stored, of a safe name, its data there and right. */
  ghost predicate Readable(b: Bytes, at: nat, h: Header, env: Env) {
    && h.signature == 0x02014b50 && h.flags % 2 == 0 && h.compression == 0 && Lies(b, at, h)
    && env.clean(NameOf(b, at, h)).Clean? && DataThere(b, h, env)
  }

  /** The entry such a record stands for. */
  ghost predicate StandsFor(b: Bytes, at: nat, h: Header, env: Env, e: Entry)
    requires Readable(b, at, h, env)
  {
    var start, name := LocalData(b, h.localOffset), NameOf(b, at, h);
    var mode := if h.madeBy / 256 == 3 then h.external / 65536 % 65536 else 0;
    && env.clean(name) == Clean(e.path) && e.path != [] && e.crc == h.crc
    && (e.kind.DirKind? <==> (name != [] && name[|name| - 1] == 47) || mode / 4096 == 4)
    && (e.kind.LinkKind? <==> !e.kind.DirKind? && mode / 4096 == 10)
    && e.data == (if e.kind.DirKind? then [] else b[start..start + h.size])
    && e.mode == (if mode % 4096 != 0 then mode % 4096 else if e.kind.FileKind? then 0x1A4 else 0x1ED)
  }

  lemma {:induction false} HeaderRead(b: Bytes, at: nat, env: Env) returns (h: Header)
    requires at + 46 <= |b|
    ensures IsHeader(b, at, h)
    ensures ReadEntry(b, at, env) == if h.signature != 0x02014b50 then Stop(Corrupt) else ReadBody(b, at, h, env)
  {
    h := HeaderAt(b, at);
  }

  lemma {:induction false} BodyRead(b: Bytes, at: nat, h: Header, env: Env) returns (mtime: nat)
    requires at + 46 <= |b| && Lies(b, at, h) && Whole(b, at, h)
    ensures ReadBody(b, at, h, env)
      == EntryFrom(env, b, h, NameOf(b, at, h), mtime, at + 46 + h.nameLength + h.extraLength + h.commentLength)
  {
    var extras := at + 46 + h.nameLength;
    var stamp := ExtraMtime(b, extras, extras + h.extraLength);
    mtime := TimedAs(env, b, h, NameOf(b, at, h), stamp, extras + h.extraLength + h.commentLength);
  }

  lemma {:induction false} TimedAs(env: Env, b: Bytes, h: Header, name: Bytes, stamp: Stamp, next: nat)
      returns (mtime: nat)
    requires !stamp.Cut?
    ensures Timed(env, b, h, name, stamp, next) == EntryFrom(env, b, h, name, mtime, next)
  {
    mtime := if stamp.Stamp? then stamp.time else env.dos(h.dosTime, h.dosDate);
  }

  /** What is taken for an entry is one, with the record's own data, name, mode and checksum. */
  lemma {:induction false} TakenIsReadable(b: Bytes, at: nat, env: Env) returns (h: Header)
    requires ReadEntry(b, at, env).Take?
    ensures IsHeader(b, at, h) && Readable(b, at, h, env) && StandsFor(b, at, h, env, ReadEntry(b, at, env).entry)
    ensures ReadEntry(b, at, env).next == at + 46 + h.nameLength + h.extraLength + h.commentLength
  {
    h := HeaderRead(b, at, env);
    BodyTaken(b, at, h, env);
  }

  lemma {:induction false} BodyTaken(b: Bytes, at: nat, h: Header, env: Env)
    requires at + 46 <= |b| && h.signature == 0x02014b50 && ReadBody(b, at, h, env).Take?
    ensures Readable(b, at, h, env) && StandsFor(b, at, h, env, ReadBody(b, at, h, env).entry)
    ensures ReadBody(b, at, h, env).next == at + 46 + h.nameLength + h.extraLength + h.commentLength
  {
    var mtime := BodyRead(b, at, h, env);
  }

  /** What is skipped is the root itself, under one of its names. */
  lemma {:induction false} SkippedIsRoot(b: Bytes, at: nat, env: Env) returns (h: Header)
    requires ReadEntry(b, at, env).Skip?
    ensures IsHeader(b, at, h) && Lies(b, at, h) && env.clean(NameOf(b, at, h)) == Clean([])
    ensures ReadEntry(b, at, env).next == at + 46 + h.nameLength + h.extraLength + h.commentLength
  {
    h := HeaderRead(b, at, env);
    var mtime := BodyRead(b, at, h, env);
  }

  /** Why a record that lies in the archive is refused: the first reason that holds. */
  ghost predicate RefusedRight(r: Step, b: Bytes, at: nat, h: Header, env: Env)
    requires Lies(b, at, h)
  {
    var clean := env.clean(NameOf(b, at, h));
    && (r == Stop(Encrypted) <==> h.flags % 2 == 1)
    && (r == Stop(Compressed) <==> h.flags % 2 == 0 && h.compression != 0)
    && (r == Stop(UnsafePath) <==> h.flags % 2 == 0 && h.compression == 0 && clean.Unsafe?)
    && (r == Stop(Corrupt) <==>
      h.flags % 2 == 0 && h.compression == 0 && clean.Clean? && clean != Clean([]) && !DataThere(b, h, env))
  }

  lemma {:induction false} RefusedFor(b: Bytes, at: nat, h: Header, env: Env)
    requires IsHeader(b, at, h) && h.signature == 0x02014b50 && Lies(b, at, h) && Whole(b, at, h)
    ensures RefusedRight(ReadEntry(b, at, env), b, at, h, env)
  {
    var h' := HeaderRead(b, at, env);
    assert h' == h;
    var mtime := BodyRead(b, at, h, env);
    RestRefused(b, at, h, env, mtime, at + 46 + h.nameLength + h.extraLength + h.commentLength);
  }

  lemma {:induction false} RestRefused(b: Bytes, at: nat, h: Header, env: Env, mtime: nat, next: nat)
    requires Lies(b, at, h)
    ensures RefusedRight(EntryFrom(env, b, h, NameOf(b, at, h), mtime, next), b, at, h, env)
  {
  }

  /** Every entry of a directory was taken at some place. */
  lemma {:induction false} TakenAt(parse: nat -> Step, at: nat, n: nat, es: seq<Entry>, i: nat) returns (p: nat)
    requires ReadEntries(parse, at, n) == Ok(es) && i < |es|
    ensures parse(p).Take? && parse(p).entry == es[i]
    decreases n
  {
    match parse(at)
    case Skip(next) => p := TakenAt(parse, next, n - 1, es, i);
    case Take(e, next) =>
      var rest := ReadEntries(parse, next, n - 1).value;
      assert es == [e] + rest;
      if i == 0 { p := at; } else { p := TakenAt(parse, next, n - 1, rest, i - 1); }
  }

  lemma {:induction false} DirectoryOf(b: Bytes, parse: nat -> Step) returns (at: nat, n: nat)
    requires ReadWith(b, parse).Ok?
    ensures ReadEntries(parse, at, n) == ReadWith(b, parse)
  {
    var end := FindEnd(b, |b| - 22).value;
    at, n := U32(b, end + 16), U16(b, end + 10);
  }

  /** On any bytes: an archive is read as nothing but entries that are there, whole and right. */
  lemma {:induction false} ReadsOnlyWhatIsThere(b: Bytes, env: Env, i: nat) returns (p: nat, h: Header)
    requires Read(b, env).Ok? && i < |Read(b, env).value|
    ensures IsHeader(b, p, h) && Readable(b, p, h, env) && StandsFor(b, p, h, env, Read(b, env).value[i])
  {
    var parse := (at: nat) => ReadEntry(b, at, env);
    var at, n := DirectoryOf(b, parse);
    p := TakenAt(parse, at, n, Read(b, env).value, i);
    h := TakenIsReadable(b, p, env);
  }

  predicate BadPart(p: Bytes) { p == [46, 46] || 0 in p }

  /** A name is unsafe exactly if a part of it is "..", or has a NUL in it. */
  lemma {:induction false} UnsafeExactly(name: Bytes)
    ensures CleanPath(name) == Unsafe <==> exists p :: p in Split(name) && BadPart(p)
  {
    var all, kept := Split(name), Kept(Split(name));
    forall p | BadPart(p) ensures p in kept <==> p in all { KeptFrom(all, p); }
    if p :| p in kept && BadPart(p) {
      var i :| 0 <= i < |kept| && kept[i] == p;
    }
    if i :| 0 <= i < |kept| && BadPart(kept[i]) { assert kept[i] in kept; }
  }

  lemma {:induction false} KeptFrom(ps: seq<Bytes>, p: Bytes)
    ensures p in Kept(ps) <==> p in ps && p != [] && p != [DOT]
    decreases |ps|
  {
    if ps != [] {
      KeptFrom(ps[1..], p);
      assert ps == [ps[0]] + ps[1..];
    }
  }
}
