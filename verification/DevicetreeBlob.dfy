/** The device tree writer at work, and its blob read back (engine/src/devicetree.rs). */
module DevicetreeBlob {
  import opened ByteStrings
  import opened Devicetree
  import opened DevicetreeProofs

  // ---- the names referred to ------------------------------------------------------------------------------

  /** The first entry with that name, or how many there are. */
  function FindName(strings: seq<StringRef>, name: Bytes): (r: nat)
    ensures r <= |strings| && (r < |strings| ==> strings[r].name == name)
      && forall s :: 0 <= s < r ==> strings[s].name != name
  {
    if strings == [] || strings[0].name == name then 0 else 1 + FindName(strings[1..], name)
  }

  function WithRef(strings: seq<StringRef>, name: Bytes, at: nat): seq<StringRef> {
    var s := FindName(strings, name);
    if s < |strings| then strings[s := strings[s].(refs := strings[s].refs + [at])]
      else strings + [StringRef(name, [at])]
  }

  /** The names of the first `n` tokens' properties, each with the slots of its offset; the structure is at `base`. */
  function RefsTo(tokens: seq<Token>, base: nat, n: nat): seq<StringRef>
    requires n <= |tokens|
  {
    if n == 0 then []
    else
      var before := RefsTo(tokens, base, n - 1);
      if tokens[n - 1].Prop? then WithRef(before, tokens[n - 1].name, Slot(tokens, base, n - 1)) else before
  }

  predicate NamesApart(strings: seq<StringRef>) {
    forall s, t :: 0 <= s < t < |strings| ==> strings[s].name != strings[t].name
  }

  predicate IsSlotOf(tokens: seq<Token>, base: nat, n: nat, name: Bytes, at: nat, i: nat) {
    i < n <= |tokens| && tokens[i].Prop? && tokens[i].name == name && Slot(tokens, base, i) == at
  }

  ghost predicate RefRight(strings: seq<StringRef>, tokens: seq<Token>, base: nat, n: nat, s: nat, j: nat)
    requires s < |strings| && j < |strings[s].refs|
  {
    exists i: nat :: IsSlotOf(tokens, base, n, strings[s].name, strings[s].refs[j], i)
  }

  /** Property `i`'s slot is among those of its name. */
  predicate Covered(strings: seq<StringRef>, tokens: seq<Token>, base: nat, i: nat)
    requires i < |tokens|
  {
    tokens[i].Prop? ==> var s := FindName(strings, tokens[i].name);
      s < |strings| && Slot(tokens, base, i) in strings[s].refs
  }

  ghost predicate RefsRight(strings: seq<StringRef>, tokens: seq<Token>, base: nat, n: nat)
    requires n <= |tokens|
  {
    && NamesApart(strings)
    && (forall s, j :: 0 <= s < |strings| && 0 <= j < |strings[s].refs| ==> RefRight(strings, tokens, base, n, s, j))
    && (forall i :: 0 <= i < n ==> Covered(strings, tokens, base, i))
  }

  /** A name found stays found where it is. */
  lemma {:induction false} FindUnique(strings: seq<StringRef>, name: Bytes, s: nat)
    requires NamesApart(strings) && s < |strings| && strings[s].name == name
    ensures FindName(strings, name) == s
  {
    assert forall r :: 0 <= r < s ==> strings[r].name != strings[s].name;
  }

  lemma {:induction false} WithRefApart(strings: seq<StringRef>, name: Bytes, at: nat)
    requires NamesApart(strings)
    ensures NamesApart(WithRef(strings, name, at))
  {
    var s := FindName(strings, name);
    var now := WithRef(strings, name, at);
    forall a, b | 0 <= a < b < |now| ensures now[a].name != now[b].name {
      if b < |strings| { assert now[a].name == strings[a].name && now[b].name == strings[b].name; }
    }
  }

  /** Each entry keeps its name and slots, and the one with that name has one more. */
  lemma {:induction false} WithRefKeeps(strings: seq<StringRef>, name: Bytes, at: nat, other: Bytes, slot: nat)
    requires NamesApart(strings)
    requires (other == name && slot == at)
      || (FindName(strings, other) < |strings| && slot in strings[FindName(strings, other)].refs)
    ensures var now := WithRef(strings, name, at);
      FindName(now, other) < |now| && slot in now[FindName(now, other)].refs
  {
    var now, s := WithRef(strings, name, at), FindName(strings, name);
    WithRefApart(strings, name, at);
    if other == name && slot == at {
      FindUnique(now, name, s);
      assert now[s].refs[|now[s].refs| - 1] == at;
    } else {
      var o := FindName(strings, other);
      FindUnique(now, other, o);
      if o == s {
        var j :| 0 <= j < |strings[o].refs| && strings[o].refs[j] == slot;
        assert now[o].refs[j] == slot;
      }
    }
  }

  lemma {:induction false} WithRefRight(strings: seq<StringRef>, tokens: seq<Token>, base: nat, n: nat, s: nat, j: nat)
    requires n < |tokens| && tokens[n].Prop?
    requires forall a, b :: 0 <= a < |strings| && 0 <= b < |strings[a].refs| ==>
      RefRight(strings, tokens, base, n, a, b)
    requires var now := WithRef(strings, tokens[n].name, Slot(tokens, base, n)); s < |now| && j < |now[s].refs|
    ensures RefRight(WithRef(strings, tokens[n].name, Slot(tokens, base, n)), tokens, base, n + 1, s, j)
  {
    var name, at := tokens[n].name, Slot(tokens, base, n);
    var now := WithRef(strings, name, at);
    if s < |strings| && j < |strings[s].refs| {
      assert RefRight(strings, tokens, base, n, s, j);
      var i :| IsSlotOf(tokens, base, n, strings[s].name, strings[s].refs[j], i);
      assert IsSlotOf(tokens, base, n + 1, now[s].name, now[s].refs[j], i);
    } else {
      assert now[s].name == name && now[s].refs[j] == at;
      assert IsSlotOf(tokens, base, n + 1, now[s].name, now[s].refs[j], n);
    }
  }

  /** Every slot is under its property's name, and nothing else is. */
  lemma {:induction false} RefsToRight(tokens: seq<Token>, base: nat, n: nat)
    requires n <= |tokens|
    ensures RefsRight(RefsTo(tokens, base, n), tokens, base, n)
    decreases n
  {
    if n > 0 {
      RefsToRight(tokens, base, n - 1);
      var was, now := RefsTo(tokens, base, n - 1), RefsTo(tokens, base, n);
      if tokens[n - 1].Prop? {
        WithRefApart(was, tokens[n - 1].name, Slot(tokens, base, n - 1));
        forall s, j | 0 <= s < |now| && 0 <= j < |now[s].refs| ensures RefRight(now, tokens, base, n, s, j) {
          WithRefRight(was, tokens, base, n - 1, s, j);
        }
        forall i | 0 <= i < n ensures Covered(now, tokens, base, i) {
          if tokens[i].Prop? {
            if i < n - 1 { assert Covered(was, tokens, base, i); }
            WithRefKeeps(was, tokens[n - 1].name, Slot(tokens, base, n - 1), tokens[i].name, Slot(tokens, base, i));
          }
        }
      } else {
        forall s, j | 0 <= s < |now| && 0 <= j < |now[s].refs| ensures RefRight(now, tokens, base, n, s, j) {
          assert RefRight(was, tokens, base, n - 1, s, j);
          var i :| IsSlotOf(tokens, base, n - 1, was[s].name, was[s].refs[j], i);
          assert IsSlotOf(tokens, base, n, now[s].name, now[s].refs[j], i);
        }
        forall i | 0 <= i < n ensures Covered(now, tokens, base, i) {
          if i < n - 1 { assert Covered(was, tokens, base, i); }
        }
      }
    }
  }

  // ---- the offsets ----------------------------------------------------------------------------------------

  /** Where a name is in the strings block. */
  function NameOffset(strings: seq<StringRef>, name: Bytes): nat { |Flat(Strings(strings), FindName(strings, name))| }

  function OffsetsFor(tokens: seq<Token>, strings: seq<StringRef>): (r: seq<nat>)
    ensures |r| == |tokens| && forall i {:trigger r[i]} :: 0 <= i < |tokens| ==> r[i] == if tokens[i].Prop?
      then NameOffset(strings, tokens[i].name) else 0
  {
    seq(|tokens|, i requires 0 <= i < |tokens| => if tokens[i].Prop? then NameOffset(strings, tokens[i].name) else 0)
  }

  lemma {:induction false} PlaceGrows(tokens: seq<Token>, i: nat, j: nat)
    requires i < j <= |tokens|
    ensures Place(tokens, i) < Place(tokens, j)
    decreases j
  {
    if i < j - 1 { PlaceGrows(tokens, i, j - 1); }
  }

  lemma {:induction false} SlotsApart(tokens: seq<Token>, base: nat, i: nat, j: nat)
    requires i < |tokens| && j < |tokens| && Slot(tokens, base, i) == Slot(tokens, base, j)
    ensures i == j
  {
    if i < j { PlaceGrows(tokens, i, j); } else if j < i { PlaceGrows(tokens, j, i); }
  }

  /** Offset `i` while `done` of the names, and `part` of the next one's slots, are filled in. */
  predicate FilledAt(tokens: seq<Token>, strings: seq<StringRef>, base: nat, offsets: seq<nat>, done: nat, part: nat,
      i: nat)
    requires i < |tokens| == |offsets| && done <= |strings| && (done < |strings| ==> part <= |strings[done].refs|)
  {
    offsets[i] ==
      if !tokens[i].Prop? then 0
      else
        var s := FindName(strings, tokens[i].name);
        if s < done || (s == done && done < |strings| && Slot(tokens, base, i) in strings[done].refs[..part])
          then NameOffset(strings, tokens[i].name) else 0
  }

  predicate Filled(tokens: seq<Token>, strings: seq<StringRef>, base: nat, offsets: seq<nat>, done: nat, part: nat)
    requires |tokens| == |offsets| && done <= |strings| && (done < |strings| ==> part <= |strings[done].refs|)
  {
    forall i :: 0 <= i < |tokens| ==> FilledAt(tokens, strings, base, offsets, done, part, i)
  }

  /** One more slot filled in: it is one property's. */
  lemma {:induction false} FillOne(tokens: seq<Token>, strings: seq<StringRef>, base: nat, offsets: seq<nat>,
      done: nat, part: nat, i: nat)
    requires |tokens| == |offsets| && done < |strings| && part < |strings[done].refs| && NamesApart(strings)
    requires Filled(tokens, strings, base, offsets, done, part)
    requires IsSlotOf(tokens, base, |tokens|, strings[done].name, strings[done].refs[part], i)
    ensures Filled(tokens, strings, base, offsets[i := NameOffset(strings, strings[done].name)], done, part + 1)
  {
    var refs := strings[done].refs;
    var now := offsets[i := NameOffset(strings, strings[done].name)];
    FindUnique(strings, strings[done].name, done);
    var part1 := part + 1;
    forall k | 0 <= k < |tokens| ensures FilledAt(tokens, strings, base, now, done, part1, k) {
      assert FilledAt(tokens, strings, base, offsets, done, part, k);
      assert refs[..part + 1] == refs[..part] + [refs[part]];
      if k == i {
        assert refs[part] in refs[..part + 1];
      } else if tokens[k].Prop? && Slot(tokens, base, k) == refs[part] {
        SlotsApart(tokens, base, k, i);
      }
    }
  }

  /** All of a name's slots filled in. */
  lemma {:induction false} FillNext(tokens: seq<Token>, strings: seq<StringRef>, base: nat, offsets: seq<nat>,
      done: nat)
    requires |tokens| == |offsets| && done < |strings| && RefsRight(strings, tokens, base, |tokens|)
    requires Filled(tokens, strings, base, offsets, done, |strings[done].refs|)
    ensures Filled(tokens, strings, base, offsets, done + 1, 0)
  {
    var refs := strings[done].refs;
    assert refs[..|refs|] == refs;
    var done1 := done + 1;
    forall k | 0 <= k < |tokens| ensures FilledAt(tokens, strings, base, offsets, done1, 0, k) {
      assert FilledAt(tokens, strings, base, offsets, done, |refs|, k) && Covered(strings, tokens, base, k);
    }
  }

  lemma {:induction false} FillAll(tokens: seq<Token>, strings: seq<StringRef>, base: nat, offsets: seq<nat>)
    requires |tokens| == |offsets| && RefsRight(strings, tokens, base, |tokens|)
      && Filled(tokens, strings, base, offsets, |strings|, 0)
    ensures offsets == OffsetsFor(tokens, strings)
  {
    forall i | 0 <= i < |tokens| ensures offsets[i] == OffsetsFor(tokens, strings)[i] {
      assert FilledAt(tokens, strings, base, offsets, |strings|, 0, i) && Covered(strings, tokens, base, i);
    }
  }

  lemma {:induction false} FillNone(tokens: seq<Token>, strings: seq<StringRef>, base: nat)
    ensures Filled(tokens, strings, base, Nothing(|tokens|), 0, 0)
  {
    forall i | 0 <= i < |tokens| ensures FilledAt(tokens, strings, base, Nothing(|tokens|), 0, 0, i) {
      if strings != [] { assert strings[0].refs[..0] == []; }
    }
  }

  function Nothing(n: nat): (r: seq<nat>)
    ensures |r| == n && forall i :: 0 <= i < n ==> r[i] == 0
  {
    seq(n, _ => 0)
  }

  /** With them, every property's offset leads to its name. */
  lemma {:induction false} OffsetsRight(tokens: seq<Token>, base: nat, k: nat)
    requires k < |tokens| && TokenFits(tokens[k])
    requires var strings := RefsTo(tokens, base, |tokens|); |Flat(Strings(strings), |strings|)| < LIMIT
    ensures var strings := RefsTo(tokens, base, |tokens|);
      NamedRight(tokens, OffsetsFor(tokens, strings), Flat(Strings(strings), |strings|), k)
  {
    if tokens[k].Prop? {
      var strings := RefsTo(tokens, base, |tokens|);
      RefsToRight(tokens, base, |tokens|);
      assert Covered(strings, tokens, base, k);
      var s := FindName(strings, tokens[k].name);
      StringLies(strings, s);
      FlatGrows(Strings(strings), s, |strings|);
    }
  }

  // ---- the writer -----------------------------------------------------------------------------------------

  /** Names within what the writer asserts. */
  predicate ShortNames(name: Bytes, node: Node)
    decreases node
  {
    |name| <= NAME_MAX && (forall i :: 0 <= i < |node.properties| ==> |node.properties[i].name| <= NAME_MAX)
      && ShortChildren(node.children)
  }

  predicate ShortChildren(children: Children)
    decreases children
  {
    match children
    case NoMore => true
    case Child(name, node, rest) => ShortNames(name, node) && ShortChildren(rest)
  }

  lemma {:induction false} PlacePrefix(tokens: seq<Token>, t: Token, n: nat)
    requires n <= |tokens|
    ensures Place(tokens + [t], n) == Place(tokens, n)
    decreases n
  {
    if n > 0 { PlacePrefix(tokens, t, n - 1); }
  }

  lemma {:induction false} RefsPrefix(tokens: seq<Token>, t: Token, base: nat, n: nat)
    requires n <= |tokens|
    ensures RefsTo(tokens + [t], base, n) == RefsTo(tokens, base, n)
    decreases n
  {
    if n > 0 {
      RefsPrefix(tokens, t, base, n - 1);
      PlacePrefix(tokens, t, n - 1);
    }
  }

  lemma {:induction false} StructSnoc(tokens: seq<Token>, t: Token)
    ensures Struct(tokens + [t], Nothing(|tokens| + 1)) == Struct(tokens, Nothing(|tokens|)) + TokenBytes(t, 0)
  {
    var was, now := Parts(tokens, Nothing(|tokens|)), Parts(tokens + [t], Nothing(|tokens| + 1));
    forall k | 0 <= k < |tokens| ensures now[k] == was[k] { assert (tokens + [t])[k] == tokens[k]; }
    assert now[|tokens|] == TokenBytes(t, 0);
    FlatFirst(was, now, |tokens|);
  }

  lemma {:induction false} FlatFirst(parts: seq<Bytes>, parts': seq<Bytes>, n: nat)
    requires n <= |parts| && n <= |parts'| && forall k :: 0 <= k < n ==> parts'[k] == parts[k]
    ensures Flat(parts', n) == Flat(parts, n)
    decreases n
  {
    if n > 0 { FlatFirst(parts, parts', n - 1); }
  }

  /** The bytes and references of some tokens, put down one after another. */
  function BytesFor(front: Bytes, tokens: seq<Token>): Bytes {
    if tokens == [] then front else BytesFor(front, tokens[..|tokens| - 1]) + TokenBytes(tokens[|tokens| - 1], 0)
  }

  function RefsFor(front: Bytes, tokens: seq<Token>): seq<StringRef> {
    if tokens == [] then []
    else
      var before, t := tokens[..|tokens| - 1], tokens[|tokens| - 1];
      if t.Prop? then WithRef(RefsFor(front, before), t.name, |BytesFor(front, before)| + 8) else RefsFor(front, before)
  }

  /** What is written so far, of these tokens. */
  ghost predicate Written(front: Bytes, tokens: seq<Token>, bytes: Bytes, strings: seq<StringRef>) {
    |bytes| % 4 == 0 && bytes == BytesFor(front, tokens) && strings == RefsFor(front, tokens)
  }

  /** One token more. */
  lemma {:induction false} Followed(front: Bytes, tokens: seq<Token>, bytes: Bytes, strings: seq<StringRef>, t: Token)
    requires Written(front, tokens, bytes, strings)
    ensures Written(front, tokens + [t], bytes + TokenBytes(t, 0), if t.Prop?
      then WithRef(strings, t.name, |bytes| + 8) else strings)
  {
    assert (tokens + [t])[..|tokens|] == tokens;
    TokenSized(t, 0);
  }

  lemma {:induction false} ForSnoc(front: Bytes, tokens: seq<Token>, t: Token)
    ensures BytesFor(front, tokens + [t]) == BytesFor(front, tokens) + TokenBytes(t, 0)
    ensures RefsFor(front, tokens + [t]) == if t.Prop?
      then WithRef(RefsFor(front, tokens), t.name, |BytesFor(front, tokens)| + 8) else RefsFor(front, tokens)
  {
    assert (tokens + [t])[..|tokens|] == tokens;
  }

  lemma {:induction false} BytesSnoc(front: Bytes, tokens: seq<Token>, t: Token, st: Bytes)
    requires BytesFor(front, tokens) == front + st
    ensures BytesFor(front, tokens + [t]) == front + (st + TokenBytes(t, 0))
  {
    ForSnoc(front, tokens, t);
    assert front + st + TokenBytes(t, 0) == front + (st + TokenBytes(t, 0));
  }

  lemma {:induction false} RefsForSnoc(front: Bytes, tokens: seq<Token>, t: Token)
    requires |BytesFor(front, tokens)| == |front| + Place(tokens, |tokens|)
      && RefsFor(front, tokens) == RefsTo(tokens, |front|, |tokens|)
    ensures RefsFor(front, tokens + [t]) == RefsTo(tokens + [t], |front|, |tokens| + 1)
  {
    ForSnoc(front, tokens, t);
    RefsSnoc(tokens, t, |front|);
  }

  lemma {:induction false} WrittenIs(front: Bytes, tokens: seq<Token>)
    ensures BytesFor(front, tokens) == front + Struct(tokens, Nothing(|tokens|))
      && RefsFor(front, tokens) == RefsTo(tokens, |front|, |tokens|)
    decreases |tokens|
  {
    if tokens == [] {
      assert front + [] == front;
    } else {
      var before, t := tokens[..|tokens| - 1], tokens[|tokens| - 1];
      WrittenIs(front, before);
      PlaceIs(before, Nothing(|before|), |before|);
      BytesSnoc(front, before, t, Struct(before, Nothing(|before|)));
      RefsForSnoc(front, before, t);
      StructSnoc(before, t);
      assert before + [t] == tokens;
    }
  }

  lemma {:induction false} RefsSnoc(tokens: seq<Token>, t: Token, base: nat)
    ensures var was := RefsTo(tokens, base, |tokens|);
      RefsTo(tokens + [t], base, |tokens| + 1) == if t.Prop?
        then WithRef(was, t.name, base + Place(tokens, |tokens|) + 8) else was
  {
    RefsPrefix(tokens, t, base, |tokens|);
    PlacePrefix(tokens, t, |tokens|);
  }

  /** A property's bytes, put down in the writer's steps. */
  lemma {:induction false} PropSteps(was: Bytes, name: Bytes, data: Bytes)
    requires |was| % 4 == 0
    ensures var put := was + Be4(PROP) + Be4(|data|) + Be4(0) + data;
      put + Padding(put) == was + TokenBytes(Prop(name, data), 0)
  {
    var head := Be4(PROP) + Be4(|data|) + Be4(0);
    assert was + Be4(PROP) + Be4(|data|) + Be4(0) + data == was + head + data;
    PadBehind(was + head, data);
    assert was + head + (data + Padding(data)) == was + (head + data + Padding(data));
  }

  lemma {:induction false} BeginSteps(was: Bytes, name: Bytes)
    requires |was| % 4 == 0
    ensures var put := was + Be4(BEGIN_NODE) + name + [0]; put + Padding(put) == was + TokenBytes(Begin(name), 0)
  {
    assert was + Be4(BEGIN_NODE) + name + [0] == was + Begun(name);
    PadBehind(was, Begun(name));
  }

  lemma {:induction false} Aligned(b: Bytes)
    requires |b| % 4 == 0
    ensures b + Padding(b) == b
  {
  }

  lemma {:induction false} NodeSteps(was: seq<Token>, name: Bytes, node: Node, now: seq<Token>)
    requires now == was + [Begin(name)] + PropTokens(node.properties) + ChildTokens(node.children) + [End]
    ensures now == was + NodeTokens(name, node)
  {
    Assoc(was, [Begin(name)], PropTokens(node.properties), ChildTokens(node.children), [End]);
  }

  lemma {:induction false} Assoc(a: seq<Token>, b: seq<Token>, c: seq<Token>, d: seq<Token>, e: seq<Token>)
    ensures a + b + c + d + e == a + (b + c + d + e)
  {
  }

  lemma {:induction false} PropSnoc(was: seq<Token>, ps: seq<Property>, i: nat)
    requires i < |ps|
    ensures was + PropTokens(ps)[..i] + [Prop(ps[i].name, Encode(ps[i].value))] == was + PropTokens(ps)[..i + 1]
  {
    assert PropTokens(ps)[..i + 1] == PropTokens(ps)[..i] + [PropTokens(ps)[i]];
  }

  class Writer {
    var bytes: Bytes
    var strings: seq<StringRef>
    /** What was there before the structure block, and the block's tokens so far. */
    ghost var front: Bytes
    ghost var tokens: seq<Token>

    ghost predicate Valid()
      reads this
    {
      Written(front, tokens, bytes, strings)
    }

    constructor (before: Bytes)
      requires |before| % 4 == 0
      ensures Valid() && front == before && tokens == []
    {
      bytes, strings, front, tokens := before, [], before, [];
    }

    method Align()
      modifies this
      ensures bytes == old(bytes) + Padding(old(bytes)) && strings == old(strings) && front == old(front)
        && tokens == old(tokens)
    {
      while |bytes| % 4 != 0
        invariant |old(bytes)| <= |bytes| <= Align4(|old(bytes)|) && bytes == old(bytes) + Zeros(|bytes| - |old(bytes)|)
        invariant strings == old(strings) && front == old(front) && tokens == old(tokens)
        decreases Align4(|old(bytes)|) - |bytes|
      {
        bytes := bytes + [0];
      }
    }

    method Put(more: Bytes)
      modifies this
      ensures bytes == old(bytes) + more && strings == old(strings) && front == old(front) && tokens == old(tokens)
    {
      bytes := bytes + more;
    }

    method AddRef(name: Bytes, at: nat)
      modifies this
      ensures strings == WithRef(old(strings), name, at) && bytes == old(bytes) && front == old(front)
        && tokens == old(tokens)
    {
      var s := FindName(strings, name);
      if s < |strings| {
        strings := strings[s := strings[s].(refs := strings[s].refs + [at])];
      } else {
        strings := strings + [StringRef(name, [at])];
      }
    }

    method WalkBegin(name: Bytes)
      requires Valid()
      modifies this
      ensures Valid() && front == old(front) && tokens == old(tokens) + [Begin(name)]
    {
      Followed(front, tokens, bytes, strings, Begin(name));
      Aligned(bytes);
      BeginSteps(bytes, name);
      Align();
      Put(Be4(BEGIN_NODE));
      Put(name);
      Put([0]);
      Align();
      tokens := tokens + [Begin(name)];
    }

    method WalkProp(name: Bytes, value: Value)
      requires Valid()
      modifies this
      ensures Valid() && front == old(front) && tokens == old(tokens) + [Prop(name, Encode(value))]
    {
      var encoded := Encode(value);
      Followed(front, tokens, bytes, strings, Prop(name, encoded));
      Aligned(bytes);
      PropSteps(bytes, name, encoded);
      Align();
      Put(Be4(PROP));
      Put(Be4(|encoded|));
      var at := |bytes|;
      Put(Be4(0));
      AddRef(name, at);
      Put(encoded);
      Align();
      tokens := tokens + [Prop(name, encoded)];
    }

    method WalkEnd()
      requires Valid()
      modifies this
      ensures Valid() && front == old(front) && tokens == old(tokens) + [End]
    {
      Followed(front, tokens, bytes, strings, End);
      Aligned(bytes);
      Align();
      Put(Be4(END_NODE));
      tokens := tokens + [End];
    }

    method Walk(name: Bytes, node: Node)
      requires Valid() && ShortNames(name, node)
      modifies this
      ensures Valid() && front == old(front) && tokens == old(tokens) + NodeTokens(name, node)
      decreases node, 1
    {
      WalkBegin(name);
      WalkProps(node.properties);
      WalkChildren(node.children);
      WalkEnd();
      NodeSteps(old(tokens), name, node, tokens);
    }

    method WalkProps(ps: seq<Property>)
      requires Valid()
      modifies this
      ensures Valid() && front == old(front) && tokens == old(tokens) + PropTokens(ps)
    {
      assert tokens + PropTokens(ps)[..0] == tokens;
      for i := 0 to |ps|
        invariant Valid() && front == old(front) && tokens == old(tokens) + PropTokens(ps)[..i]
      {
        WalkProp(ps[i].name, ps[i].value);
        PropSnoc(old(tokens), ps, i);
      }
      assert PropTokens(ps)[..|ps|] == PropTokens(ps);
    }

    method WalkChildren(children: Children)
      requires Valid() && ShortChildren(children)
      modifies this
      ensures Valid() && front == old(front) && tokens == old(tokens) + ChildTokens(children)
      decreases children, 0
    {
      match children
      case NoMore =>
        assert tokens + [] == tokens;
      case Child(name, node, rest) =>
        Walk(name, node);
        WalkChildren(rest);
        assert old(tokens) + NodeTokens(name, node) + ChildTokens(rest) ==
          old(tokens) + (NodeTokens(name, node) + ChildTokens(rest));
    }
  }

  /** patch_u32 */
  method PatchU32(b: Bytes, at: nat, value: nat) returns (r: Bytes)
    requires at + 4 <= |b|
    ensures r == Patched(b, at, value)
  {
    r := b[..at] + Be4(value) + b[at + 4..];
  }

  /** A name's offset, put in all its slots. */
  method PatchName(ghost front: Bytes, ghost tokens: seq<Token>, strings: seq<StringRef>, s: nat, offset: nat,
      b: Bytes, ghost offsets: seq<nat>, ghost tail: Bytes)
    returns (r: Bytes, ghost now: seq<nat>)
    requires |offsets| == |tokens| && s < |strings| && offset == NameOffset(strings, strings[s].name)
    requires RefsRight(strings, tokens, |front|, |tokens|) && Filled(tokens, strings, |front|, offsets, s, 0)
    requires b == front + Struct(tokens, offsets) + tail
    ensures |now| == |tokens| && Filled(tokens, strings, |front|, now, s + 1, 0)
      && r == front + Struct(tokens, now) + tail
  {
    r, now := b, offsets;
    var refs := strings[s].refs;
    for j := 0 to |refs|
      invariant |now| == |tokens| && Filled(tokens, strings, |front|, now, s, j)
        && r == front + Struct(tokens, now) + tail
    {
      ghost var i := PatchStep(front, tokens, strings, now, tail, s, j, r);
      r := PatchU32(r, refs[j], offset);
      now := now[i := offset];
    }
    FillNext(tokens, strings, |front|, now, s);
  }

  /** Each name behind the others, and its offset where it is referred to. */
  method NamesFilled(ghost front: Bytes, ghost tokens: seq<Token>, strings: seq<StringRef>, b: Bytes,
      ghost end: Bytes) returns (r: Bytes)
    requires strings == RefsTo(tokens, |front|, |tokens|) && b == front + Struct(tokens, Nothing(|tokens|)) + end
    ensures r == front + Struct(tokens, OffsetsFor(tokens, strings)) + (end + Flat(Strings(strings), |strings|))
  {
    RefsToRight(tokens, |front|, |tokens|);
    FillNone(tokens, strings, |front|);
    ghost var offsets := Nothing(|tokens|);
    var start := |b|;
    assert end + [] == end;
    r := b;
    for s := 0 to |strings|
      invariant |offsets| == |tokens| && Filled(tokens, strings, |front|, offsets, s, 0)
      invariant r == front + Struct(tokens, offsets) + (end + Flat(Strings(strings), s))
    {
      NamesStep(front, tokens, strings, offsets, end, s, r, start);
      var offset := |r| - start;
      r := r + (strings[s].name + [0]);
      r, offsets := PatchName(front, tokens, strings, s, offset, r, offsets, end + Flat(Strings(strings), s + 1));
    }
    FillAll(tokens, strings, |front|, offsets);
  }

  /** One name more: where it is, and what is behind the blocks then. */
  lemma {:induction false} NamesStep(front: Bytes, tokens: seq<Token>, strings: seq<StringRef>, offsets: seq<nat>,
      end: Bytes, s: nat, b: Bytes, start: nat)
    requires |offsets| == |tokens| && s < |strings| && NamesApart(strings)
      && b == front + Struct(tokens, offsets) + (end + Flat(Strings(strings), s))
    requires start == |front| + |Struct(tokens, Nothing(|tokens|))| + |end|
    ensures |b| - start == NameOffset(strings, strings[s].name)
    ensures b + (strings[s].name + [0]) == front + Struct(tokens, offsets) + (end + Flat(Strings(strings), s + 1))
  {
    SameLength(tokens, offsets, Nothing(|tokens|));
    FindUnique(strings, strings[s].name, s);
    StringPut(b, front + Struct(tokens, offsets), end, strings, s);
  }

  lemma {:induction false} SameLength(tokens: seq<Token>, a: seq<nat>, b: seq<nat>)
    requires |a| == |b| == |tokens|
    ensures |Struct(tokens, a)| == |Struct(tokens, b)|
  {
    PlaceIs(tokens, a, |tokens|);
    PlaceIs(tokens, b, |tokens|);
  }

  lemma {:induction false} StringPut(b: Bytes, st: Bytes, end: Bytes, strings: seq<StringRef>, s: nat)
    requires s < |strings| && b == st + (end + Flat(Strings(strings), s))
    ensures b + (strings[s].name + [0]) == st + (end + Flat(Strings(strings), s + 1))
  {
    var flat, more := Flat(Strings(strings), s), strings[s].name + [0];
    assert Flat(Strings(strings), s + 1) == flat + more;
    assert st + (end + flat) + more == st + (end + (flat + more));
  }

  /** One slot: the property it is of has its offset filled in. */
  lemma {:induction false} PatchStep(front: Bytes, tokens: seq<Token>, strings: seq<StringRef>, offsets: seq<nat>,
      tail: Bytes, s: nat, j: nat, b: Bytes)
    returns (i: nat)
    requires |offsets| == |tokens| && s < |strings| && j < |strings[s].refs|
      && RefsRight(strings, tokens, |front|, |tokens|)
    requires Filled(tokens, strings, |front|, offsets, s, j) && b == front + Struct(tokens, offsets) + tail
    ensures i < |tokens| && strings[s].refs[j] + 4 <= |b|
    ensures var v := NameOffset(strings, strings[s].name); var now := offsets[i := v];
      Filled(tokens, strings, |front|, now, s, j + 1)
        && Patched(b, strings[s].refs[j], v) == front + Struct(tokens, now) + tail
  {
    assert RefRight(strings, tokens, |front|, |tokens|, s, j);
    i :| IsSlotOf(tokens, |front|, |tokens|, strings[s].name, strings[s].refs[j], i);
    FillOne(tokens, strings, |front|, offsets, s, j, i);
    SlotPatched(front, tokens, offsets, tail, i, NameOffset(strings, strings[s].name));
  }

  lemma {:induction false} SlotPatched(front: Bytes, tokens: seq<Token>, offsets: seq<nat>, tail: Bytes, i: nat, v: nat)
    requires i < |tokens| == |offsets| && tokens[i].Prop?
    ensures Slot(tokens, |front|, i) + 4 <= |front + Struct(tokens, offsets) + tail|
    ensures Patched(front + Struct(tokens, offsets) + tail, Slot(tokens, |front|, i), v) ==
      front + Struct(tokens, offsets[i := v]) + tail
  {
    StructPatched(tokens, offsets, i, v);
    SlotPatchedIn(front, Struct(tokens, offsets), Struct(tokens, offsets[i := v]), tail, Place(tokens, i), v);
  }

  lemma {:induction false} SlotPatchedIn(front: Bytes, st: Bytes, st': Bytes, tail: Bytes, place: nat, v: nat)
    requires place + 12 <= |st| && st' == Patched(st, place + 8, v)
    ensures |front| + place + 12 <= |front + st + tail|
    ensures Patched(front + st + tail, |front| + place + 8, v) == front + st' + tail
  {
    SlotIn(front, st, tail, place, v);
  }

  lemma {:induction false} SlotIn(front: Bytes, st: Bytes, tail: Bytes, place: nat, v: nat)
    requires place + 12 <= |st|
    ensures |front| + place + 12 <= |front + st + tail|
    ensures Patched(front + st + tail, |front| + place + 8, v) == front + Patched(st, place + 8, v) + tail
  {
    PatchedWithin(front, st, tail, place + 8, v);
  }

  /** Padding depends on what is behind a multiple of four only. */
  lemma {:induction false} PadBehind(a: Bytes, b: Bytes)
    requires |a| % 4 == 0
    ensures Padding(a + b) == Padding(b) && a + b + Padding(a + b) == a + (b + Padding(b))
  {
    AlignShift(|b|, |a|);
  }

  // ---- the blob -------------------------------------------------------------------------------------------

  function ReservationBytes(rs: seq<(nat, nat)>): Bytes {
    if rs == [] then Be8(0) + Be8(0) else Be8(rs[0].0) + Be8(rs[0].1) + ReservationBytes(rs[1..])
  }

  function WordParts(words: seq<nat>): (r: seq<Bytes>)
    ensures |r| == |words| && forall i {:trigger r[i]} :: 0 <= i < |words| ==> r[i] == Be4(words[i])
  {
    seq(|words|, i requires 0 <= i < |words| => Be4(words[i]))
  }

  /** The header, for blocks of some sizes: the reservations are at 40, and the two blocks behind them. */
  function HeaderWords(reservations: nat, st: nat, strings: nat, bootCpu: nat): (r: seq<nat>)
    ensures |r| == 10
  {
    [MAGIC, 40 + reservations + st + strings, 40 + reservations, 40 + reservations + st, 40, 17, 16, bootCpu, strings,
      st]
  }

  function Assembled(reservations: Bytes, st: Bytes, strings: Bytes, bootCpu: nat): Bytes {
    Flat(WordParts(HeaderWords(|reservations|, |st|, |strings|, bootCpu)), 10) + reservations + st + strings
  }

  function BlobStrings(root: Node, rs: seq<(nat, nat)>): seq<StringRef> {
    RefsTo(NodeTokens([], root), 40 + |ReservationBytes(rs)|, |NodeTokens([], root)|)
  }

  function BlobStruct(root: Node, rs: seq<(nat, nat)>): Bytes {
    Struct(NodeTokens([], root), OffsetsFor(NodeTokens([], root), BlobStrings(root, rs))) + Be4(FDT_END)
  }

  function BlobBytes(root: Node, rs: seq<(nat, nat)>, bootCpu: nat): Bytes {
    var strings := BlobStrings(root, rs);
    Assembled(ReservationBytes(rs), BlobStruct(root, rs), Flat(Strings(strings), |strings|), bootCpu)
  }

  method WriteReservations(b: Bytes, rs: seq<(nat, nat)>) returns (r: Bytes)
    ensures r == b + ReservationBytes(rs)
  {
    r := b;
    assert rs[0..] == rs;
    for i := 0 to |rs|
      invariant r + ReservationBytes(rs[i..]) == b + ReservationBytes(rs)
    {
      ReservationOne(r, rs, i);
      r := r + Be8(rs[i].0) + Be8(rs[i].1);
    }
    assert rs[|rs|..] == [];
    assert r + Be8(0) + Be8(0) == r + (Be8(0) + Be8(0));
    r := r + Be8(0) + Be8(0);
  }

  lemma {:induction false} ReservationOne(r: Bytes, rs: seq<(nat, nat)>, i: nat)
    requires i < |rs|
    ensures r + Be8(rs[i].0) + Be8(rs[i].1) + ReservationBytes(rs[i + 1..]) == r + ReservationBytes(rs[i..])
  {
    assert rs[i..][0] == rs[i] && rs[i..][1..] == rs[i + 1..];
    var a, c, rest := Be8(rs[i].0), Be8(rs[i].1), ReservationBytes(rs[i + 1..]);
    assert r + a + c + rest == r + (a + c + rest);
  }

  /** The header's words, written over what was kept free for them. */
  method PatchHeader(b: Bytes, words: seq<nat>) returns (r: Bytes)
    requires |b| >= 4 * |words|
    ensures r == Flat(WordParts(words), |words|) + b[4 * |words|..]
  {
    r := b;
    assert [] + b[0..] == b;
    for i := 0 to |words|
      invariant |Flat(WordParts(words), i)| == 4 * i && r == Flat(WordParts(words), i) + b[4 * i..]
    {
      HeaderWord(Flat(WordParts(words), i), b[4 * i..], words[i]);
      assert b[4 * i..][4..] == b[4 * (i + 1)..];
      r := PatchU32(r, 4 * i, words[i]);
    }
  }

  lemma {:induction false} HeaderWord(done: Bytes, left: Bytes, v: nat)
    requires |left| >= 4
    ensures Patched(done + left, |done|, v) == done + Be4(v) + left[4..]
  {
  }

  /** The two blocks behind what is there. */
  method WriteBlocks(front: Bytes, root: Node) returns (b: Bytes, structEnd: nat)
    requires |front| % 4 == 0 && ShortNames([], root)
    ensures var tokens := NodeTokens([], root);
      var strings := RefsTo(tokens, |front|, |tokens|);
      var st := Struct(tokens, OffsetsFor(tokens, strings));
      structEnd == |front| + |st| + 4 && b == front + st + (Be4(FDT_END) + Flat(Strings(strings), |strings|))
  {
    var put, strings := WriteStruct(front, root);
    structEnd := |put| + 4;
    ghost var tokens := NodeTokens([], root);
    SameLength(tokens, OffsetsFor(tokens, strings), Nothing(|tokens|));
    b := NamesFilled(front, tokens, strings, put + Be4(FDT_END), Be4(FDT_END));
  }

  /** The structure block, its name offsets open. */
  method WriteStruct(front: Bytes, root: Node) returns (b: Bytes, strings: seq<StringRef>)
    requires |front| % 4 == 0 && ShortNames([], root)
    ensures var tokens := NodeTokens([], root);
      b == front + Struct(tokens, Nothing(|tokens|)) && strings == RefsTo(tokens, |front|, |tokens|)
  {
    var w := new Writer(front);
    w.Walk([], root);
    b, strings := w.bytes, w.strings;
    WrittenAll(front, NodeTokens([], root), w.tokens, b, strings);
  }

  lemma {:induction false} WrittenAll(front: Bytes, tokens: seq<Token>, written: seq<Token>, bytes: Bytes,
      strings: seq<StringRef>)
    requires written == [] + tokens && Written(front, written, bytes, strings)
    ensures bytes == front + Struct(tokens, Nothing(|tokens|)) && strings == RefsTo(tokens, |front|, |tokens|)
  {
    assert written == tokens;
    WrittenIs(front, tokens);
  }

  method Generate(root: Node, rs: seq<(nat, nat)>, bootCpu: nat) returns (b: Bytes)
    requires ShortNames([], root)
    ensures b == BlobBytes(root, rs, bootCpu)
  {
    var front := WriteReservations(Zeros(40), rs);
    ReservationsAligned(rs);
    var blocks, structEnd := WriteBlocks(front, root);
    var words := HeaderWords(|front| - 40, structEnd - |front|, |blocks| - structEnd, bootCpu);
    b := PatchHeader(blocks, words);
    ghost var tokens, strings := NodeTokens([], root), BlobStrings(root, rs);
    Finished(ReservationBytes(rs), Struct(tokens, OffsetsFor(tokens, strings)), Be4(FDT_END),
      Flat(Strings(strings), |strings|), bootCpu, blocks);
  }

  lemma {:induction false} Finished(rsv: Bytes, st: Bytes, end: Bytes, names: Bytes, bootCpu: nat, b: Bytes)
    requires |end| == 4 && b == Zeros(40) + rsv + st + (end + names)
    ensures Flat(WordParts(HeaderWords(|rsv|, |st| + 4, |names|, bootCpu)), 10) + b[40..] ==
      Assembled(rsv, st + end, names, bootCpu)
  {
    Blocks(Zeros(40), rsv, st, end, names, b);
    Regrouped(Flat(WordParts(HeaderWords(|rsv|, |st| + 4, |names|, bootCpu)), 10), rsv, st + end, names);
  }

  lemma {:induction false} ReservationsAligned(rs: seq<(nat, nat)>)
    ensures |ReservationBytes(rs)| % 16 == 0
    decreases |rs|
  {
    if rs != [] { ReservationsAligned(rs[1..]); }
  }

  lemma {:induction false} Blocks(head: Bytes, rsv: Bytes, st: Bytes, end: Bytes, names: Bytes, b: Bytes)
    requires |head| == 40 && b == head + rsv + st + (end + names)
    ensures b[40..] == rsv + (st + end) + names
  {
    assert b == head + (rsv + (st + end) + names);
  }

  lemma {:induction false} Regrouped(h: Bytes, rsv: Bytes, st: Bytes, names: Bytes)
    ensures h + (rsv + st + names) == h + rsv + st + names
  {
  }

  // ---- and back -------------------------------------------------------------------------------------------

  lemma {:induction false} LongBack(b: Bytes, at: nat, v: nat)
    requires v < LIMIT * LIMIT && LiesAt(b, at, Be8(v))
    ensures at + 8 <= |b| && Long(b, at) == v
  {
    var hi, lo := v / LIMIT, v % LIMIT;
    assert Be8(v) == [] + Be4(hi) + Be4(lo) && Be8(v) == Be4(hi) + Be4(lo) + [];
    LiesJoin([], Be4(hi), Be4(lo));
    LiesPart(b, at, Be8(v), 0, Be4(hi));
    WordAt(b, at, hi);
    LiesJoin(Be4(hi), Be4(lo), []);
    LiesPart(b, at, Be8(v), 4, Be4(lo));
    WordAt(b, at + 4, lo);
  }

  predicate ReservationFits(r: (nat, nat)) { r.0 < LIMIT * LIMIT && r.1 < LIMIT * LIMIT }

  /** A pair of zeros ends the list for a reader: what comes before the first. */
  function UpToZeros(rs: seq<(nat, nat)>): (r: seq<(nat, nat)>)
    ensures r <= rs && (0, 0) !in r && (|r| < |rs| ==> rs[|r|] == (0, 0))
  {
    if rs == [] || rs[0] == (0, 0) then [] else [rs[0]] + UpToZeros(rs[1..])
  }

  lemma {:induction false} PairBack(b: Bytes, at: nat, r: (nat, nat), rest: Bytes)
    requires r.0 < LIMIT * LIMIT && r.1 < LIMIT * LIMIT && LiesAt(b, at, Be8(r.0) + Be8(r.1) + rest)
    ensures at + 16 <= |b| && Long(b, at) == r.0 && Long(b, at + 8) == r.1 && LiesAt(b, at + 16, rest)
  {
    var c := Be8(r.0) + Be8(r.1) + rest;
    assert c == [] + Be8(r.0) + (Be8(r.1) + rest);
    LiesJoin([], Be8(r.0), Be8(r.1) + rest);
    LiesPart(b, at, c, 0, Be8(r.0));
    LongBack(b, at, r.0);
    LiesJoin(Be8(r.0), Be8(r.1), rest);
    LiesPart(b, at, c, 8, Be8(r.1));
    LongBack(b, at + 8, r.1);
    TailIn(b, at, c, 16, rest);
  }

  lemma {:induction false} ReservationsBack(b: Bytes, at: nat, rs: seq<(nat, nat)>)
    requires LiesAt(b, at, ReservationBytes(rs)) && forall i :: 0 <= i < |rs| ==> ReservationFits(rs[i])
    ensures Reservations(b, at) == Some(UpToZeros(rs))
    decreases |rs|
  {
    if rs == [] {
      assert ReservationBytes([]) == Be8(0) + Be8(0) + [];
      PairBack(b, at, (0, 0), []);
    } else {
      assert ReservationFits(rs[0]);
      PairBack(b, at, rs[0], ReservationBytes(rs[1..]));
      if rs[0] != (0, 0) { ReservationsBack(b, at + 16, rs[1..]); }
    }
  }

  lemma {:induction false} HeaderBack(words: seq<nat>, rest: Bytes, b: Bytes, i: nat)
    requires i < |words| && words[i] < LIMIT && b == Flat(WordParts(words), |words|) + rest
    ensures 4 * i + 4 <= |b| && Word(b, 4 * i) == words[i]
  {
    WordsSize(WordParts(words), i);
    FlatAt(WordParts(words), i, |words|);
    LiesFirst(Flat(WordParts(words), |words|), rest, 4 * i, Be4(words[i]));
    WordAt(b, 4 * i, words[i]);
  }

  lemma {:induction false} WordsSize(parts: seq<Bytes>, n: nat)
    requires n <= |parts| && forall i :: 0 <= i < |parts| ==> |parts[i]| == 4
    ensures |Flat(parts, n)| == 4 * n
    decreases n
  {
    if n > 0 { WordsSize(parts, n - 1); }
  }

  /** The header says where each block is. */
  predicate HeaderSays(b: Bytes, reservations: nat, st: nat, strings: nat, bootCpu: nat) {
    && |b| == 40 + reservations + st + strings && Word(b, 0) == MAGIC && Word(b, 4) == |b|
    && Word(b, 8) == 40 + reservations
    && Word(b, 12) == 40 + reservations + st && Word(b, 16) == 40 && Word(b, 20) == 17 && Word(b, 24) == 16
    && Word(b, 28) == bootCpu && Word(b, 32) == strings && Word(b, 36) == st
  }

  lemma {:induction false} HeaderRight(reservations: Bytes, st: Bytes, strings: Bytes, bootCpu: nat, b: Bytes)
    requires b == Assembled(reservations, st, strings, bootCpu) && |b| < LIMIT && bootCpu < LIMIT
    ensures HeaderSays(b, |reservations|, |st|, |strings|, bootCpu)
  {
    var words := HeaderWords(|reservations|, |st|, |strings|, bootCpu);
    WordsSize(WordParts(words), 10);
    var rest := reservations + st + strings;
    Regrouped(Flat(WordParts(words), 10), reservations, st, strings);
    forall i | 0 <= i < 10 ensures Word(b, 4 * i) == words[i] { HeaderBack(words, rest, b, i); }
    assert Word(b, 4 * 0) == words[0] && Word(b, 4 * 1) == words[1] && Word(b, 4 * 2) == words[2]
      && Word(b, 4 * 3) == words[3];
    assert Word(b, 4 * 4) == words[4] && Word(b, 4 * 5) == words[5] && Word(b, 4 * 6) == words[6]
      && Word(b, 4 * 7) == words[7] && Word(b, 4 * 8) == words[8] && Word(b, 4 * 9) == words[9];
  }

  lemma {:induction false} BlocksRight(h: Bytes, reservations: Bytes, st: Bytes, strings: Bytes, b: Bytes)
    requires |h| == 40 && b == h + reservations + st + strings
    ensures LiesAt(b, 40, reservations)
    ensures var at := 40 + |reservations|; b[at..at + |st|] == st && b[at + |st|..at + |st| + |strings|] == strings
  {
    assert b == h + reservations + (st + strings);
    LiesJoin(h, reservations, st + strings);
  }

  /** A blob read as its blocks are. */
  lemma {:induction false} ReadsBlocks(b: Bytes, rsv: nat, st: Bytes, strings: Bytes, bootCpu: nat,
      rs: seq<(nat, nat)>, tokens: seq<Token>, tree: Tree)
    requires HeaderSays(b, rsv, |st|, |strings|, bootCpu) && b[40 + rsv..40 + rsv + |st|] == st
    requires b[40 + rsv + |st|..40 + rsv + |st| + |strings|] == strings
    requires Reservations(b, 40) == Some(rs)
      && TokensOf(st, strings) == Some(tokens) && TreeOf(tokens) == Some(tree)
    ensures ReadBlob(b) == Some(Blob(tree, rs, bootCpu))
  {
  }

  /** Names NUL-free, values whose length fits. */
  ghost predicate AllFit(root: Node) {
    forall k :: 0 <= k < |NodeTokens([], root)| ==> TokenFits(NodeTokens([], root)[k])
  }

  lemma {:induction false} StructRight(root: Node, rs: seq<(nat, nat)>)
    requires AllFit(root) && var strings := BlobStrings(root, rs); |Flat(Strings(strings), |strings|)| < LIMIT
    ensures var strings := BlobStrings(root, rs);
      var st, names := BlobStruct(root, rs), Flat(Strings(strings), |strings|);
      TokensOf(st, names) == Some(NodeTokens([], root))
  {
    var tokens, base, strings := NodeTokens([], root), 40 + |ReservationBytes(rs)|, BlobStrings(root, rs);
    var names, offsets := Flat(Strings(strings), |strings|), OffsetsFor(tokens, strings);
    forall k | 0 <= k < |tokens| ensures TokenFits(tokens[k]) && NamedRight(tokens, offsets, names, k) {
      OffsetsRight(tokens, base, k);
    }
    StructBack(tokens, offsets, names, BlobStruct(root, rs), (at: nat) => ReadToken(BlobStruct(root, rs), at, names));
  }

  /**
   What is written is read back: the same nested nodes, in order, with the same property names and values
   (as the bytes they are encoded as), the reservations up to the first pair of zeros, and the boot CPU.
   */
  lemma {:induction false} RoundTrip(root: Node, rs: seq<(nat, nat)>, bootCpu: nat)
    requires AllFit(root) && bootCpu < LIMIT && |BlobBytes(root, rs, bootCpu)| < LIMIT
      && forall i :: 0 <= i < |rs| ==> ReservationFits(rs[i])
    ensures ReadBlob(BlobBytes(root, rs, bootCpu)) == Some(Blob(TreeFrom([], root), UpToZeros(rs), bootCpu))
  {
    var b, strings := BlobBytes(root, rs, bootCpu), BlobStrings(root, rs);
    var rsv, st, names := ReservationBytes(rs), BlobStruct(root, rs), Flat(Strings(strings), |strings|);
    BlobRead(root, rs, bootCpu, b, rsv, st, names);
  }

  /** All reservations come back exactly if none of them is a pair of zeros. */
  lemma {:induction false} ReservationsExactly(root: Node, rs: seq<(nat, nat)>, bootCpu: nat)
    requires AllFit(root) && bootCpu < LIMIT && |BlobBytes(root, rs, bootCpu)| < LIMIT
      && forall i :: 0 <= i < |rs| ==> ReservationFits(rs[i])
    ensures var r := ReadBlob(BlobBytes(root, rs, bootCpu)); r.Some? && (r.value.reservations == rs <==> (0, 0) !in rs)
  {
    RoundTrip(root, rs, bootCpu);
  }

  lemma {:induction false} BlobRead(root: Node, rs: seq<(nat, nat)>, bootCpu: nat, b: Bytes, rsv: Bytes, st: Bytes,
      names: Bytes)
    requires AllFit(root) && bootCpu < LIMIT && |b| < LIMIT && forall i :: 0 <= i < |rs| ==> ReservationFits(rs[i])
    requires b == Assembled(rsv, st, names, bootCpu) && rsv == ReservationBytes(rs) && st == BlobStruct(root, rs)
    requires var strings := BlobStrings(root, rs); names == Flat(Strings(strings), |strings|)
    ensures ReadBlob(b) == Some(Blob(TreeFrom([], root), UpToZeros(rs), bootCpu))
  {
    HeaderRight(rsv, st, names, bootCpu, b);
    var words := HeaderWords(|rsv|, |st|, |names|, bootCpu);
    WordsSize(WordParts(words), 10);
    BlocksRight(Flat(WordParts(words), 10), rsv, st, names, b);
    ReservationsBack(b, 40, rs);
    StructRight(root, rs);
    TokensBack(root);
    ReadsBlocks(b, |rsv|, st, names, bootCpu, UpToZeros(rs), NodeTokens([], root), TreeFrom([], root));
  }
}
