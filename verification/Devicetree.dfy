/**
 The flattened device tree (engine/src/devicetree.rs): the writer, which leaves the offsets of property names
 open and fills them in at the end, and a reader by sections 5.2 to 5.5 of the Devicetree Specification.
 Names are bytes.
 */
module Devicetree {
  import opened ByteStrings

  const MAGIC: nat := 0xd00dfeed
  const BEGIN_NODE: nat := 1
  const END_NODE: nat := 2
  const PROP: nat := 3
  const NOP: nat := 4
  const FDT_END: nat := 9
  const NAME_MAX: nat := 31
  const LIMIT: nat := 0x1_0000_0000

  function Padding(b: Bytes): (r: Bytes)
    ensures |b| + |r| == Align4(|b|)
  {
    Zeros(Align4(|b|) - |b|)
  }

  /** to_be_bytes of a u32. */
  function Be4(v: nat): (r: Bytes)
    ensures |r| == 4
  {
    [v / 0x100_0000 % 256, v / 0x1_0000 % 256, v / 0x100 % 256, v % 256]
  }

  function Be8(v: nat): (r: Bytes)
    ensures |r| == 8
  {
    Be4(v / LIMIT) + Be4(v % LIMIT)
  }

  function Word(b: Bytes, at: nat): nat
    requires at + 4 <= |b|
  {
    0x100_0000 * (b[at] as int) + 0x1_0000 * (b[at + 1] as int) + 0x100 * (b[at + 2] as int) + b[at + 3] as int
  }

  // ---- what is written ------------------------------------------------------------------------------------

  datatype Value = U32(word: nat) | U64(long: nat) | Str(text: Bytes) | Cells(cells: seq<nat>) | Raw(bytes: Bytes)
    | Empty

  function CellBytes(cells: seq<nat>): Bytes {
    if cells == [] then [] else Be4(cells[0]) + CellBytes(cells[1..])
  }

  function Encode(v: Value): Bytes {
    match v
    case U32(word) => Be4(word)
    case U64(long) => Be8(long)
    case Str(text) => text + [0]
    case Cells(cells) => CellBytes(cells)
    case Raw(bytes) => bytes
    case Empty => []
  }

  datatype Property = Property(name: Bytes, value: Value)

  datatype Node = Node(properties: seq<Property>, children: Children)

  /** Child nodes, in order, each with its name. */
  datatype Children = NoMore | Child(name: Bytes, node: Node, rest: Children)

  /** The tokens of the structure block. */
  datatype Token = Begin(name: Bytes) | Prop(name: Bytes, data: Bytes) | End

  function PropTokens(ps: seq<Property>): (r: seq<Token>)
    ensures |r| == |ps| && forall i {:trigger r[i]} :: 0 <= i < |ps| ==> r[i] == Prop(ps[i].name, Encode(ps[i].value))
  {
    seq(|ps|, i requires 0 <= i < |ps| => Prop(ps[i].name, Encode(ps[i].value)))
  }

  function NodeTokens(name: Bytes, node: Node): seq<Token>
    decreases node
  {
    [Begin(name)] + PropTokens(node.properties) + ChildTokens(node.children) + [End]
  }

  function ChildTokens(children: Children): seq<Token>
    decreases children
  {
    match children
    case NoMore => []
    case Child(name, node, rest) => NodeTokens(name, node) + ChildTokens(rest)
  }

  function Begun(name: Bytes): Bytes { Be4(BEGIN_NODE) + name + [0] }

  /** A token, a property's name given by its offset in the strings block. */
  function TokenBytes(t: Token, offset: nat): (r: Bytes)
    ensures |r| == TokenSize(t) && |r| % 4 == 0
  {
    match t
    case Begin(name) => Begun(name) + Padding(Begun(name))
    case Prop(_, data) => Be4(PROP) + Be4(|data|) + Be4(offset) + data + Padding(data)
    case End => Be4(END_NODE)
  }

  function TokenSize(t: Token): nat {
    match t
    case Begin(name) => Align4(5 + |name|)
    case Prop(_, data) => 12 + Align4(|data|)
    case End => 4
  }

  /** Tokens with an offset each (a property's is its name's). */
  function Parts(tokens: seq<Token>, offsets: seq<nat>): (r: seq<Bytes>)
    requires |offsets| == |tokens|
    ensures |r| == |tokens|
      && forall i {:trigger r[i]} :: 0 <= i < |tokens| ==> r[i] == TokenBytes(tokens[i], offsets[i])
  {
    seq(|tokens|, i requires 0 <= i < |tokens| => TokenBytes(tokens[i], offsets[i]))
  }

  /** Where token `n` is in the structure block. */
  function Place(tokens: seq<Token>, n: nat): nat
    requires n <= |tokens|
  {
    if n == 0 then 0 else Place(tokens, n - 1) + TokenSize(tokens[n - 1])
  }

  function Struct(tokens: seq<Token>, offsets: seq<nat>): Bytes
    requires |offsets| == |tokens|
  {
    Flat(Parts(tokens, offsets), |tokens|)
  }

  /** A name, and where in the blob its offset has to go. */
  datatype StringRef = StringRef(name: Bytes, refs: seq<nat>)

  /** The strings block: names, each with its NUL. */
  function Strings(refs: seq<StringRef>): (r: seq<Bytes>)
    ensures |r| == |refs| && forall i {:trigger r[i]} :: 0 <= i < |refs| ==> r[i] == refs[i].name + [0]
  {
    seq(|refs|, i requires 0 <= i < |refs| => refs[i].name + [0])
  }

  function Patched(b: Bytes, at: nat, value: nat): (r: Bytes)
    requires at + 4 <= |b|
    ensures |r| == |b|
  {
    b[..at] + Be4(value) + b[at + 4..]
  }

  // ---- reading --------------------------------------------------------------------------------------------

  /** The bytes up to the NUL. */
  function CString(b: Bytes, at: nat): Option<Bytes>
    decreases if at < |b| then |b| - at else 0
  {
    if at >= |b| then None
    else if b[at] == 0 then Some([])
    else
      var rest := CString(b, at + 1);
      if rest.None? then None else Some([b[at]] + rest.value)
  }

  datatype Read = Bad | Last | Skip | Got(token: Token, next: nat)

  function ReadBegin(b: Bytes, at: nat): Read {
    var name := CString(b, at + 4);
    if name.None? then Bad else Got(Begin(name.value), Align4(at + 5 + |name.value|))
  }

  function ReadProp(b: Bytes, at: nat, strings: Bytes): Read {
    if at + 12 > |b| || at + 12 + Word(b, at + 4) > |b| then Bad
    else
      var length := Word(b, at + 4);
      var name := CString(strings, Word(b, at + 8));
      if name.None? then Bad else Got(Prop(name.value, b[at + 12..at + 12 + length]), Align4(at + 12 + length))
  }

  function ReadToken(b: Bytes, at: nat, strings: Bytes): Read {
    if at + 4 > |b| then Bad
    else
      var word := Word(b, at);
      if word == BEGIN_NODE then ReadBegin(b, at)
      else if word == PROP then ReadProp(b, at, strings)
      else if word == END_NODE then Got(End, at + 4)
      else if word == NOP then Skip
      else if word == FDT_END then Last
      else Bad
  }

  /** All tokens, each as `read` has it, up to the last. */
  function ReadTokens(read: nat -> Read, at: nat, end: nat): Option<seq<Token>>
    decreases if at < end then end - at else 0
  {
    if at >= end then None
    else match read(at)
      case Bad => None
      case Last => Some([])
      case Skip => ReadTokens(read, at + 4, end)
      case Got(token, next) =>
        if next <= at then None
        else
          var rest := ReadTokens(read, next, end);
          if rest.None? then None else Some([token] + rest.value)
  }

  /** A tree as read: values as the bytes they are. */
  datatype Tree = Tree(name: Bytes, properties: seq<(Bytes, Bytes)>, children: seq<Tree>)

  /** What is open while tokens are read: a node's name, what it has so far, and what is around it. */
  datatype Frame = Frame(name: Bytes, properties: seq<(Bytes, Bytes)>, children: seq<Tree>)

  datatype Building = Broken | Building(open: seq<Frame>, done: Option<Tree>)

  function Built(s: Building, t: Token): Building {
    if s.Broken? || s.done.Some? then Broken
    else match t
      case Begin(name) => Building(s.open + [Frame(name, [], [])], None)
      case Prop(name, data) =>
        if s.open == [] || s.open[|s.open| - 1].children != [] then Broken
        else
          var top := s.open[|s.open| - 1];
          Building(s.open[..|s.open| - 1] + [top.(properties := top.properties + [(name, data)])], None)
      case End =>
        if s.open == [] then Broken
        else
          var top := s.open[|s.open| - 1];
          var tree := Tree(top.name, top.properties, top.children);
          if |s.open| == 1 then Building([], Some(tree))
          else
            var outer := s.open[|s.open| - 2];
            Building(s.open[..|s.open| - 2] + [outer.(children := outer.children + [tree])], None)
  }

  /** Tokens one after another. */
  function BuiltAll(s: Building, tokens: seq<Token>): Building
    decreases |tokens|
  {
    if tokens == [] then s else BuiltAll(Built(s, tokens[0]), tokens[1..])
  }

  function TreeOf(tokens: seq<Token>): Option<Tree> {
    var s := BuiltAll(Building([], None), tokens);
    if s.Broken? then None else s.done
  }

  datatype Blob = Blob(tree: Tree, reservations: seq<(nat, nat)>, bootCpu: nat)

  function Long(b: Bytes, at: nat): nat
    requires at + 8 <= |b|
  {
    LIMIT * Word(b, at) + Word(b, at + 4)
  }

  /** Pairs of 64-bit numbers, up to one of zeros. */
  function Reservations(b: Bytes, at: nat): Option<seq<(nat, nat)>>
    decreases if at < |b| then |b| - at else 0
  {
    if at + 16 > |b| then None
    else
      var pair := (Long(b, at), Long(b, at + 8));
      if pair == (0, 0) then Some([])
      else
        var rest := Reservations(b, at + 16);
        if rest.None? then None else Some([pair] + rest.value)
  }

  /** The tokens of a structure block, with its strings block. */
  function TokensOf(st: Bytes, strings: Bytes): Option<seq<Token>> {
    ReadTokens((at: nat) => ReadToken(st, at, strings), 0, |st|)
  }

  function ReadBlob(b: Bytes): Option<Blob> {
    if |b| < 40 || Word(b, 0) != MAGIC || Word(b, 4) != |b| then None
    else
      var st, strings := Word(b, 8), Word(b, 12);
      var stEnd, stringsEnd := st + Word(b, 36), strings + Word(b, 32);
      if stEnd > |b| || stringsEnd > |b| then None
      else
        var reservations := Reservations(b, Word(b, 16));
        var tokens := TokensOf(b[st..stEnd], b[strings..stringsEnd]);
        if reservations.None? || tokens.None? then None
        else
          var tree := TreeOf(tokens.value);
          if tree.None? then None else Some(Blob(tree.value, reservations.value, Word(b, 28)))
  }

  // ---- what should come back ------------------------------------------------------------------------------

  function PropPairs(ps: seq<Property>): (r: seq<(Bytes, Bytes)>)
    ensures |r| == |ps|
  {
    seq(|ps|, i requires 0 <= i < |ps| => (ps[i].name, Encode(ps[i].value)))
  }

  function TreeFrom(name: Bytes, node: Node): Tree
    decreases node
  {
    Tree(name, PropPairs(node.properties), TreesFrom(node.children))
  }

  function TreesFrom(children: Children): seq<Tree>
    decreases children
  {
    match children
    case NoMore => []
    case Child(name, node, rest) => [TreeFrom(name, node)] + TreesFrom(rest)
  }
}

module DevicetreeProofs {
  import opened ByteStrings
  import opened Devicetree

  // ---- values ---------------------------------------------------------------------------------------------

  /** Big-endian: the most significant byte first. */
  predicate IsBigEndian(b: Bytes, at: nat, v: nat) {
    && at + 4 <= |b| && b[at] as int == v / 0x100_0000 % 256 && b[at + 1] as int == v / 0x1_0000 % 256
    && b[at + 2] as int == v / 0x100 % 256 && b[at + 3] as int == v % 256
  }

  lemma {:induction false} CellsEncoded(cells: seq<nat>, i: nat)
    requires i < |cells|
    ensures |CellBytes(cells)| == 4 * |cells| && IsBigEndian(CellBytes(cells), 4 * i, cells[i])
    decreases |cells|
  {
    if |cells| > 1 { CellsEncoded(cells[1..], if i > 0 then i - 1 else 0); }
    if i > 0 { BehindWord(Be4(cells[0]), CellBytes(cells[1..]), 4 * (i - 1), cells[i]); }
  }

  lemma {:induction false} BehindWord(front: Bytes, rest: Bytes, at: nat, v: nat)
    requires |front| == 4 && IsBigEndian(rest, at, v)
    ensures IsBigEndian(front + rest, at + 4, v)
  {
  }

  /** What a kernel finds in an encoded value: big-endian words, strings with a NUL behind them, bytes as they are. */
  lemma {:induction false} ValueEncoded(v: Value)
    ensures match v
      case U32(word) => |Encode(v)| == 4 && IsBigEndian(Encode(v), 0, word)
      case U64(long) => |Encode(v)| == 8 && IsBigEndian(Encode(v), 0, long / LIMIT)
        && IsBigEndian(Encode(v), 4, long % LIMIT)
      case Str(text) => |Encode(v)| == |text| + 1 && Encode(v)[..|text|] == text && Encode(v)[|text|] == 0
      case Cells(cells) => |Encode(v)| == 4 * |cells|
        && forall i :: 0 <= i < |cells| ==> IsBigEndian(Encode(v), 4 * i, cells[i])
      case Raw(bytes) => Encode(v) == bytes
      case Empty => Encode(v) == []
  {
    match v
    case Cells(cells) =>
      forall i | 0 <= i < |cells| ensures |CellBytes(cells)| == 4 * |cells|
        && IsBigEndian(CellBytes(cells), 4 * i, cells[i]) {
        CellsEncoded(cells, i);
      }
    case _ =>
  }

  // ---- a node's tokens are its tree -----------------------------------------------------------------------

  lemma {:induction false} BuiltOn(s: Building, a: seq<Token>, b: seq<Token>)
    ensures BuiltAll(s, a + b) == BuiltAll(BuiltAll(s, a), b)
    decreases |a|
  {
    if a == [] {
      assert a + b == b;
    } else {
      BuiltOn(Built(s, a[0]), a[1..], b);
      assert (a + b)[1..] == a[1..] + b;
    }
  }

  lemma {:induction false} BuiltOne(s: Building, t: Token)
    ensures BuiltAll(s, [t]) == Built(s, t)
  {
    assert [t][1..] == [];
  }

  /** Properties go to the node just opened. */
  lemma {:induction false} PropsBuilt(open: seq<Frame>, name: Bytes, ps: seq<Property>, n: nat)
    requires n <= |ps|
    ensures BuiltAll(Building(open + [Frame(name, [], [])], None), PropTokens(ps)[..n]) ==
      Building(open + [Frame(name, PropPairs(ps)[..n], [])], None)
    decreases n
  {
    var s := Building(open + [Frame(name, [], [])], None);
    if n == 0 {
      assert PropTokens(ps)[..0] == [] && PropPairs(ps)[..0] == [];
    } else {
      PropsBuilt(open, name, ps, n - 1);
      var t := PropTokens(ps)[n - 1];
      assert PropTokens(ps)[..n] == PropTokens(ps)[..n - 1] + [t];
      PropFollows(s, PropTokens(ps)[..n - 1], open, Frame(name, PropPairs(ps)[..n - 1], []), t.name, t.data);
      assert PropPairs(ps)[..n - 1] + [PropPairs(ps)[n - 1]] == PropPairs(ps)[..n];
    }
  }

  lemma {:induction false} PropFollows(s: Building, tokens: seq<Token>, open: seq<Frame>, top: Frame, name: Bytes,
      data: Bytes)
    requires BuiltAll(s, tokens) == Building(open + [top], None) && top.children == []
    ensures BuiltAll(s, tokens + [Prop(name, data)]) ==
      Building(open + [top.(properties := top.properties + [(name, data)])], None)
  {
    BuiltOn(s, tokens, [Prop(name, data)]);
    BuiltOne(Building(open + [top], None), Prop(name, data));
    AddsProp(open, top, name, data);
  }

  lemma {:induction false} AddsProp(open: seq<Frame>, top: Frame, name: Bytes, data: Bytes)
    requires top.children == []
    ensures Built(Building(open + [top], None), Prop(name, data)) ==
      Building(open + [top.(properties := top.properties + [(name, data)])], None)
  {
    assert (open + [top])[..|open|] == open;
  }

  lemma {:induction false} Closes(open: seq<Frame>, outer: Frame, top: Frame)
    ensures Built(Building(open + [outer] + [top], None), End)
      == Building(open + [outer.(children := outer.children + [Tree(top.name, top.properties, top.children)])], None)
  {
    assert (open + [outer] + [top])[..|open|] == open;
  }

  /** A node inside another becomes one more of its children. */
  lemma {:induction false} NodeBuilt(open: seq<Frame>, outer: Frame, name: Bytes, node: Node)
    ensures BuiltAll(Building(open + [outer], None), NodeTokens(name, node)) ==
      Building(open + [outer.(children := outer.children + [TreeFrom(name, node)])], None)
    decreases node, 1
  {
    var top := Frame(name, PropPairs(node.properties), TreesFrom(node.children));
    NodeOpened(open + [outer], name, node);
    BuiltOn(Building(open + [outer], None), [Begin(name)] + PropTokens(node.properties) + ChildTokens(node.children),
      [End]);
    BuiltOne(Building(open + [outer] + [top], None), End);
    Closes(open, outer, top);
  }

  /** All of a node but its end. */
  lemma {:induction false} NodeOpened(open: seq<Frame>, name: Bytes, node: Node)
    ensures BuiltAll(Building(open, None), [Begin(name)] + PropTokens(node.properties) + ChildTokens(node.children))
      == Building(open + [Frame(name, PropPairs(node.properties), TreesFrom(node.children))], None)
    decreases node, 0
  {
    var s, ps := Building(open, None), node.properties;
    var begun := Building(open + [Frame(name, [], [])], None);
    BuiltOne(s, Begin(name));
    BuiltOn(s, [Begin(name)], PropTokens(ps));
    PropsBuilt(open, name, ps, |ps|);
    assert PropTokens(ps)[..|ps|] == PropTokens(ps) && PropPairs(ps)[..|ps|] == PropPairs(ps);
    BuiltOn(s, [Begin(name)] + PropTokens(ps), ChildTokens(node.children));
    ChildrenBuilt(open, Frame(name, PropPairs(ps), []), node.children);
    assert [] + TreesFrom(node.children) == TreesFrom(node.children);
  }

  lemma {:induction false} ChildrenBuilt(open: seq<Frame>, outer: Frame, children: Children)
    ensures BuiltAll(Building(open + [outer], None), ChildTokens(children)) ==
      Building(open + [outer.(children := outer.children + TreesFrom(children))], None)
    decreases children, 2
  {
    match children
    case NoMore =>
      assert outer.children + [] == outer.children;
    case Child(name, node, rest) =>
      NodeBuilt(open, outer, name, node);
      BuiltOn(Building(open + [outer], None), NodeTokens(name, node), ChildTokens(rest));
      var more := outer.(children := outer.children + [TreeFrom(name, node)]);
      ChildrenBuilt(open, more, rest);
      assert outer.children + [TreeFrom(name, node)] + TreesFrom(rest) ==
        outer.children + ([TreeFrom(name, node)] + TreesFrom(rest));
  }

  /** The tokens of a tree are read as that tree. */
  lemma {:induction false} TokensBack(node: Node)
    ensures TreeOf(NodeTokens([], node)) == Some(TreeFrom([], node))
  {
    var s := Building([], None);
    var top := Frame([], PropPairs(node.properties), TreesFrom(node.children));
    NodeOpened([], [], node);
    BuiltOn(s, [Begin([])] + PropTokens(node.properties) + ChildTokens(node.children), [End]);
    assert [] + [top] == [top];
    BuiltOne(Building([top], None), End);
  }

  // ---- numbers and strings --------------------------------------------------------------------------------

  lemma {:induction false} WordBack(v: nat)
    requires v < LIMIT
    ensures Word(Be4(v), 0) == v
  {
    var a := v / 256;
    assert v / 0x1_0000 == a / 256 && v / 0x100_0000 == a / 0x1_0000;
    var b := a / 256;
    assert a / 0x1_0000 == b / 256 && b < 0x1_0000;
    assert b == b % 256 + 256 * (b / 256 % 256);
  }

  /** A number in a part of some bytes is the part's. */
  lemma {:induction false} WordIn(b: Bytes, at: nat, c: Bytes, k: nat)
    requires LiesAt(b, at, c) && k + 4 <= |c|
    ensures at + |c| <= |b| && Word(b, at + k) == Word(c, k)
  {
    ByteIn(b, at, c, k);
    ByteIn(b, at, c, k + 1);
    ByteIn(b, at, c, k + 2);
    ByteIn(b, at, c, k + 3);
  }

  /** A number where its bytes are. */
  lemma {:induction false} WordAt(b: Bytes, at: nat, v: nat)
    requires LiesAt(b, at, Be4(v)) && v < LIMIT
    ensures at + 4 <= |b| && Word(b, at) == v
  {
    WordIn(b, at, Be4(v), 0);
    WordBack(v);
  }

  lemma {:induction false} LiesPart(b: Bytes, at: nat, c: Bytes, k: nat, d: Bytes)
    requires LiesAt(b, at, c) && LiesAt(c, k, d)
    ensures LiesAt(b, at + k, d)
  {
    LiesIff(c, k, d);
    PartIn(b, at, c, k, k + |d|);
    LiesIff(b, at + k, d);
  }

  lemma {:induction false} LiesJoin(a: Bytes, d: Bytes, c: Bytes)
    ensures LiesAt(a + d + c, |a|, d)
  {
    LiesIff(a + d + c, |a|, d);
  }

  lemma {:induction false} StringBack(b: Bytes, at: nat, name: Bytes)
    requires LiesAt(b, at, name + [0]) && 0 !in name
    ensures CString(b, at) == Some(name)
    decreases |name|
  {
    var c := name + [0];
    ByteIn(b, at, c, 0);
    if name != [] {
      TailIn(b, at, c, 1, name[1..] + [0]);
      StringBack(b, at + 1, name[1..]);
      assert [name[0]] + name[1..] == name;
    }
  }

  // ---- tokens ---------------------------------------------------------------------------------------------

  /** A token whose numbers fit, its name NUL-free. */
  predicate TokenFits(t: Token) {
    match t
    case Begin(name) => 0 !in name
    case Prop(name, data) => 0 !in name && |data| < LIMIT
    case End => true
  }

  lemma {:induction false} AlignShift(x: nat, shift: nat)
    requires shift % 4 == 0
    ensures Align4(shift + x) == shift + Align4(x)
  {
  }

  lemma {:induction false} BeginBack(b: Bytes, at: nat, name: Bytes, strings: Bytes)
    requires at % 4 == 0 && LiesAt(b, at, TokenBytes(Begin(name), 0)) && 0 !in name
    ensures ReadToken(b, at, strings) == Got(Begin(name), at + TokenSize(Begin(name)))
  {
    var c := TokenBytes(Begin(name), 0);
    assert c == [] + Be4(BEGIN_NODE) + (name + [0] + Padding(Begun(name)));
    LiesJoin([], Be4(BEGIN_NODE), name + [0] + Padding(Begun(name)));
    LiesPart(b, at, c, 0, Be4(BEGIN_NODE));
    WordAt(b, at, BEGIN_NODE);
    assert c == Be4(BEGIN_NODE) + (name + [0]) + Padding(Begun(name));
    LiesJoin(Be4(BEGIN_NODE), name + [0], Padding(Begun(name)));
    LiesPart(b, at, c, 4, name + [0]);
    StringBack(b, at + 4, name);
    AlignShift(5 + |name|, at);
  }

  lemma {:induction false} PropPieces(data: Bytes, offset: nat)
    ensures var c := TokenBytes(Prop([], data), offset);
      LiesAt(c, 0, Be4(PROP)) && LiesAt(c, 4, Be4(|data|)) && LiesAt(c, 8, Be4(offset)) && LiesAt(c, 12, data)
  {
    var c, w, l, o, p := TokenBytes(Prop([], data), offset), Be4(PROP), Be4(|data|), Be4(offset), Padding(data);
    assert c == [] + w + (l + o + data + p);
    LiesJoin([], w, l + o + data + p);
    assert c == w + l + (o + data + p);
    LiesJoin(w, l, o + data + p);
    assert c == (w + l) + o + (data + p);
    LiesJoin(w + l, o, data + p);
    assert c == (w + l + o) + data + p;
    LiesJoin(w + l + o, data, p);
  }

  lemma {:induction false} PropBack(b: Bytes, at: nat, name: Bytes, data: Bytes, offset: nat, strings: Bytes)
    requires at % 4 == 0 && LiesAt(b, at, TokenBytes(Prop(name, data), offset)) && |data| < LIMIT && offset < LIMIT
    requires CString(strings, offset) == Some(name)
    ensures ReadToken(b, at, strings) == Got(Prop(name, data), at + TokenSize(Prop(name, data)))
  {
    PropPieces(data, offset);
    PropLies(b, at, TokenBytes(Prop([], data), offset), data, offset);
    AlignShift(12 + |data|, at);
    AlignShift(|data|, 12);
    PropFrom(b, at, name, data, offset, strings);
  }

  lemma {:induction false} PropLies(b: Bytes, at: nat, c: Bytes, data: Bytes, offset: nat)
    requires LiesAt(b, at, c) && |data| < LIMIT && offset < LIMIT
    requires LiesAt(c, 0, Be4(PROP)) && LiesAt(c, 4, Be4(|data|)) && LiesAt(c, 8, Be4(offset)) && LiesAt(c, 12, data)
    ensures at + 12 + |data| <= |b| && Word(b, at) == PROP && Word(b, at + 4) == |data| && Word(b, at + 8) == offset
      && b[at + 12..at + 12 + |data|] == data
  {
    LiesPart(b, at, c, 0, Be4(PROP));
    WordAt(b, at, PROP);
    LiesPart(b, at, c, 4, Be4(|data|));
    WordAt(b, at + 4, |data|);
    LiesPart(b, at, c, 8, Be4(offset));
    WordAt(b, at + 8, offset);
    LiesPart(b, at, c, 12, data);
    LiesIff(b, at + 12, data);
  }

  lemma {:induction false} PropFrom(b: Bytes, at: nat, name: Bytes, data: Bytes, offset: nat, strings: Bytes)
    requires at + 12 + |data| <= |b| && Word(b, at) == PROP && Word(b, at + 4) == |data| && Word(b, at + 8) == offset
    requires b[at + 12..at + 12 + |data|] == data && CString(strings, offset) == Some(name)
    ensures ReadToken(b, at, strings) == Got(Prop(name, data), Align4(at + 12 + |data|))
  {
  }

  lemma {:induction false} EndBack(b: Bytes, at: nat, strings: Bytes)
    requires LiesAt(b, at, TokenBytes(End, 0))
    ensures ReadToken(b, at, strings) == Got(End, at + 4)
  {
    WordAt(b, at, END_NODE);
  }

  lemma {:induction false} TokenBack(b: Bytes, at: nat, t: Token, offset: nat, strings: Bytes)
    requires at % 4 == 0 && LiesAt(b, at, TokenBytes(t, offset)) && TokenFits(t)
    requires t.Prop? ==> offset < LIMIT && CString(strings, offset) == Some(t.name)
    ensures ReadToken(b, at, strings) == Got(t, at + TokenSize(t))
  {
    match t
    case Begin(name) => BeginBack(b, at, name, strings);
    case Prop(name, data) => PropBack(b, at, name, data, offset, strings);
    case End => EndBack(b, at, strings);
  }

  // ---- the structure block --------------------------------------------------------------------------------

  predicate SizedAt(parts: seq<Bytes>, tokens: seq<Token>, i: nat)
    requires i < |parts| == |tokens|
  {
    |parts[i]| == TokenSize(tokens[i]) && TokenSize(tokens[i]) % 4 == 0
  }

  lemma {:induction false} PlaceOf(parts: seq<Bytes>, tokens: seq<Token>, n: nat)
    requires n <= |tokens| == |parts| && forall i :: 0 <= i < |tokens| ==> SizedAt(parts, tokens, i)
    ensures |Flat(parts, n)| == Place(tokens, n) && Place(tokens, n) % 4 == 0
    decreases n
  {
    if n > 0 {
      PlaceOf(parts, tokens, n - 1);
      assert SizedAt(parts, tokens, n - 1);
    }
  }

  lemma {:induction false} TokenSized(t: Token, offset: nat)
    ensures |TokenBytes(t, offset)| == TokenSize(t) && TokenSize(t) % 4 == 0
  {
  }

  lemma {:induction false} PlaceIs(tokens: seq<Token>, offsets: seq<nat>, n: nat)
    requires |offsets| == |tokens| && n <= |tokens|
    ensures |Flat(Parts(tokens, offsets), n)| == Place(tokens, n) && Place(tokens, n) % 4 == 0
  {
    var parts := Parts(tokens, offsets);
    forall i | 0 <= i < |tokens| ensures SizedAt(parts, tokens, i) { TokenSized(tokens[i], offsets[i]); }
    PlaceOf(parts, tokens, n);
  }

  predicate ReadsAt(read: nat -> Read, tokens: seq<Token>, k: nat)
    requires k < |tokens|
  {
    read(Place(tokens, k)) == Got(tokens[k], Place(tokens, k + 1)) && Place(tokens, k) < Place(tokens, k + 1)
  }

  /** Tokens read one after another, then the last. */
  lemma {:induction false} AllRead(read: nat -> Read, tokens: seq<Token>, end: nat, k: nat)
    requires k <= |tokens| && (forall i :: 0 <= i < |tokens| ==> ReadsAt(read, tokens, i))
      && read(Place(tokens, |tokens|)) == Last && Place(tokens, |tokens|) < end
    ensures ReadTokens(read, Place(tokens, k), end) == Some(tokens[k..]) && Place(tokens, k) <= Place(tokens, |tokens|)
    decreases |tokens| - k
  {
    if k < |tokens| {
      AllRead(read, tokens, end, k + 1);
      assert ReadsAt(read, tokens, k);
      assert [tokens[k]] + tokens[k + 1..] == tokens[k..];
    } else {
      assert tokens[k..] == [];
    }
  }

  /** Every property's name is where its offset says. */
  predicate NamedRight(tokens: seq<Token>, offsets: seq<nat>, strings: Bytes, k: nat)
    requires k < |tokens| == |offsets|
  {
    tokens[k].Prop? ==> offsets[k] < LIMIT && CString(strings, offsets[k]) == Some(tokens[k].name)
  }

  lemma {:induction false} TokenReads(tokens: seq<Token>, offsets: seq<nat>, strings: Bytes, st: Bytes,
      read: nat -> Read, k: nat)
    requires k < |tokens| == |offsets| && TokenFits(tokens[k]) && NamedRight(tokens, offsets, strings, k)
    requires LiesAt(st, Place(tokens, k), TokenBytes(tokens[k], offsets[k])) && Place(tokens, k) % 4 == 0
    requires read == ((at: nat) => ReadToken(st, at, strings))
    ensures ReadsAt(read, tokens, k)
  {
    TokenBack(st, Place(tokens, k), tokens[k], offsets[k], strings);
  }

  lemma {:induction false} TokenLies(tokens: seq<Token>, offsets: seq<nat>, tail: Bytes, k: nat)
    requires k < |tokens| == |offsets|
    ensures LiesAt(Struct(tokens, offsets) + tail, Place(tokens, k), TokenBytes(tokens[k], offsets[k]))
      && Place(tokens, k) % 4 == 0
  {
    var parts := Parts(tokens, offsets);
    FlatAt(parts, k, |tokens|);
    PlaceIs(tokens, offsets, k);
    LiesFirst(Flat(parts, |tokens|), tail, Place(tokens, k), parts[k]);
  }

  /** The structure block is read as its tokens. */
  lemma {:induction false} StructBack(tokens: seq<Token>, offsets: seq<nat>, strings: Bytes, st: Bytes,
      read: nat -> Read)
    requires |tokens| == |offsets| && st == Struct(tokens, offsets) + Be4(FDT_END)
      && read == ((at: nat) => ReadToken(st, at, strings))
    requires forall k :: 0 <= k < |tokens| ==> TokenFits(tokens[k]) && NamedRight(tokens, offsets, strings, k)
    ensures ReadTokens(read, 0, |st|) == Some(tokens)
  {
    forall k | 0 <= k < |tokens| ensures ReadsAt(read, tokens, k) {
      TokenLies(tokens, offsets, Be4(FDT_END), k);
      assert NamedRight(tokens, offsets, strings, k);
      TokenReads(tokens, offsets, strings, st, read, k);
    }
    PlaceIs(tokens, offsets, |tokens|);
    LastReads(Struct(tokens, offsets), st, strings);
    AllRead(read, tokens, |st|, 0);
    assert tokens[0..] == tokens;
  }

  lemma {:induction false} LastReads(front: Bytes, st: Bytes, strings: Bytes)
    requires st == front + Be4(FDT_END)
    ensures ReadToken(st, |front|, strings) == Last
  {
    assert st == front + Be4(FDT_END) + [];
    LiesJoin(front, Be4(FDT_END), []);
    WordAt(st, |front|, FDT_END);
  }

  // ---- filling in -----------------------------------------------------------------------------------------

  lemma {:induction false} FlatSame(parts: seq<Bytes>, parts': seq<Bytes>, n: nat)
    requires n <= |parts| == |parts'| && forall k :: 0 <= k < n ==> parts'[k] == parts[k]
    ensures Flat(parts', n) == Flat(parts, n)
    decreases n
  {
    if n > 0 { FlatSame(parts, parts', n - 1); }
  }

  /** One part replaced by another of the same length. */
  lemma {:induction false} FlatSet(parts: seq<Bytes>, i: nat, p: Bytes, n: nat)
    requires i < n <= |parts| && |p| == |parts[i]|
    ensures |Flat(parts, i)| + |p| <= |Flat(parts, n)|
    ensures Flat(parts[i := p], n) == Flat(parts, n)[..|Flat(parts, i)|] + p + Flat(parts, n)[|Flat(parts, i)| + |p|..]
    decreases n
  {
    var at := |Flat(parts, i)|;
    if i == n - 1 {
      FlatSame(parts, parts[i := p], i);
      Replaced(Flat(parts, i), parts[i], p, []);
      assert Flat(parts, n) == Flat(parts, i) + parts[i] + [] && Flat(parts[i := p], n) == Flat(parts, i) + p + [];
    } else {
      FlatSet(parts, i, p, n - 1);
      ReplacedOn(Flat(parts, n - 1), at, p, parts[n - 1]);
    }
  }

  /** Replacing within a text, and then something behind it. */
  lemma {:induction false} ReplacedOn(front: Bytes, at: nat, p: Bytes, last: Bytes)
    requires at + |p| <= |front|
    ensures front[..at] + p + front[at + |p|..] + last == (front + last)[..at] + p + (front + last)[at + |p|..]
  {
    assert (front + last)[..at] == front[..at] && (front + last)[at + |p|..] == front[at + |p|..] + last;
  }

  lemma {:induction false} Replaced(a: Bytes, c: Bytes, p: Bytes, d: Bytes)
    requires |p| == |c|
    ensures var all := a + c + d; all[..|a|] + p + all[|a| + |p|..] == a + p + d
  {
    var all := a + c + d;
    assert all[..|a|] == a && all[|a| + |p|..] == d;
  }

  lemma {:induction false} TokenPatched(name: Bytes, data: Bytes, was: nat, now: nat)
    ensures TokenBytes(Prop(name, data), now) == Patched(TokenBytes(Prop(name, data), was), 8, now)
  {
    var head, tail := Be4(PROP) + Be4(|data|), data + Padding(data);
    assert TokenBytes(Prop(name, data), was) == head + Be4(was) + tail;
    assert TokenBytes(Prop(name, data), now) == head + Be4(now) + tail;
  }

  /** A property's offset filled in is the block with that offset. */
  lemma {:induction false} StructPatched(tokens: seq<Token>, offsets: seq<nat>, i: nat, v: nat)
    requires i < |tokens| == |offsets| && tokens[i].Prop?
    ensures Place(tokens, i) + 12 <= |Struct(tokens, offsets)|
    ensures Struct(tokens, offsets[i := v]) == Patched(Struct(tokens, offsets), Place(tokens, i) + 8, v)
  {
    PartsSet(tokens, offsets, i, v);
    PlaceIs(tokens, offsets, i);
    TokenPatched(tokens[i].name, tokens[i].data, offsets[i], v);
    PartPatched(Parts(tokens, offsets), i, TokenBytes(tokens[i], v), 8, v);
  }

  lemma {:induction false} PartsSet(tokens: seq<Token>, offsets: seq<nat>, i: nat, v: nat)
    requires i < |tokens| == |offsets|
    ensures Parts(tokens, offsets[i := v]) == Parts(tokens, offsets)[i := TokenBytes(tokens[i], v)]
  {
  }

  /** A part patched is the whole patched. */
  lemma {:induction false} PartPatched(parts: seq<Bytes>, i: nat, p: Bytes, k: nat, v: nat)
    requires i < |parts| && k + 4 <= |parts[i]| && p == Patched(parts[i], k, v)
    ensures |Flat(parts, i)| + |parts[i]| <= |Flat(parts, |parts|)|
    ensures Flat(parts[i := p], |parts|) == Patched(Flat(parts, |parts|), |Flat(parts, i)| + k, v)
  {
    FlatSet(parts, i, p, |parts|);
    FlatAt(parts, i, |parts|);
    PatchedPart(Flat(parts, |parts|), |Flat(parts, i)|, parts[i], p, k, v);
  }

  lemma {:induction false} PatchedPart(b: Bytes, at: nat, c: Bytes, c': Bytes, k: nat, v: nat)
    requires LiesAt(b, at, c) && k + 4 <= |c| && c' == Patched(c, k, v)
    ensures at + |c| <= |b| && b[..at] + c' + b[at + |c|..] == Patched(b, at + k, v)
  {
    LiesIff(b, at, c);
    assert b == b[..at] + c + b[at + |c|..];
  }

  lemma {:induction false} PatchedWithin(front: Bytes, b: Bytes, tail: Bytes, at: nat, v: nat)
    requires at + 4 <= |b|
    ensures Patched(front + b + tail, |front| + at, v) == front + Patched(b, at, v) + tail
  {
  }

  // ---- the strings block ----------------------------------------------------------------------------------

  /** A property header's offset slot. */
  function Slot(tokens: seq<Token>, base: nat, i: nat): nat
    requires i < |tokens|
  {
    base + Place(tokens, i) + 8
  }

  lemma {:induction false} StringLies(refs: seq<StringRef>, s: nat)
    requires s < |refs| && 0 !in refs[s].name
    ensures CString(Flat(Strings(refs), |refs|), |Flat(Strings(refs), s)|) == Some(refs[s].name)
  {
    FlatAt(Strings(refs), s, |refs|);
    StringBack(Flat(Strings(refs), |refs|), |Flat(Strings(refs), s)|, refs[s].name);
  }
}
