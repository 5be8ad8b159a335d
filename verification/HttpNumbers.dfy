/**
 The numbers two readers take from a length line: Python's int(line, 16) (python/lib/collabo_core.py) and
 JavaScript's parseInt(line, 16) (host/http-protocol.js). They are not the same.
 */
module HttpNumbers {
  import opened ByteStrings

  const NL: Byte := 10
  const BOM: Bytes := [0xEF, 0xBB, 0xBF]

  predicate StartsWith(b: Bytes, p: Bytes) { |p| <= |b| && b[..|p|] == p }

  predicate IsAscii(t: Bytes) { forall i :: 0 <= i < |t| ==> t[i] < 128 }

  predicate IsHexPrefix(t: Bytes) { |t| >= 2 && t[0] == 48 && (t[1] == 120 || t[1] == 88) }

  // ---- int(line, 16) --------------------------------------------------------------------------------------

  predicate IsSpace(c: Byte) { 9 <= c <= 13 || c == 32 }

  function SkipFront(t: Bytes): Bytes {
    if t != [] && IsSpace(t[0]) then SkipFront(t[1..]) else t
  }

  function SkipBack(t: Bytes): Bytes {
    if t != [] && IsSpace(t[|t| - 1]) then SkipBack(t[..|t| - 1]) else t
  }

  /** Digits, with single underscores between them if need be. */
  function PyDigits(t: Bytes): Option<nat> {
    if t == [] then None
    else
      var d := DigitValue(t[|t| - 1]);
      if d.None? then None
      else if |t| == 1 then d
      else
        var front := PyDigits(if t[|t| - 2] == 95 then t[..|t| - 2] else t[..|t| - 1]);
        if front.None? then None else Some(16 * front.value + d.value)
  }

  /** A 0x may come first, and an underscore behind that. */
  function PyUnsigned(t: Bytes): Option<nat> {
    if IsHexPrefix(t) then PyDigits(if |t| > 2 && t[2] == 95 then t[3..] else t[2..]) else PyDigits(t)
  }

  function Negated(v: Option<nat>): Option<int> { if v.None? then None else Some(0 - v.value) }

  function PySigned(t: Bytes): Option<int> {
    if t == [] then None
    else if t[0] == 45 then Negated(PyUnsigned(t[1..]))
    else if t[0] == 43 then PyUnsigned(t[1..])
    else PyUnsigned(t)
  }

  /** None where int() raises. `fold` is what Python makes of the digits and spaces that are not ASCII. */
  function PyInt(fold: Bytes -> Bytes, line: Bytes): Option<int> {
    PySigned(SkipBack(SkipFront(if IsAscii(line) then line else fold(line))))
  }

  // ---- int(code) ----------------------------------------------------------------------------------------------

  /** The most digits int() takes in base 10. */
  const MAX_DIGITS: nat := 4300

  predicate IsDigit(c: Byte) { 48 <= c <= 57 }

  /** Decimal digits, with single underscores between them if need be. */
  predicate Decimals(t: Bytes) {
    && t != [] && IsDigit(t[|t| - 1])
    && (|t| == 1 || Decimals(if t[|t| - 2] == 95 then t[..|t| - 2] else t[..|t| - 1]))
  }

  function DigitCount(t: Bytes): nat {
    if t == [] then 0 else DigitCount(t[1..]) + if t[0] == 95 then 0 else 1
  }

  /** int(code) gives a number. `fold` is as for PyInt. */
  predicate IsInteger(fold: Bytes -> Bytes, code: Bytes) {
    var t := SkipBack(SkipFront(if IsAscii(code) then code else fold(code)));
    var u := if t != [] && (t[0] == 45 || t[0] == 43) then t[1..] else t;
    Decimals(u) && DigitCount(u) <= MAX_DIGITS
  }

  lemma {:induction false} ThreeDigits(fold: Bytes -> Bytes, t: Bytes)
    requires |t| == 3 && IsDigit(t[0]) && IsDigit(t[1]) && IsDigit(t[2])
    ensures IsInteger(fold, t)
  {
    assert SkipFront(t) == t && SkipBack(t) == t;
    var two := t[..2];
    assert two[..1] == [t[0]];
    assert Decimals([t[0]]) && Decimals(two) && Decimals(t);
    assert t[1..][1..][1..] == [];
    assert DigitCount(t[1..][1..]) <= 1;
    assert DigitCount(t[1..]) <= 2;
  }

  // ---- parseInt(line, 16) ---------------------------------------------------------------------------------

  /** TextDecoder drops a byte order mark. */
  function Text(line: Bytes): Bytes { if StartsWith(line, BOM) then line[3..] else line }

  /** The length of the white space character a text starts with, or 0. */
  function WhiteLength(t: Bytes): nat {
    if t == [] then 0
    else if IsSpace(t[0]) then 1
    else if |t| >= 2 && t[0] == 0xC2 && t[1] == 0xA0 then 2
    else if |t| >= 3 && IsWide(t[0], t[1], t[2]) then 3
    else 0
  }

  /** U+1680, U+2000 to U+200A, U+2028, U+2029, U+202F, U+205F, U+3000 and U+FEFF. */
  predicate IsWide(a: Byte, b: Byte, c: Byte) {
    || (a == 0xE1 && b == 0x9A && c == 0x80)
    || (a == 0xE2 && b == 0x80 && (0x80 <= c <= 0x8A || c == 0xA8 || c == 0xA9 || c == 0xAF))
    || (a == 0xE2 && b == 0x81 && c == 0x9F)
    || (a == 0xE3 && b == 0x80 && c == 0x80)
    || (a == 0xEF && b == 0xBB && c == 0xBF)
  }

  function SkipWhite(t: Bytes): Bytes {
    if 0 < WhiteLength(t) <= |t| then SkipWhite(t[WhiteLength(t)..]) else t
  }

  /** The digits a text starts with: how many. */
  function HexRun(t: Bytes): (n: nat)
    ensures n <= |t| && forall i :: 0 <= i < n ==> DigitValue(t[i]).Some?
  {
    if t == [] || DigitValue(t[0]).None? then 0 else 1 + HexRun(t[1..])
  }

  /** The number of the digits a text starts with, whatever follows them; None, which is NaN, if there is none. */
  function JsUnsigned(t: Bytes): Option<nat> {
    var u := if IsHexPrefix(t) then t[2..] else t;
    if HexRun(u) == 0 then None else Digits(u[..HexRun(u)])
  }

  function JsSigned(t: Bytes): Option<int> {
    if t != [] && t[0] == 45 then Negated(JsUnsigned(t[1..]))
    else if t != [] && t[0] == 43 then JsUnsigned(t[1..])
    else JsUnsigned(t)
  }

  /** Numbers beyond 2^53 are rounded there; they lie past the end of any response either way. */
  function ParseInt(line: Bytes): Option<int> { JsSigned(SkipWhite(Text(line))) }

  // ---- what the bridge writes -----------------------------------------------------------------------------

  /** A number as toString(16) writes it. */
  function HexText(n: nat): (r: Bytes)
    ensures r != []
  {
    if n < 16 then [Digit(n)] else HexText(n / 16) + [Digit(n % 16)]
  }

  /** Digits of both: each is one, and none is an underscore, a sign or a space. */
  lemma {:induction false} HexTextDigits(n: nat)
    ensures forall i :: 0 <= i < |HexText(n)| ==> DigitValue(HexText(n)[i]).Some? && HexText(n)[i] < 128
    ensures n > 0 ==> HexText(n)[0] != 48
  {
    if n >= 16 { HexTextDigits(n / 16); }
  }

  /** All digits: Python's reading is the plain one. */
  lemma {:induction false} PlainDigits(t: Bytes)
    requires t != [] && forall i :: 0 <= i < |t| ==> DigitValue(t[i]).Some?
    ensures PyDigits(t) == Digits(t) && Digits(t).Some?
    decreases |t|
  {
    assert DigitValue(t[|t| - 1]).Some?;
    if |t| == 1 {
      assert t[..0] == [];
    } else {
      assert DigitValue(t[|t| - 2]).Some?;
      PlainDigits(t[..|t| - 1]);
    }
  }

  lemma {:induction false} RunOfDigits(t: Bytes)
    requires forall i :: 0 <= i < |t| ==> DigitValue(t[i]).Some?
    ensures HexRun(t) == |t|
    decreases |t|
  {
    if t != [] { RunOfDigits(t[1..]); }
  }

  lemma {:induction false} HexTextValue(n: nat)
    ensures Digits(HexText(n)) == Some(n)
  {
    if n < 16 {
      DigitBack(n);
      assert [Digit(n)][..0] == [];
      DigitsSnoc([Digit(n)], 0, n);
    } else {
      HexTextValue(n / 16);
      DigitBack(n % 16);
      assert HexText(n)[..|HexText(n)| - 1] == HexText(n / 16);
      DigitsSnoc(HexText(n), n / 16, n % 16);
    }
  }

  /** Plain digits are the same number to both, and what toString(16) wrote. */
  lemma {:induction false} PlainAgrees(fold: Bytes -> Bytes, t: Bytes)
    requires t != [] && IsAscii(t) && forall i :: 0 <= i < |t| ==> DigitValue(t[i]).Some?
    ensures PyInt(fold, t) == Digits(t) && ParseInt(t) == Digits(t) && Digits(t).Some?
  {
    assert DigitValue(t[0]).Some? && DigitValue(t[|t| - 1]).Some?;
    if |t| >= 2 { assert DigitValue(t[1]).Some?; }
    PlainDigits(t);
    RunOfDigits(t);
    assert t[..|t|] == t;
    NoMark(t);
  }

  lemma {:induction false} NoMark(t: Bytes)
    requires IsAscii(t)
    ensures Text(t) == t
  {
    if |t| >= 3 { assert t[..3][0] == t[0]; }
  }

  lemma {:induction false} HexBack(fold: Bytes -> Bytes, n: nat)
    ensures PyInt(fold, HexText(n)) == Some(n) && ParseInt(HexText(n)) == Some(n) && NL !in HexText(n)
  {
    HexTextDigits(n);
    HexTextValue(n);
    PlainAgrees(fold, HexText(n));
  }

  // ---- where they part ------------------------------------------------------------------------------------

  /** "5;" is 5 to one and an error to the other. */
  lemma {:induction false} Semicolon(fold: Bytes -> Bytes)
    ensures ParseInt([53, 59]) == Some(5) && PyInt(fold, [53, 59]) == None
  {
    var t: Bytes := [53, 59];
    NoMark(t);
    assert t[..1] == [53] && t[1..] == [59];
    var one: Bytes := [53];
    assert one[..0] == [];
    assert HexRun([59]) == 0 && HexRun(t) == 1;
    DigitsSnoc(one, 0, 5);
    assert SkipFront(t) == t && SkipBack(t) == t;
  }

  /** "1_0" is 1 to one and 16 to the other. */
  lemma {:induction false} Underscore(fold: Bytes -> Bytes)
    ensures ParseInt([49, 95, 48]) == Some(1) && PyInt(fold, [49, 95, 48]) == Some(16)
  {
    var t: Bytes := [49, 95, 48];
    NoMark(t);
    assert t[..1] == [49] && t[1..] == [95, 48];
    var one: Bytes := [49];
    assert one[..0] == [];
    assert HexRun([95, 48]) == 0 && HexRun(t) == 1;
    DigitsSnoc(one, 0, 1);
    assert SkipFront(t) == t && SkipBack(t) == t;
    assert PyDigits([49]) == Some(1);
  }

  /** Nothing, or a text that starts with z or K. */
  predicate Junk(t: Bytes) { t == [] || t[0] == 122 || t[0] == 75 }

  /** Not a number at all. */
  lemma {:induction false} NotANumber(t: Bytes)
    requires Junk(t)
    ensures ParseInt(t) == None
  {
    if t != [] && |t| >= 3 { assert t[..3][0] == t[0]; }
  }

  /** "zz" is a number to neither. */
  lemma {:induction false} TwoZs(fold: Bytes -> Bytes)
    ensures ParseInt([122, 122]) == None && PyInt(fold, [122, 122]) == None
  {
    var t: Bytes := [122, 122];
    NotANumber(t);
    assert SkipFront(t) == t && SkipBack(t) == t;
  }

  lemma {:induction false} RunThen(u: Bytes, rest: Bytes)
    requires (forall i :: 0 <= i < |u| ==> DigitValue(u[i]).Some?) && (rest == [] || DigitValue(rest[0]).None?)
    ensures HexRun(u + rest) == |u|
    decreases |u|
  {
    if u == [] {
      assert u + rest == rest;
    } else {
      assert (u + rest)[1..] == u[1..] + rest;
      RunThen(u[1..], rest);
    }
  }

  /** The status line "000 x" read as a length. */
  const ZERO_STATUS: Bytes := [48, 48, 48, 32, 120]

  lemma {:induction false} ZeroStatus()
    ensures ParseInt(ZERO_STATUS) == Some(0)
  {
    var t := ZERO_STATUS;
    NoMark(t);
    var u: Bytes := [48, 48, 48];
    assert t == u + [32, 120] && t[..3] == u;
    RunThen(u, [32, 120]);
    DigitsOfZeros(u);
  }

  // ---- signs ------------------------------------------------------------------------------------------------

  lemma {:induction false} SameFront(t: Bytes)
    requires IsAscii(t)
    ensures SkipWhite(t) == SkipFront(t)
    decreases |t|
  {
    if t != [] && IsSpace(t[0]) { SameFront(t[1..]); }
  }

  lemma {:induction false} FrontAscii(t: Bytes)
    ensures |SkipFront(t)| <= |t| && SkipFront(t) == t[|t| - |SkipFront(t)|..]
    decreases |t|
  {
    if t != [] && IsSpace(t[0]) { FrontAscii(t[1..]); }
  }

  /** What is cut off at the end are spaces. */
  lemma {:induction false} BackIsPrefix(t: Bytes)
    ensures SkipBack(t) <= t && forall i :: |SkipBack(t)| <= i < |t| ==> IsSpace(t[i])
    decreases |t|
  {
    if t != [] && IsSpace(t[|t| - 1]) { BackIsPrefix(t[..|t| - 1]); }
  }

  /** Nothing but zeros in a number that is zero. */
  lemma {:induction false} ZeroIsZeros(t: Bytes)
    requires PyDigits(t) == Some(0)
    ensures forall i :: 0 <= i < |t| ==> t[i] == 48 || t[i] == 95
    decreases |t|
  {
    if |t| > 1 {
      var front := if t[|t| - 2] == 95 then t[..|t| - 2] else t[..|t| - 1];
      ZeroIsZeros(front);
      forall i | 0 <= i < |t| ensures t[i] == 48 || t[i] == 95 {
        if i < |front| { assert front[i] == t[i]; }
      }
    }
  }

  lemma {:induction false} DigitsOfZeros(t: Bytes)
    requires forall i :: 0 <= i < |t| ==> t[i] == 48
    ensures Digits(t) == Some(0)
    decreases |t|
  {
    if t != [] { DigitsOfZeros(t[..|t| - 1]); }
  }

  /** A run of digits in a text whose digits are all zeros. */
  lemma {:induction false} RunOfZeros(t: Bytes, n: nat)
    requires n <= |t| && forall i :: 0 <= i < n ==> t[i] == 48 || t[i] == 95
    requires forall i :: n <= i < |t| ==> IsSpace(t[i])
    ensures HexRun(t) <= n && Digits(t[..HexRun(t)]) == Some(0)
  {
    var k := HexRun(t);
    if n < |t| { assert IsSpace(t[n]) && DigitValue(t[n]).None?; }
    DigitsOfZeros(t[..k]);
  }

  /** Python's zero is no other number to the other. */
  lemma {:induction false} ZeroToBoth(t: Bytes, back: Bytes)
    requires back <= t && (forall i :: |back| <= i < |t| ==> IsSpace(t[i])) && PyUnsigned(back) == Some(0)
    ensures JsUnsigned(t) == None || JsUnsigned(t) == Some(0)
  {
    if IsHexPrefix(back) {
      var u := t[2..];
      var v := if |back| > 2 && back[2] == 95 then back[3..] else back[2..];
      ZeroIsZeros(v);
      forall i | 0 <= i < |back| - 2 ensures u[i] == 48 || u[i] == 95 {
        assert u[i] == back[i + 2];
        if |back| > 2 && back[2] == 95 { if i > 0 { assert v[i - 1] == back[i + 2]; } }
          else { assert v[i] == back[i + 2]; }
      }
      forall i | |back| - 2 <= i < |u| ensures IsSpace(u[i]) { assert u[i] == t[i + 2]; }
      RunOfZeros(u, |back| - 2);
    } else {
      ZeroIsZeros(back);
      forall i | 0 <= i < |back| ensures t[i] == 48 || t[i] == 95 { assert t[i] == back[i]; }
      if |t| >= 2 && |back| < 2 { assert IsSpace(t[1]); }
      if |back| >= 2 { assert back[0] == t[0] && back[1] == t[1]; }
      RunOfZeros(t, |back|);
    }
  }

  /** A line that is no negative number to Python is none to the other. */
  lemma {:induction false} SameSign(fold: Bytes -> Bytes, line: Bytes)
    requires IsAscii(line) && PyInt(fold, line).Some? && PyInt(fold, line).value >= 0
    ensures ParseInt(line).None? || ParseInt(line).value >= 0
  {
    NoMark(line);
    SameFront(line);
    var t := SkipFront(line);
    var back := SkipBack(t);
    BackIsPrefix(t);
    if t != [] && t[0] == 45 {
      assert back[0] == t[0];
      assert back[1..] <= t[1..];
      forall i | |back[1..]| <= i < |t[1..]| ensures IsSpace(t[1..][i]) { assert t[1..][i] == t[i + 1]; }
      ZeroToBoth(t[1..], back[1..]);
    }
  }
}
