/** Byte strings, put together from parts and taken apart again. */
module ByteStrings {

  /** A byte, 0 to 255. */
  type Byte = b: int | 0 <= b < 256

  type Bytes = seq<Byte>

  datatype Option<+T> = None | Some(value: T)

  function Zeros(n: nat): (r: Bytes)
    ensures |r| == n && forall i :: 0 <= i < n ==> r[i] == 0
  {
    seq(n, _ => 0)
  }

  /** (x + 3) & !3 */
  function Align4(x: nat): (r: nat)
    ensures x <= r < x + 4 && r % 4 == 0
  {
    (x + 3) / 4 * 4
  }

  /** The first `n` of some parts, one after another. */
  function Flat(parts: seq<Bytes>, n: nat): Bytes
    requires n <= |parts|
  {
    if n == 0 then [] else Flat(parts, n - 1) + parts[n - 1]
  }

  /** `c` lies in `b` at `at`. */
  predicate LiesAt(b: Bytes, at: nat, c: Bytes)
    decreases |c|
  {
    if c == [] then at <= |b| else at < |b| && b[at] == c[0] && LiesAt(b, at + 1, c[1..])
  }

  lemma {:induction false} LiesIff(b: Bytes, at: nat, c: Bytes)
    ensures LiesAt(b, at, c) <==> at + |c| <= |b| && b[at..at + |c|] == c
    decreases |c|
  {
    if c != [] {
      LiesIff(b, at + 1, c[1..]);
      if at + |c| <= |b| {
        assert b[at..at + |c|] == [b[at]] + b[at + 1..at + |c|];
        assert c == [c[0]] + c[1..];
      }
    }
  }

  lemma {:induction false} LiesWithin(b: Bytes, at: nat, c: Bytes)
    requires LiesAt(b, at, c)
    ensures at + |c| <= |b|
  {
    LiesIff(b, at, c);
  }

  lemma {:induction false} ByteIn(b: Bytes, at: nat, c: Bytes, k: nat)
    requires LiesAt(b, at, c) && k < |c|
    ensures at + |c| <= |b| && b[at + k] == c[k]
  {
    LiesIff(b, at, c);
    assert b[at..at + |c|][k] == b[at + k];
  }

  lemma {:induction false} PartIn(b: Bytes, at: nat, c: Bytes, i: nat, j: nat)
    requires LiesAt(b, at, c) && i <= j <= |c|
    ensures at + |c| <= |b| && b[at + i..at + j] == c[i..j]
  {
    LiesWithin(b, at, c);
    forall k | i <= k < j ensures b[at + k] == c[k] { ByteIn(b, at, c, k); }
  }

  lemma {:induction false} TailIn(b: Bytes, at: nat, c: Bytes, i: nat, tail: Bytes)
    requires LiesAt(b, at, c) && i <= |c| && c[i..] == tail
    ensures LiesAt(b, at + i, tail)
  {
    PartIn(b, at, c, i, |c|);
    LiesIff(b, at + i, tail);
  }

  lemma {:induction false} FlatAt(parts: seq<Bytes>, k: nat, n: nat)
    requires k < n <= |parts|
    ensures LiesAt(Flat(parts, n), |Flat(parts, k)|, parts[k])
    decreases n
  {
    if k + 1 < n {
      FlatAt(parts, k, n - 1);
      LiesFirst(Flat(parts, n - 1), parts[n - 1], |Flat(parts, k)|, parts[k]);
    } else {
      LiesIff(Flat(parts, n), |Flat(parts, k)|, parts[k]);
    }
  }

  lemma {:induction false} FlatGrows(parts: seq<Bytes>, k: nat, n: nat)
    requires k <= n <= |parts|
    ensures |Flat(parts, k)| <= |Flat(parts, n)|
    decreases n
  {
    if k < n { FlatGrows(parts, k, n - 1); }
  }

  lemma {:induction false} LiesFirst(a: Bytes, c: Bytes, at: nat, part: Bytes)
    requires LiesAt(a, at, part)
    ensures LiesAt(a + c, at, part)
  {
    LiesIff(a, at, part);
    LiesIff(a + c, at, part);
    assert (a + c)[at..at + |part|] == a[at..at + |part|];
  }

  lemma {:induction false} LiesAfter(a: Bytes, b: Bytes, c: Bytes, at: nat, part: Bytes)
    requires LiesAt(b, at, part)
    ensures LiesAt(a + b + c, |a| + at, part)
  {
    LiesIff(b, at, part);
    LiesIff(a + b + c, |a| + at, part);
    assert (a + b + c)[|a| + at..|a| + at + |part|] == b[at..at + |part|];
  }

  // ---- hexadecimal numbers --------------------------------------------------------------------------------

  function Digit(v: nat): Byte
    requires v < 16
  {
    if v < 10 then 48 + v else 87 + v
  }

  function DigitValue(c: Byte): Option<nat> {
    if 48 <= c <= 57 then Some(c - 48)
    else if 97 <= c <= 102 then Some(c - 87)
    else if 65 <= c <= 70 then Some(c - 55)
    else None
  }

  function Digits(t: Bytes): Option<nat> {
    if t == [] then Some(0)
    else
      var front, last := Digits(t[..|t| - 1]), DigitValue(t[|t| - 1]);
      if front.None? || last.None? then None else Some(16 * front.value + last.value)
  }

  lemma {:induction false} DigitBack(d: nat)
    requires d < 16
    ensures DigitValue(Digit(d)) == Some(d) && Digit(d) != 43
  {
  }

  lemma {:induction false} DigitsSnoc(t: Bytes, front: nat, last: nat)
    requires t != [] && Digits(t[..|t| - 1]) == Some(front) && DigitValue(t[|t| - 1]) == Some(last)
    ensures Digits(t) == Some(16 * front + last)
  {
  }
}
