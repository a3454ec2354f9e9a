/** String facts the program relies on through Rust's standard library:
    the UTF-8 byte length returned by `str::len`, `str::find`, `str::contains`,
    `str::repeat` and ASCII lower-casing. Strings are sequences of Unicode
    scalar values. */
module Text {
  import opened Wrappers

  /** Number of bytes the UTF-8 encoding of `c` occupies. */
  function Utf8Len(c: char): (n: nat)
    ensures 1 <= n <= 4
    ensures n == 1 <==> c as int < 0x80
  {
    if c as int < 0x80 then 1
    else if c as int < 0x800 then 2
    else if c as int < 0x1_0000 then 3
    else 4
  }

  /** What Rust's `str::len` returns: the length of the UTF-8 encoding. */
  function ByteLen(s: string): nat
  {
    if s == [] then 0 else Utf8Len(s[0]) + ByteLen(s[1..])
  }

  predicate IsAscii(s: string)
  {
    forall i :: 0 <= i < |s| ==> s[i] as int < 0x80
  }

  /** Every character takes at least one byte, so the byte length never falls
      below the character count, and equals it exactly on ASCII text. */
  lemma {:induction false} CharsAtMostBytes(s: string)
    ensures |s| <= ByteLen(s)
    ensures ByteLen(s) == |s| <==> IsAscii(s)
  {
    if s != [] {
      CharsAtMostBytes(s[1..]);
      if IsAscii(s[1..]) && s[0] as int < 0x80 {
        forall i | 0 <= i < |s| ensures s[i] as int < 0x80 {
          if i > 0 { assert s[i] == s[1..][i - 1]; }
        }
      }
      if IsAscii(s) {
        forall i | 0 <= i < |s[1..]| ensures s[1..][i] as int < 0x80 {
          assert s[1..][i] == s[i + 1];
        }
      }
    }
  }

  /** Byte length is additive over concatenation. */
  lemma {:induction false} ByteLenAppend(s: string, t: string)
    ensures ByteLen(s + t) == ByteLen(s) + ByteLen(t)
  {
    if s == [] {
      assert s + t == t;
    } else {
      assert (s + t)[1..] == s[1..] + t;
      ByteLenAppend(s[1..], t);
    }
  }

  /** Byte offsets grow strictly with the character offset. */
  lemma ByteOffsetMonotone(s: string, i: nat, j: nat)
    requires i < j <= |s|
    ensures ByteLen(s[..i]) < ByteLen(s[..j])
  {
    assert s[..j] == s[..i] + s[i..j];
    ByteLenAppend(s[..i], s[i..j]);
    assert s[i..j] == [s[i]] + s[i + 1..j];
  }

  /** `c` repeated `n` times, as `str::repeat` on a one-character string. */
  function Repeat(c: char, n: nat): (r: string)
    ensures |r| == n
    ensures forall i :: 0 <= i < n ==> r[i] == c
  {
    if n == 0 then [] else [c] + Repeat(c, n - 1)
  }

  /** `t` occurs in `s` starting at character offset `i`. */
  predicate Occurs(t: string, s: string, i: nat)
  {
    i + |t| <= |s| && s[i..i + |t|] == t
  }

  /** What Rust's `str::contains` decides: `t` occurs somewhere in `s`. */
  predicate Contains(s: string, t: string)
  {
    exists i: nat :: i + |t| <= |s| && Occurs(t, s, i)
  }

  /** `str::find` from character offset `from` on: the first occurrence at or
      after `from`, or None when there is none. */
  function FindFrom(s: string, t: string, from: nat): (r: Option<nat>)
    ensures r.Some? ==>
      from <= r.value && Occurs(t, s, r.value) &&
      forall j :: from <= j < r.value ==> !Occurs(t, s, j)
    ensures r.None? ==> forall j :: from <= j ==> !Occurs(t, s, j)
    decreases |s| - from
  {
    if from + |t| > |s| then None
    else if s[from..from + |t|] == t then Some(from)
    else FindFrom(s, t, from + 1)
  }

  /** `str::find`: the character offset of the first occurrence of `t` in `s`.
      A UTF-8 pattern can only match at character boundaries, so a search
      over characters finds the same occurrence as Rust's search over bytes. */
  function Find(s: string, t: string): (r: Option<nat>)
    ensures r.Some? <==> Contains(s, t)
    ensures r.Some? ==> Occurs(t, s, r.value) && forall j: nat :: j < r.value ==> !Occurs(t, s, j)
  {
    FindFrom(s, t, 0)
  }

  /** The character offset `Find` returns, converted to bytes, is the smallest
      byte offset of any occurrence: a later occurrence starts strictly
      further into the UTF-8 encoding. */
  lemma FirstMatchByteOffset(s: string, t: string)
    requires Find(s, t).Some?
    ensures forall j: nat :: j <= |s| && Occurs(t, s, j) && j != Find(s, t).value ==>
      ByteLen(s[..Find(s, t).value]) < ByteLen(s[..j])
  {
    var k := Find(s, t).value;
    forall j: nat | j <= |s| && Occurs(t, s, j) && j != k
      ensures ByteLen(s[..k]) < ByteLen(s[..j])
    {
      ByteOffsetMonotone(s, k, j);
    }
  }

  /** The empty pattern is found at offset 0 of every string. */
  lemma FindEmpty(s: string)
    ensures Find(s, "") == Some(0)
  {
    assert Occurs("", s, 0);
  }

  /** ASCII lower-casing of one character; every other character is kept. */
  function LowerAscii(c: char): (r: char)
    ensures 'A' <= c <= 'Z' ==> r as int == c as int + 32
    ensures !('A' <= c <= 'Z') ==> r == c
  {
    if 'A' <= c <= 'Z' then (c as int + 32) as char else c
  }

  /** `str::to_lowercase` restricted to ASCII letters. */
  function ToLowerAscii(s: string): (r: string)
    ensures |r| == |s|
    ensures forall i :: 0 <= i < |s| ==> r[i] == LowerAscii(s[i])
  {
    if s == [] then [] else [LowerAscii(s[0])] + ToLowerAscii(s[1..])
  }

  predicate IsDigit(c: char)
  {
    '0' <= c <= '9'
  }

  function DigitChar(d: nat): (c: char)
    requires d < 10
    ensures IsDigit(c) && c as int - '0' as int == d
  {
    ('0' as int + d) as char
  }

  function DigitValue(c: char): nat
    requires IsDigit(c)
  {
    c as int - '0' as int
  }

  /** Decimal digits of a number, without leading zeros, as `u32::to_string`. */
  function NatToString(n: nat): (r: string)
    ensures |r| >= 1
    ensures forall i :: 0 <= i < |r| ==> IsDigit(r[i])
    ensures r[0] == '0' <==> n == 0
    ensures (n == 0) == (r == "0")
    decreases n
  {
    if n < 10 then [DigitChar(n)] else NatToString(n / 10) + [DigitChar(n % 10)]
  }

  /** The value a digit string denotes. */
  function DecimalValue(s: string): nat
    requires forall i :: 0 <= i < |s| ==> IsDigit(s[i])
  {
    if s == [] then 0 else 10 * DecimalValue(s[..|s| - 1]) + DigitValue(s[|s| - 1])
  }

  /** Reading the rendered digits back yields the number: the rendering is
      faithful and distinct identifiers render distinctly. */
  lemma {:induction false} NatToStringValue(n: nat)
    ensures DecimalValue(NatToString(n)) == n
    decreases n
  {
    var r := NatToString(n);
    if n >= 10 {
      NatToStringValue(n / 10);
      assert r[..|r| - 1] == NatToString(n / 10);
    }
  }
}
