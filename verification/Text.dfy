/** Text as the bytes of a Rust string: UTF-8 validity, decimal numbers and single-byte searches. */
module Text {
  import opened Bytes

  type text = seq<byte>

  const COLON: byte := 58
  const OPEN: byte := 91
  const CLOSE: byte := 93
  const PERCENT: byte := 37
  const PLUS: byte := 43
  const DOT: byte := 46

  predicate IsDigit(c: byte) { 48 <= c <= 57 }

  predicate AllDigits(s: text) { forall i :: 0 <= i < |s| ==> IsDigit(s[i]) }

  predicate IsAscii(s: text) { forall i :: 0 <= i < |s| ==> s[i] < 0x80 }

  // ---- UTF-8 (section 4 of RFC 3629) ----

  predicate Continuation(c: byte) { 0x80 <= c <= 0xbf }

  /** Length of the well-formed scalar at the head of `s`, or 0. */
  function ScalarLength(s: text): (n: nat)
    ensures n <= |s| && n <= 4
  {
    if s == [] then 0
    else if s[0] < 0x80 then 1
    else if |s| >= 2 && 0xc2 <= s[0] <= 0xdf && Continuation(s[1]) then 2
    else if |s| >= 3 && 0xe0 <= s[0] <= 0xef && Continuation(s[1]) && Continuation(s[2])
      && (s[0] == 0xe0 ==> s[1] >= 0xa0) && (s[0] == 0xed ==> s[1] <= 0x9f) then 3
    else if |s| >= 4 && 0xf0 <= s[0] <= 0xf4 && Continuation(s[1]) && Continuation(s[2]) && Continuation(s[3])
      && (s[0] == 0xf0 ==> s[1] >= 0x90) && (s[0] == 0xf4 ==> s[1] <= 0x8f) then 4
    else 0
  }

  predicate Utf8(s: text)
    decreases |s|
  {
    s == [] || (ScalarLength(s) > 0 && Utf8(s[ScalarLength(s)..]))
  }

  lemma ScalarAppend(a: text, b: text)
    requires ScalarLength(a) > 0
    ensures ScalarLength(a + b) == ScalarLength(a)
  {
    assert forall i :: 0 <= i < |a| ==> (a + b)[i] == a[i];
  }

  lemma {:induction false} Utf8Append(a: text, b: text)
    requires Utf8(a) && Utf8(b)
    ensures Utf8(a + b)
    decreases |a|
  {
    if a == [] {
      assert a + b == b;
    } else {
      var n := ScalarLength(a);
      ScalarAppend(a, b);
      assert (a + b)[n..] == a[n..] + b;
      Utf8Append(a[n..], b);
    }
  }

  lemma {:induction false} AsciiIsUtf8(s: text)
    requires IsAscii(s)
    ensures Utf8(s)
    decreases |s|
  {
    if s != [] {
      AsciiIsUtf8(s[1..]);
    }
  }

  /** `String::from_utf8_lossy` puts this, U+FFFD, in place of what is not UTF-8. */
  const REPLACEMENT: text := [0xef, 0xbf, 0xbd]

  predicate SecondOk(first: byte, second: byte) {
    && Continuation(second)
    && (first == 0xe0 ==> second >= 0xa0) && (first == 0xed ==> second <= 0x9f)
    && (first == 0xf0 ==> second >= 0x90) && (first == 0xf4 ==> second <= 0x8f)
  }

  /** How much of an ill-formed start is replaced at once: as far as a scalar could still have followed. */
  function BrokenLength(s: text): (n: nat)
    requires s != []
    ensures 1 <= n <= |s| && n <= 3
  {
    if s[0] < 0xe0 || s[0] > 0xf4 || |s| < 2 || !SecondOk(s[0], s[1]) then 1
    else if s[0] < 0xf0 || |s| < 3 || !Continuation(s[2]) then 2
    else 3
  }

  function Lossy(s: text): text
    decreases |s|
  {
    if s == [] then []
    else if ScalarLength(s) > 0 then s[..ScalarLength(s)] + Lossy(s[ScalarLength(s)..])
    else REPLACEMENT + Lossy(s[BrokenLength(s)..])
  }

  lemma ScalarIsUtf8(s: text)
    requires ScalarLength(s) > 0
    ensures Utf8(s[..ScalarLength(s)])
  {
    var n := ScalarLength(s);
    assert ScalarLength(s[..n]) == n && s[..n][n..] == [];
  }

  lemma ReplacementIsUtf8()
    ensures Utf8(REPLACEMENT)
  {
    assert ScalarLength(REPLACEMENT) == 3 && REPLACEMENT[3..] == [];
  }

  /** The lossy form is always UTF-8, and UTF-8 comes through unchanged. */
  lemma {:induction false} LossyIsUtf8(s: text)
    ensures Utf8(Lossy(s))
    ensures Utf8(s) ==> Lossy(s) == s
    decreases |s|
  {
    if s != [] {
      var n := ScalarLength(s);
      var rest := if n > 0 then s[n..] else s[BrokenLength(s)..];
      LossyIsUtf8(rest);
      if n > 0 {
        assert s == s[..n] + rest;
        ScalarIsUtf8(s);
        Utf8Append(s[..n], Lossy(rest));
      } else {
        ReplacementIsUtf8();
        Utf8Append(REPLACEMENT, Lossy(rest));
      }
    }
  }

  lemma SplitAppend(a: text, n: nat, b: text)
    requires n <= |a|
    ensures (a + b)[..n] == a[..n] && (a + b)[n..] == a[n..] + b && a + b == a[..n] + (a[n..] + b)
  {
  }

  /** What follows UTF-8 is shown as if it stood alone. */
  lemma {:induction false} LossyAppend(a: text, b: text)
    requires Utf8(a)
    ensures Lossy(a + b) == a + Lossy(b)
    decreases |a|
  {
    if a == [] {
      assert a + b == b;
    } else {
      var n := ScalarLength(a);
      ScalarAppend(a, b);
      SplitAppend(a, n, b);
      LossyAppend(a[n..], b);
      SplitAppend(a, n, Lossy(b));
    }
  }

  /** Of the first n bytes of `m`, k show as they are; the rest, part of one character, as a replacement. */
  predicate ShownUpTo(m: text, n: nat, k: nat) {
    && k <= n <= |m| && n - k <= 3 && Utf8(m[..k])
    && Lossy(m[..n]) == m[..k] + (if k < n then REPLACEMENT else [])
  }

  /** A start of a character that stops before its end is replaced as one. */
  lemma PartOfScalar(m: text, n: nat)
    requires 0 < n < ScalarLength(m)
    ensures Lossy(m[..n]) == REPLACEMENT
  {
    var s := m[..n];
    assert ScalarLength(s) == 0 && BrokenLength(s) == n;
    assert s[n..] == [];
  }

  /** UTF-8 cut at any byte loses at most the character that the cut falls into, for which a replacement
      character shows. */
  lemma {:induction false} CutShows(m: text, n: nat) returns (k: nat)
    requires Utf8(m) && n <= |m|
    ensures ShownUpTo(m, n, k)
    decreases |m|
  {
    k := 0;
    if n > 0 {
      var width := ScalarLength(m);
      if n < width {
        PartOfScalar(m, n);
      } else {
        k := CutShows(m[width..], n - width);
        ScalarIsUtf8(m);
        ShowsAfter(m[..width], m[width..], n - width, k);
        assert m[..width] + m[width..] == m;
        k := width + k;
      }
    }
  }

  lemma ShowsAfter(first: text, rest: text, n: nat, k: nat)
    requires Utf8(first) && ShownUpTo(rest, n, k)
    ensures ShownUpTo(first + rest, |first| + n, |first| + k)
  {
    PrefixSplits(first, rest, n);
    PrefixSplits(first, rest, k);
    LossyAppend(first, rest[..n]);
    Utf8Append(first, rest[..k]);
    Associates(first, rest[..k], if k < n then REPLACEMENT else []);
  }

  lemma PrefixSplits(first: text, rest: text, k: nat)
    requires k <= |rest|
    ensures (first + rest)[..|first| + k] == first + rest[..k]
  {
  }

  lemma Associates(a: text, b: text, c: text)
    ensures a + (b + c) == a + b + c
  {
  }

  // ---- decimal numbers ----

  function Decimal(n: nat): (s: text)
    ensures s != [] && AllDigits(s)
  {
    if n < 10 then [48 + n] else Decimal(n / 10) + [48 + n % 10]
  }

  function DigitsValue(s: text): nat
    requires AllDigits(s)
  {
    if s == [] then 0 else DigitsValue(s[..|s| - 1]) * 10 + (s[|s| - 1] as int - 48)
  }

  lemma {:induction false} DecimalInverse(n: nat)
    ensures DigitsValue(Decimal(n)) == n
  {
    var s := Decimal(n);
    if n < 10 {
      assert s[..0] == [];
    } else {
      DecimalInverse(n / 10);
      assert s[..|s| - 1] == Decimal(n / 10);
    }
  }

  /** Digits only, with a bound: the number syntax inside socket addresses. */
  function ParseDigits(s: text, max: nat): Option<nat> {
    if s != [] && AllDigits(s) && DigitsValue(s) <= max then Some(DigitsValue(s)) else None
  }

  /** `str::parse` for an unsigned integer: a leading plus sign is also accepted. */
  function ParseUnsigned(s: text, max: nat): Option<nat> {
    if |s| >= 2 && s[0] == PLUS then ParseDigits(s[1..], max) else ParseDigits(s, max)
  }

  lemma ParseDecimal(n: nat, max: nat)
    requires n <= max
    ensures ParseDigits(Decimal(n), max) == Some(n)
    ensures ParseUnsigned(Decimal(n), max) == Some(n)
  {
    DecimalInverse(n);
    assert IsDigit(Decimal(n)[0]);
  }

  /** Digits whose value is n, after an optional plus sign. */
  predicate Spells(s: text, n: nat) {
    var digits := if |s| >= 2 && s[0] == PLUS then s[1..] else s;
    digits != [] && AllDigits(digits) && DigitsValue(digits) == n
  }

  lemma ParsesWhatSpells(s: text, max: nat, n: nat)
    ensures ParseUnsigned(s, max) == Some(n) <==> Spells(s, n) && n <= max
  {
  }

  // ---- searches ----

  /** Index of the last `c`, or -1. */
  function LastIndex(s: text, c: byte): (i: int)
    ensures -1 <= i < |s|
    ensures i >= 0 ==> s[i] == c
    ensures forall j :: i < j < |s| ==> s[j] != c
  {
    if s == [] then -1
    else if s[|s| - 1] == c then |s| - 1
    else LastIndex(s[..|s| - 1], c)
  }

  /** Index of the first `c`, or the length. */
  function FirstIndex(s: text, c: byte): (i: nat)
    ensures i <= |s|
    ensures i < |s| ==> s[i] == c
    ensures forall j :: 0 <= j < i ==> s[j] != c
  {
    if s == [] then 0 else if s[0] == c then 0 else 1 + FirstIndex(s[1..], c)
  }
}
