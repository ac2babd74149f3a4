/** Machine integers, results, and the big-endian byte order shared by every frame. */
module Bytes {
  type byte = n: int | 0 <= n < 0x100
  type u16 = n: int | 0 <= n < 0x1_0000
  type u32 = n: int | 0 <= n < 0x1_0000_0000
  type u64 = n: int | 0 <= n < 0x1_0000_0000_0000_0000

  const U64_MAX: u64 := 0xffff_ffff_ffff_ffff

  datatype Option<+T> = None | Some(value: T)

  /** The variants of the crate's error type that the modelled code can return. */
  datatype Error =
    | UnexpectedEof
    | InvalidAddress
    | InvalidVarInt
    | Protocol(message: string)
    | Closed

  datatype Result<+T> = Ok(value: T) | Err(error: Error) {
    predicate IsFailure() { Err? }
    function PropagateFailure<U>(): Result<U>
      requires Err?
    {
      Err(error)
    }
    function Extract(): T
      requires Ok?
    {
      value
    }
  }

  function Min(a: int, b: int): int { if a < b then a else b }
  function Max(a: int, b: int): int { if a < b then b else a }

  function Pow256(w: nat): (p: nat)
    ensures p >= 1
  {
    if w == 0 then 1 else 256 * Pow256(w - 1)
  }

  /** The low `w` bytes of `n`, most significant first. */
  function Be(n: nat, w: nat): (s: seq<byte>)
    ensures |s| == w
  {
    if w == 0 then [] else Be(n / 256, w - 1) + [n % 256]
  }

  /** Shift-and-or over `s`, starting from `acc`. */
  function Shift(acc: nat, s: seq<byte>): nat
    decreases |s|
  {
    if s == [] then acc else Shift(acc * 256 + s[0], s[1..])
  }

  lemma {:induction false} ShiftAppend(acc: nat, s: seq<byte>, b: byte)
    ensures Shift(acc, s + [b]) == Shift(acc, s) * 256 + b
    decreases |s|
  {
    if s == [] {
      assert s + [b] == [b];
      assert Shift(acc, [b]) == Shift(acc * 256 + b, [b][1..]);
    } else {
      assert (s + [b])[1..] == s[1..] + [b];
      ShiftAppend(acc * 256 + s[0], s[1..], b);
    }
  }

  /** Reading back what `Be` wrote: nothing is lost below 256^w. */
  lemma {:induction false} ShiftBe(acc: nat, n: nat, w: nat)
    requires n < Pow256(w)
    ensures Shift(acc, Be(n, w)) == acc * Pow256(w) + n
  {
    if w > 0 {
      ShiftBe(acc, n / 256, w - 1);
      ShiftAppend(acc, Be(n / 256, w - 1), n % 256);
      Regroup(acc, Pow256(w - 1), n / 256);
    }
  }

  /** Every byte string is the big-endian form of its value. */
  lemma {:induction false} BeShift(s: seq<byte>)
    ensures Be(Shift(0, s), |s|) == s
    decreases |s|
  {
    if s != [] {
      var init, last := s[..|s| - 1], s[|s| - 1];
      assert s == init + [last];
      ShiftAppend(0, init, last);
      BeShift(init);
      assert Shift(0, s) / 256 == Shift(0, init) && Shift(0, s) % 256 == last;
    }
  }

  lemma Regroup(a: nat, p: nat, q: nat)
    ensures (a * p + q) * 256 == a * (256 * p) + q * 256
  {
  }

  lemma MulMonotone(a: nat, b: nat, p: nat)
    requires a <= b
    ensures a * p <= b * p
  {
    assert (b - a) * p >= 0;
  }

  lemma {:induction false} ShiftBound(acc: nat, s: seq<byte>)
    ensures Shift(acc, s) < (acc + 1) * Pow256(|s|)
    decreases |s|
  {
    if s != [] {
      var p, next := Pow256(|s| - 1), acc * 256 + s[0];
      ShiftBound(next, s[1..]);
      MulMonotone(next + 1, (acc + 1) * 256, p);
      Regroup(acc + 1, p, 0);
    }
  }

  function Be16(n: u16): (s: seq<byte>)
    ensures |s| == 2
  {
    [n / 256, n % 256]
  }

  function FromBe16(s: seq<byte>): (n: u16)
    requires |s| == 2
    ensures Be16(n) == s
  {
    s[0] as int * 256 + s[1] as int
  }

  function Be32(n: u32): (s: seq<byte>)
    ensures |s| == 4
  {
    Be16(n / 0x1_0000) + Be16(n % 0x1_0000)
  }

  function FromBe32(s: seq<byte>): (n: u32)
    requires |s| == 4
    ensures Be32(n) == s
  {
    var high, low := FromBe16(s[..2]) as int, FromBe16(s[2..]) as int;
    HalvesOf(high, low);
    assert s == s[..2] + s[2..];
    high * 0x1_0000 + low
  }

  lemma HalvesOf(high: u16, low: u16)
    ensures (high as int * 0x1_0000 + low as int) / 0x1_0000 == high as int
    ensures (high as int * 0x1_0000 + low as int) % 0x1_0000 == low as int
  {
  }

  lemma Be16Inverse(n: u16)
    ensures FromBe16(Be16(n)) == n
  {
  }

  lemma Be32Inverse(n: u32)
    ensures FromBe32(Be32(n)) == n
  {
    assert Be32(n)[..2] == Be16(n / 0x1_0000) && Be32(n)[2..] == Be16(n % 0x1_0000);
  }

  /** Concatenation of a list of byte strings, in order. */
  function Concat(parts: seq<seq<byte>>): seq<byte> {
    if parts == [] then [] else parts[0] + Concat(parts[1..])
  }

  lemma {:induction false} ConcatAppend(xs: seq<seq<byte>>, ys: seq<seq<byte>>)
    ensures Concat(xs + ys) == Concat(xs) + Concat(ys)
    decreases |xs|
  {
    if xs == [] {
      assert xs + ys == ys;
    } else {
      assert (xs + ys)[1..] == xs[1..] + ys;
      ConcatAppend(xs[1..], ys);
    }
  }

  lemma ConcatSnoc(xs: seq<seq<byte>>, y: seq<byte>)
    ensures Concat(xs + [y]) == Concat(xs) + y
  {
    ConcatAppend(xs, [y]);
    assert Concat([y]) == y + Concat([][..]);
  }

  lemma SplitAt<T>(xs: seq<T>, k: nat)
    requires k < |xs|
    ensures xs == xs[..k] + xs[k..] && xs[..k + 1] == xs[..k] + [xs[k]]
    ensures xs[k..] != [] && xs[k..][0] == xs[k] && xs[k..][1..] == xs[k + 1..]
  {
  }

  lemma ConcatHead(xs: seq<seq<byte>>, head: seq<byte>, tail: seq<seq<byte>>)
    requires xs != [] && xs[0] == head && xs[1..] == tail
    ensures Concat(xs) == head + Concat(tail)
  {
  }

  /** The k-th part stands where the first k end. */
  lemma ConcatAt(xs: seq<seq<byte>>, k: nat)
    requires k < |xs|
    ensures Concat(xs) == Concat(xs[..k]) + (xs[k] + Concat(xs[k + 1..]))
    ensures Concat(xs[..k + 1]) == Concat(xs[..k]) + xs[k]
  {
    SplitAt(xs, k);
    ConcatAppend(xs[..k], xs[k..]);
    ConcatHead(xs[k..], xs[k], xs[k + 1..]);
    ConcatSnoc(xs[..k], xs[k]);
  }
}
