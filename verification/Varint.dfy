/** QUIC variable-length integers (src/varint.rs and the slice decoder of src/hysteria2/packet.rs),
    section 16 of RFC 9000. */
module Varint {
  import opened Bytes

  const MAX: u64 := 0x3fff_ffff_ffff_ffff

  function LengthOf(value: u64): (length: nat)
    requires value <= MAX
    ensures length == 1 || length == 2 || length == 4 || length == 8
  {
    if value <= 63 then 1
    else if value <= 16_383 then 2
    else if value <= 1_073_741_823 then 4
    else 8
  }

  /** The two-bit length prefix, in place in the first byte. */
  function Tag(length: nat): (tag: byte) {
    if length == 1 then 0x00 else if length == 2 then 0x40 else if length == 4 then 0x80 else 0xc0
  }

  lemma LengthFits(value: u64)
    requires value <= MAX
    ensures value < 64 * Pow256(LengthOf(value) - 1)
    ensures value < Pow256(LengthOf(value))
    ensures Be(value, LengthOf(value))[0] < 64
  {
    var n := LengthOf(value);
    PowerTable();
    assert Pow256(n) == 256 * Pow256(n - 1);
    var s := Be(value, n);
    if s[0] >= 64 {
      ShiftBe(0, value, n);
      ShiftSplit(s);
      ShiftLower(s[0], s[1..]);
      MulMonotone(64, s[0], Pow256(n - 1));
    }
  }

  lemma PowerTable()
    ensures Pow256(0) == 1 && Pow256(1) == 0x100 && Pow256(3) == 0x100_0000
    ensures Pow256(7) == 0x100_0000_0000_0000
  {
    assert Pow256(2) == 0x1_0000;
    assert Pow256(4) == 0x1_0000_0000;
    assert Pow256(6) == 0x1_0000_0000_0000;
  }

  lemma ShiftSplit(s: seq<byte>)
    requires s != []
    ensures Shift(0, s) == Shift(s[0], s[1..])
  {
  }

  lemma {:induction false} ShiftLower(acc: nat, s: seq<byte>)
    ensures Shift(acc, s) >= acc * Pow256(|s|)
    decreases |s|
  {
    if s != [] {
      var p, next := Pow256(|s| - 1), acc * 256 + s[0];
      ShiftLower(next, s[1..]);
      MulMonotone(acc * 256, next, p);
      assert acc * 256 * p == acc * (256 * p);
    }
  }

  /** What `encode` returns. */
  function Encode(value: u64): (r: Result<seq<byte>>)
    ensures r.Ok? <==> value <= MAX
    ensures r.Ok? ==> |r.value| == LengthOf(value)
  {
    if value > MAX then Err(InvalidVarInt)
    else
      var s := Be(value, LengthOf(value));
      assert s[0] < 64 by { LengthFits(value); }
      Ok([s[0] as int + Tag(LengthOf(value)) as int] + s[1..])
  }

  /** `encode` as written: the or with the tag is an addition, because byte 0 is below 64 there. */
  method EncodeInto(value: u64) returns (r: Result<seq<byte>>)
    ensures r == Encode(value)
  {
    if value > MAX {
      return Err(InvalidVarInt);
    }
    var length := LengthOf(value);
    var output := FillFromEnd(value, length);
    assert output[0] < 64 by { LengthFits(value); }
    return Ok([output[0] as int + Tag(length) as int] + output[1..]);
  }

  /** Fill a zeroed buffer from its last byte while shifting the value down. */
  method FillFromEnd(value: nat, length: nat) returns (bytes: seq<byte>)
    ensures bytes == Be(value, length)
  {
    var output := new byte[length](_ => 0);
    var remaining := value;
    var i := length;
    while i > 0
      invariant 0 <= i <= length
      invariant Be(value, length) == Be(remaining, i) + output[i..]
    {
      i := i - 1;
      output[i] := remaining % 256;
      LastByteMoves(remaining, i, output[i + 1..]);
      assert output[i..] == [output[i]] + output[i + 1..];
      remaining := remaining / 256;
    }
    bytes := output[..];
  }

  lemma LastByteMoves(n: nat, i: nat, tail: seq<byte>)
    ensures Be(n, i + 1) + tail == Be(n / 256, i) + ([n % 256] + tail)
  {
  }

  /** The slice decoder: value and the number of bytes it took. */
  function DecodeSlice(data: seq<byte>): (r: Result<(u64, nat)>)
    ensures r.Ok? ==> 1 <= r.value.1 <= |data| && r.value.1 <= 8 && r.value.0 <= MAX
  {
    if data == [] then Err(Protocol("missing Hysteria2 UDP address length"))
    else
      var length := WireLength(data[0]);
      if |data| < length then Err(Protocol("truncated Hysteria2 UDP address length"))
      else
        var value := Shift(data[0] % 64, data[1..length]);
        assert value <= MAX by { ValueBound(data[0], data[1..length]); }
        Ok((value, length))
  }

  function WireLength(first: byte): (length: nat)
    ensures length == 1 || length == 2 || length == 4 || length == 8
    ensures Tag(length) == first / 64 * 64
  {
    if first / 64 == 0 then 1 else if first / 64 == 1 then 2 else if first / 64 == 2 then 4 else 8
  }

  lemma ValueBound(first: byte, tail: seq<byte>)
    requires |tail| + 1 == WireLength(first)
    ensures Shift(first % 64, tail) < 64 * Pow256(|tail|) <= MAX + 1
  {
    ShiftBound(first % 64, tail);
    MulMonotone(first % 64 + 1, 64, Pow256(|tail|));
    PowerTable();
  }

  method DecodeSliceLoop(data: seq<byte>) returns (r: Result<(u64, nat)>)
    ensures r == DecodeSlice(data)
  {
    if |data| == 0 {
      return Err(Protocol("missing Hysteria2 UDP address length"));
    }
    var length := WireLength(data[0]);
    if |data| < length {
      return Err(Protocol("truncated Hysteria2 UDP address length"));
    }
    var value: nat := data[0] % 64;
    for i := 1 to length
      invariant Shift(value, data[i..length]) == Shift(data[0] % 64, data[1..length])
    {
      assert data[i..length][1..] == data[i + 1..length];
      value := value * 256 + data[i];
    }
    ValueBound(data[0], data[1..length]);
    return Ok((value, length));
  }

  /** The stream reader takes one byte at a time and stops with an I/O error when they run out. */
  function Read(data: seq<byte>): (r: Result<(u64, seq<byte>)>)
    ensures r.Ok? ==> |r.value.1| < |data|
  {
    if data == [] then Err(UnexpectedEof)
    else
      var tail := WireLength(data[0]) - 1;
      if ReadTail(data[0] % 64, tail, data[1..]).Err? then Err(UnexpectedEof)
      else
        ReadTailIsShift(data[0] % 64, tail, data[1..]);
        ValueBound(data[0], data[1..][..tail]);
        var t := ReadTail(data[0] % 64, tail, data[1..]).value;
        Ok((t.0, t.1))
  }

  function ReadTail(value: nat, count: nat, data: seq<byte>): (r: Result<(nat, seq<byte>)>)
    decreases count
  {
    if count == 0 then Ok((value, data))
    else if data == [] then Err(UnexpectedEof)
    else ReadTail(value * 256 + data[0], count - 1, data[1..])
  }

  lemma {:induction false} ReadTailIsShift(value: nat, count: nat, data: seq<byte>)
    ensures ReadTail(value, count, data).Ok? <==> |data| >= count
    ensures |data| >= count ==> ReadTail(value, count, data).value == (Shift(value, data[..count]), data[count..])
    decreases count
  {
    if count > 0 && data != [] {
      ReadTailIsShift(value * 256 + data[0], count - 1, data[1..]);
      if |data| >= count {
        assert data[..count][1..] == data[1..][..count - 1];
        assert data[1..][count - 1..] == data[count..];
      }
    }
  }

  /** Both decoders accept the same inputs and agree on the value and on what is left. */
  lemma DecodersAgree(data: seq<byte>)
    ensures Read(data).Ok? <==> DecodeSlice(data).Ok?
    ensures Read(data).Ok? ==>
              Read(data).value == (DecodeSlice(data).value.0, data[DecodeSlice(data).value.1..])
  {
    if data != [] {
      var length := WireLength(data[0]);
      ReadTailIsShift(data[0] % 64, length - 1, data[1..]);
      if |data| >= length {
        assert data[1..][..length - 1] == data[1..length];
        assert data[1..][length - 1..] == data[length..];
      }
    }
  }

  /** Decoding an encoding returns the value and the exact length, whatever follows. */
  lemma RoundTrip(value: u64, rest: seq<byte>)
    requires value <= MAX
    ensures DecodeSlice(Encode(value).value + rest) == Ok((value, |Encode(value).value|))
    ensures Read(Encode(value).value + rest) == Ok((value, rest))
  {
    var n := LengthOf(value);
    var s := Be(value, n);
    LengthFits(value);
    var wire := Encode(value).value + rest;
    assert wire[0] == s[0] as int + Tag(n) as int;
    assert WireLength(wire[0]) == n && wire[0] % 64 == s[0];
    assert wire[1..n] == s[1..];
    ShiftBe(0, value, n);
    ShiftSplit(s);
    DecodersAgree(wire);
    assert wire[n..] == rest;
  }

  /** No byte string that decodes to a value is shorter than its encoding. */
  lemma EncodingIsShortest(data: seq<byte>)
    requires DecodeSlice(data).Ok?
    ensures |Encode(DecodeSlice(data).value.0).value| <= DecodeSlice(data).value.1
  {
    var length := WireLength(data[0]);
    ValueBound(data[0], data[1..length]);
    PowerTable();
  }

  /** The bytes of n in one, two, four or eight places, with the length in the top two bits of the first (section 16
      of RFC 9000); n need not be in its shortest form. */
  predicate IsVarint(w: seq<byte>, n: nat) {
    && (|w| == 1 || |w| == 2 || |w| == 4 || |w| == 8) && n < 64 * Pow256(|w| - 1)
    && var s := Be(n, |w|);
    s[0] < 64 && w[0] as int == s[0] as int + Tag(|w|) as int && w[1..] == s[1..]
  }

  lemma TagTable(first: byte)
    ensures first < 0x40 ==> WireLength(first) == 1
    ensures 0x40 <= first < 0x80 ==> WireLength(first) == 2
    ensures 0x80 <= first < 0xc0 ==> WireLength(first) == 4
    ensures 0xc0 <= first ==> WireLength(first) == 8
  {
  }

  lemma DecodedIsVarint(data: seq<byte>)
    requires DecodeSlice(data).Ok?
    ensures IsVarint(data[..DecodeSlice(data).value.1], DecodeSlice(data).value.0)
  {
    var k := WireLength(data[0]);
    var tail := data[1..k];
    var s: seq<byte> := [data[0] % 64] + tail;
    ValueBound(data[0], tail);
    assert s[1..] == tail;
    ShiftSplit(s);
    BeShift(s);
    assert data[..k][1..] == tail;
  }

  lemma VarintDecodes(data: seq<byte>, k: nat, n: nat)
    requires k <= |data| && IsVarint(data[..k], n)
    ensures DecodeSlice(data) == Ok((n, k))
  {
    var w, s := data[..k], Be(n, k);
    TagTable(data[0]);
    assert WireLength(data[0]) == k && data[0] % 64 == s[0];
    assert data[1..k] == w[1..];
    assert Pow256(k) == 256 * Pow256(k - 1);
    ShiftBe(0, n, k);
    ShiftSplit(s);
  }

  /** The decoder takes exactly the variable integers at the head of its input, in shortest form or not. */
  lemma DecodesExactly(data: seq<byte>, n: nat, k: nat)
    ensures DecodeSlice(data) == Ok((n, k)) <==> k <= |data| && IsVarint(data[..k], n)
  {
    if DecodeSlice(data) == Ok((n, k)) {
      DecodedIsVarint(data);
    } else if k <= |data| && IsVarint(data[..k], n) {
      VarintDecodes(data, k, n);
    }
  }

  /** So does the stream reader, and it leaves what follows. */
  lemma ReadsExactly(data: seq<byte>, n: nat, rest: seq<byte>)
    ensures Read(data) == Ok((n, rest)) <==> exists w :: data == w + rest && IsVarint(w, n)
  {
    DecodersAgree(data);
    if Read(data) == Ok((n, rest)) {
      var k := DecodeSlice(data).value.1;
      DecodesExactly(data, n, k);
      assert data == data[..k] + rest && IsVarint(data[..k], n);
    }
    if w :| data == w + rest && IsVarint(w, n) {
      assert data[..|w|] == w && data[|w|..] == rest;
      DecodesExactly(data, n, |w|);
    }
  }
}
