/** Adaptive flow-control windows (src/transport.rs). */
module Windows {
  import opened Bytes
  import Varint

  const U128_MAX: nat := 0xffff_ffff_ffff_ffff_ffff_ffff_ffff_ffff
  const HEADROOM: u64 := 2
  const INITIAL_WINDOW_PACKETS: u64 := 10
  const NANOS: nat := 1_000_000_000

  /** A `Duration` in nanoseconds: at most 2^64 - 1 seconds and 999999999 nanoseconds. */
  type Nanos = n: nat | n < 0x1_0000_0000_0000_0000 * 1_000_000_000

  function SaturatingMul(a: nat, b: nat, max: nat): nat { Min(a * b, max) }

  /** `adaptive_window`, with its two saturating 128-bit products and the final cut to 64 bits. */
  function AdaptiveWindow(bytesPerSecond: u64, rtt: Nanos, minimum: u64): u64 {
    var bdp := SaturatingMul(bytesPerSecond, rtt, U128_MAX) / NANOS;
    var target: u64 := Min(SaturatingMul(bdp, HEADROOM, U128_MAX), U64_MAX);
    Max(target, minimum)
  }

  lemma DivMonotone(a: nat, b: nat, d: nat)
    requires a <= b && d > 0
    ensures a / d <= b / d
  {
    if a / d >= b / d + 1 {
      MulMonotone(b / d + 1, a / d, d);
    }
  }

  /** Saturation never shows: the window is the exact bandwidth-delay formula over unbounded integers. */
  lemma WindowExact(bytesPerSecond: u64, rtt: Nanos, minimum: u64)
    ensures AdaptiveWindow(bytesPerSecond, rtt, minimum) ==
            Max(minimum, Min(0xffff_ffff_ffff_ffff, 2 * (bytesPerSecond * rtt / 1_000_000_000)))
  {
    var product := bytesPerSecond * rtt;
    if product > U128_MAX {
      DivMonotone(U128_MAX, product, NANOS);
      assert U128_MAX / NANOS > U64_MAX;
    }
  }

  /** The window grows with the rate, the round-trip time and the minimum. */
  lemma WindowMonotone(r: u64, r': u64, t: Nanos, t': Nanos, m: u64, m': u64)
    requires r <= r' && t <= t' && m <= m'
    ensures AdaptiveWindow(r, t, m) <= AdaptiveWindow(r', t', m')
  {
    WindowExact(r, t, m);
    WindowExact(r', t', m');
    MulMonotone(r, r', t);
    MulMonotone(t, t', r');
    assert r * t <= r' * t';
    DivMonotone(r * t, r' * t', NANOS);
  }

  /** Path measurements read by `update_connection_windows`. */
  datatype Path = Path(rtt: Nanos, currentMtu: u16, cwnd: u64)

  datatype Settings = Settings(sendRate: u64, receiveRate: u64, minimumSend: u64, minimumReceive: u64)

  function SendWindow(p: Path, s: Settings): u64 {
    Max(Max(AdaptiveWindow(s.sendRate, p.rtt, s.minimumSend), SaturatingMul(p.cwnd, HEADROOM, U64_MAX)),
        SaturatingMul(p.currentMtu, INITIAL_WINDOW_PACKETS, U64_MAX))
  }

  /** `VarInt::try_from` refuses 2^62 and above, and the largest variable integer is used instead. */
  function ReceiveWindow(p: Path, s: Settings): u64 {
    var wanted := Max(AdaptiveWindow(s.receiveRate, p.rtt, s.minimumReceive),
                      SaturatingMul(p.currentMtu, INITIAL_WINDOW_PACKETS, U64_MAX));
    if wanted <= Varint.MAX then wanted else Varint.MAX
  }

  /** The greatest of the floors of a receive window, over unbounded integers. */
  function ReceiveDemand(p: Path, s: Settings): nat {
    Max(Max(s.minimumReceive, 10 * p.currentMtu as int), Min(U64_MAX, 2 * (s.receiveRate * p.rtt / 1_000_000_000)))
  }

  /** Both windows, over unbounded integers: the send window is the greatest of its four floors, the receive window
      the greatest of its three, capped at the largest variable integer. */
  lemma WindowsExact(p: Path, s: Settings)
    ensures ReceiveWindow(p, s) == Min(0x3fff_ffff_ffff_ffff, ReceiveDemand(p, s))
    ensures SendWindow(p, s) ==
            Max(Max(s.minimumSend, 10 * p.currentMtu as int),
                Max(Min(U64_MAX, 2 * p.cwnd as int), Min(U64_MAX, 2 * (s.sendRate * p.rtt / 1_000_000_000))))
  {
    WindowExact(s.receiveRate, p.rtt, s.minimumReceive);
    WindowExact(s.sendRate, p.rtt, s.minimumSend);
  }

  /** The receive window is a valid variable integer, and lies below none of its floors unless the cap
      does; the send window lies below none of its own. */
  lemma WindowBounds(p: Path, s: Settings)
    ensures ReceiveWindow(p, s) <= Varint.MAX
    ensures ReceiveWindow(p, s) >= Min(Varint.MAX, Max(s.minimumReceive, 10 * p.currentMtu as int))
    ensures ReceiveWindow(p, s) >= Min(Varint.MAX, 2 * (s.receiveRate * p.rtt / 1_000_000_000))
    ensures SendWindow(p, s) >= s.minimumSend && SendWindow(p, s) >= 10 * p.currentMtu as int
    ensures SendWindow(p, s) >= Min(U64_MAX, 2 * p.cwnd as int)
    ensures SendWindow(p, s) >= Min(U64_MAX, 2 * (s.sendRate * p.rtt / 1_000_000_000))
  {
    WindowsExact(p, s);
  }

  /** The two windows a connection carries; the periodic task sets them anew from fresh measurements. */
  class ConnectionWindows {
    var sendWindow: u64
    var receiveWindow: u64

    method Update(p: Path, s: Settings)
      modifies this
      ensures sendWindow == SendWindow(p, s) && receiveWindow == ReceiveWindow(p, s)
      ensures receiveWindow <= Varint.MAX
    {
      var mtuWindow: u64 := SaturatingMul(p.currentMtu, INITIAL_WINDOW_PACKETS, U64_MAX);
      var send := AdaptiveWindow(s.sendRate, p.rtt, s.minimumSend);
      send := Max(send, SaturatingMul(p.cwnd, HEADROOM, U64_MAX));
      sendWindow := Max(send, mtuWindow);
      var receive := Max(AdaptiveWindow(s.receiveRate, p.rtt, s.minimumReceive), mtuWindow);
      receiveWindow := if receive <= Varint.MAX then receive else Varint.MAX;
    }
  }
}
