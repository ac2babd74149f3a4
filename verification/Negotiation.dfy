/** Hysteria2 bandwidth negotiation: the `Hysteria-CC-RX` header (src/hysteria2/protocol.rs) and both ends'
    choice of congestion controller (src/hysteria2/server.rs, src/hysteria2/client.rs). */
module Negotiation {
  import opened Bytes
  import opened Text

  const AUTO: text := [97, 117, 116, 111]

  datatype CongestionReceive = Auto | Rate(bytesPerSecond: u64)

  /** `HeaderValue::to_str` accepts visible ASCII and tabs. */
  predicate VisibleAscii(s: text) {
    forall i :: 0 <= i < |s| ==> 32 <= s[i] < 127 || s[i] == 9
  }

  function ParseHeader(value: Option<text>): CongestionReceive {
    if value.None? || !VisibleAscii(value.value) then Rate(0)
    else if value.value == AUTO then Auto
    else
      var rate := ParseUnsigned(value.value, U64_MAX);
      Rate(if rate.Some? then rate.value else 0)
  }

  function FormatHeader(value: CongestionReceive): text {
    match value
    case Auto => AUTO
    case Rate(bytesPerSecond) => Decimal(bytesPerSecond)
  }

  lemma HeaderRoundTrip(value: CongestionReceive)
    ensures ParseHeader(Some(FormatHeader(value))) == value
  {
    if value.Rate? {
      var s := Decimal(value.bytesPerSecond);
      assert VisibleAscii(s) by {
        forall i | 0 <= i < |s| ensures 32 <= s[i] < 127 { assert IsDigit(s[i]); }
      }
      assert IsDigit(s[0]) && s != AUTO;
      ParseDecimal(value.bytesPerSecond, U64_MAX);
    }
  }

  /** A header that is missing, holds a byte that is not readable text, or is no number means a rate of 0; a number
      may carry a plus sign. */
  lemma OtherHeaders(value: Option<text>)
    ensures value.None? ==> ParseHeader(value) == Rate(0)
    ensures value.Some? && (exists i :: 0 <= i < |value.value| && value.value[i] >= 127) ==>
              ParseHeader(value) == Rate(0)
    ensures value.Some? && value.value != AUTO && !(exists n: u64 :: Spells(value.value, n)) ==>
              ParseHeader(value) == Rate(0)
    ensures forall n: u64 :: value.Some? && Spells(value.value, n) ==> ParseHeader(value) == Rate(n)
    ensures ParseHeader(value) == Auto <==> value == Some([97, 117, 116, 111])
  {
    if value.Some? {
      var s := value.value;
      forall n: u64 | Spells(s, n) ensures ParseHeader(value) == Rate(n) {
        SpelledIsParsed(s, n);
      }
      var rate := ParseUnsigned(s, U64_MAX);
      if rate.Some? {
        assert Spells(s, rate.value);
      }
    }
  }

  lemma SpelledIsParsed(s: text, n: u64)
    requires Spells(s, n)
    ensures ParseHeader(Some(s)) == Rate(n)
  {
    var digits := if |s| >= 2 && s[0] == PLUS then s[1..] else s;
    forall i | 0 <= i < |s| ensures 32 <= s[i] < 127 {
      if digits == s {
        assert IsDigit(digits[i]);
      } else if i > 0 {
        assert IsDigit(digits[i - 1]);
      }
    }
    assert s[0] != AUTO[0];
  }

  datatype ServerBandwidth = ServerBandwidth(sendBps: u64, receiveBps: u64, ignoreClientBandwidth: bool)
  datatype ClientBandwidth = ClientBandwidth(sendBps: u64, receiveBps: u64)

  /** `negotiated_send_rate` on the server. */
  function ServerRate(b: ServerBandwidth, client: CongestionReceive): Option<u64> {
    if b.receiveBps == 0 && b.ignoreClientBandwidth then None
    else if client.Auto? || client.bytesPerSecond == 0 then None
    else if b.sendBps > 0 && client.bytesPerSecond > b.sendBps then Some(b.sendBps)
    else Some(client.bytesPerSecond)
  }

  /** `negotiated_send_rate` on the client. */
  function ClientRate(configuredSendBps: u64, remote: CongestionReceive): Option<u64> {
    if remote.Auto? then None
    else
      var actual := if remote.bytesPerSecond == 0 || remote.bytesPerSecond > configuredSendBps
                    then configuredSendBps else remote.bytesPerSecond;
      if actual > 0 then Some(actual) else None
  }

  datatype Controller = Bbr | Brutal(bytesPerSecond: u64)

  function Select(rate: Option<u64>): Controller {
    if rate.Some? then Brutal(rate.value) else Bbr
  }

  datatype Outcome = Masqueraded | Agreed(server: Controller, client: Controller)

  /** A whole exchange after valid credentials: the client's header, the server's test and choice, the
      server's header, the client's choice. */
  function Negotiate(server: ServerBandwidth, client: ClientBandwidth): Outcome {
    var clientReceive := ParseHeader(Some(Decimal(client.receiveBps)));
    if server.receiveBps > 0 && server.ignoreClientBandwidth
       && !(clientReceive.Rate? && clientReceive.bytesPerSecond > 0) then Masqueraded
    else
      var serverRate := ServerRate(server, clientReceive);
      var advertised := if serverRate.Some? then Rate(server.receiveBps) else Auto;
      var remoteReceive := ParseHeader(Some(FormatHeader(advertised)));
      Agreed(Select(serverRate), Select(ClientRate(client.sendBps, remoteReceive)))
  }

  /** The smaller of the two, where a limit of 0 means no limit. */
  function Limited(rate: u64, limit: u64): u64 {
    if limit == 0 then rate else Min(rate, limit)
  }

  /** For all configurations, when the exchange is refused, which ends run Brutal, and at which rates. */
  lemma EndsAgree(server: ServerBandwidth, client: ClientBandwidth)
    ensures var brutal := client.receiveBps > 0 && !(server.receiveBps == 0 && server.ignoreClientBandwidth);
            Negotiate(server, client) ==
            if server.ignoreClientBandwidth && server.receiveBps > 0 && client.receiveBps == 0 then Masqueraded
            else Agreed(
              if brutal then Brutal(Limited(client.receiveBps, server.sendBps)) else Bbr,
              if brutal && client.sendBps > 0 then Brutal(Limited(client.sendBps, server.receiveBps)) else Bbr)
  {
    HeaderRoundTrip(Rate(client.receiveBps));
    HeaderRoundTrip(Rate(server.receiveBps));
    HeaderRoundTrip(Auto);
  }
}
