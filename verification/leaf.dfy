/**
 * The leaf (rpl-udp/udp-client.c). On every timer tick it registers with the
 * root by sending "SYN" when the network is reachable, the root address is
 * known and it did not register on the previous tick; the static flag
 * `has_connected` alternates accordingly. Every datagram it receives is
 * answered, to its sender, with the decimal text of a temperature reading.
 *
 * Reachability, the root address, `random_rand()` and the raw SHT11 sample
 * are inputs; `simple_udp_sendto` appends to an outbox and `etimer_set`
 * to a list of delays.
 */
module Leaf {
  import opened Net
  import opened CLib

  /** `SEND_INTERVAL` of the leaf: five seconds. */
  const SendInterval: nat := 5 * ClockSecond

  /** The calibration offset subtracted in `get_temperature`. */
  const Calibration: int := 396

  /** `sizeof(str)` for both static text buffers. */
  const BufferSize: nat := 32

  // ---------------------------------------------------------------------------
  // Timer delays (ticks), from a `random_rand()` value.

  /** The first tick (line 79). */
  function FirstTickDelay(rand: nat): (d: nat)
    ensures d < SendInterval
  {
    rand % SendInterval
  }

  /** Every later tick, with jitter of one second either way (lines 103-104). */
  function TickDelay(rand: nat): (d: nat)
    ensures SendInterval - ClockSecond <= d < SendInterval + ClockSecond
  {
    SendInterval - ClockSecond + rand % (2 * ClockSecond)
  }

  // ---------------------------------------------------------------------------
  // The reading and the reply.

  /** `get_temperature` (line 24) applied to the raw sample, with C's
      truncating division: from 3960 up the reading is whole hundreds of raw
      units above 3960; truncation toward zero widens the band that reads 0
      down to 3870; everything below reads negative. */
  function Temperature(raw: int): (t: int)
    ensures 3960 <= raw ==> t == (raw - 3960) / 100
    ensures 3870 <= raw < 3960 ==> t == 0
    ensures raw < 3870 ==> t < 0
  {
    TruncDiv(TruncDiv(raw, 10) - Calibration, 10)
  }

  /** Worked values: 4560 reads 6; near the calibration point the
      truncation toward zero shows (3950 reads 0 and 3859 reads -1, where
      floor division would give -1 and -2). */
  lemma TemperatureSamples()
    ensures Temperature(4560) == 6
    ensures Temperature(3950) == 0
    ensures Temperature(3859) == -1
  {
  }

  /** A larger raw sample never gives a smaller reading. */
  lemma TemperatureMonotone(a: int, b: int)
    requires a <= b
    ensures Temperature(a) <= Temperature(b)
  {
    TruncDivMonotone(a, b, 10);
    TruncDivMonotone(TruncDiv(a, 10) - Calibration, TruncDiv(b, 10) - Calibration, 10);
  }

  /** For any 16-bit raw sample the reading lies in [-367, 288]; in
      particular it fits an `int` of the target. */
  lemma TemperatureRange(raw: int)
    requires -0x8000 <= raw < 0x8000
    ensures -367 <= Temperature(raw) <= 288
  {
    TemperatureMonotone(-0x8000, raw);
    TemperatureMonotone(raw, 0x7FFF);
    assert Temperature(-0x8000) == -367;
    assert Temperature(0x7FFF) == 288;
  }

  /** The payload of the reply (lines 50-51): `snprintf(str, 32, "%u", ...)`
      of the reading, as far as `strlen` reaches. */
  function ReplyText(raw: int): (s: string)
    ensures 1 <= |s| < BufferSize && AllDigits(s)
  {
    var text := DecimalText(AsUnsigned(Temperature(raw)));
    var out := Snprintf(text, BufferSize);
    assert out == text[..|out|];
    out
  }

  /** The reply is never cut short by the 32-byte buffer: read back as a
      decimal number it is the `%u` value of the reading, and the reading
      itself whenever that is not negative. */
  lemma ReplyDecodes(raw: int)
    ensures ReplyText(raw) == DecimalText(AsUnsigned(Temperature(raw)))
    ensures ParseDecimal(ReplyText(raw)) == AsUnsigned(Temperature(raw))
    ensures 0 <= Temperature(raw) < UintModulus ==> ParseDecimal(ReplyText(raw)) == Temperature(raw)
  {
    var u := AsUnsigned(Temperature(raw));
    assert Pow10(5) == 100000;
    DecimalLength(u, 5);
    DecimalRoundTrip(u);
  }

  /** A reply is never taken for a registration by the root. */
  lemma ReplyIsNotSyn(raw: int)
    ensures ReplyText(raw) != Syn
  {
    var s := ReplyText(raw);
    assert IsDigit(s[0]) && !IsDigit(Syn[0]);
  }

  // ---------------------------------------------------------------------------
  // The registration machine of the tick body (lines 85-100).

  /** What one tick sees: reachability, the root address if one was
      obtained, and the random value for the next timer. */
  datatype TickInput = TickInput(reachable: bool, root: Option<Address>, rand: nat)

  /** What one tick does: the new `has_connected` and the address "SYN" was
      sent to, if it was sent. */
  datatype TickOutcome = TickOutcome(connected: uint8, syn: Option<Address>)

  /** One tick: "SYN" goes only to the root address of this tick and only
      when reachable; it goes whenever the tick is eligible and the previous
      tick left the flag 0, and never right after a tick that set it; the
      new flag is 1 exactly when "SYN" went out. */
  function TickStep(connected: uint8, t: TickInput): (o: TickOutcome)
    ensures o.syn.Some? ==> t.reachable && o.syn == t.root
    ensures connected == 0 && t.reachable && t.root.Some? ==> o.syn.Some?
    ensures connected != 0 ==> o.syn.None?
    ensures o.connected == 1 <==> o.syn.Some?
    ensures o.connected <= 1
  {
    if t.reachable && t.root.Some? && connected == 0 then TickOutcome(1, Some(t.root.value))
    else TickOutcome(0, None)
  }

  /** A run of ticks from flag `connected`, one outcome per tick. */
  function RunTicks(connected: uint8, ts: seq<TickInput>): (r: seq<TickOutcome>)
    ensures |r| == |ts|
    ensures ts != [] ==> r[0] == TickStep(connected, ts[0])
    ensures forall i :: 1 <= i < |ts| ==> r[i] == TickStep(r[i - 1].connected, ts[i])
    decreases |ts|
  {
    if ts == [] then []
    else
      var o := TickStep(connected, ts[0]);
      var rest := RunTicks(o.connected, ts[1..]);
      assert forall i :: 1 <= i < |ts| ==> ([o] + rest)[i] == rest[i - 1] && ts[i] == ts[1..][i - 1];
      [o] + rest
  }

  /** In any run: "SYN" goes only to the root address obtained on that tick
      and only when the node is reachable; the flag is 1 after exactly the
      ticks that sent "SYN"; no two consecutive ticks send "SYN"; and a tick
      sends "SYN" whenever it is eligible and the previous one did not. */
  lemma {:induction false} RunTicksEffect(c: uint8, ts: seq<TickInput>)
    requires c <= 1
    ensures var r := RunTicks(c, ts);
      forall i :: 0 <= i < |ts| ==>
        && (r[i].syn.Some? ==> ts[i].reachable && ts[i].root == r[i].syn)
        && r[i].connected == (if r[i].syn.Some? then 1 else 0)
        && (i + 1 < |ts| && r[i].syn.Some? ==> r[i + 1].syn.None?)
        && ((i + 1 < |ts| && r[i].syn.None? && ts[i + 1].reachable && ts[i + 1].root.Some?)
              ==> r[i + 1].syn.Some?)
    decreases |ts|
  {
    if ts != [] {
      var o := TickStep(c, ts[0]);
      var r := RunTicks(c, ts);
      var rest := RunTicks(o.connected, ts[1..]);
      RunTicksEffect(o.connected, ts[1..]);
      assert forall i :: 1 <= i < |ts| ==> r[i] == rest[i - 1] && ts[i] == ts[1..][i - 1];
    }
  }

  /** Under continuous reachability with a known root, "SYN" is sent on every
      other tick: on the even ticks when starting unconnected, on the odd ones
      otherwise. */
  lemma {:induction false} AlternatingSyn(c: uint8, ts: seq<TickInput>)
    requires c <= 1
    requires forall i :: 0 <= i < |ts| ==> ts[i].reachable && ts[i].root.Some?
    ensures forall i :: 0 <= i < |ts| ==> (RunTicks(c, ts)[i].syn.Some? <==> (i + c as int) % 2 == 0)
    decreases |ts|
  {
    if ts != [] {
      var o := TickStep(c, ts[0]);
      var r := RunTicks(c, ts);
      var rest := RunTicks(o.connected, ts[1..]);
      AlternatingSyn(o.connected, ts[1..]);
      forall i | 1 <= i < |ts|
        ensures r[i].syn.Some? <==> (i + c as int) % 2 == 0
      {
        assert r[i] == rest[i - 1];
        assert o.connected as int == 1 - c as int;
      }
    }
  }

  // ---------------------------------------------------------------------------
  // The process itself.

  class LeafNode {
    var hasConnected: uint8
    /** The static `str` of `udp_rx_callback` (line 43). */
    const rxStr: array<char>
    /** The static `str` of the process body (line 67). */
    const tickStr: array<char>
    /** Every `simple_udp_sendto` so far, in order. */
    var outbox: seq<Send>
    /** Every `etimer_set` delay so far, in order. */
    var timers: seq<nat>

    ghost predicate Valid()
      reads this
    {
      && rxStr.Length == BufferSize && tickStr.Length == BufferSize && rxStr != tickStr
      && hasConnected <= 1
    }

    /** Lines 68-79: unconnected, zeroed buffers, first timer armed. */
    constructor (rand: nat)
      ensures Valid() && fresh(rxStr) && fresh(tickStr)
      ensures hasConnected == 0 && outbox == [] && timers == [FirstTickDelay(rand)]
      ensures rxStr[..] == seq(BufferSize, _ => Nul) && tickStr[..] == seq(BufferSize, _ => Nul)
    {
      hasConnected := 0;
      rxStr := new char[BufferSize](_ => Nul);
      tickStr := new char[BufferSize](_ => Nul);
      outbox := [];
      timers := [rand % SendInterval];
    }

    /** `snprintf` of `text` into `buf`, then `simple_udp_sendto` of the
        `strlen(buf)` bytes that it holds. */
    method SendText(buf: array<char>, text: string, dest: Address)
      requires buf.Length == BufferSize
      requires forall k :: 0 <= k < |text| ==> text[k] != Nul
      modifies this`outbox, buf
      ensures outbox == old(outbox) + [Send(dest, Snprintf(text, BufferSize))]
      ensures var out := Snprintf(text, BufferSize);
        buf[..|out|] == out && buf[|out|] == Nul && buf[|out| + 1..] == old(buf[|out| + 1..])
    {
      FormatInto(buf, text);
      ghost var out := Snprintf(text, BufferSize);
      assert buf[|out|] == Nul;
      assert forall k :: 0 <= k < |out| ==> buf[k] == out[k] == text[k];
      var n := StrLen(buf);
      assert n == |out|;
      assert buf[..n] == out;
      outbox := outbox + [Send(dest, buf[..n])];
    }

    /** `udp_rx_callback` (lines 42-51): whatever the datagram says, reply to
        its sender with the `%u` text of the reading of the sample `raw`. */
    method Receive(d: Datagram, raw: int)
      requires Valid()
      modifies this`outbox, rxStr
      ensures Valid() && outbox == old(outbox) + [Send(d.sender, ReplyText(raw))]
      ensures var out := ReplyText(raw);
        rxStr[..|out|] == out && rxStr[|out|] == Nul && rxStr[|out| + 1..] == old(rxStr[|out| + 1..])
      ensures unchanged(tickStr)
    {
      SendText(rxStr, DecimalText(AsUnsigned(Temperature(raw))), d.sender);
    }

    /** The body of the `while(1)` loop (lines 82-104). */
    method Tick(t: TickInput)
      requires Valid()
      modifies this`hasConnected, this`outbox, this`timers, tickStr
      ensures Valid()
      ensures hasConnected == TickStep(old(hasConnected), t).connected
      ensures outbox == old(outbox) + match TickStep(old(hasConnected), t).syn
        case Some(root) => [Send(root, Syn)]
        case None => []
      ensures timers == old(timers) + [TickDelay(t.rand)]
      ensures TickStep(old(hasConnected), t).syn.Some? ==>
        tickStr[..|Syn|] == Syn && tickStr[|Syn|] == Nul && tickStr[|Syn| + 1..] == old(tickStr[|Syn| + 1..])
      ensures TickStep(old(hasConnected), t).syn.None? ==> unchanged(tickStr)
      ensures unchanged(rxStr)
    {
      if t.reachable && t.root.Some? && hasConnected == 0 {
        SendText(tickStr, Syn, t.root.value);
        hasConnected := 1;
      } else {
        hasConnected := 0;
      }
      timers := timers + [SendInterval - ClockSecond + t.rand % (2 * ClockSecond)];
    }
  }
}
