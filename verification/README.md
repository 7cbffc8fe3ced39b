# Poll/acknowledge protocol of the rpl-udp root and leaf, in Dafny

This project models the application protocol of two Contiki processes in
`rpl-udp/`.

- **The root** (`udp-server.c`) tracks one leaf address (the all-zero address
  means "none") and a one-byte acknowledgement flag `rec_data`. Its receive
  callback treats a `"SYN"` datagram as a registration, which replaces the
  leaf. It treats any other datagram as an acknowledgement, which sets the
  flag. Each round polls a known leaf with `"REQ"` at most `ATTEMPTS` = 5
  times and stops at the first acknowledgement. A leaf that never answers is
  forgotten. The flag is cleared at the end of the round.
- **The leaf** (`udp-client.c`) runs a one-flag registration machine
  (`has_connected`) on every timer tick. It answers every datagram it
  receives, sending to the datagram's sender the `%u` text of
  `get_temperature()`. That reading is an integer affine transform of the raw
  SHT11 sample, using C's truncating division.

Both processes are sequential state machines driven by explicit inputs.

- A timer wait becomes a `Root.Wait`. It carries the `random_rand()` value
  drawn for the delay and the datagrams whose receive callbacks ran during
  the wait.
- Reachability, the root address, `random_rand()` and the raw sensor sample
  are inputs.
- `simple_udp_sendto` appends `(destination, payload)` to an `outbox`
  sequence.
- `etimer_set` appends its delay in ticks to a `timers` sequence.

Modules:

- `Net` (net.dfy): addresses, datagrams, sends, the `"SYN"`/`"REQ"`
  payloads, and `CLOCK_SECOND` = 128 of the MSP430 Tmote Sky target.
- `CLib` (clib.dfy): C truncating division, `%u` of a 16-bit `int`, decimal
  text and its parser, `snprintf` into a buffer (an `array<char>`), and
  `strlen`.
- `Root` (root.dfy): specification functions for the callback and the round.
  Also the class `RootNode`, whose fields are the source's globals; its
  methods are proved against those functions.
- `Leaf` (leaf.dfy): the reading, the reply, the tick machine, and the class
  `LeafNode`. Its fields are the static flag and the two static 32-byte
  buffers.
- `System` (system.dfy): a root round run against the leaf's replies.

## Model

| member | source | states |
|---|---|---|
| Root.InitialDelay | rpl-udp/udp-server.c:108 | the first timer delay is in `[0, SEND_INTERVAL)` |
| Root.RetryDelay | rpl-udp/udp-server.c:121 | each retry wait is in `[SEND_INTERVAL, SEND_INTERVAL + 5*CLOCK_SECOND)` |
| Root.RoundDelay | rpl-udp/udp-server.c:132 | the inter-round wait is in `[20*CLOCK_SECOND, 21*CLOCK_SECOND)` |
| Root.RootNode.constructor | rpl-udp/udp-server.c:93-108 | the root starts with the zero leaf, a clear flag, no sends and one initial timer |
| Root.OnDatagram | rpl-udp/udp-server.c:74-83 | a `"SYN"` makes its sender the leaf and keeps the flag; any other payload sets the flag to 1 and keeps the leaf |
| Root.AfterWait | rpl-udp/udp-server.c:60-84 | the callbacks of one wait in arrival order: no datagram changes nothing, the flag is never cleared, and without a `"SYN"` the leaf is kept |
| Root.RootNode.Receive | rpl-udp/udp-server.c:74-83 | a `"SYN"` sets the leaf to its sender and leaves the flag alone; any other payload, from any sender, sets the flag to 1 and leaves the leaf alone |
| Root.RootNode.Deliver | rpl-udp/udp-server.c:60-84 | the callbacks of a wait's datagrams, applied in arrival order |
| Root.AfterWaitEffect | rpl-udp/udp-server.c:74-83 | after a wait, the flag is 1 exactly when some non-`"SYN"` datagram arrived (otherwise it is unchanged); the leaf is the sender of the last `"SYN"`, or unchanged |
| Root.FirstAckWait | rpl-udp/udp-server.c:116 | the first wait during which an acknowledgement arrives: every earlier wait has none |
| Root.Poll | rpl-udp/udp-server.c:115-123 | the loop sends at most `ATTEMPTS - i` requests, each `"REQ"`, and sets one in-range retry delay per request |
| Root.RoundSpec | rpl-udp/udp-server.c:114-132 | a round sends at most 5 `"REQ"` requests with in-range delays; with the zero leaf it sends nothing and leaves the flag as it was; otherwise it ends with the flag at 0 |
| Root.PollEffect | rpl-udp/udp-server.c:115-123 | from iteration `i`, the loop sends up to and including the request answered first, or all remaining; it gives the final flag, the destination of each request (the leaf at that moment) and the final leaf |
| Root.RoundSendCount | rpl-udp/udp-server.c:114-123 | a round sends 0 requests if the leaf is zero or the flag is already 1; otherwise it sends `min(j + 1, 5)`, where `j` is the first wait with an acknowledgement |
| Root.RoundRequests | rpl-udp/udp-server.c:116-122 | request `k` is `"REQ"` to the leaf left by the registrations of the first `k` waits, so a `"SYN"` during a wait redirects later requests |
| Root.RoundOutcome | rpl-udp/udp-server.c:124-130 | the flag ends at 0; with no acknowledgement, exactly 5 requests were sent and the leaf is reset to zero; otherwise the leaf is kept |
| Root.SilentLeafIsForgotten | rpl-udp/udp-server.c:115-130 | a leaf that never answers gets exactly five requests, then the root holds the zero leaf and a clear flag |
| Root.RegisteredLeafIsPolled | rpl-udp/udp-server.c:110-120 | a leaf registered during the wait before a round (with no stray acknowledgement) receives that round's first request |
| Root.AsWrittenLosesRegistration | rpl-udp/udp-server.c:89-114 | with the prologue re-run on each resumption, a round after a registration sends nothing and holds no leaf, although the intended loop polls that leaf |
| Root.IterationSpec | rpl-udp/udp-server.c:109-133 | one pass of `while(1)`: at most 5 requests and one delay more than requests; with no leaf after the wait (none held and no `"SYN"` received) nothing is sent and the leaf stays zero; otherwise the pass ends with the flag at 0 |
| Root.AsWrittenIteration | rpl-udp/udp-server.c:89-133 | one pass as written, with the prologue re-run on resumption: never a request, the zero leaf afterwards, the single inter-round delay, and a flag set during the wait is never cleared |
| Root.RootNode.SendAndWait | rpl-udp/udp-server.c:117-122 | one `"REQ"` to the current leaf, one retry timer, then the callbacks of that wait |
| Root.RootNode.PollLoop | rpl-udp/udp-server.c:115-123 | the `for` loop with its early `break`, whose state, sends and delays are those of `Poll` |
| Root.RootNode.PollRound | rpl-udp/udp-server.c:114-132 | the round, whose state, sends and delays are those of `RoundSpec`; keeps `rec_data <= 1` |
| Root.RootNode.Iteration | rpl-udp/udp-server.c:109-133 | one pass of `while(1)`: the wait, then the round |
| CLib.TruncDiv | rpl-udp/udp-client.c:24 | C division: the remainder lies in `[0, b)` for a non-negative dividend and in `(-b, 0]` for a negative one |
| CLib.TruncDivMonotone | rpl-udp/udp-client.c:24 | truncating division by a positive divisor preserves `<=` |
| CLib.AsUnsigned | rpl-udp/udp-client.c:50 | `%u` of an `int` on the 16-bit target: below 65536, the value itself when non-negative, the value plus 65536 when negative |
| CLib.DecimalText | rpl-udp/udp-client.c:50 | the `%u` text is a non-empty string of digits with no leading zero |
| CLib.DecimalRoundTrip | rpl-udp/udp-client.c:50 | parsing the decimal text gives back the number |
| CLib.DecimalLength | rpl-udp/udp-client.c:50 | a number below `10^k` has at most `k` digits |
| CLib.Snprintf | rpl-udp/udp-client.c:50 | `snprintf` keeps the whole text when it is shorter than `size`, and otherwise exactly its first `size - 1` characters |
| CLib.FormatInto | rpl-udp/udp-client.c:50 | the buffer holds the bounded text followed by a NUL; later bytes are untouched |
| CLib.StrLen | rpl-udp/udp-client.c:51 | `strlen` returns the index of the first NUL |
| Leaf.FirstTickDelay | rpl-udp/udp-client.c:79 | the first tick delay is in `[0, SEND_INTERVAL)` |
| Leaf.TickDelay | rpl-udp/udp-client.c:103-104 | every later tick delay is in `[SEND_INTERVAL - CLOCK_SECOND, SEND_INTERVAL + CLOCK_SECOND)` |
| Leaf.Temperature | rpl-udp/udp-client.c:24 | from raw 3960 up the reading is `(raw - 3960) / 100`; truncation toward zero makes raw 3870 to 3959 read 0; below 3870 the reading is negative |
| Leaf.TemperatureSamples | rpl-udp/udp-client.c:24 | raw 4560 reads 6; 3950 reads 0 and 3859 reads -1 under truncation |
| Leaf.TemperatureMonotone | rpl-udp/udp-client.c:24 | the reading never decreases as the raw sample grows |
| Leaf.TemperatureRange | rpl-udp/udp-client.c:24 | a 16-bit raw sample gives a reading in `[-367, 288]` |
| Leaf.ReplyText | rpl-udp/udp-client.c:49-51 | the reply payload is 1 to 31 decimal digits |
| Leaf.ReplyDecodes | rpl-udp/udp-client.c:50 | the 32-byte buffer never truncates the reply (it is the whole `%u` text), which parses back to the `%u` value of the reading (the reading itself when non-negative) |
| Leaf.ReplyIsNotSyn | rpl-udp/udp-client.c:50-51 | a reply never equals `"SYN"`, so the root takes it as an acknowledgement |
| Leaf.TickStep | rpl-udp/udp-client.c:85-100 | one tick sends `"SYN"` only when reachable and only to this tick's root address; an eligible tick with the flag at 0 sends it; a tick with the flag set never does; the new flag is 1 exactly when `"SYN"` was sent |
| Leaf.RunTicks | rpl-udp/udp-client.c:82-104 | one outcome per tick; each tick is a `TickStep` from the flag the previous tick left |
| Leaf.RunTicksEffect | rpl-udp/udp-client.c:85-100 | a tick sends `"SYN"` only when reachable, and only to the root address obtained on that tick; the flag is 1 exactly after a `"SYN"` tick and 0 after every other tick; no two consecutive ticks send `"SYN"`; an eligible tick after a non-`"SYN"` tick sends it |
| Leaf.AlternatingSyn | rpl-udp/udp-client.c:85-100 | under continuous reachability with a known root, `"SYN"` goes out on every other tick |
| Leaf.LeafNode.constructor | rpl-udp/udp-client.c:68-79 | the leaf starts unconnected, with both 32-byte buffers all NUL, no sends and one first-tick timer |
| Leaf.LeafNode.SendText | rpl-udp/udp-client.c:50-51 | `snprintf` then `strlen` then send: exactly one datagram, carrying the bounded text, goes to the destination; the buffer then holds that text and a NUL, and its later bytes are untouched |
| Leaf.LeafNode.Receive | rpl-udp/udp-client.c:42-51 | every received datagram, whatever its payload, produces exactly one reply to its sender, carrying `ReplyText` of the sample, which the receive buffer then holds before a NUL; the tick buffer is untouched |
| Leaf.LeafNode.Tick | rpl-udp/udp-client.c:82-104 | `"SYN"` goes to the root exactly when the node is reachable, a root address was obtained and `has_connected == 0`, which sets the flag to 1; otherwise the flag becomes 0; then a jittered timer is set. The tick buffer holds `"SYN"` and a NUL after a registration and is untouched otherwise |
| System.LeafAnswersRequest | rpl-udp/udp-server.c:115-130 | when the leaf's reply to request `k` arrives in the wait after it, the round sends exactly `k + 1` requests to that leaf, keeps it and clears the flag |

## Left out

- Contiki's process and protothread machinery (`PROCESS_*`, `AUTOSTART_PROCESSES`, `etimer_*`). Each wait is a `Root.Wait` or one `LeafNode.Tick`. Callbacks run only during waits, in the order given.
- The infinite outer loops are modelled one pass at a time (`RootNode.Iteration`, `LeafNode.Tick`). `Leaf.RunTicks` composes ticks as values; there is no method that runs many passes.
- `Root.RoundSpec`, `Root.RootNode.PollRound` and `Root.RootNode.Iteration` take exactly `ATTEMPTS` waits. Waits after an early `break` are unused.
- `random_rand()` is any natural number; its 16-bit range is not modelled.
- `clock_time_t` width is not modelled. Every delay here is below 2688 ticks.
- `NETSTACK_ROUTING.root_start`, `node_is_reachable` and `get_root_ipaddr` become inputs. `simple_udp_register` and the UDP ports (5700, 8800) are not modelled, so every datagram is assumed to reach the callback.
- The `strcmp` at udp-server.c:76 is modelled as whole-payload equality with `"SYN"`. Its over-read of a payload that is not NUL-terminated is not modelled.
- Payloads are character strings, not byte arrays.
- The `malloc` of `leaf_address` is a plain field. A failed allocation is not modelled.
- The sensor driver: the raw sample is an unbounded `int` input. The log line at udp-client.c:49 takes its own reading; that reading is not modelled.
- Logging, the LLSEC attribute print, `lpm_on`, `LPM_SLEEP`, the `P5DIR`/`P5OUT` LED bits and `msp430.h` have no protocol meaning.
- The reset of `i` on resumption (udp-server.c:90) is not modelled. As written, the round loop is never entered (see Findings), so the reset cannot be observed. It also means that moving only the `malloc` and the zeroing after `PROCESS_BEGIN` would not be enough. Each wait at line 122 would then reset `i` to 0 before line 115 increments it, so the loop would never reach `ATTEMPTS`. It would keep sending `"REQ"` until an acknowledgement arrives, and a silent leaf would never be forgotten. The corrected model runs the whole prologue once.

## Findings

| source | as written | input that shows it | evidently intended | confidence | as-written member | corrected member |
|---|---|---|---|---|---|---|
| rpl-udp/udp-server.c:89-98 | The prologue stands before `PROCESS_BEGIN`: `int i = 0`, the `malloc` of `leaf_address` and its zeroing. A Contiki protothread runs that part again every time the process is resumed, so `leaf_address` is a fresh zero address at line 114 on every pass and no `"REQ"` is ever sent | a `"SYN"` from a non-zero leaf received during the wait before a round, with no other datagram | the leaf address is set up once and the registered leaf is polled | not executed; high, given Contiki's documented protothread semantics (the Contiki headers are not part of this model) | Root.AsWrittenLosesRegistration | Root.RegisteredLeafIsPolled |
