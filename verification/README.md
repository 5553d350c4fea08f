# UDP sample receiver — a Dafny model

`udp_receiver.py` receives datagrams from an ESP32 sampler. Each datagram holds a
14-byte little-endian header (`"<IQH"`: sequence number, base timestamp in µs, sample
count `n`) followed by `n` signed 16-bit samples. Every sample is timestamped
`t0 + 1000·i` µs, pushed through a fixed cascade of three biquad sections
(high-pass, 50 Hz notch, low-pass), appended as a row `(ts, raw, filtered)` to a CSV
log, and appended to three plot windows of 2000 entries each. A timer calls `poll`,
which drains the non-blocking socket until it would block.

The model is functional. It has one module per piece of the program:

- `LittleEndian` (`little_endian.dfy`) — unsigned little-endian fields and the
  two's-complement `h` sample.
- `Packet` (`packet.dfy`) — decoding of one datagram, as the two `struct.unpack_from`
  calls do it, and the matching encoder.
- `Biquad` (`biquad.dfy`) — `BiquadDF2T.design` over exact reals, and
  `BiquadDF2T.process` as a step on an immutable `Stage`.
- `FilterChain` (`filter_chain.dfy`) — the `HP`, `NOTCH`, `LP` sections and
  `filt_chain`.
- `RollingBuffer` (`rolling_buffer.dfy`) — `deque(maxlen=2000)`.
- `Emission` (`emission.dfy`) — what a tick writes, stated without the loop: the
  accepted packets, their sample stream with timestamps, and the rows.
- `Receiver` (`receiver.dfy`) — `poll` as a fold over a finite queue of datagrams. It
  threads the chain state, the log and the windows.
- `Results` (`results.dfy`) — `Option` and `Result`.

The socket is modelled as a queue of byte sequences. The end of the queue stands for
`BlockingIOError`. A tick returns three things: the new state, the datagrams still
queued, and how the tick ended. There are three ways it can end:

- the queue drained;
- a datagram shorter than the header, which makes `poll` `return`;
- a payload shorter than its declared count, where `struct.error` escapes `poll`.

Only a drained tick flushes the log and updates the plot. The other two leave the
function before `f_csv.flush()` and `setData`.

Where the program's comments and its code differ, the model follows the code:

- The timestamp step is the literal `1000` µs in the loop. It is not derived from
  `FS_HZ`.
- `BiquadDF2T.process` keeps the intermediate value `v` in its registers. That is the
  direct form II, not the transposed form its name suggests. The model states what
  the code computes. It proves, as an independent reference, that from rest the
  output obeys the biquad difference equation
  `y[n] = b0 x[n] + b1 x[n-1] + b2 x[n-2] - a1 y[n-1] - a2 y[n-2]`.
- A short header and a short payload are two different outcomes. Bytes beyond
  `14 + 2n` are never read.
- The sequence number is decoded but never used.

## Model

| member | source | states |
|---|---|---|
| LittleEndian.Value | udp_receiver.py:160 | The unsigned value of an `I`, `Q` or `H` field read least significant byte first always fits the field: below `256^k` for `k` bytes. |
| LittleEndian.Int16 | udp_receiver.py:161 | The `h` value of a byte pair is negative iff the high byte has its top bit set, and read back as an unsigned 16-bit word it is `lo + 256·hi`: the two's-complement reading. |
| LittleEndian.BytesOfValue | udp_receiver.py:24-25 | A little-endian field read from `k` bytes is below `256^k`, and writing it back gives the same bytes: the header fields are injective. |
| LittleEndian.Int16Bytes | udp_receiver.py:161 | The two bytes written for a sample decode, as format `h`, to that sample. |
| LittleEndian.Int16BytesOfPair | udp_receiver.py:161 | Every byte pair is the encoding of the sample it decodes to, so `h` decoding is a bijection on pairs. |
| Packet.DecodeHeader | udp_receiver.py:158-160 | The header decodes iff the datagram has at least 14 bytes, and otherwise fails with the short-header error. For any such datagram `seq` is the little-endian value of bytes 0–3, `t0` of bytes 4–11 and the count of bytes 12–13, each within its `I`, `Q` or `H` range. |
| Packet.Decode | udp_receiver.py:158-161 | A short-header error iff fewer than 14 bytes. A short-payload error iff at least 14 bytes but fewer than `14 + 2n`. Otherwise exactly `n` samples, `seq` from bytes 0–3, `t0` from bytes 4–11, and the packet is within the wire ranges. |
| Packet.SamplesAt | udp_receiver.py:161 | Decoded sample `i` is the signed 16-bit little-endian value at bytes `14 + 2i` and `15 + 2i`. |
| Packet.EncodeSamplesAt | udp_receiver.py:161 | The encoder writes sample `i` at payload bytes `2i` and `2i + 1`. |
| Packet.RoundTrip | udp_receiver.py:160-161 | Decoding an encoded packet returns it unchanged, whatever bytes trail it. |
| Packet.EncodeOfDecode | udp_receiver.py:160-161 | Conversely, re-encoding a decoded packet gives exactly the first `14 + 2n` bytes of the datagram. |
| Packet.HeaderOfDecode | udp_receiver.py:160 | The header of a decoded packet re-encodes to the datagram's first 14 bytes. |
| Packet.EncodeSamplesOfDecoded | udp_receiver.py:161 | The samples decoded from `n` byte pairs re-encode to those `2n` bytes. |
| Biquad.Prototypes | udp_receiver.py:105-127 | Only `"lp"`, `"hp"` and `"notch"` are accepted; any other kind is the unknown-kind error. All three share the denominator `(1 + alpha, -2cw, 1 - alpha)`. |
| Biquad.Design | udp_receiver.py:99-133 | `Q == 0` fails with division by zero before the kind is examined. Otherwise an unknown kind fails, and a known kind fails with division by zero iff `1 + alpha == 0`. On success `a1 = -2cw/a0` and `a2 = (1 - alpha)/a0`. |
| Biquad.LowPassResponse | udp_receiver.py:105-133 | Low-pass: `b1 = 2 b0`, `b2 = b0`. Unity DC gain, because the numerator and denominator sums agree. Zero gain at Nyquist. |
| Biquad.HighPassResponse | udp_receiver.py:112-133 | High-pass: `b2 = b0`, `b1 = -2 b0`. Zero DC gain and unity gain at Nyquist. |
| Biquad.NotchResponse | udp_receiver.py:119-133 | Notch: `b0 = b2 = 1/a0` and `b1 = a1`, with unity DC gain. |
| Biquad.NotchRoot | udp_receiver.py:119-133 | When `cw² + sw² = 1`, the notch numerator vanishes at `e^(j·w0)`, in both its real and imaginary parts. |
| Biquad.NewStage | udp_receiver.py:92-97 | A section is created iff its design succeeds, with the designed coefficients and both registers zero. Otherwise it fails with the design's error. |
| Biquad.Process | udp_receiver.py:135-141 | One step keeps the coefficients and shifts `v1` into `v2`. The new `v1` satisfies `x = v + a1 v1 + a2 v2`, and the output is `b0 v + b1 v1 + b2 v2`. From zero registers with zero input the output is 0 and the state is unchanged. |
| Biquad.RunAppend | udp_receiver.py:135-141 | Running a section over `xs` and then `ys` is running it over `xs + ys`: the registers carry over. |
| Biquad.RunIsDirectFormI | udp_receiver.py:135-141 | From zero registers, the section's output satisfies the biquad difference equation on every sample, with zero samples before the start. |
| FilterChain.NewChain | udp_receiver.py:144-146 | The chain is built iff all three designs succeed. Otherwise the error is the first failing section's, in the order HP, NOTCH, LP, and it is always the division by zero (the three kinds are all known). The sections carry the HP, notch (Q = 20) and LP designs and start at rest. |
| FilterChain.Step | udp_receiver.py:148-152 | `filt_chain` feeds HP the input, NOTCH HP's output and LP NOTCH's output, returns LP's output, and moves each register pair one place. It never changes coefficients. At rest with zero input it outputs 0 and stays at rest. |
| FilterChain.FilterIsCascade | udp_receiver.py:148-152 | Filtering sample by sample is the whole stream through HP, then through NOTCH, then through LP, each exactly once. |
| FilterChain.FilterAppend | udp_receiver.py:163-165 | Filtering two streams one after the other is filtering their concatenation: the chain state persists across packets and ticks. |
| FilterChain.FilterFromRest | udp_receiver.py:144-152 | From rest, each section obeys its own difference equation on the stream it actually sees. |
| RollingBuffer.Empty | udp_receiver.py:22 | A new window has the given bound and no items. |
| RollingBuffer.Append | udp_receiver.py:167-169 | An append keeps the bound and leaves the newest `cap` of the old items followed by the new one. A window with room for anything ends with the new value. |
| RollingBuffer.AppendAllKeepsNewest | udp_receiver.py:167-169 | After any appends a window holds the newest `cap` of everything it has seen, in arrival order. |
| RollingBuffer.FromEmpty | udp_receiver.py:167-169 | From empty, after `k` appends a window holds the last `min(k, cap)` values, oldest first. |
| Emission.PacketStamps | udp_receiver.py:163-164 | A packet's timestamps start at `t0` and rise by exactly 1000 µs per sample. |
| Emission.Accepted | udp_receiver.py:156-161 | The accepted packets are the decodings of a prefix of the queue. If the prefix stops short, the datagram after it fails to decode. |
| Emission.RowsCons | udp_receiver.py:163-166 | The rows of a packet followed by more packets are that packet's rows, then the rest's rows from the chain state the packet leaves. |
| Receiver.Start | udp_receiver.py:15-22 | At start-up the receiver holds the given chain, nothing is logged and the windows mirror the empty log. |
| Receiver.Push | udp_receiver.py:165-169 | One sample appends exactly one row holding its timestamp, the raw sample and `filt_chain`'s output for it, and leaves earlier rows untouched. The chain advances by one `filt_chain` step. The coefficients are unchanged, and the windows keep mirroring the log. |
| Receiver.Ingest | udp_receiver.py:163-169 | A packet appends one row per sample, in order: sample `i` with `t0 + 1000 i` and the chain's `i`-th output over the packet. The chain ends where filtering the packet leaves it, and the windows keep mirroring the log. |
| Receiver.Poll | udp_receiver.py:154-171 | A tick drains the queue iff every datagram decodes. Otherwise the refused datagram is consumed and the later ones stay queued. The tick stops by `return` iff that datagram is shorter than 14 bytes, and by the raised error iff its payload is short. Windows keep mirroring the log. |
| Receiver.PollAccepts | udp_receiver.py:156-169 | A tick whose first datagram decodes is the same as ingesting that packet and then running the rest of the tick. |
| Receiver.PollWrites | udp_receiver.py:154-171 | A tick appends exactly the rows of the accepted packets, and keeps earlier rows, including those already written when a later datagram is refused. The chain ends where filtering their sample stream leaves it. |
| Receiver.WindowsInLockstep | udp_receiver.py:167-169 | The three windows always have equal length, never above 2000. |
| Receiver.Refresh | udp_receiver.py:170-174 | The plot is updated, and the log flushed, iff the tick drained the queue. The series handed over have equal length, at most 2000. |

## Left out

- Sockets: creation, binding, non-blocking mode and `recvfrom` (lines 8-13, 157). The input is a given finite queue of datagrams, and its end stands for `BlockingIOError`. A datagram longer than 8192 bytes is truncated by `recvfrom(8192)`; the model assumes datagrams arrive whole.
- Datagrams arriving while a tick runs: the queue is fixed at the start of each tick.
- CSV file I/O, the header row and `f_csv.flush()` (lines 15-17, 166, 172). The log is an append-only sequence of rows. The flush is represented only by `Refresh` returning `Some`.
- Qt, the plot widgets, `setData` and the `QTimer` (lines 3-6, 19-21, 173-180). `Refresh` returns the two series that would be handed to `setData`.
- The `Biquad` class with its ad-hoc update (lines 35-87). It is never instantiated.
- `math.cos`, `math.sin`, `math.pi` and `f0 / fs`: the design takes `cw` and `sw` as inputs (`Angle`). A zero `fs` therefore cannot be expressed.
- IEEE-754 doubles: all filter arithmetic is over exact reals. No claims about rounding, decay, attenuation in dB or stability are made.
- Receiver.Push: `ts / 1e6` is kept as an exact real in the timestamp window, without float rounding.
- Behaviour after `struct.error` escapes `poll`: the model reports `Raised` and hands back the state as it was at that point. It does not model the timer's handling of the exception.
