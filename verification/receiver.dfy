/** The receive loop `poll` and the state it drives: one filter chain, the
    append-only CSV log and the three plot windows. A tick drains a queue of
    datagrams that stands for what the non-blocking socket has buffered. */
module Receiver {
  import opened Results
  import opened LittleEndian
  import opened Packet
  import opened FilterChain
  import opened RollingBuffer
  import opened Emission

  /** Everything `poll` reads or writes besides the socket: the chain `HP`,
      `NOTCH`, `LP`, the rows written to `log.csv`, and `ts_buf`, `v_buf`,
      `vf_buf`. */
  datatype Receiver = Receiver(chain: Chain, log: seq<Row>,
                               tsBuf: Window<real>, vBuf: Window<int16>, vfBuf: Window<real>)

  /** `ts / 1e6`, exactly. */
  function Seconds(us: int): real {
    us as real / 1000000.0
  }

  /** The state just after start-up: a designed chain, nothing logged, empty windows. */
  function Start(ch: Chain): (rx: Receiver)
    ensures Consistent(rx) && rx.log == [] && rx.chain == ch
  {
    Receiver(ch, [], Empty(PlotWindow), Empty(PlotWindow), Empty(PlotWindow))
  }

  /** The columns of the log, oldest row first. */
  function TsColumn(log: seq<Row>): (r: seq<real>)
    ensures |r| == |log|
    decreases |log|
  {
    if |log| == 0 then [] else TsColumn(log[..|log| - 1]) + [Seconds(log[|log| - 1].tsMicros)]
  }

  function RawColumn(log: seq<Row>): (r: seq<int16>)
    ensures |r| == |log|
    decreases |log|
  {
    if |log| == 0 then [] else RawColumn(log[..|log| - 1]) + [log[|log| - 1].raw]
  }

  function FilteredColumn(log: seq<Row>): (r: seq<real>)
    ensures |r| == |log|
    decreases |log|
  {
    if |log| == 0 then [] else FilteredColumn(log[..|log| - 1]) + [log[|log| - 1].filtered]
  }

  /** The plot windows mirror the log: each holds the newest `PlotWindow`
      entries of its column, so the three always have the same length and
      never exceed the bound. */
  predicate Consistent(rx: Receiver) {
    && rx.tsBuf.cap == PlotWindow && rx.vBuf.cap == PlotWindow && rx.vfBuf.cap == PlotWindow
    && rx.tsBuf.items == Last(TsColumn(rx.log), PlotWindow)
    && rx.vBuf.items == Last(RawColumn(rx.log), PlotWindow)
    && rx.vfBuf.items == Last(FilteredColumn(rx.log), PlotWindow)
  }

  /** A consistent receiver's windows are in lockstep, and none exceeds the bound. */
  lemma WindowsInLockstep(rx: Receiver)
    requires Consistent(rx)
    ensures |rx.tsBuf.items| == |rx.vBuf.items| == |rx.vfBuf.items| <= PlotWindow
  {
  }

  /** The body of the `for` loop for one sample: filter it, write its row,
      append to the three windows. The row carries the sample unchanged and
      the chain's output for it, earlier rows are untouched, and the windows
      go on mirroring the log. */
  function Push(rx: Receiver, ts: int, s: int16): (r: Receiver)
    ensures |r.log| == |rx.log| + 1 && r.log[..|rx.log|] == rx.log
    ensures r.log[|rx.log|].tsMicros == ts && r.log[|rx.log|].raw == s
    ensures r.chain == Step(rx.chain, s as real).0 && r.log[|rx.log|].filtered == Step(rx.chain, s as real).1
    ensures Coefficients(r.chain) == Coefficients(rx.chain)
    ensures Consistent(rx) ==> Consistent(r)
  {
    var (ch, sf) := Step(rx.chain, s as real);
    var row := Row(ts, s, sf);
    assert (rx.log + [row])[..|rx.log|] == rx.log;
    LastSnoc(TsColumn(rx.log), Seconds(ts), PlotWindow);
    LastSnoc(RawColumn(rx.log), s, PlotWindow);
    LastSnoc(FilteredColumn(rx.log), sf, PlotWindow);
    Receiver(ch, rx.log + [row],
             Append(rx.tsBuf, Seconds(ts)), Append(rx.vBuf, s), Append(rx.vfBuf, sf))
  }

  /** The `for i, s in enumerate(samples)` loop of one packet: sample `i` is
      stamped `t0 + i * 1000`. The log grows by one row per sample, in order,
      each holding the sample unchanged and the chain's output for it, which
      is the chain run over the whole packet; the windows go on mirroring the
      log. */
  function Ingest(rx: Receiver, t0: nat, ss: seq<int16>): (r: Receiver)
    ensures var f := Filter(rx.chain, AsReals(ss));
      && r.log == rx.log + Zip(PacketStamps(t0, |ss|), ss, f.1)
      && r.chain == f.0
    ensures Consistent(rx) ==> Consistent(r)
    decreases |ss|
  {
    if |ss| == 0 then
      assert rx.log + Zip(PacketStamps(t0, 0), ss, []) == rx.log;
      rx
    else
      var n := |ss| - 1;
      var ss' := ss[..n];
      var ts := t0 + n * StepMicros;
      var prev := Ingest(rx, t0, ss');
      var f' := Filter(rx.chain, AsReals(ss'));
      var st := Step(f'.0, ss[n] as real);
      var r := Push(prev, ts, ss[n]);
      AsRealsPrefix(ss);
      RowsSnoc(t0, ss, f'.1, st.1);
      r
  }

  /** Why a tick ended: the socket had nothing more (`BlockingIOError`), a
      datagram was shorter than the header (`return`), or a payload was
      shorter than declared (`struct.error`, which escapes `poll`). */
  datatype Stop = Drained | ShortHeader | Raised

  /** The outcome of one call of `poll`: the new state, the datagrams still
      queued for later ticks, and how the tick ended. */
  datatype Tick = Tick(rx: Receiver, rest: seq<Datagram>, stop: Stop)

  /** One call of `poll` on the datagrams queued at the socket. Let `ps` be the
      packets accepted before the first datagram that fails to decode:
      - the tick drains the queue iff every datagram is accepted;
      - otherwise the refused datagram is consumed and the ones after it stay
        queued, and the tick ends by `return` iff that datagram is shorter
        than the header, by `struct.error` otherwise;
      - the log grows by exactly the rows of `ps`: every sample in order, its
        timestamp, and the chain's output over the whole stream;
      - the chain ends where filtering that stream leaves it;
      - the windows go on mirroring the log. */
  function Poll(rx: Receiver, queue: seq<Datagram>): (t: Tick)
    ensures var ps := Accepted(queue);
      && (t.stop == Drained <==> |ps| == |queue|)
      && (t.stop == Drained ==> t.rest == [])
      && (t.stop != Drained ==> t.rest == queue[|ps| + 1..])
      && (t.stop == ShortHeader <==> |ps| < |queue| && |queue[|ps|]| < HeaderSize)
      && (t.stop == Raised <==> |ps| < |queue| && Decode(queue[|ps|]) == Err(PayloadTooShort))
    ensures Consistent(rx) ==> Consistent(t.rx)
    decreases |queue|
  {
    if |queue| == 0 then Tick(rx, [], Drained)
    else
      match Decode(queue[0])
      case Err(HeaderTooShort) => Tick(rx, queue[1..], ShortHeader)
      case Err(PayloadTooShort) => Tick(rx, queue[1..], Raised)
      case Ok(p) =>
        var rest := queue[1..];
        AcceptedCons(queue, p);
        Poll(Ingest(rx, p.t0Micros, p.samples), rest)
  }

  /** A tick that accepts its first datagram carries on from the state that
      packet leaves behind. */
  lemma PollAccepts(rx: Receiver, queue: seq<Datagram>, p: Packet)
    requires |queue| > 0 && Decode(queue[0]) == Ok(p)
    ensures Poll(rx, queue) == Poll(Ingest(rx, p.t0Micros, p.samples), queue[1..])
    ensures Accepted(queue) == [p] + Accepted(queue[1..])
  {
  }

  /** What a tick writes, stated without the loop: the log grows by exactly
      the rows of the accepted packets, every sample in order with its
      timestamp and the chain's output over the whole stream, and the chain
      ends where filtering that stream leaves it. */
  lemma {:induction false} PollWrites(rx: Receiver, queue: seq<Datagram>)
    ensures var t := Poll(rx, queue); var ps := Accepted(queue);
      && t.rx.log == rx.log + Rows(rx.chain, ps)
      && t.rx.chain == Filter(rx.chain, AsReals(Stream(ps))).0
    decreases |queue|
  {
    if |queue| == 0 || Decode(queue[0]).Err? {
      RowsNone(rx.chain);
    } else {
      var p := Decode(queue[0]).value;
      var next := Ingest(rx, p.t0Micros, p.samples);
      var rest := queue[1..];
      var a := Accepted(rest);
      var t := Poll(rx, queue);
      var f := Filter(rx.chain, AsReals(p.samples));
      var z := Zip(PacketStamps(p.t0Micros, |p.samples|), p.samples, f.1);
      assert t == Poll(next, rest) && Accepted(queue) == [p] + a by {
        PollAccepts(rx, queue, p);
      }
      assert t.rx.log == next.log + Rows(next.chain, a) && t.rx.chain == Filter(next.chain, AsReals(Stream(a))).0 by {
        PollWrites(next, rest);
      }
      assert next.log == rx.log + z && next.chain == f.0;
      assert Rows(rx.chain, [p] + a) == z + Rows(f.0, a) && Filter(rx.chain, AsReals(Stream([p] + a))).0 == Filter(f.0, AsReals(Stream(a))).0 by {
        RowsCons(rx.chain, p, a);
      }
      AppendRows(rx.log, z, Rows(f.0, a));
    }
  }

  /** Writing two batches of rows one after the other is writing them together. */
  lemma AppendRows(log: seq<Row>, first: seq<Row>, second: seq<Row>)
    ensures (log + first) + second == log + (first + second)
  {
  }

  /** `f_csv.flush()` and `curve_flt.setData(ts_buf, vf_buf)` run only when the
      loop ended by `BlockingIOError`; the result is the series handed to the
      plot, or `None` when the tick ended early. */
  function Refresh(t: Tick): (r: Option<(seq<real>, seq<real>)>)
    ensures r.Some? <==> t.stop == Drained
    ensures r.Some? && Consistent(t.rx) ==> |r.value.0| == |r.value.1| <= PlotWindow
  {
    if t.stop == Drained then Some((t.rx.tsBuf.items, t.rx.vfBuf.items)) else None
  }
}
