/** What the receive loop writes, stated without the loop: the rows of the
    CSV log, the packets a tick accepts before the first datagram it refuses,
    their samples as one stream with their timestamps, and the chain's output
    over that stream. */
module Emission {
  import opened Results
  import opened LittleEndian
  import opened Packet
  import opened FilterChain

  /** The timestamp step: a constant 1000 µs per sample, written into the
      loop rather than derived from `FS_HZ`. */
  const StepMicros: nat := 1000

  type Datagram = seq<byte>

  /** One CSV row `[ts, s, sf]`: timestamp in µs, raw sample, filtered value. */
  datatype Row = Row(tsMicros: int, raw: int16, filtered: real)

  /** The timestamps of one packet: `t0`, then every 1000 µs, strictly
      increasing. */
  function PacketStamps(t0: nat, n: nat): (r: seq<int>)
    ensures |r| == n
    ensures n > 0 ==> r[0] == t0
    ensures forall i :: 0 < i < n ==> r[i] == r[i - 1] + StepMicros
  {
    seq(n, i requires 0 <= i < n => t0 + StepMicros * i)
  }

  /** `float(s)` for every sample. */
  function AsReals(ss: seq<int16>): (r: seq<real>)
    ensures |r| == |ss|
  {
    seq(|ss|, i requires 0 <= i < |ss| => ss[i] as real)
  }

  /** Rows from three aligned columns. */
  function Zip(ts: seq<int>, xs: seq<int16>, ys: seq<real>): (r: seq<Row>)
    requires |ts| == |xs| == |ys|
    ensures |r| == |xs|
  {
    seq(|xs|, i requires 0 <= i < |xs| => Row(ts[i], xs[i], ys[i]))
  }

  lemma {:induction false} ZipAppend(t1: seq<int>, x1: seq<int16>, y1: seq<real>, t2: seq<int>, x2: seq<int16>, y2: seq<real>)
    requires |t1| == |x1| == |y1| && |t2| == |x2| == |y2|
    ensures Zip(t1 + t2, x1 + x2, y1 + y2) == Zip(t1, x1, y1) + Zip(t2, x2, y2)
  {
  }

  lemma {:induction false} AsRealsAppend(a: seq<int16>, b: seq<int16>)
    ensures AsReals(a + b) == AsReals(a) + AsReals(b)
  {
  }

  lemma AsRealsPrefix(ss: seq<int16>)
    requires |ss| > 0
    ensures AsReals(ss)[..|ss| - 1] == AsReals(ss[..|ss| - 1])
    ensures AsReals(ss)[|ss| - 1] == ss[|ss| - 1] as real
  {
  }

  /** The rows of a packet are the rows of all but its last sample, then the
      last sample's row. */
  lemma RowsSnoc(t0: nat, ss: seq<int16>, ys: seq<real>, y: real)
    requires |ss| > 0 && |ys| == |ss| - 1
    ensures var n := |ss| - 1;
      Zip(PacketStamps(t0, |ss|), ss, ys + [y]) == Zip(PacketStamps(t0, n), ss[..n], ys) + [Row(t0 + n * StepMicros, ss[n], y)]
  {
    var n := |ss| - 1;
    assert PacketStamps(t0, |ss|) == PacketStamps(t0, n) + [t0 + n * StepMicros];
    assert ss == ss[..n] + [ss[n]];
    ZipAppend(PacketStamps(t0, n), ss[..n], ys, [t0 + n * StepMicros], [ss[n]], [y]);
  }

  /** The packets decoded, in order, before the first datagram that fails. */
  function Accepted(queue: seq<Datagram>): (ps: seq<Packet>)
    ensures |ps| <= |queue|
    ensures forall i :: 0 <= i < |ps| ==> Decode(queue[i]) == Ok(ps[i])
    ensures |ps| < |queue| ==> Decode(queue[|ps|]).Err?
    decreases |queue|
  {
    if |queue| == 0 then []
    else
      match Decode(queue[0])
      case Err(_) => []
      case Ok(p) => [p] + Accepted(queue[1..])
  }

  /** A datagram that decodes is accepted, and so are those accepted after it;
      the first refused datagram keeps its place behind them. */
  lemma {:induction false} AcceptedCons(queue: seq<Datagram>, p: Packet)
    requires |queue| > 0 && Decode(queue[0]) == Ok(p)
    ensures Accepted(queue) == [p] + Accepted(queue[1..])
    ensures |Accepted(queue[1..])| < |queue[1..]| ==>
      queue[|Accepted(queue)| + 1..] == queue[1..][|Accepted(queue[1..])| + 1..]
  {
  }

  /** All samples of `ps`, packet after packet. */
  function Stream(ps: seq<Packet>): (r: seq<int16>)
    decreases |ps|
  {
    if |ps| == 0 then [] else ps[0].samples + Stream(ps[1..])
  }

  /** The timestamps of all samples of `ps`, aligned with `Stream(ps)`. */
  function Stamps(ps: seq<Packet>): (r: seq<int>)
    ensures |r| == |Stream(ps)|
    decreases |ps|
  {
    if |ps| == 0 then [] else PacketStamps(ps[0].t0Micros, |ps[0].samples|) + Stamps(ps[1..])
  }

  /** The rows a chain in state `ch` writes for packets `ps`: sample `k` of the
      whole stream with its timestamp and the chain's `k`-th output. */
  function Rows(ch: Chain, ps: seq<Packet>): (r: seq<Row>)
    ensures |r| == |Stream(ps)|
  {
    var xs := Stream(ps);
    Zip(Stamps(ps), xs, Filter(ch, AsReals(xs)).1)
  }

  /** No packets, no rows. */
  lemma RowsNone(ch: Chain)
    ensures Stream([]) == [] && Rows(ch, []) == []
  {
  }

  /** Rows of a packet followed by more packets: the chain carries over from
      the first packet's samples to the next ones. */
  lemma {:induction false} RowsCons(ch: Chain, p: Packet, ps: seq<Packet>)
    ensures Stream([p] + ps) == p.samples + Stream(ps)
    ensures var f := Filter(ch, AsReals(p.samples));
      && Rows(ch, [p] + ps) == Zip(PacketStamps(p.t0Micros, |p.samples|), p.samples, f.1) + Rows(f.0, ps)
      && Filter(ch, AsReals(Stream([p] + ps))).0 == Filter(f.0, AsReals(Stream(ps))).0
  {
    var xs, ys := p.samples, Stream(ps);
    assert ([p] + ps)[1..] == ps;
    AsRealsAppend(xs, ys);
    FilterAppend(ch, AsReals(xs), AsReals(ys));
    var mid := Filter(ch, AsReals(xs)).0;
    ZipAppend(PacketStamps(p.t0Micros, |xs|), xs, Filter(ch, AsReals(xs)).1, Stamps(ps), ys, Filter(mid, AsReals(ys)).1);
  }
}
