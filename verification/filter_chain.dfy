/** The fixed cascade `filt_chain`: high-pass, then notch, then low-pass, one
    `BiquadDF2T` section each, whose registers persist for the whole run. */
module FilterChain {
  import opened Results
  import opened Biquad

  /** The three module-level sections `HP`, `NOTCH` and `LP`. */
  datatype Chain = Chain(hp: Stage, notch: Stage, lp: Stage)

  /** `Q_NOTCH`: the quality factor of the 50 Hz notch. */
  const NotchQ: real := 20.0

  /** Building `HP`, `NOTCH` and `LP` in that order at start-up, from the design
      angles of `HP_HZ`, `NOTCH_HZ`, `LP_HZ` at `FS_HZ` and from `Q_BW`. The first
      section whose design raises stops the start-up with that error. */
  function NewChain(hp: Angle, notch: Angle, lp: Angle, bandQ: real): (r: Result<Chain, DesignError>)
    ensures r.Ok? <==> NewStage("hp", hp, bandQ).Ok? && NewStage("notch", notch, NotchQ).Ok? && NewStage("lp", lp, bandQ).Ok?
    ensures NewStage("hp", hp, bandQ).Err? ==> r == Err(NewStage("hp", hp, bandQ).error)
    ensures NewStage("hp", hp, bandQ).Ok? && NewStage("notch", notch, NotchQ).Err? ==>
      r == Err(NewStage("notch", notch, NotchQ).error)
    ensures NewStage("hp", hp, bandQ).Ok? && NewStage("notch", notch, NotchQ).Ok? && NewStage("lp", lp, bandQ).Err? ==>
      r == Err(NewStage("lp", lp, bandQ).error)
    ensures r.Err? ==> r.error == ZeroDivision
    ensures r.Ok? ==>
      && r.value.hp.c == Design("hp", hp, bandQ).value
      && r.value.notch.c == Design("notch", notch, NotchQ).value
      && r.value.lp.c == Design("lp", lp, bandQ).value
      && AtRest(r.value)
  {
    var h :- NewStage("hp", hp, bandQ);
    var n :- NewStage("notch", notch, NotchQ);
    var l :- NewStage("lp", lp, bandQ);
    Ok(Chain(h, n, l))
  }

  /** Every register of every section is zero. */
  predicate AtRest(ch: Chain) {
    && ch.hp.v1 == 0.0 && ch.hp.v2 == 0.0
    && ch.notch.v1 == 0.0 && ch.notch.v2 == 0.0
    && ch.lp.v1 == 0.0 && ch.lp.v2 == 0.0
  }

  /** The coefficients of the three sections, which filtering never changes. */
  function Coefficients(ch: Chain): (Coeffs, Coeffs, Coeffs) {
    (ch.hp.c, ch.notch.c, ch.lp.c)
  }

  /** `filt_chain(x)`: each section processes exactly one sample, HP sees the
      input, NOTCH sees HP's output, LP sees NOTCH's output, and the chain's
      output is LP's. */
  function Step(ch: Chain, x: real): (r: (Chain, real))
    ensures Coefficients(r.0) == Coefficients(ch)
    ensures r.0.hp == Process(ch.hp, x).0
    ensures r.0.notch == Process(ch.notch, Process(ch.hp, x).1).0
    ensures var n := Process(ch.notch, Process(ch.hp, x).1);
      r.0.lp == Process(ch.lp, n.1).0 && r.1 == Process(ch.lp, n.1).1
    ensures r.0.lp.v2 == ch.lp.v1 && r.0.notch.v2 == ch.notch.v1 && r.0.hp.v2 == ch.hp.v1
    ensures AtRest(ch) && x == 0.0 ==> r == (ch, 0.0)
  {
    var h := Process(ch.hp, x);
    var n := Process(ch.notch, h.1);
    var l := Process(ch.lp, n.1);
    (Chain(h.0, n.0, l.0), l.1)
  }

  /** A stream pushed through the chain sample by sample, as the receive loop does. */
  function Filter(ch: Chain, xs: seq<real>): (r: (Chain, seq<real>))
    ensures |r.1| == |xs|
    ensures Coefficients(r.0) == Coefficients(ch)
    decreases |xs|
  {
    if |xs| == 0 then (ch, [])
    else
      var prev := Filter(ch, xs[..|xs| - 1]);
      var last := Step(prev.0, xs[|xs| - 1]);
      (last.0, prev.1 + [last.1])
  }

  /** Filtering sample by sample through the cascade is the same as filtering the
      whole stream through HP, that output through NOTCH, and that through LP:
      order is fixed and no section is skipped or repeated. */
  lemma {:induction false} FilterIsCascade(ch: Chain, xs: seq<real>)
    ensures var h := Run(ch.hp, xs); var n := Run(ch.notch, h.1); var l := Run(ch.lp, n.1);
      Filter(ch, xs) == (Chain(h.0, n.0, l.0), l.1)
    decreases |xs|
  {
    if |xs| > 0 {
      var xs' := xs[..|xs| - 1];
      var x := xs[|xs| - 1];
      FilterIsCascade(ch, xs');
      var h' := Run(ch.hp, xs');
      var n' := Run(ch.notch, h'.1);
      var h := Run(ch.hp, xs);
      var hx := Process(h'.0, x);
      assert h == (hx.0, h'.1 + [hx.1]);
      assert (h'.1 + [hx.1])[..|h'.1|] == h'.1;
      var n := Run(ch.notch, h.1);
      var nx := Process(n'.0, hx.1);
      assert n == (nx.0, n'.1 + [nx.1]);
      assert (n'.1 + [nx.1])[..|n'.1|] == n'.1;
    }
  }

  /** Filtering two streams one after the other, carrying the chain over, is
      filtering their concatenation: registers persist across packets and
      across polls. */
  lemma {:induction false} FilterAppend(ch: Chain, xs: seq<real>, ys: seq<real>)
    ensures Filter(ch, xs + ys).0 == Filter(Filter(ch, xs).0, ys).0
    ensures Filter(ch, xs + ys).1 == Filter(ch, xs).1 + Filter(Filter(ch, xs).0, ys).1
    decreases |ys|
  {
    if |ys| == 0 {
      assert xs + ys == xs;
    } else {
      var ys' := ys[..|ys| - 1];
      assert (xs + ys)[..|xs + ys| - 1] == xs + ys';
      FilterAppend(ch, xs, ys');
    }
  }

  /** From rest, every section of the chain obeys its own difference equation on
      the stream it actually sees: HP on the input, NOTCH on HP's output, LP on
      NOTCH's output, which is what the chain returns. */
  lemma {:induction false} FilterFromRest(ch: Chain, xs: seq<real>)
    requires AtRest(ch)
    ensures var h := Run(ch.hp, xs).1; var n := Run(ch.notch, h).1;
      && DirectFormI(ch.hp.c, xs, h)
      && DirectFormI(ch.notch.c, h, n)
      && DirectFormI(ch.lp.c, n, Filter(ch, xs).1)
  {
    FilterIsCascade(ch, xs);
    var h := Run(ch.hp, xs).1;
    var n := Run(ch.notch, h).1;
    assert ch.hp == Stage(ch.hp.c, 0.0, 0.0) && ch.notch == Stage(ch.notch.c, 0.0, 0.0) && ch.lp == Stage(ch.lp.c, 0.0, 0.0);
    RunIsDirectFormI(ch.hp.c, xs);
    RunIsDirectFormI(ch.notch.c, h);
    RunIsDirectFormI(ch.lp.c, n);
  }
}
