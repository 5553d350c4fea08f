/** One second-order IIR section (`BiquadDF2T`): RBJ cookbook coefficient
    design for the three kinds the receiver uses, and the per-sample update of
    its two delay registers. Reals stand for the source's doubles; `cos` and
    `sin` of the design angle are inputs, not computed here. */
module Biquad {
  import opened Results

  /** Normalised coefficients: every one divided by `a0`. */
  datatype Coeffs = Coeffs(b0: real, b1: real, b2: real, a1: real, a2: real)

  /** Coefficients before normalisation, `a0` included. */
  datatype Prototype = Prototype(b0: real, b1: real, b2: real, a0: real, a1: real, a2: real)

  /** `ValueError("Unknown biquad kind")` and Python's `ZeroDivisionError`. */
  datatype DesignError = UnknownKind | ZeroDivision

  /** `cw = cos(w0)` and `sw = sin(w0)` for `w0 = 2*pi*f0/fs`. */
  datatype Angle = Angle(cw: real, sw: real)

  /** The kinds `design` accepts. */
  const Kinds: set<string> := {"lp", "hp", "notch"}

  /** The `if kind == ...` ladder: the unnormalised coefficients of one kind.
      All kinds share the denominator `1 + alpha, -2cw, 1 - alpha`. */
  function Prototypes(kind: string, cw: real, alpha: real): (r: Result<Prototype, DesignError>)
    ensures r.Ok? <==> kind in Kinds
    ensures r.Err? ==> r.error == UnknownKind
    ensures r.Ok? ==> r.value.a0 == 1.0 + alpha && r.value.a1 == -2.0 * cw && r.value.a2 == 1.0 - alpha
  {
    if kind == "lp" then
      Ok(Prototype((1.0 - cw) * 0.5, 1.0 - cw, (1.0 - cw) * 0.5, 1.0 + alpha, -2.0 * cw, 1.0 - alpha))
    else if kind == "hp" then
      Ok(Prototype((1.0 + cw) * 0.5, -(1.0 + cw), (1.0 + cw) * 0.5, 1.0 + alpha, -2.0 * cw, 1.0 - alpha))
    else if kind == "notch" then
      Ok(Prototype(1.0, -2.0 * cw, 1.0, 1.0 + alpha, -2.0 * cw, 1.0 - alpha))
    else
      Err(UnknownKind)
  }

  /** `BiquadDF2T.design(kind, f0, fs, Q)`. `alpha` is computed before the kind
      is examined, so `Q == 0` raises before an unknown kind would; `a0 == 0`
      raises at normalisation. Every kind gets the same normalised
      denominator. */
  function Design(kind: string, w: Angle, q: real): (r: Result<Coeffs, DesignError>)
    ensures q == 0.0 ==> r == Err(ZeroDivision)
    ensures q != 0.0 && kind !in Kinds ==> r == Err(UnknownKind)
    ensures q != 0.0 && kind in Kinds ==> (r.Ok? <==> 1.0 + w.sw / (2.0 * q) != 0.0)
    ensures q != 0.0 && kind in Kinds && 1.0 + w.sw / (2.0 * q) == 0.0 ==> r == Err(ZeroDivision)
    ensures r.Ok? ==>
      var a0 := 1.0 + w.sw / (2.0 * q);
      && r.value.a1 == -2.0 * w.cw / a0
      && r.value.a2 == (1.0 - w.sw / (2.0 * q)) / a0
  {
    if q == 0.0 then Err(ZeroDivision)
    else
      var alpha := w.sw / (2.0 * q);
      var p :- Prototypes(kind, w.cw, alpha);
      if p.a0 == 0.0 then Err(ZeroDivision)
      else Ok(Coeffs(p.b0 / p.a0, p.b1 / p.a0, p.b2 / p.a0, p.a1 / p.a0, p.a2 / p.a0))
  }

  /** The designed low-pass section has numerator `b0 (1, 2, 1)`, unity gain
      at DC (numerator and denominator sums agree) and a zero at Nyquist. */
  lemma LowPassResponse(w: Angle, q: real)
    requires Design("lp", w, q).Ok?
    ensures var c := Design("lp", w, q).value;
      && c.b1 == 2.0 * c.b0 && c.b2 == c.b0
      && c.b0 + c.b1 + c.b2 == 1.0 + c.a1 + c.a2
      && c.b0 - c.b1 + c.b2 == 0.0
  {
    var a0 := 1.0 + w.sw / (2.0 * q);
    var c := Design("lp", w, q).value;
    assert c.b0 == (1.0 - w.cw) * 0.5 / a0 && c.b1 == (1.0 - w.cw) / a0;
    DivSum3((1.0 - w.cw) * 0.5, 1.0 - w.cw, (1.0 - w.cw) * 0.5, a0);
    DivSum3(a0, -2.0 * w.cw, 1.0 - w.sw / (2.0 * q), a0);
  }

  /** The designed high-pass section has numerator `b0 (1, -2, 1)`, a zero at
      DC and unity gain at Nyquist. */
  lemma HighPassResponse(w: Angle, q: real)
    requires Design("hp", w, q).Ok?
    ensures var c := Design("hp", w, q).value;
      && c.b2 == c.b0 && c.b1 == -2.0 * c.b0
      && c.b0 + c.b1 + c.b2 == 0.0
      && c.b0 - c.b1 + c.b2 == 1.0 - c.a1 + c.a2
  {
    var a0 := 1.0 + w.sw / (2.0 * q);
    var c := Design("hp", w, q).value;
    assert c.b0 == (1.0 + w.cw) * 0.5 / a0 && c.b1 == -(1.0 + w.cw) / a0;
    DivSum3((1.0 + w.cw) * 0.5, 1.0 + w.cw, (1.0 + w.cw) * 0.5, a0);
    DivSum3(a0, 2.0 * w.cw, 1.0 - w.sw / (2.0 * q), a0);
  }

  /** The designed notch has numerator `(1, -2cw, 1) / a0`, shares `a1` with
      its denominator, and has unity gain at DC. */
  lemma NotchResponse(w: Angle, q: real)
    requires Design("notch", w, q).Ok?
    ensures var c := Design("notch", w, q).value;
      && c.b0 == c.b2 == 1.0 / (1.0 + w.sw / (2.0 * q))
      && c.b1 == c.a1
      && c.b0 + c.b1 + c.b2 == 1.0 + c.a1 + c.a2
  {
    var a0 := 1.0 + w.sw / (2.0 * q);
    DivSum3(1.0, -2.0 * w.cw, 1.0, a0);
    DivSum3(a0, -2.0 * w.cw, 1.0 - w.sw / (2.0 * q), a0);
  }

  /** When `cw, sw` lie on the unit circle, the notch numerator vanishes at
      `z = e^(j*w0)`: both the real and the imaginary part of
      `b0 z^2 + b1 z + b2` are zero, so the notch frequency is removed. */
  lemma NotchRoot(w: Angle, q: real)
    requires Design("notch", w, q).Ok? && w.cw * w.cw + w.sw * w.sw == 1.0
    ensures var c := Design("notch", w, q).value;
      && c.b0 * (w.cw * w.cw - w.sw * w.sw) + c.b1 * w.cw + c.b2 == 0.0
      && c.b0 * 2.0 * w.cw * w.sw + c.b1 * w.sw == 0.0
  {
    var a0 := 1.0 + w.sw / (2.0 * q);
    var c := Design("notch", w, q).value;
    var k := 1.0 / a0;
    assert c.b0 == k && c.b2 == k && c.b1 == -2.0 * w.cw * k;
    assert c.b0 * (w.cw * w.cw - w.sw * w.sw) + c.b1 * w.cw + c.b2 == k * (1.0 - w.cw * w.cw - w.sw * w.sw);
    assert c.b0 * 2.0 * w.cw * w.sw + c.b1 * w.sw == k * (2.0 * w.cw * w.sw - 2.0 * w.cw * w.sw);
  }

  /** Dividing three terms by the same non-zero `d` divides their sum. */
  lemma DivSum3(x: real, y: real, z: real, d: real)
    requires d != 0.0
    ensures x / d + y / d + z / d == (x + y + z) / d
    ensures x / d - y / d + z / d == (x - y + z) / d
  {
  }

  /** A section: its coefficients and its two registers `v1`, `v2`. */
  datatype Stage = Stage(c: Coeffs, v1: real, v2: real)

  /** `BiquadDF2T(kind, f0, fs, Q)`: registers start at zero. */
  function NewStage(kind: string, w: Angle, q: real): (r: Result<Stage, DesignError>)
    ensures r.Ok? <==> Design(kind, w, q).Ok?
    ensures r.Err? ==> r.error == Design(kind, w, q).error
    ensures r.Ok? ==> r.value.c == Design(kind, w, q).value && r.value.v1 == 0.0 && r.value.v2 == 0.0
  {
    var c :- Design(kind, w, q);
    Ok(Stage(c, 0.0, 0.0))
  }

  /** `BiquadDF2T.process(x)`: one input sample in, one output sample out.
      The coefficients never change, the old `v1` moves to `v2`, and the new
      `v1` is the register value whose feedback sum reproduces `x`. */
  function Process(s: Stage, x: real): (r: (Stage, real))
    ensures r.0.c == s.c
    ensures r.0.v2 == s.v1
    ensures x == r.0.v1 + s.c.a1 * s.v1 + s.c.a2 * s.v2
    ensures r.1 == s.c.b0 * r.0.v1 + s.c.b1 * s.v1 + s.c.b2 * s.v2
    ensures s.v1 == 0.0 && s.v2 == 0.0 && x == 0.0 ==> r.1 == 0.0 && r.0 == s
  {
    var v := x - s.c.a1 * s.v1 - s.c.a2 * s.v2;
    var y := s.c.b0 * v + s.c.b1 * s.v1 + s.c.b2 * s.v2;
    (Stage(s.c, v, s.v1), y)
  }

  /** A stream `xs` pushed through one section, sample by sample. */
  function Run(s: Stage, xs: seq<real>): (r: (Stage, seq<real>))
    ensures |r.1| == |xs|
    ensures r.0.c == s.c
    decreases |xs|
  {
    if |xs| == 0 then (s, [])
    else
      var prev := Run(s, xs[..|xs| - 1]);
      var last := Process(prev.0, xs[|xs| - 1]);
      (last.0, prev.1 + [last.1])
  }

  /** Feeding two streams one after the other is feeding their concatenation:
      the registers carry over. */
  lemma {:induction false} RunAppend(s: Stage, xs: seq<real>, ys: seq<real>)
    ensures Run(s, xs + ys).0 == Run(Run(s, xs).0, ys).0
    ensures Run(s, xs + ys).1 == Run(s, xs).1 + Run(Run(s, xs).0, ys).1
    decreases |ys|
  {
    if |ys| == 0 {
      assert xs + ys == xs;
    } else {
      var ys' := ys[..|ys| - 1];
      assert (xs + ys)[..|xs + ys| - 1] == xs + ys';
      RunAppend(s, xs, ys');
    }
  }

  /** `s[k]`, or zero before the start of the stream. */
  function At(s: seq<real>, k: int): real {
    if 0 <= k < |s| then s[k] else 0.0
  }

  /** The textbook difference equation of a biquad, an independent statement of
      what the section computes:
      `y[n] = b0 x[n] + b1 x[n-1] + b2 x[n-2] - a1 y[n-1] - a2 y[n-2]`. */
  ghost predicate DirectFormI(c: Coeffs, xs: seq<real>, ys: seq<real>) {
    && |ys| == |xs|
    && forall n :: 0 <= n < |xs| ==>
         ys[n] == c.b0 * xs[n] + c.b1 * At(xs, n - 1) + c.b2 * At(xs, n - 2)
                  - c.a1 * At(ys, n - 1) - c.a2 * At(ys, n - 2)
  }

  /** The register values `v[0..|xs|)` the section computes from zero state. */
  ghost function Registers(c: Coeffs, xs: seq<real>): (v: seq<real>)
    ensures |v| == |xs|
    decreases |xs|
  {
    if |xs| == 0 then []
    else
      var pv := Registers(c, xs[..|xs| - 1]);
      pv + [NextRegister(c, pv, xs[|xs| - 1])]
  }

  /** The register value the section computes for input `x` after registers `v`. */
  function NextRegister(c: Coeffs, v: seq<real>, x: real): real {
    x - c.a1 * At(v, |v| - 1) - c.a2 * At(v, |v| - 2)
  }

  /** Extending a sequence does not change what `At` reads below its old end. */
  lemma {:induction false} AtOfPrefix(s: seq<real>, t: seq<real>, k: int)
    requires |t| <= |s| && t == s[..|t|] && k < |t|
    ensures At(s, k) == At(t, k)
  {
  }

  /** The feedback sum `v[k] + a1 v[k-1] + a2 v[k-2]` over register values. */
  function Feedback(c: Coeffs, v: seq<real>, k: int): real {
    At(v, k) + c.a1 * At(v, k - 1) + c.a2 * At(v, k - 2)
  }

  /** The feed-forward sum `b0 v[k] + b1 v[k-1] + b2 v[k-2]` over register values. */
  function FeedForward(c: Coeffs, v: seq<real>, k: int): real {
    c.b0 * At(v, k) + c.b1 * At(v, k - 1) + c.b2 * At(v, k - 2)
  }

  lemma {:induction false} SumsOfPrefix(c: Coeffs, v: seq<real>, t: seq<real>, k: int)
    requires |t| <= |v| && t == v[..|t|] && k < |t|
    ensures Feedback(c, v, k) == Feedback(c, t, k)
    ensures FeedForward(c, v, k) == FeedForward(c, t, k)
  {
    AtOfPrefix(v, t, k);
    AtOfPrefix(v, t, k - 1);
    AtOfPrefix(v, t, k - 2);
  }

  /** Every input is recovered from three consecutive register values. */
  lemma {:induction false} RegistersSolveFeedback(c: Coeffs, xs: seq<real>)
    ensures forall k :: 0 <= k < |xs| ==> xs[k] == Feedback(c, Registers(c, xs), k)
    decreases |xs|
  {
    if |xs| > 0 {
      var n := |xs| - 1;
      var xs' := xs[..n];
      var v := Registers(c, xs);
      var v' := Registers(c, xs');
      RegistersSolveFeedback(c, xs');
      assert v' == v[..n];
      forall k | 0 <= k < n
        ensures xs[k] == Feedback(c, v, k)
      {
        assert xs[k] == xs'[k];
        SumsOfPrefix(c, v, v', k);
      }
      assert xs[n] == Feedback(c, v, n) by {
        AtOfPrefix(v, v', n - 1);
        AtOfPrefix(v, v', n - 2);
        assert v[n] == xs[n] - c.a1 * At(v', n - 1) - c.a2 * At(v', n - 2);
      }
    }
  }

  /** From zero state, the registers hold the last two register values and each
      output is the feed-forward sum over them. */
  lemma {:induction false} RunFromRest(c: Coeffs, xs: seq<real>)
    ensures var r := Run(Stage(c, 0.0, 0.0), xs); var v := Registers(c, xs);
      && r.0.v1 == At(v, |xs| - 1) && r.0.v2 == At(v, |xs| - 2)
      && forall k :: 0 <= k < |xs| ==> r.1[k] == FeedForward(c, v, k)
    decreases |xs|
  {
    if |xs| > 0 {
      RunFromRest(c, xs[..|xs| - 1]);
      RunFromRestStep(c, xs);
    }
  }

  /** The inductive step of `RunFromRest`: one more sample. */
  lemma {:induction false} RunFromRestStep(c: Coeffs, xs: seq<real>)
    requires |xs| > 0
    requires var xs' := xs[..|xs| - 1]; var r := Run(Stage(c, 0.0, 0.0), xs'); var v := Registers(c, xs');
      && r.0.v1 == At(v, |xs'| - 1) && r.0.v2 == At(v, |xs'| - 2)
      && forall k :: 0 <= k < |xs'| ==> r.1[k] == FeedForward(c, v, k)
    ensures var r := Run(Stage(c, 0.0, 0.0), xs); var v := Registers(c, xs);
      && r.0.v1 == At(v, |xs| - 1) && r.0.v2 == At(v, |xs| - 2)
      && forall k :: 0 <= k < |xs| ==> r.1[k] == FeedForward(c, v, k)
  {
    var n := |xs| - 1;
    var xs' := xs[..n];
    var v' := Registers(c, xs');
    var r' := Run(Stage(c, 0.0, 0.0), xs');
    assert Run(Stage(c, 0.0, 0.0), xs) == (Process(r'.0, xs[n]).0, r'.1 + [Process(r'.0, xs[n]).1]);
    RegistersLast(c, xs);
    StepFromRegisters(c, v', r'.0, r'.1, xs[n]);
  }

  /** One sample of `RunFromRest`, over plain values. */
  lemma {:induction false} StepFromRegisters(c: Coeffs, v': seq<real>, s: Stage, ys: seq<real>, x: real)
    requires s.c == c && s.v1 == At(v', |v'| - 1) && s.v2 == At(v', |v'| - 2)
    requires |ys| == |v'|
    requires forall k :: 0 <= k < |v'| ==> ys[k] == FeedForward(c, v', k)
    ensures var n := |v'|; var v := v' + [NextRegister(c, v', x)];
      var p := Process(s, x);
      && p.0.v1 == At(v, n) && p.0.v2 == At(v, n - 1)
      && forall k :: 0 <= k < |v| ==> (ys + [p.1])[k] == FeedForward(c, v, k)
  {
    var n := |v'|;
    var u1, u2 := At(v', n - 1), At(v', n - 2);
    var v := v' + [x - c.a1 * u1 - c.a2 * u2];
    var p := Process(s, x);
    assert p.0.v1 == v[n] && p.0.v2 == u1 && p.1 == c.b0 * v[n] + c.b1 * u1 + c.b2 * u2 by {
      ProcessFrom(s, x, u1, u2);
    }
    assert At(v, n - 1) == u1 && At(v, n - 2) == u2 && v' == v[..n] by {
      AtOfPrefix(v, v', n - 1);
      AtOfPrefix(v, v', n - 2);
    }
    assert p.1 == FeedForward(c, v, n) by {
      FeedForwardAt(c, v, n, u1, u2);
    }
    OutputsExtend(c, v, v', ys, p.1);
  }

  /** Outputs of a prefix, plus one more feed-forward sum, are the outputs of the whole. */
  lemma {:induction false} OutputsExtend(c: Coeffs, v: seq<real>, v': seq<real>, ys: seq<real>, y: real)
    requires |v| == |v'| + 1 && v' == v[..|v'|] && |ys| == |v'|
    requires forall k :: 0 <= k < |v'| ==> ys[k] == FeedForward(c, v', k)
    requires y == FeedForward(c, v, |v'|)
    ensures forall k :: 0 <= k < |v| ==> (ys + [y])[k] == FeedForward(c, v, k)
  {
    forall k | 0 <= k < |v|
      ensures (ys + [y])[k] == FeedForward(c, v, k)
    {
      if k < |v'| {
        SumsOfPrefix(c, v, v', k);
      }
    }
  }

  lemma {:induction false} FeedForwardAt(c: Coeffs, v: seq<real>, n: nat, u1: real, u2: real)
    requires n < |v| && At(v, n - 1) == u1 && At(v, n - 2) == u2
    ensures FeedForward(c, v, n) == c.b0 * v[n] + c.b1 * u1 + c.b2 * u2
  {
    assert At(v, n) == v[n];
  }

  /** The newest register value, computed from the two before it. */
  lemma {:induction false} RegistersLast(c: Coeffs, xs: seq<real>)
    requires |xs| > 0
    ensures var n := |xs| - 1; var pv := Registers(c, xs[..n]);
      Registers(c, xs) == pv + [NextRegister(c, pv, xs[n])]
  {
  }

  /** `Process` from registers `u1`, `u2`, with the arithmetic spelled out. */
  lemma {:induction false} ProcessFrom(s: Stage, x: real, u1: real, u2: real)
    requires s.v1 == u1 && s.v2 == u2
    ensures Process(s, x).0.v1 == x - s.c.a1 * u1 - s.c.a2 * u2
    ensures Process(s, x).0.v2 == u1
    ensures Process(s, x).1 == s.c.b0 * Process(s, x).0.v1 + s.c.b1 * u1 + s.c.b2 * u2
  {
  }

  /** The polynomial identity behind `RunIsDirectFormI`: three outputs and three
      inputs expressed through five consecutive register values. */
  lemma {:induction false} DifferenceStep(c: Coeffs, v0: real, v1: real, v2: real, v3: real, v4: real,
                       x0: real, x1: real, x2: real, y0: real, y1: real, y2: real)
    requires x0 == v0 + c.a1 * v1 + c.a2 * v2
    requires x1 == v1 + c.a1 * v2 + c.a2 * v3
    requires x2 == v2 + c.a1 * v3 + c.a2 * v4
    requires y0 == c.b0 * v0 + c.b1 * v1 + c.b2 * v2
    requires y1 == c.b0 * v1 + c.b1 * v2 + c.b2 * v3
    requires y2 == c.b0 * v2 + c.b1 * v3 + c.b2 * v4
    ensures y0 == c.b0 * x0 + c.b1 * x1 + c.b2 * x2 - c.a1 * y1 - c.a2 * y2
  {
  }

  /** From rest, the section's output satisfies the direct-form-I difference
      equation on every sample: the two-register update is a faithful
      realisation of the biquad transfer function. */
  lemma {:induction false} RunIsDirectFormI(c: Coeffs, xs: seq<real>)
    ensures DirectFormI(c, xs, Run(Stage(c, 0.0, 0.0), xs).1)
  {
    var ys := Run(Stage(c, 0.0, 0.0), xs).1;
    var v := Registers(c, xs);
    RunFromRest(c, xs);
    RegistersSolveFeedback(c, xs);
    forall n | 0 <= n < |xs|
      ensures ys[n] == c.b0 * xs[n] + c.b1 * At(xs, n - 1) + c.b2 * At(xs, n - 2)
                       - c.a1 * At(ys, n - 1) - c.a2 * At(ys, n - 2)
    {
      assert xs[n] == Feedback(c, v, n);
      assert ys[n] == FeedForward(c, v, n);
      InputAt(c, xs, v, n - 1);
      InputAt(c, xs, v, n - 2);
      OutputAt(c, ys, v, n - 1);
      OutputAt(c, ys, v, n - 2);
      DirectFormIAt(c, xs, ys, v, n);
    }
  }

  /** Input `k` as a feedback sum, including the zeros before the stream starts. */
  lemma InputAt(c: Coeffs, xs: seq<real>, v: seq<real>, k: int)
    requires |xs| == |v| && k < |xs|
    requires forall j :: 0 <= j < |xs| ==> xs[j] == Feedback(c, v, j)
    ensures At(xs, k) == Feedback(c, v, k)
  {
    if k < 0 {
      assert At(v, k) == 0.0 && At(v, k - 1) == 0.0 && At(v, k - 2) == 0.0;
    }
  }

  /** Output `k` as a feed-forward sum, including the zeros before the stream starts. */
  lemma OutputAt(c: Coeffs, ys: seq<real>, v: seq<real>, k: int)
    requires |ys| == |v| && k < |ys|
    requires forall j :: 0 <= j < |ys| ==> ys[j] == FeedForward(c, v, j)
    ensures At(ys, k) == FeedForward(c, v, k)
  {
    if k < 0 {
      assert At(v, k) == 0.0 && At(v, k - 1) == 0.0 && At(v, k - 2) == 0.0;
    }
  }

  /** One sample of `RunIsDirectFormI`: the difference equation at `n`, from
      the feedback and feed-forward sums around it. */
  lemma DirectFormIAt(c: Coeffs, xs: seq<real>, ys: seq<real>, v: seq<real>, n: nat)
    requires |ys| == |xs| == |v| && n < |xs|
    requires xs[n] == Feedback(c, v, n) && At(xs, n - 1) == Feedback(c, v, n - 1)
    requires At(xs, n - 2) == Feedback(c, v, n - 2)
    requires ys[n] == FeedForward(c, v, n) && At(ys, n - 1) == FeedForward(c, v, n - 1)
    requires At(ys, n - 2) == FeedForward(c, v, n - 2)
    ensures ys[n] == c.b0 * xs[n] + c.b1 * At(xs, n - 1) + c.b2 * At(xs, n - 2)
                     - c.a1 * At(ys, n - 1) - c.a2 * At(ys, n - 2)
  {
    DifferenceStep(c, At(v, n), At(v, n - 1), At(v, n - 2), At(v, n - 3), At(v, n - 4),
                   xs[n], At(xs, n - 1), At(xs, n - 2), ys[n], At(ys, n - 1), At(ys, n - 2));
  }
}
