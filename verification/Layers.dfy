/** Sequence layers of the noise-suppression network over exact values: temporal convolutions,
    per-frame layers and stacked GRUs, each with the law that lets it be cut in time. */
module Layers {

  /** One time step: all channels and frequency bins flattened. */
  type Frame = seq<real>
  type Frames = seq<Frame>

  /** A temporal convolution sees its own frame and the `past` frames before it. */
  function Conv(f: Frames -> Frame, past: nat, xs: Frames): (ys: Frames)
    requires past <= |xs|
    ensures |ys| == |xs| - past
  {
    seq(|xs| - past, i requires 0 <= i < |xs| - past => f(xs[i..i + past + 1]))
  }

  function Each(f: Frame -> Frame, xs: Frames): (ys: Frames)
    ensures |ys| == |xs|
  {
    seq(|xs|, i requires 0 <= i < |xs| => f(xs[i]))
  }

  function Each2(f: (Frame, Frame) -> Frame, xs: Frames, ys: Frames): (zs: Frames)
    requires |xs| == |ys|
    ensures |zs| == |xs|
  {
    seq(|xs|, i requires 0 <= i < |xs| => f(xs[i], ys[i]))
  }

  /** The slice `[-n:]` of the source. */
  function Tail(xs: Frames, n: nat): (ys: Frames)
    requires n <= |xs|
    ensures |ys| == n
  {
    xs[|xs| - n..]
  }

  /** One GRU layer: its output at each frame is its hidden state there. */
  function Scan(cell: (Frame, Frame) -> Frame, h: Frame, xs: Frames): (hs: Frames)
    ensures |hs| == |xs|
    decreases |xs|
  {
    if xs == [] then [] else var h' := cell(h, xs[0]); [h'] + Scan(cell, h', xs[1..])
  }

  function Last(h: Frame, hs: Frames): Frame {
    if hs == [] then h else hs[|hs| - 1]
  }

  /** A squeezed GRU: per-frame input layer, stacked cells, per-frame output layer, which also sees
      the input for the optional skip. */
  datatype Gru = Gru(pre: Frame -> Frame, cells: seq<(Frame, Frame) -> Frame>, post: (Frame, Frame) -> Frame)

  function Stack(cells: seq<(Frame, Frame) -> Frame>, hs: Frames, xs: Frames): (r: (Frames, Frames))
    requires |hs| == |cells|
    ensures |r.0| == |xs| && |r.1| == |cells|
    decreases |cells|
  {
    if cells == [] then (xs, [])
    else
      var ys := Scan(cells[0], hs[0], xs);
      var (out, rest) := Stack(cells[1..], hs[1..], ys);
      (out, [Last(hs[0], ys)] + rest)
  }

  function RunGru(g: Gru, hs: Frames, xs: Frames): (r: (Frames, Frames))
    requires |hs| == |g.cells|
    ensures |r.0| == |xs| && |r.1| == |g.cells|
  {
    var (out, hs') := Stack(g.cells, hs, Each(g.pre, xs));
    (Each2(g.post, xs, out), hs')
  }

  // ---------- Cutting in time ----------

  /** A convolution may be cut anywhere if the last `past` frames of what it has read are carried
      over, also when the first piece is shorter than `past`. */
  lemma ConvCut(f: Frames -> Frame, past: nat, ctx: Frames, xs: Frames, ys: Frames)
    requires |ctx| == past
    ensures Conv(f, past, ctx + (xs + ys)) == Conv(f, past, ctx + xs) + Conv(f, past, Tail(ctx + xs, past) + ys)
    ensures Tail(ctx + (xs + ys), past) == Tail(Tail(ctx + xs, past) + ys, past)
  {
    var all, left, right := ctx + (xs + ys), ctx + xs, Tail(ctx + xs, past) + ys;
    assert right == all[|xs|..];
    forall i | 0 <= i < |xs| + |ys|
      ensures Conv(f, past, all)[i] == (Conv(f, past, left) + Conv(f, past, right))[i]
    {
      if i < |xs| {
        assert all[i..i + past + 1] == left[i..i + past + 1];
      } else {
        var j := i - |xs|;
        assert all[i..i + past + 1] == all[|xs|..][j..j + past + 1];
      }
    }
  }

  lemma EachCut(f: Frame -> Frame, xs: Frames, ys: Frames)
    ensures Each(f, xs + ys) == Each(f, xs) + Each(f, ys)
  {
  }

  lemma Each2Cut(f: (Frame, Frame) -> Frame, xs: Frames, ys: Frames, us: Frames, vs: Frames)
    requires |xs| == |us| && |ys| == |vs|
    ensures Each2(f, xs + ys, us + vs) == Each2(f, xs, us) + Each2(f, ys, vs)
  {
  }

  lemma {:induction false} ScanCut(cell: (Frame, Frame) -> Frame, h: Frame, xs: Frames, ys: Frames)
    ensures Scan(cell, h, xs + ys) == Scan(cell, h, xs) + Scan(cell, Last(h, Scan(cell, h, xs)), ys)
    decreases |xs|
  {
    if xs == [] {
      assert xs + ys == ys;
    } else {
      var h' := cell(h, xs[0]);
      assert (xs + ys)[1..] == xs[1..] + ys;
      ScanCut(cell, h', xs[1..], ys);
      assert Last(h, Scan(cell, h, xs)) == Last(h', Scan(cell, h', xs[1..]));
    }
  }

  /** Layer by layer over the whole sequence equals both halves one after the other, hidden states
      threaded, for any number of stacked layers. */
  lemma {:induction false} StackCut(cells: seq<(Frame, Frame) -> Frame>, hs: Frames, xs: Frames, ys: Frames)
    requires |hs| == |cells|
    ensures var (o1, h1) := Stack(cells, hs, xs);
            var (o2, h2) := Stack(cells, h1, ys);
            Stack(cells, hs, xs + ys) == (o1 + o2, h2)
    decreases |cells|
  {
    if cells != [] {
      var us := Scan(cells[0], hs[0], xs);
      var h := Last(hs[0], us);
      var vs := Scan(cells[0], h, ys);
      ScanCut(cells[0], hs[0], xs, ys);
      StackCut(cells[1..], hs[1..], us, vs);
      var (o1, h1) := Stack(cells, hs, xs);
      assert h1[0] == h && h1[1..] == Stack(cells[1..], hs[1..], us).1;
      assert Last(hs[0], us + vs) == Last(h, vs);
    }
  }

  lemma GruCut(g: Gru, hs: Frames, xs: Frames, ys: Frames)
    requires |hs| == |g.cells|
    ensures var (o1, h1) := RunGru(g, hs, xs);
            var (o2, h2) := RunGru(g, h1, ys);
            RunGru(g, hs, xs + ys) == (o1 + o2, h2)
  {
    EachCut(g.pre, xs, ys);
    StackCut(g.cells, hs, Each(g.pre, xs), Each(g.pre, ys));
    var (o1, h1) := Stack(g.cells, hs, Each(g.pre, xs));
    Each2Cut(g.post, xs, ys, o1, Stack(g.cells, h1, Each(g.pre, ys)).0);
  }

  // ---------- The padding that was taken out ----------

  /** The original layer: `ConstantPad2d` puts `past` frames `zero` before the input, so frame t sees
      `zero` wherever t - past + j falls before the start. */
  function PaddedConvAt(f: Frames -> Frame, past: nat, zero: Frame, xs: Frames, t: nat): Frame
    requires t < |xs|
  {
    f(seq(past + 1, j requires 0 <= j < past + 1 => if t + j < past then zero else xs[t + j - past]))
  }

  /** Neutralising the pad and starting from a zero context computes the original layer. */
  lemma ZeroContextIsPadding(f: Frames -> Frame, past: nat, zero: Frame, xs: Frames, t: nat)
    requires t < |xs|
    ensures Conv(f, past, seq(past, _ => zero) + xs)[t] == PaddedConvAt(f, past, zero, xs, t)
  {
    var full := seq(past, _ => zero) + xs;
    assert full[t..t + past + 1]
        == seq(past + 1, j requires 0 <= j < past + 1 => if t + j < past then zero else xs[t + j - past]);
  }
}
