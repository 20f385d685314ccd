/** The network as it was before it was cut into streaming wrappers, one output frame at a time: padded
    convolutions, per-frame layers, skip connections and GRUs whose hidden states are followed through
    time by recursion. Nothing here knows about chunks, contexts or whole-sequence layers; the wrappers
    are proved to compute it. */
module OriginalNetwork {
  import opened Common
  import opened Layers
  import opened Streaming

  // ---------- One frame at a time ----------

  /** The input features, and the silent frame of each kind that the padding inserts. */
  datatype Input = Input(erb: Frames, spec: Frames, zeroErb: Frame, zeroSpec: Frame, zeroC0: Frame) {
    predicate Matches() { |erb| == |spec| }
    predicate Has(t: nat) { Matches() && t < |erb| }
  }

  /** The hidden state of GRU layer l after frame t. */
  function Hidden(g: Gru, h0: Frames, x: Frames, l: nat, t: nat): Frame
    requires l < |g.cells| == |h0| && t < |x|
    decreases t, l
  {
    g.cells[l](if t == 0 then h0[l] else Hidden(g, h0, x, l, t - 1),
               if l == 0 then g.pre(x[t]) else Hidden(g, h0, x, l - 1, t))
  }

  function GruAt(g: Gru, h0: Frames, x: Frames, t: nat): Frame
    requires |g.cells| == |h0| && t < |x|
  {
    g.post(x[t], if |g.cells| == 0 then g.pre(x[t]) else Hidden(g, h0, x, |g.cells| - 1, t))
  }

  function E0(net: Net, x: Input, t: nat): Frame
    requires x.Has(t)
  {
    PaddedConvAt(net.enc.erbConv0, 2, x.zeroErb, x.erb, t)
  }

  function E1(net: Net, x: Input, t: nat): Frame
    requires x.Has(t)
  {
    net.enc.erbConv1(E0(net, x, t))
  }

  function E2(net: Net, x: Input, t: nat): Frame
    requires x.Has(t)
  {
    net.enc.erbConv2(E1(net, x, t))
  }

  function E3(net: Net, x: Input, t: nat): Frame
    requires x.Has(t)
  {
    net.enc.erbConv3(E2(net, x, t))
  }

  function C0(net: Net, x: Input, t: nat): Frame
    requires x.Has(t)
  {
    PaddedConvAt(net.enc.dfConv0, 2, x.zeroSpec, x.spec, t)
  }

  /** What goes into the encoder's GRU. */
  function Combined(net: Net, x: Input, t: nat): Frame
    requires x.Has(t)
  {
    net.enc.combine(E3(net, x, t), net.enc.dfFcEmb(net.enc.dfConv1(C0(net, x, t))))
  }

  function AllCombined(net: Net, x: Input): (xs: Frames)
    requires x.Matches()
    ensures |xs| == |x.erb|
  {
    seq(|x.erb|, t requires 0 <= t < |x.erb| => Combined(net, x, t))
  }

  /** The hidden states every GRU starts from. */
  datatype Rest = Rest(enc: Frames, erb: Frames, df: Frames) {
    predicate Fits(net: Net) {
      |enc| == |net.enc.embGru.cells| && |erb| == |net.erb.embGru.cells| && |df| == |net.df.dfGru.cells|
    }
  }

  function Emb(net: Net, x: Input, h: Rest, t: nat): Frame
    requires x.Has(t) && h.Fits(net)
  {
    GruAt(net.enc.embGru, h.enc, AllCombined(net, x), t)
  }

  function AllEmb(net: Net, x: Input, h: Rest): (xs: Frames)
    requires x.Matches() && h.Fits(net)
    ensures |xs| == |x.erb|
  {
    seq(|x.erb|, t requires 0 <= t < |x.erb| => Emb(net, x, h, t))
  }

  function Lsnr(net: Net, x: Input, h: Rest, t: nat): Frame
    requires x.Has(t) && h.Fits(net)
  {
    net.enc.lsnr(Emb(net, x, h, t))
  }

  /** The mask: the decoder's GRU, and one skip connection from each encoder stage. */
  function Mask(net: Net, x: Input, h: Rest, t: nat): Frame
    requires x.Has(t) && h.Fits(net)
  {
    var d := net.erb;
    var s4 := GruAt(d.embGru, h.erb, AllEmb(net, x, h), t);
    var s3 := d.convt3(d.add(d.conv3p(E3(net, x, t)), s4));
    var s2 := d.convt2(d.add(d.conv2p(E2(net, x, t)), s3));
    var s1 := d.convt1(d.add(d.conv1p(E1(net, x, t)), s2));
    d.conv0Out(d.add(d.conv0p(E0(net, x, t)), s1))
  }

  function AllC0(net: Net, x: Input): (xs: Frames)
    requires x.Matches()
    ensures |xs| == |x.erb|
  {
    seq(|x.erb|, t requires 0 <= t < |x.erb| => C0(net, x, t))
  }

  /** The filter coefficients: the third GRU, its optional skip, and the five-frame path from c0. */
  function Coefs(net: Net, x: Input, h: Rest, t: nat): Frame
    requires x.Has(t) && h.Fits(net)
  {
    var d := net.df;
    var g := GruAt(d.dfGru, h.df, AllEmb(net, x, h), t);
    var c := match d.dfSkip case None => g case Some(skip) => d.add(g, skip(Emb(net, x, h, t)));
    d.add(d.dfOut(c), PaddedConvAt(d.dfConvp, 4, x.zeroC0, AllC0(net, x), t))
  }

  // ---------- Layer by layer ----------

  lemma {:induction false} ScanAt(g: Gru, h0: Frames, x: Frames, ys: Frames, t: nat)
    requires |g.cells| == |h0| > 0 && |ys| == |x| && t < |x|
    requires forall i :: 0 <= i < |x| ==> ys[i] == g.pre(x[i])
    ensures Scan(g.cells[0], h0[0], ys)[t] == Hidden(g, h0, x, 0, t)
  {
    ScanNext(g.cells[0], h0[0], ys, t);
    if t > 0 { ScanAt(g, h0, x, ys, t - 1); }
  }

  lemma {:induction false} ScanNext(cell: (Frame, Frame) -> Frame, h: Frame, xs: Frames, t: nat)
    requires t < |xs|
    ensures Scan(cell, h, xs)[t] == cell(if t == 0 then h else Scan(cell, h, xs)[t - 1], xs[t])
    decreases t
  {
    if t > 0 { ScanNext(cell, cell(h, xs[0]), xs[1..], t - 1); }
  }

  function Identity(x: Frame): Frame { x }

  /** The layers above the first, fed with its hidden states. */
  function Above(g: Gru): Gru
    requires g.cells != []
  {
    Gru(Identity, g.cells[1..], g.post)
  }

  lemma {:induction false} HiddenAbove(g: Gru, h0: Frames, x: Frames, first: Frames, l: nat, t: nat)
    requires |g.cells| == |h0| && 0 < l < |g.cells| && t < |x| == |first|
    requires forall i :: 0 <= i < |x| ==> first[i] == Hidden(g, h0, x, 0, i)
    ensures Hidden(g, h0, x, l, t) == Hidden(Above(g), h0[1..], first, l - 1, t)
    decreases t, l
  {
    if t > 0 { HiddenAbove(g, h0, x, first, l, t - 1); }
    if l > 1 { HiddenAbove(g, h0, x, first, l - 1, t); }
  }

  /** The stacked layers give the top layer's hidden states, frame by frame, and each layer's last one. */
  lemma {:induction false} StackAt(g: Gru, h0: Frames, x: Frames, ys: Frames, t: nat)
    requires |g.cells| == |h0| && |ys| == |x| && t < |x|
    requires forall i :: 0 <= i < |x| ==> ys[i] == g.pre(x[i])
    ensures Stack(g.cells, h0, ys).0[t] == if g.cells == [] then ys[t] else Hidden(g, h0, x, |g.cells| - 1, t)
    decreases |g.cells|
  {
    if g.cells != [] {
      var first := Scan(g.cells[0], h0[0], ys);
      forall i | 0 <= i < |x| ensures first[i] == Hidden(g, h0, x, 0, i) {
        ScanAt(g, h0, x, ys, i);
      }
      StackAt(Above(g), h0[1..], first, first, t);
      if |g.cells| > 1 { HiddenAbove(g, h0, x, first, |g.cells| - 1, t); }
    }
  }

  lemma {:induction false} RunGruAt(g: Gru, h0: Frames, x: Frames, t: nat)
    requires |g.cells| == |h0| && t < |x|
    ensures RunGru(g, h0, x).0[t] == GruAt(g, h0, x, t)
  {
    StackAt(g, h0, x, Each(g.pre, x), t);
  }

  lemma {:induction false} RunGruAll(g: Gru, h0: Frames, x: Frames)
    requires |g.cells| == |h0|
    ensures forall t :: 0 <= t < |x| ==> RunGru(g, h0, x).0[t] == GruAt(g, h0, x, t)
  {
    forall t | 0 <= t < |x| ensures RunGru(g, h0, x).0[t] == GruAt(g, h0, x, t) {
      RunGruAt(g, h0, x, t);
    }
  }

  lemma {:induction false} ConvAll(f: Frames -> Frame, past: nat, zero: Frame, xs: Frames)
    ensures |Conv(f, past, Silence(past, zero) + xs)| == |xs|
    ensures forall t :: 0 <= t < |xs| ==> Conv(f, past, Silence(past, zero) + xs)[t] == PaddedConvAt(f, past, zero, xs, t)
  {
    forall t | 0 <= t < |xs| ensures Conv(f, past, Silence(past, zero) + xs)[t] == PaddedConvAt(f, past, zero, xs, t) {
      ZeroContextIsPadding(f, past, zero, xs, t);
    }
  }

  // ---------- The wrappers compute the network ----------

  function Silence(n: nat, zero: Frame): Frames {
    seq(n, _ => zero)
  }

  /** Zero contexts, and any hidden states. */
  function Fresh(x: Input, h: Rest): State {
    State(EncState(Silence(2, x.zeroErb), Silence(2, x.zeroSpec), h.enc), h.erb, DfState(Silence(4, x.zeroC0), h.df))
  }

  lemma {:induction false} EncoderIsOriginal(net: Net, x: Input, h: Rest)
    requires x.Matches() && h.Fits(net)
    ensures var o := Encode(net.enc, x.erb, x.spec, Fresh(x, h).enc).0;
            && o.c0 == AllC0(net, x) && o.emb == AllEmb(net, x, h)
            && forall t :: 0 <= t < |x.erb| ==>
                 o.e0[t] == E0(net, x, t) && o.e1[t] == E1(net, x, t) && o.e2[t] == E2(net, x, t)
                 && o.e3[t] == E3(net, x, t) && o.lsnr[t] == Lsnr(net, x, h, t)
  {
    var enc, s := net.enc, Fresh(x, h).enc;
    var o := Encode(enc, x.erb, x.spec, s).0;
    ConvAll(enc.erbConv0, 2, x.zeroErb, x.erb);
    ConvAll(enc.dfConv0, 2, x.zeroSpec, x.spec);
    var cemb := Each(enc.dfFcEmb, Each(enc.dfConv1, o.c0));
    var combined := Each2(enc.combine, o.e3, cemb);
    assert combined == AllCombined(net, x);
    RunGruAll(enc.embGru, h.enc, combined);
    assert o.emb == RunGru(enc.embGru, h.enc, combined).0;
  }

  lemma {:induction false} ErbDecoderIsOriginal(net: Net, x: Input, h: Rest, o: EncOut)
    requires x.Matches() && h.Fits(net)
    requires o == Encode(net.enc, x.erb, x.spec, Fresh(x, h).enc).0
    ensures forall t :: 0 <= t < |x.erb| ==> DecodeErb(net.erb, o, |x.erb|, h.erb).0[t] == Mask(net, x, h, t)
  {
    EncoderIsOriginal(net, x, h);
    RunGruAll(net.erb.embGru, h.erb, o.emb);
  }

  lemma {:induction false} DfDecoderIsOriginal(net: Net, x: Input, h: Rest, o: EncOut)
    requires x.Matches() && h.Fits(net)
    requires o == Encode(net.enc, x.erb, x.spec, Fresh(x, h).enc).0
    ensures forall t :: 0 <= t < |x.erb| ==>
              DecodeDf(net.df, o.emb, o.c0, Fresh(x, h).df).0[t] == Coefs(net, x, h, t)
  {
    EncoderIsOriginal(net, x, h);
    RunGruAll(net.df.dfGru, h.df, o.emb);
    ConvAll(net.df.dfConvp, 4, x.zeroC0, o.c0);
  }

  /** Every output of `o` at frame t is the original network's. */
  ghost predicate OriginalAt(net: Net, x: Input, h: Rest, o: Out, t: nat)
    requires x.Has(t) && h.Fits(net)
  {
    && t < |o.enc.e0| && o.enc.e0[t] == E0(net, x, t)
    && t < |o.enc.e1| && o.enc.e1[t] == E1(net, x, t)
    && t < |o.enc.e2| && o.enc.e2[t] == E2(net, x, t)
    && t < |o.enc.e3| && o.enc.e3[t] == E3(net, x, t)
    && t < |o.enc.c0| && o.enc.c0[t] == C0(net, x, t)
    && t < |o.enc.emb| && o.enc.emb[t] == Emb(net, x, h, t)
    && t < |o.enc.lsnr| && o.enc.lsnr[t] == Lsnr(net, x, h, t)
    && t < |o.m| && o.m[t] == Mask(net, x, h, t)
    && t < |o.coefs| && o.coefs[t] == Coefs(net, x, h, t)
  }

  /** One call on the whole sequence, from zero contexts, computes the original network at every frame. */
  lemma {:induction false} WholeIsOriginal(net: Net, x: Input, h: Rest, t: nat)
    requires x.Has(t) && h.Fits(net)
    ensures OriginalAt(net, x, h, Process(net, x.erb, x.spec, Fresh(x, h)).0, t)
  {
    var o := Encode(net.enc, x.erb, x.spec, Fresh(x, h).enc).0;
    EncoderIsOriginal(net, x, h);
    ErbDecoderIsOriginal(net, x, h, o);
    DfDecoderIsOriginal(net, x, h, o);
  }

  /** And so does the stream, for every chunking: each output frame, the mask's skip connections and the
      carried contexts included, is what the original network computes from the whole input. */
  lemma {:induction false} StreamIsOriginal(net: Net, x: Input, h: Rest, chunks: seq<Chunk>, t: nat)
    requires x.Has(t) && h.Fits(net) && Matched(chunks) && JoinErb(chunks) == x.erb && JoinSpec(chunks) == x.spec
    ensures OriginalAt(net, x, h, Stream(net, chunks, Fresh(x, h)).0, t)
  {
    StreamingEquivalence(net, chunks, Fresh(x, h));
    WholeIsOriginal(net, x, h, t);
  }
}
