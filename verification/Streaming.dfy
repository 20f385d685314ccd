/** The three streaming wrappers of the re-exported network, and the claim the re-export script
    spot-checks on one random input of eight frames: calling them piece by piece, with contexts and
    hidden states threaded through, equals one call on the whole sequence. */
module Streaming {
  import opened Common
  import opened Layers

  const CONV_CTX_ENC_ERB: nat := 2
  const CONV_CTX_ENC_DF: nat := 2
  const CONV_CTX_DF_DEC: nat := 4

  datatype Encoder = Encoder(
    erbConv0: Frames -> Frame, erbConv1: Frame -> Frame, erbConv2: Frame -> Frame, erbConv3: Frame -> Frame,
    dfConv0: Frames -> Frame, dfConv1: Frame -> Frame, dfFcEmb: Frame -> Frame,
    combine: (Frame, Frame) -> Frame, embGru: Gru, lsnr: Frame -> Frame)

  datatype ErbDecoder = ErbDecoder(
    embGru: Gru, add: (Frame, Frame) -> Frame,
    conv3p: Frame -> Frame, convt3: Frame -> Frame, conv2p: Frame -> Frame, convt2: Frame -> Frame,
    conv1p: Frame -> Frame, convt1: Frame -> Frame, conv0p: Frame -> Frame, conv0Out: Frame -> Frame)

  datatype DfDecoder = DfDecoder(
    dfGru: Gru, dfSkip: Option<Frame -> Frame>, dfConvp: Frames -> Frame, dfOut: Frame -> Frame,
    add: (Frame, Frame) -> Frame)

  datatype Net = Net(enc: Encoder, erb: ErbDecoder, df: DfDecoder)

  datatype EncOut = EncOut(e0: Frames, e1: Frames, e2: Frames, e3: Frames, emb: Frames, c0: Frames, lsnr: Frames) {
    predicate Length(n: nat) {
      |e0| == n && |e1| == n && |e2| == n && |e3| == n && |emb| == n && |c0| == n && |lsnr| == n
    }

    function Then(o: EncOut): EncOut {
      EncOut(e0 + o.e0, e1 + o.e1, e2 + o.e2, e3 + o.e3, emb + o.emb, c0 + o.c0, lsnr + o.lsnr)
    }
  }

  datatype EncState = EncState(erbCtx: Frames, specCtx: Frames, hEnc: Frames) {
    predicate Fits(enc: Encoder) {
      |erbCtx| == CONV_CTX_ENC_ERB && |specCtx| == CONV_CTX_ENC_DF && |hEnc| == |enc.embGru.cells|
    }
  }

  /** `StreamingEncoder.forward`. */
  function Encode(enc: Encoder, featErb: Frames, featSpec: Frames, s: EncState): (r: (EncOut, EncState))
    requires |featErb| == |featSpec| && s.Fits(enc)
    ensures r.0.Length(|featErb|) && r.1.Fits(enc)
  {
    var erbFull, specFull := s.erbCtx + featErb, s.specCtx + featSpec;
    var e0 := Conv(enc.erbConv0, CONV_CTX_ENC_ERB, erbFull);
    var e1 := Each(enc.erbConv1, e0);
    var e2 := Each(enc.erbConv2, e1);
    var e3 := Each(enc.erbConv3, e2);
    var c0 := Conv(enc.dfConv0, CONV_CTX_ENC_DF, specFull);
    var cemb := Each(enc.dfFcEmb, Each(enc.dfConv1, c0));
    var (emb, hEnc) := RunGru(enc.embGru, s.hEnc, Each2(enc.combine, e3, cemb));
    (EncOut(e0, e1, e2, e3, emb, c0, Each(enc.lsnr, emb)),
     EncState(Tail(erbFull, CONV_CTX_ENC_ERB), Tail(specFull, CONV_CTX_ENC_DF), hEnc))
  }

  /** `StreamingErbDecoder.forward`. */
  function DecodeErb(dec: ErbDecoder, x: EncOut, n: nat, hErb: Frames): (r: (Frames, Frames))
    requires x.Length(n) && |hErb| == |dec.embGru.cells|
    ensures |r.0| == n && |r.1| == |dec.embGru.cells|
  {
    var (emb2, hErb') := RunGru(dec.embGru, hErb, x.emb);
    var e3x := Each(dec.convt3, Each2(dec.add, Each(dec.conv3p, x.e3), emb2));
    var e2x := Each(dec.convt2, Each2(dec.add, Each(dec.conv2p, x.e2), e3x));
    var e1x := Each(dec.convt1, Each2(dec.add, Each(dec.conv1p, x.e1), e2x));
    (Each(dec.conv0Out, Each2(dec.add, Each(dec.conv0p, x.e0), e1x)), hErb')
  }

  datatype DfState = DfState(c0Ctx: Frames, hDf: Frames) {
    predicate Fits(dec: DfDecoder) {
      |c0Ctx| == CONV_CTX_DF_DEC && |hDf| == |dec.dfGru.cells|
    }
  }

  /** `StreamingDfDecoder.forward`. */
  function DecodeDf(dec: DfDecoder, emb: Frames, c0: Frames, s: DfState): (r: (Frames, DfState))
    requires |emb| == |c0| && s.Fits(dec)
    ensures |r.0| == |emb| && r.1.Fits(dec)
  {
    var (g, hDf) := RunGru(dec.dfGru, s.hDf, emb);
    var c := if dec.dfSkip.None? then g else Each2(dec.add, g, Each(dec.dfSkip.value, emb));
    var c0Full := s.c0Ctx + c0;
    (Each2(dec.add, Each(dec.dfOut, c), Conv(dec.dfConvp, CONV_CTX_DF_DEC, c0Full)),
     DfState(Tail(c0Full, CONV_CTX_DF_DEC), hDf))
  }

  datatype Out = Out(enc: EncOut, m: Frames, coefs: Frames) {
    function Then(o: Out): Out { Out(enc.Then(o.enc), m + o.m, coefs + o.coefs) }
  }

  datatype State = State(enc: EncState, hErb: Frames, df: DfState) {
    predicate Fits(net: Net) {
      enc.Fits(net.enc) && |hErb| == |net.erb.embGru.cells| && df.Fits(net.df)
    }
  }

  const Nothing := Out(EncOut([], [], [], [], [], [], []), [], [])

  /** One call of all three wrappers on a piece of the input. */
  function Process(net: Net, featErb: Frames, featSpec: Frames, s: State): (r: (Out, State))
    requires |featErb| == |featSpec| && s.Fits(net)
    ensures r.0.enc.Length(|featErb|) && |r.0.m| == |featErb| && |r.0.coefs| == |featErb| && r.1.Fits(net)
  {
    var (x, enc) := Encode(net.enc, featErb, featSpec, s.enc);
    var (m, hErb) := DecodeErb(net.erb, x, |featErb|, s.hErb);
    var (coefs, df) := DecodeDf(net.df, x.emb, x.c0, s.df);
    (Out(x, m, coefs), State(enc, hErb, df))
  }

  // ---------- Cutting each wrapper ----------

  lemma EncodeCut(enc: Encoder, a: Frames, b: Frames, u: Frames, v: Frames, s: EncState)
    requires |a| == |u| && |b| == |v| && s.Fits(enc)
    ensures var (x, s1) := Encode(enc, a, u, s);
            var (y, s2) := Encode(enc, b, v, s1);
            Encode(enc, a + b, u + v, s) == (x.Then(y), s2)
  {
    var (x, s1) := Encode(enc, a, u, s);
    var (y, s2) := Encode(enc, b, v, s1);
    ConvCut(enc.erbConv0, CONV_CTX_ENC_ERB, s.erbCtx, a, b);
    EachCut(enc.erbConv1, x.e0, y.e0);
    EachCut(enc.erbConv2, x.e1, y.e1);
    EachCut(enc.erbConv3, x.e2, y.e2);
    ConvCut(enc.dfConv0, CONV_CTX_ENC_DF, s.specCtx, u, v);
    var xc, yc := Each(enc.dfConv1, x.c0), Each(enc.dfConv1, y.c0);
    EachCut(enc.dfConv1, x.c0, y.c0);
    EachCut(enc.dfFcEmb, xc, yc);
    var xb, yb := Each(enc.dfFcEmb, xc), Each(enc.dfFcEmb, yc);
    Each2Cut(enc.combine, x.e3, y.e3, xb, yb);
    GruCut(enc.embGru, s.hEnc, Each2(enc.combine, x.e3, xb), Each2(enc.combine, y.e3, yb));
    EachCut(enc.lsnr, x.emb, y.emb);
  }

  /** One up-sampling stage of the ERB decoder. */
  lemma StageCut(add: (Frame, Frame) -> Frame, p: Frame -> Frame, t: Frame -> Frame,
                 xe: Frames, ye: Frames, xd: Frames, yd: Frames)
    requires |xe| == |xd| && |ye| == |yd|
    ensures Each(t, Each2(add, Each(p, xe + ye), xd + yd))
         == Each(t, Each2(add, Each(p, xe), xd)) + Each(t, Each2(add, Each(p, ye), yd))
  {
    EachCut(p, xe, ye);
    Each2Cut(add, Each(p, xe), Each(p, ye), xd, yd);
    EachCut(t, Each2(add, Each(p, xe), xd), Each2(add, Each(p, ye), yd));
  }

  lemma DecodeErbCut(dec: ErbDecoder, x: EncOut, n: nat, y: EncOut, k: nat, h: Frames)
    requires x.Length(n) && y.Length(k) && |h| == |dec.embGru.cells|
    ensures var (m1, h1) := DecodeErb(dec, x, n, h);
            var (m2, h2) := DecodeErb(dec, y, k, h1);
            DecodeErb(dec, x.Then(y), n + k, h) == (m1 + m2, h2)
  {
    GruCut(dec.embGru, h, x.emb, y.emb);
    var (x4, h1) := RunGru(dec.embGru, h, x.emb);
    var y4 := RunGru(dec.embGru, h1, y.emb).0;
    StageCut(dec.add, dec.conv3p, dec.convt3, x.e3, y.e3, x4, y4);
    var x3 := Each(dec.convt3, Each2(dec.add, Each(dec.conv3p, x.e3), x4));
    var y3 := Each(dec.convt3, Each2(dec.add, Each(dec.conv3p, y.e3), y4));
    StageCut(dec.add, dec.conv2p, dec.convt2, x.e2, y.e2, x3, y3);
    var x2 := Each(dec.convt2, Each2(dec.add, Each(dec.conv2p, x.e2), x3));
    var y2 := Each(dec.convt2, Each2(dec.add, Each(dec.conv2p, y.e2), y3));
    StageCut(dec.add, dec.conv1p, dec.convt1, x.e1, y.e1, x2, y2);
    var x1 := Each(dec.convt1, Each2(dec.add, Each(dec.conv1p, x.e1), x2));
    var y1 := Each(dec.convt1, Each2(dec.add, Each(dec.conv1p, y.e1), y2));
    StageCut(dec.add, dec.conv0p, dec.conv0Out, x.e0, y.e0, x1, y1);
  }

  lemma DecodeDfCut(dec: DfDecoder, a: Frames, b: Frames, u: Frames, v: Frames, s: DfState)
    requires |a| == |u| && |b| == |v| && s.Fits(dec)
    ensures var (c1, s1) := DecodeDf(dec, a, u, s);
            var (c2, s2) := DecodeDf(dec, b, v, s1);
            DecodeDf(dec, a + b, u + v, s) == (c1 + c2, s2)
  {
    GruCut(dec.dfGru, s.hDf, a, b);
    ConvCut(dec.dfConvp, CONV_CTX_DF_DEC, s.c0Ctx, u, v);
    var (g1, h1) := RunGru(dec.dfGru, s.hDf, a);
    var g2 := RunGru(dec.dfGru, h1, b).0;
    var d1, d2 := g1, g2;
    if dec.dfSkip.Some? {
      EachCut(dec.dfSkip.value, a, b);
      Each2Cut(dec.add, g1, g2, Each(dec.dfSkip.value, a), Each(dec.dfSkip.value, b));
      d1 := Each2(dec.add, g1, Each(dec.dfSkip.value, a));
      d2 := Each2(dec.add, g2, Each(dec.dfSkip.value, b));
    }
    EachCut(dec.dfOut, d1, d2);
    var s1 := DecodeDf(dec, a, u, s).1;
    Each2Cut(dec.add, Each(dec.dfOut, d1), Each(dec.dfOut, d2),
             Conv(dec.dfConvp, CONV_CTX_DF_DEC, s.c0Ctx + u), Conv(dec.dfConvp, CONV_CTX_DF_DEC, s1.c0Ctx + v));
  }

  /** One cut: processing two pieces in turn equals processing them joined. */
  lemma ProcessCut(net: Net, a: Frames, b: Frames, u: Frames, v: Frames, s: State)
    requires |a| == |u| && |b| == |v| && s.Fits(net)
    ensures var (x, s1) := Process(net, a, u, s);
            var (y, s2) := Process(net, b, v, s1);
            Process(net, a + b, u + v, s) == (x.Then(y), s2)
  {
    EncodeCut(net.enc, a, b, u, v, s.enc);
    var (x, e1) := Encode(net.enc, a, u, s.enc);
    var y := Encode(net.enc, b, v, e1).0;
    DecodeErbCut(net.erb, x, |a|, y, |b|, s.hErb);
    DecodeDfCut(net.df, x.emb, y.emb, x.c0, y.c0, s.df);
  }

  lemma ProcessNothing(net: Net, s: State)
    requires s.Fits(net)
    ensures Process(net, [], [], s) == (Nothing, s)
  {
    StackNothing(net.enc.embGru.cells, s.enc.hEnc);
    StackNothing(net.erb.embGru.cells, s.hErb);
    StackNothing(net.df.dfGru.cells, s.df.hDf);
    assert s.enc.erbCtx + [] == s.enc.erbCtx && s.enc.specCtx + [] == s.enc.specCtx && s.df.c0Ctx + [] == s.df.c0Ctx;
  }

  lemma {:induction false} StackNothing(cells: seq<(Frame, Frame) -> Frame>, hs: Frames)
    requires |hs| == |cells|
    ensures Stack(cells, hs, []) == ([], hs)
    decreases |cells|
  {
    if cells != [] {
      StackNothing(cells[1..], hs[1..]);
      assert hs == [hs[0]] + hs[1..];
    }
  }

  // ---------- Any chunking ----------

  /** A chunk of input: ERB and spectrum features of equally many frames. */
  datatype Chunk = Chunk(erb: Frames, spec: Frames)

  predicate Matched(chunks: seq<Chunk>) {
    forall i :: 0 <= i < |chunks| ==> |chunks[i].erb| == |chunks[i].spec|
  }

  function JoinErb(chunks: seq<Chunk>): Frames {
    if chunks == [] then [] else chunks[0].erb + JoinErb(chunks[1..])
  }

  function JoinSpec(chunks: seq<Chunk>): Frames {
    if chunks == [] then [] else chunks[0].spec + JoinSpec(chunks[1..])
  }

  lemma {:induction false} JoinMatched(chunks: seq<Chunk>)
    requires Matched(chunks)
    ensures |JoinErb(chunks)| == |JoinSpec(chunks)|
  {
    if chunks != [] { JoinMatched(chunks[1..]); }
  }

  /** Chunk after chunk, outputs concatenated, state threaded. */
  function Stream(net: Net, chunks: seq<Chunk>, s: State): (Out, State)
    requires Matched(chunks) && s.Fits(net)
    decreases |chunks|
  {
    if chunks == [] then (Nothing, s)
    else
      var (x, s1) := Process(net, chunks[0].erb, chunks[0].spec, s);
      var (y, s2) := Stream(net, chunks[1..], s1);
      (x.Then(y), s2)
  }

  /** Streaming equivalence, for every network, input, initial state and chunking, chunks shorter
      than the contexts included: same outputs of every layer and same final states. */
  lemma {:induction false} StreamingEquivalence(net: Net, chunks: seq<Chunk>, s: State)
    requires Matched(chunks) && s.Fits(net)
    ensures |JoinErb(chunks)| == |JoinSpec(chunks)|
    ensures Stream(net, chunks, s) == Process(net, JoinErb(chunks), JoinSpec(chunks), s)
    decreases |chunks|
  {
    JoinMatched(chunks);
    if chunks == [] {
      ProcessNothing(net, s);
    } else {
      var s1 := Process(net, chunks[0].erb, chunks[0].spec, s).1;
      JoinMatched(chunks[1..]);
      StreamingEquivalence(net, chunks[1..], s1);
      ProcessCut(net, chunks[0].erb, JoinErb(chunks[1..]), chunks[0].spec, JoinSpec(chunks[1..]), s);
    }
  }

  lemma Slices(xs: Frames, i: nat, j: nat)
    requires i <= j <= |xs|
    ensures xs[..j] == xs[..i] + xs[i..j]
  {
  }

  /** A cut of inputs that are known to be sums. */
  lemma ProcessSum(net: Net, erb: Frames, a: Frames, b: Frames, spec: Frames, u: Frames, v: Frames, s: State)
    requires |a| == |u| && |b| == |v| && s.Fits(net) && erb == a + b && spec == u + v
    ensures var (x, s1) := Process(net, a, u, s);
            var (y, s2) := Process(net, b, v, s1);
            Process(net, erb, spec, s) == (x.Then(y), s2)
  {
    ProcessCut(net, a, b, u, v, s);
  }

  /** The prefix form of a cut. */
  lemma PrefixCut(net: Net, erb: Frames, spec: Frames, s: State, i: nat, j: nat)
    requires |erb| == |spec| && i <= j <= |erb| && s.Fits(net)
    ensures var (x, s1) := Process(net, erb[..i], spec[..i], s);
            var (y, s2) := Process(net, erb[i..j], spec[i..j], s1);
            Process(net, erb[..j], spec[..j], s) == (x.Then(y), s2)
  {
    Slices(erb, i, j);
    Slices(spec, i, j);
    ProcessSum(net, erb[..j], erb[..i], erb[i..j], spec[..j], spec[..i], spec[i..j], s);
  }

  /** Causality: the first t output frames depend on the first t input frames only. */
  lemma Causality(net: Net, erb: Frames, spec: Frames, s: State, t: nat)
    requires |erb| == |spec| && t <= |erb| && s.Fits(net)
    ensures var whole, part := Process(net, erb, spec, s).0, Process(net, erb[..t], spec[..t], s).0;
            part.m == whole.m[..t] && part.coefs == whole.coefs[..t] && part.enc.lsnr == whole.enc.lsnr[..t]
  {
    CausalityOf(net, erb, erb[..t], erb[t..], spec, spec[..t], spec[t..], s);
  }

  lemma CausalityOf(net: Net, erb: Frames, a: Frames, b: Frames, spec: Frames, u: Frames, v: Frames, s: State)
    requires |a| == |u| && |b| == |v| && s.Fits(net) && erb == a + b && spec == u + v
    ensures var whole, part := Process(net, erb, spec, s).0, Process(net, a, u, s).0;
            part.m == whole.m[..|a|] && part.coefs == whole.coefs[..|a|] && part.enc.lsnr == whole.enc.lsnr[..|a|]
  {
    ProcessSum(net, erb, a, b, spec, u, v, s);
  }

  // ---------- The script's own loop ----------

  /** The three result buffers. */
  class Buffers {
    const e0: array<Frame>
    const m: array<Frame>
    const coefs: array<Frame>

    constructor (n: nat)
      ensures Sized(n) && fresh(e0) && fresh(m) && fresh(coefs)
    {
      e0, m, coefs := new Frame[n](_ => []), new Frame[n](_ => []), new Frame[n](_ => []);
    }

    predicate Sized(n: nat) {
      && e0.Length == n && m.Length == n && coefs.Length == n
      && e0 != m && m != coefs && e0 != coefs
    }

    /** The first `t` frames hold exactly these outputs. */
    ghost predicate Hold(t: nat, o: Out)
      reads e0, m, coefs
    {
      && t <= e0.Length && t <= m.Length && t <= coefs.Length
      && e0[..t] == o.enc.e0 && m[..t] == o.m && coefs[..t] == o.coefs
    }

    method Write(t: nat, o: Out, ghost sofar: Out)
      requires t < e0.Length && Sized(e0.Length) && Hold(t, sofar)
      requires |o.enc.e0| == 1 && |o.m| == 1 && |o.coefs| == 1
      modifies e0, m, coefs
      ensures Hold(t + 1, sofar.Then(o))
    {
      e0[t] := o.enc.e0[0];
      m[t] := o.m[0];
      coefs[t] := o.coefs[0];
      assert e0[..t + 1] == e0[..t] + o.enc.e0;
      assert m[..t + 1] == m[..t] + o.m;
      assert coefs[..t + 1] == coefs[..t] + o.coefs;
    }
  }

  /** The loop body's three calls on one piece of input. */
  method Call(net: Net, fe: Frames, fs: Frames, s: State) returns (o: Out, next: State)
    requires |fe| == |fs| && s.Fits(net)
    ensures (o, next) == Process(net, fe, fs, s)
  {
    var (x, enc) := Encode(net.enc, fe, fs, s.enc);
    var (m, hErb) := DecodeErb(net.erb, x, |fe|, s.hErb);
    var (coefs, df) := DecodeDf(net.df, x.emb, x.c0, s.df);
    o, next := Out(x, m, coefs), State(enc, hErb, df);
  }

  /** After `t` frames the buffers and the threaded state are those of one call on `t` frames. */
  ghost predicate Reached(net: Net, erb: Frames, spec: Frames, s0: State, t: nat, s: State, out: Buffers)
    requires |erb| == |spec| && s0.Fits(net)
    reads out.e0, out.m, out.coefs
  {
    && t <= |erb| && out.Sized(|erb|) && s.Fits(net)
    && Process(net, erb[..t], spec[..t], s0).1 == s
    && out.Hold(t, Process(net, erb[..t], spec[..t], s0).0)
  }

  method FrameStep(net: Net, erb: Frames, spec: Frames, ghost s0: State, t: nat, s: State, out: Buffers)
    returns (next: State)
    requires |erb| == |spec| && s0.Fits(net) && t < |erb| && Reached(net, erb, spec, s0, t, s, out)
    modifies out.e0, out.m, out.coefs
    ensures Reached(net, erb, spec, s0, t + 1, next, out)
  {
    ghost var ref := Process(net, erb[..t], spec[..t], s0).0;
    PrefixCut(net, erb, spec, s0, t, t + 1);
    var o;
    o, next := Call(net, erb[t..t + 1], spec[t..t + 1], s);
    out.Write(t, o, ref);
  }

  lemma ReachedStart(net: Net, erb: Frames, spec: Frames, s: State, out: Buffers)
    requires |erb| == |spec| && s.Fits(net) && out.Sized(|erb|)
    ensures Reached(net, erb, spec, s, 0, s, out)
  {
    ProcessNothing(net, s);
  }

  lemma ReachedEnd(net: Net, erb: Frames, spec: Frames, s0: State, s: State, out: Buffers)
    requires |erb| == |spec| && s0.Fits(net) && Reached(net, erb, spec, s0, |erb|, s, out)
    ensures out.Hold(|erb|, Process(net, erb, spec, s0).0) && s == Process(net, erb, spec, s0).1
  {
    assert erb[..|erb|] == erb && spec[..|erb|] == spec;
  }

  /** The streaming half of `verify_streaming_equivalence`: one frame per call, results written into
      preallocated buffers. They end up holding the batched reference, for any number of frames. */
  method StreamFrames(net: Net, erb: Frames, spec: Frames, s0: State, out: Buffers) returns (s: State)
    requires |erb| == |spec| && s0.Fits(net) && out.Sized(|erb|)
    modifies out.e0, out.m, out.coefs
    ensures out.Hold(|erb|, Process(net, erb, spec, s0).0)
    ensures s == Process(net, erb, spec, s0).1
  {
    s := s0;
    ReachedStart(net, erb, spec, s0, out);
    for t := 0 to |erb|
      invariant Reached(net, erb, spec, s0, t, s, out)
    {
      s := FrameStep(net, erb, spec, s0, t, s, out);
    }
    ReachedEnd(net, erb, spec, s0, s, out);
  }
}
