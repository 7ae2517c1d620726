/** The parallel decoder with the frame decoder in it: what comes out when frames go in (dst_decoder.c with
    DST_FramDSTDecode as its workers call it). */
module ParallelDecoding {
  import opened Bits
  import L = FrameLayout
  import K = Coefs
  import C = FrameCodec
  import D = FrameDecoding
  import P = Pipeline
  import PT = PipelineTheorems
  import PP = PipelineProgress

  const SPACE := 65536                 // bytes of a space in either pool

  /** What a worker makes of a frame: the error, and the decoded frame or silence. */
  ghost function DstDecode(c: L.Config, data: Bytes): P.Decoded
    requires L.Usual(c)
  {
    var r := D.DecodeFrame(c, data);
    if r.Undefined? then P.Decoded(0, []) else P.Decoded(if r.Done? then 0 else r.error, D.Output(c, r))
  }

  /** The decoder set up for these frames. */
  ghost function Decoder(c: L.Config, procs: nat, frames: seq<Bytes>, reports: bool): P.Config
    requires L.Usual(c)
  {
    P.Config(procs, frames, data => DstDecode(c, data), reports)
  }

  /** The callbacks that the first k frames should make, by what their bytes code. */
  ghost function CallsFor(c: L.Config, frames: seq<Bytes>, reports: bool, k: nat): seq<P.Call>
    requires L.Usual(c) && k <= |frames|
    requires forall i :: 0 <= i < |frames| ==> !D.DecodeFrame(c, frames[i]).Undefined?
  {
    if k == 0 then []
    else
      var r := D.DecodeFrame(c, frames[k - 1]);
      CallsFor(c, frames, reports, k - 1)
      + (if r.Fail? && r.error != 0 && reports then [P.ErrorCall(k - 1, r.error)] else [])
      + [P.FrameCall(D.Output(c, r))]
  }

  lemma {:induction false} ExpectedIsCalls(c: L.Config, procs: nat, frames: seq<Bytes>, reports: bool, k: nat)
    requires L.Usual(c) && k <= |frames|
    requires forall i :: 0 <= i < |frames| ==> !D.DecodeFrame(c, frames[i]).Undefined?
    ensures P.Expected(Decoder(c, procs, frames, reports), k) == CallsFor(c, frames, reports, k)
  {
    hide D.DecodeFrame, D.Output;
    if k > 0 { ExpectedIsCalls(c, procs, frames, reports, k - 1); }
  }

  /** In every interleaving the callbacks are those of the decoded frames, in submission order, and all of
      them once the writer has exited, which it does whenever no thread can move and some worker lives. */
  lemma DecodedInOrder(c: L.Config, procs: nat, frames: seq<Bytes>, reports: bool, actions: seq<P.Action>, s: P.State)
    requires L.Usual(c)
    requires forall i :: 0 <= i < |frames| ==> |frames[i]| <= SPACE && !D.DecodeFrame(c, frames[i]).Undefined?
    requires var d := Decoder(c, procs, frames, reports); PT.Run(d, P.Init(d), actions, s)
    ensures s.calls <= CallsFor(c, frames, reports, |frames|)
    ensures s.writer.Exited? ==> s.calls == CallsFor(c, frames, reports, |frames|)
    ensures !PP.CanMove(Decoder(c, procs, frames, reports), s) ==> ((exists w: nat :: PP.Alive(s, w)) <==> s.writer.Exited?)
  {
    hide PT.Run, P.Expected, D.DecodeFrame, PP.CanMove;
    var d := Decoder(c, procs, frames, reports);
    PT.DeliveredInOrder(d, actions, s);
    ExpectedIsCalls(c, procs, frames, reports, |frames|);
    if !PP.CanMove(d, s) { PP.DeliversAll(d, actions, s); }
  }

  /* Encoded frames. */

  /** A frame and how it is coded. */
  datatype Coded = Coded(h: C.Header, fc: seq<K.Coding>, pc: seq<K.Coding>, frame: Bytes, first: Bit)

  /** One that the decoder rebuilds and whose bytes fit a space. */
  ghost predicate Faithful(x: Coded, c: L.Config) {
    && D.WritableHeader(x.h, c, x.fc, x.pc) && |x.frame| == D.FrameSize(c) && C.Good(x.h, c)
    && D.ProbabilitiesKept(x.h, c, x.fc, x.pc, x.frame) && D.FrameFits(x.h, c, x.frame)
    && D.CodeFits(x.h, c, x.fc, x.pc, x.frame, x.first)
    && |D.EncodeFrame(x.h, c, x.fc, x.pc, x.frame, x.first)| <= SPACE
  }

  ghost predicate AllFaithful(xs: seq<Coded>, c: L.Config) {
    forall i {:trigger xs[i]} :: 0 <= i < |xs| ==> Faithful(xs[i], c)
  }

  ghost function Submission(xs: seq<Coded>, c: L.Config): (f: seq<Bytes>)
    requires AllFaithful(xs, c)
    ensures |f| == |xs|
  {
    seq(|xs|, i requires 0 <= i < |xs| =>
      assert Faithful(xs[i], c);
      D.EncodeFrame(xs[i].h, c, xs[i].fc, xs[i].pc, xs[i].frame, xs[i].first))
  }

  /** The frames themselves. */
  function FramesOf(xs: seq<Coded>): seq<P.Call> {
    seq(|xs|, i requires 0 <= i < |xs| => P.FrameCall(xs[i].frame))
  }

  lemma FrameComesBack(xs: seq<Coded>, c: L.Config, i: nat)
    requires L.Usual(c) && AllFaithful(xs, c) && i < |xs|
    ensures |Submission(xs, c)[i]| <= SPACE
    ensures var r := D.DecodeFrame(c, Submission(xs, c)[i]); r.Done? && r.value == xs[i].frame
  {
    hide D.DecodeFrame, D.EncodeFrame, D.WritableHeader, D.FrameFits, D.CodeFits, D.ProbabilitiesKept, C.Good;
    var x := xs[i];
    assert Faithful(x, c);
    D.Lossless(x.h, c, x.fc, x.pc, x.frame, x.first);
  }

  lemma {:induction false} CallsAreFrames(xs: seq<Coded>, c: L.Config, reports: bool, k: nat)
    requires L.Usual(c) && AllFaithful(xs, c) && k <= |xs|
    requires forall i :: 0 <= i < |xs| ==> !D.DecodeFrame(c, Submission(xs, c)[i]).Undefined?
    ensures CallsFor(c, Submission(xs, c), reports, k) == FramesOf(xs)[..k]
  {
    hide D.DecodeFrame, AllFaithful, Submission;
    if k > 0 {
      CallsAreFrames(xs, c, reports, k - 1);
      FrameComesBack(xs, c, k - 1);
      assert FramesOf(xs)[..k] == FramesOf(xs)[..k - 1] + [FramesOf(xs)[k - 1]];
    }
  }

  /** Encode any frames, submit them, and let any number of workers decode them in any interleaving: the
      frames come back in order, unchanged and without an error, all of them once the writer has exited. */
  lemma FramesComeBack(xs: seq<Coded>, c: L.Config, procs: nat, reports: bool, actions: seq<P.Action>, s: P.State)
    requires L.Usual(c) && AllFaithful(xs, c)
    requires var d := Decoder(c, procs, Submission(xs, c), reports); PT.Run(d, P.Init(d), actions, s)
    ensures s.calls <= FramesOf(xs) && (s.writer.Exited? ==> s.calls == FramesOf(xs))
  {
    hide D.DecodeFrame, AllFaithful, Submission, PT.Run;
    forall i | 0 <= i < |xs| ensures |Submission(xs, c)[i]| <= SPACE && !D.DecodeFrame(c, Submission(xs, c)[i]).Undefined? {
      FrameComesBack(xs, c, i);
    }
    DecodedInOrder(c, procs, Submission(xs, c), reports, actions, s);
    CallsAreFrames(xs, c, reports, |xs|);
    assert FramesOf(xs)[..|xs|] == FramesOf(xs);
  }
}
