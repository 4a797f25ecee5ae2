/** Whole runs of `create_silhouette`, compared with a reference: the
    sequential pipeline that processes the `k`-th frame pair as the `k`-th
    task, with no window and no threads. */
module Pipeline {
  import opened Base
  import opened Masks
  import opened Differencers
  import opened Process
  import opened Pending
  import opened Cursors
  import opened Silhouette

  /** The outputs of the first `k` tasks and the differencing functions
      after them. */
  datatype Reference<S> = Reference(outputs: seq<Option<Mask>>, fns: Pair<S>)

  /** The sequential pipeline: task `k` is built from the cursors after `k`
      submissions and processed right away. */
  function Sequential<F(!new), S(!new)>(v: Vision<F, S>, video: seq<F>, cfg: Config, m: Method, k: nat): (r: Reference<S>)
    requires Valid(v)
    ensures |r.outputs| == k
    ensures r.fns.normal.AbsDiffer? <==> m == AbsDiffMethod
    ensures r.fns.adjusted.AbsDiffer? <==> m == AbsDiffMethod
    decreases k
  {
    if k == 0 then Reference([], Build(v, m))
    else
      var prior := Sequential(v, video, cfg, m, k - 1);
      var c := Expected(video, cfg.frameDifference, cfg.noSilhouette, k - 1);
      OnTrackUsable(video, cfg, c, prior.fns);
      var p := ProcessFrame(v, JobOf(c), prior.fns);
      Reference(prior.outputs + [p.combined], p.fns)
  }

  /** The reference depends on the configuration only through the frame
      difference and the silhouette switch: the worker count and the
      threading mode do not change what is computed. */
  lemma {:induction false} SequentialConfigIndependent<F(!new), S(!new)>(v: Vision<F, S>, video: seq<F>, c1: Config, c2: Config, m: Method, k: nat)
    requires Valid(v)
    requires c1.frameDifference == c2.frameDifference && c1.noSilhouette == c2.noSilhouette
    ensures Sequential(v, video, c1, m, k) == Sequential(v, video, c2, m, k)
  {
    if k > 0 {
      SequentialConfigIndependent(v, video, c1, c2, m, k - 1);
    }
  }

  /** The loop invariant: the cursors are on track after `k` submissions,
      every value submitted so far is the sequential pipeline's, in order, the
      functions are in the sequential pipeline's state, the window is within
      bounds, and it holds `DummyTask`s exactly in single-threaded mode. */
  ghost predicate Inv<F(!new), S(!new)>(v: Vision<F, S>, video: seq<F>, cfg: Config, m: Method, s: State<F, S>) {
    && Valid(v)
    && OnTrack(video, cfg, s.cursors)
    && Usable(JobOf(s.cursors), s.fns)
    && Submitted(s) == Sequential(v, video, cfg, m, s.cursors.normal.pos - 1).outputs
    && s.fns == Sequential(v, video, cfg, m, s.cursors.normal.pos - 1).fns
    && |s.pending| <= cfg.workers
    && (forall i :: 0 <= i < |s.pending| ==> s.pending[i].dummy == !cfg.multithreaded)
  }

  /** The state before the loop satisfies the invariant. */
  lemma StartInv<F(!new), S(!new)>(v: Vision<F, S>, video: seq<F>, methodName: string, cfg: Config)
    requires Valid(v) && methodName in MethodNames
    ensures Start(v, video, methodName, cfg).Success?
    ensures Inv(v, video, cfg, ParseMethod(methodName).value, Start(v, video, methodName, cfg).value)
  {
    var s := Start(v, video, methodName, cfg).value;
    OnTrackUsable(video, cfg, s.cursors, s.fns);
  }

  /** Draining keeps the invariant: only values leave the window. */
  lemma PollInv<F(!new), S(!new)>(v: Vision<F, S>, video: seq<F>, cfg: Config, m: Method, s: State<F, S>, ready: seq<bool>)
    requires Inv(v, video, cfg, m, s)
    ensures Inv(v, video, cfg, m, Poll(s, ready))
  {
    var polled := Poll(s, ready);
    assert polled.pending == s.pending[|s.pending| - |polled.pending|..];
    forall i | 0 <= i < |polled.pending|
      ensures polled.pending[i].dummy == !cfg.multithreaded
    {
      assert polled.pending[i] == s.pending[|s.pending| - |polled.pending| + i];
    }
  }

  /** A submission keeps the invariant: the new task is the next task of the
      sequential pipeline. */
  lemma SubmitInv<F(!new), S(!new)>(v: Vision<F, S>, video: seq<F>, cfg: Config, m: Method, s: State<F, S>)
    requires Inv(v, video, cfg, m, s) && |s.pending| < cfg.workers
    ensures Inv(v, video, cfg, m, Submit(v, video, cfg, s))
  {
    var k := s.cursors.normal.pos - 1;
    AdvanceExpected(video, cfg.frameDifference, cfg.noSilhouette, k);
    var t := Submit(v, video, cfg, s);
    assert t.cursors.normal.pos - 1 == k + 1;
    OnTrackUsable(video, cfg, t.cursors, t.fns);
  }

  /** Every tick keeps the invariant, whatever the oracle says. */
  lemma StepInv<F(!new), S(!new)>(v: Vision<F, S>, video: seq<F>, cfg: Config, m: Method, s: State<F, S>, input: Input)
    requires Inv(v, video, cfg, m, s)
    ensures Inv(v, video, cfg, m, Step(v, video, cfg, s, input).state)
  {
    if !Exhausted(cfg.frameDifference, s.cursors) {
      var polled := Poll(s, input.ready);
      PollInv(v, video, cfg, m, s, input.ready);
      if |polled.pending| < cfg.workers {
        SubmitInv(v, video, cfg, m, polled);
      }
    }
  }
}
