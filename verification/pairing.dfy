/** Which frames each task is built from, and what each side's differencing
    function has been fed. `k` is the number of tasks submitted before the
    one the cursors are about to build. */
module Pairing {
  import opened Base
  import opened Masks
  import opened Differencers
  import opened Process
  import opened Pending
  import opened Cursors
  import opened Silhouette
  import opened Pipeline

  /** A leading adjusted cursor (`d >= 1`): task `k` pairs normal frame `k`
      with adjusted frame `k + d - 1`; on the first task each previous frame
      is the current one, later it is the frame that cursor read before. */
  lemma LeadingPairs<F(!new), S(!new)>(v: Vision<F, S>, video: seq<F>, cfg: Config, m: Method, s: State<F, S>)
    requires Inv(v, video, cfg, m, s) && cfg.frameDifference >= 1 && !cfg.noSilhouette
    ensures var k := |Submitted(s)|;
      var d := cfg.frameDifference;
      var job := JobOf(s.cursors);
      && job.normal == At(video, k)
      && job.adjusted == At(video, k + d - 1)
      && (k == 0 ==> job.previousNormal == job.normal && job.previousAdjusted == job.adjusted)
      && (0 < k <= |video| ==> job.previousNormal == At(video, k - 1))
      && (0 < k && k + d - 1 <= |video| ==> job.previousAdjusted == At(video, k + d - 2))
  {
  }

  /** A lagging adjusted cursor (`d <= 0`): no adjusted frame until the
      counter has reached `1 - d` at the end of a tick, that is for the first
      `2 - d` tasks; then it reads from frame 0, whose previous frame is
      itself, and task `k` carries adjusted frame `k + d - 2`. */
  lemma LaggingPairs<F(!new), S(!new)>(v: Vision<F, S>, video: seq<F>, cfg: Config, m: Method, s: State<F, S>)
    requires Inv(v, video, cfg, m, s) && cfg.frameDifference <= 0 && !cfg.noSilhouette
    ensures var k := |Submitted(s)|;
      var d := cfg.frameDifference;
      var job := JobOf(s.cursors);
      && s.cursors.frameCounter == k
      && job.normal == At(video, k)
      && (s.cursors.hasInitialAdjusted <==> k >= 2 - d)
      && (k < 2 - d ==> job.adjusted.None? && job.previousAdjusted.None? && s.cursors.adjusted.pos == 0)
      && (k >= 2 - d ==> job.adjusted == At(video, k + d - 2))
      && (k == 2 - d ==> job.previousAdjusted == At(video, 0))
      && (2 - d < k && k + d - 2 <= |video| ==> job.previousAdjusted == At(video, k + d - 3))
  {
  }

  /** With the silhouette off the adjusted cursor is never read, and each
      task yields the normal mask alone while the adjusted function is left
      as it was. */
  lemma NoSilhouetteAlone<F(!new), S(!new)>(v: Vision<F, S>, video: seq<F>, cfg: Config, m: Method, s: State<F, S>)
    requires Inv(v, video, cfg, m, s) && cfg.noSilhouette
    ensures s.cursors.adjusted == Unstarted() && !s.cursors.hasInitialAdjusted
    ensures var job := JobOf(s.cursors);
      var p := ProcessFrame(v, job, s.fns);
      && job.adjusted.None?
      && p.combined == (if job.normal.Some? then Some(NormalMask(v, job, s.fns)) else None)
      && p.fns.adjusted == s.fns.adjusted
  {
  }

  /** The present adjusted frames of the first `k` tasks, oldest first. */
  function AdjustedFeed<F>(video: seq<F>, cfg: Config, k: nat): seq<F> {
    var d := cfg.frameDifference;
    if cfg.noSilhouette then []
    else if d >= 1 then video[Min(d - 1, |video|)..Min(k + d - 1, |video|)]
    else if k >= 2 - d then video[..Min(k + d - 2, |video|)]
    else []
  }

  /** Feeding one more frame is one more call. */
  lemma TrainedSnoc<F(!new), S(!new)>(v: Vision<F, S>, d: Differencer<S>, frames: seq<F>, x: F, previous: Option<F>)
    requires Valid(v) && CanApply(Trained(v, d, frames), previous)
    ensures Trained(v, d, frames + [x]) == Apply(v, Trained(v, d, frames), x, previous).0
  {
    assert (frames + [x])[..|frames|] == frames;
  }

  /** Each side owns its function: after `k` tasks the normal function has
      been fed exactly the normal frames, and the adjusted function exactly
      the adjusted frames, each once and in frame order, never the other
      side's. */
  lemma {:induction false} SequentialHistory<F(!new), S(!new)>(v: Vision<F, S>, video: seq<F>, cfg: Config, m: Method, k: nat)
    requires Valid(v)
    ensures Sequential(v, video, cfg, m, k).fns.normal == Trained(v, Build(v, m).normal, video[..Min(k, |video|)])
    ensures Sequential(v, video, cfg, m, k).fns.adjusted == Trained(v, Build(v, m).adjusted, AdjustedFeed(video, cfg, k))
  {
    if k > 0 {
      SequentialHistory(v, video, cfg, m, k - 1);
      var prior := Sequential(v, video, cfg, m, k - 1);
      var c := Expected(video, cfg.frameDifference, cfg.noSilhouette, k - 1);
      OnTrackUsable(video, cfg, c, prior.fns);
      NormalStep(v, video, cfg, m, k - 1, prior.fns);
      AdjustedStep(v, video, cfg, m, k - 1, prior.fns);
    }
  }

  /** The normal half of the induction step of `SequentialHistory`. */
  lemma NormalStep<F(!new), S(!new)>(v: Vision<F, S>, video: seq<F>, cfg: Config, m: Method, j: nat, fns: Pair<S>)
    requires Valid(v)
    requires fns.normal == Trained(v, Build(v, m).normal, video[..Min(j, |video|)])
    requires Usable(JobOf(Expected(video, cfg.frameDifference, cfg.noSilhouette, j)), fns)
    ensures var job := JobOf(Expected(video, cfg.frameDifference, cfg.noSilhouette, j));
      ProcessFrame(v, job, fns).fns.normal == Trained(v, Build(v, m).normal, video[..Min(j + 1, |video|)])
  {
    var job := JobOf(Expected(video, cfg.frameDifference, cfg.noSilhouette, j));
    if j < |video| {
      assert job.normal == Some(video[j]);
      assert video[..j + 1] == video[..j] + [video[j]];
      TrainedSnoc(v, Build(v, m).normal, video[..j], video[j], job.previousNormal);
    } else {
      assert job.normal.None?;
    }
  }

  /** The adjusted half of the induction step of `SequentialHistory`. */
  lemma AdjustedStep<F(!new), S(!new)>(v: Vision<F, S>, video: seq<F>, cfg: Config, m: Method, j: nat, fns: Pair<S>)
    requires Valid(v)
    requires fns.adjusted == Trained(v, Build(v, m).adjusted, AdjustedFeed(video, cfg, j))
    requires Usable(JobOf(Expected(video, cfg.frameDifference, cfg.noSilhouette, j)), fns)
    ensures var job := JobOf(Expected(video, cfg.frameDifference, cfg.noSilhouette, j));
      ProcessFrame(v, job, fns).fns.adjusted == Trained(v, Build(v, m).adjusted, AdjustedFeed(video, cfg, j + 1))
  {
    var d := cfg.frameDifference;
    var job := JobOf(Expected(video, d, cfg.noSilhouette, j));
    var before := AdjustedFeed(video, cfg, j);
    if job.adjusted.Some? {
      var i := if d >= 1 then j + d - 1 else j + d - 2;
      assert job.adjusted == At(video, i) && 0 <= i < |video|;
      assert AdjustedFeed(video, cfg, j + 1) == before + [video[i]];
      TrainedSnoc(v, Build(v, m).adjusted, before, video[i], job.previousAdjusted);
    } else {
      assert AdjustedFeed(video, cfg, j + 1) == before;
    }
  }
}
