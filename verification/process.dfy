/** `process_frame`: difference each present frame against its predecessor
    with its side's function, then composite the two masks. */
module Process {
  import opened Base
  import opened Masks
  import opened Differencers

  /** The arguments a task is built from: each side's current and previous
      frame (`None` where a stream has not started or has ended). */
  datatype Job<F> = Job(
    normal: Option<F>,
    previousNormal: Option<F>,
    adjusted: Option<F>,
    previousAdjusted: Option<F>)

  /** The composited mask (absent when neither frame is present) and the
      state of both differencing functions after the call. */
  datatype Processed<S> = Processed(combined: Option<Mask>, fns: Pair<S>)

  /** Absdiff is only ever called on a side whose previous frame exists. */
  predicate Usable<F, S>(job: Job<F>, fns: Pair<S>) {
    && (job.normal.Some? ==> CanApply(fns.normal, job.previousNormal))
    && (job.adjusted.Some? ==> CanApply(fns.adjusted, job.previousAdjusted))
  }

  /** The mask of the normal side, when its frame is present. */
  function NormalMask<F(!new), S(!new)>(v: Vision<F, S>, job: Job<F>, fns: Pair<S>): Mask
    requires Valid(v) && Usable(job, fns) && job.normal.Some?
  {
    Apply(v, fns.normal, job.normal.value, job.previousNormal).1
  }

  /** The mask of the adjusted side, when its frame is present. */
  function AdjustedMask<F(!new), S(!new)>(v: Vision<F, S>, job: Job<F>, fns: Pair<S>): Mask
    requires Valid(v) && Usable(job, fns) && job.adjusted.Some?
  {
    Apply(v, fns.adjusted, job.adjusted.value, job.previousAdjusted).1
  }

  function ProcessFrame<F(!new), S(!new)>(v: Vision<F, S>, job: Job<F>, fns: Pair<S>): (r: Processed<S>)
    requires Valid(v) && Usable(job, fns)
    // no frame, no output
    ensures r.combined.None? <==> job.normal.None? && job.adjusted.None?
    ensures r.combined.Some? ==> |r.combined.value| == v.size
    // one frame: its side's mask passes through unchanged
    ensures job.normal.Some? && job.adjusted.None? ==> r.combined == Some(NormalMask(v, job, fns))
    ensures job.normal.None? && job.adjusted.Some? ==> r.combined == Some(AdjustedMask(v, job, fns))
    // two frames: their saturating sum, in either order
    ensures job.normal.Some? && job.adjusted.Some? ==>
      r.combined == Some(Merge(AdjustedMask(v, job, fns), NormalMask(v, job, fns)))
    // each side's function is called once on its own frame, and only then
    ensures r.fns.normal == if job.normal.Some? then Apply(v, fns.normal, job.normal.value, job.previousNormal).0 else fns.normal
    ensures r.fns.adjusted == if job.adjusted.Some? then Apply(v, fns.adjusted, job.adjusted.value, job.previousAdjusted).0 else fns.adjusted
  {
    var (normalFn, normalFd) :=
      if job.normal.Some? then
        var (d, m) := Apply(v, fns.normal, job.normal.value, job.previousNormal);
        (d, Some(m))
      else (fns.normal, None);
    if job.adjusted.Some? then
      var (adjustedFn, adjustedFd) := Apply(v, fns.adjusted, job.adjusted.value, job.previousAdjusted);
      var combined :=
        if job.normal.Some? then MergeCommutes(normalFd.value, adjustedFd); Merge(normalFd.value, adjustedFd)
        else adjustedFd;
      Processed(Some(combined), Pair(normalFn, adjustedFn))
    else
      Processed(normalFd, Pair(normalFn, fns.adjusted))
  }

  /** The two sides never see each other's inputs: what the normal side
      produces and becomes depends on the normal frames and the normal
      function alone, and likewise for the adjusted side. */
  lemma SidesIndependent<F(!new), S(!new)>(v: Vision<F, S>, job1: Job<F>, fns1: Pair<S>, job2: Job<F>, fns2: Pair<S>)
    requires Valid(v) && Usable(job1, fns1) && Usable(job2, fns2)
    ensures job1.normal == job2.normal && job1.previousNormal == job2.previousNormal && fns1.normal == fns2.normal ==>
      ProcessFrame(v, job1, fns1).fns.normal == ProcessFrame(v, job2, fns2).fns.normal
    ensures job1.adjusted == job2.adjusted && job1.previousAdjusted == job2.previousAdjusted && fns1.adjusted == fns2.adjusted ==>
      ProcessFrame(v, job1, fns1).fns.adjusted == ProcessFrame(v, job2, fns2).fns.adjusted
  {
  }
}
