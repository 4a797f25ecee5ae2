/** The tick loop of `create_silhouette`: one `Step` per turn of the
    `while` loop, with the readiness of the asynchronous tasks and the quit
    key as inputs. */
module Silhouette {
  import opened Base
  import opened Masks
  import opened Differencers
  import opened Process
  import opened Pending
  import opened Cursors

  /** The keyword arguments the loop reads, with the method already parsed
      out; `workers` is `cv2.getNumberOfCPUs()`, which bounds the window in
      both modes. */
  datatype Config = Config(
    multithreaded: bool,
    frameDifference: int,
    noSilhouette: bool,
    workers: nat)

  /** The loop variables: cursors, both differencing functions, the pending
      window and the masks written so far. */
  datatype State<F, S> = State(
    cursors: Cursors<F>,
    fns: Pair<S>,
    pending: seq<Task<F>>,
    emitted: seq<Option<Mask>>)

  /** What the outside world decides during one tick: which pending
      asynchronous tasks report ready (by window position), and whether the
      quit key was pressed. */
  datatype Input = Input(ready: seq<bool>, quit: bool)

  /** After one tick the loop either goes on, or has left with the value
      `create_silhouette` returns. */
  datatype Tick<F, S> = Running(state: State<F, S>) | Stopped(state: State<F, S>, completed: bool)

  /** The arguments of the task submitted from these cursors. */
  function JobOf<F>(c: Cursors<F>): Job<F> {
    Job(c.normal.current, c.normal.previous, c.adjusted.current, c.adjusted.previous)
  }

  /** Every value submitted so far: the ones written, then the ones pending. */
  function Submitted<F, S>(s: State<F, S>): seq<Option<Mask>> {
    s.emitted + Results(s.pending)
  }

  /** The cursors are where `k` submissions put them, `k` being the number of
      reads the normal cursor has made after its first. */
  ghost predicate OnTrack<F>(video: seq<F>, cfg: Config, c: Cursors<F>) {
    && c.normal.pos >= 1
    && c == Expected(video, cfg.frameDifference, cfg.noSilhouette, c.normal.pos - 1)
  }

  /** The job built from a reachable cursor state can always be processed:
      absdiff always finds a previous frame. */
  lemma OnTrackUsable<F, S>(video: seq<F>, cfg: Config, c: Cursors<F>, fns: Pair<S>)
    requires OnTrack(video, cfg, c)
    ensures Usable(JobOf(c), fns)
  {
    var k := c.normal.pos - 1;
    var d := cfg.frameDifference;
    SincePrevious(video, 0, k);
    if !cfg.noSilhouette {
      if d >= 1 {
        SincePrevious(video, d - 1, k + d - 1);
      } else if k >= 2 - d {
        SincePrevious(video, 0, k + d - 2);
      }
    }
  }

  /** Everything before the loop: the method check, which raises before any
      frame is read, then the first reads and the two differencing functions. */
  function Start<F(!new), S(!new)>(v: Vision<F, S>, video: seq<F>, methodName: string, cfg: Config): (r: Result<State<F, S>, Error>)
    ensures r.Failure? <==> methodName !in MethodNames
    ensures r.Failure? ==> r.error == UnsupportedMethod(methodName)
    ensures r.Success? ==>
      && ParseMethod(methodName).Success?
      && r.value.fns == Build(v, ParseMethod(methodName).value)
      && r.value.cursors == Expected(video, cfg.frameDifference, cfg.noSilhouette, 0)
      && r.value.pending == []
      && r.value.emitted == []
  {
    match ParseMethod(methodName)
    case Failure(e) => Failure(e)
    case Success(m) =>
      InitialExpected(video, cfg.frameDifference, cfg.noSilhouette);
      Success(State(Initial(video, cfg.frameDifference, cfg.noSilhouette), Build(v, m), [], []))
  }

  /** The draining loop applied to the loop state. */
  function Poll<F, S>(s: State<F, S>, ready: seq<bool>): (r: State<F, S>)
    ensures r.cursors == s.cursors && r.fns == s.fns
    ensures Submitted(r) == Submitted(s)
    ensures s.emitted <= r.emitted
    ensures r.pending == Drain(s.pending, ready, s.emitted).rest
  {
    var drained := Drain(s.pending, ready, s.emitted);
    assert s.pending == s.pending[..|s.pending| - |drained.rest|] + drained.rest;
    ResultsAppend(s.pending[..|s.pending| - |drained.rest|], drained.rest);
    s.(pending := drained.rest, emitted := drained.emitted)
  }

  /** One submission: a task built from the current frames joins the back of
      the window, then both cursors read on. */
  function Submit<F(!new), S(!new)>(v: Vision<F, S>, video: seq<F>, cfg: Config, s: State<F, S>): (r: State<F, S>)
    requires Valid(v) && Usable(JobOf(s.cursors), s.fns)
    ensures Submitted(r) == Submitted(s) + [ProcessFrame(v, JobOf(s.cursors), s.fns).combined]
    ensures r.emitted == s.emitted
    ensures r.pending == s.pending + [Task(JobOf(s.cursors), ProcessFrame(v, JobOf(s.cursors), s.fns).combined, !cfg.multithreaded)]
    ensures r.cursors == Advance(video, cfg.frameDifference, cfg.noSilhouette, s.cursors)
    ensures r.fns == ProcessFrame(v, JobOf(s.cursors), s.fns).fns
  {
    var job := JobOf(s.cursors);
    var processed := ProcessFrame(v, job, s.fns);
    var task := Task(job, processed.combined, !cfg.multithreaded);
    ResultsAppend(s.pending, [task]);
    State(
      Advance(video, cfg.frameDifference, cfg.noSilhouette, s.cursors),
      processed.fns,
      s.pending + [task],
      s.emitted)
  }

  /** One turn of the loop: the two exit tests, the drain, and, if the
      window has room, one submission followed by the reads and the quit key
      test. A full window submits nothing, reads nothing and polls no key. */
  function Step<F(!new), S(!new)>(v: Vision<F, S>, video: seq<F>, cfg: Config, s: State<F, S>, input: Input): (r: Tick<F, S>)
    requires Valid(v) && Usable(JobOf(s.cursors), s.fns)
    // the loop completes exactly when an exit test fires, and then touches nothing
    ensures r.Stopped? && r.completed <==> Exhausted(cfg.frameDifference, s.cursors)
    ensures r.Stopped? && r.completed ==> r.state == s
    // a submission happens exactly when the drained window has room
    ensures |Submitted(r.state)| == |Submitted(s)| + 1 <==>
      !Exhausted(cfg.frameDifference, s.cursors) && |Drain(s.pending, input.ready, s.emitted).rest| < cfg.workers
    ensures |Submitted(r.state)| == |Submitted(s)| + 1 || Submitted(r.state) == Submitted(s)
    // the quit key ends the loop only on a tick that submitted
    ensures r.Stopped? && !r.completed <==> input.quit && |Submitted(r.state)| == |Submitted(s)| + 1
    // submissions are appended, outputs only ever grow, and the window stays bounded
    ensures Submitted(s) <= Submitted(r.state)
    ensures s.emitted <= r.state.emitted
    ensures |s.pending| <= cfg.workers ==> |r.state.pending| <= cfg.workers
    // no submission: no read and no call of a differencing function
    ensures Submitted(r.state) == Submitted(s) ==> r.state.cursors == s.cursors && r.state.fns == s.fns
    // a submission: the task carries the current frames, then each cursor reads once
    ensures |Submitted(r.state)| == |Submitted(s)| + 1 ==>
      && |r.state.pending| > 0
      && r.state.pending[|r.state.pending| - 1].job == JobOf(s.cursors)
      && r.state.pending[|r.state.pending| - 1].dummy == !cfg.multithreaded
      && r.state.cursors == Advance(video, cfg.frameDifference, cfg.noSilhouette, s.cursors)
    ensures r.state.cursors.normal.pos <= s.cursors.normal.pos + 1
    ensures r.state.cursors.adjusted.pos <= s.cursors.adjusted.pos + 1
    // reachable cursor states stay reachable
    ensures OnTrack(video, cfg, s.cursors) ==> OnTrack(video, cfg, r.state.cursors)
  {
    if Exhausted(cfg.frameDifference, s.cursors) then
      Stopped(s, true)
    else
      var polled := Poll(s, input.ready);
      if |polled.pending| < cfg.workers then
        var next := Submit(v, video, cfg, polled);
        AdvanceExpected(video, cfg.frameDifference, cfg.noSilhouette, if s.cursors.normal.pos > 0 then s.cursors.normal.pos - 1 else 0);
        if input.quit then Stopped(next, false) else Running(next)
      else
        Running(polled)
  }

  /** The loop run for as many ticks as there are inputs, or until it
      leaves. Nothing bounds the number of ticks in general: with `d < 0`
      and the silhouette off no exit test can ever fire. */
  function Run<F(!new), S(!new)>(v: Vision<F, S>, video: seq<F>, cfg: Config, s: State<F, S>, inputs: seq<Input>): (r: Tick<F, S>)
    requires Valid(v) && OnTrack(video, cfg, s.cursors)
    ensures OnTrack(video, cfg, r.state.cursors)
    ensures Submitted(s) <= Submitted(r.state)
    ensures s.emitted <= r.state.emitted
    ensures s.emitted <= Submitted(s) ==> r.state.emitted <= Submitted(r.state)
    ensures |s.pending| <= cfg.workers ==> |r.state.pending| <= cfg.workers
    decreases |inputs|
  {
    if |inputs| == 0 then Running(s)
    else
      OnTrackUsable(video, cfg, s.cursors, s.fns);
      match Step(v, video, cfg, s, inputs[0])
      case Stopped(t, completed) => Stopped(t, completed)
      case Running(t) => Run(v, video, cfg, t, inputs[1..])
  }
}
