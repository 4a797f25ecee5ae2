/** Properties of whole runs and of the task submitted at each tick. */
module Runs {
  import opened Base
  import opened Masks
  import opened Differencers
  import opened Process
  import opened Pending
  import opened Cursors
  import opened Silhouette
  import opened Pipeline

  /** Running the loop for any number of ticks keeps the invariant. */
  lemma {:induction false} RunInv<F(!new), S(!new)>(v: Vision<F, S>, video: seq<F>, cfg: Config, m: Method, s: State<F, S>, inputs: seq<Input>)
    requires Inv(v, video, cfg, m, s)
    ensures Inv(v, video, cfg, m, Run(v, video, cfg, s, inputs).state)
    decreases |inputs|
  {
    if |inputs| > 0 {
      StepInv(v, video, cfg, m, s, inputs[0]);
      match Step(v, video, cfg, s, inputs[0])
      case Stopped(t, completed) =>
      case Running(t) => RunInv(v, video, cfg, m, t, inputs[1..]);
    }
  }

  /** `create_silhouette` driven by one input per tick. An unknown method
      raises before anything is read. Otherwise, whatever the window size
      and whenever the asynchronous tasks finish, what has been written is a
      prefix of the sequential pipeline's outputs and everything submitted
      is exactly its first `k` outputs, in frame order. */
  function CreateSilhouette<F(!new), S(!new)>(v: Vision<F, S>, video: seq<F>, methodName: string, cfg: Config, inputs: seq<Input>): (r: Result<Tick<F, S>, Error>)
    requires Valid(v)
    ensures r.Failure? <==> methodName !in MethodNames
    ensures r.Failure? ==> r.error == UnsupportedMethod(methodName)
    ensures r.Success? ==>
      && ParseMethod(methodName).Success?
      && r.value.state.cursors.normal.pos >= 1
      && var t := r.value.state;
         var reference := Sequential(v, video, cfg, ParseMethod(methodName).value, t.cursors.normal.pos - 1);
         && Submitted(t) == reference.outputs
         && t.emitted <= reference.outputs
         && |t.pending| <= cfg.workers
  {
    match Start(v, video, methodName, cfg)
    case Failure(e) => Failure(e)
    case Success(s) =>
      StartInv(v, video, methodName, cfg);
      RunInv(v, video, cfg, ParseMethod(methodName).value, s, inputs);
      Success(Run(v, video, cfg, s, inputs))
  }

  /** With the silhouette off and a negative offset neither exit test can
      fire: only the quit key ends the loop. */
  lemma {:induction false} NoSilhouetteNeverCompletes<F(!new), S(!new)>(v: Vision<F, S>, video: seq<F>, cfg: Config, m: Method, s: State<F, S>, inputs: seq<Input>)
    requires Inv(v, video, cfg, m, s) && cfg.noSilhouette && cfg.frameDifference < 0
    ensures !(Run(v, video, cfg, s, inputs).Stopped? && Run(v, video, cfg, s, inputs).completed)
    decreases |inputs|
  {
    if |inputs| > 0 {
      ExhaustedWhen(video, cfg.frameDifference, cfg.noSilhouette, s.cursors.normal.pos - 1);
      StepInv(v, video, cfg, m, s, inputs[0]);
      match Step(v, video, cfg, s, inputs[0])
      case Stopped(t, completed) =>
      case Running(t) => NoSilhouetteNeverCompletes(v, video, cfg, m, t, inputs[1..]);
    }
  }

  /** The number of submissions after which the loop completes: every frame
      with `d >= 0`; with `d < 0` the `2 - d` submissions before the lagging
      cursor starts plus one per frame. */
  function Length<F>(video: seq<F>, cfg: Config): nat
    requires cfg.frameDifference >= 0 || !cfg.noSilhouette
  {
    if cfg.frameDifference >= 0 then |video| else |video| + 2 - cfg.frameDifference
  }

  /** The loop completes exactly once `Length` tasks have been submitted. */
  lemma LengthExhausts<F>(video: seq<F>, cfg: Config, k: nat)
    requires cfg.frameDifference >= 0 || !cfg.noSilhouette
    ensures Exhausted(cfg.frameDifference, Expected(video, cfg.frameDifference, cfg.noSilhouette, k)) <==> k >= Length(video, cfg)
  {
    ExhaustedWhen(video, cfg.frameDifference, cfg.noSilhouette, k);
  }

  /** No quit key in the schedule. */
  predicate Uninterrupted(inputs: seq<Input>) {
    forall i :: 0 <= i < |inputs| ==> !inputs[i].quit
  }

  /** In single-threaded mode every tick that does not exit writes out every
      value submitted before it and leaves exactly the new task pending. */
  lemma SynchronousStep<F(!new), S(!new)>(v: Vision<F, S>, video: seq<F>, cfg: Config, m: Method, s: State<F, S>, input: Input)
    requires Inv(v, video, cfg, m, s) && !cfg.multithreaded && cfg.workers >= 1
    requires !Exhausted(cfg.frameDifference, s.cursors) && !input.quit
    ensures Step(v, video, cfg, s, input).Running?
    ensures Step(v, video, cfg, s, input).state.emitted == Submitted(s)
    ensures |Step(v, video, cfg, s, input).state.pending| == 1
  {
    DummiesDrainCompletely(s.pending, input.ready, s.emitted);
  }

  /** The first tick of a run decides how it goes on. */
  lemma RunUnfold<F(!new), S(!new)>(v: Vision<F, S>, video: seq<F>, cfg: Config, s: State<F, S>, inputs: seq<Input>)
    requires Valid(v) && OnTrack(video, cfg, s.cursors) && Usable(JobOf(s.cursors), s.fns) && |inputs| > 0
    ensures Step(v, video, cfg, s, inputs[0]).Stopped? ==> Run(v, video, cfg, s, inputs) == Step(v, video, cfg, s, inputs[0])
    ensures Step(v, video, cfg, s, inputs[0]).Running? ==>
      Run(v, video, cfg, s, inputs) == Run(v, video, cfg, Step(v, video, cfg, s, inputs[0]).state, inputs[1..])
  {
  }

  /** Before the last submission no exit test fires. */
  lemma NotYetExhausted<F(!new), S(!new)>(v: Vision<F, S>, video: seq<F>, cfg: Config, m: Method, s: State<F, S>)
    requires Inv(v, video, cfg, m, s) && (cfg.frameDifference >= 0 || !cfg.noSilhouette)
    requires s.cursors.normal.pos - 1 < Length(video, cfg)
    ensures !Exhausted(cfg.frameDifference, s.cursors)
  {
    LengthExhausts(video, cfg, s.cursors.normal.pos - 1);
  }

  /** One single-threaded tick that does not exit, seen from the run. */
  lemma SynchronousTick<F(!new), S(!new)>(v: Vision<F, S>, video: seq<F>, cfg: Config, m: Method, s: State<F, S>, inputs: seq<Input>)
      returns (t: State<F, S>)
    requires Inv(v, video, cfg, m, s) && !cfg.multithreaded && cfg.workers >= 1
    requires !Exhausted(cfg.frameDifference, s.cursors) && |inputs| > 0 && !inputs[0].quit
    ensures Inv(v, video, cfg, m, t)
    ensures t.cursors.normal.pos == s.cursors.normal.pos + 1
    ensures |t.pending| == 1
    ensures Run(v, video, cfg, s, inputs) == Run(v, video, cfg, t, inputs[1..])
  {
    SynchronousStep(v, video, cfg, m, s, inputs[0]);
    StepInv(v, video, cfg, m, s, inputs[0]);
    RunUnfold(v, video, cfg, s, inputs);
    t := Step(v, video, cfg, s, inputs[0]).state;
  }

  /** Once the last task has been submitted, the next tick ends the run
      where it stands. */
  lemma FinalTick<F(!new), S(!new)>(v: Vision<F, S>, video: seq<F>, cfg: Config, m: Method, s: State<F, S>, inputs: seq<Input>)
    requires Inv(v, video, cfg, m, s) && |inputs| > 0
    requires cfg.frameDifference >= 0 || !cfg.noSilhouette
    requires s.cursors.normal.pos - 1 == Length(video, cfg)
    ensures Run(v, video, cfg, s, inputs) == Stopped(s, true)
  {
    LengthExhausts(video, cfg, Length(video, cfg));
    RunUnfold(v, video, cfg, s, inputs);
  }

  /** A single-threaded run without the quit key completes one tick after
      its last submission, with the last task still pending: its mask is
      computed but never written. */
  lemma {:induction false} SynchronousRun<F(!new), S(!new)>(v: Vision<F, S>, video: seq<F>, cfg: Config, m: Method, s: State<F, S>, inputs: seq<Input>)
    requires Inv(v, video, cfg, m, s) && !cfg.multithreaded && cfg.workers >= 1
    requires cfg.frameDifference >= 0 || !cfg.noSilhouette
    requires Uninterrupted(inputs)
    requires s.cursors.normal.pos - 1 <= Length(video, cfg) < s.cursors.normal.pos - 1 + |inputs|
    requires s.cursors.normal.pos == 1 || |s.pending| == 1
    ensures var r := Run(v, video, cfg, s, inputs);
      && r.Stopped? && r.completed
      && r.state.cursors.normal.pos - 1 == Length(video, cfg)
      && (Length(video, cfg) > 0 ==> |r.state.pending| == 1)
    decreases |inputs|
  {
    if s.cursors.normal.pos - 1 == Length(video, cfg) {
      FinalTick(v, video, cfg, m, s, inputs);
    } else {
      NotYetExhausted(v, video, cfg, m, s);
      var t := SynchronousTick(v, video, cfg, m, s, inputs);
      assert Uninterrupted(inputs[1..]) by {
        forall i | 0 <= i < |inputs| - 1
          ensures !inputs[1..][i].quit
        {
          assert inputs[1..][i] == inputs[i + 1];
        }
      }
      SynchronousRun(v, video, cfg, m, t, inputs[1..]);
    }
  }

  /** As written, a single-threaded run over a non-empty video with
      `d >= 0` completes having written one mask fewer than the video has
      frames: the last frame's task is still in the window when the loop
      leaves, and nothing drains it. */
  lemma LastMaskLost<F(!new), S(!new)>(v: Vision<F, S>, video: seq<F>, methodName: string, cfg: Config, inputs: seq<Input>)
    requires Valid(v) && methodName in MethodNames
    requires !cfg.multithreaded && cfg.workers >= 1 && cfg.frameDifference >= 0
    requires |video| >= 1 && Uninterrupted(inputs) && |inputs| > |video|
    ensures var r := CreateSilhouette(v, video, methodName, cfg, inputs);
      && r.Success? && r.value.Stopped? && r.value.completed
      && |r.value.state.emitted| == |video| - 1
      && |r.value.state.pending| == 1
  {
    var m := ParseMethod(methodName).value;
    var s := Start(v, video, methodName, cfg).value;
    StartInv(v, video, methodName, cfg);
    SynchronousRun(v, video, cfg, m, s, inputs);
    RunInv(v, video, cfg, m, s, inputs);
  }

  /** The corrected ending: on normal completion the tasks still pending are
      waited for (`get()` blocks) and written in window order. */
  function Flush<F, S>(t: Tick<F, S>): (r: Tick<F, S>)
    ensures r.Stopped? <==> t.Stopped?
    ensures r.Stopped? ==> r.completed == t.completed
    ensures r.state.cursors == t.state.cursors && r.state.fns == t.state.fns
    ensures Submitted(r.state) == Submitted(t.state)
    ensures t.Stopped? && t.completed ==> r.state.pending == [] && r.state.emitted == Submitted(t.state)
    ensures !(t.Stopped? && t.completed) ==> r == t
  {
    if t.Stopped? && t.completed then
      Stopped(t.state.(pending := [], emitted := Submitted(t.state)), true)
    else t
  }

  /** `create_silhouette` with the corrected ending: a completed run has
      written every submitted mask, in frame order. */
  function CreateSilhouetteFlushed<F(!new), S(!new)>(v: Vision<F, S>, video: seq<F>, methodName: string, cfg: Config, inputs: seq<Input>): (r: Result<Tick<F, S>, Error>)
    requires Valid(v)
    ensures r.Failure? <==> methodName !in MethodNames
    ensures r.Success? ==>
      && ParseMethod(methodName).Success?
      && r.value.state.cursors.normal.pos >= 1
      && var t := r.value.state;
         var reference := Sequential(v, video, cfg, ParseMethod(methodName).value, t.cursors.normal.pos - 1);
         && t.emitted <= reference.outputs
         && (r.value.Stopped? && r.value.completed ==> t.emitted == reference.outputs && t.pending == [])
  {
    match CreateSilhouette(v, video, methodName, cfg, inputs)
    case Failure(e) => Failure(e)
    case Success(t) => Success(Flush(t))
  }

  /** With `d >= 0` every task up to the end of the video has a normal frame,
      so every one of them yields a mask. */
  lemma {:induction false} SequentialPresent<F(!new), S(!new)>(v: Vision<F, S>, video: seq<F>, cfg: Config, m: Method, k: nat)
    requires Valid(v) && cfg.frameDifference >= 0 && k <= |video|
    ensures forall i :: 0 <= i < k ==> Sequential(v, video, cfg, m, k).outputs[i].Some?
  {
    if k > 0 {
      SequentialPresent(v, video, cfg, m, k - 1);
    }
  }

  /** With the corrected ending, the same single-threaded run writes exactly
      one mask per frame of the video. */
  lemma FlushedWritesEveryFrame<F(!new), S(!new)>(v: Vision<F, S>, video: seq<F>, methodName: string, cfg: Config, inputs: seq<Input>)
    requires Valid(v) && methodName in MethodNames
    requires !cfg.multithreaded && cfg.workers >= 1 && cfg.frameDifference >= 0
    requires |video| >= 1 && Uninterrupted(inputs) && |inputs| > |video|
    ensures var r := CreateSilhouetteFlushed(v, video, methodName, cfg, inputs);
      && r.Success? && r.value.Stopped? && r.value.completed
      && r.value.state.emitted == Sequential(v, video, cfg, ParseMethod(methodName).value, |video|).outputs
      && |r.value.state.emitted| == |video|
      && (forall i :: 0 <= i < |video| ==> r.value.state.emitted[i].Some?)
  {
    var m := ParseMethod(methodName).value;
    var s := Start(v, video, methodName, cfg).value;
    StartInv(v, video, methodName, cfg);
    SynchronousRun(v, video, cfg, m, s, inputs);
    RunInv(v, video, cfg, m, s, inputs);
    SequentialPresent(v, video, cfg, m, |video|);
  }
}
