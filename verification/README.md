# Silhouette generator: a Dafny model

This project models the core of a small video tool. The tool reads one video
twice. The "normal" stream runs at the current position. The "adjusted"
stream is offset from it by the signed `frame_difference` d. For d >= 1 the
k-th task pairs normal frame k with adjusted frame k+d-1, so the adjusted
stream is d-1 frames ahead. For d <= 0 the adjusted stream starts late, then
pairs normal frame k with adjusted frame k+d-2, so it is 2-d frames behind.
Each stream's frame is differenced against its previous
frame, either with `absdiff` on grey-scale images or with a background
subtractor (MOG, MOG2 or KNN). The two masks are added with saturation into
one silhouette mask. The silhouette is written to an output file and shown
in a window.

The model covers these parts:

- **The per-tick loop of `create_silhouette`.** It reads frames with two
  cursors and keeps a window of pending tasks. Tasks are `DummyTask`s
  (always ready) in single-threaded mode, or pool tasks whose readiness is
  an input in multithreaded mode. The loop submits a task only while the
  window has room. It stops when the streams run out or the user presses
  `q`.
- **`process_frame`**, the four-way combination of the two masks.
- **Method dispatch**: name validation, and the two independent subtractor
  instances built for the learned methods.
- **The decisions `main` takes in run.py**: output extension, codec,
  fallback to single-threaded mode, deleting the partial output, and
  releasing resources.

OpenCV stays abstract. It is a record `Vision` of function values: grey
conversion, subtractor creation and subtractor application, plus a mask
size. `Valid` says every mask has that size. A mask is a sequence of bytes.
Saturating addition (`cv2.addWeighted` with weights 1, 1, 0) and `absdiff`
are written out per pixel.

The model has three levels.

1. **Per-tick transcription.** `Silhouette.Step` is a transcription of one
   iteration of the loop (`app/__init__.py:87-150`). Video reads and the
   `waitKey` key press come in as an `Input` per tick.
2. **Closed-form reference.** `Cursors.Expected` is the closed form of the
   cursor state after `k` submissions. `Pipeline.Sequential` is a reference
   pipeline with no window. The invariant `Pipeline.Inv` ties the loop to
   both, and `Runs.RunInv` carries it through a whole run.
3. **Whole-run results.** Lemmas in `Pairing` and `Runs` state which frames
   are paired, and what is written once a run ends.

Two behaviours of the code are easy to misread, and the model follows the
code in both:

- **Lag for `frame_difference <= 0`.** For `frame_difference` of zero or
  below, the adjusted stream starts only once `frame_counter + d - 1 >= 0`.
  After that it tracks frame `k + d - 2`, where `k` is the number of
  submitted tasks. So `d = 0` lags the normal stream by two frames rather
  than tracking the same frame (`Pairing.LaggingPairs`).
- **Exceptions from the pipeline.** `main` catches every exception raised
  inside its `try` block, including `KeyboardInterrupt`. It then deletes the
  output file if a writer exists and releases everything. So a failure
  inside the pipeline does not by itself give a failure exit status. An
  exception can still escape: the command line can reject its arguments
  before `main` runs, and `os.remove` can itself raise inside a handler.

## Model

| member | source | states |
|---|---|---|
| Masks.Merge | app/__init__.py:175 | each pixel of the combined mask is the sum of the two masks' pixels, capped at 255 |
| Masks.MergeCommutes | app/__init__.py:174-175 | the combination does not depend on which side is the first operand of `addWeighted` |
| Masks.MergeDominates | app/__init__.py:175 | a combined pixel is at least as bright as both inputs, and is their exact sum unless it saturates |
| Masks.MergeWithZeros | app/__init__.py:175 | combining with an all-black mask gives the other mask back |
| Masks.AbsDiffCommutes | app/__init__.py:181-187 | frame differencing by `absdiff` is symmetric in the current and previous frame |
| Masks.AbsDiffBlackIff | app/__init__.py:181-187 | the `absdiff` mask is all black exactly when the two grey images are equal |
| Differencers.ParseMethod | app/__init__.py:13-36 | a name is accepted exactly when it is one of absdiff, mog, mog2 and knn; any other name fails with an error naming it; an accepted name maps back to itself |
| Differencers.ParseName | app/__init__.py:13 | parsing the name of any method gives that method back |
| Differencers.Build | app/__init__.py:61-74 | absdiff is used on both sides exactly for `absdiff`; otherwise each side gets its own subtractor of the requested kind, created fresh |
| Differencers.Apply | app/__init__.py:181-220 | absdiff compares the grey current and previous frames and keeps no state; a subtractor ignores the previous frame, keeps its kind and yields the mask of its own apply step |
| Differencers.AbsDifferUntrained | app/__init__.py:181-187 | feeding any frames to absdiff leaves it unchanged |
| Process.ProcessFrame | app/__init__.py:157-179 | no frames give no mask; one frame gives that side's mask; two frames give their saturated sum; a side's differencer advances exactly when its frame is present |
| Process.SidesIndependent | app/__init__.py:157-179 | a side's new differencer depends only on that side's frames and differencer |
| Pending.ResultsAppend | app/__init__.py:97-119 | results of a concatenation are the concatenated results |
| Pending.ReadyRun | app/__init__.py:97 | counts the maximal run of ready tasks from a position: all counted tasks are ready and the next one is not |
| Pending.Drain | app/__init__.py:97-106 | draining removes a prefix of ready tasks and emits its results in order; what remains is a suffix whose head is not ready |
| Pending.DummiesDrainCompletely | app/__init__.py:16-24 | a window of always-ready tasks drains completely and emits every result |
| Cursors.ReadSince | app/__init__.py:121-133 | reading one more frame moves a cursor from frame i to frame i+1 and keeps the frame before it as previous |
| Cursors.InitialExpected | app/__init__.py:41-79 | the state set up before the loop is the closed form after zero submissions |
| Cursors.AdvanceExpected | app/__init__.py:121-144 | one post-submission read step takes the closed form after k submissions to the one after k+1 |
| Cursors.SincePrevious | app/__init__.py:121-139 | whenever a cursor has a current frame it also has a previous frame |
| Cursors.ExhaustedWhen | app/__init__.py:89-94 | the loop stops after k submissions exactly when k reaches the video length for d >= 0, or the length plus 2-d for d < 0 with the silhouette on, and never for d < 0 without the silhouette |
| Silhouette.OnTrackUsable | app/__init__.py:111-115 | on-track cursors always give `process_frame` a previous frame where a differencer needs one |
| Silhouette.Start | app/__init__.py:34-84 | an unknown method fails with its name; otherwise the loop starts with the closed-form cursors for zero submissions, an empty window, nothing written and freshly built differencers |
| Silhouette.Poll | app/__init__.py:97-106 | draining only moves tasks from the window to the output, and never changes what has been submitted |
| Silhouette.Submit | app/__init__.py:109-144 | a submission appends one task for the current frames whose result is `process_frame`'s, marked always-ready exactly in single-threaded mode, and advances the cursors one read step |
| Silhouette.Step | app/__init__.py:87-150 | a tick stops as completed exactly when the streams are exhausted; it submits exactly when the drained window is below the worker count; it stops on a quit key only after a submission; it only extends the output, keeps the window within the worker count and keeps the cursors on track |
| Silhouette.Run | app/__init__.py:87-150 | over any number of ticks, the cursors stay on track, submissions and output only grow, the output stays a prefix of the submissions and the window stays within bounds |
| Pipeline.Sequential | app/__init__.py:109-144 | the reference pipeline has one output per submission and keeps the differencer kind chosen by the method on both sides |
| Pipeline.SequentialConfigIndependent | app/__init__.py:109-119 | the reference outputs depend only on the frame difference and the silhouette switch, so the worker count and the threading mode do not change what is computed |
| Pipeline.StartInv | app/__init__.py:34-84 | a known method starts the loop in the invariant: it matches the reference with zero submissions |
| Pipeline.PollInv | app/__init__.py:97-106 | draining keeps the invariant |
| Pipeline.SubmitInv | app/__init__.py:109-144 | submitting keeps the invariant: the new result is the reference's next output and the differencers stay the reference's |
| Pipeline.StepInv | app/__init__.py:87-150 | a whole tick keeps the invariant |
| Runs.RunInv | app/__init__.py:87-150 | any run keeps the invariant: everything submitted equals the reference pipeline's outputs, whatever the readiness of pool tasks |
| Runs.CreateSilhouette | app/__init__.py:26-155 | an unknown method fails; otherwise the submitted results are the reference outputs for the frames read so far, the written ones are a prefix of them, and the window is within the worker count |
| Runs.NoSilhouetteNeverCompletes | app/__init__.py:89-94 | with a negative difference and the silhouette off, neither break test ever fires, so a run never completes by itself |
| Runs.LengthExhausts | app/__init__.py:89-94 | the number of submissions after which the loop stops is the video length for d >= 0 and the length plus 2-d otherwise |
| Runs.SynchronousStep | app/__init__.py:97-119 | in single-threaded mode a tick writes everything pending, then submits exactly one new task |
| Runs.SynchronousRun | app/__init__.py:87-150 | an uninterrupted single-threaded run submits exactly as many tasks as the streams allow, then completes, with one task still pending when the video is not empty |
| Runs.LastMaskLost | app/__init__.py:87-119 | an uninterrupted single-threaded run over n >= 1 frames with d >= 0 completes having written n-1 masks, with the last one still pending |
| Runs.Flush | app/__init__.py:87-155 | after a completed run the window is written out in order and nothing is pending; any other tick is left alone |
| Runs.CreateSilhouetteFlushed | app/__init__.py:26-155 | with the window flushed at exit, a completed run has written exactly the reference outputs and has nothing pending |
| Runs.SequentialPresent | app/__init__.py:157-179 | with d >= 0, each of the first n reference outputs is a mask |
| Runs.FlushedWritesEveryFrame | app/__init__.py:87-155 | with the flush, an uninterrupted single-threaded run over n frames writes n masks, one per frame, equal to the reference outputs |
| Pairing.LeadingPairs | app/__init__.py:41-144 | for d >= 1 the k-th task pairs normal frame k with adjusted frame k+d-1, each with the frame before it as previous |
| Pairing.LaggingPairs | app/__init__.py:41-144 | for d <= 0 the adjusted stream has no frame before 2-d submissions; from then on the k-th task pairs normal frame k with adjusted frame k+d-2, whose previous frame is frame 0 on the first such task and frame k+d-3 afterwards |
| Pairing.NoSilhouetteAlone | app/__init__.py:53-141 | with the silhouette off the adjusted stream is never read, and every task carries only the normal frame |
| Pairing.TrainedSnoc | app/__init__.py:162-170 | training on one more frame is one more apply step |
| Pairing.SequentialHistory | app/__init__.py:61-179 | after k submissions each side's subtractor has been fed exactly its own stream's frames so far, in order |
| Pairing.NormalStep | app/__init__.py:121-125 | one submission feeds the normal differencer the next normal frame while the video lasts, and nothing after its end |
| Pairing.AdjustedStep | app/__init__.py:121-144 | one submission feeds the adjusted differencer the next adjusted frame when there is one, and nothing otherwise |
| Runner.RFind | run.py:56 | finds the last occurrence of a character, or reports that there is none |
| Runner.HasNonDot | run.py:56 | reports whether a slice of the path holds a character other than a dot |
| Runner.SplitExt | run.py:56 | root and extension concatenate back to the path; an extension starts with its only dot, lies in the last path component and follows a non-dot character of that component; and whenever the path has a dot after a non-dot character of its last component, an extension is found |
| Runner.Main | run.py:45-139 | the second capture opens exactly with the silhouette on; an extension other than .mp4 or .avi is rejected before any writer exists; .avi uses XVID and .mp4 uses 0x21; fewer than two CPUs force single-threaded mode; the output is deleted exactly when a writer exists and the run did not complete; everything acquired is released exactly once |
| Runner.HiddenNameRejected | run.py:55-61 | an output path named just `.mp4` has no extension and is rejected |
| Runner.AviUsesXvid | run.py:67-70 | `out.avi` splits into `out` and `.avi` and gets the XVID codec |
| Runner.UnknownMethodDeletesOutput | run.py:99-127 | an unknown method raises from the pipeline, and `main` then deletes the output exactly when a path was given; the command line offers only the four known names, so only a direct call of `main`'s body reaches this |

## Left out

- Video capture, the writer, windows and `waitKey` are I/O. Frames become a sequence, key presses and pool readiness become per-tick inputs, and the writer becomes the emitted sequence.
- `cv2.cvtColor` and the internals of the MOG, MOG2 and KNN subtractors are foreign calls. They are parameters of `Vision`, constrained only by the mask size.
- Thread-pool concurrency is left out. A pool task's result is computed when it is submitted. Under real threads, two subtractor applications on the same side may overlap or run out of order; that is not modelled.
- The buffer that the first adjusted read shares with the normal frame (`adjusted_video.read(normal_frame)`) is left out, as is the `.copy()` of previous frames. Frames are values here.
- The `bg_segm_history` and `bg_segm_lr` arguments are left out. The code reads them but never uses them.
- `debug` (showing the video) is left out. It decides whether drained results are shown, and it is on by default.
- app/fps.py is not part of this model.
- The click command-line layer is left out: option parsing, the `--version` callback, path validation and the printed messages.
- Runs.NoSilhouetteNeverCompletes: results that are `None` are emitted here as values. The source passes each drained result to `cv2.imshow` when `debug` is on (app/__init__.py:101-106), and `imshow` raises on `None`. So with the window shown, a run that emits `None` (d < 0 with the silhouette off past the video's end, or a short video with d < 0) ends in an exception rather than looping or completing.
- Silhouette.Run: runs one tick per input, so a run is bounded by the number of inputs given.
- Runner.SplitExt: follows POSIX paths only. Windows drive letters and backslashes are not modelled.
- Runner.Main: does not model exceptions raised by OpenCV calls inside `main` itself. A failure of the pipeline is modelled as the `Raised` outcome.
- Runner.Main: assumes removing the output file succeeds. If `os.remove` raises inside a handler (run.py:121, run.py:127), the exception escapes `main`, the releases at run.py:129-139 are skipped and the process exits with a failure status. "Released exactly once" holds only on the paths where the removal succeeds or is not attempted.

## Findings

| source | as written | input that shows it | evidently intended | confidence | as-written member | corrected member |
|---|---|---|---|---|---|---|
| app/__init__.py:87-119 | the loop breaks as soon as the streams are exhausted and drains the pending window only at the top of the next iteration, so tasks still pending at exit are never written | a one-frame video, single-threaded, `frame_difference` 15: the only task is still pending when the loop breaks, so the output file gets no frame | every submitted mask is written before `create_silhouette` returns | not executed | Runs.LastMaskLost | Runs.FlushedWritesEveryFrame |
