/** The FIFO window of submitted tasks (`pending`) and its draining loop.
    A task is either a `DummyTask`, computed on submission and always ready,
    or an asynchronous result whose readiness an oracle reports. */
module Pending {
  import opened Base
  import opened Masks
  import opened Process

  /** A submitted task: what it was built from, what it yields when
      resolved, and whether it is a `DummyTask`. */
  datatype Task<F> = Task(job: Job<F>, result: Option<Mask>, dummy: bool)

  /** `task.ready()` for the task at window position `i`, with `ready[i]`
      the oracle's answer for an asynchronous task (missing answers mean
      not ready). */
  predicate IsReady<F>(t: Task<F>, ready: seq<bool>, i: nat) {
    t.dummy || (i < |ready| && ready[i])
  }

  /** The values of the tasks, in window order. */
  function Results<F>(ts: seq<Task<F>>): seq<Option<Mask>> {
    seq(|ts|, i requires 0 <= i < |ts| => ts[i].result)
  }

  lemma ResultsAppend<F>(a: seq<Task<F>>, b: seq<Task<F>>)
    ensures Results(a + b) == Results(a) + Results(b)
  {
  }

  /** What a drain leaves behind: the tasks still pending and the output
      written so far. */
  datatype Drained<F> = Drained(rest: seq<Task<F>>, emitted: seq<Option<Mask>>)

  /** How many tasks from window position `i` on are ready in a row: one
      turn of the loop `while pending and pending[0].ready()` per task. */
  function ReadyRun<F>(pending: seq<Task<F>>, ready: seq<bool>, i: nat): (n: nat)
    requires i <= |pending|
    ensures i + n <= |pending|
    ensures forall j :: i <= j < i + n ==> IsReady(pending[j], ready, j)
    ensures i + n < |pending| ==> !IsReady(pending[i + n], ready, i + n)
    decreases |pending| - i
  {
    if i < |pending| && IsReady(pending[i], ready, i) then 1 + ReadyRun(pending, ready, i + 1) else 0
  }

  /** The draining loop: every task at the head of the window that is ready
      is popped and its value written, stopping at the first that is not. */
  function Drain<F>(pending: seq<Task<F>>, ready: seq<bool>, emitted: seq<Option<Mask>>): (r: Drained<F>)
    // only the head is ever removed: what is left is a suffix
    ensures |r.rest| <= |pending|
    ensures r.rest == pending[|pending| - |r.rest|..]
    // the removed prefix is written out, in window order
    ensures r.emitted == emitted + Results(pending[..|pending| - |r.rest|])
    // every removed task was ready, and draining stops at the first one that is not
    ensures forall i :: 0 <= i < |pending| - |r.rest| ==> IsReady(pending[i], ready, i)
    ensures |r.rest| > 0 ==> !IsReady(r.rest[0], ready, |pending| - |r.rest|)
  {
    var n := ReadyRun(pending, ready, 0);
    Drained(pending[n..], emitted + Results(pending[..n]))
  }

  /** A window of `DummyTask`s is always drained completely. */
  lemma DummiesDrainCompletely<F>(pending: seq<Task<F>>, ready: seq<bool>, emitted: seq<Option<Mask>>)
    requires forall i :: 0 <= i < |pending| ==> pending[i].dummy
    ensures Drain(pending, ready, emitted).rest == []
    ensures Drain(pending, ready, emitted).emitted == emitted + Results(pending)
  {
    assert pending[..|pending|] == pending;
  }
}
