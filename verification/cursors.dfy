/** The two read cursors of `create_silhouette` over one video. A video is
    the sequence of its frames; a read past the end yields `None`. */
module Cursors {
  import opened Base

  /** `capture.read()` at frame position `i`. */
  function At<F>(video: seq<F>, i: int): Option<F> {
    if 0 <= i < |video| then Some(video[i]) else None
  }

  /** One cursor: the capture's next read position, the frame last read and
      the previous frame kept beside it. */
  datatype Cursor<F> = Cursor(pos: nat, current: Option<F>, previous: Option<F>)

  /** The adjusted cursor before its first read. */
  function Unstarted<F>(): Cursor<F> {
    Cursor(0, None, None)
  }

  /** The previous frame kept at the next read: the current one if present,
      otherwise whatever was kept before. */
  function Kept<F>(c: Cursor<F>): Option<F> {
    if c.current.Some? then c.current else c.previous
  }

  /** Reading on: the copy of a present frame becomes the previous one. */
  function Read<F>(video: seq<F>, c: Cursor<F>): Cursor<F> {
    Cursor(c.pos + 1, At(video, c.pos), Kept(c))
  }

  /** Where a cursor that made its first read at frame `start` stands once
      it has read frame `i`: its previous frame is the same as the current
      on the first read and otherwise the last frame the video had before
      `i`, which once the video has ended stays its last frame. */
  function Since<F>(video: seq<F>, start: nat, i: nat): Cursor<F>
    requires start <= i
  {
    Cursor(i + 1, At(video, i),
      if i == start || start >= |video| then At(video, start) else At(video, Min(i - 1, |video| - 1)))
  }

  /** Reading on from frame `i` lands on frame `i + 1`. */
  lemma ReadSince<F>(video: seq<F>, start: nat, i: nat)
    requires start <= i
    ensures Read(video, Since(video, start, i)) == Since(video, start, i + 1)
  {
  }

  /** The whole cursor state of the loop. */
  datatype Cursors<F> = Cursors(
    normal: Cursor<F>,
    adjusted: Cursor<F>,
    hasInitialAdjusted: bool,
    frameCounter: nat)

  /** The first reads, before the loop: the normal cursor reads frame 0 and,
      when the offset `d` is at least 1 and the silhouette is on, the
      adjusted cursor is set to frame `d - 1` and reads it. */
  function Initial<F>(video: seq<F>, d: int, noSilhouette: bool): Cursors<F> {
    var first := At(video, 0);
    var normal := Cursor(1, first, first);
    if d - 1 >= 0 && !noSilhouette then
      var lead := At(video, d - 1);
      Cursors(normal, Cursor(d, lead, lead), true, 1)
    else
      Cursors(normal, Unstarted(), false, 0)
  }

  /** The reads after a task has been submitted. The adjusted cursor reads on
      once started; before that it starts, from frame 0, at the first
      submission whose counter satisfies `frameCounter + d - 1 >= 0`. */
  function Advance<F>(video: seq<F>, d: int, noSilhouette: bool, c: Cursors<F>): Cursors<F> {
    var normal := Read(video, c.normal);
    if noSilhouette then
      c.(normal := normal, frameCounter := c.frameCounter + 1)
    else
      var adjusted :=
        if c.hasInitialAdjusted then Read(video, c.adjusted)
        else c.adjusted.(previous := Kept(c.adjusted));
      if c.frameCounter + (d - 1) >= 0 && !c.hasInitialAdjusted then
        var first := At(video, adjusted.pos);
        Cursors(normal, Cursor(adjusted.pos + 1, first, first), true, c.frameCounter + 1)
      else
        Cursors(normal, adjusted, c.hasInitialAdjusted, c.frameCounter + 1)
  }

  /** The cursors once `k` tasks have been submitted, in closed form. The
      normal cursor stands on frame `k`. With the silhouette on, the adjusted
      cursor leads by `d - 1` frames when `d >= 1`; when `d <= 0` it starts
      only after `2 - d` submissions and from then on lags by `2 - d` frames. */
  function Expected<F>(video: seq<F>, d: int, noSilhouette: bool, k: nat): Cursors<F> {
    var normal := Since(video, 0, k);
    if noSilhouette then Cursors(normal, Unstarted(), false, k)
    else if d >= 1 then Cursors(normal, Since(video, d - 1, k + d - 1), true, k + 1)
    else if k >= 2 - d then Cursors(normal, Since(video, 0, k + d - 2), true, k)
    else Cursors(normal, Unstarted(), false, k)
  }

  /** The reads before the loop are the closed form at zero submissions. */
  lemma InitialExpected<F>(video: seq<F>, d: int, noSilhouette: bool)
    ensures Initial(video, d, noSilhouette) == Expected(video, d, noSilhouette, 0)
  {
  }

  /** Each submission moves the closed form on by one. */
  lemma AdvanceExpected<F>(video: seq<F>, d: int, noSilhouette: bool, k: nat)
    ensures Advance(video, d, noSilhouette, Expected(video, d, noSilhouette, k))
         == Expected(video, d, noSilhouette, k + 1)
  {
    ReadSince(video, 0, k);
    if !noSilhouette {
      if d >= 1 {
        ReadSince(video, d - 1, k + d - 1);
      } else if k >= 2 - d {
        ReadSince(video, 0, k + d - 2);
      }
    }
  }

  /** A present frame always has a previous frame beside it. */
  lemma SincePrevious<F>(video: seq<F>, start: nat, i: nat)
    requires start <= i
    ensures Since(video, start, i).current.Some? ==> Since(video, start, i).previous.Some?
  {
  }

  /** The two `break` tests at the top of each tick. */
  predicate Exhausted<F>(d: int, c: Cursors<F>) {
    || (c.normal.current.None? && d >= 0)
    || (c.adjusted.current.None? && d < 0 && c.hasInitialAdjusted)
  }

  /** When the loop stops, in terms of submissions: with `d >= 0` once every
      frame has been submitted, with `d < 0` only once the lagging adjusted
      cursor has run past the end, and never with `d < 0` and the silhouette
      off. */
  lemma ExhaustedWhen<F>(video: seq<F>, d: int, noSilhouette: bool, k: nat)
    ensures Exhausted(d, Expected(video, d, noSilhouette, k)) <==>
      if d >= 0 then k >= |video| else !noSilhouette && k >= |video| + 2 - d
  {
  }
}
