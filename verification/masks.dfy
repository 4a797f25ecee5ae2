/** Single-channel 8-bit masks and the two pixel operations the pipeline
    performs on them itself: `cv2.absdiff` of two grey images and the
    (1, 1, 0) `cv2.addWeighted` that merges two motion masks. */
module Masks {
  import opened Base

  /** One 8-bit pixel intensity. */
  type Byte = x: int | 0 <= x < 256

  /** A grey image or motion mask, its pixels in row-major order. */
  type Mask = seq<Byte>

  /** OpenCV's `saturate_cast<uchar>`: clamps an exact result into 0..255. */
  function Saturate(x: int): (r: Byte)
    ensures 0 <= x < 256 ==> r == x
    ensures x < 0 ==> r == 0
    ensures 256 <= x ==> r == 255
  {
    if x < 0 then 0 else if x > 255 then 255 else x
  }

  /** `cv2.addWeighted(a, alpha, b, beta, gamma)` on two equally sized masks,
      for integer weights (where OpenCV's rounding is exact). */
  function AddWeighted(a: Mask, alpha: int, b: Mask, beta: int, gamma: int): (r: Mask)
    requires |a| == |b|
    ensures |r| == |a|
  {
    seq(|a|, i requires 0 <= i < |a| => Saturate(alpha * a[i] + beta * b[i] + gamma))
  }

  /** The merge used by the compositor: weights (1, 1) and no bias, which is
      a per-pixel saturating add. */
  function Merge(a: Mask, b: Mask): (r: Mask)
    requires |a| == |b|
    ensures |r| == |a|
    ensures forall i :: 0 <= i < |r| ==> r[i] as int == Min(255, a[i] as int + b[i] as int)
  {
    AddWeighted(a, 1, b, 1, 0)
  }

  /** The all-black mask of `n` pixels. */
  function Zeros(n: nat): (r: Mask)
    ensures |r| == n
    ensures forall i :: 0 <= i < n ==> r[i] == 0
  {
    seq(n, i => 0)
  }

  /** `cv2.absdiff` of two equally sized grey images. */
  function AbsDiff(a: Mask, b: Mask): (r: Mask)
    requires |a| == |b|
    ensures |r| == |a|
  {
    seq(|a|, i requires 0 <= i < |a| => if a[i] < b[i] then b[i] - a[i] else a[i] - b[i])
  }

  /** Merging is symmetric in the two masks. */
  lemma MergeCommutes(a: Mask, b: Mask)
    requires |a| == |b|
    ensures Merge(a, b) == Merge(b, a)
  {
  }

  /** A merged pixel is never darker than either input pixel, and it is
      their exact sum unless that sum overflows a byte. */
  lemma MergeDominates(a: Mask, b: Mask, i: nat)
    requires |a| == |b| && i < |a|
    ensures a[i] <= Merge(a, b)[i] && b[i] <= Merge(a, b)[i]
    ensures Merge(a, b)[i] == 255 || Merge(a, b)[i] as int == a[i] as int + b[i] as int
  {
  }

  /** Merging with a black mask passes the other mask through unchanged. */
  lemma MergeWithZeros(a: Mask)
    ensures Merge(a, Zeros(|a|)) == a
  {
  }

  /** Absolute difference is symmetric. */
  lemma AbsDiffCommutes(a: Mask, b: Mask)
    requires |a| == |b|
    ensures AbsDiff(a, b) == AbsDiff(b, a)
  {
  }

  /** The difference mask is black exactly when the two images are equal:
      a still scene produces an empty silhouette, and any change shows. */
  lemma AbsDiffBlackIff(a: Mask, b: Mask)
    requires |a| == |b|
    ensures AbsDiff(a, b) == Zeros(|a|) <==> a == b
  {
    if AbsDiff(a, b) == Zeros(|a|) {
      forall i | 0 <= i < |a|
        ensures a[i] == b[i]
      {
        assert AbsDiff(a, b)[i] == 0;
      }
    }
  }
}
