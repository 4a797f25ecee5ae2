/** The frame differencing strategies of app/__init__.py and their dispatch
    by method name. The pixel algorithms themselves (grey conversion and the
    MOG, MOG2 and KNN background models) belong to OpenCV; they enter the
    model as the function values of a `Vision` record. */
module Differencers {
  import opened Base
  import opened Masks

  /** The methods listed in `SUBTRACTION_METHODS`. */
  datatype Method = AbsDiffMethod | MogMethod | Mog2Method | KnnMethod

  /** The three learned background models. */
  datatype Flavour = Mog | Mog2 | Knn

  datatype Error = UnsupportedMethod(name: string)

  /** The name under which each method is selected. */
  function Name(m: Method): string {
    match m
    case AbsDiffMethod => "absdiff"
    case MogMethod => "mog"
    case Mog2Method => "mog2"
    case KnnMethod => "knn"
  }

  /** Every selectable name, in the order of `SUBTRACTION_METHODS`. */
  const MethodNames: seq<string> := ["absdiff", "mog", "mog2", "knn"]

  /** The membership test at the top of `create_silhouette`: an unknown
      name is a `ValueError`. */
  function ParseMethod(name: string): (r: Result<Method, Error>)
    ensures r.Success? <==> name in MethodNames
    ensures r.Failure? ==> r.error == UnsupportedMethod(name)
    ensures r.Success? ==> Name(r.value) == name
  {
    if name == "absdiff" then Success(AbsDiffMethod)
    else if name == "mog" then Success(MogMethod)
    else if name == "mog2" then Success(Mog2Method)
    else if name == "knn" then Success(KnnMethod)
    else Failure(UnsupportedMethod(name))
  }

  /** Every method is selected by its own name. */
  lemma ParseName(m: Method)
    ensures ParseMethod(Name(m)) == Success(m)
  {
  }

  /** The OpenCV collaborator. `gray` is `cvtColor(_, COLOR_BGR2GRAY)`;
      `create(f)` is a newly created subtractor of flavour `f`; `apply(f, s, x)`
      feeds frame `x` to a subtractor in state `s`, giving its next state and
      the foreground mask. Every image of one run has `size` pixels. */
  datatype Vision<!F, !S> = Vision(
    size: nat,
    gray: F -> Mask,
    create: Flavour -> S,
    apply: (Flavour, S, F) -> (S, Mask))

  /** All masks OpenCV hands back have the run's resolution; `absdiff` and
      `addWeighted` raise an error on images of different sizes. */
  ghost predicate Valid<F(!new), S(!new)>(v: Vision<F, S>) {
    && (forall x :: |v.gray(x)| == v.size)
    && (forall f, s, x :: |v.apply(f, s, x).1| == v.size)
  }

  /** One side's differencing function: the stateless `frame_difference_absdiff`
      or a closure over its own background subtractor. */
  datatype Differencer<S> = AbsDiffer | Subtractor(flavour: Flavour, model: S)

  /** The background model a method uses, if any. */
  function FlavourOf(m: Method): Option<Flavour> {
    match m
    case AbsDiffMethod => None
    case MogMethod => Some(Mog)
    case Mog2Method => Some(Mog2)
    case KnnMethod => Some(Knn)
  }

  /** One freshly built differencing function for method `m`. */
  function Make<F, S>(v: Vision<F, S>, m: Method): Differencer<S> {
    match FlavourOf(m)
    case None => AbsDiffer
    case Some(f) => Subtractor(f, v.create(f))
  }

  /** The functions for the normal and the adjusted side. */
  datatype Pair<S> = Pair(normal: Differencer<S>, adjusted: Differencer<S>)

  /** The dispatch of app/__init__.py: `absdiff` shares one stateless
      function between the sides, the learned methods build one subtractor
      per side, each starting from a create model of the selected flavour. */
  function Build<F, S>(v: Vision<F, S>, m: Method): (r: Pair<S>)
    ensures m == AbsDiffMethod <==> r.normal.AbsDiffer?
    ensures r.normal.AbsDiffer? <==> r.adjusted.AbsDiffer?
    ensures r.normal.Subtractor? ==>
      && r.normal.flavour == r.adjusted.flavour
      && Some(r.normal.flavour) == FlavourOf(m)
      && r.normal.model == v.create(r.normal.flavour)
      && r.adjusted.model == v.create(r.adjusted.flavour)
  {
    Pair(Make(v, m), Make(v, m))
  }

  /** Absdiff needs the previous frame; a subtractor ignores it. */
  predicate CanApply<S, F>(d: Differencer<S>, previous: Option<F>) {
    d.AbsDiffer? ==> previous.Some?
  }

  /** One call `fn(current, previous)`: the mask it yields and the state of
      the function afterwards. */
  function Apply<F(!new), S(!new)>(v: Vision<F, S>, d: Differencer<S>, current: F, previous: Option<F>): (r: (Differencer<S>, Mask))
    requires Valid(v) && CanApply(d, previous)
    ensures |r.1| == v.size
    ensures r.0.AbsDiffer? <==> d.AbsDiffer?
    ensures d.AbsDiffer? ==> r.0 == d && r.1 == AbsDiff(v.gray(current), v.gray(previous.value))
    ensures d.Subtractor? ==> r.0.flavour == d.flavour && r.1 == v.apply(d.flavour, d.model, current).1
  {
    match d
    case AbsDiffer => (d, AbsDiff(v.gray(current), v.gray(previous.value)))
    case Subtractor(f, s) =>
      var (s', mask) := v.apply(f, s, current);
      (Subtractor(f, s'), mask)
  }

  /** The state of a differencing function after it has been fed `frames`,
      oldest first. */
  function Trained<F, S>(v: Vision<F, S>, d: Differencer<S>, frames: seq<F>): Differencer<S>
    decreases |frames|
  {
    if |frames| == 0 then d
    else
      var e := Trained(v, d, frames[..|frames| - 1]);
      match e
      case AbsDiffer => e
      case Subtractor(f, s) => Subtractor(f, v.apply(f, s, frames[|frames| - 1]).0)
  }

  /** The stateless function is never changed by what it is fed: two
      absdiff calls on the same frames give the same mask. */
  lemma {:induction false} AbsDifferUntrained<F, S>(v: Vision<F, S>, frames: seq<F>)
    ensures Trained(v, AbsDiffer, frames) == AbsDiffer
    decreases |frames|
  {
    if |frames| > 0 {
      AbsDifferUntrained(v, frames[..|frames| - 1]);
    }
  }
}
