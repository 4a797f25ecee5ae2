/** The decisions `main` in run.py takes around one call of
    `create_silhouette`: which output extension it accepts, which codec it
    picks, whether it keeps multithreading, whether it deletes the partial
    output, and what it releases. */
module Runner {
  import opened Base
  import Differencers
  import opened Silhouette
  import Runs

  /** `str.rfind`: the last index of `c` in `p`, or -1. */
  function RFind(p: string, c: char): (r: int)
    ensures -1 <= r < |p|
    ensures r == -1 <==> c !in p
    ensures r >= 0 ==> p[r] == c && forall j :: r < j < |p| ==> p[j] != c
    decreases |p|
  {
    if |p| == 0 then -1
    else if p[|p| - 1] == c then |p| - 1
    else RFind(p[..|p| - 1], c)
  }

  /** Whether `p[from..to]` holds a character other than a dot: the loop
      that skips the leading dots of a file name. */
  function HasNonDot(p: string, lo: nat, hi: nat): (r: bool)
    requires lo <= hi <= |p|
    ensures r <==> (exists j :: lo <= j < hi && p[j] != '.')
    decreases hi - lo
  {
    if lo == hi then false
    else if p[lo] != '.' then true
    else HasNonDot(p, lo + 1, hi)
  }

  /** `os.path.splitext` with POSIX separators: the extension starts at the
      last dot of the last path component, unless only dots precede it in
      that component (so `.avi` alone has no extension). */
  function SplitExt(p: string): (r: (string, string))
    ensures r.0 + r.1 == p
    ensures r.1 != [] ==> r.1[0] == '.' && '/' !in r.1 && '.' !in r.1[1..]
    ensures r.1 != [] ==> exists j :: 0 <= j < |r.0| && r.0[j] != '.' && '/' !in r.0[j..]
    // and conversely, a dot after a non-dot of the last component is always found
    ensures (exists j, k :: 0 <= j < k < |p| && p[j] != '.' && p[k] == '.' && '/' !in p[j..]) ==> r.1 != []
  {
    ExtensionFound(p);
    var sep := RFind(p, '/');
    var dot := RFind(p, '.');
    if dot > sep && HasNonDot(p, sep + 1, dot) then
      assert forall j :: dot < j < |p| ==> p[dot..][j - dot] == p[j];
      (p[..dot], p[dot..])
    else
      (p, [])
  }

  /** A dot that follows a non-dot character of the last path component is
      after the last separator, with that character in between. */
  lemma ExtensionFound(p: string)
    ensures (exists j, k :: 0 <= j < k < |p| && p[j] != '.' && p[k] == '.' && '/' !in p[j..]) ==>
      RFind(p, '.') > RFind(p, '/') && HasNonDot(p, RFind(p, '/') + 1, RFind(p, '.'))
  {
    if exists j, k :: 0 <= j < k < |p| && p[j] != '.' && p[k] == '.' && '/' !in p[j..] {
      var j, k :| 0 <= j < k < |p| && p[j] != '.' && p[k] == '.' && '/' !in p[j..];
      var sep := RFind(p, '/');
      var dot := RFind(p, '.');
      assert k <= dot;
      assert sep + 1 <= j < dot && p[j] != '.';
    }
  }

  /** The extensions in `formats_available`. */
  const Formats: seq<string> := [".mp4", ".avi"]

  /** `cv2.VideoWriter_fourcc`: four characters packed little-endian. */
  function Fourcc(a: char, b: char, c: char, d: char): int {
    (a as int % 256) + (b as int % 256) * 0x100 + (c as int % 256) * 0x1_0000 + (d as int % 256) * 0x100_0000
  }

  /** The codec used for `.avi`, and the one used for every other accepted extension. */
  const XvidFourcc: int := Fourcc('X', 'V', 'I', 'D')
  const Mp4Fourcc: int := 0x21

  /** How the call of `create_silhouette` ended: returning its value, by a
      `KeyboardInterrupt`, or by any other exception. */
  datatype Outcome = Returned(completed: bool) | Interrupted | Raised

  /** How a modelled pipeline run ended, if it has. */
  function OutcomeOf<F, S>(r: Result<Tick<F, S>, Differencers.Error>): Option<Outcome> {
    match r
    case Failure(_) => Some(Raised)
    case Success(Stopped(_, completed)) => Some(Returned(completed))
    case Success(Running(_)) => None
  }

  /** The command-line options `main` acts on. */
  datatype Args = Args(
    frameDifference: int,
    methodName: string,
    multithreaded: bool,
    disableSilhouette: bool,
    saveToFile: Option<string>)

  /** What can be released at the end. */
  datatype Resource = NormalCapture | AdjustedCapture | Writer | Windows

  /** What `main` did: whether it opened the second capture, whether it
      rejected the output path, the codec of the writer it created, the
      arguments it called `create_silhouette` with, whether it deleted the
      output file, and what it released, in order. */
  datatype Report = Report(
    adjustedOpened: bool,
    rejected: bool,
    fourcc: Option<int>,
    call: Option<(Config, string)>,
    outputDeleted: bool,
    released: seq<Resource>)

  /** Whether a resource was acquired in this run (the display windows are
      always closed). */
  predicate Acquired(r: Report, x: Resource) {
    match x
    case NormalCapture => true
    case AdjustedCapture => r.adjustedOpened
    case Writer => r.fourcc.Some?
    case Windows => true
  }

  /** The extension `main` checks, if an output path was given. */
  function Extension(args: Args): Option<string> {
    if args.saveToFile.Some? then Some(SplitExt(args.saveToFile.value).1) else None
  }

  /** `main`, given the number of logical CPUs and how the call of
      `create_silhouette` ends (which matters only if it is made). */
  function Main(args: Args, cpus: nat, outcome: Outcome): (r: Report)
    // the second capture exists exactly when the silhouette is on
    ensures r.adjustedOpened <==> !args.disableSilhouette
    // an unsupported extension raises before any writer exists, and nothing is deleted
    ensures r.rejected <==> Extension(args).Some? && Extension(args).value !in Formats
    ensures r.rejected ==> r.fourcc.None? && r.call.None? && !r.outputDeleted
    // a writer exists exactly for an accepted extension; `.avi` means XVID, anything else 0x21
    ensures r.fourcc.Some? <==> Extension(args).Some? && !r.rejected
    ensures r.fourcc.Some? ==> r.fourcc.value == if Extension(args).value == ".avi" then XvidFourcc else Mp4Fourcc
    // the pipeline runs unless rejected, single-threaded on fewer than two CPUs
    ensures r.call.Some? <==> !r.rejected
    ensures r.call.Some? ==>
      && r.call.value.0 == Config(args.multithreaded && cpus >= 2, args.frameDifference, args.disableSilhouette, cpus)
      && r.call.value.1 == args.methodName
    // the partial file goes on every ending but a completed run
    ensures r.outputDeleted <==> r.fourcc.Some? && outcome != Returned(true)
    // everything acquired is released exactly once, whatever happened
    ensures forall x :: multiset(r.released)[x] == if Acquired(r, x) then 1 else 0
  {
    var adjustedOpened := !args.disableSilhouette;
    var ext := Extension(args);
    var rejected := ext.Some? && ext.value !in Formats;
    var fourcc := if ext.Some? && !rejected then Some(if ext.value == ".avi" then XvidFourcc else Mp4Fourcc) else None;
    var multithreaded := if cpus < 2 && args.multithreaded then false else args.multithreaded;
    var call := if rejected then None else Some((Config(multithreaded, args.frameDifference, args.disableSilhouette, cpus), args.methodName));
    var deleted :=
      if rejected then false
      else match outcome
        case Returned(completed) => fourcc.Some? && !completed
        case Interrupted => fourcc.Some?
        case Raised => fourcc.Some?;
    var released :=
      [NormalCapture]
      + (if adjustedOpened then [AdjustedCapture] else [])
      + (if fourcc.Some? then [Writer] else [])
      + [Windows];
    Report(adjustedOpened, rejected, fourcc, call, deleted, released)
  }

  /** An output path whose last component is only dots and an extension,
      such as `.mp4`, has no extension and is rejected. */
  lemma HiddenNameRejected()
    ensures SplitExt(".mp4").1 == []
    ensures Main(Args(15, "mog", false, false, Some(".mp4")), 4, Returned(true)).rejected
  {
    assert RFind(".mp4", '/') == -1;
    assert RFind(".mp4", '.') == 0;
  }

  /** `out.avi` is written with XVID. */
  lemma AviUsesXvid()
    ensures SplitExt("out.avi") == ("out", ".avi")
    ensures Main(Args(15, "mog", false, false, Some("out.avi")), 4, Returned(true)).fourcc == Some(XvidFourcc)
  {
    assert RFind("out.avi", '/') == -1 by {
      assert '/' !in "out.avi";
    }
    assert RFind("out.avi", '.') == 3 by {
      assert "out.avi"[..6] == "out.av";
      assert "out.avi"[..5] == "out.a";
      assert "out.avi"[..4] == "out.";
    }
    assert HasNonDot("out.avi", 0, 3);
    assert "out.avi"[..3] == "out";
    assert "out.avi"[3..] == ".avi";
  }

  /** A method name the pipeline does not know makes it raise, and `main`
      then deletes the output file exactly when it had created one. The
      command line only offers the four known names, so this path is
      reached only when `main`'s body is called with some other name. */
  lemma UnknownMethodDeletesOutput<F(!new), S(!new)>(v: Differencers.Vision<F, S>, video: seq<F>, args: Args, cpus: nat, inputs: seq<Input>)
    requires Differencers.Valid(v) && args.methodName !in Differencers.MethodNames
    requires !Main(args, cpus, Raised).rejected
    ensures var call := Main(args, cpus, Raised).call.value;
      OutcomeOf(Runs.CreateSilhouette(v, video, call.1, call.0, inputs)) == Some(Raised)
    ensures Main(args, cpus, Raised).outputDeleted <==> args.saveToFile.Some?
  {
  }
}
