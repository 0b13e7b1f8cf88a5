/**
  The driver of `src/main.rs`: `main` checks the input and output paths and
  removes the output when re-encoding fails; `upscale_video` probes the input,
  converts a variable-framerate input once if asked to, then pulls the decoded
  frames through the PNG splitter window by window, has each window upscaled,
  and forwards the upscaled frames to the encoder in order.
*/
module App {
  import opened Outcomes
  import opened Decimal
  import opened Basics
  import PngStream
  import Ffmpeg
  import Cli

  // ---------------------------------------------------------------------------
  // Windows

  /**
    `frames / window_size + 1`: one more window than full ones, as written, so
    the least number of windows that together reach past the last frame.
  */
  function NumWindows(frames: nat, ws: nat): (n: nat)
    requires ws > 0
    ensures n >= 1 && (n - 1) * ws <= frames < n * ws
  {
    DivReaches(frames, ws, frames / ws);
    DivReaches(frames, ws, frames / ws + 1);
    frames / ws + 1
  }

  /** Every window starts within the frames: `first <= frames`, so `last - first` cannot underflow. */
  lemma WindowStartsInRange(frames: nat, ws: nat, i: nat)
    requires ws > 0 && i < NumWindows(frames, ws)
    ensures i * ws <= frames
  {
    DivReaches(frames, ws, i);
  }

  /** The number of frames in window `i`: `min(frames, first + window_size) - first`. */
  function WindowLength(frames: nat, ws: nat, i: nat): (n: nat)
    requires ws > 0 && i < NumWindows(frames, ws)
    ensures n <= ws
  {
    WindowStartsInRange(frames, ws, i);
    var first := i * ws;
    var last := if frames < first + ws then frames else first + ws;
    last - first
  }

  /** How many frames windows `0 .. i - 1` cover together. */
  function Covered(frames: nat, ws: nat, i: nat): nat
    requires ws > 0 && i <= NumWindows(frames, ws)
    decreases i
  {
    if i == 0 then 0 else Covered(frames, ws, i - 1) + WindowLength(frames, ws, i - 1)
  }

  lemma CoveredNext(frames: nat, ws: nat, i: nat)
    requires ws > 0 && i < NumWindows(frames, ws)
    ensures Covered(frames, ws, i + 1) == Covered(frames, ws, i) + WindowLength(frames, ws, i)
  {
  }

  /**
    The windows are contiguous: window `i` starts where the ones before it end,
    which is `i * window_size`, and they cover `min(frames, i * window_size)`.
  */
  lemma {:induction false} CoveredBefore(frames: nat, ws: nat, i: nat)
    requires ws > 0 && i <= NumWindows(frames, ws)
    ensures i < NumWindows(frames, ws) ==> Covered(frames, ws, i) == i * ws
    ensures Covered(frames, ws, i) == if frames < i * ws then frames else i * ws
    decreases i
  {
    if i > 0 {
      CoveredBefore(frames, ws, i - 1);
      WindowStartsInRange(frames, ws, i - 1);
      assert (i - 1) * ws + ws == i * ws;
      if i < NumWindows(frames, ws) {
        WindowStartsInRange(frames, ws, i);
      }
    }
  }

  /** The windows partition the frames: together they cover each frame exactly once. */
  lemma WindowsCoverAll(frames: nat, ws: nat)
    requires ws > 0
    ensures Covered(frames, ws, NumWindows(frames, ws)) == frames
  {
    var k := NumWindows(frames, ws);
    CoveredBefore(frames, ws, k);
    DivReaches(frames, ws, k);
  }

  /** All windows but the last are full. */
  lemma FullWindows(frames: nat, ws: nat, i: nat)
    requires ws > 0 && i + 1 < NumWindows(frames, ws)
    ensures WindowLength(frames, ws, i) == ws
  {
    WindowStartsInRange(frames, ws, i + 1);
    assert i * ws + ws == (i + 1) * ws;
  }

  /**
    The last window holds the remainder, so it is empty, and the upscaler runs
    on an empty directory, exactly when the window size divides the frame count.
  */
  lemma LastWindow(frames: nat, ws: nat)
    requires ws > 0
    ensures WindowLength(frames, ws, NumWindows(frames, ws) - 1) == frames % ws
    ensures WindowLength(frames, ws, NumWindows(frames, ws) - 1) == 0 <==> frames % ws == 0
  {
    var q := frames / ws;
    assert frames == q * ws + frames % ws;
  }

  /** The lengths of all windows, in order. */
  function WindowLengths(frames: nat, ws: nat): (ls: seq<nat>)
    requires ws > 0
    ensures |ls| == NumWindows(frames, ws)
  {
    seq(NumWindows(frames, ws), i requires 0 <= i < NumWindows(frames, ws) => WindowLength(frames, ws, i))
  }

  /** Every window holds `window_size` frames but the last, which holds the remainder. */
  lemma WindowLengthsContents(frames: nat, ws: nat)
    requires ws > 0
    ensures
      var ls := WindowLengths(frames, ws);
      (forall i :: 0 <= i < |ls| - 1 ==> ls[i] == ws) && ls[|ls| - 1] == frames % ws
  {
    var ls := WindowLengths(frames, ws);
    forall i | 0 <= i < |ls| - 1
      ensures ls[i] == ws
    {
      FullWindows(frames, ws, i);
    }
    LastWindow(frames, ws);
  }

  /** The sum of a sequence of counts. */
  function Sum(ls: seq<nat>): nat {
    if ls == [] then 0 else Sum(ls[..|ls| - 1]) + ls[|ls| - 1]
  }

  lemma {:induction false} SumCovered(frames: nat, ws: nat, i: nat)
    requires ws > 0 && i <= NumWindows(frames, ws)
    ensures Sum(WindowLengths(frames, ws)[..i]) == Covered(frames, ws, i)
    decreases i
  {
    if i > 0 {
      var ls := WindowLengths(frames, ws);
      assert ls[..i][..i - 1] == ls[..i - 1];
      SumCovered(frames, ws, i - 1);
    }
  }

  /** The window lengths add up to the frame count: no frame is skipped or read twice. */
  lemma WindowLengthsSum(frames: nat, ws: nat)
    requires ws > 0
    ensures Sum(WindowLengths(frames, ws)) == frames
  {
    var ls := WindowLengths(frames, ws);
    SumCovered(frames, ws, |ls|);
    assert ls[..|ls|] == ls;
    WindowsCoverAll(frames, ws);
  }

  lemma WindowExamples()
    ensures WindowLengths(25, 10) == [10, 10, 5]
    ensures WindowLengths(20, 10) == [10, 10, 0]
  {
    assert NumWindows(25, 10) == 3 && NumWindows(20, 10) == 3;
  }

  // ---------------------------------------------------------------------------
  // Frame slots

  /** `frame{k:04}.png`: the file a window's k-th frame is kept in, in both scratch directories. */
  function FrameName(k: nat): (name: string)
    ensures |name| >= 13 && name[..5] == "frame" && name[|name| - 4..] == ".png"
    ensures AllDigits(name[5..|name| - 4]) && Value(name[5..|name| - 4]) == k
  {
    ValueOfPadded(k, 4);
    var digits := ZeroPad(Decimal.Decimal(k), 4);
    var name := "frame" + digits + ".png";
    assert name[5..|name| - 4] == digits;
    name
  }

  /**
    Distinct slots have distinct file names, beyond 9999 too, where the number
    outgrows the padding: so a directory of frame files is a map from slot
    number to contents.
  */
  lemma FrameNameInjective(a: nat, b: nat)
    requires FrameName(a) == FrameName(b)
    ensures a == b
  {
    var na, nb := ZeroPad(Decimal.Decimal(a), 4), ZeroPad(Decimal.Decimal(b), 4);
    assert |na| == |nb|;
    assert na == FrameName(a)[5..5 + |na|];
    assert nb == FrameName(b)[5..5 + |nb|];
    PaddedDecimalInjective(a, b, 4);
  }

  lemma FrameNameExamples()
    ensures FrameName(7) == "frame0007.png"
    ensures FrameName(12345) == "frame12345.png"
  {
    FrameNameSeven();
    FrameNameFiveDigits();
  }

  lemma FrameNameSeven()
    ensures FrameName(7) == "frame0007.png"
  {
    assert ZeroPad(Decimal.Decimal(7), 4) == "0007" by {
      assert Decimal.Decimal(7) == "7";
      assert Zeros(3) == "000";
    }
  }

  lemma FrameNameFiveDigits()
    ensures FrameName(12345) == "frame12345.png"
  {
    assert ZeroPad(Decimal.Decimal(12345), 4) == "12345" by {
      assert Decimal.Decimal(1) == "1";
      assert Decimal.Decimal(12) == "12";
      assert Decimal.Decimal(123) == "123";
      assert Decimal.Decimal(1234) == "1234";
    }
  }

  // ---------------------------------------------------------------------------
  // The variable-framerate decision

  /**
    What probing the input gives `upscale_video`: the stream data, a report that
    the framerate is variable, or some other failure.
  */
  datatype ProbeResult = Probed(data: Ffmpeg.StreamData) | VariableFramerate | ProbeFailed

  datatype AppError =
    | ProbeError                  // `probe_video` failed
    | VfrRefused                  // "variable framerate input (try -c)"
    | ConversionFailed            // the conversion to a constant framerate failed
    | DecodeError(e: PngStream.SplitError)  // a frame could not be carved off the decoder's output

  datatype Decision = Proceed(data: Ffmpeg.StreamData) | Refuse(error: AppError) | ConvertFirst

  /** The match at the top of `upscale_video`. */
  function Decide(probe: ProbeResult, convertVfr: bool): (d: Decision)
    ensures d.ConvertFirst? <==> probe.VariableFramerate? && convertVfr
    ensures d.Proceed? <==> probe.Probed?
    ensures d.Proceed? ==> d.data == probe.data
    ensures probe.VariableFramerate? && !convertVfr ==> d == Refuse(VfrRefused)
  {
    match probe
    case Probed(data) => Proceed(data)
    case ProbeFailed => Refuse(ProbeError)
    case VariableFramerate => if convertVfr then ConvertFirst else Refuse(VfrRefused)
  }

  /**
    The recursion is at most one deep: the converted input is handled with
    conversion turned off, and then no input leads to a second conversion.
  */
  lemma ConvertsAtMostOnce(probe: ProbeResult)
    ensures !Decide(probe, false).ConvertFirst?
  {
  }

  /** The input `upscale_video` ends up decoding: its path and what probing it gave. */
  datatype Resolved = Resolved(path: string, data: Ffmpeg.StreamData)

  /**
    The programs `upscale_video` drives, as functions: what probing a path
    gives, where converting a path to a constant framerate puts the result,
    the bytes a decoder launched with given arguments writes, what the upscaler makes of one
    frame at a scale and model, and whether the upscaler download succeeds.
  */
  datatype Tools = Tools(
    probe: string -> ProbeResult,
    convert: string -> Option<string>,
    decode: seq<string> -> seq<PngStream.byte>,
    upscale: (string, string) -> (seq<PngStream.byte> -> seq<PngStream.byte>),
    downloadOk: bool)

  /**
    Which input gets decoded, without recursion: the input itself when it
    probes fine, else its converted copy when conversion is asked for and the
    copy probes fine.
  */
  function Source(tools: Tools, input: string, convertVfr: bool): (r: Result<Resolved, AppError>)
    ensures r.Ok? ==> tools.probe(r.value.path) == Probed(r.value.data)
    ensures r.Ok? ==> (r.value.path == input ||
      (convertVfr && tools.probe(input).VariableFramerate? && tools.convert(input) == Some(r.value.path)))
    ensures tools.probe(input).Probed? ==> r == Ok(Resolved(input, tools.probe(input).data))
    ensures tools.probe(input).ProbeFailed? ==> r == Err(ProbeError)
    ensures tools.probe(input).VariableFramerate? && !convertVfr ==> r == Err(VfrRefused)
    ensures tools.probe(input).VariableFramerate? && convertVfr && tools.convert(input).None? ==> r == Err(ConversionFailed)
    ensures tools.probe(input).VariableFramerate? && convertVfr && tools.convert(input).Some? ==>
      var c := tools.convert(input).value;
      r == match tools.probe(c)
        case Probed(d) => Ok(Resolved(c, d))
        case VariableFramerate => Err(VfrRefused)
        case ProbeFailed => Err(ProbeError)
  {
    var d := Decide(tools.probe(input), convertVfr);
    if d.Proceed? then Ok(Resolved(input, d.data))
    else if d.Refuse? then Err(d.error)
    else
      match tools.convert(input)
      case None => Err(ConversionFailed)
      case Some(converted) =>
        var d2 := Decide(tools.probe(converted), false);
        if d2.Proceed? then Ok(Resolved(converted, d2.data)) else Err(d2.error)
  }

  // ---------------------------------------------------------------------------
  // Scratch directories

  type Frame = seq<PngStream.byte>

  /** The two scratch directories of `upscale_video`, as maps from slot number to file contents. */
  class WorkDirs {
    var lores: map<nat, Frame>
    var hires: map<nat, Frame>

    /** Both directories freshly created, empty. */
    constructor ()
      ensures lores == map[] && hires == map[]
    {
      lores := map[];
      hires := map[];
    }
  }

  /** The frames of a window in slots `0 .. |files| - 1`. */
  function Slots(files: seq<Frame>): map<nat, Frame> {
    map k: nat | k < |files| :: files[k]
  }

  /** A frame written to the next free slot. */
  lemma SlotsAppend(files: seq<Frame>, f: Frame)
    ensures Slots(files + [f]) == Slots(files)[|files| := f]
  {
    var m, m' := Slots(files + [f]), Slots(files)[|files| := f];
    assert m.Keys == m'.Keys;
    forall k | k in m
      ensures m[k] == m'[k]
    {
    }
  }

  /** What the upscaler leaves in the high-resolution directory: one upscaled file per input file. */
  function Upscaled(dir: map<nat, Frame>, up: Frame -> Frame): (hi: map<nat, Frame>)
    ensures hi.Keys == dir.Keys
  {
    map k | k in dir :: up(dir[k])
  }

  /** The directory without slots `0 .. n - 1`. */
  function Drop(dir: map<nat, Frame>, n: nat): map<nat, Frame> {
    map k | k in dir && k >= n :: dir[k]
  }

  lemma DropOneMore(dir: map<nat, Frame>, n: nat)
    ensures Drop(dir, n) - {n} == Drop(dir, n + 1)
  {
    assert (Drop(dir, n) - {n}).Keys == Drop(dir, n + 1).Keys;
  }

  /** The files of slots `0 .. n - 1`, in ascending order, laid end to end. */
  function Gather(dir: map<nat, Frame>, n: nat): seq<PngStream.byte>
    requires forall k: nat :: k < n ==> k in dir
  {
    if n == 0 then [] else Gather(dir, n - 1) + dir[n - 1]
  }

  /** Slot `k`'s file comes right after the files of the slots below it. */
  lemma {:induction false} GatherOrder(dir: map<nat, Frame>, k: nat, n: nat)
    requires forall j: nat :: j < n ==> j in dir
    requires k < n
    ensures |Gather(dir, k)| + |dir[k]| <= |Gather(dir, n)|
    ensures Gather(dir, n)[|Gather(dir, k)|..|Gather(dir, k)| + |dir[k]|] == dir[k]
    decreases n
  {
    var lo := |Gather(dir, k)|;
    if n == k + 1 {
      assert Gather(dir, n) == Gather(dir, k) + dir[k];
    } else {
      GatherOrder(dir, k, n - 1);
      var g := Gather(dir, n - 1);
      assert Gather(dir, n) == g + dir[n - 1];
      assert Gather(dir, n)[lo..lo + |dir[k]|] == g[lo..lo + |dir[k]|];
    }
  }

  /** Every frame upscaled, in order, laid end to end: what the encoder is meant to receive. */
  function Joined(files: seq<Frame>, up: Frame -> Frame): seq<PngStream.byte> {
    if files == [] then [] else Joined(files[..|files| - 1], up) + up(files[|files| - 1])
  }

  lemma {:induction false} JoinedAppend(a: seq<Frame>, b: seq<Frame>, up: Frame -> Frame)
    ensures Joined(a + b, up) == Joined(a, up) + Joined(b, up)
    decreases |b|
  {
    if b == [] {
      assert a + b == a;
    } else {
      var b' := b[..|b| - 1];
      var last := b[|b| - 1];
      assert (a + b)[..|a + b| - 1] == a + b';
      assert (a + b)[|a + b| - 1] == last;
      assert Joined(a + b, up) == Joined(a + b', up) + up(last);
      assert Joined(b, up) == Joined(b', up) + up(last);
      JoinedAppend(a, b', up);
    }
  }

  /**
    Gathering the slots of an upscaled window gives the window's frames
    upscaled one by one, in order, each once.
  */
  lemma {:induction false} GatherUpscaled(files: seq<Frame>, up: Frame -> Frame, j: nat)
    requires j <= |files|
    ensures forall k: nat :: k < j ==> k in Upscaled(Slots(files), up)
    ensures Gather(Upscaled(Slots(files), up), j) == Joined(files[..j], up)
    decreases j
  {
    if j > 0 {
      GatherUpscaled(files, up, j - 1);
      assert files[..j][..j - 1] == files[..j - 1];
    }
  }

  /** A directory whose slots are all below `n` is empty once slots `0 .. n - 1` are removed. */
  lemma Cleared(dir: map<nat, Frame>, n: nat)
    requires forall k :: k in dir ==> k < n
    ensures Drop(dir, n) == map[]
  {
    assert Drop(dir, n).Keys == {};
  }

  // ---------------------------------------------------------------------------
  // One window

  /**
    The first loop of a window: `n` calls of `write_next`, the k-th into a new
    file in slot k. A failed call ends the loop, leaving its partial file.
  */
  method FillWindow(png: PngStream.PngStreamSplitter, dirs: WorkDirs, n: nat) returns (r: Outcome<PngStream.SplitError>)
    requires png.Valid() && dirs.lores == map[]
    modifies png, dirs
    ensures png.Valid() && dirs.hires == old(dirs.hires)
    ensures
      var b := PngStream.SplitMany(png.stream, old(png.pos), n);
      r == b.outcome && png.pos == b.next && dirs.lores == Slots(b.files)
  {
    ghost var s, p0 := png.stream, png.pos;
    r := Pass;
    var k := 0;
    while k < n
      invariant png.Valid() && png.stream == s && k <= n && dirs.hires == old(dirs.hires) && r == Pass
      invariant
        var b := PngStream.SplitMany(s, p0, k);
        b.outcome.Pass? && png.pos == b.next && dirs.lores == Slots(b.files)
    {
      ghost var b := PngStream.SplitMany(s, p0, k);
      var f := new PngStream.Sink();
      r := png.WriteNext(f);
      NextFrame(s, p0, k, f.written, r, png.pos);
      dirs.lores := dirs.lores[k := f.written];
      SlotsAppend(b.files, f.written);
      if r.Fail? {
        PngStream.RunStops(s, PngStream.SplitStep(s), p0, k + 1, n);
        return;
      }
      k := k + 1;
    }
  }

  /** One more `write_next` call after `k` successful ones extends the run by what it wrote. */
  lemma NextFrame(s: seq<PngStream.byte>, p0: nat, k: nat, written: Frame, r: Outcome<PngStream.SplitError>, next: nat)
    requires p0 <= |s|
    requires
      var b := PngStream.SplitMany(s, p0, k);
      var st := PngStream.Split(s, b.next);
      b.outcome.Pass? && r == st.outcome && next == st.next && written == s[b.next..st.copiedTo]
    ensures
      var b := PngStream.SplitMany(s, p0, k);
      PngStream.SplitMany(s, p0, k + 1) == PngStream.Batch(b.files + [written], r, next)
  {
    PngStream.RunOneMore(s, PngStream.SplitStep(s), p0, k);
  }

  /**
    The second loop of a window: slot by slot in ascending order, the
    upscaled file is copied into the encoder's input, then both files of the
    slot are removed.
  */
  method ForwardWindow(dirs: WorkDirs, encoder: PngStream.Sink, n: nat)
    requires forall k: nat :: k < n ==> k in dirs.lores && k in dirs.hires
    modifies dirs, encoder
    ensures encoder.written == old(encoder.written) + Gather(old(dirs.hires), n)
    ensures dirs.lores == Drop(old(dirs.lores), n) && dirs.hires == Drop(old(dirs.hires), n)
  {
    var k := 0;
    while k < n
      invariant k <= n
      invariant encoder.written == old(encoder.written) + Gather(old(dirs.hires), k)
      invariant dirs.lores == Drop(old(dirs.lores), k) && dirs.hires == Drop(old(dirs.hires), k)
    {
      assert k in dirs.hires && dirs.hires[k] == old(dirs.hires)[k];
      encoder.WriteAll(dirs.hires[k]);
      DropOneMore(old(dirs.lores), k);
      DropOneMore(old(dirs.hires), k);
      dirs.lores := dirs.lores - {k};
      dirs.hires := dirs.hires - {k};
      k := k + 1;
    }
  }

  /**
    One pass of the window loop: fill the slots, upscale them all, forward
    them in order. When every frame of the window is read, the encoder gets
    exactly the window's frames upscaled and both directories are left empty;
    when one fails, the encoder gets nothing of the window.
  */
  method RunWindow(png: PngStream.PngStreamSplitter, dirs: WorkDirs, encoder: PngStream.Sink, n: nat, up: Frame -> Frame)
    returns (r: Outcome<PngStream.SplitError>)
    requires png.Valid() && dirs.lores == map[] && dirs.hires == map[]
    modifies png, dirs, encoder
    ensures png.Valid()
    ensures
      var b := PngStream.SplitMany(png.stream, old(png.pos), n);
      r == b.outcome && png.pos == b.next
    ensures
      var b := PngStream.SplitMany(png.stream, old(png.pos), n);
      r.Pass? ==> encoder.written == old(encoder.written) + Joined(b.files, up)
    ensures r.Pass? ==> dirs.lores == map[] && dirs.hires == map[]
    ensures r.Fail? ==> encoder.written == old(encoder.written)
  {
    ghost var p0 := png.pos;
    r := FillWindow(png, dirs, n);
    if r.Fail? {
      return;
    }
    ghost var files := PngStream.SplitMany(png.stream, p0, n).files;
    dirs.hires := Upscaled(dirs.lores, up);
    GatherUpscaled(files, up, n);
    assert files[..n] == files;
    ForwardWindow(dirs, encoder, n);
    Cleared(Slots(files), n);
    Cleared(Upscaled(Slots(files), up), n);
  }

  // ---------------------------------------------------------------------------
  // All windows

  /** The first frame of the window holding frame `count - 1`, the last one read. */
  function FailedWindowStart(count: nat, ws: nat): (start: nat)
    requires ws > 0 && count >= 1
    ensures start < count
  {
    DivFloor(count - 1, ws);
    (count - 1) / ws * ws
  }

  /** Rounding down to a multiple of `m` never goes up. */
  lemma DivFloor(x: nat, m: nat)
    requires m > 0
    ensures x / m * m <= x
  {
    assert x == x / m * m + x % m;
  }

  lemma MulMonotone(a: nat, b: nat, c: nat)
    requires a <= b
    ensures a * c <= b * c
  {
  }

  /** The quotient is pinned by the multiples of the divisor around the dividend. */
  lemma DivBetween(x: nat, ws: nat, i: nat)
    requires ws > 0 && i * ws <= x < i * ws + ws
    ensures x / ws == i
  {
    var q := x / ws;
    assert q * ws <= x < q * ws + ws;
    if q < i {
      MulMonotone(q + 1, i, ws);
    } else if q > i {
      MulMonotone(i + 1, q, ws);
    }
  }

  /** A read that fails `m` frames into window `i` is placed in window `i`. */
  lemma FailedWindowStartOf(i: nat, ws: nat, m: nat)
    requires ws > 0 && 1 <= m <= ws
    ensures FailedWindowStart(i * ws + m, ws) == i * ws
  {
    DivBetween(i * ws + (m - 1), ws, i);
  }

  /**
    A window whose reads fail ends the whole run, and the frames before that
    window are exactly the frames of the windows before it.
  */
  lemma WindowFails(s: seq<PngStream.byte>, p0: nat, frames: nat, ws: nat, i: nat, done: nat, n: nat)
    requires p0 <= |s| && ws > 0 && i < NumWindows(frames, ws)
    requires done == Covered(frames, ws, i) && n == WindowLength(frames, ws, i)
    requires PngStream.SplitMany(s, p0, done).outcome.Pass?
    requires PngStream.SplitMany(s, PngStream.SplitMany(s, p0, done).next, n).outcome.Fail?
    ensures
      var b := PngStream.SplitMany(s, p0, done);
      var b2 := PngStream.SplitMany(s, b.next, n);
      var all := PngStream.SplitMany(s, p0, frames);
      all.outcome == b2.outcome && all.next == b2.next &&
      all.files[..FailedWindowStart(|all.files|, ws)] == b.files
  {
    var b := PngStream.SplitMany(s, p0, done);
    var b2 := PngStream.SplitMany(s, b.next, n);
    WindowBounds(frames, ws, i);
    FailedWindowStartOf(i, ws, |b2.files|);
    RunEndsInWindow(s, p0, done, n, frames);
  }

  /** Window `i` starts at `i * window_size` and ends within the frames. */
  lemma WindowBounds(frames: nat, ws: nat, i: nat)
    requires ws > 0 && i < NumWindows(frames, ws)
    ensures Covered(frames, ws, i) == i * ws
    ensures Covered(frames, ws, i) + WindowLength(frames, ws, i) <= frames
  {
    CoveredBefore(frames, ws, i);
    CoveredBefore(frames, ws, i + 1);
  }

  /** A run that fails within the calls `done .. done + n - 1` is the whole run of `frames` calls. */
  lemma RunEndsInWindow(s: seq<PngStream.byte>, p0: nat, done: nat, n: nat, frames: nat)
    requires p0 <= |s| && done + n <= frames
    requires PngStream.SplitMany(s, p0, done).outcome.Pass?
    requires PngStream.SplitMany(s, PngStream.SplitMany(s, p0, done).next, n).outcome.Fail?
    ensures
      var b := PngStream.SplitMany(s, p0, done);
      var b2 := PngStream.SplitMany(s, b.next, n);
      PngStream.SplitMany(s, p0, frames) == PngStream.Batch(b.files + b2.files, b2.outcome, b2.next)
  {
    PngStream.RunAppend(s, PngStream.SplitStep(s), p0, done, n);
    PngStream.RunStops(s, PngStream.SplitStep(s), p0, done + n, frames);
  }

  /**
    A window of `n` frames that all read extends what has been forwarded: when
    the run of `done` calls from `p0` passed with `written` holding its frames
    upscaled after `w0`, and the window's `n` calls then pass too, the run of
    `done + n` calls passes, stops where the window stopped, and `written'`
    holds its frames upscaled after `w0`. Stated for any step, so for
    successive `write_next` calls in particular.
  */
  lemma WindowExtends(s: seq<PngStream.byte>, step: nat -> PngStream.Stop, p0: nat, done: nat, n: nat, done': nat,
                      b: PngStream.Batch, w0: seq<PngStream.byte>, up: Frame -> Frame,
                      pos': nat, written': seq<PngStream.byte>)
    requires PngStream.Steps(s, step) && p0 <= |s| && done' == done + n
    requires b == PngStream.Run(s, step, p0, done) && b.outcome.Pass?
    requires PngStream.Run(s, step, b.next, n).outcome.Pass?
    requires pos' == PngStream.Run(s, step, b.next, n).next
    requires written' == w0 + Joined(b.files, up) + Joined(PngStream.Run(s, step, b.next, n).files, up)
    ensures
      var after := PngStream.Run(s, step, p0, done');
      after.outcome.Pass? && pos' == after.next && written' == w0 + Joined(after.files, up)
  {
    var b2 := PngStream.Run(s, step, b.next, n);
    PngStream.RunAppend(s, step, p0, done, n);
    JoinedAppend(b.files, b2.files, up);
    AppendAssociates(w0, Joined(b.files, up), Joined(b2.files, up));
  }

  /** `WindowExtends` for successive `write_next` calls. */
  lemma WindowForwarded(s: seq<PngStream.byte>, p0: nat, done: nat, n: nat, done': nat,
                        b: PngStream.Batch, w0: seq<PngStream.byte>, up: Frame -> Frame,
                        pos': nat, written': seq<PngStream.byte>)
    requires done' == done + n
    requires p0 <= |s| && b == PngStream.SplitMany(s, p0, done) && b.outcome.Pass?
    requires PngStream.SplitMany(s, b.next, n).outcome.Pass?
    requires pos' == PngStream.SplitMany(s, b.next, n).next
    requires written' == w0 + Joined(b.files, up) + Joined(PngStream.SplitMany(s, b.next, n).files, up)
    ensures
      var after := PngStream.SplitMany(s, p0, done');
      after.outcome.Pass? && pos' == after.next && written' == w0 + Joined(after.files, up)
  {
    WindowExtends(s, PngStream.SplitStep(s), p0, done, n, done', b, w0, up, pos', written');
  }

  lemma AppendAssociates(a: seq<PngStream.byte>, b: seq<PngStream.byte>, c: seq<PngStream.byte>)
    ensures a + b + c == a + (b + c)
  {
  }

  /**
    The window loop of `upscale_video`. When all `frames` frames are read, the
    encoder receives every decoded frame upscaled, in decoder order, each
    exactly once, however the frames fall into windows. When a read fails,
    the frames of the windows before the failing one have reached the encoder,
    and none of the failing window.
  */
  method RunWindows(png: PngStream.PngStreamSplitter, dirs: WorkDirs, encoder: PngStream.Sink,
                    frames: nat, ws: nat, up: Frame -> Frame)
    returns (r: Outcome<PngStream.SplitError>)
    requires png.Valid() && ws > 0 && dirs.lores == map[] && dirs.hires == map[]
    modifies png, dirs, encoder
    ensures png.Valid()
    ensures
      var b := PngStream.SplitMany(png.stream, old(png.pos), frames);
      r == b.outcome && png.pos == b.next
    ensures
      var b := PngStream.SplitMany(png.stream, old(png.pos), frames);
      r.Pass? ==> encoder.written == old(encoder.written) + Joined(b.files, up)
    ensures
      var b := PngStream.SplitMany(png.stream, old(png.pos), frames);
      r.Fail? ==> encoder.written == old(encoder.written) + Joined(b.files[..FailedWindowStart(|b.files|, ws)], up)
    ensures r.Pass? ==> dirs.lores == map[] && dirs.hires == map[]
  {
    ghost var s, p0, w0 := png.stream, png.pos, encoder.written;
    var nWindows := frames / ws + 1;
    var i := 0;
    ghost var done := 0;
    r := Pass;
    ghost var b := PngStream.SplitMany(s, p0, 0);
    while i < nWindows
      invariant png.Valid() && png.stream == s && i <= nWindows && r == Pass
      invariant done == Covered(frames, ws, i)
      invariant b == PngStream.SplitMany(s, p0, done)
      invariant b.outcome.Pass? && png.pos == b.next && encoder.written == w0 + Joined(b.files, up)
      invariant dirs.lores == map[] && dirs.hires == map[]
    {
      var n := WindowLength(frames, ws, i);
      r := RunWindow(png, dirs, encoder, n, up);
      if r.Fail? {
        WindowFails(s, p0, frames, ws, i, done, n);
        return;
      }
      ghost var before := done;
      done := done + n;
      WindowForwarded(s, p0, before, n, done, b, w0, up, png.pos, encoder.written);
      CoveredNext(frames, ws, i);
      b := PngStream.SplitMany(s, p0, done);
      i := i + 1;
    }
    WindowsCoverAll(frames, ws);
  }

  // ---------------------------------------------------------------------------
  // Child processes

  /**
    A spawned ffmpeg process, seen from the parent: its arguments, whether the
    parent still holds its end of the child's pipe, and whether it has exited.
  */
  class Child {
    const args: seq<string>
    var pipeOpen: bool
    var exited: bool

    /** `spawn`, with `stdin` or `stdout` piped to the parent. */
    constructor (cmd: Ffmpeg.Command)
      ensures args == cmd.args && pipeOpen && !exited
    {
      args := cmd.args;
      pipeOpen := true;
      exited := false;
    }

    /** Dropping the parent's end of the pipe. */
    method ClosePipe()
      modifies this
      ensures !pipeOpen && exited == old(exited)
    {
      pipeOpen := false;
    }

    /**
      `wait`. While the parent holds the pipe the child may never finish: the
      encoder waits for the end of its input, the decoder for room to write.
    */
    method Wait() returns (hung: bool)
      modifies this
      ensures hung == old(pipeOpen) && pipeOpen == old(pipeOpen)
      ensures exited == (old(exited) || !old(pipeOpen))
    {
      hung := pipeOpen;
      if !pipeOpen {
        exited := true;
      }
    }
  }

  /**
    The end of `upscale_video`: both pipes are dropped before either process is
    waited for, so neither wait hangs and both processes have exited.
  */
  method Shutdown(decoder: Child, encoder: Child)
    requires decoder != encoder
    modifies decoder, encoder
    ensures !decoder.pipeOpen && !encoder.pipeOpen && decoder.exited && encoder.exited
  {
    decoder.ClosePipe();
    encoder.ClosePipe();
    var decoderHung := decoder.Wait();
    var encoderHung := encoder.Wait();
    assert !decoderHung && !encoderHung;
  }

  // ---------------------------------------------------------------------------
  // Files

  /** The paths that name existing files. */
  class FileSystem {
    var present: set<string>

    constructor (present: set<string>)
      ensures this.present == present
    {
      this.present := present;
    }

    /** `file_exists`. */
    method Exists(path: string) returns (b: bool)
      ensures b <==> path in present
    {
      b := path in present;
    }

    /** The encoder creating its output file. */
    method Create(path: string)
      modifies this
      ensures present == old(present) + {path}
    {
      present := present + {path};
    }

    /** `fs::remove_file` with its error ignored: an absent path is no change. */
    method Remove(path: string)
      modifies this
      ensures present == old(present) - {path}
    {
      present := present - {path};
    }
  }

  // ---------------------------------------------------------------------------
  // upscale_video and main

  /** How `upscale_video` ends: it returns, returns an error, or panics. */
  datatype Ending = Ended | Errored(error: AppError) | Panicked

  /** The frames the decoder of a resolved input yields, read as `frames` PNG images. */
  function DecodedFrames(tools: Tools, src: Resolved): (b: PngStream.Batch)
    ensures b.outcome.Pass? ==> |b.files| == src.data.frames
    ensures b.outcome.Fail? ==> 1 <= |b.files| <= src.data.frames
  {
    PngStream.SplitMany(tools.decode(Ffmpeg.DecoderArgs(src.path)), 0, src.data.frames)
  }

  /**
    `upscale_video` once its input is decided: the encoder and then the decoder
    are launched on it, the encoder creating the output; a zero window size
    panics; otherwise every frame the decoder yields reaches the encoder
    upscaled and in order, or, when a frame cannot be read, the frames of the
    windows before it have. `launched` lists the arguments of each ffmpeg
    process started, in order; `reaped` says both processes were waited for
    and exited, which happens exactly on a successful end.
  */
  method Reencode(tools: Tools, src: Resolved, output: string, ws: nat,
                  scale: string, model: string, fs: FileSystem)
    returns (e: Ending, launched: seq<seq<string>>, sent: seq<PngStream.byte>, reaped: bool)
    modifies fs
    ensures fs.present == old(fs.present) + {output}
    ensures reaped <==> e == Ended
    ensures launched == [Ffmpeg.EncoderArgs(src.data.framerate, src.path, output), Ffmpeg.DecoderArgs(src.path)]
    ensures ws == 0 ==> e == Panicked && sent == []
    ensures
      var b := DecodedFrames(tools, src);
      ws > 0 && b.outcome.Pass? ==> e == Ended && sent == Joined(b.files, tools.upscale(scale, model))
    ensures
      var b := DecodedFrames(tools, src);
      ws > 0 && b.outcome.Fail? ==> (e == Errored(DecodeError(b.outcome.error)) &&
        sent == Joined(b.files[..FailedWindowStart(|b.files|, ws)], tools.upscale(scale, model)))
  {
    var dirs := new WorkDirs();
    var encoderCmd := Ffmpeg.LaunchEncoder(src.data.framerate, src.path, output);
    var encoderProc := new Child(encoderCmd);
    fs.Create(output);
    var encoderInput := new PngStream.Sink();
    var decoderCmd := Ffmpeg.LaunchDecoder(src.path);
    var decoderProc := new Child(decoderCmd);
    var png := new PngStream.PngStreamSplitter(tools.decode(decoderProc.args));
    launched := [encoderProc.args, decoderProc.args];
    if ws == 0 {
      return Panicked, launched, [], false;
    }
    var r := RunWindows(png, dirs, encoderInput, src.data.frames, ws, tools.upscale(scale, model));
    sent := encoderInput.written;
    if r.Fail? {
      return Errored(DecodeError(r.error)), launched, sent, false;
    }
    Shutdown(decoderProc, encoderProc);
    e, reaped := Ended, decoderProc.exited && encoderProc.exited;
  }

  /**
    `upscale_video`. Probing decides the input, converting it at most once, and
    that input is reencoded; an input that cannot be decided is an error
    before any process is launched or any file created.
  */
  method UpscaleVideo(tools: Tools, input: string, output: string, ws: nat,
                      scale: string, model: string, convertVfr: bool, fs: FileSystem)
    returns (e: Ending, launched: seq<seq<string>>, sent: seq<PngStream.byte>, reaped: bool)
    modifies fs
    decreases convertVfr
    ensures reaped <==> e == Ended
    ensures
      var src := Source(tools, input, convertVfr);
      src.Err? ==> e == Errored(src.error) && launched == [] && sent == [] && fs.present == old(fs.present)
    ensures
      var src := Source(tools, input, convertVfr);
      src.Ok? ==> (fs.present == old(fs.present) + {output} &&
        launched == [Ffmpeg.EncoderArgs(src.value.data.framerate, src.value.path, output),
                     Ffmpeg.DecoderArgs(src.value.path)])
    ensures Source(tools, input, convertVfr).Ok? && ws == 0 ==> e == Panicked && sent == []
    ensures
      var src := Source(tools, input, convertVfr);
      src.Ok? && ws > 0 ==>
        var b := DecodedFrames(tools, src.value);
        var up := tools.upscale(scale, model);
        (b.outcome.Pass? ==> e == Ended && sent == Joined(b.files, up)) &&
        (b.outcome.Fail? ==> (e == Errored(DecodeError(b.outcome.error)) &&
          sent == Joined(b.files[..FailedWindowStart(|b.files|, ws)], up)))
  {
    var decision := Decide(tools.probe(input), convertVfr);
    match decision
    case Refuse(error) =>
      return Errored(error), [], [], false;
    case ConvertFirst =>
      var converted := tools.convert(input);
      if converted.None? {
        return Errored(ConversionFailed), [], [], false;
      }
      e, launched, sent, reaped := UpscaleVideo(tools, converted.value, output, ws, scale, model, false, fs);
    case Proceed(data) =>
      e, launched, sent, reaped := Reencode(tools, Resolved(input, data), output, ws, scale, model, fs);
  }

  /** Why `main` fails. */
  datatype MainError =
    | InputMissing                 // "{input} doesn't exist"
    | OutputExists                 // "{output} already exists"
    | DownloadFailed               // "downloading Real-ESRGAN"
    | ReencodeFailed(error: AppError)  // "Reencoding failed!"

  /** How the program ends: it returns `Ok`, returns an error, or panics. */
  datatype Exit = Finished | Failed(error: MainError) | Crashed

  /**
    `main` on parsed options: the output is resolved, the input must exist and
    the output must not, the upscaler must be in place; then the video is
    reencoded, and an output left by a failed reencoding is removed. `sent` is
    what the encoder receives; nothing when a check fails before it is launched.
  */
  method RunMain(tools: Tools, parsed: Cli.CliOptions, fs: FileSystem)
    returns (exit: Exit, sent: seq<PngStream.byte>)
    modifies fs
    ensures Cli.ResolveOutput(parsed).None? ==> exit == Crashed && fs.present == old(fs.present)
    ensures
      var o := Cli.ResolveOutput(parsed);
      o.Some? && o.value.input !in old(fs.present) ==>
        exit == Failed(InputMissing) && fs.present == old(fs.present)
    ensures
      var o := Cli.ResolveOutput(parsed);
      o.Some? && o.value.input in old(fs.present) && o.value.output in old(fs.present) ==>
        exit == Failed(OutputExists) && fs.present == old(fs.present)
    ensures
      var o := Cli.ResolveOutput(parsed);
      o.Some? && o.value.input in old(fs.present) && o.value.output !in old(fs.present) && !tools.downloadOk ==>
        exit == Failed(DownloadFailed) && fs.present == old(fs.present)
    ensures exit.Failed? ==> fs.present == old(fs.present)
    ensures exit.Failed? && !exit.error.ReencodeFailed? ==> sent == []
    ensures
      var o := Cli.ResolveOutput(parsed);
      o.Some? && o.value.input in old(fs.present) && o.value.output !in old(fs.present) && tools.downloadOk ==>
        var opts := o.value;
        var src := Source(tools, opts.input, opts.convertVfr);
        (src.Err? ==> exit == Failed(ReencodeFailed(src.error)) && sent == []) &&
        (src.Ok? && opts.windowSize == 0 ==> exit == Crashed && fs.present == old(fs.present) + {opts.output}) &&
        (src.Ok? && opts.windowSize > 0 ==>
          var b := DecodedFrames(tools, src.value);
          var up := tools.upscale(Cli.ScaleName(opts.scale), Cli.ModelName(opts.model));
          (b.outcome.Pass? ==> exit == Finished) &&
          (b.outcome.Fail? ==>
            exit == Failed(ReencodeFailed(DecodeError(b.outcome.error))) &&
            sent == Joined(b.files[..FailedWindowStart(|b.files|, opts.windowSize)], up)))
    ensures exit == Finished ==>
      var opts := Cli.ResolveOutput(parsed).value;
      var src := Source(tools, opts.input, opts.convertVfr);
      src.Ok? && opts.windowSize > 0 && fs.present == old(fs.present) + {opts.output} &&
      var b := DecodedFrames(tools, src.value);
      b.outcome.Pass? &&
      sent == Joined(b.files, tools.upscale(Cli.ScaleName(opts.scale), Cli.ModelName(opts.model)))
  {
    sent := [];
    var resolved := Cli.ResolveOutput(parsed);
    if resolved.None? {
      return Crashed, sent;
    }
    var opts := resolved.value;
    var inputExists := fs.Exists(opts.input);
    if !inputExists {
      return Failed(InputMissing), sent;
    }
    var outputExists := fs.Exists(opts.output);
    if outputExists {
      return Failed(OutputExists), sent;
    }
    if !tools.downloadOk {
      return Failed(DownloadFailed), sent;
    }
    var ending, launched, written, reaped := UpscaleVideo(tools, opts.input, opts.output, opts.windowSize,
      Cli.ScaleName(opts.scale), Cli.ModelName(opts.model), opts.convertVfr, fs);
    match ending
    case Ended =>
      exit, sent := Finished, written;
    case Panicked =>
      exit, sent := Crashed, written;
    case Errored(error) =>
      fs.Remove(opts.output);
      exit, sent := Failed(ReencodeFailed(error)), written;
  }
}
