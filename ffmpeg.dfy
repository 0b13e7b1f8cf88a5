/**
  The ffmpeg side of `src/ffmpeg.rs`: the command lines of the encoder, the
  decoder and the probe, built by appending arguments to a command, and the
  checks `probe_video` makes on the stream records ffprobe reports.
*/
module Ffmpeg {
  import opened Outcomes
  import opened Decimal

  // ---------------------------------------------------------------------------
  // Commands

  /** How a child's standard stream is connected. */
  datatype Stdio = Inherit | Piped | Null

  /** A `std::process::Command` being configured: program, arguments so far, and stdio. */
  class Command {
    const program: string
    var args: seq<string>
    var stdin: Stdio
    var stdout: Stdio

    /** `Command::new`: no arguments, stdio inherited. */
    constructor (program: string)
      ensures this.program == program && args == [] && stdin == Inherit && stdout == Inherit
    {
      this.program := program;
      args := [];
      stdin := Inherit;
      stdout := Inherit;
    }

    /** `args`: appends the arguments in order. */
    method Args(more: seq<string>)
      modifies this
      ensures args == old(args) + more && stdin == old(stdin) && stdout == old(stdout)
    {
      args := args + more;
    }

    /** `arg`: appends one argument. */
    method Arg(a: string)
      modifies this
      ensures args == old(args) + [a] && stdin == old(stdin) && stdout == old(stdout)
    {
      args := args + [a];
    }

    method SetStdin(cfg: Stdio)
      modifies this
      ensures stdin == cfg && args == old(args) && stdout == old(stdout)
    {
      stdin := cfg;
    }

    method SetStdout(cfg: Stdio)
      modifies this
      ensures stdout == cfg && args == old(args) && stdin == old(stdin)
    {
      stdout := cfg;
    }
  }

  /** `BASIC_ARGS`: only errors are logged. */
  const BasicArgs: seq<string> := ["-loglevel", "error"]

  /** The encoder's arguments: PNG images on stdin at the given rate, audio from the original. */
  function EncoderArgs(framerate: string, originalSrc: string, outputPath: string): (a: seq<string>)
    ensures |a| > 0 && a[|a| - 1] == outputPath
  {
    BasicArgs
    + ["-f", "image2pipe", "-framerate", framerate, "-i", "-"]
    + ["-i", originalSrc]
    + ["-map", "0:v:0", "-map", "1:a:0?"]
    + ["-c:a", "copy", "-c:v", "libx265", "-x265-params", "log-level=none"]
    + [outputPath]
  }

  /** The decoder's arguments: every frame of the source as PNG images on stdout. */
  function DecoderArgs(sourceVideo: string): (a: seq<string>)
    ensures |a| > 0 && a[|a| - 1] == "-"
  {
    BasicArgs + ["-i", sourceVideo] + ["-c:v", "png", "-f", "image2pipe", "-"]
  }

  /** The probe's arguments: an exact frame count of the first video stream, as JSON. */
  function ProbeArgs(path: string): (a: seq<string>)
    ensures |a| > 0 && a[|a| - 1] == path
  {
    BasicArgs + ["-count_frames", "-select_streams", "v:0", "-show_streams", "-print_format", "json"] + [path]
  }

  /** `launch_encoder`, up to spawning: stdin is a pipe the PNG frames are written to. */
  method LaunchEncoder(framerate: string, originalSrc: string, outputPath: string) returns (cmd: Command)
    ensures fresh(cmd) && cmd.program == "ffmpeg"
    ensures cmd.args == EncoderArgs(framerate, originalSrc, outputPath)
    ensures cmd.stdin == Piped && cmd.stdout == Inherit
  {
    cmd := new Command("ffmpeg");
    cmd.Args(BasicArgs);
    cmd.Args(["-f", "image2pipe", "-framerate", framerate, "-i", "-"]);
    cmd.Args(["-i", originalSrc]);
    cmd.Args(["-map", "0:v:0", "-map", "1:a:0?"]);
    cmd.Args(["-c:a", "copy", "-c:v", "libx265", "-x265-params", "log-level=none"]);
    cmd.Arg(outputPath);
    cmd.SetStdin(Piped);
  }

  /** `launch_decoder`, up to spawning: stdin is closed off and stdout is a pipe. */
  method LaunchDecoder(sourceVideo: string) returns (cmd: Command)
    ensures fresh(cmd) && cmd.program == "ffmpeg"
    ensures cmd.args == DecoderArgs(sourceVideo)
    ensures cmd.stdin == Null && cmd.stdout == Piped
  {
    cmd := new Command("ffmpeg");
    cmd.Args(BasicArgs);
    cmd.Args(["-i", sourceVideo]);
    cmd.Args(["-c:v", "png", "-f", "image2pipe", "-"]);
    cmd.SetStdin(Null);
    cmd.SetStdout(Piped);
  }

  /**
    The command `probe_video` runs, as `output()` runs it: the report is
    captured from stdout, and the child gets no stdin.
  */
  method ProbeCommand(path: string) returns (cmd: Command)
    ensures fresh(cmd) && cmd.program == "ffprobe"
    ensures cmd.args == ProbeArgs(path)
    ensures cmd.stdin == Null && cmd.stdout == Piped
  {
    cmd := new Command("ffprobe");
    cmd.Args(BasicArgs);
    cmd.Args(["-count_frames", "-select_streams", "v:0", "-show_streams", "-print_format", "json"]);
    cmd.Arg(path);
    // What `output()` does to stdio before spawning.
    cmd.SetStdin(Null);
    cmd.SetStdout(Piped);
  }

  /** One command-line item as ffmpeg and ffprobe read it. */
  datatype Item =
    | Switch(name: string)               // an option that takes no value
    | Valued(name: string, value: string) // an option and the argument after it
    | Positional(arg: string)            // the output file (ffmpeg) or the input (ffprobe)

  /**
    Reads a command line from position `p` the way the tools do: a switch
    stands alone, any other option consumes the argument after it as its value,
    and a last argument with nothing after it is positional. Values are taken
    as they are, whatever they look like.
  */
  function ReadArgs(args: seq<string>, switches: set<string>, p: nat): (items: seq<Item>)
    requires p <= |args|
    ensures |items| <= |args| - p
    decreases |args| - p
  {
    if p == |args| then []
    else if args[p] in switches then [Switch(args[p])] + ReadArgs(args, switches, p + 1)
    else if p + 1 == |args| then [Positional(args[p])]
    else [Valued(args[p], args[p + 1])] + ReadArgs(args, switches, p + 2)
  }

  /**
    The encoder's command line, read back: the framerate of the piped input,
    the two inputs in order (the pipe, then the original for its audio), the
    stream mapping and codecs, and the output path last. It is read with no
    option taken as a switch; an output path spelled like one (`-y`) would be
    taken by ffmpeg as that switch instead.
  */
  lemma EncoderArgsReadBack(framerate: string, originalSrc: string, outputPath: string)
    ensures ReadArgs(EncoderArgs(framerate, originalSrc, outputPath), {}, 0) == [
      Valued("-loglevel", "error"), Valued("-f", "image2pipe"), Valued("-framerate", framerate),
      Valued("-i", "-"), Valued("-i", originalSrc), Valued("-map", "0:v:0"), Valued("-map", "1:a:0?"),
      Valued("-c:a", "copy"), Valued("-c:v", "libx265"), Valued("-x265-params", "log-level=none"),
      Positional(outputPath)]
  {
    var a := EncoderArgs(framerate, originalSrc, outputPath);
    assert a == ["-loglevel", "error", "-f", "image2pipe", "-framerate", framerate, "-i", "-",
      "-i", originalSrc, "-map", "0:v:0", "-map", "1:a:0?", "-c:a", "copy", "-c:v", "libx265",
      "-x265-params", "log-level=none", outputPath];
    EncoderShapeReadBack(a, framerate, originalSrc, outputPath);
  }

  /** Reading any 21 arguments laid out as the encoder's are. */
  lemma EncoderShapeReadBack(a: seq<string>, framerate: string, originalSrc: string, outputPath: string)
    requires |a| == 21
    requires a[0] == "-loglevel" && a[1] == "error" && a[2] == "-f"
    requires a[3] == "image2pipe" && a[4] == "-framerate" && a[5] == framerate
    requires a[6] == "-i" && a[7] == "-" && a[8] == "-i"
    requires a[9] == originalSrc && a[10] == "-map" && a[11] == "0:v:0"
    requires a[12] == "-map" && a[13] == "1:a:0?" && a[14] == "-c:a"
    requires a[15] == "copy" && a[16] == "-c:v" && a[17] == "libx265"
    requires a[18] == "-x265-params" && a[19] == "log-level=none" && a[20] == outputPath
    ensures ReadArgs(a, {}, 0) == [
      Valued("-loglevel", "error"), Valued("-f", "image2pipe"), Valued("-framerate", framerate),
      Valued("-i", "-"), Valued("-i", originalSrc), Valued("-map", "0:v:0"), Valued("-map", "1:a:0?"),
      Valued("-c:a", "copy"), Valued("-c:v", "libx265"), Valued("-x265-params", "log-level=none"),
      Positional(outputPath)]
  {
    assert ReadArgs(a, {}, 20) == [Positional(outputPath)];
    assert ReadArgs(a, {}, 18) == [Valued("-x265-params", "log-level=none"), Positional(outputPath)];
    assert ReadArgs(a, {}, 16) == [Valued("-c:v", "libx265")] + ReadArgs(a, {}, 18);
    assert ReadArgs(a, {}, 14) == [Valued("-c:a", "copy")] + ReadArgs(a, {}, 16);
    assert ReadArgs(a, {}, 12) == [Valued("-map", "1:a:0?")] + ReadArgs(a, {}, 14);
    assert ReadArgs(a, {}, 10) == [Valued("-map", "0:v:0")] + ReadArgs(a, {}, 12);
    assert ReadArgs(a, {}, 8) == [Valued("-i", originalSrc)] + ReadArgs(a, {}, 10);
    assert ReadArgs(a, {}, 6) == [Valued("-i", "-")] + ReadArgs(a, {}, 8);
    assert ReadArgs(a, {}, 4) == [Valued("-framerate", framerate)] + ReadArgs(a, {}, 6);
    assert ReadArgs(a, {}, 2) == [Valued("-f", "image2pipe")] + ReadArgs(a, {}, 4);
  }

  /** Different framerates, originals or outputs give different encoder command lines. */
  lemma EncoderArgsInjective(f1: string, s1: string, o1: string, f2: string, s2: string, o2: string)
    requires EncoderArgs(f1, s1, o1) == EncoderArgs(f2, s2, o2)
    ensures f1 == f2 && s1 == s2 && o1 == o2
  {
    assert EncoderArgs(f1, s1, o1)[5] == f1 && EncoderArgs(f2, s2, o2)[5] == f2;
    assert EncoderArgs(f1, s1, o1)[9] == s1 && EncoderArgs(f2, s2, o2)[9] == s2;
    assert EncoderArgs(f1, s1, o1)[20] == o1 && EncoderArgs(f2, s2, o2)[20] == o2;
  }

  /** The decoder reads the one source and writes PNG images to "-", its standard output. */
  lemma DecoderArgsReadBack(sourceVideo: string)
    ensures ReadArgs(DecoderArgs(sourceVideo), {}, 0) == [
      Valued("-loglevel", "error"), Valued("-i", sourceVideo), Valued("-c:v", "png"),
      Valued("-f", "image2pipe"), Positional("-")]
  {
    var a := DecoderArgs(sourceVideo);
    assert a == ["-loglevel", "error", "-i", sourceVideo, "-c:v", "png", "-f", "image2pipe", "-"];
    assert ReadArgs(a, {}, 6) == [Valued("-f", "image2pipe"), Positional("-")];
    assert ReadArgs(a, {}, 2) == [Valued("-i", sourceVideo), Valued("-c:v", "png")] + ReadArgs(a, {}, 6);
  }

  /** The options of ffprobe's that take no value, among those used here. */
  const ProbeSwitches: set<string> := {"-count_frames", "-show_streams"}

  /**
    The probe counts frames exactly, looks only at the first video stream and
    prints JSON; the path is read as the input unless it is itself spelled like
    one of the two switches.
  */
  lemma ProbeArgsReadBack(path: string)
    requires path !in ProbeSwitches
    ensures ReadArgs(ProbeArgs(path), ProbeSwitches, 0) == [
      Valued("-loglevel", "error"), Switch("-count_frames"), Valued("-select_streams", "v:0"),
      Switch("-show_streams"), Valued("-print_format", "json"), Positional(path)]
  {
    var a := ProbeArgs(path);
    assert a == ["-loglevel", "error", "-count_frames", "-select_streams", "v:0", "-show_streams",
      "-print_format", "json", path];
    assert ReadArgs(a, ProbeSwitches, 8) == [Positional(path)];
    assert ReadArgs(a, ProbeSwitches, 6) == [Valued("-print_format", "json"), Positional(path)];
    assert ReadArgs(a, ProbeSwitches, 5) == [Switch("-show_streams")] + ReadArgs(a, ProbeSwitches, 6);
    assert ReadArgs(a, ProbeSwitches, 3) == [Valued("-select_streams", "v:0")] + ReadArgs(a, ProbeSwitches, 5);
    assert ReadArgs(a, ProbeSwitches, 2) == [Switch("-count_frames")] + ReadArgs(a, ProbeSwitches, 3);
  }

  // ---------------------------------------------------------------------------
  // Probe validation

  /** One stream of ffprobe's JSON report, with the three fields read from it. */
  datatype StreamRecord = StreamRecord(rFrameRate: string, avgFrameRate: string, nbReadFrames: string)

  /** `StreamData`: the framerate as ffmpeg writes it (a fraction such as "30/1") and the frame count. */
  datatype StreamData = StreamData(framerate: string, frames: nat)

  datatype ProbeError =
    | StreamCount(n: nat)             // "{n} video streams in file"
    | VariableFramerate               // "variable framerate input"
    | BadFrameCount(e: ParseIntError) // `nb_read_frames` is not a `u64`

  /**
    The checks of `probe_video` on the decoded report: exactly one stream, the
    same text for the real and the average frame rate, and a frame count that
    parses as a `u64`, in that order.
  */
  function ValidateProbe(streams: seq<StreamRecord>): (r: Result<StreamData, ProbeError>)
    ensures |streams| != 1 ==> r == Err(StreamCount(|streams|))
    ensures |streams| == 1 && streams[0].rFrameRate != streams[0].avgFrameRate ==> r == Err(VariableFramerate)
    ensures r.Ok? <==>
      |streams| == 1 && streams[0].rFrameRate == streams[0].avgFrameRate && IsU64Text(streams[0].nbReadFrames)
    ensures r.Ok? ==> r.value.framerate == streams[0].rFrameRate
    ensures r.Ok? ==> r.value.frames == Value(Unsigned(streams[0].nbReadFrames)) < U64Limit
  {
    if |streams| != 1 then Err(StreamCount(|streams|))
    else
      var s := streams[|streams| - 1];
      if s.rFrameRate != s.avgFrameRate then Err(VariableFramerate)
      else
        ParseU64Accepts(s.nbReadFrames);
        match ParseU64(s.nbReadFrames)
        case Err(e) => Err(BadFrameCount(e))
        case Ok(n) => Ok(StreamData(s.rFrameRate, n))
  }

  /** A report of one constant-rate stream whose count ffprobe printed in decimal is accepted as is. */
  lemma ValidateProbeAccepts(framerate: string, frames: nat)
    requires frames < U64Limit
    ensures ValidateProbe([StreamRecord(framerate, framerate, Decimal.Decimal(frames))]) ==
      Ok(StreamData(framerate, frames))
  {
    ParseDecimal(frames);
  }

  /** The framerates are compared as text: "30/1" and "60/2" count as a variable framerate. */
  lemma FramerateComparedAsText()
    ensures ValidateProbe([StreamRecord("30/1", "60/2", "100")]) == Err(VariableFramerate)
  {
    assert "30/1"[0] != "60/2"[0];
  }

  /** An empty frame count is refused, as is a count with a sign and nothing else. */
  lemma FrameCountErrors(framerate: string)
    ensures ValidateProbe([StreamRecord(framerate, framerate, "")]) == Err(BadFrameCount(Empty))
    ensures ValidateProbe([StreamRecord(framerate, framerate, "-")]) == Err(BadFrameCount(InvalidDigit))
  {
  }
}
