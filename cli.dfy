/**
  The command-line options of `src/cli.rs`, after argument parsing: the scale
  and model value names, the declared defaults, and how the output path is
  resolved from an explicit argument or derived from the input path.
*/
module Cli {
  import opened Outcomes

  /** The upscaling factor (`-s`), one value name per variant. */
  datatype Scale = One | Two | Three | Four

  /** `Scale::as_str`: the variant's value name. */
  function ScaleName(s: Scale): (name: string)
    ensures |name| == 1 && '1' <= name[0] <= '4'
  {
    match s
    case One => "1"
    case Two => "2"
    case Three => "3"
    case Four => "4"
  }

  /** The variant a value name selects, as the `#[value(name = ...)]` attributes declare it. */
  function ScaleNamed(name: string): (s: Option<Scale>)
    ensures s.Some? ==> |name| == 1
  {
    if name == "1" then Some(One)
    else if name == "2" then Some(Two)
    else if name == "3" then Some(Three)
    else if name == "4" then Some(Four)
    else None
  }

  /** `as_str` returns exactly the declared value name: each name selects its own variant back. */
  lemma ScaleNameRoundTrip(s: Scale, name: string)
    ensures ScaleNamed(ScaleName(s)) == Some(s)
    ensures ScaleNamed(name) == Some(s) ==> ScaleName(s) == name
  {
  }

  /** Distinct scales are passed to the upscaler as distinct strings. */
  lemma ScaleNameInjective(a: Scale, b: Scale)
    ensures ScaleName(a) == ScaleName(b) ==> a == b
  {
    ScaleNameRoundTrip(a, ScaleName(a));
    ScaleNameRoundTrip(b, ScaleName(b));
  }

  /** The Real-ESRGAN model (`-m`). */
  datatype Model = AnimeVideoV3 | X4Plus | X4PlusAnime | NetX4Plus

  /** `Model::as_str`: the variant's value name. */
  function ModelName(m: Model): (name: string)
    ensures |name| >= 17 && name[..7] == "realesr"
  {
    match m
    case AnimeVideoV3 => "realesr-animevideov3"
    case X4Plus => "realesrgan-x4plus"
    case X4PlusAnime => "realesrgan-x4plus-anime"
    case NetX4Plus => "realesrnet-x4plus"
  }

  /** The variant a value name selects, as the `#[value(name = ...)]` attributes declare it. */
  function ModelNamed(name: string): (m: Option<Model>)
    ensures m.Some? ==> |name| >= 17
  {
    if name == "realesr-animevideov3" then Some(AnimeVideoV3)
    else if name == "realesrgan-x4plus" then Some(X4Plus)
    else if name == "realesrgan-x4plus-anime" then Some(X4PlusAnime)
    else if name == "realesrnet-x4plus" then Some(NetX4Plus)
    else None
  }

  lemma ModelNameRoundTrip(m: Model, name: string)
    ensures ModelNamed(ModelName(m)) == Some(m)
    ensures ModelNamed(name) == Some(m) ==> ModelName(m) == name
  {
  }

  lemma ModelNameInjective(a: Model, b: Model)
    ensures ModelName(a) == ModelName(b) ==> a == b
  {
    ModelNameRoundTrip(a, ModelName(a));
    ModelNameRoundTrip(b, ModelName(b));
  }

  /**
    The options as argument parsing leaves them: `maybeOutput` is the optional
    OUTPUT argument and `output` its hidden companion, empty until resolved.
  */
  datatype CliOptions = CliOptions(
    input: string,
    maybeOutput: Option<string>,
    output: string,
    windowSize: nat,
    scale: Scale,
    model: Model,
    convertVfr: bool)

  const DefaultWindowSize: nat := 100
  const DefaultScale: Scale := Two
  const DefaultModel: Model := AnimeVideoV3

  /**
    The options for an input path and optional output path when no flag is
    given: every declared default.
  */
  function Defaults(input: string, maybeOutput: Option<string>): (o: CliOptions)
    ensures o.input == input && o.maybeOutput == maybeOutput && o.output == ""
    ensures o.windowSize == 100 && ScaleName(o.scale) == "2"
    ensures ModelName(o.model) == "realesr-animevideov3" && !o.convertVfr
  {
    CliOptions(input, maybeOutput, "", DefaultWindowSize, DefaultScale, DefaultModel, false)
  }

  /** The position of the last occurrence of `c` in `s`, as `rsplit_once` finds it. */
  function LastIndexOf(s: string, c: char): (r: Option<nat>)
    ensures r.Some? ==> r.value < |s| && s[r.value] == c
    ensures r.Some? ==> forall j :: r.value < j < |s| ==> s[j] != c
    ensures r.None? <==> c !in s
    decreases |s|
  {
    if s == [] then None
    else if s[|s| - 1] == c then Some(|s| - 1)
    else LastIndexOf(s[..|s| - 1], c)
  }

  const UpscaledSuffix: string := "_upscaled.mp4"

  /**
    `default_output`: the input path up to its last '.', then "_upscaled.mp4".
    A path with no '.' makes `unwrap` panic, here `None`.
  */
  function DefaultOutput(input: string): (out: Option<string>)
    ensures out.None? <==> '.' !in input
    ensures out.Some? ==> |out.value| < |input| + |UpscaledSuffix|
  {
    match LastIndexOf(input, '.')
    case None => None
    case Some(i) => Some(input[..i] + UpscaledSuffix)
  }

  /** The last '.' of a path is the one before an extension that has none. */
  lemma {:induction false} LastDotBeforeExtension(stem: string, ext: string)
    requires '.' !in ext
    ensures LastIndexOf(stem + "." + ext, '.') == Some(|stem|)
    decreases |ext|
  {
    var s := stem + "." + ext;
    if ext == [] {
      assert s[|s| - 1] == '.';
    } else {
      var shorter := ext[..|ext| - 1];
      assert s[..|s| - 1] == stem + "." + shorter;
      assert s[|s| - 1] == ext[|ext| - 1];
      assert ext[|ext| - 1] in ext;
      assert forall ch :: ch in shorter ==> ch in ext;
      LastDotBeforeExtension(stem, shorter);
    }
  }

  /**
    The extension, everything after the last '.', is what gets replaced: for any
    stem and any extension without a '.', the stem is kept whole, dots included.
  */
  lemma DefaultOutputKeepsStem(stem: string, ext: string)
    requires '.' !in ext
    ensures DefaultOutput(stem + "." + ext) == Some(stem + UpscaledSuffix)
  {
    LastDotBeforeExtension(stem, ext);
    assert (stem + "." + ext)[..|stem|] == stem;
  }

  lemma DefaultOutputExamples()
    ensures DefaultOutput("x.mp4") == Some("x_upscaled.mp4")
    ensures DefaultOutput("a.b.mkv") == Some("a.b_upscaled.mp4")
    ensures DefaultOutput("video") == None
  {
    assert "x" + "." + "mp4" == "x.mp4" && "x" + UpscaledSuffix == "x_upscaled.mp4";
    DefaultOutputKeepsStem("x", "mp4");
    assert "a.b" + "." + "mkv" == "a.b.mkv" && "a.b" + UpscaledSuffix == "a.b_upscaled.mp4";
    DefaultOutputKeepsStem("a.b", "mkv");
    assert "video"[0] != '.' && "video"[1] != '.' && "video"[2] != '.' && "video"[3] != '.' && "video"[4] != '.';
  }

  /**
    `CliOptions::parse` after argument parsing: an explicit OUTPUT wins, else the
    output is derived from the input (`None` where that panics); `maybe_output`
    is taken, leaving `None`, and nothing else changes.
  */
  function ResolveOutput(opts: CliOptions): (r: Option<CliOptions>)
    ensures r.None? <==> opts.maybeOutput.None? && '.' !in opts.input
    ensures r.Some? ==> r.value.maybeOutput.None?
    ensures r.Some? ==> r.value == opts.(maybeOutput := None, output := r.value.output)
    ensures r.Some? && opts.maybeOutput.Some? ==> r.value.output == opts.maybeOutput.value
    ensures r.Some? && opts.maybeOutput.None? ==> Some(r.value.output) == DefaultOutput(opts.input)
  {
    match opts.maybeOutput
    case Some(out) => Some(opts.(maybeOutput := None, output := out))
    case None =>
      match DefaultOutput(opts.input)
      case None => None
      case Some(out) => Some(opts.(maybeOutput := None, output := out))
  }

  /** With no OUTPUT argument, "clip.mkv" is written to "clip_upscaled.mp4". */
  lemma ResolveDefaultExample()
    ensures ResolveOutput(Defaults("clip.mkv", None)) ==
      Some(Defaults("clip.mkv", None).(output := "clip_upscaled.mp4"))
  {
    assert "clip" + "." + "mkv" == "clip.mkv" && "clip" + UpscaledSuffix == "clip_upscaled.mp4";
    DefaultOutputKeepsStem("clip", "mkv");
  }
}
