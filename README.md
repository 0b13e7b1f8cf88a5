# upscaling, modelled in Dafny

`upscaling` upscales a video with Real-ESRGAN. It probes the input with
ffprobe, then starts an ffmpeg decoder that writes every frame to a pipe as
PNG images, back to back. It carves those images off the pipe one at a time
by walking the PNG chunk structure. It works through the frames in windows of
a fixed number: each window's frames go into a scratch directory, the
upscaler is run on that directory, and the upscaled frames are fed, in order,
to an ffmpeg encoder that writes the output video with the original's audio.

This project models that core and proves what it promises:

- `png_stream.dfy` (module `PngStream`) models the splitter. The reader is
  the bytes it will ever yield plus a read position, and a sink is the bytes
  written to it. `PngStreamSplitter.WriteNext` is proved equal to the
  function `Split`. `Split` is proved to carve exactly one well-formed image
  off the stream and leave the reader right after it. Successive calls
  (`SplitMany`) are proved to consume a stream of images exactly.
- `app.dfy` (module `App`) models `main` and `upscale_video`:
  - the window arithmetic;
  - the per-window loops over scratch directories, held as maps from slot
    number to file contents;
  - the variable-framerate decision;
  - the shutdown order of the two ffmpeg processes;
  - `main`'s checks on the input and output paths and its removal of the
    output when reencoding fails.

  `RunWindows` is proved to forward every decoded frame, upscaled, in decoder
  order and exactly once. When a frame cannot be read, it is proved to have
  forwarded exactly the frames of the windows before the failing one.
- `ffmpeg.dfy` (module `Ffmpeg`) models:
  - the three command lines, as built by appending to a `Command`, and what
    each one says when read as ffmpeg reads options;
  - the checks `probe_video` makes on ffprobe's report.
- `util.dfy` (module `Util`) models `pretty_time`, with a round trip back to
  seconds, and `progress_bar`, with its shape inside and past the maximum.
- `cli.dfy` (module `Cli`) models:
  - the scale and model value names;
  - the declared defaults;
  - the derivation of the default output path.
- `decimal.dfy` (module `Decimal`) models Rust's decimal formatting of
  integers (`{}` and `{:04}`) and `str::parse::<u64>`. `outcomes.dfy` holds
  `Option`, `Result` and `Outcome`. `basics.dfy` (module `Basics`) holds a
  repeated-character string and a fact about rounded-down division, which
  several modules share.

External programs are parameters of the model (`App.Tools`):
- what ffprobe reports for a path;
- where a conversion to a constant framerate puts its result;
- the bytes a decoder launched with given arguments writes;
- the upscaler, as a function from one frame to its upscaled version at a
  scale and model;
- whether the upscaler download succeeds.

The file system is the set of paths that exist (`App.FileSystem`).

`src/main.rs` expects `probe_video` to return a `VFRError` distinct from
other failures, and calls a `convert_vfr_to_cfr`. `src/ffmpeg.rs` defines
neither: its `probe_video` returns `Result<StreamData>` and refuses a
variable framerate as an ordinary error. The model follows each file as
written:
- `Ffmpeg.ValidateProbe` is what `src/ffmpeg.rs` does;
- `App.ProbeResult` is the three-way result `src/main.rs` expects.

## Model

| member | source | states |
|---|---|---|
| Decimal.Decimal | src/util.rs:69-75 | the `{}` rendering of a number is a non-empty string of digits with no leading zero |
| Decimal.ValueOfDecimal | src/util.rs:69-75 | the digits `{}` writes denote the number written |
| Decimal.DecimalInjective | src/util.rs:69-75 | distinct numbers render as distinct numerals |
| Decimal.ValueOfPadded | src/main.rs:117 | a `{:04}` numeral is all digits and still denotes its number, whatever the width |
| Decimal.PaddedDecimalInjective | src/main.rs:117 | `{:04}` keeps distinct numbers distinct, past four digits too |
| Decimal.ParseU64Accepts | src/ffmpeg.rs:76 | `parse::<u64>` accepts exactly one optional '+' followed by digits whose value is below 2^64, and returns that value |
| Decimal.ParseDecimal | src/ffmpeg.rs:76 | parsing the decimal rendering of any `u64` gives it back |
| Cli.ScaleName | src/cli.rs:61-69 | `Scale::as_str` is one digit from '1' to '4' |
| Cli.ScaleNamed | src/cli.rs:49-59 | the declared value names select a scale only for one-character names |
| Cli.ScaleNameRoundTrip | src/cli.rs:49-69 | `as_str` gives back the value name that selects the variant, and only that name selects it |
| Cli.ScaleNameInjective | src/cli.rs:61-69 | distinct scales reach the upscaler as distinct strings |
| Cli.ModelName | src/cli.rs:84-92 | `Model::as_str` is one of the "realesr…" model names, at least 17 characters |
| Cli.ModelNamed | src/cli.rs:72-82 | the declared value names select a model only for names of the model-name length |
| Cli.ModelNameRoundTrip | src/cli.rs:72-92 | `as_str` gives back the value name that selects the variant, and only that name selects it |
| Cli.ModelNameInjective | src/cli.rs:84-92 | distinct models reach the upscaler as distinct strings |
| Cli.Defaults | src/cli.rs:17-36 | without flags: window 100, scale "2", model "realesr-animevideov3", no vfr conversion, output unresolved |
| Cli.LastIndexOf | src/cli.rs:96 | `rsplit_once('.')` splits at a '.' with no '.' after it, and fails exactly when there is no '.' |
| Cli.DefaultOutput | src/cli.rs:95-97 | the default output exists exactly when the input has a '.' (otherwise `unwrap` panics) |
| Cli.LastDotBeforeExtension | src/cli.rs:96 | the split is at the dot before an extension that has none, whatever dots the stem holds |
| Cli.DefaultOutputKeepsStem | src/cli.rs:95-97 | the default output is the whole stem followed by "_upscaled.mp4": only the extension is replaced |
| Cli.DefaultOutputExamples | src/cli.rs:8 | x.mp4 gives x_upscaled.mp4, a.b.mkv gives a.b_upscaled.mp4, and a name without '.' has no default |
| Cli.ResolveOutput | src/cli.rs:38-46 | an explicit OUTPUT wins, otherwise the default is derived (failing exactly when there is none); `maybe_output` is taken and nothing else changes |
| Cli.ResolveDefaultExample | src/cli.rs:38-46 | with defaults and no OUTPUT, clip.mkv is written to clip_upscaled.mp4 |
| Util.TimeParts | src/util.rs:65-67 | hours·3600 + minutes·60 + seconds is the total, with minutes and seconds below 60 |
| Util.Group | src/util.rs:69-75 | a written group is digits followed by its unit letter |
| Util.WriteParts | src/util.rs:68-76 | the appends produce the hours and minutes groups only when non-zero, then the seconds group |
| Util.PrettyTime | src/util.rs:64-77 | `pretty_time` builds exactly the text `Pretty` describes |
| Util.RenderReadsBack | src/util.rs:68-76 | the rendered groups read back as h·3600 + m·60 + s seconds |
| Util.PrettyReadsBack | src/util.rs:64-77 | round trip: the text `pretty_time` writes reads back as the same number of seconds |
| Util.RenderUnits | src/util.rs:69-75 | 'h' appears iff there are hours, 'm' iff there are minutes, and the text ends in 's' |
| Util.PrettyUnits | src/util.rs:64-77 | 'h' appears iff the total is at least an hour, 'm' iff the leftover minutes are non-zero, and the text always ends in 's' |
| Util.PrettyExamples | src/util.rs:64-77 | 0 gives "0s", 3600 gives "1h0s", 3725 gives "1h2m5s" |
| Util.ProgressBar | src/util.rs:53-62 | the loops push '[', `(width-2)·value/max` '#', '.' up to `width-2` cells, and ']' |
| Util.BarBrackets | src/util.rs:55-61 | the bar opens with '[', closes with ']' and is never shorter than `width` |
| Util.BarWithinMax | src/util.rs:55-61 | up to `max`, the bar is exactly `width` long, '#' cells first, then '.' cells |
| Util.BarEnds | src/util.rs:55-61 | at `max` every cell is '#'; at 0 every cell is '.' |
| Util.BarPastMax | src/util.rs:55-61 | past `max` no '.' is drawn, and the bar is longer than `width` exactly when the fill reaches `width-1` |
| Util.BarPastMaxExample | src/util.rs:55-61 | width 3, value 3, max 2 draws "[#]", so past `max` the bar is not always longer |
| Util.FillMonotone | src/util.rs:56 | a larger value never fills fewer cells |
| Ffmpeg.Command.constructor | src/ffmpeg.rs:16 | a new command has no arguments and inherited stdio |
| Ffmpeg.Command.Args | src/ffmpeg.rs:17-28 | `args` appends the arguments in order and changes nothing else |
| Ffmpeg.Command.Arg | src/ffmpeg.rs:29 | `arg` appends one argument and changes nothing else |
| Ffmpeg.Command.SetStdin | src/ffmpeg.rs:30 | `stdin` sets only the input connection |
| Ffmpeg.Command.SetStdout | src/ffmpeg.rs:40 | `stdout` sets only the output connection |
| Ffmpeg.LaunchEncoder | src/ffmpeg.rs:11-31 | the encoder is ffmpeg with the encoder arguments and a piped stdin |
| Ffmpeg.LaunchDecoder | src/ffmpeg.rs:34-42 | the decoder is ffmpeg with the decoder arguments, a null stdin and a piped stdout |
| Ffmpeg.ProbeCommand | src/ffmpeg.rs:47-58 | the probe is ffprobe with the probe arguments, its stdout captured and no stdin, as `output()` runs it |
| Ffmpeg.EncoderArgs | src/ffmpeg.rs:9-29 | the encoder's argument list ends with the output path, where ffmpeg takes its output; what every argument means is `EncoderArgsReadBack` |
| Ffmpeg.DecoderArgs | src/ffmpeg.rs:34-38 | the decoder's argument list ends with "-", so the images go to stdout; what every argument means is `DecoderArgsReadBack` |
| Ffmpeg.ProbeArgs | src/ffmpeg.rs:47-57 | the probe's argument list ends with the path; what every argument means is `ProbeArgsReadBack` |
| Ffmpeg.EncoderArgsReadBack | src/ffmpeg.rs:16-29 | read as ffmpeg reads options, with none of them a switch: framerate of the piped input, pipe then original as inputs, stream maps, codecs, then the output path, whatever the framerate and the original are |
| Ffmpeg.EncoderArgsInjective | src/ffmpeg.rs:18-29 | different framerates, originals or outputs give different encoder command lines |
| Ffmpeg.DecoderArgsReadBack | src/ffmpeg.rs:35-38 | the decoder reads the one source and writes PNG images to "-" |
| Ffmpeg.ProbeArgsReadBack | src/ffmpeg.rs:47-57 | the probe counts frames, selects the first video stream, prints JSON, and takes the path as its input |
| Ffmpeg.ValidateProbe | src/ffmpeg.rs:62-77 | exactly one stream, equal framerate texts and a `u64` frame count are required, checked in that order; the result carries the framerate and the parsed count |
| Ffmpeg.ValidateProbeAccepts | src/ffmpeg.rs:65-77 | a report of one constant-rate stream with a decimal count is accepted unchanged |
| Ffmpeg.FramerateComparedAsText | src/ffmpeg.rs:72 | "30/1" against "60/2" is refused as variable: framerates are compared as text |
| Ffmpeg.FrameCountErrors | src/ffmpeg.rs:76 | an empty count and a lone '-' are refused with the matching parse errors |
| PngStream.BeU32 | src/png_stream.rs:28 | a big-endian length is below 2^32 |
| PngStream.BeU32OfBeBytes | src/png_stream.rs:28 | `from_be_bytes` inverts the big-endian encoding of a length |
| PngStream.CopyLength | src/png_stream.rs:33 | the copy length is the chunk length plus 4 for every length PNG allows, and wraps past 2^32 |
| PngStream.CopyLengthWraps | src/png_stream.rs:33 | `chunk_len + 4` is addition modulo 2^32 |
| PngStream.ChunkTurn | src/png_stream.rs:26-39 | one loop turn reads at least the 8-byte header, stays within the stream, and writes all it read when it passes |
| PngStream.Walk | src/png_stream.rs:25-40 | the chunk loop stays in the stream, writes all it read when it passes, and never reports a bad signature |
| PngStream.Split | src/png_stream.rs:14-45 | one call never moves back, writes a prefix of what it read (all of it when it passes), and writes nothing on a bad signature |
| PngStream.SignatureChecked | src/png_stream.rs:20-23 | a short or wrong signature fails with nothing written, and a call passes only after a correct signature |
| PngStream.TurnOverChunk | src/png_stream.rs:26-39 | a turn over an encoded chunk reads its length and type back, stopping after an IEND and going on after any other |
| PngStream.WalkImageChunks | src/png_stream.rs:25-40 | walking an image's chunks copies exactly them and stops right after IEND's CRC |
| PngStream.SplitImage | src/png_stream.rs:14-45 | round trip: a call at the start of a well-formed image passes, writes exactly the image, and moves 8 + Σ(12 + length) bytes on |
| PngStream.WalkWithoutIend | src/png_stream.rs:25-40 | chunks running to the end of the stream with no IEND among them are all copied, then the next header read fails |
| PngStream.MissingIendFails | src/png_stream.rs:14-45 | a signature and chunks with no IEND are refused with an unexpected end, after the whole stream is copied |
| PngStream.ChunkHeader | src/png_stream.rs:27-29 | the 8-byte header of an encoded chunk reads back as its length and type |
| PngStream.WalkTruncated | src/png_stream.rs:25-40 | a stream that stops inside an image's chunks fails, wherever the cut falls |
| PngStream.TruncatedImageFails | src/png_stream.rs:14-45 | an image cut short anywhere, in its signature or its chunks, is refused |
| PngStream.OversizedLengthWraps | src/png_stream.rs:33-35 | a 16-byte stream whose IEND declares 4294967292 data bytes is taken as a complete image, because the copy length wraps to 0 |
| PngStream.Run | src/main.rs:116-119 | k calls either all pass (k outputs) or stop at the first failure, within the stream |
| PngStream.SplitMany | src/main.rs:116-119 | k successive `write_next` calls give k images or stop at the first failure |
| PngStream.RunOneMore | src/main.rs:116-119 | one call more extends a passing run by that call's output |
| PngStream.RunStops | src/main.rs:116-119 | after a failed call, asking for more calls changes nothing |
| PngStream.RunAppend | src/main.rs:109-119 | two runs, the second starting where the first left the reader, are one run |
| PngStream.RunConsumes | src/png_stream.rs:14-45 | passing calls consume the stream exactly: their outputs end to end are the bytes read, none dropped or repeated |
| PngStream.SplitPassesOverImages | src/png_stream.rs:14-45 | over a stream of images, each call passes over exactly the next image |
| PngStream.SplitImages | src/png_stream.rs:14-45 | round trip: as many calls as images pass, the i-th writes the i-th image, and the reader ends after the last one |
| PngStream.Sink.constructor | src/main.rs:117 | a new frame file is empty |
| PngStream.Sink.WriteAll | src/png_stream.rs:23 | `write_all` appends the bytes |
| PngStream.PngStreamSplitter.constructor | src/png_stream.rs:10-12 | a new splitter reads its stream from the start |
| PngStream.PngStreamSplitter.ReadExact | src/png_stream.rs:21 | `read_exact` fills the buffer with the next bytes, or fails having read to the end |
| PngStream.PngStreamSplitter.CopyTo | src/png_stream.rs:34 | `io::copy(take(n))` copies the next n bytes, or all that remain, and reports how many |
| PngStream.PngStreamSplitter.CopyChunk | src/png_stream.rs:26-39 | one loop turn is `ChunkTurn`: same outcome, position and bytes written |
| PngStream.PngStreamSplitter.CopyChunks | src/png_stream.rs:25-40 | the loop is `Walk`: same outcome, position and bytes written |
| PngStream.PngStreamSplitter.WriteNext | src/png_stream.rs:14-45 | `write_next` is `Split`: same outcome, new position, and exactly the bytes it read up to where it stopped written |
| App.NumWindows | src/main.rs:108 | `frames / window_size + 1` is the least number of windows that reach past the last frame: one more than the full windows, so an empty last window when the size divides the count |
| App.WindowStartsInRange | src/main.rs:108-112 | every window starts within the frames, so `last - first` does not underflow |
| App.WindowLength | src/main.rs:110-112 | a window holds at most `window_size` frames |
| App.CoveredBefore | src/main.rs:108-112 | windows are contiguous: window i starts at i·window_size, and the first i cover min(frames, i·window_size) |
| App.WindowsCoverAll | src/main.rs:108-112 | the windows together cover every frame exactly once |
| App.FullWindows | src/main.rs:110-112 | every window but the last is full |
| App.LastWindow | src/main.rs:108-112 | the last window holds `frames % window_size` frames, and is empty exactly when the size divides the count |
| App.WindowLengthsContents | src/main.rs:108-112 | every window holds `window_size` frames except the last, which holds `frames % window_size` |
| App.WindowLengthsSum | src/main.rs:108-112 | the window lengths add up to the frame count |
| App.WindowExamples | src/main.rs:108-112 | 25 frames in windows of 10 give 10, 10, 5; 20 give 10, 10, 0 |
| App.FrameName | src/main.rs:117 | `frame{:04}.png` is "frame", a numeral of at least four digits whose value is the slot, then ".png" |
| App.FrameNameInjective | src/main.rs:117 | distinct slots have distinct `frame{:04}.png` names, past 9999 too |
| App.FrameNameExamples | src/main.rs:117 | slot 7 is frame0007.png and slot 12345 is frame12345.png |
| App.Decide | src/main.rs:75-84 | proceed exactly on good stream data, convert exactly on a variable framerate with -c, refuse a variable framerate without -c |
| App.ConvertsAtMostOnce | src/main.rs:83 | the recursive call, with conversion off, never converts again |
| App.Source | src/main.rs:74-85 | the decoded input is the input itself when it probes fine; with a variable framerate and -c it is the converted copy when that probes fine, the copy's probe error otherwise, and a failed conversion is its own error; without -c a variable framerate is refused |
| App.WorkDirs.constructor | src/main.rs:89-95 | the two scratch directories, low and high resolution, start empty |
| App.SlotsAppend | src/main.rs:117-118 | writing the next frame fills the next slot |
| App.Upscaled | src/main.rs:122 | the upscaler leaves one file in the high-resolution directory per file in the low-resolution one, under the same slot |
| App.GatherOrder | src/main.rs:125-129 | `Gather`, the slots sent in ascending order: slot k's file comes right after the files of the slots below it |
| App.JoinedAppend | src/main.rs:109-133 | `Joined`, every frame upscaled and laid end to end: frames sent window after window add up to the frames of both, in order |
| App.GatherUpscaled | src/main.rs:122-129 | reading the upscaled slots in order gives the window's frames upscaled one by one, each once |
| App.Cleared | src/main.rs:130-131 | removing every slot of a window empties the directory |
| App.FillWindow | src/main.rs:116-119 | the first loop is n `write_next` calls, the k-th output in slot k, stopping at the first failure |
| App.NextFrame | src/main.rs:118 | one more `write_next` extends the calls so far by what it wrote |
| App.ForwardWindow | src/main.rs:125-132 | the second loop sends the upscaled slots to the encoder in ascending order and removes both files of each slot |
| App.RunWindow | src/main.rs:113-132 | a window whose reads pass sends its frames upscaled and leaves both directories empty; a failing one sends nothing |
| App.FailedWindowStart | src/main.rs:109-119 | the frames before the failing window are fewer than those read |
| App.FailedWindowStartOf | src/main.rs:109-112 | a read failing m frames into window i is placed at the start of window i |
| App.WindowFails | src/main.rs:109-119 | a failing window ends the whole run, and the frames before it are exactly those of the earlier windows |
| App.WindowBounds | src/main.rs:110-112 | window i starts at i·window_size and ends within the frames |
| App.RunEndsInWindow | src/main.rs:116-119 | a run failing inside a window is the whole run of `frames` calls |
| App.WindowExtends | src/main.rs:109-133 | a window whose reads all pass extends the forwarded prefix by its frames upscaled, for any step function |
| App.WindowForwarded | src/main.rs:109-133 | the same for successive `write_next` calls |
| App.RunWindows | src/main.rs:108-133 | all frames read: the encoder gets every frame upscaled, in decoder order, each once, and both scratch directories end empty; a failed read: exactly the frames of the windows before the failing one |
| App.Child.constructor | src/main.rs:98-103 | a spawned process keeps its arguments, has its pipe open, and is running |
| App.Child.ClosePipe | src/main.rs:138-139 | dropping the pipe end closes it and nothing else |
| App.Child.Wait | src/main.rs:140-141 | waiting hangs exactly while the parent holds the pipe, and otherwise ends with the child exited |
| App.Shutdown | src/main.rs:137-141 | both pipes are dropped before either wait, so neither wait hangs and both processes exit |
| App.FileSystem.constructor | src/main.rs:31-32 | the file system starts with the given paths |
| App.FileSystem.Exists | src/main.rs:31-32 | `file_exists` is true exactly for present paths |
| App.FileSystem.Create | src/main.rs:98 | the encoder adds its output path |
| App.FileSystem.Remove | src/main.rs:60 | `remove_file`, its error ignored, removes the path if present |
| App.DecodedFrames | src/main.rs:102-104 | the decoder's output read as `frames` images gives that many or stops at the first failure |
| App.Reencode | src/main.rs:86-143 | encoder then decoder are launched and the output created; window 0 panics; otherwise the encoder gets every frame upscaled in order, or on a failed read exactly the windows before it, with that error; both processes are waited for and exited exactly on a successful end |
| App.UpscaleVideo | src/main.rs:65-144 | an input that cannot be decided is an error before any launch or file; otherwise the decided input, converted at most once, is reencoded as `Reencode` states, processes reaped exactly on success |
| App.RunMain | src/main.rs:21-63 | a missing input, an existing output or a failed download fail with the file system untouched. Past those checks, an input that cannot be decided fails with its error and nothing sent; a window size of 0 crashes and leaves the output; a failed read fails with that error, the output removed, after sending exactly the windows before it; all frames read means success. Success means every frame reached the encoder upscaled with the chosen scale and model, and the output exists |

## Left out

- Process spawning, pipes and exit statuses are not modelled as such. A launched process is its argument list (`App.Child`). The decoder's output is a function of its arguments (`Tools.decode`). The exit statuses `wait` returns are ignored, as the source ignores them beyond I/O errors.
- The `libc::wait` in `main`'s error path is not modelled: it only reaps a child.
- The ctrl-c handler (`ctrlc_handler`) is not modelled: killing processes from a signal handler is concurrency.
- `src/realesrgan.rs` is not part of this model. Its download is the flag `Tools.downloadOk`. Its upscaler is a total function from a frame to its upscaled frame. Upscaler failures are not modelled.
- JSON decoding by serde and argument parsing by clap are not modelled. The probe's input is the list of stream records. The CLI's input is the parsed `Cli.CliOptions`.
- `TempDir`, `mktemp`, directory creation and removal, and `clear_line` are not modelled, and neither is console output (`print_flush!`, `println!`, the window counter).
- I/O errors (file creation, open, copy, remove, flush, wait) are not modelled. File operations always succeed, except the reads of the decoder's output.
- App.FileSystem.Create: the output file is treated as created when the encoder is launched. In reality ffmpeg creates it a little later.
- App.Reencode: the frame files of a failing window stay in the scratch directory, which `TempDir` removes. The model does not track them after the failure.
- App.Reencode: a zero window size divides by zero and panics, after both processes are launched and the output is created. `App.RunMain` then ends in `Crashed` and leaves the output behind, as the source does.
- App.RunWindows: `frames / window_size + 1` and `first + window_size` are unbounded here. In the source they are `u64`. They overflow exactly when `(frames / window_size + 1) * window_size` reaches 2^64, which needs `frames + window_size` to reach 2^64: a frame count near 2^64, or a window size above 2^63 with at least that many frames. `window_i * window_size` never exceeds `frames`.
- PngStream.CopyLength: a debug build panics on the overflow of `chunk_len + 4`. The model takes the wrapping of a release build (`PngStream.OversizedLengthWraps`).
- Util.ProgressBar: requires `width >= 2`, `max > 0` and `(width - 2) * value` below 2^64 (a 64-bit `usize`). `max == 0` divides by zero and panics in any build. A debug build panics on the underflow of `width - 2` and on the overflow of `iw * value`. A release build wraps both and draws a bar from the wrapped numbers. Neither outcome is modelled.
- Ffmpeg.EncoderArgsReadBack: reads the command line with no option taken as a switch. ffmpeg would read an output path spelled like one of its switches, such as `-y`, as that switch, and the model does not say what ffmpeg does then.
- Ffmpeg.ProbeArgsReadBack: requires the path not to be spelled like one of the two switches. Such a path would be read as a switch by ffprobe itself.
- The `VFRError` type and `convert_vfr_to_cfr` are not defined in `src/ffmpeg.rs`. Probing as `src/main.rs` sees it is `Tools.probe`, and the conversion is `Tools.convert`.
- App.Child.Wait: a wait while the pipe is still held is reported as a hang rather than blocking. The shutdown order is proved never to reach that case.
- The scratch directories are modelled by slot number. `App.FrameNameInjective` proves that slot numbers and file names correspond one to one.
