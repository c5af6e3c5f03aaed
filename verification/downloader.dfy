/**
 * The download worker of app/downloader.py: the engine options built from a
 * request, the translation of the engine's progress callbacks and log calls
 * into queue events, the throttled cancellation hook, and `run_download`
 * itself as a function from an abstract engine run to the event trace it
 * pushes onto the queue.
 *
 * The engine (yt_dlp's `YoutubeDL`) is not modelled; it is replaced by an
 * `EngineScript`: the callbacks and log calls it makes, in order, followed
 * by a normal return or an exception.  The wall clock is the `now` carried
 * by each callback, and the cancel predicate is the list of its answers.
 */
module Downloader {
  import opened Base
  import opened Text
  import opened Numeric
  import opened Events

  // ---------------------------------------------------------------------
  // QueueLogger
  // ---------------------------------------------------------------------

  datatype Level = Debug | Info | Warning | Error

  /** The events `QueueLogger` pushes for one log call of the engine. */
  function LoggerEvents(level: Level, msg: string): (evs: seq<DownloadEvent>)
    ensures |evs| == 0 <==> level == Debug
    ensures |evs| <= 1 && NoDone(evs) && FractionsInRange(evs)
    ensures |evs| == 1 ==> evs[0].Log? && EndsWith(evs[0].message, msg)
    ensures level == Info ==> evs == [Log(msg)]
    ensures level == Warning ==> evs == [Log("Warning: " + msg)] && StartsWith(evs[0].message, "Warning: ")
    ensures level == Error ==> evs == [Log("Error: " + msg)] && StartsWith(evs[0].message, "Error: ")
  {
    match level
    case Debug => []
    case Info => [Log(msg)]
    case Warning => ConcatStartsEnds("Warning: ", msg); [Log("Warning: " + msg)]
    case Error => ConcatStartsEnds("Error: ", msg); [Log("Error: " + msg)]
  }

  // ---------------------------------------------------------------------
  // progress_hook
  // ---------------------------------------------------------------------

  /** The dict yt_dlp passes to a progress hook; every key may be missing. */
  datatype ProgressDict = ProgressDict(
    status: Option<string>,
    downloadedBytes: Option<real>,
    totalBytes: Option<real>,
    totalBytesEstimate: Option<real>,
    speed: Option<real>,
    eta: Option<real>,
    filename: Option<string>)

  /** `d.get("downloaded_bytes") or 0`. */
  function DownloadedOf(d: ProgressDict): real
  {
    OrElse(d.downloadedBytes, 0.0)
  }

  /** `d.get("total_bytes") or d.get("total_bytes_estimate") or 0`. */
  function TotalOf(d: ProgressDict): (t: real)
    ensures Truthy(d.totalBytes) ==> t == d.totalBytes.value
    ensures !Truthy(d.totalBytes) && Truthy(d.totalBytesEstimate) ==> t == d.totalBytesEstimate.value
    ensures !Truthy(d.totalBytes) && !Truthy(d.totalBytesEstimate) ==> t == 0.0
  {
    OrElse(d.totalBytes, OrElse(d.totalBytesEstimate, 0.0))
  }

  /** The fraction a "downloading" callback reports: `downloaded / total`, 0 without a total, clamped. */
  function Fraction(downloaded: real, total: real): (f: real)
    ensures 0.0 <= f <= 1.0
    ensures total == 0.0 ==> f == 0.0
    ensures total > 0.0 && 0.0 <= downloaded <= total ==> f == downloaded / total
    ensures total > 0.0 && downloaded > total ==> f == 1.0
  {
    var progress := if total != 0.0 then downloaded / total else 0.0;
    Clamp01(progress)
  }

  /** The progress event a "finished" callback pushes: only the value, 1.0. */
  const FinishedProgress: DownloadEvent := Progress(ProgressInfo(1.0, None, None, None, None))

  /** `progress_hook(d)`: the events pushed for one engine callback. */
  function ProgressHook(d: ProgressDict): (evs: seq<DownloadEvent>)
    ensures NoDone(evs) && FractionsInRange(evs)
    ensures d.status == Some("downloading") ==>
              |evs| == 1 && evs[0].Progress?
              && evs[0].info.value == Fraction(DownloadedOf(d), TotalOf(d))
              && evs[0].info.downloaded == Some(DownloadedOf(d))
              && evs[0].info.total == Some(TotalOf(d))
              && evs[0].info.speed == d.speed && evs[0].info.eta == d.eta
    ensures d.status == Some("finished") ==>
              && 2 <= |evs| <= 3
              && evs[0] == FinishedProgress
              && evs[|evs| - 1] == Log("Finalizing...")
              && (|evs| == 3 <==> d.filename.Some? && d.filename.value != "")
              && (|evs| == 3 ==> evs[1] == Log("Downloaded: " + d.filename.value))
    ensures d.status != Some("downloading") && d.status != Some("finished") ==> evs == []
  {
    if d.status == Some("downloading") then
      var downloaded := DownloadedOf(d);
      var total := TotalOf(d);
      [Progress(ProgressInfo(Fraction(downloaded, total), Some(downloaded), Some(total), d.speed, d.eta))]
    else if d.status == Some("finished") then
      [FinishedProgress]
      + (if d.filename.Some? && d.filename.value != "" then [Log("Downloaded: " + d.filename.value)] else [])
      + [Log("Finalizing...")]
    else []
  }

  // ---------------------------------------------------------------------
  // build_ydl_options
  // ---------------------------------------------------------------------

  /** The hooks yt_dlp calls, in list order, for every progress callback. */
  datatype Hook = ReportProgress | PollCancel

  /** The one post-processor the source configures: `FFmpegExtractAudio`. */
  datatype PostProcessor = ExtractAudio(preferredCodec: string, preferredQuality: string)

  /** The options dict handed to `YoutubeDL`; the logger is always a `QueueLogger` on the queue. */
  datatype YdlOptions = YdlOptions(
    outputTemplate: string,
    noPlaylist: bool,
    quiet: bool,
    noWarnings: bool,
    ffmpegLocation: Option<string>,
    format: string,
    postprocessors: seq<PostProcessor>,
    mergeOutputFormat: Option<string>,
    progressHooks: seq<Hook>)

  const OutputName: string := "%(title)s.%(ext)s"
  const AudioFormat: string := "bestaudio/best"
  const VideoFormat: string := "bestvideo[ext=mp4]+bestaudio[ext=m4a]/best[ext=mp4]/best"

  /** POSIX `os.path.join(dir, name)` for a relative `name`. */
  function JoinPath(dir: string, name: string): (p: string)
    ensures StartsWith(p, dir) && EndsWith(p, name)
    ensures |p| == |dir| + |name| || |p| == |dir| + 1 + |name|
  {
    if dir == "" || dir[|dir| - 1] == '/' then
      ConcatStartsEnds(dir, name); dir + name
    else
      JoinWithSlash(dir, name);
      dir + "/" + name
  }

  lemma JoinWithSlash(dir: string, name: string)
    ensures StartsWith(dir + "/" + name, dir) && EndsWith(dir + "/" + name, name)
  {
    ConcatStartsEnds(dir + "/", name);
    ConcatAssoc(dir, "/", name);
    ConcatStartsEnds(dir, "/" + name);
  }

  /**
   * `build_ydl_options(req, queue)`.  `ffmpegDir` is what `ffmpeg_dir()`
   * returns and `ffmpegDirExists` whether that directory exists.
   */
  function BuildOptions(req: DownloadRequest, ffmpegDir: string, ffmpegDirExists: bool): (o: YdlOptions)
    ensures o.noPlaylist && o.quiet && o.noWarnings
    ensures StartsWith(o.outputTemplate, req.saveDir) && EndsWith(o.outputTemplate, OutputName)
    ensures o.ffmpegLocation.Some? <==> ffmpegDirExists
    ensures o.ffmpegLocation.Some? ==> o.ffmpegLocation.value == ffmpegDir
    ensures |o.postprocessors| > 0 <==> req.mode == AudioMode
    ensures o.mergeOutputFormat.Some? <==> req.mode != AudioMode
    ensures req.mode == AudioMode ==>
              o.format == AudioFormat && o.postprocessors == [ExtractAudio("mp3", "192")]
    ensures req.mode != AudioMode ==>
              o.format == VideoFormat && o.mergeOutputFormat == Some("mp4")
    ensures o.progressHooks == [ReportProgress]
  {
    var common := YdlOptions(
      JoinPath(req.saveDir, OutputName), true, true, true,
      if ffmpegDirExists then Some(ffmpegDir) else None,
      "", [], None, [ReportProgress]);
    if req.mode == AudioMode then
      common.(format := AudioFormat, postprocessors := [ExtractAudio("mp3", "192")])
    else
      common.(format := VideoFormat, mergeOutputFormat := Some("mp4"))
  }

  // ---------------------------------------------------------------------
  // _progress_passthrough: the throttled cancel check
  // ---------------------------------------------------------------------

  /** Minimum time, in seconds, between two calls of the cancel predicate. */
  const PollInterval: real := 0.5

  /** `last_stop_poll`: the time of the latest poll, 0.0 before the first. */
  function LastPoll(polls: seq<real>): real
  {
    if |polls| == 0 then 0.0 else polls[|polls| - 1]
  }

  /** The answer of the cancel predicate on its `k`-th call; calls past the list answer false. */
  function Answer(answers: seq<bool>, k: nat): bool
  {
    k < |answers| && answers[k]
  }

  /** Consecutive polls are at least `PollInterval` apart, and the first is not earlier than it. */
  predicate SpacedPolls(polls: seq<real>)
  {
    && (|polls| > 0 ==> polls[0] >= PollInterval)
    && forall i :: 0 < i < |polls| ==> polls[i] - polls[i - 1] >= PollInterval
  }

  /** The result of one call of the cancel hook: the poll times so far and whether it raised. */
  datatype PollResult = PollResult(polls: seq<real>, raised: bool)

  /**
   * `_progress_passthrough(d)` at clock time `now`.  `polls` are the times
   * the predicate was called so far; `stop` the predicate's answers, or
   * `None` when `run_download` got no predicate.
   */
  function Passthrough(polls: seq<real>, now: real, stop: Option<seq<bool>>): (r: PollResult)
    ensures r.polls == polls || r.polls == polls + [now]
    ensures r.polls == polls + [now] <==> stop.Some? && now - LastPoll(polls) >= PollInterval
    ensures r.raised <==> r.polls == polls + [now] && Answer(stop.value, |polls|)
    ensures SpacedPolls(polls) ==> SpacedPolls(r.polls)
  {
    if stop.Some? && now - LastPoll(polls) >= PollInterval then
      PollResult(polls + [now], Answer(stop.value, |polls|))
    else PollResult(polls, false)
  }

  // ---------------------------------------------------------------------
  // The engine run
  // ---------------------------------------------------------------------

  /** The events of all hooks for one callback, the poll times, and whether a hook raised. */
  datatype HookRun = HookRun(events: seq<DownloadEvent>, polls: seq<real>, cancelled: bool)

  /** A prefix of a prefix is a prefix. */
  lemma PrefixTrans(a: seq<real>, b: seq<real>, c: seq<real>)
    requires |a| <= |b| && b[..|a|] == a
    requires |b| <= |c| && c[..|b|] == b
    ensures |a| <= |c| && c[..|a|] == a
  {
    assert c[..|a|] == c[..|b|][..|a|];
  }

  /** Calls the hooks in list order for one callback; a raising hook stops the rest. */
  function RunHooks(hooks: seq<Hook>, d: ProgressDict, now: real, polls: seq<real>,
                    stop: Option<seq<bool>>): (r: HookRun)
    ensures NoDone(r.events) && FractionsInRange(r.events)
    ensures SpacedPolls(polls) ==> SpacedPolls(r.polls)
    ensures |polls| <= |r.polls| && r.polls[..|polls|] == polls
    ensures r.cancelled ==> stop.Some?
    ensures PollCancel !in hooks ==> r.polls == polls && !r.cancelled
    decreases |hooks|
  {
    if |hooks| == 0 then HookRun([], polls, false)
    else match hooks[0]
      case ReportProgress =>
        var rest := RunHooks(hooks[1..], d, now, polls, stop);
        CleanConcat(ProgressHook(d), rest.events);
        HookRun(ProgressHook(d) + rest.events, rest.polls, rest.cancelled)
      case PollCancel =>
        var p := Passthrough(polls, now, stop);
        if p.raised then HookRun([], p.polls, true)
        else
          var rest := RunHooks(hooks[1..], d, now, p.polls, stop);
          PrefixTrans(polls, p.polls, rest.polls);
          HookRun(rest.events, rest.polls, rest.cancelled)
  }

  /** What the engine does: progress callbacks (with the clock reading) and log calls. */
  datatype EngineStep =
    | Callback(d: ProgressDict, now: real)
    | Message(level: Level, text: string)

  /** How `ydl.download` ends when no hook raised: a normal return or an exception message. */
  datatype EngineEnd = Returns | Raises(error: string)

  datatype EngineScript = EngineScript(steps: seq<EngineStep>, end: EngineEnd)

  /** The effect of the engine's steps up to the end or the first raising hook. */
  datatype EngineRun = EngineRun(events: seq<DownloadEvent>, polls: seq<real>, cancelled: bool)

  /** The events the hooks and the logger push while the engine runs the given steps. */
  function DriveEngine(hooks: seq<Hook>, steps: seq<EngineStep>, polls: seq<real>,
                       stop: Option<seq<bool>>): (r: EngineRun)
    ensures NoDone(r.events) && FractionsInRange(r.events)
    ensures SpacedPolls(polls) ==> SpacedPolls(r.polls)
    ensures |polls| <= |r.polls| && r.polls[..|polls|] == polls
    ensures r.cancelled ==> stop.Some?
    decreases |steps|
  {
    if |steps| == 0 then EngineRun([], polls, false)
    else match steps[0]
      case Message(level, text) =>
        var rest := DriveEngine(hooks, steps[1..], polls, stop);
        EngineRun(LoggerEvents(level, text) + rest.events, rest.polls, rest.cancelled)
      case Callback(d, now) =>
        var h := RunHooks(hooks, d, now, polls, stop);
        if h.cancelled then EngineRun(h.events, h.polls, true)
        else
          var rest := DriveEngine(hooks, steps[1..], h.polls, stop);
          assert rest.polls[..|polls|] == rest.polls[..|h.polls|][..|polls|];
          EngineRun(h.events + rest.events, rest.polls, rest.cancelled)
  }

  // ---------------------------------------------------------------------
  // run_download
  // ---------------------------------------------------------------------

  /**
   * What the filesystem says when `run_download` runs: whether the ffmpeg
   * binary is present in `ffmpeg_dir()`, that directory's path and whether
   * it exists, and whether the request's save folder exists.
   */
  datatype Environment = Environment(
    ffmpegBinaryPresent: bool,
    ffmpegDir: string,
    ffmpegDirExists: bool,
    saveDirExists: bool)

  const StartingMessage: string := "Starting download..."
  const FinishedMessage: string := "Finished!"
  const CancelledMessage: string := "Cancelled"
  const FfmpegMissingMessage: string :=
    "FFmpeg is required for MP3 conversion but was not found. "
    + "Install FFmpeg (e.g. 'brew install ffmpeg' on macOS) or "
    + "place ffmpeg binaries in assets/ffmpeg/."

  /** The handler of the `except Exception` clause: the error text, then `done` with `ok=False`. */
  function Failure(error: string): seq<DownloadEvent>
  {
    [Log("Error: " + error), Done(false)]
  }

  /** The log line naming the mode, pushed before any check. */
  function ModeLine(req: DownloadRequest): DownloadEvent
  {
    if req.mode == AudioMode then Log("Mode: Audio Only (MP3)") else Log("Mode: Best Video (MP4)")
  }

  /** The error of the checks made before the engine starts, if one fails. */
  function PreflightError(req: DownloadRequest, env: Environment): Option<string>
  {
    if req.mode == AudioMode && !env.ffmpegBinaryPresent then Some(FfmpegMissingMessage)
    else if !env.saveDirExists then Some("Save folder does not exist: " + req.saveDir)
    else None
  }

  /** The engine is started exactly when the ffmpeg check (audio only) and the folder check pass. */
  predicate EngineInvoked(req: DownloadRequest, env: Environment)
  {
    (req.mode != AudioMode || env.ffmpegBinaryPresent) && env.saveDirExists
  }

  /** The hooks `run_download` installs: those of the options, then the cancel check. */
  function InstalledHooks(req: DownloadRequest, env: Environment): (hooks: seq<Hook>)
    ensures hooks == [ReportProgress, PollCancel]
  {
    BuildOptions(req, env.ffmpegDir, env.ffmpegDirExists).progressHooks + [PollCancel]
  }

  /** The engine run `run_download` performs once the checks pass. */
  function RunEngine(req: DownloadRequest, env: Environment, script: EngineScript,
                     stop: Option<seq<bool>>): EngineRun
  {
    DriveEngine(InstalledHooks(req, env), script.steps, [], stop)
  }

  /** The events that close the trace: the error and `done(False)`, or "Finished!" and `done(True)`. */
  function Closing(error: Option<string>): (t: seq<DownloadEvent>)
    ensures |t| == 2 && t[0].Log? && t[1].Done?
    ensures t[1].ok <==> error.None?
    ensures error.None? ==> t[0] == Log(FinishedMessage)
    ensures error.Some? ==> t[0] == Log("Error: " + error.value)
    ensures error.Some? ==> StartsWith(t[0].message, "Error: ") && EndsWith(t[0].message, error.value)
  {
    if error.Some? then
      ConcatStartsEnds("Error: ", error.value);
      Failure(error.value)
    else [Log(FinishedMessage), Done(true)]
  }

  /** The error `run_download` reports after the engine ran, if any. */
  function EngineError(r: EngineRun, end: EngineEnd): Option<string>
  {
    if r.cancelled then Some(CancelledMessage)
    else if end.Raises? then Some(end.error)
    else None
  }

  /** The events pushed between the mode line and the closing pair. */
  function Body(req: DownloadRequest, env: Environment, script: EngineScript,
                stop: Option<seq<bool>>): seq<DownloadEvent>
  {
    if PreflightError(req, env).Some? then [] else RunEngine(req, env, script, stop).events
  }

  /** The error the trace closes with. */
  function TraceError(req: DownloadRequest, env: Environment, script: EngineScript,
                      stop: Option<seq<bool>>): Option<string>
  {
    var pre := PreflightError(req, env);
    if pre.Some? then pre else EngineError(RunEngine(req, env, script, stop), script.end)
  }

  /**
   * `run_download(req, queue, stop_check)`: the whole sequence of events it
   * pushes onto the queue.
   */
  function RunDownload(req: DownloadRequest, env: Environment, script: EngineScript,
                       stop: Option<seq<bool>>): (trace: seq<DownloadEvent>)
    ensures |trace| >= 4 && trace[0] == Log(StartingMessage) && trace[1] == ModeLine(req)
    ensures EndsWithSingleDone(trace)
    ensures FractionsInRange(trace)
    ensures trace[|trace| - 1] == Done(true) ==> trace[|trace| - 2] == Log(FinishedMessage)
    ensures trace[|trace| - 1] == Done(false) ==>
              trace[|trace| - 2].Log? && StartsWith(trace[|trace| - 2].message, "Error: ")
  {
    var head := [Log(StartingMessage), ModeLine(req)];
    var body := Body(req, env, script, stop);
    var tail := Closing(TraceError(req, env, script, stop));
    TraceShape(head + body, tail);
    head + body + tail
  }

  lemma TraceShape(front: seq<DownloadEvent>, tail: seq<DownloadEvent>)
    requires NoDone(front) && FractionsInRange(front)
    requires |tail| == 2 && tail[0].Log? && tail[1].Done?
    ensures EndsWithSingleDone(front + tail) && FractionsInRange(front + tail)
    ensures (front + tail)[|front + tail| - 2] == tail[0]
  {
    assert (front + tail)[..|front + tail| - 1] == front + [tail[0]];
  }

  // ---------------------------------------------------------------------
  // Properties of run_download
  // ---------------------------------------------------------------------

  /** The download reports success exactly when the engine ran, was not cancelled and returned. */
  lemma SuccessIff(req: DownloadRequest, env: Environment, script: EngineScript, stop: Option<seq<bool>>)
    ensures var trace := RunDownload(req, env, script, stop);
            trace[|trace| - 1] == Done(true)
            <==> EngineInvoked(req, env) && !RunEngine(req, env, script, stop).cancelled
                 && script.end == Returns
  {
  }

  /**
   * Once the engine runs, the trace is the start and mode lines, the engine's
   * events, then the closing pair naming the cause: `Error: Cancelled` after
   * a cancel (whose predicate last answered true), `Error: <m>` after the
   * engine raised `m`, and `Finished!` after a normal return.
   */
  lemma EngineFailureText(req: DownloadRequest, env: Environment, script: EngineScript,
                          stop: Option<seq<bool>>)
    requires EngineInvoked(req, env)
    ensures var trace := RunDownload(req, env, script, stop);
            var r := RunEngine(req, env, script, stop);
            && trace[..|trace| - 2] == [Log(StartingMessage), ModeLine(req)] + r.events
            && (r.cancelled ==>
                  trace[|trace| - 2..] == [Log("Error: Cancelled"), Done(false)]
                  && LastAnswerTrue([], r.polls, stop))
            && (!r.cancelled && script.end.Raises? ==>
                  trace[|trace| - 2..] == [Log("Error: " + script.end.error), Done(false)])
            && (!r.cancelled && script.end == Returns ==>
                  trace[|trace| - 2..] == [Log(FinishedMessage), Done(true)])
  {
    var r := RunEngine(req, env, script, stop);
    RunDownloadInvoked(req, env, script, stop);
    TraceEnds(RunDownload(req, env, script, stop), [Log(StartingMessage), ModeLine(req)], r, script.end);
    if r.cancelled {
      CancelledByLastAnswer(InstalledHooks(req, env), script.steps, [], stop);
    }
  }

  /** A trace built as head, engine events and the engine's closing pair ends with the pair naming the cause. */
  lemma TraceEnds(trace: seq<DownloadEvent>, head: seq<DownloadEvent>, r: EngineRun, end: EngineEnd)
    requires trace == head + r.events + Closing(EngineError(r, end))
    ensures |trace| >= 2 && trace[..|trace| - 2] == head + r.events
    ensures r.cancelled ==> trace[|trace| - 2..] == [Log("Error: Cancelled"), Done(false)]
    ensures !r.cancelled && end.Raises? ==> trace[|trace| - 2..] == [Log("Error: " + end.error), Done(false)]
    ensures !r.cancelled && end == Returns ==> trace[|trace| - 2..] == [Log(FinishedMessage), Done(true)]
  {
    ClosingParts(head + r.events, EngineError(r, end));
    assert "Error: " + CancelledMessage == "Error: Cancelled";
  }

  /** With the checks passed, the trace is the head, the engine's events and the engine's closing pair. */
  lemma RunDownloadInvoked(req: DownloadRequest, env: Environment, script: EngineScript,
                           stop: Option<seq<bool>>)
    requires EngineInvoked(req, env)
    ensures var r := RunEngine(req, env, script, stop);
            RunDownload(req, env, script, stop)
            == [Log(StartingMessage), ModeLine(req)] + r.events + Closing(EngineError(r, script.end))
  {
    assert PreflightError(req, env).None?;
  }

  /** The closing pair is the last two events, and what precedes it is untouched. */
  lemma ClosingParts(front: seq<DownloadEvent>, err: Option<string>)
    ensures var t := front + Closing(err);
            t[..|t| - 2] == front && t[|t| - 2..] == Closing(err)
  {
    var t := front + Closing(err);
    assert t[..|t| - 2] == front;
    assert t[|t| - 2..] == Closing(err);
  }

  /**
   * A failed ffmpeg or folder check ends the run before the engine: four
   * events, the same whatever the engine and the cancel predicate would do.
   */
  lemma PreflightFailure(req: DownloadRequest, env: Environment, script: EngineScript,
                         stop: Option<seq<bool>>)
    requires !EngineInvoked(req, env)
    ensures PreflightError(req, env).Some?
    ensures RunDownload(req, env, script, stop)
            == [Log(StartingMessage), ModeLine(req)] + Failure(PreflightError(req, env).value)
  {
  }

  /** An audio request without the ffmpeg binary: the exact four events, whatever else holds. */
  lemma AudioWithoutFfmpeg(req: DownloadRequest, env: Environment, script: EngineScript,
                           stop: Option<seq<bool>>)
    requires req.mode == AudioMode && !env.ffmpegBinaryPresent
    ensures RunDownload(req, env, script, stop)
            == [Log("Starting download..."), Log("Mode: Audio Only (MP3)"),
                Log("Error: " + FfmpegMissingMessage), Done(false)]
  {
    PreflightFailure(req, env, script, stop);
  }

  /** A video request into a missing folder fails with the folder in the message. */
  lemma MissingSaveFolder(req: DownloadRequest, env: Environment, script: EngineScript,
                          stop: Option<seq<bool>>)
    requires req.mode != AudioMode && !env.saveDirExists
    ensures RunDownload(req, env, script, stop)
            == [Log("Starting download..."), Log("Mode: Best Video (MP4)")]
               + Failure("Save folder does not exist: " + req.saveDir)
  {
    PreflightFailure(req, env, script, stop);
  }

  /** Without a cancel predicate nothing is polled and the engine is never cancelled. */
  lemma {:induction false} NoPredicateNeverCancels(hooks: seq<Hook>, steps: seq<EngineStep>,
                                                   polls: seq<real>)
    ensures DriveEngine(hooks, steps, polls, None).polls == polls
    ensures !DriveEngine(hooks, steps, polls, None).cancelled
    decreases |steps|
  {
    if |steps| > 0 {
      NoPredicateNeverCancels(hooks, steps[1..], polls);
      if steps[0].Callback? {
        NoPredicateHooks(hooks, steps[0].d, steps[0].now, polls);
      }
    }
  }

  lemma {:induction false} NoPredicateHooks(hooks: seq<Hook>, d: ProgressDict, now: real, polls: seq<real>)
    ensures RunHooks(hooks, d, now, polls, None).polls == polls
    ensures !RunHooks(hooks, d, now, polls, None).cancelled
    decreases |hooks|
  {
    if |hooks| > 0 {
      NoPredicateHooks(hooks[1..], d, now, polls);
    }
  }

  /**
   * With the hooks `run_download` installs, each callback queues its
   * progress events before the cancel check runs, so they are queued even
   * when that check raises.
   */
  lemma InstalledHooksRun(req: DownloadRequest, env: Environment, d: ProgressDict, now: real,
                          polls: seq<real>, stop: Option<seq<bool>>)
    ensures var h := RunHooks(InstalledHooks(req, env), d, now, polls, stop);
            var p := Passthrough(polls, now, stop);
            h == HookRun(ProgressHook(d), p.polls, p.raised)
  {
    var hooks := InstalledHooks(req, env);
    var p := Passthrough(polls, now, stop);
    assert hooks[1..] == [PollCancel];
    assert hooks[1..][1..] == [];
    assert RunHooks([], d, now, p.polls, stop) == HookRun([], p.polls, false);
    assert RunHooks([PollCancel], d, now, polls, stop) == HookRun([], p.polls, p.raised);
  }

  /**
   * A cancelled run was cancelled by the most recent call of the predicate:
   * it was called at least once and its last answer was true.
   */
  lemma {:induction false} CancelledByLastAnswer(hooks: seq<Hook>, steps: seq<EngineStep>,
                                                 polls: seq<real>, stop: Option<seq<bool>>)
    requires DriveEngine(hooks, steps, polls, stop).cancelled
    ensures LastAnswerTrue(polls, DriveEngine(hooks, steps, polls, stop).polls, stop)
    decreases |steps|
  {
    var h := StepHooks(hooks, steps[0], polls, stop);
    DriveStep(hooks, steps, polls, stop);
    if h.cancelled {
      HooksCancelledByLastAnswer(hooks, steps[0].d, steps[0].now, polls, stop);
    } else {
      CancelledByLastAnswer(hooks, steps[1..], h.polls, stop);
      LastAnswerFromLater(polls, h.polls, DriveEngine(hooks, steps[1..], h.polls, stop).polls, stop);
    }
  }

  /** Between the poll history `before` and `after`, the predicate was called and its last answer was true. */
  predicate LastAnswerTrue(before: seq<real>, after: seq<real>, stop: Option<seq<bool>>)
  {
    stop.Some? && |after| > |before| && Answer(stop.value, |after| - 1)
  }

  lemma LastAnswerFromLater(before: seq<real>, middle: seq<real>, after: seq<real>, stop: Option<seq<bool>>)
    requires |before| <= |middle| && LastAnswerTrue(middle, after, stop)
    ensures LastAnswerTrue(before, after, stop)
  {
  }

  /** The hooks a step runs: all of them for a callback, none for a log call. */
  function StepHooks(hooks: seq<Hook>, c: EngineStep, polls: seq<real>, stop: Option<seq<bool>>): (h: HookRun)
    ensures |polls| <= |h.polls|
    ensures c.Message? ==> h.polls == polls && !h.cancelled
  {
    if c.Callback? then RunHooks(hooks, c.d, c.now, polls, stop) else HookRun([], polls, false)
  }

  /** One step of `DriveEngine`, seen through its poll state and cancel flag only. */
  lemma DriveStep(hooks: seq<Hook>, steps: seq<EngineStep>, polls: seq<real>, stop: Option<seq<bool>>)
    requires |steps| > 0
    ensures var r := DriveEngine(hooks, steps, polls, stop);
            var h := StepHooks(hooks, steps[0], polls, stop);
            var rest := DriveEngine(hooks, steps[1..], h.polls, stop);
            if h.cancelled then steps[0].Callback? && r.polls == h.polls && r.cancelled
            else r.polls == rest.polls && r.cancelled == rest.cancelled
  {
  }

  lemma {:induction false} HooksCancelledByLastAnswer(hooks: seq<Hook>, d: ProgressDict, now: real,
                                                      polls: seq<real>, stop: Option<seq<bool>>)
    requires RunHooks(hooks, d, now, polls, stop).cancelled
    ensures LastAnswerTrue(polls, RunHooks(hooks, d, now, polls, stop).polls, stop)
    decreases |hooks|
  {
    if hooks[0] == ReportProgress {
      HooksCancelledByLastAnswer(hooks[1..], d, now, polls, stop);
    } else {
      var p := Passthrough(polls, now, stop);
      if !p.raised {
        HooksCancelledByLastAnswer(hooks[1..], d, now, p.polls, stop);
      }
    }
  }

  /**
   * Running the engine over two stretches of steps is running it over the
   * first and, unless that was cancelled, over the second from where the
   * first left the poll state.
   */
  lemma {:induction false} DriveAppend(hooks: seq<Hook>, s1: seq<EngineStep>, s2: seq<EngineStep>,
                                       polls: seq<real>, stop: Option<seq<bool>>)
    ensures var r1 := DriveEngine(hooks, s1, polls, stop);
            var r2 := DriveEngine(hooks, s2, r1.polls, stop);
            DriveEngine(hooks, s1 + s2, polls, stop)
            == if r1.cancelled then r1
               else EngineRun(r1.events + r2.events, r2.polls, r2.cancelled)
    decreases |s1|
  {
    if |s1| == 0 {
      assert s1 + s2 == s2;
    } else {
      var rest := s1[1..];
      assert (s1 + s2)[0] == s1[0];
      assert (s1 + s2)[1..] == rest + s2;
      var r1 := DriveEngine(hooks, s1, polls, stop);
      match s1[0]
      case Message(level, text) =>
        var a := DriveEngine(hooks, rest, polls, stop);
        DriveAppend(hooks, rest, s2, polls, stop);
        if !a.cancelled {
          var r2 := DriveEngine(hooks, s2, a.polls, stop);
          ConcatAssoc(LoggerEvents(level, text), a.events, r2.events);
        }
      case Callback(d, now) =>
        var h := RunHooks(hooks, d, now, polls, stop);
        if !h.cancelled {
          var a := DriveEngine(hooks, rest, h.polls, stop);
          DriveAppend(hooks, rest, s2, h.polls, stop);
          if !a.cancelled {
            var r2 := DriveEngine(hooks, s2, a.polls, stop);
            ConcatAssoc(h.events, a.events, r2.events);
          }
        }
    }
  }

  /**
   * The throttle bounds how often the predicate is called: the k-th call
   * (from 0) happens no earlier than `0.5 * (k + 1)` seconds, so up to time
   * `t` there are at most `2 * t` calls.
   */
  lemma {:induction false} SpacedPollsLowerBound(polls: seq<real>, k: nat)
    requires SpacedPolls(polls) && k < |polls|
    ensures polls[k] >= PollInterval * (k + 1) as real
  {
    if k > 0 {
      SpacedPollsLowerBound(polls, k - 1);
    }
  }

  lemma PollCountBound(polls: seq<real>, t: real)
    requires SpacedPolls(polls) && |polls| > 0 && polls[|polls| - 1] <= t
    ensures |polls| as real <= 2.0 * t
  {
    SpacedPollsLowerBound(polls, |polls| - 1);
  }
}
