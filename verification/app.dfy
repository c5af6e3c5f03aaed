/**
 * The non-widget logic of the `App` window in app/main.py: the path
 * shortener, the log filter, the guards of the Download button, the
 * dispatch of queued worker events, and the preview card's duration text.
 *
 * Widgets are reduced to the state they show: the log lines, the status
 * text, the progress bar's target, the busy flag and the format selector.
 */
module App {
  import opened Base
  import opened Text
  import opened Numeric
  import opened Events
  import opened ProgressFormat
  import opened Downloader
  import Toggle

  // ---------------------------------------------------------------------
  // _truncate_path
  // ---------------------------------------------------------------------

  /** Python's `s[start:]` for any integer `start`: a negative start counts from the end; both clip. */
  function SliceFrom(s: string, start: int): (r: string)
    ensures start >= 0 ==> r == (if start <= |s| then s[start..] else [])
    ensures start < 0 ==> r == (if -start <= |s| then s[|s| + start..] else s)
  {
    var i := if start < 0 then start + |s| else start;
    var j := if i < 0 then 0 else if i > |s| then |s| else i;
    s[j..]
  }

  /** `_truncate_path(path, max_len)`: the path, or `...` and its last `max_len - 3` characters. */
  function TruncatePath(path: string, maxLen: int): (r: string)
    ensures |path| <= maxLen ==> r == path
    ensures |path| > maxLen ==> StartsWith(r, "...") && EndsWith(path, r[3..])
    ensures |path| > maxLen && maxLen > 3 ==> |r| == maxLen
    ensures |path| > maxLen && maxLen == 3 ==> r == "..." + path
  {
    if |path| <= maxLen then path
    else
      var tail := SliceFrom(path, -(maxLen - 3));
      ConcatStartsEnds("...", tail);
      assert ("..." + tail)[3..] == tail;
      "..." + tail
  }

  // ---------------------------------------------------------------------
  // The window's state
  // ---------------------------------------------------------------------

  /**
   * The window's messages, character for character as app/main.py spells
   * them.  Its marks are UTF-8 bytes read back as Windows-1252: the cross
   * U+2717 appears as U+00E2 U+0153 U+2014, the check mark U+2713 as
   * U+00E2 U+0153 U+201C, the down arrow U+2B07 as U+00E2 U+00AC U+2021 and
   * the ellipsis U+2026 as U+00E2 U+20AC U+00A6, and those are the
   * characters the window shows.
   */
  const CrossMark: string := "\U{00E2}\U{0153}\U{2014}"
  const CheckMark: string := "\U{00E2}\U{0153}\U{201C}"
  const DownArrow: string := "\U{00E2}\U{00AC}\U{2021}"
  const Ellipsis: string := "\U{00E2}\U{20AC}\U{00A6}"
  const ErrorMark: string := CrossMark + " Error: "
  const UrlMissingMessage: string := ErrorMark + "Please paste a YouTube URL."
  const FolderMissingMessage: string := ErrorMark + "Save location does not exist. Choose a valid folder."
  const StartingStatus: string := "Starting download" + Ellipsis
  const StartingLog: string := DownArrow + " Starting download" + Ellipsis
  const CompleteMessage: string := CheckMark + " Download complete!"
  const FailedStatus: string := CrossMark + " Download failed. Check log."

  /** The format selector's labels and the modes they stand for. */
  const VideoLabel: string := "MP4 Video"
  const AudioLabel: string := "MP3 Audio"

  datatype Ui = Ui(
    busy: bool,
    log: seq<string>,                // the log box, one entry per inserted line
    status: string,                  // the status line's text
    progress: real,                  // the value the progress bar animates to
    selector: Toggle.Toggle,         // the MP4/MP3 format selector
    urlEntry: string,                // the URL field's text
    saveDir: string,
    saveDirExists: bool,
    current: Option<DownloadRequest>,  // `_current_download_request`
    started: seq<DownloadRequest>,   // the worker threads started so far
    captures: seq<DownloadRequest>)  // the downloads handed to the history capture

  /** Neither blank nor padded: `_log` keeps such a message as it is. */
  predicate Trimmed(message: string)
  {
    |message| > 0 && !IsSpace(message[0]) && !IsSpace(message[|message| - 1])
  }

  /** The log holds only stripped, non-blank lines. */
  predicate CleanLog(log: seq<string>)
  {
    forall k :: 0 <= k < |log| ==> Trimmed(log[k])
  }

  /** The states the window keeps: a valid selector and a clean log. */
  predicate Valid(ui: Ui)
  {
    Toggle.Valid(ui.selector) && CleanLog(ui.log)
  }

  // ---------------------------------------------------------------------
  // _log and _set_busy
  // ---------------------------------------------------------------------

  /** `_log(message)`: appends the stripped message, unless it is blank. */
  function AppendLog(log: seq<string>, message: string): (r: seq<string>)
    ensures AllSpace(message) ==> r == log
    ensures !AllSpace(message) ==> r == log + [Strip(message)]
    ensures CleanLog(log) ==> CleanLog(r)
  {
    var msg := Strip(message);
    if |msg| == 0 then log
    else
      assert Trimmed(msg);
      log + [msg]
  }

  /** `_set_busy(busy)`: the flag, and the selector's `state` (`disabled` while busy). */
  function SetBusy(ui: Ui, busy: bool): (u: Ui)
    requires Valid(ui)
    ensures Valid(u)
    ensures u.busy == busy && u.selector.disabled == busy
    ensures u.selector.selected == ui.selector.selected && u.selector.animating == ui.selector.animating
    ensures u.log == ui.log && u.started == ui.started && u.captures == ui.captures
    ensures u == ui.(busy := busy, selector := u.selector)
    ensures u.selector == ui.selector.(disabled := busy)
  {
    ui.(busy := busy,
        selector := Toggle.Configure(ui.selector, Some(if busy then "disabled" else "normal")))
  }

  // ---------------------------------------------------------------------
  // _on_download
  // ---------------------------------------------------------------------

  /** The selector label to mode map; an unknown label means video. */
  function ModeFor(choice: string): (mode: string)
    ensures mode == AudioMode <==> choice == AudioLabel
    ensures mode == AudioMode || mode == VideoMode
  {
    if choice == VideoLabel then VideoMode
    else if choice == AudioLabel then AudioMode
    else VideoMode
  }

  /** `_on_download()`: the guards, then the request and a started worker. */
  function OnDownload(ui: Ui): (u: Ui)
    requires Valid(ui)
    ensures Valid(u)
    ensures |u.started| == |ui.started| + 1 <==>
              !ui.busy && !AllSpace(ui.urlEntry) && ui.saveDirExists
    ensures |u.started| == |ui.started| ==> u.busy == ui.busy && u.captures == ui.captures
    ensures ui.busy ==> u == ui
    ensures !ui.busy && AllSpace(ui.urlEntry) ==> u == ui.(log := ui.log + [UrlMissingMessage])
    ensures !ui.busy && !AllSpace(ui.urlEntry) && !ui.saveDirExists ==>
              u == ui.(log := ui.log + [FolderMissingMessage])
    ensures |u.started| == |ui.started| + 1 ==>
              && u.busy && u.selector.disabled
              && u.started[|ui.started|] == DownloadRequest(Strip(ui.urlEntry), ui.saveDir,
                                                            ModeFor(Toggle.Get(ui.selector)))
              && u.current == Some(u.started[|ui.started|])
              && u.progress == 0.0 && u.status == StartingStatus
              && u.log == ui.log + [StartingLog]
    ensures |u.started| == |ui.started| + 1 ==>
              var req := DownloadRequest(Strip(ui.urlEntry), ui.saveDir, ModeFor(Toggle.Get(ui.selector)));
              u == ui.(started := ui.started + [req], current := Some(req), busy := true,
                       selector := ui.selector.(disabled := true), progress := 0.0,
                       status := StartingStatus, log := ui.log + [StartingLog])
  {
    WindowMessagesTrimmed();
    if ui.busy then ui
    else
      var url := Strip(ui.urlEntry);
      if |url| == 0 then ui.(log := AppendLogged(ui.log, UrlMissingMessage))
      else if !ui.saveDirExists then ui.(log := AppendLogged(ui.log, FolderMissingMessage))
      else StartDownload(ui, DownloadRequest(url, ui.saveDir, ModeFor(Toggle.Get(ui.selector))))
  }

  /** The part of `_on_download` after the guards: record the request, go busy, start the worker. */
  function StartDownload(ui: Ui, req: DownloadRequest): (u: Ui)
    requires Valid(ui)
    ensures Valid(u)
    ensures u.started == ui.started + [req] && u.current == Some(req) && u.captures == ui.captures
    ensures u.busy && u.selector.disabled && u.selector.selected == ui.selector.selected
    ensures u.progress == 0.0 && u.status == StartingStatus && u.log == ui.log + [StartingLog]
    ensures u == ui.(started := ui.started + [req], current := Some(req), busy := true,
                     selector := ui.selector.(disabled := true), progress := 0.0,
                     status := StartingStatus, log := ui.log + [StartingLog])
  {
    WindowMessagesTrimmed();
    var u := SetBusy(ui.(current := Some(req), progress := 0.0, status := StartingStatus), true);
    u.(log := AppendLogged(u.log, StartingLog), started := ui.started + [req])
  }

  /** The window's own messages are all trimmed. */
  lemma WindowMessagesTrimmed()
    ensures Trimmed(UrlMissingMessage) && Trimmed(FolderMissingMessage)
    ensures Trimmed(StartingLog) && Trimmed(CompleteMessage)
  {
    assert UrlMissingMessage[0] == ErrorMark[0];
    assert FolderMissingMessage[0] == ErrorMark[0];
  }

  /** `_log` of a message that is already clean, as the window's own messages are. */
  function AppendLogged(log: seq<string>, message: string): (r: seq<string>)
    requires Trimmed(message)
    ensures r == log + [message]
    ensures CleanLog(log) ==> CleanLog(r)
  {
    StripKeepsTrimmed(message);
    assert !AllSpace(message);
    AppendLog(log, message)
  }

  // ---------------------------------------------------------------------
  // _poll_events
  // ---------------------------------------------------------------------

  /** What `_poll_events` does with one event taken from the queue. */
  function Dispatch(ui: Ui, evt: DownloadEvent): (u: Ui)
    requires Valid(ui)
    ensures Valid(u)
    ensures u.started == ui.started && u.current == ui.current
    ensures evt.Done? ==> !u.busy && !u.selector.disabled
    ensures !evt.Done? ==> u.busy == ui.busy && u.captures == ui.captures
    ensures evt.Done? && evt.ok ==>
              && u.captures == ui.captures + (if ui.current.Some? then [ui.current.value] else [])
              && u.status == CompleteMessage && u.progress == 1.0
    ensures evt.Done? && !evt.ok ==> u.captures == ui.captures && u.status == FailedStatus
    ensures evt.Progress? ==>
              u.progress == Clamp01(evt.info.value) && u.status == FormatStatusLine(evt.info)
    ensures evt.Log? ==> u == ui.(log := AppendLog(ui.log, evt.message))
    ensures evt.Progress? ==>
              u == ui.(progress := Clamp01(evt.info.value), status := FormatStatusLine(evt.info))
    ensures evt.Done? && evt.ok ==>
              u == ui.(busy := false, selector := ui.selector.(disabled := false), progress := 1.0,
                       status := CompleteMessage, log := ui.log + [CompleteMessage],
                       captures := ui.captures + (if ui.current.Some? then [ui.current.value] else []))
    ensures evt.Done? && !evt.ok ==>
              u == ui.(busy := false, selector := ui.selector.(disabled := false), status := FailedStatus)
  {
    match evt
    case Log(message) => ui.(log := AppendLog(ui.log, message))
    case Progress(info) => ui.(progress := Clamp01(info.value), status := FormatStatusLine(info))
    case Done(ok) =>
      WindowMessagesTrimmed();
      var u := SetBusy(ui, false);
      if ok then
        u.(progress := 1.0, status := CompleteMessage, log := AppendLogged(u.log, CompleteMessage),
           captures := u.captures + (if ui.current.Some? then [ui.current.value] else []))
      else u.(status := FailedStatus)
  }

  /** One or more `_poll_events` ticks: the events, in queue order. */
  function PollEvents(ui: Ui, evs: seq<DownloadEvent>): (u: Ui)
    requires Valid(ui)
    ensures Valid(u)
    ensures u.started == ui.started && u.current == ui.current
    decreases |evs|
  {
    if |evs| == 0 then ui else PollEvents(Dispatch(ui, evs[0]), evs[1..])
  }

  /** How the queue is split into poll ticks does not matter: polling is a fold over the events. */
  lemma {:induction false} PollEventsAppend(ui: Ui, a: seq<DownloadEvent>, b: seq<DownloadEvent>)
    requires Valid(ui)
    ensures PollEvents(ui, a + b) == PollEvents(PollEvents(ui, a), b)
    decreases |a|
  {
    if |a| == 0 {
      assert a + b == b;
    } else {
      assert (a + b)[0] == a[0];
      assert (a + b)[1..] == a[1..] + b;
      PollEventsAppend(Dispatch(ui, a[0]), a[1..], b);
    }
  }

  /** Events other than `done` neither clear the busy flag nor capture history. */
  lemma {:induction false} NoDoneKeepsBusy(ui: Ui, evs: seq<DownloadEvent>)
    requires Valid(ui) && NoDone(evs)
    ensures PollEvents(ui, evs).busy == ui.busy
    ensures PollEvents(ui, evs).captures == ui.captures
    decreases |evs|
  {
    if |evs| > 0 {
      NoDoneKeepsBusy(Dispatch(ui, evs[0]), evs[1..]);
    }
  }

  /** A trace that ends with its only `done` leaves the window idle, capturing iff `ok`. */
  lemma PollTrace(ui: Ui, trace: seq<DownloadEvent>)
    requires Valid(ui) && EndsWithSingleDone(trace)
    ensures var u := PollEvents(ui, trace);
            && !u.busy && !u.selector.disabled
            && (trace[|trace| - 1].ok ==> u.captures == ui.captures + (if ui.current.Some? then [ui.current.value] else []))
            && (!trace[|trace| - 1].ok ==> u.captures == ui.captures)
  {
    var front := trace[..|trace| - 1];
    var last := trace[|trace| - 1];
    assert trace == front + [last];
    PollEventsAppend(ui, front, [last]);
    NoDoneKeepsBusy(ui, front);
    var mid := PollEvents(ui, front);
    assert PollEvents(mid, [last]) == Dispatch(mid, last);
  }

  /**
   * A whole download as the window sees it: the button starts a worker,
   * the worker's trace is polled, and the window ends idle with one new
   * history capture exactly when the engine ran and returned normally.
   * (The window never passes a cancel predicate.)
   */
  lemma DownloadSession(ui: Ui, env: Environment, script: EngineScript)
    requires Valid(ui) && !ui.busy && !AllSpace(ui.urlEntry) && ui.saveDirExists
    ensures var u1 := OnDownload(ui);
            var req := u1.started[|ui.started|];
            var u2 := PollEvents(u1, RunDownload(req, env, script, None));
            && !u2.busy && !u2.selector.disabled
            && (u2.captures == ui.captures + [req]
                <==> EngineInvoked(req, env) && script.end == Returns)
            && (u2.captures == ui.captures
                <==> !(EngineInvoked(req, env) && script.end == Returns))
  {
    var u1 := OnDownload(ui);
    var req := u1.started[|ui.started|];
    var trace := RunDownload(req, env, script, None);
    PollTrace(u1, trace);
    WindowNeverCancels(req, env, script);
    CapturesIff(ui.captures, req, PollEvents(u1, trace).captures, trace[|trace| - 1].ok,
                EngineInvoked(req, env) && script.end == Returns);
  }

  /** Without a cancel predicate, the worker reports success exactly when the engine ran and returned. */
  lemma WindowNeverCancels(req: DownloadRequest, env: Environment, script: EngineScript)
    ensures var trace := RunDownload(req, env, script, None);
            trace[|trace| - 1].ok <==> EngineInvoked(req, env) && script.end == Returns
  {
    var trace := RunDownload(req, env, script, None);
    SuccessIff(req, env, script, None);
    NoPredicateNeverCancels(InstalledHooks(req, env), script.steps, []);
    assert trace[|trace| - 1].Done?;
  }

  /** One capture of `req` exactly when `ok`, none otherwise, and `ok` exactly when the engine succeeded. */
  lemma CapturesIff(before: seq<DownloadRequest>, req: DownloadRequest, after: seq<DownloadRequest>,
                    ok: bool, succeeded: bool)
    requires ok ==> after == before + [req]
    requires !ok ==> after == before
    requires ok <==> succeeded
    ensures after == before + [req] <==> succeeded
    ensures after == before <==> !succeeded
  {
    assert |before + [req]| != |before|;
  }

  // ---------------------------------------------------------------------
  // _update_preview: the duration text
  // ---------------------------------------------------------------------

  /**
   * The duration shown on the preview card for `duration` seconds:
   * `divmod` twice (floor division, which for the divisor 60 is Dafny's
   * `/` and `%`), then `H:MM:SS` when the hours are non-zero, else `M:SS`.
   */
  function PreviewDuration(duration: int): (r: string)
    ensures duration >= 0 ==> r == Clock(duration)
  {
    var mins := duration / 60;
    var secs := duration % 60;
    var hrs := mins / 60;
    var m := mins % 60;
    if hrs != 0 then IntToString(hrs) + ":" + Pad2(m) + ":" + Pad2(secs)
    else IntToString(m) + ":" + Pad2(secs)
  }

  /** For whole non-negative seconds the preview shows what the status line's ETA shows. */
  lemma PreviewMatchesEta(duration: int)
    requires duration >= 0
    ensures PreviewDuration(duration) == FormatEta(Some(duration as real))
  {
    assert (duration as real).Floor == duration;
  }
}
