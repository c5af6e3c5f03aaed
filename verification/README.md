# YouTubeToFile core, modelled in Dafny

YouTubeToFile is a desktop front end for `yt_dlp`. The user pastes a URL,
picks "MP4 Video" or "MP3 Audio" and a folder, and a worker thread downloads
the file. The worker talks to the window only through a queue of `log`,
`progress` and `done` events. The window keeps a history of the last 50
downloads in a JSON file.

This project models the logic behind that, with the widgets, threads, clock
and filesystem turned into values:

- **`ProgressFormat`** (app/downloader.py) covers the progress text:
  - `_format_bytes`, with its unit-choosing loop;
  - `_format_eta`;
  - `format_status_line`.
- **`Downloader`** (app/downloader.py) covers the worker:
  - `QueueLogger`;
  - `build_ydl_options` with its inner `progress_hook`;
  - the throttled cancel hook `_progress_passthrough`;
  - `run_download`, as a function from an *engine script* to the event trace it queues. The engine script is the callbacks and log calls `yt_dlp` makes, then a normal return or an exception.
- **`Events`** holds `DownloadRequest` and the event type shared by the worker and the window.
- **`History`** (app/history.py) covers:
  - `DownloadRecord` with `from_dict`/`to_dict`;
  - `load_history`, `save_history`, `add_download` and `delete_download`.

  The JSON file is modelled as a `JournalFile`: missing, undecodable, not a list, or a list of entries.
- **`Colors`**, **`Toggle`** and **`App`** (app/main.py) cover:
  - `_hex_to_rgb` and `_lerp_hex`;
  - the `AnimatedToggle` state machine, including its crossfade frames;
  - `_truncate_path`, `_log` and `_set_busy`;
  - the guards of `_on_download`;
  - the event dispatch of `_poll_events`;
  - the duration text of `_update_preview`.
- **`Base`**, **`Text`** and **`Numeric`** hold Python built-ins the code relies on:
  - `x or y`;
  - `str(int)`, `format(n, "02d")` and `format(n, "x")`;
  - `str.strip()`;
  - `round()`, `int()` on a float, and the `[0, 1]` clamp.

Python floats are modelled as exact, finite `real` values. Dividing by 1024 is exact
in binary floating point, so the unit `_format_bytes` picks is the one Python
picks. `.2f` and `round()` are round-half-to-even on the exact value.

## Model

| member | source | states |
|---|---|---|
| ProgressFormat.UnitIndex | app/downloader.py:40-45 | The unit index is at most 4 (TB). The size is at least `1024^i` unless the unit is B, and below `1024^(i+1)` unless the unit is TB. |
| ProgressFormat.UnitIndexUnique | app/downloader.py:40-45 | Only one index meets those two bounds, so the unit is the largest one the size reaches. |
| ProgressFormat.ScaleToUnit | app/downloader.py:41-45 | The divide-by-1024 loop, run as written, stops on `UnitIndex`. The value it stops with is the size divided by exactly `1024^i`. |
| ProgressFormat.Fixed2 | app/downloader.py:48 | `.2f` prints digits, a point and two digits, with no leading zero before a second integer digit. Their value times 100 is the exact value times 100, rounded half to even. |
| ProgressFormat.FormatBytes | app/downloader.py:37-48 | The result is `—` exactly when the size is missing, zero or negative. Otherwise it ends in a space and the chosen unit. A size below 1024 prints its integer part then ` B`. From 1024 on, the unit is KB or larger and the number is `.2f` of the size divided by that unit's power of 1024. |
| ProgressFormat.FormatBytesByLoop | app/downloader.py:37-48 | The loop version returns the same text as `FormatBytes` on every input. |
| ProgressFormat.FormatBytesScalesBy1024 | app/downloader.py:40-48 | Between KB and GB, a size 1024 times larger moves exactly one unit up and prints the same number. |
| ProgressFormat.FormatBytesExamples | app/downloader.py:37-48 | 500 prints `500 B` and 1536 prints `1.50 KB`. 0 and a missing size print `—`. |
| ProgressFormat.FormatEta | app/downloader.py:51-59 | The result is `—` exactly for a missing or negative eta. Below 3600 seconds it is `M:SS`: one or two unpadded digits, a colon, two digits. From 3600 seconds on it is `H:MM:SS`, with unpadded non-zero hours and exactly two more two-digit fields. |
| ProgressFormat.ClockRoundTrip | app/downloader.py:54-59 | Reading the clock text back in base 60, where every field after the first is two digits below 60, gives the whole seconds. |
| ProgressFormat.FormatEtaRoundTrip | app/downloader.py:51-59 | Any non-negative eta prints as text that reads back as `int(seconds)`. |
| ProgressFormat.FormatEtaExamples | app/downloader.py:51-59 | 125 prints `2:05`, 3725 prints `1:02:05` and 0 prints `0:00`. A missing or negative eta prints `—`. |
| ProgressFormat.FormatStatusLine | app/downloader.py:196-217 | The line starts with the percentage and size part. It is exactly that part when neither a non-zero speed nor an eta is known. |
| ProgressFormat.StatusLineSegments | app/downloader.py:210-217 | After four spaces come the speed alone, the eta alone, or the speed then `  •  ` then the eta. |
| ProgressFormat.PercentFieldWidth | app/downloader.py:204-206 | For a fraction in [0, 1] the percentage is 0..100. The field is four characters with `%` last. |
| Numeric.RoundHalfEven | app/downloader.py:204 | `round()` is within 0.5 of its argument, and a tie goes to the even integer. |
| Numeric.RoundHalfEvenUnique | app/downloader.py:204 | Those two conditions determine the integer. |
| Numeric.Clamp01 | app/downloader.py:87 | The result lies in [0, 1]: the value itself when already inside, otherwise the nearer bound. |
| Numeric.Truncate | app/main.py:57-59 | `int()` on a float drops the fraction toward zero, for both signs. |
| Text.NatToStringValue | app/downloader.py:58-59 | The decimal text of a whole number reads back as that number. |
| Text.Pad2 | app/downloader.py:58-59 | `02d` of a number below 100 is exactly two digits with that value. |
| Text.StripLeft | app/main.py:732 | The result is a suffix of the input. The dropped prefix is all whitespace, and the result does not start with whitespace. |
| Text.StripRight | app/main.py:732 | The result is a prefix of the input. The dropped suffix is all whitespace, and the result does not end with whitespace. |
| Text.Strip | app/main.py:732 | The result is a slice `s[i..j]` of the input with only whitespace before `i` and after `j`. It is empty exactly when the input is all whitespace, and otherwise neither starts nor ends with whitespace. |
| Text.StripIdempotent | app/main.py:732 | Stripping twice is the same as stripping once. |
| Events.SingleDoneCount | app/downloader.py:152-193 | A trace whose last event is its only `done` contains exactly one `done`. |
| Downloader.LoggerEvents | app/downloader.py:19-34 | Debug queues nothing. Info queues the message verbatim. Warning queues exactly `Warning: ` then the message, and error exactly `Error: ` then the message. |
| Downloader.TotalOf | app/downloader.py:82 | The total is `total_bytes` when truthy, else `total_bytes_estimate` when truthy, else 0. |
| Downloader.Fraction | app/downloader.py:86-87 | The fraction lies in [0, 1]. It is 0 without a total, `downloaded/total` when that is already in range, and 1 when more than the total arrived. |
| Downloader.ProgressHook | app/downloader.py:78-104 | "downloading" queues one progress event with the fraction, sizes, speed and eta. "finished" queues progress 1.0, then `Downloaded: <file>` only when a filename is given, then `Finalizing...`. Any other status queues nothing. |
| Downloader.JoinPath | app/downloader.py:107 | The output template starts with the save folder and ends with the file-name pattern. |
| Downloader.BuildOptions | app/downloader.py:69-140 | `noplaylist`, `quiet` and `no_warnings` are always set, and `ffmpeg_location` is set exactly when the ffmpeg folder exists. Exactly the audio mode gives `bestaudio/best` with an mp3/192 post-processor. Any other mode gives the mp4 chain with an mp4 merge. |
| Downloader.Passthrough | app/downloader.py:173-181 | The predicate is called exactly when one was given and at least 0.5 s has passed since the last call. The hook raises exactly when that call answers true. Polls stay at least 0.5 s apart. |
| Downloader.RunHooks | app/downloader.py:184 | The hooks of one callback never queue `done` and keep every fraction in [0, 1]. They only extend the poll history, and without the cancel hook they neither poll nor raise. |
| Downloader.DriveEngine | app/downloader.py:184-187 | The same holds over the engine's whole run: no `done`, fractions in range, polls spaced, and cancellation only with a predicate. |
| Downloader.InstalledHooks | app/downloader.py:184 | The progress hook runs before the cancel hook. |
| Downloader.InstalledHooksRun | app/downloader.py:175-184 | A callback queues all its progress events before the cancel check runs, so they are queued even when that check raises. |
| Downloader.Closing | app/downloader.py:189-193 | The trace closes with `Finished!` then `done(ok=True)` when there is no error, and with `Error: <e>` then `done(ok=False)` otherwise. |
| Downloader.RunDownload | app/downloader.py:143-193 | Every trace starts with `Starting download...` and the mode line. It holds exactly one `done`, last, and every fraction is in [0, 1]. `done(True)` follows `Finished!`, and `done(False)` follows an `Error: ` line. |
| Downloader.EngineFailureText | app/downloader.py:171-193 | Once the checks pass, the trace is the start and mode lines, the engine's events, then the closing pair. A cancelled run closes with `Error: Cancelled` and `done(False)`, and its predicate's last answer was true. An engine that raised `m` closes with `Error: m` and `done(False)`. A normal return closes with `Finished!` and `done(True)`. |
| Downloader.SuccessIff | app/downloader.py:186-193 | The run ends with `done(True)` exactly when the checks pass, nothing cancelled it and the engine returned normally. |
| Downloader.PreflightFailure | app/downloader.py:155-169 | When the ffmpeg check or the folder check fails, the trace is the four events up to the error, whatever the engine or the predicate would do. The engine is never reached. |
| Downloader.AudioWithoutFfmpeg | app/downloader.py:155-164 | An audio request without the ffmpeg binary queues exactly: start, `Mode: Audio Only (MP3)`, the ffmpeg error, `done(False)`. |
| Downloader.MissingSaveFolder | app/downloader.py:165-169 | A video request into a missing folder queues exactly: start, `Mode: Best Video (MP4)`, `Error: Save folder does not exist: <dir>`, `done(False)`. |
| Downloader.NoPredicateNeverCancels | app/downloader.py:178 | Without a predicate nothing is ever polled and the engine is never cancelled. |
| Downloader.CancelledByLastAnswer | app/downloader.py:175-181 | A cancelled run polled at least once, and the predicate's last answer was true. |
| Downloader.DriveAppend | app/downloader.py:186-187 | Running the engine over two stretches of steps is running the first and then, unless cancelled, the second from the poll state the first left. |
| Downloader.SpacedPollsLowerBound | app/downloader.py:173-179 | The k-th poll (from 0) happens no earlier than `0.5 * (k + 1)` seconds. |
| Downloader.PollCountBound | app/downloader.py:173-179 | Up to time `t` the predicate is called at most `2 * t` times. |
| History.ToDict | app/history.py:29-31 | `asdict` has every field and no other key, and each key holds the record's value for that field. |
| History.FromDict | app/history.py:11-27 | `from_dict` fails exactly on an unknown key. Each present key gives its field that key's value. A missing key gives the field's default: a fresh id and timestamp, `success`, 0, `None`, or the empty string for url, title, filename, filepath and mode. |
| History.FromToDict | app/history.py:24-31 | `from_dict(to_dict(r))` is `r`. |
| History.ToFromDict | app/history.py:24-31 | A dict with exactly the record's keys survives `from_dict` then `to_dict` unchanged. |
| History.ParseItem | app/history.py:70-77 | An entry makes a record exactly when it is a dict with no unknown key. |
| History.Load | app/history.py:55-82 | A missing, undecodable or non-list file loads as `[]`. A list never loads more records than it has entries. |
| History.LoadHistory | app/history.py:55-82 | The loop as written returns the same records as `Load`. |
| History.ParseFromSnoc | app/history.py:69-79 | One more entry appends that entry's record, if it makes one, and keeps the earlier ones in order. |
| History.ParseNothingValid | app/history.py:69-79 | A list with no usable dict loads as `[]`. |
| History.LoadSkipsNonDict | app/history.py:70-71 | A non-dict entry is skipped and the good entry beside it still loads. |
| History.LoadSkipsUnknownKey | app/history.py:72-77 | A dict with an unknown key is skipped and the good entry after it still loads. |
| History.Last50 | app/history.py:89-90 | `records[-50:]` is the suffix of the list, with length `min(n, 50)`. |
| History.Encode | app/history.py:94 | One dict entry is written per record, in order. |
| History.Save | app/history.py:85-97 | A successful save writes at most 50 entries. A failed `open` leaves the file untouched, and a write cut short leaves an undecodable file. Neither raises, since both are the `IOError` the function catches. |
| History.LoadAfterSave | app/history.py:85-97 | After a successful save, loading returns exactly the newest 50 records saved. |
| History.SaveSmallIsExact | app/history.py:89-94 | Saving at most 50 records loads back as exactly those records. |
| History.InterruptedSaveLoadsEmpty | app/history.py:92-97 | After an interrupted write the next load returns `[]`. |
| History.Last50Absorb | app/history.py:90 | Capping, appending one record and capping again equals appending it and capping once. |
| History.AddAppendsNewest | app/history.py:100-104 | After an add, the new record is last. Below 50 the old history is kept whole. At 50 exactly the oldest record is dropped. |
| History.FailedOpenKeepsFile | app/history.py:92-97 | An add or delete whose `open` fails leaves the file as it was. |
| History.AddAllKeepsNewest | app/history.py:100-104 | After any number of adds the history is the newest 50 of the old history followed by the added records. |
| History.Last50Concat | app/history.py:90 | Capping the front of a concatenation first does not change the capped result. |
| History.WithoutId | app/history.py:110 | The filter keeps exactly the records whose id differs, and none with the id. |
| History.WithoutIdIdempotent | app/history.py:110 | Filtering twice by the same id is filtering once. |
| History.WithoutIdConcat | app/history.py:110 | The filter distributes over concatenation, so order is preserved. |
| History.WithoutAbsentId | app/history.py:110 | Filtering by an id no record has changes nothing. |
| History.DeleteRemovesOnlyId | app/history.py:107-111 | After a delete the history is the old one without that id, capped at 50. An absent id on a history of at most 50 changes nothing. |
| History.AddKeepsUniqueIds | app/history.py:100-104 | Adding a record whose id is new keeps ids unique. |
| History.DeleteKeepsUniqueIds | app/history.py:107-111 | A delete keeps ids unique. |
| Colors.StripHashes | app/main.py:49 | `lstrip("#")` drops exactly the leading `#` characters. |
| Colors.Slice | app/main.py:50 | A slice is never longer than asked for, and is the plain slice when in range. |
| Colors.HexField | app/main.py:50 | `int(field, 16)` of a two-digit field is its hex value. An empty field raises. Any value lies in [-15, 255]. |
| Colors.StripShortIsStrip | app/main.py:50 | The two-character strip used for a field agrees with `str.strip()`. |
| Colors.HexToRgb | app/main.py:48-50 | Every parsed channel lies in [-15, 255]. |
| Colors.ParseHexColor | app/main.py:48-50 | `#` and six hex digits, in either case, parse to the colour those digits name. |
| Colors.Hex02 | app/main.py:57-59 | `02x` of a byte is two lower-case digits with that value. A negative number prints with a minus sign. |
| Colors.Blend | app/main.py:57-59 | A channel is the first colour's at `t = 0` and the second's at `t = 1`. For `0 <= t <= 1` it lies between the two. |
| Colors.LerpHex | app/main.py:53-60 | The blend succeeds exactly when both colours parse. |
| Colors.RenderRoundTrip | app/main.py:53-60 | A colour with byte channels, printed, is well formed and parses back to itself. |
| Colors.RenderOfParse | app/main.py:53-60 | Parsing a well-formed colour and printing it gives its lower-case spelling. |
| Colors.LerpAtStart | app/main.py:53-60 | `_lerp_hex(c1, c2, 0)` is `c1` in lower case. |
| Colors.LerpAtEnd | app/main.py:53-60 | `_lerp_hex(c1, c2, 1)` is `c2` in lower case. |
| Colors.LerpStaysInGamut | app/main.py:53-60 | For `0 <= t <= 1` the blend of two well-formed colours is a well-formed colour. |
| Toggle.New | app/main.py:92-95 | A new toggle selects the first label and is idle and enabled. |
| Toggle.Get | app/main.py:125-126 | `get()` returns one of the labels. |
| Toggle.IndexOf | app/main.py:131 | `index(v)` is the first position holding `v`. |
| Toggle.Set | app/main.py:128-131 | An unknown value changes nothing. A known one selects its first position and changes nothing else, including the scheduled crossfade frame. |
| Toggle.Configure | app/main.py:140-143 | With a `state`, the toggle is disabled exactly when that state is `disabled`, and the labels, selection and crossfade are kept. Without one, nothing changes. |
| Toggle.RunCrossfade | app/main.py:159-178 | A step past the last frame stops the animation. Any other step schedules the next step. |
| Toggle.Click | app/main.py:151-157 | A click while disabled, on the selected button or during an animation changes nothing. Otherwise it selects the index and schedules the crossfade's second step. The labels and the disabled flag are kept. |
| Toggle.Frame | app/main.py:178 | A frame keeps the labels, the selection and the disabled flag, and does nothing while idle. |
| Toggle.AnimationEnds | app/main.py:159-178 | Every crossfade ends: it is still animating before its remaining frames have run, and idle after them. |
| Toggle.ClickThenFrames | app/main.py:151-178 | A click that starts a crossfade is idle again after exactly 13 frames, with the clicked index still selected. |
| Toggle.FramesKeepSelection | app/main.py:159-178 | Frames never change the selection. |
| Toggle.ClickDuringAnimation | app/main.py:152-153 | While a crossfade runs, clicks change nothing. |
| Toggle.SetThenGet | app/main.py:125-131 | `set(v)` then `get()` returns `v` when `v` is a label. |
| App.SliceFrom | app/main.py:549 | `s[start:]` counts a negative start from the end and clips both ways. |
| App.TruncatePath | app/main.py:544-549 | A path that fits is returned unchanged. Otherwise the result is `...` then a tail of the path, exactly `max_len` long when `max_len > 3`, and at `max_len == 3` the whole path. |
| App.AppendLog | app/main.py:731-738 | A blank message adds nothing. Any other message adds its stripped text, so the log stays free of blank and padded lines. |
| App.SetBusy | app/main.py:551-558 | Busy and the selector's disabled state are set together. Every other part of the window stays as it was: log, status, progress, URL, folder, current request, started requests, captures and the rest of the selector. |
| App.ModeFor | app/main.py:684-687 | Exactly the `MP3 Audio` label selects the audio mode. Every other label, known or not, selects video. |
| App.OnDownload | app/main.py:671-702 | A worker starts exactly when the window is not busy, the stripped URL is non-empty and the folder exists. While busy nothing changes. A blank URL or a missing folder only logs its error. A start records the request with the stripped URL and the selected mode, goes busy and logs the start. It keeps the URL field, the folder, the captures and the rest of the selector. |
| App.StartDownload | app/main.py:684-702 | A start records the request, sets busy, disables the selector, resets the progress and logs the start. Nothing else in the window changes. |
| App.AppendLogged | app/main.py:731-738 | A message with no padding is appended as it is. |
| App.Dispatch | app/main.py:707-725 | A `done` event always clears busy. Only `ok` captures the current request for history. A log or progress event keeps busy and the captures. A progress event sets the clamped fraction and the status line, and nothing else. An `ok` done also sets the progress to 1 and the status to `Download complete!`, and logs that line. A failed done sets only the failure status besides busy and the selector. |
| App.PollEvents | app/main.py:704-729 | Polling keeps the window state valid and never starts a download. |
| App.PollEventsAppend | app/main.py:704-729 | How the queue is split across poll ticks does not matter. |
| App.NoDoneKeepsBusy | app/main.py:709-714 | Events other than `done` neither clear busy nor capture history. |
| App.PollTrace | app/main.py:715-725 | A trace ending in its only `done` leaves the window idle. It captures the request exactly when `ok`. |
| App.DownloadSession | app/main.py:671-725 | Clicking Download and polling the worker's whole trace leaves the window idle. It gains one history capture, the request, exactly when the engine ran and returned normally. |
| App.PreviewDuration | app/main.py:648-653 | For a non-negative duration the text is the same `M:SS` / `H:MM:SS` clock as the eta. |
| App.PreviewMatchesEta | app/main.py:648-653 | For whole non-negative seconds the preview's duration equals `_format_eta` of the same value. |

## Left out

- `yt_dlp` itself is not modelled: format negotiation, the network and ffmpeg transcoding. It is foreign code, so the engine is an abstract script of callbacks and log calls ending in a normal return or an exception.
- Downloader.RunDownload: it assumes an exception raised by a progress hook leaves `ydl.download` unchanged. The text after `Error: ` is then `Cancelled`. Whether `yt_dlp` rewraps it is not visible here.
- Threads, `queue.Queue` and `after` scheduling are not modelled. The worker is one sequential run, the queue is the list of events it pushes, and each `_poll_events` tick takes a stretch of that list. Thread safety cannot be stated here.
- `time.time()` is not modelled. Each callback carries its clock reading, and the predicate's answers are a list indexed by call number.
- The filesystem and JSON are not modelled. That covers `get_history_path` with its temp-dir fallback, `open`, `json.load` and `json.dump`. The journal is a value, and a write fault is a parameter.
- History.Load: a history file that is not valid UTF-8 makes `load_history` raise `UnicodeDecodeError`, which its `except` does not catch. The model treats every undecodable file as unreadable and loads `[]`.
- History.Save: `save_history` catches only `IOError`. A file name with undecodable bytes reaches a record as surrogate escapes, and `json.dump` into the UTF-8 file then raises `UnicodeEncodeError` after `open("w")` has emptied the journal. Dafny's `char` cannot hold a surrogate, so the model has no such record and does not show this error escaping.
- History.FromDict: the types of field values are not checked, just as the dataclass does not check them. The model gives each field its declared type.
- app/resources.py is not part of this model. `ffmpeg_dir()`, the `ffmpeg`/`ffmpeg.exe` probe and `shutil.which` are reduced to the booleans and the path in `Environment`.
- Infinite and NaN floats are not modelled, because `yt_dlp` does not report them. In Python `_format_eta(inf)` raises `OverflowError` and `_format_bytes(nan)` raises `ValueError` at `int(...)`; every modelled value is a finite `real`.
- ProgressFormat.PercentField: `value * 100` is computed exactly. Python's float product can round before `round()` sees it.
- Colors.Blend: `a + (b - a) * t` is exact here. The float arithmetic can land a channel one unit away when the product is just below an integer.
- Colors.HexField: Python's `int(s, 16)` also accepts non-ASCII decimal digits. Only ASCII hex digits are modelled.
- The toggle's button colours, the cubic easing and the `_ANIM_MS` timing are left out, since only the animation's state is observable. The same goes for the progress bar easing and the status colour fade.
- `_capture_download_history` is reduced to recording the current request. It picks the newest file by modification time, builds a record and calls `add_download`, all of which is filesystem-bound.
- Only the duration text of `_update_preview` is modelled. `fetch_video_info` and `VideoInfo` are not part of this model. app/downloader.py as it stands does not define them, so main.py's `from app.downloader import ... VideoInfo, fetch_video_info` fails at import.
- The thumbnail, URL-changed and preview-card logic is GUI-only and left out.
- `_format_file_size`, the history list widgets, opening and revealing files, the clipboard and deletion of files are GUI and OS calls outside the core.
- build/smoke_test.py is a network-bound integration run and is not part of this model.
