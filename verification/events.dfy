/**
 * The values that cross from the download worker to the GUI: the request the
 * GUI builds and the events the worker pushes onto the queue.  The source
 * uses string-keyed dicts (`{"type": "log", ...}`); here they are a closed
 * sum type.
 */
module Events {
  import opened Base

  /** The two mode strings the GUI produces; any other string is treated as video. */
  const AudioMode: string := "Audio Only (MP3)"
  const VideoMode: string := "Best Video (MP4)"

  /** `DownloadRequest`: an immutable value; `saveDir` is the folder path as text. */
  datatype DownloadRequest = DownloadRequest(url: string, saveDir: string, mode: string)

  /**
   * The payload of a `progress` event.  A "downloading" callback fills every
   * field; a "finished" callback sends only `value` (the others are absent).
   */
  datatype ProgressInfo = ProgressInfo(
    value: real,
    downloaded: Option<real>,
    total: Option<real>,
    speed: Option<real>,
    eta: Option<real>)

  datatype DownloadEvent =
    | Log(message: string)
    | Progress(info: ProgressInfo)
    | Done(ok: bool)

  /** No event in `evs` is the terminal `done` event. */
  predicate NoDone(evs: seq<DownloadEvent>)
  {
    forall k :: 0 <= k < |evs| ==> !evs[k].Done?
  }

  /** Every progress event in `evs` carries a fraction in [0, 1]. */
  predicate FractionsInRange(evs: seq<DownloadEvent>)
  {
    forall k :: 0 <= k < |evs| && evs[k].Progress? ==> 0.0 <= evs[k].info.value <= 1.0
  }

  /** Two traces without `done` and with in-range fractions stay so when joined. */
  lemma CleanConcat(a: seq<DownloadEvent>, b: seq<DownloadEvent>)
    requires NoDone(a) && FractionsInRange(a) && NoDone(b) && FractionsInRange(b)
    ensures NoDone(a + b) && FractionsInRange(a + b)
  {
    forall k | 0 <= k < |a + b|
      ensures !(a + b)[k].Done?
      ensures (a + b)[k].Progress? ==> 0.0 <= (a + b)[k].info.value <= 1.0
    {
      if k >= |a| { assert (a + b)[k] == b[k - |a|]; }
    }
  }

  /** The trace holds exactly one `done` event and it is the last one. */
  predicate EndsWithSingleDone(evs: seq<DownloadEvent>)
  {
    |evs| > 0 && evs[|evs| - 1].Done? && NoDone(evs[..|evs| - 1])
  }

  /** Number of `done` events in a trace. */
  function CountDone(evs: seq<DownloadEvent>): nat
  {
    if |evs| == 0 then 0
    else CountDone(evs[..|evs| - 1]) + (if evs[|evs| - 1].Done? then 1 else 0)
  }

  /** "Exactly one done, last" really is exactly one: the count of `done` events is 1. */
  lemma {:induction false} SingleDoneCount(evs: seq<DownloadEvent>)
    requires EndsWithSingleDone(evs)
    ensures CountDone(evs) == 1
  {
    NoDoneCount(evs[..|evs| - 1]);
  }

  lemma {:induction false} NoDoneCount(evs: seq<DownloadEvent>)
    requires NoDone(evs)
    ensures CountDone(evs) == 0
  {
    if |evs| > 0 {
      NoDoneCount(evs[..|evs| - 1]);
    }
  }
}
