/**
 * The control of a download run: `isDownloaded`, the retry loop and the quality
 * fallback of `downloadEpisode`, the episode loop of `downloadSeries`, and the
 * top level that validates the options and runs the series download.
 *
 * The network is an oracle. Every request the run makes is recorded, in order,
 * as an `Action` in a log, and what the n-th action gets back (an episode page,
 * a resolved video URL, the outcome of one download) is given by the functions
 * of an `Env` applied to n. The destination directory is a map from file name to
 * size in bytes.
 */
module Orchestrator {
  import opened Wrappers
  import opened FileNames
  import opened Listing
  import opened VideoLocator
  import opened Urls

  const MAX_RETRIES: nat := 5
  const OVERWRITE_FILES: bool := false
  const MIN_FILE_SIZE_BYTES: nat := 20 * 1024 * 1024

  /** `isDownloaded` over the size of the file, absent when the file does not exist. */
  function IsDownloaded(size: Option<nat>): (b: bool)
    ensures b ==> size.Some?
  {
    size.Some? && size.value > MIN_FILE_SIZE_BYTES
  }

  /** The threshold is 20 MiB and strict: a file of exactly 20 MiB does not count. */
  lemma DownloadedThreshold(size: Option<nat>)
    ensures MIN_FILE_SIZE_BYTES == 20971520
    ensures IsDownloaded(size) <==> size.Some? && size.value >= 20971521
    ensures !IsDownloaded(None) && !IsDownloaded(Some(20971520))
  {
  }

  /** `args.quality`, and `highQuality` as a quality. */
  datatype Quality = Low | High

  /** `!highQuality`. */
  function Opposite(q: Quality): (r: Quality)
    ensures r != q
  {
    if q == High then Low else High
  }

  /**
   * One call of `downloadVideo`: its promise rejected (`Threw`) or resolved at the
   * end of the response (`Ended`). Either way `onDisk` is the size of the
   * destination file afterwards, absent when there is no file.
   */
  datatype Attempt = Threw(onDisk: Option<nat>) | Ended(onDisk: Option<nat>)

  /** The attempt after which the loop stops: it ended and left the file large enough. */
  predicate Succeeded(a: Attempt) {
    a.Ended? && IsDownloaded(a.onDisk)
  }

  datatype Action =
    | FetchListing(url: string)                           // the GET of `getEpisodes`
    | FetchEpisode(url: string)                           // the GET of `getVideoID`
    | Resolve(videoID: string, quality: Quality)          // `getDownloadableVideoURL`
    | Download(url: string, referer: string, file: string) // `downloadVideo`

  /** What the n-th action of the run gets back. */
  datatype Env = Env(
    listing: nat -> Option<seq<Entry>>, // entries of the series page; absent: the request failed
    page: nat -> Option<string>,        // text of the episode page; absent: the request failed
    resolved: nat -> Option<string>,    // the final video URL; absent: resolution threw
    attempt: nat -> Attempt)            // what one download did

  datatype State = State(disk: map<string, nat>, log: seq<Action>)

  /** Outcome of an operation: the new state, and false when an exception escaped it. */
  datatype Outcome = Outcome(st: State, ok: bool)

  function SizeOf(disk: map<string, nat>, file: string): Option<nat> {
    if file in disk then Some(disk[file]) else None
  }

  /** The directory after `file` was (over)written, or removed when nothing is left. */
  function Store(disk: map<string, nat>, file: string, onDisk: Option<nat>): (d: map<string, nat>)
    ensures SizeOf(d, file) == onDisk
    ensures forall f :: f != file ==> SizeOf(d, f) == SizeOf(disk, f)
  {
    match onDisk
    case Some(n) => disk[file := n]
    case None => disk - {file}
  }

  lemma StoreTwice(disk: map<string, nat>, file: string, x: Option<nat>, y: Option<nat>)
    ensures Store(Store(disk, file, x), file, y) == Store(disk, file, y)
  {
    var l, r := Store(Store(disk, file, x), file, y), Store(disk, file, y);
    assert forall f :: SizeOf(l, f) == SizeOf(r, f);
    assert l.Keys == r.Keys;
  }

  function Repeat<T>(x: T, k: nat): (r: seq<T>)
    ensures |r| == k && forall j :: 0 <= j < k ==> r[j] == x
  {
    seq(k, _ => x)
  }

  /**
   * The loop `while (++retry <= MAX_RETRIES)` from the state in which `retry`
   * attempts have been made: download, and stop after the first attempt that
   * ended with the file counted as downloaded. A thrown error is followed by the
   * next attempt, as an undersized file is.
   */
  function Retries(env: Env, st: State, url: string, referer: string, file: string, retry: nat): (r: State)
    requires retry <= MAX_RETRIES
    decreases MAX_RETRIES - retry
    ensures |st.log| <= |r.log| <= |st.log| + (MAX_RETRIES - retry) && r.log[..|st.log|] == st.log
  {
    if retry == MAX_RETRIES then st
    else
      var a := env.attempt(|st.log|);
      var next := State(Store(st.disk, file, a.onDisk), st.log + [Download(url, referer, file)]);
      if a.Ended? && IsDownloaded(SizeOf(next.disk, file)) then next
      else
        var r := Retries(env, next, url, referer, file, retry + 1);
        assert r.log[..|st.log|] == r.log[..|next.log|][..|st.log|];
        r
  }

  /** The loop's log: between one and the remaining number of identical downloads. */
  lemma {:induction false} RetriesLog(env: Env, st: State, url: string, referer: string, file: string, retry: nat)
    requires retry < MAX_RETRIES
    ensures var r := Retries(env, st, url, referer, file, retry);
      && |st.log| < |r.log|
      && r.log == st.log + Repeat(Download(url, referer, file), |r.log| - |st.log|)
    decreases MAX_RETRIES - retry
  {
    var a := env.attempt(|st.log|);
    var d := Download(url, referer, file);
    var next := State(Store(st.disk, file, a.onDisk), st.log + [d]);
    if !(a.Ended? && IsDownloaded(SizeOf(next.disk, file))) && retry + 1 < MAX_RETRIES {
      RetriesLog(env, next, url, referer, file, retry + 1);
      var r := Retries(env, next, url, referer, file, retry + 1);
      assert r == Retries(env, st, url, referer, file, retry);
      var k := |r.log| - |next.log|;
      assert r.log == next.log + Repeat(d, k);
      assert [d] + Repeat(d, k) == Repeat(d, k + 1);
      calc {
        r.log;
        (st.log + [d]) + Repeat(d, k);
        st.log + ([d] + Repeat(d, k));
        st.log + Repeat(d, k + 1);
      }
    } else {
      assert Retries(env, st, url, referer, file, retry) == next;
      assert Repeat(d, 1) == [d];
    }
  }

  /** The loop leaves the file as the last attempt left it. */
  lemma {:induction false} RetriesDisk(env: Env, st: State, url: string, referer: string, file: string, retry: nat)
    requires retry < MAX_RETRIES
    ensures var r := Retries(env, st, url, referer, file, retry);
      |st.log| < |r.log| && r.disk == Store(st.disk, file, env.attempt(|r.log| - 1).onDisk)
    decreases MAX_RETRIES - retry
  {
    var a := env.attempt(|st.log|);
    var d := Download(url, referer, file);
    var next := State(Store(st.disk, file, a.onDisk), st.log + [d]);
    if !(a.Ended? && IsDownloaded(SizeOf(next.disk, file))) && retry + 1 < MAX_RETRIES {
      RetriesDisk(env, next, url, referer, file, retry + 1);
      var r := Retries(env, next, url, referer, file, retry + 1);
      assert r == Retries(env, st, url, referer, file, retry);
      StoreTwice(st.disk, file, a.onDisk, env.attempt(|r.log| - 1).onDisk);
    } else {
      assert Retries(env, st, url, referer, file, retry) == next;
    }
  }

  /** Only the last attempt of the loop can have succeeded, and it did unless the budget ran out. */
  lemma {:induction false} RetriesAttempts(env: Env, st: State, url: string, referer: string, file: string, retry: nat)
    requires retry < MAX_RETRIES
    ensures var r := Retries(env, st, url, referer, file, retry);
      && |st.log| < |r.log|
      && (forall j :: |st.log| <= j < |r.log| - 1 ==> !Succeeded(env.attempt(j)))
      && (|r.log| - |st.log| < MAX_RETRIES - retry ==> Succeeded(env.attempt(|r.log| - 1)))
    decreases MAX_RETRIES - retry
  {
    var a := env.attempt(|st.log|);
    var d := Download(url, referer, file);
    var next := State(Store(st.disk, file, a.onDisk), st.log + [d]);
    assert SizeOf(next.disk, file) == a.onDisk;
    if !(a.Ended? && IsDownloaded(SizeOf(next.disk, file))) && retry + 1 < MAX_RETRIES {
      RetriesAttempts(env, next, url, referer, file, retry + 1);
      var r := Retries(env, next, url, referer, file, retry + 1);
      assert r == Retries(env, st, url, referer, file, retry);
      assert !Succeeded(env.attempt(|st.log|));
    } else {
      assert Retries(env, st, url, referer, file, retry) == next;
    }
  }

  /**
   * The loop makes between one and the remaining number of attempts, all to the
   * same URL, Referer and file; every attempt but the last failed, and the last
   * one succeeded unless the budget ran out; the file is what the last attempt
   * left, and no other file changes.
   */
  lemma RetriesShape(env: Env, st: State, url: string, referer: string, file: string, retry: nat)
    requires retry < MAX_RETRIES
    ensures var r := Retries(env, st, url, referer, file, retry);
      && |st.log| < |r.log|
      && var k := |r.log| - |st.log|;
      && k <= MAX_RETRIES - retry
      && r.log == st.log + Repeat(Download(url, referer, file), k)
      && r.disk == Store(st.disk, file, env.attempt(|r.log| - 1).onDisk)
      && (forall j :: |st.log| <= j < |r.log| - 1 ==> !Succeeded(env.attempt(j)))
      && (k < MAX_RETRIES - retry ==> Succeeded(env.attempt(|r.log| - 1)))
  {
    RetriesLog(env, st, url, referer, file, retry);
    RetriesDisk(env, st, url, referer, file, retry);
    RetriesAttempts(env, st, url, referer, file, retry);
  }

  /**
   * One pass of `downloadEpisode` after the skip test: look up the video
   * identifier and the video URL in the given quality (a failure there escapes)
   * and run the retry loop with the identifier's info page as Referer.
   */
  function Pass(env: Env, st: State, url: string, file: string, quality: Quality): (r: Outcome)
    ensures |st.log| < |r.st.log| && r.st.log[..|st.log|] == st.log && r.st.log[|st.log|] == FetchEpisode(url)
    ensures !r.ok ==> r.st.disk == st.disk
    ensures forall f :: f != file ==> SizeOf(r.st.disk, f) == SizeOf(st.disk, f)
  {
    var n := |st.log|;
    var fetched := State(st.disk, st.log + [FetchEpisode(url)]);
    match env.page(n)
    case None => Outcome(fetched, false)
    case Some(text) =>
      match VideoID(text)
      case None => Outcome(fetched, false)
      case Some(id) =>
        var resolving := State(st.disk, fetched.log + [Resolve(id, quality)]);
        match env.resolved(n + 1)
        case None => Outcome(resolving, false)
        case Some(videoURL) =>
          var done := Retries(env, resolving, videoURL, InfoPageURL(id), file, 0);
          RetriesDisk(env, resolving, videoURL, InfoPageURL(id), file, 0);
          assert done.log[..n] == done.log[..|resolving.log|][..n];
          assert done.log[n] == done.log[..|resolving.log|][n];
          Outcome(done, true)
  }

  /**
   * `downloadEpisode(episodeURL, destFilePath, highQuality)` with `args.quality`
   * as `preferred`: skip a file already downloaded; otherwise make one pass, and
   * when the file is still not downloaded and the pass used the preferred
   * quality, start again with the opposite quality.
   */
  function EpisodeRun(env: Env, st: State, url: string, file: string, quality: Quality, preferred: Quality): (r: Outcome)
    decreases if quality == preferred then 1 else 0
    ensures |st.log| <= |r.st.log| && r.st.log[..|st.log|] == st.log
    ensures forall f :: f != file ==> SizeOf(r.st.disk, f) == SizeOf(st.disk, f)
  {
    if IsDownloaded(SizeOf(st.disk, file)) && !OVERWRITE_FILES then Outcome(st, true)
    else
      var pass := Pass(env, st, url, file, quality);
      if pass.ok && !IsDownloaded(SizeOf(pass.st.disk, file)) && preferred == quality then
        var r := EpisodeRun(env, pass.st, url, file, Opposite(quality), preferred);
        assert r.st.log[..|st.log|] == r.st.log[..|pass.st.log|][..|st.log|];
        r
      else pass
  }

  /** Number of `downloadVideo` calls among `actions`. */
  function DownloadCount(actions: seq<Action>): nat {
    if actions == [] then 0 else (if actions[0].Download? then 1 else 0) + DownloadCount(actions[1..])
  }

  /** The qualities of the `getDownloadableVideoURL` calls among `actions`, in order. */
  function Qualities(actions: seq<Action>): seq<Quality> {
    if actions == [] then [] else (if actions[0].Resolve? then [actions[0].quality] else []) + Qualities(actions[1..])
  }

  lemma {:induction false} CountsAppend(a: seq<Action>, b: seq<Action>)
    ensures DownloadCount(a + b) == DownloadCount(a) + DownloadCount(b)
    ensures Qualities(a + b) == Qualities(a) + Qualities(b)
  {
    if a != [] {
      CountsAppend(a[1..], b);
      assert (a + b)[1..] == a[1..] + b;
    } else {
      assert a + b == b;
    }
  }

  /** The actions added from `base` to `full` via `mid` are those added to `mid` and then to `full`. */
  lemma CountsOfExtension(base: seq<Action>, mid: seq<Action>, full: seq<Action>)
    requires |base| <= |mid| <= |full| && mid[..|base|] == base && full[..|mid|] == mid
    ensures full[|base|..] == mid[|base|..] + full[|mid|..]
    ensures DownloadCount(full[|base|..]) == DownloadCount(mid[|base|..]) + DownloadCount(full[|mid|..])
  {
    assert full[|base|..] == mid[|base|..] + full[|mid|..];
    CountsAppend(mid[|base|..], full[|mid|..]);
  }

  lemma {:induction false} CountsRepeat(d: Action, k: nat)
    requires d.Download?
    ensures DownloadCount(Repeat(d, k)) == k && Qualities(Repeat(d, k)) == []
  {
    if k > 0 {
      CountsRepeat(d, k - 1);
      assert Repeat(d, k)[1..] == Repeat(d, k - 1);
    }
  }

  lemma LookupCounts(url: string, id: string, quality: Quality)
    ensures DownloadCount([FetchEpisode(url), Resolve(id, quality)]) == 0
    ensures Qualities([FetchEpisode(url), Resolve(id, quality)]) == [quality]
  {
    var l := [FetchEpisode(url), Resolve(id, quality)];
    var t := [Resolve(id, quality)];
    assert t[1..] == [];
    assert Qualities(t) == [quality] + Qualities(t[1..]);
    assert DownloadCount(t) == 0 + DownloadCount(t[1..]);
    assert l[1..] == t;
  }

  /** The actions a pass that reached the retry loop added from position `n` of `log`. */
  lemma PassLogCounts(log: seq<Action>, n: nat, url: string, id: string, quality: Quality, d: Action)
    requires d.Download? && n + 2 <= |log|
    requires log[n..n + 2] == [FetchEpisode(url), Resolve(id, quality)]
    requires log[n + 2..] == Repeat(d, |log| - (n + 2))
    ensures DownloadCount(log[n..]) == |log| - (n + 2)
    ensures Qualities(log[n..]) == [quality]
  {
    var k := |log| - (n + 2);
    assert log[n..] == [FetchEpisode(url), Resolve(id, quality)] + Repeat(d, k);
    CountsRepeat(d, k);
    CountsAppend([FetchEpisode(url), Resolve(id, quality)], Repeat(d, k));
    LookupCounts(url, id, quality);
  }

  /**
   * One pass logs the episode fetch; then, if the page holds an identifier, one
   * resolution of that identifier in the pass's quality; then, if that gave a
   * video URL, one to five downloads of that URL to the episode's file with the
   * identifier's info page as Referer. The pass fails exactly when it stops
   * before the downloads, and then changes no file. A file still short after the
   * loop means all `MAX_RETRIES` attempts were made.
   */
  lemma PassShape(env: Env, st: State, url: string, file: string, quality: Quality)
    ensures var r := Pass(env, st, url, file, quality);
      var n := |st.log|;
      var page := env.page(n);
      && (r.ok <==> page.Some? && VideoID(page.value).Some? && env.resolved(n + 1).Some?)
      && ((page.None? || VideoID(page.value).None?) ==> r.st.log[n..] == [FetchEpisode(url)])
      && (page.Some? && VideoID(page.value).Some? ==>
            var id := VideoID(page.value).value;
            && n + 2 <= |r.st.log|
            && r.st.log[n..n + 2] == [FetchEpisode(url), Resolve(id, quality)]
            && (env.resolved(n + 1).None? ==> |r.st.log| == n + 2)
            && (env.resolved(n + 1).Some? ==>
                  var k := |r.st.log| - (n + 2);
                  && 1 <= k <= MAX_RETRIES
                  && r.st.log[n + 2..] == Repeat(Download(env.resolved(n + 1).value, InfoPageURL(id), file), k)
                  && (!IsDownloaded(SizeOf(r.st.disk, file)) ==> k == MAX_RETRIES)))
  {
    var n := |st.log|;
    var page := env.page(n);
    if page.Some? && VideoID(page.value).Some? {
      if env.resolved(n + 1).Some? {
        PassReachesLoop(env, st, url, file, quality);
      } else {
        PassNoVideoURL(env, st, url, file, quality);
      }
    } else {
      PassNoID(env, st, url, file, quality);
    }
  }

  /** A pass whose page fetch failed or whose page holds no identifier. */
  lemma PassNoID(env: Env, st: State, url: string, file: string, quality: Quality)
    requires env.page(|st.log|).None? || VideoID(env.page(|st.log|).value).None?
    ensures var r := Pass(env, st, url, file, quality);
      !r.ok && r.st.log[|st.log|..] == [FetchEpisode(url)]
  {
    var fetched := State(st.disk, st.log + [FetchEpisode(url)]);
    assert Pass(env, st, url, file, quality) == Outcome(fetched, false);
    assert fetched.log[|st.log|..] == [FetchEpisode(url)];
  }

  /** A pass whose resolution threw. */
  lemma PassNoVideoURL(env: Env, st: State, url: string, file: string, quality: Quality)
    requires env.page(|st.log|).Some? && VideoID(env.page(|st.log|).value).Some?
    requires env.resolved(|st.log| + 1).None?
    ensures var r := Pass(env, st, url, file, quality);
      var n := |st.log|;
      && !r.ok && |r.st.log| == n + 2
      && r.st.log[n..n + 2] == [FetchEpisode(url), Resolve(VideoID(env.page(n).value).value, quality)]
  {
    var n := |st.log|;
    var id := VideoID(env.page(n).value).value;
    var resolving := State(st.disk, st.log + [FetchEpisode(url)] + [Resolve(id, quality)]);
    assert Pass(env, st, url, file, quality) == Outcome(resolving, false);
    assert resolving.log[n..n + 2] == [FetchEpisode(url), Resolve(id, quality)];
  }

  /** A pass that reached the retry loop. */
  lemma PassReachesLoop(env: Env, st: State, url: string, file: string, quality: Quality)
    requires env.page(|st.log|).Some? && VideoID(env.page(|st.log|).value).Some?
    requires env.resolved(|st.log| + 1).Some?
    ensures var r := Pass(env, st, url, file, quality);
      var n := |st.log|;
      var id := VideoID(env.page(n).value).value;
      var k := |r.st.log| - (n + 2);
      && r.ok && n + 2 <= |r.st.log|
      && r.st.log[n..n + 2] == [FetchEpisode(url), Resolve(id, quality)]
      && 1 <= k <= MAX_RETRIES
      && r.st.log[n + 2..] == Repeat(Download(env.resolved(n + 1).value, InfoPageURL(id), file), k)
      && (!IsDownloaded(SizeOf(r.st.disk, file)) ==> k == MAX_RETRIES)
  {
    var n := |st.log|;
    var id := VideoID(env.page(n).value).value;
    var videoURL := env.resolved(n + 1).value;
    var resolving := State(st.disk, st.log + [FetchEpisode(url)] + [Resolve(id, quality)]);
    var done := Retries(env, resolving, videoURL, InfoPageURL(id), file, 0);
    assert Pass(env, st, url, file, quality) == Outcome(done, true);
    LoopAfterLookups(env, resolving, n, url, id, quality, videoURL, file);
  }

  /** The retry loop after the two lookups of a pass, as seen from where the pass began. */
  lemma LoopAfterLookups(env: Env, resolving: State, n: nat, url: string, id: string, quality: Quality,
                         videoURL: string, file: string)
    requires |resolving.log| == n + 2 && resolving.log[n..] == [FetchEpisode(url), Resolve(id, quality)]
    ensures var done := Retries(env, resolving, videoURL, InfoPageURL(id), file, 0);
      var k := |done.log| - (n + 2);
      && n + 2 <= |done.log|
      && done.log[n..n + 2] == [FetchEpisode(url), Resolve(id, quality)]
      && 1 <= k <= MAX_RETRIES
      && done.log[n + 2..] == Repeat(Download(videoURL, InfoPageURL(id), file), k)
      && (!IsDownloaded(SizeOf(done.disk, file)) ==> k == MAX_RETRIES)
  {
    var done := Retries(env, resolving, videoURL, InfoPageURL(id), file, 0);
    RetriesLog(env, resolving, videoURL, InfoPageURL(id), file, 0);
    RetriesDisk(env, resolving, videoURL, InfoPageURL(id), file, 0);
    RetriesAttempts(env, resolving, videoURL, InfoPageURL(id), file, 0);
    assert SizeOf(done.disk, file) == env.attempt(|done.log| - 1).onDisk;
    assert done.log[n..n + 2] == resolving.log[n..];
    assert done.log[n + 2..] == done.log[|resolving.log|..];
  }

  /** A pass makes at most `MAX_RETRIES` downloads and at most one resolution, in its quality. */
  lemma PassCost(env: Env, st: State, url: string, file: string, quality: Quality)
    ensures var r := Pass(env, st, url, file, quality);
      var added := r.st.log[|st.log|..];
      && |st.log| <= |r.st.log| && DownloadCount(added) <= MAX_RETRIES
      && (Qualities(added) == [] || Qualities(added) == [quality])
      && (r.ok ==> Qualities(added) == [quality])
  {
    var n := |st.log|;
    var page := env.page(n);
    if page.None? || VideoID(page.value).None? {
      PassNoID(env, st, url, file, quality);
      FetchCounts(url);
    } else if env.resolved(n + 1).Some? {
      LoopPassCost(env, st, url, file, quality);
    } else {
      var r := Pass(env, st, url, file, quality);
      PassNoVideoURL(env, st, url, file, quality);
      assert r.st.log[n..] == r.st.log[n..n + 2];
      LookupCounts(url, VideoID(page.value).value, quality);
    }
  }

  lemma FetchCounts(url: string)
    ensures DownloadCount([FetchEpisode(url)]) == 0 && Qualities([FetchEpisode(url)]) == []
  {
    var l := [FetchEpisode(url)];
    assert l[1..] == [];
    assert Qualities(l) == [] + Qualities(l[1..]);
    assert DownloadCount(l) == 0 + DownloadCount(l[1..]);
  }

  /** The cost of a pass that reached the retry loop. */
  lemma LoopPassCost(env: Env, st: State, url: string, file: string, quality: Quality)
    requires env.page(|st.log|).Some? && VideoID(env.page(|st.log|).value).Some?
    requires env.resolved(|st.log| + 1).Some?
    ensures var r := Pass(env, st, url, file, quality);
      var added := r.st.log[|st.log|..];
      && |st.log| <= |r.st.log| && DownloadCount(added) <= MAX_RETRIES && Qualities(added) == [quality]
  {
    var r := Pass(env, st, url, file, quality);
    var n := |st.log|;
    var id := VideoID(env.page(n).value).value;
    PassReachesLoop(env, st, url, file, quality);
    PassLogCounts(r.st.log, n, url, id, quality, Download(env.resolved(n + 1).value, InfoPageURL(id), file));
  }

  /** A file that already counts as downloaded is skipped: no request, no change. */
  lemma EpisodeRunSkips(env: Env, st: State, url: string, file: string, quality: Quality, preferred: Quality)
    requires IsDownloaded(SizeOf(st.disk, file))
    ensures EpisodeRun(env, st, url, file, quality, preferred) == Outcome(st, true)
  {
  }

  /**
   * The quality fallback of `downloadEpisode`: after a first pass on a file not
   * yet downloaded, a second pass follows exactly when the first one reached the
   * retry loop, left the file short and used the preferred quality. The second
   * pass starts again from the episode page, in the opposite quality, and is the
   * last one.
   */
  lemma EpisodeRunFallback(env: Env, st: State, url: string, file: string, quality: Quality, preferred: Quality)
    requires !IsDownloaded(SizeOf(st.disk, file))
    ensures var pass := Pass(env, st, url, file, quality);
      var r := EpisodeRun(env, st, url, file, quality, preferred);
      var fallback := pass.ok && !IsDownloaded(SizeOf(pass.st.disk, file)) && quality == preferred;
      && |pass.st.log| <= |r.st.log| && r.st.log[..|pass.st.log|] == pass.st.log
      && (|r.st.log| > |pass.st.log| <==> fallback)
      && (!fallback ==> r == pass)
      && (fallback ==>
            && r == Pass(env, pass.st, url, file, Opposite(quality))
            && r.st.log[|pass.st.log|] == FetchEpisode(url))
  {
    var pass := Pass(env, st, url, file, quality);
    if pass.ok && !IsDownloaded(SizeOf(pass.st.disk, file)) && quality == preferred {
      var second := Pass(env, pass.st, url, file, Opposite(quality));
      assert EpisodeRun(env, pass.st, url, file, Opposite(quality), preferred) == second;
    }
  }

  /** Two consecutive passes, the first in `quality` and the second in the opposite one. */
  lemma TwoPassesCost(base: seq<Action>, mid: seq<Action>, full: seq<Action>, quality: Quality)
    requires |base| <= |mid| <= |full| && mid[..|base|] == base && full[..|mid|] == mid
    requires DownloadCount(mid[|base|..]) <= MAX_RETRIES && Qualities(mid[|base|..]) == [quality]
    requires DownloadCount(full[|mid|..]) <= MAX_RETRIES
    requires Qualities(full[|mid|..]) == [] || Qualities(full[|mid|..]) == [Opposite(quality)]
    ensures DownloadCount(full[|base|..]) <= 2 * MAX_RETRIES
    ensures Qualities(full[|base|..]) == [quality] || Qualities(full[|base|..]) == [quality, Opposite(quality)]
  {
    CountsOfExtension(base, mid, full);
    CountsAppend(mid[|base|..], full[|mid|..]);
  }

  /**
   * What one episode costs: at most two passes, so at most ten downloads; the
   * resolutions are made in `quality` and then, only when `quality` is the
   * preferred one, once more in the opposite quality.
   */
  lemma EpisodeRunCost(env: Env, st: State, url: string, file: string, quality: Quality, preferred: Quality)
    ensures var r := EpisodeRun(env, st, url, file, quality, preferred);
      && |st.log| <= |r.st.log|
      && DownloadCount(r.st.log[|st.log|..]) <= MAX_RETRIES + (if quality == preferred then MAX_RETRIES else 0)
      && var qs := Qualities(r.st.log[|st.log|..]);
      && (qs == [] || qs == [quality] || (quality == preferred && qs == [quality, Opposite(quality)]))
    decreases if quality == preferred then 1 else 0
  {
    var r := EpisodeRun(env, st, url, file, quality, preferred);
    if IsDownloaded(SizeOf(st.disk, file)) {
      assert r.st.log[|st.log|..] == [];
      return;
    }
    var pass := Pass(env, st, url, file, quality);
    PassCost(env, st, url, file, quality);
    if pass.ok && !IsDownloaded(SizeOf(pass.st.disk, file)) && preferred == quality {
      var second := EpisodeRun(env, pass.st, url, file, Opposite(quality), preferred);
      assert r == second;
      EpisodeRunCost(env, pass.st, url, file, Opposite(quality), preferred);
      PassShape(env, st, url, file, quality);
      TwoPassesCost(st.log, pass.st.log, second.st.log, quality);
    } else {
      assert r == pass;
    }
  }

  /**
   * The `for (let episode of episodes)` loop of `downloadSeries` over the first
   * episodes: each episode in list order, into the file named after it, in the
   * preferred quality; an exception escaping one episode ends the loop.
   */
  function SeriesRun(env: Env, st: State, episodes: seq<Episode>, preferred: Quality): (r: Outcome)
    decreases |episodes|
    ensures |st.log| <= |r.st.log| && r.st.log[..|st.log|] == st.log
  {
    if episodes == [] then Outcome(st, true)
    else
      var prev := SeriesRun(env, st, episodes[..|episodes| - 1], preferred);
      var e := episodes[|episodes| - 1];
      if !prev.ok then prev
      else
        var r := EpisodeRun(env, prev.st, e.url, FileName(e.name), preferred, preferred);
        assert r.st.log[..|st.log|] == r.st.log[..|prev.st.log|][..|st.log|];
        r
  }

  /** One more turn of the loop, after a prefix that ran to its end. */
  lemma {:induction false} SeriesRunSnoc(env: Env, st: State, episodes: seq<Episode>, i: nat, preferred: Quality)
    requires i < |episodes| && SeriesRun(env, st, episodes[..i], preferred).ok
    ensures var prev := SeriesRun(env, st, episodes[..i], preferred);
      var e := episodes[i];
      SeriesRun(env, st, episodes[..i + 1], preferred) ==
        EpisodeRun(env, prev.st, e.url, FileName(e.name), preferred, preferred)
  {
    assert episodes[..i + 1][..i] == episodes[..i];
  }

  /** A turn that failed ends the loop: the rest of the list is not run. */
  lemma {:induction false} SeriesRunAbort(env: Env, st: State, episodes: seq<Episode>, i: nat, preferred: Quality)
    requires i < |episodes| && !SeriesRun(env, st, episodes[..i + 1], preferred).ok
    ensures SeriesRun(env, st, episodes, preferred) == SeriesRun(env, st, episodes[..i + 1], preferred)
  {
    var done, rest := episodes[..i + 1], episodes[i + 1..];
    assert done + rest == episodes;
    SeriesRunSplit(env, st, done, rest, preferred);
  }

  /**
   * Running a list in two parts is running the first part and, unless it failed,
   * the second part from where the first stopped: later episodes are processed
   * only after earlier ones, and nothing at all after a failure.
   */
  lemma {:induction false} SeriesRunSplit(env: Env, st: State, a: seq<Episode>, b: seq<Episode>, preferred: Quality)
    ensures var first := SeriesRun(env, st, a, preferred);
      SeriesRun(env, st, a + b, preferred) ==
        if !first.ok then first else SeriesRun(env, first.st, b, preferred)
    decreases |b|
  {
    if b == [] {
      assert a + b == a;
    } else {
      var b' := b[..|b| - 1];
      SeriesRunSplit(env, st, a, b', preferred);
      assert (a + b)[..|a + b| - 1] == a + b';
    }
  }

  /** Every download logged from position `from` on writes `file`. */
  predicate DownloadsTo(log: seq<Action>, from: nat, file: string) {
    forall j :: from <= j < |log| && log[j].Download? ==> log[j].file == file
  }

  /** The log of a pass that reached the retry loop downloads only to the loop's file. */
  lemma LoopLogTargets(log: seq<Action>, n: nat, url: string, id: string, quality: Quality, d: Action)
    requires d.Download? && n + 2 <= |log|
    requires log[n..n + 2] == [FetchEpisode(url), Resolve(id, quality)]
    requires log[n + 2..] == Repeat(d, |log| - (n + 2))
    ensures DownloadsTo(log, n, d.file)
  {
    forall j | n <= j < |log|
      ensures log[j].Download? ==> log[j].file == d.file
    {
      if j < n + 2 {
        assert log[j] == log[n..n + 2][j - n];
      } else {
        assert log[j] == log[n + 2..][j - (n + 2)];
      }
    }
  }

  /** A pass downloads only to its own file. */
  lemma {:induction false} PassTargets(env: Env, st: State, url: string, file: string, quality: Quality)
    ensures DownloadsTo(Pass(env, st, url, file, quality).st.log, |st.log|, file)
  {
    var r := Pass(env, st, url, file, quality);
    var n := |st.log|;
    var page := env.page(n);
    if page.None? || VideoID(page.value).None? {
      PassNoID(env, st, url, file, quality);
      forall j | n <= j < |r.st.log| ensures r.st.log[j] == FetchEpisode(url) {
        assert r.st.log[j] == r.st.log[n..][j - n];
      }
    } else if env.resolved(n + 1).None? {
      PassNoVideoURL(env, st, url, file, quality);
      forall j | n <= j < |r.st.log| ensures !r.st.log[j].Download? {
        assert r.st.log[j] == r.st.log[n..n + 2][j - n];
      }
    } else {
      var id := VideoID(page.value).value;
      PassReachesLoop(env, st, url, file, quality);
      LoopLogTargets(r.st.log, n, url, id, quality, Download(env.resolved(n + 1).value, InfoPageURL(id), file));
    }
  }

  /** An episode, with its fallback, downloads only to its own file. */
  lemma {:induction false} EpisodeRunTargets(env: Env, st: State, url: string, file: string, quality: Quality,
                                             preferred: Quality)
    ensures DownloadsTo(EpisodeRun(env, st, url, file, quality, preferred).st.log, |st.log|, file)
    decreases if quality == preferred then 1 else 0
  {
    if !(IsDownloaded(SizeOf(st.disk, file)) && !OVERWRITE_FILES) {
      var pass := Pass(env, st, url, file, quality);
      PassTargets(env, st, url, file, quality);
      if pass.ok && !IsDownloaded(SizeOf(pass.st.disk, file)) && preferred == quality {
        var r := EpisodeRun(env, pass.st, url, file, Opposite(quality), preferred);
        assert EpisodeRun(env, st, url, file, quality, preferred) == r;
        EpisodeRunTargets(env, pass.st, url, file, Opposite(quality), preferred);
        forall j | |st.log| <= j < |pass.st.log| ensures r.st.log[j] == pass.st.log[j] {
          assert r.st.log[j] == r.st.log[..|pass.st.log|][j];
        }
      }
    }
  }

  /**
   * A file that counts as downloaded when the loop starts is never written again
   * and is never the target of a download, whatever the network does.
   */
  lemma {:induction false} DownloadedFilesKept(env: Env, st: State, episodes: seq<Episode>, preferred: Quality, f: string)
    requires IsDownloaded(SizeOf(st.disk, f))
    ensures var r := SeriesRun(env, st, episodes, preferred);
      && SizeOf(r.st.disk, f) == SizeOf(st.disk, f)
      && forall j :: |st.log| <= j < |r.st.log| && r.st.log[j].Download? ==> r.st.log[j].file != f
    decreases |episodes|
  {
    if episodes != [] {
      var prev := SeriesRun(env, st, episodes[..|episodes| - 1], preferred);
      DownloadedFilesKept(env, st, episodes[..|episodes| - 1], preferred, f);
      if prev.ok {
        var e := episodes[|episodes| - 1];
        var file := FileName(e.name);
        var r := EpisodeRun(env, prev.st, e.url, file, preferred, preferred);
        assert SeriesRun(env, st, episodes, preferred) == r;
        if file == f {
          EpisodeRunSkips(env, prev.st, e.url, file, preferred, preferred);
        } else {
          EpisodeRunTargets(env, prev.st, e.url, file, preferred, preferred);
          forall j | |st.log| <= j < |prev.st.log| ensures r.st.log[j] == prev.st.log[j] {
            assert r.st.log[j] == r.st.log[..|prev.st.log|][j];
          }
        }
      }
    }
  }

  /** Extending a log with one episode's downloads adds at most ten to its count. */
  lemma ExtendCost(base: seq<Action>, mid: seq<Action>, full: seq<Action>, k: nat)
    requires |base| <= |mid| <= |full| && mid[..|base|] == base && full[..|mid|] == mid
    requires DownloadCount(mid[|base|..]) <= 10 * k
    requires DownloadCount(full[|mid|..]) <= 2 * MAX_RETRIES
    ensures DownloadCount(full[|base|..]) <= 10 * (k + 1)
  {
    CountsOfExtension(base, mid, full);
  }

  /** The whole loop makes at most ten downloads, twice `MAX_RETRIES`, per episode. */
  lemma {:induction false} SeriesRunCost(env: Env, st: State, episodes: seq<Episode>, preferred: Quality)
    ensures var r := SeriesRun(env, st, episodes, preferred);
      && |st.log| <= |r.st.log|
      && DownloadCount(r.st.log[|st.log|..]) <= 10 * |episodes|
    decreases |episodes|
  {
    if episodes == [] {
      assert SeriesRun(env, st, episodes, preferred).st.log[|st.log|..] == [];
    } else {
      var init := episodes[..|episodes| - 1];
      var prev := SeriesRun(env, st, init, preferred);
      SeriesRunCost(env, st, init, preferred);
      if prev.ok {
        var e := episodes[|episodes| - 1];
        var r := EpisodeRun(env, prev.st, e.url, FileName(e.name), preferred, preferred);
        assert SeriesRun(env, st, episodes, preferred) == r;
        EpisodeRunCost(env, prev.st, e.url, FileName(e.name), preferred, preferred);
        ExtendCost(st.log, prev.st.log, r.st.log, |init|);
      } else {
        assert SeriesRun(env, st, episodes, preferred) == prev;
      }
    }
  }

  /** A network on which every request works. */
  ghost predicate Reliable(env: Env) {
    && (forall n :: env.page(n).Some? && VideoID(env.page(n).value).Some?)
    && (forall n :: env.resolved(n).Some?)
    && (forall n :: Succeeded(env.attempt(n)))
  }

  /**
   * When every request works, the loop completes and every episode's file
   * counts as downloaded afterwards.
   */
  lemma {:induction false} ReliableRunDownloadsAll(env: Env, st: State, episodes: seq<Episode>, preferred: Quality)
    requires Reliable(env)
    ensures var r := SeriesRun(env, st, episodes, preferred);
      && r.ok
      && forall i :: 0 <= i < |episodes| ==> IsDownloaded(SizeOf(r.st.disk, FileName(episodes[i].name)))
    decreases |episodes|
  {
    if episodes != [] {
      var init := episodes[..|episodes| - 1];
      var prev := SeriesRun(env, st, init, preferred);
      ReliableRunDownloadsAll(env, st, init, preferred);
      var e := episodes[|episodes| - 1];
      var file := FileName(e.name);
      var r := SeriesRun(env, st, episodes, preferred);
      forall i | 0 <= i < |episodes| - 1
        ensures IsDownloaded(SizeOf(r.st.disk, FileName(episodes[i].name)))
      {
        assert episodes[i] == init[i];
        DownloadedFilesKept(env, prev.st, [e], preferred, FileName(episodes[i].name));
        assert [e][..0] == [];
      }
      if !IsDownloaded(SizeOf(prev.st.disk, file)) {
        var n := |prev.st.log|;
        var id := VideoID(env.page(n).value).value;
        var resolving := State(prev.st.disk, prev.st.log + [FetchEpisode(e.url)] + [Resolve(id, preferred)]);
        var a := env.attempt(|resolving.log|);
        assert Succeeded(a);
        var pass := Pass(env, prev.st, e.url, file, preferred);
        assert pass.st.disk == Store(resolving.disk, file, a.onDisk);
        assert r == pass;
      }
    }
  }

  /**
   * `downloadSeries(seriesURL, destDir, highQuality)`: fetch the listing (a failed
   * request escapes), then run the episode loop over `getEpisodes`' list.
   */
  function SeriesDownload(env: Env, st: State, seriesURL: string, preferred: Quality): (r: Outcome)
    ensures |st.log| < |r.st.log| && r.st.log[..|st.log|] == st.log
    ensures r.st.log[|st.log|] == FetchListing(seriesURL)
  {
    var fetched := State(st.disk, st.log + [FetchListing(seriesURL)]);
    match env.listing(|st.log|)
    case None => Outcome(fetched, false)
    case Some(entries) =>
      var r := SeriesRun(env, fetched, GetEpisodes(entries), preferred);
      assert r.st.log[..|st.log|] == r.st.log[..|fetched.log|][..|st.log|];
      assert r.st.log[|st.log|] == r.st.log[..|fetched.log|][|st.log|];
      r
  }

  /** What the program does: its exit status and the final state. */
  datatype Exit = Exit(code: nat, st: State)

  /**
   * The top level: validate the options (exit 1 with no request at all on an
   * error), create the destination directory (`dirCreated` says whether
   * `fs.mkdirSync` succeeded; its exception is not caught, so the program ends
   * with status 1 before any request), then download from
   * `args.series || args.episode`, and exit 1 when an exception escapes the
   * download.
   */
  function Cli(env: Env, disk: map<string, nat>, series: Option<string>, episode: Option<string>,
               dirCreated: bool, preferred: Quality): (x: Exit)
    ensures x.code == 0 || x.code == 1
    ensures Validate(series, episode).Some? || !dirCreated ==> x == Exit(1, State(disk, []))
  {
    var st := State(disk, []);
    if Validate(series, episode).Some? then Exit(1, st)
    else if !dirCreated then Exit(1, st)
    else
      var r := SeriesDownload(env, st, Target(series, episode).value, preferred);
      Exit(if r.ok then 0 else 1, r.st)
  }

  /**
   * The exit status is 0 exactly when the options are valid, the directory was
   * created and the download ran to its end; otherwise no request is made
   * before the exit; once the directory exists the first request is the listing
   * of the series URL when one is given, and of the episode URL otherwise.
   */
  lemma CliOutcome(env: Env, disk: map<string, nat>, series: Option<string>, episode: Option<string>,
                   dirCreated: bool, preferred: Quality)
    ensures var x := Cli(env, disk, series, episode, dirCreated, preferred);
      && (x.code == 0 <==>
            Validate(series, episode).None? && dirCreated &&
            SeriesDownload(env, State(disk, []), Target(series, episode).value, preferred).ok)
      && (Validate(series, episode).None? && dirCreated ==>
            && |x.st.log| > 0
            && x.st.log[0] == FetchListing(if Given(series) then series.value else episode.value))
  {
    ValidationOrder(series, episode);
  }

  /**
   * When the listing arrives and every later request works, the series download
   * completes and every listed episode is on disk.
   */
  lemma ReliableSeriesDownload(env: Env, st: State, seriesURL: string, preferred: Quality)
    requires env.listing(|st.log|).Some? && Reliable(env)
    ensures var r := SeriesDownload(env, st, seriesURL, preferred);
      var episodes := GetEpisodes(env.listing(|st.log|).value);
      && r.ok
      && forall i :: 0 <= i < |episodes| ==> IsDownloaded(SizeOf(r.st.disk, FileName(episodes[i].name)))
  {
    var fetched := State(st.disk, st.log + [FetchListing(seriesURL)]);
    ReliableRunDownloadsAll(env, fetched, GetEpisodes(env.listing(|st.log|).value), preferred);
  }

  /**
   * When the options are valid, the directory can be created, the listing
   * arrives and every later request works, the program exits with 0 and every
   * listed episode is on disk.
   */
  lemma ReliableCli(env: Env, disk: map<string, nat>, series: Option<string>, episode: Option<string>,
                    preferred: Quality)
    requires Validate(series, episode).None? && env.listing(0).Some? && Reliable(env)
    ensures var x := Cli(env, disk, series, episode, true, preferred);
      var episodes := GetEpisodes(env.listing(0).value);
      && x.code == 0
      && forall i :: 0 <= i < |episodes| ==> IsDownloaded(SizeOf(x.st.disk, FileName(episodes[i].name)))
  {
    ReliableSeriesDownload(env, State(disk, []), Target(series, episode).value, preferred);
  }

  /** `args.series ? 'Series' : 'Episode'`. */
  function Kind(series: Option<string>): string {
    if Given(series) then "Series" else "Episode"
  }

  /** JavaScript's conversion of an optional string argument to a string. */
  function Show(arg: Option<string>): string {
    if arg.Some? then arg.value else "undefined"
  }

  /**
   * The first banner line as written: `+` binds tighter than `||`, so the
   * concatenation is always a non-empty string and `args.episode` is never
   * consulted.
   */
  function BannerAsWritten(series: Option<string>, episode: Option<string>): (b: string)
    ensures |b| > 0
    ensures series.None? ==> |b| >= 9 && b[|b| - 9..] == "undefined"
  {
    var left := Kind(series) + " URL: " + Show(series);
    if |left| > 0 then left else Show(episode)
  }

  /** With only an episode URL, the banner names no URL but `undefined`. */
  lemma BannerIgnoresEpisode(series: Option<string>, episode: Option<string>)
    ensures BannerAsWritten(series, episode) == BannerAsWritten(series, None)
    ensures BannerAsWritten(None, episode) == "Episode" + " URL: " + "undefined"
  {
  }

  /** The banner as intended: the kind of URL followed by the URL that is downloaded. */
  function Banner(series: Option<string>, episode: Option<string>): (b: string)
    ensures Given(Target(series, episode)) ==>
      var url := Target(series, episode).value;
      |url| <= |b| && b[|b| - |url|..] == url
  {
    Kind(series) + " URL: " + Show(Target(series, episode))
  }

  /**
   * The banner is printed once the directory exists; the intended banner then
   * ends with the URL whose listing is fetched.
   */
  lemma BannerNamesTarget(env: Env, disk: map<string, nat>, series: Option<string>, episode: Option<string>,
                          preferred: Quality)
    requires Validate(series, episode).None?
    ensures var log := Cli(env, disk, series, episode, true, preferred).st.log;
      && |log| > 0 && log[0].FetchListing?
      && Banner(series, episode) == Kind(series) + " URL: " + log[0].url
  {
    CliOutcome(env, disk, series, episode, true, preferred);
  }

  /**
   * The run with its directory and log as fields, updated step by step as the
   * program goes; `env` answers its requests and `preferred` is `args.quality`.
   */
  class Downloader {
    const env: Env
    const preferred: Quality
    var disk: map<string, nat>
    var log: seq<Action>

    constructor(env: Env, disk: map<string, nat>, preferred: Quality)
      ensures this.env == env && this.preferred == preferred && this.disk == disk && this.log == []
    {
      this.env := env;
      this.preferred := preferred;
      this.disk := disk;
      this.log := [];
    }

    function Current(): State
      reads this
    {
      State(disk, log)
    }

    /** `getEpisodes(seriesURL)`: absent when the request failed. */
    method GetEpisodes(seriesURL: string) returns (episodes: Option<seq<Episode>>)
      modifies this
      ensures disk == old(disk) && log == old(log) + [FetchListing(seriesURL)]
      ensures var page := env.listing(|old(log)|);
        episodes == if page.Some? then Some(Listing.GetEpisodes(page.value)) else None
    {
      var page := env.listing(|log|);
      log := log + [FetchListing(seriesURL)];
      episodes := if page.Some? then Some(Listing.GetEpisodes(page.value)) else None;
    }

    /** `getVideoID(episodeURL)`: absent when the request failed or the page has no identifier. */
    method GetVideoID(episodeURL: string) returns (id: Option<string>)
      modifies this
      ensures disk == old(disk) && log == old(log) + [FetchEpisode(episodeURL)]
      ensures var page := env.page(|old(log)|);
        id == if page.Some? then VideoID(page.value) else None
    {
      var page := env.page(|log|);
      log := log + [FetchEpisode(episodeURL)];
      id := if page.Some? then VideoID(page.value) else None;
    }

    /** `getDownloadableVideoURL(videoID, highQuality)`: absent when it threw. */
    method GetDownloadableVideoURL(videoID: string, quality: Quality) returns (videoURL: Option<string>)
      modifies this
      ensures disk == old(disk) && log == old(log) + [Resolve(videoID, quality)]
      ensures videoURL == env.resolved(|old(log)|)
    {
      videoURL := env.resolved(|log|);
      log := log + [Resolve(videoID, quality)];
    }

    /** `downloadVideo(videoURL, destFilePath, videoID)`: true when it ended rather than threw. */
    method DownloadVideo(videoURL: string, file: string, referer: string) returns (ended: bool)
      modifies this
      ensures var a := env.attempt(|old(log)|);
        && ended == a.Ended?
        && disk == Store(old(disk), file, a.onDisk)
        && log == old(log) + [Download(videoURL, referer, file)]
    {
      var a := env.attempt(|log|);
      disk := Store(disk, file, a.onDisk);
      log := log + [Download(videoURL, referer, file)];
      ended := a.Ended?;
    }

    /** The loop `while (++retry <= MAX_RETRIES)` of `downloadEpisode`. */
    method DownloadWithRetries(videoURL: string, file: string, referer: string)
      modifies this
      ensures Current() == Retries(env, old(Current()), videoURL, referer, file, 0)
    {
      ghost var result := Retries(env, Current(), videoURL, referer, file, 0);
      var retry := 0;
      while retry < MAX_RETRIES
        invariant retry <= MAX_RETRIES
        invariant Retries(env, Current(), videoURL, referer, file, retry) == result
        decreases MAX_RETRIES - retry
      {
        retry := retry + 1;
        var ended := DownloadVideo(videoURL, file, referer);
        if ended && IsDownloaded(SizeOf(disk, file)) {
          break;
        }
      }
      assert Current() == result;
    }

    /**
     * Lines 172-194 of `downloadEpisode`: look up the identifier and the video URL
     * (a failure there escapes), then run the retry loop.
     */
    method DownloadPass(episodeURL: string, file: string, quality: Quality) returns (ok: bool)
      modifies this
      ensures Outcome(Current(), ok) == Pass(env, old(Current()), episodeURL, file, quality)
    {
      var id := GetVideoID(episodeURL);
      if id.None? {
        return false;
      }
      var videoURL := GetDownloadableVideoURL(id.value, quality);
      if videoURL.None? {
        return false;
      }
      DownloadWithRetries(videoURL.value, file, InfoPageURL(id.value));
      ok := true;
    }

    /** `downloadEpisode(episodeURL, destFilePath, highQuality)`; false when an exception escapes. */
    method DownloadEpisode(episodeURL: string, file: string, quality: Quality) returns (ok: bool)
      modifies this
      ensures Outcome(Current(), ok) == EpisodeRun(env, old(Current()), episodeURL, file, quality, preferred)
      decreases if quality == preferred then 1 else 0
    {
      if IsDownloaded(SizeOf(disk, file)) && !OVERWRITE_FILES {
        return true;
      }
      ok := DownloadPass(episodeURL, file, quality);
      if ok && !IsDownloaded(SizeOf(disk, file)) && preferred == quality {
        ok := DownloadEpisode(episodeURL, file, Opposite(quality));
      }
    }

    /** The `for (let episode of episodes)` loop of `downloadSeries`; false when an exception escapes. */
    method DownloadEpisodes(episodes: seq<Episode>) returns (ok: bool)
      modifies this
      ensures Outcome(Current(), ok) == SeriesRun(env, old(Current()), episodes, preferred)
    {
      ghost var st0 := Current();
      var i := 0;
      while i < |episodes|
        invariant i <= |episodes|
        invariant SeriesRun(env, st0, episodes[..i], preferred) == Outcome(Current(), true)
      {
        var e := episodes[i];
        SeriesRunSnoc(env, st0, episodes, i, preferred);
        var done := DownloadEpisode(e.url, FileName(e.name), preferred);
        if !done {
          SeriesRunAbort(env, st0, episodes, i, preferred);
          return false;
        }
        i := i + 1;
      }
      assert episodes[..i] == episodes;
      ok := true;
    }

    /** `downloadSeries(seriesURL, destDir, highQuality)`; false when an exception escapes. */
    method DownloadSeries(seriesURL: string) returns (ok: bool)
      modifies this
      ensures Outcome(Current(), ok) == SeriesDownload(env, old(Current()), seriesURL, preferred)
    {
      var episodes := GetEpisodes(seriesURL);
      if episodes.None? {
        return false;
      }
      ok := DownloadEpisodes(episodes.value);
    }

    /**
     * The program from a fresh run: validation, the creation of the directory
     * (whose outcome is `dirCreated`), then the download, then the exit status.
     */
    method Run(series: Option<string>, episode: Option<string>, dirCreated: bool) returns (code: nat)
      requires log == []
      modifies this
      ensures Exit(code, Current()) == Cli(env, old(disk), series, episode, dirCreated, preferred)
    {
      if Validate(series, episode).Some? {
        return 1;
      }
      if !dirCreated {
        return 1;
      }
      var ok := DownloadSeries(Target(series, episode).value);
      code := if ok then 0 else 1;
    }
  }
}
