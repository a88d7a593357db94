/**
 * The shapes of the URLs the command line accepts (`PT_SERIES_URL` and
 * `PT_EPISODE_URL`) and the validation of the `--series` / `--episode` options.
 * The two dots of the host in both patterns are unescaped, so each matches any
 * character `.` matches (`IsDotChar`), not only a dot.
 */
module Urls {
  import opened Wrappers
  import opened Strings

  /** The host as written in both patterns; each `.` in it is a wildcard. */
  const HOST_PATTERN: string := "www.chia-anime.me"

  /** `host` is matched by the 17-character host part of the patterns. */
  predicate HostMatches(host: string) {
    && |host| == |HOST_PATTERN|
    && forall k :: 0 <= k < |host| ==>
         if HOST_PATTERN[k] == '.' then IsDotChar(host[k]) else host[k] == HOST_PATTERN[k]
  }

  /**
   * The dots are wildcards: a host matches exactly when it has the pattern's
   * letters and hyphens at the other fifteen positions and, at positions 3 and
   * 14, any characters `.` matches.
   */
  lemma HostWildcards(host: string)
    ensures HostMatches(host) <==>
      && |host| == 17
      && (forall k :: 0 <= k < 17 && k != 3 && k != 14 ==> host[k] == HOST_PATTERN[k])
      && IsDotChar(host[3]) && IsDotChar(host[14])
  {
    assert HOST_PATTERN[3] == '.' && HOST_PATTERN[14] == '.';
    assert forall k :: 0 <= k < 17 && k != 3 && k != 14 ==> HOST_PATTERN[k] != '.';
  }

  /** `(?:[^\/]+)`: a non-empty path segment without `/` (line terminators allowed). */
  predicate IsSlug(s: string) {
    |s| >= 1 && forall k :: 0 <= k < |s| ==> s[k] != '/'
  }

  /** `https?:\/\/`: the index just after the scheme, if `url` starts with one. */
  function SchemeEnd(url: string): (n: Option<nat>)
    ensures n.Some? ==> n.value <= |url|
    ensures n == Some(7) <==> |url| >= 7 && url[..7] == "http://"
    ensures n == Some(8) <==> |url| >= 8 && url[..8] == "https://"
    ensures n.None? <==> !(|url| >= 7 && url[..7] == "http://") && !(|url| >= 8 && url[..8] == "https://")
  {
    if |url| >= 7 && url[..7] == "http://" then
      assert |url| >= 8 ==> url[..8][4] == url[..7][4] == ':';
      Some(7)
    else if |url| >= 8 && url[..8] == "https://" then Some(8)
    else None
  }

  /** What follows the host in a series URL: `\/episode\/(?:[^\/]+)\/$`. */
  predicate IsSeriesPath(p: string) {
    |p| >= 11 && p[..9] == "/episode/" && p[|p| - 1] == '/' && IsSlug(p[9..|p| - 1])
  }

  /** What follows the host in an episode URL: `\/(?:[^\/]+)\/$`. */
  predicate IsEpisodePath(p: string) {
    |p| >= 3 && p[0] == '/' && p[|p| - 1] == '/' && IsSlug(p[1..|p| - 1])
  }

  /** `PT_SERIES_URL.test(url)`. */
  function IsSeriesURL(url: string): (b: bool)
    ensures b ==> SchemeEnd(url).Some? && SchemeEnd(url).value + 28 <= |url| && url[|url| - 1] == '/'
  {
    match SchemeEnd(url)
    case None => false
    case Some(n) => n + 17 <= |url| && HostMatches(url[n..n + 17]) && IsSeriesPath(url[n + 17..])
  }

  /** `PT_EPISODE_URL.test(url)`. */
  function IsEpisodeURL(url: string): (b: bool)
    ensures b ==> SchemeEnd(url).Some? && SchemeEnd(url).value + 20 <= |url| && url[|url| - 1] == '/'
  {
    match SchemeEnd(url)
    case None => false
    case Some(n) => n + 17 <= |url| && HostMatches(url[n..n + 17]) && IsEpisodePath(url[n + 17..])
  }

  function Scheme(secure: bool): string {
    if secure then "https" else "http"
  }

  function SeriesURLOf(secure: bool, host: string, slug: string): string {
    Scheme(secure) + "://" + host + ("/episode/" + slug + "/")
  }

  function EpisodeURLOf(secure: bool, host: string, slug: string): string {
    Scheme(secure) + "://" + host + ("/" + slug + "/")
  }

  /** The language of `PT_SERIES_URL`, read off the pattern piece by piece. */
  ghost predicate IsSeriesShape(url: string) {
    exists secure, host, slug :: HostMatches(host) && IsSlug(slug) && url == SeriesURLOf(secure, host, slug)
  }

  /** The language of `PT_EPISODE_URL`, read off the pattern piece by piece. */
  ghost predicate IsEpisodeShape(url: string) {
    exists secure, host, slug :: HostMatches(host) && IsSlug(slug) && url == EpisodeURLOf(secure, host, slug)
  }

  lemma SchemeEndOf(secure: bool, rest: string)
    ensures SchemeEnd(Scheme(secure) + "://" + rest) == Some(|Scheme(secure)| + 3)
  {
    var url := Scheme(secure) + "://" + rest;
    if secure {
      assert url[4] == 's';
      assert url[..8] == "https://";
    } else {
      assert url[..7] == "http://";
    }
  }

  /** `url` splits into scheme, host and path at the index `SchemeEnd` gives. */
  lemma SplitAtScheme(url: string, n: nat)
    requires SchemeEnd(url) == Some(n) && n + 17 <= |url|
    ensures url == Scheme(n == 8) + "://" + url[n..n + 17] + url[n + 17..]
  {
    assert url[..n] == Scheme(n == 8) + "://";
    assert url == url[..n] + url[n..n + 17] + url[n + 17..];
  }

  lemma SeriesURLHasShape(url: string)
    requires IsSeriesURL(url)
    ensures IsSeriesShape(url)
  {
    var n := SchemeEnd(url).value;
    var host, p := url[n..n + 17], url[n + 17..];
    var slug := p[9..|p| - 1];
    SplitAtScheme(url, n);
    assert p == "/episode/" + slug + "/" by {
      assert p == p[..9] + slug + [p[|p| - 1]];
    }
    assert url == SeriesURLOf(n == 8, host, slug);
  }

  lemma ShapeIsSeriesURL(secure: bool, host: string, slug: string)
    requires HostMatches(host) && IsSlug(slug)
    ensures IsSeriesURL(SeriesURLOf(secure, host, slug))
  {
    var url := SeriesURLOf(secure, host, slug);
    var n := |Scheme(secure)| + 3;
    var p := "/episode/" + slug + "/";
    SchemeEndOf(secure, host + p);
    assert url == Scheme(secure) + "://" + (host + p);
    assert url[n..n + 17] == host;
    assert url[n + 17..] == p;
    assert p[9..|p| - 1] == slug;
  }

  /** `IsSeriesURL` decides exactly the language of the series pattern. */
  lemma SeriesURLShape(url: string)
    ensures IsSeriesURL(url) <==> IsSeriesShape(url)
  {
    if IsSeriesURL(url) {
      SeriesURLHasShape(url);
    }
    if IsSeriesShape(url) {
      var secure, host, slug :| HostMatches(host) && IsSlug(slug) && url == SeriesURLOf(secure, host, slug);
      ShapeIsSeriesURL(secure, host, slug);
    }
  }

  lemma EpisodeURLHasShape(url: string)
    requires IsEpisodeURL(url)
    ensures IsEpisodeShape(url)
  {
    var n := SchemeEnd(url).value;
    var host, p := url[n..n + 17], url[n + 17..];
    var slug := p[1..|p| - 1];
    SplitAtScheme(url, n);
    assert p == "/" + slug + "/" by {
      assert p == [p[0]] + slug + [p[|p| - 1]];
    }
    assert url == EpisodeURLOf(n == 8, host, slug);
  }

  lemma ShapeIsEpisodeURL(secure: bool, host: string, slug: string)
    requires HostMatches(host) && IsSlug(slug)
    ensures IsEpisodeURL(EpisodeURLOf(secure, host, slug))
  {
    var url := EpisodeURLOf(secure, host, slug);
    var n := |Scheme(secure)| + 3;
    var p := "/" + slug + "/";
    SchemeEndOf(secure, host + p);
    assert url == Scheme(secure) + "://" + (host + p);
    assert url[n..n + 17] == host;
    assert url[n + 17..] == p;
    assert p[1..|p| - 1] == slug;
  }

  /** `IsEpisodeURL` decides exactly the language of the episode pattern. */
  lemma EpisodeURLShape(url: string)
    ensures IsEpisodeURL(url) <==> IsEpisodeShape(url)
  {
    if IsEpisodeURL(url) {
      EpisodeURLHasShape(url);
    }
    if IsEpisodeShape(url) {
      var secure, host, slug :| HostMatches(host) && IsSlug(slug) && url == EpisodeURLOf(secure, host, slug);
      ShapeIsEpisodeURL(secure, host, slug);
    }
  }

  /** No URL is both a series URL and an episode URL. */
  lemma SeriesAndEpisodeDisjoint(url: string)
    ensures !(IsSeriesURL(url) && IsEpisodeURL(url))
  {
    if IsSeriesURL(url) {
      var p := url[SchemeEnd(url).value + 17..];
      assert p[1..|p| - 1][7] == '/';
    }
  }

  /** A string option counts as given when it is truthy: present and not empty. */
  predicate Given(arg: Option<string>) {
    arg.Some? && arg.value != ""
  }

  datatype ArgError =
    | MissingTarget               // "Either `series` or `episode` arg is required"
    | InvalidSeries(url: string)  // "Invalid Series URL - ..."
    | InvalidEpisode(url: string) // "Invalid Episode URL - ..."

  /** The validation chain that assigns `err`: the first failing test wins. */
  function Validate(series: Option<string>, episode: Option<string>): (err: Option<ArgError>)
    ensures err.None? <==>
      && (Given(series) || Given(episode))
      && (Given(series) ==> IsSeriesURL(series.value))
      && (Given(episode) ==> IsEpisodeURL(episode.value))
  {
    if !Given(series) && !Given(episode) then Some(MissingTarget)
    else if Given(series) && !IsSeriesURL(series.value) then Some(InvalidSeries(series.value))
    else if Given(episode) && !IsEpisodeURL(episode.value) then Some(InvalidEpisode(episode.value))
    else None
  }

  /** `args.series || args.episode`: the URL handed to the series download. */
  function Target(series: Option<string>, episode: Option<string>): (t: Option<string>)
    ensures Given(t) <==> Given(series) || Given(episode)
    ensures Given(series) ==> t == series
  {
    if Given(series) then series else episode
  }

  /**
   * Which error is reported: missing only when neither option is given, an
   * invalid series before an invalid episode, and after validation the URL used
   * is the series URL when one is given (even beside a valid episode URL) and
   * otherwise the episode URL.
   */
  lemma ValidationOrder(series: Option<string>, episode: Option<string>)
    ensures Validate(series, episode) == Some(MissingTarget) <==> !Given(series) && !Given(episode)
    ensures Validate(series, episode).Some? && Validate(series, episode).value.InvalidSeries? <==>
      Given(series) && !IsSeriesURL(series.value)
    ensures Given(series) && !IsSeriesURL(series.value) ==>
      Validate(series, episode) == Some(InvalidSeries(series.value))
    ensures Validate(series, episode).Some? && Validate(series, episode).value.InvalidEpisode? <==>
      && (Given(series) ==> IsSeriesURL(series.value))
      && Given(episode) && !IsEpisodeURL(episode.value)
    ensures (Given(series) ==> IsSeriesURL(series.value)) && Given(episode) && !IsEpisodeURL(episode.value) ==>
      Validate(series, episode) == Some(InvalidEpisode(episode.value))
    ensures Validate(series, episode).None? ==>
      && Target(series, episode).Some?
      && (Given(series) ==> Target(series, episode) == series && IsSeriesURL(series.value))
      && (!Given(series) ==> Target(series, episode) == episode && IsEpisodeURL(episode.value))
  {
  }
}
