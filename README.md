# chia-anime-dl, modelled in Dafny

`chia-anime-dl` is a command-line downloader for anime episodes hosted on
chia-anime. Given a series URL (or an episode URL) and a destination
directory, it does the following:

1. It scrapes the episode list of the series page.
2. It names each episode after its heading, normalised into a file name ending in `.mp4`.
3. For each episode not yet on disk, it finds the video identifier on the episode page.
4. It resolves that identifier to a video URL in the preferred quality.
5. It downloads the video with up to five attempts, stopping at the first one that ends without an error and leaves the file large enough. An attempt that fails with an error is followed by the next one, however much of the file it wrote.
6. When the file is still too small after those attempts and the quality used was the preferred one, it starts the episode again in the other quality: the skip test, the page fetch, the identifier lookup, the resolution and the attempts.

This project models that core:

- `Strings` holds the JavaScript runtime operations the program relies on:
  - the regular-expression classes `\w` and `.`;
  - substring search;
  - `replace` with a string pattern;
  - `trim`;
  - `reverse`.
- `FileNames` holds `normalizeFileName` and the `.mp4` file name.
- `Urls` holds the series and episode URL patterns (`isSeriesURL`, `isEpisodeURL`) and the validation of the command-line options.
- `Listing` holds the episode list built by `getEpisodes` from the scraped entries.
- `VideoLocator` holds two things:
  - the video-identifier regular expression of `getVideoID`;
  - the `ANIMEAPP_URL` template, whose filled-in form is both the info page and the download Referer.
- `Orchestrator` holds the following:
  - `isDownloaded`;
  - the retry loop and the quality fallback of `downloadEpisode`;
  - the episode loop of `downloadSeries`;
  - the top level (validation, creation of the destination directory, download, exit status).
  - A `Downloader` class keeps the directory and the request log as fields. Its methods are proved equal to the functional specification.

The network is an oracle, an `Env`:

- Every request the run makes is appended to a log of `Action`s.
- What the n-th request gets back is `env.listing(n)`, `env.page(n)`, `env.resolved(n)` or `env.attempt(n)`:
  - `env.listing(n)`: the entries of the series page.
  - `env.page(n)`: the episode page.
  - `env.resolved(n)`: the final video URL.
  - `env.attempt(n)`: whether a download ended or threw, and the size of the file it left.
- Whether `fs.mkdirSync` creates the destination directory is a further input, `dirCreated`, of the top level `Cli`. The call is outside the `try` of the download, so when it fails the program ends with status 1 after validation, before any request. `Cli` exits with 1 and an empty log in that case.
- Every run of the real program in which writing the destination file does not fail is therefore one choice of `Env` and `dirCreated`. A property proved for all `Env`s holds for such runs whatever the network does.
- The destination directory is a map from file name to size.

Behaviour of the code that the model keeps, though a reader might expect otherwise:

- The class `[^\w\d]` keeps `_`, so `"Foo!!__Bar 2"` normalises to `"Foo-__Bar-2"`.
- A file counts as downloaded only when it is strictly larger than 20 MiB (`>`, not `>=`).
- A failed page fetch or a failed resolution inside `downloadEpisode` is not caught per episode. It ends the whole series loop, and the program exits with status 1.
- `--episode` has no path of its own. Its URL is handed to `downloadSeries` as a series page, and only when `--series` is absent or empty.
- The dots of `www.chia-anime.me` in both URL patterns are unescaped. Each matches what `.` matches without the `u` flag: a single UTF-16 code unit other than a line terminator. In the model that is any character up to U+FFFF other than a line terminator.
- An empty option string counts as absent, as JavaScript truthiness makes it.

## Model

| member | source | states |
|---|---|---|
| Strings.Contains | chia-anime-dl.js:68-73 | `/p/.test(s)` for a literal pattern holds exactly when `p` occurs at some position of `s` |
| Strings.ReplaceFirst | chia-anime-dl.js:96 | `replace` with a string pattern changes only the leftmost occurrence. Without an occurrence the string is unchanged. |
| Strings.Trim | chia-anime-dl.js:64 | `trim` never lengthens the string, and a non-empty result neither starts nor ends with JavaScript white space |
| Strings.TrimSpec | chia-anime-dl.js:64 | `trim` returns one contiguous piece of the input, and everything cut away before and after it is JavaScript white space |
| Strings.TrimIdempotent | chia-anime-dl.js:64 | trimming twice is trimming once |
| Strings.Reverse | chia-anime-dl.js:78 | `reverse` keeps the length |
| Strings.ReverseAt | chia-anime-dl.js:78 | element `k` of the reversed list is element `n-1-k` of the original |
| FileNames.NonWordRun | chia-anime-dl.js:17 | measures the maximal run of characters outside `[\w\d]` at the start of a string |
| FileNames.Normalize | chia-anime-dl.js:44-46 | the result is no longer than the name and is empty only for an empty name. It starts with `-` exactly when the name starts with a non-word character. It uses only `[A-Za-z0-9_-]` and never has two `-` in a row. |
| FileNames.NormalizeKeepsWords | chia-anime-dl.js:44-46 | normalisation keeps every word character, `_` included, in order |
| FileNames.NormalizeIsScan | chia-anime-dl.js:44-46 | collapsing runs agrees with an independent character-by-character reading of the global replace |
| FileNames.NormalIsFixed | chia-anime-dl.js:44-46 | a name already in normal form is left unchanged |
| FileNames.FixedIffNormal | chia-anime-dl.js:44-46 | the names normalisation leaves unchanged are exactly the normal ones |
| FileNames.NormalizeIdempotent | chia-anime-dl.js:44-46 | normalising twice is normalising once |
| FileNames.FileName | chia-anime-dl.js:158 | the file name is four characters longer than the normalised name |
| FileNames.FileNameShape | chia-anime-dl.js:158-159 | the file name is a normal stem followed by `.mp4`. It contains no `/` and is never `.` or `..`, so joining it to the directory stays inside that directory. |
| Urls.HostWildcards | chia-anime-dl.js:18-19 | a 17-character host matches `www.chia-anime.me` exactly when it agrees with it at every position but 3 and 14, and those two hold any character `.` matches (a single code unit that is not a line terminator), e.g. `www-chia-anime_me` |
| Urls.SchemeEnd | chia-anime-dl.js:18-19 | the scheme `https?://` ends at 7 exactly when the URL starts with `http://`, at 8 exactly when it starts with `https://`, and is absent exactly when it starts with neither |
| Urls.IsSeriesURL | chia-anime-dl.js:36-38 | an accepted series URL has a scheme, room for the host and at least `/episode/x/` after it, and ends with `/` |
| Urls.SeriesURLHasShape | chia-anime-dl.js:18 | an accepted series URL is scheme, `://`, a 17-character host, `/episode/`, a non-empty slug without `/`, and `/` |
| Urls.ShapeIsSeriesURL | chia-anime-dl.js:18 | every URL of that shape is accepted |
| Urls.SeriesURLShape | chia-anime-dl.js:36-38 | `isSeriesURL` decides exactly the language of `PT_SERIES_URL` |
| Urls.IsEpisodeURL | chia-anime-dl.js:40-42 | an accepted episode URL has a scheme, room for the host and at least `/x/` after it, and ends with `/` |
| Urls.EpisodeURLHasShape | chia-anime-dl.js:19 | an accepted episode URL is scheme, `://`, a 17-character host, `/`, a non-empty slug without `/`, and `/` |
| Urls.ShapeIsEpisodeURL | chia-anime-dl.js:19 | every URL of that shape is accepted |
| Urls.EpisodeURLShape | chia-anime-dl.js:40-42 | `isEpisodeURL` decides exactly the language of `PT_EPISODE_URL` |
| Urls.SeriesAndEpisodeDisjoint | chia-anime-dl.js:18-19 | no URL is accepted as both a series URL and an episode URL |
| Urls.Target | chia-anime-dl.js:263 | `args.series \|\| args.episode` is given exactly when one of the two is given, and is the series URL whenever that is given |
| Urls.Validate | chia-anime-dl.js:238-245 | no error exactly when a target is given and every given URL has the right shape |
| Urls.ValidationOrder | chia-anime-dl.js:238-245 | `missing` is reported exactly when neither option is given. `Invalid Series URL` with the series URL is reported exactly when a given series URL is rejected. `Invalid Episode URL` with the episode URL is reported exactly when the series URL is absent or accepted and a given episode URL is rejected. After validation the series URL is used when given, otherwise the episode URL, and it has the right shape. |
| Listing.Suffix | chia-anime-dl.js:68-73 | the added suffix is one of empty, `-Specials`, `-OVA`, `-Specials-OVA` |
| Listing.ToEpisode | chia-anime-dl.js:63-76 | the episode keeps the scraped link |
| Listing.GetEpisodes | chia-anime-dl.js:62-78 | episode `i` is built from entry `n-1-i`: page order reversed, one episode per entry |
| Listing.EpisodeNaming | chia-anime-dl.js:64-73 | the name is the trimmed heading, then `-Specials` iff the link contains `specials`, then `-OVA` iff it contains `ova`, each at most once |
| Listing.EpisodeOrder | chia-anime-dl.js:62-78 | link `i` is scraped link `n-1-i`, unchanged, and the first episode is built from the last entry |
| VideoLocator.WordRun | chia-anime-dl.js:23 | measures the maximal `\w` run at a position |
| VideoLocator.IdRun | chia-anime-dl.js:23 | measures the maximal `[\w\d\-]` run at a position |
| VideoLocator.MatchAt | chia-anime-dl.js:23 | a capture is non-empty and made of `[\w\d\-]` |
| VideoLocator.MatchAtSound | chia-anime-dl.js:23 | each match found satisfies the literal reading of the regular expression |
| VideoLocator.MatchAtComplete | chia-anime-dl.js:23 | each literal match of the regular expression is found, with greedy `\w{2,4}` and a greedy group |
| VideoLocator.MatchAtIsRegexMatch | chia-anime-dl.js:23 | a match at a position is found exactly when the regular expression matches there |
| VideoLocator.ExecFrom | chia-anime-dl.js:85 | `exec` returns the leftmost match, and none exactly when nothing matches |
| VideoLocator.VideoID | chia-anime-dl.js:81-86 | an identifier is non-empty and made of `[\w\d\-]` |
| VideoLocator.VideoIDSpec | chia-anime-dl.js:85 | the identifier is the capture at the leftmost matching position. It is absent (the source throws) exactly when the pattern matches nowhere. |
| VideoLocator.TemplatePlaceholder | chia-anime-dl.js:11 | the placeholder `<VIDEO_ID>` first occurs in `ANIMEAPP_URL` right after `http://download.animeapp.net/video/` and ends the template |
| VideoLocator.InfoPageURL | chia-anime-dl.js:96 | filling the template with `replace` appends the identifier to `http://download.animeapp.net/video/` |
| Orchestrator.IsDownloaded | chia-anime-dl.js:48-54 | a file counts as downloaded only if it exists |
| Orchestrator.DownloadedThreshold | chia-anime-dl.js:48-54 | a file counts as downloaded iff it exists and has at least 20971521 bytes. A missing file and a file of exactly 20 MiB do not count. |
| Orchestrator.Opposite | chia-anime-dl.js:201 | the fallback quality differs from the current one |
| Orchestrator.Store | chia-anime-dl.js:182 | a download changes the size of its own file and of no other file |
| Orchestrator.Retries | chia-anime-dl.js:178-194 | the loop appends between zero and the remaining number of attempts to the log and keeps what was logged before |
| Orchestrator.RetriesLog | chia-anime-dl.js:178-194 | with attempts left, the loop appends at least one download, and every appended action is the same download |
| Orchestrator.RetriesDisk | chia-anime-dl.js:178-194 | the file is left as the last attempt left it |
| Orchestrator.RetriesAttempts | chia-anime-dl.js:178-194 | no attempt before the last succeeded, and the last one succeeded unless the loop ran out of attempts |
| Orchestrator.RetriesShape | chia-anime-dl.js:178-194 | the retry loop has these properties: <br>• It makes between one and five attempts, all with the same URL, Referer and file. <br>• Every attempt but the last failed. <br>• The last attempt succeeded unless the budget ran out. <br>• The file is what the last attempt left. |
| Orchestrator.Pass | chia-anime-dl.js:172-194 | a pass keeps the log it was given and appends the episode page fetch first. A pass that fails leaves the directory unchanged, and no pass changes any file but its own. |
| Orchestrator.PassShape | chia-anime-dl.js:172-194 | a pass fails exactly when the page fetch fails, the page holds no identifier or the resolution throws. It logs the fetch, then the resolution of the page's own identifier in its quality, then one to five downloads of the resolved URL to its file with that identifier's info page as Referer. A file still too small after the loop means all five attempts were made. |
| Orchestrator.PassNoID | chia-anime-dl.js:175 | when the page fetch fails or the page holds no identifier, the pass fails after logging only the fetch |
| Orchestrator.PassNoVideoURL | chia-anime-dl.js:176 | when the resolution throws, the pass fails after logging the fetch and the resolution of the page's identifier |
| Orchestrator.PassReachesLoop | chia-anime-dl.js:172-194 | when the identifier and the video URL are found, the pass succeeds with one to five downloads of that URL, and all five when the file is left too small |
| Orchestrator.PassCost | chia-anime-dl.js:175-194 | a pass makes at most five downloads and at most one resolution, in its own quality |
| Orchestrator.EpisodeRun | chia-anime-dl.js:166-203 | an episode only appends to the log and changes no file but its own |
| Orchestrator.EpisodeRunSkips | chia-anime-dl.js:167-170 | an episode already downloaded makes no request and changes nothing |
| Orchestrator.EpisodeRunFallback | chia-anime-dl.js:197-201 | when the file is not yet downloaded, the episode runs a second pass exactly when the first pass succeeded, left the file too small and used the preferred quality. That second pass is a fresh pass in the opposite quality that starts with a new page fetch. Otherwise the episode is the first pass. |
| Orchestrator.EpisodeRunCost | chia-anime-dl.js:166-203 | an episode makes at most ten downloads, and at most five when it started in the non-preferred quality. Its resolutions are none, one in the requested quality, or, only when that was the preferred quality, one in each quality in that order. |
| Orchestrator.SeriesRun | chia-anime-dl.js:157-163 | the loop only appends to the request log |
| Orchestrator.SeriesRunSnoc | chia-anime-dl.js:157-163 | after a prefix of the list that ran to its end, one more turn runs the next episode from the state the prefix left |
| Orchestrator.SeriesRunAbort | chia-anime-dl.js:157-163 | once a turn fails, the rest of the list is not run |
| Orchestrator.SeriesRunSplit | chia-anime-dl.js:157-163 | episodes are processed in list order, and nothing runs after an escaping error |
| Orchestrator.PassTargets | chia-anime-dl.js:172-194 | every download of a pass writes the pass's own file |
| Orchestrator.EpisodeRunTargets | chia-anime-dl.js:166-203 | every download of an episode, fallback included, writes the episode's own file |
| Orchestrator.DownloadedFilesKept | chia-anime-dl.js:157-170 | a file already downloaded when the loop starts keeps its size and is never the target of a download |
| Orchestrator.SeriesRunCost | chia-anime-dl.js:157-163 | the loop makes at most `2 * MAX_RETRIES` downloads per episode |
| Orchestrator.ReliableRunDownloadsAll | chia-anime-dl.js:157-203 | on a network where every request works, the loop completes and every episode's file counts as downloaded |
| Orchestrator.SeriesDownload | chia-anime-dl.js:152-164 | the series download keeps the log it was given and first fetches the listing of the URL it was given |
| Orchestrator.ReliableSeriesDownload | chia-anime-dl.js:152-164 | when the listing arrives and every later request works, the series download completes with every listed episode on disk |
| Orchestrator.Cli | chia-anime-dl.js:238-270 | the exit status is 0 or 1. Invalid options, or a directory that could not be created, give status 1 with no request made and no file changed. |
| Orchestrator.CliOutcome | chia-anime-dl.js:238-270 | the exit status is 0 exactly when the options are valid, the directory was created and the download completes, and 1 otherwise. Once the directory exists, the first request is the listing of the target URL. |
| Orchestrator.ReliableCli | chia-anime-dl.js:252-270 | valid options, a directory that can be created and a working network mean exit status 0 and every listed episode on disk |
| Orchestrator.BannerAsWritten | chia-anime-dl.js:254-255 | the banner as written is never empty, and without `--series` it ends with `undefined` |
| Orchestrator.BannerIgnoresEpisode | chia-anime-dl.js:254-255 | the banner as written never depends on `--episode` and prints `Episode URL: undefined` when only `--episode` is given |
| Orchestrator.Banner | chia-anime-dl.js:254-255 | the corrected banner ends with the URL handed to the series download whenever one is given |
| Orchestrator.BannerNamesTarget | chia-anime-dl.js:254-255 | in a run that gets as far as the banner, the corrected banner ends with the URL whose listing is fetched |
| Orchestrator.Downloader.GetEpisodes | chia-anime-dl.js:56-79 | logs the listing request and returns the episode list of the page, or nothing when the request failed |
| Orchestrator.Downloader.GetVideoID | chia-anime-dl.js:81-86 | logs the page request and returns the page's identifier, or nothing when the request failed or no identifier is found |
| Orchestrator.Downloader.GetDownloadableVideoURL | chia-anime-dl.js:88-132 | logs one resolution in the given quality and returns the resolved URL, or nothing |
| Orchestrator.Downloader.DownloadVideo | chia-anime-dl.js:134-148 | logs one download and sets the file to what it left, reporting whether it ended or threw |
| Orchestrator.Downloader.DownloadWithRetries | chia-anime-dl.js:178-194 | the `while` loop with its `break` leaves the state that `Retries` specifies |
| Orchestrator.Downloader.DownloadPass | chia-anime-dl.js:172-194 | the identifier lookup, the resolution and the retry loop leave the state and outcome that `Pass` specifies |
| Orchestrator.Downloader.DownloadEpisode | chia-anime-dl.js:166-203 | the method, with its early return and its recursive fallback, leaves the state and outcome that `EpisodeRun` specifies |
| Orchestrator.Downloader.DownloadEpisodes | chia-anime-dl.js:157-163 | the `for` loop leaves the state and outcome that `SeriesRun` specifies, stopping at the first escaping error |
| Orchestrator.Downloader.DownloadSeries | chia-anime-dl.js:152-164 | leaves the state and outcome that `SeriesDownload` specifies |
| Orchestrator.Downloader.Run | chia-anime-dl.js:237-270 | the program's exit status and final state, given the outcome of the directory creation, are those of `Cli` |

## Left out

- HTTP requests, the cookie jar, the common headers, the request timeout and the streaming of the response to disk are oracles. Their results are the `Env` functions, indexed by the position of the request in the log.
- The common headers object is mutated at lines 137-139. Later requests therefore carry the `Referer` and `Connection` headers of the last download. Headers are not modelled.
- `getDownloadableVideoURL` becomes one `Resolve` action whose result is `env.resolved`. This covers its requests: `pa.js` and the info page in both qualities, and the video page only in high quality, its cheerio queries and its chain of `eval`s, which run code fetched from the network. A resolution that returns `undefined` is modelled as a failed download attempt.
- HTML parsing is not modelled. `getEpisodes` takes the scraped `(heading, href)` pairs from `env.listing`, and an entry without an `href` is not modelled.
- The file system effect of `fs.mkdirSync`, `path.join` and the destination directory name are not modelled. Only whether `fs.mkdirSync` succeeds is modelled, as the input `dirCreated`. The directory is a map from file names to sizes.
- Parsing by yargs is not modelled: the demanded `--dir`, the choices of `--quality` and its default. The options arrive as optional strings and a `Quality`.
- Console output other than the first banner line is not modelled, and neither is `console.time`.
- `Strings.ReplaceFirst` does not interpret the `$` patterns of a replacement string. The only replacement in the core is a video identifier made of `[\w\d\-]`, which contains no `$`.
- Strings are sequences of Unicode scalar values, so a lone surrogate code unit cannot occur in a URL or a page, and a character above U+FFFF is one element rather than two UTF-16 code units.
- Errors of the write stream that `downloadVideo` pipes the response into (a full disk, a missing permission, a directory with the file's name) are not modelled. No listener handles them, so in the program they end the process at once with status 1 and without the error message of the top level. In the model an attempt only ends or throws, and the loop goes on.
- `OVERWRITE_FILES` is the constant `false`, so the branch that overwrites a downloaded file is unreachable and is only kept in the skip test.

## Findings

| source | as written | input that shows it | evidently intended | confidence | as-written member | corrected member |
|---|---|---|---|---|---|---|
| chia-anime-dl.js:254-255 | ``'…URL: ' + args.series \|\| args.episode``. `+` binds tighter than `\|\|`, so the left operand is always a non-empty string. | only `--episode http://www.chia-anime.me/x/` given: the banner reads `Episode URL: undefined` | ``'…URL: ' + (args.series \|\| args.episode)``, naming the URL that is downloaded | high, not executed | Orchestrator.BannerAsWritten (lemma Orchestrator.BannerIgnoresEpisode) | Orchestrator.Banner (lemma Orchestrator.BannerNamesTarget) |
