/**
 * The video identifier of an episode page (`getVideoID`): the capture group of
 * the leftmost match of `/animepremium.\w{2,4}\/video\/([\w\d\-]+)/` in the page
 * text, and the info page of the identifier (`ANIMEAPP_URL` with the identifier
 * put in place of `<VIDEO_ID>`), which is also the Referer of every download.
 * The page text is an input here.
 */
module VideoLocator {
  import opened Wrappers
  import opened Strings

  /** Length of the maximal run of `\w` characters of `t` starting at `k`. */
  function WordRun(t: string, k: nat): (n: nat)
    requires k <= |t|
    decreases |t| - k
    ensures k + n <= |t|
    ensures forall j :: k <= j < k + n ==> IsWordChar(t[j])
    ensures k + n < |t| ==> !IsWordChar(t[k + n])
  {
    if k == |t| || !IsWordChar(t[k]) then 0 else 1 + WordRun(t, k + 1)
  }

  /** Length of the maximal run of `[\w\d\-]` characters of `t` starting at `k`. */
  function IdRun(t: string, k: nat): (n: nat)
    requires k <= |t|
    decreases |t| - k
    ensures k + n <= |t|
    ensures forall j :: k <= j < k + n ==> IsIdChar(t[j])
    ensures k + n < |t| ==> !IsIdChar(t[k + n])
  {
    if k == |t| || !IsIdChar(t[k]) then 0 else 1 + IdRun(t, k + 1)
  }

  /**
   * The pattern tried at index `i` of `t`, giving the capture on success. After
   * `animepremium` and one character other than a line terminator, `\w{2,4}` must
   * be followed by `/`, which is not a word character, so it can only take the
   * whole run of word characters there; the greedy `[\w\d\-]+` takes the whole
   * run of identifier characters after `/video/`.
   */
  function MatchAt(t: string, i: nat): (r: Option<string>)
    requires i <= |t|
    ensures r.Some? ==> |r.value| >= 1 && forall c :: c in r.value ==> IsIdChar(c)
  {
    if !(OccursAt(t, "animepremium", i) && i + 12 < |t| && IsDotChar(t[i + 12])) then None
    else
      var w := WordRun(t, i + 13);
      if !(2 <= w <= 4 && OccursAt(t, "/video/", i + 13 + w)) then None
      else
        var s := i + 20 + w;
        var n := IdRun(t, s);
        if n == 0 then None else Some(t[s..s + n])
  }

  /**
   * The regular expression read literally: a match at `i` in which `\w{2,4}`
   * takes `k` characters and the group captures `id`, as long as it can.
   */
  ghost predicate RegexMatch(t: string, i: nat, k: nat, id: string) {
    && OccursAt(t, "animepremium", i) && i + 12 < |t| && IsDotChar(t[i + 12])
    && 2 <= k <= 4 && i + 13 + k <= |t|
    && (forall j :: i + 13 <= j < i + 13 + k ==> IsWordChar(t[j]))
    && OccursAt(t, "/video/", i + 13 + k)
    && |id| >= 1 && OccursAt(t, id, i + 20 + k)
    && (forall c :: c in id ==> IsIdChar(c))
    && (i + 20 + k + |id| == |t| || !IsIdChar(t[i + 20 + k + |id|]))
  }

  lemma MatchAtSound(t: string, i: nat)
    requires i <= |t| && MatchAt(t, i).Some?
    ensures RegexMatch(t, i, WordRun(t, i + 13), MatchAt(t, i).value)
  {
  }

  lemma {:induction false} WordRunExact(t: string, k: nat, n: nat)
    requires k + n < |t|
    requires forall j :: k <= j < k + n ==> IsWordChar(t[j])
    requires !IsWordChar(t[k + n])
    ensures WordRun(t, k) == n
    decreases n
  {
    if n > 0 {
      WordRunExact(t, k + 1, n - 1);
    }
  }

  lemma {:induction false} IdRunExact(t: string, k: nat, n: nat)
    requires k + n <= |t|
    requires forall j :: k <= j < k + n ==> IsIdChar(t[j])
    requires k + n == |t| || !IsIdChar(t[k + n])
    ensures IdRun(t, k) == n
    decreases n
  {
    if n > 0 {
      IdRunExact(t, k + 1, n - 1);
    }
  }

  lemma MatchAtComplete(t: string, i: nat, k: nat, id: string)
    requires i <= |t| && RegexMatch(t, i, k, id)
    ensures MatchAt(t, i) == Some(id)
  {
    assert t[i + 13 + k] == "/video/"[0];
    WordRunExact(t, i + 13, k);
    var s := i + 20 + k;
    forall j | s <= j < s + |id| ensures IsIdChar(t[j]) {
      assert t[j] == t[s..s + |id|][j - s] == id[j - s];
      assert id[j - s] in id;
    }
    IdRunExact(t, s, |id|);
  }

  /** `MatchAt` finds exactly the matches of the regular expression at `i`. */
  lemma MatchAtIsRegexMatch(t: string, i: nat, id: string)
    requires i <= |t|
    ensures MatchAt(t, i) == Some(id) <==> exists k :: RegexMatch(t, i, k, id)
  {
    if MatchAt(t, i) == Some(id) {
      MatchAtSound(t, i);
    }
    if k :| RegexMatch(t, i, k, id) {
      MatchAtComplete(t, i, k, id);
    }
  }

  /** A match: where it starts and what the group captured. */
  datatype Match = Match(index: nat, capture: string)

  /** `exec` from index `from` on: the leftmost match at or after `from`. */
  function ExecFrom(t: string, from: nat): (r: Option<Match>)
    requires from <= |t|
    decreases |t| - from
    ensures r.Some? ==> from <= r.value.index <= |t| && MatchAt(t, r.value.index) == Some(r.value.capture)
    ensures r.Some? ==> forall j :: from <= j < r.value.index ==> MatchAt(t, j).None?
    ensures r.None? ==> forall j :: from <= j <= |t| ==> MatchAt(t, j).None?
  {
    match MatchAt(t, from)
    case Some(id) => Some(Match(from, id))
    case None => if from == |t| then None else ExecFrom(t, from + 1)
  }

  /**
   * `PT_ANIMEPRIME_URL_VIDEO_ID.exec(page)[1]`: absent when there is no match, in
   * which case the source's indexing of `null` throws.
   */
  function VideoID(page: string): (id: Option<string>)
    ensures id.Some? ==> |id.value| >= 1 && forall c :: c in id.value ==> IsIdChar(c)
  {
    match ExecFrom(page, 0)
    case None => None
    case Some(m) => Some(m.capture)
  }

  /**
   * What the identifier is: the capture of the leftmost position where the
   * pattern matches, followed in the page by a character outside `[\w\d\-]` or by
   * the end of the page; and no identifier exactly when the pattern matches
   * nowhere.
   */
  lemma VideoIDSpec(page: string)
    ensures VideoID(page).None? <==> forall i :: 0 <= i <= |page| ==> MatchAt(page, i).None?
    ensures VideoID(page).Some? ==>
      exists i ::
        && 0 <= i <= |page| && MatchAt(page, i) == VideoID(page)
        && (forall j :: 0 <= j < i ==> MatchAt(page, j).None?)
        && (exists k :: RegexMatch(page, i, k, VideoID(page).value))
  {
    match ExecFrom(page, 0)
    case None =>
    case Some(m) =>
      MatchAtIsRegexMatch(page, m.index, m.capture);
  }

  const INFO_PAGE_BASE: string := "http://download.animeapp.net/video/"
  const VIDEO_ID_PLACEHOLDER: string := "<VIDEO_ID>"

  /** `ANIMEAPP_URL`. */
  const ANIMEAPP_URL: string := INFO_PAGE_BASE + VIDEO_ID_PLACEHOLDER

  /** The placeholder occurs in the template once, at its end, right after the base. */
  lemma TemplatePlaceholder()
    ensures IndexOf(ANIMEAPP_URL, VIDEO_ID_PLACEHOLDER) == Some(|INFO_PAGE_BASE|)
    ensures ANIMEAPP_URL[..|INFO_PAGE_BASE|] == INFO_PAGE_BASE
    ensures |ANIMEAPP_URL| == |INFO_PAGE_BASE| + |VIDEO_ID_PLACEHOLDER|
  {
    var b := INFO_PAGE_BASE;
    assert forall k :: 0 <= k < |b| ==> b[k] != '<';
    assert OccursAt(ANIMEAPP_URL, VIDEO_ID_PLACEHOLDER, |b|);
    forall k | 0 <= k < |b|
      ensures !OccursAt(ANIMEAPP_URL, VIDEO_ID_PLACEHOLDER, k)
    {
      var window := ANIMEAPP_URL[k..k + |VIDEO_ID_PLACEHOLDER|];
      assert window[0] == b[k] != '<' == VIDEO_ID_PLACEHOLDER[0];
    }
    assert ANIMEAPP_URL[..|b|] == b;
  }

  /**
   * `ANIMEAPP_URL.replace('<VIDEO_ID>', videoID)`: the info page and the download
   * Referer. Whatever the identifier, it is appended to the base.
   */
  function InfoPageURL(videoID: string): (url: string)
    ensures url == INFO_PAGE_BASE + videoID
  {
    TemplatePlaceholder();
    ReplaceFirst(ANIMEAPP_URL, VIDEO_ID_PLACEHOLDER, videoID)
  }
}
