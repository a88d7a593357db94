/**
 * The episode listing of a series page (`getEpisodes`): each `#archive .post`
 * entry gives a heading text and a link; the heading is trimmed, suffixed by
 * `-Specials` and/or `-OVA` according to the link, and the list is reversed so
 * that the oldest episode comes first. The page's entries are an input here.
 */
module Listing {
  import opened Strings

  /** One scraped entry: the text of its first `h3` and the `href` of its first `a[itemprop="url"]`. */
  datatype Entry = Entry(heading: string, href: string)

  datatype Episode = Episode(name: string, url: string)

  /** The disambiguating suffixes appended to the name, in the order the code appends them. */
  function Suffix(url: string): (r: string)
    ensures r == "" || r == "-Specials" || r == "-OVA" || r == "-Specials-OVA"
  {
    (if Contains(url, "specials") then "-Specials" else "") + (if Contains(url, "ova") then "-OVA" else "")
  }

  /** The callback given to `.map`. */
  function ToEpisode(e: Entry): (ep: Episode)
    ensures ep.url == e.href
  {
    Episode(Trim(e.heading) + Suffix(e.href), e.href)
  }

  /** `$('#archive .post').map(...).get().reverse()`. */
  function GetEpisodes(entries: seq<Entry>): (r: seq<Episode>)
    ensures |r| == |entries|
    ensures forall i :: 0 <= i < |r| ==> r[i] == ToEpisode(entries[|entries| - 1 - i])
  {
    var mapped := seq(|entries|, i requires 0 <= i < |entries| => ToEpisode(entries[i]));
    forall i | 0 <= i < |entries| ensures Reverse(mapped)[i] == ToEpisode(entries[|entries| - 1 - i]) {
      ReverseAt(mapped, i);
    }
    Reverse(mapped)
  }

  /**
   * Each name is the trimmed heading followed by `-Specials` exactly when the link
   * contains `specials` and then `-OVA` exactly when it contains `ova`; the tests
   * are case-sensitive substring tests and each suffix is added at most once.
   */
  lemma EpisodeNaming(e: Entry)
    ensures var name := ToEpisode(e).name; var h := Trim(e.heading);
      && |h| <= |name| && name[..|h|] == h
      && var added := name[|h|..];
      && (Contains(e.href, "specials") <==> |added| >= 9 && added[..9] == "-Specials")
      && (Contains(e.href, "ova") <==> |added| >= 4 && added[|added| - 4..] == "-OVA")
      && |added| == (if Contains(e.href, "specials") then 9 else 0) + (if Contains(e.href, "ova") then 4 else 0)
  {
    var name := ToEpisode(e).name;
    var h := Trim(e.heading);
    assert name == h + Suffix(e.href);
    assert name[|h|..] == Suffix(e.href);
    assert "-Specials"[5..] != "-OVA";
  }

  /**
   * The links of the result are the scraped links in reverse page order,
   * unchanged: a convenience restatement of what the contracts of `GetEpisodes`
   * and `ToEpisode` give together.
   */
  lemma EpisodeOrder(entries: seq<Entry>)
    ensures forall i :: 0 <= i < |entries| ==>
      GetEpisodes(entries)[i].url == entries[|entries| - 1 - i].href
    ensures |entries| > 0 ==> GetEpisodes(entries)[0] == ToEpisode(entries[|entries| - 1])
  {
  }
}
