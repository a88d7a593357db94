/**
 * File names of downloaded episodes: `normalizeFileName` replaces every maximal
 * run of characters outside `[A-Za-z0-9_]` by one `-`, and the episode is saved
 * as the normalised name followed by `.mp4`.
 */
module FileNames {
  import opened Strings

  /** Uses only `[A-Za-z0-9_-]` and never two `-` in a row: what normalisation produces. */
  predicate IsNormal(r: string) {
    && (forall k :: 0 <= k < |r| ==> IsWordChar(r[k]) || r[k] == '-')
    && (forall k :: 0 <= k < |r| - 1 ==> !(r[k] == '-' && r[k + 1] == '-'))
  }

  /** Length of the maximal run of non-word characters at the start of `s`. */
  function NonWordRun(s: string): (n: nat)
    ensures n <= |s|
    ensures forall k :: 0 <= k < n ==> !IsWordChar(s[k])
    ensures n < |s| ==> IsWordChar(s[n])
  {
    if s == [] || IsWordChar(s[0]) then 0 else 1 + NonWordRun(s[1..])
  }

  /** `fileName.replace(/[^\w\d]+/g, '-')`. */
  function Normalize(s: string): (r: string)
    decreases |s|
    ensures |r| <= |s|
    ensures (r == []) == (s == [])
    ensures r != [] ==> (r[0] == '-' <==> !IsWordChar(s[0]))
    ensures IsNormal(r)
  {
    if s == [] then []
    else if IsWordChar(s[0]) then [s[0]] + Normalize(s[1..])
    else "-" + Normalize(s[NonWordRun(s)..])
  }

  /** The word characters of `s`, in order. */
  function Words(s: string): (w: string)
  {
    if s == [] then [] else if IsWordChar(s[0]) then [s[0]] + Words(s[1..]) else Words(s[1..])
  }

  lemma {:induction false} WordsSkipRun(s: string)
    ensures Words(s) == Words(s[NonWordRun(s)..])
  {
    if s != [] && !IsWordChar(s[0]) {
      WordsSkipRun(s[1..]);
      assert s[1..][NonWordRun(s[1..])..] == s[NonWordRun(s)..];
    }
  }

  /** Normalisation keeps every word character, `_` included, in its order. */
  lemma {:induction false} NormalizeKeepsWords(s: string)
    ensures Words(Normalize(s)) == Words(s)
    decreases |s|
  {
    if s == [] {
    } else if IsWordChar(s[0]) {
      NormalizeKeepsWords(s[1..]);
      assert ([s[0]] + Normalize(s[1..]))[1..] == Normalize(s[1..]);
    } else {
      var n := NonWordRun(s);
      NormalizeKeepsWords(s[n..]);
      WordsSkipRun(s);
      assert ("-" + Normalize(s[n..]))[1..] == Normalize(s[n..]);
    }
  }

  /**
   * Reference reading of the global replace, one character at a time: a word
   * character is copied, and a non-word character emits `-` only when it opens a
   * run (`inRun` says the previous character was already a non-word one).
   */
  function Scan(s: string, inRun: bool): string
  {
    if s == [] then []
    else if IsWordChar(s[0]) then [s[0]] + Scan(s[1..], false)
    else if inRun then Scan(s[1..], true)
    else "-" + Scan(s[1..], true)
  }

  lemma {:induction false} ScanSkipsRun(s: string)
    ensures NonWordRun(s) > 0 ==> Scan(s, true) == Scan(s[NonWordRun(s)..], false)
  {
    if s != [] && !IsWordChar(s[0]) {
      ScanSkipsRun(s[1..]);
      assert s[1..][NonWordRun(s[1..])..] == s[NonWordRun(s)..];
    }
  }

  /** The run-collapsing definition agrees with the character-by-character one. */
  lemma {:induction false} NormalizeIsScan(s: string)
    ensures Normalize(s) == Scan(s, false)
    decreases |s|
  {
    if s == [] {
    } else if IsWordChar(s[0]) {
      NormalizeIsScan(s[1..]);
    } else {
      var n := NonWordRun(s);
      NormalizeIsScan(s[n..]);
      ScanSkipsRun(s[1..]);
      if NonWordRun(s[1..]) == 0 {
        assert n == 1;
        if s[1..] != [] {
          assert IsWordChar(s[1..][0]);
          assert Scan(s[1..], true) == Scan(s[1..], false);
        }
      } else {
        assert s[1..][NonWordRun(s[1..])..] == s[n..];
      }
    }
  }

  /** A string that is already normal is left alone. */
  lemma {:induction false} NormalIsFixed(r: string)
    requires IsNormal(r)
    ensures Normalize(r) == r
    decreases |r|
  {
    if r == [] {
    } else if IsWordChar(r[0]) {
      assert IsNormal(r[1..]);
      NormalIsFixed(r[1..]);
    } else {
      assert r[0] == '-';
      assert NonWordRun(r) == 1 by {
        if |r| > 1 {
          assert r[1] != '-';
          assert IsWordChar(r[1]);
        }
      }
      assert IsNormal(r[1..]);
      NormalIsFixed(r[1..]);
    }
  }

  /** The fixed points of normalisation are exactly the normal strings. */
  lemma FixedIffNormal(r: string)
    ensures Normalize(r) == r <==> IsNormal(r)
  {
    if IsNormal(r) {
      NormalIsFixed(r);
    }
  }

  /** Normalising twice is normalising once. */
  lemma NormalizeIdempotent(s: string)
    ensures Normalize(Normalize(s)) == Normalize(s)
  {
    NormalIsFixed(Normalize(s));
  }

  const EXTENSION: string := ".mp4"

  /** `${normalizeFileName(episode.name)}.mp4`. */
  function FileName(name: string): (f: string)
    ensures |f| == |Normalize(name)| + |EXTENSION|
  {
    Normalize(name) + EXTENSION
  }

  /**
   * The file name is a normal stem followed by `.mp4`; it holds no `/`, so joining
   * it to the destination directory never leaves that directory, and it is never
   * `.` or `..`.
   */
  lemma FileNameShape(name: string)
    ensures var f := FileName(name);
      && f[..|f| - 4] == Normalize(name) && IsNormal(f[..|f| - 4]) && f[|f| - 4..] == ".mp4"
      && (forall k :: 0 <= k < |f| ==> f[k] != '/')
      && f != "." && f != ".."
  {
    var f := FileName(name);
    var stem := Normalize(name);
    assert f[..|f| - 4] == stem;
    forall k | 0 <= k < |f| ensures f[k] != '/' {
      if k < |stem| {
        assert f[k] == stem[k];
      } else {
        assert f[k] == EXTENSION[k - |stem|];
      }
    }
  }
}
