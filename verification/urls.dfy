/** The two URL recognisers of `firefox_history/main.py` and the link
    normaliser built on them, written as explicit scanners rather than regular
    expressions. */
module Urls {
  import opened Results
  import opened Text

  const WatchPrefix := "https://www.youtube.com/watch?v="
  const VideoIdLength := 11
  const SearchPrefix := "https://www.google.com/search?"
  const RedirectPrefix := "https://www.google.com/url?"

  predicate StartsWith(s: string, p: string) {
    |p| <= |s| && s[..|p|] == p
  }

  /** `[a-zA-Z0-9_-]` */
  predicate IsVideoIdChar(c: char) {
    ('a' <= c <= 'z') || ('A' <= c <= 'Z') || ('0' <= c <= '9') || c == '_' || c == '-'
  }

  predicate IsVideoId(s: string) {
    |s| == VideoIdLength && forall i :: 0 <= i < |s| ==> IsVideoIdChar(s[i])
  }

  /** `[a-zA-Z+_\-0-9%\.]` */
  predicate IsValueChar(c: char) {
    ('a' <= c <= 'z') || ('A' <= c <= 'Z') || ('0' <= c <= '9')
    || c == '+' || c == '_' || c == '-' || c == '%' || c == '.'
  }

  // ---------------------------------------------------------------------------
  // is_youtube

  /** `is_youtube`: the watch-page prefix, exactly eleven id characters, then
      the end of the string, where Python's `$` also accepts one final newline.
      The result is the captured id. */
  function IsYoutube(url: string): (r: Option<string>)
    ensures r.Some? ==>
      && IsVideoId(r.value)
      && (url == WatchPrefix + r.value || url == WatchPrefix + r.value + "\n")
  {
    var n := |WatchPrefix|;
    if && StartsWith(url, WatchPrefix)
       && (|url| == n + VideoIdLength || (|url| == n + VideoIdLength + 1 && url[|url| - 1] == '\n'))
       && IsVideoId(url[n..n + VideoIdLength])
    then
      var id := url[n..n + VideoIdLength];
      assert url == WatchPrefix + id || url == WatchPrefix + id + "\n";
      Some(id)
    else None
  }

  /** Every watch URL of the accepted shape is recognised, with its own id. */
  lemma IsYoutubeComplete(id: string, newline: bool)
    requires IsVideoId(id)
    ensures IsYoutube(WatchPrefix + id + (if newline then "\n" else "")) == Some(id)
  {
    var url := WatchPrefix + id + (if newline then "\n" else "");
    var n := |WatchPrefix|;
    assert url[..n] == WatchPrefix;
    assert url[n..n + VideoIdLength] == id;
  }

  lemma YoutubeExamples()
    ensures IsYoutube("https://www.youtube.com/watch?v=dQw4w9WgXcQ") == Some("dQw4w9WgXcQ")
    ensures IsYoutube("https://www.youtube.com/watch?v=dQw4w9WgXc") == None
    ensures IsYoutube("https://www.youtube.com/watch?v=dQw4w9WgXcQQ") == None
  {
    IsYoutubeComplete("dQw4w9WgXcQ", false);
    assert WatchPrefix + "dQw4w9WgXcQ" + "" == "https://www.youtube.com/watch?v=dQw4w9WgXcQ";
  }

  // ---------------------------------------------------------------------------
  // is_google

  /** Group 1 of `is_google`'s pattern, when the URL starts with it. */
  function GooglePrefix(url: string): (r: Option<string>)
    ensures r.Some? <==> StartsWith(url, SearchPrefix) || StartsWith(url, RedirectPrefix)
    ensures r.Some? ==> StartsWith(url, r.value) && (r.value == SearchPrefix || r.value == RedirectPrefix)
  {
    if StartsWith(url, SearchPrefix) then Some(SearchPrefix)
    else if StartsWith(url, RedirectPrefix) then Some(RedirectPrefix)
    else None
  }

  /** `url=` at position `j` of `s`, followed by at least one value character. */
  predicate UrlKeyAt(s: string, j: nat) {
    && j + 4 < |s|
    && s[j] == 'u' && s[j + 1] == 'r' && s[j + 2] == 'l' && s[j + 3] == '='
    && IsValueChar(s[j + 4])
  }

  /** `q=` at position `j` of `s`, followed by at least one value character. */
  predicate QKeyAt(s: string, j: nat) {
    && j + 2 < |s|
    && s[j] == 'q' && s[j + 1] == '='
    && IsValueChar(s[j + 2])
  }

  /** Where `(?:url|q)=[...]+` can match: alternation tries `url` first. */
  function PairKey(s: string, j: nat): (r: Option<string>)
    ensures r.Some? ==> (r.value == "url" || r.value == "q") && j + |r.value| + 1 < |s|
    ensures r.Some? ==> s[j..j + |r.value|] == r.value && s[j + |r.value|] == '='
    ensures r.Some? ==> IsValueChar(s[j + |r.value| + 1])
    ensures r.None? ==> !(j + 4 < |s| && s[j..j + 4] == "url=" && IsValueChar(s[j + 4]))
    ensures r.None? ==> !(j + 2 < |s| && s[j..j + 2] == "q=" && IsValueChar(s[j + 2]))
  {
    if UrlKeyAt(s, j) then
      assert s[j..j + 3] == "url";
      Some("url")
    else if QKeyAt(s, j) then
      assert s[j..j + 1] == "q";
      Some("q")
    else None
  }

  predicate PairAt(s: string, j: nat) {
    PairKey(s, j).Some?
  }

  /** How far `\S*` can reach from `from`: the end of the non-whitespace run. */
  function NonSpaceEnd(s: string, from: nat): (e: nat)
    requires from <= |s|
    ensures from <= e <= |s|
    ensures forall i :: from <= i < e ==> !IsSpace(s[i])
    ensures e < |s| ==> IsSpace(s[e])
    decreases |s| - from
  {
    if from == |s| || IsSpace(s[from]) then from else NonSpaceEnd(s, from + 1)
  }

  /** How far the greedy value class `[...]+` reaches from `from`. */
  function ValueEnd(s: string, from: nat): (e: nat)
    requires from <= |s|
    ensures from <= e <= |s|
    ensures forall i :: from <= i < e ==> IsValueChar(s[i])
    ensures e < |s| ==> !IsValueChar(s[e])
    decreases |s| - from
  {
    if from == |s| || !IsValueChar(s[from]) then from else ValueEnd(s, from + 1)
  }

  /** The largest position in `[lo, hi)` holding a pair: greedy `\S*` gives
      back characters one at a time, so the first position the backtracking
      succeeds at is the rightmost one. */
  function LastPair(s: string, lo: nat, hi: nat): (r: Option<nat>)
    requires lo <= hi <= |s|
    ensures r.Some? ==> lo <= r.value < hi && PairAt(s, r.value)
    ensures r.Some? ==> forall k :: r.value < k < hi ==> !PairAt(s, k)
    ensures r.None? ==> forall k :: lo <= k < hi ==> !PairAt(s, k)
    decreases hi - lo
  {
    if hi == lo then None
    else if PairAt(s, hi - 1) then Some(hi - 1)
    else LastPair(s, lo, hi - 1)
  }

  /** Conversely, a pair with none after it in the window is the one found. */
  lemma {:induction false} LastPairIsRightmost(s: string, lo: nat, hi: nat, j: nat)
    requires lo <= j < hi <= |s| && PairAt(s, j)
    requires forall k :: j < k < hi ==> !PairAt(s, k)
    ensures LastPair(s, lo, hi) == Some(j)
    decreases hi
  {
    if j < hi - 1 {
      LastPairIsRightmost(s, lo, hi - 1, j);
    }
  }

  /** Group 2 for a pair at `j`: the key, `=`, and the maximal run of value
      characters. */
  function PairText(s: string, j: nat): (t: string)
    requires PairAt(s, j)
    ensures var key := PairKey(s, j).value;
      && |t| > |key| + 1
      && t[..|key|] == key && t[|key|] == '='
      && (forall i :: |key| < i < |t| ==> IsValueChar(t[i]))
      && j + |t| <= |s| && t == s[j..j + |t|]
      && (j + |t| < |s| ==> !IsValueChar(s[j + |t|]))
  {
    var key := PairKey(s, j).value;
    s[j..ValueEnd(s, j + |key| + 1)]
  }

  /** A position where the pattern can place group 2: after the prefix, reached
      by `\S*`, holding a pair. */
  predicate Candidate(url: string, start: nat, j: nat) {
    && start <= j <= |url|
    && (forall i :: start <= i < j ==> !IsSpace(url[i]))
    && PairAt(url, j)
  }

  /** What `re.match` returns for `is_google`: the prefix (group 1), where
      group 2 starts, and group 2 itself. */
  datatype GoogleMatch = GoogleMatch(prefix: string, pairStart: nat, pair: string)

  /** `is_google`: the match is the rightmost candidate after the prefix. */
  function IsGoogle(url: string): (r: Option<GoogleMatch>)
    ensures r.Some? ==> GooglePrefix(url) == Some(r.value.prefix)
    ensures r.Some? ==> Candidate(url, |r.value.prefix|, r.value.pairStart)
    ensures r.Some? ==> r.value.pair == PairText(url, r.value.pairStart)
    ensures forall j: nat :: GooglePrefix(url).Some? && Candidate(url, |GooglePrefix(url).value|, j) ==>
      (r.Some? && j <= r.value.pairStart)
  {
    match GooglePrefix(url)
    case None => None
    case Some(p) =>
      var e := NonSpaceEnd(url, |p|);
      assert forall j: nat :: Candidate(url, |p|, j) ==> j < e;
      match LastPair(url, |p|, e)
      case None => None
      case Some(j) => Some(GoogleMatch(p, j, PairText(url, j)))
  }

  // ---------------------------------------------------------------------------
  // process_link

  /** A key/value pair on its own: `key=` and at least one value character,
      nothing else. */
  predicate IsBarePair(s: string, key: string) {
    && |s| > |key| + 1
    && s[..|key|] == key && s[|key|] == '='
    && forall i :: |key| < i < |s| ==> IsValueChar(s[i])
  }

  /** The shape `process_link` rewrites to: a Google prefix followed by exactly
      one `url=` or `q=` pair. */
  predicate IsNormalGoogle(u: string) {
    && GooglePrefix(u).Some?
    && var rest := u[|GooglePrefix(u).value|..];
    IsBarePair(rest, "url") || IsBarePair(rest, "q")
  }

  /** `process_link`: a matched Google URL becomes its prefix plus the captured
      pair, every other parameter and all trailing text dropped; anything else
      is returned unchanged. */
  function ProcessLink(url: string): (r: string)
    ensures IsGoogle(url).None? ==> r == url
    ensures IsGoogle(url).Some? ==> IsNormalGoogle(r)
    ensures IsGoogle(url).Some? ==> r == IsGoogle(url).value.prefix + IsGoogle(url).value.pair
  {
    match IsGoogle(url)
    case None => url
    case Some(m) =>
      MatchIsNormal(url);
      m.prefix + m.pair
  }

  /** The two prefixes part ways at their 24th character, so at most one of them
      starts any string. */
  lemma PrefixesDiffer(s: string, p: string)
    requires StartsWith(s, p) && (p == SearchPrefix || p == RedirectPrefix)
    ensures GooglePrefix(s) == Some(p)
  {
    assert s[23] == p[23];
    assert SearchPrefix[23] != RedirectPrefix[23];
  }

  /** The rewritten form of a match is a prefix and one bare pair. */
  lemma MatchIsNormal(url: string)
    requires IsGoogle(url).Some?
    ensures var m := IsGoogle(url).value;
      && IsNormalGoogle(m.prefix + m.pair)
      && m.prefix + m.pair == url[..|m.prefix|] + url[m.pairStart..m.pairStart + |m.pair|]
  {
    var m := IsGoogle(url).value;
    var r := m.prefix + m.pair;
    assert StartsWith(r, m.prefix);
    PrefixesDiffer(r, m.prefix);
    assert r[|m.prefix|..] == m.pair;
    var key := PairKey(url, m.pairStart).value;
    assert IsBarePair(m.pair, key);
  }

  /** In a bare pair the only `=` sits right after the key, so no pair can
      start anywhere but at the key. */
  lemma BarePairIsOnlyCandidate(u: string, p: nat, key: string, j: nat)
    requires key == "url" || key == "q"
    requires p <= |u| && IsBarePair(u[p..], key)
    requires p <= j && PairAt(u, j)
    ensures j == p && PairKey(u, j) == Some(key)
  {
    var rest := u[p..];
    forall i | p <= i < |u| && u[i] == '='
      ensures i == p + |key|
    {
      assert rest[i - p] == '=';
      assert rest[..|key|] == key;
    }
    var k := PairKey(u, j).value;
    assert u[j..j + |k|] == k;
    assert u[j + |k|] == '=';
    assert rest[..|key|] == key;
    assert u[p + |key| - 1] == key[|key| - 1];
  }

  /** A bare pair right after the prefix is a candidate of that key. */
  lemma BarePairIsCandidate(u: string, p: nat, key: string)
    requires key == "url" || key == "q"
    requires p <= |u| && IsBarePair(u[p..], key)
    ensures Candidate(u, p, p) && PairKey(u, p) == Some(key)
    ensures forall i :: p <= i < |u| ==> !IsSpace(u[i])
  {
    var rest := u[p..];
    assert u[p..p + |key|] == rest[..|key|] == key;
    assert forall i :: 0 <= i < |key| ==> u[p + i] == key[i];
    assert u[p + |key|] == '=' && IsValueChar(u[p + |key| + 1]);
    forall i | p <= i < |u| ensures !IsSpace(u[i]) {
      assert u[i] == rest[i - p];
      if i - p < |key| {
        assert rest[..|key|][i - p] == key[i - p];
      } else if i - p > |key| {
        assert IsValueChar(rest[i - p]);
      }
    }
  }

  /** The normal Google shape is left alone by `process_link`. */
  lemma NormalGoogleIsFixed(u: string)
    requires IsNormalGoogle(u)
    ensures IsGoogle(u).Some?
    ensures ProcessLink(u) == u
  {
    var p := GooglePrefix(u).value;
    var rest := u[|p|..];
    var key := if IsBarePair(rest, "url") then "url" else "q";
    BarePairIsCandidate(u, |p|, key);
    var m := IsGoogle(u).value;
    BarePairIsOnlyCandidate(u, |p|, key, m.pairStart);
    var t := PairText(u, |p|);
    assert |p| + |t| == |u|;
    assert u == p + t;
  }

  /** Fixed points of `process_link`: the URLs the Google pattern misses and
      the already-normal Google URLs, and nothing else. */
  lemma ProcessLinkFixedPoints(u: string)
    ensures ProcessLink(u) == u <==> IsGoogle(u).None? || IsNormalGoogle(u)
  {
    if IsNormalGoogle(u) {
      NormalGoogleIsFixed(u);
    }
  }

  /** `process_link` is idempotent. */
  lemma ProcessLinkIdempotent(u: string)
    ensures ProcessLink(ProcessLink(u)) == ProcessLink(u)
  {
    if IsGoogle(u).Some? {
      NormalGoogleIsFixed(ProcessLink(u));
    }
  }

  /** A watch URL never starts with a Google prefix, so normalisation keeps it,
      and the later `is_youtube` test sees exactly what it would have seen on
      the raw URL. */
  lemma ProcessLinkKeepsYoutube(u: string)
    ensures IsYoutube(u).Some? ==> ProcessLink(u) == u
    ensures IsYoutube(ProcessLink(u)) == IsYoutube(u)
  {
    if IsGoogle(u).Some? {
      NotBothPrefixes(u);
      NotBothPrefixes(ProcessLink(u));
    }
  }

  /** A string starting with a Google prefix is no watch URL: the hosts differ
      at their 13th character. */
  lemma NotBothPrefixes(u: string)
    requires GooglePrefix(u).Some?
    ensures IsYoutube(u).None?
  {
    var p := GooglePrefix(u).value;
    assert u[12] == p[12] == 'g';
    assert WatchPrefix[12] == 'y';
  }
}
