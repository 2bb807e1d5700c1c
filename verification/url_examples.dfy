/** Worked examples of the Google normaliser on concrete URLs, each fact
    computed in a lemma of its own. */
module UrlExamples {
  import opened Results
  import opened Urls

  lemma TrackingPrefix()
    ensures GooglePrefix("https://www.google.com/search?q=cats&ved=xyz") == Some(SearchPrefix)
  {
    assert "https://www.google.com/search?q=cats&ved=xyz"[..30] == SearchPrefix;
  }

  lemma TrackingReach()
    ensures NonSpaceEnd("https://www.google.com/search?q=cats&ved=xyz", 30) == 44
  {
  }

  lemma TrackingRightmost()
    ensures LastPair("https://www.google.com/search?q=cats&ved=xyz", 30, 44) == Some(30)
  {
    var s := "https://www.google.com/search?q=cats&ved=xyz";
    assert PairAt(s, 30);
    forall k | 30 < k < 44
      ensures !PairAt(s, k)
    {
      assert s[k] != 'u' && s[k] != 'q';
    }
    LastPairIsRightmost(s, 30, 44, 30);
  }

  lemma TrackingKey()
    ensures PairKey("https://www.google.com/search?q=cats&ved=xyz", 30) == Some("q")
  {
  }

  lemma TrackingValue()
    ensures ValueEnd("https://www.google.com/search?q=cats&ved=xyz", 32) == 36
  {
  }

  lemma TrackingSlice()
    ensures "https://www.google.com/search?q=cats&ved=xyz"[..30] + "https://www.google.com/search?q=cats&ved=xyz"[30..36] == "https://www.google.com/search?q=cats"
  {
  }

  /** A tracking parameter after the query is dropped. */
  lemma TrackingExample()
    ensures ProcessLink("https://www.google.com/search?q=cats&ved=xyz") == "https://www.google.com/search?q=cats"
  {
    TrackingPrefix();
    TrackingReach();
    TrackingRightmost();
    TrackingKey();
    TrackingValue();
    TrackingSlice();
  }

  lemma RightmostPrefix()
    ensures GooglePrefix("https://www.google.com/search?q=cats&oq=dogs") == Some(SearchPrefix)
  {
    assert "https://www.google.com/search?q=cats&oq=dogs"[..30] == SearchPrefix;
  }

  lemma RightmostReach()
    ensures NonSpaceEnd("https://www.google.com/search?q=cats&oq=dogs", 30) == 44
  {
  }

  lemma RightmostRightmost()
    ensures LastPair("https://www.google.com/search?q=cats&oq=dogs", 30, 44) == Some(38)
  {
    var s := "https://www.google.com/search?q=cats&oq=dogs";
    assert PairAt(s, 38);
    forall k | 38 < k < 44
      ensures !PairAt(s, k)
    {
      assert s[k] != 'u' && s[k] != 'q';
    }
    LastPairIsRightmost(s, 30, 44, 38);
  }

  lemma RightmostKey()
    ensures PairKey("https://www.google.com/search?q=cats&oq=dogs", 38) == Some("q")
  {
  }

  lemma RightmostValue()
    ensures ValueEnd("https://www.google.com/search?q=cats&oq=dogs", 40) == 44
  {
  }

  lemma RightmostSlice()
    ensures "https://www.google.com/search?q=cats&oq=dogs"[..30] + "https://www.google.com/search?q=cats&oq=dogs"[38..44] == "https://www.google.com/search?q=dogs"
  {
  }

  /** The rightmost `q=` wins, even one that ends another key such as `oq=`. */
  lemma RightmostExample()
    ensures ProcessLink("https://www.google.com/search?q=cats&oq=dogs") == "https://www.google.com/search?q=dogs"
  {
    RightmostPrefix();
    RightmostReach();
    RightmostRightmost();
    RightmostKey();
    RightmostValue();
    RightmostSlice();
  }
}
