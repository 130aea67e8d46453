/**
 * `extract_company_id`: the search `re.search(r'/company/([^/]+)/', url)`
 * and its first group. The regular expression is written out as a scan:
 * try each start position from the left, and at a position where the
 * literal `/company/` stands take the run of non-slash characters after it,
 * which must be non-empty and followed by a slash.
 */
module CompanyId {
  import opened Wrappers

  const Marker: string := "/company/"

  predicate SlashFree(s: string) {
    forall i | 0 <= i < |s| :: s[i] != '/'
  }

  /** The pattern read directly: `/company/`, then `seg`, then `/`, standing
      at index `i` of `url`, with `seg` a non-empty run of non-slash characters. */
  ghost predicate MatchesAt(url: string, i: int, seg: string) {
    && 0 <= i
    && i + |seg| + 10 <= |url|
    && url[i..i + |seg| + 10] == Marker + seg + "/"
    && |seg| > 0
    && SlashFree(seg)
  }

  /** The index of the first slash at or after `j`, or `|s|` when there is none. */
  function NextSlash(s: string, j: nat): (k: nat)
    requires j <= |s|
    ensures j <= k <= |s|
    ensures forall m | j <= m < k :: s[m] != '/'
    ensures k < |s| ==> s[k] == '/'
    decreases |s| - j
  {
    if j == |s| || s[j] == '/' then j else NextSlash(s, j + 1)
  }

  /** The group the pattern captures when it is tried at index `i`. */
  function MatchAt(url: string, i: nat): Option<string>
    requires i <= |url|
  {
    if i + 9 <= |url| && url[i..i + 9] == Marker then
      var k := NextSlash(url, i + 9);
      if i + 9 < k < |url| then Some(url[i + 9..k]) else None
    else None
  }

  function SearchFrom(url: string, i: nat): Option<string>
    requires i <= |url|
    decreases |url| - i
  {
    if MatchAt(url, i).Some? then MatchAt(url, i)
    else if i == |url| then None
    else SearchFrom(url, i + 1)
  }

  /** `extract_company_id(url)` */
  function ExtractCompanyId(url: string): Option<string> {
    SearchFrom(url, 0)
  }

  /** Trying the pattern at one index finds exactly the matches that stand there. */
  lemma MatchAtExact(url: string, i: nat, seg: string)
    requires i <= |url|
    ensures MatchAt(url, i) == Some(seg) <==> MatchesAt(url, i, seg)
  {
    if MatchAt(url, i) == Some(seg) {
      var k := NextSlash(url, i + 9);
      assert seg == url[i + 9..k];
      assert url[i..i + |seg| + 10] == url[i..i + 9] + seg + [url[k]];
    }
    if MatchesAt(url, i, seg) {
      var w := url[i..i + |seg| + 10];
      assert url[i..i + 9] == w[..9] == Marker;
      assert forall m | i + 9 <= m < i + 9 + |seg| :: url[m] == seg[m - i - 9];
      assert url[i + 9 + |seg|] == w[9 + |seg|] == '/';
      var k := NextSlash(url, i + 9);
      assert k == i + 9 + |seg|;
      assert url[i + 9..k] == w[9..9 + |seg|] == seg;
    }
  }

  /** The search from `i` returns the group of the leftmost match at or
      after `i`, and nothing when there is none. */
  lemma {:induction false} SearchFromLeftmost(url: string, i: nat)
    requires i <= |url|
    ensures SearchFrom(url, i).None? ==> forall j, t | i <= j :: !MatchesAt(url, j, t)
    ensures SearchFrom(url, i).Some? ==>
      exists j | i <= j <= |url| :: MatchesAt(url, j, SearchFrom(url, i).value) &&
        forall j', t | i <= j' < j :: !MatchesAt(url, j', t)
    decreases |url| - i
  {
    var here := MatchAt(url, i);
    if here.Some? {
      MatchAtExact(url, i, here.value);
      assert MatchesAt(url, i, here.value);
    } else {
      forall t ensures !MatchesAt(url, i, t) {
        MatchAtExact(url, i, t);
      }
      if i < |url| {
        SearchFromLeftmost(url, i + 1);
        var r := SearchFrom(url, i + 1);
        if r.Some? {
          var j :| i + 1 <= j <= |url| && MatchesAt(url, j, r.value) &&
            forall j', t | i + 1 <= j' < j :: !MatchesAt(url, j', t);
          assert forall j', t | i <= j' < j :: !MatchesAt(url, j', t);
        }
      } else {
        forall j, t | i <= j ensures !MatchesAt(url, j, t) {
          if j == i { MatchAtExact(url, i, t); }
        }
      }
    }
  }

  /** A result is a non-empty, slash-free segment standing between
      `/company/` and `/`, and no match starts further left. */
  lemma ExtractIsLeftmostMatch(url: string)
    ensures ExtractCompanyId(url).None? ==> forall j, t :: !MatchesAt(url, j, t)
    ensures ExtractCompanyId(url).Some? ==>
      var seg := ExtractCompanyId(url).value;
      && |seg| > 0 && SlashFree(seg)
      && exists j | 0 <= j <= |url| :: MatchesAt(url, j, seg) &&
           forall j', t | 0 <= j' < j :: !MatchesAt(url, j', t)
  {
    SearchFromLeftmost(url, 0);
    forall j, t | j < 0 ensures !MatchesAt(url, j, t) { }
  }

  /** Conversely, the leftmost match is the one returned. */
  lemma ExtractFindsLeftmost(url: string, j: nat, seg: string)
    requires MatchesAt(url, j, seg)
    requires forall j', t | 0 <= j' < j :: !MatchesAt(url, j', t)
    ensures ExtractCompanyId(url) == Some(seg)
  {
    ExtractIsLeftmostMatch(url);
    var r := ExtractCompanyId(url);
    assert r.Some?;
    var k :| 0 <= k <= |url| && MatchesAt(url, k, r.value) &&
      forall j', t | 0 <= j' < k :: !MatchesAt(url, j', t);
    assert k == j;
    MatchAtExact(url, j, seg);
    MatchAtExact(url, j, r.value);
  }

  /** Where the slashes of a match stand. */
  lemma MatchShape(url: string, j: int, t: string)
    requires MatchesAt(url, j, t)
    ensures url[j] == '/' && url[j + 8] == '/' && url[j + 9] == t[0] != '/'
    ensures url[j + |t| + 9] == '/'
  {
    var w := Marker + t + "/";
    assert url[j] == w[0] && url[j + 8] == w[8] && url[j + 9] == w[9];
    assert url[j + |t| + 9] == w[|t| + 9];
  }

  /** Examples: the usual screener link, a link with no slash after the
      segment, and an empty segment. */
  lemma ExtractExamples()
    ensures ExtractCompanyId("/company/TCS/consolidated/") == Some("TCS")
    ensures ExtractCompanyId("/company/TCS") == None
    ensures ExtractCompanyId("/company//x/") == None
  {
    var u := "/company/TCS/consolidated/";
    assert MatchesAt(u, 0, "TCS") by {
      assert u[0..13] == Marker + "TCS" + "/";
    }
    ExtractFindsLeftmost(u, 0, "TCS");
    var v := "/company/TCS";
    forall j, t | MatchesAt(v, j, t) ensures false {
      MatchShape(v, j, t);
    }
    ExtractIsLeftmostMatch(v);
    var w := "/company//x/";
    forall j, t | MatchesAt(w, j, t) ensures false {
      MatchShape(w, j, t);
    }
    ExtractIsLeftmostMatch(w);
  }
}
