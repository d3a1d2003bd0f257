/**
 * The in-place URL mask of liblog/logprint.c (android_log_filter_url) on a C string: text without NULs, whose end reads
 * as a NUL.
 */
module UrlMask {

  const MASK := 'X'

  /** tolower in the C locale. */
  function Lower(c: char): char {
    if 'A' <= c <= 'Z' then (c as int + 32) as char else c
  }

  function At(s: string, i: nat): char {
    if i < |s| then s[i] else '\0'
  }

  predicate IsTerminator(c: char) {
    c == '\U{0C}' || c == '\n' || c == '\r' || c == '\t' || c == '\U{0B}' || c == ' ' || c == '\0'
  }

  /** Whether an all lower-case pattern stands at i, upper and lower case taken alike. */
  predicate Matches(s: string, i: nat, pattern: string) {
    i + |pattern| <= |s| && forall k :: 0 <= k < |pattern| ==> Lower(s[i + k]) == pattern[k]
  }

  predicate HttpAt(s: string, i: nat) {
    Matches(s, i, "http")
  }

  function AfterHttp(s: string, i: nat): nat {
    if Lower(At(s, i + 4)) == 's' then i + 5 else i + 4
  }

  /** The length of a colon at i, plain or encoded; 0 if there is none. */
  function ColonAt(s: string, i: nat): nat {
    if At(s, i) == ':' then 1 else if Matches(s, i, "%3a") then 3 else 0
  }

  function SlashAt(s: string, i: nat): nat {
    if At(s, i) == '/' then 1 else if Matches(s, i, "%2f") then 3 else 0
  }

  /** Behind up to two slashes. */
  function AfterSlashes(s: string, i: nat): nat {
    var j := i + SlashAt(s, i);
    j + SlashAt(s, j)
  }

  /** Whether the "http" at i starts a URL, and where what is to be hidden begins. */
  predicate UrlAt(s: string, i: nat) {
    HttpAt(s, i) && ColonAt(s, AfterHttp(s, i)) > 0
  }

  function UrlBody(s: string, i: nat): nat {
    AfterSlashes(s, AfterHttp(s, i) + ColonAt(s, AfterHttp(s, i)))
  }

  /** The first terminator from i on. */
  function BodyEnd(s: string, i: nat): (e: nat)
    requires i <= |s|
    ensures i <= e <= |s|
    ensures IsTerminator(At(s, e)) && forall k :: i <= k < e ==> !IsTerminator(s[k])
    decreases |s| - i
  {
    if IsTerminator(At(s, i)) then i else BodyEnd(s, i + 1)
  }

  function Hide(s: string, from: nat, to: nat): (r: string)
    requires from <= to <= |s|
    ensures |r| == |s|
  {
    s[..from] + seq(to - from, _ => MASK) + s[to..]
  }

  /** The string after masking every URL found from i on. */
  function Filter(s: string, i: nat): (r: string)
    ensures |r| == |s|
    decreases |s| - i
  {
    if i >= |s| then s
    else if !HttpAt(s, i) then Filter(s, i + 1)
    else if !UrlAt(s, i) then Filter(s, AfterHttp(s, i))
    else
      BodyInside(s, i);
      var k := UrlBody(s, i);
      var e := BodyEnd(s, k);
      Filter(Hide(s, k, e), e)
  }

  lemma BodyInside(s: string, i: nat)
    requires UrlAt(s, i)
    ensures i + 4 < UrlBody(s, i) <= |s| && i + 4 <= AfterHttp(s, i) < UrlBody(s, i)
  {}

  // ---------- what masking changes

  /** t is s with some characters, none of them a terminator, replaced by the mask. */
  ghost predicate Masks(t: string, s: string) {
    && |t| == |s|
    && forall p :: 0 <= p < |s| ==> t[p] == s[p] || (t[p] == MASK && !IsTerminator(s[p]))
  }

  ghost predicate SameUpTo(t: string, s: string, n: nat) {
    |t| == |s| && forall p :: 0 <= p < n && p < |s| ==> t[p] == s[p]
  }

  lemma HideMasks(s: string, k: nat, e: nat)
    requires k <= e <= |s| && forall p :: k <= p < e ==> !IsTerminator(s[p])
    ensures Masks(Hide(s, k, e), s) && SameUpTo(Hide(s, k, e), s, k)
    ensures forall p :: k <= p < e ==> Hide(s, k, e)[p] == MASK
    ensures forall p :: e <= p < |s| ==> Hide(s, k, e)[p] == s[p]
  {}

  /** Masking keeps the length, changes characters only to the mask, and touches nothing before where it starts. */
  lemma {:induction false} FilterMasks(s: string, i: nat)
    ensures Masks(Filter(s, i), s)
    ensures SameUpTo(Filter(s, i), s, i)
    decreases |s| - i
  {
    if i < |s| {
      if !HttpAt(s, i) {
        FilterMasks(s, i + 1);
      } else if !UrlAt(s, i) {
        FilterMasks(s, AfterHttp(s, i));
      } else {
        BodyInside(s, i);
        var k := UrlBody(s, i);
        var e := BodyEnd(s, k);
        HideMasks(s, k, e);
        FilterMasks(Hide(s, k, e), e);
      }
    }
  }

  // ---------- masking does not uncover or move a URL

  lemma MatchesBefore(t: string, s: string, i: nat, pattern: string)
    requires Masks(t, s) && forall k :: 0 <= k < |pattern| ==> pattern[k] != 'x'
    requires Matches(t, i, pattern)
    ensures Matches(s, i, pattern)
  {
    forall k | 0 <= k < |pattern| ensures Lower(s[i + k]) == pattern[k] {
      assert Lower(t[i + k]) == pattern[k];
      assert Lower(MASK) == 'x';
    }
  }

  lemma MatchesAfter(t: string, s: string, i: nat, pattern: string, n: nat)
    requires SameUpTo(t, s, n) && i + |pattern| <= n
    ensures Matches(t, i, pattern) <==> Matches(s, i, pattern)
  {}

  lemma SlashKept(t: string, s: string, i: nat, n: nat)
    requires Masks(t, s) && SameUpTo(t, s, n) && i + SlashAt(s, i) <= n
    ensures SlashAt(t, i) == SlashAt(s, i)
  {
    if SlashAt(s, i) == 0 {
      if Matches(t, i, "%2f") {
        MatchesBefore(t, s, i, "%2f");
      }
    } else if SlashAt(s, i) == 3 {
      MatchesAfter(t, s, i, "%2f", n);
    }
  }

  lemma ColonKept(t: string, s: string, i: nat, n: nat)
    requires Masks(t, s) && SameUpTo(t, s, n) && i + ColonAt(s, i) <= n
    ensures ColonAt(t, i) == ColonAt(s, i)
  {
    if ColonAt(s, i) == 0 {
      if Matches(t, i, "%3a") {
        MatchesBefore(t, s, i, "%3a");
      }
    } else if ColonAt(s, i) == 3 {
      MatchesAfter(t, s, i, "%3a", n);
    }
  }

  lemma AfterHttpKept(t: string, s: string, i: nat)
    requires Masks(t, s) && SameUpTo(t, s, AfterHttp(s, i))
    ensures AfterHttp(t, i) == AfterHttp(s, i)
  {}

  /** A URL whose start is untouched is found again, with the same body. */
  lemma UrlKept(t: string, s: string, i: nat)
    requires UrlAt(s, i) && Masks(t, s) && SameUpTo(t, s, UrlBody(s, i))
    ensures UrlAt(t, i) && UrlBody(t, i) == UrlBody(s, i)
  {
    BodyInside(s, i);
    var n := UrlBody(s, i);
    MatchesAfter(t, s, i, "http", n);
    AfterHttpKept(t, s, i);
    var j := AfterHttp(s, i);
    ColonKept(t, s, j, n);
    var k := j + ColonAt(s, j);
    SlashKept(t, s, k, n);
    SlashKept(t, s, k + SlashAt(s, k), n);
  }

  /** An "http" that starts no URL still starts none. */
  lemma NoUrlKept(t: string, s: string, i: nat)
    requires HttpAt(s, i) && !UrlAt(s, i) && Masks(t, s) && SameUpTo(t, s, AfterHttp(s, i))
    ensures HttpAt(t, i) && !UrlAt(t, i) && AfterHttp(t, i) == AfterHttp(s, i)
  {
    var j := AfterHttp(s, i);
    MatchesAfter(t, s, i, "http", j);
    AfterHttpKept(t, s, i);
    ColonKept(t, s, j, j);
  }

  lemma BodyEndIs(s: string, k: nat, e: nat)
    requires k <= e <= |s| && IsTerminator(At(s, e)) && forall p :: k <= p < e ==> !IsTerminator(s[p])
    ensures BodyEnd(s, k) == e
  {}

  /** The result around a URL found at i: its start is untouched, its body is masked. */
  lemma HiddenUrl(s: string, i: nat, h: string, k: nat, e: nat)
    requires i < |s| && UrlAt(s, i) && k == UrlBody(s, i) <= |s| && e == BodyEnd(s, k) && h == Hide(s, k, e)
    ensures Filter(s, i) == Filter(h, e)
    ensures Masks(Filter(h, e), s) && SameUpTo(Filter(h, e), s, k)
    ensures forall p :: k <= p < e ==> Filter(h, e)[p] == MASK
    ensures IsTerminator(At(Filter(h, e), e))
  {
    HideMasks(s, k, e);
    FilterMasks(h, e);
    var t := Filter(h, e);
    assert forall p :: 0 <= p < e ==> t[p] == h[p];
    assert e < |s| ==> t[e] == h[e] == s[e];
  }

  lemma HiddenAlready(t: string, k: nat, e: nat)
    requires k <= e <= |t| && forall p :: k <= p < e ==> t[p] == MASK
    ensures Hide(t, k, e) == t
  {}

  /** What masking does with a URL it finds at i, seen in the string and in the result. */
  lemma FoundUrl(s: string, i: nat) returns (t: string, h: string, k: nat, e: nat)
    requires i < |s| && UrlAt(s, i)
    ensures t == Filter(s, i) == Filter(h, e) && |t| == |h| == |s|
    ensures i < k <= e <= |s| && k == UrlBody(s, i)
    ensures UrlAt(t, i) && UrlBody(t, i) == k && BodyEnd(t, k) == e
    ensures forall p :: k <= p < e ==> t[p] == MASK
    ensures Hide(t, k, e) == t
  {
    BodyInside(s, i);
    k := UrlBody(s, i);
    e := BodyEnd(s, k);
    h := Hide(s, k, e);
    t := Filter(h, e);
    HiddenUrl(s, i, h, k, e);
    FilterMasks(h, e);
    UrlKept(t, s, i);
    BodyEndIs(t, k, e);
    HiddenAlready(t, k, e);
  }

  lemma FilterAtUrl(t: string, i: nat, k: nat, e: nat)
    requires i < |t| && UrlAt(t, i) && k == UrlBody(t, i) <= |t| && e == BodyEnd(t, k) && Hide(t, k, e) == t
    ensures Filter(t, i) == Filter(t, e)
  {}

  /** Masking twice is masking once. */
  lemma {:induction false} FilterAgain(s: string, i: nat)
    ensures Filter(Filter(s, i), i) == Filter(s, i)
    decreases |s| - i
  {
    var t := Filter(s, i);
    if i >= |s| {
    } else if !HttpAt(s, i) {
      FilterMasks(s, i);
      if HttpAt(t, i) {
        MatchesBefore(t, s, i, "http");
      }
      FilterAgain(s, i + 1);
    } else if !UrlAt(s, i) {
      NoUrlInResult(s, i);
      FilterAgain(s, AfterHttp(s, i));
    } else {
      var u, h, k, e := FoundUrl(s, i);
      FilterAtUrl(t, i, k, e);
      FilterAgain(h, e);
    }
  }

  lemma FilterIdempotent(s: string)
    ensures Filter(Filter(s, 0), 0) == Filter(s, 0)
  {
    FilterAgain(s, 0);
  }

  // ---------- nothing is left uncovered

  /** If a URL starts at u, its body is masked up to the next terminator. */
  ghost predicate Covered(t: string, u: nat) {
    UrlAt(t, u) ==>
      UrlBody(t, u) <= |t| && forall p :: UrlBody(t, u) <= p < BodyEnd(t, UrlBody(t, u)) ==> t[p] == MASK
  }

  ghost predicate CoveredFrom(t: string, i: nat) {
    forall u :: i <= u ==> Covered(t, u)
  }

  lemma FirstOfHttp(t: string, u: nat)
    requires HttpAt(t, u)
    ensures Lower(At(t, u)) == 'h'
  {
    CharOfMatch(t, u, "http", u);
  }

  lemma NotH(t: string, u: nat)
    requires Lower(At(t, u)) != 'h'
    ensures !HttpAt(t, u)
  {
    if HttpAt(t, u) {
      FirstOfHttp(t, u);
    }
  }

  lemma CharOfMatch(t: string, i: nat, pattern: string, u: nat)
    requires Matches(t, i, pattern) && i <= u < i + |pattern|
    ensures Lower(At(t, u)) == pattern[u - i]
  {
    assert Lower(t[i + (u - i)]) == pattern[u - i];
  }

  /** No "http" starts inside another one, nor at its optional s. */
  lemma NoHttpInHttp(t: string, i: nat, u: nat)
    requires HttpAt(t, i) && i < u < AfterHttp(t, i)
    ensures !HttpAt(t, u)
  {
    if u < i + 4 {
      CharOfMatch(t, i, "http", u);
    }
    NotH(t, u);
  }

  /** No "http" starts at the colon or the slashes of a URL. */
  lemma NoHttpInPunctuation(t: string, i: nat, u: nat)
    requires UrlAt(t, i) && AfterHttp(t, i) <= u < UrlBody(t, i)
    ensures !HttpAt(t, u)
  {
    var j := AfterHttp(t, i);
    var k := j + ColonAt(t, j);
    var k1 := k + SlashAt(t, k);
    if u < k {
      if ColonAt(t, j) == 3 { CharOfMatch(t, j, "%3a", u); }
    } else if u < k1 {
      if SlashAt(t, k) == 3 { CharOfMatch(t, k, "%2f", u); }
    } else {
      if SlashAt(t, k1) == 3 { CharOfMatch(t, k1, "%2f", u); }
    }
    NotH(t, u);
  }

  lemma CoveredEarlier(t: string, i: nat, j: nat)
    requires CoveredFrom(t, j) && forall u :: i <= u < j ==> Covered(t, u)
    ensures CoveredFrom(t, i)
  {}

  lemma InsideUrlCovered(t: string, i: nat, k: nat, e: nat, u: nat)
    requires UrlAt(t, i) && UrlBody(t, i) == k <= e <= |t| && BodyEnd(t, k) == e
    requires forall p :: k <= p < e ==> t[p] == MASK
    requires i <= u < e
    ensures Covered(t, u)
  {
    if i < u < AfterHttp(t, i) {
      NoHttpInHttp(t, i, u);
    } else if i < u && u < k {
      NoHttpInPunctuation(t, i, u);
    } else if k <= u {
      NotH(t, u);
    }
  }

  lemma CoversNoHttp(s: string, i: nat)
    requires i < |s| && !HttpAt(s, i) && CoveredFrom(Filter(s, i), i + 1)
    ensures CoveredFrom(Filter(s, i), i)
  {
    var t := Filter(s, i);
    FilterMasks(s, i);
    if HttpAt(t, i) {
      MatchesBefore(t, s, i, "http");
    }
    assert Covered(t, i);
    CoveredEarlier(t, i, i + 1);
  }

  lemma CoversPlainHttp(t: string, i: nat)
    requires HttpAt(t, i) && !UrlAt(t, i) && CoveredFrom(t, AfterHttp(t, i))
    ensures CoveredFrom(t, i)
  {
    var j := AfterHttp(t, i);
    forall u | i <= u < j ensures Covered(t, u) {
      if i < u {
        NoHttpInHttp(t, i, u);
      }
    }
    CoveredEarlier(t, i, j);
  }

  lemma NoUrlInResult(s: string, i: nat)
    requires i < |s| && HttpAt(s, i) && !UrlAt(s, i)
    ensures Filter(s, i) == Filter(s, AfterHttp(s, i))
    ensures HttpAt(Filter(s, i), i) && !UrlAt(Filter(s, i), i)
    ensures AfterHttp(Filter(s, i), i) == AfterHttp(s, i)
  {
    FilterMasks(s, AfterHttp(s, i));
    NoUrlKept(Filter(s, i), s, i);
  }

  lemma CoversUrl(t: string, i: nat, k: nat, e: nat)
    requires UrlAt(t, i) && UrlBody(t, i) == k <= e <= |t| && BodyEnd(t, k) == e
    requires forall p :: k <= p < e ==> t[p] == MASK
    requires CoveredFrom(t, e)
    ensures CoveredFrom(t, i)
  {
    forall u | i <= u < e ensures Covered(t, u) {
      InsideUrlCovered(t, i, k, e, u);
    }
    CoveredEarlier(t, i, e);
  }

  lemma PastTheEnd(t: string, i: nat)
    requires i >= |t|
    ensures CoveredFrom(t, i)
  {}

  /** In the result, whatever follows any URL start is masked up to the next terminator. */
  lemma {:induction false} FilterCovers(s: string, i: nat)
    ensures CoveredFrom(Filter(s, i), i)
    decreases |s| - i
  {
    if i >= |s| {
      PastTheEnd(s, i);
    } else if !HttpAt(s, i) {
      FilterCovers(s, i + 1);
      CoversNoHttp(s, i);
    } else if !UrlAt(s, i) {
      FilterCovers(s, AfterHttp(s, i));
      NoUrlInResult(s, i);
      CoversPlainHttp(Filter(s, i), i);
    } else {
      var t, h, k, e := FoundUrl(s, i);
      FilterCovers(h, e);
      CoversUrl(t, i, k, e);
    }
  }

  lemma NoUrlUncovered(s: string)
    ensures CoveredFrom(Filter(s, 0), 0)
  {
    FilterCovers(s, 0);
  }

  // ---------- what is masked, position by position

  /** Position p belongs to the body of the URL that starts at u: no terminator stands between. */
  ghost predicate InBodyOf(s: string, u: nat, p: nat)
    requires p < |s|
  {
    UrlAt(s, u) && UrlBody(s, u) <= p && forall q :: UrlBody(s, u) <= q <= p ==> !IsTerminator(s[q])
  }

  ghost predicate InSomeBody(s: string, i: nat, p: nat)
    requires p < |s|
  {
    exists u: nat :: i <= u && InBodyOf(s, u, p)
  }

  lemma NoUrlWithin(s: string, i: nat, p: nat, n: nat)
    requires p < |s| && i <= n && forall u :: i <= u < n ==> !UrlAt(s, u)
    ensures InSomeBody(s, i, p) <==> InSomeBody(s, n, p)
  {}

  lemma NoUrlInHttp(s: string, i: nat, p: nat)
    requires p < |s| && HttpAt(s, i) && !UrlAt(s, i)
    ensures InSomeBody(s, i, p) <==> InSomeBody(s, AfterHttp(s, i), p)
  {
    forall u | i <= u < AfterHttp(s, i)
      ensures !UrlAt(s, u)
    {
      if i < u {
        NoHttpInHttp(s, i, u);
      }
    }
    NoUrlWithin(s, i, p, AfterHttp(s, i));
  }

  ghost predicate AgreeFrom(s: string, h: string, e: nat) {
    |s| == |h| && forall q :: e <= q < |s| ==> s[q] == h[q]
  }

  lemma SameMatches(s: string, h: string, u: nat, e: nat, pattern: string)
    requires AgreeFrom(s, h, e) && e <= u
    ensures Matches(s, u, pattern) <==> Matches(h, u, pattern)
  {}

  lemma SameSlash(s: string, h: string, u: nat, e: nat)
    requires AgreeFrom(s, h, e) && e <= u
    ensures SlashAt(s, u) == SlashAt(h, u)
  {
    SameMatches(s, h, u, e, "%2f");
  }

  /** A URL behind e does not depend on what stands before. */
  lemma SameUrl(s: string, h: string, u: nat, e: nat)
    requires AgreeFrom(s, h, e) && e <= u
    ensures UrlAt(s, u) <==> UrlAt(h, u)
    ensures UrlAt(s, u) ==> UrlBody(s, u) == UrlBody(h, u)
  {
    SameMatches(s, h, u, e, "http");
    var j := AfterHttp(s, u);
    SameMatches(s, h, j, e, "%3a");
    var k := j + ColonAt(s, j);
    SameSlash(s, h, k, e);
    SameSlash(s, h, k + SlashAt(s, k), e);
  }

  lemma SameBody(s: string, h: string, u: nat, e: nat, p: nat)
    requires AgreeFrom(s, h, e) && e <= u && p < |s|
    ensures InBodyOf(s, u, p) <==> InBodyOf(h, u, p)
  {
    SameUrl(s, h, u, e);
    if UrlAt(s, u) {
      BodyInside(s, u);
    }
  }

  lemma SameBodies(s: string, h: string, e: nat, p: nat)
    requires AgreeFrom(s, h, e) && p < |s|
    ensures InSomeBody(s, e, p) <==> InSomeBody(h, e, p)
  {
    if InSomeBody(s, e, p) {
      var u: nat :| e <= u && InBodyOf(s, u, p);
      SameBody(s, h, u, e, p);
    }
    if InSomeBody(h, e, p) {
      var u: nat :| e <= u && InBodyOf(h, u, p);
      SameBody(s, h, u, e, p);
    }
  }

  /** No character up to the body of a URL is a terminator. */
  lemma NoTerminatorInUrl(s: string, i: nat, q: nat)
    requires UrlAt(s, i) && i <= q < UrlBody(s, i)
    ensures q < |s| && !IsTerminator(s[q])
  {
    BodyInside(s, i);
    var j := AfterHttp(s, i);
    var k := j + ColonAt(s, j);
    var l := k + SlashAt(s, k);
    if q < i + 4 {
      CharOfMatch(s, i, "http", q);
    } else if j <= q < k && ColonAt(s, j) == 3 {
      CharOfMatch(s, j, "%3a", q);
    } else if k <= q < l && SlashAt(s, k) == 3 {
      CharOfMatch(s, k, "%2f", q);
    } else if l <= q && SlashAt(s, l) == 3 {
      CharOfMatch(s, l, "%2f", q);
    }
  }

  /** The body of a URL ends at the first terminator, and so do all bodies that begin inside the URL. */
  lemma BodyStops(s: string, u: nat, e: nat, p: nat)
    requires u < e <= p < |s| && IsTerminator(s[e])
    ensures !InBodyOf(s, u, p)
  {
    if InBodyOf(s, u, p) {
      if e < UrlBody(s, u) {
        NoTerminatorInUrl(s, u, e);
      }
    }
  }

  /** Behind the end of a URL, only later URLs count. */
  lemma BehindUrl(s: string, i: nat, e: nat, p: nat)
    requires i < e <= p < |s| && IsTerminator(s[e])
    ensures InSomeBody(s, i, p) <==> InSomeBody(s, e, p)
  {
    forall u: nat | i <= u < e
      ensures !InBodyOf(s, u, p)
    {
      BodyStops(s, u, e, p);
    }
  }

  /** Before the body of a URL nothing is in the body of one that starts at it or behind it. */
  lemma BeforeBody(s: string, i: nat, p: nat)
    requires UrlAt(s, i) && p < UrlBody(s, i) && p < |s|
    ensures !InSomeBody(s, i, p)
  {
    if InSomeBody(s, i, p) {
      var u: nat :| i <= u && InBodyOf(s, u, p);
      BodyInside(s, u);
      if i < u < AfterHttp(s, i) {
        NoHttpInHttp(s, i, u);
      } else if AfterHttp(s, i) <= u < UrlBody(s, i) {
        NoHttpInPunctuation(s, i, u);
      }
    }
  }

  lemma BodyStartsLater(s: string, e: nat, p: nat)
    requires p < |s| && p <= e
    ensures !InSomeBody(s, e, p)
  {
    if InSomeBody(s, e, p) {
      var u: nat :| e <= u && InBodyOf(s, u, p);
      BodyInside(s, u);
    }
  }

  /** The turn of the loop at a URL, position by position. */
  lemma MaskedTurn(s: string, i: nat, k: nat, e: nat, h: string, p: nat)
    requires i < |s| && UrlAt(s, i) && k == UrlBody(s, i) <= |s| && e == BodyEnd(s, k) && h == Hide(s, k, e)
    requires p < |s|
    ensures i < e && (InSomeBody(s, i, p) <==> k <= p < e || InSomeBody(h, e, p))
    ensures h[p] == if k <= p < e then MASK else s[p]
    ensures k <= p < e ==> !InSomeBody(h, e, p)
  {
    BodyInside(s, i);
    HideMasks(s, k, e);
    SameBodies(s, h, e, p);
    if p < k {
      BeforeBody(s, i, p);
      BodyStartsLater(s, e, p);
    } else if p < e {
      assert InBodyOf(s, i, p);
      BodyStartsLater(s, e, p);
    } else {
      BehindUrl(s, i, e, p);
    }
  }

  lemma {:induction false} MaskedFrom(s: string, i: nat, p: nat)
    requires p < |s|
    ensures Filter(s, i)[p] == if InSomeBody(s, i, p) then MASK else s[p]
    decreases |s| - i
  {
    if i >= |s| {
      BodyStartsLater(s, i, p);
    } else if !HttpAt(s, i) {
      NoUrlWithin(s, i, p, i + 1);
      MaskedFrom(s, i + 1, p);
    } else if !UrlAt(s, i) {
      NoUrlInHttp(s, i, p);
      MaskedFrom(s, AfterHttp(s, i), p);
    } else {
      BodyInside(s, i);
      var k := UrlBody(s, i);
      var e := BodyEnd(s, k);
      MaskedTurn(s, i, k, e, Hide(s, k, e), p);
      MaskedFrom(Hide(s, k, e), e, p);
    }
  }

  // ---------- the same, said of the characters themselves

  /** c is this character, or its upper-case form if it is a letter. */
  predicate Same(c: char, lower: char) {
    c == lower || ('A' <= c <= 'Z' && c as int + 32 == lower as int)
  }

  predicate Spells(a: string, word: string) {
    |a| == |word| && forall k :: 0 <= k < |a| ==> Same(a[k], word[k])
  }

  predicate HttpText(a: string) {
    Spells(a, "http") || Spells(a, "https")
  }

  predicate ColonText(a: string) {
    a == ":" || Spells(a, "%3a")
  }

  predicate SlashText(a: string) {
    a == "/" || Spells(a, "%2f")
  }

  ghost predicate SlashBegins(s: string, l: nat) {
    exists m: nat :: l < m <= |s| && SlashText(s[l..m])
  }

  /** From i to b stand "http" or "https", a colon, and as many slashes as there are, but at most two, each plain or
      encoded, in any case of the letters. */
  ghost predicate UrlText(s: string, i: nat, j: nat, k: nat, l: nat, b: nat) {
    && i <= j <= k <= l <= b <= |s|
    && HttpText(s[i..j]) && ColonText(s[j..k])
    && (l == k || SlashText(s[k..l])) && (b == l || (l > k && SlashText(s[l..b])))
    && (b == l ==> !SlashBegins(s, l))
  }

  predicate Ends(c: char) {
    c in {' ', '\n', '\r', '\t', '\U{0B}', '\U{0C}', '\0'}
  }

  /** Position p stands behind such a text with nothing that ends a URL in between. */
  ghost predicate BehindUrlText(s: string, p: nat)
    requires p < |s|
  {
    exists i: nat, j: nat, k: nat, l: nat, b: nat ::
      UrlText(s, i, j, k, l, b) && b <= p && forall q :: b <= q <= p ==> !Ends(s[q])
  }

  lemma SameIsLower(c: char, lower: char)
    requires !('A' <= lower <= 'Z')
    ensures Same(c, lower) <==> Lower(c) == lower
  {}

  predicate NoCapitals(word: string) {
    forall k :: 0 <= k < |word| ==> !('A' <= word[k] <= 'Z')
  }

  lemma SpellsIs(s: string, i: nat, j: nat, word: string)
    requires i <= j <= |s| && NoCapitals(word)
    ensures Spells(s[i..j], word) <==> j == i + |word| && Matches(s, i, word)
  {
    if j == i + |word| {
      forall k | 0 <= k < |word|
        ensures Same(s[i..j][k], word[k]) <==> Lower(s[i + k]) == word[k]
      {
        SameIsLower(s[i + k], word[k]);
      }
    }
  }

  lemma SlashTextIs(s: string, k: nat, l: nat)
    requires k < l <= |s|
    ensures SlashText(s[k..l]) <==> SlashAt(s, k) == l - k
  {
    SpellsIs(s, k, l, "%2f");
  }

  lemma SlashBeginsIs(s: string, l: nat)
    requires l <= |s|
    ensures SlashBegins(s, l) <==> SlashAt(s, l) > 0
  {
    if SlashBegins(s, l) {
      var m: nat :| l < m <= |s| && SlashText(s[l..m]);
      SlashTextIs(s, l, m);
    }
    if SlashAt(s, l) > 0 {
      SlashTextIs(s, l, l + SlashAt(s, l));
    }
  }

  lemma ColonTextIs(s: string, j: nat, k: nat)
    requires j <= k <= |s|
    ensures ColonText(s[j..k]) <==> k > j && ColonAt(s, j) == k - j
  {
    SpellsIs(s, j, k, "%3a");
  }

  lemma HttpTextIs(s: string, i: nat, j: nat)
    requires i <= j <= |s| && ColonAt(s, j) > 0
    ensures HttpText(s[i..j]) <==> HttpAt(s, i) && j == AfterHttp(s, i)
  {
    SpellsIs(s, i, j, "http");
    SpellsIs(s, i, j, "https");
    if j == i + 5 {
      HttpsIs(s, i);
    }
    if j == i + 4 && ColonAt(s, j) == 3 {
      CharOfMatch(s, j, "%3a", j);
    }
  }

  lemma HttpsIs(s: string, i: nat)
    ensures Matches(s, i, "https") <==> HttpAt(s, i) && Lower(At(s, i + 4)) == 's'
  {
    assert "https"[4] == 's' && forall k :: 0 <= k < 4 ==> "https"[k] == "http"[k];
    if HttpAt(s, i) && Lower(At(s, i + 4)) == 's' {
      HttpsFound(s, i);
    }
    if Matches(s, i, "https") {
      assert Lower(s[i + 4]) == "https"[4];
      assert forall k :: 0 <= k < 4 ==> Lower(s[i + k]) == "https"[k] == "http"[k];
    }
  }

  lemma HttpsFound(s: string, i: nat)
    requires HttpAt(s, i) && Lower(At(s, i + 4)) == 's'
    ensures Matches(s, i, "https")
  {
    assert i + 5 <= |s|;
    forall k | 0 <= k < 5
      ensures Lower(s[i + k]) == "https"[k]
    {
      if k < 4 {
        assert Lower(s[i + k]) == "http"[k] == "https"[k];
      }
    }
  }

  /** The places the code finds are the places in the text. */
  lemma UrlTextIs(s: string, i: nat, b: nat)
    ensures UrlAt(s, i) && UrlBody(s, i) == b <==> exists j: nat, k: nat, l: nat :: UrlText(s, i, j, k, l, b)
  {
    if UrlAt(s, i) && UrlBody(s, i) == b {
      BodyInside(s, i);
      var j := AfterHttp(s, i);
      var k := j + ColonAt(s, j);
      var l := k + SlashAt(s, k);
      UrlTextFound(s, i, j, k, l, b);
    }
    if j: nat, k: nat, l: nat :| UrlText(s, i, j, k, l, b) {
      UrlTextRead(s, i, j, k, l, b);
    }
  }

  lemma UrlTextFound(s: string, i: nat, j: nat, k: nat, l: nat, b: nat)
    requires UrlAt(s, i) && b == UrlBody(s, i) <= |s|
    requires j == AfterHttp(s, i) && k == j + ColonAt(s, j) && l == k + SlashAt(s, k)
    ensures UrlText(s, i, j, k, l, b)
  {
    HttpTextIs(s, i, j);
    ColonTextIs(s, j, k);
    if l > k {
      SlashTextIs(s, k, l);
    }
    if b > l {
      SlashTextIs(s, l, b);
    } else {
      SlashBeginsIs(s, l);
    }
  }

  lemma UrlTextRead(s: string, i: nat, j: nat, k: nat, l: nat, b: nat)
    requires UrlText(s, i, j, k, l, b)
    ensures UrlAt(s, i) && UrlBody(s, i) == b
  {
    ColonTextIs(s, j, k);
    HttpTextIs(s, i, j);
    if l > k {
      SlashTextIs(s, k, l);
    }
    if b > l {
      SlashTextIs(s, l, b);
    } else {
      SlashBeginsIs(s, l);
    }
  }

  lemma EndsIs(c: char)
    ensures Ends(c) <==> IsTerminator(c)
  {}

  lemma BehindUrlTextIs(s: string, p: nat)
    requires p < |s|
    ensures BehindUrlText(s, p) <==> InSomeBody(s, 0, p)
  {
    forall q | 0 <= q < |s|
      ensures Ends(s[q]) <==> IsTerminator(s[q])
    {
      EndsIs(s[q]);
    }
    if BehindUrlText(s, p) {
      var i: nat, j: nat, k: nat, l: nat, b: nat :|
        UrlText(s, i, j, k, l, b) && b <= p && forall q :: b <= q <= p ==> !Ends(s[q]);
      UrlTextRead(s, i, j, k, l, b);
      assert InBodyOf(s, i, p);
    }
    if InSomeBody(s, 0, p) {
      var i: nat :| InBodyOf(s, i, p);
      UrlTextIs(s, i, UrlBody(s, i));
      var j: nat, k: nat, l: nat :| UrlText(s, i, j, k, l, UrlBody(s, i));
    }
  }

  /** Exactly the characters behind "http://", "https:", "HTTPS%3A%2F%2f" and their like, up to white space or the end,
      are replaced by an X, and all others stay. */
  lemma MaskedExactly(s: string, p: nat)
    requires p < |s|
    ensures Filter(s, 0)[p] == if BehindUrlText(s, p) then 'X' else s[p]
  {
    MaskedFrom(s, 0, p);
    BehindUrlTextIs(s, p);
  }

  // ---------- the code

  /** Whether a C string of length n, and its terminator, stand at the start of a buffer. */
  ghost predicate HoldsString(buf: array<char>, n: nat)
    reads buf
  {
    n < buf.Length && buf[n] == '\0' && '\0' !in buf[..n]
  }

  /** strncasecmp with an all lower-case pattern, at p. */
  method HasPattern(buf: array<char>, n: nat, p: nat, pattern: string) returns (yes: bool)
    requires HoldsString(buf, n) && p <= n && '\0' !in pattern
    ensures yes == Matches(buf[..n], p, pattern)
  {
    var i := 0;
    ghost var s := buf[..n];
    while i < |pattern|
      invariant 0 <= i <= |pattern| && p + i <= n
      invariant forall k :: 0 <= k < i ==> Lower(s[p + k]) == pattern[k]
    {
      if Lower(buf[p + i]) != pattern[i] {
        assert p + i < n ==> Lower(s[p + i]) != pattern[i];
        return false;
      }
      i := i + 1;
    }
    return true;
  }

  /** strcasestr(ptr, "http"). */
  method FindHttp(buf: array<char>, n: nat, p: nat) returns (found: bool, at: nat)
    requires HoldsString(buf, n) && p <= n
    ensures p <= at <= n && Filter(buf[..n], p) == Filter(buf[..n], at)
    ensures found ==> at < n && HttpAt(buf[..n], at)
    ensures !found ==> at == n
  {
    at, found := p, false;
    while at < n
      invariant p <= at <= n && !found
      invariant Filter(buf[..n], p) == Filter(buf[..n], at)
    {
      found := HasPattern(buf, n, at, "http");
      if found {
        return;
      }
      at := at + 1;
    }
  }

  method SkipColon(buf: array<char>, n: nat, p: nat) returns (len: nat)
    requires HoldsString(buf, n) && p <= n
    ensures len == ColonAt(buf[..n], p) && p + len <= n
  {
    if buf[p] == ':' {
      return 1;
    }
    var encoded := HasPattern(buf, n, p, "%3a");
    return if encoded then 3 else 0;
  }

  /** One turn of the loop over the two slashes. */
  method SkipSlash(buf: array<char>, n: nat, p: nat) returns (len: nat)
    requires HoldsString(buf, n) && p <= n
    ensures len == SlashAt(buf[..n], p) && p + len <= n
  {
    if buf[p] == '/' {
      return 1;
    }
    var encoded := HasPattern(buf, n, p, "%2f");
    return if encoded then 3 else 0;
  }

  /** Overwrites everything up to the next terminator. */
  method HideBody(buf: array<char>, n: nat, p: nat) returns (e: nat)
    requires HoldsString(buf, n) && p <= n
    modifies buf
    ensures p <= e <= n && e == BodyEnd(old(buf[..n]), p)
    ensures buf[..n] == Hide(old(buf[..n]), p, e) && HoldsString(buf, n)
    ensures buf[n..] == old(buf[n..])
  {
    ghost var s := buf[..n];
    e := p;
    while !IsTerminator(buf[e])
      invariant p <= e <= n
      invariant forall k :: p <= k < e ==> buf[k] == MASK && !IsTerminator(s[k])
      invariant forall k :: 0 <= k < buf.Length && !(p <= k < e) ==> buf[k] == old(buf[k])
      decreases n - e
    {
      buf[e] := MASK;
      e := e + 1;
    }
    assert At(s, e) == (if e < n then old(buf[e]) else '\0');
    BodyEndIs(s, p, e);
    assert buf[..n] == Hide(s, p, e);
  }

  /** android_log_filter_url; only a secure build masks. */
  method FilterUrl(buf: array<char>, n: nat, secure: bool)
    requires HoldsString(buf, n)
    modifies buf
    ensures buf[..n] == (if secure then Filter(old(buf[..n]), 0) else old(buf[..n]))
    ensures HoldsString(buf, n) && buf[n..] == old(buf[n..])
  {
    if !secure {
      return;
    }
    ghost var s := buf[..n];
    var found, ptr := FindHttp(buf, n, 0);
    while found
      invariant HoldsString(buf, n) && ptr <= n && buf[n..] == old(buf[n..])
      invariant found ==> ptr < n && HttpAt(buf[..n], ptr)
      invariant !found ==> ptr == n
      invariant Filter(s, 0) == Filter(buf[..n], ptr)
      decreases n - ptr, found
    {
      var next := FilterOne(buf, n, ptr);
      found, ptr := FindHttp(buf, n, next);
    }
  }

  method SkipSlashes(buf: array<char>, n: nat, p: nat) returns (p': nat)
    requires HoldsString(buf, n) && p <= n
    ensures p' == AfterSlashes(buf[..n], p) && p' <= n
  {
    p' := p;
    var i := 0;
    ghost var s := buf[..n];
    while i < 2
      invariant 0 <= i <= 2 && p' <= n
      invariant i == 0 ==> p' == p
      invariant i == 1 ==> p' == p + SlashAt(s, p)
      invariant i == 2 ==> p' == AfterSlashes(s, p)
    {
      var slash := SkipSlash(buf, n, p');
      p' := p' + slash;
      i := i + 1;
    }
  }

  /** Behind "http" and an optional s. */
  method SkipHttp(buf: array<char>, n: nat, p: nat) returns (p': nat)
    requires HoldsString(buf, n) && p < n && HttpAt(buf[..n], p)
    ensures p' == AfterHttp(buf[..n], p) && p < p' <= n
  {
    p' := p + 4;
    if Lower(buf[p']) == 's' {
      p' := p' + 1;
    }
  }

  lemma FilterPlain(s: string, i: nat)
    requires i < |s| && HttpAt(s, i) && !UrlAt(s, i)
    ensures Filter(s, i) == Filter(s, AfterHttp(s, i))
  {}

  lemma FilterHidden(s: string, i: nat)
    requires i < |s| && UrlAt(s, i)
    ensures i < UrlBody(s, i) <= |s|
    ensures var e := BodyEnd(s, UrlBody(s, i)); Filter(s, i) == Filter(Hide(s, UrlBody(s, i), e), e)
  {
    BodyInside(s, i);
  }

  /** One turn of the search loop: the "http" at ptr, and what follows it. */
  method FilterOne(buf: array<char>, n: nat, start: nat) returns (ptr: nat)
    requires HoldsString(buf, n) && start < n && HttpAt(buf[..n], start)
    modifies buf
    ensures start < ptr <= n && HoldsString(buf, n) && buf[n..] == old(buf[n..])
    ensures Filter(old(buf[..n]), start) == Filter(buf[..n], ptr)
  {
    ghost var s := buf[..n];
    ptr := SkipHttp(buf, n, start);
    var colon := SkipColon(buf, n, ptr);
    if colon == 0 {
      FilterPlain(s, start);
      return;
    }
    FilterHidden(s, start);
    ptr := SkipSlashes(buf, n, ptr + colon);
    ptr := HideBody(buf, n, ptr);
  }
}
