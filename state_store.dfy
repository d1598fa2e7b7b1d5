/** The per-search state of utils/state.py: the canonical search URL, the
    key that names a search's state file, the record `load` returns when no
    file exists yet, and the trim of the digest window. */
module StateStore {
  import opened Text
  import opened Wrappers
  import opened Sorting
  import opened Normalize
  import Fingerprint

  // ---------- canonical URL and search key ----------

  /** `_canon_url(u)`: `(u or "").strip()`, then NFKC. */
  function CanonUrl(nf: Nfkc, u: Option<string>): string {
    nf(Strip(u.GetOr("")))
  }

  /** The text `_search_key` hashes: `f"{site_id}||{_canon_url(url)}"`. */
  function SearchKeyText(nf: Nfkc, siteId: string, url: Option<string>): string {
    siteId + "||" + CanonUrl(nf, url)
  }

  /** `_search_key(site_id, url)` */
  function SearchKey(sha1: Fingerprint.Hash, nf: Nfkc, siteId: string, url: Option<string>): string {
    sha1(SearchKeyText(nf, siteId, url))
  }

  /** Whitespace around the URL does not change the key, and a missing URL
      has the key of the empty one. */
  lemma SearchKeyIgnoresPadding(sha1: Fingerprint.Hash, nf: Nfkc, siteId: string, pre: string, u: string, post: string)
    requires AllSpace(pre) && AllSpace(post)
    ensures SearchKey(sha1, nf, siteId, Some(pre + u + post)) == SearchKey(sha1, nf, siteId, Some(u))
    ensures SearchKey(sha1, nf, siteId, None) == SearchKey(sha1, nf, siteId, Some(""))
  {
    StripPadded(pre, u, post);
  }

  /** When no site id holds '|', the hashed text determines the site id and
      the canonical URL, and is determined by them. */
  lemma SearchKeyTextInjective(nf: Nfkc, s1: string, u1: Option<string>, s2: string, u2: Option<string>)
    requires '|' !in s1 && '|' !in s2
    ensures SearchKeyText(nf, s1, u1) == SearchKeyText(nf, s2, u2)
        <==> s1 == s2 && CanonUrl(nf, u1) == CanonUrl(nf, u2)
  {
    var t1, t2 := SearchKeyText(nf, s1, u1), SearchKeyText(nf, s2, u2);
    if t1 == t2 {
      BarAfterSite(s1, CanonUrl(nf, u1));
      BarAfterSite(s2, CanonUrl(nf, u2));
      if |s1| < |s2| {
        SiteCharAt(s2, CanonUrl(nf, u2), |s1|);
      } else if |s2| < |s1| {
        SiteCharAt(s1, CanonUrl(nf, u1), |s2|);
      }
    }
    if t1 == t2 && |s1| == |s2| {
      assert s1 == t1[..|s1|] && s2 == t2[..|s2|];
      assert CanonUrl(nf, u1) == t1[|s1| + 2..];
      assert CanonUrl(nf, u2) == t2[|s2| + 2..];
    }
  }

  lemma BarAfterSite(s: string, u: string)
    ensures (s + "||" + u)[|s|] == '|'
  {
  }

  lemma SiteCharAt(s: string, u: string, i: int)
    requires 0 <= i < |s|
    ensures (s + "||" + u)[i] == s[i] && s[i] in s
  {
  }

  /** With '|' in a site id two different searches share one state file:
      site `a|` with URL `u` and site `a` with URL `|u` both hash `a|||u`
      (for example "a|" with "b" and "a" with "|b"). */
  lemma SearchKeyCollision(sha1: Fingerprint.Hash, nf: Nfkc, site: string, u: string)
    requires u != [] && !IsSpace(u[0]) && !IsSpace(u[|u| - 1])
    requires nf(u) == u && nf("|" + u) == "|" + u
    ensures site + "|" != site && u != "|" + u
    ensures SearchKeyText(nf, site + "|", Some(u)) == SearchKeyText(nf, site, Some("|" + u)) == site + "|||" + u
    ensures SearchKey(sha1, nf, site + "|", Some(u)) == SearchKey(sha1, nf, site, Some("|" + u))
  {
    CanonUrlUnchanged(nf, u);
    CanonUrlUnchanged(nf, "|" + u);
    var bars: string := "|||";
    assert "|" + "||" == bars && "||" + "|" == bars;
    assert site + "|" + "||" + u == site + ("|" + "||") + u;
    assert site + "||" + ("|" + u) == site + ("||" + "|") + u;
  }

  /** A URL without whitespace at its ends that NFKC leaves alone is its
      own canonical form. */
  lemma CanonUrlUnchanged(nf: Nfkc, u: string)
    requires u != [] ==> !IsSpace(u[0]) && !IsSpace(u[|u| - 1])
    requires nf(u) == u
    ensures CanonUrl(nf, Some(u)) == u
  {
    StripNoop(u);
  }

  /** Canonicalising a canonical URL again changes nothing when NFKC leaves
      no whitespace at its ends. */
  lemma CanonUrlIdempotent(nf: Nfkc, u: Option<string>)
    requires Idempotent(nf)
    requires var c := CanonUrl(nf, u); c != [] ==> !IsSpace(c[0]) && !IsSpace(c[|c| - 1])
    ensures CanonUrl(nf, Some(CanonUrl(nf, u))) == CanonUrl(nf, u)
  {
    StripNoop(CanonUrl(nf, u));
  }

  /** NFKC maps U+00A8 (diaeresis) to a space followed by U+0308; this
      idempotent stand-in does just that and nothing else. */
  function SpaceDiaeresis(s: string): string {
    if s == "\U{A8}" then " \U{308}" else s
  }

  const DiaeresisNfkc: Nfkc := SpaceDiaeresis

  lemma DiaeresisNfkcIdempotent()
    ensures Idempotent(DiaeresisNfkc)
  {
    forall s ensures DiaeresisNfkc(DiaeresisNfkc(s)) == DiaeresisNfkc(s) {
      assert " \U{308}" != "\U{A8}";
    }
  }

  /** Without that condition `_canon_url` is not idempotent: the stored
      `search_url` of "\U{A8}" is " \U{308}", whose own canonical form is
      "\U{308}". */
  lemma CanonUrlNotIdempotentInGeneral()
    ensures Idempotent(DiaeresisNfkc)
    ensures CanonUrl(DiaeresisNfkc, Some("\U{A8}")) == " \U{308}"
    ensures CanonUrl(DiaeresisNfkc, Some(" \U{308}")) == "\U{308}"
  {
    DiaeresisNfkcIdempotent();
    StripNoop("\U{A8}");
    assert " \U{308}" == " " + "\U{308}" + "";
    StripPadded(" ", "\U{308}", "");
    StripNoop("\U{308}");
  }

  // ---------- ids and the digest window ----------

  /** The default `window_limit`. */
  const DefaultWindow: int := 2000

  /** Where `xs[-limit:]` starts in a list of length `n`, by Python's slice
      rules: a positive limit counts from the end, `-0` is `0`, and a
      negative limit counts from the front. */
  function SuffixStart(n: nat, limit: int): (r: nat)
    ensures r <= n
  {
    if limit > 0 then (if limit >= n then 0 else n - limit)
    else if limit == 0 then 0
    else if -limit >= n then n
    else -limit
  }

  /** How many of `n` sorted ids `sorted(ids)[-limit:]` keeps. */
  function KeepCount(n: nat, limit: int): (r: nat)
    ensures r <= n
    ensures 0 < limit <= n ==> r == limit
    ensures limit == 0 ==> r == n
  {
    n - SuffixStart(n, limit)
  }

  /** The ids of `d` lexicographically greater than `k`. */
  function Above(d: map<string, string>, k: string): set<string> {
    set j | j in d && LexLess(k, j)
  }

  /** What `trim_window` leaves in a digest map: the whole map when it fits
      the limit, and otherwise the entries with fewer than `KeepCount` ids
      above them, each with its own value. */
  function Window(d: map<string, string>, limit: int): (r: map<string, string>)
    ensures r.Keys <= d.Keys
    ensures forall k :: k in r ==> r[k] == d[k]
  {
    if |d| <= limit then d
    else map k | k in d && |Above(d, k)| < KeepCount(|d|, limit) :: d[k]
  }

  /** Every kept id is greater than every dropped one. */
  lemma WindowKeepsGreatest(d: map<string, string>, limit: int, k: string, j: string)
    requires k in Window(d, limit) && j in d && j !in Window(d, limit)
    ensures LexLess(j, k)
  {
    LexLeTotal(j, k);
    if !LexLess(j, k) {
      AboveShrinks(d, k, j);
    }
  }

  lemma SubsetCard(a: set<string>, b: set<string>)
    requires a <= b
    ensures |a| <= |b|
  {
    assert b == a + (b - a);
    assert a * (b - a) == {};
  }

  /** A greater id has fewer ids above it. */
  lemma AboveShrinks(d: map<string, string>, k: string, j: string)
    requires LexLess(k, j) && j in d
    ensures |Above(d, j)| < |Above(d, k)|
  {
    forall x | x in Above(d, j) ensures x in Above(d, k) {
      LexLeTransitive(k, j, x);
      if x == k {
        LexLeAntisymmetric(k, j);
      }
    }
    assert j !in Above(d, j);
    SubsetCard(Above(d, j), Above(d, k) - {j});
  }

  lemma AboveIsProper(d: map<string, string>, k: string)
    requires k in d
    ensures |Above(d, k)| < |d|
  {
    SubsetCard(Above(d, k), d.Keys - {k});
  }

  /** `[-0:]` is the whole list, so a limit of 0 keeps every entry. */
  lemma WindowZeroKeepsAll(d: map<string, string>)
    ensures Window(d, 0) == d
  {
    if |d| > 0 {
      forall k | k in d ensures |Above(d, k)| < KeepCount(|d|, 0) {
        AboveIsProper(d, k);
      }
    }
  }

  /** In a strictly sorted list the ids above the i-th are the ones after it. */
  lemma AboveInSorted(d: map<string, string>, ids: seq<string>, i: int)
    requires StrictlySorted(ids) && 0 <= i < |ids|
    requires forall k :: k in ids <==> k in d
    ensures |Above(d, ids[i])| == |ids| - 1 - i
  {
    forall k | k in Above(d, ids[i]) ensures k in ids[i + 1..] {
      var m :| 0 <= m < |ids| && ids[m] == k;
      if m < i {
        LexLeAntisymmetric(ids[m], ids[i]);
      }
      assert ids[i + 1..][m - i - 1] == k;
    }
    var tail := ids[i + 1..];
    forall k | k in tail ensures k in Above(d, ids[i]) {
      var m :| 0 <= m < |tail| && tail[m] == k;
      assert ids[i + 1 + m] == k;
    }
    assert Above(d, ids[i]) == set k | k in tail;
    DistinctCard(tail);
  }

  /** The trimmed map is the original restricted to the slice of the sorted
      ids that `[-limit:]` selects. */
  lemma WindowBySlice(d: map<string, string>, limit: int, ids: seq<string>)
    requires StrictlySorted(ids) && |ids| == |d| && |d| > limit
    requires forall k :: k in ids <==> k in d
    ensures forall k :: k in ids[SuffixStart(|ids|, limit)..] ==> k in d
    ensures Window(d, limit) == map k | k in ids[SuffixStart(|ids|, limit)..] :: d[k]
  {
    var start := SuffixStart(|ids|, limit);
    var keep := ids[start..];
    forall k | k in keep ensures k in d {
      var m :| 0 <= m < |keep| && keep[m] == k;
      assert ids[start + m] == k;
    }
    WindowKeysBySlice(d, limit, ids);
    SameRestriction(Window(d, limit), map k | k in keep :: d[k], d);
  }

  lemma WindowKeysBySlice(d: map<string, string>, limit: int, ids: seq<string>)
    requires StrictlySorted(ids) && |ids| == |d| && |d| > limit
    requires forall k :: k in ids <==> k in d
    ensures forall k :: k in Window(d, limit) <==> k in ids[SuffixStart(|ids|, limit)..]
  {
    forall k ensures k in Window(d, limit) <==> k in ids[SuffixStart(|ids|, limit)..] {
      if k in d {
        var i :| 0 <= i < |ids| && ids[i] == k;
        KeptIffInSlice(d, limit, ids, i);
      }
    }
  }

  /** Two restrictions of one map to the same keys are equal. */
  lemma SameRestriction(a: map<string, string>, b: map<string, string>, d: map<string, string>)
    requires a.Keys == b.Keys
    requires forall k :: k in a ==> k in d && a[k] == d[k]
    requires forall k :: k in b ==> k in d && b[k] == d[k]
    ensures a == b
  {
  }

  lemma KeptIffInSlice(d: map<string, string>, limit: int, ids: seq<string>, i: int)
    requires StrictlySorted(ids) && |ids| == |d| && |d| > limit && 0 <= i < |ids|
    requires forall k :: k in ids <==> k in d
    ensures ids[i] in Window(d, limit) <==> ids[i] in ids[SuffixStart(|ids|, limit)..]
  {
    var start := SuffixStart(|ids|, limit);
    AboveInSorted(d, ids, i);
    if i >= start {
      assert ids[start..][i - start] == ids[i];
    } else {
      forall p | 0 <= p < |ids| - start ensures ids[start..][p] != ids[i] {
        assert ids[start..][p] == ids[start + p];
      }
    }
  }

  /** `sorted(keys)` of a set of ids: strictly increasing, with exactly the
      given ids. */
  method SortedIds(keys: set<string>) returns (ids: seq<string>)
    ensures StrictlySorted(ids)
    ensures forall k :: k in ids <==> k in keys
    ensures |ids| == |keys|
  {
    ids := [];
    var rest := keys;
    while rest != {}
      invariant rest <= keys
      invariant Sorted(ids)
      invariant multiset(ids) == multiset(keys - rest)
      decreases |rest|
    {
      var k :| k in rest;
      assert keys - (rest - {k}) == (keys - rest) + {k};
      assert k !in keys - rest;
      ids := Insert(k, ids);
      rest := rest - {k};
    }
    assert keys - rest == keys;
    SortedOfSet(ids, keys);
  }

  /** A sorted list holding each id of a set once is strictly sorted and
      holds exactly those ids. */
  lemma SortedOfSet(ids: seq<string>, keys: set<string>)
    requires Sorted(ids) && multiset(ids) == multiset(keys)
    ensures StrictlySorted(ids)
    ensures forall k :: k in ids <==> k in keys
    ensures |ids| == |keys|
  {
    forall k ensures k in ids <==> k in keys {
      assert k in ids <==> k in multiset(ids);
    }
    forall i, j | 0 <= i < j < |ids| ensures ids[i] != ids[j] {
      if ids[i] == ids[j] {
        TwiceInMultiset(ids, i, j);
      }
    }
    SortedDistinct(ids);
    assert |ids| == |multiset(ids)| == |multiset(keys)| == |keys|;
  }

  /** An element at two positions occurs at least twice. */
  lemma TwiceInMultiset(s: seq<string>, i: int, j: int)
    requires 0 <= i < j < |s| && s[i] == s[j]
    ensures multiset(s)[s[i]] >= 2
  {
    assert s == s[..j] + [s[j]] + s[j + 1..];
    assert s[i] in s[..j];
    assert multiset(s) == multiset(s[..j]) + multiset{s[j]} + multiset(s[j + 1..]);
  }

  /** The state record of one search. A loaded record may lack
      `window_limit`, which then reads as 2000. */
  class SearchState {
    var version: int
    var siteId: string
    var searchUrl: string
    var seeded: bool
    /** trainer id -> fingerprint of its white sparks */
    var digests: map<string, string>
    var windowLimit: Option<int>
    var createdAt: string
    var updatedAt: Option<string>

    /** The record `load` returns when no state file exists; `now` is the
        formatted UTC time stamp. */
    constructor Fresh(nf: Nfkc, site: string, url: Option<string>, now: string)
      ensures version == 1 && siteId == site && searchUrl == CanonUrl(nf, url)
      ensures !seeded && digests == map[] && windowLimit == Some(DefaultWindow)
      ensures createdAt == now && updatedAt == None
    {
      var canon := CanonUrl(nf, url);
      version := 1;
      siteId := site;
      searchUrl := canon;
      seeded := false;
      digests := map[];
      windowLimit := Some(DefaultWindow);
      createdAt := now;
      updatedAt := None;
    }

    /** `int(st.get("window_limit", 2000))` */
    function Limit(): int
      reads this
    {
      windowLimit.GetOr(DefaultWindow)
    }

    /** `trim_window(st)`: rebinds the digest map to its window and touches
        nothing else. */
    method TrimWindow()
      modifies this`digests
      ensures digests == Window(old(digests), old(Limit()))
      ensures |old(digests)| <= old(Limit()) ==> digests == old(digests)
      ensures |old(digests)| > old(Limit()) ==> |digests| == KeepCount(|old(digests)|, old(Limit()))
      ensures 0 < Limit() ==> |digests| <= Limit()
      ensures version == old(version) && siteId == old(siteId) && searchUrl == old(searchUrl)
      ensures seeded == old(seeded) && windowLimit == old(windowLimit)
      ensures createdAt == old(createdAt) && updatedAt == old(updatedAt)
    {
      var limit := windowLimit.GetOr(DefaultWindow);
      if |digests| <= limit {
        return;
      }
      WindowSize(digests, limit);
      var ids := SortedIds(digests.Keys);
      WindowBySlice(digests, limit, ids);
      digests := map k | k in ids[SuffixStart(|ids|, limit)..] :: digests[k];
    }
  }

  /** A strictly sorted list of the given ids, built by insertion. */
  lemma SortedKeys(keys: set<string>) returns (ids: seq<string>)
    ensures StrictlySorted(ids)
    ensures forall k :: k in ids <==> k in keys
    ensures |ids| == |keys|
  {
    ids := InsertAll(keys);
    SortedOfSet(ids, keys);
  }

  lemma {:induction false} InsertAll(keys: set<string>) returns (ids: seq<string>)
    ensures Sorted(ids) && multiset(ids) == multiset(keys)
    decreases |keys|
  {
    if keys == {} {
      return [];
    }
    var k :| k in keys;
    var rest := InsertAll(keys - {k});
    ids := Insert(k, rest);
    assert keys == (keys - {k}) + {k};
  }

  /** How many entries the window keeps: all when the map fits the limit,
      otherwise `KeepCount`, which is the limit itself when
      `1 <= limit < len`. */
  lemma WindowSize(d: map<string, string>, limit: int)
    ensures |Window(d, limit)| == if |d| <= limit then |d| else KeepCount(|d|, limit)
    ensures 0 < limit < |d| ==> |Window(d, limit)| == limit
  {
    if |d| > limit {
      var ids := SortedKeys(d.Keys);
      var start := SuffixStart(|ids|, limit);
      WindowBySlice(d, limit, ids);
      DistinctKeep(ids, start);
      assert Window(d, limit).Keys == set k | k in ids[start..];
    }
  }

  lemma DistinctKeep(ids: seq<string>, start: int)
    requires StrictlySorted(ids) && 0 <= start <= |ids|
    ensures |set k | k in ids[start..]| == |ids| - start
  {
    var keep := ids[start..];
    forall i, j | 0 <= i < j < |keep| ensures keep[i] != keep[j] {
      assert keep[i] == ids[start + i] && keep[j] == ids[start + j];
    }
    DistinctCard(keep);
  }

  // ---------- how far sorting ids as text agrees with their numbers ----------

  function Pow10(n: nat): (r: nat)
    ensures r >= 1
  {
    if n == 0 then 1 else 10 * Pow10(n - 1)
  }

  lemma {:induction false} DigitsValueBound(s: string)
    requires AllDigits(s)
    ensures DigitsValue(s) < Pow10(|s|)
  {
    if s != [] {
      DigitsValueBound(s[..|s| - 1]);
    }
  }

  /** Reading digits from the front: the leading digit weighs `10^(n-1)`. */
  lemma {:induction false} DigitsValueFront(s: string)
    requires AllDigits(s) && s != []
    ensures DigitsValue(s) == (s[0] as int - '0' as int) * Pow10(|s| - 1) + DigitsValue(s[1..])
  {
    var n := |s|;
    if n == 1 {
      assert s[..0] == [] && s[1..] == [];
    } else {
      var init := s[..n - 1];
      DigitsValueFront(init);
      assert init[1..] == s[1..][..n - 2];
      var d0 := s[0] as int - '0' as int;
      var last := s[n - 1] as int - '0' as int;
      var p := Pow10(n - 2);
      var a := DigitsValue(init[1..]);
      assert DigitsValue(s) == DigitsValue(init) * 10 + last;
      assert DigitsValue(s[1..]) == a * 10 + last;
      assert DigitsValue(init) == d0 * p + a;
      assert Pow10(n - 1) == 10 * p;
      Distrib(d0, p, a);
    }
  }
  lemma Distrib(d: int, p: int, a: int)
    ensures (d * p + a) * 10 == d * (10 * p) + a * 10
  {
  }

  lemma MulLe(x: int, y: int, p: nat)
    requires x <= y
    ensures x * p <= y * p
  {
  }

  /** Leading digits decide between numbers of one length. */
  lemma LeadingDigitDecides(a: string, b: string)
    requires AllDigits(a) && AllDigits(b) && |a| == |b| > 0 && a[0] < b[0]
    ensures DigitsValue(a) < DigitsValue(b)
  {
    DigitsValueFront(a);
    DigitsValueFront(b);
    DigitsValueBound(a[1..]);
    var p := Pow10(|a| - 1);
    var da, db := a[0] as int - '0' as int, b[0] as int - '0' as int;
    MulLe(da + 1, db, p);
    assert (da + 1) * p == da * p + p;
  }

  /** For ids of one length, text order is numeric order. */
  lemma {:induction false} DigitOrderLe(a: string, b: string)
    requires AllDigits(a) && AllDigits(b) && |a| == |b|
    ensures LexLe(a, b) <==> DigitsValue(a) <= DigitsValue(b)
  {
    if a != [] {
      if a[0] < b[0] {
        LeadingDigitDecides(a, b);
      } else if b[0] < a[0] {
        LeadingDigitDecides(b, a);
      } else {
        DigitOrderLe(a[1..], b[1..]);
        DigitsValueFront(a);
        DigitsValueFront(b);
      }
    }
  }

  /** So for ids of one length `sorted()` keeps the numerically largest ids,
      which is what the comment "IDs grow" relies on. */
  lemma DigitOrderMatchesValue(a: string, b: string)
    requires AllDigits(a) && AllDigits(b) && |a| == |b|
    ensures LexLess(a, b) <==> DigitsValue(a) < DigitsValue(b)
  {
    DigitOrderLe(a, b);
    DigitOrderLe(b, a);
    LexLeReflexive(a);
    if LexLe(a, b) && LexLe(b, a) {
      LexLeAntisymmetric(a, b);
    }
  }

  /** Across lengths it does not hold: with a limit of 1 the window keeps
      "999" and drops "1000". */
  lemma WindowPrefersShorterId()
    ensures LexLess("1000", "999") && DigitsValue("1000") > DigitsValue("999")
    ensures "999" in Window(map["999" := "x", "1000" := "y"], 1)
    ensures "1000" !in Window(map["999" := "x", "1000" := "y"], 1)
  {
    assert "1000"[..3] == "100" && "100"[..2] == "10" && "10"[..1] == "1" && "1"[..0] == "";
    assert DigitsValue("1000") == 1000;
    assert "999"[..2] == "99" && "99"[..1] == "9" && "9"[..0] == "";
    assert DigitsValue("999") == 999;
    var d := map["999" := "x", "1000" := "y"];
    assert d.Keys == {"999", "1000"};
    assert LexLess("1000", "999");
    assert !LexLess("999", "1000");
    assert Above(d, "999") == {};
    assert Above(d, "1000") == {"999"};
    assert |d| == 2;
  }
}
