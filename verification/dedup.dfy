/** Deduplication keys, order-preserving deduplication, and the URL
    predicates and transforms every provider applies (internal/core/dedup.go). */
module Dedup {
  import opened Wrappers
  import opened Text
  import opened Seqs
  import opened Types

  const ErrSourceNotFound: string := "source not found"
  const ErrEmptyKeyword: string := "keyword cannot be empty"
  const ErrRequestFailed: string := "request failed"

  // ----- the Douyin pattern `/tos-cn-i-[^/]+/([^/~?]+)` -----

  const DouyinMarker: string := "/tos-cn-i-"

  /** The characters that end the captured ID. */
  predicate IsStop(c: char) {
    c == '/' || c == '~' || c == '?'
  }

  /** `k` is the `/` that closes the `[^/]+` segment after the marker at `i`. */
  ghost predicate SegmentEnd(s: string, i: int, k: int) {
    0 <= i && i + |DouyinMarker| < k < |s| && s[k] == '/'
    && forall t :: i + |DouyinMarker| <= t < k ==> s[t] != '/'
  }

  /** `id` is the longest non-empty run of non-stop characters at `start`. */
  ghost predicate Capture(s: string, start: int, id: string) {
    0 <= start && 0 < |id| && start + |id| <= |s| && s[start..start + |id|] == id
    && (forall t :: 0 <= t < |id| ==> !IsStop(id[t]))
    && (start + |id| == |s| || IsStop(s[start + |id|]))
  }

  /** The pattern matches `s` starting at `i`, capturing `id`. */
  ghost predicate PatternAt(s: string, i: int, id: string) {
    OccursAt(s, DouyinMarker, i) && exists k :: SegmentEnd(s, i, k) && Capture(s, k + 1, id)
  }

  /** The match the regular expression engine reports: the leftmost one. */
  ghost predicate LeftmostAt(s: string, i: int, id: string) {
    PatternAt(s, i, id) && forall j, id' :: 0 <= j < i ==> !PatternAt(s, j, id')
  }

  /** The first index at or after `from` holding a character in `stop`, or `|s|`. */
  function RunEnd(s: string, from: nat, stop: char -> bool): (e: nat)
    requires from <= |s|
    ensures from <= e <= |s|
    ensures forall k :: from <= k < e ==> !stop(s[k])
    ensures e < |s| ==> stop(s[e])
    decreases |s| - from
  {
    if from == |s| || stop(s[from]) then from else RunEnd(s, from + 1, stop)
  }

  /** The matcher at one start position: the marker, a non-empty run up to
      the next `/`, then the non-empty run up to a stop character. */
  function MatchAt(s: string, i: nat): Option<string>
    requires i <= |s|
  {
    if !OccursAt(s, DouyinMarker, i) then None
    else
      var k := RunEnd(s, i + |DouyinMarker|, IsSlash);
      if k == i + |DouyinMarker| || k == |s| then None
      else
        var e := RunEnd(s, k + 1, IsStop);
        if e == k + 1 then None else Some(s[k + 1..e])
  }

  predicate IsSlash(c: char) {
    c == '/'
  }

  /** Every match the matcher reports is a declared match. */
  lemma MatchAtSound(s: string, i: nat)
    requires i <= |s| && MatchAt(s, i).Some?
    ensures PatternAt(s, i, MatchAt(s, i).value)
  {
    var k := RunEnd(s, i + |DouyinMarker|, IsSlash);
    var e := RunEnd(s, k + 1, IsStop);
    assert SegmentEnd(s, i, k);
    assert Capture(s, k + 1, s[k + 1..e]);
  }

  /** Every declared match is the one the matcher reports. */
  lemma MatchAtComplete(s: string, i: nat, id: string)
    requires i <= |s| && PatternAt(s, i, id)
    ensures MatchAt(s, i) == Some(id)
  {
    var k' :| SegmentEnd(s, i, k') && Capture(s, k' + 1, id);
    var k := RunEnd(s, i + |DouyinMarker|, IsSlash);
    assert k == k';
    var e := RunEnd(s, k + 1, IsStop);
    forall t | k + 1 <= t < k + 1 + |id| ensures !IsStop(s[t]) {
      assert s[t] == s[k + 1..k + 1 + |id|][t - (k + 1)] == id[t - (k + 1)];
    }
    assert e == k + 1 + |id|;
  }

  /** The matcher finds exactly the declared matches: at a given start the
      capture, when there is one, is unique. */
  lemma MatchAtIff(s: string, i: nat)
    requires i <= |s|
    ensures forall id :: PatternAt(s, i, id) <==> MatchAt(s, i) == Some(id)
  {
    if MatchAt(s, i).Some? {
      MatchAtSound(s, i);
    }
    forall id | PatternAt(s, i, id) ensures MatchAt(s, i) == Some(id) {
      MatchAtComplete(s, i, id);
    }
  }

  /** No match starts in `[lo, hi)`. */
  ghost predicate NoMatchIn(s: string, lo: int, hi: int) {
    forall j, id :: lo <= j < hi ==> !PatternAt(s, j, id)
  }

  datatype Match = Match(at: nat, id: string)

  /** The leftmost match at or after `from`, if any. */
  function FindPattern(s: string, from: nat): (r: Option<Match>)
    requires from <= |s|
    ensures r.Some? ==> from <= r.value.at && PatternAt(s, r.value.at, r.value.id)
                        && NoMatchIn(s, from, r.value.at)
    ensures r.None? ==> NoMatchIn(s, from, |s| + 1)
    decreases |s| - from
  {
    match MatchAt(s, from)
    case Some(id) =>
      MatchAtSound(s, from);
      Some(Match(from, id))
    case None =>
      MatchAtIff(s, from);
      if from == |s| then None else FindPattern(s, from + 1)
  }

  /** Go's `ExtractURLKey`: the captured Douyin ID when the pattern occurs,
      otherwise the (uninterpreted) MD5 hex digest of the whole URL. */
  function ExtractURLKey(md5Hex: string -> string, url: string): (key: string)
    ensures forall i, id :: LeftmostAt(url, i, id) ==> key == id
    ensures (forall i, id :: !PatternAt(url, i, id)) ==> key == md5Hex(url)
  {
    match FindPattern(url, 0)
    case Some(m) =>
      assert forall i, id' :: LeftmostAt(url, i, id') ==> id' == m.id by {
        forall i, id' | LeftmostAt(url, i, id') ensures id' == m.id {
          assert i == m.at;
          MatchAtIff(url, i);
        }
      }
      m.id
    case None => md5Hex(url)
  }

  /** A Douyin CDN URL `pre/tos-cn-i-<seg>/<id><post>` is keyed by `id`,
      whatever mirror host `pre` and decoration `post` it carries. */
  lemma DouyinURLKey(md5Hex: string -> string, pre: string, seg: string, id: string, post: string)
    requires forall j :: !OccursAt(pre, DouyinMarker, j)
    requires |seg| > 0 && '/' !in seg
    requires |id| > 0 && forall t :: 0 <= t < |id| ==> !IsStop(id[t])
    requires post == "" || IsStop(post[0])
    ensures ExtractURLKey(md5Hex, pre + DouyinMarker + seg + "/" + id + post) == id
  {
    var u := pre + DouyinMarker + seg + "/" + id + post;
    var i := |pre|;
    var k := |pre| + |DouyinMarker| + |seg|;
    assert u[i..i + |DouyinMarker|] == DouyinMarker;
    forall t | i + |DouyinMarker| <= t < k ensures u[t] != '/' {
      assert u[t] == seg[t - i - |DouyinMarker|];
    }
    assert SegmentEnd(u, i, k);
    assert u[k + 1..k + 1 + |id|] == id;
    assert k + 1 + |id| < |u| ==> u[k + 1 + |id|] == post[0];
    assert Capture(u, k + 1, id);
    forall j, x | 0 <= j < i ensures !PatternAt(u, j, x) {
      if j + |DouyinMarker| <= |pre| {
        assert u[j..j + |DouyinMarker|] == pre[j..j + |DouyinMarker|];
        assert !OccursAt(pre, DouyinMarker, j);
        assert !OccursAt(u, DouyinMarker, j);
      } else {
        assert DouyinMarker[i - j] != '/';
        assert u[j..j + |DouyinMarker|][i - j] == u[i] == '/';
        assert !OccursAt(u, DouyinMarker, j);
      }
    }
    assert LeftmostAt(u, i, id);
  }

  /** The deduplication key of a meme. */
  function URLKeyOf(md5Hex: string -> string): Meme -> string
  {
    (m: Meme) => ExtractURLKey(md5Hex, m.url)
  }

  // ----- order-preserving deduplication -----

  function KeySet<T, K(==)>(xs: seq<T>, key: T -> K): set<K>
  {
    set i | 0 <= i < |xs| :: key(xs[i])
  }

  predicate KeysUnique<T, K(==)>(xs: seq<T>, key: T -> K) {
    forall i, j :: 0 <= i < j < |xs| ==> key(xs[i]) != key(xs[j])
  }

  /** `xs[i]` is the first element of `xs` carrying its key. */
  predicate IsFirstOfKey<T, K(==)>(xs: seq<T>, key: T -> K, i: int)
    requires 0 <= i < |xs|
  {
    key(xs[i]) !in KeySet(xs[..i], key)
  }

  /** The elements of `xs` whose key no earlier element carries, in order. */
  function DedupBy<T, K(==)>(xs: seq<T>, key: T -> K): seq<T>
    decreases |xs|
  {
    if |xs| == 0 then []
    else
      var p := xs[..|xs| - 1];
      if key(xs[|xs| - 1]) in KeySet(p, key) then DedupBy(p, key)
      else DedupBy(p, key) + [xs[|xs| - 1]]
  }

  /** One more element either repeats a key and is dropped, or is kept. */
  lemma DedupSnoc<T, K>(p: seq<T>, x: T, key: T -> K)
    ensures DedupBy(p + [x], key) == if key(x) in KeySet(p, key) then DedupBy(p, key) else DedupBy(p, key) + [x]
  {
    assert (p + [x])[..|p|] == p;
  }

  lemma KeySetSnoc<T, K>(p: seq<T>, x: T, key: T -> K)
    ensures KeySet(p + [x], key) == KeySet(p, key) + {key(x)}
  {
    var xs := p + [x];
    forall k | k in KeySet(xs, key) ensures k in KeySet(p, key) + {key(x)} {
      var i :| 0 <= i < |xs| && key(xs[i]) == k;
      if i < |p| {
        assert xs[i] == p[i];
      }
    }
    forall k | k in KeySet(p, key) ensures k in KeySet(xs, key) {
      var i :| 0 <= i < |p| && key(p[i]) == k;
      assert xs[i] == p[i];
    }
    assert xs[|p|] == x;
  }

  /** Every key of the input survives deduplication. */
  lemma {:induction false} DedupKeySet<T, K>(xs: seq<T>, key: T -> K)
    ensures KeySet(DedupBy(xs, key), key) == KeySet(xs, key)
    decreases |xs|
  {
    if |xs| > 0 {
      var p := xs[..|xs| - 1];
      var x := xs[|xs| - 1];
      assert xs == p + [x];
      KeySetSnoc(p, x, key);
      DedupKeySet(p, key);
      if key(x) !in KeySet(p, key) {
        KeySetSnoc(DedupBy(p, key), x, key);
      }
    }
  }

  /** No two retained elements share a key. */
  lemma {:induction false} DedupKeysUnique<T, K>(xs: seq<T>, key: T -> K)
    ensures KeysUnique(DedupBy(xs, key), key)
    decreases |xs|
  {
    if |xs| > 0 {
      var p := xs[..|xs| - 1];
      var x := xs[|xs| - 1];
      DedupKeysUnique(p, key);
      if key(x) !in KeySet(p, key) {
        var d := DedupBy(p, key);
        DedupKeySet(p, key);
        forall i | 0 <= i < |d| ensures key(d[i]) != key(x) {
          assert key(d[i]) in KeySet(d, key);
        }
        var r := d + [x];
        forall i, j | 0 <= i < j < |r| ensures key(r[i]) != key(r[j]) {
          if j < |d| {
            assert r[i] == d[i] && r[j] == d[j];
          } else {
            assert r[i] == d[i] && r[j] == x;
          }
        }
      }
    }
  }

  /** Deduplication only deletes: the rest keep their relative order. */
  lemma {:induction false} DedupSubsequence<T, K>(xs: seq<T>, key: T -> K)
    ensures IsSubsequence(DedupBy(xs, key), xs)
    ensures |DedupBy(xs, key)| <= |xs|
    decreases |xs|
  {
    if |xs| > 0 {
      var p := xs[..|xs| - 1];
      var x := xs[|xs| - 1];
      DedupSubsequence(p, key);
      var d := DedupBy(p, key);
      if key(x) !in KeySet(p, key) {
        var r := d + [x];
        assert r[..|r| - 1] == d;
      }
    }
    SubsequenceBounds(DedupBy(xs, key), xs);
  }

  /** An element is retained exactly when it is the first carrier of its key. */
  lemma {:induction false} DedupRetainsFirstCarriers<T, K>(xs: seq<T>, key: T -> K)
    ensures forall i :: 0 <= i < |xs| && IsFirstOfKey(xs, key, i) ==> xs[i] in DedupBy(xs, key)
    ensures forall y :: y in DedupBy(xs, key) ==>
              exists i :: 0 <= i < |xs| && IsFirstOfKey(xs, key, i) && xs[i] == y
    decreases |xs|
  {
    if |xs| > 0 {
      var n := |xs| - 1;
      var p := xs[..n];
      var x := xs[n];
      DedupRetainsFirstCarriers(p, key);
      assert forall i :: 0 <= i < n ==> xs[..i] == p[..i] && xs[i] == p[i];
      assert xs[..n] == p;
      forall i | 0 <= i < |xs| && IsFirstOfKey(xs, key, i) ensures xs[i] in DedupBy(xs, key) {
        if i < n {
          assert IsFirstOfKey(p, key, i);
        }
      }
      forall y | y in DedupBy(xs, key)
        ensures exists i :: 0 <= i < |xs| && IsFirstOfKey(xs, key, i) && xs[i] == y
      {
        if y in DedupBy(p, key) {
          var i :| 0 <= i < |p| && IsFirstOfKey(p, key, i) && p[i] == y;
          assert IsFirstOfKey(xs, key, i);
        } else {
          assert y == x && IsFirstOfKey(xs, key, n);
        }
      }
    }
  }

  /** Every element's key is carried in the output by the first element of
      the input with that key. */
  lemma {:induction false} DedupKeepsFirstCarrier<T, K>(xs: seq<T>, key: T -> K, i: int)
    requires 0 <= i < |xs|
    ensures exists j :: 0 <= j <= i && key(xs[j]) == key(xs[i]) && IsFirstOfKey(xs, key, j)
                        && xs[j] in DedupBy(xs, key)
    decreases i
  {
    DedupRetainsFirstCarriers(xs, key);
    if !IsFirstOfKey(xs, key, i) {
      var i' :| 0 <= i' < i && key(xs[..i][i']) == key(xs[i]);
      assert xs[..i][i'] == xs[i'];
      DedupKeepsFirstCarrier(xs, key, i');
    }
  }

  /** Input whose keys are already unique passes through unchanged. */
  lemma {:induction false} DedupOfUnique<T, K>(xs: seq<T>, key: T -> K)
    requires KeysUnique(xs, key)
    ensures DedupBy(xs, key) == xs
    decreases |xs|
  {
    if |xs| > 0 {
      var p := xs[..|xs| - 1];
      var x := xs[|xs| - 1];
      assert KeysUnique(p, key);
      DedupOfUnique(p, key);
      forall i | 0 <= i < |p| ensures key(p[i]) != key(x) {
        assert p[i] == xs[i];
      }
      assert key(x) !in KeySet(p, key);
      assert xs == p + [x];
    }
  }

  /** Deduplicating twice is deduplicating once. */
  lemma DedupIdempotent<T, K>(xs: seq<T>, key: T -> K)
    ensures DedupBy(DedupBy(xs, key), key) == DedupBy(xs, key)
  {
    DedupKeysUnique(xs, key);
    DedupOfUnique(DedupBy(xs, key), key);
  }

  /** The loop of Go's `DeduplicateMemes`: one pass with a `seen` set of
      keys, keeping each element whose key is not yet in the set. */
  method DedupPass<T, K(==)>(xs: seq<T>, key: T -> K) returns (result: seq<T>)
    ensures result == DedupBy(xs, key)
  {
    var seen: set<K> := {};
    result := [];
    for i := 0 to |xs|
      invariant result == DedupBy(xs[..i], key)
      invariant seen == KeySet(xs[..i], key)
    {
      var k := key(xs[i]);
      assert xs[..i + 1] == xs[..i] + [xs[i]];
      KeySetSnoc(xs[..i], xs[i], key);
      DedupSnoc(xs[..i], xs[i], key);
      if k !in seen {
        seen := seen + {k};
        result := result + [xs[i]];
      }
    }
    assert xs[..|xs|] == xs;
  }

  /** Go's `DeduplicateMemes`: the pass above keyed by `ExtractURLKey`. */
  method DeduplicateMemes(md5Hex: string -> string, memes: seq<Meme>) returns (result: seq<Meme>)
    ensures result == DedupBy(memes, URLKeyOf(md5Hex))
    ensures KeysUnique(result, URLKeyOf(md5Hex))
    ensures IsSubsequence(result, memes)
    ensures KeySet(result, URLKeyOf(md5Hex)) == KeySet(memes, URLKeyOf(md5Hex))
  {
    var key := URLKeyOf(md5Hex);
    result := DedupPass(memes, key);
    DedupKeysUnique(memes, key);
    DedupSubsequence(memes, key);
    DedupKeySet(memes, key);
  }

  /** Two memes served from different Douyin mirrors of one asset collapse
      to the first of them. */
  lemma MirrorsCollapse(md5Hex: string -> string, m1: Meme, m2: Meme,
                        pre1: string, seg1: string, post1: string,
                        pre2: string, seg2: string, post2: string, id: string)
    requires forall j :: !OccursAt(pre1, DouyinMarker, j)
    requires forall j :: !OccursAt(pre2, DouyinMarker, j)
    requires |seg1| > 0 && '/' !in seg1 && |seg2| > 0 && '/' !in seg2
    requires |id| > 0 && forall t :: 0 <= t < |id| ==> !IsStop(id[t])
    requires post1 == "" || IsStop(post1[0])
    requires post2 == "" || IsStop(post2[0])
    requires m1.url == pre1 + DouyinMarker + seg1 + "/" + id + post1
    requires m2.url == pre2 + DouyinMarker + seg2 + "/" + id + post2
    ensures DedupBy([m1, m2], URLKeyOf(md5Hex)) == [m1]
  {
    DouyinURLKey(md5Hex, pre1, seg1, id, post1);
    DouyinURLKey(md5Hex, pre2, seg2, id, post2);
    DedupPairSameKey(m1, m2, URLKeyOf(md5Hex));
  }

  lemma DedupPairSameKey<T, K>(a: T, b: T, key: T -> K)
    requires key(a) == key(b)
    ensures DedupBy([a, b], key) == [a]
  {
    assert [a, b][..1] == [a];
    assert [a][..0] == [];
    assert KeySet([a][..0], key) == {};
    assert DedupBy([a], key) == [a];
    assert key(b) in KeySet([a], key) by {
      assert [a][0] == a;
    }
  }

  // ----- URL predicates and transforms -----

  /** Go's `NormalizeURL`: the first `http://`, wherever it occurs, becomes
      `https://`; then surrounding white space is trimmed. */
  function NormalizeURL(url: string): (u: string)
    ensures (forall k :: !OccursAt(url, "http://", k)) ==> u == TrimSpace(url)
    ensures forall i :: OccursAt(url, "http://", i) && (forall k :: 0 <= k < i ==> !OccursAt(url, "http://", k))
                        ==> u == TrimSpace(url[..i] + "https://" + url[i + 7..])
    ensures |u| <= |url| + 1
    ensures |u| > 0 ==> !IsSpace(u[0]) && !IsSpace(u[|u| - 1])
  {
    var s := ReplaceFirst(url, "http://", "https://");
    assert |s| <= |url| + 1;
    TrimSpace(s)
  }

  /** A URL that starts with `http://` normalises to one that starts with
      `https://`. */
  lemma NormalizeForcesHttps(url: string)
    requires HasPrefix(url, "http://")
    ensures HasPrefix(NormalizeURL(url), "https://")
  {
    assert OccursAt(url, "http://", 0);
    var s := ReplaceFirst(url, "http://", "https://");
    assert s == url[..0] + "https://" + url[7..];
    assert s[..8] == "https://";
    var r := TrimSpace(s);
    var i :| TrimmedAt(s, r, i);
    assert !IsSpace(s[0]) && !IsSpace(s[7]);
    assert i == 0;
    assert r == s[..|r|];
  }

  /** Without any `http://`, normalising only trims. */
  lemma NormalizeOnlyTrims(url: string)
    requires forall k :: !OccursAt(url, "http://", k)
    ensures NormalizeURL(url) == TrimSpace(url)
  {
  }

  /** The replacement is not confined to the scheme: the first `http://`
      anywhere in the URL is rewritten. */
  lemma NormalizeRewritesEmbeddedScheme(pre: string, post: string)
    requires forall k :: 0 <= k < |pre| ==> !OccursAt(pre + "http://", "http://", k)
    ensures ReplaceFirst(pre + "http://" + post, "http://", "https://") == pre + "https://" + post
  {
    var u := pre + "http://" + post;
    assert u[|pre|..|pre| + 7] == "http://";
    assert u[..|pre| + 7] == pre + "http://";
    forall k | 0 <= k < |pre| ensures !OccursAt(u, "http://", k) {
      assert !OccursAt(pre + "http://", "http://", k);
      assert u[..|pre| + 7][k..k + 7] == u[k..k + 7];
    }
    assert u[..|pre|] == pre && u[|pre| + 7..] == post;
  }

  /** `p` occurs in the lower-cased URL. */
  ghost predicate Mentions(url: string, p: string) {
    exists i :: OccursAt(Lower(url), p, i)
  }

  const ImageExtensions: seq<string> := [".jpg", ".jpeg", ".png", ".gif", ".webp", ".bmp"]
  const ImageIndicators: seq<string> := ["/img/", "/image/", "/pic/", "/photo/", "thumb", "emoji", "sticker"]
  /** Every substring that marks a URL as an image, extensions first. */
  const ImageMarkers: seq<string> := ImageExtensions + ImageIndicators

  /** Some pattern of `pats` occurs in `s`, checked in list order. */
  function ContainsAny(s: string, pats: seq<string>): (r: bool)
    ensures r <==> exists j :: 0 <= j < |pats| && exists i :: OccursAt(s, pats[j], i)
  {
    if |pats| == 0 then false
    else
      ContainsIff(s, pats[0]);
      assert forall j :: 1 <= j < |pats| ==> pats[j] == pats[1..][j - 1];
      Contains(s, pats[0]) || ContainsAny(s, pats[1..])
  }

  /** Checking two lists one after the other is checking their concatenation. */
  lemma ContainsAnyAppend(s: string, a: seq<string>, b: seq<string>)
    ensures ContainsAny(s, a + b) <==> ContainsAny(s, a) || ContainsAny(s, b)
  {
    var ab := a + b;
    if ContainsAny(s, a) {
      var j :| 0 <= j < |a| && exists i :: OccursAt(s, a[j], i);
      assert ab[j] == a[j];
    }
    if ContainsAny(s, b) {
      var j :| 0 <= j < |b| && exists i :: OccursAt(s, b[j], i);
      assert ab[|a| + j] == b[j];
    }
    if ContainsAny(s, ab) {
      var j :| 0 <= j < |ab| && exists i :: OccursAt(s, ab[j], i);
      if j >= |a| {
        assert ab[j] == b[j - |a|];
      } else {
        assert ab[j] == a[j];
      }
    }
  }

  predicate IsHttpURL(url: string) {
    HasPrefix(url, "http://") || HasPrefix(url, "https://")
  }

  /** Go's `IsValidImageURL`: an http(s) URL whose lower-cased form
      contains an image extension or an image path indicator. */
  function IsValidImageURL(url: string): (ok: bool)
    ensures url == "" ==> !ok
    ensures ok <==> IsHttpURL(url) && exists j :: 0 <= j < |ImageMarkers| && Mentions(url, ImageMarkers[j])
  {
    ContainsAnyAppend(Lower(url), ImageExtensions, ImageIndicators);
    if url == "" then false
    else if !IsHttpURL(url) then false
    else if ContainsAny(Lower(url), ImageExtensions) then true
    else ContainsAny(Lower(url), ImageIndicators)
  }

  /** Go's `DetectImageFormat`: the first matching rule in the fixed order
      gif, png, webp, jpg wins. */
  function DetectImageFormat(url: string): (f: string)
    ensures f in {"gif", "png", "webp", "jpg", ""}
    ensures f == "gif" <==> Mentions(url, ".gif")
    ensures f == "png" <==> !Mentions(url, ".gif") && Mentions(url, ".png")
    ensures f == "webp" <==> !Mentions(url, ".gif") && !Mentions(url, ".png")
                             && (Mentions(url, ".webp") || Mentions(url, ".awebp"))
    ensures f == "jpg" <==> !Mentions(url, ".gif") && !Mentions(url, ".png")
                            && !Mentions(url, ".webp") && !Mentions(url, ".awebp")
                            && (Mentions(url, ".jpg") || Mentions(url, ".jpeg"))
  {
    var lower := Lower(url);
    ContainsIff(lower, ".gif");
    ContainsIff(lower, ".png");
    ContainsIff(lower, ".webp");
    ContainsIff(lower, ".awebp");
    ContainsIff(lower, ".jpg");
    ContainsIff(lower, ".jpeg");
    if Contains(lower, ".gif") then "gif"
    else if Contains(lower, ".png") then "png"
    else if Contains(lower, ".webp") || Contains(lower, ".awebp") then "webp"
    else if Contains(lower, ".jpg") || Contains(lower, ".jpeg") then "jpg"
    else ""
  }

  /** Case does not matter to format detection. */
  lemma DetectIgnoresCase(url: string)
    ensures DetectImageFormat(Lower(url)) == DetectImageFormat(url)
  {
    LowerIdempotent(url);
  }

  /** An http(s) URL whose format is detected as gif, png or jpg is a valid
      image URL. */
  lemma DetectedFormatIsValid(url: string)
    requires IsHttpURL(url)
    requires DetectImageFormat(url) in {"gif", "png", "jpg"}
    ensures IsValidImageURL(url)
  {
    var f := DetectImageFormat(url);
    if f == "gif" {
      assert ImageMarkers[3] == ".gif";
    } else if f == "png" {
      assert ImageMarkers[2] == ".png";
    } else if Mentions(url, ".jpg") {
      assert ImageMarkers[0] == ".jpg";
    } else {
      assert ImageMarkers[1] == ".jpeg";
    }
  }

  /** A pattern holding a character that `s` lacks does not occur in `s`. */
  lemma AbsentChar(s: string, p: string, c: char)
    requires c in p && c !in s
    ensures forall i :: !OccursAt(s, p, i)
  {
    var t :| 0 <= t < |p| && p[t] == c;
    forall i ensures !OccursAt(s, p, i) {
      if 0 <= i && i + |p| <= |s| {
        assert s[i..i + |p|][t] == s[i + t];
      }
    }
  }

  const AwebpSample: string := "https://a.awebp"

  lemma AwebpSampleIsLower()
    ensures Lower(AwebpSample) == AwebpSample
  {
  }

  lemma AwebpSampleHasNoWebp()
    ensures forall i :: !OccursAt(AwebpSample, ".webp", i)
  {
    var u := AwebpSample;
    forall i ensures !OccursAt(u, ".webp", i) {
      if 0 <= i && i + 5 <= |u| {
        if u[i + 1] == 'w' {
          assert i == 10;
        }
        assert u[i..i + 5][1] == u[i + 1];
        assert u[i..i + 5][0] == u[i];
      }
    }
  }

  /** The sample URL contains none of the image markers. */
  lemma AwebpSampleHasNoMarker()
    ensures forall j :: 0 <= j < |ImageMarkers| ==> forall i :: !OccursAt(AwebpSample, ImageMarkers[j], i)
  {
    var u := AwebpSample;
    forall j | 0 <= j < |ImageMarkers| ensures forall i :: !OccursAt(u, ImageMarkers[j], i) {
      var p := ImageMarkers[j];
      if j == 0 { AbsentChar(u, p, 'j'); }
      else if j == 1 { AbsentChar(u, p, 'j'); }
      else if j == 2 { AbsentChar(u, p, 'n'); }
      else if j == 3 { AbsentChar(u, p, 'g'); }
      else if j == 4 { AwebpSampleHasNoWebp(); }
      else if j == 5 { AbsentChar(u, p, 'm'); }
      else if j == 6 { AbsentChar(u, p, 'i'); }
      else if j == 7 { AbsentChar(u, p, 'i'); }
      else if j == 8 { AbsentChar(u, p, 'i'); }
      else if j == 9 { AbsentChar(u, p, 'o'); }
      else if j == 10 { AbsentChar(u, p, 'u'); }
      else if j == 11 { AbsentChar(u, p, 'm'); }
      else { AbsentChar(u, p, 'i'); }
    }
  }

  /** `.awebp` is detected as webp, but it is not among the markers the
      validity check accepts. */
  lemma AwebpDetectedButNotValid()
    ensures DetectImageFormat(AwebpSample) == "webp"
    ensures !IsValidImageURL(AwebpSample)
  {
    var u := AwebpSample;
    AwebpSampleIsLower();
    AwebpSampleHasNoMarker();
    assert u[9..15] == ".awebp";
    assert OccursAt(Lower(u), ".awebp", 9);
    assert ImageMarkers[3] == ".gif" && ImageMarkers[2] == ".png" && ImageMarkers[4] == ".webp";
  }
}
