/** The post-processing every provider applies to the records it fetched:
    page clamping, offsets, URL acceptance, title fallback, and truncation
    to the requested limit (internal/sources/api.go, internal/sources/scrapers.go). */
module Harvest {
  import opened Wrappers
  import opened GoInt
  import opened Text
  import opened Seqs
  import opened Types
  import opened Dedup

  /** A page number below 1 is read as page 1. */
  function ClampPage(page: int64): (p: int64)
    ensures p >= 1
    ensures page >= 1 ==> p == page
    ensures page < 1 ==> p == 1
  {
    if page < 1 then 1 else page
  }

  /** `(page - 1) * pageSize` on the clamped page, in Go's 64-bit `int`. */
  function Offset(page: int64, pageSize: nat): (r: int64)
    ensures (ClampPage(page) - 1) * pageSize <= Max64 ==> r == (ClampPage(page) - 1) * pageSize
    ensures ((ClampPage(page) - 1) * pageSize - r) % Modulus64 == 0
  {
    Wrap64((ClampPage(page) - 1) * pageSize)
  }

  /** The first page starts at offset 0, the next one a page further on. */
  lemma OffsetOfFirstPages(pageSize: nat)
    requires pageSize <= Max64
    ensures Offset(1, pageSize) == 0 && Offset(0, pageSize) == 0 && Offset(-5, pageSize) == 0
    ensures Offset(2, pageSize) == pageSize
  {
  }

  /** The URL an item is emitted with: present, and valid once normalised. */
  function Accept(raw: string): (r: Option<string>)
    ensures r.Some? <==> raw != "" && IsValidImageURL(NormalizeURL(raw))
    ensures r.Some? ==> r.value == NormalizeURL(raw) && IsValidImageURL(r.value)
  {
    if raw == "" then None
    else
      var u := NormalizeURL(raw);
      if IsValidImageURL(u) then Some(u) else None
  }

  /** An empty title is replaced by the provider's fixed default. */
  function OrDefault(title: string, fallback: string): (t: string)
    ensures t == FirstNonEmpty([title, fallback])
    ensures fallback != "" ==> t != ""
  {
    if title != "" then title else fallback
  }

  /** The memes built from the records that produce one, in record order. */
  function Gather<R>(records: seq<R>, build: R -> Option<Meme>): (ms: seq<Meme>)
    ensures |ms| <= |records|
    ensures forall m :: m in ms ==> exists i :: 0 <= i < |records| && build(records[i]) == Some(m)
    ensures (forall i :: 0 <= i < |records| ==> build(records[i]).Some?) ==>
              |ms| == |records| && forall i :: 0 <= i < |records| ==> ms[i] == build(records[i]).value
    decreases |records|
  {
    if |records| == 0 then []
    else
      var n := |records| - 1;
      var prev := Gather(records[..n], build);
      assert forall i :: 0 <= i < n ==> records[..n][i] == records[i];
      match build(records[n])
      case Some(m) => prev + [m]
      case None => prev
  }

  /** `idx` lists, in increasing order, exactly the records that build a
      meme, and `ms[j]` is the meme record `idx[j]` builds. */
  ghost predicate Picks<R>(records: seq<R>, build: R -> Option<Meme>, ms: seq<Meme>, idx: seq<nat>) {
    && |idx| == |ms|
    && (forall j :: 0 <= j < |idx| ==> idx[j] < |records| && build(records[idx[j]]) == Some(ms[j]))
    && (forall j, k :: 0 <= j < k < |idx| ==> idx[j] < idx[k])
    && (forall i :: 0 <= i < |records| && build(records[i]).Some? ==> i in idx)
  }

  /** The memes are those of the accepted records, one each, in record
      order: the Go loop appends as it goes and skips the rest. */
  lemma {:induction false} GatherPicks<R>(records: seq<R>, build: R -> Option<Meme>)
    ensures Gathered(records, build, Gather(records, build))
    decreases |records|
  {
    if |records| == 0 {
      assert Gather(records, build) == [];
      assert Picks(records, build, [], []);
    } else {
      var n := |records| - 1;
      var p := records[..n];
      assert records == p + [records[n]];
      GatherPicks(p, build);
      var idx :| Picks(p, build, Gather(p, build), idx);
      GatherSnoc(p, records[n], build);
      PicksSnoc(p, records[n], build, Gather(p, build), idx);
    }
  }

  /** Gather on one more record appends that record's meme, if any. */
  lemma GatherSnoc<R>(p: seq<R>, x: R, build: R -> Option<Meme>)
    ensures Gather(p + [x], build) == if build(x).Some? then Gather(p, build) + [build(x).value] else Gather(p, build)
  {
    assert (p + [x])[..|p|] == p;
  }

  /** One more record extends the picks by its index when it builds a
      meme, and leaves them alone otherwise. */
  lemma PicksSnoc<R>(p: seq<R>, x: R, build: R -> Option<Meme>, ms: seq<Meme>, idx: seq<nat>)
    requires Picks(p, build, ms, idx)
    ensures build(x).Some? ==> Picks(p + [x], build, ms + [build(x).value], idx + [|p|])
    ensures build(x).None? ==> Picks(p + [x], build, ms, idx)
  {
    var r := p + [x];
    assert forall i :: 0 <= i < |p| ==> r[i] == p[i];
    if build(x).Some? {
      var ms' := ms + [build(x).value];
      var idx' := idx + [|p|];
      assert forall j :: 0 <= j < |idx'| ==> idx'[j] < |r| && build(r[idx'[j]]) == Some(ms'[j]) by {
        forall j | 0 <= j < |idx'| ensures idx'[j] < |r| && build(r[idx'[j]]) == Some(ms'[j]) {
          if j < |idx| {
            assert idx'[j] == idx[j] && ms'[j] == ms[j];
          }
        }
      }
      assert forall j, k :: 0 <= j < k < |idx'| ==> idx'[j] < idx'[k] by {
        forall j, k | 0 <= j < k < |idx'| ensures idx'[j] < idx'[k] {
          assert idx'[j] == idx[j];
        }
      }
      forall i | 0 <= i < |r| && build(r[i]).Some? ensures i in idx' {
        if i < |p| {
          assert build(p[i]).Some?;
        }
      }
    } else {
      forall i | 0 <= i < |r| && build(r[i]).Some? ensures i in idx {
        assert i < |p| && build(p[i]).Some?;
      }
    }
  }

  /** Every record that produces a meme contributes it. */
  lemma {:induction false} GatherComplete<R>(records: seq<R>, build: R -> Option<Meme>, i: int)
    requires 0 <= i < |records| && build(records[i]).Some?
    ensures build(records[i]).value in Gather(records, build)
    decreases |records|
  {
    var n := |records| - 1;
    if i < n {
      assert records[..n][i] == records[i];
      GatherComplete(records[..n], build, i);
    }
  }

  /** The cut to the limit: the first `limit` memes when the limit is
      positive and there are more than that, otherwise all of them. */
  function Truncate(ms: seq<Meme>, limit: int64): (r: seq<Meme>)
    ensures IsPrefix(r, ms)
    ensures limit > 0 ==> |r| == if |ms| <= limit then |ms| else limit as int
    ensures limit <= 0 ==> r == ms
  {
    if limit > 0 && |ms| > limit as int then ms[..limit] else ms
  }

  /** `all` holds the memes of the records that build one, one each and in
      record order. */
  ghost predicate Gathered<R>(records: seq<R>, build: R -> Option<Meme>, all: seq<Meme>) {
    exists idx: seq<nat> :: Picks(records, build, all, idx)
  }

  /** `out` is what a provider answers for `records`: their gathered memes
      cut to the limit. */
  ghost predicate Harvested<R>(records: seq<R>, build: R -> Option<Meme>, limit: int64, out: seq<Meme>) {
    exists all: seq<Meme> :: Gathered(records, build, all) && out == Truncate(all, limit)
  }

  /** The providers' truncated gather is such an answer. */
  lemma HarvestedGather<R>(records: seq<R>, build: R -> Option<Meme>, limit: int64)
    ensures Harvested(records, build, limit, Truncate(Gather(records, build), limit))
  {
    GatherPicks(records, build);
  }

  /** A meme as the providers build it: the format is detected from the
      accepted URL, no size is known. */
  function MemeAt(url: string, title: string, platform: string): (m: Meme)
    ensures m.url == url && m.title == title && m.platform == platform
    ensures m.format == DetectImageFormat(url) && m.width == 0 && m.height == 0
  {
    Meme(title, url, platform, 0, 0, DetectImageFormat(url))
  }

  /** What every emitted meme of a provider satisfies (Doutub aside, whose
      URL goes through the image proxy). */
  predicate Emitted(m: Meme, platform: string) {
    && m.platform == platform
    && IsValidImageURL(m.url)
    && m.format == DetectImageFormat(m.url)
    && m.title != ""
  }

  /** Truncating the memes of records that each build an emitted meme
      leaves only emitted memes. */
  lemma TruncatedAllEmitted<R>(records: seq<R>, build: R -> Option<Meme>, limit: int64, platform: string)
    requires forall x :: build(x).Some? ==> Emitted(build(x).value, platform)
    ensures forall m :: m in Truncate(Gather(records, build), limit) ==> Emitted(m, platform)
  {
    var all := Gather(records, build);
    var r := Truncate(all, limit);
    forall m | m in r ensures Emitted(m, platform) {
      var k :| 0 <= k < |r| && r[k] == m;
      assert all[k] == m;
      var i :| 0 <= i < |records| && build(records[i]) == Some(m);
    }
  }
}
