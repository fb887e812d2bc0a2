/** The three HTML-scraping providers (internal/sources/scrapers.go). The
    page download and the CSS selection are a `fetch` parameter yielding,
    per selected element, the attributes and texts the provider reads. */
module Scrapers {
  import opened Wrappers
  import opened GoInt
  import opened Text
  import opened Seqs
  import opened Types
  import opened Dedup
  import opened Harvest

  // ----- BaseSource accessors -----

  function ID(s: Source): string { s.id }
  function Name(s: Source): string { s.name }
  function Description(s: Source): string { s.description }
  function RequiresAuth(s: Source): bool { s.requireAuth }

  // ----- Qudoutu -----

  function NewQudoutu(): (s: Source)
    ensures s.id == "qudoutu" && s.name == "趣斗图" && !s.requireAuth && s.kind == Qudoutu
  {
    Source("qudoutu", "趣斗图", "从 qudoutu.cn 搜索表情包", false, Qudoutu)
  }

  const QudoutuHost: string := "https://www.qudoutu.cn"
  const QudoutuDefaultTitle: string := "趣斗图"

  /** One `li` element: the `src` of its `a.Link img`, if it has one, and
      the text of its `p`. */
  datatype QudoutuItem = QudoutuItem(src: Option<string>, text: string)

  /** The two candidate selections: `div.item-grid ul li`, and the fallback
      `li` elements that contain an `a.Link`. */
  datatype QudoutuPage = QudoutuPage(grid: seq<QudoutuItem>, fallback: seq<QudoutuItem>)

  /** The grid items, unless there are none. */
  function QudoutuResults(page: QudoutuPage): (r: seq<QudoutuItem>)
    ensures |page.grid| > 0 ==> r == page.grid
    ensures |page.grid| == 0 ==> r == page.fallback
  {
    if |page.grid| == 0 then page.fallback else page.grid
  }

  /** A site-relative path is made absolute on the Qudoutu host. */
  function Absolute(src: string): (u: string)
    ensures HasPrefix(src, "/") ==> u == QudoutuHost + src
    ensures !HasPrefix(src, "/") ==> u == src
  {
    if HasPrefix(src, "/") then QudoutuHost + src else src
  }

  function QudoutuMeme(platform: string, item: QudoutuItem): (r: Option<Meme>)
    ensures r.Some? <==> item.src.Some? && Accept(Absolute(item.src.value)).Some?
    ensures r.Some? ==> Emitted(r.value, platform)
                        && r.value.url == NormalizeURL(Absolute(item.src.value))
                        && r.value.title == OrDefault(TrimSpace(item.text), QudoutuDefaultTitle)
  {
    match item.src
    case None => None
    case Some(src) =>
      match Accept(Absolute(src))
      case None => None
      case Some(u) => Some(MemeAt(u, OrDefault(TrimSpace(item.text), QudoutuDefaultTitle), platform))
  }

  /** `QudoutuSource.Search`; the page number is not used. */
  function QudoutuSearch(platform: string, fetch: string -> Result<QudoutuPage, string>,
                         keyword: string, opts: SearchOptions): (r: Result<seq<Meme>, string>)
    ensures fetch(keyword).Failure? ==> r == Failure(fetch(keyword).error)
    ensures r.Success? ==> forall m :: m in r.value ==> Emitted(m, platform)
    ensures r.Success? && opts.limit > 0 ==> |r.value| <= opts.limit as int
  {
    match fetch(keyword)
    case Failure(e) => Failure(e)
    case Success(page) =>
      var build := item => QudoutuMeme(platform, item);
      TruncatedAllEmitted(QudoutuResults(page), build, opts.limit, platform);
      Success(Truncate(Gather(QudoutuResults(page), build), opts.limit))
  }

  /** Qudoutu's answer is the truncation of the memes of the usable items
      of the selection it searched, in document order. */
  lemma QudoutuSearchContents(platform: string, fetch: string -> Result<QudoutuPage, string>,
                              keyword: string, opts: SearchOptions, page: QudoutuPage)
    requires fetch(keyword) == Success(page)
    ensures var r := QudoutuSearch(platform, fetch, keyword, opts);
            r.Success? && Harvested(QudoutuResults(page), item => QudoutuMeme(platform, item), opts.limit, r.value)
  {
    HarvestedGather(QudoutuResults(page), item => QudoutuMeme(platform, item), opts.limit);
  }

  /** A relative `src` is served from the Qudoutu host over https, even
      when it embeds an `http://` that normalisation rewrites. */
  lemma QudoutuRelativeSrc(src: string)
    requires HasPrefix(src, "/")
    ensures HasPrefix(NormalizeURL(Absolute(src)), QudoutuHost + "/")
  {
    var u := Absolute(src);
    var p := QudoutuHost + "/";
    AbsoluteStartsWithHost(src);
    match IndexOf(u, "http://")
    case None =>
      AbsoluteKeepsHost(src);
    case Some(i) =>
      HttpAfterHost(src, i);
      assert p[0] == 'h' && p[|p| - 1] == '/';
      ReplacedKeepsPrefix(u, i, p);
      assert NormalizeURL(u) == TrimSpace(u[..i] + "https://" + u[i + 7..]);
  }

  /** Rewriting an `http://` that starts after a prefix of `u` keeps the
      prefix, and trimming keeps it too when it has no white space at
      either end. */
  lemma ReplacedKeepsPrefix(u: string, i: nat, p: string)
    requires i + 7 <= |u|
    requires 0 < |p| <= i && u[..|p|] == p && !IsSpace(p[0]) && !IsSpace(p[|p| - 1])
    ensures HasPrefix(TrimSpace(u[..i] + "https://" + u[i + 7..]), p)
  {
    var a := u[..i];
    PrefixOfPrefix(u, i, |p|);
    PrefixOfConcat(a, "https://", |p|);
    PrefixOfConcat(a + "https://", u[i + 7..], |p|);
    TrimKeepsPrefix(a + "https://" + u[i + 7..], p);
  }

  lemma PrefixOfConcat(a: string, b: string, n: nat)
    requires n <= |a|
    ensures (a + b)[..n] == a[..n]
  {
  }

  lemma PrefixOfPrefix(u: string, i: nat, n: nat)
    requires n <= i <= |u|
    ensures u[..i][..n] == u[..n]
  {
  }

  /** The absolute form of a relative `src` starts with the host and a slash. */
  lemma AbsoluteStartsWithHost(src: string)
    requires HasPrefix(src, "/")
    ensures |QudoutuHost + "/"| <= |Absolute(src)| && Absolute(src)[..|QudoutuHost + "/"|] == QudoutuHost + "/"
  {
    var u := Absolute(src);
    assert u == QudoutuHost + src && src[..1] == "/";
    assert u[..|QudoutuHost| + 1] == QudoutuHost + src[..1];
  }

  /** In the absolute form of a relative `src`, an `http://` can only start
      after the host and its slash. */
  lemma HttpAfterHost(src: string, i: int)
    requires HasPrefix(src, "/")
    requires OccursAt(Absolute(src), "http://", i)
    ensures i > |QudoutuHost|
  {
    var u := Absolute(src);
    var n := |QudoutuHost|;
    assert u[..n] == QudoutuHost && u[n] == src[0] == '/';
    assert forall j :: 1 <= j < n ==> QudoutuHost[j] != 'h';
    forall k | 0 <= k <= n && k + 7 <= |u| ensures !OccursAt(u, "http://", k) {
      if k == 0 {
        assert u[k..k + 7][4] == u[4] == 's';
      } else {
        assert u[k..k + 7][0] == u[k] != 'h';
      }
    }
  }

  /** Trimming a host-relative URL keeps the host and the leading slash. */
  lemma AbsoluteKeepsHost(src: string)
    requires HasPrefix(src, "/")
    ensures HasPrefix(TrimSpace(Absolute(src)), QudoutuHost + "/")
  {
    var p := QudoutuHost + "/";
    AbsoluteStartsWithHost(src);
    assert p[0] == 'h' && p[|p| - 1] == '/';
    TrimKeepsPrefix(Absolute(src), p);
  }

  lemma AbsoluteHasNoHttp(src: string)
    requires HasPrefix(src, "/")
    requires forall k :: !OccursAt(src, "http://", k)
    ensures forall k :: !OccursAt(Absolute(src), "http://", k)
  {
    var u := Absolute(src);
    var n := |QudoutuHost|;
    assert u[..n] == QudoutuHost && u[n..] == src;
    assert forall j :: 1 <= j < n ==> QudoutuHost[j] != 'h';
    forall k ensures !OccursAt(u, "http://", k) {
      if 0 <= k && k + 7 <= |u| {
        if k == 0 {
          assert u[k..k + 7][4] == u[4] == 's';
        } else if k < n {
          assert u[k..k + 7][0] == u[k] == QudoutuHost[k];
        } else {
          assert u[k..k + 7] == src[k - n..k - n + 7];
          assert !OccursAt(src, "http://", k - n);
        }
      }
    }
  }

  // ----- Doutula -----

  function NewDoutula(): (s: Source)
    ensures s.id == "doutula" && s.name == "斗图啦" && !s.requireAuth && s.kind == Doutula
  {
    Source("doutula", "斗图啦", "从 doutupk.com 搜索表情包", false, Doutula)
  }

  const DoutulaDefaultTitle: string := "斗图啦"

  /** One `a.col-xs-6.col-md-2` element: the `data-original` of its
      `img.image_dtb`, if present, and the text of its `p`. */
  datatype DoutulaItem = DoutulaItem(dataOriginal: Option<string>, text: string)

  function DoutulaMeme(platform: string, item: DoutulaItem): (r: Option<Meme>)
    ensures r.Some? <==> item.dataOriginal.Some? && Accept(item.dataOriginal.value).Some?
    ensures r.Some? ==> Emitted(r.value, platform)
                        && r.value.url == NormalizeURL(item.dataOriginal.value)
                        && r.value.title == OrDefault(TrimSpace(item.text), DoutulaDefaultTitle)
  {
    match item.dataOriginal
    case None => None
    case Some(src) =>
      match Accept(src)
      case None => None
      case Some(u) => Some(MemeAt(u, OrDefault(TrimSpace(item.text), DoutulaDefaultTitle), platform))
  }

  /** `DoutulaSource.Search`; the page number is not used. */
  function DoutulaSearch(platform: string, fetch: string -> Result<seq<DoutulaItem>, string>,
                         keyword: string, opts: SearchOptions): (r: Result<seq<Meme>, string>)
    ensures fetch(keyword).Failure? ==> r == Failure(fetch(keyword).error)
    ensures r.Success? ==> forall m :: m in r.value ==> Emitted(m, platform)
    ensures r.Success? && opts.limit > 0 ==> |r.value| <= opts.limit as int
  {
    match fetch(keyword)
    case Failure(e) => Failure(e)
    case Success(items) =>
      var build := item => DoutulaMeme(platform, item);
      TruncatedAllEmitted(items, build, opts.limit, platform);
      Success(Truncate(Gather(items, build), opts.limit))
  }

  /** Doutula's answer is the truncation of the memes of the usable
      elements, in document order. */
  lemma DoutulaSearchContents(platform: string, fetch: string -> Result<seq<DoutulaItem>, string>,
                              keyword: string, opts: SearchOptions, items: seq<DoutulaItem>)
    requires fetch(keyword) == Success(items)
    ensures var r := DoutulaSearch(platform, fetch, keyword, opts);
            r.Success? && Harvested(items, item => DoutulaMeme(platform, item), opts.limit, r.value)
  {
    HarvestedGather(items, item => DoutulaMeme(platform, item), opts.limit);
  }

  // ----- Pdan -----

  function NewPdan(): (s: Source)
    ensures s.id == "pdan" && s.name == "胖哒" && !s.requireAuth && s.kind == Pdan
  {
    Source("pdan", "胖哒", "从 pdan.com.cn 搜索表情包", false, Pdan)
  }

  const PdanDefaultTitle: string := "胖哒"

  /** One `a.imageLink.image.loading` element; an absent attribute reads
      as "" (goquery's `AttrOr`). */
  datatype PdanItem = PdanItem(title: string, alt: string, spanText: string, dataSrc: string, src: string)

  /** The title: the `title` attribute, else the image's `alt`, else the
      trimmed `span.bg` text, else the default. */
  function PdanTitle(item: PdanItem): (t: string)
    ensures t == FirstNonEmpty([item.title, item.alt, TrimSpace(item.spanText), PdanDefaultTitle])
    ensures t != ""
  {
    var span := TrimSpace(item.spanText);
    var cands := [item.title, item.alt, span, PdanDefaultTitle];
    var t := item.title;
    var t := if t == "" then item.alt else t;
    var t := if t == "" then span else t;
    var t := if t == "" then PdanDefaultTitle else t;
    assert t == FirstNonEmpty(cands) by {
      if item.title != "" {
        FirstNonEmptyAt(cands, 0);
      } else if item.alt != "" {
        FirstNonEmptyAt(cands, 1);
      } else if span != "" {
        FirstNonEmptyAt(cands, 2);
      } else {
        FirstNonEmptyAt(cands, 3);
      }
    }
    t
  }

  /** The image URL: `data-src`, else `src`. */
  function PdanURL(item: PdanItem): (u: string)
    ensures u == FirstNonEmpty([item.dataSrc, item.src])
  {
    var u := if item.dataSrc == "" then item.src else item.dataSrc;
    assert u == FirstNonEmpty([item.dataSrc, item.src]) by {
      if item.dataSrc != "" {
        FirstNonEmptyAt([item.dataSrc, item.src], 0);
      } else if item.src != "" {
        FirstNonEmptyAt([item.dataSrc, item.src], 1);
      }
    }
    u
  }

  function PdanMeme(platform: string, item: PdanItem): (r: Option<Meme>)
    ensures r.Some? <==> Accept(PdanURL(item)).Some?
    ensures r.Some? ==> Emitted(r.value, platform)
                        && r.value.url == NormalizeURL(PdanURL(item))
                        && r.value.title == PdanTitle(item)
  {
    match Accept(PdanURL(item))
    case None => None
    case Some(u) => Some(MemeAt(u, PdanTitle(item), platform))
  }

  /** `PdanSource.Search`; the page number is not used. */
  function PdanSearch(platform: string, fetch: string -> Result<seq<PdanItem>, string>,
                      keyword: string, opts: SearchOptions): (r: Result<seq<Meme>, string>)
    ensures fetch(keyword).Failure? ==> r == Failure(fetch(keyword).error)
    ensures r.Success? ==> forall m :: m in r.value ==> Emitted(m, platform)
    ensures r.Success? && opts.limit > 0 ==> |r.value| <= opts.limit as int
  {
    match fetch(keyword)
    case Failure(e) => Failure(e)
    case Success(items) =>
      var build := item => PdanMeme(platform, item);
      TruncatedAllEmitted(items, build, opts.limit, platform);
      Success(Truncate(Gather(items, build), opts.limit))
  }

  /** Pdan's answer is the truncation of the memes of the usable
      elements, in document order. */
  lemma PdanSearchContents(platform: string, fetch: string -> Result<seq<PdanItem>, string>,
                           keyword: string, opts: SearchOptions, items: seq<PdanItem>)
    requires fetch(keyword) == Success(items)
    ensures var r := PdanSearch(platform, fetch, keyword, opts);
            r.Success? && Harvested(items, item => PdanMeme(platform, item), opts.limit, r.value)
  {
    HarvestedGather(items, item => PdanMeme(platform, item), opts.limit);
  }

  /** An element with neither `data-src` nor `src` produces nothing. */
  lemma PdanSkipsImageless(platform: string, item: PdanItem)
    requires item.dataSrc == "" && item.src == ""
    ensures PdanMeme(platform, item).None?
  {
  }

  /** The scrapers ignore the page number. */
  lemma ScrapersIgnorePage(platform: string, keyword: string, o1: SearchOptions, o2: SearchOptions,
                           fq: string -> Result<QudoutuPage, string>,
                           fd: string -> Result<seq<DoutulaItem>, string>,
                           fp: string -> Result<seq<PdanItem>, string>)
    requires o1.limit == o2.limit
    ensures QudoutuSearch(platform, fq, keyword, o1) == QudoutuSearch(platform, fq, keyword, o2)
    ensures DoutulaSearch(platform, fd, keyword, o1) == DoutulaSearch(platform, fd, keyword, o2)
    ensures PdanSearch(platform, fp, keyword, o1) == PdanSearch(platform, fp, keyword, o2)
  {
  }
}
