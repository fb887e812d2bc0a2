/** The three JSON-API providers (internal/sources/api.go). Each provider's
    HTTP exchange and JSON decoding are a `fetch` parameter: given the query
    the provider builds, it yields either the decoded records or the error
    message of whatever failed on the way. */
module Api {
  import opened Wrappers
  import opened GoInt
  import opened Text
  import opened Seqs
  import opened Types
  import opened Dedup
  import opened Harvest

  // ----- Sougou -----

  function NewSougou(): (s: Source)
    ensures s.id == "sougou" && s.name == "搜狗表情" && !s.requireAuth && s.kind == Sougou
  {
    Source("sougou", "搜狗表情", "从搜狗图片搜索表情包 (JSON API)", false, Sougou)
  }

  const SougouPageSize: int64 := 48
  const SougouDefaultTitle: string := "搜狗表情"

  /** One decoded `data.items` entry. */
  datatype SougouItem = SougouItem(locImageLink: string, thumbUrl: string, oriPicUrl: string,
                                   picUrl: string, title: string, width: int64, height: int64)

  /** The query parameters that vary: `query`, `start` and `xml_len`. */
  datatype SougouQuery = SougouQuery(keyword: string, start: int64, pageSize: int64)

  function SougouQueryFor(keyword: string, opts: SearchOptions): (q: SougouQuery)
    ensures q.keyword == keyword && q.pageSize == 48
    ensures q.start == Offset(opts.page, 48)
  {
    SougouQuery(keyword, Offset(opts.page, SougouPageSize as nat), SougouPageSize)
  }

  /** The image link: original picture, else picture page, else CDN link,
      else thumbnail. */
  function SougouURL(item: SougouItem): (u: string)
    ensures u == FirstNonEmpty([item.oriPicUrl, item.picUrl, item.locImageLink, item.thumbUrl])
  {
    var u := item.oriPicUrl;
    var u := if u == "" then item.picUrl else u;
    var u := if u == "" then item.locImageLink else u;
    var u := if u == "" then item.thumbUrl else u;
    assert u == FirstNonEmpty([item.oriPicUrl, item.picUrl, item.locImageLink, item.thumbUrl]) by {
      var cands := [item.oriPicUrl, item.picUrl, item.locImageLink, item.thumbUrl];
      if item.oriPicUrl != "" {
        FirstNonEmptyAt(cands, 0);
      } else if item.picUrl != "" {
        FirstNonEmptyAt(cands, 1);
      } else if item.locImageLink != "" {
        FirstNonEmptyAt(cands, 2);
      } else if item.thumbUrl != "" {
        FirstNonEmptyAt(cands, 3);
      }
    }
    u
  }

  function SougouMeme(platform: string, item: SougouItem): (r: Option<Meme>)
    ensures r.Some? <==> Accept(SougouURL(item)).Some?
    ensures r.Some? ==> Emitted(r.value, platform) && r.value.url == NormalizeURL(SougouURL(item))
                        && r.value.title == OrDefault(item.title, SougouDefaultTitle)
                        && r.value.width == item.width && r.value.height == item.height
  {
    match Accept(SougouURL(item))
    case None => None
    case Some(u) => Some(MemeAt(u, OrDefault(item.title, SougouDefaultTitle), platform).(width := item.width, height := item.height))
  }

  /** `SougouSource.Search`. */
  function SougouSearch(platform: string, fetch: SougouQuery -> Result<seq<SougouItem>, string>,
                        keyword: string, opts: SearchOptions): (r: Result<seq<Meme>, string>)
    ensures fetch(SougouQueryFor(keyword, opts)).Failure? ==> r == Failure(fetch(SougouQueryFor(keyword, opts)).error)
    ensures r.Success? ==> forall m :: m in r.value ==> Emitted(m, platform)
    ensures r.Success? && opts.limit > 0 ==> |r.value| <= opts.limit as int
  {
    match fetch(SougouQueryFor(keyword, opts))
    case Failure(e) => Failure(e)
    case Success(items) =>
      var build := item => SougouMeme(platform, item);
      TruncatedAllEmitted(items, build, opts.limit, platform);
      Success(Truncate(Gather(items, build), opts.limit))
  }

  /** Sougou's answer is the truncation of the memes of all usable items,
      in item order. */
  lemma SougouSearchContents(platform: string, fetch: SougouQuery -> Result<seq<SougouItem>, string>,
                             keyword: string, opts: SearchOptions, items: seq<SougouItem>)
    requires fetch(SougouQueryFor(keyword, opts)) == Success(items)
    ensures var all := Gather(items, item => SougouMeme(platform, item));
            SougouSearch(platform, fetch, keyword, opts) == Success(Truncate(all, opts.limit))
            && IsPrefix(Truncate(all, opts.limit), all)
            && Harvested(items, item => SougouMeme(platform, item), opts.limit, Truncate(all, opts.limit))
            && (opts.limit <= 0 ==> forall i :: 0 <= i < |items| && Accept(SougouURL(items[i])).Some?
                                              ==> SougouMeme(platform, items[i]).value in all)
  {
    var build := item => SougouMeme(platform, item);
    HarvestedGather(items, build, opts.limit);
    forall i | 0 <= i < |items| && Accept(SougouURL(items[i])).Some?
      ensures SougouMeme(platform, items[i]).value in Gather(items, build)
    {
      GatherComplete(items, build, i);
    }
  }

  // ----- Doutub -----

  function NewDoutub(): (s: Source)
    ensures s.id == "doutub" && !s.requireAuth && s.kind == Doutub
  {
    Source("doutub", "表情包API", "从 api.doutub.com 搜索表情包", false, Doutub)
  }

  const DoutubDefaultTitle: string := "Doutub表情"
  const DoutubReferer: string := "https://www.doutub.com/"

  datatype DoutubRow = DoutubRow(id: int64, imgName: string, path: string)
  datatype DoutubResponse = DoutubResponse(code: int64, msg: string, count: int64, rows: seq<DoutubRow>)
  datatype DoutubQuery = DoutubQuery(keyword: string, curPage: int64, pageSize: int64)

  /** The page size asked of the API: 20 by default, at most 50. */
  function DoutubPageSize(limit: int64): (n: int64)
    ensures 1 <= n <= 50
    ensures limit <= 0 ==> n == 20
    ensures limit > 50 ==> n == 50
    ensures 0 < limit <= 50 ==> n == limit
  {
    if limit <= 0 then 20 else if limit > 50 then 50 else limit
  }

  function DoutubQueryFor(keyword: string, opts: SearchOptions): (q: DoutubQuery)
    ensures q.keyword == keyword && q.curPage == ClampPage(opts.page)
    ensures q.pageSize == DoutubPageSize(opts.limit)
  {
    DoutubQuery(keyword, ClampPage(opts.page), DoutubPageSize(opts.limit))
  }

  /** The error reported for a response whose code is not 1. */
  function DoutubCodeError(code: int64, msg: string): string {
    "api returned error code: " + Decimal(code) + ", msg: " + msg
  }

  /** A row becomes a meme when its path, normalised, is a valid image URL;
      the emitted URL is the proxied one, the format that of the unproxied. */
  function DoutubMeme(platform: string, proxy: (string, string) -> string, row: DoutubRow): (r: Option<Meme>)
    ensures r.Some? <==> Accept(row.path).Some?
    ensures r.Some? ==> var u := NormalizeURL(row.path);
                        && r.value.url == proxy(u, DoutubReferer)
                        && r.value.format == DetectImageFormat(u)
                        && r.value.platform == platform
                        && r.value.title == OrDefault(row.imgName, DoutubDefaultTitle)
                        && r.value.title != ""
  {
    match Accept(row.path)
    case None => None
    case Some(u) => Some(MemeAt(u, OrDefault(row.imgName, DoutubDefaultTitle), platform).(url := proxy(u, DoutubReferer)))
  }

  /** `DoutubSource.Search`. The image proxy is a function parameter of the
      URL and the referer. */
  function DoutubSearch(platform: string, fetch: DoutubQuery -> Result<DoutubResponse, string>,
                        proxy: (string, string) -> string,
                        keyword: string, opts: SearchOptions): (r: Result<seq<Meme>, string>)
    ensures fetch(DoutubQueryFor(keyword, opts)).Failure? ==> r == Failure(fetch(DoutubQueryFor(keyword, opts)).error)
    ensures fetch(DoutubQueryFor(keyword, opts)).Success? && fetch(DoutubQueryFor(keyword, opts)).value.code != 1
            ==> r == Failure(DoutubCodeError(fetch(DoutubQueryFor(keyword, opts)).value.code,
                                             fetch(DoutubQueryFor(keyword, opts)).value.msg))
    ensures r.Success? ==> fetch(DoutubQueryFor(keyword, opts)).Success?
                           && fetch(DoutubQueryFor(keyword, opts)).value.code == 1
                           && |r.value| <= |fetch(DoutubQueryFor(keyword, opts)).value.rows|
    ensures r.Success? ==> forall m :: m in r.value ==> m.platform == platform && m.title != ""
    ensures r.Success? ==> forall m :: m in r.value ==>
              exists i :: 0 <= i < |fetch(DoutubQueryFor(keyword, opts)).value.rows|
                          && DoutubMeme(platform, proxy, fetch(DoutubQueryFor(keyword, opts)).value.rows[i]) == Some(m)
  {
    match fetch(DoutubQueryFor(keyword, opts))
    case Failure(e) => Failure(e)
    case Success(resp) =>
      if resp.code != 1 then Failure(DoutubCodeError(resp.code, resp.msg))
      else Success(Gather(resp.rows, row => DoutubMeme(platform, proxy, row)))
  }

  /** Doutub does not truncate: every usable row yields a meme, whatever
      the limit. */
  lemma DoutubKeepsEveryRow(platform: string, fetch: DoutubQuery -> Result<DoutubResponse, string>,
                            proxy: (string, string) -> string, keyword: string, opts: SearchOptions, i: int)
    requires fetch(DoutubQueryFor(keyword, opts)).Success?
    requires fetch(DoutubQueryFor(keyword, opts)).value.code == 1
    requires 0 <= i < |fetch(DoutubQueryFor(keyword, opts)).value.rows|
    requires Accept(fetch(DoutubQueryFor(keyword, opts)).value.rows[i].path).Some?
    ensures var r := DoutubSearch(platform, fetch, proxy, keyword, opts);
            r.Success? && DoutubMeme(platform, proxy, fetch(DoutubQueryFor(keyword, opts)).value.rows[i]).value in r.value
  {
    var rows := fetch(DoutubQueryFor(keyword, opts)).value.rows;
    GatherComplete(rows, row => DoutubMeme(platform, proxy, row), i);
  }

  /** Doutub's answer holds the memes of the usable rows, one each and in
      row order. */
  lemma DoutubSearchContents(platform: string, fetch: DoutubQuery -> Result<DoutubResponse, string>,
                             proxy: (string, string) -> string, keyword: string, opts: SearchOptions,
                             resp: DoutubResponse)
    requires fetch(DoutubQueryFor(keyword, opts)) == Success(resp) && resp.code == 1
    ensures var r := DoutubSearch(platform, fetch, proxy, keyword, opts);
            r.Success? && Gathered(resp.rows, row => DoutubMeme(platform, proxy, row), r.value)
  {
    GatherPicks(resp.rows, row => DoutubMeme(platform, proxy, row));
  }

  // ----- Douyin -----

  function NewDouyin(cookie: string): (s: Source)
    ensures s.id == "douyin" && s.name == "抖音" && s.requireAuth && s.kind == Douyin(cookie)
  {
    Source("douyin", "抖音", "从抖音搜索热门表情包 (需要 Cookie)", true, Douyin(cookie))
  }

  /** `SetCookie`: replaces the cookie and nothing else. */
  function SetCookie(s: Source, cookie: string): (r: Source)
    requires s.kind.Douyin?
    ensures r.kind == Douyin(cookie)
    ensures r.id == s.id && r.name == s.name && r.description == s.description
            && r.requireAuth == s.requireAuth
  {
    s.(kind := Douyin(cookie))
  }

  const DouyinPageSize: int64 := 10
  const DouyinDefaultTitle: string := "抖音表情"
  const ErrNoCookie: string := "douyin source requires cookie configuration"

  /** One decoded `sticker_list` entry: the author's name and the origin URLs. */
  datatype Sticker = Sticker(authorName: string, urlList: seq<string>)
  datatype DouyinQuery = DouyinQuery(keyword: string, cursor: int64, cookie: string)

  function DouyinQueryFor(keyword: string, opts: SearchOptions, cookie: string): (q: DouyinQuery)
    ensures q.keyword == keyword && q.cookie == cookie
    ensures q.cursor == Offset(opts.page, 10)
  {
    DouyinQuery(keyword, Offset(opts.page, DouyinPageSize as nat), cookie)
  }

  function DouyinMeme(platform: string, st: Sticker): (r: Option<Meme>)
    ensures r.Some? <==> |st.urlList| > 0 && Accept(st.urlList[0]).Some?
    ensures r.Some? ==> Emitted(r.value, platform) && r.value.url == NormalizeURL(st.urlList[0])
                        && r.value.title == OrDefault(st.authorName, DouyinDefaultTitle)
  {
    if |st.urlList| == 0 then None
    else
      match Accept(st.urlList[0])
      case None => None
      case Some(u) => Some(MemeAt(u, OrDefault(st.authorName, DouyinDefaultTitle), platform))
  }

  /** `DouyinSource.Search`. */
  function DouyinSearch(platform: string, cookie: string, fetch: DouyinQuery -> Result<seq<Sticker>, string>,
                        keyword: string, opts: SearchOptions): (r: Result<seq<Meme>, string>)
    ensures cookie == "" ==> r == Failure(ErrNoCookie)
    ensures cookie != "" && fetch(DouyinQueryFor(keyword, opts, cookie)).Failure?
            ==> r == Failure(fetch(DouyinQueryFor(keyword, opts, cookie)).error)
    ensures r.Success? ==> forall m :: m in r.value ==> Emitted(m, platform)
    ensures r.Success? && opts.limit > 0 ==> |r.value| <= opts.limit as int
  {
    if cookie == "" then Failure(ErrNoCookie)
    else
      match fetch(DouyinQueryFor(keyword, opts, cookie))
      case Failure(e) => Failure(e)
      case Success(stickers) =>
        var build := st => DouyinMeme(platform, st);
        TruncatedAllEmitted(stickers, build, opts.limit, platform);
        Success(Truncate(Gather(stickers, build), opts.limit))
  }

  /** With a cookie, Douyin's answer is the truncation of the memes of
      the usable stickers, in sticker order. */
  lemma DouyinSearchContents(platform: string, cookie: string, fetch: DouyinQuery -> Result<seq<Sticker>, string>,
                             keyword: string, opts: SearchOptions, stickers: seq<Sticker>)
    requires cookie != "" && fetch(DouyinQueryFor(keyword, opts, cookie)) == Success(stickers)
    ensures var r := DouyinSearch(platform, cookie, fetch, keyword, opts);
            r.Success? && Harvested(stickers, st => DouyinMeme(platform, st), opts.limit, r.value)
  {
    HarvestedGather(stickers, st => DouyinMeme(platform, st), opts.limit);
  }

  /** Without a cookie nothing is fetched: the answer is the same whatever
      the network would have answered. */
  lemma DouyinNoCookieNoRequest(platform: string, f1: DouyinQuery -> Result<seq<Sticker>, string>,
                                f2: DouyinQuery -> Result<seq<Sticker>, string>,
                                keyword: string, opts: SearchOptions)
    ensures DouyinSearch(platform, "", f1, keyword, opts) == DouyinSearch(platform, "", f2, keyword, opts)
  {
  }

  /** Only the first origin URL of a sticker is considered. */
  lemma DouyinUsesFirstURL(platform: string, author: string, first: string, rest: seq<string>)
    requires Accept(first).None?
    ensures DouyinMeme(platform, Sticker(author, [first] + rest)).None?
  {
  }
}
