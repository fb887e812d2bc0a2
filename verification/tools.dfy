/** The `search_meme` MCP tool's handler (internal/tools/tools.go): argument
    check, option defaulting and the choice between the two searches. */
module Tools {
  import opened Wrappers
  import opened GoInt
  import opened Types
  import opened Dedup
  import opened Registry

  /** The decoded arguments of a `search_meme` call. */
  datatype SearchMemeArgs = SearchMemeArgs(keyword: string, sources: seq<string>, page: int64, limit: int64)

  /** The tool error for a missing keyword. */
  const ErrKeywordRequired: string := "keyword 参数不能为空"

  /** The options the handler searches with: the defaults, with page and
      limit taken from the arguments when they are positive. */
  function ToolOptions(args: SearchMemeArgs): (o: SearchOptions)
    ensures args.page > 0 ==> o.page == args.page
    ensures args.page <= 0 ==> o.page == DefaultSearchOptions().page
    ensures args.limit > 0 ==> o.limit == args.limit
    ensures args.limit <= 0 ==> o.limit == DefaultSearchOptions().limit
    ensures o.timeout == DefaultSearchOptions().timeout
  {
    var d := DefaultSearchOptions();
    var withPage := if args.page > 0 then d.(page := args.page) else d;
    if args.limit > 0 then withPage.(limit := args.limit) else withPage
  }

  /** Whatever the arguments, the handler searches a positive page with a
      positive limit and the ten-second deadline. */
  lemma ToolOptionsPositive(args: SearchMemeArgs)
    ensures var o := ToolOptions(args);
            o.page >= 1 && o.limit >= 1 && o.timeout == 10 * Second
            && EffectiveTimeout(o.timeout) == o.timeout
  {
  }

  /** The front ends' dispatch: the listed sources when there are any,
      every registered source otherwise. */
  function Dispatch(reg: SourceTable, keyword: string, ids: seq<string>, opts: SearchOptions,
                    rt: Runtime, md5Hex: string -> string): (r: SearchResult)
    requires ValidForSources(reg, ids, rt)
    ensures |ids| == 0 ==> r == SearchAll(reg, keyword, opts, rt, md5Hex)
    ensures |ids| > 0 ==> r == SearchSources(reg, keyword, ids, opts, rt, md5Hex)
  {
    if |ids| > 0 then SearchSources(reg, keyword, ids, opts, rt, md5Hex)
    else SearchAll(reg, keyword, opts, rt, md5Hex)
  }

  /** Choosing between the two searches changes nothing: `SearchSources`
      already falls back to `SearchAll` on an empty list. */
  lemma DispatchIsSearchSources(reg: SourceTable, keyword: string, ids: seq<string>, opts: SearchOptions,
                                rt: Runtime, md5Hex: string -> string)
    requires ValidForSources(reg, ids, rt)
    ensures Dispatch(reg, keyword, ids, opts, rt, md5Hex) == SearchSources(reg, keyword, ids, opts, rt, md5Hex)
  {
  }

  /** The start of the tool error for arguments that do not decode; the
      decoder's own message follows it. */
  const ArgsErrorPrefix: string := "参数解析失败: "

  /** `HandleSearchMeme`. The JSON round trip of the raw arguments into
      `SearchMemeArgs` is the `decoded` parameter: the decoded arguments,
      or the decoder's error message. Arguments that do not decode are
      refused with that message, an empty keyword is refused next, and
      otherwise the chosen search runs with the defaulted options. */
  function HandleSearchMeme(reg: SourceTable, decoded: Result<SearchMemeArgs, string>, rt: Runtime,
                            md5Hex: string -> string): (r: Result<SearchResult, string>)
    requires decoded.Success? && decoded.value.keyword != "" ==> ValidForSources(reg, decoded.value.sources, rt)
    ensures decoded.Failure? ==> r == Failure(ArgsErrorPrefix + decoded.error)
    ensures decoded.Success? ==> (r.Failure? <==> decoded.value.keyword == "")
    ensures decoded.Success? && r.Failure? ==> r.error == ErrKeywordRequired
    ensures r.Success? ==> decoded.Success?
                           && r.value == SearchSources(reg, decoded.value.keyword, decoded.value.sources,
                                                       ToolOptions(decoded.value), rt, md5Hex)
    ensures r.Success? ==> r.value.total == |r.value.memes|
                           && KeysUnique(r.value.memes, URLKeyOf(md5Hex))
  {
    match decoded
    case Failure(e) => Failure(ArgsErrorPrefix + e)
    case Success(args) =>
      if args.keyword == "" then Failure(ErrKeywordRequired)
      else Success(Dispatch(reg, args.keyword, args.sources, ToolOptions(args), rt, md5Hex))
  }

  /** Once the arguments decode, only the keyword can make the tool fail:
      page, limit and the source list never do. */
  lemma HandleFailsOnlyOnKeyword(reg: SourceTable, args: SearchMemeArgs, rt: Runtime,
                                 md5Hex: string -> string, page: int64, limit: int64, ids: seq<string>)
    requires args.keyword != ""
    requires ValidForSources(reg, ids, rt)
    ensures HandleSearchMeme(reg, Success(args.(page := page, limit := limit, sources := ids)), rt, md5Hex).Success?
  {
  }

  /** The two refusals can be told apart: a decoding error never reads as
      the missing-keyword error. */
  lemma HandleErrorsDistinct(reg: SourceTable, e: string, args: SearchMemeArgs, rt: Runtime,
                             md5Hex: string -> string)
    requires args.keyword == ""
    ensures HandleSearchMeme(reg, Failure(e), rt, md5Hex) != HandleSearchMeme(reg, Success(args), rt, md5Hex)
  {
    assert (ArgsErrorPrefix + e)[0] == '参' && ErrKeywordRequired[0] == 'k';
  }
}
