/** The shared data of the search core: memes, options, sources, the
    aggregated result, and the JSON form the result is served in. */
module Types {
  import opened Wrappers
  import opened GoInt

  /** One found image. `width`, `height` and `format` are optional metadata:
      zero / empty means "unknown". */
  datatype Meme = Meme(title: string, url: string, platform: string,
                       width: int64, height: int64, format: string)

  /** `timeout` is a `time.Duration`, in nanoseconds. */
  datatype SearchOptions = SearchOptions(page: int64, limit: int64, timeout: int64)

  const DefaultTimeout: int64 := 10_000_000_000

  function DefaultSearchOptions(): (o: SearchOptions)
    ensures o.page == 1 && o.limit == 20
    ensures o.timeout == 10 * Second
  {
    SearchOptions(1, 20, DefaultTimeout)
  }

  /** Which provider implementation answers a source's `Search`; the Douyin
      provider carries the cookie it was constructed with. */
  datatype Kind = Qudoutu | Doutula | Pdan | Sougou | Doutub | Douyin(cookie: string)

  /** A provider as the registry sees it: the `BaseSource` fields behind the
      `ID`, `Name`, `Description` and `RequiresAuth` accessors, and its kind. */
  datatype Source = Source(id: string, name: string, description: string,
                           requireAuth: bool, kind: Kind)

  /** The aggregated answer of one search. */
  datatype SearchResult = SearchResult(memes: seq<Meme>, sources: seq<string>,
                                       errors: map<string, string>, total: int,
                                       durationMs: int64)

  // ----- JSON form -----

  /** A JSON value. Struct fields keep their declaration order (`JObject`);
      a Go map is written as an object whose key order is not modelled (`JMap`). */
  datatype Json =
    | JNumber(n: int)
    | JString(s: string)
    | JArray(items: seq<Json>)
    | JObject(fields: seq<Field>)
    | JMap(entries: map<string, Json>)

  datatype Field = Field(name: string, value: Json)

  function Names(fs: seq<Field>): (ns: seq<string>)
    ensures |ns| == |fs|
    ensures forall i :: 0 <= i < |fs| ==> ns[i] == fs[i].name
  {
    seq(|fs|, i requires 0 <= i < |fs| => fs[i].name)
  }

  /** The value of the last field called `name`. */
  function FieldValue(fs: seq<Field>, name: string): Option<Json>
  {
    if |fs| == 0 then None
    else if fs[|fs| - 1].name == name then Some(fs[|fs| - 1].value)
    else FieldValue(fs[..|fs| - 1], name)
  }

  /** A string field read back: absent means "", a non-string is a type error. */
  function StringField(fs: seq<Field>, name: string): Option<string>
  {
    match FieldValue(fs, name)
    case None => Some("")
    case Some(JString(s)) => Some(s)
    case Some(_) => None
  }

  /** An integer field read back: absent means 0; it must fit a Go int. */
  function IntField(fs: seq<Field>, name: string): Option<int64>
  {
    match FieldValue(fs, name)
    case None => Some(0)
    case Some(JNumber(n)) => if Min64 <= n <= Max64 then Some(n as int64) else None
    case Some(_) => None
  }

  /** Zero or one field: there exactly when `present` holds. */
  function Optional(present: bool, f: Field): (fs: seq<Field>)
    ensures |fs| <= 1
  {
    if present then [f] else []
  }

  lemma FieldValueAppend(fs: seq<Field>, opt: seq<Field>, name: string)
    requires |opt| <= 1
    ensures FieldValue(fs + opt, name)
            == if |opt| == 1 && opt[0].name == name then Some(opt[0].value) else FieldValue(fs, name)
  {
    if |opt| == 1 {
      assert (fs + opt)[..|fs|] == fs;
    } else {
      assert fs + opt == fs;
    }
  }

  lemma NamesAppend(fs: seq<Field>, opt: seq<Field>)
    ensures Names(fs + opt) == Names(fs) + Names(opt)
  {
  }

  /** What a serialised `Meme` holds under each field name: `title`, `url`
      and `platform` always; `width`, `height` and `format` only when they
      are set (Go's `omitempty`). */
  function MemeField(m: Meme, name: string): Option<Json>
  {
    if name == "title" then Some(JString(m.title))
    else if name == "url" then Some(JString(m.url))
    else if name == "platform" then Some(JString(m.platform))
    else if name == "width" then (if m.width != 0 then Some(JNumber(m.width)) else None)
    else if name == "height" then (if m.height != 0 then Some(JNumber(m.height)) else None)
    else if name == "format" then (if m.format != "" then Some(JString(m.format)) else None)
    else None
  }

  /** The serialised `Meme`, fields in declaration order. */
  function MemeToJson(m: Meme): (j: Json)
    ensures j.JObject?
  {
    JObject([Field("title", JString(m.title)), Field("url", JString(m.url)),
             Field("platform", JString(m.platform))]
            + Optional(m.width != 0, Field("width", JNumber(m.width)))
            + Optional(m.height != 0, Field("height", JNumber(m.height)))
            + Optional(m.format != "", Field("format", JString(m.format))))
  }

  /** The six field names of `Meme` are pairwise different. */
  lemma MemeFieldNamesDistinct()
    ensures "title" != "url" && "title" != "platform" && "title" != "width"
            && "title" != "height" && "title" != "format"
    ensures "url" != "platform" && "url" != "width" && "url" != "height" && "url" != "format"
    ensures "platform" != "width" && "platform" != "height" && "platform" != "format"
    ensures "width" != "height" && "width" != "format" && "height" != "format"
  {
    assert "title"[0] == 't' && "url"[0] == 'u' && "platform"[0] == 'p';
    assert "width"[0] == 'w' && "height"[0] == 'h' && "format"[0] == 'f';
  }

  /** The mandatory fields, looked up by name. */
  lemma {:induction false} MemeBaseFields(m: Meme, name: string)
    ensures var base := [Field("title", JString(m.title)), Field("url", JString(m.url)),
                         Field("platform", JString(m.platform))];
            FieldValue(base, name)
            == if name == "title" then Some(JString(m.title))
               else if name == "url" then Some(JString(m.url))
               else if name == "platform" then Some(JString(m.platform))
               else None
  {
    var a := Field("title", JString(m.title));
    var b := Field("url", JString(m.url));
    var c := Field("platform", JString(m.platform));
    MemeFieldNamesDistinct();
    assert [a] == [] + [a] && [a, b] == [a] + [b] && [a, b, c] == [a, b] + [c];
    FieldValueAppend([], [a], name);
    FieldValueAppend([a], [b], name);
    FieldValueAppend([a, b], [c], name);
  }

  /** The object written for `m` holds exactly the fields `MemeField` lists:
      zero dimensions and an empty format are left out. */
  lemma {:induction false} MemeJsonFields(m: Meme, name: string)
    ensures FieldValue(MemeToJson(m).fields, name) == MemeField(m, name)
  {
    var base := [Field("title", JString(m.title)), Field("url", JString(m.url)),
                 Field("platform", JString(m.platform))];
    var w := Optional(m.width != 0, Field("width", JNumber(m.width)));
    var h := Optional(m.height != 0, Field("height", JNumber(m.height)));
    var f := Optional(m.format != "", Field("format", JString(m.format)));
    assert MemeToJson(m).fields == base + w + h + f;
    MemeFieldNamesDistinct();
    MemeBaseFields(m, name);
    FieldValueAppend(base, w, name);
    FieldValueAppend(base + w, h, name);
    FieldValueAppend(base + w + h, f, name);
  }

  /** Reads a `Meme` back from its JSON object. */
  function MemeFromJson(j: Json): Option<Meme>
  {
    if !j.JObject? then None
    else
      var fs := j.fields;
      match (StringField(fs, "title"), StringField(fs, "url"), StringField(fs, "platform"),
             IntField(fs, "width"), IntField(fs, "height"), StringField(fs, "format"))
      case (Some(t), Some(u), Some(p), Some(w), Some(h), Some(f)) => Some(Meme(t, u, p, w, h, f))
      case _ => None
  }

  /** Omitted fields read back as the zero values they stood for. */
  lemma MemeJsonRoundTrip(m: Meme)
    ensures MemeFromJson(MemeToJson(m)) == Some(m)
  {
    MemeJsonFields(m, "title");
    MemeJsonFields(m, "url");
    MemeJsonFields(m, "platform");
    MemeJsonFields(m, "width");
    MemeJsonFields(m, "height");
    MemeJsonFields(m, "format");
  }

  function MemesToJson(ms: seq<Meme>): (js: seq<Json>)
    ensures |js| == |ms|
  {
    seq(|ms|, i requires 0 <= i < |ms| => MemeToJson(ms[i]))
  }

  function MemesFromJson(js: seq<Json>): Option<seq<Meme>>
  {
    if |js| == 0 then Some([])
    else
      match (MemesFromJson(js[..|js| - 1]), MemeFromJson(js[|js| - 1]))
      case (Some(ms), Some(m)) => Some(ms + [m])
      case _ => None
  }

  function StringsFromJson(js: seq<Json>): Option<seq<string>>
  {
    if |js| == 0 then Some([])
    else
      match (StringsFromJson(js[..|js| - 1]), js[|js| - 1])
      case (Some(ss), JString(s)) => Some(ss + [s])
      case _ => None
  }

  function SourcesToJson(ss: seq<string>): seq<Json>
  {
    seq(|ss|, i requires 0 <= i < |ss| => JString(ss[i]))
  }

  /** The serialised `SearchResult`: fields `memes`, `sources`, `errors`,
      `total` and `duration_ms`, in that order. */
  function SearchResultToJson(r: SearchResult): (j: Json)
    ensures j.JObject?
  {
    JObject([Field("memes", JArray(MemesToJson(r.memes))),
             Field("sources", JArray(SourcesToJson(r.sources))),
             Field("errors", JMap(map k | k in r.errors :: JString(r.errors[k]))),
             Field("total", JNumber(r.total)),
             Field("duration_ms", JNumber(r.durationMs))])
  }

  lemma {:induction false} SearchResultJsonNames(r: SearchResult)
    ensures Names(SearchResultToJson(r).fields) == ["memes", "sources", "errors", "total", "duration_ms"]
  {
  }

  /** Each JSON name of a `SearchResult` holds the matching field. */
  lemma {:induction false} SearchResultJsonFields(r: SearchResult)
    ensures FieldValue(SearchResultToJson(r).fields, "memes") == Some(JArray(MemesToJson(r.memes)))
    ensures FieldValue(SearchResultToJson(r).fields, "sources") == Some(JArray(SourcesToJson(r.sources)))
    ensures FieldValue(SearchResultToJson(r).fields, "errors")
            == Some(JMap(map k | k in r.errors :: JString(r.errors[k])))
    ensures FieldValue(SearchResultToJson(r).fields, "total") == Some(JNumber(r.total))
    ensures FieldValue(SearchResultToJson(r).fields, "duration_ms") == Some(JNumber(r.durationMs))
  {
    var fs := SearchResultToJson(r).fields;
    assert fs == [] + [fs[0]] + [fs[1]] + [fs[2]] + [fs[3]] + [fs[4]];
    forall name | name in ["memes", "sources", "errors", "total", "duration_ms"]
      ensures FieldValue(fs, name)
              == if name == "duration_ms" then Some(fs[4].value)
                 else if name == "total" then Some(fs[3].value)
                 else if name == "errors" then Some(fs[2].value)
                 else if name == "sources" then Some(fs[1].value)
                 else Some(fs[0].value)
    {
      var f1, f2, f3, f4 := fs[..1], fs[..2], fs[..3], fs[..4];
      assert f1 == [] + [fs[0]] && f2 == f1 + [fs[1]] && f3 == f2 + [fs[2]];
      assert f4 == f3 + [fs[3]] && fs == f4 + [fs[4]];
      FieldValueAppend([], [fs[0]], name);
      FieldValueAppend(f1, [fs[1]], name);
      FieldValueAppend(f2, [fs[2]], name);
      FieldValueAppend(f3, [fs[3]], name);
      FieldValueAppend(f4, [fs[4]], name);
    }
  }

  function SearchResultFromJson(j: Json): Option<SearchResult>
  {
    if !j.JObject? then None
    else
      var fs := j.fields;
      match (FieldValue(fs, "memes"), FieldValue(fs, "sources"), FieldValue(fs, "errors"),
             IntField(fs, "total"), IntField(fs, "duration_ms"))
      case (Some(JArray(ms)), Some(JArray(ss)), Some(JMap(es)), Some(t), Some(d)) =>
        if forall k :: k in es ==> es[k].JString? then
          match (MemesFromJson(ms), StringsFromJson(ss))
          case (Some(memes), Some(sources)) =>
            Some(SearchResult(memes, sources, map k | k in es :: es[k].s, t, d))
          case _ => None
        else None
      case _ => None
  }

  lemma {:induction false} MemesJsonRoundTrip(ms: seq<Meme>)
    ensures MemesFromJson(MemesToJson(ms)) == Some(ms)
    decreases |ms|
  {
    if |ms| > 0 {
      var p := ms[..|ms| - 1];
      var js := MemesToJson(ms);
      assert js[..|js| - 1] == MemesToJson(p);
      assert js[|js| - 1] == MemeToJson(ms[|ms| - 1]);
      MemesJsonRoundTrip(p);
      MemeJsonRoundTrip(ms[|ms| - 1]);
      assert ms == p + [ms[|ms| - 1]];
    }
  }

  lemma {:induction false} StringsJsonRoundTrip(ss: seq<string>)
    ensures StringsFromJson(SourcesToJson(ss)) == Some(ss)
    decreases |ss|
  {
    if |ss| > 0 {
      var p := ss[..|ss| - 1];
      var js := SourcesToJson(ss);
      assert js[..|js| - 1] == SourcesToJson(p);
      assert js[|js| - 1] == JString(ss[|ss| - 1]);
      StringsJsonRoundTrip(p);
      assert ss == p + [ss[|ss| - 1]];
    }
  }

  /** Serialising a result and reading it back loses nothing (the total is a
      Go int, so it must fit one). */
  lemma SearchResultJsonRoundTrip(r: SearchResult)
    requires Min64 <= r.total <= Max64
    ensures SearchResultFromJson(SearchResultToJson(r)) == Some(r)
  {
    SearchResultJsonFields(r);
    MemesJsonRoundTrip(r.memes);
    StringsJsonRoundTrip(r.sources);
    var es := map k | k in r.errors :: JString(r.errors[k]);
    assert (map k | k in es :: es[k].s) == r.errors;
  }
}
