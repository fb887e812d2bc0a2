/** The command-line front end (cmd/cli/main.go): what it does with its
    flags, how `-s` becomes a list of source IDs, and how a long URL is
    shortened for display. */
module Cli {
  import opened Wrappers
  import opened GoInt
  import opened Text
  import opened Types
  import opened Registry
  import opened Tools

  /** The parsed flags: `-k`, `-s`, `-l`, `-p`, `-t` (seconds), `-list`,
      `-json` and `-v`. */
  datatype Flags = Flags(keyword: string, sourceList: string, limit: int64, page: int64,
                         timeoutSeconds: int64, list: bool, json: bool, verbose: bool)

  /** The values the flags take when not given. */
  const DefaultFlags: Flags := Flags("", "", 10, 1, 15, false, false, false)

  /** What a run of the CLI does. */
  datatype Action =
    | ListSources(json: bool)
    | MissingKeyword
    | Search(keyword: string, ids: seq<string>, opts: SearchOptions)

  /** The exit status the CLI ends with after an action. */
  function ExitCode(a: Action): int {
    if a.MissingKeyword? then 1 else 0
  }

  /** `-s`: nothing when empty, otherwise the comma-separated pieces, each
      with surrounding white space trimmed. */
  function ParseSourceIDs(s: string): (ids: seq<string>)
    ensures s == "" ==> ids == []
    ensures s != "" ==> |ids| == multiset(s)[','] + 1
    ensures s != "" ==> forall i :: 0 <= i < |ids| ==> ids[i] == TrimSpace(Split(s, ',')[i])
    ensures forall i :: 0 <= i < |ids| ==> ',' !in ids[i] && TrimSpace(ids[i]) == ids[i]
  {
    if s == "" then []
    else
      var parts := Split(s, ',');
      var ids := seq(|parts|, i requires 0 <= i < |parts| => TrimSpace(parts[i]));
      assert forall i :: 0 <= i < |ids| ==> ',' !in ids[i] && TrimSpace(ids[i]) == ids[i] by {
        forall i | 0 <= i < |ids| ensures ',' !in ids[i] && TrimSpace(ids[i]) == ids[i] {
          TrimSpaceIdempotent(parts[i]);
          TrimSliceAvoids(parts[i], ',');
        }
      }
      ids
  }

  /** Trimming keeps only characters of the original. */
  lemma TrimSliceAvoids(s: string, c: char)
    requires c !in s
    ensures c !in TrimSpace(s)
  {
    var r := TrimSpace(s);
    var i :| TrimmedAt(s, r, i);
    forall k | 0 <= k < |r| ensures r[k] != c {
      assert r[k] == s[i + k];
    }
  }

  /** A string that trimming leaves alone. */
  predicate Trimmed(s: string) {
    s != "" && !IsSpace(s[0]) && !IsSpace(s[|s| - 1])
  }

  lemma TrimmedIsFixed(s: string)
    requires Trimmed(s)
    ensures TrimSpace(s) == s
  {
    TrimKeepsPrefix(s, s);
  }

  /** Writing non-empty, trimmed, comma-free IDs as `-s a,b,c` gives back
      exactly those IDs. */
  lemma {:induction false} ParseJoinedIDs(ids: seq<string>)
    requires |ids| >= 1
    requires forall i :: 0 <= i < |ids| ==> Trimmed(ids[i]) && ',' !in ids[i]
    ensures ParseSourceIDs(Join(ids, ',')) == ids
  {
    var s := Join(ids, ',');
    assert s != "" by { JoinKeepsFirst(ids, ','); }
    SplitJoin(ids, ',');
    var got := ParseSourceIDs(s);
    forall i | 0 <= i < |ids| ensures got[i] == ids[i] {
      TrimmedIsFixed(ids[i]);
    }
  }

  /** A join starts with its first part. */
  lemma JoinKeepsFirst(parts: seq<string>, sep: char)
    requires |parts| >= 1
    ensures |parts[0]| <= |Join(parts, sep)| && Join(parts, sep)[..|parts[0]|] == parts[0]
  {
    if |parts| > 1 {
      var rest := Join(parts[1..], sep);
      assert Join(parts, sep) == parts[0] + ([sep] + rest);
    }
  }

  /** The search options: page and limit as given, `-t` seconds as a
      `time.Duration` (nanoseconds), whose multiplication wraps around in
      64 bits. */
  function CliOptions(f: Flags): (o: SearchOptions)
    ensures o.page == f.page && o.limit == f.limit
    ensures Min64 <= f.timeoutSeconds * Second <= Max64 ==> o.timeout == f.timeoutSeconds * Second
    ensures (f.timeoutSeconds * Second - o.timeout) % Modulus64 == 0
  {
    SearchOptions(f.page, f.limit, Wrap64(f.timeoutSeconds * Second))
  }

  /** `-t 0` does not mean "no time at all": the registry's ten-second
      default applies; any other in-range `-t` is used as given. */
  lemma CliTimeoutReachesRegistry(f: Flags)
    ensures f.timeoutSeconds == 0 ==> EffectiveTimeout(CliOptions(f).timeout) == 10 * Second
    ensures f.timeoutSeconds != 0 && Min64 <= f.timeoutSeconds * Second <= Max64 ==>
              EffectiveTimeout(CliOptions(f).timeout) == f.timeoutSeconds * Second
  {
  }

  /** The default flags search with a fifteen-second deadline. */
  lemma DefaultFlagsTimeout()
    ensures CliOptions(DefaultFlags).timeout == 15 * Second
    ensures CliOptions(DefaultFlags).page == 1 && CliOptions(DefaultFlags).limit == 10
  {
  }

  /** `main`: `-list` wins over everything; then an empty keyword stops the
      run with status 1; otherwise the search runs. */
  function Plan(f: Flags): (a: Action)
    ensures f.list ==> a == ListSources(f.json)
    ensures !f.list && f.keyword == "" ==> a == MissingKeyword && ExitCode(a) == 1
    ensures a.Search? <==> !f.list && f.keyword != ""
    ensures a.Search? ==> a.keyword == f.keyword && a.ids == ParseSourceIDs(f.sourceList)
                          && a.opts == CliOptions(f) && ExitCode(a) == 0
  {
    if f.list then ListSources(f.json)
    else if f.keyword == "" then MissingKeyword
    else Search(f.keyword, ParseSourceIDs(f.sourceList), CliOptions(f))
  }

  /** No search is ever planned without a keyword, and `-list` never
      searches, whatever the other flags say. */
  lemma NoSearchWithoutKeyword(f: Flags)
    ensures f.keyword == "" || f.list ==> !Plan(f).Search?
    ensures !f.list && f.sourceList == "" && f.keyword != "" ==> Plan(f).Search? && Plan(f).ids == []
  {
  }

  /** The search a planned action performs. */
  function RunSearch(reg: SourceTable, a: Action, rt: Runtime, md5Hex: string -> string): (r: SearchResult)
    requires a.Search? && ValidForSources(reg, a.ids, rt)
    ensures |a.ids| == 0 ==> r == SearchAll(reg, a.keyword, a.opts, rt, md5Hex)
    ensures |a.ids| > 0 ==> r == SearchSources(reg, a.keyword, a.ids, a.opts, rt, md5Hex)
  {
    Dispatch(reg, a.keyword, a.ids, a.opts, rt, md5Hex)
  }

  /** An `-s` that names IDs always goes through `SearchSources`, even one
      made only of commas and blanks. */
  lemma SourceListSelectsSearchSources(f: Flags)
    requires !f.list && f.keyword != "" && f.sourceList != ""
    ensures |Plan(f).ids| >= 1
  {
  }

  /** The longest URL shown whole, in bytes. */
  const DisplayWidth: nat := 60

  /** `printPretty`'s URL shortening on the bytes of the URL: at most 60
      bytes pass unchanged; longer ones keep their first 57 bytes, which may
      cut a multi-byte character, followed by "...". */
  function DisplayURL(url: string): (b: seq<byte>)
    ensures |Utf8(url)| <= DisplayWidth ==> b == Utf8(url)
    ensures |Utf8(url)| > DisplayWidth ==> |b| == DisplayWidth && b[..57] == Utf8(url)[..57] && b[57..] == [46, 46, 46]
  {
    var bs := Utf8(url);
    if |bs| > DisplayWidth then bs[..57] + [46, 46, 46] else bs
  }

  /** A displayed URL never takes more than 60 bytes, and a shortened one
      takes exactly 60. */
  lemma DisplayFits(url: string)
    ensures |DisplayURL(url)| <= DisplayWidth
    ensures |Utf8(url)| > DisplayWidth ==> |DisplayURL(url)| == DisplayWidth
  {
  }

  /** For an ASCII URL the display is again text: the URL's first 57
      characters and "...". */
  lemma DisplayAsciiURL(url: string)
    requires IsAscii(url) && |url| > DisplayWidth
    ensures DisplayURL(url) == Utf8(url[..57] + "...")
  {
    var t := url[..57] + "...";
    assert IsAscii(t) by {
      forall i | 0 <= i < |t| ensures t[i] as int < 0x80 {
        if i < 57 { assert t[i] == url[i]; }
      }
    }
    var d := DisplayURL(url);
    var u := Utf8(t);
    assert |d| == |u|;
    forall i | 0 <= i < |d| ensures d[i] == u[i] {
      if i < 57 {
        assert d[i] == Utf8(url)[i];
      } else {
        assert d[i] == d[57..][i - 57];
      }
    }
  }

  /** Shortening is stable: a URL already shown as 60 ASCII characters is
      shown unchanged. */
  lemma DisplayIdempotentAscii(url: string)
    requires IsAscii(url) && |url| > DisplayWidth
    ensures DisplayURL(url[..57] + "...") == DisplayURL(url)
  {
    DisplayAsciiURL(url);
    var t := url[..57] + "...";
    assert IsAscii(t) by {
      forall i | 0 <= i < |t| ensures t[i] as int < 0x80 {
        if i < 57 { assert t[i] == url[i]; }
      }
    }
  }
}
