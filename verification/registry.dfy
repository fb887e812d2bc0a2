/** The source registry and the aggregation of one search over several
    sources (internal/core/registry.go).

    The concurrent fan-out is modelled by its observable effect: each source
    is asked once, and the answers reach the collector in some completion
    order. A `Runtime` value fixes everything the program does not control:
    the order in which map iteration lists the sources, the completion order,
    what each provider call answers, and the elapsed wall-clock time. */
module Registry {
  import opened Wrappers
  import opened GoInt
  import opened Seqs
  import opened Types
  import opened Dedup

  /** The registry's `sources` map, keyed by source ID. */
  type SourceTable = map<string, Source>

  /** Every entry is filed under its own ID, as `Register` files it. */
  predicate WellFormed(reg: SourceTable) {
    forall id :: id in reg ==> reg[id].id == id
  }

  /** `NewRegistry`: no sources. */
  const Empty: SourceTable := map[]

  /** `Register`: files `s` under its ID, replacing any source with that ID. */
  function Register(reg: SourceTable, s: Source): (r: SourceTable)
    ensures s.id in r && r[s.id] == s
    ensures r.Keys == reg.Keys + {s.id}
    ensures forall id :: id in reg && id != s.id ==> r[id] == reg[id]
    ensures WellFormed(reg) ==> WellFormed(r)
  {
    reg[s.id := s]
  }

  /** `Get`: the source filed under `id`, if any. */
  function Get(reg: SourceTable, id: string): (r: Option<Source>)
    ensures r.Some? <==> id in reg
    ensures r.Some? ==> r.value == reg[id]
  {
    if id in reg then Some(reg[id]) else None
  }

  /** Registering a second source with the same ID: the last write wins. */
  lemma RegisterLastWins(reg: SourceTable, a: Source, b: Source)
    requires a.id == b.id
    ensures Register(Register(reg, a), b) == Register(reg, b)
  {
  }

  /** What `Get` sees after a `Register`. */
  lemma GetAfterRegister(reg: SourceTable, s: Source, id: string)
    ensures Get(Register(reg, s), id) == if id == s.id then Some(s) else Get(reg, id)
  {
  }

  function IdsOf(ss: seq<Source>): (ids: seq<string>)
    ensures |ids| == |ss|
    ensures forall i :: 0 <= i < |ss| ==> ids[i] == ss[i].id
  {
    seq(|ss|, i requires 0 <= i < |ss| => ss[i].id)
  }

  /** `ListIDs`: every ID once, in the (unspecified) order map iteration
      yields them. */
  method ListIDs(reg: SourceTable) returns (ids: seq<string>)
    ensures IsEnumeration(ids, reg.Keys)
    ensures |ids| == |reg|
  {
    ids := [];
    var rest := reg.Keys;
    while rest != {}
      invariant rest <= reg.Keys
      invariant forall i :: 0 <= i < |ids| ==> ids[i] in reg.Keys && ids[i] !in rest
      invariant forall k :: k in reg.Keys ==> k in rest || k in ids
      invariant Distinct(ids)
      invariant |ids| + |rest| == |reg.Keys|
      decreases |rest|
    {
      var id :| id in rest;
      ids := ids + [id];
      rest := rest - {id};
    }
  }

  /** `List`: every source once, in the order map iteration yields them. */
  method List(reg: SourceTable) returns (sources: seq<Source>)
    ensures |sources| == |reg|
    ensures forall i :: 0 <= i < |sources| ==> sources[i] in reg.Values
    ensures WellFormed(reg) ==>
              IsEnumeration(IdsOf(sources), reg.Keys)
              && forall i :: 0 <= i < |sources| ==> reg[sources[i].id] == sources[i]
  {
    var ids := ListIDs(reg);
    sources := seq(|ids|, i requires 0 <= i < |ids| => reg[ids[i]]);
    if WellFormed(reg) {
      assert IdsOf(sources) == ids;
    }
  }

  // ----- one search over many sources -----

  /** The per-source deadline: `opts.timeout`, unless that is exactly zero. */
  function EffectiveTimeout(t: int64): (r: int64)
    ensures t != 0 ==> r == t
    ensures t == 0 ==> r == DefaultTimeout && r == 10 * Second
  {
    if t == 0 then DefaultTimeout else t
  }

  /** The zero-timeout fallback is the default options' timeout; a negative
      timeout is passed through as it is. */
  lemma TimeoutFallbackIsDefault(t: int64)
    ensures EffectiveTimeout(0) == DefaultSearchOptions().timeout
    ensures t < 0 ==> EffectiveTimeout(t) < 0
  {
  }

  /** One provider call: which source, what was asked, under which deadline. */
  datatype Call = Call(source: Source, keyword: string, opts: SearchOptions, timeout: int64)

  /** What reaches the collector from one task: the source ID and either
      the memes found or an error message. */
  datatype Outcome = Outcome(sourceID: string, result: Result<seq<Meme>, string>)

  /** The effects outside the program's control. `listing` is the order in
      which `List` hands out the sources, `order[i]` is the task whose answer
      arrives `i`-th, `respond` is what a provider call answers (timeouts
      included), `elapsedMs` the measured duration. */
  datatype Runtime = Runtime(listing: seq<string>, order: seq<nat>,
                             respond: Call -> Result<seq<Meme>, string>,
                             elapsedMs: int64)

  /** A unit of work started by the fan-out loop. */
  datatype Task = Run(call: Call) | Missing(id: string)

  function CallFor(s: Source, keyword: string, opts: SearchOptions): Call {
    Call(s, keyword, opts, EffectiveTimeout(opts.timeout))
  }

  function Perform(t: Task, respond: Call -> Result<seq<Meme>, string>): (o: Outcome)
    ensures t.Run? ==> o == Outcome(t.call.source.id, respond(t.call))
    ensures t.Missing? ==> o == Outcome(t.id, Failure(ErrSourceNotFound))
  {
    match t
    case Run(c) => Outcome(c.source.id, respond(c))
    case Missing(id) => Outcome(id, Failure(ErrSourceNotFound))
  }

  /** The outcomes in the order they arrive. */
  function Arrivals(tasks: seq<Task>, order: seq<nat>, respond: Call -> Result<seq<Meme>, string>): (outs: seq<Outcome>)
    requires IsPermutation(order, |tasks|)
    ensures |outs| == |tasks|
    ensures forall i :: 0 <= i < |outs| ==> outs[i] == Perform(tasks[order[i]], respond)
  {
    seq(|order|, i requires 0 <= i < |order| => Perform(tasks[order[i]], respond))
  }

  /** The collector's state: memes so far, successful sources, errors. */
  datatype Tally = Tally(memes: seq<Meme>, sources: seq<string>, errors: map<string, string>)

  /** The memes one outcome contributes: its answer when it succeeded. */
  function MemesOf(o: Outcome): seq<Meme> {
    if o.result.Success? then o.result.value else []
  }

  /** The ID one outcome contributes to `sources`: its own when it succeeded. */
  function SourceOf(o: Outcome): seq<string> {
    if o.result.Success? then [o.sourceID] else []
  }

  /** The memes of the successful outcomes, concatenated in arrival order. */
  function SuccessMemes(outs: seq<Outcome>): seq<Meme>
    decreases |outs|
  {
    if |outs| == 0 then [] else MemesOf(outs[0]) + SuccessMemes(outs[1..])
  }

  /** The IDs of the successful outcomes, in arrival order. */
  function SuccessIDs(outs: seq<Outcome>): seq<string>
    decreases |outs|
  {
    if |outs| == 0 then [] else SourceOf(outs[0]) + SuccessIDs(outs[1..])
  }

  /** One more arrival extends both lists by its own contribution. */
  lemma {:induction false} SuccessSnoc(p: seq<Outcome>, o: Outcome)
    ensures SuccessMemes(p + [o]) == SuccessMemes(p) + MemesOf(o)
    ensures SuccessIDs(p + [o]) == SuccessIDs(p) + SourceOf(o)
    decreases |p|
  {
    if |p| == 0 {
      assert p + [o] == [o];
      assert [o][1..] == [];
    } else {
      assert (p + [o])[0] == p[0];
      assert (p + [o])[1..] == p[1..] + [o];
      SuccessSnoc(p[1..], o);
    }
  }

  /** The collecting loop over the arrivals: an error records its message
      under the source ID; a success appends the ID and the memes. So the
      memes are those of the successes in arrival order, and so are the
      IDs listed as successful. */
  function Collect(outs: seq<Outcome>): (t: Tally)
    ensures t.memes == SuccessMemes(outs)
    ensures t.sources == SuccessIDs(outs)
    decreases |outs|
  {
    if |outs| == 0 then Tally([], [], map[])
    else
      var n := |outs| - 1;
      var t := Collect(outs[..n]);
      var o := outs[n];
      assert outs == outs[..n] + [o];
      SuccessSnoc(outs[..n], o);
      match o.result
      case Failure(e) => t.(errors := t.errors[o.sourceID := e])
      case Success(ms) => Tally(t.memes + ms, t.sources + [o.sourceID], t.errors)
  }

  predicate FailedAt(outs: seq<Outcome>, i: int, id: string)
    requires 0 <= i < |outs|
  {
    outs[i].sourceID == id && outs[i].result.Failure?
  }

  predicate SucceededAt(outs: seq<Outcome>, i: int, id: string)
    requires 0 <= i < |outs|
  {
    outs[i].sourceID == id && outs[i].result.Success?
  }

  /** An ID has an error entry iff one of its outcomes failed. */
  lemma {:induction false} CollectErrorKeys(outs: seq<Outcome>, id: string)
    ensures id in Collect(outs).errors <==> exists i :: 0 <= i < |outs| && FailedAt(outs, i, id)
    decreases |outs|
  {
    if |outs| > 0 {
      var n := |outs| - 1;
      var p := outs[..n];
      CollectErrorKeys(p, id);
      CollectErrorsLast(outs);
      if !FailedAt(outs, n, id) {
        ErrorKeysExtend(outs, p, id);
      }
    }
  }

  /** The error map after the last arrival. */
  lemma CollectErrorsLast(outs: seq<Outcome>)
    requires |outs| > 0
    ensures var o := outs[|outs| - 1];
            var e := Collect(outs[..|outs| - 1]).errors;
            Collect(outs).errors == if o.result.Failure? then e[o.sourceID := o.result.error] else e
  {
  }

  /** Failures of `id` among all arrivals but a last one that is not a
      failure of `id` are its failures among all arrivals. */
  lemma ErrorKeysExtend(outs: seq<Outcome>, p: seq<Outcome>, id: string)
    requires |outs| > 0 && p == outs[..|outs| - 1] && !FailedAt(outs, |outs| - 1, id)
    ensures (exists i :: 0 <= i < |p| && FailedAt(p, i, id)) <==> exists i :: 0 <= i < |outs| && FailedAt(outs, i, id)
  {
    var n := |p|;
    if exists i :: 0 <= i < n && FailedAt(p, i, id) {
      var i :| 0 <= i < n && FailedAt(p, i, id);
      assert FailedAt(outs, i, id);
    }
    if exists i :: 0 <= i < |outs| && FailedAt(outs, i, id) {
      var i :| 0 <= i < |outs| && FailedAt(outs, i, id);
      assert FailedAt(p, i, id);
    }
  }

  /** The error entry of an ID holds the message of its last failure to
      arrive. */
  lemma {:induction false} CollectLastError(outs: seq<Outcome>, id: string)
    requires id in Collect(outs).errors
    ensures exists i :: 0 <= i < |outs| && FailedAt(outs, i, id)
                        && outs[i].result.error == Collect(outs).errors[id]
                        && forall j :: i < j < |outs| ==> !FailedAt(outs, j, id)
    decreases |outs|
  {
    var n := |outs| - 1;
    var p := outs[..n];
    var t := Collect(p);
    if FailedAt(outs, n, id) {
      assert Collect(outs).errors == t.errors[id := outs[n].result.error];
      assert FailedAt(outs, n, id) && outs[n].result.error == Collect(outs).errors[id];
    } else {
      assert id in t.errors && Collect(outs).errors[id] == t.errors[id];
      CollectLastError(p, id);
      var i :| 0 <= i < n && FailedAt(p, i, id) && p[i].result.error == t.errors[id]
               && forall j :: i < j < n ==> !FailedAt(p, j, id);
      assert FailedAt(outs, i, id);
      forall j | i < j < |outs| ensures !FailedAt(outs, j, id) {
        if j < n {
          assert !FailedAt(p, j, id);
        }
      }
    }
  }

  /** An ID is listed as successful iff one of its outcomes succeeded. */
  lemma CollectSources(outs: seq<Outcome>, id: string)
    ensures id in Collect(outs).sources <==> exists i :: 0 <= i < |outs| && SucceededAt(outs, i, id)
  {
    SuccessIDsHas(outs, id);
  }

  lemma {:induction false} SuccessIDsHas(outs: seq<Outcome>, id: string)
    ensures id in SuccessIDs(outs) <==> exists i :: 0 <= i < |outs| && SucceededAt(outs, i, id)
    decreases |outs|
  {
    if |outs| > 0 {
      var tl := outs[1..];
      SuccessIDsHas(tl, id);
      assert SuccessIDs(outs) == SourceOf(outs[0]) + SuccessIDs(tl);
      assert id in SourceOf(outs[0]) <==> SucceededAt(outs, 0, id);
      if id in SuccessIDs(tl) {
        var i :| 0 <= i < |tl| && SucceededAt(tl, i, id);
        assert SucceededAt(outs, i + 1, id);
      }
      if exists i :: 0 <= i < |outs| && SucceededAt(outs, i, id) {
        var i :| 0 <= i < |outs| && SucceededAt(outs, i, id);
        if i > 0 {
          assert SucceededAt(tl, i - 1, id);
        }
      }
    }
  }

  /** A meme is collected iff some successful outcome carried it. */
  lemma CollectMemes(outs: seq<Outcome>, m: Meme)
    ensures m in Collect(outs).memes <==>
              exists i :: 0 <= i < |outs| && outs[i].result.Success? && m in outs[i].result.value
  {
    SuccessMemesHas(outs, m);
  }

  lemma {:induction false} SuccessMemesHas(outs: seq<Outcome>, m: Meme)
    ensures m in SuccessMemes(outs) <==>
              exists i :: 0 <= i < |outs| && outs[i].result.Success? && m in outs[i].result.value
    decreases |outs|
  {
    if |outs| > 0 {
      var tl := outs[1..];
      SuccessMemesHas(tl, m);
      assert SuccessMemes(outs) == MemesOf(outs[0]) + SuccessMemes(tl);
      if m in SuccessMemes(tl) {
        var i :| 0 <= i < |tl| && tl[i].result.Success? && m in tl[i].result.value;
        assert outs[i + 1] == tl[i];
      }
      if exists i :: 0 <= i < |outs| && outs[i].result.Success? && m in outs[i].result.value {
        var i :| 0 <= i < |outs| && outs[i].result.Success? && m in outs[i].result.value;
        if i > 0 {
          assert tl[i - 1] == outs[i];
        }
      }
    }
  }

  /** When every outcome of `id` carries the same answer `res`, the result
      attributes `id` by that answer alone, whatever the arrival order. */
  lemma CollectAttribution(outs: seq<Outcome>, id: string, res: Result<seq<Meme>, string>)
    requires exists i :: 0 <= i < |outs| && outs[i].sourceID == id
    requires forall i :: 0 <= i < |outs| && outs[i].sourceID == id ==> outs[i].result == res
    ensures res.Failure? ==> id in Collect(outs).errors && Collect(outs).errors[id] == res.error
                             && id !in Collect(outs).sources
    ensures res.Success? ==> id in Collect(outs).sources && id !in Collect(outs).errors
  {
    CollectErrorKeys(outs, id);
    CollectSources(outs, id);
    var i :| 0 <= i < |outs| && outs[i].sourceID == id;
    if res.Failure? {
      assert FailedAt(outs, i, id);
      CollectLastError(outs, id);
    } else {
      assert SucceededAt(outs, i, id);
    }
  }

  /** The final step: deduplicate and count. */
  function Assemble(t: Tally, md5Hex: string -> string, elapsedMs: int64): (r: SearchResult)
    ensures r.total == |r.memes|
    ensures r.memes == DedupBy(t.memes, URLKeyOf(md5Hex))
    ensures r.sources == t.sources && r.errors == t.errors
  {
    var memes := DedupBy(t.memes, URLKeyOf(md5Hex));
    SearchResult(memes, t.sources, t.errors, |memes|, elapsedMs)
  }

  /** What the runtime must satisfy for `SearchAll`: the listing enumerates
      the registry and every started task is answered exactly once. */
  predicate ValidForAll(reg: SourceTable, rt: Runtime) {
    IsEnumeration(rt.listing, reg.Keys) && IsPermutation(rt.order, |rt.listing|)
  }

  function AllTasks(reg: SourceTable, listing: seq<string>, keyword: string, opts: SearchOptions): (ts: seq<Task>)
    requires forall i :: 0 <= i < |listing| ==> listing[i] in reg
    ensures |ts| == |listing|
    ensures forall i :: 0 <= i < |ts| ==> ts[i] == Run(CallFor(reg[listing[i]], keyword, opts))
  {
    seq(|listing|, i requires 0 <= i < |listing| => Run(CallFor(reg[listing[i]], keyword, opts)))
  }

  /** Registered source `id` answered successfully with `m` among its memes. */
  predicate Found(reg: SourceTable, keyword: string, opts: SearchOptions, rt: Runtime, id: string, m: Meme) {
    id in reg && rt.respond(CallFor(reg[id], keyword, opts)).Success?
    && m in rt.respond(CallFor(reg[id], keyword, opts)).value
  }

  /** `SearchAll`: ask every registered source, collect in completion
      order, deduplicate. An empty registry answers at once. The memes are
      the successful answers concatenated in arrival order with every later
      duplicate key dropped, and `sources` lists the successes in that
      order. */
  function SearchAll(reg: SourceTable, keyword: string, opts: SearchOptions,
                     rt: Runtime, md5Hex: string -> string): (r: SearchResult)
    requires ValidForAll(reg, rt)
    ensures r.memes == DedupBy(SuccessMemes(AllArrivals(reg, keyword, opts, rt)), URLKeyOf(md5Hex))
    ensures r.sources == SuccessIDs(AllArrivals(reg, keyword, opts, rt))
    ensures r.total == |r.memes|
    ensures r.durationMs == rt.elapsedMs
    ensures forall m :: m in r.memes ==> exists id :: Found(reg, keyword, opts, rt, id, m)
  {
    if |rt.listing| == 0 then
      SearchResult([], [], map[], 0, rt.elapsedMs)
    else
      var outs := Arrivals(AllTasks(reg, rt.listing, keyword, opts), rt.order, rt.respond);
      var t := Collect(outs);
      assert forall m :: m in DedupBy(t.memes, URLKeyOf(md5Hex)) ==> exists id :: Found(reg, keyword, opts, rt, id, m) by {
        forall m | m in DedupBy(t.memes, URLKeyOf(md5Hex))
          ensures exists id :: Found(reg, keyword, opts, rt, id, m)
        {
          DedupSubsequence(t.memes, URLKeyOf(md5Hex));
          SubsequenceBounds(DedupBy(t.memes, URLKeyOf(md5Hex)), t.memes);
          CollectMemes(outs, m);
          var i :| 0 <= i < |outs| && outs[i].result.Success? && m in outs[i].result.value;
          var id := rt.listing[rt.order[i]];
          assert outs[i].result == rt.respond(CallFor(reg[id], keyword, opts));
          assert Found(reg, keyword, opts, rt, id, m);
        }
      }
      Assemble(t, md5Hex, rt.elapsedMs)
  }

  /** The outcomes `SearchAll` collects, in arrival order. */
  function AllArrivals(reg: SourceTable, keyword: string, opts: SearchOptions, rt: Runtime): (outs: seq<Outcome>)
    requires ValidForAll(reg, rt)
    ensures |outs| == |rt.listing|
  {
    Arrivals(AllTasks(reg, rt.listing, keyword, opts), rt.order, rt.respond)
  }

  /** With a well-formed registry, each source's outcome in `SearchAll`
      carries its ID and its own provider answer, and every source has one. */
  lemma AllArrivalsOfSource(reg: SourceTable, keyword: string, opts: SearchOptions, rt: Runtime, id: string)
    requires WellFormed(reg) && ValidForAll(reg, rt) && id in reg
    ensures exists i :: 0 <= i < |rt.listing| && AllArrivals(reg, keyword, opts, rt)[i].sourceID == id
    ensures forall i :: 0 <= i < |rt.listing| && AllArrivals(reg, keyword, opts, rt)[i].sourceID == id
              ==> AllArrivals(reg, keyword, opts, rt)[i].result == rt.respond(CallFor(reg[id], keyword, opts))
  {
    var outs := AllArrivals(reg, keyword, opts, rt);
    var p :| 0 <= p < |rt.listing| && rt.listing[p] == id;
    assert p in rt.order;
    var i :| 0 <= i < |rt.order| && rt.order[i] == p;
    assert outs[i].sourceID == id;
  }

  /** `SearchAll` with no registered source: nothing found, nothing failed. */
  lemma SearchAllEmpty(keyword: string, opts: SearchOptions, rt: Runtime, md5Hex: string -> string)
    requires ValidForAll(Empty, rt)
    ensures var r := SearchAll(Empty, keyword, opts, rt, md5Hex);
            r.memes == [] && r.sources == [] && r.errors == map[] && r.total == 0
  {
    if |rt.listing| > 0 {
      HeadIsMember(rt.listing);
      assert false;
    }
  }

  /** Nothing a source found is lost: each meme a registered, successful
      source returned is represented in `SearchAll`'s result by a meme with
      the same key. */
  lemma SearchAllKeepsEveryKey(reg: SourceTable, keyword: string, opts: SearchOptions, rt: Runtime,
                               md5Hex: string -> string, id: string, m: Meme)
    requires WellFormed(reg) && ValidForAll(reg, rt) && Found(reg, keyword, opts, rt, id, m)
    ensures var r := SearchAll(reg, keyword, opts, rt, md5Hex);
            exists k :: 0 <= k < |r.memes| && ExtractURLKey(md5Hex, r.memes[k].url) == ExtractURLKey(md5Hex, m.url)
  {
    var outs := AllArrivals(reg, keyword, opts, rt);
    AllArrivalsOfSource(reg, keyword, opts, rt, id);
    var i :| 0 <= i < |rt.listing| && outs[i].sourceID == id;
    CollectMemes(outs, m);
    var t := Collect(outs);
    var key := URLKeyOf(md5Hex);
    var j :| 0 <= j < |t.memes| && t.memes[j] == m;
    assert key(m) in KeySet(t.memes, key);
    DedupKeySet(t.memes, key);
    var d := DedupBy(t.memes, key);
    var k :| 0 <= k < |d| && key(d[k]) == key(m);
    assert SearchAll(reg, keyword, opts, rt, md5Hex).memes == d;
  }

  /** Per-source attribution in `SearchAll`, for every completion order: a
      source whose provider fails is reported in `errors` with its message
      and not in `sources`; one that succeeds is in `sources` and not in
      `errors`. */
  lemma SearchAllAttribution(reg: SourceTable, keyword: string, opts: SearchOptions, rt: Runtime,
                             md5Hex: string -> string, id: string)
    requires WellFormed(reg) && ValidForAll(reg, rt) && id in reg
    ensures var r := SearchAll(reg, keyword, opts, rt, md5Hex);
            var res := rt.respond(CallFor(reg[id], keyword, opts));
            && (res.Failure? ==> id in r.errors && r.errors[id] == res.error && id !in r.sources)
            && (res.Success? ==> id in r.sources && id !in r.errors)
  {
    assert |rt.listing| > 0 by {
      assert id in rt.listing;
    }
    AllArrivalsOfSource(reg, keyword, opts, rt, id);
    CollectAttribution(AllArrivals(reg, keyword, opts, rt), id, rt.respond(CallFor(reg[id], keyword, opts)));
  }

  /** Only registered sources are reported in `SearchAll`. */
  lemma SearchAllReportsRegistered(reg: SourceTable, keyword: string, opts: SearchOptions, rt: Runtime,
                                   md5Hex: string -> string, id: string)
    requires WellFormed(reg) && ValidForAll(reg, rt)
    requires id !in reg
    ensures var r := SearchAll(reg, keyword, opts, rt, md5Hex);
            id !in r.errors && id !in r.sources
  {
    if |rt.listing| > 0 {
      var outs := AllArrivals(reg, keyword, opts, rt);
      CollectErrorKeys(outs, id);
      CollectSources(outs, id);
      forall i | 0 <= i < |outs| ensures outs[i].sourceID != id {
        assert outs[i].sourceID == rt.listing[rt.order[i]];
      }
    }
  }

  /** The completion order does not change which sources failed, with
      which message, or which succeeded; only the order of `sources` and
      which duplicate of a meme survives depend on it. */
  lemma SearchAllOrderIndependent(reg: SourceTable, keyword: string, opts: SearchOptions,
                                  rt1: Runtime, rt2: Runtime, md5Hex: string -> string)
    requires WellFormed(reg) && ValidForAll(reg, rt1) && ValidForAll(reg, rt2)
    requires rt1.respond == rt2.respond
    ensures SearchAll(reg, keyword, opts, rt1, md5Hex).errors == SearchAll(reg, keyword, opts, rt2, md5Hex).errors
    ensures forall id :: id in SearchAll(reg, keyword, opts, rt1, md5Hex).sources
                         <==> id in SearchAll(reg, keyword, opts, rt2, md5Hex).sources
  {
    var r1 := SearchAll(reg, keyword, opts, rt1, md5Hex);
    var r2 := SearchAll(reg, keyword, opts, rt2, md5Hex);
    forall id ensures SameVerdict(r1, r2, id) {
      SearchAllSameVerdict(reg, keyword, opts, rt1, rt2, md5Hex, id);
    }
    VerdictsAgree(r1, r2);
  }

  /** Results that agree on every ID have the same errors and the same
      set of successful sources. */
  lemma VerdictsAgree(r1: SearchResult, r2: SearchResult)
    requires forall id :: SameVerdict(r1, r2, id)
    ensures r1.errors == r2.errors
    ensures forall id :: id in r1.sources <==> id in r2.sources
  {
    forall id ensures (id in r1.errors <==> id in r2.errors) && (id in r1.errors ==> r1.errors[id] == r2.errors[id])
                      && (id in r1.sources <==> id in r2.sources)
    {
      assert SameVerdict(r1, r2, id);
    }
  }

  /** Two results agree on `id`: both or neither report it failed, with
      the same message, and both or neither list it as successful. */
  predicate SameVerdict(r1: SearchResult, r2: SearchResult, id: string) {
    && (id in r1.errors <==> id in r2.errors)
    && (id in r1.errors ==> r1.errors[id] == r2.errors[id])
    && (id in r1.sources <==> id in r2.sources)
  }

  /** One source's verdict under two completion orders. */
  lemma SearchAllSameVerdict(reg: SourceTable, keyword: string, opts: SearchOptions,
                             rt1: Runtime, rt2: Runtime, md5Hex: string -> string, id: string)
    requires WellFormed(reg) && ValidForAll(reg, rt1) && ValidForAll(reg, rt2)
    requires rt1.respond == rt2.respond
    ensures SameVerdict(SearchAll(reg, keyword, opts, rt1, md5Hex), SearchAll(reg, keyword, opts, rt2, md5Hex), id)
  {
    if id in reg {
      SearchAllAttribution(reg, keyword, opts, rt1, md5Hex, id);
      SearchAllAttribution(reg, keyword, opts, rt2, md5Hex, id);
    } else {
      SearchAllReportsRegistered(reg, keyword, opts, rt1, md5Hex, id);
      SearchAllReportsRegistered(reg, keyword, opts, rt2, md5Hex, id);
    }
  }

  // ----- searching chosen sources -----

  /** What the runtime must satisfy for `SearchSources`: with no IDs it is
      `SearchAll`'s; otherwise each requested ID's task is answered once. */
  predicate ValidForSources(reg: SourceTable, ids: seq<string>, rt: Runtime) {
    if |ids| == 0 then ValidForAll(reg, rt) else IsPermutation(rt.order, |ids|)
  }

  /** One task per requested ID: a provider call when the ID is registered,
      an immediate "source not found" otherwise. */
  function SourceTasks(reg: SourceTable, ids: seq<string>, keyword: string, opts: SearchOptions): (ts: seq<Task>)
    ensures |ts| == |ids|
    ensures forall i :: 0 <= i < |ids| ==> (ts[i].Run? <==> ids[i] in reg)
    ensures forall i :: 0 <= i < |ids| && ids[i] in reg ==> ts[i] == Run(CallFor(reg[ids[i]], keyword, opts))
    ensures forall i :: 0 <= i < |ids| && ids[i] !in reg ==> ts[i] == Missing(ids[i])
  {
    seq(|ids|, i requires 0 <= i < |ids| =>
      match Get(reg, ids[i])
      case Some(s) => Run(CallFor(s, keyword, opts))
      case None => Missing(ids[i]))
  }

  function SourceArrivals(reg: SourceTable, ids: seq<string>, keyword: string, opts: SearchOptions,
                          rt: Runtime): (outs: seq<Outcome>)
    requires |ids| > 0 && ValidForSources(reg, ids, rt)
    ensures |outs| == |ids|
  {
    Arrivals(SourceTasks(reg, ids, keyword, opts), rt.order, rt.respond)
  }

  /** `SearchSources`: no IDs means `SearchAll`; otherwise ask each
      requested source, reporting unknown IDs as not found, and collect
      and deduplicate as `SearchAll` does. */
  function SearchSources(reg: SourceTable, keyword: string, ids: seq<string>, opts: SearchOptions,
                         rt: Runtime, md5Hex: string -> string): (r: SearchResult)
    requires ValidForSources(reg, ids, rt)
    ensures |ids| == 0 ==> r == SearchAll(reg, keyword, opts, rt, md5Hex)
    ensures |ids| > 0 ==> r.memes == DedupBy(SuccessMemes(SourceArrivals(reg, ids, keyword, opts, rt)), URLKeyOf(md5Hex))
                          && r.sources == SuccessIDs(SourceArrivals(reg, ids, keyword, opts, rt))
    ensures |ids| > 0 ==> forall m :: m in r.memes ==> exists id :: id in ids && Found(reg, keyword, opts, rt, id, m)
    ensures r.total == |r.memes|
    ensures r.durationMs == rt.elapsedMs
    ensures KeysUnique(r.memes, URLKeyOf(md5Hex))
  {
    if |ids| == 0 then
      var r := SearchAll(reg, keyword, opts, rt, md5Hex);
      SearchAllUniqueKeys(reg, keyword, opts, rt, md5Hex);
      r
    else
      var outs := SourceArrivals(reg, ids, keyword, opts, rt);
      var t := Collect(outs);
      DedupKeysUnique(t.memes, URLKeyOf(md5Hex));
      SourceArrivalsFound(reg, ids, keyword, opts, rt, md5Hex);
      Assemble(t, md5Hex, rt.elapsedMs)
  }

  /** Every meme a non-empty `SearchSources` collects came from a requested,
      registered source that answered successfully. */
  lemma SourceArrivalsFound(reg: SourceTable, ids: seq<string>, keyword: string, opts: SearchOptions,
                            rt: Runtime, md5Hex: string -> string)
    requires |ids| > 0 && ValidForSources(reg, ids, rt)
    ensures forall m :: m in DedupBy(Collect(SourceArrivals(reg, ids, keyword, opts, rt)).memes, URLKeyOf(md5Hex))
                        ==> exists id :: id in ids && Found(reg, keyword, opts, rt, id, m)
  {
    var outs := SourceArrivals(reg, ids, keyword, opts, rt);
    var t := Collect(outs);
    var ts := SourceTasks(reg, ids, keyword, opts);
    forall m | m in DedupBy(t.memes, URLKeyOf(md5Hex))
      ensures exists id :: id in ids && Found(reg, keyword, opts, rt, id, m)
    {
      DedupSubsequence(t.memes, URLKeyOf(md5Hex));
      SubsequenceBounds(DedupBy(t.memes, URLKeyOf(md5Hex)), t.memes);
      CollectMemes(outs, m);
      var i :| 0 <= i < |outs| && outs[i].result.Success? && m in outs[i].result.value;
      var q := rt.order[i];
      assert outs[i] == Perform(ts[q], rt.respond);
      var id := ids[q];
      assert id in reg;
      assert Found(reg, keyword, opts, rt, id, m);
    }
  }

  /** Nothing a requested source found is lost: each meme a requested,
      registered, successful source returned is represented in the result
      by a meme with the same key. */
  lemma SearchSourcesKeepsEveryKey(reg: SourceTable, keyword: string, ids: seq<string>, opts: SearchOptions,
                                   rt: Runtime, md5Hex: string -> string, id: string, m: Meme)
    requires WellFormed(reg) && |ids| > 0 && ValidForSources(reg, ids, rt)
    requires id in ids && Found(reg, keyword, opts, rt, id, m)
    ensures var r := SearchSources(reg, keyword, ids, opts, rt, md5Hex);
            exists k :: 0 <= k < |r.memes| && ExtractURLKey(md5Hex, r.memes[k].url) == ExtractURLKey(md5Hex, m.url)
  {
    var outs := SourceArrivals(reg, ids, keyword, opts, rt);
    SourceArrivalsOf(reg, ids, keyword, opts, rt, id);
    var i :| 0 <= i < |ids| && outs[i].sourceID == id;
    CollectMemes(outs, m);
    var t := Collect(outs);
    var key := URLKeyOf(md5Hex);
    var j :| 0 <= j < |t.memes| && t.memes[j] == m;
    assert key(m) in KeySet(t.memes, key);
    DedupKeySet(t.memes, key);
    var d := DedupBy(t.memes, key);
    var k :| 0 <= k < |d| && key(d[k]) == key(m);
    assert SearchSources(reg, keyword, ids, opts, rt, md5Hex).memes == d;
  }

  /** The memes `SearchAll` returns carry pairwise distinct keys. */
  lemma SearchAllUniqueKeys(reg: SourceTable, keyword: string, opts: SearchOptions, rt: Runtime,
                            md5Hex: string -> string)
    requires ValidForAll(reg, rt)
    ensures KeysUnique(SearchAll(reg, keyword, opts, rt, md5Hex).memes, URLKeyOf(md5Hex))
  {
    if |rt.listing| > 0 {
      DedupKeysUnique(Collect(AllArrivals(reg, keyword, opts, rt)).memes, URLKeyOf(md5Hex));
    }
  }

  /** The outcomes of a requested ID: one per request, each carrying the ID
      and either that source's answer or "source not found". */
  lemma SourceArrivalsOf(reg: SourceTable, ids: seq<string>, keyword: string, opts: SearchOptions,
                         rt: Runtime, id: string)
    requires WellFormed(reg) && |ids| > 0 && ValidForSources(reg, ids, rt) && id in ids
    ensures exists i :: 0 <= i < |ids| && SourceArrivals(reg, ids, keyword, opts, rt)[i].sourceID == id
    ensures forall i :: 0 <= i < |ids| && SourceArrivals(reg, ids, keyword, opts, rt)[i].sourceID == id
              ==> SourceArrivals(reg, ids, keyword, opts, rt)[i].result
                  == if id in reg then rt.respond(CallFor(reg[id], keyword, opts)) else Failure(ErrSourceNotFound)
  {
    var outs := SourceArrivals(reg, ids, keyword, opts, rt);
    var p :| 0 <= p < |ids| && ids[p] == id;
    assert p in rt.order;
    var i :| 0 <= i < |rt.order| && rt.order[i] == p;
    assert outs[i].sourceID == id;
    forall j | 0 <= j < |ids| && outs[j].sourceID == id
      ensures outs[j].result == if id in reg then rt.respond(CallFor(reg[id], keyword, opts)) else Failure(ErrSourceNotFound)
    {
      var q := rt.order[j];
      if ids[q] in reg {
        assert outs[j].sourceID == ids[q];
      }
    }
  }

  /** A requested ID that is not registered is reported as "source not
      found" and never listed as successful. */
  lemma SearchSourcesMissing(reg: SourceTable, keyword: string, ids: seq<string>, opts: SearchOptions,
                             rt: Runtime, md5Hex: string -> string, id: string)
    requires WellFormed(reg) && |ids| > 0 && ValidForSources(reg, ids, rt)
    requires id in ids && id !in reg
    ensures var r := SearchSources(reg, keyword, ids, opts, rt, md5Hex);
            id in r.errors && r.errors[id] == ErrSourceNotFound && id !in r.sources
  {
    SourceArrivalsOf(reg, ids, keyword, opts, rt, id);
    CollectAttribution(SourceArrivals(reg, ids, keyword, opts, rt), id, Failure(ErrSourceNotFound));
  }

  /** A requested ID that is registered is attributed by its own provider's
      answer alone, whatever else was requested and in whatever order the
      answers arrive. */
  lemma SearchSourcesPresent(reg: SourceTable, keyword: string, ids: seq<string>, opts: SearchOptions,
                             rt: Runtime, md5Hex: string -> string, id: string)
    requires WellFormed(reg) && |ids| > 0 && ValidForSources(reg, ids, rt)
    requires id in ids && id in reg
    ensures var r := SearchSources(reg, keyword, ids, opts, rt, md5Hex);
            var res := rt.respond(CallFor(reg[id], keyword, opts));
            && (res.Failure? ==> id in r.errors && r.errors[id] == res.error && id !in r.sources)
            && (res.Success? ==> id in r.sources && id !in r.errors)
  {
    SourceArrivalsOf(reg, ids, keyword, opts, rt, id);
    CollectAttribution(SourceArrivals(reg, ids, keyword, opts, rt), id, rt.respond(CallFor(reg[id], keyword, opts)));
  }

  /** Only requested IDs are reported by a non-empty `SearchSources`. */
  lemma SearchSourcesReportsRequested(reg: SourceTable, keyword: string, ids: seq<string>, opts: SearchOptions,
                                      rt: Runtime, md5Hex: string -> string, id: string)
    requires WellFormed(reg) && |ids| > 0 && ValidForSources(reg, ids, rt)
    requires id !in ids
    ensures var r := SearchSources(reg, keyword, ids, opts, rt, md5Hex);
            id !in r.errors && id !in r.sources
  {
    var outs := SourceArrivals(reg, ids, keyword, opts, rt);
    CollectErrorKeys(outs, id);
    CollectSources(outs, id);
    forall i | 0 <= i < |outs| ensures outs[i].sourceID != id {
      assert outs[i].sourceID == ids[rt.order[i]];
    }
    var r := SearchSources(reg, keyword, ids, opts, rt, md5Hex);
    assert r.errors == Collect(outs).errors && r.sources == Collect(outs).sources;
  }
}
