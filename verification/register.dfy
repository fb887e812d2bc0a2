/** Which providers a fresh registry gets, and the summary the
    `list_sources` tool shows (internal/sources/register.go). */
module Registration {
  import opened Wrappers
  import opened Seqs
  import opened Types
  import opened Registry
  import opened Api
  import opened Scrapers

  /** Provider configuration. */
  datatype Config = Config(douyinCookie: string)

  /** The Douyin cookie, when a configuration with a non-empty one is given. */
  predicate HasCookie(config: Option<Config>) {
    config.Some? && config.value.douyinCookie != ""
  }

  /** The IDs of the built-in providers are pairwise different. */
  lemma BuiltinIDsDistinct()
    ensures "qudoutu" != "doutula" && "qudoutu" != "pdan" && "qudoutu" != "sougou" && "qudoutu" != "douyin"
    ensures "doutula" != "pdan" && "doutula" != "sougou" && "doutula" != "douyin"
    ensures "pdan" != "sougou" && "pdan" != "douyin" && "sougou" != "douyin"
    ensures "doutub" !in {"qudoutu", "doutula", "pdan", "sougou", "douyin"}
  {
    assert "qudoutu"[0] == 'q' && "doutula"[0] == 'd' && "pdan"[0] == 'p' && "sougou"[0] == 's';
    assert "douyin"[0] == 'd' && "doutub"[0] == 'd';
    assert "doutula"[3] == 't' && "douyin"[3] == 'y' && "doutub"[3] == 't';
    assert |"doutula"| == 7 && |"doutub"| == 6;
  }

  /** The IDs of the providers that need no configuration. */
  const FreeIDs: set<string> := {"qudoutu", "doutula", "pdan", "sougou"}

  /** `RegisterAllSources`: the four cookie-free providers always, Douyin
      only with a cookie. */
  function RegisterAllSources(reg: SourceTable, config: Option<Config>): (r: SourceTable)
    ensures HasCookie(config) ==> r.Keys == reg.Keys + FreeIDs + {"douyin"}
    ensures !HasCookie(config) ==> r.Keys == reg.Keys + FreeIDs
    ensures WellFormed(reg) ==> WellFormed(r)
  {
    RegisterFreeContents(reg);
    var r := RegisterFree(reg);
    if HasCookie(config) then Register(r, NewDouyin(config.value.douyinCookie)) else r
  }

  /** The registry after the four cookie-free providers. */
  function RegisterFree(reg: SourceTable): SourceTable {
    Register(Register(Register(Register(reg, NewQudoutu()), NewDoutula()), NewPdan()), NewSougou())
  }

  lemma RegisterFreeContents(reg: SourceTable)
    ensures var r := RegisterFree(reg);
            && r["qudoutu"] == NewQudoutu() && r["doutula"] == NewDoutula()
            && r["pdan"] == NewPdan() && r["sougou"] == NewSougou()
            && r.Keys == reg.Keys + FreeIDs
            && forall id :: id in reg && id !in FreeIDs ==> r[id] == reg[id]
  {
    BuiltinIDsDistinct();
    var r1 := Register(reg, NewQudoutu());
    var r2 := Register(r1, NewDoutula());
    var r3 := Register(r2, NewPdan());
    assert r3["qudoutu"] == NewQudoutu() && r3["doutula"] == NewDoutula() && r3["pdan"] == NewPdan();
  }

  /** Each built-in provider is filed under its ID; other entries stay. */
  lemma RegisteredProviders(reg: SourceTable, config: Option<Config>)
    ensures var r := RegisterAllSources(reg, config);
            && r["qudoutu"] == NewQudoutu() && r["doutula"] == NewDoutula()
            && r["pdan"] == NewPdan() && r["sougou"] == NewSougou()
            && (HasCookie(config) ==> r["douyin"] == NewDouyin(config.value.douyinCookie))
            && (!HasCookie(config) && "douyin" !in reg ==> "douyin" !in r)
            && forall id :: id in reg && id !in FreeIDs && id != "douyin" ==> r[id] == reg[id]
  {
    RegisterFreeContents(reg);
    if HasCookie(config) {
      RegisterDouyinContents(reg, config.value.douyinCookie);
    } else {
      FreeIdsCount();
    }
  }

  /** Douyin, registered last, shadows nothing the free providers filed. */
  lemma RegisterDouyinContents(reg: SourceTable, cookie: string)
    ensures var r := Register(RegisterFree(reg), NewDouyin(cookie));
            && r["qudoutu"] == NewQudoutu() && r["doutula"] == NewDoutula()
            && r["pdan"] == NewPdan() && r["sougou"] == NewSougou()
            && r["douyin"] == NewDouyin(cookie)
            && forall id :: id in reg && id !in FreeIDs && id != "douyin" ==> r[id] == reg[id]
  {
    BuiltinIDsDistinct();
    RegisterFreeContents(reg);
  }

  /** The four cookie-free IDs are four different strings. */
  lemma FreeIdsCount()
    ensures |FreeIDs| == 4 && "doutub" !in FreeIDs && "douyin" !in FreeIDs
    ensures |FreeIDs + {"douyin"}| == 5
  {
    BuiltinIDsDistinct();
    var a: set<string> := {"qudoutu"};
    var b := a + {"doutula"};
    var c := b + {"pdan"};
    assert "doutula" !in a && "pdan" !in b && "sougou" !in c;
    assert |b| == 2 && |c| == 3;
    assert FreeIDs == c + {"sougou"};
  }

  /** On a fresh registry: four sources without a cookie, five with one,
      and never Doutub. */
  lemma FreshRegistration(config: Option<Config>)
    ensures var r := RegisterAllSources(Empty, config);
            && "doutub" !in r
            && ("douyin" in r <==> HasCookie(config))
            && |r| == (if HasCookie(config) then 5 else 4)
            && WellFormed(r)
  {
    FreeIdsCount();
    var r := RegisterAllSources(Empty, config);
    assert Empty.Keys == {};
    assert |r| == |r.Keys|;
  }

  /** What `list_sources` reports about one source. */
  datatype SourceInfo = SourceInfo(id: string, name: string, description: string, requiresAuth: bool)

  function InfoOf(s: Source): (i: SourceInfo)
    ensures i.id == ID(s) && i.name == Name(s) && i.description == Description(s)
            && i.requiresAuth == RequiresAuth(s)
  {
    SourceInfo(s.id, s.name, s.description, s.requireAuth)
  }

  /** `GetAllSourceInfo`: one entry per registered source, copying its
      accessors. */
  method GetAllSourceInfo(reg: SourceTable) returns (infos: seq<SourceInfo>)
    ensures |infos| == |reg|
    ensures forall i :: 0 <= i < |infos| ==> exists s :: s in reg.Values && infos[i] == InfoOf(s)
    ensures WellFormed(reg) ==>
              (forall id :: id in reg ==> exists i :: 0 <= i < |infos| && infos[i] == InfoOf(reg[id]))
              && forall i, j :: 0 <= i < j < |infos| ==> infos[i].id != infos[j].id
  {
    var sources := List(reg);
    infos := [];
    for k := 0 to |sources|
      invariant |infos| == k
      invariant forall i :: 0 <= i < k ==> infos[i] == InfoOf(sources[i])
    {
      infos := infos + [InfoOf(sources[k])];
    }
    forall i | 0 <= i < |infos| ensures exists s :: s in reg.Values && infos[i] == InfoOf(s) {
      assert sources[i] in reg.Values;
    }
    if WellFormed(reg) {
      InfosCoverRegistry(reg, sources, infos);
    }
  }

  /** The summaries of an enumeration of a well-formed registry name every
      source once. */
  lemma InfosCoverRegistry(reg: SourceTable, sources: seq<Source>, infos: seq<SourceInfo>)
    requires WellFormed(reg) && IsEnumeration(IdsOf(sources), reg.Keys)
    requires forall i :: 0 <= i < |sources| ==> reg[sources[i].id] == sources[i]
    requires |infos| == |sources| && forall i :: 0 <= i < |infos| ==> infos[i] == InfoOf(sources[i])
    ensures forall id :: id in reg ==> exists i :: 0 <= i < |infos| && infos[i] == InfoOf(reg[id])
    ensures forall i, j :: 0 <= i < j < |infos| ==> infos[i].id != infos[j].id
  {
    forall id | id in reg ensures exists i :: 0 <= i < |infos| && infos[i] == InfoOf(reg[id]) {
      assert id in IdsOf(sources);
      var i :| 0 <= i < |sources| && IdsOf(sources)[i] == id;
      assert infos[i] == InfoOf(reg[id]);
    }
    forall i, j | 0 <= i < j < |infos| ensures infos[i].id != infos[j].id {
      assert infos[i].id == IdsOf(sources)[i] && infos[j].id == IdsOf(sources)[j];
    }
  }
}
