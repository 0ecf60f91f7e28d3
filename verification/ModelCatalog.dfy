/** The model catalog: two indexes over the same entries, and pricing attached to them. */
module ModelCatalog {
  import opened Common

  /** Rates; zero means unset. */
  datatype Pricing = Pricing(input: int, output: int, peakInput: int, peakOutput: int, cachedInput: int,
                             cacheWrite: int)

  datatype Model = Model(id: string, provider: string, format: string, maxContext: int, maxOutput: int, ownedBy: string,
                         pricing: Option<Pricing>)

  /** Entries by model id, and model ids by provider (an id is listed once per entry added). */
  datatype Catalog = Catalog(models: map<string, seq<Model>>, providers: map<string, seq<string>>)

  const EMPTY := Catalog(map[], map[])

  function EntriesOf(c: Catalog, id: string): seq<Model> {
    if id in c.models then c.models[id] else []
  }

  function IdsOf(c: Catalog, provider: string): seq<string> {
    if provider in c.providers then c.providers[provider] else []
  }

  /** All entries, whatever the order. */
  function AllModels(c: Catalog): set<Model> {
    set id, m | id in c.models && m in c.models[id] :: m
  }

  /** Both indexes describe the same entries: every entry is filed under its own id, and its provider lists it. */
  ghost predicate Agree(c: Catalog) {
    forall id, m :: id in c.models && m in c.models[id] ==> m.id == id && id in IdsOf(c, m.provider)
  }

  // ----- lookups by provider -----

  function OfProvider(ms: seq<Model>, provider: string): (r: seq<Model>)
    ensures forall m :: m in r <==> m in ms && m.provider == provider
  {
    if ms == [] then []
    else (if ms[0].provider == provider then [ms[0]] else []) + OfProvider(ms[1..], provider)
  }

  function Gather(c: Catalog, ids: seq<string>, provider: string): (r: seq<Model>)
    ensures forall m :: m in r <==> exists id :: id in ids && m in EntriesOf(c, id) && m.provider == provider
  {
    if ids == [] then [] else OfProvider(EntriesOf(c, ids[0]), provider) + Gather(c, ids[1..], provider)
  }

  function ModelsForProvider(c: Catalog, provider: string): seq<Model> {
    Gather(c, IdsOf(c, provider), provider)
  }

  /** Looking a provider up in its index finds exactly the entries a scan of the whole catalog finds. */
  lemma ProviderLookupIsScan(c: Catalog, provider: string, m: Model)
    requires Agree(c)
    ensures m in ModelsForProvider(c, provider) <==> m in AllModels(c) && m.provider == provider
  {
    if m in AllModels(c) && m.provider == provider {
      assert m in EntriesOf(c, m.id) && m.id in IdsOf(c, provider);
    }
  }

  // ----- changing the catalog -----

  function Added(c: Catalog, m: Model): Catalog {
    Catalog(c.models[m.id := EntriesOf(c, m.id) + [m]], c.providers[m.provider := IdsOf(c, m.provider) + [m.id]])
  }

  function KeepModels(ms: seq<Model>, drop: Model -> bool): (r: seq<Model>)
    ensures forall m :: m in r <==> m in ms && !drop(m)
  {
    if ms == [] then [] else (if drop(ms[0]) then [] else [ms[0]]) + KeepModels(ms[1..], drop)
  }

  function KeepIds(ids: seq<string>, live: set<string>): (r: seq<string>)
    ensures forall id :: id in r <==> id in ids && id in live
  {
    if ids == [] then [] else (if ids[0] in live then [ids[0]] else []) + KeepIds(ids[1..], live)
  }

  function RemovedModels(models: map<string, seq<Model>>, drop: Model -> bool): map<string, seq<Model>> {
    map id | id in models && KeepModels(models[id], drop) != [] :: KeepModels(models[id], drop)
  }

  function RemovedIds(providers: map<string, seq<string>>, live: set<string>): map<string, seq<string>> {
    map p | p in providers && KeepIds(providers[p], live) != [] :: KeepIds(providers[p], live)
  }

  function Removed(c: Catalog, drop: Model -> bool): Catalog {
    var models := RemovedModels(c.models, drop);
    Catalog(models, RemovedIds(c.providers, models.Keys))
  }

  /** Adding files the entry in both indexes. */
  lemma AddAgrees(c: Catalog, m: Model)
    requires Agree(c)
    ensures Agree(Added(c, m))
    ensures AllModels(Added(c, m)) == AllModels(c) + {m}
  {
    var d := Added(c, m);
    forall x ensures x in AllModels(d) <==> x in AllModels(c) || x == m {
      if x in AllModels(c) {
        var id :| id in c.models && x in c.models[id];
        assert x in EntriesOf(d, id) && id in d.models;
      }
      if x == m {
        assert x in d.models[m.id];
      }
    }
  }

  lemma RemovedEntries(c: Catalog, drop: Model -> bool, id: string)
    ensures forall m :: m in EntriesOf(Removed(c, drop), id) <==> m in EntriesOf(c, id) && !drop(m)
  {
    if id in c.models {
      var kept := KeepModels(c.models[id], drop);
      assert forall m :: m in kept <==> m in c.models[id] && !drop(m);
    }
  }

  lemma RemovedListed(c: Catalog, drop: Model -> bool, p: string, id: string)
    requires id in IdsOf(c, p) && id in RemovedModels(c.models, drop)
    ensures id in IdsOf(Removed(c, drop), p)
  {
    assert id in KeepIds(c.providers[p], RemovedModels(c.models, drop).Keys);
  }

  lemma RemoveKeepsAgreement(c: Catalog, drop: Model -> bool)
    requires Agree(c)
    ensures Agree(Removed(c, drop))
  {
    var d := Removed(c, drop);
    forall id, m | id in d.models && m in d.models[id] ensures m.id == id && id in IdsOf(d, m.provider) {
      RemovedEntries(c, drop, id);
      assert m in EntriesOf(d, id);
      RemovedListed(c, drop, m.provider, id);
    }
  }

  /** Removing takes the matching entries out of both indexes, and nothing else. */
  lemma RemoveAgrees(c: Catalog, drop: Model -> bool)
    requires Agree(c)
    ensures Agree(Removed(c, drop))
    ensures forall m :: m in AllModels(Removed(c, drop)) <==> m in AllModels(c) && !drop(m)
  {
    RemoveKeepsAgreement(c, drop);
    var d := Removed(c, drop);
    forall m ensures m in AllModels(d) <==> m in AllModels(c) && !drop(m) {
      InAllModels(c, m);
      InAllModels(d, m);
      RemovedEntries(c, drop, m.id);
    }
  }

  lemma InAllModels(c: Catalog, m: Model)
    requires Agree(c)
    ensures m in AllModels(c) <==> m in EntriesOf(c, m.id)
  {
  }

  // ----- pricing -----

  function OrElse(a: int, b: int): int {
    if a != 0 then a else b
  }

  /** Fill the dimensions the feed leaves unset from an existing entry. */
  function Fill(p: Pricing, existing: Option<Pricing>): Pricing {
    match existing
    case None => p
    case Some(e) =>
      Pricing(p.input, p.output, OrElse(p.peakInput, e.peakInput), OrElse(p.peakOutput, e.peakOutput),
              OrElse(p.cachedInput, e.cachedInput), OrElse(p.cacheWrite, e.cacheWrite))
  }

  /** The feed is carried from entry to entry: what one entry fills in, later entries see. */
  function AttachTo(ms: seq<Model>, p: Pricing): (r: seq<Model>)
    ensures |r| == |ms|
  {
    if ms == [] then []
    else
      var filled := Fill(p, ms[0].pricing);
      [ms[0].(pricing := Some(filled))] + AttachTo(ms[1..], filled)
  }

  function Attached(c: Catalog, feed: map<string, Pricing>): Catalog {
    c.(models := map id | id in c.models :: if id in feed then AttachTo(c.models[id], feed[id]) else c.models[id])
  }

  lemma {:induction false} AttachKeepsEntries(ms: seq<Model>, p: Pricing, i: nat)
    requires i < |ms|
    ensures AttachTo(ms, p)[i] == ms[i].(pricing := AttachTo(ms, p)[i].pricing)
  {
    if i > 0 {
      AttachKeepsEntries(ms[1..], Fill(p, ms[0].pricing), i - 1);
    }
  }

  lemma AttachAgrees(c: Catalog, feed: map<string, Pricing>)
    requires Agree(c)
    ensures Agree(Attached(c, feed))
  {
    var d := Attached(c, feed);
    forall id, m | id in d.models && m in d.models[id] ensures m.id == id && id in IdsOf(d, m.provider) {
      var i :| 0 <= i < |d.models[id]| && d.models[id][i] == m;
      if id in feed {
        AttachKeepsEntries(c.models[id], feed[id], i);
      }
      assert c.models[id][i] in c.models[id];
    }
  }

  /** The rates that are carried from entry to entry. */
  datatype Carried = PeakInput | PeakOutput | CachedInput | CacheWrite

  function Rate(p: Pricing, d: Carried): int {
    match d
    case PeakInput => p.peakInput
    case PeakOutput => p.peakOutput
    case CachedInput => p.cachedInput
    case CacheWrite => p.cacheWrite
  }

  /** A carried rate of an entry; zero if it has none. */
  function RateOf(m: Model, d: Carried): int {
    if m.pricing.Some? then Rate(m.pricing.value, d) else 0
  }

  /** The first such rate the first `n` entries set, if some entry does. */
  function FirstRate(ms: seq<Model>, n: nat, d: Carried): int
    requires n <= |ms|
  {
    if n == 0 then 0 else OrElse(FirstRate(ms, n - 1, d), RateOf(ms[n - 1], d))
  }

  lemma {:induction false} FirstRateShift(ms: seq<Model>, n: nat, d: Carried)
    requires 1 <= n <= |ms|
    ensures FirstRate(ms, n, d) == OrElse(RateOf(ms[0], d), FirstRate(ms[1..], n - 1, d))
  {
    if n > 1 {
      FirstRateShift(ms, n - 1, d);
    }
  }

  /** What entry `i` ends up with: the feed's rate, else the first one set among entries 0 to `i`. */
  lemma {:induction false} AttachedPeak(ms: seq<Model>, p: Pricing, i: nat, d: Carried)
    requires i < |ms|
    ensures RateOf(AttachTo(ms, p)[i], d) == OrElse(Rate(p, d), FirstRate(ms, i + 1, d))
  {
    FirstRateShift(ms, i + 1, d);
    if i > 0 {
      AttachedPeak(ms[1..], Fill(p, ms[0].pricing), i - 1, d);
    }
  }

  /** The baseline rates are always the feed's. */
  lemma {:induction false} AttachedBaseline(ms: seq<Model>, p: Pricing, i: nat)
    requires i < |ms|
    ensures var a := AttachTo(ms, p)[i].pricing; a.Some? && a.value.input == p.input && a.value.output == p.output
  {
    if i > 0 {
      AttachedBaseline(ms[1..], Fill(p, ms[0].pricing), i - 1);
    }
  }

  /** An entry keeps its own rate under a feed without one exactly when no earlier entry of the model has set a
      different one first. */
  lemma KeepsOwnPeakIff(ms: seq<Model>, p: Pricing, i: nat, d: Carried)
    requires i < |ms| && Rate(p, d) == 0
    ensures RateOf(AttachTo(ms, p)[i], d) == RateOf(ms[i], d)
      <==> FirstRate(ms, i, d) == 0 || FirstRate(ms, i, d) == RateOf(ms[i], d)
  {
    AttachedPeak(ms, p, i, d);
  }

  /** So the rate of one provider's entry can leak to another's. */
  lemma PeakLeaks()
    ensures var a := Model("m", "a", "", 0, 0, "", Some(Pricing(1, 1, 7, 0, 0, 0)));
      var b := Model("m", "b", "", 0, 0, "", None);
      RateOf(AttachTo([a, b], Pricing(2, 2, 0, 0, 0, 0))[1], PeakInput) == 7 && RateOf(b, PeakInput) == 0
  {
    var a := Model("m", "a", "", 0, 0, "", Some(Pricing(1, 1, 7, 0, 0, 0)));
    var b := Model("m", "b", "", 0, 0, "", None);
    AttachedPeak([a, b], Pricing(2, 2, 0, 0, 0, 0), 1, PeakInput);
    assert FirstRate([a, b], 1, PeakInput) == 7;
  }

  // ----- the catalog object -----

  class ModelCatalog {
    var models: map<string, seq<Model>>
    var providers: map<string, seq<string>>

    function State(): Catalog
      reads this
    {
      Catalog(models, providers)
    }

    constructor ()
      ensures State() == EMPTY
    {
      models, providers := map[], map[];
    }

    method Add(m: Model)
      modifies this
      ensures State() == Added(old(State()), m)
    {
      models := models[m.id := (if m.id in models then models[m.id] else []) + [m]];
      providers := providers[m.provider := (if m.provider in providers then providers[m.provider] else []) + [m.id]];
    }

    method GetModelsForProvider(provider: string) returns (r: seq<Model>)
      ensures r == ModelsForProvider(State(), provider)
    {
      r := [];
      if provider !in providers {
        return;
      }
      var ids := providers[provider];
      var i := 0;
      while i < |ids|
        invariant 0 <= i <= |ids|
        invariant r + Gather(State(), ids[i..], provider) == Gather(State(), ids, provider)
      {
        GatherStep(State(), r, ids, i, provider);
        if ids[i] in models {
          r := r + OfProvider(models[ids[i]], provider);
        }
        i := i + 1;
      }
    }

    /** Both maps are filtered in an arbitrary order; the result does not depend on it. */
    method Remove(drop: Model -> bool)
      modifies this
      ensures State() == Removed(old(State()), drop)
    {
      models := FilterModels(models, drop);
      providers := FilterIds(providers, models.Keys);
    }

    method AttachPricing(feed: map<string, Pricing>)
      modifies this`models
      ensures State() == Attached(old(State()), feed)
    {
      var pending := feed.Keys;
      while pending != {}
        invariant pending <= feed.Keys
        invariant models.Keys == old(models).Keys
        invariant forall id :: id in models ==>
          models[id] == if id in feed && id !in pending then AttachTo(old(models)[id], feed[id]) else old(models)[id]
        decreases pending
      {
        var id :| id in pending;
        pending := pending - {id};
        if id in models {
          var attached := AttachEntries(models[id], feed[id]);
          models := models[id := attached];
        }
      }
      assert models == Attached(old(State()), feed).models;
    }
  }

  lemma GatherStep(c: Catalog, r: seq<Model>, ids: seq<string>, i: nat, provider: string)
    requires i < |ids|
    ensures r + Gather(c, ids[i..], provider)
      == (if ids[i] in c.models then r + OfProvider(c.models[ids[i]], provider) else r)
        + Gather(c, ids[i + 1..], provider)
  {
    var found, rest := OfProvider(EntriesOf(c, ids[i]), provider), Gather(c, ids[i + 1..], provider);
    assert ids[i..][0] == ids[i] && ids[i..][1..] == ids[i + 1..];
    assert Gather(c, ids[i..], provider) == found + rest;
    Regroup(r, found, rest);
    if ids[i] !in c.models {
      assert found == [];
      assert r + [] == r;
    }
  }

  lemma Regroup(a: seq<Model>, b: seq<Model>, c: seq<Model>)
    ensures a + (b + c) == a + b + c
  {
  }

  method AttachEntries(ms: seq<Model>, feed: Pricing) returns (r: seq<Model>)
    ensures r == AttachTo(ms, feed)
  {
    r := ms;
    var p := feed;
    var i := 0;
    while i < |r|
      invariant 0 <= i <= |r| == |ms|
      invariant r[i..] == ms[i..]
      invariant r[..i] + AttachTo(ms[i..], p) == AttachTo(ms, feed)
    {
      assert ms[i..][0] == r[i] && ms[i..][1..] == ms[i + 1..];
      p := Fill(p, r[i].pricing);
      var m := r[i].(pricing := Some(p));
      assert r[..i] + ([m] + AttachTo(ms[i + 1..], p)) == r[..i] + [m] + AttachTo(ms[i + 1..], p);
      r := r[i := m];
      assert r[..i + 1] == r[..i] + [m];
      i := i + 1;
    }
  }

  method FilterModels(models: map<string, seq<Model>>, drop: Model -> bool) returns (r: map<string, seq<Model>>)
    ensures r == RemovedModels(models, drop)
  {
    r := models;
    var pending := models.Keys;
    while pending != {}
      invariant pending <= models.Keys
      invariant forall id :: id in r <==> id in models && (id in pending || KeepModels(models[id], drop) != [])
      invariant forall id :: id in r ==> r[id] == if id in pending then models[id] else KeepModels(models[id], drop)
      decreases pending
    {
      var id :| id in pending;
      pending := pending - {id};
      var kept := KeepModels(r[id], drop);
      if kept == [] {
        r := r - {id};
      } else {
        r := r[id := kept];
      }
    }
  }

  method FilterIds(providers: map<string, seq<string>>, live: set<string>) returns (r: map<string, seq<string>>)
    ensures r == RemovedIds(providers, live)
  {
    r := providers;
    var pending := providers.Keys;
    while pending != {}
      invariant pending <= providers.Keys
      invariant forall p :: p in r <==> p in providers && (p in pending || KeepIds(providers[p], live) != [])
      invariant forall p :: p in r ==> r[p] == if p in pending then providers[p] else KeepIds(providers[p], live)
      decreases pending
    {
      var p :| p in pending;
      pending := pending - {p};
      var kept := KeepIds(r[p], live);
      if kept == [] {
        r := r - {p};
      } else {
        r := r[p := kept];
      }
    }
  }

  // ----- runs -----

  datatype Change = Add(m: Model) | Remove(drop: Model -> bool) | Attach(feed: map<string, Pricing>)

  function Apply(c: Catalog, changes: seq<Change>): Catalog
    decreases changes
  {
    if changes == [] then c
    else
      var next := match changes[0]
        case Add(m) => Added(c, m)
        case Remove(drop) => Removed(c, drop)
        case Attach(feed) => Attached(c, feed);
      Apply(next, changes[1..])
  }

  /** After any sequence of additions, removals and pricing updates the two indexes agree. */
  lemma {:induction false} ChangesAgree(c: Catalog, changes: seq<Change>)
    requires Agree(c)
    ensures Agree(Apply(c, changes))
    decreases changes
  {
    if changes != [] {
      match changes[0] {
        case Add(m) =>
          AddAgrees(c, m);
          ChangesAgree(Added(c, m), changes[1..]);
        case Remove(drop) =>
          RemoveAgrees(c, drop);
          ChangesAgree(Removed(c, drop), changes[1..]);
        case Attach(feed) =>
          AttachAgrees(c, feed);
          ChangesAgree(Attached(c, feed), changes[1..]);
      }
    }
  }

  /** So after any such sequence, a provider's lookup is a scan. */
  lemma LookupAfterChanges(changes: seq<Change>, provider: string, m: Model)
    ensures m in ModelsForProvider(Apply(EMPTY, changes), provider)
      <==> m in AllModels(Apply(EMPTY, changes)) && m.provider == provider
  {
    ChangesAgree(EMPTY, changes);
    ProviderLookupIsScan(Apply(EMPTY, changes), provider, m);
  }

  // ----- which entries a feed prices -----

  /** A feed prices every entry of the models it lists, with its own baseline rates, and no other entry; nothing else of
      an entry changes. */
  lemma FeedPricesItsModels(c: Catalog, feed: map<string, Pricing>, id: string, i: nat)
    requires i < |EntriesOf(c, id)|
    ensures i < |EntriesOf(Attached(c, feed), id)| == |EntriesOf(c, id)|
    ensures var before, now := EntriesOf(c, id)[i], EntriesOf(Attached(c, feed), id)[i];
      && now == before.(pricing := now.pricing)
      && (id !in feed ==> now == before)
      && (id in feed ==>
            now.pricing.Some? && now.pricing.value.input == feed[id].input
              && now.pricing.value.output == feed[id].output)
  {
    if id in feed {
      AttachKeepsEntries(c.models[id], feed[id], i);
      AttachedBaseline(c.models[id], feed[id], i);
    }
  }

  // ----- no leftovers -----

  /** After a removal no slot is empty, and providers list only ids that still have entries, and all of those they
      listed before. */
  lemma RemoveLeavesNothing(c: Catalog, drop: Model -> bool, p: string, id: string)
    ensures var d := Removed(c, drop);
      && (id in d.models ==> d.models[id] != [])
      && (p in d.providers ==> d.providers[p] != [])
      && (id in IdsOf(d, p) <==> id in IdsOf(c, p) && exists m :: m in EntriesOf(c, id) && !drop(m))
  {
    var d := Removed(c, drop);
    if id in c.models && exists m :: m in EntriesOf(c, id) && !drop(m) {
      var m :| m in EntriesOf(c, id) && !drop(m);
      assert m in KeepModels(c.models[id], drop);
    }
    if id in d.models {
      var m := d.models[id][0];
      assert m in KeepModels(c.models[id], drop);
      assert m in EntriesOf(c, id) && !drop(m);
    }
    if p in c.providers {
      assert id in KeepIds(c.providers[p], d.models.Keys) <==> id in c.providers[p] && id in d.models;
    }
  }
}
