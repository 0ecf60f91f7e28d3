/** Rebuilding the catalog: static registry, discovered entries and agent overrides, under two filters. */
module CatalogMerge {
  import opened Common
  import opened ModelCatalog

  datatype Static = Static(provider: string, format: string, maxContext: int, maxOutput: int, pricing: Option<Pricing>)

  datatype Override = Override(provider: string, maxContext: int, maxOutput: int)

  /** The compiled allow and non-chat patterns, as predicates on (provider, model). */
  datatype Policy = Policy(allows: (string, string) -> bool, nonChat: (string, string) -> bool)

  datatype Inputs = Inputs(catalog: Catalog, registry: map<string, Static>, overrides: map<string, Override>,
                           policy: Policy)

  predicate Passes(p: Policy, provider: string, id: string) {
    p.allows(provider, id) && !p.nonChat(provider, id)
  }

  /** A pair that is allowed but classified non-chat is reported as dropped. */
  function DropOf(p: Policy, provider: string, id: string): set<(string, string)> {
    if p.allows(provider, id) && p.nonChat(provider, id) then {(provider, id)} else {}
  }

  function FirstNonEmpty(a: string, b: string): string {
    if a != "" then a else b
  }

  function FirstPositive(a: int, b: int, c: int): int {
    if a > 0 then a else if b > 0 then b else if c > 0 then c else 0
  }

  /** What is merged for one model: its entries and the drops reported. */
  datatype Result = Result(entries: seq<Model>, drops: set<(string, string)>)

  /** How a discovered variant is completed from the model's first discovered entry and its static one. */
  datatype Backing = AsIs | Backed(discovered: Model, fixed: Option<Static>, ownPricing: bool)

  function Complete(m: Model, id: string, b: Backing): Model {
    match b
    case AsIs => m
    case Backed(d, s, ownPricing) =>
      Model(id, m.provider, m.format,
        FirstPositive(m.maxContext, d.maxContext, if s.Some? then s.value.maxContext else 0),
        FirstPositive(m.maxOutput, d.maxOutput, if s.Some? then s.value.maxOutput else 0),
        FirstNonEmpty(m.ownedBy, "nenya"),
        if ownPricing && m.pricing.Some? then m.pricing else if s.Some? then s.value.pricing else None)
  }

  /** The discovered entries whose provider is new and passes the filters. */
  function Variants(es: seq<Model>, id: string, seen: set<string>, b: Backing, p: Policy): Result {
    if es == [] then Result([], {})
    else
      var m := es[0];
      if (b.Backed? && m.provider == "") || m.provider in seen then Variants(es[1..], id, seen, b, p)
      else if Passes(p, m.provider, id) then
        var r := Variants(es[1..], id, seen + {m.provider}, b, p);
        Result([Complete(m, id, b)] + r.entries, r.drops)
      else
        var r := Variants(es[1..], id, seen, b, p);
        Result(r.entries, DropOf(p, m.provider, id) + r.drops)
  }

  const NO_MODEL := Model("", "", "", 0, 0, "", None)

  /** The entry for the primary provider, built from the override, the first discovered and the static entry. */
  function Primary(id: string, provider: string, o: Option<Override>, d: Model, s: Option<Static>): Model {
    Model(id, provider,
      FirstNonEmpty(if s.Some? then s.value.format else "", d.format),
      FirstPositive(if o.Some? then o.value.maxContext else 0, d.maxContext, if s.Some? then s.value.maxContext else 0),
      FirstPositive(if o.Some? then o.value.maxOutput else 0, d.maxOutput, if s.Some? then s.value.maxOutput else 0),
      FirstNonEmpty(d.ownedBy, "nenya"),
      if s.Some? then s.value.pricing else None)
  }

  /** The provider of an overridden or static model: the override's, else the static entry's, else that of
      the first discovered entry. */
  function PrimaryProvider(x: Inputs, id: string): string {
    var o := if id in x.overrides then x.overrides[id].provider else "";
    var s := if id in x.registry then x.registry[id].provider else "";
    var d := if EntriesOf(x.catalog, id) != [] then EntriesOf(x.catalog, id)[0].provider else "";
    FirstNonEmpty(o, FirstNonEmpty(s, d))
  }

  predicate HasPrimary(x: Inputs, id: string) {
    id in x.overrides || id in x.registry
  }

  function MergeModel(x: Inputs, id: string): Result {
    var es := EntriesOf(x.catalog, id);
    if !HasPrimary(x, id) then Variants(es, id, {}, AsIs, x.policy)
    else
      var provider := PrimaryProvider(x, id);
      if !Passes(x.policy, provider, id) then Result([], DropOf(x.policy, provider, id))
      else
        var s := if id in x.registry then Some(x.registry[id]) else None;
        var o := if id in x.overrides then Some(x.overrides[id]) else None;
        var d := if es != [] then es[0] else NO_MODEL;
        var rest := Variants(es, id, {provider}, Backed(d, s, o.None?), x.policy);
        Result([Primary(id, provider, o, d, s)] + rest.entries, rest.drops)
  }

  /** The models considered: registry ids and discovered ids. */
  function AllIds(x: Inputs): set<string> {
    x.registry.Keys + set m | m in AllModels(x.catalog) :: m.id
  }

  /** The provider of some discovered entry, not skipped as empty. */
  predicate Offers(es: seq<Model>, b: Backing, provider: string) {
    (exists m | m in es :: m.provider == provider) && !(b.Backed? && provider == "")
  }

  lemma {:induction false} VariantsFacts(es: seq<Model>, id: string, seen: set<string>, b: Backing, p: Policy)
    requires b.AsIs? ==> forall m :: m in es ==> m.id == id
    ensures var r := Variants(es, id, seen, b, p);
      && (forall m :: m in r.entries ==> m.id == id && m.provider !in seen && Passes(p, m.provider, id))
      && (forall i, j :: 0 <= i < j < |r.entries| ==> r.entries[i].provider != r.entries[j].provider)
      && (forall q ::
            (exists m :: m in r.entries && m.provider == q) <==> q !in seen && Passes(p, q, id) && Offers(es, b, q))
      && (forall q, k :: (q, k) in r.drops ==> k == id && p.nonChat(q, k))
    decreases es
  {
    if es != [] {
      var m := es[0];
      var taken := !((b.Backed? && m.provider == "") || m.provider in seen) && Passes(p, m.provider, id);
      var seen' := if taken then seen + {m.provider} else seen;
      VariantsFacts(es[1..], id, seen', b, p);
      assert es == [m] + es[1..];
      var r, rest := Variants(es, id, seen, b, p), Variants(es[1..], id, seen', b, p);
      forall q
        ensures (exists x :: x in r.entries && x.provider == q) <==> q !in seen && Passes(p, q, id) && Offers(es, b, q)
      {
        assert Offers(es, b, q) <==> (q == m.provider && !(b.Backed? && q == "")) || Offers(es[1..], b, q);
        if seen' != seen {
          assert r.entries[0] in r.entries && r.entries[0].provider == m.provider;
          assert forall x :: x in r.entries <==> x == r.entries[0] || x in rest.entries;
        }
      }
    }
  }

  /** Which providers the merged catalog has for a model: a model with a static or overridden entry has its
      primary provider and the other named, passing discovered ones, or nothing at all if the primary does not
      pass; any other model has its passing discovered providers. */
  predicate Expected(x: Inputs, id: string, q: string) {
    var es := EntriesOf(x.catalog, id);
    && Passes(x.policy, q, id)
    && if HasPrimary(x, id)
       then Passes(x.policy, PrimaryProvider(x, id), id)
            && (q == PrimaryProvider(x, id) || (q != "" && exists m | m in es :: m.provider == q))
       else exists m | m in es :: m.provider == q
  }

  /** One entry per provider, both filters passed, exactly the expected providers, and every reported drop absent. */
  ghost predicate MergedWell(x: Inputs, id: string, r: Result) {
    && (forall m :: m in r.entries ==> m.id == id && Passes(x.policy, m.provider, id))
    && (forall i, j :: 0 <= i < j < |r.entries| ==> r.entries[i].provider != r.entries[j].provider)
    && (forall q :: (exists m :: m in r.entries && m.provider == q) <==> Expected(x, id, q))
    && (forall q, k :: (q, k) in r.drops ==> k == id && x.policy.nonChat(q, k))
  }

  lemma MergeModelWell(x: Inputs, id: string)
    requires Agree(x.catalog)
    ensures MergedWell(x, id, MergeModel(x, id))
  {
    if !HasPrimary(x, id) {
      VariantsFacts(EntriesOf(x.catalog, id), id, {}, AsIs, x.policy);
    } else if Passes(x.policy, PrimaryProvider(x, id), id) {
      var es := EntriesOf(x.catalog, id);
      var s := if id in x.registry then Some(x.registry[id]) else None;
      var o := if id in x.overrides then Some(x.overrides[id]) else None;
      var d := if es != [] then es[0] else NO_MODEL;
      PrimaryWell(x, id, Primary(id, PrimaryProvider(x, id), o, d, s), Backed(d, s, o.None?));
    }
  }

  lemma PrimaryWell(x: Inputs, id: string, first: Model, b: Backing)
    requires Agree(x.catalog) && HasPrimary(x, id) && b.Backed?
    requires first.id == id && first.provider == PrimaryProvider(x, id) && Passes(x.policy, first.provider, id)
    ensures var rest := Variants(EntriesOf(x.catalog, id), id, {first.provider}, b, x.policy);
      MergedWell(x, id, Result([first] + rest.entries, rest.drops))
  {
    var es := EntriesOf(x.catalog, id);
    VariantsFacts(es, id, {first.provider}, b, x.policy);
    var rest := Variants(es, id, {first.provider}, b, x.policy).entries;
    DistinctCons(first, rest);
    forall q ensures (exists m :: m in [first] + rest && m.provider == q) <==> Expected(x, id, q) {
      OneMoreProvider(first, rest, q);
    }
  }

  lemma DistinctCons(first: Model, rest: seq<Model>)
    requires forall i, j :: 0 <= i < j < |rest| ==> rest[i].provider != rest[j].provider
    requires forall m :: m in rest ==> m.provider != first.provider
    ensures var all := [first] + rest; forall i, j :: 0 <= i < j < |all| ==> all[i].provider != all[j].provider
  {
    var all := [first] + rest;
    forall i, j | 0 <= i < j < |all| ensures all[i].provider != all[j].provider {
      assert all[j] == rest[j - 1];
      assert rest[j - 1] in rest;
    }
  }

  lemma OneMoreProvider(first: Model, rest: seq<Model>, q: string)
    ensures (exists m :: m in [first] + rest && m.provider == q)
      <==> q == first.provider || exists m :: m in rest && m.provider == q
  {
    assert first in [first] + rest;
  }

  // ----- the loops -----

  /** Two results one after the other. */
  function Then(r: Result, q: Result): Result {
    Result(r.entries + q.entries, r.drops + q.drops)
  }

  lemma ThenAssociates(r: Result, q: Result, u: Result)
    ensures Then(Then(r, q), u) == Then(r, Then(q, u))
  {
    assert r.entries + q.entries + u.entries == r.entries + (q.entries + u.entries);
    assert r.drops + q.drops + u.drops == r.drops + (q.drops + u.drops);
  }

  /** One discovered entry: its contribution, and the providers seen after it. */
  function OneVariant(m: Model, id: string, seen: set<string>, b: Backing, p: Policy): (Result, set<string>) {
    if (b.Backed? && m.provider == "") || m.provider in seen then (Result([], {}), seen)
    else if Passes(p, m.provider, id) then (Result([Complete(m, id, b)], {}), seen + {m.provider})
    else (Result([], DropOf(p, m.provider, id)), seen)
  }

  lemma VariantsUnfold(es: seq<Model>, id: string, seen: set<string>, b: Backing, p: Policy)
    requires es != []
    ensures var (r, seen') := OneVariant(es[0], id, seen, b, p);
      Variants(es, id, seen, b, p) == Then(r, Variants(es[1..], id, seen', b, p))
  {
    var (r, seen') := OneVariant(es[0], id, seen, b, p);
    var rest := Variants(es[1..], id, seen', b, p);
    assert [] + rest.entries == rest.entries && {} + rest.drops == rest.drops;
  }

  method AddVariants(merged: ModelCatalog, es: seq<Model>, id: string, primary: set<string>, b: Backing, p: Policy)
    returns (r: Result)
    modifies merged
    ensures r == Variants(es, id, primary, b, p)
    ensures merged.State() == AddAll(old(merged.State()), r.entries)
  {
    r := Result([], {});
    var seen := primary;
    var i := 0;
    ghost var answer := Variants(es, id, primary, b, p);
    assert es[0..] == es && Then(r, answer) == answer;
    while i < |es|
      invariant 0 <= i <= |es|
      invariant Then(r, Variants(es[i..], id, seen, b, p)) == answer
      invariant merged.State() == AddAll(old(merged.State()), r.entries)
    {
      var m := es[i];
      ghost var (one, seen') := OneVariant(m, id, seen, b, p);
      assert es[i..][0] == m && es[i..][1..] == es[i + 1..];
      VariantsUnfold(es[i..], id, seen, b, p);
      ThenAssociates(r, one, Variants(es[i + 1..], id, seen', b, p));
      if !(b.Backed? && m.provider == "") && m.provider !in seen && p.allows(m.provider, id) {
        if p.nonChat(m.provider, id) {
          r := r.(drops := r.drops + {(m.provider, id)});
        } else {
          seen := seen + {m.provider};
          var entry := Complete(m, id, b);
          merged.Add(entry);
          AddAllSnoc(old(merged.State()), r.entries, entry);
          r := r.(entries := r.entries + [entry]);
        }
      }
      i := i + 1;
    }
    assert Then(r, Result([], {})) == r;
  }

  function AddAll(c: Catalog, ms: seq<Model>): Catalog
    decreases ms
  {
    if ms == [] then c else AddAll(Added(c, ms[0]), ms[1..])
  }

  lemma {:induction false} AddAllSnoc(c: Catalog, ms: seq<Model>, m: Model)
    ensures AddAll(c, ms + [m]) == Added(AddAll(c, ms), m)
    decreases ms
  {
    if ms == [] {
      assert (ms + [m])[1..] == [];
    } else {
      assert (ms + [m])[1..] == ms[1..] + [m];
      AddAllSnoc(Added(c, ms[0]), ms[1..], m);
    }
  }

  lemma AddedEntries(c: Catalog, m: Model, k: string)
    ensures EntriesOf(Added(c, m), k) == if k == m.id then EntriesOf(c, k) + [m] else EntriesOf(c, k)
  {
  }

  lemma HeadRejoins(es: seq<Model>, ms: seq<Model>)
    requires ms != []
    ensures es + [ms[0]] + ms[1..] == es + ms
  {
  }

  lemma {:induction false} AddAllEntries(c: Catalog, ms: seq<Model>, id: string, k: string)
    requires forall m :: m in ms ==> m.id == id
    ensures EntriesOf(AddAll(c, ms), k) == if k == id then EntriesOf(c, k) + ms else EntriesOf(c, k)
    decreases ms
  {
    if ms != [] {
      AddedEntries(c, ms[0], k);
      AddAllEntries(Added(c, ms[0]), ms[1..], id, k);
      HeadRejoins(EntriesOf(c, k), ms);
    }
  }

  lemma {:induction false} AddAllAgrees(c: Catalog, ms: seq<Model>)
    requires Agree(c)
    ensures Agree(AddAll(c, ms))
    decreases ms
  {
    if ms != [] {
      AddAgrees(c, ms[0]);
      AddAllAgrees(Added(c, ms[0]), ms[1..]);
    }
  }

  /** Adding the entries of one model changes no other model's, and keeps the indexes in agreement. */
  lemma AddAllFacts(c: Catalog, ms: seq<Model>, id: string)
    requires Agree(c) && forall m :: m in ms ==> m.id == id
    ensures Agree(AddAll(c, ms))
    ensures EntriesOf(AddAll(c, ms), id) == EntriesOf(c, id) + ms
    ensures forall k :: k != id ==> EntriesOf(AddAll(c, ms), k) == EntriesOf(c, k)
  {
    AddAllAgrees(c, ms);
    AddAllEntries(c, ms, id, id);
    forall k | k != id ensures EntriesOf(AddAll(c, ms), k) == EntriesOf(c, k) {
      AddAllEntries(c, ms, id, k);
    }
  }

  method MergeOne(merged: ModelCatalog, x: Inputs, id: string) returns (r: Result)
    modifies merged
    ensures r == MergeModel(x, id)
    ensures merged.State() == AddAll(old(merged.State()), r.entries)
  {
    var es := EntriesOf(x.catalog, id);
    if id !in x.overrides && id !in x.registry {
      r := AddVariants(merged, es, id, {}, AsIs, x.policy);
      return;
    }
    var provider := PrimaryProvider(x, id);
    r := Result([], {});
    if !x.policy.allows(provider, id) {
      return;
    }
    if x.policy.nonChat(provider, id) {
      r := Result([], {(provider, id)});
      return;
    }
    var s := if id in x.registry then Some(x.registry[id]) else None;
    var o := if id in x.overrides then Some(x.overrides[id]) else None;
    var d := if es != [] then es[0] else NO_MODEL;
    var primary := Primary(id, provider, o, d, s);
    merged.Add(primary);
    var rest := AddVariants(merged, es, id, {provider}, Backed(d, s, o.None?), x.policy);
    r := Result([primary] + rest.entries, rest.drops);
  }

  /** What the merged catalog must be for the models in `ids`. */
  ghost predicate MergedFor(x: Inputs, ids: set<string>, c: Catalog, drops: set<(string, string)>) {
    && Agree(c)
    && (forall id :: EntriesOf(c, id) == if id in ids then MergeModel(x, id).entries else [])
    && (forall d :: d in drops <==> exists id :: id in ids && d in MergeModel(x, id).drops)
  }

  lemma DropsForOneMore(x: Inputs, ids: set<string>, drops: set<(string, string)>, id: string)
    requires forall d :: d in drops <==> exists k :: k in ids && d in MergeModel(x, k).drops
    ensures forall d ::
      d in drops + MergeModel(x, id).drops <==> exists k :: k in ids + {id} && d in MergeModel(x, k).drops
  {
    forall d
      ensures d in drops + MergeModel(x, id).drops <==> exists k :: k in ids + {id} && d in MergeModel(x, k).drops
    {
      if d in MergeModel(x, id).drops {
        assert id in ids + {id};
      }
      if d in drops {
        var k :| k in ids && d in MergeModel(x, k).drops;
        assert k in ids + {id};
      }
    }
  }

  lemma EntriesForOneMore(x: Inputs, ids: set<string>, c: Catalog, id: string)
    requires Agree(x.catalog) && Agree(c) && id !in ids
    requires forall k :: EntriesOf(c, k) == if k in ids then MergeModel(x, k).entries else []
    ensures var d := AddAll(c, MergeModel(x, id).entries);
      && Agree(d)
      && forall k :: EntriesOf(d, k) == if k in ids + {id} then MergeModel(x, k).entries else []
  {
    var ms := MergeModel(x, id).entries;
    MergeModelWell(x, id);
    AddAllFacts(c, ms, id);
    assert [] + ms == ms;
  }

  lemma MergedForOneMore(x: Inputs, ids: set<string>, c: Catalog, drops: set<(string, string)>, id: string)
    requires Agree(x.catalog) && MergedFor(x, ids, c, drops) && id !in ids
    ensures MergedFor(x, ids + {id}, AddAll(c, MergeModel(x, id).entries), drops + MergeModel(x, id).drops)
  {
    EntriesForOneMore(x, ids, c, id);
    DropsForOneMore(x, ids, drops, id);
  }

  /** The models are merged in an arbitrary order; what each gets does not depend on it. */
  method MergeCatalogWithDrops(x: Inputs) returns (merged: ModelCatalog, drops: set<(string, string)>)
    requires Agree(x.catalog)
    ensures fresh(merged) && MergedFor(x, AllIds(x), merged.State(), drops)
  {
    merged := new ModelCatalog();
    drops := {};
    var pending := AllIds(x);
    ghost var done: set<string> := {};
    while pending != {}
      invariant fresh(merged)
      invariant done !! pending && done + pending == AllIds(x)
      invariant MergedFor(x, done, merged.State(), drops)
      decreases pending
    {
      var id :| id in pending;
      pending := pending - {id};
      MergedForOneMore(x, done, merged.State(), drops, id);
      var one := MergeOne(merged, x, id);
      drops := drops + one.drops;
      done := done + {id};
    }
    assert done == AllIds(x);
  }

  // ----- what the merged entries say -----

  /** Of three sizes the first that is positive. */
  predicate PositiveOf(r: int, a: int, b: int, c: int) {
    && (a > 0 ==> r == a)
    && (a <= 0 && b > 0 ==> r == b)
    && (a <= 0 && b <= 0 && c > 0 ==> r == c)
    && (a <= 0 && b <= 0 && c <= 0 ==> r == 0)
  }

  /** `m` is the first entry of its provider. */
  ghost predicate FirstOfProvider(es: seq<Model>, m: Model, provider: string) {
    exists i ::
      0 <= i < |es| && es[i] == m && m.provider == provider && forall j :: 0 <= j < i ==> es[j].provider != provider
  }

  /** `r` is the discovered entry `m`, completed from the model's first discovered entry and its static one; its own
      price counts only without an override. */
  ghost predicate CompletedFrom(r: Model, m: Model, id: string, d: Model, s: Option<Static>, ownPricing: bool) {
    var fixed := if s.Some? then s.value else Static("", "", 0, 0, None);
    && r.id == id && r.provider == m.provider && r.format == m.format
    && PositiveOf(r.maxContext, m.maxContext, d.maxContext, fixed.maxContext)
    && PositiveOf(r.maxOutput, m.maxOutput, d.maxOutput, fixed.maxOutput)
    && (m.ownedBy != "" ==> r.ownedBy == m.ownedBy) && (m.ownedBy == "" ==> r.ownedBy == "nenya")
    && (if ownPricing && m.pricing.Some? then r.pricing == m.pricing else r.pricing == fixed.pricing)
  }

  /** What every variant is made of, and exactly which pairs are reported as dropped. */
  lemma {:induction false} VariantsMade(es: seq<Model>, id: string, seen: set<string>, b: Backing, p: Policy)
    ensures var r := Variants(es, id, seen, b, p);
      && (forall m :: m in r.entries ==> exists e :: FirstOfProvider(es, e, m.provider) && MadeFrom(m, e, id, b))
      && (forall q, k :: (q, k) in r.drops <==>
            k == id && q !in seen && Offers(es, b, q) && p.allows(q, id) && p.nonChat(q, id))
    decreases es
  {
    if es != [] {
      var e := es[0];
      var (one, seen') := OneVariant(e, id, seen, b, p);
      VariantsUnfold(es, id, seen, b, p);
      VariantsMade(es[1..], id, seen', b, p);
      assert es == [e] + es[1..];
      var rest := Variants(es[1..], id, seen', b, p);
      forall m | m in one.entries + rest.entries
        ensures exists e :: FirstOfProvider(es, e, m.provider) && MadeFrom(m, e, id, b)
      {
        if m in one.entries {
          assert es[0] == e && FirstOfProvider(es, e, m.provider);
        } else {
          LaterVariant(es, id, seen, b, p, m);
        }
      }
      forall q, k
        ensures (q, k) in one.drops + rest.drops <==>
          k == id && q !in seen && Offers(es, b, q) && p.allows(q, id) && p.nonChat(q, id)
      {
        assert Offers(es, b, q) <==> (q == e.provider && !(b.Backed? && q == "")) || Offers(es[1..], b, q);
      }
    }
  }

  ghost predicate MadeFrom(r: Model, m: Model, id: string, b: Backing) {
    match b
    case AsIs => r == m
    case Backed(d, s, ownPricing) => CompletedFrom(r, m, id, d, s, ownPricing)
  }

  lemma LaterVariant(es: seq<Model>, id: string, seen: set<string>, b: Backing, p: Policy, m: Model)
    requires es != []
    requires var (one, seen') := OneVariant(es[0], id, seen, b, p); m in Variants(es[1..], id, seen', b, p).entries
    requires exists e :: FirstOfProvider(es[1..], e, m.provider) && MadeFrom(m, e, id, b)
    ensures exists e :: FirstOfProvider(es, e, m.provider) && MadeFrom(m, e, id, b)
  {
    var (one, seen') := OneVariant(es[0], id, seen, b, p);
    var e :| FirstOfProvider(es[1..], e, m.provider) && MadeFrom(m, e, id, b);
    var i :| 0 <= i < |es| - 1 && es[1..][i] == e && forall j :: 0 <= j < i ==> es[1..][j].provider != m.provider;
    VariantPasses(es[1..], id, seen', b, p, m);
    assert es[i + 1] == e;
    forall j | 0 <= j < i + 1 ensures es[j].provider != m.provider {
      if j > 0 {
        assert es[j] == es[1..][j - 1];
      }
    }
    assert FirstOfProvider(es, e, m.provider);
  }

  lemma {:induction false} VariantPasses(es: seq<Model>, id: string, seen: set<string>, b: Backing, p: Policy, m: Model)
    requires m in Variants(es, id, seen, b, p).entries
    ensures m.provider !in seen && Passes(p, m.provider, id) && !(b.Backed? && m.provider == "")
    decreases es
  {
    if es != [] {
      var (one, seen') := OneVariant(es[0], id, seen, b, p);
      VariantsUnfold(es, id, seen, b, p);
      if m !in one.entries {
        VariantPasses(es[1..], id, seen', b, p, m);
      }
    }
  }

  /** The provider a static or overridden model belongs to: the override's if it names one, else the static entry's,
      else that of the first discovered entry. */
  ghost predicate IsPrimaryProvider(x: Inputs, id: string, provider: string) {
    var es := EntriesOf(x.catalog, id);
    if id in x.overrides && x.overrides[id].provider != "" then provider == x.overrides[id].provider
    else if id in x.registry && x.registry[id].provider != "" then provider == x.registry[id].provider
    else if es != [] then provider == es[0].provider
    else provider == ""
  }

  /** The entry under that provider: sizes from the override, else the first discovered entry, else the static one;
      the format from the static entry before the discovered one; the price from the static entry. */
  ghost predicate IsPrimaryEntry(x: Inputs, id: string, r: Model) {
    var es := EntriesOf(x.catalog, id);
    var o := if id in x.overrides then x.overrides[id] else Override("", 0, 0);
    var s := if id in x.registry then x.registry[id] else Static("", "", 0, 0, None);
    var d := if es != [] then es[0] else Model("", "", "", 0, 0, "", None);
    && r.id == id && IsPrimaryProvider(x, id, r.provider)
    && (s.format != "" ==> r.format == s.format) && (s.format == "" ==> r.format == d.format)
    && PositiveOf(r.maxContext, o.maxContext, d.maxContext, s.maxContext)
    && PositiveOf(r.maxOutput, o.maxOutput, d.maxOutput, s.maxOutput)
    && (d.ownedBy != "" ==> r.ownedBy == d.ownedBy) && (d.ownedBy == "" ==> r.ownedBy == "nenya")
    && r.pricing == s.pricing
  }

  /** `r` is the first discovered entry of its provider, completed. */
  ghost predicate IsVariant(r: Model, es: seq<Model>, id: string, d: Model, s: Option<Static>, o: map<string,
                            Override>) {
    exists e :: Variant(r, e, es, id, d, s, o)
  }

  ghost predicate Variant(r: Model, e: Model, es: seq<Model>, id: string, d: Model, s: Option<Static>, o: map<string,
                          Override>)
  {
    FirstOfProvider(es, e, r.provider) && CompletedFrom(r, e, id, d, s, id !in o)
  }

  /** A model that is neither static nor overridden is taken over as discovered, one entry per provider. */
  lemma DiscoveredModelMade(x: Inputs, id: string)
    requires id !in x.overrides && id !in x.registry
    ensures var es, r := EntriesOf(x.catalog, id), MergeModel(x, id);
      && (forall m :: m in r.entries ==> FirstOfProvider(es, m, m.provider))
      && (forall q, k :: (q, k) in r.drops <==>
            k == id && (exists m :: m in es && m.provider == q) && x.policy.allows(q, id) && x.policy.nonChat(q, id))
  {
    VariantsMade(EntriesOf(x.catalog, id), id, {}, AsIs, x.policy);
  }

  /** Any other model has its primary entry first, then completed entries of other providers; or nothing, if the primary
      provider is filtered out. */
  lemma PrimaryModelMade(x: Inputs, id: string, provider: string)
    requires id in x.overrides || id in x.registry
    requires IsPrimaryProvider(x, id, provider)
    ensures var es, r := EntriesOf(x.catalog, id), MergeModel(x, id);
      var d := if es != [] then es[0] else Model("", "", "", 0, 0, "", None);
      var s := if id in x.registry then Some(x.registry[id]) else None;
      if !x.policy.allows(provider, id) || x.policy.nonChat(provider, id) then
        && r.entries == []
        && (forall q, k :: (q, k) in r.drops <==>
              q == provider && k == id && x.policy.allows(q, id) && x.policy.nonChat(q, id))
      else
        && r.entries != [] && IsPrimaryEntry(x, id, r.entries[0])
        && (forall i :: 1 <= i < |r.entries| ==> IsVariant(r.entries[i], es, id, d, s, x.overrides))
        && (forall q, k :: (q, k) in r.drops <==>
              && k == id && q != provider && q != "" && (exists m :: m in es && m.provider == q)
              && x.policy.allows(q, id) && x.policy.nonChat(q, id))
  {
    assert provider == PrimaryProvider(x, id);
    if Passes(x.policy, provider, id) {
      var es, r := EntriesOf(x.catalog, id), MergeModel(x, id);
      var d := if es != [] then es[0] else Model("", "", "", 0, 0, "", None);
      var s := if id in x.registry then Some(x.registry[id]) else None;
      var b := Backed(d, s, id !in x.overrides);
      VariantsMade(es, id, {provider}, b, x.policy);
      var rest := Variants(es, id, {provider}, b, x.policy);
      assert r.entries[1..] == rest.entries;
      forall i | 1 <= i < |r.entries| ensures IsVariant(r.entries[i], es, id, d, s, x.overrides) {
        assert r.entries[i] == rest.entries[i - 1] && rest.entries[i - 1] in rest.entries;
        var e :| FirstOfProvider(es, e, r.entries[i].provider) && MadeFrom(r.entries[i], e, id, b);
        assert Variant(r.entries[i], e, es, id, d, s, x.overrides);
      }
    }
  }

  // ----- the whole merged catalog -----

  /** The models that are merged: those in the registry and those discovered. */
  ghost predicate Known(x: Inputs, id: string) {
    id in x.registry || EntriesOf(x.catalog, id) != []
  }

  /** Both filters let the pair through. */
  ghost predicate LetThrough(x: Inputs, provider: string, id: string) {
    x.policy.allows(provider, id) && !x.policy.nonChat(provider, id)
  }

  ghost predicate Discovered(x: Inputs, provider: string, id: string) {
    exists m :: m in EntriesOf(x.catalog, id) && m.provider == provider
  }

  /** The merged catalog has the entries made for each known model (DiscoveredModelMade, PrimaryModelMade) and no
      others: at most one for a model and a provider, all let through by both filters; `provider` and the other named
      discovered ones, if that is the model's primary provider; and no pair that is reported as dropped. */
  lemma MergedCatalogIsFiltered(x: Inputs, c: Catalog, drops: set<(string, string)>, id: string, q: string,
                                provider: string)
    requires Agree(x.catalog) && MergedFor(x, AllIds(x), c, drops) && IsPrimaryProvider(x, id, provider)
    ensures var es := EntriesOf(c, id);
      && es == (if Known(x, id) then MergeModel(x, id).entries else [])
      && ((q, id) in drops <==> Known(x, id) && (q, id) in MergeModel(x, id).drops)
      && (forall i, j :: 0 <= i < j < |es| ==> es[i].provider != es[j].provider)
      && (forall m :: m in es ==> m.id == id && LetThrough(x, m.provider, id))
      && ((exists m :: m in es && m.provider == q) <==>
            && Known(x, id) && LetThrough(x, q, id)
            && (id in x.overrides || id in x.registry ==>
                  LetThrough(x, provider, id) && (q == provider || (q != "" && Discovered(x, q, id))))
            && (id !in x.overrides && id !in x.registry ==> Discovered(x, q, id)))
      && ((q, id) in drops ==> forall m :: m in es ==> m.provider != q)
  {
    KnownIds(x, id);
    MergeModelWell(x, id);
    ExpectedIs(x, id, q, provider);
    if (q, id) in drops {
      var k :| k in AllIds(x) && (q, id) in MergeModel(x, k).drops;
      MergeModelWell(x, k);
    }
  }

  lemma ExpectedIs(x: Inputs, id: string, q: string, provider: string)
    requires IsPrimaryProvider(x, id, provider)
    ensures Expected(x, id, q) <==>
      && LetThrough(x, q, id)
      && (id in x.overrides || id in x.registry ==>
            LetThrough(x, provider, id) && (q == provider || (q != "" && Discovered(x, q, id))))
      && (id !in x.overrides && id !in x.registry ==> Discovered(x, q, id))
  {
    assert id in x.overrides || id in x.registry ==> provider == PrimaryProvider(x, id);
  }

  lemma KnownIds(x: Inputs, id: string)
    requires Agree(x.catalog)
    ensures id in AllIds(x) <==> Known(x, id)
  {
    if EntriesOf(x.catalog, id) != [] {
      var m := x.catalog.models[id][0];
      assert id in x.catalog.models && m in x.catalog.models[id];
      assert m in AllModels(x.catalog) && m.id == id;
    }
  }
}
