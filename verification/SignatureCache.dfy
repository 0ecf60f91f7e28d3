/** The thought-signature cache: a map with expiry times, a recency list, and scoped views. */
module SignatureCache {
  import opened Common

  /** A cached signature is opaque to the cache. */
  type Signature = string

  datatype Entry = Entry(value: Signature, expireAt: int)

  /** `lru` lists the keys, the most recently touched first. */
  datatype Cache = Cache(entries: map<string, Entry>, lru: seq<string>, maxSize: nat, ttl: int)

  predicate Distinct(s: seq<string>) {
    forall i, j | 0 <= i < j < |s| :: s[i] != s[j]
  }

  /** The map and the recency list hold the same keys, no more than `maxSize` of them. */
  ghost predicate Valid(c: Cache) {
    && c.maxSize >= 1 && c.ttl > 0
    && Distinct(c.lru)
    && (forall k :: k in c.lru <==> k in c.entries)
    && |c.lru| == |c.entries| <= c.maxSize
  }

  function Without(s: seq<string>, k: string): (r: seq<string>)
    ensures |r| <= |s|
    ensures forall x :: x in r <==> x in s && x != k
  {
    if s == [] then [] else if s[0] == k then Without(s[1..], k) else [s[0]] + Without(s[1..], k)
  }

  function Empty(maxSize: int, ttl: int): Cache {
    Cache(map[], [], if maxSize <= 0 then 1000 else maxSize, if ttl <= 0 then 600_000_000_000 else ttl)
  }

  function Removed(c: Cache, k: string): Cache {
    c.(entries := c.entries - {k}, lru := Without(c.lru, k))
  }

  predicate Expired(e: Entry, now: int) {
    now > e.expireAt
  }

  function Live(c: Cache, s: seq<string>, now: int): seq<string> {
    if s == [] then []
    else if s[0] in c.entries && Expired(c.entries[s[0]], now) then Live(c, s[1..], now)
    else [s[0]] + Live(c, s[1..], now)
  }

  function Purged(c: Cache, now: int): Cache {
    c.(entries := map k | k in c.entries && !Expired(c.entries[k], now) :: c.entries[k], lru := Live(c, c.lru, now))
  }

  /** Drop the least recently touched keys until there is room for one more. */
  function Trimmed(c: Cache): Cache
    decreases |c.lru|
  {
    if |c.entries| >= c.maxSize && c.lru != [] then
      var last := c.lru[|c.lru| - 1];
      Trimmed(c.(entries := c.entries - {last}, lru := c.lru[..|c.lru| - 1]))
    else c
  }

  function AfterStore(c: Cache, key: string, value: Option<Signature>, now: int): Cache {
    if key == "" || value.None? then c
    else
      var e := Entry(value.value, now + c.ttl);
      if key in c.entries then c.(entries := c.entries[key := e], lru := [key] + Without(c.lru, key))
      else
        var room := if |c.entries| >= c.maxSize then Trimmed(Purged(c, now)) else c;
        room.(entries := room.entries[key := e], lru := [key] + room.lru)
  }

  predicate Hits(c: Cache, key: string, now: int) {
    key != "" && key in c.entries && !Expired(c.entries[key], now)
  }

  function Loaded(c: Cache, key: string, now: int): Option<Signature> {
    if Hits(c, key, now) then Some(c.entries[key].value) else None
  }

  function AfterLoad(c: Cache, key: string, now: int): Cache {
    if key == "" || key !in c.entries then c
    else if Expired(c.entries[key], now) then Removed(c, key)
    else c.(lru := [key] + Without(c.lru, key))
  }

  // ----- the cache object -----

  class ThoughtSignatureCache {
    var entries: map<string, Entry>
    var lru: seq<string>
    const maxSize: nat
    const ttl: int

    function State(): Cache
      reads this
    {
      Cache(entries, lru, maxSize, ttl)
    }

    constructor (maxSize: int, ttl: int)
      ensures State() == Empty(maxSize, ttl) && Valid(State())
    {
      this.maxSize := if maxSize <= 0 then 1000 else maxSize;
      this.ttl := if ttl <= 0 then 600_000_000_000 else ttl;
      entries, lru := map[], [];
    }

    method Store(key: string, value: Option<Signature>, now: int)
      requires Valid(State())
      modifies this
      ensures State() == AfterStore(old(State()), key, value, now) && Valid(State())
    {
      StoreKeepsValid(State(), key, value, now);
      if key == "" || value.None? {
        return;
      }
      if key in entries {
        entries := entries[key := Entry(value.value, now + ttl)];
        lru := [key] + Without(lru, key);
        return;
      }
      if |entries| >= maxSize {
        EvictLocked(now);
      }
      lru := [key] + lru;
      entries := entries[key := Entry(value.value, now + ttl)];
    }

    method Load(key: string, now: int) returns (r: Option<Signature>)
      requires Valid(State())
      modifies this
      ensures State() == AfterLoad(old(State()), key, now) && Valid(State())
      ensures r == Loaded(old(State()), key, now)
    {
      LoadKeepsValid(State(), key, now);
      if key == "" || key !in entries {
        return None;
      }
      if now > entries[key].expireAt {
        lru := Without(lru, key);
        entries := entries - {key};
        return None;
      }
      lru := [key] + Without(lru, key);
      return Some(entries[key].value);
    }

    /** Expired entries go in an arbitrary order. */
    method PurgeExpired(now: int)
      requires Valid(State())
      modifies this
      ensures State() == Purged(old(State()), now)
    {
      ghost var before := State();
      var pending := entries.Keys;
      while pending != {}
        invariant pending <= before.entries.Keys
        invariant forall k ::
          k in entries <==> k in before.entries && (k in pending || !Expired(before.entries[k], now))
        invariant forall k :: k in entries ==> entries[k] == before.entries[k]
        invariant Live(before, lru, now) == Live(before, before.lru, now)
        invariant forall k :: k in lru ==> k in entries
        decreases pending
      {
        var k :| k in pending;
        pending := pending - {k};
        if now > entries[k].expireAt {
          LiveWithout(before, lru, k, now);
          lru := Without(lru, k);
          entries := entries - {k};
        }
      }
      AllLive(before, lru, now);
      assert entries == Purged(before, now).entries;
    }

    method EvictLocked(now: int)
      requires Valid(State())
      modifies this
      ensures State() == Trimmed(Purged(old(State()), now))
    {
      PurgeExpired(now);
      ghost var purged := State();
      while |entries| >= maxSize
        invariant Trimmed(State()) == Trimmed(purged)
        decreases |lru|
      {
        if |lru| == 0 {
          break;
        }
        var oldest := lru[|lru| - 1];
        lru := lru[..|lru| - 1];
        entries := entries - {oldest};
      }
    }
  }

  lemma {:induction false} LiveWithout(c: Cache, s: seq<string>, k: string, now: int)
    requires k in c.entries && Expired(c.entries[k], now)
    ensures Live(c, Without(s, k), now) == Live(c, s, now)
  {
    if s != [] {
      LiveWithout(c, s[1..], k, now);
    }
  }

  lemma {:induction false} AllLive(c: Cache, s: seq<string>, now: int)
    requires forall k :: k in s ==> k in c.entries && !Expired(c.entries[k], now)
    ensures Live(c, s, now) == s
  {
    if s != [] {
      AllLive(c, s[1..], now);
    }
  }

  // ----- agreement of map and list -----

  lemma DistinctCons(x: string, s: seq<string>)
    requires Distinct(s) && x !in s
    ensures Distinct([x] + s)
  {
  }

  lemma {:induction false} WithoutFacts(s: seq<string>, k: string)
    requires Distinct(s)
    ensures Distinct(Without(s, k))
    ensures |Without(s, k)| == if k in s then |s| - 1 else |s|
  {
    if s != [] {
      WithoutFacts(s[1..], k);
      if s[0] == k {
        WithoutAbsent(s[1..], k);
      } else {
        DistinctCons(s[0], Without(s[1..], k));
      }
    }
  }

  lemma {:induction false} WithoutAbsent(s: seq<string>, k: string)
    requires k !in s
    ensures Without(s, k) == s
  {
    if s != [] {
      WithoutAbsent(s[1..], k);
    }
  }

  lemma {:induction false} LiveFacts(c: Cache, s: seq<string>, now: int)
    requires Distinct(s)
    ensures Distinct(Live(c, s, now))
    ensures forall k :: k in Live(c, s, now) <==> k in s && !(k in c.entries && Expired(c.entries[k], now))
  {
    if s != [] {
      LiveFacts(c, s[1..], now);
    }
  }

  lemma {:induction false} DistinctSize(s: seq<string>, keys: set<string>)
    requires Distinct(s) && forall k :: k in s <==> k in keys
    ensures |s| == |keys|
  {
    if s == [] {
      assert keys == {};
    } else {
      DistinctSize(s[1..], keys - {s[0]});
    }
  }

  lemma ValidBySize(c: Cache)
    requires c.maxSize >= 1 && c.ttl > 0 && Distinct(c.lru) && (forall k :: k in c.lru <==> k in c.entries)
    requires |c.lru| <= c.maxSize
    ensures Valid(c)
  {
    DistinctSize(c.lru, c.entries.Keys);
    assert |c.entries| == |c.entries.Keys|;
  }

  lemma {:induction false} LiveShorter(c: Cache, s: seq<string>, now: int)
    ensures |Live(c, s, now)| <= |s|
  {
    if s != [] {
      LiveShorter(c, s[1..], now);
    }
  }

  lemma PurgedValid(c: Cache, now: int)
    requires Valid(c)
    ensures Valid(Purged(c, now))
  {
    LiveFacts(c, c.lru, now);
    LiveShorter(c, c.lru, now);
    ValidBySize(Purged(c, now));
  }

  function DropLast(c: Cache): Cache
    requires c.lru != []
  {
    c.(entries := c.entries - {c.lru[|c.lru| - 1]}, lru := c.lru[..|c.lru| - 1])
  }

  lemma DropLastValid(c: Cache)
    requires Valid(c) && c.lru != []
    ensures Valid(DropLast(c)) && |DropLast(c).lru| == |c.lru| - 1
  {
    var d := DropLast(c);
    assert c.lru == d.lru + [c.lru[|c.lru| - 1]];
    assert c.lru[|c.lru| - 1] !in d.lru;
    ValidBySize(d);
  }

  /** Trimming a valid cache drops at most the last key, and makes room. */
  lemma TrimmedFacts(c: Cache)
    requires Valid(c)
    ensures Valid(Trimmed(c)) && |Trimmed(c).lru| < c.maxSize
    ensures Trimmed(c) == if |c.lru| < c.maxSize then c else DropLast(c)
  {
    if |c.lru| >= c.maxSize {
      DropLastValid(c);
      assert Trimmed(DropLast(c)) == DropLast(c);
    }
  }

  lemma FrontValid(c: Cache, key: string, e: Entry)
    requires Valid(c) && |c.lru| < c.maxSize && key !in c.entries
    ensures Valid(c.(entries := c.entries[key := e], lru := [key] + c.lru))
  {
    ValidBySize(c.(entries := c.entries[key := e], lru := [key] + c.lru));
  }

  lemma StoreKeepsValid(c: Cache, key: string, value: Option<Signature>, now: int)
    requires Valid(c)
    ensures Valid(AfterStore(c, key, value, now))
  {
    if key != "" && value.Some? {
      var e := Entry(value.value, now + c.ttl);
      if key in c.entries {
        WithoutFacts(c.lru, key);
        ValidBySize(AfterStore(c, key, value, now));
      } else if |c.entries| >= c.maxSize {
        PurgedValid(c, now);
        TrimmedFacts(Purged(c, now));
        FrontValid(Trimmed(Purged(c, now)), key, e);
      } else {
        FrontValid(c, key, e);
      }
    }
  }

  lemma LoadKeepsValid(c: Cache, key: string, now: int)
    requires Valid(c)
    ensures Valid(AfterLoad(c, key, now))
  {
    WithoutFacts(c.lru, key);
    if key in c.entries {
      ValidBySize(AfterLoad(c, key, now));
    }
  }

  // ----- runs -----

  datatype Event = Store(now: int, key: string, value: Option<Signature>) | Load(now: int, key: string)

  function Step(c: Cache, e: Event): Cache {
    match e
    case Store(now, key, value) => AfterStore(c, key, value, now)
    case Load(now, key) => AfterLoad(c, key, now)
  }

  function Run(c: Cache, es: seq<Event>): Cache
    decreases es
  {
    if es == [] then c else Run(Step(c, es[0]), es[1..])
  }

  lemma {:induction false} RunKeepsValid(c: Cache, es: seq<Event>)
    requires Valid(c)
    ensures Valid(Run(c, es)) && Run(c, es).maxSize == c.maxSize && Run(c, es).ttl == c.ttl
    decreases es
  {
    if es != [] {
      StepKeepsValid(c, es[0]);
      RunKeepsValid(Step(c, es[0]), es[1..]);
    }
  }

  lemma StepKeepsValid(c: Cache, e: Event)
    requires Valid(c)
    ensures Valid(Step(c, e)) && Step(c, e).maxSize == c.maxSize && Step(c, e).ttl == c.ttl
  {
    match e
    case Store(now, key, value) =>
      StoreKeepsValid(c, key, value, now);
      if |c.entries| >= c.maxSize {
        PurgedValid(c, now);
        TrimmedFacts(Purged(c, now));
      }
    case Load(now, key) => LoadKeepsValid(c, key, now);
  }

  /** The last value stored under `key` and when, given what it was before the run. */
  function LastStore(es: seq<Event>, key: string, before: Option<(Signature, int)>): Option<(Signature, int)>
    decreases es
  {
    if es == [] then before
    else if es[0].Store? && es[0].key == key && key != "" && es[0].value.Some?
    then LastStore(es[1..], key, Some((es[0].value.value, es[0].now)))
    else LastStore(es[1..], key, before)
  }

  /** What the map holds under `key` is what was last stored there, with its expiry time. */
  ghost predicate Holds(c: Cache, key: string, last: Option<(Signature, int)>) {
    key in c.entries ==> last.Some? && c.entries[key] == Entry(last.value.0, last.value.1 + c.ttl)
  }

  /** The effect of one event on what was last stored. */
  function LastAfter(e: Event, key: string, before: Option<(Signature, int)>): Option<(Signature, int)> {
    if e.Store? && e.key == key && key != "" && e.value.Some? then Some((e.value.value, e.now)) else before
  }

  lemma EvictionKeepsEntries(c: Cache, now: int)
    requires Valid(c)
    ensures forall k ::
      k in Trimmed(Purged(c, now)).entries ==> k in c.entries && Trimmed(Purged(c, now)).entries[k] == c.entries[k]
    ensures Trimmed(Purged(c, now)).ttl == c.ttl
  {
    PurgedValid(c, now);
    TrimmedFacts(Purged(c, now));
  }

  lemma StepHoldsLast(c: Cache, e: Event, key: string, last: Option<(Signature, int)>)
    requires Valid(c) && Holds(c, key, last)
    ensures Holds(Step(c, e), key, LastAfter(e, key, last))
  {
    if e.Store? {
      StoreHoldsLast(c, e.now, e.key, e.value, key, last);
    }
  }

  lemma StoreHoldsLast(c: Cache, now: int, k: string, value: Option<Signature>, key: string,
                       last: Option<(Signature, int)>)
    requires Valid(c) && Holds(c, key, last)
    ensures Holds(AfterStore(c, k, value, now), key, LastAfter(Store(now, k, value), key, last))
  {
    if k != "" && value.Some? {
      StoreKeepsValid(c, k, value, now);
      StoreEntries(c, k, value.value, now, key);
    }
  }

  /** What a store leaves in the map under `key`. */
  lemma StoreEntries(c: Cache, k: string, v: Signature, now: int, key: string)
    requires Valid(c) && k != ""
    ensures var entries := AfterStore(c, k, Some(v), now).entries;
      && (key == k ==> key in entries && entries[key] == Entry(v, now + c.ttl))
      && (key != k && key in entries ==> key in c.entries && entries[key] == c.entries[key])
    ensures AfterStore(c, k, Some(v), now).ttl == c.ttl
  {
    if |c.entries| >= c.maxSize {
      EvictionKeepsEntries(c, now);
    }
  }

  lemma {:induction false} RunHoldsLast(c: Cache, es: seq<Event>, key: string, last: Option<(Signature, int)>)
    requires Valid(c) && Holds(c, key, last)
    ensures Holds(Run(c, es), key, LastStore(es, key, last))
    decreases es
  {
    if es != [] {
      StepKeepsValid(c, es[0]);
      StepHoldsLast(c, es[0], key, last);
      RunHoldsLast(Step(c, es[0]), es[1..], key, LastAfter(es[0], key, last));
    }
  }

  /** After any run from an empty cache, a hit returns the value last stored under the key, no later than
      its time to live after that store. */
  lemma HitsAreLastAndLive(maxSize: int, ttl: int, es: seq<Event>, key: string, now: int)
    requires Hits(Run(Empty(maxSize, ttl), es), key, now)
    ensures var last := LastStore(es, key, None);
      && last.Some?
      && Loaded(Run(Empty(maxSize, ttl), es), key, now) == Some(last.value.0)
      && now <= last.value.1 + Empty(maxSize, ttl).ttl
  {
    RunHoldsLast(Empty(maxSize, ttl), es, key, None);
    RunKeepsValid(Empty(maxSize, ttl), es);
  }

  // ----- retention -----

  /** The key an event touches: any stored one, or a loaded one that hits. */
  function TouchedBy(c: Cache, e: Event): set<string> {
    match e
    case Store(_, key, value) => if key == "" || value.None? then {} else {key}
    case Load(now, key) => if Hits(c, key, now) then {key} else {}
  }

  function Touched(c: Cache, es: seq<Event>): set<string>
    decreases es
  {
    if es == [] then {} else TouchedBy(c, es[0]) + Touched(Step(c, es[0]), es[1..])
  }

  /** When an event happens. */
  function At(e: Event): int {
    e.now
  }

  /** Every key ahead of `key` in the list belongs to `seen`. */
  ghost predicate AheadIn(lru: seq<string>, key: string, seen: set<string>) {
    exists p :: AheadAt(lru, key, seen, p)
  }

  ghost predicate AheadAt(lru: seq<string>, key: string, seen: set<string>, p: int) {
    0 <= p < |lru| && lru[p] == key && forall i :: 0 <= i < p ==> lru[i] in seen
  }

  lemma {:induction false} AheadLive(c: Cache, s: seq<string>, key: string, seen: set<string>, now: int)
    requires AheadIn(s, key, seen) && key in c.entries && !Expired(c.entries[key], now)
    ensures AheadIn(Live(c, s, now), key, seen)
  {
    var p :| AheadAt(s, key, seen, p);
    var live := Live(c, s, now);
    if s[0] == key {
      assert AheadAt(live, key, seen, 0);
    } else {
      assert AheadAt(s[1..], key, seen, p - 1);
      AheadLive(c, s[1..], key, seen, now);
      var q :| AheadAt(Live(c, s[1..], now), key, seen, q);
      assert AheadAt(live, key, seen, q) || AheadAt(live, key, seen, q + 1);
    }
  }

  lemma {:induction false} AheadWithout(s: seq<string>, key: string, seen: set<string>, k: string)
    requires AheadIn(s, key, seen) && k != key
    ensures AheadIn(Without(s, k), key, seen)
  {
    var p :| AheadAt(s, key, seen, p);
    var rest := Without(s, k);
    if s[0] == key {
      assert AheadAt(rest, key, seen, 0);
    } else {
      assert AheadAt(s[1..], key, seen, p - 1);
      AheadWithout(s[1..], key, seen, k);
      var q :| AheadAt(Without(s[1..], k), key, seen, q);
      assert AheadAt(rest, key, seen, q) || AheadAt(rest, key, seen, q + 1);
    }
  }

  lemma AheadCons(s: seq<string>, key: string, seen: set<string>, k: string)
    requires AheadIn(s, key, seen)
    ensures AheadIn([k] + s, key, seen + {k})
  {
    var p :| AheadAt(s, key, seen, p);
    assert AheadAt([k] + s, key, seen + {k}, p + 1);
  }

  /** A full list without `fresh` that ends in `key` has too many keys ahead of it. */
  lemma FullBehind(c: Cache, key: string, seen: set<string>, newKey: string)
    requires Valid(c) && |c.lru| >= c.maxSize && AheadIn(c.lru, key, seen)
    requires newKey !in c.entries && |seen + {newKey}| < c.maxSize
    ensures AheadIn(c.lru[..|c.lru| - 1], key, seen)
  {
    var p :| AheadAt(c.lru, key, seen, p);
    if p == |c.lru| - 1 {
      var ahead := set i | 0 <= i < p :: c.lru[i];
      DistinctSize(c.lru[..p], ahead);
      assert ahead <= seen && newKey !in ahead;
      assert |ahead + {newKey}| == p + 1;
      SubsetSize(ahead + {newKey}, seen + {newKey});
    }
    assert AheadAt(c.lru[..|c.lru| - 1], key, seen, p);
  }

  lemma {:induction false} SubsetSize(a: set<string>, b: set<string>)
    requires a <= b
    ensures |a| <= |b|
  {
    if a != {} {
      var x :| x in a;
      SubsetSize(a - {x}, b - {x});
    }
  }

  lemma LoadRetains(c: Cache, k: string, now: int, key: string, seen: set<string>)
    requires AheadIn(c.lru, key, seen) && k != key && key in c.entries
    ensures var d := AfterLoad(c, k, now);
      key in d.entries && d.entries[key] == c.entries[key]
      && AheadIn(d.lru, key, seen + if Hits(c, k, now) then {k} else {})
  {
    AheadWithout(c.lru, key, seen, k);
    AheadCons(Without(c.lru, k), key, seen, k);
    assert seen + {} == seen;
  }

  lemma EvictionRetains(c: Cache, k: string, now: int, key: string, seen: set<string>)
    requires Valid(c) && AheadIn(c.lru, key, seen) && k !in c.entries
    requires key in c.entries && now <= c.entries[key].expireAt
    requires |seen + {k}| < c.maxSize
    ensures var d := Trimmed(Purged(c, now));
      key in d.entries && d.entries[key] == c.entries[key] && AheadIn(d.lru, key, seen)
  {
    var d := Purged(c, now);
    PurgedValid(c, now);
    AheadLive(c, c.lru, key, seen, now);
    TrimRetains(d, k, key, seen);
  }

  lemma TrimRetains(d: Cache, k: string, key: string, seen: set<string>)
    requires Valid(d) && AheadIn(d.lru, key, seen) && k !in d.entries && |seen + {k}| < d.maxSize
    requires key in d.entries
    ensures key in Trimmed(d).entries && Trimmed(d).entries[key] == d.entries[key] && AheadIn(Trimmed(d).lru, key, seen)
  {
    TrimmedFacts(d);
    if |d.lru| >= d.maxSize {
      FullBehind(d, key, seen, k);
      var front := d.lru[..|d.lru| - 1];
      var p :| AheadAt(front, key, seen, p);
      assert d.lru[p] == key;
      assert DropLast(d).lru == front;
    }
  }

  lemma StoreRetains(c: Cache, k: string, v: Signature, now: int, key: string, seen: set<string>)
    requires Valid(c) && AheadIn(c.lru, key, seen) && k != key && k != ""
    requires key in c.entries && now <= c.entries[key].expireAt
    requires |seen + {k}| < c.maxSize
    ensures var d := AfterStore(c, k, Some(v), now);
      key in d.entries && d.entries[key] == c.entries[key] && AheadIn(d.lru, key, seen + {k})
  {
    if k in c.entries {
      AheadWithout(c.lru, key, seen, k);
      AheadCons(Without(c.lru, k), key, seen, k);
    } else if |c.entries| < c.maxSize {
      AheadCons(c.lru, key, seen, k);
    } else {
      EvictionRetains(c, k, now, key, seen);
      AheadCons(Trimmed(Purged(c, now)).lru, key, seen, k);
    }
  }

  /** One event on another key keeps an unexpired key that has fewer than `maxSize` others ahead of it. */
  lemma StepRetains(c: Cache, e: Event, key: string, seen: set<string>)
    requires Valid(c) && AheadIn(c.lru, key, seen) && e.key != key
    requires key in c.entries && e.now <= c.entries[key].expireAt
    requires |seen + TouchedBy(c, e)| < c.maxSize
    ensures key in Step(c, e).entries && Step(c, e).entries[key] == c.entries[key]
    ensures AheadIn(Step(c, e).lru, key, seen + TouchedBy(c, e))
  {
    match e
    case Load(now, k) => LoadRetains(c, k, now, key, seen);
    case Store(now, k, value) =>
      if k == "" || value.None? {
        assert seen + {} == seen;
      } else {
        StoreRetains(c, k, value.value, now, key, seen);
      }
  }

  lemma {:induction false} RunRetains(c: Cache, es: seq<Event>, key: string, seen: set<string>, t: int)
    requires Valid(c) && AheadIn(c.lru, key, seen) && key in c.entries
    requires Timed(es, At, t) && EndTime(es, At, t) <= c.entries[key].expireAt
    requires forall i :: 0 <= i < |es| ==> es[i].key != key
    requires |seen + Touched(c, es)| < c.maxSize
    ensures key in Run(c, es).entries && Run(c, es).entries[key] == c.entries[key]
    decreases es
  {
    if es != [] {
      var e := es[0];
      assert seen + Touched(c, es) == seen + TouchedBy(c, e) + Touched(Step(c, e), es[1..]);
      SubsetSize(seen + TouchedBy(c, e), seen + Touched(c, es));
      EndsLater(es[1..], At, e.now);
      StepRetains(c, e, key, seen);
      StepKeepsValid(c, e);
      RunRetains(Step(c, e), es[1..], key, seen + TouchedBy(c, e), e.now);
    }
  }

  /** LRU retention. A key that was just touched (it heads the recency list) and is then left alone while
      fewer than the maximum of distinct other keys are touched still hits, with its last stored value, until its
      time to live after that store has passed. */
  lemma RecentKeyHits(maxSize: int, ttl: int, past: seq<Event>, es: seq<Event>, key: string, t: int, now: int)
    requires var c := Run(Empty(maxSize, ttl), past); var last := LastStore(past, key, None);
      && key != "" && c.lru != [] && c.lru[0] == key && key in c.entries && last.Some?
      && Timed(es, At, t) && EndTime(es, At, t) <= now <= last.value.1 + (if ttl <= 0 then 600_000_000_000 else ttl)
      && |Touched(c, es)| < (if maxSize <= 0 then 1000 else maxSize)
    requires forall i :: 0 <= i < |es| ==> es[i].key != key
    ensures var c := Run(Empty(maxSize, ttl), past); var last := LastStore(past, key, None);
      last.Some? && Loaded(Run(c, es), key, now) == Some(last.value.0)
  {
    var c := Run(Empty(maxSize, ttl), past);
    RunKeepsValid(Empty(maxSize, ttl), past);
    RunHoldsLast(Empty(maxSize, ttl), past, key, None);
    assert AheadAt(c.lru, key, {}, 0);
    assert {} + Touched(c, es) == Touched(c, es);
    RunRetains(c, es, key, {}, t);
  }

  /** What being touched means: the key heads the list. */
  lemma TouchHeadsList(c: Cache, e: Event)
    requires TouchedBy(c, e) != {}
    ensures var d := Step(c, e); d.lru != [] && d.lru[0] == e.key && e.key in d.entries && TouchedBy(c, e) == {e.key}
  {
  }

  // ----- what one call changes -----

  /** The key that eviction would drop: the least recently touched one, if the cache is full and nothing has expired. */
  ghost predicate Sacrificed(c: Cache, key: string, now: int) {
    && |c.entries| >= c.maxSize
    && (forall k :: k in c.entries ==> now <= c.entries[k].expireAt)
    && c.lru != [] && key == c.lru[|c.lru| - 1]
  }

  lemma {:induction false} NoneExpired(c: Cache, s: seq<string>, now: int)
    requires forall k :: k in s && k in c.entries ==> now <= c.entries[k].expireAt
    ensures Live(c, s, now) == s
  {
    if s != [] {
      NoneExpired(c, s[1..], now);
    }
  }

  lemma {:induction false} SomeExpired(c: Cache, s: seq<string>, k: string, now: int)
    requires k in s && k in c.entries && c.entries[k].expireAt < now
    ensures |Live(c, s, now)| < |s|
  {
    LiveShorter(c, s[1..], now);
    if s[0] != k && !(s[0] in c.entries && Expired(c.entries[s[0]], now)) {
      SomeExpired(c, s[1..], k, now);
    }
  }

  lemma PurgeNothing(c: Cache, now: int)
    requires Valid(c) && forall k :: k in c.entries ==> now <= c.entries[k].expireAt
    ensures Purged(c, now) == c
  {
    NoneExpired(c, c.lru, now);
    assert Purged(c, now).entries == c.entries;
  }

  lemma PurgeMakesRoom(c: Cache, k: string, now: int)
    requires Valid(c) && k in c.entries && c.entries[k].expireAt < now
    ensures Trimmed(Purged(c, now)) == Purged(c, now)
  {
    SomeExpired(c, c.lru, k, now);
    PurgedValid(c, now);
    TrimmedFacts(Purged(c, now));
  }

  lemma EvictedIs(c: Cache, now: int, key: string)
    requires Valid(c) && |c.entries| >= c.maxSize && key in c.entries && now <= c.entries[key].expireAt
    ensures key in Trimmed(Purged(c, now)).entries <==> !Sacrificed(c, key, now)
  {
    if forall k :: k in c.entries ==> now <= c.entries[k].expireAt {
      PurgeNothing(c, now);
      TrimmedFacts(c);
    } else {
      var k :| k in c.entries && c.entries[k].expireAt < now;
      PurgeMakesRoom(c, k, now);
    }
  }

  /** Storing is seen by lookups of that key at once, for the time to live; of all other keys it costs at most one its
      entry: with a new key, a full cache and nothing expired, the least recently touched. */
  lemma StoreIsSeen(c: Cache, key: string, value: Signature, now: int, other: string)
    requires Valid(c) && key != ""
    ensures var d := AfterStore(c, key, Some(value), now);
      && (forall t :: Loaded(d, key, t) == if t <= now + c.ttl then Some(value) else None)
      && (other != key ==>
            Loaded(d, other, now)
              == if key !in c.entries && Sacrificed(c, other, now) then None else Loaded(c, other, now))
  {
    if key !in c.entries && |c.entries| >= c.maxSize {
      EvictionKeepsEntries(c, now);
      if Hits(c, other, now) {
        EvictedIs(c, now, other);
      }
    }
  }

  /** A lookup changes no value and no time to live; what it leaves under its key is live and at the head of the
      list. Storing nothing, or under no key, does nothing. */
  lemma LoadOnlyLooks(c: Cache, key: string, now: int, other: string, t: int, value: Option<Signature>)
    requires now <= t
    ensures Loaded(AfterLoad(c, key, now), other, t) == Loaded(c, other, t)
    ensures var d := AfterLoad(c, key, now);
      && (key != "" && key in d.entries ==> now <= d.entries[key].expireAt && d.lru != [] && d.lru[0] == key)
      && (other != key ==> (other in d.entries <==> other in c.entries))
    ensures AfterStore(c, "", value, now) == c && AfterStore(c, key, None, now) == c && AfterLoad(c, "", now) == c
  {
  }

  /** The defaults for sizes and times that are not positive. */
  lemma DefaultsApply(maxSize: int, ttl: int)
    ensures Empty(maxSize, ttl).maxSize == (if maxSize <= 0 then 1000 else maxSize)
    ensures Empty(maxSize, ttl).ttl == if ttl <= 0 then 600_000_000_000 else ttl
  {
  }

  // ----- scoped views -----

  const SEPARATOR: char := 31 as char

  function ScopedKey(scope: string, key: string): string {
    scope + [SEPARATOR] + key
  }

  lemma {:induction false} CutAtSeparator(a: string, b: string, x: string, y: string)
    requires SEPARATOR !in a && SEPARATOR !in b
    requires a + [SEPARATOR] + x == b + [SEPARATOR] + y
    ensures a == b && x == y
  {
    assert (a + [SEPARATOR] + x)[0] == if a == "" then SEPARATOR else a[0];
    assert (b + [SEPARATOR] + y)[0] == if b == "" then SEPARATOR else b[0];
    if a != "" && b != "" {
      assert a[1..] + [SEPARATOR] + x == (a + [SEPARATOR] + x)[1..] == (b + [SEPARATOR] + y)[1..]
        == b[1..] + [SEPARATOR] + y;
      CutAtSeparator(a[1..], b[1..], x, y);
      assert a == [a[0]] + a[1..] && b == [b[0]] + b[1..];
    } else if a == "" && b == "" {
      assert (a + [SEPARATOR] + x)[1..] == x && (b + [SEPARATOR] + y)[1..] == y;
    }
  }

  /** Two different scopes can address the same entry exactly when one extends the other past a separator. */
  lemma ScopesCollideIff(a: string, b: string)
    requires a != b
    ensures (exists x, y :: ScopedKey(a, x) == ScopedKey(b, y)) <==> a + [SEPARATOR] <= b || b + [SEPARATOR] <= a
  {
    if x, y :| ScopedKey(a, x) == ScopedKey(b, y) {
      var s := ScopedKey(a, x);
      assert a == s[..|a|] && b == ScopedKey(b, y)[..|b|] == s[..|b|];
      if |a| < |b| {
        assert s[|a|] == SEPARATOR && a + [SEPARATOR] == s[..|a| + 1] <= b;
      } else if |b| < |a| {
        assert ScopedKey(b, y)[|b|] == SEPARATOR && b + [SEPARATOR] == s[..|b| + 1] <= a;
      }
    }
    if a + [SEPARATOR] <= b {
      var x := b[|a| + 1..] + [SEPARATOR];
      assert b == a + [SEPARATOR] + b[|a| + 1..];
      assert ScopedKey(a, x) == ScopedKey(b, "");
    }
    if b + [SEPARATOR] <= a {
      var y := a[|b| + 1..] + [SEPARATOR];
      assert a == b + [SEPARATOR] + a[|b| + 1..];
      assert ScopedKey(a, "") == ScopedKey(b, y);
    }
  }

  datatype ScopedEvent =
    | ScopedStore(now: int, scope: string, key: string, value: Option<Signature>)
    | ScopedLoad(now: int, scope: string, key: string)

  /** A view ignores empty keys and passes everything else on under the scoped key. */
  function Forward(e: ScopedEvent): Event {
    match e
    case ScopedStore(now, scope, key, value) =>
      if key == "" then Event.Store(now, "", None) else Event.Store(now, ScopedKey(scope, key), value)
    case ScopedLoad(now, scope, key) =>
      if key == "" then Event.Load(now, "") else Event.Load(now, ScopedKey(scope, key))
  }

  function ForwardAll(es: seq<ScopedEvent>): (r: seq<Event>)
    ensures |r| == |es|
  {
    if es == [] then [] else [Forward(es[0])] + ForwardAll(es[1..])
  }

  function LastScopedStore(es: seq<ScopedEvent>, scope: string, key: string,
                           before: Option<(Signature, int)>): Option<(Signature, int)>
    decreases es
  {
    if es == [] then before
    else if es[0].ScopedStore? && es[0].scope == scope && es[0].key == key && key != "" && es[0].value.Some?
    then LastScopedStore(es[1..], scope, key, Some((es[0].value.value, es[0].now)))
    else LastScopedStore(es[1..], scope, key, before)
  }

  lemma {:induction false} ScopedLast(es: seq<ScopedEvent>, scope: string, key: string,
                                      before: Option<(Signature, int)>)
    requires SEPARATOR !in scope && key != ""
    requires forall i :: 0 <= i < |es| ==> SEPARATOR !in es[i].scope
    ensures LastStore(ForwardAll(es), ScopedKey(scope, key), before) == LastScopedStore(es, scope, key, before)
    decreases es
  {
    if es != [] {
      var e := es[0];
      if Forward(e).key == ScopedKey(scope, key) && e.key != "" {
        CutAtSeparator(e.scope, scope, e.key, key);
      }
      var next := if e.ScopedStore? && e.scope == scope && e.key == key && e.value.Some?
        then Some((e.value.value, e.now)) else before;
      ScopedLast(es[1..], scope, key, next);
      assert ForwardAll(es)[1..] == ForwardAll(es[1..]);
    }
  }

  /** Views whose scopes lack the separator never read each other's values: a hit through one scope returns
      what was last stored under that key through that very scope. */
  lemma ScopesAreIsolated(maxSize: int, ttl: int, es: seq<ScopedEvent>, scope: string, key: string, now: int)
    requires SEPARATOR !in scope && key != ""
    requires forall i :: 0 <= i < |es| ==> SEPARATOR !in es[i].scope
    requires Hits(Run(Empty(maxSize, ttl), ForwardAll(es)), ScopedKey(scope, key), now)
    ensures var last := LastScopedStore(es, scope, key, None);
      last.Some? && Loaded(Run(Empty(maxSize, ttl), ForwardAll(es)), ScopedKey(scope, key), now) == Some(last.value.0)
  {
    HitsAreLastAndLive(maxSize, ttl, ForwardAll(es), ScopedKey(scope, key), now);
    ScopedLast(es, scope, key, None);
  }
}
