/** Per-key request windows and daily token budgets, and per-provider daily budgets. */
module KeyLimits {
  import opened Common

  /** Nanoseconds on one time line; 0 is the Unix epoch and the zero `time.Time` lies far before it. */
  const MINUTE: int := 60_000_000_000
  const DAY: int := 86_400_000_000_000

  /** The UTC day of an instant. */
  function DayOf(now: int): int {
    now / DAY
  }

  datatype KeyUsage = KeyUsage(windowStart: int, count: nat, day: Option<int>, dayTokens: int)

  const FRESH_KEY := KeyUsage(ZERO_TIME, 0, None, 0)

  datatype ProviderUsage = ProviderUsage(day: Option<int>, dayTokens: int)

  const FRESH_PROVIDER := ProviderUsage(None, 0)

  datatype Tracker = Tracker(keys: map<string, KeyUsage>, providers: map<string, ProviderUsage>)

  const EMPTY := Tracker(map[], map[])

  function KeyOf(t: Tracker, key: string): KeyUsage {
    if key in t.keys then t.keys[key] else FRESH_KEY
  }

  function ProviderOf(t: Tracker, p: string): ProviderUsage {
    if p in t.providers then t.providers[p] else FRESH_PROVIDER
  }

  function RollDay(u: KeyUsage, now: int): KeyUsage {
    if u.day != Some(DayOf(now)) then u.(day := Some(DayOf(now)), dayTokens := 0) else u
  }

  function RollWindow(u: KeyUsage, now: int): KeyUsage {
    if now - u.windowStart >= MINUTE then u.(windowStart := now, count := 0) else u
  }

  /** A request under a positive limit. */
  function Request(u: KeyUsage, maxRPM: int, now: int): (KeyUsage, bool) {
    var v := RollWindow(RollDay(u, now), now);
    if v.count >= maxRPM then (v, false) else (v.(count := v.count + 1), true)
  }

  /** A charge of positive size against a positive budget. */
  function Charge(u: KeyUsage, budget: int, tokens: int, now: int): (KeyUsage, bool) {
    var v := RollDay(u, now);
    if v.dayTokens + tokens > budget then (v, false) else (v.(dayTokens := v.dayTokens + tokens), true)
  }

  function ProviderCharge(u: ProviderUsage, tier: string, budget: int, tokens: int, now: int): (ProviderUsage, bool) {
    var v := if u.day != Some(DayOf(now)) then ProviderUsage(Some(DayOf(now)), 0) else u;
    if v.dayTokens + tokens > budget && tier != "always" then (v, false)
    else (v.(dayTokens := v.dayTokens + tokens), true)
  }

  datatype Event =
    | AllowRequest(now: int, key: string, maxRPM: int)
    | ChargeTokens(now: int, key: string, budget: int, tokens: int)
    | AllowProvider(now: int, provider: string, tier: string, budget: int, tokens: int)

  /** What a call does, and whether it is allowed. A limit that is not positive means no limit, and nothing
      is recorded. */
  function Step(t: Tracker, e: Event): (Tracker, bool) {
    match e
    case AllowRequest(now, key, maxRPM) =>
      if maxRPM <= 0 then (t, true)
      else
        var (u, ok) := Request(KeyOf(t, key), maxRPM, now);
        (t.(keys := t.keys[key := u]), ok)
    case ChargeTokens(now, key, budget, tokens) =>
      if budget <= 0 || tokens <= 0 then (t, true)
      else
        var (u, ok) := Charge(KeyOf(t, key), budget, tokens, now);
        (t.(keys := t.keys[key := u]), ok)
    case AllowProvider(now, provider, tier, budget, tokens) =>
      if budget <= 0 || tokens <= 0 then (t, true)
      else
        var (u, ok) := ProviderCharge(ProviderOf(t, provider), tier, budget, tokens, now);
        (t.(providers := t.providers[provider := u]), ok)
  }

  // ----- the tracker object -----

  class KeyUsageTracker {
    var keys: map<string, KeyUsage>
    var providers: map<string, ProviderUsage>

    function State(): Tracker
      reads this
    {
      Tracker(keys, providers)
    }

    constructor ()
      ensures State() == EMPTY
    {
      keys, providers := map[], map[];
    }

    method AllowRequest(key: string, maxRPM: int, now: int) returns (ok: bool)
      modifies this`keys
      ensures (State(), ok) == Step(old(State()), Event.AllowRequest(now, key, maxRPM))
    {
      if maxRPM <= 0 {
        return true;
      }
      var u := if key in keys then keys[key] else FRESH_KEY;
      u := RollDay(u, now);
      if now - u.windowStart >= MINUTE {
        u := u.(windowStart := now, count := 0);
      }
      if u.count >= maxRPM {
        keys := keys[key := u];
        return false;
      }
      keys := keys[key := u.(count := u.count + 1)];
      return true;
    }

    method ChargeKeyTokens(key: string, dailyBudget: int, tokens: int, now: int) returns (ok: bool)
      modifies this`keys
      ensures (State(), ok) == Step(old(State()), ChargeTokens(now, key, dailyBudget, tokens))
    {
      if dailyBudget <= 0 || tokens <= 0 {
        return true;
      }
      var u := if key in keys then keys[key] else FRESH_KEY;
      u := RollDay(u, now);
      if u.dayTokens + tokens > dailyBudget {
        keys := keys[key := u];
        return false;
      }
      keys := keys[key := u.(dayTokens := u.dayTokens + tokens)];
      return true;
    }

    method AllowProviderTokens(provider: string, tier: string, budget: int, tokens: int, now: int) returns (ok: bool)
      modifies this`providers
      ensures (State(), ok) == Step(old(State()), AllowProvider(now, provider, tier, budget, tokens))
    {
      if budget <= 0 || tokens <= 0 {
        return true;
      }
      var u := if provider in providers then providers[provider] else FRESH_PROVIDER;
      if u.day != Some(DayOf(now)) {
        u := ProviderUsage(Some(DayOf(now)), 0);
      }
      if u.dayTokens + tokens > budget && tier != "always" {
        providers := providers[provider := u];
        return false;
      }
      providers := providers[provider := u.(dayTokens := u.dayTokens + tokens)];
      return true;
    }
  }

  // ----- runs -----

  /** When an event happens. */
  function At(e: Event): int {
    e.now
  }

  function Run(t: Tracker, es: seq<Event>): Tracker
    decreases es
  {
    if es == [] then t else Run(Step(t, es[0]).0, es[1..])
  }

  /** Requests of `key` that a run admits within the half-open minute from `a`. */
  function Admitted(t: Tracker, es: seq<Event>, key: string, a: int): nat
    decreases es
  {
    if es == [] then 0
    else
      var (next, ok) := Step(t, es[0]);
      (if es[0].AllowRequest? && es[0].key == key && ok && a <= es[0].now < a + MINUTE then 1 else 0)
      + Admitted(next, es[1..], key, a)
  }

  /** All limits of `key` in the run are `r`. */
  predicate FixedLimit(es: seq<Event>, key: string, r: int) {
    forall e | e in es :: e.AllowRequest? && e.key == key ==> e.maxRPM == r
  }

  /** A window that counts requests was opened by an admitted one, no later than `now`. */
  predicate WindowOk(u: KeyUsage, r: int, now: int) {
    u.count <= r && (if u.count == 0 then u.windowStart == ZERO_TIME else u.windowStart <= now)
  }

  /** How many more requests can be admitted within the minute from `a`, at time `t`. */
  function Allowance(u: KeyUsage, r: int, a: int, t: int): int {
    if t >= a + MINUTE then 0
    else if t < a then 2 * r - 1
    else if u.count == 0 then r
    else if u.windowStart < a then 2 * r - u.count
    else r - u.count
  }

  /** One request within its allowance. */
  lemma RequestWithinAllowance(u: KeyUsage, r: int, a: int, t: int, now: int)
    requires r > 0 && WindowOk(u, r, t) && ZERO_TIME + MINUTE <= t <= now
    ensures var (v, ok) := Request(u, r, now);
      && WindowOk(v, r, now)
      && (if ok && a <= now < a + MINUTE then 1 else 0) + Allowance(v, r, a, now) <= Allowance(u, r, a, t)
  {
  }

  lemma AllowanceShrinks(u: KeyUsage, v: KeyUsage, r: int, a: int, t: int, now: int)
    requires r > 0 && WindowOk(u, r, t) && t <= now && v.windowStart == u.windowStart && v.count == u.count
    ensures WindowOk(v, r, now) && Allowance(v, r, a, now) <= Allowance(u, r, a, t)
  {
  }

  lemma {:induction false} AdmittedWithinAllowance(t: Tracker, es: seq<Event>, key: string, r: int, a: int, now: int)
    requires r > 0 && Timed(es, At, now) && FixedLimit(es, key, r)
    requires now >= ZERO_TIME + MINUTE && WindowOk(KeyOf(t, key), r, now)
    ensures Admitted(t, es, key, a) <= Allowance(KeyOf(t, key), r, a, now)
    decreases es
  {
    if es != [] {
      var e := es[0];
      var (next, ok) := Step(t, e);
      if e.AllowRequest? && e.key == key {
        RequestWithinAllowance(KeyOf(t, key), r, a, now, e.now);
      } else {
        AllowanceShrinks(KeyOf(t, key), KeyOf(next, key), r, a, now, e.now);
      }
      AdmittedWithinAllowance(next, es[1..], key, r, a, e.now);
    }
  }

  /** Rate bound. Over any run with a fixed limit, any half-open minute admits fewer than twice the limit. */
  lemma RateBound(es: seq<Event>, key: string, r: int, a: int, start: int)
    requires r > 0 && start >= ZERO_TIME + MINUTE && Timed(es, At, start) && FixedLimit(es, key, r)
    ensures Admitted(EMPTY, es, key, a) <= 2 * r - 1
  {
    AdmittedWithinAllowance(EMPTY, es, key, r, a, start);
  }

  // ----- the rate bound is reached -----

  function Burst(n: nat, now: int, key: string, r: int): seq<Event> {
    if n == 0 then [] else [Event.AllowRequest(now, key, r)] + Burst(n - 1, now, key, r)
  }

  /** A burst inside the minute, after which the run goes on with `rest`. */
  lemma {:induction false} BurstAdmitted(t: Tracker, n: nat, now: int, key: string, r: int, a: int, rest: seq<Event>)
    returns (next: Tracker)
    requires r > 0 && a <= now < a + MINUTE
    requires KeyOf(t, key).windowStart <= now < KeyOf(t, key).windowStart + MINUTE && KeyOf(t, key).count + n <= r
    ensures Admitted(t, Burst(n, now, key, r) + rest, key, a) == n + Admitted(next, rest, key, a)
    ensures KeyOf(next, key).windowStart == KeyOf(t, key).windowStart
      && KeyOf(next, key).count == KeyOf(t, key).count + n
    decreases n
  {
    var es := Burst(n, now, key, r) + rest;
    if n == 0 {
      assert es == rest;
      next := t;
    } else {
      assert es[0] == Event.AllowRequest(now, key, r) && es[1..] == Burst(n - 1, now, key, r) + rest;
      var s := Step(t, es[0]).0;
      next := BurstAdmitted(s, n - 1, now, key, r, a, rest);
    }
  }

  /** The worst run: one request opens a window, the rest of it is used up just before it ends, and a whole
      new window right after. */
  function WorstRun(key: string, r: int): seq<Event>
    requires r > 0
  {
    [Event.AllowRequest(0, key, r)]
      + (Burst(r - 1, MINUTE - 1, key, r)
        + ([Event.AllowRequest(MINUTE, key, r)] + (Burst(r - 1, MINUTE, key, r) + [])))
  }

  lemma {:induction false} BurstTimed(n: nat, now: int, t: int, key: string, r: int, rest: seq<Event>)
    requires t <= now && Timed(rest, At, now)
    ensures Timed(Burst(n, now, key, r) + rest, At, t)
    decreases n
  {
    var es := Burst(n, now, key, r) + rest;
    if n == 0 {
      assert es == rest;
    } else {
      assert es[1..] == Burst(n - 1, now, key, r) + rest;
      BurstTimed(n - 1, now, now, key, r, rest);
    }
  }

  lemma WorstRunTimed(key: string, r: int)
    requires r > 0
    ensures Timed(WorstRun(key, r), At, 0)
  {
    var last := Burst(r - 1, MINUTE, key, r) + [];
    var third := [Event.AllowRequest(MINUTE, key, r)] + last;
    var second := Burst(r - 1, MINUTE - 1, key, r) + third;
    assert ([Event.AllowRequest(0, key, r)] + second)[1..] == second && third[1..] == last;
    BurstTimed(r - 1, MINUTE, MINUTE, key, r, []);
    BurstTimed(r - 1, MINUTE - 1, 0, key, r, third);
  }

  lemma RateBoundIsReached(key: string, r: int)
    requires r > 0
    ensures Timed(WorstRun(key, r), At, 0) && Admitted(EMPTY, WorstRun(key, r), key, 1) == 2 * r - 1
  {
    var last := Burst(r - 1, MINUTE, key, r) + [];
    var third := [Event.AllowRequest(MINUTE, key, r)] + last;
    var second := Burst(r - 1, MINUTE - 1, key, r) + third;
    var first := [Event.AllowRequest(0, key, r)] + second;
    assert first[1..] == second && third[1..] == last;
    WorstRunTimed(key, r);
    var t1 := Step(EMPTY, first[0]).0;
    assert KeyOf(t1, key).windowStart == 0 && KeyOf(t1, key).count == 1;
    var t2 := BurstAdmitted(t1, r - 1, MINUTE - 1, key, r, 1, third);
    var t3 := Step(t2, third[0]).0;
    assert KeyOf(t3, key).windowStart == MINUTE && KeyOf(t3, key).count == 1;
    var t4 := BurstAdmitted(t3, r - 1, MINUTE, key, r, 1, []);
  }

  // ----- daily budgets -----

  /** Tokens a run charges to `key` on day `d`. */
  function Charged(t: Tracker, es: seq<Event>, key: string, d: int): int
    decreases es
  {
    if es == [] then 0
    else
      var (next, ok) := Step(t, es[0]);
      (if es[0].ChargeTokens? && es[0].key == key && es[0].tokens > 0 && ok && DayOf(es[0].now) == d
       then es[0].tokens else 0)
      + Charged(next, es[1..], key, d)
  }

  /** No budget of `key` in the run exceeds `b`, and none is unlimited. */
  predicate BudgetsWithin(es: seq<Event>, key: string, b: int) {
    forall e | e in es :: e.ChargeTokens? && e.key == key ==> 0 < e.budget <= b
  }

  /** What is left of the day's budget. */
  function Left(u: KeyUsage, b: int, d: int, t: int): int {
    if DayOf(t) > d then 0 else if u.day == Some(d) then b - u.dayTokens else b
  }

  predicate DayOk(u: KeyUsage, b: int, t: int) {
    u.day.Some? ==> u.day.value <= DayOf(t) && 0 <= u.dayTokens <= b
  }

  lemma DayMonotone(t: int, u: int)
    requires t <= u
    ensures DayOf(t) <= DayOf(u)
  {
  }

  lemma {:induction false} ChargedWithinLeft(t: Tracker, es: seq<Event>, key: string, b: int, d: int, now: int)
    requires b > 0 && Timed(es, At, now) && BudgetsWithin(es, key, b) && DayOk(KeyOf(t, key), b, now)
    ensures Charged(t, es, key, d) <= Left(KeyOf(t, key), b, d, now)
    decreases es
  {
    if es != [] {
      var e := es[0];
      var next := Step(t, e).0;
      DayMonotone(now, e.now);
      ChargedWithinLeft(next, es[1..], key, b, d, e.now);
    }
  }

  /** Budget bound. The tokens charged to a key within one UTC day never exceed its budget, whatever the
      requests and other charges in between. */
  lemma DailyBudgetBound(es: seq<Event>, key: string, b: int, d: int, start: int)
    requires b > 0 && Timed(es, At, start) && BudgetsWithin(es, key, b)
    ensures Charged(EMPTY, es, key, d) <= b
  {
    ChargedWithinLeft(EMPTY, es, key, b, d, start);
  }

  /** Tokens a run charges to provider `p` on day `d`. */
  function ProviderCharged(t: Tracker, es: seq<Event>, p: string, d: int): int
    decreases es
  {
    if es == [] then 0
    else
      var (next, ok) := Step(t, es[0]);
      (if Charges(es[0], p) && ok && DayOf(es[0].now) == d then es[0].tokens else 0)
      + ProviderCharged(next, es[1..], p, d)
  }

  /** A limited charge to provider `p`. */
  predicate Charges(e: Event, p: string) {
    e.AllowProvider? && e.provider == p && e.budget > 0 && e.tokens > 0
  }

  /** What the provider's record shows for day `d`. */
  function Recorded(u: ProviderUsage, d: int): int {
    if u.day == Some(d) then u.dayTokens else 0
  }

  /** The record shows exactly what the run charged, for the day the run ends on and any later one. */
  lemma {:induction false} RecordIsSum(t: Tracker, es: seq<Event>, p: string, d: int, now: int)
    requires Timed(es, At, now) && DayOf(EndTime(es, At, now)) <= d
    requires ProviderOf(t, p).day.Some? ==> ProviderOf(t, p).day.value <= DayOf(now)
    ensures Recorded(ProviderOf(Run(t, es), p), d) == Recorded(ProviderOf(t, p), d) + ProviderCharged(t, es, p, d)
    decreases es
  {
    if es != [] {
      var e := es[0];
      DayMonotone(now, e.now);
      EndsLater(es[1..], At, e.now);
      DayMonotone(e.now, EndTime(es[1..], At, e.now));
      RecordIsSum(Step(t, e).0, es[1..], p, d, e.now);
    }
  }

  /** Just after any admission that is not of the "always" tier, all the tokens charged to the provider that
      day, this charge included, are within the budget of the call; and a call is refused only if they would not be. */
  lemma ProviderWithinBudget(es: seq<Event>, p: string, e: Event, start: int)
    requires Timed(es, At, start) && EndTime(es, At, start) <= e.now && Charges(e, p) && e.tier != "always"
    ensures var total := ProviderCharged(EMPTY, es, p, DayOf(e.now));
      Step(Run(EMPTY, es), e).1 <==> total + e.tokens <= e.budget
  {
    DayMonotone(EndTime(es, At, start), e.now);
    RecordIsSum(EMPTY, es, p, DayOf(e.now), start);
  }

  // ----- what a key is refused -----

  /** A limited charge to `key`. */
  predicate ChargesKey(e: Event, key: string) {
    e.ChargeTokens? && e.key == key && e.budget > 0 && e.tokens > 0
  }

  /** Tokens a run charges to `key` on day `d`, counting limited charges only. */
  function KeyCharged(t: Tracker, es: seq<Event>, key: string, d: int): int
    decreases es
  {
    if es == [] then 0
    else
      var (next, ok) := Step(t, es[0]);
      (if ChargesKey(es[0], key) && ok && es[0].now / 86_400_000_000_000 == d then es[0].tokens else 0)
      + KeyCharged(next, es[1..], key, d)
  }

  function KeyRecorded(u: KeyUsage, d: int): int {
    if u.day == Some(d) then u.dayTokens else 0
  }

  lemma {:induction false} KeyRecordIsSum(t: Tracker, es: seq<Event>, key: string, d: int, now: int)
    requires Timed(es, At, now) && DayOf(EndTime(es, At, now)) <= d
    requires KeyOf(t, key).day.Some? ==> KeyOf(t, key).day.value <= DayOf(now)
    ensures KeyRecorded(KeyOf(Run(t, es), key), d) == KeyRecorded(KeyOf(t, key), d) + KeyCharged(t, es, key, d)
    decreases es
  {
    if es != [] {
      var e := es[0];
      DayMonotone(now, e.now);
      EndsLater(es[1..], At, e.now);
      DayMonotone(e.now, EndTime(es[1..], At, e.now));
      KeyRecordIsSum(Step(t, e).0, es[1..], key, d, e.now);
    }
  }

  /** A charge to a key is admitted exactly when the tokens charged to it that UTC day, this charge included, are within
      the budget of the call. */
  lemma KeyWithinBudget(es: seq<Event>, key: string, e: Event, start: int)
    requires Timed(es, At, start) && EndTime(es, At, start) <= e.now && ChargesKey(e, key)
    ensures var total := KeyCharged(EMPTY, es, key, e.now / 86_400_000_000_000);
      Step(Run(EMPTY, es), e).1 <==> total + e.tokens <= e.budget
  {
    DayMonotone(EndTime(es, At, start), e.now);
    KeyRecordIsSum(EMPTY, es, key, DayOf(e.now), start);
  }

  /** Requests of `key` that a run admits at or after `a`. */
  function AdmittedSince(t: Tracker, es: seq<Event>, key: string, a: int): nat
    decreases es
  {
    if es == [] then 0
    else
      var (next, ok) := Step(t, es[0]);
      (if es[0].AllowRequest? && es[0].key == key && es[0].maxRPM > 0 && ok && es[0].now >= a then 1 else 0)
      + AdmittedSince(next, es[1..], key, a)
  }

  /** The window counts exactly the requests admitted since it was opened. */
  lemma {:induction false} WindowCounts(t: Tracker, es: seq<Event>, key: string, r: int, a: int, now: int)
    requires r > 0 && Timed(es, At, now) && FixedLimit(es, key, r) && now >= ZERO_TIME + MINUTE
    requires WindowOk(KeyOf(t, key), r, now) && KeyOf(t, key).windowStart <= now
    requires a == KeyOf(Run(t, es), key).windowStart
    ensures KeyOf(Run(t, es), key).count
      == AdmittedSince(t, es, key, a) + (if KeyOf(t, key).windowStart == a then KeyOf(t, key).count else 0)
    ensures KeyOf(t, key).windowStart == a || KeyOf(t, key).windowStart + MINUTE <= a
    decreases es
  {
    if es != [] {
      var e := es[0];
      var next := Step(t, e).0;
      WindowCounts(next, es[1..], key, r, a, e.now);
    }
  }

  /** Under a limit, a request is refused only if the limit has been used up within the last minute; without one it is
      always admitted. */
  lemma RefusedOnlyWhenFull(es: seq<Event>, key: string, r: int, start: int, now: int)
    requires start >= ZERO_TIME + MINUTE && Timed(es, At, start) && FixedLimit(es, key, r)
    requires EndTime(es, At, start) <= now
    ensures r <= 0 ==> Step(Run(EMPTY, es), Event.AllowRequest(now, key, r)).1
    ensures r > 0 && !Step(Run(EMPTY, es), Event.AllowRequest(now, key, r)).1 ==>
      exists a :: now - 60_000_000_000 < a <= now && AdmittedSince(EMPTY, es, key, a) == r
  {
    if r > 0 {
      var u := KeyOf(Run(EMPTY, es), key);
      WindowCounts(EMPTY, es, key, r, u.windowStart, start);
      WindowStaysOk(EMPTY, es, key, r, start);
    }
  }

  lemma {:induction false} WindowStaysOk(t: Tracker, es: seq<Event>, key: string, r: int, now: int)
    requires r > 0 && Timed(es, At, now) && FixedLimit(es, key, r) && WindowOk(KeyOf(t, key), r, now)
    requires now >= ZERO_TIME + MINUTE
    ensures WindowOk(KeyOf(Run(t, es), key), r, EndTime(es, At, now))
    decreases es
  {
    if es != [] {
      WindowStaysOk(Step(t, es[0]).0, es[1..], key, r, es[0].now);
    }
  }

  /** Without a positive limit everything is admitted and nothing recorded; so is what charges no tokens; and the
      "always" tier is admitted whatever the budget, but recorded. */
  lemma NeverRefused(t: Tracker, e: Event, key: string)
    ensures e.AllowRequest? && e.maxRPM <= 0 ==> Step(t, e) == (t, true)
    ensures e.ChargeTokens? && (e.budget <= 0 || e.tokens <= 0) ==> Step(t, e) == (t, true)
    ensures e.AllowProvider? && (e.budget <= 0 || e.tokens <= 0) ==> Step(t, e) == (t, true)
    ensures e.AllowProvider? && e.tier == "always" ==> Step(t, e).1
    ensures !e.AllowProvider? && key != e.key ==> KeyOf(Step(t, e).0, key) == KeyOf(t, key)
    ensures !e.AllowProvider? ==> Step(t, e).0.providers == t.providers
    ensures e.AllowProvider? ==> Step(t, e).0.keys == t.keys
  {
  }

  /** Days are those of UTC, midnight to midnight. */
  lemma DaysAre(now: int, d: int)
    ensures DayOf(now) == d <==> d * 86_400_000_000_000 <= now < (d + 1) * 86_400_000_000_000
  {
  }
}
