/** The error, backoff and model-lock state machine around the scheduler, over whole runs. */
module PoolHealth {
  import opened Common
  import opened Accounts
  import opened AccountPool
  import opened PoolRuns

  // ----- backoff levels and cooldowns stay bounded -----

  const LONGEST_COOLDOWN: int := AUTH_ERROR_MS * MILLISECOND

  ghost predicate LevelsBounded(a: Account) {
    a.backoffLevel <= MAX_BACKOFF && forall m :: m in a.modelBackoff ==> a.modelBackoff[m] <= MAX_BACKOFF
  }

  /** No cooldown reaches further than the longest one past `t`, and no model lock further than `lock`. */
  ghost predicate CooldownsBounded(a: Account, t: int, lock: int) {
    && a.rateLimitedUntil <= t + LONGEST_COOLDOWN
    && forall m :: m in a.modelLocks ==> a.modelLocks[m] <= t + lock
  }

  ghost predicate Bounded(p: Pool, t: int, lock: int) {
    && ZERO_TIME <= t && LONGEST_COOLDOWN <= lock
    && forall i :: 0 <= i < |p.accounts| ==> LevelsBounded(p.accounts[i]) && CooldownsBounded(p.accounts[i], t, lock)
  }

  lemma WithErrorBounded(a: Account, now: int, model: string, status: int, message: string, lock: int)
    requires LevelsBounded(a) && CooldownsBounded(a, now, lock) && LONGEST_COOLDOWN <= lock
    ensures var b := WithError(a, now, model, status, message); LevelsBounded(b) && CooldownsBounded(b, now, lock)
  {
    assert ModelLevel(a, model) <= MAX_BACKOFF;
  }

  lemma StepBounded(p: Pool, e: Event, t: int, lock: int)
    requires t <= e.now && Bounded(p, t, lock)
    requires e.Lock? ==> e.until <= e.now + lock
    ensures Bounded(Step(p, e), e.now, lock)
  {
    forall i | 0 <= i < |p.accounts|
      ensures LevelsBounded(Step(p, e).accounts[i]) && CooldownsBounded(Step(p, e).accounts[i], e.now, lock)
    {
      assert LevelsBounded(p.accounts[i]) && CooldownsBounded(p.accounts[i], e.now, lock);
      if e.Select? {
        SelectClocks(p, e);
      } else if e.Fail? {
        WithErrorBounded(p.accounts[i], e.now, e.model, e.status, e.message, lock);
      }
    }
  }

  /** Over any run, backoff levels stay within 0..5 and no cooldown reaches further than 300 seconds past the
      present; nor does a model lock, unless one was asked for that is longer, and then no further than `lock`,
      the longest that was asked for. */
  lemma {:induction false} RunsStayBounded(p: Pool, es: seq<Event>, t: int, lock: int)
    requires Timed(es, At, t) && Bounded(p, t, lock)
    requires forall e :: e in es && e.Lock? ==> e.until <= e.now + lock
    ensures Bounded(Run(p, es), EndTime(es, At, t), lock)
    decreases es
  {
    if es != [] {
      StepBounded(p, es[0], t, lock);
      RunsStayBounded(Step(p, es[0]), es[1..], es[0].now, lock);
    }
  }

  // ----- a model-scoped 429 -----

  /** A model-scoped 429 changes availability only for that account and that model, and there it
      replaces any previous lock by one that ends with the cooldown. */
  lemma ScopedErrorIsLocal(p: Pool, now: int, id: string, model: string, message: string, i: nat, other: string, t: int)
    requires Scoped(model, 429, message) && i < |p.accounts|
    ensures var q := AfterError(p, now, id, model, 429, message); var a := p.accounts[i];
      && |q.accounts| == |p.accounts|
      && (i != Find(p.accounts, id) || other != model ==> Healthy(q.accounts[i], other, t) == Healthy(a, other, t))
      && (i == Find(p.accounts, id) ==>
        (Healthy(q.accounts[i], model, t) <==>
          && a.status == Active
          && a.rateLimitedUntil <= t
          && now + Classify(429, message, ModelLevel(a, model)).cooldownMs * MILLISECOND <= t))
  {
  }

  // ----- an account in error -----

  /** No success is reported for account `i`. */
  ghost predicate NoSuccessFor(p: Pool, es: seq<Event>, i: nat)
    decreases es
  {
    es != [] ==>
      && !(es[0].Succeed? && Find(p.accounts, es[0].id) == i)
      && NoSuccessFor(Step(p, es[0]), es[1..], i)
  }

  /** Account `i` is neither picked nor pinned. */
  ghost predicate NeverServed(p: Pool, es: seq<Event>, i: nat)
    decreases es
  {
    es != [] ==> PickedBy(p, es[0]) != i && !Pins(p, es[0], i) && NeverServed(Step(p, es[0]), es[1..], i)
  }

  /** An account in error is passed over, and stays in error, unless a success is reported for it. */
  lemma StaysBenched(p: Pool, e: Event, i: nat)
    requires i < |p.accounts| && p.accounts[i].status == InError
    requires !(e.Succeed? && Find(p.accounts, e.id) == i)
    ensures PickedBy(p, e) != i && !Pins(p, e, i)
    ensures i < |Step(p, e).accounts| && Step(p, e).accounts[i].status == InError
  {
    if e.Select? {
      SelectClocks(p, e);
    } else {
      OtherTouches(p, e, i);
    }
  }

  /** Once in error, an account serves nothing until a success is reported for it. */
  lemma {:induction false} ErrorBenchesUntilSuccess(p: Pool, es: seq<Event>, i: nat)
    requires i < |p.accounts| && p.accounts[i].status == InError
    requires NoSuccessFor(p, es, i)
    ensures NeverServed(p, es, i)
    ensures i < |Run(p, es).accounts| && Run(p, es).accounts[i].status == InError
    decreases es
  {
    if es != [] {
      StaysBenched(p, es[0], i);
      ErrorBenchesUntilSuccess(Step(p, es[0]), es[1..], i);
    }
  }

  /** The first error that is not scoped to a model puts its account in error. */
  lemma UnscopedErrorBenches(p: Pool, now: int, id: string, model: string, status: int, message: string)
    requires !Scoped(model, status, message) && Find(p.accounts, id) >= 0
    ensures var k := Find(p.accounts, id);
      AfterError(p, now, id, model, status, message).accounts[k].status
        == if status == 429 || status >= 500 || status == 401 || status == 403 then InError else p.accounts[k].status
  {
  }

  /** Sticky selection passes the same gates as the rotation, moves the account's clock up to the present and
      never back, and touches nothing else. */
  lemma PinPassesTheGates(p: Pool, id: string, model: string, now: int)
    ensures var k := Find(p.accounts, id); var q := AfterPin(p, id, model, now);
      && (PinRefusal(p, id, model, now).None? <==> k >= 0 && Healthy(p.accounts[k], model, now))
      && (PinRefusal(p, id, model, now).Some? ==> q == p)
      && (PinRefusal(p, id, model, now).None? ==>
            && q.lastPicked == p.lastPicked && |q.accounts| == |p.accounts|
            && q.accounts[k].lastUsed >= now && (q.accounts[k].lastUsed == now || q.accounts[k] == p.accounts[k])
            && forall i :: 0 <= i < |p.accounts| && i != k ==> q.accounts[i] == p.accounts[i])
  {
  }

  // ----- escalation -----

  datatype RateLimit = RateLimit(now: int, model: string, message: string)

  /** The account after some rate-limit errors, one after the other. */
  function AfterRateLimits(a: Account, errors: seq<RateLimit>): Account {
    if errors == [] then a
    else
      var e := errors[|errors| - 1];
      WithError(AfterRateLimits(a, errors[..|errors| - 1]), e.now, e.model, 429, e.message)
  }

  /** Consecutive account-scoped 429s, whenever they come and whatever they say, double the cooldown from one
      second up to sixteen, save that a billing signal asks for the longest; one success forgets them all. */
  lemma {:induction false} BackoffDoubles(a: Account, errors: seq<RateLimit>)
    requires a.backoffLevel == 0 && errors != []
    requires forall e :: e in errors ==> !Scoped(e.model, 429, e.message)
    ensures var b := AfterRateLimits(a, errors); var e := errors[|errors| - 1];
      var level := if |errors| < MAX_BACKOFF then |errors| else MAX_BACKOFF;
      var cooldown := if BillingSignal(Lower(e.message))
        then AUTH_ERROR_MS else ShiftLeft(RATE_LIMIT_BASE_MS, level - 1);
      && b.backoffLevel == level && b.status == InError
      && b.rateLimitedUntil == e.now + cooldown * MILLISECOND
      && WithSuccess(b).backoffLevel == 0 && (e.now >= ZERO_TIME ==> WithSuccess(b).rateLimitedUntil <= e.now)
  {
    var front := errors[..|errors| - 1];
    if front != [] {
      BackoffDoubles(a, front);
    } else {
      assert AfterRateLimits(a, front) == a;
    }
    CooldownSteps();
  }

  lemma CooldownSteps()
    ensures ShiftLeft(RATE_LIMIT_BASE_MS, 0) == 1000 && ShiftLeft(RATE_LIMIT_BASE_MS, 1) == 2000
    ensures ShiftLeft(RATE_LIMIT_BASE_MS, 2) == 4000 && ShiftLeft(RATE_LIMIT_BASE_MS, 3) == 8000
    ensures ShiftLeft(RATE_LIMIT_BASE_MS, 4) == 16000
  {
  }

  // ----- purging expired locks -----

  /** The time until which a model is locked, seen from `t` on. */
  function LiveUntil(a: Account, model: string, t: int): int {
    if model in a.modelLocks && t < a.modelLocks[model] then a.modelLocks[model] else t
  }

  /** Two accounts that no selection at or after `t` can tell apart. */
  ghost predicate Alike(a: Account, b: Account, t: int) {
    && a == b.(modelLocks := a.modelLocks, modelBackoff := a.modelBackoff)
    && forall m :: LiveUntil(a, m, t) == LiveUntil(b, m, t)
  }

  ghost predicate AllAlike(as_: seq<Account>, bs: seq<Account>, t: int) {
    |as_| == |bs| && forall i :: 0 <= i < |as_| ==> Alike(as_[i], bs[i], t)
  }

  lemma AlikeLater(a: Account, b: Account, t: int, u: int)
    requires Alike(a, b, t) && t <= u
    ensures Alike(a, b, u)
    ensures forall m :: Healthy(a, m, u) == Healthy(b, m, u)
  {
    forall m
      ensures LiveUntil(a, m, u) == LiveUntil(b, m, u) && ModelLocked(a, m, u) == ModelLocked(b, m, u)
    {
      assert LiveUntil(a, m, t) == LiveUntil(b, m, t);
    }
  }

  /** Purging never changes an account's availability for any model, now or later. */
  lemma PurgeIsInvisible(a: Account, now: int)
    ensures Alike(Purged(a, now), a, now)
    ensures forall m, t :: now <= t ==> Healthy(Purged(a, now), m, t) == Healthy(a, m, t)
  {
    forall m
      ensures LiveUntil(Purged(a, now), m, now) == LiveUntil(a, m, now)
    {
    }
    forall m, t | now <= t
      ensures Healthy(Purged(a, now), m, t) == Healthy(a, m, t)
    {
      AlikeLater(Purged(a, now), a, now, t);
    }
  }

  lemma {:induction false} ScanAlike(as_: seq<Account>, bs: seq<Account>, mask: seq<bool>, start: nat, off: nat, t: int)
    requires AllAlike(as_, bs, t) && |mask| == |as_| && off <= |as_|
    ensures Scan(as_, mask, start, off) == Scan(bs, mask, start, off)
  {
    if off > 0 {
      ScanAlike(as_, bs, mask, start, off - 1, t);
    }
  }

  lemma {:induction false} LeastAlike(as_: seq<Account>, bs: seq<Account>, mask: seq<bool>, bound: int, n: nat, t: int)
    requires AllAlike(as_, bs, t) && |mask| == |as_| && n <= |as_|
    ensures LeastClock(as_, mask, bound, n) == LeastClock(bs, mask, bound, n)
  {
    if n > 0 {
      LeastAlike(as_, bs, mask, bound, n - 1, t);
    }
  }

  lemma MaskAlike(p: Pool, q: Pool, e: Event)
    requires e.Select? && AllAlike(p.accounts, q.accounts, e.now)
    ensures MaskOf(p, e) == MaskOf(q, e)
    ensures AllAlike(Clamped(p.accounts, MaskOf(p, e), e.now), Clamped(q.accounts, MaskOf(p, e), e.now), e.now)
  {
    var n, mask := |p.accounts|, MaskOf(p, e);
    forall i | 0 <= i < n
      ensures Available(p.accounts[i], e.model, e.now, e.exclude) == Available(q.accounts[i], e.model, e.now, e.exclude)
    {
      AlikeLater(p.accounts[i], q.accounts[i], e.now, e.now);
    }
    assert mask == MaskOf(q, e);
    var cp, cq := Clamped(p.accounts, mask, e.now), Clamped(q.accounts, mask, e.now);
    forall i | 0 <= i < n ensures Alike(cp[i], cq[i], e.now) {
      ClockAlike(p.accounts[i], q.accounts[i], e.now, cp[i].lastUsed);
    }
  }

  lemma AdvanceAlike(as_: seq<Account>, bs: seq<Account>, k: nat, t: int)
    requires AllAlike(as_, bs, t) && k < |as_|
    ensures AllAlike(as_[k := Advance(as_[k])], bs[k := Advance(bs[k])], t)
  {
    ClockAlike(as_[k], bs[k], t, Advance(as_[k]).lastUsed);
  }

  lemma RenormalizeAlike(as_: seq<Account>, bs: seq<Account>, least: int, now: int, t: int)
    requires AllAlike(as_, bs, t)
    ensures AllAlike(Renormalized(as_, least, now), Renormalized(bs, least, now), t)
  {
    forall i | 0 <= i < |as_| ensures Alike(Renormalized(as_, least, now)[i], Renormalized(bs, least, now)[i], t) {
      ClockAlike(as_[i], bs[i], t, Renormalized(as_, least, now)[i].lastUsed);
    }
  }

  lemma SelectAlike(p: Pool, q: Pool, e: Event)
    requires e.Select? && p.lastPicked == q.lastPicked && AllAlike(p.accounts, q.accounts, e.now)
    ensures PickedBy(p, e) == PickedBy(q, e)
    ensures Step(p, e).lastPicked == Step(q, e).lastPicked
    ensures AllAlike(Step(p, e).accounts, Step(q, e).accounts, e.now)
  {
    var n, mask := |p.accounts|, MaskOf(p, e);
    MaskAlike(p, q, e);
    var cp, cq := Clamped(p.accounts, mask, e.now), Clamped(q.accounts, mask, e.now);
    ScanAlike(cp, cq, mask, ScanStart(p.lastPicked, n), n, e.now);
    var k := PickedBy(p, e);
    if k >= 0 {
      var ap, aq := cp[k := Advance(cp[k])], cq[k := Advance(cq[k])];
      AdvanceAlike(cp, cq, k, e.now);
      LeastAlike(ap, aq, mask, ap[k].lastUsed, n, e.now);
      RenormalizeAlike(ap, aq, LeastClock(ap, mask, ap[k].lastUsed, n), e.now, e.now);
    }
  }

  lemma ClockAlike(a: Account, b: Account, t: int, clock: int)
    requires Alike(a, b, t)
    ensures Alike(a.(lastUsed := clock), b.(lastUsed := clock), t)
  {
    forall m ensures LiveUntil(a.(lastUsed := clock), m, t) == LiveUntil(b.(lastUsed := clock), m, t) {
      assert LiveUntil(a, m, t) == LiveUntil(b, m, t);
    }
  }

  lemma {:induction false} FindAlike(as_: seq<Account>, bs: seq<Account>, id: string, t: int)
    requires AllAlike(as_, bs, t)
    ensures Find(as_, id) == Find(bs, id)
  {
    if as_ != [] {
      FindAlike(as_[1..], bs[1..], id, t);
    }
  }

  /** What an event other than a selection does to an account it finds. */
  function Touched(e: Event, a: Account): Account
    requires !e.Select?
  {
    match e
    case Pin(now, _, model) => if Healthy(a, model, now) && now > a.lastUsed then a.(lastUsed := now) else a
    case Fail(now, _, model, status, message) => WithError(a, now, model, status, message)
    case Succeed(_, _) => WithSuccess(a)
    case Lock(_, _, model, until) => a.(modelLocks := a.modelLocks[model := until])
    case Expire(now) => Purged(a, now)
  }

  lemma TouchedAlike(e: Event, a: Account, b: Account)
    requires !e.Select? && Alike(a, b, e.now)
    requires e.Fail? ==> !Scoped(e.model, e.status, e.message)
    ensures Alike(Touched(e, a), Touched(e, b), e.now)
  {
    AlikeLater(a, b, e.now, e.now);
    var a', b' := Touched(e, a), Touched(e, b);
    forall m ensures LiveUntil(a', m, e.now) == LiveUntil(b', m, e.now) {
      assert LiveUntil(a, m, e.now) == LiveUntil(b, m, e.now);
    }
  }

  /** Any operation but a selection touches the named account, or every account when it purges locks. */
  lemma OtherTouches(p: Pool, e: Event, i: nat)
    requires !e.Select? && i < |p.accounts|
    ensures Step(p, e).lastPicked == p.lastPicked && i < |Step(p, e).accounts|
    ensures Step(p, e).accounts[i]
      == if e.Expire? || Find(p.accounts, e.id) == i then Touched(e, p.accounts[i]) else p.accounts[i]
  {
  }

  lemma OtherAlike(p: Pool, q: Pool, e: Event)
    requires !e.Select? && p.lastPicked == q.lastPicked && AllAlike(p.accounts, q.accounts, e.now)
    requires e.Fail? ==> !Scoped(e.model, e.status, e.message)
    ensures Step(p, e).lastPicked == Step(q, e).lastPicked
    ensures AllAlike(Step(p, e).accounts, Step(q, e).accounts, e.now)
  {
    forall i | 0 <= i < |p.accounts|
      ensures Alike(Step(p, e).accounts[i], Step(q, e).accounts[i], e.now)
    {
      TouchedAlike(e, p.accounts[i], q.accounts[i]);
      OtherTouches(p, e, i);
      OtherTouches(q, e, i);
      if !e.Expire? {
        FindAlike(p.accounts, q.accounts, e.id, e.now);
      }
    }
  }

  /** The picks of a run, selection by selection. */
  function PickTrace(p: Pool, es: seq<Event>): seq<int>
    decreases es
  {
    if es == [] then [] else [PickedBy(p, es[0])] + PickTrace(Step(p, es[0]), es[1..])
  }

  lemma {:induction false} AlikeRuns(p: Pool, q: Pool, es: seq<Event>, t: int)
    requires Timed(es, At, t) && p.lastPicked == q.lastPicked && AllAlike(p.accounts, q.accounts, t)
    requires forall e :: e in es && e.Fail? ==> !Scoped(e.model, e.status, e.message)
    ensures PickTrace(p, es) == PickTrace(q, es)
    decreases es
  {
    if es != [] {
      var e := es[0];
      forall i | 0 <= i < |p.accounts| ensures Alike(p.accounts[i], q.accounts[i], e.now) {
        AlikeLater(p.accounts[i], q.accounts[i], t, e.now);
      }
      if e.Select? {
        SelectAlike(p, q, e);
      } else {
        OtherAlike(p, q, e);
      }
      AlikeRuns(Step(p, e), Step(q, e), es[1..], e.now);
    }
  }

  /** Purging expired locks changes no later pick. A model-scoped 429 must not intervene: purging also
      forgets the model's backoff level, which only such an error reads. */
  lemma ExpiryChangesNoPick(p: Pool, now: int, es: seq<Event>)
    requires Timed(es, At, now)
    requires forall e :: e in es && e.Fail? ==> !Scoped(e.model, e.status, e.message)
    ensures PickTrace(AfterExpiry(p, now), es) == PickTrace(p, es)
  {
    forall i | 0 <= i < |p.accounts| ensures Alike(AfterExpiry(p, now).accounts[i], p.accounts[i], now) {
      PurgeIsInvisible(p.accounts[i], now);
    }
    AlikeRuns(AfterExpiry(p, now), p, es, now);
  }

  /** What a purge does change: it forgets the backoff level with the lock, so the next model-scoped 429
      locks the model for a shorter time. It is never longer, and it is shorter exactly when an expired lock
      was purged, its level was above zero, and the error is no billing signal (whose lock does not escalate). */
  lemma PurgeShortensNextLockIff(a: Account, now: int, t: int, model: string, message: string)
    requires Scoped(model, 429, message) && ModelLevel(a, model) <= MAX_BACKOFF
    ensures var b := WithError(Purged(a, now), t, model, 429, message); var c := WithError(a, t, model, 429, message);
      && model in b.modelLocks && model in c.modelLocks
      && b.modelLocks[model] <= c.modelLocks[model]
      && (b.modelLocks[model] < c.modelLocks[model] <==>
            && model in a.modelLocks && a.modelLocks[model] < now
            && ModelLevel(a, model) > 0
            && !BillingSignal(Lower(message)))
  {
    CooldownSteps();
  }
}
