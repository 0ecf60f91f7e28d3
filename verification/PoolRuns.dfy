/** Whole runs of the pool, at non-decreasing times, and the window every virtual clock is kept in. */
module PoolRuns {
  import opened Common
  import opened Accounts
  import opened AccountPool

  datatype Event =
    | Select(now: int, model: string, exclude: set<string>)
    | Pin(now: int, id: string, model: string)
    | Fail(now: int, id: string, model: string, status: int, message: string)
    | Succeed(now: int, id: string)
    | Lock(now: int, id: string, model: string, until: int)
    | Expire(now: int)

  function Step(p: Pool, e: Event): (q: Pool)
    ensures |q.accounts| == |p.accounts|
  {
    match e
    case Select(now, model, exclude) => AfterSelect(p, model, now, exclude)
    case Pin(now, id, model) => AfterPin(p, id, model, now)
    case Fail(now, id, model, status, message) => AfterError(p, now, id, model, status, message)
    case Succeed(_, id) => AfterSuccess(p, id)
    case Lock(_, id, model, until) => AfterLock(p, id, model, until)
    case Expire(now) => AfterExpiry(p, now)
  }

  function Run(p: Pool, es: seq<Event>): Pool
    decreases es
  {
    if es == [] then p else Run(Step(p, es[0]), es[1..])
  }

  /** When an event happens. */
  function At(e: Event): int {
    e.now
  }

  /** No clock runs ahead of the wall time `t`. */
  ghost predicate NoneAhead(p: Pool, t: int) {
    forall i :: 0 <= i < |p.accounts| ==> p.accounts[i].lastUsed <= t
  }

  /** The index picked by an event, or -1 when it is not a successful selection. */
  function PickedBy(p: Pool, e: Event): (k: int)
    ensures -1 <= k < |p.accounts|
  {
    if e.Select? then PickIndex(p, e.model, e.now, e.exclude) else -1
  }

  function MaskOf(p: Pool, e: Event): (mask: seq<bool>)
    requires e.Select?
    ensures |mask| == |p.accounts|
  {
    Mask(p.accounts, e.model, e.now, e.exclude)
  }

  /** Did the event move the clock of account `i` by a sticky pick? */
  predicate Pins(p: Pool, e: Event, i: nat) {
    e.Pin? && PinRefusal(p, e.id, e.model, e.now).None? && Find(p.accounts, e.id) == i
  }

  // ----- one step -----

  /** What never changes: the accounts, their order, ids, credentials and weights. */
  ghost predicate SameAccounts(p: Pool, q: Pool) {
    && |p.accounts| == |q.accounts|
    && forall i :: 0 <= i < |p.accounts| ==>
      && p.accounts[i].id == q.accounts[i].id && p.accounts[i].credential == q.accounts[i].credential
      && p.accounts[i].weight == q.accounts[i].weight
  }

  lemma StepKeepsAccounts(p: Pool, e: Event)
    ensures SameAccounts(p, Step(p, e))
  {
    if e.Select? {
      SelectClocks(p, e);
    }
  }

  /** Clock of account `i` after clamping at a selection. */
  function ClampedClock(p: Pool, e: Event, i: nat): int
    requires e.Select? && i < |p.accounts|
  {
    if MaskOf(p, e)[i] && p.accounts[i].lastUsed < e.now - WEIGHT_TICK
    then e.now - WEIGHT_TICK else p.accounts[i].lastUsed
  }

  /** The accounts after clamping and advancing, before they are translated. */
  function AdvancedAccounts(p: Pool, e: Event): (r: seq<Account>)
    requires e.Select? && PickedBy(p, e) >= 0
    ensures |r| == |p.accounts|
  {
    var clamped := Clamped(p.accounts, MaskOf(p, e), e.now);
    clamped[PickedBy(p, e) := Advance(clamped[PickedBy(p, e)])]
  }

  /** The least available clock after advancing. */
  function LeastAdvanced(p: Pool, e: Event): int
    requires e.Select? && PickedBy(p, e) >= 0
  {
    var advanced := AdvancedAccounts(p, e);
    LeastClock(advanced, MaskOf(p, e), advanced[PickedBy(p, e)].lastUsed, |advanced|)
  }

  /** The common distance by which a selection translates every clock backwards. */
  function Shift(p: Pool, e: Event): (shift: int)
    requires e.Select?
    ensures shift >= 0
  {
    if PickedBy(p, e) < 0 then 0
    else if LeastAdvanced(p, e) - (e.now - WEIGHT_TICK) > 0 then LeastAdvanced(p, e) - (e.now - WEIGHT_TICK)
    else 0
  }

  lemma AdvancedAt(p: Pool, e: Event, i: nat)
    requires e.Select? && PickedBy(p, e) >= 0 && i < |p.accounts|
    ensures AdvancedAccounts(p, e)[i]
      == p.accounts[i].(lastUsed := ClampedClock(p, e, i) + if i == PickedBy(p, e) then Tick(p.accounts[i]) else 0)
  {
    var clamped := Clamped(p.accounts, MaskOf(p, e), e.now);
    assert Tick(clamped[i]) == Tick(p.accounts[i]);
  }

  /** A selection clamps, advances one clock by its tick, and translates all of them alike. */
  lemma SelectClocks(p: Pool, e: Event)
    requires e.Select?
    ensures |Step(p, e).accounts| == |p.accounts|
    ensures forall i :: 0 <= i < |p.accounts| ==>
      Step(p, e).accounts[i] == p.accounts[i].(lastUsed := Step(p, e).accounts[i].lastUsed)
    ensures forall i :: 0 <= i < |p.accounts| ==>
      Step(p, e).accounts[i].lastUsed
        == ClampedClock(p, e, i) + (if i == PickedBy(p, e) then Tick(p.accounts[i]) else 0) - Shift(p, e)
    ensures PickedBy(p, e) >= 0 ==> Step(p, e).lastPicked == PickedBy(p, e)
  {
    if PickedBy(p, e) >= 0 {
      forall i | 0 <= i < |p.accounts|
        ensures Step(p, e).accounts[i]
          == AdvancedAccounts(p, e)[i].(lastUsed := AdvancedAccounts(p, e)[i].lastUsed - Shift(p, e))
      {
      }
      forall i | 0 <= i < |p.accounts|
        ensures Step(p, e).accounts[i] == p.accounts[i].(lastUsed := Step(p, e).accounts[i].lastUsed)
        ensures Step(p, e).accounts[i].lastUsed
          == ClampedClock(p, e, i) + (if i == PickedBy(p, e) then Tick(p.accounts[i]) else 0) - Shift(p, e)
      {
        AdvancedAt(p, e, i);
      }
    }
  }

  /** The pick in terms of the clamped clocks. */
  lemma PickFacts(p: Pool, e: Event)
    requires e.Select?
    ensures var k := PickedBy(p, e); var mask := MaskOf(p, e); var n := |p.accounts|;
      && (k < 0 ==> forall j :: 0 <= j < n ==> !mask[j])
      && (k >= 0 ==>
        && mask[k]
        && (forall j :: 0 <= j < n && mask[j] ==> ClampedClock(p, e, k) <= ClampedClock(p, e, j))
        && (forall j :: 0 <= j < n && mask[j]
              && Distance(ScanStart(p.lastPicked, n), j, n) < Distance(ScanStart(p.lastPicked, n), k, n)
              ==> ClampedClock(p, e, k) < ClampedClock(p, e, j)))
  {
    PickIsLeast(p, e.model, e.now, e.exclude);
    var mask := MaskOf(p, e);
    var clamped := Clamped(p.accounts, mask, e.now);
    forall j | 0 <= j < |p.accounts|
      ensures clamped[j].lastUsed == ClampedClock(p, e, j)
    {
    }
  }

  /** After a successful selection the least available clock is exactly one tick behind `now`,
      and every available clock lies between there and `now`. */
  lemma SelectWindow(p: Pool, e: Event)
    requires e.Select? && NoneAhead(p, e.now)
    requires PickedBy(p, e) >= 0
    ensures var q := Step(p, e); var mask := MaskOf(p, e);
      && |q.accounts| == |p.accounts|
      && (forall i :: 0 <= i < |p.accounts| && mask[i]
            ==> e.now - WEIGHT_TICK <= q.accounts[i].lastUsed <= e.now)
      && (exists i :: 0 <= i < |p.accounts| && mask[i] && q.accounts[i].lastUsed == e.now - WEIGHT_TICK)
  {
    SelectClocks(p, e);
    PickFacts(p, e);
    var mask := MaskOf(p, e);
    var k := PickedBy(p, e);
    var advanced, least := AdvancedAccounts(p, e), LeastAdvanced(p, e);
    forall i | 0 <= i < |advanced|
      ensures advanced[i].lastUsed == ClampedClock(p, e, i) + (if i == k then Tick(p.accounts[i]) else 0)
    {
      AdvancedAt(p, e, i);
    }
    assert least >= e.now - WEIGHT_TICK;
    assert least >= ClampedClock(p, e, k);
    var w: nat :| w < |advanced| && mask[w] && advanced[w].lastUsed == least;
    assert Step(p, e).accounts[w].lastUsed == e.now - WEIGHT_TICK;
  }

  /** A step never lets a clock run ahead of wall time. */
  lemma StepNoneAhead(p: Pool, e: Event)
    requires NoneAhead(p, e.now)
    ensures NoneAhead(Step(p, e), e.now)
  {
    if e.Select? {
      SelectClocks(p, e);
      if PickedBy(p, e) >= 0 {
        SelectWindow(p, e);
      }
    }
  }

  /** Renormalisation does not reorder any two accounts that the pick itself left alone. */
  lemma SelectKeepsOrder(p: Pool, e: Event, i: nat, j: nat)
    requires e.Select? && i < |p.accounts| && j < |p.accounts|
    requires i != PickedBy(p, e) && j != PickedBy(p, e)
    ensures var q := Step(p, e);
      && |q.accounts| == |p.accounts|
      && q.accounts[i].lastUsed - q.accounts[j].lastUsed == ClampedClock(p, e, i) - ClampedClock(p, e, j)
  {
    SelectClocks(p, e);
  }

  // ----- runs -----

  /** Over any run, no clock is ever ahead of wall time, and the accounts stay the same accounts. */
  lemma {:induction false} ClocksStayBehind(p: Pool, es: seq<Event>, t: int)
    requires Timed(es, At, t) && NoneAhead(p, t)
    ensures NoneAhead(Run(p, es), EndTime(es, At, t)) && SameAccounts(p, Run(p, es))
    decreases es
  {
    if es != [] {
      StepNoneAhead(p, es[0]);
      StepKeepsAccounts(p, es[0]);
      ClocksStayBehind(Step(p, es[0]), es[1..], es[0].now);
    }
  }

  /** How often a run picks account `i`. */
  function Picks(p: Pool, es: seq<Event>, i: nat): nat
    decreases es
  {
    if es == [] then 0
    else (if PickedBy(p, es[0]) == i then 1 else 0) + Picks(Step(p, es[0]), es[1..], i)
  }

  /** How many selections a run makes. */
  function Selections(es: seq<Event>): nat {
    if es == [] then 0 else (if es[0].Select? then 1 else 0) + Selections(es[1..])
  }

  /** Account `i` passes the health gates at every selection and is never pinned. */
  ghost predicate InRotation(p: Pool, es: seq<Event>, i: nat)
    requires i < |p.accounts|
    decreases es
  {
    es != [] ==>
      && (es[0].Select? ==> MaskOf(p, es[0])[i])
      && !Pins(p, es[0], i)
      && InRotation(Step(p, es[0]), es[1..], i)
  }

  /** Events other than selections and pins of `i` leave the clock of `i` alone. */
  lemma OtherEventsKeepClock(p: Pool, e: Event, i: nat)
    requires !e.Select? && i < |p.accounts| && !Pins(p, e, i)
    ensures |Step(p, e).accounts| == |p.accounts|
    ensures Step(p, e).accounts[i].lastUsed == p.accounts[i].lastUsed
    ensures Step(p, e).lastPicked == p.lastPicked
  {
  }
}
