/** Weighted fairness: two accounts that stay in rotation are charged the same virtual time. */
module Fairness {
  import opened Common
  import opened Accounts
  import opened AccountPool
  import opened PoolRuns

  /** Virtual time charged to account `i` by a run: its picks times its tick. */
  function Charge(p: Pool, es: seq<Event>, i: nat): int
    requires i < |p.accounts|
  {
    Picks(p, es, i) * Tick(p.accounts[i])
  }

  function Lead(p: Pool, i: nat, j: nat): int
    requires i < |p.accounts| && j < |p.accounts|
  {
    p.accounts[i].lastUsed - p.accounts[j].lastUsed
  }

  ghost predicate InWindow(p: Pool, i: nat, t: int)
    requires i < |p.accounts|
  {
    t - WEIGHT_TICK <= p.accounts[i].lastUsed <= t
  }

  lemma OneMore(n: nat, tick: int)
    ensures (1 + n) * tick == tick + n * tick
  {
  }

  lemma {:induction false} ChargeUnfold(p: Pool, es: seq<Event>, i: nat)
    requires es != [] && i < |p.accounts|
    ensures Charge(p, es, i)
      == (if PickedBy(p, es[0]) == i then Tick(p.accounts[i]) else 0) + Charge(Step(p, es[0]), es[1..], i)
  {
    StepKeepsAccounts(p, es[0]);
    var tick := Tick(p.accounts[i]);
    var rest := Picks(Step(p, es[0]), es[1..], i);
    assert Charge(Step(p, es[0]), es[1..], i) == rest * tick;
    OneMore(rest, tick);
  }

  /** One selection changes the lead of `i` over `j` by exactly what it charges them, up to
      what clamping takes away; and clamping cannot take more than the time since the clocks
      were last known to be in the window. */
  lemma SelectLead(p: Pool, e: Event, i: nat, j: nat, t: int)
    requires e.Select? && t <= e.now && NoneAhead(p, e.now)
    requires i < |p.accounts| && j < |p.accounts|
    requires MaskOf(p, e)[i] && MaskOf(p, e)[j]
    requires InWindow(p, i, t) && InWindow(p, j, t)
    ensures var q := Step(p, e);
      && InWindow(q, i, e.now) && InWindow(q, j, e.now)
      && -(e.now - t) <= Lead(q, i, j) - Lead(p, i, j)
           - (if PickedBy(p, e) == i then Tick(p.accounts[i]) else 0)
           + (if PickedBy(p, e) == j then Tick(p.accounts[j]) else 0) <= e.now - t
  {
    PickFacts(p, e);
    SelectClocks(p, e);
    SelectWindow(p, e);
  }

  /** Once both clocks are in the window, charges differ from the clock lead they started
      with by at most one tick plus the elapsed time. */
  lemma {:induction false} FairFromWindow(p: Pool, es: seq<Event>, i: nat, j: nat, t: int, wall: int)
    requires i < |p.accounts| && j < |p.accounts|
    requires t <= wall && Timed(es, At, wall) && NoneAhead(p, wall)
    requires InRotation(p, es, i) && InRotation(p, es, j)
    requires InWindow(p, i, t) && InWindow(p, j, t)
    ensures var gap := Charge(p, es, i) - Charge(p, es, j) + Lead(p, i, j);
      -WEIGHT_TICK - (EndTime(es, At, wall) - t) <= gap <= WEIGHT_TICK + (EndTime(es, At, wall) - t)
    decreases es
  {
    if es == [] {
    } else {
      var e := es[0];
      ChargeUnfold(p, es, i);
      ChargeUnfold(p, es, j);
      StepNoneAhead(p, e);
      if e.Select? {
        SelectLead(p, e, i, j, t);
        FairFromWindow(Step(p, e), es[1..], i, j, e.now, e.now);
      } else {
        OtherEventsKeepClock(p, e, i);
        OtherEventsKeepClock(p, e, j);
        FairFromWindow(Step(p, e), es[1..], i, j, t, e.now);
      }
    }
  }

  /** The time of the first selection of a run, or `t` if it makes none. */
  function FirstSelection(es: seq<Event>, t: int): int {
    if es == [] then t else if es[0].Select? then es[0].now else FirstSelection(es[1..], t)
  }

  /** Weighted fairness. Over any run in which `i` and `j` pass the gates at every selection and
      are not pinned, whatever happens to the other accounts, the virtual time charged to the two
      differs by at most two ticks plus the time that passes after the first selection. */
  lemma {:induction false} WeightedFairness(p: Pool, es: seq<Event>, i: nat, j: nat, t: int)
    requires i < |p.accounts| && j < |p.accounts|
    requires Timed(es, At, t) && NoneAhead(p, t)
    requires InRotation(p, es, i) && InRotation(p, es, j)
    requires Selections(es) > 0
    ensures var gap := Picks(p, es, i) * Tick(p.accounts[i]) - Picks(p, es, j) * Tick(p.accounts[j]);
      var slack := 2 * WEIGHT_TICK + (EndTime(es, At, t) - FirstSelection(es, t));
      -slack <= gap <= slack
    decreases es
  {
    var e := es[0];
    ChargeUnfold(p, es, i);
    ChargeUnfold(p, es, j);
    StepNoneAhead(p, e);
    StepKeepsAccounts(p, e);
    if e.Select? {
      PickFacts(p, e);
      SelectClocks(p, e);
      SelectWindow(p, e);
      FairFromWindow(Step(p, e), es[1..], i, j, e.now, e.now);
    } else {
      FirstSelectionStart(es[1..], t, e.now);
      WeightedFairness(Step(p, e), es[1..], i, j, e.now);
    }
  }

  // ----- fairness in the weights -----

  /** The share an account is configured for; less than one counts as one. */
  function Share(a: Account): int {
    if a.weight < 1 then 1 else a.weight
  }

  /** One pick moves a clock by a full tick divided by the share, rounded down, and by a nanosecond at least. */
  lemma PickMoves(p: Pool, e: Event)
    requires e.Select? && PickedBy(p, e) >= 0
    ensures var k, q := PickedBy(p, e), Step(p, e); var w := Share(p.accounts[k]);
      var moved := q.accounts[k].lastUsed + Shift(p, e) - ClampedClock(p, e, k);
      && (w <= WEIGHT_TICK ==> moved * w <= WEIGHT_TICK < (moved + 1) * w)
      && (w > WEIGHT_TICK ==> moved == 1)
  {
    SelectClocks(p, e);
    TickOfShare(p.accounts[PickedBy(p, e)]);
  }

  lemma TickOfShare(a: Account)
    ensures Share(a) <= WEIGHT_TICK ==> Tick(a) * Share(a) <= WEIGHT_TICK < (Tick(a) + 1) * Share(a)
    ensures Share(a) > WEIGHT_TICK ==> Tick(a) == 1
  {
    var w := Share(a);
    var q := WEIGHT_TICK / w;
    DivMod(WEIGHT_TICK, w);
    if w <= WEIGHT_TICK && q < 1 {
      assert q <= 0;
      Grows(q, 0, w);
    }
    if w > WEIGHT_TICK && q >= 1 {
      Grows(1, q, w);
    }
  }

  lemma DivMod(a: int, w: int)
    requires w >= 1
    ensures (a / w) * w <= a < (a / w + 1) * w
  {
    assert a == w * (a / w) + a % w;
    assert (a / w + 1) * w == (a / w) * w + w;
  }

  lemma Grows(a: int, b: int, w: int)
    requires a <= b && w >= 0
    ensures a * w <= b * w
  {
    assert b * w - a * w == (b - a) * w;
  }

  /** Picks `x` of share `v` against picks `y` of share `w`, when the virtual times charged for them are close. */
  lemma SharesFromCharges(x: nat, y: nat, v: int, w: int, s: int, t: int, slack: int)
    requires v >= 1 && w >= 1
    requires WEIGHT_TICK < (s + 1) * v && t * w <= WEIGHT_TICK
    requires x * s - y * t <= slack
    ensures WEIGHT_TICK * (x * w - y * v) <= v * w * (slack + x)
  {
    var a, b := x * w, y * v;
    Grows(WEIGHT_TICK, (s + 1) * v, a);
    Grows(t * w, WEIGHT_TICK, b);
    assert (s + 1) * v * a == v * w * (x * s + x) by {
      Commute(s, v, x, w);
    }
    assert t * w * b == v * w * (y * t) by {
      Rearrange(t, w, y, v);
    }
    assert WEIGHT_TICK * (a - b) == WEIGHT_TICK * a - WEIGHT_TICK * b;
    assert v * w * (x * s + x) - v * w * (y * t) == v * w * (x * s - y * t + x) by {
      Distribute(v * w, x * s + x, y * t);
    }
    Grows(x * s - y * t + x, slack + x, v * w);
  }

  lemma Commute(s: int, v: int, x: int, w: int)
    ensures (s + 1) * v * (x * w) == v * w * (x * s + x)
  {
    assert x * s + x == x * (s + 1);
    Rearrange(s + 1, v, x, w);
    assert w * v == v * w && x * (s + 1) == (s + 1) * x;
  }

  lemma Rearrange(t: int, w: int, y: int, v: int)
    ensures t * w * (y * v) == v * w * (y * t)
  {
  }

  lemma Distribute(a: int, b: int, c: int)
    ensures a * b - a * c == a * (b - c)
  {
  }

  /** `x` picks for a share of `v` and `y` for one of `w` are in proportion, up to `slack` and a nanosecond a pick. */
  predicate InProportion(x: nat, v: int, y: nat, w: int, slack: int) {
    -(v * w * (slack + y)) <= WEIGHT_TICK * (x * w - y * v) <= v * w * (slack + x)
  }

  /** Weighted fairness in the configured weights. While two accounts stay in rotation, their picks stand in the
      proportion of their shares, up to two ticks, the time that passes after the first selection, and the rounding
      of a nanosecond for each pick. */
  lemma PicksFollowWeights(p: Pool, es: seq<Event>, i: nat, j: nat, t: int)
    requires i < |p.accounts| && j < |p.accounts|
    requires Timed(es, At, t) && NoneAhead(p, t)
    requires InRotation(p, es, i) && InRotation(p, es, j) && Selections(es) > 0
    requires p.accounts[i].weight <= WEIGHT_TICK && p.accounts[j].weight <= WEIGHT_TICK
    ensures var v := if p.accounts[i].weight < 1 then 1 else p.accounts[i].weight;
      var w := if p.accounts[j].weight < 1 then 1 else p.accounts[j].weight;
      var x, y := Picks(p, es, i), Picks(p, es, j);
      InProportion(x, v, y, w, 2 * WEIGHT_TICK + (EndTime(es, At, t) - FirstSelection(es, t)))
  {
    var x, y := Picks(p, es, i), Picks(p, es, j);
    var slack := 2 * WEIGHT_TICK + (EndTime(es, At, t) - FirstSelection(es, t));
    WeightedFairness(p, es, i, j, t);
    SharesFollow(p.accounts[i], p.accounts[j], x, y, slack);
  }

  lemma SharesFollow(a: Account, b: Account, x: nat, y: nat, slack: int)
    requires a.weight <= WEIGHT_TICK && b.weight <= WEIGHT_TICK
    requires -slack <= x * Tick(a) - y * Tick(b) <= slack
    ensures InProportion(x, if a.weight < 1 then 1 else a.weight, y, if b.weight < 1 then 1 else b.weight, slack)
  {
    var v, w := Share(a), Share(b);
    TickOfShare(a);
    TickOfShare(b);
    SharesFromCharges(x, y, v, w, Tick(a), Tick(b), slack);
    SharesFromCharges(y, x, w, v, Tick(b), Tick(a), slack);
    Mirror(x * w, y * v, v, w, slack + y);
  }

  lemma Mirror(a: int, b: int, v: int, w: int, c: int)
    requires WEIGHT_TICK * (b - a) <= w * v * c
    ensures -(v * w * c) <= WEIGHT_TICK * (a - b)
  {
    assert w * v == v * w;
  }

  lemma {:induction false} FirstSelectionStart(es: seq<Event>, t: int, u: int)
    requires Selections(es) > 0
    ensures FirstSelection(es, t) == FirstSelection(es, u)
  {
    if !es[0].Select? {
      FirstSelectionStart(es[1..], t, u);
    }
  }

  // ----- the elapsed time is needed -----

  /** Only selections, each at least one full tick after the one before. */
  predicate Sparse(es: seq<Event>, t: int) {
    es == [] || (es[0].Select? && t + WEIGHT_TICK <= es[0].now && Sparse(es[1..], es[0].now))
  }

  ghost predicate AllInRotation(p: Pool, es: seq<Event>) {
    forall i :: 0 <= i < |p.accounts| ==> InRotation(p, es, i)
  }

  /** A full tick after all clocks, clamping has tied them, and the scan takes the first account it comes to. */
  lemma SparsePick(p: Pool, e: Event)
    requires e.Select? && p.accounts != [] && NoneAhead(p, e.now - WEIGHT_TICK)
    requires forall i :: 0 <= i < |p.accounts| ==> MaskOf(p, e)[i]
    ensures PickedBy(p, e) == ScanStart(p.lastPicked, |p.accounts|)
  {
    PickFacts(p, e);
    var n := |p.accounts|;
    var start := ScanStart(p.lastPicked, n);
    assert MaskOf(p, e)[start] && Distance(start, start, n) == 0;
    assert ClampedClock(p, e, start) == e.now - WEIGHT_TICK;
  }

  /** How often `m` picks in rotation come to a place that is `d` picks away, of `n`. */
  function Turns(m: nat, d: nat, n: nat): nat
    requires d < n
  {
    if m <= d then 0 else 1 + Turns(m - d - 1, n - 1, n)
  }

  lemma NextTurn(m: nat, start: nat, x: nat, n: nat)
    requires m > 0 && start < n && x < n
    ensures Turns(m, Distance(start, x, n), n)
      == (if x == start then 1 else 0) + Turns(m - 1, Distance(ScanStart(start, n), x, n), n)
  {
  }

  lemma {:induction false} TurnsOfTwo(k: nat)
    ensures Turns(2 * k, 0, 2) == k == Turns(2 * k, 1, 2)
  {
    if k > 0 {
      TurnsOfTwo(k - 1);
      assert Turns(2 * k, 0, 2) == 1 + Turns(2 * k - 1, 1, 2);
      assert Turns(2 * k, 1, 2) == 1 + Turns(2 * k - 2, 1, 2);
    }
  }

  /** The first of several sparse selections. */
  lemma SparseStep(p: Pool, es: seq<Event>, t: int)
    requires es != [] && p.accounts != [] && Sparse(es, t) && NoneAhead(p, t) && AllInRotation(p, es)
    ensures var start := ScanStart(p.lastPicked, |p.accounts|); var q := Step(p, es[0]);
      && PickedBy(p, es[0]) == start && q.lastPicked == start
      && |q.accounts| == |p.accounts| && NoneAhead(q, es[0].now) && AllInRotation(q, es[1..])
  {
    var e := es[0];
    forall i | 0 <= i < |p.accounts| ensures MaskOf(p, e)[i] && InRotation(Step(p, e), es[1..], i) {
      assert InRotation(p, es, i);
    }
    SparsePick(p, e);
    SelectClocks(p, e);
    StepNoneAhead(p, e);
  }

  lemma PicksUnfold(p: Pool, es: seq<Event>, x: nat, k: int, rest: nat)
    requires es != [] && PickedBy(p, es[0]) == k && Picks(Step(p, es[0]), es[1..], x) == rest
    ensures Picks(p, es, x) == (if x == k then 1 else 0) + rest
  {
  }

  /** At less than one selection per full tick the accounts are simply picked in turn, whatever their weights. */
  lemma {:induction false} SparsePicksRotate(p: Pool, es: seq<Event>, t: int, x: nat, n: nat, start: nat)
    requires n == |p.accounts| && x < n && start == ScanStart(p.lastPicked, n)
    requires Sparse(es, t) && NoneAhead(p, t) && AllInRotation(p, es)
    ensures Picks(p, es, x) == Turns(|es|, Distance(start, x, n), n)
    decreases es
  {
    if es != [] {
      SparseStep(p, es, t);
      NextTurn(|es|, start, x, n);
      SparsePicksRotate(Step(p, es[0]), es[1..], es[0].now, x, n, ScanStart(start, n));
      PicksUnfold(p, es, x, start, Turns(|es| - 1, Distance(ScanStart(start, n), x, n), n));
    }
  }

  function IdleAccount(id: string, weight: int): Account {
    Account(id, "", weight, 0, Active, ZERO_TIME, map[], map[], 0, None)
  }

  function EveryTick(n: nat, t: int): seq<Event> {
    if n == 0 then [] else [Select(t + WEIGHT_TICK, "", {})] + EveryTick(n - 1, t + WEIGHT_TICK)
  }

  lemma {:induction false} EveryTickSparse(n: nat, t: int)
    ensures var es := EveryTick(n, t); |es| == n == Selections(es) && Timed(es, At, t) && Sparse(es, t)
    decreases n
  {
    if n > 0 {
      assert EveryTick(n, t)[1..] == EveryTick(n - 1, t + WEIGHT_TICK);
      EveryTickSparse(n - 1, t + WEIGHT_TICK);
    }
  }

  predicate Idle(a: Account) {
    a.status == Active && a.rateLimitedUntil == ZERO_TIME && a.modelLocks == map[]
  }

  lemma {:induction false} IdleInRotation(p: Pool, n: nat, t: int, i: nat)
    requires t >= 0 && i < |p.accounts| && Idle(p.accounts[i])
    ensures InRotation(p, EveryTick(n, t), i)
    decreases n
  {
    if n > 0 {
      var e := Select(t + WEIGHT_TICK, "", {});
      assert EveryTick(n, t)[1..] == EveryTick(n - 1, t + WEIGHT_TICK);
      SelectClocks(p, e);
      IdleInRotation(Step(p, e), n - 1, t + WEIGHT_TICK, i);
    }
  }

  const TWO_IDLE := Pool([IdleAccount("a", 1), IdleAccount("b", 2)], -1)

  lemma TwoTakeTurns(k: nat)
    ensures var es := EveryTick(2 * k, 0);
      && InRotation(TWO_IDLE, es, 0) && InRotation(TWO_IDLE, es, 1)
      && Picks(TWO_IDLE, es, 0) == k == Picks(TWO_IDLE, es, 1)
  {
    var es := EveryTick(2 * k, 0);
    EveryTickSparse(2 * k, 0);
    IdleInRotation(TWO_IDLE, 2 * k, 0, 0);
    IdleInRotation(TWO_IDLE, 2 * k, 0, 1);
    SparsePicksRotate(TWO_IDLE, es, 0, 0, 2, 0);
    SparsePicksRotate(TWO_IDLE, es, 0, 1, 2, 0);
    TurnsOfTwo(k);
  }

  /** So no bound without the elapsed time holds: with weights 1 and 2 and a selection every full tick, the picks
      alternate and the virtual time charged comes apart by half a tick every two selections. */
  lemma ElapsedTimeIsNeeded(bound: nat) returns (p: Pool, es: seq<Event>)
    ensures |p.accounts| == 2 && Timed(es, At, 0) && NoneAhead(p, 0) && Selections(es) > 0
    ensures InRotation(p, es, 0) && InRotation(p, es, 1)
    ensures Picks(p, es, 0) * Tick(p.accounts[0]) - Picks(p, es, 1) * Tick(p.accounts[1]) > bound
  {
    p, es := TWO_IDLE, EveryTick(2 * (bound + 1), 0);
    EveryTickSparse(2 * (bound + 1), 0);
    TwoTakeTurns(bound + 1);
    TicksOfTwo();
  }

  lemma TicksOfTwo()
    ensures Tick(TWO_IDLE.accounts[0]) == WEIGHT_TICK && Tick(TWO_IDLE.accounts[1]) == 500_000_000
  {
  }
}
