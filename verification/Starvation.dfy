/** Bounded starvation freedom: an available account is picked within a fixed number of selections. */
module Starvation {
  import opened Common
  import opened Accounts
  import opened AccountPool
  import opened PoolRuns

  /** How many picks bring a clock that is `behind` to the mark. */
  function CatchUp(behind: int, tick: int): (c: nat)
    requires tick >= 1
    ensures behind <= 0 <==> c == 0
    decreases if behind <= 0 then 0 else behind
  {
    if behind <= 0 then 0 else 1 + CatchUp(behind - tick, tick)
  }

  lemma NextMultiple(d: nat, q: int, q': int)
    ensures q < q' ==> q * d + d <= q' * d
  {
    if q < q' {
      var m := q' - q - 1;
      assert q' * d == (q + 1 + m) * d == q * d + d + m * d;
      assert m * d >= 0;
    }
  }

  lemma QuotientIsUnique(a: int, d: int, q: int, r: int)
    requires 0 <= r < d && a == q * d + r
    ensures a / d == q
  {
    NextMultiple(d, q, a / d);
    NextMultiple(d, a / d, q);
    assert a == (a / d) * d + a % d;
  }

  lemma QuotientStep(a: int, d: int)
    requires d >= 1
    ensures (a + d) / d == a / d + 1
  {
    QuotientIsUnique(a + d, d, a / d + 1, a % d);
  }

  /** It is the rounded-up quotient. */
  lemma {:induction false} CatchUpIsCeiling(behind: nat, tick: int)
    requires tick >= 1
    ensures CatchUp(behind, tick) == (behind + tick - 1) / tick
    decreases behind
  {
    if behind == 0 {
      QuotientIsUnique(tick - 1, tick, 0, tick - 1);
    } else {
      QuotientStep(behind - 1, tick);
      if behind > tick {
        CatchUpIsCeiling(behind - tick, tick);
      } else {
        QuotientIsUnique(behind - 1, tick, 0, behind - 1);
      }
    }
  }

  lemma {:induction false} CatchUpMonotone(a: int, b: int, tick: int)
    requires tick >= 1 && a <= b
    ensures CatchUp(a, tick) <= CatchUp(b, tick)
    decreases if b <= 0 then 0 else b
  {
    if a > 0 {
      CatchUpMonotone(a - tick, b - tick, tick);
    }
  }

  /** The picks the first `n` available accounts other than `x` need to catch up with the clock of `x`,
      where `clocks[j]` is the clock of account `j`. */
  function Debt(p: Pool, mask: seq<bool>, clocks: seq<int>, x: nat, n: nat): nat
    requires |mask| == |clocks| == |p.accounts|
    requires x < |p.accounts| && n <= |p.accounts|
  {
    if n == 0 then 0
    else
      Debt(p, mask, clocks, x, n - 1)
      + if mask[n - 1] && n - 1 != x then CatchUp(clocks[x] - clocks[n - 1], Tick(p.accounts[n - 1])) else 0
  }

  /** The same with every account a whole tick behind: what the window allows at worst. */
  function WorstDebt(p: Pool, mask: seq<bool>, x: nat, n: nat): nat
    requires |mask| == |p.accounts|
    requires x < |p.accounts| && n <= |p.accounts|
  {
    if n == 0 then 0
    else
      WorstDebt(p, mask, x, n - 1)
      + if mask[n - 1] && n - 1 != x then (WEIGHT_TICK + Tick(p.accounts[n - 1]) - 1) / Tick(p.accounts[n - 1]) else 0
  }

  function Clocks(p: Pool): (cs: seq<int>)
    ensures |cs| == |p.accounts|
  {
    seq(|p.accounts|, i requires 0 <= i < |p.accounts| => p.accounts[i].lastUsed)
  }

  function ClampedClocks(p: Pool, e: Event): (cs: seq<int>)
    requires e.Select?
    ensures |cs| == |p.accounts|
  {
    seq(|p.accounts|, i requires 0 <= i < |p.accounts| => ClampedClock(p, e, i))
  }

  /** The ranking: while some account is behind `x`, the picks it may still need plus one round;
      afterwards the place of `x` in the rotation. */
  function Rank(p: Pool, mask: seq<bool>, clocks: seq<int>, x: nat): (r: nat)
    requires |mask| == |clocks| == |p.accounts| && x < |p.accounts|
    ensures r >= 1
  {
    var n := |p.accounts|;
    var debt := Debt(p, mask, clocks, x, n);
    if debt > 0 then n + debt else Distance(ScanStart(p.lastPicked, n), x, n) + 1
  }

  // ----- how debt compares -----

  /** Nobody available is further behind `x` by `ds` (in `q`) than by `cs` (in `p`). */
  ghost predicate NoFurtherBehind(p: Pool, q: Pool, mask: seq<bool>, cs: seq<int>, ds: seq<int>, x: nat)
    requires |mask| == |cs| == |p.accounts| == |ds| == |q.accounts| && x < |cs|
  {
    SameAccounts(p, q) &&
    forall j :: 0 <= j < |cs| && mask[j] && j != x ==> ds[x] - ds[j] <= cs[x] - cs[j] || ds[x] <= ds[j]
  }

  lemma {:induction false} DebtShrinks(p: Pool, q: Pool, mask: seq<bool>, cs: seq<int>, ds: seq<int>, x: nat, n: nat)
    requires |mask| == |cs| == |p.accounts| == |ds| == |q.accounts| && x < |cs| && n <= |cs|
    requires NoFurtherBehind(p, q, mask, cs, ds, x)
    ensures Debt(q, mask, ds, x, n) <= Debt(p, mask, cs, x, n)
  {
    if n > 0 {
      DebtShrinks(p, q, mask, cs, ds, x, n - 1);
      var j := n - 1;
      if mask[j] && j != x {
        assert Tick(q.accounts[j]) == Tick(p.accounts[j]);
        if ds[x] > ds[j] {
          CatchUpMonotone(ds[x] - ds[j], cs[x] - cs[j], Tick(p.accounts[j]));
        }
      }
    }
  }

  /** If account `k` was behind and was advanced by its tick, the debt drops. */
  lemma {:induction false} DebtDrops(p: Pool, q: Pool, mask: seq<bool>, cs: seq<int>, ds: seq<int>, x: nat, k: nat,
                                     n: nat)
    requires |mask| == |cs| == |p.accounts| == |ds| == |q.accounts| && x < |cs| && n <= |cs|
    requires NoFurtherBehind(p, q, mask, cs, ds, x)
    requires k < n && k != x && mask[k] && cs[k] < cs[x]
    requires ds[x] - ds[k] == cs[x] - cs[k] - Tick(p.accounts[k])
    ensures Debt(q, mask, ds, x, n) < Debt(p, mask, cs, x, n)
  {
    assert Tick(q.accounts[n - 1]) == Tick(p.accounts[n - 1]);
    if k == n - 1 {
      DebtShrinks(p, q, mask, cs, ds, x, n - 1);
    } else {
      DebtDrops(p, q, mask, cs, ds, x, k, n - 1);
      var j := n - 1;
      if mask[j] && j != x && ds[x] > ds[j] {
        CatchUpMonotone(ds[x] - ds[j], cs[x] - cs[j], Tick(p.accounts[j]));
      }
    }
  }

  lemma {:induction false} DebtBounded(p: Pool, mask: seq<bool>, cs: seq<int>, x: nat, n: nat)
    requires |mask| == |cs| == |p.accounts| && x < |cs| && n <= |cs|
    requires forall j :: 0 <= j < |cs| && mask[j] ==> cs[x] - cs[j] <= WEIGHT_TICK
    ensures Debt(p, mask, cs, x, n) <= WorstDebt(p, mask, x, n)
  {
    if n > 0 {
      DebtBounded(p, mask, cs, x, n - 1);
      var j := n - 1;
      if mask[j] && j != x {
        CatchUpMonotone(cs[x] - cs[j], WEIGHT_TICK, Tick(p.accounts[j]));
        CatchUpIsCeiling(WEIGHT_TICK, Tick(p.accounts[j]));
      }
    }
  }

  lemma {:induction false} NoDebt(p: Pool, mask: seq<bool>, cs: seq<int>, x: nat, n: nat, j: nat)
    requires |mask| == |cs| == |p.accounts| && x < |cs| && n <= |cs|
    requires j < n && mask[j] && j != x && Debt(p, mask, cs, x, n) == 0
    ensures cs[x] <= cs[j]
  {
    if j != n - 1 {
      NoDebt(p, mask, cs, x, n - 1, j);
    }
  }

  // ----- the rank over one event -----

  /** Clamping brings nobody further behind. */
  lemma ClampRank(p: Pool, e: Event, x: nat)
    requires e.Select? && x < |p.accounts| && MaskOf(p, e)[x]
    ensures Rank(p, MaskOf(p, e), ClampedClocks(p, e), x) <= Rank(p, MaskOf(p, e), Clocks(p), x)
  {
    DebtShrinks(p, p, MaskOf(p, e), Clocks(p), ClampedClocks(p, e), x, |p.accounts|);
  }

  /** What a selection that picks `k` and passes `x` over does to the clocks. */
  lemma SelectBehind(p: Pool, e: Event, x: nat, k: nat)
    requires e.Select? && x < |p.accounts| && MaskOf(p, e)[x] && PickedBy(p, e) == k != x
    ensures |Step(p, e).accounts| == |p.accounts| && Step(p, e).lastPicked == k && MaskOf(p, e)[k]
    ensures var cs, ds := ClampedClocks(p, e), Clocks(Step(p, e)); var start := ScanStart(p.lastPicked, |p.accounts|);
      && NoFurtherBehind(p, Step(p, e), MaskOf(p, e), cs, ds, x)
      && ds[x] - ds[k] == cs[x] - cs[k] - Tick(p.accounts[k])
      && (forall j :: 0 <= j < |cs| && MaskOf(p, e)[j] ==> cs[k] <= cs[j])
      && (cs[k] == cs[x] ==> Distance(start, k, |p.accounts|) < Distance(start, x, |p.accounts|))
  {
    PickFacts(p, e);
    SelectClocks(p, e);
    StepKeepsAccounts(p, e);
    var cs, ds := ClampedClocks(p, e), Clocks(Step(p, e));
    forall i | 0 <= i < |p.accounts|
      ensures cs[i] == ClampedClock(p, e, i) && ds[i] == Step(p, e).accounts[i].lastUsed
    {
    }
  }

  /** A selection that passes `x` over lowers its rank. */
  lemma SelectRank(p: Pool, e: Event, x: nat)
    requires e.Select? && x < |p.accounts| && MaskOf(p, e)[x] && PickedBy(p, e) != x
    ensures Rank(Step(p, e), MaskOf(p, e), Clocks(Step(p, e)), x) < Rank(p, MaskOf(p, e), ClampedClocks(p, e), x)
  {
    PickFacts(p, e);
    var q, mask, n, k := Step(p, e), MaskOf(p, e), |p.accounts|, PickedBy(p, e);
    var cs, ds := ClampedClocks(p, e), Clocks(q);
    SelectBehind(p, e, x, k);
    DebtShrinks(p, q, mask, cs, ds, x, n);
    if cs[k] < cs[x] {
      DebtDrops(p, q, mask, cs, ds, x, k, n);
    } else {
      AllCaughtUp(p, mask, cs, x, k, n);
      RotationAdvances(ScanStart(p.lastPicked, n), k, x, n);
    }
  }

  lemma {:induction false} AllCaughtUp(p: Pool, mask: seq<bool>, cs: seq<int>, x: nat, k: nat, n: nat)
    requires |mask| == |cs| == |p.accounts| && x < |cs| && n <= |cs| && k < |cs|
    requires cs[k] == cs[x]
    requires forall j :: 0 <= j < |cs| && mask[j] ==> cs[k] <= cs[j]
    ensures Debt(p, mask, cs, x, n) == 0
  {
    if n > 0 {
      AllCaughtUp(p, mask, cs, x, k, n - 1);
    }
  }

  /** Restarting the scan after `k` brings an account beyond `k` nearer. */
  lemma RotationAdvances(start: nat, k: nat, x: nat, n: nat)
    requires start < n && k < n && x < n && Distance(start, k, n) < Distance(start, x, n)
    ensures Distance(ScanStart(k, n), x, n) < Distance(start, x, n)
  {
    assert ScanStart(k, n) == if k + 1 < n then k + 1 else 0;
  }

  /** Events other than selections, and other than pins of `x`, do not raise its rank. */
  lemma OtherRank(p: Pool, e: Event, mask: seq<bool>, x: nat)
    requires !e.Select? && x < |p.accounts| == |mask| && !Pins(p, e, x)
    ensures Rank(Step(p, e), mask, Clocks(Step(p, e)), x) <= Rank(p, mask, Clocks(p), x)
  {
    var q := Step(p, e);
    StepKeepsAccounts(p, e);
    OtherEventsKeepClock(p, e, x);
    forall j | 0 <= j < |p.accounts|
      ensures q.accounts[j].lastUsed >= p.accounts[j].lastUsed
    {
      if !Pins(p, e, j) {
        OtherEventsKeepClock(p, e, j);
      }
    }
    DebtShrinks(p, q, mask, Clocks(p), Clocks(q), x, |p.accounts|);
  }

  // ----- runs -----

  /** Every selection of the run finds exactly the accounts of `mask` available. */
  ghost predicate SteadyMask(p: Pool, es: seq<Event>, mask: seq<bool>)
    decreases es
  {
    es != [] ==> (es[0].Select? ==> MaskOf(p, es[0]) == mask) && SteadyMask(Step(p, es[0]), es[1..], mask)
  }

  lemma {:induction false} RankBoundsWait(p: Pool, es: seq<Event>, mask: seq<bool>, x: nat)
    requires x < |p.accounts| == |mask| && mask[x]
    requires SteadyMask(p, es, mask) && InRotation(p, es, x)
    requires Picks(p, es, x) == 0
    ensures Selections(es) < Rank(p, mask, Clocks(p), x)
    decreases es
  {
    if es != [] {
      var e := es[0];
      RankBoundsWait(Step(p, e), es[1..], mask, x);
      if e.Select? {
        SelectRank(p, e, x);
        ClampRank(p, e, x);
      } else {
        OtherRank(p, e, mask, x);
      }
    }
  }

  /** The bound: one round plus, for every other available account, the picks that one full tick
      behind is worth. */
  function WaitBound(p: Pool, mask: seq<bool>, x: nat): nat
    requires |mask| == |p.accounts| && x < |p.accounts|
  {
    |p.accounts| + WorstDebt(p, mask, x, |p.accounts|)
  }

  lemma {:induction false} WorstDebtSame(p: Pool, q: Pool, mask: seq<bool>, x: nat, n: nat)
    requires SameAccounts(p, q) && |mask| == |p.accounts| && x < |p.accounts| && n <= |p.accounts|
    ensures WorstDebt(p, mask, x, n) == WorstDebt(q, mask, x, n)
  {
    if n > 0 {
      WorstDebtSame(p, q, mask, x, n - 1);
      assert Tick(q.accounts[n - 1]) == Tick(p.accounts[n - 1]);
    }
  }

  /** At a selection the window limits every debt, whatever the clocks were before. */
  lemma RankAtSelection(p: Pool, e: Event, x: nat)
    requires e.Select? && x < |p.accounts| && MaskOf(p, e)[x] && NoneAhead(p, e.now)
    ensures Rank(p, MaskOf(p, e), ClampedClocks(p, e), x) <= WaitBound(p, MaskOf(p, e), x)
  {
    DebtBounded(p, MaskOf(p, e), ClampedClocks(p, e), x, |p.accounts|);
  }

  /** Bounded starvation freedom. While the available set stays the same and `x` belongs to it and is
      not pinned, any run with `WaitBound` selections picks `x`, even as wall time advances. */
  lemma {:induction false} NoStarvation(p: Pool, es: seq<Event>, mask: seq<bool>, x: nat, t: int)
    requires x < |p.accounts| == |mask| && mask[x]
    requires Timed(es, At, t) && NoneAhead(p, t)
    requires SteadyMask(p, es, mask) && InRotation(p, es, x)
    requires Selections(es) >= WaitBound(p, mask, x)
    ensures Picks(p, es, x) >= 1
    decreases es
  {
    var e := es[0];
    var q := Step(p, e);
    StepNoneAhead(p, e);
    StepKeepsAccounts(p, e);
    WorstDebtSame(p, q, mask, x, |p.accounts|);
    if !e.Select? {
      NoStarvation(q, es[1..], mask, x, e.now);
    } else if PickedBy(p, e) != x && Picks(q, es[1..], x) == 0 {
      RankBoundsWait(q, es[1..], mask, x);
      SelectRank(p, e, x);
      RankAtSelection(p, e, x);
      assert false;
    }
  }
}
