/** The account pool: weighted least-recently-used selection over virtual clocks. */
module AccountPool {
  import opened Common
  import opened Accounts

  // The functions say what each operation does to the pool's state; the class does it step by step, with
  // the loops of the original.

  datatype Pool = Pool(accounts: seq<Account>, lastPicked: int)

  datatype Reason = Unavailable | NotFound | Inactive | Cooling | Locked

  datatype Outcome = Selected(id: string, credential: string) | Refused(reason: Reason)

  // ----- what a selection does -----

  predicate Available(a: Account, model: string, now: int, exclude: set<string>) {
    a.id !in exclude && Healthy(a, model, now)
  }

  function Mask(accounts: seq<Account>, model: string, now: int, exclude: set<string>): (mask: seq<bool>)
    ensures |mask| == |accounts|
  {
    seq(|accounts|, i requires 0 <= i < |accounts| => Available(accounts[i], model, now, exclude))
  }

  /** No available clock lags more than one tick behind `now`. */
  function ClampAccount(a: Account, now: int): Account {
    if a.lastUsed < now - WEIGHT_TICK then a.(lastUsed := now - WEIGHT_TICK) else a
  }

  function Clamped(accounts: seq<Account>, mask: seq<bool>, now: int): (r: seq<Account>)
    requires |mask| == |accounts|
    ensures |r| == |accounts|
  {
    seq(|accounts|, i requires 0 <= i < |accounts| =>
      if mask[i] then ClampAccount(accounts[i], now) else accounts[i])
  }

  function ScanStart(lastPicked: int, n: nat): (start: nat)
    ensures n > 0 ==> start < n
    ensures 0 <= lastPicked < n - 1 ==> start == lastPicked + 1
    ensures lastPicked == n - 1 || !(0 <= lastPicked < n) ==> start == 0
  {
    if 0 <= lastPicked < n then (lastPicked + 1) % n else 0
  }

  /** How many steps after `start` a cyclic scan of `n` places reaches place `i`. */
  function Distance(start: nat, i: nat, n: nat): (d: nat)
    requires start < n && i < n
    ensures d < n
  {
    if i >= start then i - start else i + n - start
  }

  /** `k` has the least clock of the available accounts, and is the first such account
      in cyclic order from `start`. */
  ghost predicate IsPick(accounts: seq<Account>, mask: seq<bool>, start: nat, k: int) {
    && |mask| == |accounts|
    && start < |accounts|
    && 0 <= k < |accounts|
    && mask[k]
    && (forall j :: 0 <= j < |accounts| && mask[j] ==> accounts[k].lastUsed <= accounts[j].lastUsed)
    && (forall j :: 0 <= j < |accounts| && mask[j] && Distance(start, j, |accounts|) < Distance(start, k, |accounts|)
          ==> accounts[k].lastUsed < accounts[j].lastUsed)
  }

  /** The best account among the first `off` places of the rotated scan, or -1. */
  function Scan(accounts: seq<Account>, mask: seq<bool>, start: nat, off: nat): (k: int)
    requires |mask| == |accounts|
    requires off <= |accounts|
    ensures -1 <= k < |accounts|
    ensures k >= 0 ==> mask[k]
  {
    if off == 0 then
      -1
    else
      var best := Scan(accounts, mask, start, off - 1);
      var idx := (start + off - 1) % |accounts|;
      if mask[idx] && (best == -1 || accounts[idx].lastUsed < accounts[best].lastUsed) then idx else best
  }

  function Advance(a: Account): Account {
    a.(lastUsed := a.lastUsed + Tick(a))
  }

  /** The least of `bound` and the available clocks among the first `n`. */
  function LeastClock(accounts: seq<Account>, mask: seq<bool>, bound: int, n: nat): (m: int)
    requires |mask| == |accounts|
    requires n <= |accounts|
    ensures m <= bound
    ensures forall j :: 0 <= j < n && mask[j] ==> m <= accounts[j].lastUsed
    ensures m == bound || exists j :: 0 <= j < n && mask[j] && m == accounts[j].lastUsed
  {
    if n == 0 then
      bound
    else
      var m := LeastClock(accounts, mask, bound, n - 1);
      if mask[n - 1] && accounts[n - 1].lastUsed < m then accounts[n - 1].lastUsed else m
  }

  function Shifted(accounts: seq<Account>, shift: int): (r: seq<Account>)
    ensures |r| == |accounts|
  {
    seq(|accounts|, i requires 0 <= i < |accounts| => accounts[i].(lastUsed := accounts[i].lastUsed - shift))
  }

  function Renormalized(accounts: seq<Account>, least: int, now: int): (r: seq<Account>)
    ensures |r| == |accounts|
  {
    var shift := least - (now - WEIGHT_TICK);
    if shift > 0 then Shifted(accounts, shift) else accounts
  }

  /** The index the next selection picks, or -1. */
  function PickIndex(p: Pool, model: string, now: int, exclude: set<string>): (k: int)
    ensures -1 <= k < |p.accounts|
    ensures k >= 0 ==> Available(p.accounts[k], model, now, exclude)
  {
    var mask := Mask(p.accounts, model, now, exclude);
    Scan(Clamped(p.accounts, mask, now), mask, ScanStart(p.lastPicked, |p.accounts|), |p.accounts|)
  }

  function AfterSelect(p: Pool, model: string, now: int, exclude: set<string>): (q: Pool)
    ensures |q.accounts| == |p.accounts|
  {
    var mask := Mask(p.accounts, model, now, exclude);
    var clamped := Clamped(p.accounts, mask, now);
    var k := PickIndex(p, model, now, exclude);
    if k < 0 then
      p.(accounts := clamped)
    else
      var advanced := clamped[k := Advance(clamped[k])];
      var least := LeastClock(advanced, mask, advanced[k].lastUsed, |advanced|);
      Pool(Renormalized(advanced, least, now), k)
  }

  // ----- the rotated scan is a minimum -----

  /** `k` is the pick among the places less than `off` steps from `start`; -1 if none is available. */
  ghost predicate BestWithin(accounts: seq<Account>, mask: seq<bool>, start: nat, off: nat, k: int)
    requires |mask| == |accounts| && start < |accounts|
  {
    var n := |accounts|;
    if k < 0 then
      forall j :: 0 <= j < n && Distance(start, j, n) < off ==> !mask[j]
    else
      && k < n && mask[k] && Distance(start, k, n) < off
      && (forall j ::
            0 <= j < n && mask[j] && Distance(start, j, n) < off ==> accounts[k].lastUsed <= accounts[j].lastUsed)
      && (forall j :: 0 <= j < n && mask[j] && Distance(start, j, n) < Distance(start, k, n)
            ==> accounts[k].lastUsed < accounts[j].lastUsed)
  }

  lemma PlaceAt(start: nat, off: nat, n: nat)
    requires start < n && off < n
    ensures var idx := (start + off) % n;
      0 <= idx < n && forall j :: 0 <= j < n ==> (Distance(start, j, n) == off <==> j == idx)
  {
    SmallModulo(start + off, n);
    forall j | 0 <= j < n ensures Distance(start, j, n) == off <==> j == (start + off) % n {
    }
  }

  lemma SmallModulo(a: nat, n: nat)
    requires a < n + n
    ensures a % n == if a < n then a else a - n
  {
    if a >= n {
      assert a == n + (a - n);
    }
  }

  lemma {:induction false} ScanPrefix(accounts: seq<Account>, mask: seq<bool>, start: nat, off: nat)
    requires |mask| == |accounts| && start < |accounts| && off <= |accounts|
    ensures BestWithin(accounts, mask, start, off, Scan(accounts, mask, start, off))
  {
    if off > 0 {
      ScanPrefix(accounts, mask, start, off - 1);
      PlaceAt(start, off - 1, |accounts|);
      assert (start + off - 1) % |accounts| == (start + (off - 1)) % |accounts|;
    }
  }

  /** The scan finds the pick whenever some account is available, and only then. */
  lemma PickIsLeast(p: Pool, model: string, now: int, exclude: set<string>)
    ensures var k := PickIndex(p, model, now, exclude);
      var mask := Mask(p.accounts, model, now, exclude);
      && (k < 0 <==> forall j :: 0 <= j < |p.accounts| ==> !Available(p.accounts[j], model, now, exclude))
      && (k >= 0 ==> IsPick(Clamped(p.accounts, mask, now), mask, ScanStart(p.lastPicked, |p.accounts|), k))
  {
    var mask := Mask(p.accounts, model, now, exclude);
    var n := |p.accounts|;
    if n > 0 {
      var start := ScanStart(p.lastPicked, n);
      ScanPrefix(Clamped(p.accounts, mask, now), mask, start, n);
      forall j | 0 <= j < n
        ensures mask[j] == Available(p.accounts[j], model, now, exclude) && Distance(start, j, n) < n
      {
      }
    }
  }

  /** The pick is the only index with that property. */
  lemma PickIsUnique(accounts: seq<Account>, mask: seq<bool>, start: nat, k: int, l: int)
    requires IsPick(accounts, mask, start, k) && IsPick(accounts, mask, start, l)
    ensures k == l
  {
    assert Distance(start, k, |accounts|) == Distance(start, l, |accounts|);
  }

  // ----- the other operations -----

  /** The index of the first account with this id, or -1. */
  function Find(accounts: seq<Account>, id: string): (k: int)
    ensures -1 <= k < |accounts|
    ensures k >= 0 ==> accounts[k].id == id && forall j :: 0 <= j < k ==> accounts[j].id != id
    ensures k < 0 ==> forall j :: 0 <= j < |accounts| ==> accounts[j].id != id
  {
    if accounts == [] then -1
    else if accounts[0].id == id then 0
    else var k := Find(accounts[1..], id); if k < 0 then -1 else k + 1
  }

  function PinRefusal(p: Pool, id: string, model: string, now: int): Option<Reason> {
    var k := Find(p.accounts, id);
    if k < 0 then Some(NotFound)
    else if p.accounts[k].status != Active then Some(Inactive)
    else if now < p.accounts[k].rateLimitedUntil then Some(Cooling)
    else if ModelLocked(p.accounts[k], model, now) then Some(Locked)
    else None
  }

  function AfterPin(p: Pool, id: string, model: string, now: int): Pool {
    var k := Find(p.accounts, id);
    if PinRefusal(p, id, model, now).Some? then p
    else if now > p.accounts[k].lastUsed then p.(accounts := p.accounts[k := p.accounts[k].(lastUsed := now)])
    else p
  }

  function AfterError(p: Pool, now: int, id: string, model: string, status: int, message: string): Pool {
    var k := Find(p.accounts, id);
    if k < 0 then p
    else p.(accounts := p.accounts[k := WithError(p.accounts[k], now, model, status, message)])
  }

  function AfterSuccess(p: Pool, id: string): Pool {
    var k := Find(p.accounts, id);
    if k < 0 then p else p.(accounts := p.accounts[k := WithSuccess(p.accounts[k])])
  }

  function AfterLock(p: Pool, id: string, model: string, until: int): Pool {
    var k := Find(p.accounts, id);
    if k < 0 then p
    else p.(accounts := p.accounts[k := p.accounts[k].(modelLocks := p.accounts[k].modelLocks[model := until])])
  }

  function AfterExpiry(p: Pool, now: int): Pool {
    p.(accounts := seq(|p.accounts|, i requires 0 <= i < |p.accounts| => Purged(p.accounts[i], now)))
  }

  /** The locks of an account that ended before `now`. */
  function ExpiredOf(a: Account, now: int): set<string> {
    set m | m in a.modelLocks && a.modelLocks[m] < now
  }

  /** How many such locks the first `n` accounts have. */
  function ExpiredCount(accounts: seq<Account>, now: int, n: nat): nat
    requires n <= |accounts|
  {
    if n == 0 then 0 else ExpiredCount(accounts, now, n - 1) + |ExpiredOf(accounts[n - 1], now)|
  }

  // ----- the pool object -----

  class AccountPool {
    var accounts: seq<Account>
    var lastPicked: int

    function State(): Pool
      reads this
    {
      Pool(accounts, lastPicked)
    }

    constructor (accounts: seq<Account>)
      ensures State() == Pool(accounts, -1)
    {
      this.accounts := accounts;
      lastPicked := -1;
    }

    method AvailabilityMask(model: string, now: int, exclude: set<string>) returns (mask: seq<bool>)
      modifies this`accounts
      ensures mask == Mask(old(accounts), model, now, exclude)
      ensures accounts == Clamped(old(accounts), mask, now)
    {
      mask := [];
      var i := 0;
      while i < |accounts|
        invariant 0 <= i == |mask| <= |accounts| == |old(accounts)|
        invariant forall j :: 0 <= j < i ==> mask[j] == Available(old(accounts)[j], model, now, exclude)
        invariant forall j :: 0 <= j < i ==>
          accounts[j] == if mask[j] then ClampAccount(old(accounts)[j], now) else old(accounts)[j]
        invariant forall j :: i <= j < |accounts| ==> accounts[j] == old(accounts)[j]
      {
        var acc := accounts[i];
        if acc.id in exclude || acc.status != Active || now < acc.rateLimitedUntil || ModelLocked(acc, model, now) {
          mask := mask + [false];
        } else {
          accounts := accounts[i := ClampAccount(acc, now)];
          mask := mask + [true];
        }
        i := i + 1;
      }
    }

    method RenormalizeVirtualClocks(least: int, now: int)
      modifies this`accounts
      ensures accounts == Renormalized(old(accounts), least, now)
    {
      var shift := least - (now - WEIGHT_TICK);
      if shift > 0 {
        var i := 0;
        while i < |accounts|
          invariant 0 <= i <= |accounts| == |old(accounts)|
          invariant forall j :: 0 <= j < i ==> accounts[j] == Shifted(old(accounts), shift)[j]
          invariant forall j :: i <= j < |accounts| ==> accounts[j] == old(accounts)[j]
        {
          accounts := accounts[i := accounts[i].(lastUsed := accounts[i].lastUsed - shift)];
          i := i + 1;
        }
      }
    }

    method RotatedMinScan(mask: seq<bool>) returns (selIdx: int)
      requires |mask| == |accounts|
      ensures selIdx == Scan(accounts, mask, ScanStart(lastPicked, |accounts|), |accounts|)
    {
      var n := |accounts|;
      var start := 0;
      if lastPicked >= 0 && lastPicked < n {
        start := (lastPicked + 1) % n;
      }
      selIdx := -1;
      var off := 0;
      while off < n
        invariant 0 <= off <= n
        invariant selIdx == Scan(accounts, mask, start, off)
      {
        var idx := (start + off) % n;
        if mask[idx] && (selIdx == -1 || accounts[idx].lastUsed < accounts[selIdx].lastUsed) {
          selIdx := idx;
        }
        off := off + 1;
      }
    }

    method LeastAvailableClock(mask: seq<bool>, bound: int) returns (least: int)
      requires |mask| == |accounts|
      ensures least == LeastClock(accounts, mask, bound, |accounts|)
    {
      least := bound;
      var i := 0;
      while i < |accounts|
        invariant 0 <= i <= |accounts|
        invariant least == LeastClock(accounts, mask, bound, i)
      {
        if mask[i] && accounts[i].lastUsed < least {
          least := accounts[i].lastUsed;
        }
        i := i + 1;
      }
    }

    method SelectAccountExcluding(model: string, now: int, exclude: set<string>) returns (r: Outcome)
      modifies this
      ensures State() == AfterSelect(old(State()), model, now, exclude)
      ensures var k := PickIndex(old(State()), model, now, exclude);
        r == if k < 0 then Refused(Unavailable) else Selected(old(accounts)[k].id, old(accounts)[k].credential)
    {
      var mask := AvailabilityMask(model, now, exclude);
      var selIdx := RotatedMinScan(mask);
      if selIdx == -1 {
        return Refused(Unavailable);
      }
      lastPicked := selIdx;
      accounts := accounts[selIdx := Advance(accounts[selIdx])];
      var selected := accounts[selIdx];
      var least := LeastAvailableClock(mask, selected.lastUsed);
      RenormalizeVirtualClocks(least, now);
      return Selected(selected.id, selected.credential);
    }

    method FindAccount(id: string) returns (k: int)
      ensures k == Find(accounts, id)
    {
      k := 0;
      while k < |accounts|
        invariant 0 <= k <= |accounts|
        invariant forall j :: 0 <= j < k ==> accounts[j].id != id
      {
        if accounts[k].id == id {
          return;
        }
        k := k + 1;
      }
      k := -1;
    }

    method SelectAccountByID(id: string, model: string, now: int) returns (r: Outcome)
      modifies this`accounts
      ensures State() == AfterPin(old(State()), id, model, now)
      ensures match PinRefusal(old(State()), id, model, now)
        case Some(reason) => r == Refused(reason)
        case None => r == Selected(id, old(accounts)[Find(old(accounts), id)].credential)
    {
      var k := FindAccount(id);
      if k < 0 {
        return Refused(NotFound);
      }
      var acc := accounts[k];
      if acc.status != Active {
        return Refused(Inactive);
      }
      if now < acc.rateLimitedUntil {
        return Refused(Cooling);
      }
      if ModelLocked(acc, model, now) {
        return Refused(Locked);
      }
      if now > acc.lastUsed {
        accounts := accounts[k := acc.(lastUsed := now)];
      }
      return Selected(acc.id, acc.credential);
    }

    method ApplyErrorForModel(now: int, id: string, model: string, status: int, message: string)
      modifies this`accounts
      ensures State() == AfterError(old(State()), now, id, model, status, message)
    {
      var k := FindAccount(id);
      if k < 0 {
        return;
      }
      var account := accounts[k].(lastError := Some(ErrorRecord(status, message, now)));
      var scoped := Scoped(model, status, message);
      var level := account.backoffLevel;
      if scoped {
        level := ModelLevel(account, model);
      }
      var decision := Classify(status, message, level);
      if decision.fallback {
        if scoped {
          account := account.(modelLocks := account.modelLocks[model := now + decision.cooldownMs * MILLISECOND],
                              modelBackoff := account.modelBackoff[model := decision.level]);
        } else {
          account := account.(backoffLevel := decision.level);
          if decision.cooldownMs > 0 {
            account := account.(rateLimitedUntil := now + decision.cooldownMs * MILLISECOND);
          }
          account := account.(status := InError);
        }
      }
      accounts := accounts[k := account];
    }

    method ReportSuccess(id: string)
      modifies this`accounts
      ensures State() == AfterSuccess(old(State()), id)
    {
      var k := FindAccount(id);
      if k >= 0 {
        accounts := accounts[k := WithSuccess(accounts[k])];
      }
    }

    method LockModel(id: string, model: string, until: int) returns (found: bool)
      modifies this`accounts
      ensures State() == AfterLock(old(State()), id, model, until)
      ensures found <==> exists j :: 0 <= j < |old(accounts)| && old(accounts)[j].id == id
    {
      var k := FindAccount(id);
      if k < 0 {
        return false;
      }
      accounts := accounts[k := accounts[k].(modelLocks := accounts[k].modelLocks[model := until])];
      return true;
    }

    method ExpiredLocks(now: int) returns (count: nat)
      modifies this`accounts
      ensures State() == AfterExpiry(old(State()), now)
      ensures count == ExpiredCount(old(accounts), now, |old(accounts)|)
    {
      count := 0;
      var i := 0;
      while i < |accounts|
        invariant 0 <= i <= |accounts| == |old(accounts)|
        invariant count == ExpiredCount(old(accounts), now, i)
        invariant forall j :: 0 <= j < i ==> accounts[j] == Purged(old(accounts)[j], now)
        invariant forall j :: i <= j < |accounts| ==> accounts[j] == old(accounts)[j]
      {
        var purged, removed := PurgeAccount(accounts[i], now);
        accounts := accounts[i := purged];
        count := count + removed;
        i := i + 1;
      }
    }
  }

  lemma PurgedBy(a: Account, now: int, gone: set<string>)
    requires forall m :: m in gone <==> m in a.modelLocks && a.modelLocks[m] < now
    ensures Purged(a, now) == a.(modelLocks := a.modelLocks - gone, modelBackoff := a.modelBackoff - gone)
  {
    assert Purged(a, now).modelLocks == a.modelLocks - gone;
    assert Purged(a, now).modelBackoff == a.modelBackoff - gone;
  }

  /** The lock map is visited in an arbitrary order; the result does not depend on it. */
  method PurgeAccount(a: Account, now: int) returns (r: Account, removed: nat)
    ensures r == Purged(a, now)
    ensures removed == |ExpiredOf(a, now)|
  {
    var pending := a.modelLocks.Keys;
    ghost var gone: set<string> := {};
    r, removed := a, 0;
    while pending != {}
      invariant pending <= a.modelLocks.Keys
      invariant forall m :: m in gone <==> m in a.modelLocks && m !in pending && a.modelLocks[m] < now
      invariant r == a.(modelLocks := a.modelLocks - gone, modelBackoff := a.modelBackoff - gone)
      invariant removed == |gone|
      decreases pending
    {
      var m :| m in pending;
      pending := pending - {m};
      if now > a.modelLocks[m] {
        assert a.modelLocks - gone - {m} == a.modelLocks - (gone + {m});
        assert a.modelBackoff - gone - {m} == a.modelBackoff - (gone + {m});
        r := r.(modelLocks := r.modelLocks - {m}, modelBackoff := r.modelBackoff - {m});
        removed := removed + 1;
        gone := gone + {m};
      }
    }
    PurgedBy(a, now, gone);
    assert gone == ExpiredOf(a, now);
  }

  // ----- whom the operations serve -----

  /** A selection serves only an account that is not excluded, active, not cooling and not locked for the model, and
      refuses, changing nothing, only if there is none. */
  lemma SelectionServes(p: Pool, model: string, now: int, exclude: set<string>)
    ensures var k := PickIndex(p, model, now, exclude);
      if k >= 0 then
        var a := p.accounts[k];
        && a.id !in exclude && a.status == Active && a.rateLimitedUntil <= now
        && (model in a.modelLocks ==> a.modelLocks[model] <= now)
      else
        && AfterSelect(p, model, now, exclude) == p
        && forall j :: 0 <= j < |p.accounts| ==>
          var a := p.accounts[j];
          || a.id in exclude || a.status != Active || now < a.rateLimitedUntil
          || (model in a.modelLocks && now < a.modelLocks[model])
  {
    PickIsLeast(p, model, now, exclude);
    if PickIndex(p, model, now, exclude) < 0 {
      forall j | 0 <= j < |p.accounts| ensures !Available(p.accounts[j], model, now, exclude) {
      }
      assert Clamped(p.accounts, Mask(p.accounts, model, now, exclude), now) == p.accounts;
    }
  }

  /** The reasons a pin is refused for, the first that applies. */
  lemma PinReasons(p: Pool, id: string, model: string, now: int, k: nat)
    requires k < |p.accounts| && p.accounts[k].id == id && forall j :: 0 <= j < k ==> p.accounts[j].id != id
    ensures var a := p.accounts[k]; var locked := model in a.modelLocks && now < a.modelLocks[model];
      var r := PinRefusal(p, id, model, now);
      && (a.status != Active ==> r == Some(Inactive))
      && (a.status == Active && now < a.rateLimitedUntil ==> r == Some(Cooling))
      && (a.status == Active && a.rateLimitedUntil <= now && locked ==> r == Some(Locked))
      && (a.status == Active && a.rateLimitedUntil <= now && !locked ==> r == None)
  {
    assert Find(p.accounts, id) == k;
  }

  lemma UnknownIdDoesNothing(p: Pool, id: string, model: string, now: int, until: int, status: int, message: string)
    requires forall j :: 0 <= j < |p.accounts| ==> p.accounts[j].id != id
    ensures PinRefusal(p, id, model, now) == Some(NotFound)
    ensures AfterPin(p, id, model, now) == AfterSuccess(p, id) == p
    ensures AfterLock(p, id, model, until) == AfterError(p, now, id, model, status, message) == p
  {
  }

  /** Errors, successes and locks touch the first account with the id and no other. */
  lemma OthersUntouched(p: Pool, now: int, id: string, model: string, status: int, message: string, until: int, i: nat)
    requires i < |p.accounts| && (p.accounts[i].id != id || exists j :: 0 <= j < i && p.accounts[j].id == id)
    ensures |AfterError(p, now, id, model, status, message).accounts| == |p.accounts|
    ensures |AfterSuccess(p, id).accounts| == |AfterLock(p, id, model, until).accounts| == |p.accounts|
    ensures AfterError(p, now, id, model, status, message).accounts[i] == p.accounts[i]
    ensures AfterSuccess(p, id).accounts[i] == AfterLock(p, id, model, until).accounts[i] == p.accounts[i]
  {
  }

  /** An explicit lock keeps the account out for that model until it ends, and changes nothing for the others. */
  lemma LockIsLocal(p: Pool, id: string, model: string, until: int, other: string, t: int, k: nat)
    requires k < |p.accounts| && p.accounts[k].id == id && forall j :: 0 <= j < k ==> p.accounts[j].id != id
    ensures var a := p.accounts[k]; var q := AfterLock(p, id, model, until);
      && |q.accounts| == |p.accounts|
      && (other != model ==> Healthy(q.accounts[k], other, t) == Healthy(a, other, t))
      && (Healthy(q.accounts[k], model, t) <==> a.status == Active && a.rateLimitedUntil <= t && until <= t)
  {
    assert Find(p.accounts, id) == k;
  }
}
