/** Provider accounts, the classification of upstream errors, and what these do to one account. */
module Accounts {
  import opened Common

  /** Instants and durations are nanosecond counts on one time line. */
  const WEIGHT_TICK: int := 1_000_000_000
  const MILLISECOND: int := 1_000_000

  datatype Status = Active | InError | Disabled

  datatype ErrorRecord = ErrorRecord(status: int, message: string, timestamp: int)

  datatype Account = Account(
    id: string,
    credential: string,
    weight: int,
    lastUsed: int,
    status: Status,
    rateLimitedUntil: int,
    modelLocks: map<string, int>,
    modelBackoff: map<string, nat>,
    backoffLevel: nat,
    lastError: Option<ErrorRecord>)

  function EffectiveWeight(a: Account): (w: int)
    ensures w >= 1
  {
    if a.weight < 1 then 1 else a.weight
  }

  /** How far one pick moves an account's clock. */
  function Tick(a: Account): (t: int)
    ensures 1 <= t <= WEIGHT_TICK
  {
    var t := WEIGHT_TICK / EffectiveWeight(a);
    if t <= 0 then 1 else t
  }

  predicate ModelLocked(a: Account, model: string, now: int) {
    model in a.modelLocks && now < a.modelLocks[model]
  }

  /** The health gates of selection, without the caller's exclusions. */
  predicate Healthy(a: Account, model: string, now: int) {
    a.status == Active && a.rateLimitedUntil <= now && !ModelLocked(a, model, now)
  }

  // ----- text signals -----

  predicate OccursAt(s: string, sub: string, i: int) {
    0 <= i <= |s| - |sub| && s[i..i + |sub|] == sub
  }

  predicate Contains(s: string, sub: string) {
    exists i | 0 <= i <= |s| :: OccursAt(s, sub, i)
  }

  predicate IsIdentifierByte(c: char) {
    c == '_' || 'a' <= c <= 'z' || 'A' <= c <= 'Z' || '0' <= c <= '9'
  }

  predicate TokenAt(s: string, tok: string, at: int) {
    && OccursAt(s, tok, at)
    && (at == 0 || !IsIdentifierByte(s[at - 1]))
    && (at + |tok| == |s| || !IsIdentifierByte(s[at + |tok|]))
  }

  /** `tok` occurs in `s` as a whole word. */
  predicate HasToken(s: string, tok: string) {
    tok != "" && exists at | 0 <= at <= |s| :: TokenAt(s, tok, at)
  }

  /** The first occurrence of `tok` in `s` at or after `from`, or -1. */
  method IndexFrom(s: string, tok: string, from: nat) returns (at: int)
    requires from <= |s|
    ensures at == -1 || (from <= at && OccursAt(s, tok, at))
    ensures forall j :: from <= j && (at == -1 || j < at) ==> !OccursAt(s, tok, j)
  {
    at := from;
    while at + |tok| <= |s|
      invariant from <= at
      invariant forall j :: from <= j < at ==> !OccursAt(s, tok, j)
    {
      if OccursAt(s, tok, at) {
        return;
      }
      at := at + 1;
    }
    at := -1;
  }

  /** The search restarts one byte after each rejected occurrence and still misses none. */
  method ContainsToken(s: string, tok: string) returns (found: bool)
    ensures found == HasToken(s, tok)
  {
    if tok == "" {
      return false;
    }
    var i := 0;
    while i + |tok| <= |s|
      invariant 0 <= i <= |s|
      invariant forall j :: 0 <= j < i ==> !TokenAt(s, tok, j)
    {
      var at := IndexFrom(s, tok, i);
      if at < 0 {
        return false;
      }
      var before := at == 0 || !IsIdentifierByte(s[at - 1]);
      var after := at + |tok| == |s| || !IsIdentifierByte(s[at + |tok|]);
      if before && after {
        assert TokenAt(s, tok, at);
        return true;
      }
      i := at + 1;
    }
    return false;
  }

  function LowerChar(c: char): char {
    if 'A' <= c <= 'Z' then (c as int + 32) as char else c
  }

  function Lower(s: string): (r: string)
    ensures |r| == |s|
  {
    seq(|s|, i requires 0 <= i < |s| => LowerChar(s[i]))
  }

  predicate RateContext(msg: string) {
    Contains(msg, "quota") || Contains(msg, "limit") || Contains(msg, "rate") || Contains(msg, "requests")
  }

  /** Does the error body scope its quota to one model rather than to the credential? */
  predicate ModelScopedQuotaSignal(message: string, model: string) {
    var msg := Lower(message);
    || Contains(msg, "per-model")
    || Contains(msg, "permodel")
    || HasToken(msg, "model_name")
    || (RateContext(msg) && (Contains(msg, "\"model\":") || HasToken(msg, Lower(model))))
  }

  // ----- error classification -----

  const RATE_LIMIT_BASE_MS := 1000
  const SERVER_ERROR_MS := 5000
  const AUTH_ERROR_MS := 300_000
  const MAX_BACKOFF := 5

  datatype Decision = Decision(fallback: bool, cooldownMs: int, level: nat)

  function ShiftLeft(x: int, n: nat): int {
    if n == 0 then x else 2 * ShiftLeft(x, n - 1)
  }

  predicate BillingSignal(msg: string) {
    Contains(msg, "insufficient_quota") || Contains(msg, "billing") || Contains(msg, "payment")
  }

  function Classify(status: int, message: string, level: nat): (d: Decision)
    ensures level <= MAX_BACKOFF ==> d.level <= MAX_BACKOFF
    ensures 0 <= d.cooldownMs <= AUTH_ERROR_MS
    ensures d.fallback <==> status == 429 || status >= 500 || status == 401 || status == 403
    ensures d.fallback ==> d.cooldownMs >= RATE_LIMIT_BASE_MS
  {
    if status == 429 then
      var next := if level + 1 > MAX_BACKOFF then MAX_BACKOFF else level + 1;
      assert ShiftLeft(RATE_LIMIT_BASE_MS, 0) == 1000;
      assert ShiftLeft(RATE_LIMIT_BASE_MS, 1) == 2000;
      assert ShiftLeft(RATE_LIMIT_BASE_MS, 2) == 4000;
      assert ShiftLeft(RATE_LIMIT_BASE_MS, 3) == 8000;
      assert ShiftLeft(RATE_LIMIT_BASE_MS, 4) == 16000;
      var cooldown := ShiftLeft(RATE_LIMIT_BASE_MS, next - 1);
      Decision(true, if BillingSignal(Lower(message)) then AUTH_ERROR_MS else cooldown, next)
    else if status >= 500 then
      Decision(true, SERVER_ERROR_MS, level)
    else if status == 401 || status == 403 then
      Decision(true, AUTH_ERROR_MS, level)
    else
      Decision(false, 0, level)
  }

  // ----- one account -----

  predicate Scoped(model: string, status: int, message: string) {
    model != "" && status == 429 && ModelScopedQuotaSignal(message, model)
  }

  function ModelLevel(a: Account, model: string): nat {
    if model in a.modelBackoff then a.modelBackoff[model] else 0
  }

  function WithError(a: Account, now: int, model: string, status: int, message: string): Account {
    var noted := a.(lastError := Some(ErrorRecord(status, message, now)));
    var scoped := Scoped(model, status, message);
    var d := Classify(status, message, if scoped then ModelLevel(a, model) else a.backoffLevel);
    if !d.fallback then
      noted
    else if scoped then
      noted.(modelLocks := a.modelLocks[model := now + d.cooldownMs * MILLISECOND],
             modelBackoff := a.modelBackoff[model := d.level])
    else
      noted.(backoffLevel := d.level,
             rateLimitedUntil := if d.cooldownMs > 0 then now + d.cooldownMs * MILLISECOND else a.rateLimitedUntil,
             status := InError)
  }

  function WithSuccess(a: Account): Account {
    a.(backoffLevel := 0,
       rateLimitedUntil := ZERO_TIME,
       status := if a.status == InError then Active else a.status)
  }

  function Purged(a: Account, now: int): Account {
    a.(modelLocks := map m | m in a.modelLocks && now <= a.modelLocks[m] :: a.modelLocks[m],
       modelBackoff := map m | m in a.modelBackoff && !(m in a.modelLocks && a.modelLocks[m] < now)
                         :: a.modelBackoff[m])
  }

  // ----- what the texts and the numbers mean -----

  /** The same text but for the case of ASCII letters. */
  predicate EqualFold(s: string, t: string) {
    |s| == |t| && forall i | 0 <= i < |s| :: SameLetter(s[i], t[i])
  }

  predicate SameLetter(c: char, d: char) {
    || c == d
    || ('a' <= c <= 'z' && c as int == d as int + 32)
    || ('a' <= d <= 'z' && d as int == c as int + 32)
  }

  lemma LowerIsFold(s: string, t: string)
    ensures EqualFold(s, t) <==> Lower(s) == Lower(t)
  {
    if Lower(s) == Lower(t) {
      forall i | 0 <= i < |s| ensures SameLetter(s[i], t[i]) {
        assert Lower(s)[i] == Lower(t)[i];
      }
    }
  }

  /** `word` occurs in `message`, whatever the case of its letters. */
  ghost predicate Mentions(message: string, word: string) {
    exists i :: MentionsAt(message, word, i)
  }

  predicate MentionsAt(message: string, word: string, i: int) {
    0 <= i <= |message| - |word| && EqualFold(message[i..i + |word|], word)
  }

  predicate IsLower(word: string) {
    forall i | 0 <= i < |word| :: !('A' <= word[i] <= 'Z')
  }

  lemma MentionsIsContains(message: string, word: string)
    requires IsLower(word)
    ensures Mentions(message, word) <==> Contains(Lower(message), word)
  {
    forall i
      ensures MentionsAt(message, word, i) <==> OccursAt(Lower(message), word, i)
    {
      if 0 <= i <= |message| - |word| {
        LowerIsFold(message[i..i + |word|], word);
        assert Lower(word) == word;
        assert Lower(message[i..i + |word|]) == Lower(message)[i..i + |word|];
      }
    }
  }

  /** What an upstream error costs an account. */
  lemma ClassifyTable(status: int, message: string, level: nat)
    ensures var d := Classify(status, message, level);
      var billing := Mentions(message, "insufficient_quota") || Mentions(message, "billing")
        || Mentions(message, "payment");
      && (status == 429 ==>
            && d.fallback && d.level == (if level >= 5 then 5 else level + 1)
            && d.cooldownMs == if billing then 300_000 else [1000, 2000, 4000, 8000, 16_000][d.level - 1])
      && (status >= 500 ==> d == Decision(true, 5000, level))
      && (status == 401 || status == 403 ==> d == Decision(true, 300_000, level))
      && (status !in {401, 403, 429} && status < 500 ==> d == Decision(false, 0, level))
  {
    MentionsIsContains(message, "insufficient_quota");
    MentionsIsContains(message, "billing");
    MentionsIsContains(message, "payment");
    var base := RATE_LIMIT_BASE_MS;
    assert ShiftLeft(base, 1) == 2000 && ShiftLeft(base, 2) == 4000 && ShiftLeft(base, 3) == 8000;
  }

  predicate LetterDigitOrUnderscore(c: char) {
    var n := c as int;
    n == 95 || 48 <= n <= 57 || 65 <= n <= 90 || 97 <= n <= 122
  }

  /** `word` occurs in `message` as a whole word, whatever the case of its letters. */
  ghost predicate Names(message: string, word: string) {
    exists i :: NamesAt(message, word, i)
  }

  predicate NamesAt(message: string, word: string, i: int) {
    && MentionsAt(message, word, i)
    && (i == 0 || !LetterDigitOrUnderscore(message[i - 1]))
    && (i + |word| == |message| || !LetterDigitOrUnderscore(message[i + |word|]))
  }

  lemma WordBytes(c: char)
    ensures IsIdentifierByte(LowerChar(c)) <==> LetterDigitOrUnderscore(c)
  {
  }

  lemma NamesAtIsTokenAt(message: string, word: string, i: int)
    ensures NamesAt(message, word, i) <==> TokenAt(Lower(message), Lower(word), i)
  {
    if 0 <= i <= |message| - |word| {
      LowerIsFold(message[i..i + |word|], word);
      assert Lower(message[i..i + |word|]) == Lower(message)[i..i + |word|];
      if i > 0 {
        WordBytes(message[i - 1]);
      }
      if i + |word| < |message| {
        WordBytes(message[i + |word|]);
      }
    }
  }

  lemma NamesIsToken(message: string, word: string)
    requires word != ""
    ensures Names(message, word) <==> HasToken(Lower(message), Lower(word))
  {
    forall i
      ensures NamesAt(message, word, i) <==> TokenAt(Lower(message), Lower(word), i)
    {
      NamesAtIsTokenAt(message, word, i);
    }
  }

  /** Which errors concern one model only. */
  lemma ScopedTable(model: string, status: int, message: string)
    ensures Scoped(model, status, message) <==>
      && model != "" && status == 429
      && (|| Mentions(message, "per-model")
          || Mentions(message, "permodel")
          || Names(message, "model_name")
          || (&& (Mentions(message, "quota") || Mentions(message, "limit") || Mentions(message, "rate")
                  || Mentions(message, "requests"))
              && (Mentions(message, "\"model\":") || Names(message, model))))
  {
    MentionsIsContains(message, "per-model");
    MentionsIsContains(message, "permodel");
    MentionsIsContains(message, "quota");
    MentionsIsContains(message, "limit");
    MentionsIsContains(message, "rate");
    MentionsIsContains(message, "requests");
    MentionsIsContains(message, "\"model\":");
    NamesIsToken(message, "model_name");
    assert Lower("model_name") == "model_name";
    if model != "" {
      NamesIsToken(message, model);
    }
  }

  /** Case is ignored throughout. */
  lemma CaseIsIgnored(model: string, model': string, message: string, message': string, status: int, level: nat)
    requires EqualFold(model, model') && EqualFold(message, message')
    ensures Scoped(model, status, message) == Scoped(model', status, message')
    ensures Classify(status, message, level) == Classify(status, message', level)
  {
    LowerIsFold(model, model');
    LowerIsFold(message, message');
  }

  /** What an error leaves of an account: the error is noted; then only the lock and the level of the model
      change, or only the account's own level, cooldown and status, or nothing. */
  lemma ErrorEffects(a: Account, now: int, model: string, status: int, message: string)
    ensures var b := WithError(a, now, model, status, message);
      var level := if Scoped(model, status, message) then ModelLevel(a, model) else a.backoffLevel;
      var d := Classify(status, message, level);
      && b.lastError == Some(ErrorRecord(status, message, now))
      && b.id == a.id && b.credential == a.credential && b.weight == a.weight && b.lastUsed == a.lastUsed
      && (if Scoped(model, status, message)
          then
            && b.status == a.status && b.rateLimitedUntil == a.rateLimitedUntil && b.backoffLevel == a.backoffLevel
            && b.modelLocks == a.modelLocks[model := now + d.cooldownMs * 1_000_000]
            && b.modelBackoff == a.modelBackoff[model := d.level]
          else
            && b.modelLocks == a.modelLocks && b.modelBackoff == a.modelBackoff
            && (d.fallback ==>
                  && b.status == InError && b.backoffLevel == d.level
                  && b.rateLimitedUntil == now + d.cooldownMs * 1_000_000)
            && (!d.fallback ==>
                  b.status == a.status && b.backoffLevel == a.backoffLevel && b.rateLimitedUntil == a.rateLimitedUntil))
  {
  }

  /** A success brings an account in error back, for all models that are not locked; a disabled account stays out. */
  lemma SuccessRevives(a: Account, model: string, now: int)
    requires now >= ZERO_TIME
    ensures var b := WithSuccess(a);
      && b.backoffLevel == 0
      && (Healthy(b, model, now) <==>
            a.status != Disabled && (model in a.modelLocks ==> a.modelLocks[model] <= now))
      && b.modelLocks == a.modelLocks && b.modelBackoff == a.modelBackoff && b.lastUsed == a.lastUsed
  {
  }

  /** A purge leaves exactly the locks that have not ended, and forgets exactly the levels of those that have. */
  lemma PurgeExactly(a: Account, now: int, model: string)
    ensures var b := Purged(a, now); var ended := model in a.modelLocks && a.modelLocks[model] < now;
      && (model in b.modelLocks <==> model in a.modelLocks && !ended)
      && (model in b.modelLocks ==> b.modelLocks[model] == a.modelLocks[model])
      && (model in b.modelBackoff <==> model in a.modelBackoff && !ended)
      && (model in b.modelBackoff ==> b.modelBackoff[model] == a.modelBackoff[model])
      && b == a.(modelLocks := b.modelLocks, modelBackoff := b.modelBackoff)
  {
  }
}
