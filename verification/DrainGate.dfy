/** The drain gate: request admission against gateway disposal. */
module DrainGate {
  import opened Common

  /** What the mutex guards. Channels are numbered in the order they are made; `closed` lists the
      channel closes in order, so closing a channel twice would show as a repeated number. */
  datatype Gate = Gate(draining: bool, inflight: nat, drained: Option<nat>, made: nat, closed: seq<nat>)

  const FRESH := Gate(false, 0, None, 0, [])

  function EnterGate(g: Gate): (Gate, bool) {
    if g.draining then (g, false) else (g.(inflight := g.inflight + 1), true)
  }

  function ExitGate(g: Gate): Gate {
    var g := if g.inflight > 0 then g.(inflight := g.inflight - 1) else g;
    if g.inflight == 0 && g.draining && g.drained.Some?
    then g.(closed := g.closed + [g.drained.value], drained := None)
    else g
  }

  /** The first section of CloseWhenDrained: arm the gate and take the channel to wait on. */
  function ArmGate(g: Gate): (Gate, Option<nat>) {
    var g := if g.draining then g
             else if g.inflight > 0 then g.(draining := true, drained := Some(g.made), made := g.made + 1)
             else g.(draining := true);
    (g, g.drained)
  }

  /** The gate object; each method is one critical section. */
  class DrainGate {
    var draining: bool
    var inflight: nat
    var drained: Option<nat>
    var made: nat
    var closed: seq<nat>

    function State(): Gate
      reads this
    {
      Gate(draining, inflight, drained, made, closed)
    }

    constructor ()
      ensures State() == FRESH
    {
      draining, inflight, drained, made, closed := false, 0, None, 0, [];
    }

    method EnterRequest() returns (admitted: bool)
      modifies this`inflight
      ensures (State(), admitted) == EnterGate(old(State()))
      ensures admitted <==> !old(draining)
      ensures inflight == old(inflight) + if admitted then 1 else 0
    {
      if draining {
        return false;
      }
      inflight := inflight + 1;
      return true;
    }

    method ExitRequest()
      modifies this
      ensures State() == ExitGate(old(State()))
      ensures inflight == (if old(inflight) == 0 then 0 else old(inflight) - 1) && draining == old(draining)
      ensures old(draining) && inflight == 0 && old(drained).Some? ==>
        drained == None && closed == old(closed) + [old(drained).value]
      ensures !(old(draining) && inflight == 0) ==> drained == old(drained) && closed == old(closed)
    {
      if inflight > 0 {
        inflight := inflight - 1;
      }
      if inflight == 0 && draining && drained.Some? {
        closed := closed + [drained.value];
        drained := None;
      }
    }

    method Arm() returns (ch: Option<nat>)
      modifies this
      ensures (State(), ch) == ArmGate(old(State()))
      ensures draining && inflight == old(inflight) && closed == old(closed) && ch == drained
      ensures old(draining) ==> drained == old(drained)
      ensures !old(draining) && inflight > 0 ==> drained == Some(old(made))
    {
      if !draining {
        draining := true;
        if inflight > 0 {
          drained := Some(made);
          made := made + 1;
        }
      }
      ch := drained;
    }
  }

  // ----- the protocol -----
  // Every mutex-guarded section, channel wake-up, context expiry and step of the one-shot close is one
  // atomic step; a run is any interleaving of them, with any number of requests and of callers of
  // CloseWhenDrained.

  /** Where a CloseWhenDrained call is: waiting on its channel, about to run the one-shot close,
      inside it, or returned. */
  datatype Phase = Waiting(ch: nat) | AtOnce | Closing | Returned

  datatype Closer = Closer(phase: Phase, expired: bool)

  /** `serving` counts the admitted requests that have not finished; `begun` and `ended` count how often
      the resources started and finished closing. */
  datatype System = System(gate: Gate, serving: nat, closers: seq<Closer>, begun: nat, ended: nat)

  const INITIAL := System(FRESH, 0, [], 0, 0)

  datatype Step =
    | Enter
    | Exit
    | Arm
    | Wake(c: nat)
    | Expire(c: nat)
    | BeginClose(c: nat)
    | EndClose(c: nat)
    | SkipClose(c: nat)

  /** An admitted request exits once; a closer wakes once its channel is closed, or when its context
      expires; a second caller of the one-shot close waits for the first to finish. */
  predicate Enabled(s: System, e: Step) {
    match e
    case Enter => true
    case Exit => s.serving > 0
    case Arm => true
    case Wake(c) => c < |s.closers| && s.closers[c].phase.Waiting? && s.closers[c].phase.ch in s.gate.closed
    case Expire(c) => c < |s.closers| && s.closers[c].phase.Waiting?
    case BeginClose(c) => c < |s.closers| && s.closers[c].phase == AtOnce && s.begun == 0
    case EndClose(c) => c < |s.closers| && s.closers[c].phase == Closing
    case SkipClose(c) => c < |s.closers| && s.closers[c].phase == AtOnce && s.ended > 0
  }

  function At(s: System, c: nat, phase: Phase): System
    requires c < |s.closers|
  {
    s.(closers := s.closers[c := s.closers[c].(phase := phase)])
  }

  function Next(s: System, e: Step): System
    requires Enabled(s, e)
  {
    match e
    case Enter =>
      var (g, admitted) := EnterGate(s.gate);
      s.(gate := g, serving := if admitted then s.serving + 1 else s.serving)
    case Exit => s.(gate := ExitGate(s.gate), serving := s.serving - 1)
    case Arm =>
      var (g, ch) := ArmGate(s.gate);
      s.(gate := g, closers := s.closers + [Closer(if ch.Some? then Waiting(ch.value) else AtOnce, false)])
    case Wake(c) => At(s, c, AtOnce)
    case Expire(c) => s.(closers := s.closers[c := Closer(AtOnce, true)])
    case BeginClose(c) => At(s, c, Closing).(begun := s.begun + 1)
    case EndClose(c) => At(s, c, Returned).(ended := s.ended + 1)
    case SkipClose(c) => At(s, c, Returned)
  }

  predicate Schedulable(s: System, es: seq<Step>)
    decreases es
  {
    es == [] || (Enabled(s, es[0]) && Schedulable(Next(s, es[0]), es[1..]))
  }

  function Run(s: System, es: seq<Step>): System
    requires Schedulable(s, es)
    decreases es
  {
    if es == [] then s else Run(Next(s, es[0]), es[1..])
  }

  // ----- the invariant -----

  ghost predicate GateInv(g: Gate) {
    && (g.drained.Some? ==> g.draining && g.drained == Some(0) && g.made == 1 && g.inflight > 0 && g.closed == [])
    && (g.draining && g.inflight > 0 ==> g.drained.Some?)
    && (g.closed == [] || (g.closed == [0] && g.draining && g.inflight == 0 && g.made == 1))
    && (g.made == 0 || (g.made == 1 && g.draining))
    && (g.made == 1 ==> g.drained.Some? || g.closed == [0])
  }

  ghost predicate CloserInv(s: System, c: Closer) {
    && (c.phase.Waiting? ==> c.phase.ch == 0 && s.gate.made == 1)
    && (!c.phase.Waiting? && !c.expired ==> s.gate.inflight == 0)
    && (c.phase == Closing ==> s.begun == 1 && s.ended == 0)
    && (c.phase == Returned ==> s.ended == 1)
  }

  /** Closer `i` has gone into the one-shot close. */
  ghost predicate Entered(s: System, i: nat) {
    i < |s.closers| && (s.closers[i].phase == Closing || s.closers[i].phase == Returned)
  }

  /** At most one closer runs the close, and while it has begun and not ended one does. */
  ghost predicate OnceInv(s: System) {
    && s.ended <= s.begun <= 1
    && (s.begun == 1 ==> exists i: nat :: Entered(s, i))
    && (forall i, j :: 0 <= i < j < |s.closers| ==> !(s.closers[i].phase == Closing && s.closers[j].phase == Closing))
  }

  ghost predicate Inv(s: System) {
    && GateInv(s.gate)
    && s.gate.inflight == s.serving
    && (|s.closers| > 0 <==> s.gate.draining)
    && (forall i :: 0 <= i < |s.closers| ==> CloserInv(s, s.closers[i]))
    && OnceInv(s)
  }

  lemma NextKeepsOnce(s: System, e: Step)
    requires Inv(s) && Enabled(s, e)
    ensures OnceInv(Next(s, e))
  {
    var t := Next(s, e);
    if e.BeginClose? || e.EndClose? {
      assert Entered(t, e.c);
    } else if s.begun == 1 {
      var i: nat :| Entered(s, i);
      assert Entered(t, i);
    }
  }

  lemma NextKeepsInv(s: System, e: Step)
    requires Inv(s) && Enabled(s, e)
    ensures Inv(Next(s, e))
  {
    NextKeepsOnce(s, e);
    var t := Next(s, e);
    forall i | 0 <= i < |t.closers|
      ensures CloserInv(t, t.closers[i])
    {
      assert i < |s.closers| ==> CloserInv(s, s.closers[i]);
    }
  }

  lemma {:induction false} RunKeepsInv(s: System, es: seq<Step>)
    requires Inv(s) && Schedulable(s, es)
    ensures Inv(Run(s, es))
    decreases es
  {
    if es != [] {
      NextKeepsInv(s, es[0]);
      RunKeepsInv(Next(s, es[0]), es[1..]);
    }
  }

  // ----- safety -----

  lemma {:induction false} ExpiredOnlyByExpiry(s: System, es: seq<Step>)
    requires Schedulable(s, es)
    requires forall i :: 0 <= i < |s.closers| ==> !s.closers[i].expired
    requires forall e :: e in es ==> !e.Expire?
    ensures forall i :: 0 <= i < |Run(s, es).closers| ==> !Run(s, es).closers[i].expired
    decreases es
  {
    if es != [] {
      ExpiredOnlyByExpiry(Next(s, es[0]), es[1..]);
    }
  }

  /** In every interleaving the resources start closing at most once, the drained channel is made and
      closed at most once, and if no context expired nothing is in flight once closing has begun. */
  lemma DrainSafety(es: seq<Step>)
    requires Schedulable(INITIAL, es)
    ensures var s := Run(INITIAL, es);
      && s.ended <= s.begun <= 1
      && s.gate.made <= 1
      && |s.gate.closed| <= 1
      && s.gate.inflight == s.serving
      && (s.begun == 1 && (forall e :: e in es ==> !e.Expire?) ==> s.serving == 0)
  {
    RunKeepsInv(INITIAL, es);
    var s := Run(INITIAL, es);
    if s.begun == 1 && forall e :: e in es ==> !e.Expire? {
      ExpiredOnlyByExpiry(INITIAL, es);
      var i: nat :| Entered(s, i);
      assert CloserInv(s, s.closers[i]);
    }
  }

  /** No call of CloseWhenDrained returns before the resources have finished closing. */
  lemma ReturnedMeansClosed(es: seq<Step>, c: nat)
    requires Schedulable(INITIAL, es)
    requires c < |Run(INITIAL, es).closers| && Run(INITIAL, es).closers[c].phase == Returned
    ensures Run(INITIAL, es).ended == 1
  {
    RunKeepsInv(INITIAL, es);
    assert CloserInv(Run(INITIAL, es), Run(INITIAL, es).closers[c]);
  }

  /** Once armed, the gate stays armed, admits nothing and only lets requests out. */
  lemma {:induction false} NothingAdmittedAfterArming(s: System, es: seq<Step>)
    requires Schedulable(s, es) && s.gate.draining
    ensures Run(s, es).gate.draining
    ensures Run(s, es).serving <= s.serving
    ensures Run(s, es).serving + (multiset(es)[Exit]) == s.serving
    decreases es
  {
    if es != [] {
      NothingAdmittedAfterArming(Next(s, es[0]), es[1..]);
      assert es == [es[0]] + es[1..];
    }
  }

  /** Until it is armed, the gate admits every request: those served are those that came and have not gone. */
  lemma {:induction false} OpenGateAdmitsAll(s: System, es: seq<Step>)
    requires Schedulable(s, es) && !s.gate.draining && forall e :: e in es ==> !e.Arm?
    ensures !Run(s, es).gate.draining
    ensures Run(s, es).serving + multiset(es)[Exit] == s.serving + multiset(es)[Enter]
    decreases es
  {
    if es != [] {
      OpenGateAdmitsAll(Next(s, es[0]), es[1..]);
      assert es == [es[0]] + es[1..];
    }
  }

  /** So over any run from the start, whatever the interleaving. */
  lemma NothingRefusedBeforeArming(es: seq<Step>)
    requires Schedulable(INITIAL, es) && forall e :: e in es ==> !e.Arm?
    ensures Run(INITIAL, es).serving + multiset(es)[Exit] == multiset(es)[Enter]
    ensures Run(INITIAL, es).gate.inflight + multiset(es)[Exit] == multiset(es)[Enter]
  {
    OpenGateAdmitsAll(INITIAL, es);
    RunKeepsInv(INITIAL, es);
  }

  /** Without the expiry condition the claim fails: an expired context closes under a request. */
  lemma ExpiryClosesUnderRequests()
    ensures var es := [Enter, Arm, Expire(0), BeginClose(0)];
      Schedulable(INITIAL, es) && Run(INITIAL, es).begun == 1 && Run(INITIAL, es).serving == 1
  {
    var s1 := Next(INITIAL, Enter);
    var s2 := Next(s1, Arm);
    var s3 := Next(s2, Expire(0));
    var s4 := Next(s3, BeginClose(0));
    assert Schedulable(s3, [BeginClose(0)]) && Run(s3, [BeginClose(0)]) == s4;
    assert [Expire(0), BeginClose(0)][1..] == [BeginClose(0)];
    assert Schedulable(s2, [Expire(0), BeginClose(0)]) && Run(s2, [Expire(0), BeginClose(0)]) == s4;
    assert [Arm, Expire(0), BeginClose(0)][1..] == [Expire(0), BeginClose(0)];
    assert Schedulable(s1, [Arm, Expire(0), BeginClose(0)]) && Run(s1, [Arm, Expire(0), BeginClose(0)]) == s4;
    assert [Enter, Arm, Expire(0), BeginClose(0)][1..] == [Arm, Expire(0), BeginClose(0)];
  }

  // ----- progress -----

  /** No lost wake-up: a closer waits on an unclosed channel only while a request is in flight. */
  lemma BlockedOnlyByRequests(es: seq<Step>, c: nat)
    requires Schedulable(INITIAL, es)
    requires c < |Run(INITIAL, es).closers| && Run(INITIAL, es).closers[c].phase.Waiting?
    requires Run(INITIAL, es).closers[c].phase.ch !in Run(INITIAL, es).gate.closed
    ensures Run(INITIAL, es).serving > 0
  {
    RunKeepsInv(INITIAL, es);
    assert CloserInv(Run(INITIAL, es), Run(INITIAL, es).closers[c]);
  }

  function Effort(phase: Phase): nat {
    match phase case Waiting(_) => 3 case AtOnce => 2 case Closing => 1 case Returned => 0
  }

  function Efforts(cs: seq<Closer>): nat {
    if cs == [] then 0 else Effort(cs[0].phase) + Efforts(cs[1..])
  }

  /** Requests still in flight plus the steps the closers have left. */
  function Rank(s: System): nat {
    s.serving + Efforts(s.closers)
  }

  lemma {:induction false} EffortsAt(cs: seq<Closer>, c: nat, d: Closer)
    requires c < |cs|
    ensures Efforts(cs[c := d]) == Efforts(cs) - Effort(cs[c].phase) + Effort(d.phase)
  {
    if c == 0 {
      assert cs[c := d][1..] == cs[1..];
    } else {
      EffortsAt(cs[1..], c - 1, d);
      assert cs[c := d][1..] == cs[1..][c - 1 := d];
    }
  }

  predicate Finishing(e: Step) {
    !e.Enter? && !e.Arm?
  }

  lemma FinishingLowersRank(s: System, e: Step)
    requires Enabled(s, e) && Finishing(e)
    ensures Rank(Next(s, e)) < Rank(s)
  {
    if !e.Exit? {
      EffortsAt(s.closers, e.c, Next(s, e).closers[e.c]);
    }
  }

  /** Everything is over: no request in flight, resources closed, every caller returned. */
  ghost predicate Finished(s: System) {
    && s.serving == 0
    && s.ended == 1
    && forall i :: 0 <= i < |s.closers| ==> s.closers[i].phase == Returned
  }

  /** The step that can be taken next without help from a context expiry. */
  lemma SomeStepEnabled(s: System) returns (e: Step)
    requires Inv(s) && s.gate.draining && !Finished(s)
    ensures Enabled(s, e) && Finishing(e) && !e.Expire?
  {
    if s.serving > 0 {
      return Exit;
    }
    if s.begun == 1 && s.ended == 0 {
      var i: nat :| Entered(s, i);
      assert CloserInv(s, s.closers[i]);
      return EndClose(i);
    }
    var i: nat;
    if s.ended == 0 {
      i := 0;
    } else {
      i :| i < |s.closers| && s.closers[i].phase != Returned;
    }
    assert CloserInv(s, s.closers[i]);
    if s.closers[i].phase.Waiting? {
      return Wake(i);
    } else if s.begun == 0 {
      return BeginClose(i);
    } else {
      return SkipClose(i);
    }
  }

  /** Once no new request or closer arrives, a run has at most `Rank` steps left... */
  lemma {:induction false} FinishingRunsAreShort(s: System, es: seq<Step>)
    requires Schedulable(s, es) && forall e :: e in es ==> Finishing(e)
    ensures |es| + Rank(Run(s, es)) <= Rank(s)
    decreases es
  {
    if es != [] {
      FinishingLowersRank(s, es[0]);
      FinishingRunsAreShort(Next(s, es[0]), es[1..]);
    }
  }

  /** ...and a run that cannot go on without an expiry has closed everything. */
  lemma StuckMeansFinished(s: System)
    requires Inv(s) && s.gate.draining
    requires forall e :: Finishing(e) && !e.Expire? ==> !Enabled(s, e)
    ensures Finished(s)
  {
    if !Finished(s) {
      var e := SomeStepEnabled(s);
    }
  }

  /** Drain progress: from every state reached with the gate armed, letting the admitted requests finish
      leads to the close without any context expiring, within `Rank` steps. */
  lemma {:induction false} DrainCompletes(s: System) returns (es: seq<Step>)
    requires Inv(s) && s.gate.draining
    ensures Schedulable(s, es) && (forall e :: e in es ==> Finishing(e) && !e.Expire?)
    ensures Finished(Run(s, es)) && |es| <= Rank(s)
    decreases Rank(s)
  {
    if Finished(s) {
      return [];
    }
    var e := SomeStepEnabled(s);
    NextKeepsInv(s, e);
    FinishingLowersRank(s, e);
    var rest := DrainCompletes(Next(s, e));
    es := [e] + rest;
    assert es[1..] == rest;
  }
}
