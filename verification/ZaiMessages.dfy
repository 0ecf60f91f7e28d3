/** Z.AI message normalisation: filter, merge, bridge. */
module ZaiMessages {

  /** Message content: a plain string, or structured parts with the text extracted from them. */
  datatype Content = Text(s: string) | Parts(raw: string, text: string)

  function Extract(c: Content): string {
    match c case Text(s) => s case Parts(_, text) => text
  }

  /** `calls` are the ids in the tool_calls list (empty ones included); a missing list is the empty one, as
      no decision tells them apart. Elements that are no objects pass through untouched. */
  datatype Msg =
    | Raw(payload: string)
    | Msg(role: string, content: Content, calls: seq<string>, toolCallId: string)

  const USER_BRIDGE := Msg("user", Text("Continue."), [], "")
  const SYSTEM_BRIDGE := Msg("system", Text("Continue the conversation."), [], "")

  predicate Is(m: Msg, role: string) {
    m.Msg? && m.role == role
  }

  /** The ids of the tool calls the assistant messages make. */
  function CallIds(ms: seq<Msg>): set<string> {
    set m, id | m in ms && Is(m, "assistant") && id in m.calls && id != "" :: id
  }

  // ----- filter -----

  predicate Dropped(m: Msg, ids: set<string>) {
    && m.Msg?
    && (|| (Extract(m.content) == "" && m.role != "tool" && m.role != "assistant" && m.role != "system")
        || (m.role == "assistant" && Extract(m.content) == "" && m.calls == [])
        || (m.role == "tool" && (m.toolCallId == "" || m.toolCallId !in ids)))
  }

  function Filter(ms: seq<Msg>, ids: set<string>): (r: seq<Msg>)
    ensures forall m :: m in r <==> m in ms && !Dropped(m, ids)
    ensures |r| <= |ms|
    ensures |r| == |ms| ==> r == ms
  {
    if ms == [] then []
    else if Dropped(ms[0], ids) then Filter(ms[1..], ids)
    else [ms[0]] + Filter(ms[1..], ids)
  }

  // ----- merge and bridge -----

  function JoinText(a: string, b: string): string {
    a + "\n\n" + b
  }

  /** A user message with the text of the next one joined on. */
  function Joined(prev: Msg, m: Msg): Msg
    requires prev.Msg? && m.Msg?
  {
    prev.(content := Text(JoinText(Extract(prev.content), Extract(m.content))))
  }

  /** Add one message: fold a user message into a user message before it, put a bridge between two
      assistant messages, append anything else. */
  function MergeInto(merged: seq<Msg>, m: Msg): seq<Msg> {
    if merged == [] then [m]
    else
      var n := |merged| - 1;
      var prev := merged[n];
      if Is(prev, "user") && Is(m, "user") then
        merged[..n] + [Joined(prev, m)]
      else if Is(prev, "assistant") && Is(m, "assistant") then merged + [USER_BRIDGE, m]
      else merged + [m]
  }

  function MergeAll(ms: seq<Msg>): seq<Msg> {
    if ms == [] then [] else MergeInto(MergeAll(ms[..|ms| - 1]), ms[|ms| - 1])
  }

  function Prepend(ms: seq<Msg>): seq<Msg> {
    if ms != [] && Is(ms[0], "user") then [SYSTEM_BRIDGE] + ms else ms
  }

  function Filtered(ms: seq<Msg>): seq<Msg> {
    Filter(ms, CallIds(ms))
  }

  /** The normalised conversation. */
  function Normalized(ms: seq<Msg>): seq<Msg> {
    Prepend(MergeAll(Filtered(ms)))
  }

  // ----- the adapter's loops -----

  method CollectValidToolCallIDs(ms: seq<Msg>) returns (ids: set<string>)
    ensures ids == CallIds(ms)
  {
    ids := {};
    var i := 0;
    while i < |ms|
      invariant 0 <= i <= |ms|
      invariant ids == CallIds(ms[..i])
    {
      var m := ms[i];
      assert ms[..i + 1] == ms[..i] + [m];
      if m.Msg? && m.role == "assistant" {
        var j := 0;
        ghost var before := ids;
        while j < |m.calls|
          invariant 0 <= j <= |m.calls|
          invariant ids == before + (set id | id in m.calls[..j] && id != "")
        {
          assert m.calls[..j + 1] == m.calls[..j] + [m.calls[j]];
          if m.calls[j] != "" {
            ids := ids + {m.calls[j]};
          }
          j := j + 1;
        }
        assert m.calls[..j] == m.calls;
      }
      i := i + 1;
    }
    assert ms[..i] == ms;
  }

  method ShouldDrop(m: Msg, ids: set<string>) returns (drop: bool)
    ensures drop <==> Dropped(m, ids)
  {
    if m.Raw? {
      return false;
    }
    var content := Extract(m.content);
    if content == "" && m.role != "tool" && m.role != "assistant" && m.role != "system" {
      return true;
    }
    if m.role == "assistant" && content == "" {
      return |m.calls| == 0;
    }
    if m.role == "tool" {
      return m.toolCallId == "" || m.toolCallId !in ids;
    }
    return false;
  }

  method FilterMessages(ms: seq<Msg>, ids: set<string>) returns (filtered: seq<Msg>)
    ensures filtered == Filter(ms, ids)
  {
    filtered := [];
    var i := 0;
    while i < |ms|
      invariant 0 <= i <= |ms|
      invariant filtered + Filter(ms[i..], ids) == Filter(ms, ids)
    {
      var m := ms[i];
      assert ms[i..][0] == m && ms[i..][1..] == ms[i + 1..];
      var drop := ShouldDrop(m, ids);
      if !drop {
        Regroup(filtered, [m], Filter(ms[i + 1..], ids));
        filtered := filtered + [m];
      }
      i := i + 1;
    }
  }

  lemma Regroup(a: seq<Msg>, b: seq<Msg>, c: seq<Msg>)
    ensures a + (b + c) == a + b + c
  {
  }

  method MergeSequentialMessages(filtered: seq<Msg>) returns (merged: seq<Msg>)
    ensures merged == MergeAll(filtered)
  {
    merged := [];
    var i := 0;
    while i < |filtered|
      invariant 0 <= i <= |filtered|
      invariant merged == MergeAll(filtered[..i])
    {
      assert filtered[..i + 1][..i] == filtered[..i];
      merged := MergeInto(merged, filtered[i]);
      i := i + 1;
    }
    assert filtered[..i] == filtered;
  }

  /** The sanitizer: a request with tools is left alone; otherwise the messages are replaced when some stage
      changed their number. */
  method Sanitize(hasTools: bool, ms: seq<Msg>) returns (changed: bool, out: seq<Msg>)
    ensures changed <==> !hasTools && DetectsChange(ms)
    ensures out == if changed then Normalized(ms) else ms
  {
    changed, out := false, ms;
    if hasTools {
      return;
    }
    var ids := CollectValidToolCallIDs(ms);
    var filtered := FilterMessages(ms, ids);
    if |filtered| == 0 {
      return;
    }
    changed := |filtered| != |ms|;
    var merged := MergeSequentialMessages(filtered);
    if |merged| != |filtered| {
      changed := true;
    }
    var bridged := merged;
    if |merged| > 0 && merged[0].Msg? && merged[0].role == "user" {
      bridged := [SYSTEM_BRIDGE] + merged;
    }
    if |bridged| != |merged| {
      changed := true;
    }
    if changed {
      out := bridged;
    }
  }

  predicate DetectsChange(ms: seq<Msg>) {
    var filtered := Filtered(ms);
    var merged := MergeAll(filtered);
    filtered != [] && (|filtered| != |ms| || |merged| != |filtered| || |Prepend(merged)| != |merged|)
  }

  // ----- shape -----

  predicate NoAdjacent(ms: seq<Msg>, role: string) {
    forall i | 0 <= i < |ms| - 1 :: !(Is(ms[i], role) && Is(ms[i + 1], role))
  }

  lemma MergeIntoShape(merged: seq<Msg>, m: Msg)
    requires NoAdjacent(merged, "user") && NoAdjacent(merged, "assistant")
    ensures NoAdjacent(MergeInto(merged, m), "user") && NoAdjacent(MergeInto(merged, m), "assistant")
  {
  }

  lemma {:induction false} MergeAllShape(ms: seq<Msg>)
    ensures NoAdjacent(MergeAll(ms), "user") && NoAdjacent(MergeAll(ms), "assistant")
  {
    if ms != [] {
      MergeAllShape(ms[..|ms| - 1]);
      MergeIntoShape(MergeAll(ms[..|ms| - 1]), ms[|ms| - 1]);
    }
  }

  /** No two user messages and no two assistant messages are adjacent, and no user message leads. */
  lemma NormalizedShape(ms: seq<Msg>)
    ensures var out := Normalized(ms);
      NoAdjacent(out, "user") && NoAdjacent(out, "assistant") && (out != [] ==> !Is(out[0], "user"))
  {
    MergeAllShape(Filtered(ms));
  }

  // ----- what survives -----

  /** All messages other than user messages, in order. */
  function NonUsers(ms: seq<Msg>): seq<Msg> {
    if ms == [] then []
    else NonUsers(ms[..|ms| - 1]) + if Is(ms[|ms| - 1], "user") then [] else [ms[|ms| - 1]]
  }

  /** All user text, in order, each piece followed by a blank line. */
  function UserText(ms: seq<Msg>): string {
    if ms == [] then ""
    else UserText(ms[..|ms| - 1]) + if Is(ms[|ms| - 1], "user") then Extract(ms[|ms| - 1].content) + "\n\n" else ""
  }

  /** The conversation with a bridge between adjacent assistant messages, nothing else changed. */
  function Bridged(ms: seq<Msg>): seq<Msg> {
    if ms == [] then []
    else
      var n := |ms| - 1;
      Bridged(ms[..n])
      + (if n > 0 && Is(ms[n - 1], "assistant") && Is(ms[n], "assistant") then [USER_BRIDGE] else [])
      + [ms[n]]
  }

  lemma Snoc(ms: seq<Msg>, m: Msg)
    ensures NonUsers(ms + [m]) == NonUsers(ms) + (if Is(m, "user") then [] else [m])
    ensures UserText(ms + [m]) == UserText(ms) + (if Is(m, "user") then Extract(m.content) + "\n\n" else "")
  {
    assert (ms + [m])[..|ms|] == ms;
  }

  /** Merging keeps the kind of the last message. */
  lemma {:induction false} MergeAllLast(ms: seq<Msg>)
    ensures MergeAll(ms) == [] <==> ms == []
    ensures ms != [] ==>
      var l, m := MergeAll(ms)[|MergeAll(ms)| - 1], ms[|ms| - 1]; l.Msg? == m.Msg? && (m.Msg? ==> l.role == m.role)
  {
    if ms != [] {
      MergeAllLast(ms[..|ms| - 1]);
    }
  }

  lemma JoinedText(u: string, a: string, b: string)
    ensures u + (JoinText(a, b) + "\n\n") == u + (a + "\n\n") + (b + "\n\n")
  {
  }

  lemma JoinLast(front: seq<Msg>, prev: Msg, m: Msg)
    requires Is(prev, "user") && Is(m, "user")
    ensures UserText(front + [Joined(prev, m)]) == UserText(front + [prev]) + (Extract(m.content) + "\n\n")
    ensures NonUsers(front + [Joined(prev, m)]) == NonUsers(front + [prev])
  {
    Snoc(front, Joined(prev, m));
    Snoc(front, prev);
    JoinedText(UserText(front), Extract(prev.content), Extract(m.content));
  }

  lemma SnocTwo(ms: seq<Msg>, b: Msg, m: Msg)
    requires Is(b, "user") && !Is(m, "user")
    ensures NonUsers(ms + [b, m]) == NonUsers(ms) + [m]
    ensures UserText(ms + [b, m]) == UserText(ms) + (Extract(b.content) + "\n\n")
  {
    assert ms + [b, m] == (ms + [b]) + [m];
    Snoc(ms, b);
    Snoc(ms + [b], m);
  }

  predicate NeedsBridge(ms: seq<Msg>, m: Msg) {
    ms != [] && Is(ms[|ms| - 1], "assistant") && Is(m, "assistant")
  }

  lemma BridgedSnoc(front: seq<Msg>, m: Msg)
    ensures NeedsBridge(front, m) ==> Bridged(front + [m]) == Bridged(front) + [USER_BRIDGE] + [m]
    ensures !NeedsBridge(front, m) ==> Bridged(front + [m]) == Bridged(front) + [m]
  {
    assert (front + [m])[..|front|] == front;
  }

  lemma JoinKeeps(merged: seq<Msg>, bridged: seq<Msg>, m: Msg)
    requires UserText(merged) == UserText(bridged)
    requires merged != [] && Is(merged[|merged| - 1], "user") && Is(m, "user")
    ensures NonUsers(MergeInto(merged, m)) == NonUsers(merged)
    ensures UserText(MergeInto(merged, m)) == UserText(bridged + [m])
  {
    var front, prev := merged[..|merged| - 1], merged[|merged| - 1];
    assert merged == front + [prev];
    Snoc(bridged, m);
    JoinLast(front, prev, m);
  }

  lemma BridgeKeeps(merged: seq<Msg>, bridged: seq<Msg>, m: Msg)
    requires UserText(merged) == UserText(bridged)
    requires merged != [] && Is(merged[|merged| - 1], "assistant") && Is(m, "assistant")
    ensures NonUsers(MergeInto(merged, m)) == NonUsers(merged) + [m]
    ensures UserText(MergeInto(merged, m)) == UserText(bridged + [USER_BRIDGE] + [m])
  {
    assert bridged + [USER_BRIDGE] + [m] == bridged + [USER_BRIDGE, m];
    SnocTwo(merged, USER_BRIDGE, m);
    SnocTwo(bridged, USER_BRIDGE, m);
  }

  lemma AppendKeeps(merged: seq<Msg>, bridged: seq<Msg>, m: Msg)
    requires UserText(merged) == UserText(bridged)
    ensures NonUsers(merged + [m]) == NonUsers(merged) + (if Is(m, "user") then [] else [m])
    ensures UserText(merged + [m]) == UserText(bridged + [m])
  {
    Snoc(bridged, m);
    Snoc(merged, m);
  }

  /** One more message adds the same to the merged conversation as to the bridged one. */
  lemma MergeIntoKeeps(merged: seq<Msg>, bridged: seq<Msg>, m: Msg)
    requires UserText(merged) == UserText(bridged)
    ensures Is(m, "user") ==> NonUsers(MergeInto(merged, m)) == NonUsers(merged)
    ensures !Is(m, "user") ==> NonUsers(MergeInto(merged, m)) == NonUsers(merged) + [m]
    ensures NeedsBridge(merged, m) ==> UserText(MergeInto(merged, m)) == UserText(bridged + [USER_BRIDGE] + [m])
    ensures !NeedsBridge(merged, m) ==> UserText(MergeInto(merged, m)) == UserText(bridged + [m])
  {
    if NeedsBridge(merged, m) {
      BridgeKeeps(merged, bridged, m);
    } else if merged != [] && Is(merged[|merged| - 1], "user") && Is(m, "user") {
      JoinKeeps(merged, bridged, m);
    } else {
      AppendKeeps(merged, bridged, m);
    }
  }

  /** Merging keeps every other message, and all user text in order; it adds only the bridges. */
  lemma {:induction false} MergeKeepsText(ms: seq<Msg>)
    ensures NonUsers(MergeAll(ms)) == NonUsers(ms)
    ensures UserText(MergeAll(ms)) == UserText(Bridged(ms))
  {
    if ms != [] {
      var front, m := ms[..|ms| - 1], ms[|ms| - 1];
      assert front + [m] == ms;
      MergeKeepsText(front);
      MergeAllLast(front);
      Snoc(front, m);
      BridgedSnoc(front, m);
      MergeIntoKeeps(MergeAll(front), Bridged(front), m);
    }
  }

  /** All user text but empty pieces, in order. */
  function SaidText(ms: seq<Msg>): string {
    if ms == [] then ""
    else
      var m := ms[|ms| - 1];
      SaidText(ms[..|ms| - 1]) + if Is(m, "user") && Extract(m.content) != "" then Extract(m.content) + "\n\n" else ""
  }

  lemma {:induction false} FilterSnoc(ms: seq<Msg>, m: Msg, ids: set<string>)
    ensures Filter(ms + [m], ids) == Filter(ms, ids) + if Dropped(m, ids) then [] else [m]
  {
    if ms == [] {
      assert (ms + [m])[1..] == [];
    } else {
      assert (ms + [m])[1..] == ms[1..] + [m];
      FilterSnoc(ms[1..], m, ids);
    }
  }

  /** Filtering drops no user text. */
  lemma {:induction false} FilterKeepsText(ms: seq<Msg>, ids: set<string>)
    ensures UserText(Filter(ms, ids)) == SaidText(ms)
  {
    if ms != [] {
      var front, m := ms[..|ms| - 1], ms[|ms| - 1];
      assert ms == front + [m];
      FilterKeepsText(front, ids);
      FilterSnoc(front, m, ids);
      KeptText(Filter(front, ids), m, ids);
    }
  }

  /** What a message adds to the text when it is filtered on arrival. */
  lemma KeptText(kept: seq<Msg>, m: Msg, ids: set<string>)
    ensures UserText(kept + if Dropped(m, ids) then [] else [m])
      == UserText(kept) + if Is(m, "user") && Extract(m.content) != "" then Extract(m.content) + "\n\n" else ""
  {
    if Dropped(m, ids) {
      assert kept + [] == kept;
      assert Is(m, "user") ==> Extract(m.content) == "";
      assert UserText(kept) + "" == UserText(kept);
    } else {
      Snoc(kept, m);
      assert Is(m, "user") ==> Extract(m.content) != "";
    }
  }

  /** A leading message that is no user's adds itself and no user text. */
  lemma {:induction false} LeadingOther(b: Msg, ms: seq<Msg>)
    requires !Is(b, "user")
    ensures UserText([b] + ms) == UserText(ms) && NonUsers([b] + ms) == [b] + NonUsers(ms)
  {
    if ms == [] {
      Snoc([], b);
    } else {
      var front, m := ms[..|ms| - 1], ms[|ms| - 1];
      assert ([b] + front) + [m] == [b] + ms && front + [m] == ms;
      LeadingOther(b, front);
      Snoc([b] + front, m);
      Snoc(front, m);
    }
  }

  /** Of the whole rewrite: all user text survives in order, with the text of the bridges in between, and every
      other message that is not filtered survives in order, after the system bridge if a user message leads. */
  lemma NormalizedKeepsText(ms: seq<Msg>)
    ensures UserText(Normalized(ms)) == UserText(Bridged(Filtered(ms)))
    ensures UserText(Filtered(ms)) == SaidText(ms)
    ensures NonUsers(Normalized(ms))
      == (if Filtered(ms) != [] && Is(Filtered(ms)[0], "user") then [SYSTEM_BRIDGE] else []) + NonUsers(Filtered(ms))
  {
    var f := Filtered(ms);
    FilterKeepsText(ms, CallIds(ms));
    MergeKeepsText(f);
    LeadingOther(SYSTEM_BRIDGE, MergeAll(f));
    if f != [] {
      MergeKeepsFirst(f);
    } else {
      assert [] + NonUsers(f) == [];
    }
  }

  lemma {:induction false} NonUsersMembers(ms: seq<Msg>)
    ensures forall m :: m in NonUsers(ms) <==> m in ms && !Is(m, "user")
  {
    if ms != [] {
      NonUsersMembers(ms[..|ms| - 1]);
      assert ms == ms[..|ms| - 1] + [ms[|ms| - 1]];
    }
  }

  lemma SameNonUsersMembers(xs: seq<Msg>, ys: seq<Msg>)
    requires NonUsers(xs) == NonUsers(ys)
    ensures forall m :: !Is(m, "user") ==> (m in xs <==> m in ys)
  {
    NonUsersMembers(xs);
    NonUsersMembers(ys);
  }

  lemma CallIdsOfNonUsers(xs: seq<Msg>, ys: seq<Msg>)
    requires forall m :: Is(m, "assistant") ==> (m in xs <==> m in ys)
    ensures CallIds(xs) == CallIds(ys)
  {
    forall id ensures id in CallIds(xs) <==> id in CallIds(ys) {
      if id in CallIds(xs) {
        var m :| m in xs && Is(m, "assistant") && id in m.calls && id != "";
        assert m in ys;
      }
      if id in CallIds(ys) {
        var m :| m in ys && Is(m, "assistant") && id in m.calls && id != "";
        assert m in xs;
      }
    }
  }

  /** Filtering keeps every tool call. */
  lemma FilterKeepsCalls(ms: seq<Msg>)
    ensures CallIds(Filtered(ms)) == CallIds(ms)
  {
    forall id | id in CallIds(ms) ensures id in CallIds(Filtered(ms)) {
      var m :| m in ms && Is(m, "assistant") && id in m.calls && id != "";
      assert m in Filtered(ms);
    }
  }

  lemma NormalizedMembers(ms: seq<Msg>)
    ensures forall m: Msg ::
      m.Msg? && !Is(m, "user") && m != SYSTEM_BRIDGE ==> (m in Normalized(ms) <==> m in Filtered(ms))
    ensures CallIds(Normalized(ms)) == CallIds(ms)
  {
    var merged := MergeAll(Filtered(ms));
    MergeKeepsText(Filtered(ms));
    SameNonUsersMembers(merged, Filtered(ms));
    CallIdsOfNonUsers(Normalized(ms), Filtered(ms));
    FilterKeepsCalls(ms);
  }

  /** Every tool message answers a tool call that is still present. */
  lemma ToolsAnswerCalls(ms: seq<Msg>)
    ensures forall m :: m in Normalized(ms) && Is(m, "tool") ==> m.toolCallId in CallIds(Normalized(ms))
  {
    NormalizedMembers(ms);
  }

  // ----- normalising twice -----

  /** User messages carry text. */
  ghost predicate UsersSpeak(ms: seq<Msg>) {
    forall m :: m in ms && Is(m, "user") ==> Extract(m.content) != ""
  }

  lemma {:induction false} MergeUsersSpeak(ms: seq<Msg>)
    requires UsersSpeak(ms)
    ensures UsersSpeak(MergeAll(ms))
  {
    if ms != [] {
      var n := |ms| - 1;
      assert ms == ms[..n] + [ms[n]];
      MergeUsersSpeak(ms[..n]);
    }
  }

  lemma {:induction false} MergeFixesShaped(ms: seq<Msg>)
    requires NoAdjacent(ms, "user") && NoAdjacent(ms, "assistant")
    ensures MergeAll(ms) == ms
  {
    if ms != [] {
      var n := |ms| - 1;
      MergeFixesShaped(ms[..n]);
      assert ms == ms[..n] + [ms[n]];
    }
  }

  lemma {:induction false} FilterFixes(ms: seq<Msg>, ids: set<string>)
    requires forall m :: m in ms ==> !Dropped(m, ids)
    ensures Filter(ms, ids) == ms
  {
    if ms != [] {
      FilterFixes(ms[1..], ids);
    }
  }

  /** Normalising a normalised conversation changes nothing. */
  lemma NormalizeIdempotent(ms: seq<Msg>)
    ensures Normalized(Normalized(ms)) == Normalized(ms)
  {
    var out := Normalized(ms);
    NormalizedShape(ms);
    NormalizedMembers(ms);
    MergeUsersSpeak(Filtered(ms));
    forall m | m in out ensures !Dropped(m, CallIds(out)) {
      if m.Msg? && !Is(m, "user") && m != SYSTEM_BRIDGE {
        assert m in Filtered(ms);
      }
    }
    FilterFixes(out, CallIds(out));
    MergeFixesShaped(out);
  }

  // ----- counting, and the change the length test misses -----

  /** How many adjacent pairs of messages of a role there are. */
  function Pairs(ms: seq<Msg>, role: string): nat {
    if |ms| < 2 then 0
    else
      Pairs(ms[..|ms| - 1], role)
      + if Is(ms[|ms| - 2], role) && Is(ms[|ms| - 1], role) then 1 else 0
  }

  /** The merge stage adds a message per adjacent assistant pair and removes one per adjacent user pair. */
  lemma {:induction false} MergeLength(ms: seq<Msg>)
    ensures |MergeAll(ms)| == |ms| + Pairs(ms, "assistant") - Pairs(ms, "user")
  {
    if ms != [] {
      var n := |ms| - 1;
      MergeLength(ms[..n]);
      MergeAllLast(ms[..n]);
      if n > 0 {
        assert ms[..n][n - 1] == ms[n - 1];
      }
    }
  }

  lemma {:induction false} NoPairs(ms: seq<Msg>, role: string)
    ensures Pairs(ms, role) == 0 <==> NoAdjacent(ms, role)
  {
    if |ms| >= 2 {
      var n := |ms| - 1;
      var front := ms[..n];
      NoPairs(front, role);
      if NoAdjacent(front, role) && !(Is(ms[n - 1], role) && Is(ms[n], role)) {
        forall i | 0 <= i < n ensures !(Is(ms[i], role) && Is(ms[i + 1], role)) {
          if i < n - 1 {
            assert front[i] == ms[i] && front[i + 1] == ms[i + 1];
          }
        }
      }
      if NoAdjacent(ms, role) {
        assert !(Is(ms[n - 1], role) && Is(ms[n - 1 + 1], role));
      }
    }
  }

  lemma {:induction false} MergeKeepsFirst(ms: seq<Msg>)
    requires ms != []
    ensures MergeAll(ms) != [] && (Is(MergeAll(ms)[0], "user") <==> Is(ms[0], "user"))
  {
    MergeAllLast(ms);
    if |ms| > 1 {
      var front := ms[..|ms| - 1];
      MergeKeepsFirst(front);
      assert MergeAll(ms)[0] == MergeAll(front)[0] || |MergeAll(front)| == 1;
    } else {
      assert ms[..0] == [];
    }
  }

  /** Comparing lengths misses a needed rewrite exactly when everything is filtered, or when nothing is
      filtered, no user message leads, and there are as many bridges to insert as merges to make, at least one
      of each. */
  lemma MissedExactlyWhenBalanced(ms: seq<Msg>)
    ensures !DetectsChange(ms) && Normalized(ms) != ms
      <==> if Filtered(ms) == [] then ms != []
           else Filtered(ms) == ms && !Is(ms[0], "user") && Pairs(ms, "assistant") == Pairs(ms, "user") > 0
  {
    var f := Filtered(ms);
    if f == [] {
      return;
    }
    MergeLength(f);
    MergeKeepsFirst(f);
    if f == ms {
      NoPairs(ms, "user");
      NoPairs(ms, "assistant");
      MergeAllShape(ms);
      if NoAdjacent(ms, "user") && NoAdjacent(ms, "assistant") {
        MergeFixesShaped(ms);
      }
    }
  }

  // ----- what stays, in terms of the input alone -----

  /** Some assistant message of `all` makes the call `id`. */
  ghost predicate CalledIn(all: seq<Msg>, id: string) {
    exists a :: a in all && a.Msg? && a.role == "assistant" && id in a.calls
  }

  /** A message stays if it is no object; a system message always; an assistant message with text or calls; a tool
      message with the id of a call; any other with text. */
  ghost predicate Stays(m: Msg, all: seq<Msg>) {
    match m
    case Raw(_) => true
    case Msg(role, content, calls, id) =>
      if role == "system" then true
      else if role == "assistant" then Extract(content) != "" || calls != []
      else if role == "tool" then id != "" && CalledIn(all, id)
      else Extract(content) != ""
  }

  /** The messages of `ms` that stay, in order. */
  ghost function Staying(ms: seq<Msg>, all: seq<Msg>): seq<Msg> {
    if ms == [] then []
    else
      var m := ms[|ms| - 1];
      Staying(ms[..|ms| - 1], all) + if Stays(m, all) then [m] else []
  }

  lemma StaysUnlessDropped(m: Msg, all: seq<Msg>)
    ensures Stays(m, all) <==> !Dropped(m, CallIds(all))
  {
    if m.Msg? && m.role == "tool" && m.toolCallId != "" {
      if CalledIn(all, m.toolCallId) {
        var a :| a in all && a.Msg? && a.role == "assistant" && m.toolCallId in a.calls;
        assert Is(a, "assistant");
      }
      if m.toolCallId in CallIds(all) {
        var a :| a in all && Is(a, "assistant") && m.toolCallId in a.calls;
      }
    }
  }

  lemma {:induction false} FilterIsStaying(ms: seq<Msg>, all: seq<Msg>)
    ensures Filter(ms, CallIds(all)) == Staying(ms, all)
  {
    if ms != [] {
      var front, m := ms[..|ms| - 1], ms[|ms| - 1];
      assert ms == front + [m];
      FilterIsStaying(front, all);
      FilterSnoc(front, m, CallIds(all));
      StaysUnlessDropped(m, all);
    }
  }

  /** What survives the whole rewrite: the messages other than a user's that stay, in order, after the system bridge if
      the first message that stays is a user's; and all user text, with the bridges' text in between. */
  lemma RewriteKeeps(ms: seq<Msg>)
    ensures var stay := Staying(ms, ms);
      && NonUsers(Normalized(ms))
        == (if stay != [] && Is(stay[0], "user") then [SYSTEM_BRIDGE] else []) + NonUsers(stay)
      && UserText(Normalized(ms)) == UserText(Bridged(stay))
      && UserText(stay) == SaidText(ms)
  {
    FilterIsStaying(ms, ms);
    NormalizedKeepsText(ms);
  }

  /** With tools, and when no length changes, nothing is replaced; else the rewrite is put in place. */
  lemma ChangeIsDetected(ms: seq<Msg>)
    ensures var stay := Staying(ms, ms);
      DetectsChange(ms) <==>
        && stay != []
        && (stay != ms || Is(ms[0], "user") || Pairs(ms, "assistant") != Pairs(ms, "user"))
  {
    FilterIsStaying(ms, ms);
    var f := Filtered(ms);
    if f != [] {
      MergeLength(f);
      MergeKeepsFirst(f);
    }
  }
}
