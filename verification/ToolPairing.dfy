/** OpenAI-to-Anthropic message conversion: the pairing of tool calls with their results. */
module ToolPairing {
  import opened Common

  /** Content blocks; an id that is absent or no string is empty. */
  datatype Block =
    | ToolUse(id: string, input: string)
    | ToolResult(id: string, content: string)
    | Plain(text: string)

  /** An input message: its role, the content blocks built from its content and tool calls, its text, its
      tool_call_id, and, for system messages, whether it is a request-varying trailer. */
  datatype Message =
    | NotAnObject
    | Message(role: string, blocks: seq<Block>, text: string, toolCallId: string, trailer: bool)

  datatype Turn = Turn(role: string, blocks: seq<Block>)

  const EMPTY_TEXT := Plain("...")

  /** The non-empty ids of the tool calls among some blocks. */
  function UseIds(blocks: seq<Block>): set<string> {
    set b | b in blocks && b.ToolUse? && b.id != "" :: b.id
  }

  function ResultIds(blocks: seq<Block>): set<string> {
    set b | b in blocks && b.ToolResult? && b.id != "" :: b.id
  }

  predicate IsTool(m: Message) {
    m.Message? && m.role == "tool"
  }

  /** The end of the run of tool messages at `i`. */
  function BatchEnd(msgs: seq<Message>, i: nat): (j: nat)
    requires i <= |msgs|
    ensures i <= j <= |msgs|
    ensures forall k :: i <= k < j ==> IsTool(msgs[k])
    ensures j < |msgs| ==> !IsTool(msgs[j])
    decreases |msgs| - i
  {
    if i < |msgs| && IsTool(msgs[i]) then BatchEnd(msgs, i + 1) else i
  }

  /** The results of a batch that answer a call of the last assistant turn. */
  function ValidResults(batch: seq<Message>, ids: Option<set<string>>): seq<Block>
    requires forall k :: 0 <= k < |batch| ==> batch[k].Message?
  {
    if batch == [] then []
    else
      var m := batch[0];
      (if m.toolCallId != "" && ids.Some? && m.toolCallId in ids.value
       then [ToolResult(m.toolCallId, m.text)] else [])
      + ValidResults(batch[1..], ids)
  }

  /** The calls a turn opens: those of an assistant turn, if it has any. */
  function OpenedBy(role: string, blocks: seq<Block>): Option<set<string>> {
    if role == "assistant" && UseIds(blocks) != {} then Some(UseIds(blocks)) else None
  }

  /** Is a system message dropped (hoisted), sent as a user turn, or kept in place? */
  datatype SystemFate = Hoisted | AsUser | Kept

  function Fate(m: Message, i: nat, hoist: int, midConvo: bool): SystemFate
    requires m.Message?
  {
    if (i < hoist || !midConvo) && !m.trailer then Hoisted
    else if m.trailer && !midConvo then AsUser
    else Kept
  }

  function SystemTurn(m: Message, fate: SystemFate): Turn
    requires m.Message?
  {
    if fate == AsUser then Turn("user", [Plain(m.text)]) else Turn("system", m.blocks)
  }

  /** The turns produced from message `i` on, when `ids` are the open calls. */
  function Convert(msgs: seq<Message>, i: nat, ids: Option<set<string>>, hoist: int, midConvo: bool): seq<Turn>
    requires i <= |msgs|
    decreases |msgs| - i
  {
    if i == |msgs| then []
    else if msgs[i].NotAnObject? then Convert(msgs, i + 1, ids, hoist, midConvo)
    else if msgs[i].role == "system" then
      var fate := Fate(msgs[i], i, hoist, midConvo);
      (if fate == Hoisted then [] else [SystemTurn(msgs[i], fate)]) + Convert(msgs, i + 1, ids, hoist, midConvo)
    else if msgs[i].role == "tool" then
      var j := BatchEnd(msgs, i);
      var results := ValidResults(msgs[i..j], ids);
      (if results == [] then [] else [Turn("user", results)]) + Convert(msgs, j, None, hoist, midConvo)
    else
      [Turn(msgs[i].role, msgs[i].blocks)]
        + Convert(msgs, i + 1, OpenedBy(msgs[i].role, msgs[i].blocks), hoist, midConvo)
  }

  // ----- stripping unanswered calls -----

  /** The ids answered by the turn after, if it is a user turn. */
  function AnsweredBy(next: Option<Turn>): set<string> {
    if next.Some? && next.value.role == "user" then ResultIds(next.value.blocks) else {}
  }

  function Strip(blocks: seq<Block>, orphaned: set<string>): seq<Block> {
    if blocks == [] then []
    else (if blocks[0].ToolUse? && blocks[0].id in orphaned then [] else [blocks[0]]) + Strip(blocks[1..], orphaned)
  }

  function SanitizeTurn(t: Turn, next: Option<Turn>): Turn {
    var orphaned := UseIds(t.blocks) - AnsweredBy(next);
    if t.role != "assistant" || orphaned == {} then t
    else
      var kept := Strip(t.blocks, orphaned);
      t.(blocks := if kept == [] then [EMPTY_TEXT] else kept)
  }

  function Head(ts: seq<Turn>): Option<Turn> {
    if ts == [] then None else Some(ts[0])
  }

  /** The turn right after turn `i`. */
  function Next(ts: seq<Turn>, i: nat): Option<Turn> {
    if i + 1 < |ts| then Some(ts[i + 1]) else None
  }

  function SanitizeAll(ts: seq<Turn>): (r: seq<Turn>)
    ensures |r| == |ts|
  {
    if ts == [] then [] else [SanitizeTurn(ts[0], Head(ts[1..]))] + SanitizeAll(ts[1..])
  }

  /** Nothing is sanitized when there is a single turn. */
  function Sanitize(ts: seq<Turn>): seq<Turn> {
    if |ts| < 2 then ts else SanitizeAll(ts)
  }

  function Converted(msgs: seq<Message>, hoist: int, midConvo: bool): seq<Turn> {
    Sanitize(Convert(msgs, 0, None, hoist, midConvo))
  }

  // ----- the adapter's loops -----

  /** Gathers the batch and leaves the index where the caller's increment expects it: on the last tool message,
      on an element that is no object, or past the end. */
  method CollectToolMessages(msgs: seq<Message>, start: nat) returns (batch: seq<Message>, i: nat)
    requires start < |msgs| && IsTool(msgs[start])
    ensures batch == msgs[start..BatchEnd(msgs, start)]
    ensures var j := BatchEnd(msgs, start);
      i == if j < |msgs| && msgs[j].Message? then j - 1 else j
  {
    batch, i := [], start;
    while i < |msgs|
      invariant start <= i <= |msgs|
      invariant batch == msgs[start..i]
      invariant BatchEnd(msgs, i) == BatchEnd(msgs, start)
    {
      if msgs[i].NotAnObject? {
        return;
      }
      if msgs[i].role != "tool" {
        i := i - 1;
        return;
      }
      batch := batch + [msgs[i]];
      i := i + 1;
    }
  }

  method BuildValidatedToolResults(batch: seq<Message>, ids: Option<set<string>>) returns (results: seq<Block>)
    requires forall k :: 0 <= k < |batch| ==> batch[k].Message?
    ensures results == ValidResults(batch, ids)
  {
    results := [];
    var i := 0;
    while i < |batch|
      invariant 0 <= i <= |batch|
      invariant results + ValidResults(batch[i..], ids) == ValidResults(batch, ids)
    {
      var m := batch[i];
      assert batch[i..][1..] == batch[i + 1..] && batch[i..][0] == m;
      if m.toolCallId != "" && ids.Some? && m.toolCallId in ids.value {
        results := results + [ToolResult(m.toolCallId, m.text)];
      }
      i := i + 1;
    }
  }

  /** The turns for the batch at `i`, and the index the batch leaves behind. */
  method ConvertBatch(msgs: seq<Message>, i: nat, ids: Option<set<string>>) returns (turns: seq<Turn>, last: nat)
    requires i < |msgs| && IsTool(msgs[i])
    ensures var j := BatchEnd(msgs, i); var results := ValidResults(msgs[i..j], ids);
      && turns == (if results == [] then [] else [Turn("user", results)])
      && last == (if j < |msgs| && msgs[j].Message? then j - 1 else j)
      && i <= last
  {
    var batch;
    batch, last := CollectToolMessages(msgs, i);
    var results := BuildValidatedToolResults(batch, ids);
    turns := if results == [] then [] else [Turn("user", results)];
  }

  /** The turns still to come when the loop stands at index `i`, which may be one past the end. */
  function Rest(msgs: seq<Message>, i: nat, ids: Option<set<string>>, hoist: int, midConvo: bool): seq<Turn> {
    if i < |msgs| then Convert(msgs, i, ids, hoist, midConvo) else []
  }

  /** One round of the loop: what it appends, where it continues, and the calls then open. */
  method ConvertOne(msgs: seq<Message>, i: nat, ids: Option<set<string>>, hoist: int, midConvo: bool)
    returns (turns: seq<Turn>, next: nat, open: Option<set<string>>)
    requires i < |msgs|
    ensures i < next
    ensures Rest(msgs, i, ids, hoist, midConvo) == turns + Rest(msgs, next, open, hoist, midConvo)
  {
    var m := msgs[i];
    turns, next, open := [], i + 1, ids;
    assert [] + Rest(msgs, i + 1, ids, hoist, midConvo) == Rest(msgs, i + 1, ids, hoist, midConvo)
      == Convert(msgs, i + 1, ids, hoist, midConvo);
    if m.NotAnObject? {
      return;
    }
    if m.role == "system" {
      var fate := Fate(m, i, hoist, midConvo);
      if fate != Hoisted {
        turns := [SystemTurn(m, fate)];
      }
      return;
    }
    if m.role == "tool" {
      var last;
      turns, last := ConvertBatch(msgs, i, ids);
      next, open := last + 1, None;
      assert Convert(msgs, BatchEnd(msgs, i), None, hoist, midConvo) == Rest(msgs, next, None, hoist, midConvo);
      return;
    }
    turns, open := [Turn(m.role, m.blocks)], None;
    if m.role == "assistant" {
      var uses := UseIds(m.blocks);
      if uses != {} {
        open := Some(uses);
      }
    }
    assert open == OpenedBy(m.role, m.blocks);
    assert Rest(msgs, i + 1, open, hoist, midConvo) == Convert(msgs, i + 1, open, hoist, midConvo);
  }

  lemma Regroup(a: seq<Turn>, b: seq<Turn>, c: seq<Turn>)
    ensures a + (b + c) == a + b + c
  {
  }

  method ConvertMessages(msgs: seq<Message>, hoist: int, midConvo: bool) returns (result: seq<Turn>)
    ensures result == Converted(msgs, hoist, midConvo)
  {
    result := [];
    var ids: Option<set<string>> := None;
    var i := 0;
    ghost var answer := Rest(msgs, 0, None, hoist, midConvo);
    assert answer == Convert(msgs, 0, None, hoist, midConvo);
    while i < |msgs|
      invariant 0 <= i
      invariant answer == result + Rest(msgs, i, ids, hoist, midConvo)
      decreases |msgs| - i
    {
      var turns, next, open := ConvertOne(msgs, i, ids, hoist, midConvo);
      Regroup(result, turns, Rest(msgs, next, open, hoist, midConvo));
      result, i, ids := result + turns, next, open;
    }
    assert result == answer;
    result := SanitizeOrphanedToolUse(result);
  }

  /** In place, in ascending order: each turn is judged against a next turn that is still untouched. */
  method SanitizeOrphanedToolUse(ts: seq<Turn>) returns (r: seq<Turn>)
    ensures r == Sanitize(ts)
  {
    r := ts;
    if |r| < 2 {
      return;
    }
    var i := 0;
    while i < |r|
      invariant 0 <= i <= |r| == |ts|
      invariant r[i..] == ts[i..]
      invariant r[..i] + SanitizeAll(ts[i..]) == SanitizeAll(ts)
    {
      var next := Next(r, i);
      assert ts[i..][0] == r[i] && ts[i..][1..] == ts[i + 1..];
      assert next == Head(ts[i + 1..]);
      var t := SanitizeTurn(r[i], next);
      assert r[..i] + ([t] + SanitizeAll(ts[i + 1..])) == r[..i] + [t] + SanitizeAll(ts[i + 1..]);
      r := r[i := t];
      assert r[..i + 1] == r[..i] + [t];
      i := i + 1;
    }
  }

  // ----- every call is answered -----

  /** The turn has a result for the call `id`. */
  ghost predicate HasResult(t: Turn, id: string) {
    exists b :: b in t.blocks && b.ToolResult? && b.id == id
  }

  /** Every call with an id of an assistant turn has a result in the turn after it, which is a user turn. */
  ghost predicate CallsAnswered(ts: seq<Turn>) {
    forall i, b :: 0 <= i < |ts| && ts[i].role == "assistant" && b in ts[i].blocks && b.ToolUse? && b.id != "" ==>
      i + 1 < |ts| && ts[i + 1].role == "user" && HasResult(ts[i + 1], b.id)
  }

  /** What is called and what is answered, spelled out. */
  lemma IdsAre(blocks: seq<Block>, next: Option<Turn>, id: string)
    ensures id in UseIds(blocks) <==> id != "" && exists b :: b in blocks && b.ToolUse? && b.id == id
    ensures id in AnsweredBy(next) <==>
      id != "" && next.Some? && next.value.role == "user" && HasResult(next.value, id)
  {
    if id != "" && next.Some? && HasResult(next.value, id) {
      var b :| b in next.value.blocks && b.ToolResult? && b.id == id;
      assert id in ResultIds(next.value.blocks);
    }
  }

  lemma {:induction false} StripIds(blocks: seq<Block>, orphaned: set<string>)
    ensures forall b :: b in Strip(blocks, orphaned) <==> b in blocks && !(b.ToolUse? && b.id in orphaned)
  {
    if blocks != [] {
      StripIds(blocks[1..], orphaned);
    }
  }

  /** Stripping removes exactly the unanswered calls and touches no other block. */
  lemma SanitizeTurnFacts(t: Turn, next: Option<Turn>)
    ensures var r := SanitizeTurn(t, next);
      && r.role == t.role
      && (t.role == "assistant" ==> UseIds(r.blocks) == UseIds(t.blocks) * AnsweredBy(next))
      && ResultIds(r.blocks) == ResultIds(t.blocks)
      && (t.role != "assistant" ==> r == t)
      && (forall b :: b in t.blocks && !(b.ToolUse? && b.id != "" && b.id !in AnsweredBy(next)) ==> b in r.blocks)
      && (forall b :: b in r.blocks ==> b in t.blocks || b == EMPTY_TEXT)
  {
    var orphaned := UseIds(t.blocks) - AnsweredBy(next);
    StripIds(t.blocks, orphaned);
    var r := SanitizeTurn(t, next);
    if t.role == "assistant" && orphaned != {} {
      forall id ensures id in UseIds(r.blocks) <==> id in UseIds(t.blocks) * AnsweredBy(next) {
        if id in UseIds(r.blocks) {
          var b :| b in r.blocks && b.ToolUse? && b.id == id;
          assert b in t.blocks && id !in orphaned;
        }
        if id in UseIds(t.blocks) && id in AnsweredBy(next) {
          var b :| b in t.blocks && b.ToolUse? && b.id == id;
          assert b in Strip(t.blocks, orphaned);
        }
      }
      forall id ensures id in ResultIds(r.blocks) <==> id in ResultIds(t.blocks) {
        if id in ResultIds(r.blocks) {
          var b :| b in r.blocks && b.ToolResult? && b.id == id;
          assert b in t.blocks;
        }
        if id in ResultIds(t.blocks) {
          var b :| b in t.blocks && b.ToolResult? && b.id == id;
          assert b in Strip(t.blocks, orphaned);
        }
      }
    }
  }

  lemma {:induction false} SanitizeAllAt(ts: seq<Turn>, i: nat)
    requires i < |ts|
    ensures SanitizeAll(ts)[i] == SanitizeTurn(ts[i], Next(ts, i))
  {
    if i > 0 {
      SanitizeAllAt(ts[1..], i - 1);
    }
  }

  lemma SanitizedAnswers(ts: seq<Turn>)
    ensures CallsAnswered(SanitizeAll(ts))
  {
    var r := SanitizeAll(ts);
    forall i, b | 0 <= i < |r| && r[i].role == "assistant" && b in r[i].blocks && b.ToolUse? && b.id != ""
      ensures i + 1 < |r| && r[i + 1].role == "user" && HasResult(r[i + 1], b.id)
    {
      IdsAre(r[i].blocks, Next(r, i), b.id);
      IdsAre(ts[i].blocks, Next(ts, i), b.id);
      SanitizeAllAt(ts, i);
      SanitizeTurnFacts(ts[i], Next(ts, i));
      if i + 1 < |r| {
        SanitizeAllAt(ts, i + 1);
        SanitizeTurnFacts(ts[i + 1], Next(ts, i + 1));
      }
    }
  }

  /** Every tool call of the converted conversation is answered by a result of the same id in the user turn
      right after it, if and only if there are two turns or more, or the single one calls nothing. */
  lemma EveryCallIsAnswered(msgs: seq<Message>, hoist: int, midConvo: bool)
    ensures var ts := Converted(msgs, hoist, midConvo);
      CallsAnswered(ts) <==>
        |ts| != 1 || ts[0].role != "assistant" || forall b :: b in ts[0].blocks && b.ToolUse? ==> b.id == ""
  {
    var raw := Convert(msgs, 0, None, hoist, midConvo);
    if |raw| >= 2 {
      SanitizedAnswers(raw);
    }
  }

  // ----- every result answers -----

  /** The results in `t` answer calls of the assistant turn `prev`. */
  ghost predicate ResultsAnswer(prev: Option<Turn>, t: Turn) {
    forall b :: b in t.blocks && b.ToolResult? ==>
      b.id != "" && prev.Some? && prev.value.role == "assistant" && b.id in UseIds(prev.value.blocks)
  }

  ghost predicate AllResultsAnswer(prev: Option<Turn>, ts: seq<Turn>)
    decreases ts
  {
    ts != [] ==> ResultsAnswer(prev, ts[0]) && AllResultsAnswer(Some(ts[0]), ts[1..])
  }

  /** Only tool messages carry results. */
  predicate NoRawResults(msgs: seq<Message>) {
    forall m | m in msgs :: m.Message? && m.role != "tool" ==> forall b | b in m.blocks :: !b.ToolResult?
  }

  /** A batch of tool messages that answers some open call while a system or trailer turn, sent since the
      assistant turn, stands in between (`apart`). */
  predicate SeparatedBatch(msgs: seq<Message>, i: nat, ids: Option<set<string>>, apart: bool, hoist: int,
                           midConvo: bool)
    requires i <= |msgs|
    decreases |msgs| - i
  {
    if i == |msgs| then false
    else if msgs[i].NotAnObject? then SeparatedBatch(msgs, i + 1, ids, apart, hoist, midConvo)
    else if msgs[i].role == "system" then
      SeparatedBatch(msgs, i + 1, ids, apart || Fate(msgs[i], i, hoist, midConvo) != Hoisted, hoist, midConvo)
    else if msgs[i].role == "tool" then
      var j := BatchEnd(msgs, i);
      (apart && ValidResults(msgs[i..j], ids) != []) || SeparatedBatch(msgs, j, None, false, hoist, midConvo)
    else
      SeparatedBatch(msgs, i + 1, OpenedBy(msgs[i].role, msgs[i].blocks), false, hoist, midConvo)
  }

  lemma {:induction false} ValidResultsFacts(batch: seq<Message>, ids: Option<set<string>>)
    requires forall k :: 0 <= k < |batch| ==> batch[k].Message?
    ensures forall b :: b in ValidResults(batch, ids) ==> b.ToolResult? && b.id != "" && ids.Some? && b.id in ids.value
  {
    if batch != [] {
      ValidResultsFacts(batch[1..], ids);
    }
  }

  /** What the conversion knows of the last turn it sent. */
  ghost predicate Tracks(prev: Option<Turn>, ids: Option<set<string>>, apart: bool) {
    ids.Some? ==>
      && prev.Some?
      && (apart ==> prev.value.role != "assistant")
      && (!apart ==> prev.value.role == "assistant" && ids.value == UseIds(prev.value.blocks))
  }

  lemma {:induction false} ConvertedResults(msgs: seq<Message>, i: nat, ids: Option<set<string>>, prev: Option<Turn>,
                                            apart: bool, hoist: int, midConvo: bool)
    requires i <= |msgs| && NoRawResults(msgs) && Tracks(prev, ids, apart)
    ensures AllResultsAnswer(prev, Convert(msgs, i, ids, hoist, midConvo))
      <==> !SeparatedBatch(msgs, i, ids, apart, hoist, midConvo)
    decreases |msgs| - i
  {
    if i < |msgs| {
      var m := msgs[i];
      if m.NotAnObject? {
        ConvertedResults(msgs, i + 1, ids, prev, apart, hoist, midConvo);
      } else if m.role == "system" {
        var fate := Fate(m, i, hoist, midConvo);
        if fate == Hoisted {
          ConvertedResults(msgs, i + 1, ids, prev, apart, hoist, midConvo);
          assert Convert(msgs, i, ids, hoist, midConvo) == Convert(msgs, i + 1, ids, hoist, midConvo);
        } else {
          ConvertedResults(msgs, i + 1, ids, Some(SystemTurn(m, fate)), true, hoist, midConvo);
          FirstTurn(prev, SystemTurn(m, fate), Convert(msgs, i + 1, ids, hoist, midConvo));
        }
      } else if m.role == "tool" {
        BatchResults(msgs, i, ids, prev, apart, hoist, midConvo);
      } else {
        var turn := Turn(m.role, m.blocks);
        ConvertedResults(msgs, i + 1, OpenedBy(m.role, m.blocks), Some(turn), false, hoist, midConvo);
        FirstTurn(prev, turn, Convert(msgs, i + 1, OpenedBy(m.role, m.blocks), hoist, midConvo));
      }
    }
  }

  lemma FirstTurn(prev: Option<Turn>, t: Turn, rest: seq<Turn>)
    ensures AllResultsAnswer(prev, [t] + rest) <==> ResultsAnswer(prev, t) && AllResultsAnswer(Some(t), rest)
  {
    assert ([t] + rest)[1..] == rest;
  }

  lemma {:induction false} BatchResults(msgs: seq<Message>, i: nat, ids: Option<set<string>>, prev: Option<Turn>,
                                        apart: bool, hoist: int, midConvo: bool)
    requires i < |msgs| && IsTool(msgs[i]) && NoRawResults(msgs) && Tracks(prev, ids, apart)
    ensures AllResultsAnswer(prev, Convert(msgs, i, ids, hoist, midConvo))
      <==> !SeparatedBatch(msgs, i, ids, apart, hoist, midConvo)
    decreases |msgs| - i, 0
  {
    var j := BatchEnd(msgs, i);
    assert j > i;
    var results := ValidResults(msgs[i..j], ids);
    var rest := Convert(msgs, j, None, hoist, midConvo);
    ValidResultsFacts(msgs[i..j], ids);
    if results == [] {
      ConvertedResults(msgs, j, None, prev, false, hoist, midConvo);
      assert Convert(msgs, i, ids, hoist, midConvo) == rest;
    } else {
      var turn := Turn("user", results);
      assert results[0] in turn.blocks;
      ConvertedResults(msgs, j, None, Some(turn), false, hoist, midConvo);
      FirstTurn(prev, turn, rest);
    }
  }

  /** Where results live after conversion: in user turns. */
  ghost predicate ResultsInUserTurns(ts: seq<Turn>) {
    forall t, b :: t in ts && b in t.blocks && b.ToolResult? ==> t.role == "user" && b.id != ""
  }

  lemma {:induction false} ConvertResultTurns(msgs: seq<Message>, i: nat, ids: Option<set<string>>, hoist: int,
                                              midConvo: bool)
    requires i <= |msgs| && NoRawResults(msgs)
    ensures ResultsInUserTurns(Convert(msgs, i, ids, hoist, midConvo))
    decreases |msgs| - i
  {
    if i < |msgs| {
      var m := msgs[i];
      if m.NotAnObject? || m.role == "system" {
        ConvertResultTurns(msgs, i + 1, ids, hoist, midConvo);
      } else if m.role == "tool" {
        ValidResultsFacts(msgs[i..BatchEnd(msgs, i)], ids);
        ConvertResultTurns(msgs, BatchEnd(msgs, i), None, hoist, midConvo);
      } else {
        ConvertResultTurns(msgs, i + 1, OpenedBy(m.role, m.blocks), hoist, midConvo);
      }
    }
  }

  /** Sanitizing takes away no call that a result answers. */
  lemma {:induction false} SanitizeKeepsAnswers(prev: Option<Turn>, prev': Option<Turn>, ts: seq<Turn>)
    requires ResultsInUserTurns(ts)
    requires prev.None? ==> prev'.None?
    requires prev.Some? ==> prev' == Some(SanitizeTurn(prev.value, Head(ts)))
    ensures AllResultsAnswer(prev', SanitizeAll(ts)) <==> AllResultsAnswer(prev, ts)
    decreases ts
  {
    if ts != [] {
      var t, next := ts[0], Head(ts[1..]);
      var t' := SanitizeTurn(t, next);
      SanitizeTurnFacts(t, next);
      if prev.Some? {
        SanitizeTurnFacts(prev.value, Some(t));
      }
      SanitizeKeepsAnswers(Some(t), Some(t'), ts[1..]);
      assert SanitizeAll(ts)[1..] == SanitizeAll(ts[1..]);
      SameResults(t, t');
      forall b | b in t.blocks && b.ToolResult? && prev.Some?
        ensures b.id in UseIds(prev.value.blocks) && prev.value.role == "assistant"
          <==> b.id in UseIds(prev'.value.blocks) && prev'.value.role == "assistant"
      {
        assert b.id in ResultIds(t.blocks);
      }
    }
  }

  lemma SameResults(t: Turn, t': Turn)
    requires t' == t || (t.role == "assistant" && t'.role == "assistant")
    requires forall b :: b in t.blocks && b.ToolResult? ==> t.role == "user"
    requires forall b :: b in t'.blocks ==> b in t.blocks || b == EMPTY_TEXT
    requires t.role != "assistant" ==> t' == t
    ensures forall b: Block :: b.ToolResult? ==> (b in t.blocks <==> b in t'.blocks)
  {
  }

  /** With results only in tool messages, every result of the converted conversation answers a call of the
      assistant turn right before it, if and only if no batch of answers is separated from its assistant turn
      by a system or trailer turn that stays in the conversation. */
  lemma EveryResultAnswers(msgs: seq<Message>, hoist: int, midConvo: bool)
    requires NoRawResults(msgs)
    ensures AllResultsAnswer(None, Converted(msgs, hoist, midConvo))
      <==> !SeparatedBatch(msgs, 0, None, false, hoist, midConvo)
  {
    var raw := Convert(msgs, 0, None, hoist, midConvo);
    ConvertedResults(msgs, 0, None, None, false, hoist, midConvo);
    ConvertResultTurns(msgs, 0, None, hoist, midConvo);
    SanitizeKeepsAnswers(None, None, raw);
  }

  /** The separation does happen: a reminder kept between a call and its answer. */
  lemma KeptReminderSeparates()
    ensures var msgs := [Message("assistant", [ToolUse("a", "{}")], "", "", false),
                         Message("system", [Plain("reminder")], "reminder", "", false),
                         Message("tool", [], "done", "a", false)];
      NoRawResults(msgs) && SeparatedBatch(msgs, 0, None, false, 0, true)
  {
    var m0, m1, m2 := Message("assistant", [ToolUse("a", "{}")], "", "", false),
      Message("system", [Plain("reminder")], "reminder", "", false), Message("tool", [], "done", "a", false);
    var msgs := [m0, m1, m2];
    assert ToolUse("a", "{}") in m0.blocks && "a" in UseIds(m0.blocks);
    assert BatchEnd(msgs, 3) == 3 && BatchEnd(msgs, 2) == 3;
    assert msgs[2..3] == [m2];
    assert ValidResults([m2], OpenedBy("assistant", m0.blocks)) != [];
    assert SeparatedBatch(msgs, 2, OpenedBy("assistant", m0.blocks), true, 0, true);
    assert SeparatedBatch(msgs, 1, OpenedBy("assistant", m0.blocks), false, 0, true);
  }

  // ----- what the conversion keeps -----

  predicate CarriesResults(t: Turn) {
    t.blocks != [] && t.blocks[0].ToolResult?
  }

  /** The turns that carry no results. */
  function Speech(ts: seq<Turn>): seq<Turn> {
    if ts == [] then [] else (if CarriesResults(ts[0]) then [] else [ts[0]]) + Speech(ts[1..])
  }

  /** One turn for every message that is neither hoisted nor a tool message, in order. With system messages in
      mid-conversation those from `hoist` on and all trailers stay system turns; without, trailers become user
      turns. */
  function Spoken(msgs: seq<Message>, i: nat, hoist: int, midConvo: bool): seq<Turn>
    requires i <= |msgs|
    decreases |msgs| - i
  {
    if i == |msgs| then []
    else
      var m := msgs[i];
      (if m.NotAnObject? || m.role == "tool" then []
       else if m.role != "system" then [Turn(m.role, m.blocks)]
       else if midConvo && (m.trailer || i >= hoist) then [Turn("system", m.blocks)]
       else if m.trailer then [Turn("user", [Plain(m.text)])]
       else [])
      + Spoken(msgs, i + 1, hoist, midConvo)
  }

  lemma {:induction false} SpokenPastBatch(msgs: seq<Message>, i: nat, hoist: int, midConvo: bool)
    requires i <= |msgs|
    ensures Spoken(msgs, i, hoist, midConvo) == Spoken(msgs, BatchEnd(msgs, i), hoist, midConvo)
    decreases |msgs| - i
  {
    if i < |msgs| && IsTool(msgs[i]) {
      SpokenPastBatch(msgs, i + 1, hoist, midConvo);
    }
  }

  lemma SpeechCons(t: Turn, ts: seq<Turn>)
    ensures Speech([t] + ts) == (if CarriesResults(t) then [] else [t]) + Speech(ts)
  {
    assert ([t] + ts)[1..] == ts;
  }

  lemma SystemSpeech(msgs: seq<Message>, i: nat, ids: Option<set<string>>, hoist: int, midConvo: bool)
    requires i < |msgs| && NoRawResults(msgs) && msgs[i].Message? && msgs[i].role == "system"
    requires Speech(Convert(msgs, i + 1, ids, hoist, midConvo)) == Spoken(msgs, i + 1, hoist, midConvo)
    ensures Speech(Convert(msgs, i, ids, hoist, midConvo)) == Spoken(msgs, i, hoist, midConvo)
  {
    var fate := Fate(msgs[i], i, hoist, midConvo);
    var turn, rest := SystemTurn(msgs[i], fate), Convert(msgs, i + 1, ids, hoist, midConvo);
    assert msgs[i] in msgs && !CarriesResults(turn);
    if fate == Hoisted {
      assert Convert(msgs, i, ids, hoist, midConvo) == rest;
    } else {
      assert Convert(msgs, i, ids, hoist, midConvo) == [turn] + rest;
      SpeechCons(turn, rest);
    }
  }

  lemma BatchSpeech(msgs: seq<Message>, i: nat, ids: Option<set<string>>, hoist: int, midConvo: bool)
    requires i < |msgs| && IsTool(msgs[i])
    requires var j := BatchEnd(msgs, i);
      Speech(Convert(msgs, j, None, hoist, midConvo)) == Spoken(msgs, j, hoist, midConvo)
    ensures Speech(Convert(msgs, i, ids, hoist, midConvo)) == Spoken(msgs, i, hoist, midConvo)
  {
    var j := BatchEnd(msgs, i);
    var results, rest := ValidResults(msgs[i..j], ids), Convert(msgs, j, None, hoist, midConvo);
    SpokenPastBatch(msgs, i, hoist, midConvo);
    if results == [] {
      assert Convert(msgs, i, ids, hoist, midConvo) == rest;
    } else {
      ValidResultsFacts(msgs[i..j], ids);
      assert results[0] in results;
      SpeechCons(Turn("user", results), rest);
    }
  }

  lemma TurnSpeech(msgs: seq<Message>, i: nat, ids: Option<set<string>>, hoist: int, midConvo: bool)
    requires i < |msgs| && NoRawResults(msgs) && msgs[i].Message? && msgs[i].role != "system" && msgs[i].role != "tool"
    requires Speech(Convert(msgs, i + 1, OpenedBy(msgs[i].role, msgs[i].blocks), hoist, midConvo))
      == Spoken(msgs, i + 1, hoist, midConvo)
    ensures Speech(Convert(msgs, i, ids, hoist, midConvo)) == Spoken(msgs, i, hoist, midConvo)
  {
    var turn := Turn(msgs[i].role, msgs[i].blocks);
    assert msgs[i] in msgs && !CarriesResults(turn);
    SpeechCons(turn, Convert(msgs, i + 1, OpenedBy(msgs[i].role, msgs[i].blocks), hoist, midConvo));
  }

  /** Conversion keeps every other message as one turn, in order and with its blocks. */
  lemma {:induction false} ConvertKeepsSpeech(msgs: seq<Message>, i: nat, ids: Option<set<string>>, hoist: int,
                                              midConvo: bool)
    requires i <= |msgs| && NoRawResults(msgs)
    ensures Speech(Convert(msgs, i, ids, hoist, midConvo)) == Spoken(msgs, i, hoist, midConvo)
    decreases |msgs| - i
  {
    if i < |msgs| {
      var m := msgs[i];
      if m.NotAnObject? {
        ConvertKeepsSpeech(msgs, i + 1, ids, hoist, midConvo);
      } else if m.role == "system" {
        ConvertKeepsSpeech(msgs, i + 1, ids, hoist, midConvo);
        SystemSpeech(msgs, i, ids, hoist, midConvo);
      } else if m.role == "tool" {
        assert BatchEnd(msgs, i) > i;
        ConvertKeepsSpeech(msgs, BatchEnd(msgs, i), None, hoist, midConvo);
        BatchSpeech(msgs, i, ids, hoist, midConvo);
      } else {
        ConvertKeepsSpeech(msgs, i + 1, OpenedBy(m.role, m.blocks), hoist, midConvo);
        TurnSpeech(msgs, i, ids, hoist, midConvo);
      }
    }
  }

  /** An answer that directly follows the assistant turn it answers is kept: the turn after that assistant
      turn carries a result for it. */
  lemma DirectAnswersAreKept(msgs: seq<Message>, i: nat, k: nat, ids: Option<set<string>>, hoist: int, midConvo: bool)
    requires i + 1 < |msgs| && msgs[i].Message? && msgs[i].role == "assistant" && IsTool(msgs[i + 1])
    requires i < k < BatchEnd(msgs, i + 1) && msgs[k].toolCallId in UseIds(msgs[i].blocks)
    ensures var ts := Convert(msgs, i, ids, hoist, midConvo);
      && |ts| >= 2
      && ts[0] == Turn("assistant", msgs[i].blocks)
      && ts[1].role == "user"
      && ToolResult(msgs[k].toolCallId, msgs[k].text) in ts[1].blocks
  {
    var j := BatchEnd(msgs, i + 1);
    var open := OpenedBy("assistant", msgs[i].blocks);
    var batch := msgs[i + 1..j];
    assert batch[k - i - 1] == msgs[k];
    ValidResultsKeep(batch, open, k - i - 1);
    var results := ValidResults(batch, open);
    assert Convert(msgs, i + 1, open, hoist, midConvo)
      == [Turn("user", results)] + Convert(msgs, j, None, hoist, midConvo);
  }

  lemma {:induction false} ValidResultsKeep(batch: seq<Message>, ids: Option<set<string>>, k: nat)
    requires forall n :: 0 <= n < |batch| ==> batch[n].Message?
    requires k < |batch| && batch[k].toolCallId != "" && ids.Some? && batch[k].toolCallId in ids.value
    ensures ToolResult(batch[k].toolCallId, batch[k].text) in ValidResults(batch, ids)
  {
    if k > 0 {
      ValidResultsKeep(batch[1..], ids, k - 1);
    }
  }

  // ----- which blocks are kept, in order -----

  /** The blocks that are no call left unanswered by `answered`, in order. */
  function Unorphaned(blocks: seq<Block>, answered: set<string>): seq<Block> {
    if blocks == [] then []
    else
      var b := blocks[|blocks| - 1];
      Unorphaned(blocks[..|blocks| - 1], answered)
      + if b.ToolUse? && b.id != "" && b.id !in answered then [] else [b]
  }

  lemma {:induction false} StripSnoc(blocks: seq<Block>, b: Block, orphaned: set<string>)
    ensures Strip(blocks + [b], orphaned) == Strip(blocks, orphaned) + if b.ToolUse?
      && b.id in orphaned then [] else [b]
  {
    if blocks == [] {
      assert (blocks + [b])[1..] == [];
    } else {
      assert (blocks + [b])[1..] == blocks[1..] + [b];
      StripSnoc(blocks[1..], b, orphaned);
    }
  }

  lemma {:induction false} StripIsUnorphaned(blocks: seq<Block>, orphaned: set<string>, answered: set<string>)
    requires forall b :: b in blocks && b.ToolUse? ==> (b.id in orphaned <==> b.id != "" && b.id !in answered)
    ensures Strip(blocks, orphaned) == Unorphaned(blocks, answered)
  {
    if blocks != [] {
      var front, b := blocks[..|blocks| - 1], blocks[|blocks| - 1];
      assert blocks == front + [b];
      StripIsUnorphaned(front, orphaned, answered);
      StripSnoc(front, b, orphaned);
    }
  }

  lemma {:induction false} UnorphanedAll(blocks: seq<Block>, answered: set<string>)
    requires UseIds(blocks) <= answered
    ensures Unorphaned(blocks, answered) == blocks
  {
    if blocks != [] {
      var front, b := blocks[..|blocks| - 1], blocks[|blocks| - 1];
      assert blocks == front + [b];
      forall id | id in UseIds(front) ensures id in answered {
        var u :| u in front && u.ToolUse? && u.id != "" && u.id == id;
        assert u in blocks;
      }
      UnorphanedAll(front, answered);
      assert b in blocks;
    }
  }

  /** An assistant turn keeps its blocks in order but for the calls the turn after it leaves unanswered; if that leaves
      nothing, and something was there, it says `...`. All other turns are kept as they are. */
  lemma SanitizedBlocks(t: Turn, next: Option<Turn>)
    ensures var r := SanitizeTurn(t, next); var kept := Unorphaned(t.blocks, AnsweredBy(next));
      && (t.role != "assistant" ==> r == t)
      && (t.role == "assistant" ==>
            r == Turn("assistant", if kept == [] && t.blocks != [] then [Plain("...")] else kept))
  {
    if t.role == "assistant" {
      var orphaned := UseIds(t.blocks) - AnsweredBy(next);
      if orphaned == {} {
        assert UseIds(t.blocks) <= AnsweredBy(next) by {
          forall id | id in UseIds(t.blocks) ensures id in AnsweredBy(next) {
            assert id !in orphaned;
          }
        }
        UnorphanedAll(t.blocks, AnsweredBy(next));
      } else {
        StripIsUnorphaned(t.blocks, orphaned, AnsweredBy(next));
      }
    }
  }

  /** The results of a batch: one for each message that answers an open call, in order, with its text. */
  function Answers(batch: seq<Message>, open: set<string>): seq<Block> {
    if batch == [] then []
    else
      var m := batch[|batch| - 1];
      Answers(batch[..|batch| - 1], open)
      + if m.Message? && m.toolCallId != "" && m.toolCallId in open then [ToolResult(m.toolCallId, m.text)] else []
  }

  lemma {:induction false} ValidSnoc(batch: seq<Message>, m: Message, ids: Option<set<string>>)
    requires m.Message? && forall k :: 0 <= k < |batch| ==> batch[k].Message?
    ensures ValidResults(batch + [m], ids)
      == ValidResults(batch, ids)
         + if m.toolCallId != "" && ids.Some?
           && m.toolCallId in ids.value then [ToolResult(m.toolCallId, m.text)] else []
  {
    if batch == [] {
      assert (batch + [m])[1..] == [];
    } else {
      assert (batch + [m])[1..] == batch[1..] + [m];
      ValidSnoc(batch[1..], m, ids);
    }
  }

  lemma {:induction false} ResultsAreAnswers(batch: seq<Message>, ids: Option<set<string>>)
    requires forall k :: 0 <= k < |batch| ==> batch[k].Message?
    ensures ValidResults(batch, ids) == Answers(batch, if ids.Some? then ids.value else {})
  {
    if batch != [] {
      var front, m := batch[..|batch| - 1], batch[|batch| - 1];
      assert batch == front + [m];
      ResultsAreAnswers(front, ids);
      ValidSnoc(front, m, ids);
    }
  }

  /** Without tool messages the turns are just the spoken ones, whatever the users write. */
  lemma {:induction false} WithoutToolsAllSpoken(msgs: seq<Message>, i: nat, ids: Option<set<string>>, hoist: int,
                                                 midConvo: bool)
    requires i <= |msgs| && forall k :: i <= k < |msgs| ==> !IsTool(msgs[k])
    ensures Convert(msgs, i, ids, hoist, midConvo) == Spoken(msgs, i, hoist, midConvo)
    decreases |msgs| - i
  {
    if i < |msgs| {
      assert !IsTool(msgs[i]);
      var open := if msgs[i].NotAnObject? || msgs[i].role == "system" then ids
                  else OpenedBy(msgs[i].role, msgs[i].blocks);
      WithoutToolsAllSpoken(msgs, i + 1, open, hoist, midConvo);
    }
  }

  /** A single turn is left as it is; of several, each is sanitized by the turn after it. */
  lemma SanitizedTurns(ts: seq<Turn>, i: nat)
    requires i < |ts|
    ensures |Sanitize(ts)| == |ts|
    ensures |ts| == 1 ==> Sanitize(ts) == ts
    ensures |ts| > 1 ==> var kept := Unorphaned(ts[i].blocks, AnsweredBy(Next(ts, i)));
      Sanitize(ts)[i] == if ts[i].role != "assistant" then ts[i]
                         else Turn("assistant", if kept == [] && ts[i].blocks != [] then [Plain("...")] else kept)
  {
    if |ts| > 1 {
      SanitizeAllAt(ts, i);
      SanitizedBlocks(ts[i], Next(ts, i));
    }
  }
}
