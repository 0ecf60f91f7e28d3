/** JSON with comments as syntax trees that keep every byte; the scanner reads exactly what they print. */
module JsoncGrammar {
  import opened Common
  import opened JsonScanner

  /** Blanks and comments between tokens. */
  datatype Trivia =
    | End
    | Blank(c: char, rest: Trivia)
    | LineComment(body: string, rest: Trivia)
    | BlockComment(body: string, rest: Trivia)

  datatype Value =
    | Scalar(text: string)
    | Str(literal: string)
    | Arr(gap: Trivia, items: Items)
    | Obj(gap: Trivia, members: Members)

  /** `gap` of an array or object is what an empty one has between its brackets. */
  datatype Items = NoItems | Item(pre: Trivia, value: Value, post: Trivia, rest: Items)

  datatype Members =
    | NoMembers
    | Member(pre: Trivia, key: string, mid: Trivia, gap: Trivia, value: Value, post: Trivia, rest: Members)

  // ----- printing, in front of what follows -----

  function EmitTrivia(t: Trivia, k: string): (s: string)
    ensures |s| >= |k|
  {
    match t
    case End => k
    case Blank(c, rest) => [c] + EmitTrivia(rest, k)
    case LineComment(body, rest) => ['/', '/'] + (body + (['\n'] + EmitTrivia(rest, k)))
    case BlockComment(body, rest) => ['/', '*'] + (body + (['*', '/'] + EmitTrivia(rest, k)))
  }

  function Emit(v: Value, k: string): (s: string)
    ensures |s| >= |k|
    decreases v
  {
    match v
    case Scalar(text) => text + k
    case Str(literal) => literal + k
    case Arr(gap, items) => ['['] + (if items.NoItems? then EmitTrivia(gap, [']'] + k) else EmitItems(items, [']'] + k))
    case Obj(gap, members) => ['{'] + EmitBody(gap, members, ['}'] + k)
  }

  function EmitItems(items: Items, k: string): (s: string)
    ensures |s| >= |k|
    decreases items
  {
    match items
    case NoItems => k
    case Item(pre, v, post, rest) =>
      EmitTrivia(pre, Emit(v, EmitTrivia(post, if rest.NoItems? then k else [','] + EmitItems(rest, k))))
  }

  function EmitMembers(ms: Members, k: string): (s: string)
    ensures |s| >= |k|
    decreases ms, 1
  {
    match ms
    case NoMembers => k
    case Member(pre, key, mid, gap, v, _, _) =>
      EmitTrivia(pre, key + EmitTrivia(mid, [':'] + EmitTrivia(gap, Emit(v, AfterValue(ms, k)))))
  }

  /** What follows the value of the first member. */
  function AfterValue(ms: Members, k: string): (s: string)
    requires ms.Member?
    ensures |s| >= |k|
    decreases ms, 0
  {
    EmitTrivia(ms.post, if ms.rest.NoMembers? then k else [','] + EmitMembers(ms.rest, k))
  }

  function EmitBody(gap: Trivia, ms: Members, k: string): (s: string)
    ensures |s| >= |k|
    decreases ms, 2
  {
    if ms.NoMembers? then EmitTrivia(gap, k) else EmitMembers(ms, k)
  }

  // ----- well-formedness -----

  predicate NoBlockEnd(body: string) {
    forall i | 0 <= i < |body| - 1 :: !(body[i] == '*' && body[i + 1] == '/')
  }

  predicate TriviaOk(t: Trivia) {
    match t
    case End => true
    case Blank(c, rest) => IsBlank(c) && TriviaOk(rest)
    case LineComment(body, rest) => '\n' !in body && TriviaOk(rest)
    case BlockComment(body, rest) => NoBlockEnd(body) && TriviaOk(rest)
  }

  /** The inside of a literal: escape pairs, and bytes other than quotes and backslashes. */
  predicate StringBody(s: string) {
    s == "" ||
    if s[0] == '\\' then |s| >= 2 && StringBody(s[2..]) else s[0] != '"' && StringBody(s[1..])
  }

  predicate IsLiteral(codec: Codec, s: string) {
    && |s| >= 2 && s[0] == '"' && s[|s| - 1] == '"'
    && StringBody(s[1..|s| - 1])
    && codec.decode(s).Some?
  }

  predicate ScalarChar(c: char) {
    !IsStop(c) && c !in {'"', '{', '[', '/', ':'}
  }

  predicate IsScalar(s: string) {
    s != "" && forall i | 0 <= i < |s| :: ScalarChar(s[i])
  }

  predicate ValueOk(codec: Codec, v: Value) {
    match v
    case Scalar(text) => IsScalar(text)
    case Str(literal) => IsLiteral(codec, literal)
    case Arr(gap, items) => TriviaOk(gap) && ItemsOk(codec, items)
    case Obj(gap, members) => TriviaOk(gap) && MembersOk(codec, members)
  }

  predicate ItemsOk(codec: Codec, items: Items) {
    match items
    case NoItems => true
    case Item(pre, v, post, rest) => TriviaOk(pre) && ValueOk(codec, v) && TriviaOk(post) && ItemsOk(codec, rest)
  }

  predicate MembersOk(codec: Codec, ms: Members) {
    match ms
    case NoMembers => true
    case Member(pre, key, mid, gap, v, post, rest) =>
      && TriviaOk(pre) && IsLiteral(codec, key) && TriviaOk(mid) && TriviaOk(gap)
      && ValueOk(codec, v) && TriviaOk(post) && MembersOk(codec, rest)
  }

  // ----- the scanner agrees: trivia, strings, scalars -----

  lemma {:induction false} LineTailStops(body: string, k: string)
    requires '\n' !in body
    ensures LineTail(body + (['\n'] + k)) == ['\n'] + k
  {
    if body == "" {
      assert body + (['\n'] + k) == ['\n'] + k;
    } else {
      assert (body + (['\n'] + k))[1..] == body[1..] + (['\n'] + k);
      LineTailStops(body[1..], k);
    }
  }

  lemma {:induction false} BlockTailStops(body: string, k: string)
    requires NoBlockEnd(body)
    ensures BlockTail(body + (['*', '/'] + k)) == k
  {
    var s := body + (['*', '/'] + k);
    if body == "" {
      assert s == ['*', '/'] + k;
    } else {
      assert s[1..] == body[1..] + (['*', '/'] + k);
      assert !(s[0] == '*' && s[1] == '/') by {
        if |body| == 1 { assert s[1] == '*'; } else { assert s[0] == body[0] && s[1] == body[1]; }
      }
      forall i | 0 <= i < |body[1..]| - 1 ensures !(body[1..][i] == '*' && body[1..][i + 1] == '/') {
        assert body[1..][i] == body[i + 1] && body[1..][i + 1] == body[i + 2];
      }
      BlockTailStops(body[1..], k);
    }
  }

  /** A comment is skipped up to the end of its own text. */
  lemma CommentSkipped(t: Trivia, k: string)
    requires TriviaOk(t) && (t.LineComment? || t.BlockComment?)
    ensures var s := EmitTrivia(t, k);
      && s[0] == '/'
      && CommentTail(s) == Some(if t.LineComment? then ['\n'] + EmitTrivia(t.rest, k) else EmitTrivia(t.rest, k))
  {
    var s := EmitTrivia(t, k);
    if t.LineComment? {
      assert s[2..] == t.body + (['\n'] + EmitTrivia(t.rest, k));
      LineTailStops(t.body, EmitTrivia(t.rest, k));
    } else {
      assert s[2..] == t.body + (['*', '/'] + EmitTrivia(t.rest, k));
      BlockTailStops(t.body, EmitTrivia(t.rest, k));
    }
  }

  lemma {:induction false} IgnorableSkipsTrivia(t: Trivia, k: string)
    requires TriviaOk(t)
    ensures Ignorable(EmitTrivia(t, k)) == Ignorable(k)
  {
    match t
    case End =>
    case Blank(c, rest) =>
      IgnorableSkipsTrivia(rest, k);
      assert ([c] + EmitTrivia(rest, k))[1..] == EmitTrivia(rest, k);
    case LineComment(_, rest) =>
      CommentSkipped(t, k);
      IgnorableSkipsTrivia(rest, k);
      assert (['\n'] + EmitTrivia(rest, k))[1..] == EmitTrivia(rest, k);
    case BlockComment(_, rest) =>
      CommentSkipped(t, k);
      IgnorableSkipsTrivia(rest, k);
  }

  lemma {:induction false} QuoteTailStops(body: string, k: string)
    requires StringBody(body)
    ensures QuoteTail(body + (['"'] + k)) == Some(k)
  {
    var s := body + (['"'] + k);
    if body == "" {
      assert s == ['"'] + k;
    } else if body[0] == '\\' {
      assert s[2..] == body[2..] + (['"'] + k);
      QuoteTailStops(body[2..], k);
    } else {
      assert s[1..] == body[1..] + (['"'] + k);
      QuoteTailStops(body[1..], k);
    }
  }

  lemma StringSkipped(codec: Codec, literal: string, k: string)
    requires IsLiteral(codec, literal)
    ensures (literal + k)[0] == '"'
    ensures SkipString(codec, literal + k) == Some((k, codec.decode(literal).value))
  {
    var body := literal[1..|literal| - 1];
    assert (literal + k)[1..] == body + (['"'] + k);
    QuoteTailStops(body, k);
    assert (literal + k)[..|literal + k| - |k|] == literal;
  }

  lemma {:induction false} ScalarSkipped(text: string, k: string)
    requires forall i :: 0 <= i < |text| ==> !IsStop(text[i])
    ensures ScalarTail(text + k) == ScalarTail(k)
  {
    if text == "" {
      assert text + k == k;
    } else {
      assert (text + k)[1..] == text[1..] + k;
      ScalarSkipped(text[1..], k);
    }
  }

  // ----- the scanner agrees: composites -----

  predicate IsOpen(open: char) {
    open == '{' || open == '['
  }

  lemma {:induction false} CompositePastTrivia(codec: Codec, t: Trivia, k: string, open: char, depth: int)
    requires TriviaOk(t) && IsOpen(open)
    ensures CompositeTail(codec, EmitTrivia(t, k), open, depth) == CompositeTail(codec, k, open, depth)
  {
    match t
    case End =>
    case Blank(c, rest) =>
      CompositePastTrivia(codec, rest, k, open, depth);
      assert ([c] + EmitTrivia(rest, k))[1..] == EmitTrivia(rest, k);
    case LineComment(_, rest) =>
      CommentSkipped(t, k);
      CompositePastTrivia(codec, rest, k, open, depth);
      assert (['\n'] + EmitTrivia(rest, k))[1..] == EmitTrivia(rest, k);
    case BlockComment(_, rest) =>
      CommentSkipped(t, k);
      CompositePastTrivia(codec, rest, k, open, depth);
  }

  lemma {:induction false} CompositePastScalar(codec: Codec, text: string, k: string, open: char, depth: int)
    requires forall i :: 0 <= i < |text| ==> ScalarChar(text[i])
    requires IsOpen(open)
    ensures CompositeTail(codec, text + k, open, depth) == CompositeTail(codec, k, open, depth)
  {
    if text == "" {
      assert text + k == k;
    } else {
      assert (text + k)[1..] == text[1..] + k;
      CompositePastScalar(codec, text[1..], k, open, depth);
    }
  }

  lemma CompositePastChar(codec: Codec, c: char, k: string, open: char, depth: int)
    requires IsOpen(open) && c != '"' && c != '/'
    ensures var s := [c] + k;
      CompositeTail(codec, s, open, depth)
        == if c == open then CompositeTail(codec, k, open, depth + 1)
           else if c == Closing(open) then (if depth == 1 then Some(k) else CompositeTail(codec, k, open, depth - 1))
           else CompositeTail(codec, k, open, depth)
  {
    assert ([c] + k)[1..] == k;
  }

  lemma {:induction false} CompositePastLiteral(codec: Codec, literal: string, k: string, open: char, depth: int)
    requires IsLiteral(codec, literal) && IsOpen(open)
    ensures CompositeTail(codec, literal + k, open, depth) == CompositeTail(codec, k, open, depth)
  {
    StringSkipped(codec, literal, k);
  }

  /** Inside a composite, a whole value is passed over at unchanged depth. */
  lemma {:induction false} CompositePastValue(codec: Codec, v: Value, k: string, open: char, depth: int)
    requires ValueOk(codec, v) && IsOpen(open) && depth >= 1
    ensures CompositeTail(codec, Emit(v, k), open, depth) == CompositeTail(codec, k, open, depth)
    decreases v
  {
    match v
    case Scalar(text) => CompositePastScalar(codec, text, k, open, depth);
    case Str(literal) => CompositePastLiteral(codec, literal, k, open, depth);
    case Arr(gap, items) =>
      var inner := if open == '[' then depth + 1 else depth;
      var close := [']'] + k;
      var inside := if items.NoItems? then EmitTrivia(gap, close) else EmitItems(items, close);
      CompositePastChar(codec, '[', inside, open, depth);
      if items.NoItems? {
        CompositePastTrivia(codec, gap, close, open, inner);
      } else {
        CompositePastItems(codec, items, close, open, inner);
      }
      CompositePastChar(codec, ']', k, open, inner);
    case Obj(gap, members) =>
      var inner := if open == '{' then depth + 1 else depth;
      CompositePastChar(codec, '{', EmitBody(gap, members, ['}'] + k), open, depth);
      CompositePastBody(codec, gap, members, ['}'] + k, open, inner);
      CompositePastChar(codec, '}', k, open, inner);
  }

  lemma {:induction false} CompositePastBody(codec: Codec, gap: Trivia, ms: Members, k: string, open: char, depth: int)
    requires TriviaOk(gap) && MembersOk(codec, ms) && IsOpen(open) && depth >= 1
    ensures CompositeTail(codec, EmitBody(gap, ms, k), open, depth) == CompositeTail(codec, k, open, depth)
    decreases ms, 1
  {
    if ms.NoMembers? {
      CompositePastTrivia(codec, gap, k, open, depth);
    } else {
      CompositePastMembers(codec, ms, k, open, depth);
    }
  }

  lemma {:induction false} CompositePastItems(codec: Codec, items: Items, k: string, open: char, depth: int)
    requires ItemsOk(codec, items) && IsOpen(open) && depth >= 1
    ensures CompositeTail(codec, EmitItems(items, k), open, depth) == CompositeTail(codec, k, open, depth)
    decreases items
  {
    match items
    case NoItems =>
    case Item(pre, v, post, rest) =>
      var more := if rest.NoItems? then k else [','] + EmitItems(rest, k);
      CompositePastTrivia(codec, pre, Emit(v, EmitTrivia(post, more)), open, depth);
      CompositePastValue(codec, v, EmitTrivia(post, more), open, depth);
      CompositePastTrivia(codec, post, more, open, depth);
      if !rest.NoItems? {
        CompositePastChar(codec, ',', EmitItems(rest, k), open, depth);
        CompositePastItems(codec, rest, k, open, depth);
      }
  }

  lemma {:induction false} CompositePastMembers(codec: Codec, ms: Members, k: string, open: char, depth: int)
    requires MembersOk(codec, ms) && IsOpen(open) && depth >= 1
    ensures CompositeTail(codec, EmitMembers(ms, k), open, depth) == CompositeTail(codec, k, open, depth)
    decreases ms, 0
  {
    match ms
    case NoMembers =>
    case Member(pre, key, mid, gap, v, post, rest) =>
      var more := if rest.NoMembers? then k else [','] + EmitMembers(rest, k);
      var atValue := Emit(v, AfterValue(ms, k));
      var atColon := [':'] + EmitTrivia(gap, atValue);
      CompositePastTrivia(codec, pre, key + EmitTrivia(mid, atColon), open, depth);
      CompositePastLiteral(codec, key, EmitTrivia(mid, atColon), open, depth);
      CompositePastTrivia(codec, mid, atColon, open, depth);
      CompositePastChar(codec, ':', EmitTrivia(gap, atValue), open, depth);
      CompositePastTrivia(codec, gap, atValue, open, depth);
      CompositePastValue(codec, v, AfterValue(ms, k), open, depth);
      CompositePastTrivia(codec, post, more, open, depth);
      if !rest.NoMembers? {
        CompositePastChar(codec, ',', EmitMembers(rest, k), open, depth);
        CompositePastMembers(codec, rest, k, open, depth);
      }
  }

  // ----- the scanner agrees: values -----

  /** Nothing, or a byte that ends a scalar, comes first. */
  predicate Delimited(k: string) {
    k == "" || IsStop(k[0])
  }

  /** A printed value starts with no blank and no comment. */
  lemma ValueStart(codec: Codec, v: Value, k: string)
    requires ValueOk(codec, v)
    ensures |Emit(v, k)| > |k|
    ensures !IsBlank(Emit(v, k)[0]) && Emit(v, k)[0] != '/' && Emit(v, k)[0] != '}' && Emit(v, k)[0] != ','
    ensures Ignorable(Emit(v, k)) == Emit(v, k)
  {
  }

  /** The scanner ends a value where its text ends; a scalar's, exactly when it is delimited. */
  lemma ValueSkipped(codec: Codec, v: Value, k: string)
    requires ValueOk(codec, v)
    ensures SkipValue(codec, Emit(v, k)).Some? && SkipValue(codec, Emit(v, k)).value.0 == Emit(v, k)
    ensures !v.Scalar? || Delimited(k) ==> SkipValue(codec, Emit(v, k)).value.1 == k
    ensures v.Scalar? && !Delimited(k) ==> |SkipValue(codec, Emit(v, k)).value.1| < |k|
  {
    ValueStart(codec, v, k);
    match v
    case Scalar(text) =>
      ScalarSkipped(text, k);
    case Str(literal) => StringSkipped(codec, literal, k);
    case Arr(gap, items) =>
      var close := [']'] + k;
      CompositePastChar(codec, '[', if items.NoItems? then EmitTrivia(gap, close) else EmitItems(items, close), '[', 0);
      if items.NoItems? {
        CompositePastTrivia(codec, gap, close, '[', 1);
      } else {
        CompositePastItems(codec, items, close, '[', 1);
      }
      CompositePastChar(codec, ']', k, '[', 1);
    case Obj(gap, members) =>
      CompositePastChar(codec, '{', EmitBody(gap, members, ['}'] + k), '{', 0);
      CompositePastBody(codec, gap, members, ['}'] + k, '{', 1);
      CompositePastChar(codec, '}', k, '{', 1);
  }

  // ----- comments glued to a scalar -----

  predicate NoStops(s: string) {
    forall i | 0 <= i < |s| :: !IsStop(s[i])
  }

  /** A scalar scan that runs into `t` stops at no byte inside a comment. */
  predicate Swallowed(t: Trivia) {
    match t
    case End => true
    case Blank(_, _) => true
    case LineComment(body, _) => NoStops(body)
    case BlockComment(body, rest) => NoStops(body) && Swallowed(rest)
  }

  /** The scan runs through the whole of `t`, which is glued block comments without stop bytes. */
  predicate RunsThrough(t: Trivia) {
    t.End? || (t.BlockComment? && NoStops(t.body) && RunsThrough(t.rest))
  }

  /** What the scan leaves: it halts at a blank or at the break that ends a line comment. */
  function AfterScan(t: Trivia, k: string): string {
    match t
    case End => k
    case Blank(_, _) => EmitTrivia(t, k)
    case LineComment(_, rest) => ['\n'] + EmitTrivia(rest, k)
    case BlockComment(_, rest) => AfterScan(rest, k)
  }

  lemma {:induction false} TriviaScanned(t: Trivia, k: string)
    requires TriviaOk(t) && Swallowed(t)
    ensures ScalarTail(EmitTrivia(t, k)) == if RunsThrough(t) then ScalarTail(k) else AfterScan(t, k)
    ensures RunsThrough(t) ==> AfterScan(t, k) == k
    ensures Ignorable(AfterScan(t, k)) == Ignorable(k)
    ensures |AfterScan(t, k)| <= |EmitTrivia(t, k)|
  {
    match t
    case End =>
    case Blank(_, _) => IgnorableSkipsTrivia(t, k);
    case LineComment(body, rest) =>
      var halt := ['\n'] + EmitTrivia(rest, k);
      SlashesScanned('/', body, halt);
      IgnorableSkipsTrivia(Blank('\n', rest), k);
    case BlockComment(body, rest) =>
      var more := EmitTrivia(rest, k);
      SlashesScanned('*', body, ['*', '/'] + more);
      ScalarSkipped(['*', '/'], more);
      TriviaScanned(rest, k);
  }

  lemma SlashesScanned(c: char, body: string, k: string)
    requires !IsStop(c) && NoStops(body)
    ensures ScalarTail(['/', c] + (body + k)) == ScalarTail(k)
  {
    ScalarSkipped(['/', c], body + k);
    ScalarSkipped(body, k);
  }

  /** A scalar is read up to where the scan of what is glued to it halts. */
  lemma ScalarSwallows(codec: Codec, v: Value, t: Trivia, k: string)
    requires ValueOk(codec, v) && v.Scalar? && TriviaOk(t) && Swallowed(t) && Delimited(k)
    ensures SkipValue(codec, Emit(v, EmitTrivia(t, k))) == Some((Emit(v, EmitTrivia(t, k)), AfterScan(t, k)))
  {
    var s := Emit(v, EmitTrivia(t, k));
    ValueStart(codec, v, EmitTrivia(t, k));
    ScalarSkipped(v.text, EmitTrivia(t, k));
    TriviaScanned(t, k);
  }

  /** Leading trivia is passed over. */
  lemma TriviaBeforeValue(codec: Codec, t: Trivia, v: Value, k: string)
    requires TriviaOk(t) && ValueOk(codec, v)
    ensures SkipValue(codec, EmitTrivia(t, Emit(v, k))) == SkipValue(codec, Emit(v, k))
  {
    IgnorableSkipsTrivia(t, Emit(v, k));
    ValueStart(codec, v, k);
  }

  // ----- which bytes count -----

  /** The blanks are those of JSON, and a scalar ends at a blank, a comma or a closing bracket. */
  lemma BytesThatCount(c: char, k: string)
    ensures c in {' ', '\t', '\n', '\r'} ==> Ignorable([c] + k) == Ignorable(k)
    ensures c !in {' ', '\t', '\n', '\r', '/'} ==> Ignorable([c] + k) == [c] + k
    ensures ScalarTail([c] + k) == if c in {' ', '\t', '\n', '\r', ',', '}', ']'} then [c] + k else ScalarTail(k)
  {
    assert ([c] + k)[1..] == k;
  }
}
