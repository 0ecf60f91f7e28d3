/** What the config editor guarantees on well-formed documents, in terms of their syntax trees. */
module SpliceLaws {
  import opened Common
  import opened JsonScanner
  import opened JsoncGrammar
  import opened JsoncTree
  import opened ConfigSplice

  // ----- the inserted text is a printed member -----

  predicate AllBlank(s: string) {
    forall i | 0 <= i < |s| :: IsBlank(s[i])
  }

  function BlankTrivia(s: string): Trivia {
    if s == "" then End else Blank(s[0], BlankTrivia(s[1..]))
  }

  lemma {:induction false} BlankTriviaEmits(s: string, k: string)
    requires AllBlank(s)
    ensures EmitTrivia(BlankTrivia(s), k) == s + k && TriviaOk(BlankTrivia(s))
  {
    if s == "" {
      assert s + k == k;
    } else {
      BlankTriviaEmits(s[1..], k);
      assert s + k == [s[0]] + (s[1..] + k);
    }
  }

  lemma {:induction false} RepeatBlank(unit: string, n: nat)
    requires AllBlank(unit)
    ensures AllBlank(Repeat(unit, n))
  {
    if n > 0 {
      RepeatBlank(unit, n - 1);
    }
  }

  /** A line break and `n` units of indentation. */
  function Break(unit: string, n: nat): Trivia {
    BlankTrivia("\n" + Repeat(unit, n))
  }

  lemma BreakEmits(unit: string, n: nat, k: string)
    requires AllBlank(unit)
    ensures EmitTrivia(Break(unit, n), k) == "\n" + Repeat(unit, n) + k
    ensures TriviaOk(Break(unit, n)) && Break(unit, n).Blank?
  {
    RepeatBlank(unit, n);
    BlankTriviaEmits("\n" + Repeat(unit, n), k);
  }

  const COLON_GAP := Blank(' ', End)

  /** The value of the inserted member: the leaf, inside an object for every further path component. */
  function Nested(codec: Codec, parts: seq<string>, leaf: Value, unit: string, depth: nat): Value
    requires parts != []
    decreases parts
  {
    if |parts| == 1 then leaf
    else Obj(End, Chain(codec, parts, leaf, unit, depth))
  }

  /** The only member of one nesting level. */
  function Chain(codec: Codec, parts: seq<string>, leaf: Value, unit: string, depth: nat): (ms: Members)
    requires |parts| > 1
    ensures ms.Member? && ms.rest.NoMembers?
    decreases parts, 0
  {
    Member(Break(unit, depth + 2), codec.encode(parts[1]), End, COLON_GAP,
           Nested(codec, parts[1..], leaf, unit, depth + 1), Break(unit, depth + 1), NoMembers)
  }

  /** The host's codec round-trips the path components. */
  ghost predicate KeysOk(codec: Codec, parts: seq<string>) {
    forall i :: 0 <= i < |parts| ==>
      IsLiteral(codec, codec.encode(parts[i])) && codec.decode(codec.encode(parts[i])) == Some(parts[i])
  }

  lemma NestRegroup(a: string, b: string, c: string, t: string, d: string)
    ensures a + ": {\n" + b + (c + ": " + t) + "\n" + d + "}"
      == a + ": " + (['{'] + ("\n" + b + (c + ": " + (t + ("\n" + d + "}")))))
  {
  }

  lemma ChainText(codec: Codec, parts: seq<string>, leaf: Value, unit: string, depth: nat)
    requires |parts| > 1 && AllBlank(unit)
    ensures Text(Nested(codec, parts, leaf, unit, depth))
      == ['{'] + ("\n" + Repeat(unit, depth + 2) + (codec.encode(parts[1]) + ": "
           + (Text(Nested(codec, parts[1..], leaf, unit, depth + 1)) + ("\n" + Repeat(unit, depth + 1) + "}"))))
  {
    var inner := Nested(codec, parts[1..], leaf, unit, depth + 1);
    var ms := Chain(codec, parts, leaf, unit, depth);
    var close := ['}'] + "";
    assert close == "}";
    BreakEmits(unit, depth + 1, close);
    assert AfterValue(ms, close) == "\n" + Repeat(unit, depth + 1) + "}";
    EmitAppend(inner, AfterValue(ms, close));
    MemberText(ms, close);
    var line := ms.key + ": " + Emit(inner, AfterValue(ms, close));
    assert line == codec.encode(parts[1]) + ": " + (Text(inner) + ("\n" + Repeat(unit, depth + 1) + "}"));
    BreakEmits(unit, depth + 2, line);
    assert Nested(codec, parts, leaf, unit, depth) == Obj(End, ms);
    assert EmitBody(End, ms, close) == EmitMembers(ms, close);
  }

  lemma {:induction false} NestTextIsNested(codec: Codec, parts: seq<string>, leaf: Value, unit: string, depth: nat)
    requires parts != [] && AllBlank(unit)
    ensures NestText(codec, parts, Text(leaf), unit, depth)
      == codec.encode(parts[0]) + ": " + Text(Nested(codec, parts, leaf, unit, depth))
    decreases parts
  {
    if |parts| > 1 {
      NestTextIsNested(codec, parts[1..], leaf, unit, depth + 1);
      ChainText(codec, parts, leaf, unit, depth);
      NestRegroup(codec.encode(parts[0]), Repeat(unit, depth + 2), codec.encode(parts[1]),
        Text(Nested(codec, parts[1..], leaf, unit, depth + 1)), Repeat(unit, depth + 1));
    }
  }

  lemma MemberText(ms: Members, k: string)
    requires ms.Member? && ms.mid == End && ms.gap == COLON_GAP
    ensures EmitMembers(ms, k) == EmitTrivia(ms.pre, ms.key + ": " + Emit(ms.value, AfterValue(ms, k)))
  {
    var x := Emit(ms.value, AfterValue(ms, k));
    assert EmitTrivia(ms.gap, x) == [' '] + x by {
      assert EmitTrivia(ms.gap, x) == [' '] + EmitTrivia(End, x);
    }
    assert ms.key + ([':'] + ([' '] + x)) == ms.key + ": " + x;
  }

  lemma {:induction false} NestedOk(codec: Codec, parts: seq<string>, leaf: Value, unit: string, depth: nat)
    requires parts != [] && KeysOk(codec, parts) && AllBlank(unit) && ValueOk(codec, leaf)
    ensures ValueOk(codec, Nested(codec, parts, leaf, unit, depth))
    decreases parts
  {
    if |parts| > 1 {
      NestedOk(codec, parts[1..], leaf, unit, depth + 1);
      BreakEmits(unit, depth + 2, "");
      BreakEmits(unit, depth + 1, "");
      assert TriviaOk(COLON_GAP);
    }
  }

  /** The leaf is found at the rest of the path; nothing is found apart from it. */
  lemma {:induction false} NestedGet(codec: Codec, parts: seq<string>, leaf: Value, unit: string, depth: nat,
                                     path: seq<string>)
    requires parts != [] && KeysOk(codec, parts) && AllBlank(unit)
    requires path == parts[1..] || Apart(parts[1..], path)
    ensures CrispPath(codec, Nested(codec, parts, leaf, unit, depth), path)
    ensures Get(codec, Nested(codec, parts, leaf, unit, depth), path) == if path == parts[1..] then Some(leaf) else None
    ensures path == parts[1..] && path != [] ==> !Glued(PostAt(codec, Nested(codec, parts, leaf, unit, depth), path))
    decreases parts
  {
    if |parts| > 1 {
      var ms := Chain(codec, parts, leaf, unit, depth);
      BreakEmits(unit, depth + 1, "");
      if path != parts[1..] {
        ApartTails(parts[1..], path);
      }
      assert Name(codec, ms) == Some(parts[1]);
      assert CrispBefore(codec, ms.rest, path[0]);
      if path[0] == parts[1] {
        assert Found(codec, ms, path[0]) == ms;
        NestedGet(codec, parts[1..], leaf, unit, depth + 1, path[1..]);
      } else {
        assert Found(codec, ms, path[0]).NoMembers?;
      }
    }
  }

  // ----- where the member goes -----

  /** The scan for the insertion point re-reads each colon as the start of a scalar; it reads the whole value
      as the end of that scalar when nothing in between halts it. */
  predicate Bare(ms: Members)
    requires ms.Member?
  {
    ms.value.Scalar? || RunsThrough(ms.gap)
  }

  /** The scan goes through all of `s` scalar by scalar, passing blanks and commas, and is within a scalar at the
      end; `within` says whether it is at the start. It goes astray at a closing bracket, and at a scalar that
      would start with a quote, an opening bracket or a comment mark. */
  predicate Chewed(s: string, within: bool)
    decreases |s|, within
  {
    if s == "" then within
    else if within then (if IsStop(s[0]) then Chewed(s, false) else Chewed(s[1..], true))
    else if IsBlank(s[0]) || s[0] == ',' then Chewed(s[1..], false)
    else StartsScalar(s) && Chewed(s[1..], true)
  }

  predicate StartsScalar(s: string) {
    s != "" && !IsStop(s[0]) && s[0] !in {'"', '{', '['} && (s[0] == '/' ==> |s| > 1 && s[1] !in {'/', '*'})
  }

  /** The insertion scan keeps in step with the members: after each colon it halts before the value (at a blank,
      say) or chews through the value; and no comment it reads as part of a scalar holds a stop byte. */
  predicate InStep(ms: Members) {
    ms.Member? ==>
      && Swallowed(ms.gap) && (RunsThrough(ms.gap) ==> Chewed(Text(ms.value), true))
      && (Bare(ms) ==> Swallowed(ms.post))
      && InStep(ms.rest)
  }

  /** The block comments a trivia starts with... */
  function Soaked(t: Trivia): Trivia {
    if t.BlockComment? then BlockComment(t.body, Soaked(t.rest)) else End
  }

  /** ...and what follows them. */
  function Leave(t: Trivia): Trivia {
    if t.BlockComment? then Leave(t.rest) else t
  }

  lemma {:induction false} SplitTrivia(t: Trivia, k: string)
    ensures EmitTrivia(t, k) == EmitTrivia(Soaked(t), EmitTrivia(Leave(t), k))
    ensures TriviaOk(t) ==> TriviaOk(Soaked(t)) && TriviaOk(Leave(t))
    ensures Swallowed(t) ==> Swallowed(Soaked(t)) && Swallowed(Leave(t))
    ensures Glued(Soaked(t)) ==> Glued(t)
    ensures AfterScan(t, k) == AfterScan(Leave(t), k) && !Leave(t).BlockComment?
  {
    if t.BlockComment? {
      SplitTrivia(t.rest, k);
    }
  }

  /** The trivia after a member's value that is read with it... */
  function Kept(ms: Members): Trivia
    requires ms.Member?
  {
    if Bare(ms) then Soaked(ms.post) else End
  }

  /** ...and the trivia that is not. */
  function Left(ms: Members): Trivia
    requires ms.Member?
  {
    if Bare(ms) then Leave(ms.post) else ms.post
  }

  lemma KeptLeft(ms: Members, k: string)
    requires ms.Member?
    ensures AfterValue(ms, k) == EmitTrivia(Kept(ms), EmitTrivia(Left(ms), AfterMember(ms, k)))
  {
    SplitTrivia(ms.post, AfterMember(ms, k));
  }

  /** The trivia after the last value that a new member is put in front of. */
  function LastLeft(ms: Members): Trivia
    requires ms.Member?
  {
    if ms.rest.NoMembers? then Left(ms) else LastLeft(ms.rest)
  }

  /** The last value is not read together with a line comment glued to it. */
  predicate SafeEnd(ms: Members) {
    ms.Member? ==> if ms.rest.Member? then SafeEnd(ms.rest) else Bare(ms) ==> !Left(ms).LineComment?
  }

  /** What a new last member is put in front of. */
  function AfterLast(ms: Members, k: string): string
    requires ms.Member?
  {
    EmitTrivia(LastLeft(ms), k)
  }

  /** What the scan leaves of the text after a member's value... */
  function ScanLeft(ms: Members, k: string): string
    requires ms.Member?
  {
    if Bare(ms) then AfterScan(ms.post, AfterMember(ms, k)) else AfterValue(ms, k)
  }

  /** ...and after the last one's. */
  function ScanEnd(ms: Members, k: string): string
    requires ms.Member?
  {
    if ms.rest.NoMembers? then ScanLeft(ms, k) else ScanEnd(ms.rest, k)
  }

  /** The scan ends where a new member belongs, unless it ends inside a line comment glued to the last value. */
  lemma {:induction false} ScanEndIsAfterLast(ms: Members, k: string)
    requires ms.Member?
    ensures SafeEnd(ms) ==> ScanEnd(ms, k) == AfterLast(ms, k)
    ensures !SafeEnd(ms) ==> (
      && LastLeft(ms).LineComment?
      && ScanEnd(ms, k) == ['\n'] + EmitTrivia(LastLeft(ms).rest, k)
      && |ScanEnd(ms, k)| < |AfterLast(ms, k)|)
    decreases ms
  {
    if ms.rest.Member? {
      ScanEndIsAfterLast(ms.rest, k);
    } else {
      SplitTrivia(ms.post, k);
    }
  }

  lemma InsertPointIgnores(codec: Codec, t: Trivia, k: string, last: Option<string>)
    requires TriviaOk(t)
    ensures InsertPoint(codec, EmitTrivia(t, k), last) == InsertPoint(codec, k, last)
  {
    IgnorableSkipsTrivia(t, k);
  }

  lemma InsertPointPastValue(codec: Codec, t: Trivia, v: Value, k: string, last: Option<string>)
    requires TriviaOk(t) && ValueOk(codec, v) && !v.Scalar?
    ensures InsertPoint(codec, EmitTrivia(t, Emit(v, k)), last) == InsertPoint(codec, k, Some(k))
  {
    IgnorableSkipsTrivia(t, Emit(v, k));
    ValueStart(codec, v, k);
    ValueSkipped(codec, v, k);
  }

  lemma InsertPointPastScalar(codec: Codec, v: Value, t: Trivia, k: string, last: Option<string>)
    requires ValueOk(codec, v) && v.Scalar? && TriviaOk(t) && Swallowed(t) && Delimited(k)
    ensures InsertPoint(codec, Emit(v, EmitTrivia(t, k)), last)
      == InsertPoint(codec, AfterScan(t, k), Some(AfterScan(t, k)))
  {
    ValueStart(codec, v, EmitTrivia(t, k));
    ScalarSwallows(codec, v, t, k);
  }

  /** From a colon on, the scan reads a scalar through what is glued to it. */
  lemma InsertPointPastColon(codec: Codec, chunk: string, t: Trivia, k: string, last: Option<string>)
    requires NoStops(chunk) && TriviaOk(t) && Swallowed(t) && (RunsThrough(t) ==> Delimited(k))
    ensures InsertPoint(codec, [':'] + (chunk + EmitTrivia(t, k)), last)
      == InsertPoint(codec, AfterScan(t, k), Some(AfterScan(t, k)))
  {
    ColonScanned(codec, chunk, EmitTrivia(t, k), last);
    TriviaScanned(t, k);
  }

  lemma ColonScanned(codec: Codec, chunk: string, x: string, last: Option<string>)
    requires NoStops(chunk)
    ensures InsertPoint(codec, [':'] + (chunk + x), last) == InsertPoint(codec, ScalarTail(x), Some(ScalarTail(x)))
  {
    var s := [':'] + (chunk + x);
    assert Ignorable(s) == s;
    ScalarSkipped([':'], chunk + x);
    ScalarSkipped(chunk, x);
    assert SkipValue(codec, s) == Some((s, ScalarTail(x)));
  }

  /** What is chewed leaves the scan within a scalar that goes on with what follows. */
  lemma {:induction false} ChewedOn(codec: Codec, s: string, within: bool, x: string, last: Option<string>)
    requires Chewed(s, within)
    ensures var end := InsertPoint(codec, ScalarTail(x), Some(ScalarTail(x)));
      if within then InsertPoint(codec, ScalarTail(s + x), Some(ScalarTail(s + x))) == end
      else InsertPoint(codec, s + x, last) == end
    decreases |s|, within
  {
    if s == "" {
      assert s + x == x;
    } else {
      assert (s + x)[1..] == s[1..] + x && (s + x)[0] == s[0];
      if within {
        if IsStop(s[0]) {
          ChewedOn(codec, s, false, x, Some(s + x));
        } else {
          ChewedOn(codec, s[1..], true, x, None);
        }
      } else if IsBlank(s[0]) || s[0] == ',' {
        ChewedOn(codec, s[1..], false, x, last);
      } else {
        ScalarStarts(codec, s, x);
        ChewedOn(codec, s[1..], true, x, None);
      }
    }
  }

  lemma ScalarStarts(codec: Codec, s: string, x: string)
    requires StartsScalar(s)
    ensures Ignorable(s + x) == s + x && SkipValue(codec, s + x) == Some((s + x, ScalarTail(s[1..] + x)))
  {
    assert (s + x)[1..] == s[1..] + x && (s + x)[0] == s[0];
    assert s[0] == '/' ==> (s + x)[1] == s[1];
  }

  /** When the trivia after the colon halts the scan, the value is read by itself. */
  lemma InsertPointPastHaltedColon(codec: Codec, ms: Members, k: string, last: Option<string>)
    requires ms.Member? && MembersOk(codec, ms) && Delimited(k)
    requires Swallowed(ms.gap) && !RunsThrough(ms.gap) && (ms.value.Scalar? ==> Swallowed(ms.post))
    ensures InsertPoint(codec, [':'] + EmitTrivia(ms.gap, Emit(ms.value, AfterValue(ms, k))), last)
      == InsertPoint(codec, ScanLeft(ms, k), Some(ScanLeft(ms, k)))
  {
    var x := Emit(ms.value, AfterValue(ms, k));
    var halt := AfterScan(ms.gap, x);
    NoChunk(EmitTrivia(ms.gap, x));
    InsertPointPastColon(codec, "", ms.gap, x, last);
    TriviaScanned(ms.gap, x);
    ValueStart(codec, ms.value, AfterValue(ms, k));
    assert InsertPoint(codec, halt, Some(halt)) == InsertPoint(codec, x, Some(halt));
    if ms.value.Scalar? {
      InsertPointPastScalar(codec, ms.value, ms.post, AfterMember(ms, k), Some(halt));
    } else {
      InsertPointPastValue(codec, End, ms.value, AfterValue(ms, k), Some(halt));
    }
  }

  lemma NoChunk(s: string)
    ensures "" + s == s
  {
  }

  lemma {:induction false} RunsThroughNoStops(t: Trivia)
    requires RunsThrough(t)
    ensures NoStops(EmitTrivia(t, ""))
  {
    if t.BlockComment? {
      RunsThroughNoStops(t.rest);
    }
  }

  /** Otherwise the colon and the trivia are read as one scalar with the value, as far as it goes. */
  lemma TightMember(codec: Codec, ms: Members, k: string, last: Option<string>)
    requires ms.Member? && MembersOk(codec, ms) && RunsThrough(ms.gap)
    ensures var rest := ScalarTail(Emit(ms.value, AfterValue(ms, k)));
      InsertPoint(codec, EmitMembers(ms, k), last) == InsertPoint(codec, rest, Some(rest))
  {
    var value := Emit(ms.value, AfterValue(ms, k));
    var x := [':'] + EmitTrivia(ms.gap, value);
    var atColon := EmitTrivia(ms.mid, x);
    InsertPointPastValue(codec, ms.pre, Str(ms.key), atColon, last);
    InsertPointIgnores(codec, ms.mid, x, Some(atColon));
    RunsThroughNoStops(ms.gap);
    EmitTriviaAppend(ms.gap, value);
    ColonScanned(codec, EmitTrivia(ms.gap, ""), value, Some(atColon));
  }

  /** If the value is chewed the scan ends with what is glued to it. */
  lemma InsertPointPastBareMember(codec: Codec, ms: Members, k: string, last: Option<string>)
    requires ms.Member? && MembersOk(codec, ms) && Delimited(k)
    requires RunsThrough(ms.gap) && Chewed(Text(ms.value), true) && Swallowed(ms.post)
    ensures InsertPoint(codec, EmitMembers(ms, k), last) == InsertPoint(codec, ScanLeft(ms, k), Some(ScanLeft(ms, k)))
  {
    var after := AfterValue(ms, k);
    TightMember(codec, ms, k, last);
    EmitAppend(ms.value, after);
    ChewedOn(codec, Text(ms.value), true, after, None);
    TriviaScanned(ms.post, AfterMember(ms, k));
  }

  /** A member the scan keeps in step with is passed over. */
  lemma InsertPointPastMember(codec: Codec, ms: Members, k: string, last: Option<string>)
    requires ms.Member? && MembersOk(codec, ms) && InStep(ms) && Delimited(k)
    ensures InsertPoint(codec, EmitMembers(ms, k), last) == InsertPoint(codec, ScanLeft(ms, k), Some(ScanLeft(ms, k)))
  {
    if RunsThrough(ms.gap) {
      InsertPointPastBareMember(codec, ms, k, last);
    } else {
      var x := [':'] + EmitTrivia(ms.gap, Emit(ms.value, AfterValue(ms, k)));
      var atColon := EmitTrivia(ms.mid, x);
      InsertPointPastValue(codec, ms.pre, Str(ms.key), atColon, last);
      InsertPointIgnores(codec, ms.mid, x, Some(atColon));
      InsertPointPastHaltedColon(codec, ms, k, Some(atColon));
    }
  }

  lemma ScanLeftIgnored(codec: Codec, ms: Members, k: string, last: Option<string>)
    requires ms.Member? && MembersOk(codec, ms) && InStep(ms)
    ensures InsertPoint(codec, ScanLeft(ms, k), last) == InsertPoint(codec, AfterMember(ms, k), last)
  {
    IgnorableSkipsTrivia(ms.post, AfterMember(ms, k));
    if Bare(ms) {
      TriviaScanned(ms.post, AfterMember(ms, k));
    }
  }

  /** The scan stops where it leaves the last value. */
  lemma {:induction false} InsertPointFinds(codec: Codec, ms: Members, k: string, last: Option<string>)
    requires ms.Member? && MembersOk(codec, ms) && InStep(ms) && k != "" && k[0] == '}'
    ensures InsertPoint(codec, EmitMembers(ms, k), last) == Some((ScanEnd(ms, k), false))
    decreases ms
  {
    var left := ScanLeft(ms, k);
    InsertPointPastMember(codec, ms, k, last);
    ScanLeftIgnored(codec, ms, k, Some(left));
    if ms.rest.NoMembers? {
      assert Ignorable(k) == k;
    } else {
      var comma := [','] + EmitMembers(ms.rest, k);
      assert Ignorable(comma) == comma && comma[1..] == EmitMembers(ms.rest, k);
      InsertPointFinds(codec, ms.rest, k, Some(left));
    }
  }

  /** A text without stop bytes is chewed. */
  lemma {:induction false} NoStopsChewed(s: string)
    requires NoStops(s)
    ensures Chewed(s, true)
  {
    if s != "" {
      NoStopsChewed(s[1..]);
    }
  }

  /** When a colon is directly followed by an object whose inside opens with a blank or a line break, as in the usual
      layout but for the blank after the colon, the scan goes on among the members of that object, and the
      insertion point is inside it. */
  lemma TightBlockMisplacesInsertion(codec: Codec, ms: Members, k: string)
    requires ms.Member? && MembersOk(codec, ms)
    requires RunsThrough(ms.gap) && ms.value.Obj? && ms.value.members.Member? && InStep(ms.value.members)
    requires Swallowed(ms.value.members.pre) && !RunsThrough(ms.value.members.pre)
    ensures InsertPoint(codec, EmitMembers(ms, k), None)
      == Some((ScanEnd(ms.value.members, ['}'] + AfterValue(ms, k)), false))
  {
    var inner, close := ms.value.members, ['}'] + AfterValue(ms, k);
    var x := EmitMembers(inner, close);
    assert MembersOk(codec, inner);
    TightMember(codec, ms, k, None);
    ScalarSkipped(['{'], x);
    HaltedMembers(codec, inner, close, Some(ScalarTail(x)));
    InsertPointFinds(codec, inner, close, Some(ScalarTail(x)));
  }

  lemma HaltedMembers(codec: Codec, ms: Members, k: string, last: Option<string>)
    requires ms.Member? && TriviaOk(ms.pre) && Swallowed(ms.pre) && !RunsThrough(ms.pre)
    ensures InsertPoint(codec, ScalarTail(EmitMembers(ms, k)), last) == InsertPoint(codec, EmitMembers(ms, k), last)
  {
    var atKey := ms.key + EmitTrivia(ms.mid, [':'] + EmitTrivia(ms.gap, Emit(ms.value, AfterValue(ms, k))));
    TriviaScanned(ms.pre, atKey);
    IgnorableSkipsTrivia(ms.pre, atKey);
  }

  /** When a colon is directly followed by an array whose text has no stop byte but the closing bracket, the scan
      fails there, so the edit is refused and nothing is written. */
  lemma TightArrayStopsInsertion(codec: Codec, ms: Members, inner: string, k: string)
    requires ms.Member? && MembersOk(codec, ms)
    requires RunsThrough(ms.gap) && ms.value.Arr? && Text(ms.value) == ['['] + inner + [']'] && NoStops(inner)
    ensures InsertPoint(codec, EmitMembers(ms, k), None) == None
  {
    var chunk, close := ['['] + inner, [']'] + AfterValue(ms, k);
    EmitAppend(ms.value, AfterValue(ms, k));
    assert Emit(ms.value, AfterValue(ms, k)) == chunk + close;
    TightMember(codec, ms, k, None);
    ScalarSkipped(chunk, close);
    assert Ignorable(close) == close && ScalarTail(close) == close;
  }

  /** Without the blank the scan goes wrong: when a colon is directly followed by an object whose text has
      no stop byte, as in `{"x":{"a":1}}`, the insertion point is inside that object, whatever else the
      document holds. */
  lemma TightObjectMisplacesInsertion(codec: Codec, ms: Members, inner: string, k: string)
    requires ms.Member? && MembersOk(codec, ms)
    requires RunsThrough(ms.gap) && ms.value.Obj? && Text(ms.value) == ['{'] + inner + ['}'] && NoStops(inner)
    ensures InsertPoint(codec, EmitMembers(ms, k), None) == Some((['}'] + AfterValue(ms, k), false))
  {
    var chunk, close := ['{'] + inner, ['}'] + AfterValue(ms, k);
    EmitAppend(ms.value, AfterValue(ms, k));
    assert Emit(ms.value, AfterValue(ms, k)) == chunk + close;
    TightMember(codec, ms, k, None);
    ScalarSkipped(chunk, close);
    assert Ignorable(close) == close && ScalarTail(close) == close;
  }

  /** When the scan ends in a line comment glued to the last value, the comma is written into the comment: after
      the last value the new key comes next, with nothing in between that separates them. */
  lemma LineCommentSwallowsComma(post: Trivia, k: string, indent: string, member: string)
    requires TriviaOk(post) && Leave(post).LineComment?
    requires AllBlank(indent) && member != "" && member[0] == '"'
    ensures var s := EmitTrivia(post, k); var at := AfterScan(post, k);
      && |at| <= |s|
      && Ignorable(s[..|s| - |at|] + ("," + "\n" + indent + member + at)) == member + at
  {
    var at := AfterScan(post, k);
    RunInComment(Leave(post).body, indent, member, at);
    RunBreaksComment(post, k, indent, "," + "\n" + indent + member + at, member + at);
    assert Ignorable(member + at) == member + at;
  }

  lemma RunBreaksComment(post: Trivia, k: string, indent: string, run: string, x: string)
    requires TriviaOk(post) && Leave(post).LineComment? && AllBlank(indent)
    requires Leave(post).body + run == (Leave(post).body + [',']) + (['\n'] + (indent + x))
    ensures var s := EmitTrivia(post, k); var at := AfterScan(post, k);
      |at| <= |s| && Ignorable(s[..|s| - |at|] + run) == Ignorable(x)
  {
    SplitTrivia(post, k);
    LineExchanged(Soaked(post), Leave(post).body, AfterScan(post, k), run);
    BrokenLineIgnored(Soaked(post), Leave(post).body, indent, x);
  }

  lemma BrokenLineIgnored(front: Trivia, body: string, indent: string, x: string)
    requires TriviaOk(front) && '\n' !in body && AllBlank(indent)
    ensures Ignorable(EmitTrivia(front, ['/', '/'] + ((body + [',']) + (['\n'] + (indent + x))))) == Ignorable(x)
  {
    var line := LineComment(body + [','], BlankTrivia(indent));
    BlankTriviaEmits(indent, x);
    assert TriviaOk(line) && EmitTrivia(line, x) == ['/', '/'] + ((body + [',']) + (['\n'] + (indent + x)));
    IgnorableSkipsTrivia(front, EmitTrivia(line, x));
    IgnorableSkipsTrivia(line, x);
  }

  lemma LineExchanged(front: Trivia, body: string, at: string, run: string)
    ensures Exchanged(EmitTrivia(front, ['/', '/'] + (body + at)),
      EmitTrivia(front, ['/', '/'] + (body + run)), at, run)
  {
    var x, x' := ['/', '/'] + (body + at), ['/', '/'] + (body + run);
    ExchangedAll(at, run);
    ExchangedAfter(body, at, run, at, run);
    ExchangedAfter(['/', '/'], body + at, body + run, at, run);
    EmitTriviaAppend(front, x);
    EmitTriviaAppend(front, x');
    ExchangedAfter(EmitTrivia(front, ""), x, x', at, run);
  }

  lemma RunInComment(body: string, indent: string, member: string, at: string)
    ensures body + ("," + "\n" + indent + member + at) == (body + [',']) + (['\n'] + (indent + (member + at)))
  {
  }

  // ----- appending a member to the tree -----

  function Appended(ms: Members, pre: Trivia, key: string, value: Value): (r: Members)
    requires ms.Member?
    ensures r.Member?
  {
    if ms.rest.NoMembers?
    then ms.(post := Kept(ms), rest := Member(pre, key, End, COLON_GAP, value, Left(ms), NoMembers))
    else ms.(rest := Appended(ms.rest, pre, key, value))
  }

  function Join(t: Trivia, u: Trivia): Trivia {
    match t
    case End => u
    case Blank(c, rest) => Blank(c, Join(rest, u))
    case LineComment(body, rest) => LineComment(body, Join(rest, u))
    case BlockComment(body, rest) => BlockComment(body, Join(rest, u))
  }

  lemma {:induction false} JoinEmits(t: Trivia, u: Trivia, k: string)
    requires TriviaOk(t) && TriviaOk(u)
    ensures EmitTrivia(Join(t, u), k) == EmitTrivia(t, EmitTrivia(u, k)) && TriviaOk(Join(t, u))
  {
    if !t.End? {
      JoinEmits(t.rest, u, k);
    }
  }

  /** The object with a member added at the end. */
  function Extended(v: Value, pre: Trivia, key: string, value: Value): (r: Value)
    requires v.Obj?
    ensures r.Obj?
  {
    if v.members.NoMembers?
    then Obj(End, Member(Join(v.gap, pre), key, End, COLON_GAP, value, End, NoMembers))
    else Obj(v.gap, Appended(v.members, pre, key, value))
  }

  /** The new value can be read: it is no scalar, or the trivia it moves in front of does not start with a comment. */
  predicate Roomy(v: Value, value: Value)
    requires v.Obj?
  {
    v.members.Member? && value.Scalar? ==> !Glued(LastLeft(v.members))
  }

  lemma {:induction false} AppendedOk(codec: Codec, ms: Members, pre: Trivia, key: string, value: Value)
    requires ms.Member? && MembersOk(codec, ms) && TriviaOk(pre) && IsLiteral(codec, key) && ValueOk(codec, value)
    ensures MembersOk(codec, Appended(ms, pre, key, value))
    decreases ms
  {
    assert TriviaOk(COLON_GAP);
    SplitTrivia(ms.post, "");
    if ms.rest.Member? {
      AppendedOk(codec, ms.rest, pre, key, value);
    }
  }

  /** Other lookups can pass over the new value: it is no scalar, or no comment it moves in front of and is
      glued to holds a stop byte. */
  predicate Permeable(v: Value, value: Value)
    requires v.Obj?
  {
    v.members.Member? && value.Scalar? ==> Swallowed(LastLeft(v.members))
  }

  lemma {:induction false} AppendedFinds(codec: Codec, ms: Members, pre: Trivia, key: string, value: Value,
                                         other: string)
    requires ms.Member?
    requires CrispBefore(codec, ms, other)
    requires codec.decode(key).Some?
    requires Found(codec, ms, codec.decode(key).value).NoMembers?
    requires other == codec.decode(key).value || Found(codec, ms, other).Member?
      || (value.Scalar? ==> Swallowed(LastLeft(ms)))
    ensures var r := Appended(ms, pre, key, value); var f := Found(codec, ms, other); var g := Found(codec, r, other);
      && CrispBefore(codec, r, other)
      && (f.Member? ==> g.Member? && g.value == f.value && (Glued(g.post) ==> Glued(f.post)))
      && (f.NoMembers? && other != codec.decode(key).value ==> g.NoMembers?)
      && (other == codec.decode(key).value ==> g.Member? && g.value == value && g.post == LastLeft(ms))
    decreases ms
  {
    if ms.rest.Member? && Name(codec, ms) != Some(other) {
      AppendedFinds(codec, ms.rest, pre, key, value, other);
    } else if ms.rest.NoMembers? {
      SplitTrivia(ms.post, "");
      var m := Member(pre, key, End, COLON_GAP, value, Left(ms), NoMembers);
      assert Name(codec, m) == codec.decode(key);
      assert Found(codec, m.rest, other).NoMembers? && CrispBefore(codec, m.rest, other);
    }
  }

  /** A lookup reads a scalar with the comments kept after it as it did before. */
  lemma {:induction false} SoakedReads(t: Trivia)
    requires Swallowed(t) && !Leave(t).LineComment? && TriviaOk(t)
    ensures ReadGlue(Soaked(t)) == ReadGlue(t)
  {
    var soaked := EmitTrivia(Soaked(t), "");
    SplitTrivia(t, "");
    SoakedRuns(t);
    RunsThroughNoStops(Soaked(t));
    EmitTriviaAppend(Soaked(t), EmitTrivia(Leave(t), ""));
    ScalarSkipped(soaked, EmitTrivia(Leave(t), ""));
    ScalarSkipped(soaked, "");
    assert soaked + "" == soaked;
  }

  lemma {:induction false} SoakedRuns(t: Trivia)
    requires Swallowed(t)
    ensures RunsThrough(Soaked(t))
  {
    if t.BlockComment? {
      SoakedRuns(t.rest);
    }
  }

  lemma {:induction false} AppendedReads(codec: Codec, ms: Members, pre: Trivia, key: string, value: Value,
                                         other: string)
    requires ms.Member? && MembersOk(codec, ms) && InStep(ms) && SafeEnd(ms) && Found(codec, ms, other).Member?
    ensures var f := Found(codec, ms, other); var g := Found(codec, Appended(ms, pre, key, value), other);
      g.Member? && g.value == f.value && ReadText(f.value, g.post) == ReadText(f.value, f.post)
    decreases ms
  {
    if ms.rest.Member? {
      if Name(codec, ms) != Some(other) {
        AppendedReads(codec, ms.rest, pre, key, value, other);
      }
    } else if ms.value.Scalar? {
      SoakedReads(ms.post);
    }
  }

  /** A new scalar put in front of a comment with a stop byte uncovers what the comment holds: a key that was
      not there is read out of it. */
  lemma {:induction false} AppendedUncovers(codec: Codec, ms: Members, pre: Trivia, key: string, value: Value,
                                            other: string, k: string, left: Trivia, a: string, inner: Members,
                                            c: string, after: string)
    requires ms.Member? && MembersOk(codec, ms) && TriviaOk(pre) && IsLiteral(codec, key) && ValueOk(codec, value)
    requires CrispBefore(codec, ms, other) && Found(codec, ms, other).NoMembers? && Delimited(k)
    requires value.Scalar? && codec.decode(key) != Some(other)
    requires left == LastLeft(ms) && left.BlockComment?
    requires left.body == a + ([','] + EmitMembers(inner, c)) && NoStops(a)
    requires inner.Member? && MembersOk(codec, inner) && Name(codec, inner) == Some(other)
    requires inner.value.Scalar? ==> inner.post.Blank?
    requires after == AfterValue(inner, c + (['*', '/'] + EmitTrivia(left.rest, k)))
    ensures KeySpan(codec, EmitMembers(Appended(ms, pre, key, value), k), other)
      == Some((Text(inner.value) + after, after))
    decreases ms
  {
    var r := Appended(ms, pre, key, value);
    AppendedOk(codec, ms, pre, key, value);
    KeptSwallowed(ms);
    KeySpanPasses(codec, r, k, other);
    if ms.rest.Member? {
      AppendedUncovers(codec, ms.rest, pre, key, value, other, k, left, a, inner, c, after);
    } else {
      CommentIsRead(codec, r.rest, k, other, a, inner, c);
    }
  }

  lemma KeptSwallowed(ms: Members)
    requires ms.Member?
    ensures Swallowed(ms.post) ==> Swallowed(Kept(ms))
  {
    SplitTrivia(ms.post, "");
  }

  lemma {:induction false} AppendedBytes(ms: Members, pre: Trivia, key: string, value: Value, k: string)
    requires ms.Member?
    ensures Exchanged(EmitMembers(ms, k), EmitMembers(Appended(ms, pre, key, value), k), AfterLast(ms, k),
      [','] + EmitTrivia(pre, key + ": " + Emit(value, AfterLast(ms, k))))
    decreases ms
  {
    var r := Appended(ms, pre, key, value);
    var a, a' := AfterLast(ms, k), [','] + EmitTrivia(pre, key + ": " + Emit(value, AfterLast(ms, k)));
    if ms.rest.NoMembers? {
      MemberText(r.rest, k);
      assert AfterValue(r.rest, k) == a;
      LastBytes(ms, r, k, a, a');
    } else {
      AppendedBytes(ms.rest, pre, key, value, k);
      MemberPrefix(ms, k);
      MemberPrefix(r, k);
      ExchangedAfter(WholeMember(ms), EmitMembers(ms.rest, k), EmitMembers(r.rest, k), a, a');
    }
  }

  /** The value of the last member stays, with what is kept after it. */
  lemma LastBytes(ms: Members, r: Members, k: string, a: string, a': string)
    requires ms.Member? && r.Member? && ms.rest.NoMembers?
    requires r == ms.(post := Kept(ms), rest := r.rest)
    requires a == EmitTrivia(Left(ms), k) && a' == AfterMember(r, k)
    ensures Exchanged(EmitMembers(ms, k), EmitMembers(r, k), a, a')
  {
    var x, x' := EmitTrivia(Kept(ms), a), EmitTrivia(Kept(ms), a');
    KeptLeft(ms, k);
    ExchangedAll(a, a');
    EmitTriviaAppend(Kept(ms), a);
    EmitTriviaAppend(Kept(ms), a');
    ExchangedAfter(EmitTrivia(Kept(ms), ""), a, a', a, a');
    EmitAppend(ms.value, x);
    EmitAppend(ms.value, x');
    ExchangedAfter(Text(ms.value), x, x', a, a');
    HeadPrefix(ms, k);
    HeadPrefix(r, k);
    ExchangedAfter(Head(ms), Emit(ms.value, x), Emit(ms.value, x'), a, a');
  }

  // ----- the extended object -----

  /** Where the new member goes, and what comes there. */
  function InsertSuffix(v: Value, k: string): string
    requires v.Obj?
  {
    if v.members.NoMembers? then ['}'] + k else AfterLast(v.members, ['}'] + k)
  }

  lemma EmptyExtendedBytes(gap: Trivia, pre: Trivia, key: string, value: Value, k: string)
    requires TriviaOk(gap) && TriviaOk(pre)
    ensures var v := Obj(gap, NoMembers); var at := ['}'] + k;
      Exchanged(Emit(v, k), Emit(Extended(v, pre, key, value), k), at, EmitTrivia(pre, key + ": " + Emit(value, at)))
  {
    var at := ['}'] + k;
    var ins := EmitTrivia(pre, key + ": " + Emit(value, at));
    var m := Member(Join(gap, pre), key, End, COLON_GAP, value, End, NoMembers);
    MemberText(m, at);
    JoinEmits(gap, pre, key + ": " + Emit(value, at));
    EmitTriviaAppend(gap, at);
    EmitTriviaAppend(gap, ins);
    ExchangedAll(at, ins);
    ExchangedAfter(EmitTrivia(gap, ""), at, ins, at, ins);
    ExchangedAfter(['{'], EmitTrivia(gap, at), EmitTrivia(gap, ins), at, ins);
  }

  lemma InsertedText(pre: Trivia, key: string, value: Value, at: string)
    ensures EmitTrivia(pre, key + ": " + Emit(value, at)) == EmitTrivia(pre, key + ": " + Text(value)) + at
  {
    EmitAppend(value, at);
    assert key + ": " + Emit(value, at) == (key + ": " + Text(value)) + at;
    EmitTriviaAppend(pre, key + ": " + Text(value));
    EmitTriviaAppend(pre, key + ": " + Emit(value, at));
  }

  /** What goes between the last member and a new one. */
  function Separator(ms: Members): string {
    if ms.NoMembers? then "" else ","
  }

  /** Extending an object inserts the new member's text and changes no byte. */
  lemma ExtendedBytes(v: Value, pre: Trivia, key: string, value: Value, k: string)
    requires v.Obj? && TriviaOk(v.gap) && TriviaOk(pre)
    ensures var at := InsertSuffix(v, k); var text := EmitTrivia(pre, key + ": " + Text(value));
      Exchanged(Emit(v, k), Emit(Extended(v, pre, key, value), k), at,
        Separator(v.members) + text + at)
  {
    var at := InsertSuffix(v, k);
    var text := EmitTrivia(pre, key + ": " + Text(value));
    if v.members.NoMembers? {
      InsertedText(pre, key, value, at);
      EmptyExtendedBytes(v.gap, pre, key, value, k);
      NothingRegroup(text, at);
    } else {
      FullExtendedBytes(v.gap, v.members, pre, key, value, k);
    }
  }

  lemma NothingRegroup(text: string, at: string)
    ensures "" + text + at == text + at
  {
  }

  lemma CommaRegroup(text: string, at: string)
    ensures [','] + (text + at) == "," + text + at
  {
  }

  lemma FullExtendedBytes(gap: Trivia, ms: Members, pre: Trivia, key: string, value: Value, k: string)
    requires ms.Member?
    ensures var v := Obj(gap, ms); var at := AfterLast(ms, ['}'] + k);
      Exchanged(Emit(v, k), Emit(Extended(v, pre, key, value), k), at,
        "," + EmitTrivia(pre, key + ": " + Text(value)) + at)
  {
    var k' := ['}'] + k;
    MembersExtended(ms, pre, key, value, k');
    BodyBytes(gap, ms, Appended(ms, pre, key, value), k', AfterLast(ms, k'),
      "," + EmitTrivia(pre, key + ": " + Text(value)) + AfterLast(ms, k'));
  }

  lemma MembersExtended(ms: Members, pre: Trivia, key: string, value: Value, k: string)
    requires ms.Member?
    ensures var at := AfterLast(ms, k);
      Exchanged(EmitMembers(ms, k), EmitMembers(Appended(ms, pre, key, value), k), at,
        "," + EmitTrivia(pre, key + ": " + Text(value)) + at)
  {
    InsertedText(pre, key, value, AfterLast(ms, k));
    AppendedBytes(ms, pre, key, value, k);
    CommaRegroup(EmitTrivia(pre, key + ": " + Text(value)), AfterLast(ms, k));
  }

  lemma ExtendedOk(codec: Codec, v: Value, pre: Trivia, key: string, value: Value)
    requires v.Obj? && ValueOk(codec, v) && TriviaOk(pre) && IsLiteral(codec, key) && ValueOk(codec, value)
    ensures ValueOk(codec, Extended(v, pre, key, value))
  {
    assert TriviaOk(COLON_GAP);
    if v.members.NoMembers? {
      JoinEmits(v.gap, pre, "");
    } else {
      AppendedOk(codec, v.members, pre, key, value);
    }
  }

  lemma ExtendedFinds(codec: Codec, v: Value, pre: Trivia, key: string, value: Value, other: string)
    requires v.Obj? && CrispBefore(codec, v.members, other)
    requires codec.decode(key).Some? && Found(codec, v.members, codec.decode(key).value).NoMembers?
    requires other == codec.decode(key).value || Found(codec, v.members, other).Member? || Permeable(v, value)
    ensures var r := Extended(v, pre, key, value).members;
      var f := Found(codec, v.members, other); var g := Found(codec, r, other);
      && CrispBefore(codec, r, other)
      && (f.Member? ==> g.Member? && g.value == f.value && (Glued(g.post) ==> Glued(f.post)))
      && (f.NoMembers? && other != codec.decode(key).value ==> g.NoMembers?)
      && (other == codec.decode(key).value ==>
            g.Member? && g.value == value && ((value.Scalar? ==> !Glued(g.post)) <==> Roomy(v, value)))
  {
    if v.members.Member? {
      AppendedFinds(codec, v.members, pre, key, value, other);
    } else {
      var m := Member(Join(v.gap, pre), key, End, COLON_GAP, value, End, NoMembers);
      assert Name(codec, m) == codec.decode(key);
      assert Found(codec, m.rest, other).NoMembers? && CrispBefore(codec, m.rest, other);
    }
  }

  // ----- indentation -----

  /** `n` units of indentation are the unit, `n` times. */
  lemma {:induction false} RepeatIs(unit: string, n: nat)
    ensures |Repeat(unit, n)| == n * |unit|
    ensures Repeat(unit, 0) == "" && Repeat(unit, 1) == unit && Repeat(unit, n + 1) == unit + Repeat(unit, n)
  {
    assert unit + "" == unit;
    if n > 0 {
      RepeatIs(unit, n - 1);
      assert n * |unit| == |unit| + (n - 1) * |unit|;
    }
  }
}
