/** The config loader's comment stripper, against a forward lexer. A character stands for one byte. */
module StripComments {

  // ----- what the loader does -----

  /** What is left after a line comment: the line break stays. */
  function LineRest(s: string): (r: string)
    ensures |r| <= |s|
  {
    if s == "" || s[0] == '\n' || s[0] == '\r' then s else LineRest(s[1..])
  }

  /** What is left after the first closing mark, or nothing. */
  function BlockRest(s: string): (r: string)
    ensures |r| <= |s|
  {
    if s == "" then ""
    else if s[0] == '*' && |s| > 1 && s[1] == '/' then s[2..]
    else BlockRest(s[1..])
  }

  predicate StartsLine(s: string) {
    |s| > 1 && s[0] == '/' && s[1] == '/'
  }

  predicate StartsBlock(s: string) {
    |s| > 1 && s[0] == '/' && s[1] == '*'
  }

  /** What is left after the comment that starts `s`. */
  function CommentRest(s: string): (r: string)
    requires StartsLine(s) || StartsBlock(s)
    ensures |r| < |s|
  {
    if StartsLine(s) then
      assert LineRest(s) == LineRest(s[1..]);
      LineRest(s)
    else
      BlockRest(s)
  }

  /** The length of the run of backslashes that ends just before `i`. */
  function BackslashRun(data: string, i: nat): nat
    requires i <= |data|
  {
    if i == 0 || data[i - 1] != '\\' then 0 else 1 + BackslashRun(data, i - 1)
  }

  /** The loader's flag after the byte at `i`: a quote toggles string mode when an even run of backslashes
      precedes it. */
  function NextFlag(data: string, i: nat, inString: bool): bool
    requires i < |data|
  {
    if data[i] == '"' && BackslashRun(data, i) % 2 == 0 then !inString else inString
  }

  /** The loader's loop from position `i` on. */
  function Strip(data: string, i: nat, inString: bool): (r: string)
    requires i <= |data|
    ensures |r| <= |data| - i
    decreases |data| - i
  {
    if i == |data| then ""
    else if !inString && (StartsLine(data[i..]) || StartsBlock(data[i..])) then
      Strip(data, |data| - |CommentRest(data[i..])|, inString)
    else
      [data[i]] + Strip(data, i + 1, NextFlag(data, i, inString))
  }

  function Stripped(data: string): string {
    Strip(data, 0, false)
  }

  method SkipLineComment(data: string, start: nat) returns (i: nat)
    requires start <= |data|
    ensures start <= i <= |data| && data[i..] == LineRest(data[start..])
  {
    i := start;
    while i < |data| && data[i] != '\n' && data[i] != '\r'
      invariant start <= i <= |data|
      invariant LineRest(data[i..]) == LineRest(data[start..])
    {
      assert data[i..][1..] == data[i + 1..];
      i := i + 1;
    }
  }

  method SkipBlockComment(data: string, start: nat) returns (i: nat)
    requires start <= |data|
    ensures start <= i <= |data| && data[i..] == BlockRest(data[start..])
  {
    i := start;
    while i < |data| && (data[i] != '*' || i + 1 >= |data| || data[i + 1] != '/')
      invariant start <= i <= |data|
      invariant BlockRest(data[i..]) == BlockRest(data[start..])
    {
      assert data[i..][1..] == data[i + 1..];
      i := i + 1;
    }
    if i + 1 < |data| {
      assert data[i..][2..] == data[i + 2..];
      i := i + 2;
    }
  }

  method IsUnescapedQuote(data: string, i: nat) returns (b: bool)
    requires i <= |data|
    ensures b <==> BackslashRun(data, i) % 2 == 0
  {
    var count := 0;
    var j: int := i - 1;
    while j >= 0 && data[j] == '\\'
      invariant -1 <= j < i
      invariant BackslashRun(data, i) == count + BackslashRun(data, j + 1)
    {
      count := count + 1;
      j := j - 1;
    }
    b := count % 2 == 0;
  }

  lemma Regroup(a: string, c: char, rest: string)
    ensures a + ([c] + rest) == a + [c] + rest
  {
  }

  /** Where the comment at `i` ends, if one starts there outside a string. */
  method SkipComment(data: string, i: nat, inString: bool) returns (skipped: bool, next: nat)
    requires i < |data|
    ensures skipped <==> !inString && (StartsLine(data[i..]) || StartsBlock(data[i..]))
    ensures skipped ==> i < next <= |data| && data[next..] == CommentRest(data[i..])
  {
    skipped, next := false, i;
    if !inString && i + 1 < |data| && data[i] == '/' {
      assert data[i..][0] == data[i] && data[i..][1] == data[i + 1];
      if data[i + 1] == '/' {
        next := SkipLineComment(data, i);
        skipped := true;
      } else if data[i + 1] == '*' {
        next := SkipBlockComment(data, i);
        skipped := true;
      }
    }
  }

  lemma StripSkips(data: string, i: nat, next: nat)
    requires i < next <= |data| && (StartsLine(data[i..]) || StartsBlock(data[i..]))
    requires data[next..] == CommentRest(data[i..])
    ensures Strip(data, i, false) == Strip(data, next, false)
  {
  }

  lemma StripKeeps(result: string, data: string, i: nat, inString: bool)
    requires i < |data| && !(!inString && (StartsLine(data[i..]) || StartsBlock(data[i..])))
    ensures result + Strip(data, i, inString)
      == (result + [data[i]]) + Strip(data, i + 1, NextFlag(data, i, inString))
  {
    Regroup(result, data[i], Strip(data, i + 1, NextFlag(data, i, inString)));
  }

  method StripCommentBytes(data: string) returns (result: string)
    ensures result == Stripped(data)
  {
    result := "";
    var i, inString := 0, false;
    ghost var answer := Strip(data, 0, false);
    while i < |data|
      invariant 0 <= i <= |data|
      invariant result + Strip(data, i, inString) == answer
      decreases |data| - i
    {
      var skipped, next := SkipComment(data, i, inString);
      if skipped {
        StripSkips(data, i, next);
        i := next;
        continue;
      }
      var toggles := false;
      if data[i] == '"' {
        toggles := IsUnescapedQuote(data, i);
      }
      StripKeeps(result, data, i, inString);
      result := result + [data[i]];
      if toggles {
        inString := !inString;
      }
      i := i + 1;
    }
  }

  // ----- the forward lexer -----

  /** Outside strings; inside one; inside one, just after an odd backslash. */
  datatype Mode = Normal | InString | Escaped

  function NextMode(mode: Mode, c: char): Mode {
    match mode
    case Normal => if c == '"' then InString else Normal
    case InString => if c == '\\' then Escaped else if c == '"' then Normal else InString
    case Escaped => InString
  }

  predicate AtComment(s: string, mode: Mode) {
    mode == Normal && (StartsLine(s) || StartsBlock(s))
  }

  datatype Segment = Kept(c: char, mode: Mode) | Comment(text: string)

  /** The bytes of a text, cut into comments and kept bytes, each with the mode it was read in. */
  function Lex(s: string, mode: Mode): seq<Segment>
    decreases |s|
  {
    if s == "" then []
    else if AtComment(s, mode) then
      var rest := CommentRest(s);
      [Comment(s[..|s| - |rest|])] + Lex(rest, Normal)
    else
      [Kept(s[0], mode)] + Lex(s[1..], NextMode(mode, s[0]))
  }

  function AllBytes(segments: seq<Segment>): string {
    if segments == [] then ""
    else (match segments[0] case Kept(c, _) => [c] case Comment(text) => text) + AllBytes(segments[1..])
  }

  function KeptBytes(segments: seq<Segment>): string {
    if segments == [] then ""
    else (match segments[0] case Kept(c, _) => [c] case Comment(_) => "") + KeptBytes(segments[1..])
  }

  lemma CutAtRest(s: string, rest: string)
    requires |rest| <= |s| && rest == s[|s| - |rest|..]
    ensures s == s[..|s| - |rest|] + rest
  {
  }

  /** The lexer loses nothing: its segments are the text. */
  lemma {:induction false} LexPartitions(s: string, mode: Mode)
    ensures AllBytes(Lex(s, mode)) == s
    decreases |s|
  {
    if s != "" {
      if AtComment(s, mode) {
        var rest := CommentRest(s);
        CommentRestIsSuffix(s);
        LexPartitions(rest, Normal);
        assert Lex(s, mode)[1..] == Lex(rest, Normal);
        CutAtRest(s, rest);
      } else {
        LexPartitions(s[1..], NextMode(mode, s[0]));
        assert Lex(s, mode)[1..] == Lex(s[1..], NextMode(mode, s[0]));
        assert s == [s[0]] + s[1..];
      }
    }
  }

  lemma {:induction false} LineRestIsSuffix(s: string)
    ensures LineRest(s) == s[|s| - |LineRest(s)|..]
    ensures LineRest(s) != "" ==> LineRest(s)[0] in {'\n', '\r'}
  {
    if s != "" && s[0] != '\n' && s[0] != '\r' {
      LineRestIsSuffix(s[1..]);
    }
  }

  lemma {:induction false} BlockRestIsSuffix(s: string)
    ensures BlockRest(s) == s[|s| - |BlockRest(s)|..]
    ensures BlockRest(s) != "" ==> |BlockRest(s)| + 2 <= |s| && s[|s| - |BlockRest(s)| - 1] == '/'
  {
    if s != "" && !(s[0] == '*' && |s| > 1 && s[1] == '/') {
      BlockRestIsSuffix(s[1..]);
    }
  }

  /** What follows a comment starts with a line break, or comes after a slash, or is nothing. */
  lemma CommentRestIsSuffix(s: string)
    requires StartsLine(s) || StartsBlock(s)
    ensures CommentRest(s) == s[|s| - |CommentRest(s)|..]
    ensures CommentRest(s) != "" ==>
      CommentRest(s)[0] in {'\n', '\r'} || s[|s| - |CommentRest(s)| - 1] == '/'
  {
    LineRestIsSuffix(s);
    BlockRestIsSuffix(s);
  }

  // ----- when the loader and the lexer agree -----

  /** The mode flag of the loader at every position it visits... */
  function CodeTrace(data: string, i: nat, inString: bool): seq<(nat, bool)>
    requires i <= |data|
    decreases |data| - i
  {
    if i == |data| then []
    else if !inString && (StartsLine(data[i..]) || StartsBlock(data[i..])) then
      [(i, inString)] + CodeTrace(data, |data| - |CommentRest(data[i..])|, inString)
    else
      [(i, inString)] + CodeTrace(data, i + 1, NextFlag(data, i, inString))
  }

  /** ...and of the lexer. */
  function LexTrace(data: string, i: nat, mode: Mode): seq<(nat, bool)>
    requires i <= |data|
    decreases |data| - i
  {
    if i == |data| then []
    else if AtComment(data[i..], mode) then
      [(i, false)] + LexTrace(data, |data| - |CommentRest(data[i..])|, Normal)
    else
      [(i, mode != Normal)] + LexTrace(data, i + 1, NextMode(mode, data[i]))
  }

  /** No string the lexer opens is opened right after an odd run of backslashes (unless it is the last byte). */
  predicate OpensClean(data: string, i: nat, mode: Mode)
    requires i <= |data|
    decreases |data| - i
  {
    if i == |data| then true
    else if AtComment(data[i..], mode) then OpensClean(data, |data| - |CommentRest(data[i..])|, Normal)
    else
      && (mode == Normal && data[i] == '"' && i + 1 < |data| ==> BackslashRun(data, i) % 2 == 0)
      && OpensClean(data, i + 1, NextMode(mode, data[i]))
  }

  /** Inside a string the backward count and the forward automaton agree. */
  predicate ParityAgrees(data: string, i: nat, mode: Mode)
    requires i <= |data|
  {
    (mode == InString ==> BackslashRun(data, i) % 2 == 0) && (mode == Escaped ==> BackslashRun(data, i) % 2 == 1)
  }

  lemma SameCons<T>(x: T, s: seq<T>, t: seq<T>)
    ensures [x] + s == [x] + t <==> s == t
  {
    assert ([x] + s)[1..] == s && ([x] + t)[1..] == t;
  }

  /** Traces that go on with different flags differ. */
  lemma FlagsShow(data: string, i: nat, flag: bool, mode: Mode)
    requires i < |data| && flag != (mode != Normal)
    ensures CodeTrace(data, i, flag) != LexTrace(data, i, mode)
  {
    assert CodeTrace(data, i, flag)[0] == (i, flag);
    assert LexTrace(data, i, mode)[0] == (i, mode != Normal);
  }

  /** One kept byte on: the flags stay alike unless a string is opened uncleanly. */
  lemma KeptAlike(data: string, i: nat, mode: Mode)
    requires i < |data| && ParityAgrees(data, i, mode)
    ensures var next := NextMode(mode, data[i]);
      && ParityAgrees(data, i + 1, next)
      && (NextFlag(data, i, mode != Normal) == (next != Normal)
          <==> (mode == Normal && data[i] == '"' ==> BackslashRun(data, i) % 2 == 0))
  {
    OddStep(data, i);
  }

  lemma OddStep(data: string, i: nat)
    requires i < |data|
    ensures data[i] != '\\' ==> BackslashRun(data, i + 1) == 0
    ensures data[i] == '\\' ==> (BackslashRun(data, i + 1) % 2 == 0 <==> BackslashRun(data, i) % 2 == 1)
  {
  }

  lemma {:induction false} TracesAgree(data: string, i: nat, mode: Mode)
    requires i <= |data| && ParityAgrees(data, i, mode)
    ensures CodeTrace(data, i, mode != Normal) == LexTrace(data, i, mode) <==> OpensClean(data, i, mode)
    decreases |data| - i
  {
    if i < |data| {
      if AtComment(data[i..], mode) {
        var j := |data| - |CommentRest(data[i..])|;
        TracesAgree(data, j, Normal);
        SameCons((i, false), CodeTrace(data, j, false), LexTrace(data, j, Normal));
      } else {
        KeptAlike(data, i, mode);
        TracesAgree(data, i + 1, NextMode(mode, data[i]));
        TracesAgreeKept(data, i, mode);
      }
    }
  }

  lemma TracesAgreeKept(data: string, i: nat, mode: Mode)
    requires i < |data| && !AtComment(data[i..], mode) && ParityAgrees(data, i, mode)
    requires var next := NextMode(mode, data[i]);
      CodeTrace(data, i + 1, next != Normal) == LexTrace(data, i + 1, next) <==> OpensClean(data, i + 1, next)
    ensures CodeTrace(data, i, mode != Normal) == LexTrace(data, i, mode) <==> OpensClean(data, i, mode)
  {
    KeptAlike(data, i, mode);
    var flag, next := NextFlag(data, i, mode != Normal), NextMode(mode, data[i]);
    SameCons((i, mode != Normal), CodeTrace(data, i + 1, flag), LexTrace(data, i + 1, next));
    if i + 1 < |data| && flag != (next != Normal) {
      FlagsShow(data, i + 1, flag, next);
    }
  }

  /** The loader follows the lexer through the whole text, if and only if no string is opened right
      after an odd run of backslashes. */
  lemma StripFollowsLexer(data: string)
    ensures CodeTrace(data, 0, false) == LexTrace(data, 0, Normal) <==> OpensClean(data, 0, Normal)
  {
    TracesAgree(data, 0, Normal);
  }

  lemma {:induction false} StripIsLexFrom(data: string, i: nat, mode: Mode)
    requires i <= |data| && ParityAgrees(data, i, mode) && OpensClean(data, i, mode)
    ensures Strip(data, i, mode != Normal) == KeptBytes(Lex(data[i..], mode))
    decreases |data| - i
  {
    if i < |data| {
      var s := data[i..];
      if AtComment(s, mode) {
        CommentRestIsSuffix(s);
        var j := |data| - |CommentRest(s)|;
        StripIsLexFrom(data, j, Normal);
        assert data[j..] == CommentRest(s);
        assert Lex(s, mode)[1..] == Lex(CommentRest(s), Normal);
      } else {
        StripIsLexFrom(data, i + 1, NextMode(mode, data[i]));
        assert s[1..] == data[i + 1..];
        assert Lex(s, mode)[1..] == Lex(s[1..], NextMode(mode, s[0]));
        if i + 1 == |data| {
          assert Strip(data, i + 1, true) == Strip(data, i + 1, false) == "";
        }
      }
    }
  }

  /** Then exactly the comments are removed and every other byte is copied. */
  lemma StripRemovesComments(data: string)
    requires OpensClean(data, 0, Normal)
    ensures Stripped(data) == KeptBytes(Lex(data, Normal)) && AllBytes(Lex(data, Normal)) == data
  {
    StripIsLexFrom(data, 0, Normal);
    assert data[0..] == data;
    LexPartitions(data, Normal);
  }

  // ----- inputs without backslashes outside strings and comments -----

  predicate NoLooseBackslash(s: string, mode: Mode) {
    forall i | 0 <= i < |Lex(s, mode)| :: Lex(s, mode)[i] != Kept('\\', Normal)
  }

  lemma NoLooseTail(s: string, mode: Mode)
    requires s != "" && NoLooseBackslash(s, mode)
    ensures AtComment(s, mode) ==> NoLooseBackslash(CommentRest(s), Normal)
    ensures !AtComment(s, mode) ==> NoLooseBackslash(s[1..], NextMode(mode, s[0])) && !(mode == Normal && s[0] == '\\')
  {
    var rest := if AtComment(s, mode) then Lex(CommentRest(s), Normal) else Lex(s[1..], NextMode(mode, s[0]));
    assert Lex(s, mode)[1..] == rest;
    forall i | 0 <= i < |rest| ensures rest[i] != Kept('\\', Normal) {
      assert rest[i] == Lex(s, mode)[i + 1];
    }
    if !AtComment(s, mode) {
      assert Lex(s, mode)[0] == Kept(s[0], mode);
    }
  }

  lemma {:induction false} NoLooseOpensClean(data: string, i: nat, mode: Mode)
    requires i <= |data| && NoLooseBackslash(data[i..], mode)
    requires mode == Normal && i < |data| && data[i] == '"' ==> i == 0 || data[i - 1] != '\\'
    ensures OpensClean(data, i, mode)
    decreases |data| - i
  {
    if i < |data| {
      var s := data[i..];
      NoLooseTail(s, mode);
      if AtComment(s, mode) {
        CommentRestIsSuffix(s);
        var j := |data| - |CommentRest(s)|;
        assert data[j..] == CommentRest(s);
        assert j < |data| ==> data[j] == CommentRest(s)[0] && data[j - 1] == s[|s| - |CommentRest(s)| - 1];
        NoLooseOpensClean(data, j, Normal);
      } else {
        assert s[1..] == data[i + 1..];
        NoLooseOpensClean(data, i + 1, NextMode(mode, data[i]));
      }
    }
  }

  // ----- stripping twice -----

  predicate StartsComment(s: string) {
    StartsLine(s) || StartsBlock(s)
  }

  /** One forward walk that carries the flags of a first and of a second pass and the run of backslashes that
      ends the kept bytes: the two passes come apart harmfully when a comment mark that the first keeps, in a
      string, is outside strings for the second. */
  predicate Steady(data: string, i: nat, first: bool, second: bool, run: nat)
    requires i <= |data|
    decreases |data| - i
  {
    if i == |data| then true
    else if !first && StartsComment(data[i..]) then
      Steady(data, |data| - |CommentRest(data[i..])|, first, second, run)
    else
      var quote := data[i] == '"';
      && !(!second && StartsComment(data[i..]))
      && Steady(data, i + 1,
           if quote && BackslashRun(data, i) % 2 == 0 then !first else first,
           if quote && run % 2 == 0 then !second else second,
           if data[i] == '\\' then run + 1 else 0)
  }

  lemma {:induction false} RunOfPrefix(p: string, r: string, n: nat)
    requires n <= |p|
    ensures BackslashRun(p + r, n) == BackslashRun(p, n)
  {
    if n > 0 && p[n - 1] == '\\' {
      RunOfPrefix(p, r, n - 1);
    }
  }

  /** A kept byte starts a comment mark in the output only where it does in the input: a slash kept outside a
      string is never followed by a kept slash or star. */
  lemma MarksStay(data: string, i: nat, inString: bool)
    requires i < |data| && !(!inString && StartsComment(data[i..]))
    ensures var r := Strip(data, i, inString);
      r != "" && r[0] == data[i] && (StartsComment(r) <==> StartsComment(data[i..]))
  {
    var s := data[i..];
    if data[i] == '/' && i + 1 < |data| {
      assert s[1] == data[i + 1];
      assert inString || !StartsComment(data[i + 1..]);
      assert Strip(data, i, inString) == [data[i]] + Strip(data, i + 1, inString);
      assert Strip(data, i + 1, inString)[0] == data[i + 1];
    }
  }

  /** At a kept byte the second pass either cuts a comment or keeps the byte. */
  lemma SecondStep(p: string, c: char, rest: string, second: bool)
    ensures var out := p + ([c] + rest); var r := [c] + rest;
      if !second && StartsComment(r) then Strip(out, |p|, second) != r
      else
        var next := if c == '"' && BackslashRun(p, |p|) % 2 == 0 then !second else second;
        Strip(out, |p|, second) == r <==> Strip((p + [c]) + rest, |p| + 1, next) == rest
  {
    var out, r := p + ([c] + rest), [c] + rest;
    assert out[|p|] == c && out[|p|..] == r;
    if second || !StartsComment(r) {
      RunOfPrefix(p, r, |p|);
      KeptStep(p, c, rest);
      var next := if c == '"' && BackslashRun(p, |p|) % 2 == 0 then !second else second;
      SameCons(c, Strip(out, |p| + 1, next), rest);
    }
  }

  /** The second pass over `p` and what the first keeps from `i` on. */
  lemma {:induction false} SecondPassKeeps(data: string, i: nat, first: bool, second: bool, p: string)
    requires i <= |data|
    ensures Strip(p + Strip(data, i, first), |p|, second) == Strip(data, i, first)
      <==> Steady(data, i, first, second, BackslashRun(p, |p|))
    decreases |data| - i
  {
    if i == |data| {
      assert Strip(p + "", |p|, second) == "";
    } else if !first && StartsComment(data[i..]) {
      SecondPassKeeps(data, |data| - |CommentRest(data[i..])|, first, second, p);
    } else {
      var c := data[i];
      var next := if c == '"' && BackslashRun(data, i) % 2 == 0 then !first else first;
      MarksStay(data, i, first);
      SecondStep(p, c, Strip(data, i + 1, next), second);
      KeptStep(p, c, "");
      var next' := if c == '"' && BackslashRun(p, |p|) % 2 == 0 then !second else second;
      SecondPassKeeps(data, i + 1, next, next', p + [c]);
    }
  }

  lemma KeptStep(p: string, c: char, rest: string)
    ensures p + ([c] + rest) == (p + [c]) + rest
    ensures BackslashRun(p + [c], |p| + 1) == if c == '\\' then BackslashRun(p, |p|) + 1 else 0
  {
    RunOfPrefix(p, [c], |p|);
  }

  /** Stripping twice is stripping once, if and only if the walk is steady. */
  lemma StripTwiceIff(data: string)
    ensures Stripped(Stripped(data)) == Stripped(data) <==> Steady(data, 0, false, false, 0)
  {
    assert "" + Stripped(data) == Stripped(data);
    SecondPassKeeps(data, 0, false, false, "");
  }

  /** Without loose backslashes both passes are in one mode, that of the lexer. */
  lemma {:induction false} NoLooseIsSteady(data: string, i: nat, mode: Mode, run: nat)
    requires i <= |data| && NoLooseBackslash(data[i..], mode)
    requires if mode == Normal then run == 0 else run == BackslashRun(data, i)
    requires mode == Normal && i < |data| && data[i] == '"' ==> i == 0 || data[i - 1] != '\\'
    requires ParityAgrees(data, i, mode)
    ensures Steady(data, i, mode != Normal, mode != Normal, run)
    decreases |data| - i
  {
    if i < |data| {
      var s := data[i..];
      NoLooseTail(s, mode);
      if AtComment(s, mode) {
        CommentRestIsSuffix(s);
        var j := |data| - |CommentRest(s)|;
        assert data[j..] == CommentRest(s);
        assert j < |data| ==> data[j] == CommentRest(s)[0] && data[j - 1] == s[|s| - |CommentRest(s)| - 1];
        NoLooseIsSteady(data, j, Normal, 0);
      } else {
        assert s[1..] == data[i + 1..];
        NoLooseIsSteady(data, i + 1, NextMode(mode, data[i]), if data[i] == '\\' then run + 1 else 0);
      }
    }
  }

  /** So it is on inputs with no backslash outside strings and comments, where the loader removes exactly the
      comments. */
  lemma StripIdempotent(data: string)
    requires NoLooseBackslash(data, Normal)
    ensures Stripped(data) == KeptBytes(Lex(data, Normal))
    ensures Stripped(Stripped(data)) == Stripped(data)
  {
    assert data[0..] == data;
    NoLooseOpensClean(data, 0, Normal);
    StripRemovesComments(data);
    NoLooseIsSteady(data, 0, Normal, 0);
    StripTwiceIff(data);
  }

  /** With such a backslash it can fail: a comment between a backslash and a quote hides the backslash
      from the first pass only. */
  lemma LooseBackslashBreaksIdempotence()
    ensures Stripped("\\/**/\"//") == "\\\"//"
    ensures Stripped("\\\"//") == "\\\""
  {
    FirstPass("\\/**/\"//");
    SecondPass("\\\"//");
  }

  lemma FirstPass(a: string)
    requires a == "\\/**/\"//"
    ensures Stripped(a) == "\\\"//"
  {
    assert a[1..][1..][1..] == a[3..] && a[3..][2..] == "\"//";
    assert BlockRest(a[1..]) == BlockRest(a[1..][1..]) == BlockRest(a[1..][1..][1..]) == "\"//";
    assert Strip(a, 8, true) == "" && Strip(a, 7, true) == "/" && Strip(a, 6, true) == "//";
    assert Strip(a, 5, false) == "\"//";
    assert Strip(a, 1, false) == Strip(a, 5, false);
  }

  lemma SecondPass(b: string)
    requires b == "\\\"//"
    ensures Stripped(b) == "\\\""
  {
    assert BackslashRun(b, 0) == 0 && BackslashRun(b, 1) == 1;
    assert b[2..] == "//" && b[2..][1..] == "/" && b[2..][1..][1..] == "";
    assert LineRest(b[2..]) == LineRest(b[2..][1..]) == LineRest(b[2..][1..][1..]) == "";
    assert Strip(b, 2, false) == "" && Strip(b, 1, false) == "\"";
  }
}
