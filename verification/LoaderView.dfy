/** What the editor writes, the loader reads: the two comment syntaxes side by side, on whole documents. */
module LoaderView {
  import opened Common
  import opened JsonScanner
  import opened JsoncGrammar
  import opened JsoncTree
  import opened ConfigSplice
  import opened SpliceLaws
  import opened SpliceTheorems
  import Strip = StripComments

  // ----- one comment -----

  lemma {:induction false} BlockTailIsRest(s: string)
    ensures BlockTail(s) == Strip.BlockRest(s)
    ensures s != "" ==> |BlockTail(s)| < |s|
  {
    if s != "" {
      BlockTailIsRest(s[1..]);
    }
  }

  /** Editor and loader end a block comment at the same place, if and only if a slash does not come directly after its
      opening mark (or is the last byte): the loader takes the star of the mark for that of a closing one. */
  lemma BlockCommentsAgree(s: string)
    requires Strip.StartsBlock(s)
    ensures CommentTail(s) == Some(Strip.CommentRest(s)) <==> |s| <= 3 || s[2] != '/'
  {
    BlockTailIsRest(s[2..]);
    assert Strip.BlockRest(s) == Strip.BlockRest(s[1..]);
    assert s[1..][1..] == s[2..];
    if |s| > 2 && s[2] == '/' {
      assert s[1..][2..] == s[3..] && s[2..][1..] == s[3..];
      BlockTailIsRest(s[3..]);
    }
  }

  lemma {:induction false} LineTailIsRest(s: string)
    ensures |LineTail(s)| <= |s|
    ensures LineTail(s) == Strip.LineRest(s) <==> '\r' !in s[..|s| - |LineTail(s)|]
    ensures |LineTail(s)| <= |Strip.LineRest(s)|
  {
    if s != "" && s[0] != '\n' {
      LineTailIsRest(s[1..]);
      assert s[..|s| - |LineTail(s)|] == [s[0]] + s[1..][..|s[1..]| - |LineTail(s[1..])|];
    }
  }

  /** They end a line comment at the same place, if and only if no carriage return comes before the editor's end. */
  lemma LineCommentsAgree(s: string)
    requires Strip.StartsLine(s)
    ensures CommentTail(s).Some? && |CommentTail(s).value| + 2 <= |s|
    ensures CommentTail(s) == Some(Strip.CommentRest(s)) <==> '\r' !in s[2..|s| - |CommentTail(s).value|]
  {
    LineTailIsRest(s[2..]);
    assert Strip.LineRest(s) == Strip.LineRest(s[1..]) && s[1..][1..] == s[2..];
    assert s[2..][..|s[2..]| - |LineTail(s[2..])|] == s[2..|s| - |LineTail(s[2..])|];
  }

  /** An input for each disagreement. */
  lemma CommentsDisagree()
    ensures CommentTail("/*/a*/") == Some("") && Strip.CommentRest("/*/a*/") == "a*/"
    ensures CommentTail("//a\rb") == Some("") && Strip.CommentRest("//a\rb") == "\rb"
  {
    var s, t := "/*/a*/", "//a\rb";
    assert s[1..][2..] == "a*/" && s[2..] == "/a*/" && s[2..][1..] == "a*/" && "a*/"[1..] == "*/" && "*/"[2..] == "";
    assert Strip.BlockRest(s) == Strip.BlockRest(s[1..]) == "a*/";
    assert BlockTail("*/") == "" && BlockTail("a*/") == "" && BlockTail("/a*/") == "";
    assert t[2..] == "a\rb" && t[1..][1..] == "a\rb" && "a\rb"[1..] == "\rb" && "\rb"[1..] == "b" && "b"[1..] == "";
    assert Strip.LineRest(t) == Strip.LineRest(t[1..]) == Strip.LineRest("a\rb") == Strip.LineRest("\rb") == "\rb";
    assert LineTail("b") == LineTail("") == "" && LineTail("\rb") == "" && LineTail("a\rb") == "";
  }

  // ----- documents both read alike -----

  /** Comments that both end at the same place. */
  predicate PlainTrivia(t: Trivia) {
    match t
    case End => true
    case Blank(_, rest) => PlainTrivia(rest)
    case LineComment(body, rest) => '\r' !in body && PlainTrivia(rest)
    case BlockComment(body, rest) => (body == "" || body[0] != '/') && PlainTrivia(rest)
  }

  /** Such comments only, and no backslash outside strings. */
  predicate Plain(v: Value) {
    match v
    case Scalar(text) => '\\' !in text
    case Str(_) => true
    case Arr(gap, items) => PlainTrivia(gap) && PlainItems(items)
    case Obj(gap, members) => PlainTrivia(gap) && PlainMembers(members)
  }

  predicate PlainItems(items: Items) {
    items.Item? ==> PlainTrivia(items.pre) && Plain(items.value) && PlainTrivia(items.post) && PlainItems(items.rest)
  }

  predicate PlainMembers(ms: Members) {
    ms.Member? ==>
      && PlainTrivia(ms.pre) && PlainTrivia(ms.mid) && PlainTrivia(ms.gap)
      && Plain(ms.value) && PlainTrivia(ms.post) && PlainMembers(ms.rest)
  }

  /** The blanks of a trivia; of a line comment the line break stays. */
  function Blanks(t: Trivia): Trivia {
    match t
    case End => End
    case Blank(c, rest) => Blank(c, Blanks(rest))
    case LineComment(_, rest) => Blank('\n', Blanks(rest))
    case BlockComment(_, rest) => Blanks(rest)
  }

  /** The value without its comments. */
  function Erased(v: Value): Value {
    match v
    case Scalar(_) => v
    case Str(_) => v
    case Arr(gap, items) => Arr(Blanks(gap), ErasedItems(items))
    case Obj(gap, members) => Obj(Blanks(gap), ErasedMembers(members))
  }

  function ErasedItems(items: Items): Items {
    match items
    case NoItems => NoItems
    case Item(pre, v, post, rest) => Item(Blanks(pre), Erased(v), Blanks(post), ErasedItems(rest))
  }

  function ErasedMembers(ms: Members): Members {
    match ms
    case NoMembers => NoMembers
    case Member(pre, key, mid, gap, v, post, rest) =>
      Member(Blanks(pre), key, Blanks(mid), Blanks(gap), Erased(v), Blanks(post), ErasedMembers(rest))
  }

  // ----- the lexer on printed documents -----

  /** Lexed from `mode` on, `s` keeps `out` and has no loose backslash. */
  ghost predicate Keeps(s: string, mode: Strip.Mode, out: string) {
    Strip.KeptBytes(Strip.Lex(s, mode)) == out && Strip.NoLooseBackslash(s, mode)
  }

  lemma KeepsByte(c: char, s: string, mode: Strip.Mode, out: string)
    requires Keeps(s, Strip.NextMode(mode, c), out)
    requires mode == Strip.Normal ==> c != '/' && c != '\\'
    ensures Keeps([c] + s, mode, [c] + out)
  {
    var t := [c] + s;
    var rest := Strip.Lex(s, Strip.NextMode(mode, c));
    assert t[1..] == s;
    assert Strip.Lex(t, mode) == [Strip.Kept(c, mode)] + rest && Strip.Lex(t, mode)[1..] == rest;
    forall i | 0 <= i < |Strip.Lex(t, mode)| ensures Strip.Lex(t, mode)[i] != Strip.Kept('\\', Strip.Normal) {
      if i > 0 {
        assert Strip.Lex(t, mode)[i] == rest[i - 1];
      }
    }
  }

  lemma KeepsPastComment(s: string, out: string)
    requires Strip.StartsLine(s) || Strip.StartsBlock(s)
    requires Keeps(Strip.CommentRest(s), Strip.Normal, out)
    ensures Keeps(s, Strip.Normal, out)
  {
    var rest := Strip.Lex(Strip.CommentRest(s), Strip.Normal);
    var all := Strip.Lex(s, Strip.Normal);
    assert all[1..] == rest;
    forall i | 0 <= i < |all| ensures all[i] != Strip.Kept('\\', Strip.Normal) {
      if i > 0 {
        assert all[i] == rest[i - 1];
      }
    }
  }

  /** A plain comment ends for the loader where it ends for the editor. */
  lemma PlainCommentRest(t: Trivia, k: string)
    requires TriviaOk(t) && PlainTrivia(t) && (t.LineComment? || t.BlockComment?)
    ensures var s := EmitTrivia(t, k);
      && (Strip.StartsLine(s) || Strip.StartsBlock(s))
      && Strip.CommentRest(s) == if t.LineComment? then ['\n'] + EmitTrivia(t.rest, k) else EmitTrivia(t.rest, k)
  {
    var s := EmitTrivia(t, k);
    CommentSkipped(t, k);
    if t.LineComment? {
      var end := ['\n'] + EmitTrivia(t.rest, k);
      assert s == ['/', '/'] + (t.body + end) && s[2..|s| - |end|] == t.body;
      LineCommentsAgree(s);
    } else {
      BlockCommentsAgree(s);
    }
  }

  lemma {:induction false} KeepsTrivia(t: Trivia, k: string, out: string)
    requires TriviaOk(t) && PlainTrivia(t) && Keeps(k, Strip.Normal, out)
    ensures Keeps(EmitTrivia(t, k), Strip.Normal, EmitTrivia(Blanks(t), out))
  {
    match t
    case End =>
    case Blank(c, rest) =>
      KeepsTrivia(rest, k, out);
      KeepsByte(c, EmitTrivia(rest, k), Strip.Normal, EmitTrivia(Blanks(rest), out));
    case LineComment(_, rest) =>
      KeepsTrivia(rest, k, out);
      KeepsByte('\n', EmitTrivia(rest, k), Strip.Normal, EmitTrivia(Blanks(rest), out));
      PlainCommentRest(t, k);
      KeepsPastComment(EmitTrivia(t, k), EmitTrivia(Blanks(t), out));
    case BlockComment(_, rest) =>
      KeepsTrivia(rest, k, out);
      PlainCommentRest(t, k);
      KeepsPastComment(EmitTrivia(t, k), EmitTrivia(Blanks(t), out));
  }

  lemma {:induction false} KeepsScalar(text: string, k: string, out: string)
    requires (forall i | 0 <= i < |text| :: ScalarChar(text[i])) && '\\' !in text && Keeps(k, Strip.Normal, out)
    ensures Keeps(text + k, Strip.Normal, text + out)
  {
    if text == "" {
      assert text + k == k && text + out == out;
    } else {
      KeepsScalar(text[1..], k, out);
      KeepsByte(text[0], text[1..] + k, Strip.Normal, text[1..] + out);
      assert text + k == [text[0]] + (text[1..] + k) && text + out == [text[0]] + (text[1..] + out);
    }
  }

  lemma KeepsEscape(c: char, s: string, out: string)
    requires Keeps(s, Strip.InString, out)
    ensures Keeps(['\\'] + ([c] + s), Strip.InString, ['\\'] + ([c] + out))
  {
    KeepsByte(c, s, Strip.Escaped, out);
    KeepsByte('\\', [c] + s, Strip.InString, [c] + out);
  }

  lemma EscapeRegroup(body: string, rest: string)
    requires |body| >= 2
    ensures body + rest == [body[0]] + ([body[1]] + (body[2..] + rest))
  {
  }

  lemma ByteRegroup(body: string, rest: string)
    requires body != ""
    ensures body + rest == [body[0]] + (body[1..] + rest)
  {
  }

  lemma {:induction false} KeepsStringBody(body: string, k: string, out: string)
    requires StringBody(body) && Keeps(['"'] + k, Strip.InString, ['"'] + out)
    ensures Keeps(body + (['"'] + k), Strip.InString, body + (['"'] + out))
  {
    if body == "" {
      assert body + (['"'] + k) == ['"'] + k && body + (['"'] + out) == ['"'] + out;
    } else if body[0] == '\\' {
      KeepsStringBody(body[2..], k, out);
      KeepsEscape(body[1], body[2..] + (['"'] + k), body[2..] + (['"'] + out));
      EscapeRegroup(body, ['"'] + k);
      EscapeRegroup(body, ['"'] + out);
    } else {
      KeepsStringBody(body[1..], k, out);
      KeepsByte(body[0], body[1..] + (['"'] + k), Strip.InString, body[1..] + (['"'] + out));
      ByteRegroup(body, ['"'] + k);
      ByteRegroup(body, ['"'] + out);
    }
  }

  lemma KeepsLiteral(codec: Codec, literal: string, k: string, out: string)
    requires IsLiteral(codec, literal) && Keeps(k, Strip.Normal, out)
    ensures Keeps(literal + k, Strip.Normal, literal + out)
  {
    var body := literal[1..|literal| - 1];
    KeepsByte('"', k, Strip.InString, out);
    KeepsStringBody(body, k, out);
    KeepsByte('"', body + (['"'] + k), Strip.Normal, body + (['"'] + out));
    assert literal + k == ['"'] + (body + (['"'] + k)) && literal + out == ['"'] + (body + (['"'] + out));
  }

  /** What the loader keeps of a printed value is the printed value without its comments. */
  lemma {:induction false} KeepsValue(codec: Codec, v: Value, k: string, out: string)
    requires ValueOk(codec, v) && Plain(v) && Keeps(k, Strip.Normal, out)
    ensures Keeps(Emit(v, k), Strip.Normal, Emit(Erased(v), out))
    decreases v
  {
    match v
    case Scalar(text) => KeepsScalar(text, k, out);
    case Str(literal) => KeepsLiteral(codec, literal, k, out);
    case Arr(gap, items) =>
      KeepsByte(']', k, Strip.Normal, out);
      if items.NoItems? {
        KeepsTrivia(gap, [']'] + k, [']'] + out);
        KeepsByte('[', EmitTrivia(gap, [']'] + k), Strip.Normal, EmitTrivia(Blanks(gap), [']'] + out));
      } else {
        KeepsItems(codec, items, [']'] + k, [']'] + out);
        KeepsByte('[', EmitItems(items, [']'] + k), Strip.Normal, EmitItems(ErasedItems(items), [']'] + out));
      }
    case Obj(gap, ms) =>
      KeepsByte('}', k, Strip.Normal, out);
      if ms.NoMembers? {
        KeepsTrivia(gap, ['}'] + k, ['}'] + out);
      } else {
        KeepsMembers(codec, ms, ['}'] + k, ['}'] + out);
      }
      KeepsByte('{', EmitBody(gap, ms, ['}'] + k), Strip.Normal, EmitBody(Blanks(gap), ErasedMembers(ms), ['}'] + out));
  }

  lemma {:induction false} KeepsItems(codec: Codec, items: Items, k: string, out: string)
    requires items.Item? && ItemsOk(codec, items) && PlainItems(items) && Keeps(k, Strip.Normal, out)
    ensures Keeps(EmitItems(items, k), Strip.Normal, EmitItems(ErasedItems(items), out))
    decreases items
  {
    var erased := ErasedItems(items);
    var more, more' := AfterItem(items, k), AfterItem(erased, out);
    assert erased.rest == ErasedItems(items.rest) && (erased.rest.NoItems? <==> items.rest.NoItems?);
    if items.rest.Item? {
      KeepsItems(codec, items.rest, k, out);
      KeepsByte(',', EmitItems(items.rest, k), Strip.Normal, EmitItems(erased.rest, out));
    }
    KeepsTrivia(items.post, more, more');
    KeepsValue(codec, items.value, EmitTrivia(items.post, more), EmitTrivia(erased.post, more'));
    KeepsTrivia(items.pre, Emit(items.value, EmitTrivia(items.post, more)),
      Emit(erased.value, EmitTrivia(erased.post, more')));
  }

  lemma {:induction false} KeepsMembers(codec: Codec, ms: Members, k: string, out: string)
    requires ms.Member? && MembersOk(codec, ms) && PlainMembers(ms) && Keeps(k, Strip.Normal, out)
    ensures Keeps(EmitMembers(ms, k), Strip.Normal, EmitMembers(ErasedMembers(ms), out))
    decreases ms
  {
    var erased := ErasedMembers(ms);
    assert erased.rest == ErasedMembers(ms.rest) && (erased.rest.NoMembers? <==> ms.rest.NoMembers?);
    if ms.rest.Member? {
      KeepsMembers(codec, ms.rest, k, out);
      KeepsByte(',', EmitMembers(ms.rest, k), Strip.Normal, EmitMembers(erased.rest, out));
    }
    KeepsTrivia(ms.post, AfterMember(ms, k), AfterMember(erased, out));
    KeepsValue(codec, ms.value, AfterValue(ms, k), AfterValue(erased, out));
    KeepsMember(codec, ms, Emit(ms.value, AfterValue(ms, k)), Emit(erased.value, AfterValue(erased, out)));
  }

  /** A member's key and colon in front of its value. */
  lemma KeepsMember(codec: Codec, ms: Members, x: string, y: string)
    requires ms.Member? && TriviaOk(ms.pre) && TriviaOk(ms.mid) && TriviaOk(ms.gap) && IsLiteral(codec, ms.key)
    requires PlainTrivia(ms.pre) && PlainTrivia(ms.mid) && PlainTrivia(ms.gap) && Keeps(x, Strip.Normal, y)
    ensures Keeps(EmitTrivia(ms.pre, ms.key + EmitTrivia(ms.mid, [':'] + EmitTrivia(ms.gap, x))), Strip.Normal,
      EmitTrivia(Blanks(ms.pre), ms.key + EmitTrivia(Blanks(ms.mid), [':'] + EmitTrivia(Blanks(ms.gap), y))))
  {
    KeepsTrivia(ms.gap, x, y);
    var c, c' := [':'] + EmitTrivia(ms.gap, x), [':'] + EmitTrivia(Blanks(ms.gap), y);
    KeepsByte(':', EmitTrivia(ms.gap, x), Strip.Normal, EmitTrivia(Blanks(ms.gap), y));
    KeepsTrivia(ms.mid, c, c');
    KeepsLiteral(codec, ms.key, EmitTrivia(ms.mid, c), EmitTrivia(Blanks(ms.mid), c'));
    KeepsTrivia(ms.pre, ms.key + EmitTrivia(ms.mid, c), ms.key + EmitTrivia(Blanks(ms.mid), c'));
  }

  /** The loader strips a plain document to the document without its comments, and nothing else changes. */
  lemma StrippedIsErased(codec: Codec, lead: Trivia, root: Value, end: Trivia)
    requires TriviaOk(lead) && ValueOk(codec, root) && TriviaOk(end)
    requires PlainTrivia(lead) && Plain(root) && PlainTrivia(end)
    ensures Strip.Stripped(Document(lead, root, EmitTrivia(end, "")))
      == Document(Blanks(lead), Erased(root), EmitTrivia(Blanks(end), ""))
  {
    var tail, tail' := EmitTrivia(end, ""), EmitTrivia(Blanks(end), "");
    assert Keeps("", Strip.Normal, "");
    KeepsTrivia(end, "", "");
    KeepsValue(codec, root, tail, tail');
    KeepsTrivia(lead, Emit(root, tail), Emit(Erased(root), tail'));
    Strip.StripIdempotent(Document(lead, root, tail));
  }

  // ----- reading what is left -----

  lemma {:induction false} BlanksOk(t: Trivia)
    requires TriviaOk(t)
    ensures TriviaOk(Blanks(t)) && !Glued(Blanks(t)) && Swallowed(Blanks(t))
  {
    if !t.End? {
      BlanksOk(t.rest);
    }
  }

  lemma {:induction false} ErasedOk(codec: Codec, v: Value)
    requires ValueOk(codec, v)
    ensures ValueOk(codec, Erased(v))
    decreases v
  {
    match v
    case Scalar(_) =>
    case Str(_) =>
    case Arr(gap, items) =>
      BlanksOk(gap);
      ErasedItemsOk(codec, items);
    case Obj(gap, ms) =>
      BlanksOk(gap);
      ErasedMembersOk(codec, ms);
  }

  lemma {:induction false} ErasedItemsOk(codec: Codec, items: Items)
    requires ItemsOk(codec, items)
    ensures ItemsOk(codec, ErasedItems(items))
    decreases items
  {
    if items.Item? {
      BlanksOk(items.pre);
      BlanksOk(items.post);
      ErasedOk(codec, items.value);
      ErasedItemsOk(codec, items.rest);
    }
  }

  lemma {:induction false} ErasedMembersOk(codec: Codec, ms: Members)
    requires MembersOk(codec, ms)
    ensures MembersOk(codec, ErasedMembers(ms))
    decreases ms
  {
    if ms.Member? {
      BlanksOk(ms.pre);
      BlanksOk(ms.mid);
      BlanksOk(ms.gap);
      BlanksOk(ms.post);
      ErasedOk(codec, ms.value);
      ErasedMembersOk(codec, ms.rest);
    }
  }

  lemma {:induction false} ErasedFinds(codec: Codec, ms: Members, key: string)
    requires MembersOk(codec, ms)
    ensures Found(codec, ErasedMembers(ms), key) == ErasedMembers(Found(codec, ms, key))
    ensures CrispBefore(codec, ErasedMembers(ms), key)
    decreases ms
  {
    if ms.Member? && Name(codec, ms) != Some(key) {
      BlanksOk(ms.post);
      ErasedFinds(codec, ms.rest, key);
    }
  }

  /** Without comments every path leads to the same value without comments, and can be read. */
  lemma {:induction false} ErasedGets(codec: Codec, v: Value, path: seq<string>)
    requires ValueOk(codec, v)
    ensures CrispPath(codec, Erased(v), path)
    ensures Get(codec, Erased(v), path).Some? == Get(codec, v, path).Some?
    ensures Get(codec, v, path).Some? ==>
      && Get(codec, Erased(v), path) == Some(Erased(Get(codec, v, path).value))
      && (path != [] ==> !Glued(PostAt(codec, Erased(v), path)))
    decreases path
  {
    if path != [] && v.Obj? {
      ErasedFinds(codec, v.members, path[0]);
      FoundOk(codec, v.members, path[0]);
      var f := Found(codec, v.members, path[0]);
      if f.Member? {
        BlanksOk(f.post);
        ErasedGets(codec, f.value, path[1..]);
      }
    }
  }

  /** In the stripped document every path reads exactly its value, whatever comments were glued to what. */
  lemma LoaderReads(codec: Codec, lead: Trivia, root: Value, end: Trivia, path: seq<string>)
    requires TriviaOk(lead) && root.Obj? && ValueOk(codec, root) && TriviaOk(end) && path != []
    requires PlainTrivia(lead) && Plain(root) && PlainTrivia(end)
    ensures LookupText(codec, Strip.Stripped(Document(lead, root, EmitTrivia(end, ""))), path)
      == match Get(codec, root, path) case None => None case Some(v) => Some(Text(Erased(v)))
  {
    StrippedIsErased(codec, lead, root, end);
    BlanksOk(lead);
    ErasedOk(codec, root);
    ErasedGets(codec, root, path);
    LookupIsGet(codec, Blanks(lead), Erased(root), EmitTrivia(Blanks(end), ""), path);
  }

  // ----- reading what was written -----

  lemma {:induction false} FoundPlain(codec: Codec, ms: Members, key: string)
    requires PlainMembers(ms)
    ensures PlainMembers(Found(codec, ms, key))
    decreases ms
  {
    if ms.Member? && Name(codec, ms) != Some(key) {
      FoundPlain(codec, ms.rest, key);
    }
  }

  lemma {:induction false} GetPlain(codec: Codec, v: Value, path: seq<string>)
    requires Plain(v) && Get(codec, v, path).Some?
    ensures Plain(Get(codec, v, path).value)
    decreases path
  {
    if path != [] {
      FoundPlain(codec, v.members, path[0]);
      GetPlain(codec, Found(codec, v.members, path[0]).value, path[1..]);
    }
  }

  lemma {:induction false} SetValuePlain(codec: Codec, ms: Members, key: string, x: Value)
    requires Found(codec, ms, key).Member? && PlainMembers(ms) && Plain(x)
    ensures PlainMembers(SetValue(codec, ms, key, x))
    decreases ms
  {
    if Name(codec, ms) != Some(key) {
      SetValuePlain(codec, ms.rest, key, x);
    }
  }

  lemma {:induction false} PutPlain(codec: Codec, v: Value, path: seq<string>, w: Value)
    requires Get(codec, v, path).Some? && Plain(v) && Plain(w)
    ensures Plain(Put(codec, v, path, w))
    decreases path
  {
    if path != [] {
      var f := Found(codec, v.members, path[0]);
      FoundPlain(codec, v.members, path[0]);
      PutPlain(codec, f.value, path[1..], w);
      SetValuePlain(codec, v.members, path[0], Put(codec, f.value, path[1..], w));
    }
  }

  /** Set, then load: a value the editor has replaced is what the loader reads at its path. */
  lemma ReplaceThenLoad(codec: Codec, lead: Trivia, root: Value, end: Trivia, parts: seq<string>, leaf: Value,
                        unit: string)
    requires TriviaOk(lead) && root.Obj? && ValueOk(codec, root) && TriviaOk(end) && ValueOk(codec, leaf)
    requires PlainTrivia(lead) && Plain(root) && PlainTrivia(end) && Plain(leaf)
    requires parts != [] && "" !in parts && Get(codec, root, parts).Some? && Readable(codec, root, parts)
    ensures var r := Splice(codec, Document(lead, root, EmitTrivia(end, "")), parts, Text(leaf), unit);
      r.Ok? && LookupText(codec, Strip.Stripped(r.doc), parts) == Some(Text(Erased(leaf)))
  {
    SpliceReplaces(codec, lead, root, EmitTrivia(end, ""), parts, leaf, unit);
    PutPlain(codec, root, parts, leaf);
    PutPost(codec, root, parts, leaf);
    LoaderReads(codec, lead, Put(codec, root, parts, leaf), end, parts);
  }

  lemma {:induction false} BlankTriviaPlain(s: string)
    ensures PlainTrivia(BlankTrivia(s))
  {
    if s != "" {
      BlankTriviaPlain(s[1..]);
    }
  }

  lemma {:induction false} NestedPlain(codec: Codec, parts: seq<string>, leaf: Value, unit: string, depth: nat)
    requires parts != [] && Plain(leaf)
    ensures Plain(Nested(codec, parts, leaf, unit, depth))
    decreases parts
  {
    if |parts| > 1 {
      NestedPlain(codec, parts[1..], leaf, unit, depth + 1);
      BlankTriviaPlain("\n" + Repeat(unit, depth + 2));
      BlankTriviaPlain("\n" + Repeat(unit, depth + 1));
      assert PlainTrivia(COLON_GAP);
    }
  }

  lemma {:induction false} SplitPlain(t: Trivia)
    requires PlainTrivia(t)
    ensures PlainTrivia(Soaked(t)) && PlainTrivia(Leave(t))
  {
    if t.BlockComment? {
      SplitPlain(t.rest);
    }
  }

  lemma {:induction false} JoinPlain(t: Trivia, u: Trivia)
    requires PlainTrivia(t) && PlainTrivia(u)
    ensures PlainTrivia(Join(t, u))
  {
    if !t.End? {
      JoinPlain(t.rest, u);
    }
  }

  lemma {:induction false} AppendedPlain(ms: Members, pre: Trivia, key: string, value: Value)
    requires ms.Member? && PlainMembers(ms) && PlainTrivia(pre) && Plain(value)
    ensures PlainMembers(Appended(ms, pre, key, value))
    decreases ms
  {
    assert PlainTrivia(COLON_GAP);
    SplitPlain(ms.post);
    if ms.rest.Member? {
      AppendedPlain(ms.rest, pre, key, value);
    }
  }

  lemma InsertedPlain(codec: Codec, root: Value, up: seq<string>, below: seq<string>, leaf: Value, unit: string)
    requires Plain(root) && Plain(leaf) && below != [] && Get(codec, root, up).Some? && Parent(codec, root, up).Obj?
    ensures Plain(Inserted(codec, root, up, below, leaf, unit))
  {
    var parent, pre, value := Parent(codec, root, up), Break(unit, |up| + 1), Nested(codec, below, leaf, unit, |up|);
    GetPlain(codec, root, up);
    NestedPlain(codec, below, leaf, unit, |up|);
    BlankTriviaPlain("\n" + Repeat(unit, |up| + 1));
    if parent.members.Member? {
      AppendedPlain(parent.members, pre, codec.encode(below[0]), value);
    } else {
      JoinPlain(parent.gap, pre);
      assert PlainTrivia(COLON_GAP);
    }
    PutPlain(codec, root, up, NewParent(codec, root, up, below, leaf, unit));
  }

  /** So is one it has inserted, even where the editor itself would read the comment behind it as well. */
  lemma InsertThenLoad(codec: Codec, lead: Trivia, root: Value, end: Trivia, up: seq<string>, below: seq<string>,
                       leaf: Value, unit: string)
    requires TriviaOk(lead) && root.Obj? && ValueOk(codec, root) && TriviaOk(end) && ValueOk(codec, leaf)
    requires PlainTrivia(lead) && Plain(root) && PlainTrivia(end) && Plain(leaf)
    requires below != [] && "" !in up + below && AllBlank(unit) && KeysOk(codec, below)
    requires MissingAt(codec, root, up, below[0])
    requires InStep(Parent(codec, root, up).members) && SafeEnd(Parent(codec, root, up).members)
    ensures var r := Splice(codec, Document(lead, root, EmitTrivia(end, "")), up + below, Text(leaf), unit);
      r.Ok? && LookupText(codec, Strip.Stripped(r.doc), up + below) == Some(Text(Erased(leaf)))
  {
    SpliceInserts(codec, lead, root, EmitTrivia(end, ""), up, below, leaf, unit);
    InsertedReads(codec, root, up, below, leaf, unit);
    InsertedPlain(codec, root, up, below, leaf, unit);
    LoaderReads(codec, lead, Inserted(codec, root, up, below, leaf, unit), end, up + below);
  }
}
