/** Paths through the syntax trees, and the same paths through the bytes. */
module JsoncTree {
  import opened Common
  import opened JsonScanner
  import opened JsoncGrammar

  // ----- printing is prefix text plus what follows -----

  lemma Tail(p: string, m: string, k: string)
    ensures p + (m + k) == p + m + k
  {
  }

  lemma Tail3(a: string, b: string, c: string, m: string, k: string)
    ensures a + (b + (c + (m + k))) == (a + (b + (c + m))) + k
  {
  }

  lemma {:induction false} EmitTriviaAppend(t: Trivia, k: string)
    ensures EmitTrivia(t, k) == EmitTrivia(t, "") + k
  {
    if !t.End? {
      EmitTriviaAppend(t.rest, k);
      var m := EmitTrivia(t.rest, "");
      match t
      case Blank(c, _) => Tail([c], m, k);
      case LineComment(body, _) => Tail3(['/', '/'], body, ['\n'], m, k);
      case BlockComment(body, _) => Tail3(['/', '*'], body, ['*', '/'], m, k);
    }
  }

  lemma {:induction false} EmitAppend(v: Value, k: string)
    ensures Emit(v, k) == Emit(v, "") + k
    decreases v
  {
    match v
    case Scalar(_) =>
    case Str(_) =>
    case Arr(gap, items) =>
      if items.NoItems? {
        EmitTriviaAppend(gap, [']'] + k);
        EmitTriviaAppend(gap, [']'] + "");
      } else {
        EmitItemsAppend(items, [']'] + k);
        EmitItemsAppend(items, [']'] + "");
      }
    case Obj(gap, ms) =>
      EmitBodyAppend(gap, ms, ['}'] + k);
      EmitBodyAppend(gap, ms, ['}'] + "");
  }

  lemma {:induction false} EmitBodyAppend(gap: Trivia, ms: Members, k: string)
    ensures EmitBody(gap, ms, k) == EmitBody(gap, ms, "") + k
    decreases ms, 2
  {
    EmitTriviaAppend(gap, k);
    EmitMembersAppend(ms, k);
  }

  /** What follows an item's trivia. */
  function AfterItem(items: Items, k: string): string
    requires items.Item?
  {
    if items.rest.NoItems? then k else [','] + EmitItems(items.rest, k)
  }

  lemma Regroup3(a: string, b: string, c: string, k: string)
    ensures a + (b + (c + k)) == a + b + c + k
  {
  }

  lemma {:induction false} ItemText(items: Items, k: string)
    requires items.Item?
    ensures EmitItems(items, k)
      == EmitTrivia(items.pre, "") + Emit(items.value, "") + EmitTrivia(items.post, "") + AfterItem(items, k)
    decreases items, 0
  {
    var more := AfterItem(items, k);
    EmitTriviaAppend(items.post, more);
    EmitAppend(items.value, EmitTrivia(items.post, more));
    EmitTriviaAppend(items.pre, Emit(items.value, EmitTrivia(items.post, more)));
    Regroup3(EmitTrivia(items.pre, ""), Emit(items.value, ""), EmitTrivia(items.post, ""), more);
  }

  lemma {:induction false} EmitItemsAppend(items: Items, k: string)
    ensures EmitItems(items, k) == EmitItems(items, "") + k
    decreases items, 1
  {
    if items.Item? {
      ItemText(items, k);
      ItemText(items, "");
      if items.rest.Item? {
        EmitItemsAppend(items.rest, k);
      }
      Tail([','], EmitItems(items.rest, ""), k);
      assert AfterItem(items, k) == AfterItem(items, "") + k;
      Tail(EmitTrivia(items.pre, "") + Emit(items.value, "") + EmitTrivia(items.post, ""), AfterItem(items, ""), k);
    }
  }

  /** Everything a member prints before its value. */
  function Head(ms: Members): string
    requires ms.Member?
  {
    EmitTrivia(ms.pre, "") + ms.key + EmitTrivia(ms.mid, "") + [':'] + EmitTrivia(ms.gap, "")
  }

  lemma Regroup(a: string, b: string, c: string, d: string, e: string, x: string)
    ensures a + (b + (c + (d + (e + x)))) == a + b + c + d + e + x
  {
  }

  lemma {:induction false} HeadPrefix(ms: Members, k: string)
    requires ms.Member?
    ensures EmitMembers(ms, k) == Head(ms) + Emit(ms.value, AfterValue(ms, k))
  {
    var x := Emit(ms.value, AfterValue(ms, k));
    Regroup(EmitTrivia(ms.pre, ""), ms.key, EmitTrivia(ms.mid, ""), [':'], EmitTrivia(ms.gap, ""), x);
    EmitTriviaAppend(ms.gap, x);
    EmitTriviaAppend(ms.mid, [':'] + EmitTrivia(ms.gap, x));
    EmitTriviaAppend(ms.pre, ms.key + EmitTrivia(ms.mid, [':'] + EmitTrivia(ms.gap, x)));
  }

  /** Everything a member prints before the next member. */
  function WholeMember(ms: Members): string
    requires ms.Member?
  {
    Head(ms) + Emit(ms.value, "") + EmitTrivia(ms.post, "") + [',']
  }

  lemma MemberPrefix(ms: Members, k: string)
    requires ms.Member? && ms.rest.Member?
    ensures EmitMembers(ms, k) == WholeMember(ms) + EmitMembers(ms.rest, k)
  {
    HeadPrefix(ms, k);
    EmitAppend(ms.value, AfterValue(ms, k));
    EmitTriviaAppend(ms.post, [','] + EmitMembers(ms.rest, k));
  }

  /** What follows a member's trivia. */
  function AfterMember(ms: Members, k: string): string
    requires ms.Member?
  {
    if ms.rest.NoMembers? then k else [','] + EmitMembers(ms.rest, k)
  }

  lemma {:induction false} WholeText(ms: Members, k: string)
    requires ms.Member?
    ensures EmitMembers(ms, k) == Head(ms) + Emit(ms.value, "") + EmitTrivia(ms.post, "") + AfterMember(ms, k)
    decreases ms, 0
  {
    HeadPrefix(ms, k);
    EmitAppend(ms.value, AfterValue(ms, k));
    EmitTriviaAppend(ms.post, AfterMember(ms, k));
    Regroup3(Head(ms), Emit(ms.value, ""), EmitTrivia(ms.post, ""), AfterMember(ms, k));
  }

  lemma {:induction false} EmitMembersAppend(ms: Members, k: string)
    ensures EmitMembers(ms, k) == EmitMembers(ms, "") + k
    decreases ms, 1
  {
    if ms.Member? {
      WholeText(ms, k);
      WholeText(ms, "");
      if ms.rest.Member? {
        EmitMembersAppend(ms.rest, k);
      }
      Tail([','], EmitMembers(ms.rest, ""), k);
      assert AfterMember(ms, k) == AfterMember(ms, "") + k;
      Tail(Head(ms) + Emit(ms.value, "") + EmitTrivia(ms.post, ""), AfterMember(ms, ""), k);
    }
  }

  /** The text of a value. */
  function Text(v: Value): string {
    Emit(v, "")
  }

  // ----- members by name -----

  function Name(codec: Codec, ms: Members): Option<string>
    requires ms.Member?
  {
    codec.decode(ms.key)
  }

  /** The members from the first one called `key` on. */
  function Found(codec: Codec, ms: Members, key: string): (f: Members)
    ensures f.Member? ==> Name(codec, f) == Some(key) && f.value < ms
    decreases ms
  {
    if ms.NoMembers? || Name(codec, ms) == Some(key) then ms else Found(codec, ms.rest, key)
  }

  /** A comment follows with nothing in between. */
  predicate Glued(t: Trivia) {
    t.LineComment? || t.BlockComment?
  }

  /** Before the first member called `key`, no comment glued to a scalar value holds a stop byte. */
  predicate CrispBefore(codec: Codec, ms: Members, key: string) {
    ms.Member? && Name(codec, ms) != Some(key) ==>
      (ms.value.Scalar? ==> Swallowed(ms.post)) && CrispBefore(codec, ms.rest, key)
  }

  lemma AfterValueDelimited(codec: Codec, ms: Members, k: string)
    requires ms.Member? && TriviaOk(ms.post) && Delimited(k)
    ensures Delimited(AfterValue(ms, k)) <==> !Glued(ms.post)
  {
  }

  lemma KeySpanIgnores(codec: Codec, t: Trivia, k: string, key: string)
    requires TriviaOk(t)
    ensures KeySpan(codec, EmitTrivia(t, k), key) == KeySpan(codec, k, key)
  {
    IgnorableSkipsTrivia(t, k);
  }

  lemma MemberSkipped(codec: Codec, ms: Members, k: string)
    requires ms.Member? && MembersOk(codec, ms)
    ensures SkipValue(codec, Emit(ms.value, AfterValue(ms, k))).Some?
    ensures var s := Ignorable(EmitMembers(ms, k));
      && s != "" && s[0] == '"'
      && SkipMember(codec, s)
        == Some((codec.decode(ms.key).value, SkipValue(codec, Emit(ms.value, AfterValue(ms, k))).value))
  {
    var x := Emit(ms.value, AfterValue(ms, k));
    var atColon := [':'] + EmitTrivia(ms.gap, x);
    var atKey := ms.key + EmitTrivia(ms.mid, atColon);
    IgnorableSkipsTrivia(ms.pre, atKey);
    assert Ignorable(atKey) == atKey;
    StringSkipped(codec, ms.key, EmitTrivia(ms.mid, atColon));
    IgnorableSkipsTrivia(ms.mid, atColon);
    assert Ignorable(atColon) == atColon;
    assert atColon[1..] == EmitTrivia(ms.gap, x);
    TriviaBeforeValue(codec, ms.gap, ms.value, AfterValue(ms, k));
    ValueSkipped(codec, ms.value, AfterValue(ms, k));
  }

  /** What the scanner leaves of the text after a member's value is ignorable up to the next member. */
  lemma LeftIgnored(codec: Codec, ms: Members, k: string)
    requires ms.Member? && MembersOk(codec, ms) && (ms.value.Scalar? ==> Swallowed(ms.post) && Delimited(k))
    ensures var r := SkipValue(codec, Emit(ms.value, AfterValue(ms, k)));
      r.Some? && Ignorable(r.value.1) == Ignorable(AfterMember(ms, k))
  {
    var beyond := AfterMember(ms, k);
    if ms.value.Scalar? {
      ScalarSwallows(codec, ms.value, ms.post, beyond);
      TriviaScanned(ms.post, beyond);
    } else {
      ValueSkipped(codec, ms.value, AfterValue(ms, k));
      IgnorableSkipsTrivia(ms.post, beyond);
    }
  }

  /** The byte search passes over a member of another name, whatever is swallowed with its value. */
  lemma KeySpanPasses(codec: Codec, ms: Members, k: string, key: string)
    requires ms.Member? && MembersOk(codec, ms) && Name(codec, ms) != Some(key)
    requires ms.value.Scalar? ==> Swallowed(ms.post) && Delimited(k)
    ensures KeySpan(codec, EmitMembers(ms, k), key)
      == KeySpan(codec, if ms.rest.NoMembers? then k else EmitMembers(ms.rest, k), key)
  {
    LeftIgnored(codec, ms, k);
    KeySpanGoesOn(codec, ms, k, key);
    KeySpanSame(codec, SkipValue(codec, Emit(ms.value, AfterValue(ms, k))).value.1, AfterMember(ms, k), key);
    if ms.rest.Member? {
      KeySpanPastComma(codec, EmitMembers(ms.rest, k), key);
    }
  }

  lemma KeySpanGoesOn(codec: Codec, ms: Members, k: string, key: string)
    requires ms.Member? && MembersOk(codec, ms) && Name(codec, ms) != Some(key)
    ensures var r := SkipValue(codec, Emit(ms.value, AfterValue(ms, k)));
      r.Some? && KeySpan(codec, EmitMembers(ms, k), key) == KeySpan(codec, r.value.1, key)
  {
    MemberSkipped(codec, ms, k);
  }

  lemma KeySpanSame(codec: Codec, s: string, t: string, key: string)
    requires Ignorable(s) == Ignorable(t)
    ensures KeySpan(codec, s, key) == KeySpan(codec, t, key)
  {
  }

  /** The byte search for a key reads the value of the first member of that name, and only that. */
  lemma {:induction false} KeySpanFinds(codec: Codec, ms: Members, k: string, key: string)
    requires MembersOk(codec, ms) && CrispBefore(codec, ms, key) && k != "" && k[0] == '}'
    ensures var f := Found(codec, ms, key);
      KeySpan(codec, EmitMembers(ms, k), key)
        == if f.NoMembers? then None else SkipValue(codec, Emit(f.value, AfterValue(f, k)))
    decreases ms
  {
    if ms.NoMembers? {
      assert Ignorable(k) == k;
    } else if Name(codec, ms) == Some(key) {
      MemberSkipped(codec, ms, k);
    } else {
      KeySpanPasses(codec, ms, k, key);
      KeySpanFinds(codec, ms.rest, k, key);
    }
  }

  lemma KeySpanPastComma(codec: Codec, k: string, key: string)
    ensures KeySpan(codec, [','] + k, key) == KeySpan(codec, k, key)
  {
    assert Ignorable([','] + k) == [','] + k && ([','] + k)[1..] == k;
  }

  lemma KeySpanInBody(codec: Codec, gap: Trivia, ms: Members, k: string, key: string)
    requires TriviaOk(gap) && MembersOk(codec, ms) && CrispBefore(codec, ms, key) && k != "" && k[0] == '}'
    ensures var f := Found(codec, ms, key);
      KeySpan(codec, EmitBody(gap, ms, k), key)
        == if f.NoMembers? then None else SkipValue(codec, Emit(f.value, AfterValue(f, k)))
  {
    KeySpanFinds(codec, ms, k, key);
    if ms.NoMembers? {
      KeySpanIgnores(codec, gap, k, key);
    }
  }

  // ----- paths -----

  /** The value at `path`; of several members with one name the first counts. */
  function Get(codec: Codec, v: Value, path: seq<string>): Option<Value>
    decreases path
  {
    if path == [] then Some(v)
    else if !v.Obj? then None
    else
      var f := Found(codec, v.members, path[0]);
      if f.NoMembers? then None else Get(codec, f.value, path[1..])
  }

  /** What follows the value at `path` when `k` follows the whole. */
  function AfterPath(codec: Codec, v: Value, path: seq<string>, k: string): string
    requires Get(codec, v, path).Some?
    decreases path
  {
    if path == [] then k
    else
      var f := Found(codec, v.members, path[0]);
      AfterPath(codec, f.value, path[1..], AfterValue(f, ['}'] + k))
  }

  /** In every object the path goes through, no comment glued to a scalar before the wanted member holds a
      stop byte. */
  predicate CrispPath(codec: Codec, v: Value, path: seq<string>)
    decreases path
  {
    path != [] && v.Obj? ==>
      && CrispBefore(codec, v.members, path[0])
      && (var f := Found(codec, v.members, path[0]);
          f.Member? ==> CrispPath(codec, f.value, path[1..]))
  }

  /** The trivia directly after the value at `path`. */
  function PostAt(codec: Codec, v: Value, path: seq<string>): Trivia
    requires path != [] && Get(codec, v, path).Some?
    decreases path
  {
    var f := Found(codec, v.members, path[0]);
    if |path| == 1 then f.post else PostAt(codec, f.value, path[1..])
  }

  /** The value `w` can be read at `path`: it is no scalar, or no comment is glued to it there. */
  predicate Fits(codec: Codec, v: Value, path: seq<string>, w: Value)
    requires path != [] && Get(codec, v, path).Some?
  {
    w.Scalar? ==> !Glued(PostAt(codec, v, path))
  }

  /** In bytes: what follows the value is a delimiter or a blank. */
  lemma {:induction false} PostAtDelimits(codec: Codec, v: Value, path: seq<string>, k: string)
    requires ValueOk(codec, v) && path != [] && Get(codec, v, path).Some?
    ensures Delimited(AfterPath(codec, v, path, k)) <==> !Glued(PostAt(codec, v, path))
    decreases path
  {
    var f := Found(codec, v.members, path[0]);
    FoundOk(codec, v.members, path[0]);
    if |path| == 1 {
      AfterValueDelimited(codec, f, ['}'] + k);
      assert AfterPath(codec, f.value, path[1..], AfterValue(f, ['}'] + k)) == AfterValue(f, ['}'] + k);
    } else {
      PostAtDelimits(codec, f.value, path[1..], AfterValue(f, ['}'] + k));
    }
  }

  /** The editor's descent through the bytes, from inside an object. */
  function LookupIn(codec: Codec, s: string, path: seq<string>): Option<(string, string)>
    requires path != []
    decreases path
  {
    match KeySpan(codec, s, path[0])
    case None => None
    case Some((at, after)) =>
      if |path| == 1 then Some((at, after))
      else
        match Inside(at)
        case None => None
        case Some(body) => LookupIn(codec, body, path[1..])
  }

  function Lookup(codec: Codec, doc: string, path: seq<string>): Option<(string, string)>
    requires path != []
  {
    match Inside(doc)
    case None => None
    case Some(body) => LookupIn(codec, body, path)
  }

  /** The bytes of the value found at `path`. */
  function LookupText(codec: Codec, doc: string, path: seq<string>): Option<string>
    requires path != []
  {
    match Lookup(codec, doc, path)
    case None => None
    case Some((at, after)) => if |after| <= |at| then Some(at[..|at| - |after|]) else None
  }

  lemma {:induction false} FoundOk(codec: Codec, ms: Members, key: string)
    requires MembersOk(codec, ms)
    ensures MembersOk(codec, Found(codec, ms, key))
    decreases ms
  {
    if ms.Member? && Name(codec, ms) != Some(key) {
      FoundOk(codec, ms.rest, key);
    }
  }

  lemma {:induction false} GetOk(codec: Codec, v: Value, path: seq<string>)
    requires ValueOk(codec, v) && Get(codec, v, path).Some?
    ensures ValueOk(codec, Get(codec, v, path).value)
    decreases path
  {
    if path != [] {
      FoundOk(codec, v.members, path[0]);
      GetOk(codec, Found(codec, v.members, path[0]).value, path[1..]);
    }
  }

  /** The descent through the bytes and the walk down the tree end at the same place. */
  lemma {:induction false} LookupInFinds(codec: Codec, v: Value, path: seq<string>, k: string)
    requires v.Obj? && ValueOk(codec, v) && path != [] && CrispPath(codec, v, path)
    ensures LookupIn(codec, EmitBody(v.gap, v.members, ['}'] + k), path)
      == match Get(codec, v, path)
         case None => None
         case Some(sub) => SkipValue(codec, Emit(sub, AfterPath(codec, v, path, k)))
    decreases path
  {
    KeySpanInBody(codec, v.gap, v.members, ['}'] + k, path[0]);
    FoundOk(codec, v.members, path[0]);
    var f := Found(codec, v.members, path[0]);
    if f.Member? {
      var after := AfterValue(f, ['}'] + k);
      ValueStart(codec, f.value, after);
      ValueSkipped(codec, f.value, after);
      if |path| == 1 {
        assert path[1..] == [];
      } else if f.value.Obj? {
        LookupInFinds(codec, f.value, path[1..], after);
        assert Emit(f.value, after)[1..] == EmitBody(f.value.gap, f.value.members, ['}'] + after);
      } else {
        assert f.value.Scalar? ==> Emit(f.value, after)[0] == f.value.text[0];
        assert Emit(f.value, after)[0] != '{';
      }
    }
  }

  /** A document: trivia, a root value, and anything after it. */
  function Document(lead: Trivia, root: Value, tail: string): string {
    EmitTrivia(lead, Emit(root, tail))
  }

  lemma RootOpens(codec: Codec, lead: Trivia, root: Value, tail: string)
    requires TriviaOk(lead) && root.Obj? && ValueOk(codec, root)
    ensures Inside(Document(lead, root, tail)) == Some(EmitBody(root.gap, root.members, ['}'] + tail))
  {
    IgnorableSkipsTrivia(lead, Emit(root, tail));
    ValueStart(codec, root, tail);
    assert Emit(root, tail)[1..] == EmitBody(root.gap, root.members, ['}'] + tail);
  }

  /** The scanner refines the grammar: looking a path up in the bytes of a well-formed document finds
      a value exactly when the tree has one, and reads exactly its text if and only if the value is no
      scalar with a comment glued to it. */
  lemma LookupIsGet(codec: Codec, lead: Trivia, root: Value, tail: string, path: seq<string>)
    requires TriviaOk(lead) && root.Obj? && ValueOk(codec, root)
    requires path != [] && CrispPath(codec, root, path)
    ensures var text := LookupText(codec, Document(lead, root, tail), path);
      match Get(codec, root, path)
      case None => text == None
      case Some(sub) => text.Some? && (text == Some(Text(sub)) <==> Fits(codec, root, path, sub))
  {
    RootOpens(codec, lead, root, tail);
    LookupInFinds(codec, root, path, tail);
    if Get(codec, root, path).Some? {
      var sub, after := Get(codec, root, path).value, AfterPath(codec, root, path, tail);
      GetOk(codec, root, path);
      ValueSkipped(codec, sub, after);
      PostAtDelimits(codec, root, path, tail);
      EmitAppend(sub, after);
    }
  }

  // ----- exactly what a lookup reads -----

  /** What is read with a scalar of the trivia after it. */
  function ReadGlue(t: Trivia): string {
    var p := EmitTrivia(t, "");
    p[..|p| - |ScalarTail(p)|]
  }

  /** What a lookup reads of a value with the trivia `post` after it. */
  function ReadText(v: Value, post: Trivia): string {
    if v.Scalar? then v.text + ReadGlue(post) else Text(v)
  }

  lemma {:induction false} ScalarTailAppend(x: string, k: string)
    requires Delimited(k)
    ensures ScalarTail(x + k) == ScalarTail(x) + k
  {
    if x == "" {
      assert x + k == k && "" + k == k;
    } else if !IsStop(x[0]) {
      assert (x + k)[1..] == x[1..] + k;
      ScalarTailAppend(x[1..], k);
    }
  }

  /** After the value at a path come its trivia and a delimiter. */
  lemma {:induction false} AfterPathSplits(codec: Codec, v: Value, path: seq<string>, k: string) returns (rest: string)
    requires ValueOk(codec, v) && path != [] && Get(codec, v, path).Some?
    ensures AfterPath(codec, v, path, k) == EmitTrivia(PostAt(codec, v, path), rest) && Delimited(rest)
    decreases path
  {
    var f := Found(codec, v.members, path[0]);
    var after := AfterValue(f, ['}'] + k);
    FoundOk(codec, v.members, path[0]);
    assert AfterPath(codec, v, path, k) == AfterPath(codec, f.value, path[1..], after);
    if |path| == 1 {
      rest := AfterMember(f, ['}'] + k);
      assert path[1..] == [];
    } else {
      rest := AfterPathSplits(codec, f.value, path[1..], after);
    }
  }

  lemma ScalarReads(codec: Codec, v: Value, post: Trivia, rest: string)
    requires ValueOk(codec, v) && v.Scalar? && Delimited(rest)
    ensures var at := Emit(v, EmitTrivia(post, rest)); var r := SkipValue(codec, at);
      r.Some? && r.value.0 == at && |r.value.1| <= |at| && at[..|at| - |r.value.1|] == v.text + ReadGlue(post)
  {
    var p := EmitTrivia(post, "");
    EmitTriviaAppend(post, rest);
    ValueStart(codec, v, p + rest);
    ScalarSkipped(v.text, p + rest);
    ScalarTailAppend(p, rest);
    CutText(v.text, p, ScalarTail(p), rest);
    ScalarTailIsSuffix(p);
  }

  lemma CutText(text: string, p: string, t: string, rest: string)
    requires |t| <= |p|
    ensures var at := text + (p + rest); at[..|at| - |t + rest|] == text + p[..|p| - |t|]
  {
  }

  lemma {:induction false} ScalarTailIsSuffix(x: string)
    ensures ScalarTail(x) == x[|x| - |ScalarTail(x)|..]
  {
    if x != "" && !IsStop(x[0]) {
      ScalarTailIsSuffix(x[1..]);
    }
  }

  lemma ValueReads(codec: Codec, v: Value, post: Trivia, rest: string)
    requires ValueOk(codec, v) && Delimited(rest)
    ensures var at := Emit(v, EmitTrivia(post, rest)); var r := SkipValue(codec, at);
      r.Some? && r.value.0 == at && |r.value.1| <= |at| && at[..|at| - |r.value.1|] == ReadText(v, post)
  {
    if v.Scalar? {
      ScalarReads(codec, v, post, rest);
    } else {
      ValueSkipped(codec, v, EmitTrivia(post, rest));
      EmitAppend(v, EmitTrivia(post, rest));
    }
  }

  /** Of a present path, a lookup reads the text of the value; of a scalar, with what is glued to it up to the
      first stop byte. */
  lemma LookupReads(codec: Codec, lead: Trivia, root: Value, tail: string, path: seq<string>)
    requires TriviaOk(lead) && root.Obj? && ValueOk(codec, root)
    requires path != [] && CrispPath(codec, root, path) && Get(codec, root, path).Some?
    ensures LookupText(codec, Document(lead, root, tail), path)
      == Some(ReadText(Get(codec, root, path).value, PostAt(codec, root, path)))
  {
    LookupFinds(codec, lead, root, tail, path);
    GetOk(codec, root, path);
    var rest := AfterPathSplits(codec, root, path, tail);
    var sub, post := Get(codec, root, path).value, PostAt(codec, root, path);
    ValueReads(codec, sub, post, rest);
    LookupOf(codec, Document(lead, root, tail), path, Emit(sub, EmitTrivia(post, rest)), ReadText(sub, post));
  }

  lemma LookupOf(codec: Codec, doc: string, path: seq<string>, at: string, text: string)
    requires path != [] && Lookup(codec, doc, path) == SkipValue(codec, at)
    requires var r := SkipValue(codec, at);
      r.Some? && r.value.0 == at && |r.value.1| <= |at| && at[..|at| - |r.value.1|] == text
    ensures LookupText(codec, doc, path) == Some(text)
  {
    LookupCut(codec, doc, path, at, SkipValue(codec, at).value.1);
  }

  lemma LookupFinds(codec: Codec, lead: Trivia, root: Value, tail: string, path: seq<string>)
    requires TriviaOk(lead) && root.Obj? && ValueOk(codec, root)
    requires path != [] && CrispPath(codec, root, path) && Get(codec, root, path).Some?
    ensures Lookup(codec, Document(lead, root, tail), path)
      == SkipValue(codec, Emit(Get(codec, root, path).value, AfterPath(codec, root, path, tail)))
  {
    RootOpens(codec, lead, root, tail);
    LookupInFinds(codec, root, path, tail);
  }

  lemma LookupCut(codec: Codec, doc: string, path: seq<string>, at: string, rest: string)
    requires path != [] && Lookup(codec, doc, path) == Some((at, rest)) && |rest| <= |at|
    ensures LookupText(codec, doc, path) == Some(at[..|at| - |rest|])
  {
  }

  // ----- comments with stop bytes -----

  lemma ScalarIntoComment(codec: Codec, v: Value, a: string, left: string)
    requires ValueOk(codec, v) && v.Scalar? && NoStops(a) && left != "" && IsStop(left[0])
    ensures var s := Emit(v, ['/', '*'] + (a + left)); SkipValue(codec, s) == Some((s, left))
  {
    var after := ['/', '*'] + (a + left);
    ValueStart(codec, v, after);
    ScalarSkipped(v.text, after);
    SlashesScanned('*', a, left);
  }

  /** A stop byte in a comment glued to a scalar ends the scan there, and the search goes on in the comment. */
  lemma KeySpanEntersComment(codec: Codec, ms: Members, k: string, key: string, a: string, b: string)
    requires ms.Member? && MembersOk(codec, ms) && Name(codec, ms) != Some(key)
    requires ms.value.Scalar? && ms.post.BlockComment? && ms.post.body == a + b
    requires NoStops(a) && b != "" && IsStop(b[0])
    ensures KeySpan(codec, EmitMembers(ms, k), key)
      == KeySpan(codec, b + (['*', '/'] + EmitTrivia(ms.post.rest, AfterMember(ms, k))), key)
  {
    var rest := ['*', '/'] + EmitTrivia(ms.post.rest, AfterMember(ms, k));
    MemberSkipped(codec, ms, k);
    Tail(a, b, rest);
    assert AfterValue(ms, k) == ['/', '*'] + (a + (b + rest));
    ScalarIntoComment(codec, ms.value, a, b + rest);
  }

  /** A member with unread text before and after it is read under its own name. */
  lemma MemberIsRead(codec: Codec, inner: Members, c: string, rest: string, key: string)
    requires inner.Member? && MembersOk(codec, inner) && Name(codec, inner) == Some(key)
    requires inner.value.Scalar? ==> inner.post.Blank?
    ensures var after := AfterValue(inner, c + rest);
      KeySpan(codec, ([','] + EmitMembers(inner, c)) + rest, key) == Some((Text(inner.value) + after, after))
  {
    var after := AfterValue(inner, c + rest);
    InnerText(inner, c, rest);
    KeySpanPastComma(codec, EmitMembers(inner, c + rest), key);
    MemberSkipped(codec, inner, c + rest);
    ValueSkipped(codec, inner.value, after);
    EmitAppend(inner.value, after);
  }

  lemma InnerText(inner: Members, c: string, rest: string)
    ensures ([','] + EmitMembers(inner, c)) + rest == [','] + EmitMembers(inner, c + rest)
  {
    EmitMembersAppend(inner, c);
    EmitMembersAppend(inner, c + rest);
    Tail(EmitMembers(inner, ""), c, rest);
    Tail([','], EmitMembers(inner, c), rest);
  }

  lemma CommentIsRead(codec: Codec, ms: Members, k: string, key: string, a: string, inner: Members, c: string)
    requires ms.Member? && MembersOk(codec, ms) && Name(codec, ms) != Some(key)
    requires ms.value.Scalar? && ms.post.BlockComment? && NoStops(a)
    requires ms.post.body == a + ([','] + EmitMembers(inner, c))
    requires inner.Member? && MembersOk(codec, inner) && Name(codec, inner) == Some(key)
    requires inner.value.Scalar? ==> inner.post.Blank?
    ensures var after := AfterValue(inner, c + (['*', '/'] + EmitTrivia(ms.post.rest, AfterMember(ms, k))));
      KeySpan(codec, EmitMembers(ms, k), key) == Some((Text(inner.value) + after, after))
  {
    KeySpanEntersComment(codec, ms, k, key, a, [','] + EmitMembers(inner, c));
    MemberIsRead(codec, inner, c, ['*', '/'] + EmitTrivia(ms.post.rest, AfterMember(ms, k)), key);
  }

  /** So a lookup can read a member out of a comment, whatever else the document holds: in
      `{"a":1/*,"b":7 */,"b":2}` the path `b` reads 7. */
  lemma LookupReadsComment(codec: Codec, lead: Trivia, root: Value, tail: string, key: string, a: string,
                           inner: Members, c: string)
    requires TriviaOk(lead) && root.Obj? && ValueOk(codec, root) && root.members.Member?
    requires Name(codec, root.members) != Some(key) && root.members.value.Scalar? && root.members.post.BlockComment?
    requires root.members.post.body == a + ([','] + EmitMembers(inner, c)) && NoStops(a)
    requires inner.Member? && MembersOk(codec, inner) && Name(codec, inner) == Some(key)
    requires inner.value.Scalar? ==> inner.post.Blank?
    ensures LookupText(codec, Document(lead, root, tail), [key]) == Some(Text(inner.value))
  {
    RootOpens(codec, lead, root, tail);
    CommentIsRead(codec, root.members, ['}'] + tail, key, a, inner, c);
  }

  /** The lookup of `path` passes only what it can, and reads no scalar with a comment glued to it. */
  predicate Readable(codec: Codec, root: Value, path: seq<string>)
    requires path != []
  {
    && CrispPath(codec, root, path)
    && (Get(codec, root, path).Some? ==> Fits(codec, root, path, Get(codec, root, path).value))
  }

  // ----- changing one value -----

  /** Give the first member called `key` the value `x`. */
  function SetValue(codec: Codec, ms: Members, key: string, x: Value): (r: Members)
    requires Found(codec, ms, key).Member?
    ensures r.Member?
    decreases ms
  {
    if Name(codec, ms) == Some(key) then ms.(value := x) else ms.(rest := SetValue(codec, ms.rest, key, x))
  }

  function Put(codec: Codec, v: Value, path: seq<string>, w: Value): Value
    requires Get(codec, v, path).Some?
    decreases path
  {
    if path == [] then w
    else
      var f := Found(codec, v.members, path[0]);
      v.(members := SetValue(codec, v.members, path[0], Put(codec, f.value, path[1..], w)))
  }

  lemma {:induction false} SetValueFinds(codec: Codec, ms: Members, key: string, x: Value, other: string)
    requires Found(codec, ms, key).Member?
    ensures var f := Found(codec, ms, other); var g := Found(codec, SetValue(codec, ms, key, x), other);
      && g.Member? == f.Member?
      && (other == key ==> g == f.(value := x))
      && (other != key && f.Member? ==> g.value == f.value && g.post == f.post)
    decreases ms
  {
    if Name(codec, ms) != Some(key) {
      SetValueFinds(codec, ms.rest, key, x, other);
    }
  }

  lemma {:induction false} SetValueCrisp(codec: Codec, ms: Members, key: string, x: Value, other: string)
    requires Found(codec, ms, key).Member?
    requires CrispBefore(codec, ms, other)
    requires other != key && x.Scalar? ==> Swallowed(Found(codec, ms, key).post)
    ensures CrispBefore(codec, SetValue(codec, ms, key, x), other)
    decreases ms
  {
    if Name(codec, ms) != Some(key) && Name(codec, ms) != Some(other) {
      SetValueCrisp(codec, ms.rest, key, x, other);
    }
  }

  lemma {:induction false} SetValueOk(codec: Codec, ms: Members, key: string, x: Value)
    requires Found(codec, ms, key).Member? && MembersOk(codec, ms) && ValueOk(codec, x)
    ensures MembersOk(codec, SetValue(codec, ms, key, x))
    decreases ms
  {
    if Name(codec, ms) != Some(key) {
      SetValueOk(codec, ms.rest, key, x);
    }
  }

  /** `s'` is `s` with its suffix `a` exchanged for `a'`. */
  ghost predicate Exchanged(s: string, s': string, a: string, a': string) {
    |a| <= |s| && s[|s| - |a|..] == a && s' == s[..|s| - |a|] + a'
  }

  lemma ExchangedAfter(p: string, s: string, s': string, a: string, a': string)
    requires Exchanged(s, s', a, a')
    ensures Exchanged(p + s, p + s', a, a')
  {
    var n := |p + s| - |a|;
    assert (p + s)[..n] == p + s[..|s| - |a|];
    assert (p + s)[n..] == a;
  }

  lemma ExchangedAll(a: string, a': string)
    ensures Exchanged(a, a', a, a')
  {
  }

  lemma {:induction false} SetValueBytes(codec: Codec, ms: Members, key: string, x: Value, k: string, a: string,
                                         a': string)
    requires Found(codec, ms, key).Member?
    requires var f := Found(codec, ms, key);
      Exchanged(Emit(f.value, AfterValue(f, k)), Emit(x, AfterValue(f, k)), a, a')
    ensures Exchanged(EmitMembers(ms, k), EmitMembers(SetValue(codec, ms, key, x), k), a, a')
    decreases ms
  {
    var ms' := SetValue(codec, ms, key, x);
    if Name(codec, ms) == Some(key) {
      HeadPrefix(ms, k);
      HeadPrefix(ms', k);
      ExchangedAfter(Head(ms), Emit(ms.value, AfterValue(ms, k)), Emit(x, AfterValue(ms, k)), a, a');
    } else {
      SetValueBytes(codec, ms.rest, key, x, k, a, a');
      MemberPrefix(ms, k);
      MemberPrefix(ms', k);
      ExchangedAfter(WholeMember(ms), EmitMembers(ms.rest, k), EmitMembers(ms'.rest, k), a, a');
    }
  }

  /** Changing one value of the tree changes its bytes and no others. */
  lemma {:induction false} PutBytes(codec: Codec, v: Value, path: seq<string>, w: Value, k: string)
    requires Get(codec, v, path).Some?
    ensures var after := AfterPath(codec, v, path, k);
      Exchanged(Emit(v, k), Emit(Put(codec, v, path, w), k), Emit(Get(codec, v, path).value, after), Emit(w, after))
    decreases path
  {
    var after := AfterPath(codec, v, path, k);
    var a, a' := Emit(Get(codec, v, path).value, after), Emit(w, after);
    if path == [] {
      ExchangedAll(a, a');
    } else {
      var f := Found(codec, v.members, path[0]);
      PutBytes(codec, f.value, path[1..], w, AfterValue(f, ['}'] + k));
      ObjectBytes(codec, v, path[0], Put(codec, f.value, path[1..], w), k, a, a');
    }
  }

  lemma ObjectBytes(codec: Codec, v: Value, key: string, x: Value, k: string, a: string, a': string)
    requires v.Obj? && Found(codec, v.members, key).Member?
    requires var f := Found(codec, v.members, key);
      Exchanged(Emit(f.value, AfterValue(f, ['}'] + k)), Emit(x, AfterValue(f, ['}'] + k)), a, a')
    ensures Exchanged(Emit(v, k), Emit(v.(members := SetValue(codec, v.members, key, x)), k), a, a')
  {
    SetValueBytes(codec, v.members, key, x, ['}'] + k, a, a');
    BodyBytes(v.gap, v.members, SetValue(codec, v.members, key, x), ['}'] + k, a, a');
  }

  /** Between the braces of an object that stays non-empty. */
  lemma BodyBytes(gap: Trivia, ms: Members, ms': Members, k: string, a: string, a': string)
    requires ms.Member? && ms'.Member?
    requires Exchanged(EmitMembers(ms, k), EmitMembers(ms', k), a, a')
    ensures Exchanged(['{'] + EmitBody(gap, ms, k), ['{'] + EmitBody(gap, ms', k), a, a')
  {
    ExchangedAfter(['{'], EmitMembers(ms, k), EmitMembers(ms', k), a, a');
  }

  lemma {:induction false} PutOk(codec: Codec, v: Value, path: seq<string>, w: Value)
    requires ValueOk(codec, v) && ValueOk(codec, w) && Get(codec, v, path).Some?
    ensures ValueOk(codec, Put(codec, v, path, w))
    ensures path != [] ==> Put(codec, v, path, w).Obj?
    decreases path
  {
    if path != [] {
      var f := Found(codec, v.members, path[0]);
      FoundOk(codec, v.members, path[0]);
      PutOk(codec, f.value, path[1..], w);
      SetValueOk(codec, v.members, path[0], Put(codec, f.value, path[1..], w));
    }
  }

  /** Reading below the changed value reads the new value. */
  lemma {:induction false} GetPut(codec: Codec, v: Value, path: seq<string>, w: Value, below: seq<string>)
    requires Get(codec, v, path).Some?
    ensures Get(codec, Put(codec, v, path, w), path + below) == Get(codec, w, below)
    decreases path
  {
    if path == [] {
      assert path + below == below;
    } else {
      var f := Found(codec, v.members, path[0]);
      var x := Put(codec, f.value, path[1..], w);
      SetValueFinds(codec, v.members, path[0], x, path[0]);
      GetPut(codec, f.value, path[1..], w, below);
      assert (path + below)[1..] == path[1..] + below;
    }
  }

  /** Neither path leads through the other. */
  predicate Apart(p: seq<string>, q: seq<string>) {
    !(p <= q) && !(q <= p)
  }

  lemma ApartTails(p: seq<string>, q: seq<string>)
    requires Apart(p, q)
    ensures p != [] && q != []
    ensures p[0] == q[0] ==> Apart(p[1..], q[1..])
  {
    assert p == [p[0]] + p[1..] && q == [q[0]] + q[1..];
  }

  /** Paths through the changed value stay crisp. */
  lemma {:induction false} PutCrisp(codec: Codec, v: Value, path: seq<string>, w: Value, below: seq<string>)
    requires Get(codec, v, path).Some? && CrispPath(codec, v, path) && CrispPath(codec, w, below)
    ensures CrispPath(codec, Put(codec, v, path, w), path + below)
    decreases path
  {
    if path == [] {
      assert path + below == below;
    } else {
      var f := Found(codec, v.members, path[0]);
      var x := Put(codec, f.value, path[1..], w);
      PutCrisp(codec, f.value, path[1..], w, below);
      SetValueFinds(codec, v.members, path[0], x, path[0]);
      SetValueCrisp(codec, v.members, path[0], x, path[0]);
      assert (path + below)[1..] == path[1..] + below;
    }
  }

  /** Other lookups can pass over `w` at `path`: it is no scalar, or no comment glued to it there holds a
      stop byte. */
  predicate Passable(codec: Codec, v: Value, path: seq<string>, w: Value)
    requires path != [] && Get(codec, v, path).Some?
  {
    w.Scalar? ==> Swallowed(PostAt(codec, v, path))
  }

  /** Paths apart from a passable change stay crisp, and what follows their values stays as it was. */
  lemma {:induction false} PutReadableApart(codec: Codec, v: Value, path: seq<string>, w: Value, other: seq<string>)
    requires Get(codec, v, path).Some? && Apart(path, other)
    requires path != [] && Passable(codec, v, path, w)
    requires CrispPath(codec, v, other)
    ensures CrispPath(codec, Put(codec, v, path, w), other)
    ensures Get(codec, Put(codec, v, path, w), other) == Get(codec, v, other)
    ensures other != [] && (Get(codec, v, other).Some?
      ==> PostAt(codec, Put(codec, v, path, w), other) == PostAt(codec, v, other))
    decreases path
  {
    ApartTails(path, other);
    var f := Found(codec, v.members, path[0]);
    var x := Put(codec, f.value, path[1..], w);
    assert |path| > 1 ==> f.value.Obj? && x.Obj?;
    SetValueFinds(codec, v.members, path[0], x, other[0]);
    SetValueCrisp(codec, v.members, path[0], x, other[0]);
    if path[0] == other[0] {
      PutReadableApart(codec, f.value, path[1..], w, other[1..]);
    }
  }

  /** The value put at a path is followed by what followed the old one. */
  lemma {:induction false} PutPost(codec: Codec, v: Value, path: seq<string>, w: Value)
    requires path != [] && Get(codec, v, path).Some?
    ensures Get(codec, Put(codec, v, path, w), path) == Some(w)
    ensures PostAt(codec, Put(codec, v, path, w), path) == PostAt(codec, v, path)
    decreases path
  {
    var f := Found(codec, v.members, path[0]);
    SetValueFinds(codec, v.members, path[0], Put(codec, f.value, path[1..], w), path[0]);
    if |path| > 1 {
      PutPost(codec, f.value, path[1..], w);
    } else {
      assert path[1..] == [];
    }
  }

  // ----- cutting a text off after a new value -----

  /** The members up to the first one called `key`, which is given the value `x` and nothing after it. */
  function Truncated(codec: Codec, ms: Members, key: string, x: Value): (r: Members)
    requires Found(codec, ms, key).Member?
    ensures r.Member?
    decreases ms
  {
    if Name(codec, ms) == Some(key) then ms.(value := x, post := End, rest := NoMembers)
    else ms.(rest := Truncated(codec, ms.rest, key, x))
  }

  lemma {:induction false} TruncatedReads(codec: Codec, ms: Members, key: string, x: Value, t: string)
    requires Found(codec, ms, key).Member? && MembersOk(codec, ms) && CrispBefore(codec, ms, key)
    requires ValueOk(codec, x) && Delimited(t)
    ensures KeySpan(codec, EmitMembers(Truncated(codec, ms, key, x), t), key) == Some((Emit(x, t), t))
    decreases ms
  {
    var r := Truncated(codec, ms, key, x);
    TruncatedOk(codec, ms, key, x);
    if Name(codec, ms) == Some(key) {
      MemberSkipped(codec, r, t);
      ValueSkipped(codec, x, t);
    } else {
      KeySpanPasses(codec, r, t, key);
      TruncatedReads(codec, ms.rest, key, x, t);
    }
  }

  lemma {:induction false} TruncatedOk(codec: Codec, ms: Members, key: string, x: Value)
    requires Found(codec, ms, key).Member? && MembersOk(codec, ms) && ValueOk(codec, x)
    ensures MembersOk(codec, Truncated(codec, ms, key, x))
    decreases ms
  {
    if Name(codec, ms) != Some(key) {
      TruncatedOk(codec, ms.rest, key, x);
    }
  }

  lemma {:induction false} TruncatedBytes(codec: Codec, ms: Members, key: string, x: Value, k: string, t: string)
    requires Found(codec, ms, key).Member?
    ensures var f := Found(codec, ms, key);
      Exchanged(EmitMembers(ms, k), EmitMembers(Truncated(codec, ms, key, x), t), Emit(f.value, AfterValue(f, k)),
        Emit(x, t))
    decreases ms
  {
    var r, f := Truncated(codec, ms, key, x), Found(codec, ms, key);
    var a, a' := Emit(f.value, AfterValue(f, k)), Emit(x, t);
    if Name(codec, ms) == Some(key) {
      HeadPrefix(ms, k);
      HeadPrefix(r, t);
      ExchangedAll(a, a');
      ExchangedAfter(Head(ms), a, a', a, a');
    } else {
      TruncatedBytes(codec, ms.rest, key, x, k, t);
      MemberPrefix(ms, k);
      MemberPrefix(r, t);
      ExchangedAfter(WholeMember(ms), EmitMembers(ms.rest, k), EmitMembers(r.rest, t), a, a');
    }
  }

  lemma {:induction false} ScalarTailDelimited(x: string)
    ensures Delimited(ScalarTail(x))
  {
    if x != "" && !IsStop(x[0]) {
      ScalarTailDelimited(x[1..]);
    }
  }
}
