/** The editor's main guarantees: set-then-get, framing, and preservation of every other byte. */
module SpliceTheorems {
  import opened Common
  import opened JsonScanner
  import opened JsoncGrammar
  import opened JsoncTree
  import opened ConfigSplice
  import opened SpliceLaws

  lemma NotAllSpace(codec: Codec, lead: Trivia, root: Value, tail: string)
    requires root.Obj?
    ensures !AllSpace(Document(lead, root, tail))
  {
    EmitTriviaAppend(lead, Emit(root, tail));
    assert Document(lead, root, tail)[|EmitTrivia(lead, "")|] == '{';
  }

  /** The text of an object from just inside its brace on. */
  function Body(v: Value, k: string): string
    requires v.Obj?
  {
    EmitBody(v.gap, v.members, ['}'] + k)
  }

  /** The descent from inside the object `v`, which `k` follows in the document. */
  function Edit(codec: Codec, doc: string, v: Value, k: string, parts: seq<string>, enc: string, unit: string,
                depth: nat): Outcome
    requires v.Obj? && parts != [] && |Body(v, k)| <= |doc|
  {
    Descend(codec, doc, Body(v, k), parts, enc, unit, depth)
  }

  lemma SpliceDescends(codec: Codec, lead: Trivia, root: Value, tail: string, parts: seq<string>, enc: string,
                       unit: string)
    requires TriviaOk(lead) && root.Obj? && ValueOk(codec, root) && parts != [] && "" !in parts
    ensures |Body(root, tail)| <= |Document(lead, root, tail)|
    ensures Splice(codec, Document(lead, root, tail), parts, enc, unit)
      == Edit(codec, Document(lead, root, tail), root, tail, parts, enc, unit, 0)
  {
    NotAllSpace(codec, lead, root, tail);
    RootOpens(codec, lead, root, tail);
  }

  /** Changing one value of the root changes the document in the same place. */
  lemma PutInDocument(codec: Codec, lead: Trivia, root: Value, tail: string, path: seq<string>, w: Value)
    requires Get(codec, root, path).Some?
    ensures var after := AfterPath(codec, root, path, tail);
      Exchanged(Document(lead, root, tail), Document(lead, Put(codec, root, path, w), tail),
        Emit(Get(codec, root, path).value, after), Emit(w, after))
  {
    var root', after := Put(codec, root, path, w), AfterPath(codec, root, path, tail);
    PutBytes(codec, root, path, w, tail);
    EmitTriviaAppend(lead, Emit(root, tail));
    EmitTriviaAppend(lead, Emit(root', tail));
    ExchangedAfter(EmitTrivia(lead, ""), Emit(root, tail), Emit(root', tail),
      Emit(Get(codec, root, path).value, after), Emit(w, after));
  }

  // ----- one level of the descent -----

  lemma {:induction false} FoundWithin(codec: Codec, ms: Members, key: string, k: string)
    requires Found(codec, ms, key).Member?
    ensures var f := Found(codec, ms, key); |Emit(f.value, AfterValue(f, k))| <= |EmitMembers(ms, k)|
    decreases ms
  {
    if Name(codec, ms) == Some(key) {
      HeadPrefix(ms, k);
    } else {
      FoundWithin(codec, ms.rest, key, k);
      MemberPrefix(ms, k);
    }
  }

  /** What the descent reads for the first path component: the value of the found member. */
  lemma ReadStep(codec: Codec, v: Value, key: string, k: string)
    requires v.Obj? && ValueOk(codec, v) && CrispBefore(codec, v.members, key) && Found(codec, v.members, key).Member?
    ensures var f := Found(codec, v.members, key); var after := AfterValue(f, ['}'] + k);
      && ValueOk(codec, f.value)
      && |Emit(f.value, after)| <= |Body(v, k)|
      && SkipValue(codec, Emit(f.value, after)).Some?
      && SkipValue(codec, Emit(f.value, after)).value.0 == Emit(f.value, after)
      && KeySpan(codec, Body(v, k), key) == SkipValue(codec, Emit(f.value, after))
      && Inside(Emit(f.value, after))
           == if f.value.Obj? then Some(Body(f.value, after)) else None
  {
    var f := Found(codec, v.members, key);
    var after := AfterValue(f, ['}'] + k);
    KeySpanInBody(codec, v.gap, v.members, ['}'] + k, key);
    FoundOk(codec, v.members, key);
    FoundWithin(codec, v.members, key, ['}'] + k);
    ValueSkipped(codec, f.value, after);
    ValueStart(codec, f.value, after);
    if f.value.Obj? {
      assert Emit(f.value, after)[1..] == Body(f.value, after);
    }
  }

  /** Through an object the descent goes on below; at anything else it stops. */
  lemma DescendStep(codec: Codec, doc: string, v: Value, parts: seq<string>, k: string, enc: string, unit: string,
                    depth: nat)
    returns (w: Value, after: string)
    requires |parts| > 1 && v.Obj? && ValueOk(codec, v) && CrispBefore(codec, v.members, parts[0])
    requires Found(codec, v.members, parts[0]).Member?
    requires |Body(v, k)| <= |doc|
    ensures w == Found(codec, v.members, parts[0]).value
      && after == AfterValue(Found(codec, v.members, parts[0]), ['}'] + k)
    ensures ValueOk(codec, w)
    ensures w.Obj? ==> |Body(w, after)| <= |doc|
    ensures Edit(codec, doc, v, k, parts, enc, unit, depth)
      == if w.Obj? then Edit(codec, doc, w, after, parts[1..], enc, unit, depth + 1) else Err(NotAnObject(depth + 1))
  {
    ReadStep(codec, v, parts[0], k);
    w := Found(codec, v.members, parts[0]).value;
    after := AfterValue(Found(codec, v.members, parts[0]), ['}'] + k);
  }

  // ----- replacing -----

  /** A path of several components, seen from its first member. */
  lemma PathBelow(codec: Codec, v: Value, path: seq<string>, k: string)
    requires |path| > 1 && Get(codec, v, path).Some? && CrispPath(codec, v, path)
    ensures v.Obj? && CrispBefore(codec, v.members, path[0])
    ensures var f := Found(codec, v.members, path[0]);
      && f.Member? && f.value.Obj?
      && CrispPath(codec, f.value, path[1..])
      && Get(codec, f.value, path[1..]) == Get(codec, v, path)
      && AfterPath(codec, f.value, path[1..], AfterValue(f, ['}'] + k)) == AfterPath(codec, v, path, k)
      && PostAt(codec, f.value, path[1..]) == PostAt(codec, v, path)
  {
    assert path[1..] != [];
  }

  lemma ReplaceStep(codec: Codec, doc: string, v: Value, parts: seq<string>, k: string, enc: string, unit: string,
                    depth: nat)
    requires v.Obj? && ValueOk(codec, v) && |parts| == 1 && CrispPath(codec, v, parts)
    requires Get(codec, v, parts).Some?
    requires |Body(v, k)| <= |doc|
    ensures var at := Emit(Get(codec, v, parts).value, AfterPath(codec, v, parts, k));
      && |at| <= |doc| && SkipValue(codec, at).Some?
      && Edit(codec, doc, v, k, parts, enc, unit, depth)
        == Ok(doc[..|doc| - |at|] + enc + SkipValue(codec, at).value.1)
  {
    var f := Found(codec, v.members, parts[0]);
    assert parts[1..] == [];
    assert AfterPath(codec, v, parts, k) == AfterPath(codec, f.value, parts[1..], AfterValue(f, ['}'] + k));
    ReadStep(codec, v, parts[0], k);
  }

  /** The descent to a present path ends by exchanging what the scanner takes for its value, which starts at `at`. */
  lemma {:induction false} DescendReplaces(codec: Codec, doc: string, v: Value, parts: seq<string>, k: string,
                                           enc: string, unit: string, depth: nat, at: string)
    requires v.Obj? && ValueOk(codec, v) && parts != [] && CrispPath(codec, v, parts)
    requires Get(codec, v, parts).Some?
    requires at == Emit(Get(codec, v, parts).value, AfterPath(codec, v, parts, k))
    requires |Body(v, k)| <= |doc|
    ensures |at| <= |doc| && SkipValue(codec, at).Some?
    ensures Edit(codec, doc, v, k, parts, enc, unit, depth)
      == Ok(doc[..|doc| - |at|] + enc + SkipValue(codec, at).value.1)
    decreases parts
  {
    if |parts| == 1 {
      ReplaceStep(codec, doc, v, parts, k, enc, unit, depth);
    } else {
      PathBelow(codec, v, parts, k);
      var w, after := DescendStep(codec, doc, v, parts, k, enc, unit, depth);
      DescendReplaces(codec, doc, w, parts[1..], after, enc, unit, depth + 1, at);
    }
  }

  /** Splice replace. On a well-formed document, setting a present path yields the document with just that
      value exchanged, if and only if the old value is no scalar with a comment glued to it; otherwise bytes of
      the comment go with it, as when 2 replaces the 1 of `{"a": 1/* c */}` and the comment loses its opening
      mark. The document with the value exchanged differs from the old one there only, and is well-formed. */
  lemma SpliceReplaces(codec: Codec, lead: Trivia, root: Value, tail: string, parts: seq<string>, leaf: Value,
                       unit: string)
    requires TriviaOk(lead) && root.Obj? && ValueOk(codec, root) && ValueOk(codec, leaf)
    requires parts != [] && "" !in parts
    requires Get(codec, root, parts).Some? && CrispPath(codec, root, parts)
    ensures var root' := Put(codec, root, parts, leaf); var after := AfterPath(codec, root, parts, tail);
      var sub := Get(codec, root, parts).value;
      && (Splice(codec, Document(lead, root, tail), parts, Text(leaf), unit) == Ok(Document(lead, root', tail))
          <==> Fits(codec, root, parts, sub))
      && Exchanged(Document(lead, root, tail), Document(lead, root', tail), Text(sub) + after, Text(leaf) + after)
      && ValueOk(codec, root') && root'.Obj?
  {
    PutOk(codec, root, parts, leaf);
    PutText(codec, lead, root, tail, parts, leaf);
    SpliceTakes(codec, lead, root, tail, parts, Text(leaf), unit);
  }

  /** The text of the document with one value exchanged. */
  lemma PutText(codec: Codec, lead: Trivia, root: Value, tail: string, parts: seq<string>, leaf: Value)
    requires Get(codec, root, parts).Some?
    ensures var doc, doc' := Document(lead, root, tail), Document(lead, Put(codec, root, parts, leaf), tail);
      var after := AfterPath(codec, root, parts, tail); var sub := Get(codec, root, parts).value;
      && Exchanged(doc, doc', Text(sub) + after, Text(leaf) + after)
      && |Emit(sub, after)| <= |doc| && doc' == doc[..|doc| - |Emit(sub, after)|] + Text(leaf) + after
  {
    var doc, doc' := Document(lead, root, tail), Document(lead, Put(codec, root, parts, leaf), tail);
    var sub, after := Get(codec, root, parts).value, AfterPath(codec, root, parts, tail);
    PutInDocument(codec, lead, root, tail, parts, leaf);
    EmitAppend(sub, after);
    EmitAppend(leaf, after);
    Assemble(doc, doc', Emit(sub, after), Text(leaf), after);
  }

  /** The splice exchanges exactly the value, or more. */
  lemma SpliceTakes(codec: Codec, lead: Trivia, root: Value, tail: string, parts: seq<string>, enc: string,
                    unit: string)
    requires TriviaOk(lead) && root.Obj? && ValueOk(codec, root) && parts != [] && "" !in parts
    requires Get(codec, root, parts).Some? && CrispPath(codec, root, parts)
    ensures var doc := Document(lead, root, tail); var after := AfterPath(codec, root, parts, tail);
      var at := Emit(Get(codec, root, parts).value, after);
      && |at| <= |doc|
      && (Splice(codec, doc, parts, enc, unit) == Ok(doc[..|doc| - |at|] + enc + after)
          <==> Fits(codec, root, parts, Get(codec, root, parts).value))
  {
    var doc, sub, after := Document(lead, root, tail), Get(codec, root, parts).value,
      AfterPath(codec, root, parts, tail);
    SpliceDescends(codec, lead, root, tail, parts, enc, unit);
    DescendReplaces(codec, doc, root, parts, tail, enc, unit, 0, Emit(sub, after));
    TakenExactlyIff(codec, root, parts, tail);
    SameLengths(doc[..|doc| - |Emit(sub, after)|] + enc, SkipValue(codec, Emit(sub, after)).value.1, after);
  }

  /** The scanner takes exactly the value for the value. */
  lemma TakenExactlyIff(codec: Codec, root: Value, parts: seq<string>, tail: string)
    requires ValueOk(codec, root) && parts != [] && Get(codec, root, parts).Some?
    ensures var sub, after := Get(codec, root, parts).value, AfterPath(codec, root, parts, tail);
      var taken := SkipValue(codec, Emit(sub, after));
      && taken.Some?
      && (taken.value.1 == after <==> Fits(codec, root, parts, sub))
      && (|taken.value.1| == |after| ==> taken.value.1 == after)
  {
    GetOk(codec, root, parts);
    ValueSkipped(codec, Get(codec, root, parts).value, AfterPath(codec, root, parts, tail));
    PostAtDelimits(codec, root, parts, tail);
  }

  lemma SameLengths(front: string, x: string, y: string)
    ensures front + x == front + y ==> |x| == |y|
  {
    assert |front + x| == |front| + |x| && |front + y| == |front| + |y|;
  }

  lemma Assemble(s: string, s': string, a: string, enc: string, after: string)
    requires Exchanged(s, s', a, enc + after)
    ensures s' == s[..|s| - |a|] + enc + after
  {
  }

  /** Reading the path back yields exactly the new text, if and only if the new value is no scalar with a
      comment glued behind it. */
  lemma ReplaceThenRead(codec: Codec, lead: Trivia, root: Value, tail: string, parts: seq<string>, leaf: Value,
                        unit: string)
    requires TriviaOk(lead) && root.Obj? && ValueOk(codec, root) && ValueOk(codec, leaf)
    requires parts != [] && "" !in parts
    requires Get(codec, root, parts).Some? && Readable(codec, root, parts)
    ensures var r := Splice(codec, Document(lead, root, tail), parts, Text(leaf), unit);
      && r.Ok?
      && (LookupText(codec, r.doc, parts) == Some(Text(leaf)) <==> Fits(codec, root, parts, leaf))
  {
    SpliceReplaces(codec, lead, root, tail, parts, leaf, unit);
    var root' := Put(codec, root, parts, leaf);
    PutCrisp(codec, root, parts, leaf, []);
    assert parts + [] == parts;
    PutPost(codec, root, parts, leaf);
    LookupIsGet(codec, lead, root', tail, parts);
  }

  /** A top-level scalar that is replaced reads back exactly even when its glued comment is damaged. */
  lemma TopLevelReplaceThenRead(codec: Codec, lead: Trivia, root: Value, tail: string, key: string, leaf: Value,
                                unit: string)
    requires TriviaOk(lead) && root.Obj? && ValueOk(codec, root) && ValueOk(codec, leaf) && key != ""
    requires Get(codec, root, [key]).Some? && CrispPath(codec, root, [key])
    ensures var r := Splice(codec, Document(lead, root, tail), [key], Text(leaf), unit);
      && r.Ok?
      && (LookupText(codec, r.doc, [key]) == Some(Text(leaf))
          <==> Get(codec, root, [key]).value.Scalar? || Fits(codec, root, [key], leaf))
  {
    if Get(codec, root, [key]).value.Scalar? {
      ScalarReplaced(codec, lead, root, tail, key, leaf, unit);
    } else {
      ReplaceThenRead(codec, lead, root, tail, [key], leaf, unit);
    }
  }

  lemma ScalarReplaced(codec: Codec, lead: Trivia, root: Value, tail: string, key: string, leaf: Value, unit: string)
    requires TriviaOk(lead) && root.Obj? && ValueOk(codec, root) && ValueOk(codec, leaf) && key != ""
    requires Get(codec, root, [key]).Some? && CrispPath(codec, root, [key]) && Get(codec, root, [key]).value.Scalar?
    ensures var r := Splice(codec, Document(lead, root, tail), [key], Text(leaf), unit);
      r.Ok? && LookupText(codec, r.doc, [key]) == Some(Text(leaf))
  {
    var f := Found(codec, root.members, key);
    var at := Emit(f.value, AfterValue(f, ['}'] + tail));
    FoundOk(codec, root.members, key);
    ScalarLeaves(codec, f.value, AfterValue(f, ['}'] + tail));
    var t := SkipValue(codec, at).value.1;
    TopLevelSplice(codec, lead, root, tail, key, Text(leaf), unit);
    CutReads(codec, lead, root, tail, key, leaf, t);
  }

  /** A new top-level value with any delimited text after it is read exactly. */
  lemma CutReads(codec: Codec, lead: Trivia, root: Value, tail: string, key: string, leaf: Value, t: string)
    requires TriviaOk(lead) && root.Obj? && ValueOk(codec, root) && ValueOk(codec, leaf) && Delimited(t)
    requires Found(codec, root.members, key).Member? && CrispBefore(codec, root.members, key)
    ensures var doc := Document(lead, root, tail); var f := Found(codec, root.members, key);
      var at := Emit(f.value, AfterValue(f, ['}'] + tail));
      |at| <= |doc| && LookupText(codec, doc[..|doc| - |at|] + Text(leaf) + t, [key]) == Some(Text(leaf))
  {
    var doc, f := Document(lead, root, tail), Found(codec, root.members, key);
    var at := Emit(f.value, AfterValue(f, ['}'] + tail));
    TruncatedDocument(codec, lead, root, tail, key, leaf, t);
    TruncatedReads(codec, root.members, key, leaf, t);
    EmitAppend(leaf, t);
    LookupTop(codec, doc[..|doc| - |at|] + Text(leaf) + t, EmitMembers(Truncated(codec, root.members, key, leaf), t),
      key, Text(leaf), t);
  }

  lemma LookupTop(codec: Codec, doc: string, body: string, key: string, text: string, rest: string)
    requires Inside(doc) == Some(body) && KeySpan(codec, body, key) == Some((text + rest, rest))
    ensures LookupText(codec, doc, [key]) == Some(text)
  {
  }

  lemma TopLevelSplice(codec: Codec, lead: Trivia, root: Value, tail: string, key: string, enc: string, unit: string)
    requires TriviaOk(lead) && root.Obj? && ValueOk(codec, root) && key != ""
    requires Found(codec, root.members, key).Member? && CrispPath(codec, root, [key])
    ensures var doc := Document(lead, root, tail); var f := Found(codec, root.members, key);
      var at := Emit(f.value, AfterValue(f, ['}'] + tail));
      && |at| <= |doc| && SkipValue(codec, at).Some?
      && Splice(codec, doc, [key], enc, unit) == Ok(doc[..|doc| - |at|] + enc + SkipValue(codec, at).value.1)
  {
    TopLevelPath(codec, root, key, tail);
    SpliceDescends(codec, lead, root, tail, [key], enc, unit);
    var f := Found(codec, root.members, key);
    DescendReplaces(codec, Document(lead, root, tail), root, [key], tail, enc, unit, 0,
      Emit(f.value, AfterValue(f, ['}'] + tail)));
  }

  lemma TopLevelPath(codec: Codec, root: Value, key: string, k: string)
    requires root.Obj? && Found(codec, root.members, key).Member?
    ensures var f := Found(codec, root.members, key);
      Get(codec, root, [key]) == Some(f.value) && AfterPath(codec, root, [key], k) == AfterValue(f, ['}'] + k)
  {
    var f := Found(codec, root.members, key);
    assert [key][1..] == [] && Get(codec, f.value, []) == Some(f.value);
    assert AfterPath(codec, root, [key], k) == AfterPath(codec, f.value, [], AfterValue(f, ['}'] + k));
  }

  lemma ScalarLeaves(codec: Codec, v: Value, k: string)
    requires ValueOk(codec, v) && v.Scalar?
    ensures SkipValue(codec, Emit(v, k)).Some? && Delimited(SkipValue(codec, Emit(v, k)).value.1)
  {
    ValueStart(codec, v, k);
    ValueSkipped(codec, v, k);
    ScalarTailDelimited(Emit(v, k));
  }

  /** The document cut off after a new value for a top-level key, and followed by `t`. */
  lemma TruncatedDocument(codec: Codec, lead: Trivia, root: Value, tail: string, key: string, leaf: Value, t: string)
    requires TriviaOk(lead) && root.Obj? && ValueOk(codec, root) && Found(codec, root.members, key).Member?
    ensures var doc := Document(lead, root, tail); var f := Found(codec, root.members, key);
      var at := Emit(f.value, AfterValue(f, ['}'] + tail));
      && |at| <= |doc|
      && Inside(doc[..|doc| - |at|] + Text(leaf) + t) == Some(EmitMembers(Truncated(codec, root.members, key, leaf), t))
  {
    var f, members := Found(codec, root.members, key), EmitMembers(Truncated(codec, root.members, key, leaf), t);
    var at := Emit(f.value, AfterValue(f, ['}'] + tail));
    TruncatedBytes(codec, root.members, key, leaf, ['}'] + tail, t);
    EmitAppend(leaf, t);
    CutDocument(lead, root, tail, members, at, Text(leaf), t);
    InsideObject(lead, members);
  }

  lemma InsideObject(lead: Trivia, members: string)
    requires TriviaOk(lead)
    ensures Inside(EmitTrivia(lead, ['{'] + members)) == Some(members)
  {
    IgnorableSkipsTrivia(lead, ['{'] + members);
    assert Ignorable(['{'] + members) == ['{'] + members && (['{'] + members)[1..] == members;
  }

  lemma CutDocument(lead: Trivia, root: Value, tail: string, members: string, at: string, text: string, t: string)
    requires root.Obj? && root.members.Member?
    requires Exchanged(EmitMembers(root.members, ['}'] + tail), members, at, text + t)
    ensures var doc := Document(lead, root, tail);
      |at| <= |doc| && doc[..|doc| - |at|] + text + t == EmitTrivia(lead, ['{'] + members)
  {
    var x, x' := ['{'] + EmitMembers(root.members, ['}'] + tail), ['{'] + members;
    FullObject(root, tail);
    ExchangedAfter(['{'], EmitMembers(root.members, ['}'] + tail), members, at, text + t);
    CutLead(lead, x, x', at, text, t);
  }

  lemma CutLead(lead: Trivia, x: string, x': string, at: string, text: string, t: string)
    requires Exchanged(x, x', at, text + t)
    ensures var doc := EmitTrivia(lead, x); |at| <= |doc| && doc[..|doc| - |at|] + text + t == EmitTrivia(lead, x')
  {
    LeadBytes(lead, x, x', at, text + t);
    Assemble(EmitTrivia(lead, x), EmitTrivia(lead, x'), at, text, t);
  }

  lemma FullObject(v: Value, k: string)
    requires v.Obj? && v.members.Member?
    ensures Emit(v, k) == ['{'] + EmitMembers(v.members, ['}'] + k)
  {
  }

  lemma LeadBytes(lead: Trivia, x: string, x': string, a: string, a': string)
    requires Exchanged(x, x', a, a')
    ensures Exchanged(EmitTrivia(lead, x), EmitTrivia(lead, x'), a, a')
  {
    EmitTriviaAppend(lead, x);
    EmitTriviaAppend(lead, x');
    ExchangedAfter(EmitTrivia(lead, ""), x, x', a, a');
  }

  /** Every path that is neither above nor below the changed one reads the same bytes as before. */
  lemma ReplaceKeepsOthers(codec: Codec, lead: Trivia, root: Value, tail: string, parts: seq<string>, leaf: Value,
                           unit: string, other: seq<string>)
    requires TriviaOk(lead) && root.Obj? && ValueOk(codec, root) && ValueOk(codec, leaf)
    requires parts != [] && "" !in parts
    requires Get(codec, root, parts).Some? && Readable(codec, root, parts) && Passable(codec, root, parts, leaf)
    requires Apart(parts, other) && other != [] && CrispPath(codec, root, other)
    ensures var r := Splice(codec, Document(lead, root, tail), parts, Text(leaf), unit);
      r.Ok? && LookupText(codec, r.doc, other) == LookupText(codec, Document(lead, root, tail), other)
  {
    SpliceReplaces(codec, lead, root, tail, parts, leaf, unit);
    PutReadableApart(codec, root, parts, leaf, other);
    SameRead(codec, lead, root, Put(codec, root, parts, leaf), tail, other);
  }

  /** A path with the same value and the same glue reads the same in both documents. */
  lemma SameRead(codec: Codec, lead: Trivia, root: Value, root': Value, tail: string, path: seq<string>)
    requires TriviaOk(lead) && root.Obj? && root'.Obj? && ValueOk(codec, root) && ValueOk(codec, root')
    requires path != [] && CrispPath(codec, root, path) && CrispPath(codec, root', path)
    requires Get(codec, root, path) == Get(codec, root', path)
    requires Get(codec, root, path).Some? ==>
      var v := Get(codec, root, path).value;
      ReadText(v, PostAt(codec, root, path)) == ReadText(v, PostAt(codec, root', path))
    ensures LookupText(codec, Document(lead, root, tail), path) == LookupText(codec, Document(lead, root', tail), path)
  {
    if Get(codec, root, path).Some? {
      LookupReads(codec, lead, root, tail, path);
      LookupReads(codec, lead, root', tail, path);
    } else {
      LookupIsGet(codec, lead, root, tail, path);
      LookupIsGet(codec, lead, root', tail, path);
    }
  }

  /** A new scalar put in front of a comment with a stop byte uncovers what the comment holds: in
      `{"a":"s"/*,"b":7 */}` setting a to 1 makes the path `b` read 7. */
  lemma ReplaceUncoversComment(codec: Codec, lead: Trivia, root: Value, tail: string, key: string, leaf: Value,
                               unit: string, other: string, a: string, inner: Members, c: string)
    requires TriviaOk(lead) && root.Obj? && ValueOk(codec, root) && ValueOk(codec, leaf) && leaf.Scalar?
    requires key != "" && other != key && root.members.Member? && Name(codec, root.members) == Some(key)
    requires !root.members.value.Scalar? && root.members.post.BlockComment?
    requires root.members.post.body == a + ([','] + EmitMembers(inner, c)) && NoStops(a)
    requires inner.Member? && MembersOk(codec, inner) && Name(codec, inner) == Some(other)
    requires inner.value.Scalar? ==> inner.post.Blank?
    requires CrispPath(codec, root, [other]) && Get(codec, root, [other]).None?
    ensures LookupText(codec, Document(lead, root, tail), [other]) == None
    ensures var r := Splice(codec, Document(lead, root, tail), [key], Text(leaf), unit);
      r.Ok? && LookupText(codec, r.doc, [other]) == Some(Text(inner.value))
  {
    assert [key][1..] == [] && Get(codec, root, [key]) == Some(root.members.value);
    LookupIsGet(codec, lead, root, tail, [other]);
    SpliceReplaces(codec, lead, root, tail, [key], leaf, unit);
    LookupReadsComment(codec, lead, Put(codec, root, [key], leaf), tail, other, a, inner, c);
  }

  // ----- inserting -----

  /** A missing path is added to the object at `up`, which has no member called `key`. */
  ghost predicate MissingAt(codec: Codec, root: Value, up: seq<string>, key: string) {
    && CrispPath(codec, root, up)
    && (match Get(codec, root, up)
        case None => false
        case Some(v) => v.Obj? && CrispBefore(codec, v.members, key) && Found(codec, v.members, key).NoMembers?)
  }

  function Parent(codec: Codec, root: Value, up: seq<string>): Value
    requires Get(codec, root, up).Some?
  {
    Get(codec, root, up).value
  }

  lemma MissingBelow(codec: Codec, v: Value, up: seq<string>, key: string, k: string)
    requires up != [] && MissingAt(codec, v, up, key)
    ensures v.Obj? && CrispBefore(codec, v.members, up[0])
    ensures var f := Found(codec, v.members, up[0]);
      && f.Member? && f.value.Obj?
      && MissingAt(codec, f.value, up[1..], key)
      && Parent(codec, f.value, up[1..]) == Parent(codec, v, up)
      && AfterPath(codec, f.value, up[1..], AfterValue(f, ['}'] + k)) == AfterPath(codec, v, up, k)
  {
    assert up[1..] == [] || up[1..] != [];
    assert Get(codec, Found(codec, v.members, up[0]).value, up[1..]) == Get(codec, v, up);
  }

  lemma InsertHere(codec: Codec, doc: string, v: Value, parts: seq<string>, k: string, enc: string, unit: string,
                   depth: nat)
    requires parts != [] && v.Obj? && ValueOk(codec, v) && MissingAt(codec, v, [], parts[0])
    requires |Body(v, k)| <= |doc|
    ensures Edit(codec, doc, v, k, parts, enc, unit, depth) == InsertInto(codec, doc, v, k, parts, enc, unit, depth)
  {
    KeySpanInBody(codec, v.gap, v.members, ['}'] + k, parts[0]);
  }

  /** What the descent for a missing path does in the end: insert into the parent object. */
  function InsertInto(codec: Codec, doc: string, parent: Value, after: string, parts: seq<string>, enc: string,
                      unit: string, depth: nat): Outcome
    requires parent.Obj? && parts != [] && |Body(parent, after)| <= |doc|
  {
    Insert(codec, doc, Body(parent, after), NestText(codec, parts, enc, unit, depth), depth, unit)
  }

  /** One key down the path to the parent. */
  lemma StepTowards(codec: Codec, doc: string, v: Value, parts: seq<string>, up: seq<string>, key: string, k: string,
                    enc: string, unit: string, depth: nat) returns (w: Value, after: string)
    requires up != [] && up < parts
    requires v.Obj? && ValueOk(codec, v) && MissingAt(codec, v, up, key)
    requires |Body(v, k)| <= |doc|
    ensures w.Obj? && ValueOk(codec, w) && MissingAt(codec, w, up[1..], key)
    ensures |Body(w, after)| <= |doc|
    ensures Parent(codec, w, up[1..]) == Parent(codec, v, up)
    ensures AfterPath(codec, w, up[1..], after) == AfterPath(codec, v, up, k)
    ensures Edit(codec, doc, v, k, parts, enc, unit, depth)
      == Edit(codec, doc, w, after, parts[1..], enc, unit, depth + 1)
  {
    MissingBelow(codec, v, up, key, k);
    w, after := DescendStep(codec, doc, v, parts, k, enc, unit, depth);
  }

  lemma StepSplits(parts: seq<string>, up: seq<string>, below: seq<string>)
    requires parts == up + below && up != []
    ensures up <= parts && parts[1..] == up[1..] + below
    ensures below != [] ==> up < parts
  {
  }

  lemma NoStep(codec: Codec, v: Value, parts: seq<string>, below: seq<string>, k: string)
    requires parts == [] + below
    ensures parts == below && Parent(codec, v, []) == v && AfterPath(codec, v, [], k) == k
  {
  }

  /** The descent reaches the parent with the rest of the path. */
  lemma {:induction false} DescendsTo(codec: Codec, doc: string, v: Value, parts: seq<string>, up: seq<string>,
                                      below: seq<string>, k: string, enc: string, unit: string, depth: nat,
                                      parent: Value, after: string, reached: nat)
    requires parts == up + below
    requires v.Obj? && ValueOk(codec, v) && below != [] && MissingAt(codec, v, up, below[0])
    requires |Body(v, k)| <= |doc|
    requires parent == Parent(codec, v, up) && after == AfterPath(codec, v, up, k) && reached == depth + |up|
    ensures |Body(parent, after)| <= |doc|
    ensures Edit(codec, doc, v, k, parts, enc, unit, depth)
      == Edit(codec, doc, parent, after, below, enc, unit, reached)
    decreases up
  {
    if up == [] {
      NoStep(codec, v, parts, below, k);
    } else {
      StepSplits(parts, up, below);
      var w, k' := StepTowards(codec, doc, v, parts, up, below[0], k, enc, unit, depth);
      DescendsTo(codec, doc, w, parts[1..], up[1..], below, k', enc, unit, depth + 1, parent, after, reached);
    }
  }

  lemma DescendInserts(codec: Codec, doc: string, v: Value, up: seq<string>, below: seq<string>, k: string,
                       enc: string, unit: string, depth: nat, parent: Value, after: string, reached: nat)
    requires v.Obj? && ValueOk(codec, v) && below != [] && MissingAt(codec, v, up, below[0])
    requires |Body(v, k)| <= |doc|
    requires parent == Parent(codec, v, up) && after == AfterPath(codec, v, up, k) && reached == depth + |up|
    ensures |Body(parent, after)| <= |doc|
    ensures Edit(codec, doc, v, k, up + below, enc, unit, depth)
      == InsertInto(codec, doc, parent, after, below, enc, unit, reached)
  {
    GetOk(codec, v, up);
    DescendsTo(codec, doc, v, up + below, up, below, k, enc, unit, depth, parent, after, reached);
    InsertHere(codec, doc, parent, below, after, enc, unit, reached);
  }

  /** The object at `up` with the chain of new members for `below` added. */
  function NewParent(codec: Codec, root: Value, up: seq<string>, below: seq<string>, leaf: Value, unit: string): Value
    requires below != [] && Get(codec, root, up).Some? && Parent(codec, root, up).Obj?
  {
    Extended(Parent(codec, root, up), Break(unit, |up| + 1), codec.encode(below[0]),
      Nested(codec, below, leaf, unit, |up|))
  }

  /** The tree after the insertion. */
  function Inserted(codec: Codec, root: Value, up: seq<string>, below: seq<string>, leaf: Value, unit: string): Value
    requires below != [] && Get(codec, root, up).Some? && Parent(codec, root, up).Obj?
  {
    Put(codec, root, up, NewParent(codec, root, up, below, leaf, unit))
  }

  /** The bytes of the inserted run. */
  function InsertedRun(codec: Codec, v: Value, depth: nat, below: seq<string>, enc: string, unit: string): string
    requires v.Obj? && below != []
  {
    Separator(v.members) + "\n" + Repeat(unit, depth + 1) + NestText(codec, below, enc, unit, depth)
  }

  /** Where the scan puts the new member. */
  function ScanSuffix(v: Value, k: string): string
    requires v.Obj?
  {
    if v.members.NoMembers? then ['}'] + k else ScanEnd(v.members, ['}'] + k)
  }

  lemma ObjectInsertion(codec: Codec, v: Value, k: string)
    requires v.Obj? && ValueOk(codec, v) && InStep(v.members)
    ensures InsertPoint(codec, Body(v, k), None) == Some((ScanSuffix(v, k), v.members.NoMembers?))
  {
    if v.members.NoMembers? {
      InsertPointIgnores(codec, v.gap, ['}'] + k, None);
      assert Ignorable(['}'] + k) == ['}'] + k;
    } else {
      InsertPointFinds(codec, v.members, ['}'] + k, None);
    }
  }

  /** The two texts differ by one run inserted before the suffix `at`. */
  ghost predicate OneInsertion(s: string, s': string, run: string, at: string) {
    |at| <= |s| && s == s[..|s| - |at|] + at && s' == s[..|s| - |at|] + run + at
  }

  /** The insertion is the right one, if and only if the scan ends in no comment glued to the last value. */
  lemma InsertsRun(codec: Codec, doc: string, doc': string, v: Value, k: string, below: seq<string>, enc: string,
                   unit: string, depth: nat)
    requires v.Obj? && ValueOk(codec, v) && InStep(v.members) && below != [] && |Body(v, k)| <= |doc|
    requires |ScanSuffix(v, k)| <= |doc|
    requires OneInsertion(doc, doc', InsertedRun(codec, v, depth, below, enc, unit), InsertSuffix(v, k))
    ensures InsertInto(codec, doc, v, k, below, enc, unit, depth) == Ok(doc') <==> SafeEnd(v.members)
  {
    ObjectInsertion(codec, v, k);
    ScanSuffixRight(v, k);
    RightPlaceIff(doc, doc', InsertedRun(codec, v, depth, below, enc, unit), InsertSuffix(v, k), ScanSuffix(v, k),
      SafeEnd(v.members));
  }

  /** The scan ends where a new member belongs, or past the line break where one belongs. */
  lemma ScanSuffixRight(v: Value, k: string)
    requires v.Obj?
    ensures SafeEnd(v.members) ==> ScanSuffix(v, k) == InsertSuffix(v, k)
    ensures !SafeEnd(v.members) ==> |ScanSuffix(v, k)| < |InsertSuffix(v, k)| && InsertSuffix(v, k)[0] == '/'
    ensures !SafeEnd(v.members) ==> Separator(v.members) == ","
  {
    if v.members.Member? {
      ScanEndIsAfterLast(v.members, ['}'] + k);
    }
  }

  /** A run put in front of another suffix than `at` gives another text. */
  lemma RightPlaceIff(doc: string, doc': string, run: string, at: string, at': string, right: bool)
    requires OneInsertion(doc, doc', run, at) && |at'| <= |doc|
    requires right ==> at' == at
    requires !right ==> |at'| < |at| && run != "" && run[0] != at[0]
    ensures doc[..|doc| - |at'|] + run + at' == doc' <==> right
  {
    if !right {
      MisplacedDiffers(doc, run, at, at');
    }
  }

  lemma MisplacedDiffers(doc: string, run: string, at: string, at': string)
    requires |at'| < |at| <= |doc| && doc[|doc| - |at|..] == at && run != "" && run[0] != at[0]
    ensures doc[..|doc| - |at|] + run + at != doc[..|doc| - |at'|] + run + at'
  {
    var i := |doc| - |at|;
    assert (doc[..i] + run + at)[i] == run[0];
    assert (doc[..|doc| - |at'|] + run + at')[i] == doc[i] == at[0];
  }

  /** Splice insert. When the path is missing and the insertion scan keeps in step with the members of the
      object it is added to, as with a blank after each colon and no stop byte in a comment glued to a scalar,
      setting the path inserts one run of bytes where the grammar wants it, if and only if no line comment is
      glued to a last value that is a scalar. The document with that run is well-formed and changes no other
      byte. */
  lemma SpliceInserts(codec: Codec, lead: Trivia, root: Value, tail: string, up: seq<string>, below: seq<string>,
                      leaf: Value, unit: string)
    requires TriviaOk(lead) && root.Obj? && ValueOk(codec, root) && ValueOk(codec, leaf)
    requires below != [] && "" !in up + below && AllBlank(unit) && KeysOk(codec, below)
    requires MissingAt(codec, root, up, below[0]) && InStep(Parent(codec, root, up).members)
    ensures var root' := Inserted(codec, root, up, below, leaf, unit);
      && (Splice(codec, Document(lead, root, tail), up + below, Text(leaf), unit) == Ok(Document(lead, root', tail))
          <==> SafeEnd(Parent(codec, root, up).members))
      && OneInsertion(Document(lead, root, tail), Document(lead, root', tail),
           InsertedRun(codec, Parent(codec, root, up), |up|, below, Text(leaf), unit),
           InsertSuffix(Parent(codec, root, up), AfterPath(codec, root, up, tail)))
      && ValueOk(codec, root') && root'.Obj?
  {
    InsertedIsOk(codec, root, up, below, leaf, unit);
    InsertedBytes(codec, lead, root, tail, up, below, leaf, unit);
    SpliceIsInsert(codec, lead, root, tail, up, below, Text(leaf), unit,
      Document(lead, Inserted(codec, root, up, below, leaf, unit), tail));
  }

  lemma SpliceIsInsert(codec: Codec, lead: Trivia, root: Value, tail: string, up: seq<string>, below: seq<string>,
                       enc: string, unit: string, doc': string)
    requires TriviaOk(lead) && root.Obj? && ValueOk(codec, root)
    requires below != [] && "" !in up + below
    requires MissingAt(codec, root, up, below[0]) && InStep(Parent(codec, root, up).members)
    requires OneInsertion(Document(lead, root, tail), doc',
      InsertedRun(codec, Parent(codec, root, up), |up|, below, enc, unit),
      InsertSuffix(Parent(codec, root, up), AfterPath(codec, root, up, tail)))
    ensures Splice(codec, Document(lead, root, tail), up + below, enc, unit) == Ok(doc')
      <==> SafeEnd(Parent(codec, root, up).members)
  {
    var doc, parent, after := Document(lead, root, tail), Parent(codec, root, up), AfterPath(codec, root, up, tail);
    SpliceReaches(codec, lead, root, tail, up, below, enc, unit, parent, after);
    GetOk(codec, root, up);
    ScanSuffixRight(parent, after);
    InsertsRun(codec, doc, doc', parent, after, below, enc, unit, |up|);
  }

  /** The splice of a missing path is an insertion into the object it is added to. */
  lemma SpliceReaches(codec: Codec, lead: Trivia, root: Value, tail: string, up: seq<string>, below: seq<string>,
                      enc: string, unit: string, parent: Value, after: string)
    requires TriviaOk(lead) && root.Obj? && ValueOk(codec, root)
    requires below != [] && "" !in up + below && MissingAt(codec, root, up, below[0])
    requires parent == Parent(codec, root, up) && after == AfterPath(codec, root, up, tail)
    ensures |Body(parent, after)| <= |Document(lead, root, tail)|
    ensures Splice(codec, Document(lead, root, tail), up + below, enc, unit)
      == InsertInto(codec, Document(lead, root, tail), parent, after, below, enc, unit, |up|)
  {
    SpliceDescends(codec, lead, root, tail, up + below, enc, unit);
    DescendInserts(codec, Document(lead, root, tail), root, up, below, tail, enc, unit, 0, parent, after, |up|);
  }

  lemma InsertedIsOk(codec: Codec, root: Value, up: seq<string>, below: seq<string>, leaf: Value, unit: string)
    requires root.Obj? && ValueOk(codec, root) && ValueOk(codec, leaf) && AllBlank(unit)
    requires below != [] && KeysOk(codec, below) && MissingAt(codec, root, up, below[0])
    ensures ValueOk(codec, Inserted(codec, root, up, below, leaf, unit))
      && Inserted(codec, root, up, below, leaf, unit).Obj?
  {
    GetOk(codec, root, up);
    NestedOk(codec, below, leaf, unit, |up|);
    BreakEmits(unit, |up| + 1, "");
    ExtendedOk(codec, Parent(codec, root, up), Break(unit, |up| + 1), codec.encode(below[0]),
      Nested(codec, below, leaf, unit, |up|));
    PutOk(codec, root, up, NewParent(codec, root, up, below, leaf, unit));
  }

  lemma NewParentBytes(codec: Codec, root: Value, up: seq<string>, below: seq<string>, leaf: Value, unit: string,
                       k: string)
    requires ValueOk(codec, root) && AllBlank(unit) && below != [] && MissingAt(codec, root, up, below[0])
    ensures var parent := Parent(codec, root, up); var at := InsertSuffix(parent, k);
      Exchanged(Emit(parent, k), Emit(NewParent(codec, root, up, below, leaf, unit), k), at,
        InsertedRun(codec, parent, |up|, below, Text(leaf), unit) + at)
  {
    var parent, value, key := Parent(codec, root, up), Nested(codec, below, leaf, unit, |up|), codec.encode(below[0]);
    GetOk(codec, root, up);
    BreakEmits(unit, |up| + 1, key + ": " + Text(value));
    ExtendedBytes(parent, Break(unit, |up| + 1), key, value, k);
    NestTextIsNested(codec, below, leaf, unit, |up|);
    RunRegroup(Separator(parent.members), Repeat(unit, |up| + 1), key + ": " + Text(value));
  }

  lemma RunRegroup(comma: string, indent: string, member: string)
    ensures comma + ("\n" + indent + member) == comma + "\n" + indent + member
  {
  }

  lemma InsertedBytes(codec: Codec, lead: Trivia, root: Value, tail: string, up: seq<string>, below: seq<string>,
                      leaf: Value, unit: string)
    requires root.Obj? && ValueOk(codec, root) && AllBlank(unit) && below != []
    requires MissingAt(codec, root, up, below[0])
    ensures var parent := Parent(codec, root, up);
      OneInsertion(Document(lead, root, tail), Document(lead, Inserted(codec, root, up, below, leaf, unit), tail),
        InsertedRun(codec, parent, |up|, below, Text(leaf), unit),
        InsertSuffix(parent, AfterPath(codec, root, up, tail)))
  {
    var parent, parent', after := Parent(codec, root, up), NewParent(codec, root, up, below, leaf, unit),
      AfterPath(codec, root, up, tail);
    var at, run := InsertSuffix(parent, after), InsertedRun(codec, parent, |up|, below, Text(leaf), unit);
    NewParentBytes(codec, root, up, below, leaf, unit, after);
    PutInDocument(codec, lead, root, tail, up, parent');
    ExchangedTrans(Document(lead, root, tail), Document(lead, Inserted(codec, root, up, below, leaf, unit), tail),
      Emit(parent, after), Emit(parent', after), at, run + at);
    ExchangeInserts(Document(lead, root, tail), Document(lead, Inserted(codec, root, up, below, leaf, unit), tail),
      at, run);
  }

  lemma ExchangeInserts(s: string, s': string, at: string, run: string)
    requires Exchanged(s, s', at, run + at)
    ensures OneInsertion(s, s', run, at)
  {
  }

  /** An exchange within an exchanged suffix is an exchange. */
  lemma ExchangedTrans(s: string, s': string, a: string, a': string, b: string, b': string)
    requires Exchanged(s, s', a, a') && Exchanged(a, a', b, b')
    ensures Exchanged(s, s', b, b')
  {
    var n := |s| - |a|;
    assert s == s[..n] + a;
    assert s[..|s| - |b|] == s[..n] + a[..|a| - |b|];
    assert s[|s| - |b|..] == a[|a| - |b|..];
  }

  /** Reading the new path back yields exactly the encoded value, if and only if the new value is no scalar
      put in front of a comment: setting b to 2 in `{"a": "s"/*c*/}` makes it read `2/*c*/`. */
  lemma InsertThenRead(codec: Codec, lead: Trivia, root: Value, tail: string, up: seq<string>, below: seq<string>,
                       leaf: Value, unit: string)
    requires TriviaOk(lead) && root.Obj? && ValueOk(codec, root) && ValueOk(codec, leaf)
    requires below != [] && "" !in up + below && AllBlank(unit) && KeysOk(codec, below)
    requires MissingAt(codec, root, up, below[0])
    requires InStep(Parent(codec, root, up).members) && SafeEnd(Parent(codec, root, up).members)
    ensures var r := Splice(codec, Document(lead, root, tail), up + below, Text(leaf), unit);
      && r.Ok?
      && (LookupText(codec, r.doc, up + below) == Some(Text(leaf))
          <==> Roomy(Parent(codec, root, up), Nested(codec, below, leaf, unit, |up|)))
  {
    SpliceInserts(codec, lead, root, tail, up, below, leaf, unit);
    InsertedReads(codec, root, up, below, leaf, unit);
    LookupIsGet(codec, lead, Inserted(codec, root, up, below, leaf, unit), tail, up + below);
  }

  lemma {:induction false} PostAtBelow(codec: Codec, v: Value, path: seq<string>, below: seq<string>)
    requires Get(codec, v, path).Some? && below != [] && Get(codec, Get(codec, v, path).value, below).Some?
    ensures Get(codec, v, path + below) == Get(codec, Get(codec, v, path).value, below)
    ensures PostAt(codec, v, path + below) == PostAt(codec, Get(codec, v, path).value, below)
    decreases path
  {
    if path == [] {
      assert path + below == below;
    } else {
      assert (path + below)[1..] == path[1..] + below;
      PostAtBelow(codec, Found(codec, v.members, path[0]).value, path[1..], below);
    }
  }

  /** A crisp read below the changed value is one in the whole tree, and is followed by the same. */
  lemma CrispInPut(codec: Codec, root: Value, up: seq<string>, w: Value, below: seq<string>)
    requires Get(codec, root, up).Some? && CrispPath(codec, root, up)
    requires below != [] && CrispPath(codec, w, below)
    ensures var root' := Put(codec, root, up, w);
      && CrispPath(codec, root', up + below)
      && Get(codec, root', up + below) == Get(codec, w, below)
      && (Get(codec, w, below).Some? ==> PostAt(codec, root', up + below) == PostAt(codec, w, below))
  {
    GetPut(codec, root, up, w, below);
    GetPut(codec, root, up, w, []);
    assert up + [] == up;
    PutCrisp(codec, root, up, w, below);
    if Get(codec, w, below).Some? {
      PostAtBelow(codec, Put(codec, root, up, w), up, below);
    }
  }

  lemma InsertedReads(codec: Codec, root: Value, up: seq<string>, below: seq<string>, leaf: Value, unit: string)
    requires root.Obj? && AllBlank(unit) && below != [] && KeysOk(codec, below)
    requires MissingAt(codec, root, up, below[0])
    ensures var root' := Inserted(codec, root, up, below, leaf, unit);
      && CrispPath(codec, root', up + below) && Get(codec, root', up + below) == Some(leaf)
      && (Fits(codec, root', up + below, leaf)
          <==> Roomy(Parent(codec, root, up), Nested(codec, below, leaf, unit, |up|)))
  {
    var key, value, parent' := codec.encode(below[0]), Nested(codec, below, leaf, unit, |up|),
      NewParent(codec, root, up, below, leaf, unit);
    ExtendedFinds(codec, Parent(codec, root, up), Break(unit, |up| + 1), key, value, below[0]);
    NestedGet(codec, below, leaf, unit, |up|, below[1..]);
    var g := Found(codec, parent'.members, below[0]);
    assert Get(codec, parent', below) == Get(codec, g.value, below[1..]);
    assert PostAt(codec, parent', below) == if |below| == 1 then g.post else PostAt(codec, g.value, below[1..]);
    CrispInPut(codec, root, up, parent', below);
  }

  /** All lookups that do not lead to, through or below the new path read the same bytes as before; of a path
      that leads nowhere this needs the new value to hide no stop byte in a comment glued to it. */
  lemma InsertKeepsOthers(codec: Codec, lead: Trivia, root: Value, tail: string, up: seq<string>, below: seq<string>,
                          leaf: Value, unit: string, other: seq<string>)
    requires TriviaOk(lead) && root.Obj? && ValueOk(codec, root) && ValueOk(codec, leaf)
    requires below != [] && "" !in up + below && AllBlank(unit) && KeysOk(codec, below)
    requires MissingAt(codec, root, up, below[0])
    requires InStep(Parent(codec, root, up).members) && SafeEnd(Parent(codec, root, up).members)
    requires Get(codec, root, other).Some? || Permeable(Parent(codec, root, up), Nested(codec, below, leaf, unit, |up|))
    requires Apart(up + below, other) && other != [] && CrispPath(codec, root, other)
    ensures var r := Splice(codec, Document(lead, root, tail), up + below, Text(leaf), unit);
      r.Ok? && LookupText(codec, r.doc, other) == LookupText(codec, Document(lead, root, tail), other)
  {
    SpliceInserts(codec, lead, root, tail, up, below, leaf, unit);
    InsertedKeeps(codec, root, up, below, leaf, unit, other);
    SameRead(codec, lead, root, Inserted(codec, root, up, below, leaf, unit), tail, other);
  }

  /** Two paths of two trees read the same: the same value with the same glue, or nothing. */
  ghost predicate ReadsAlike(codec: Codec, v: Value, p: seq<string>, w: Value, q: seq<string>)
    requires p != [] && q != []
  {
    && Get(codec, v, p) == Get(codec, w, q)
    && (Get(codec, v, p).Some? ==>
          var sub := Get(codec, v, p).value;
          ReadText(sub, PostAt(codec, v, p)) == ReadText(sub, PostAt(codec, w, q)))
  }

  lemma InsertedKeeps(codec: Codec, root: Value, up: seq<string>, below: seq<string>, leaf: Value, unit: string,
                      other: seq<string>)
    requires root.Obj? && ValueOk(codec, root) && AllBlank(unit) && below != [] && KeysOk(codec, below)
    requires MissingAt(codec, root, up, below[0])
    requires InStep(Parent(codec, root, up).members) && SafeEnd(Parent(codec, root, up).members)
    requires Get(codec, root, other).Some? || Permeable(Parent(codec, root, up), Nested(codec, below, leaf, unit, |up|))
    requires Apart(up + below, other) && other != [] && CrispPath(codec, root, other)
    ensures var root' := Inserted(codec, root, up, below, leaf, unit);
      CrispPath(codec, root', other) && ReadsAlike(codec, root, other, root', other)
  {
    var parent' := NewParent(codec, root, up, below, leaf, unit);
    if up <= other {
      var rest := other[|up|..];
      assert other == up + rest;
      ApartBelow(up, below, rest);
      CrispBelow(codec, root, up, rest);
      NewParentKeeps(codec, root, up, below, leaf, unit, rest);
      CrispInPut(codec, root, up, parent', rest);
    } else {
      assert up <= up + below && Apart(up, other);
      PutReadableApart(codec, root, up, parent', other);
    }
  }

  /** Without that, a key that was not there can be read out of a comment: in `{"a":"s"/*,"b":7 */}` setting c
      to 2 makes the path `b` read 7. */
  lemma InsertUncoversComment(codec: Codec, lead: Trivia, root: Value, tail: string, key: string, leaf: Value,
                              unit: string, other: string, a: string, inner: Members, c: string)
    requires TriviaOk(lead) && root.Obj? && ValueOk(codec, root) && ValueOk(codec, leaf) && leaf.Scalar?
    requires key != "" && other != key && AllBlank(unit) && KeysOk(codec, [key]) && root.members.Member?
    requires MissingAt(codec, root, [], key) && MissingAt(codec, root, [], other)
    requires InStep(root.members) && SafeEnd(root.members)
    requires var left := LastLeft(root.members);
      left.BlockComment? && left.body == a + ([','] + EmitMembers(inner, c)) && NoStops(a)
    requires inner.Member? && MembersOk(codec, inner) && Name(codec, inner) == Some(other)
    requires inner.value.Scalar? ==> inner.post.Blank?
    ensures LookupText(codec, Document(lead, root, tail), [other]) == None
    ensures var r := Splice(codec, Document(lead, root, tail), [] + [key], Text(leaf), unit);
      r.Ok? && LookupText(codec, r.doc, [other]) == Some(Text(inner.value))
  {
    LookupIsGet(codec, lead, root, tail, [other]);
    SpliceInserts(codec, lead, root, tail, [], [key], leaf, unit);
    TopLevelInserted(codec, root, key, leaf, unit);
    BreakEmits(unit, 1, "");
    UncoveredReads(codec, lead, root, tail, Break(unit, 1), codec.encode(key), leaf, other, a, inner, c);
  }

  lemma TopLevelInserted(codec: Codec, root: Value, key: string, leaf: Value, unit: string)
    requires root.Obj? && root.members.Member?
    ensures Inserted(codec, root, [], [key], leaf, unit)
      == Obj(root.gap, Appended(root.members, Break(unit, 1), codec.encode(key), leaf))
  {
    assert [key][0] == key && |[key]| == 1;
  }

  lemma UncoveredReads(codec: Codec, lead: Trivia, root: Value, tail: string, pre: Trivia, enc: string, leaf: Value,
                       other: string, a: string, inner: Members, c: string)
    requires TriviaOk(lead) && root.Obj? && ValueOk(codec, root) && root.members.Member?
    requires TriviaOk(pre) && IsLiteral(codec, enc) && ValueOk(codec, leaf) && leaf.Scalar?
    requires codec.decode(enc) != Some(other)
    requires CrispBefore(codec, root.members, other) && Found(codec, root.members, other).NoMembers?
    requires var left := LastLeft(root.members);
      left.BlockComment? && left.body == a + ([','] + EmitMembers(inner, c)) && NoStops(a)
    requires inner.Member? && MembersOk(codec, inner) && Name(codec, inner) == Some(other)
    requires inner.value.Scalar? ==> inner.post.Blank?
    ensures LookupText(codec, Document(lead, Obj(root.gap, Appended(root.members, pre, enc, leaf)), tail), [other])
      == Some(Text(inner.value))
  {
    var ms, k, left := Appended(root.members, pre, enc, leaf), ['}'] + tail, LastLeft(root.members);
    var root', after := Obj(root.gap, ms), AfterValue(inner, c + (['*', '/'] + EmitTrivia(left.rest, k)));
    AppendedOk(codec, root.members, pre, enc, leaf);
    RootOpens(codec, lead, root', tail);
    AppendedUncovers(codec, root.members, pre, enc, leaf, other, k, left, a, inner, c, after);
    LookupTop(codec, Document(lead, root', tail), EmitMembers(ms, k), other, Text(inner.value), after);
  }

  lemma ApartBelow(up: seq<string>, p: seq<string>, q: seq<string>)
    ensures Apart(up + p, up + q) ==> Apart(p, q) && q != []
  {
    if p <= q {
      assert up + p <= up + q;
    }
    if q <= p {
      assert up + q <= up + p;
    }
  }

  lemma {:induction false} CrispBelow(codec: Codec, v: Value, path: seq<string>, below: seq<string>)
    requires Get(codec, v, path).Some? && below != [] && CrispPath(codec, v, path + below)
    ensures CrispPath(codec, Get(codec, v, path).value, below)
    ensures ReadsAlike(codec, Get(codec, v, path).value, below, v, path + below)
    decreases path
  {
    if path == [] {
      assert path + below == below;
    } else {
      assert (path + below)[1..] == path[1..] + below;
      CrispBelow(codec, Found(codec, v.members, path[0]).value, path[1..], below);
    }
  }

  lemma NewParentKeeps(codec: Codec, root: Value, up: seq<string>, below: seq<string>, leaf: Value, unit: string,
                       rest: seq<string>)
    requires root.Obj? && ValueOk(codec, root) && AllBlank(unit) && below != [] && KeysOk(codec, below)
    requires MissingAt(codec, root, up, below[0])
    requires InStep(Parent(codec, root, up).members) && SafeEnd(Parent(codec, root, up).members)
    requires Apart(below, rest) && rest != [] && CrispPath(codec, Parent(codec, root, up), rest)
    requires Get(codec, Parent(codec, root, up), rest).Some?
      || Permeable(Parent(codec, root, up), Nested(codec, below, leaf, unit, |up|))
    ensures var parent' := NewParent(codec, root, up, below, leaf, unit);
      CrispPath(codec, parent', rest) && ReadsAlike(codec, Parent(codec, root, up), rest, parent', rest)
  {
    var parent := Parent(codec, root, up);
    var key, value := codec.encode(below[0]), Nested(codec, below, leaf, unit, |up|);
    ExtendedFinds(codec, parent, Break(unit, |up| + 1), key, value, rest[0]);
    if rest[0] == below[0] {
      ApartTails(below, rest);
      NestedGet(codec, below, leaf, unit, |up|, rest[1..]);
    } else if Found(codec, parent.members, rest[0]).Member? {
      GetOk(codec, root, up);
      AppendedReads(codec, parent.members, Break(unit, |up| + 1), key, value, rest[0]);
      PathAlike(codec, parent, NewParent(codec, root, up, below, leaf, unit), rest);
    }
  }

  /** Two objects whose members of a name read the same read the same below that name. */
  lemma PathAlike(codec: Codec, v: Value, w: Value, path: seq<string>)
    requires v.Obj? && w.Obj? && path != []
    requires var f, g := Found(codec, v.members, path[0]), Found(codec, w.members, path[0]);
      f.Member? && g.Member? && g.value == f.value && ReadText(f.value, g.post) == ReadText(f.value, f.post)
    ensures ReadsAlike(codec, v, path, w, path)
  {
    if |path| == 1 {
      assert path[1..] == [];
    }
  }

  // ----- refusing -----

  /** A path that leads through a value that is no object is refused, and nothing is written. */
  lemma {:induction false} DescendRefuses(codec: Codec, doc: string, v: Value, parts: seq<string>, up: seq<string>,
                                          k: string, enc: string, unit: string, depth: nat, reached: nat)
    requires up < parts && reached == depth + |up|
    requires v.Obj? && ValueOk(codec, v) && up != [] && CrispPath(codec, v, up)
    requires Get(codec, v, up).Some? && !Get(codec, v, up).value.Obj?
    requires |Body(v, k)| <= |doc|
    ensures Edit(codec, doc, v, k, parts, enc, unit, depth) == Err(NotAnObject(reached))
    decreases up
  {
    BlockedBelow(codec, v, up);
    var w, after := DescendStep(codec, doc, v, parts, k, enc, unit, depth);
    if |up| > 1 {
      assert up[1..] < parts[1..] && up[1..] != [];
      DescendRefuses(codec, doc, w, parts[1..], up[1..], after, enc, unit, depth + 1, reached);
    }
  }

  lemma BlockedBelow(codec: Codec, v: Value, up: seq<string>)
    requires v.Obj? && up != [] && CrispPath(codec, v, up)
    requires Get(codec, v, up).Some? && !Get(codec, v, up).value.Obj?
    ensures CrispBefore(codec, v.members, up[0])
    ensures var f := Found(codec, v.members, up[0]);
      && f.Member? && (f.value.Obj? <==> |up| > 1)
      && CrispPath(codec, f.value, up[1..])
      && Get(codec, f.value, up[1..]) == Get(codec, v, up)
  {
    if |up| == 1 {
      assert up[1..] == [];
    }
  }

  lemma SpliceRefuses(codec: Codec, lead: Trivia, root: Value, tail: string, parts: seq<string>, up: seq<string>,
                      enc: string, unit: string)
    requires TriviaOk(lead) && root.Obj? && ValueOk(codec, root) && "" !in parts
    requires up != [] && up < parts && CrispPath(codec, root, up)
    requires Get(codec, root, up).Some? && !Get(codec, root, up).value.Obj?
    ensures Splice(codec, Document(lead, root, tail), parts, enc, unit) == Err(NotAnObject(|up|))
  {
    SpliceDescends(codec, lead, root, tail, parts, enc, unit);
    DescendRefuses(codec, Document(lead, root, tail), root, parts, up, tail, enc, unit, 0, |up|);
  }

  /** Nothing is written either when the first member of the object a missing path is added to has a tight array. */
  lemma SpliceRefusesTightArray(codec: Codec, lead: Trivia, root: Value, tail: string, up: seq<string>,
                                below: seq<string>, enc: string, unit: string, inner: string)
    requires TriviaOk(lead) && root.Obj? && ValueOk(codec, root)
    requires below != [] && "" !in up + below && MissingAt(codec, root, up, below[0])
    requires var ms := Parent(codec, root, up).members;
      ms.Member? && RunsThrough(ms.gap) && ms.value.Arr? && Text(ms.value) == ['['] + inner + [']'] && NoStops(inner)
    ensures Splice(codec, Document(lead, root, tail), up + below, enc, unit) == Err(NoInsertionPoint)
  {
    var parent, after := Parent(codec, root, up), AfterPath(codec, root, up, tail);
    GetOk(codec, root, up);
    SpliceReaches(codec, lead, root, tail, up, below, enc, unit, parent, after);
    TightArrayStopsInsertion(codec, parent.members, inner, ['}'] + after);
  }

  // ----- a fresh document -----

  lemma FreshRegroup(r: string, c: string, t: string, d: string)
    ensures "{\n" + r + c + ": " + t + "\n" + d + "}" == ['{'] + ("\n" + r + (c + ": " + (t + ("\n" + d + "}"))))
  {
  }

  lemma {:induction false} FreshTextIsNested(codec: Codec, parts: seq<string>, leaf: Value, unit: string, depth: nat)
    requires parts != [] && AllBlank(unit)
    ensures FreshText(codec, parts[1..], Text(leaf), unit, depth + 1) == Text(Nested(codec, parts, leaf, unit, depth))
    decreases parts
  {
    if |parts| > 1 {
      FreshTextIsNested(codec, parts[1..], leaf, unit, depth + 1);
      ChainText(codec, parts, leaf, unit, depth);
      FreshRegroup(Repeat(unit, depth + 2), codec.encode(parts[1]),
        Text(Nested(codec, parts[1..], leaf, unit, depth + 1)), Repeat(unit, depth + 1));
    } else {
      assert parts[1..] == [];
    }
  }

  /** The tree of a fresh document. */
  function FreshRoot(codec: Codec, parts: seq<string>, leaf: Value, unit: string): Value
    requires parts != []
  {
    Obj(End, Member(Break(unit, 1), codec.encode(parts[0]), End, COLON_GAP, Nested(codec, parts, leaf, unit, 0),
      Break(unit, 0), NoMembers))
  }

  lemma FreshDocument(codec: Codec, parts: seq<string>, leaf: Value, unit: string)
    requires parts != [] && AllBlank(unit)
    ensures FreshText(codec, parts, Text(leaf), unit, 0) + "\n"
      == Document(End, FreshRoot(codec, parts, leaf, unit), "\n")
  {
    var root := FreshRoot(codec, parts, leaf, unit);
    FreshTextIsNested(codec, parts, leaf, unit, 0);
    EmitAppend(root, "\n");
    FreshMember(codec, parts, leaf, unit);
    FullObject(root, "");
    FreshRegroup(Repeat(unit, 1), codec.encode(parts[0]), Text(Nested(codec, parts, leaf, unit, 0)), Repeat(unit, 0));
  }

  lemma FreshMember(codec: Codec, parts: seq<string>, leaf: Value, unit: string)
    requires parts != [] && AllBlank(unit)
    ensures EmitMembers(FreshRoot(codec, parts, leaf, unit).members, ['}'] + "")
      == "\n" + Repeat(unit, 1) + (codec.encode(parts[0]) + ": "
           + (Text(Nested(codec, parts, leaf, unit, 0)) + ("\n" + Repeat(unit, 0) + "}")))
  {
    var ms, value, close := FreshRoot(codec, parts, leaf, unit).members, Nested(codec, parts, leaf, unit, 0), ['}']
      + "";
    assert close == "}";
    BreakEmits(unit, 0, close);
    assert AfterValue(ms, close) == "\n" + Repeat(unit, 0) + "}";
    EmitAppend(value, AfterValue(ms, close));
    MemberText(ms, close);
    BreakEmits(unit, 1, ms.key + ": " + Emit(value, AfterValue(ms, close)));
  }

  /** On a blank file, setting a path builds a well-formed document from which the path reads back. */
  lemma FreshThenRead(codec: Codec, doc: string, parts: seq<string>, leaf: Value, unit: string)
    requires AllSpace(doc) && parts != [] && "" !in parts && AllBlank(unit) && KeysOk(codec, parts)
      && ValueOk(codec, leaf)
    ensures var r := Splice(codec, doc, parts, Text(leaf), unit);
      && r == Ok(Document(End, FreshRoot(codec, parts, leaf, unit), "\n"))
      && ValueOk(codec, FreshRoot(codec, parts, leaf, unit))
      && LookupText(codec, r.doc, parts) == Some(Text(leaf))
  {
    var root := FreshRoot(codec, parts, leaf, unit);
    FreshDocument(codec, parts, leaf, unit);
    NestedOk(codec, parts, leaf, unit, 0);
    BreakEmits(unit, 1, "");
    BreakEmits(unit, 0, "");
    assert TriviaOk(COLON_GAP);
    NestedGet(codec, parts, leaf, unit, 0, parts[1..]);
    assert Name(codec, root.members) == Some(parts[0]);
    assert Found(codec, root.members, parts[0]) == root.members;
    assert Get(codec, root, parts) == Some(leaf);
    assert PostAt(codec, root, parts)
      == if |parts| == 1 then root.members.post else PostAt(codec, root.members.value, parts[1..]);
    LookupIsGet(codec, End, root, "\n", parts);
  }

  // ----- guards -----

  /** An empty path component is refused on every document. */
  lemma EmptyComponentRefused(codec: Codec, doc: string, parts: seq<string>, enc: string, unit: string)
    requires parts != [] && exists i :: 0 <= i < |parts| && parts[i] == ""
    ensures Splice(codec, doc, parts, enc, unit) == Err(InvalidKey)
  {
    var i :| 0 <= i < |parts| && parts[i] == "";
    assert parts[i] in parts;
  }

  predicate HasComment(t: Trivia) {
    match t
    case End => false
    case Blank(_, rest) => HasComment(rest)
    case LineComment(_, _) => true
    case BlockComment(_, _) => true
  }

  lemma {:induction false} CommentShows(t: Trivia, k: string) returns (i: nat)
    requires HasComment(t)
    ensures i < |EmitTrivia(t, k)| && EmitTrivia(t, k)[i] == '/'
  {
    if t.Blank? {
      i := CommentShows(t.rest, k);
      i := i + 1;
    } else {
      i := 0;
    }
  }

  /** A file that holds comments only is refused, so they are not lost. */
  lemma CommentsOnlyRefused(codec: Codec, t: Trivia, parts: seq<string>, enc: string, unit: string)
    requires TriviaOk(t) && HasComment(t) && parts != [] && "" !in parts
    ensures Splice(codec, EmitTrivia(t, ""), parts, enc, unit) == Err(RootNotObject)
  {
    var i := CommentShows(t, "");
    assert !IsSpace(EmitTrivia(t, "")[i]);
    IgnorableSkipsTrivia(t, "");
  }

  /** So is a document whose root is no object. */
  lemma OtherRootsRefused(codec: Codec, lead: Trivia, root: Value, tail: string, parts: seq<string>, enc: string,
                          unit: string)
    requires TriviaOk(lead) && ValueOk(codec, root) && !root.Obj? && parts != [] && "" !in parts
    requires root.Scalar? ==> exists i :: 0 <= i < |root.text| && root.text[i] !in {11 as char, 12 as char}
    ensures Splice(codec, Document(lead, root, tail), parts, enc, unit) == Err(RootNotObject)
  {
    var p := EmitTrivia(lead, "");
    EmitTriviaAppend(lead, Emit(root, tail));
    var j: nat := 0;
    if root.Scalar? {
      j :| 0 <= j < |root.text| && root.text[j] !in {11 as char, 12 as char};
      assert Emit(root, tail)[j] == root.text[j];
    }
    ValueStart(codec, root, tail);
    assert Document(lead, root, tail)[|p| + j] == Emit(root, tail)[j];
    assert !IsSpace(Document(lead, root, tail)[|p| + j]);
    IgnorableSkipsTrivia(lead, Emit(root, tail));
    assert root.Scalar? ==> Emit(root, tail)[0] == root.text[0];
  }

  lemma {:induction false} LineTailCuts(s: string)
    ensures LineTail(s) == s[|s| - |LineTail(s)|..]
  {
    if s != "" && s[0] != '\n' {
      LineTailCuts(s[1..]);
    }
  }

  lemma {:induction false} BlockTailCuts(s: string)
    ensures BlockTail(s) == s[|s| - |BlockTail(s)|..]
  {
    if |s| >= 2 && !(s[0] == '*' && s[1] == '/') {
      BlockTailCuts(s[1..]);
    }
  }

  lemma {:induction false} IgnorableCuts(s: string)
    ensures Ignorable(s) == s[|s| - |Ignorable(s)|..]
    decreases |s|
  {
    if s != "" && IsBlank(s[0]) {
      IgnorableCuts(s[1..]);
    } else if s != "" && s[0] == '/' && CommentTail(s).Some? {
      LineTailCuts(s[2..]);
      BlockTailCuts(s[2..]);
      IgnorableCuts(CommentTail(s).value);
    }
  }

  /** Where a member goes is never before the inside of the object, nor before the last value seen. */
  lemma {:induction false} InsertPointWithin(codec: Codec, s: string, last: Option<string>, n: nat)
    requires |s| <= n && (last.Some? ==> |last.value| <= n)
    ensures var r := InsertPoint(codec, s, last); r.Some? ==> |r.value.0| <= n
    decreases |s|
  {
    var m := Ignorable(s);
    if m != "" && m[0] == ',' {
      InsertPointWithin(codec, m[1..], last, n);
    } else if m != "" && m[0] != '}' {
      var value := SkipValue(codec, m);
      if value.Some? {
        InsertPointWithin(codec, value.value.1, Some(value.value.1), n);
      }
    }
  }

  /** Every edit below the inside `s` of an object keeps all bytes before it. */
  lemma {:induction false} DescendKeepsFront(codec: Codec, doc: string, s: string, parts: seq<string>, enc: string,
                                             unit: string, depth: nat, n: nat)
    requires |s| <= |doc| && parts != [] && n <= |doc| - |s|
    ensures var r := Descend(codec, doc, s, parts, enc, unit, depth);
      r.Ok? ==> |r.doc| >= n && r.doc[..n] == doc[..n]
    decreases parts
  {
    match KeySpan(codec, s, parts[0])
    case None =>
      InsertPointWithin(codec, s, None, |s|);
    case Some((at, after)) =>
      if |parts| == 1 {
        assert (doc[..|doc| - |at|] + enc + after)[..n] == doc[..n];
      } else {
        match Inside(at)
        case None =>
        case Some(body) => DescendKeepsFront(codec, doc, body, parts[1..], enc, unit, depth + 1, n);
      }
  }

  /** On any document with a byte that is no white space, an edit that succeeds found a root object, and keeps all
      bytes up to and including its opening brace, whatever they are. */
  lemma EditsStayInsideRoot(codec: Codec, doc: string, parts: seq<string>, enc: string, unit: string)
    requires parts != []
    requires exists i :: 0 <= i < |doc| && doc[i] !in {' ', '\t', '\n', '\r', 11 as char, 12 as char}
    ensures var r := Splice(codec, doc, parts, enc, unit);
      r.Ok? ==>
        && Inside(doc).Some? && |Inside(doc).value| < |doc|
        && var n := |doc| - |Inside(doc).value|; doc[n - 1] == '{' && |r.doc| >= n && r.doc[..n] == doc[..n]
  {
    var i :| 0 <= i < |doc| && doc[i] !in {' ', '\t', '\n', '\r', 11 as char, 12 as char};
    assert !IsSpace(doc[i]);
    if Inside(doc).Some? && "" !in parts {
      RootOpensAt(doc);
      var body := Inside(doc).value;
      DescendKeepsFront(codec, doc, body, parts, enc, unit, 0, |doc| - |body|);
    }
  }

  lemma RootOpensAt(doc: string)
    requires Inside(doc).Some?
    ensures |Inside(doc).value| < |doc| && doc[|doc| - |Inside(doc).value| - 1] == '{'
  {
    IgnorableCuts(doc);
  }

  /** A document of white space only counts as empty. */
  lemma WhiteSpaceIsEmpty(codec: Codec, doc: string, parts: seq<string>, enc: string, unit: string)
    requires parts != [] && "" !in parts
    requires forall i :: 0 <= i < |doc| ==> doc[i] in {' ', '\t', '\n', '\r', 11 as char, 12 as char}
    ensures Splice(codec, doc, parts, enc, unit) == Ok(FreshText(codec, parts, enc, unit, 0) + "\n")
  {
  }

  // ----- what the key search takes for a member, in any text -----

  ghost predicate Cuts(s: string, rest: string) {
    |rest| <= |s| && rest == s[|s| - |rest|..]
  }

  lemma CutsOn(s: string, t: string, rest: string)
    requires Cuts(s, t) && Cuts(t, rest)
    ensures Cuts(s, rest)
  {
  }

  lemma {:induction false} QuoteTailCuts(s: string)
    ensures QuoteTail(s).Some? ==> Cuts(s, QuoteTail(s).value) && s[|s| - |QuoteTail(s).value| - 1] == '"'
  {
    if |s| >= 2 && s[0] == '\\' {
      QuoteTailCuts(s[2..]);
    } else if s != "" && s[0] != '"' {
      QuoteTailCuts(s[1..]);
    }
  }

  lemma CommentTailCuts(s: string)
    requires s != "" && s[0] == '/'
    ensures CommentTail(s).Some? ==> Cuts(s, CommentTail(s).value)
  {
    if |s| >= 2 {
      LineTailCuts(s[2..]);
      BlockTailCuts(s[2..]);
    }
  }

  /** A literal that is read ends in a quote and decodes. */
  lemma StringIsClosed(codec: Codec, s: string)
    requires s != "" && s[0] == '"' && SkipString(codec, s).Some?
    ensures var (rest, text) := SkipString(codec, s).value;
      && Cuts(s, rest) && |rest| < |s| && s[|s| - |rest| - 1] == '"'
      && codec.decode(s[..|s| - |rest|]) == Some(text)
  {
    QuoteTailCuts(s[1..]);
  }

  /** One token on: past a string, a comment or a single byte. */
  function TokenTail(codec: Codec, s: string): (r: Option<string>)
    requires s != ""
    ensures r.Some? ==> |r.value| < |s|
  {
    if s[0] == '"' then
      match SkipString(codec, s)
      case None => None
      case Some((rest, _)) => Some(rest)
    else if s[0] == '/' && CommentTail(s).Some? then CommentTail(s)
    else Some(s[1..])
  }

  /** Token by token `s` comes to `t`. */
  predicate ComesTo(codec: Codec, s: string, t: string)
    decreases |s|
  {
    s == t || (s != "" && TokenTail(codec, s).Some? && ComesTo(codec, TokenTail(codec, s).value, t))
  }

  lemma {:induction false} CompositeIsClosed(codec: Codec, s: string, open: char, depth: int)
    requires CompositeTail(codec, s, open, depth).Some?
    ensures var rest := CompositeTail(codec, s, open, depth).value;
      && ComesTo(codec, s, rest) && Cuts(s, rest) && |rest| < |s| && s[|s| - |rest| - 1] == Closing(open)
    decreases |s|
  {
    if s[0] == '"' {
      StringIsClosed(codec, s);
      CompositeIsClosed(codec, SkipString(codec, s).value.0, open, depth);
    } else if s[0] == '/' && CommentTail(s).Some? {
      CommentTailCuts(s);
      CompositeIsClosed(codec, CommentTail(s).value, open, depth);
    } else if s[0] == open {
      CompositeIsClosed(codec, s[1..], open, depth + 1);
    } else if s[0] == Closing(open) && depth == 1 {
      assert ComesTo(codec, s[1..], s[1..]);
    } else {
      CompositeIsClosed(codec, s[1..], open, if s[0] == Closing(open) then depth - 1 else depth);
    }
  }

  lemma {:induction false} ScalarHasNoStops(s: string)
    ensures Cuts(s, ScalarTail(s)) && forall i :: 0 <= i < |s| - |ScalarTail(s)| ==> !IsStop(s[i])
  {
    if s != "" && !IsStop(s[0]) {
      ScalarHasNoStops(s[1..]);
      assert forall i :: 0 < i < |s| - |ScalarTail(s)| ==> s[i] == s[1..][i - 1];
    }
  }

  /** What is taken for a value, in any text: a literal that decodes, whole tokens up to a closing bracket of the kind
      that opened, or bytes none of which ends a scalar. */
  lemma ValueIsClosed(codec: Codec, s: string)
    requires SkipValue(codec, s).Some?
    ensures var (v, rest) := SkipValue(codec, s).value;
      && v == Ignorable(s) && Cuts(v, rest) && |rest| < |v|
      && var span := v[..|v| - |rest|];
        && (span[0] == '"' ==> span[|span| - 1] == '"' && codec.decode(span).Some?)
        && (span[0] in {'{', '['} ==> span[|span| - 1] == Closing(span[0]) && ComesTo(codec, v, rest))
        && (span[0] !in {'"', '{', '['} ==> forall i :: 0 <= i < |span| ==> !IsStop(span[i]))
  {
    var v := Ignorable(s);
    if v[0] == '"' {
      StringIsClosed(codec, v);
    } else if v[0] == '{' || v[0] == '[' {
      CompositeIsClosed(codec, v, v[0], 0);
    } else {
      ScalarHasNoStops(v);
    }
  }

  /** `m` starts with a literal of `key`, a colon, and the value `at`, blanks and comments aside. */
  ghost predicate Introduces(codec: Codec, m: string, key: string, at: string) {
    && m != "" && m[0] == '"' && SkipString(codec, m).Some?
    && var (rest, text) := SkipString(codec, m).value;
      && text == key
      && var colon := Ignorable(rest);
        colon != "" && colon[0] == ':' && at == Ignorable(colon[1..])
  }

  /** In any text, well-formed or not, the value that is found for a key directly follows that key and a colon, and
      ends where a value read there ends. */
  lemma {:induction false} FoundFollowsKey(codec: Codec, s: string, key: string)
    requires KeySpan(codec, s, key).Some?
    ensures var (at, after) := KeySpan(codec, s, key).value;
      && (exists m :: Cuts(s, m) && Introduces(codec, m, key, at))
      && SkipValue(codec, at) == Some((at, after))
    decreases |s|
  {
    var m := Ignorable(s);
    IgnorableCuts(s);
    var (at, after) := KeySpan(codec, s, key).value;
    if m[0] == ',' {
      FoundFollowsKey(codec, m[1..], key);
      var t :| Cuts(m[1..], t) && Introduces(codec, t, key, at);
      assert Cuts(s, t);
    } else {
      var member := SkipMember(codec, m).value;
      var colon := Ignorable(SkipString(codec, m).value.0);
      SkipsToItself(codec, colon[1..]);
      if member.0 == key {
        assert Introduces(codec, m, key, at);
      } else {
        MemberCuts(codec, m);
        FoundFollowsKey(codec, member.1.1, key);
        var t :| Cuts(member.1.1, t) && Introduces(codec, t, key, at);
        CutsOn(m, member.1.1, t);
        CutsOn(s, m, t);
      }
    }
  }

  lemma IgnorableTwice(s: string)
    ensures Ignorable(Ignorable(s)) == Ignorable(s)
  {
  }

  lemma SkipsToItself(codec: Codec, s: string)
    ensures SkipValue(codec, s).Some? ==> SkipValue(codec, SkipValue(codec, s).value.0) == SkipValue(codec, s)
  {
    IgnorableTwice(s);
  }

  lemma MemberCuts(codec: Codec, m: string)
    requires m != "" && m[0] == '"' && SkipMember(codec, m).Some?
    ensures Cuts(m, SkipMember(codec, m).value.1.1)
  {
    var after := SkipString(codec, m).value.0;
    StringIsClosed(codec, m);
    IgnorableCuts(after);
    var colon := Ignorable(after);
    ValueIsClosed(codec, colon[1..]);
    IgnorableCuts(colon[1..]);
    CutsOn(m, after, colon);
    CutsOn(m, colon, colon[1..]);
    CutsOn(m, colon[1..], Ignorable(colon[1..]));
    CutsOn(m, Ignorable(colon[1..]), SkipValue(codec, colon[1..]).value.1);
  }
}
