/** The byte scanner of the config editor. Each function takes the bytes from the cursor on and returns
    the bytes from where the scanner stops; the class moves a cursor over the document. A character
    stands for one byte. */
module JsonScanner {
  import opened Common

  /** The JSON string codec of the host: `decode` reads a quoted literal, `encode` writes one. */
  datatype Codec = Codec(decode: string -> Option<string>, encode: string -> string)

  predicate IsBlank(c: char) {
    c == ' ' || c == '\t' || c == '\n' || c == '\r'
  }

  /** The bytes that end a bare scalar. */
  predicate IsStop(c: char) {
    IsBlank(c) || c == ',' || c == '}' || c == ']'
  }

  function LineTail(s: string): (r: string)
    ensures |r| <= |s|
  {
    if s == "" || s[0] == '\n' then s else LineTail(s[1..])
  }

  function BlockTail(s: string): (r: string)
    ensures |r| <= |s|
  {
    if |s| < 2 then "" else if s[0] == '*' && s[1] == '/' then s[2..] else BlockTail(s[1..])
  }

  /** What follows the comment `s` starts with, if it starts with one. */
  function CommentTail(s: string): (r: Option<string>)
    requires s != "" && s[0] == '/'
    ensures r.Some? ==> |r.value| < |s|
  {
    if |s| < 2 then None
    else if s[1] == '/' then Some(LineTail(s[2..]))
    else if s[1] == '*' then Some(BlockTail(s[2..]))
    else None
  }

  /** What follows the blanks and comments at the start of `s`. */
  function Ignorable(s: string): (r: string)
    decreases |s|
    ensures |r| <= |s|
    ensures r != "" ==> !IsBlank(r[0]) && (r[0] == '/' ==> CommentTail(r).None?)
  {
    if s == "" then s
    else if IsBlank(s[0]) then Ignorable(s[1..])
    else if s[0] == '/' && CommentTail(s).Some? then Ignorable(CommentTail(s).value)
    else s
  }

  /** What follows the closing quote, from inside a string. */
  function QuoteTail(s: string): (r: Option<string>)
    ensures r.Some? ==> |r.value| < |s|
  {
    if s == "" then None
    else if s[0] == '\\' then (if |s| < 2 then None else QuoteTail(s[2..]))
    else if s[0] == '"' then Some(s[1..])
    else QuoteTail(s[1..])
  }

  /** The literal at the start of `s`, decoded, and what follows it. */
  function SkipString(codec: Codec, s: string): (r: Option<(string, string)>)
    requires s != "" && s[0] == '"'
    ensures r.Some? ==> |r.value.0| < |s|
  {
    match QuoteTail(s[1..])
    case None => None
    case Some(rest) =>
      match codec.decode(s[..|s| - |rest|])
      case None => None
      case Some(text) => Some((rest, text))
  }

  function ScalarTail(s: string): (r: string)
    ensures |r| <= |s|
  {
    if s == "" || IsStop(s[0]) then s else ScalarTail(s[1..])
  }

  function Closing(open: char): char {
    if open == '[' then ']' else '}'
  }

  /** What follows the composite that is open to `depth`; only brackets of its own kind count. */
  function CompositeTail(codec: Codec, s: string, open: char, depth: int): (r: Option<string>)
    ensures r.Some? ==> |r.value| < |s|
    decreases |s|
  {
    if s == "" then None
    else if s[0] == '"' then
      var str := SkipString(codec, s);
      if str.None? then None else CompositeTail(codec, str.value.0, open, depth)
    else if s[0] == '/' && CommentTail(s).Some? then CompositeTail(codec, CommentTail(s).value, open, depth)
    else if s[0] == open then CompositeTail(codec, s[1..], open, depth + 1)
    else if s[0] == Closing(open) then
      (if depth == 1 then Some(s[1..]) else CompositeTail(codec, s[1..], open, depth - 1))
    else CompositeTail(codec, s[1..], open, depth)
  }

  /** One value: the bytes from its start on, and the bytes after it. */
  function SkipValue(codec: Codec, s: string): (r: Option<(string, string)>)
    ensures r.Some? ==> |r.value.1| < |r.value.0| <= |s|
  {
    var v := Ignorable(s);
    if v == "" then None
    else if v[0] == '"' then
      var str := SkipString(codec, v);
      if str.None? then None else Some((v, str.value.0))
    else if v[0] == '{' || v[0] == '[' then
      var rest := CompositeTail(codec, v, v[0], 0);
      if rest.None? then None else Some((v, rest.value))
    else
      var rest := ScalarTail(v);
      if |rest| < |v| then Some((v, rest)) else None
  }

  /** From a key's opening quote: what follows the colon, and the decoded key. */
  function SkipKey(codec: Codec, s: string): (r: Option<(string, string)>)
    requires s != "" && s[0] == '"'
    ensures r.Some? ==> |r.value.0| < |s|
  {
    var name := SkipString(codec, s);
    if name.None? then None
    else
      var colon := Ignorable(name.value.0);
      if colon == "" || colon[0] != ':' then None else Some((colon[1..], name.value.1))
  }

  /** From a key's opening quote: the decoded key and the span of its value. */
  function SkipMember(codec: Codec, s: string): (r: Option<(string, (string, string))>)
    requires s != "" && s[0] == '"'
    ensures r.Some? ==> |r.value.1.1| < |r.value.1.0| < |s|
  {
    var name := SkipKey(codec, s);
    if name.None? then None
    else
      var value := SkipValue(codec, name.value.0);
      if value.None? then None else Some((name.value.1, value.value))
  }

  /** The value of the first member called `key`, from inside an object. */
  function KeySpan(codec: Codec, s: string, key: string): (r: Option<(string, string)>)
    ensures r.Some? ==> |r.value.1| < |r.value.0| < |s|
    decreases |s|
  {
    var m := Ignorable(s);
    if m == "" || m[0] == '}' then None
    else if m[0] == ',' then KeySpan(codec, m[1..], key)
    else if m[0] != '"' then None
    else
      var member := SkipMember(codec, m);
      if member.None? then None
      else if member.value.0 == key then Some(member.value.1)
      else KeySpan(codec, member.value.1.1, key)
  }

  /** What follows the brace of the object that starts `s`, blanks and comments aside. */
  function Inside(s: string): (r: Option<string>)
    ensures r.Some? ==> |r.value| < |s|
  {
    var inner := Ignorable(s);
    if inner == "" || inner[0] != '{' then None else Some(inner[1..])
  }

  /** Where a new member goes in an object: before the closing brace of an empty one, else after the last
      value. `last` is what follows the last value seen so far. */
  function InsertPoint(codec: Codec, s: string, last: Option<string>): (r: Option<(string, bool)>)
    decreases |s|
  {
    var m := Ignorable(s);
    if m == "" then None
    else if m[0] == '}' then (if last.None? then Some((m, true)) else Some((last.value, false)))
    else if m[0] == ',' then InsertPoint(codec, m[1..], last)
    else
      var value := SkipValue(codec, m);
      if value.None? then None else InsertPoint(codec, value.value.1, Some(value.value.1))
  }

  // ----- the cursor -----

  class Scanner {
    const codec: Codec
    const data: string
    var i: nat

    constructor (codec: Codec, data: string, i: nat)
      ensures this.codec == codec && this.data == data && this.i == i
    {
      this.codec := codec;
      this.data := data;
      this.i := i;
    }

    method SkipComment() returns (skipped: bool)
      requires i < |data| && data[i] == '/'
      modifies this`i
      ensures i <= |data|
      ensures skipped <==> CommentTail(old(data[i..])).Some?
      ensures skipped ==> data[i..] == CommentTail(old(data[i..])).value
      ensures !skipped ==> i == old(i)
    {
      if i + 1 >= |data| {
        return false;
      }
      if data[i + 1] == '/' {
        assert LineTail(data[i..]) == LineTail(data[i..][1..]) == LineTail(data[i..][1..][1..]);
        assert data[i..][1..][1..] == data[i..][2..];
        while i < |data| && data[i] != '\n'
          invariant i <= |data|
          invariant LineTail(data[i..]) == LineTail(old(data[i..]))
        {
          assert data[i..][1..] == data[i + 1..];
          i := i + 1;
        }
        return true;
      }
      if data[i + 1] == '*' {
        i := i + 2;
        assert data[i..] == old(data[i..])[2..];
        while i + 1 < |data| && (data[i] != '*' || data[i + 1] != '/')
          invariant i <= |data|
          invariant BlockTail(data[i..]) == BlockTail(old(data[i..])[2..])
        {
          assert data[i..][1..] == data[i + 1..];
          i := i + 1;
        }
        if i + 2 < |data| {
          assert data[i..][2..] == data[i + 2..];
        }
        i := if i + 2 < |data| then i + 2 else |data|;
        return true;
      }
      return false;
    }

    method SkipIgnorable()
      requires i <= |data|
      modifies this`i
      ensures old(i) <= i <= |data|
      ensures data[i..] == Ignorable(old(data[i..]))
    {
      while i < |data|
        invariant old(i) <= i <= |data|
        invariant Ignorable(data[i..]) == Ignorable(old(data[i..]))
        decreases |data| - i
      {
        if IsBlank(data[i]) {
          assert data[i..][1..] == data[i + 1..];
          i := i + 1;
        } else if data[i] == '/' {
          var skipped := SkipComment();
          if !skipped {
            return;
          }
        } else {
          return;
        }
      }
    }

    method SkipStringLiteral() returns (text: string, ok: bool)
      requires i < |data| && data[i] == '"'
      modifies this`i
      ensures ok <==> SkipString(codec, old(data[i..])).Some?
      ensures ok ==> old(i) < i <= |data| && (data[i..], text) == SkipString(codec, old(data[i..])).value
    {
      var start := i;
      i := i + 1;
      assert data[i..] == data[start..][1..];
      while i < |data|
        invariant start < i
        invariant i <= |data| ==> QuoteTail(data[i..]) == QuoteTail(data[start..][1..])
        invariant i > |data| ==> QuoteTail(data[start..][1..]).None?
      {
        if data[i] == '\\' {
          if i + 2 <= |data| {
            assert data[i..][2..] == data[i + 2..];
          }
          i := i + 2;
        } else if data[i] == '"' {
          assert data[i..][1..] == data[i + 1..];
          i := i + 1;
          assert data[start..][..|data[start..]| - |data[i..]|] == data[start..i];
          var decoded := codec.decode(data[start..i]);
          if decoded.None? {
            return "", false;
          }
          return decoded.value, true;
        } else {
          assert data[i..][1..] == data[i + 1..];
          i := i + 1;
        }
      }
      return "", false;
    }

    method SkipCompositeValue() returns (start: nat, end: nat, ok: bool)
      requires i < |data| && (data[i] == '{' || data[i] == '[')
      modifies this`i
      ensures ok <==> CompositeTail(codec, old(data[i..]), data[old(i)], 0).Some?
      ensures ok ==> (
        && old(i) == start < end == i <= |data|
        && data[end..] == CompositeTail(codec, old(data[i..]), data[old(i)], 0).value)
    {
      start, end := i, i;
      var open := data[i];
      var depth := 0;
      ghost var answer := CompositeTail(codec, data[i..], open, 0);
      while i < |data|
        invariant start <= i <= |data|
        invariant CompositeTail(codec, data[i..], open, depth) == answer
        decreases |data| - i
      {
        assert data[i..][1..] == data[i + 1..];
        if data[i] == '"' {
          var text, ok' := SkipStringLiteral();
          if !ok' {
            return start, start, false;
          }
          continue;
        }
        if data[i] == '/' {
          var skipped := SkipComment();
          if skipped {
            continue;
          }
        } else if data[i] == open {
          depth := depth + 1;
        } else if data[i] == Closing(open) {
          depth := depth - 1;
          if depth == 0 {
            i := i + 1;
            return start, i, true;
          }
        }
        i := i + 1;
      }
      return start, start, false;
    }

    method SkipOneValue() returns (start: nat, end: nat, ok: bool)
      requires i <= |data|
      modifies this`i
      ensures ok <==> SkipValue(codec, old(data[i..])).Some?
      ensures ok ==> (
        && old(i) <= start < end == i <= |data|
        && (data[start..], data[end..]) == SkipValue(codec, old(data[i..])).value)
    {
      SkipIgnorable();
      start, end, ok := i, i, false;
      if i >= |data| {
        return;
      }
      if data[i] == '"' {
        var text;
        text, ok := SkipStringLiteral();
        end := if ok then i else start;
      } else if data[i] == '{' || data[i] == '[' {
        start, end, ok := SkipCompositeValue();
      } else {
        while i < |data| && !IsStop(data[i])
          invariant start <= i <= |data|
          invariant ScalarTail(data[i..]) == ScalarTail(data[start..])
        {
          assert data[i..][1..] == data[i + 1..];
          i := i + 1;
        }
        assert data[i..] == ScalarTail(data[start..]);
        end, ok := i, i > start;
      }
    }

    method SkipKeyAndColon() returns (text: string, ok: bool)
      requires i < |data| && data[i] == '"'
      modifies this`i
      ensures ok <==> SkipKey(codec, old(data[i..])).Some?
      ensures ok ==> old(i) < i <= |data| && (data[i..], text) == SkipKey(codec, old(data[i..])).value
    {
      text, ok := SkipStringLiteral();
      if !ok {
        return;
      }
      SkipIgnorable();
      if i >= |data| || data[i] != ':' {
        return "", false;
      }
      assert data[i..][1..] == data[i + 1..];
      i := i + 1;
    }

    method SkipKeyAndValue() returns (text: string, start: nat, end: nat, ok: bool)
      requires i < |data| && data[i] == '"'
      modifies this`i
      ensures ok <==> SkipMember(codec, old(data[i..])).Some?
      ensures ok ==> (
        && old(i) < start < end == i <= |data|
        && (text, (data[start..], data[end..])) == SkipMember(codec, old(data[i..])).value)
    {
      start, end := i, i;
      text, ok := SkipKeyAndColon();
      if ok {
        start, end, ok := SkipOneValue();
      }
    }
  }

  method EnterObject(codec: Codec, data: string, at: nat) returns (bodyStart: nat, ok: bool)
    requires at <= |data|
    ensures ok <==> Inside(data[at..]).Some?
    ensures ok ==> at < bodyStart <= |data| && data[bodyStart..] == Inside(data[at..]).value
  {
    var s := new Scanner(codec, data, at);
    s.SkipIgnorable();
    if s.i >= |data| || data[s.i] != '{' {
      return 0, false;
    }
    assert data[s.i..][1..] == data[s.i + 1..];
    return s.i + 1, true;
  }

  /** How the search goes on from the first byte that is no blank and no comment. */
  lemma KeySpanSteps(codec: Codec, s: string, key: string)
    ensures var m, r := Ignorable(s), KeySpan(codec, s, key);
      && (m == "" || m[0] == '}' ==> r == None)
      && (m != "" && m[0] == ',' ==> r == KeySpan(codec, m[1..], key))
      && (m != "" && m[0] !in {'}', ',', '"'} ==> r == None)
      && (m != "" && m[0] == '"' ==>
            var member := SkipMember(codec, m);
            r == if member.None? then None
                 else if member.value.0 == key then Some(member.value.1)
                 else KeySpan(codec, member.value.1.1, key))
  {
  }

  method ObjectKeySpan(codec: Codec, data: string, bodyStart: nat, key: string)
    returns (valStart: nat, valEnd: nat, ok: bool)
    requires bodyStart <= |data|
    ensures ok <==> KeySpan(codec, data[bodyStart..], key).Some?
    ensures ok ==> (
      && bodyStart < valStart < valEnd <= |data|
      && (data[valStart..], data[valEnd..]) == KeySpan(codec, data[bodyStart..], key).value)
  {
    var s := new Scanner(codec, data, bodyStart);
    ghost var answer := KeySpan(codec, data[bodyStart..], key);
    while true
      invariant bodyStart <= s.i <= |data| && s.data == data && s.codec == codec
      invariant KeySpan(codec, data[s.i..], key) == answer
      decreases |data| - s.i
    {
      ghost var before := data[s.i..];
      s.SkipIgnorable();
      ghost var rest := data[s.i..];
      KeySpanSteps(codec, before, key);
      valStart, valEnd, ok := 0, 0, false;
      if s.i >= |data| || data[s.i] == '}' {
        assert answer == None;
        return;
      }
      if data[s.i] == ',' {
        assert rest[1..] == data[s.i + 1..];
        s.i := s.i + 1;
        continue;
      }
      if data[s.i] != '"' {
        assert answer == None;
        return;
      }
      var gotKey, vs, ve, memberOK := s.SkipKeyAndValue();
      if !memberOK {
        assert answer == None;
        return;
      }
      if gotKey == key {
        assert answer == Some((data[vs..], data[ve..]));
        return vs, ve, true;
      }
      assert KeySpan(codec, data[ve..], key) == answer;
    }
  }

  method ObjectInsertOffset(codec: Codec, data: string, bodyStart: nat)
    returns (offset: nat, empty: bool, ok: bool)
    requires bodyStart <= |data|
    ensures ok <==> InsertPoint(codec, data[bodyStart..], None).Some?
    ensures ok ==> (
      && bodyStart <= offset <= |data|
      && (data[offset..], empty) == InsertPoint(codec, data[bodyStart..], None).value)
  {
    var s := new Scanner(codec, data, bodyStart);
    var lastEnd: int := -1;
    while true
      invariant bodyStart <= s.i <= |data| && s.data == data && s.codec == codec
      invariant lastEnd == -1 || bodyStart <= lastEnd <= |data|
      invariant InsertPoint(codec, data[s.i..], if lastEnd < 0 then None else Some(data[lastEnd..]))
        == InsertPoint(codec, data[bodyStart..], None)
      decreases |data| - s.i
    {
      s.SkipIgnorable();
      if s.i >= |data| {
        return 0, false, false;
      }
      if data[s.i] == '}' {
        if lastEnd < 0 {
          return s.i, true, true;
        }
        return lastEnd, false, true;
      }
      if data[s.i] == ',' {
        assert data[s.i..][1..] == data[s.i + 1..];
        s.i := s.i + 1;
        continue;
      }
      var vs, ve, valueOK := s.SkipOneValue();
      if !valueOK {
        return 0, false, false;
      }
      lastEnd := ve;
    }
  }
}
