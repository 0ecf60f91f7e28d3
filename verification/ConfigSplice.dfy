/** The config editor: one splice that replaces a value or inserts a member. */
module ConfigSplice {
  import opened Common
  import opened JsonScanner
  import opened JsoncGrammar
  import opened JsoncTree

  datatype Error = InvalidKey | RootNotObject | NotAnObject(depth: nat) | NoInsertionPoint

  datatype Outcome = Ok(doc: string) | Err(error: Error)

  function Repeat(unit: string, n: nat): string {
    if n == 0 then "" else unit + Repeat(unit, n - 1)
  }

  /** The text of `"key": value`, nested when more than one component remains. */
  function NestText(codec: Codec, parts: seq<string>, leaf: string, unit: string, depth: nat): string
    requires parts != []
    decreases parts
  {
    if |parts| == 1 then
      codec.encode(parts[0]) + ": " + leaf
    else
      codec.encode(parts[0]) + ": {\n" + Repeat(unit, depth + 2) + NestText(codec, parts[1..], leaf, unit, depth + 1)
        + "\n" + Repeat(unit, depth + 1) + "}"
  }

  method NestRemaining(codec: Codec, parts: seq<string>, leaf: string, unit: string, depth: nat) returns (out: string)
    requires parts != []
    ensures out == NestText(codec, parts, leaf, unit, depth)
  {
    var last := |parts| - 1;
    assert parts[last..][1..] == [];
    out := codec.encode(parts[last]) + ": " + leaf;
    var i := last;
    while i > 0
      invariant 0 <= i <= last
      invariant out == NestText(codec, parts[i..], leaf, unit, depth + i)
    {
      i := i - 1;
      assert parts[i..][1..] == parts[i + 1..];
      out := codec.encode(parts[i]) + ": {\n" + Repeat(unit, depth + i + 2) + out
        + "\n" + Repeat(unit, depth + i + 1) + "}";
    }
    assert parts[0..] == parts;
  }

  /** `doc` with `member` inserted into the object whose inside starts at the suffix `s`. */
  function Insert(codec: Codec, doc: string, s: string, member: string, depth: nat, unit: string): Outcome
    requires |s| <= |doc|
  {
    match InsertPoint(codec, s, None)
    case None => Err(NoInsertionPoint)
    case Some((at, empty)) =>
      if |at| > |doc| then Err(NoInsertionPoint)
      else Ok(doc[..|doc| - |at|] + ((if empty then "" else ",") + "\n" + Repeat(unit, depth + 1) + member) + at)
  }

  method InsertMember(codec: Codec, doc: string, bodyStart: nat, member: string, depth: nat, unit: string)
    returns (r: Outcome)
    requires bodyStart <= |doc|
    ensures r == Insert(codec, doc, doc[bodyStart..], member, depth, unit)
  {
    var offset, empty, ok := ObjectInsertOffset(codec, doc, bodyStart);
    if !ok {
      return Err(NoInsertionPoint);
    }
    var separator := "";
    if !empty {
      separator := ",";
    }
    var insertion := separator + "\n" + Repeat(unit, depth + 1) + member;
    return Ok(doc[..offset] + insertion + doc[offset..]);
  }

  /** The descent: every lookup is on the original bytes, and one splice ends it. */
  function Descend(codec: Codec, doc: string, s: string, parts: seq<string>, enc: string, unit: string,
                   depth: nat): Outcome
    requires |s| <= |doc| && parts != []
    decreases parts
  {
    match KeySpan(codec, s, parts[0])
    case None => Insert(codec, doc, s, NestText(codec, parts, enc, unit, depth), depth, unit)
    case Some((at, after)) =>
      if |parts| == 1 then Ok(doc[..|doc| - |at|] + enc + after)
      else
        match Inside(at)
        case None => Err(NotAnObject(depth + 1))
        case Some(body) => Descend(codec, doc, body, parts[1..], enc, unit, depth + 1)
  }

  predicate IsSpace(c: char) {
    IsBlank(c) || c as int == 11 || c as int == 12
  }

  predicate AllSpace(s: string) {
    forall i | 0 <= i < |s| :: IsSpace(s[i])
  }

  /** A fresh document: the path as nested objects around the leaf. */
  function FreshText(codec: Codec, parts: seq<string>, leaf: string, unit: string, depth: nat): string
    decreases parts
  {
    if parts == [] then
      leaf
    else
      "{\n" + Repeat(unit, depth + 1) + codec.encode(parts[0]) + ": "
        + FreshText(codec, parts[1..], leaf, unit, depth + 1)
        + "\n" + Repeat(unit, depth) + "}"
  }

  method BuildNestedDocument(codec: Codec, parts: seq<string>, leaf: string, unit: string) returns (out: string)
    ensures out == FreshText(codec, parts, leaf, unit, 0) + "\n"
  {
    out := leaf;
    var i := |parts|;
    while i > 0
      invariant 0 <= i <= |parts|
      invariant out == FreshText(codec, parts[i..], leaf, unit, i)
    {
      i := i - 1;
      assert parts[i..][1..] == parts[i + 1..];
      out := "{\n" + Repeat(unit, i + 1) + codec.encode(parts[i]) + ": " + out + "\n" + Repeat(unit, i) + "}";
    }
    assert parts[0..] == parts;
    out := out + "\n";
  }

  /** Set the value at `parts` to the text `enc`. */
  function Splice(codec: Codec, doc: string, parts: seq<string>, enc: string, unit: string): Outcome
    requires parts != []
  {
    if "" in parts then Err(InvalidKey)
    else if AllSpace(doc) then Ok(FreshText(codec, parts, enc, unit, 0) + "\n")
    else
      match Inside(doc)
      case None => Err(RootNotObject)
      case Some(body) => Descend(codec, doc, body, parts, enc, unit, 0)
  }

  method SpliceConfigKey(codec: Codec, doc: string, parts: seq<string>, enc: string, unit: string) returns (r: Outcome)
    requires parts != []
    ensures r == Splice(codec, doc, parts, enc, unit)
  {
    if "" in parts {
      return Err(InvalidKey);
    }
    if AllSpace(doc) {
      var built := BuildNestedDocument(codec, parts, enc, unit);
      return Ok(built);
    }
    assert doc[0..] == doc;
    var bodyStart, ok := EnterObject(codec, doc, 0);
    if !ok {
      return Err(RootNotObject);
    }
    r := DescendKeys(codec, doc, bodyStart, parts, enc, unit);
  }

  method DescendKeys(codec: Codec, doc: string, start: nat, parts: seq<string>, enc: string, unit: string)
    returns (r: Outcome)
    requires start <= |doc| && parts != []
    ensures r == Descend(codec, doc, doc[start..], parts, enc, unit, 0)
  {
    var bodyStart := start;
    var depth := 0;
    ghost var answer := Descend(codec, doc, doc[start..], parts, enc, unit, 0);
    assert parts[0..] == parts;
    while true
      invariant 0 <= depth < |parts| && 0 <= bodyStart <= |doc|
      invariant Descend(codec, doc, doc[bodyStart..], parts[depth..], enc, unit, depth) == answer
      decreases |parts| - depth
    {
      assert parts[depth..][1..] == parts[depth + 1..];
      var vs, ve, found := ObjectKeySpan(codec, doc, bodyStart, parts[depth]);
      if !found {
        var tail := NestRemaining(codec, parts[depth..], enc, unit, depth);
        r := InsertMember(codec, doc, bodyStart, tail, depth, unit);
        return;
      }
      if depth == |parts| - 1 {
        return Ok(doc[..vs] + enc + doc[ve..]);
      }
      var body, ok := EnterObject(codec, doc, vs);
      if !ok {
        return Err(NotAnObject(depth + 1));
      }
      bodyStart := body;
      depth := depth + 1;
    }
  }
}
