/** Directory-mode configuration merge: a type-directed deep merge of an overlay into a base. */
module ConfigMerge {
  import opened Common

  /** The shapes of configuration fields. */
  datatype Ty =
    | ScalarTy
    | TimeTy
    | SliceTy
    | PtrTy(elem: Ty)
    | StructTy(fields: seq<Ty>)
    | MapTy(elem: Ty)

  /** Configuration values. Scalars (booleans, numbers, strings) and instants are numbers, 0 being the zero
      value; a nil slice or map differs from an empty one. */
  datatype Val =
    | Scalar(n: int)
    | Instant(t: int)
    | NilSlice
    | Slice(items: seq<int>)
    | NilPtr
    | Ptr(target: Val)
    | Struct(fields: seq<Val>)
    | NilMap
    | Map(entries: map<string, Val>)

  predicate WellTyped(ty: Ty, v: Val)
    decreases ty
  {
    match ty
    case ScalarTy => v.Scalar?
    case TimeTy => v.Instant?
    case SliceTy => v.NilSlice? || v.Slice?
    case PtrTy(elem) => v.NilPtr? || (v.Ptr? && WellTyped(elem, v.target))
    case StructTy(fields) =>
      v.Struct? && |v.fields| == |fields| && forall i | 0 <= i < |fields| :: WellTyped(fields[i], v.fields[i])
    case MapTy(elem) => v.NilMap? || (v.Map? && forall k | k in v.entries :: WellTyped(elem, v.entries[k]))
  }

  function Zero(ty: Ty): (v: Val)
    ensures WellTyped(ty, v)
    decreases ty
  {
    match ty
    case ScalarTy => Scalar(0)
    case TimeTy => Instant(0)
    case SliceTy => NilSlice
    case PtrTy(_) => NilPtr
    case StructTy(fields) => Struct(seq(|fields|, i requires 0 <= i < |fields| => Zero(fields[i])))
    case MapTy(_) => NilMap
  }

  /** Map entries of this type are merged field by field; all others are replaced whole. */
  predicate Mergeable(elem: Ty) {
    IsStruct(elem) || (elem.PtrTy? && IsStruct(elem.elem))
  }

  /** `time.Time` is a struct kind, but merges as a scalar. */
  predicate IsStruct(ty: Ty) {
    ty.StructTy? || ty.TimeTy?
  }

  function Entries(v: Val): map<string, Val>
    requires v.NilMap? || v.Map?
  {
    if v.NilMap? then map[] else v.entries
  }

  function Merge(ty: Ty, dst: Val, src: Val): (r: Val)
    requires WellTyped(ty, dst) && WellTyped(ty, src)
    ensures WellTyped(ty, r)
    decreases ty, 0
  {
    match ty
    case ScalarTy => if src.n != 0 then src else dst
    case TimeTy => if src.t != 0 then src else dst
    case SliceTy => if src.NilSlice? then dst else src
    case PtrTy(elem) =>
      if src.NilPtr? then dst
      else if !elem.StructTy? then src
      else Ptr(Merge(elem, if dst.NilPtr? then Zero(elem) else dst.target, src.target))
    case StructTy(fields) =>
      Struct(seq(|fields|, i requires 0 <= i < |fields| && WellTyped(fields[i], dst.fields[i])
        && WellTyped(fields[i], src.fields[i])
        => Merge(fields[i], dst.fields[i], src.fields[i])))
    case MapTy(elem) =>
      if Entries(src) == map[] then dst
      else Map(map k | k in Entries(dst).Keys + src.entries.Keys :: MergeEntry(elem, Entries(dst), src.entries, k))
  }

  function MergeEntry(elem: Ty, dst: map<string, Val>, src: map<string, Val>, k: string): (r: Val)
    requires k in dst || k in src
    requires k in dst ==> WellTyped(elem, dst[k])
    requires k in src ==> WellTyped(elem, src[k])
    ensures WellTyped(elem, r)
    decreases elem, 1
  {
    if k !in src then dst[k]
    else if k in dst && Mergeable(elem) then Merge(elem, dst[k], src[k])
    else src[k]
  }

  // ----- the loader's steps -----

  method MergeValue(ty: Ty, dst: Val, src: Val) returns (r: Val)
    requires WellTyped(ty, dst) && WellTyped(ty, src)
    ensures r == Merge(ty, dst, src)
    decreases ty, 1
  {
    r := dst;
    match ty {
      case PtrTy(elem) => r := MergePointer(elem, dst, src);
      case StructTy(fields) => r := MergeStruct(fields, dst, src);
      case MapTy(elem) => r := MergeMap(elem, dst, src);
      case SliceTy =>
        if !src.NilSlice? {
          r := src;
        }
      case _ =>
        if src != Zero(ty) {
          r := src;
        }
    }
  }

  method MergePointer(elem: Ty, dst: Val, src: Val) returns (r: Val)
    requires WellTyped(PtrTy(elem), dst) && WellTyped(PtrTy(elem), src)
    ensures r == Merge(PtrTy(elem), dst, src)
    decreases PtrTy(elem), 0
  {
    if src.NilPtr? {
      return dst;
    }
    if !elem.StructTy? {
      return src;
    }
    r := dst;
    if r.NilPtr? {
      r := Ptr(Zero(elem));
    }
    var target := MergeValue(elem, r.target, src.target);
    r := Ptr(target);
  }

  method MergeStruct(fields: seq<Ty>, dst: Val, src: Val) returns (r: Val)
    requires WellTyped(StructTy(fields), dst) && WellTyped(StructTy(fields), src)
    ensures r == Merge(StructTy(fields), dst, src)
    decreases StructTy(fields), 0
  {
    r := dst;
    var i := 0;
    while i < |fields|
      invariant 0 <= i <= |fields|
      invariant r.Struct? && |r.fields| == |fields|
      invariant forall j :: 0 <= j < i ==> r.fields[j] == Merge(fields[j], dst.fields[j], src.fields[j])
      invariant forall j :: i <= j < |fields| ==> r.fields[j] == dst.fields[j]
    {
      var merged := MergeValue(fields[i], dst.fields[i], src.fields[i]);
      r := Struct(r.fields[i := merged]);
      i := i + 1;
    }
    assert r.fields == Merge(StructTy(fields), dst, src).fields;
  }

  /** The source's entries are visited in an arbitrary order; the result does not depend on it. */
  method MergeMap(elem: Ty, dst: Val, src: Val) returns (r: Val)
    requires WellTyped(MapTy(elem), dst) && WellTyped(MapTy(elem), src)
    ensures r == Merge(MapTy(elem), dst, src)
    decreases MapTy(elem), 0
  {
    if Entries(src) == map[] {
      return dst;
    }
    var out := Entries(dst);
    ghost var base, want := out, Merge(MapTy(elem), dst, src).entries;
    MergedEntries(elem, dst, src);
    var pending := src.entries.Keys;
    while pending != {}
      invariant pending <= src.entries.Keys
      invariant Between(base, want, pending, out)
      decreases pending
    {
      var k :| k in pending;
      var v := MergeOverEntry(elem, if k in out then Some(out[k]) else None, src.entries[k]);
      BetweenNext(base, want, pending, out, k, v);
      pending, out := pending - {k}, out[k := v];
    }
    assert out == want;
    r := Map(out);
  }

  /** The new entry for a key of the overlay, given the entry there already is. */
  method MergeOverEntry(elem: Ty, existing: Option<Val>, v: Val) returns (r: Val)
    requires WellTyped(elem, v) && (existing.Some? ==> WellTyped(elem, existing.value))
    ensures r == if Mergeable(elem) && existing.Some? then Merge(elem, existing.value, v) else v
    decreases elem, 2
  {
    if Mergeable(elem) && existing.Some? {
      r := MergeValue(elem, existing.value, v);
    } else {
      r := v;
    }
  }

  lemma BetweenNext(base: map<string, Val>, want: map<string, Val>, pending: set<string>, out: map<string, Val>,
                    k: string, v: Val)
    requires Between(base, want, pending, out) && k in pending && k in want && v == want[k]
    ensures Between(base, want, pending - {k}, out[k := v])
  {
  }

  /** `out` is on the way from `base` to `want`: all entries are final but those of the pending keys. */
  ghost predicate Between(base: map<string, Val>, want: map<string, Val>, pending: set<string>, out: map<string, Val>) {
    && (forall k :: k in out <==> if k in pending then k in base else k in want)
    && (forall k :: k in out ==> out[k] == if k in pending then base[k] else want[k])
  }

  lemma MergedEntries(elem: Ty, dst: Val, src: Val)
    requires WellTyped(MapTy(elem), dst) && WellTyped(MapTy(elem), src) && Entries(src) != map[]
    ensures var r := Merge(MapTy(elem), dst, src); var base := Entries(dst);
      && r.Map? && r.entries.Keys == base.Keys + src.entries.Keys
      && (forall k :: k in src.entries ==> WellTyped(elem, src.entries[k]))
      && (forall k :: k in base ==> WellTyped(elem, base[k]))
      && (forall k :: k in src.entries ==>
            r.entries[k]
              == if Mergeable(elem) && k in base then Merge(elem, base[k], src.entries[k]) else src.entries[k])
      && (forall k :: k in base && k !in src.entries ==> r.entries[k] == base[k])
  {
  }

  /** Merge the drop-in files into the base in order. */
  function Fold(ty: Ty, base: Val, dropIns: seq<Val>): (r: Val)
    requires WellTyped(ty, base) && forall i | 0 <= i < |dropIns| :: WellTyped(ty, dropIns[i])
    ensures WellTyped(ty, r)
    decreases dropIns
  {
    if dropIns == [] then base else Fold(ty, Merge(ty, base, dropIns[0]), dropIns[1..])
  }

  method MergeDropIns(ty: Ty, base: Val, dropIns: seq<Val>) returns (merged: Val)
    requires WellTyped(ty, base) && forall i | 0 <= i < |dropIns| :: WellTyped(ty, dropIns[i])
    ensures merged == Fold(ty, base, dropIns)
  {
    merged := base;
    var i := 0;
    while i < |dropIns|
      invariant 0 <= i <= |dropIns|
      invariant WellTyped(ty, merged)
      invariant Fold(ty, merged, dropIns[i..]) == Fold(ty, base, dropIns)
    {
      assert dropIns[i..][1..] == dropIns[i + 1..];
      merged := MergeValue(ty, merged, dropIns[i]);
      i := i + 1;
    }
  }

  // ----- algebra -----

  lemma {:induction false} MergeZero(ty: Ty, v: Val)
    requires WellTyped(ty, v)
    ensures Merge(ty, v, Zero(ty)) == v
    decreases ty
  {
    if ty.StructTy? {
      forall i | 0 <= i < |ty.fields|
        ensures Merge(ty, v, Zero(ty)).fields[i] == v.fields[i]
      {
        MergeZero(ty.fields[i], v.fields[i]);
      }
      assert Merge(ty, v, Zero(ty)).fields == v.fields;
    }
  }

  lemma {:induction false} MergeIdempotent(ty: Ty, v: Val)
    requires WellTyped(ty, v)
    ensures Merge(ty, v, v) == v
    decreases ty
  {
    match ty
    case ScalarTy =>
    case TimeTy =>
    case SliceTy =>
    case PtrTy(elem) =>
      if v.Ptr? {
        MergeIdempotent(elem, v.target);
      }
    case StructTy(fields) =>
      forall i | 0 <= i < |fields| ensures Merge(ty, v, v).fields[i] == v.fields[i] {
        MergeIdempotent(fields[i], v.fields[i]);
      }
      assert Merge(ty, v, v).fields == v.fields;
    case MapTy(elem) =>
      forall k | k in Entries(v) ensures MergeEntry(elem, Entries(v), Entries(v), k) == Entries(v)[k] {
        MergeIdempotent(elem, Entries(v)[k]);
      }
      assert Entries(v) != map[] ==> Merge(ty, v, v).entries == v.entries;
  }

  lemma EntriesOfMerge(elem: Ty, dst: Val, src: Val, k: string)
    requires WellTyped(MapTy(elem), dst) && WellTyped(MapTy(elem), src)
    ensures var r := Entries(Merge(MapTy(elem), dst, src));
      && (k in r <==> k in Entries(dst) || k in Entries(src))
      && (k in r ==> r[k] == MergeEntry(elem, Entries(dst), Entries(src), k))
  {
  }

  /** Merging is associative, on all well-typed values and exactly. */
  lemma {:induction false} MergeAssociative(ty: Ty, a: Val, b: Val, c: Val)
    requires WellTyped(ty, a) && WellTyped(ty, b) && WellTyped(ty, c)
    ensures Merge(ty, Merge(ty, a, b), c) == Merge(ty, a, Merge(ty, b, c))
    decreases ty, 1
  {
    match ty
    case ScalarTy =>
    case TimeTy =>
    case SliceTy =>
    case PtrTy(elem) =>
      if elem.StructTy? && c.Ptr? {
        var z := Zero(elem);
        var ta, tb := if a.NilPtr? then z else a.target, if b.NilPtr? then z else b.target;
        MergeAssociative(elem, ta, tb, c.target);
        MergeZero(elem, ta);
      }
    case StructTy(fields) =>
      var l, r := Merge(ty, Merge(ty, a, b), c), Merge(ty, a, Merge(ty, b, c));
      forall i | 0 <= i < |fields| ensures l.fields[i] == r.fields[i] {
        MergeAssociative(fields[i], a.fields[i], b.fields[i], c.fields[i]);
      }
      assert l.fields == r.fields;
    case MapTy(elem) =>
      MapAssociative(elem, a, b, c);
  }

  lemma {:induction false} MapAssociative(elem: Ty, a: Val, b: Val, c: Val)
    requires var ty := MapTy(elem); WellTyped(ty, a) && WellTyped(ty, b) && WellTyped(ty, c)
    ensures var ty := MapTy(elem); Merge(ty, Merge(ty, a, b), c) == Merge(ty, a, Merge(ty, b, c))
    decreases MapTy(elem), 0
  {
    var ty := MapTy(elem);
    if Entries(c) != map[] {
      if Entries(b) == map[] {
        MergeIntoEmpty(elem, b, c);
        MergeSameEntries(elem, a, Merge(ty, b, c), c);
      } else {
        var bc, ab := Merge(ty, b, c), Merge(ty, a, b);
        MergeIsMap(elem, b, c);
        MergeIsMap(elem, a, bc);
        MergeIsMap(elem, ab, c);
        EntriesAssociative(elem, a, b, c, Merge(ty, ab, c), Merge(ty, a, bc));
      }
    }
  }

  lemma {:induction false} EntriesAssociative(elem: Ty, a: Val, b: Val, c: Val, l: Val, r: Val)
    requires var ty := MapTy(elem); WellTyped(ty, a) && WellTyped(ty, b) && WellTyped(ty, c)
    requires var ty := MapTy(elem); l == Merge(ty, Merge(ty, a, b), c) && r == Merge(ty, a, Merge(ty, b, c))
    requires l.Map? && r.Map?
    ensures l == r
    decreases elem, 3
  {
    forall k: string
      ensures (k in l.entries <==> k in r.entries) && (k in l.entries ==> l.entries[k] == r.entries[k])
    {
      EntryAssociative(elem, a, b, c, k);
    }
    assert l.entries == r.entries;
  }

  lemma MergeIntoEmpty(elem: Ty, dst: Val, src: Val)
    requires WellTyped(MapTy(elem), dst) && WellTyped(MapTy(elem), src) && Entries(dst) == map[]
    ensures Entries(Merge(MapTy(elem), dst, src)) == Entries(src)
  {
  }

  lemma MergeSameEntries(elem: Ty, dst: Val, src: Val, src': Val)
    requires WellTyped(MapTy(elem), dst) && WellTyped(MapTy(elem), src) && WellTyped(MapTy(elem), src')
    requires Entries(src) == Entries(src')
    ensures Merge(MapTy(elem), dst, src) == Merge(MapTy(elem), dst, src')
  {
  }

  lemma MergeIsMap(elem: Ty, dst: Val, src: Val)
    requires WellTyped(MapTy(elem), dst) && WellTyped(MapTy(elem), src) && Entries(src) != map[]
    ensures var r := Merge(MapTy(elem), dst, src); r.Map? && Entries(r) != map[]
  {
    var k: string :| k in Entries(src);
    EntriesOfMerge(elem, dst, src, k);
  }

  lemma {:induction false} EntryAssociative(elem: Ty, a: Val, b: Val, c: Val, k: string)
    requires var ty := MapTy(elem); WellTyped(ty, a) && WellTyped(ty, b) && WellTyped(ty, c)
    ensures var ty := MapTy(elem);
      var l, r := Entries(Merge(ty, Merge(ty, a, b), c)), Entries(Merge(ty, a, Merge(ty, b, c)));
      (k in l <==> k in r) && (k in l ==> l[k] == r[k])
    decreases elem, 2
  {
    var ty := MapTy(elem);
    EntriesOfMerge(elem, a, b, k);
    EntriesOfMerge(elem, b, c, k);
    EntriesOfMerge(elem, Merge(ty, a, b), c, k);
    EntriesOfMerge(elem, a, Merge(ty, b, c), k);
    if Mergeable(elem) && k in Entries(a) && k in Entries(b) && k in Entries(c) {
      MergeAssociative(elem, Entries(a)[k], Entries(b)[k], Entries(c)[k]);
    }
  }

  /** What merging into the zero value gives: the value with the empty maps it can reach through structs
      and pointers made nil. */
  function Normalized(ty: Ty, v: Val): (r: Val)
    requires WellTyped(ty, v)
    decreases ty
  {
    match ty
    case PtrTy(elem) => if v.Ptr? && elem.StructTy? then Ptr(Normalized(elem, v.target)) else v
    case StructTy(fields) =>
      Struct(seq(|fields|, i requires 0 <= i < |fields| && WellTyped(fields[i], v.fields[i])
        => Normalized(fields[i], v.fields[i])))
    case MapTy(_) => if Entries(v) == map[] then NilMap else v
    case _ => v
  }

  /** No empty map that is not nil is reached through structs and pointers. */
  predicate NoEmptyMap(ty: Ty, v: Val)
    requires WellTyped(ty, v)
    decreases ty
  {
    match ty
    case PtrTy(elem) => v.Ptr? && elem.StructTy? ==> NoEmptyMap(elem, v.target)
    case StructTy(fields) => forall i | 0 <= i < |fields| :: NoEmptyMap(fields[i], v.fields[i])
    case MapTy(_) => v != Map(map[])
    case _ => true
  }

  /** The zero value is a left identity up to nil versus empty maps, and exactly where no empty map is reached. */
  lemma {:induction false} ZeroMerge(ty: Ty, v: Val)
    requires WellTyped(ty, v)
    ensures Merge(ty, Zero(ty), v) == Normalized(ty, v)
    ensures Normalized(ty, v) == v <==> NoEmptyMap(ty, v)
    decreases ty
  {
    match ty
    case ScalarTy =>
    case TimeTy =>
    case SliceTy =>
    case PtrTy(elem) =>
      if v.Ptr? {
        ZeroMerge(elem, v.target);
      }
    case StructTy(fields) =>
      var l, r := Merge(ty, Zero(ty), v), Normalized(ty, v);
      forall i | 0 <= i < |fields|
        ensures l.fields[i] == r.fields[i]
        ensures r.fields[i] == v.fields[i] <==> NoEmptyMap(fields[i], v.fields[i])
      {
        ZeroMerge(fields[i], v.fields[i]);
      }
      assert l.fields == r.fields;
      if NoEmptyMap(ty, v) {
        assert r.fields == v.fields;
      }
    case MapTy(elem) =>
      if Entries(v) != map[] {
        assert Merge(ty, NilMap, v).entries == v.entries;
      }
  }

  lemma {:induction false} FoldMerges(ty: Ty, a: Val, b: Val, dropIns: seq<Val>)
    requires WellTyped(ty, a) && WellTyped(ty, b) && forall i | 0 <= i < |dropIns| :: WellTyped(ty, dropIns[i])
    ensures Fold(ty, Merge(ty, a, b), dropIns) == Merge(ty, a, Fold(ty, b, dropIns))
    decreases dropIns
  {
    if dropIns != [] {
      MergeAssociative(ty, a, b, dropIns[0]);
      FoldMerges(ty, a, Merge(ty, b, dropIns[0]), dropIns[1..]);
    }
  }

  /** Folding the drop-ins into the base one by one equals merging the base with the pre-merged drop-ins. */
  lemma FoldIsOneMerge(ty: Ty, base: Val, dropIns: seq<Val>)
    requires WellTyped(ty, base) && forall i | 0 <= i < |dropIns| :: WellTyped(ty, dropIns[i])
    ensures Fold(ty, base, dropIns) == Merge(ty, base, Fold(ty, Zero(ty), dropIns))
  {
    MergeZero(ty, base);
    FoldMerges(ty, base, Zero(ty), dropIns);
  }

  // ----- last writer wins, setting by setting -----

  datatype Hop = Field(i: nat) | Key(k: string)

  /** The explicit setting at a path, if the value has one: a non-zero scalar, a non-nil slice, a pointer to
      a scalar, or an entry of a map whose entries are replaced whole. Pointers to structs are looked through. */
  function Setting(ty: Ty, v: Val, path: seq<Hop>): Option<Val>
    requires WellTyped(ty, v)
    decreases ty
  {
    match ty
    case ScalarTy => if path == [] && v.n != 0 then Some(v) else None
    case TimeTy => if path == [] && v.t != 0 then Some(v) else None
    case SliceTy => if path == [] && v.Slice? then Some(v) else None
    case PtrTy(elem) =>
      if v.NilPtr? then None
      else if elem.StructTy? then Setting(elem, v.target, path)
      else if path == [] then Some(v) else None
    case StructTy(fields) =>
      if path != [] && path[0].Field? && path[0].i < |fields|
      then Setting(fields[path[0].i], v.fields[path[0].i], path[1..])
      else None
    case MapTy(elem) =>
      if path == [] || !path[0].Key? || path[0].k !in Entries(v) then None
      else
        var entry := Entries(v)[path[0].k];
        match elem
        case StructTy(_) => Setting(elem, entry, path[1..])
        case TimeTy => Setting(elem, entry, path[1..])
        case PtrTy(StructTy(_)) => Setting(elem, entry, path[1..])
        case PtrTy(TimeTy) => Setting(elem, entry, path[1..])
        case _ => if |path| == 1 then Some(entry) else None
  }

  lemma {:induction false} ZeroSetsNothing(ty: Ty, path: seq<Hop>)
    ensures Setting(ty, Zero(ty), path) == None
    decreases ty
  {
    if ty.StructTy? && path != [] && path[0].Field? && path[0].i < |ty.fields| {
      ZeroSetsNothing(ty.fields[path[0].i], path[1..]);
    }
  }

  /** An overlay changes exactly the settings it makes: at every path the overlay's setting wins if there is
      one, and the base's stands otherwise. */
  lemma {:induction false} MergeSettings(ty: Ty, dst: Val, src: Val, path: seq<Hop>)
    requires WellTyped(ty, dst) && WellTyped(ty, src)
    ensures Setting(ty, Merge(ty, dst, src), path)
      == if Setting(ty, src, path).Some? then Setting(ty, src, path) else Setting(ty, dst, path)
    decreases ty
  {
    match ty
    case ScalarTy =>
    case TimeTy =>
    case SliceTy =>
    case PtrTy(elem) =>
      if src.Ptr? && elem.StructTy? {
        MergeSettings(elem, if dst.NilPtr? then Zero(elem) else dst.target, src.target, path);
        ZeroSetsNothing(elem, path);
      }
    case StructTy(fields) =>
      if path != [] && path[0].Field? && path[0].i < |fields| {
        var i := path[0].i;
        MergeSettings(fields[i], dst.fields[i], src.fields[i], path[1..]);
      }
    case MapTy(elem) =>
      if path != [] && path[0].Key? {
        var k := path[0].k;
        EntriesOfMerge(elem, dst, src, k);
        if Mergeable(elem) && k in Entries(dst) && k in Entries(src) {
          MergeSettings(elem, Entries(dst)[k], Entries(src)[k], path[1..]);
        }
      }
  }

  /** A key that both files have in a map of structs, or of pointers to structs, merges field by field: each setting
      of the entry is the overlay's if it makes one, else the base's. */
  lemma SharedStructsMerge(elem: Ty, dst: Val, src: Val, k: string, path: seq<Hop>)
    requires elem.StructTy? || (elem.PtrTy? && elem.elem.StructTy?)
    requires WellTyped(MapTy(elem), dst) && WellTyped(MapTy(elem), src)
    requires dst.Map? && src.Map? && k in dst.entries && k in src.entries
    ensures var r := Merge(MapTy(elem), dst, src);
      && r.Map? && k in r.entries && WellTyped(elem, r.entries[k])
      && Setting(elem, r.entries[k], path)
        == if Setting(elem, src.entries[k], path).Some? then Setting(elem, src.entries[k], path)
           else Setting(elem, dst.entries[k], path)
  {
    var whole := [Key(k)] + path;
    assert whole[1..] == path;
    MergeSettings(MapTy(elem), dst, src, whole);
    EntriesOfMerge(elem, dst, src, k);
  }

  /** In maps of scalars, slices, maps, or pointers to anything else, the overlay's entry stands whole; and everywhere
      a key that only one file has is taken from it. */
  lemma OtherEntriesReplaced(elem: Ty, dst: Val, src: Val, k: string)
    requires WellTyped(MapTy(elem), dst) && WellTyped(MapTy(elem), src) && dst.Map? && src.Map?
    ensures var r := Merge(MapTy(elem), dst, src);
      && r.Map? && (k in r.entries <==> k in dst.entries || k in src.entries)
      && (k in dst.entries && k !in src.entries ==> r.entries[k] == dst.entries[k])
      && (k in src.entries && k !in dst.entries ==> r.entries[k] == src.entries[k])
      && (k in src.entries && ReplacedWhole(elem) ==> r.entries[k] == src.entries[k])
  {
    EntriesOfMerge(elem, dst, src, k);
    MergeIntoSame(elem, dst, src);
  }

  predicate ReplacedWhole(elem: Ty) {
    match elem
    case ScalarTy => true
    case SliceTy => true
    case MapTy(_) => true
    case PtrTy(e) => !e.StructTy? && !e.TimeTy?
    case _ => false
  }

  lemma MergeIntoSame(elem: Ty, dst: Val, src: Val)
    requires WellTyped(MapTy(elem), dst) && WellTyped(MapTy(elem), src) && dst.Map? && src.Map?
    ensures Merge(MapTy(elem), dst, src).Map?
  {
  }

  /** The last file that makes the setting, else the base. */
  function LastSetting(ty: Ty, base: Val, dropIns: seq<Val>, path: seq<Hop>): Option<Val>
    requires WellTyped(ty, base) && forall i | 0 <= i < |dropIns| :: WellTyped(ty, dropIns[i])
    decreases |dropIns|
  {
    if dropIns == [] then Setting(ty, base, path)
    else
      var last := Setting(ty, dropIns[|dropIns| - 1], path);
      if last.Some? then last else LastSetting(ty, base, dropIns[..|dropIns| - 1], path)
  }

  lemma {:induction false} FoldLast(ty: Ty, base: Val, dropIns: seq<Val>)
    requires dropIns != []
    requires WellTyped(ty, base) && forall i | 0 <= i < |dropIns| :: WellTyped(ty, dropIns[i])
    ensures Fold(ty, base, dropIns) == Merge(ty, Fold(ty, base, dropIns[..|dropIns| - 1]), dropIns[|dropIns| - 1])
    decreases dropIns
  {
    if |dropIns| > 1 {
      FoldLast(ty, Merge(ty, base, dropIns[0]), dropIns[1..]);
      assert dropIns[1..][..|dropIns| - 2] == dropIns[..|dropIns| - 1][1..];
    }
  }

  /** Every setting of the merged configuration is that of the last file that makes it. */
  lemma {:induction false} FoldSettings(ty: Ty, base: Val, dropIns: seq<Val>, path: seq<Hop>)
    requires WellTyped(ty, base) && forall i | 0 <= i < |dropIns| :: WellTyped(ty, dropIns[i])
    ensures Setting(ty, Fold(ty, base, dropIns), path) == LastSetting(ty, base, dropIns, path)
    decreases |dropIns|
  {
    if dropIns != [] {
      var front, last := dropIns[..|dropIns| - 1], dropIns[|dropIns| - 1];
      FoldLast(ty, base, dropIns);
      FoldSettings(ty, base, front, path);
      MergeSettings(ty, Fold(ty, base, front), last, path);
    }
  }
}
