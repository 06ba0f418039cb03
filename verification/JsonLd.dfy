/** JSON-LD documents: repairing a compacted copy for redistribution, the test that
    decides whether the repair worked, and the node budget of incoming documents. */
module JsonLd {
  import opened Options

  /** `Obj` is a Ruby hash: its fields in insertion order, each key once. */
  datatype Json =
    | Null
    | Bool(b: bool)
    | Num(n: int)
    | Str(s: string)
    | Arr(items: seq<Json>)
    | Obj(fields: seq<Field>)

  datatype Field = Field(key: string, value: Json)

  const PUBLIC := Str("https://www.w3.org/ns/activitystreams#Public")
  const AS_PUBLIC := Str("as:Public")

  // ----- Hashes

  predicate HasKey(h: seq<Field>, key: string)
    decreases |h|
  {
    h != [] && (h[0].key == key || HasKey(h[1..], key))
  }

  /** `hash[key]`: nil for a missing key. */
  function Get(h: seq<Field>, key: string): (v: Json)
    ensures !HasKey(h, key) ==> v == Null
    decreases |h|
  {
    if h == [] then Null
    else if h[0].key == key then h[0].value
    else Get(h[1..], key)
  }

  function Put(h: seq<Field>, key: string, value: Json): seq<Field>
    decreases |h|
  {
    if h == [] then [Field(key, value)]
    else if h[0].key == key then [Field(key, value)] + h[1..]
    else [h[0]] + Put(h[1..], key, value)
  }

  /** Ruby's `==`: hashes are equal whatever the order of their keys. */
  predicate Equal(a: Json, b: Json)
    decreases a, 1
  {
    match a
    case Arr(xs) => b.Arr? && |xs| == |b.items| && EqualItems(xs, b.items)
    case Obj(fs) => b.Obj? && |fs| == |b.fields| && EqualFields(fs, b.fields)
    case _ => a == b
  }

  predicate EqualItems(xs: seq<Json>, ys: seq<Json>)
    requires |xs| == |ys|
    decreases xs, 0
  {
    xs == [] || (Equal(xs[0], ys[0]) && EqualItems(xs[1..], ys[1..]))
  }

  predicate EqualFields(fs: seq<Field>, h: seq<Field>)
    decreases fs, 0
  {
    fs == [] || (HasKey(h, fs[0].key) && Equal(fs[0].value, Get(h, fs[0].key)) && EqualFields(fs[1..], h))
  }

  /** The keys both operations leave out of every hash they descend into. */
  predicate Ignored(key: string) {
    key == "@context" || key == "signature"
  }

  // ----- Patching

  /** `patch_for_forwarding!` from the next field of the original on; the value is the
      compacted hash as it is left.  A size mismatch ends the whole call. */
  function PatchFields(original: seq<Field>, compacted: seq<Field>): seq<Field>
    decreases original, 0
  {
    if original == [] then compacted else
    var key, value := original[0].key, original[0].value;
    if Ignored(key) || value.Null? || !HasKey(compacted, key) then
      PatchFields(original[1..], compacted)
    else
      match PatchValue(value, Get(compacted, key))
      case None => compacted
      case Some(patched) => PatchFields(original[1..], Put(compacted, key, patched))
  }

  function PatchValue(v: Json, vc: Json): Option<Json>
    decreases v, 1
  {
    if v.Obj? && vc.Obj? then Some(Obj(PatchFields(v.fields, vc.fields)))
    else if v.Arr? then
      var list := if vc.Arr? then vc.items else [vc];
      if |v.items| != |list| then None else Some(Arr(PatchItems(v.items, list)))
    else if v == PUBLIC && vc == AS_PUBLIC then Some(v)
    else Some(vc)
  }

  function PatchItem(v: Json, vc: Json): Json
    decreases v, 1
  {
    if v.Obj? && vc.Obj? then Obj(PatchFields(v.fields, vc.fields))
    else if v == PUBLIC && vc == AS_PUBLIC then v
    else vc
  }

  function PatchItems(vs: seq<Json>, vcs: seq<Json>): seq<Json>
    requires |vs| == |vcs|
    decreases vs, 0
  {
    if vs == [] then [] else [PatchItem(vs[0], vcs[0])] + PatchItems(vs[1..], vcs[1..])
  }

  /** The loop over the original's fields, and the one over the items of an array. */
  method PatchForForwarding(original: seq<Field>, compacted: seq<Field>) returns (patched: seq<Field>)
    ensures patched == PatchFields(original, compacted)
    decreases original, 0
  {
    patched := compacted;
    var i := 0;
    while i < |original|
      invariant 0 <= i <= |original|
      invariant PatchFields(original[i..], patched) == PatchFields(original, compacted)
    {
      var key, value := original[i].key, original[i].value;
      assert original[i..][0] == original[i] && original[i..][1..] == original[i + 1..];
      i := i + 1;
      if Ignored(key) || value.Null? || !HasKey(patched, key) { continue; }
      var compactedValue := Get(patched, key);
      if value.Obj? && compactedValue.Obj? {
        var inner := PatchForForwarding(value.fields, compactedValue.fields);
        patched := Put(patched, key, Obj(inner));
      } else if value.Arr? {
        var list := if compactedValue.Arr? then compactedValue.items else [compactedValue];
        if |value.items| != |list| { return; }
        var items := PatchEach(value.items, list);
        patched := Put(patched, key, Arr(items));
      } else if value == PUBLIC && compactedValue == AS_PUBLIC {
        patched := Put(patched, key, value);
      } else {
        PutSame(patched, key);
      }
    }
  }

  method PatchEach(vs: seq<Json>, vcs: seq<Json>) returns (items: seq<Json>)
    requires |vs| == |vcs|
    ensures items == PatchItems(vs, vcs)
    decreases vs, 1
  {
    hide PatchItems;
    items := [];
    var i := 0;
    assert vs[0..] == vs && vcs[0..] == vcs;
    while i < |vs|
      invariant 0 <= i <= |vs|
      invariant items + PatchItems(vs[i..], vcs[i..]) == PatchItems(vs, vcs)
    {
      var v, vc := vs[i], vcs[i];
      PatchItemsFrom(vs, vcs, i);
      var item := vc;
      if v.Obj? && vc.Obj? {
        var inner := PatchForForwarding(v.fields, vc.fields);
        item := Obj(inner);
      } else if v == PUBLIC && vc == AS_PUBLIC {
        item := v;
      }
      assert item == PatchItem(v, vc);
      items := items + [item];
      i := i + 1;
    }
    PatchNoItems(vs, vcs);
  }

  lemma PatchItemsFrom(vs: seq<Json>, vcs: seq<Json>, i: nat)
    requires |vs| == |vcs| && i < |vs|
    ensures PatchItems(vs[i..], vcs[i..]) == [PatchItem(vs[i], vcs[i])] + PatchItems(vs[i + 1..], vcs[i + 1..])
  {
    hide PatchItem;
    assert vs[i..][1..] == vs[i + 1..] && vcs[i..][1..] == vcs[i + 1..];
  }

  lemma PatchNoItems(vs: seq<Json>, vcs: seq<Json>)
    requires |vs| == |vcs|
    ensures PatchItems(vs[|vs|..], vcs[|vs|..]) == []
  {
  }

  lemma {:induction false} PutSame(h: seq<Field>, key: string)
    requires HasKey(h, key)
    ensures Put(h, key, Get(h, key)) == h
    decreases |h|
  {
    if h[0].key != key {
      PutSame(h[1..], key);
    }
  }

  lemma {:induction false} GetPut(h: seq<Field>, key: string, value: Json, other: string)
    ensures Get(Put(h, key, value), other) == if other == key then value else Get(h, other)
    ensures HasKey(Put(h, key, value), other) <==> other == key || HasKey(h, other)
    decreases |h|
  {
    if h != [] && h[0].key != key {
      GetPut(h[1..], key, value, other);
      var p := Put(h, key, value);
      assert p[0] == h[0] && p[1..] == Put(h[1..], key, value);
    } else if h != [] {
      assert Put(h, key, value)[1..] == h[1..];
    } else {
      assert Put(h, key, value)[1..] == [];
    }
  }

  // ----- The safety test

  /** `value.instance_of?(compacted_value.class)`; true and false are of two classes. */
  predicate SameClass(a: Json, b: Json) {
    (a.Null? && b.Null?) || (a.Bool? && b.Bool? && a.b == b.b) || (a.Num? && b.Num?) ||
    (a.Str? && b.Str?) || (a.Arr? && b.Arr?) || (a.Obj? && b.Obj?)
  }

  predicate SafeFields(original: seq<Field>, compacted: seq<Field>)
    decreases original, 0
  {
    original == [] ||
    ((Ignored(original[0].key) || SafeValue(original[0].value, Get(compacted, original[0].key))) &&
     SafeFields(original[1..], compacted))
  }

  predicate SafeValue(v: Json, vc: Json)
    decreases v, 1
  {
    SameClass(v, vc) &&
    match v
    case Obj(fields) => SafeFields(fields, vc.fields)
    case Arr(items) => SafeItems(items, vc.items)
    case _ => v == vc
  }

  /** `zip` pads a short list with nil and drops what a long list has beyond. */
  predicate SafeItems(vs: seq<Json>, vcs: seq<Json>)
    decreases vs, 0
  {
    vs == [] ||
    (SafeItem(vs[0], if vcs == [] then Null else vcs[0]) &&
     SafeItems(vs[1..], if vcs == [] then [] else vcs[1..]))
  }

  predicate SafeItem(v: Json, vc: Json)
    decreases v, 1
  {
    if v.Obj? then vc.Obj? && SafeFields(v.fields, vc.fields) else Equal(v, vc)
  }

  // ----- Well-formed documents and compaction

  predicate Proper(v: Json)
    decreases v, 1
  {
    match v
    case Arr(items) => ProperItems(items)
    case Obj(fields) => ProperFields(fields)
    case _ => true
  }

  predicate ProperItems(items: seq<Json>)
    decreases items, 0
  {
    items == [] || (Proper(items[0]) && ProperItems(items[1..]))
  }

  /** Each key once, at every depth. */
  predicate ProperFields(fields: seq<Field>)
    decreases fields, 0
  {
    fields == [] || (!HasKey(fields[1..], fields[0].key) && Proper(fields[0].value) && ProperFields(fields[1..]))
  }

  /** The artefacts of compaction that the patch is for: the full Public URI becomes
      `as:Public`, a one-item array becomes its item, at any depth; a null field may be
      dropped.  Other keys of the compacted hash, and the ignored ones, are arbitrary. */
  ghost predicate CompactsFields(original: seq<Field>, compacted: seq<Field>)
    decreases original, 0
  {
    original == [] ||
    ((Ignored(original[0].key) ||
      (if HasKey(compacted, original[0].key)
       then CompactsValue(original[0].value, Get(compacted, original[0].key))
       else original[0].value.Null?)) &&
     CompactsFields(original[1..], compacted))
  }

  ghost predicate CompactsValue(v: Json, vc: Json)
    decreases v, 1
  {
    match v
    case Obj(fields) => vc.Obj? && CompactsFields(fields, vc.fields)
    case Arr(items) =>
      || (vc.Arr? && |vc.items| == |items| && CompactsItems(items, vc.items))
      || (|items| == 1 && CompactsValue(items[0], vc))
    case _ => vc == v || (v == PUBLIC && vc == AS_PUBLIC)
  }

  ghost predicate CompactsItems(vs: seq<Json>, vcs: seq<Json>)
    requires |vs| == |vcs|
    decreases vs, 0
  {
    vs == [] || (CompactsValue(vs[0], vcs[0]) && CompactsItems(vs[1..], vcs[1..]))
  }

  /** Every array that is itself an item of an array came through unchanged, and none took
      the place of a surrounding one-item array. */
  predicate NestedArraysIntact(original: seq<Field>, compacted: seq<Field>)
    decreases original, 0
  {
    original == [] ||
    ((Ignored(original[0].key) || IntactValue(original[0].value, Get(compacted, original[0].key))) &&
     NestedArraysIntact(original[1..], compacted))
  }

  predicate IntactValue(v: Json, vc: Json)
    decreases v, 1
  {
    match v
    case Obj(fields) => vc.Obj? ==> NestedArraysIntact(fields, vc.fields)
    case Arr(items) =>
      var list := if vc.Arr? then vc.items else [vc];
      |items| == |list| && IntactItems(items, list)
    case _ => true
  }

  predicate IntactItems(vs: seq<Json>, vcs: seq<Json>)
    requires |vs| == |vcs|
    decreases vs, 0
  {
    vs == [] || (IntactItem(vs[0], vcs[0]) && IntactItems(vs[1..], vcs[1..]))
  }

  predicate IntactItem(v: Json, vc: Json)
    decreases v, 1
  {
    match v
    case Obj(fields) => vc.Obj? ==> NestedArraysIntact(fields, vc.fields)
    case Arr(_) => Equal(v, vc)
    case _ => true
  }
}
