/** When a patched document is safe to forward, and what a safe document keeps. */
module JsonLdForwarding {
  import opened Options
  import opened JsonLd

  // ----- Patching one key leaves the others alone

  lemma {:induction false} PatchFrame(original: seq<Field>, compacted: seq<Field>, key: string)
    requires !HasKey(original, key)
    ensures var patched := PatchFields(original, compacted);
      (HasKey(patched, key) <==> HasKey(compacted, key)) && Get(patched, key) == Get(compacted, key)
    decreases |original|
  {
    if original != [] {
      var k, value := original[0].key, original[0].value;
      if Ignored(k) || value.Null? || !HasKey(compacted, k) {
        PatchFrame(original[1..], compacted, key);
      } else {
        var p := PatchValue(value, Get(compacted, k));
        if p.Some? {
          GetPut(compacted, k, p.value, key);
          PatchFrame(original[1..], Put(compacted, k, p.value), key);
        }
      }
    }
  }

  lemma {:induction false} PutElsewhere(original: seq<Field>, compacted: seq<Field>, key: string, value: Json)
    requires !HasKey(original, key)
    ensures CompactsFields(original, Put(compacted, key, value)) <==> CompactsFields(original, compacted)
    ensures NestedArraysIntact(original, Put(compacted, key, value)) <==> NestedArraysIntact(original, compacted)
    decreases |original|
  {
    if original != [] {
      GetPut(compacted, key, value, original[0].key);
      PutElsewhere(original[1..], compacted, key, value);
    }
  }

  // ----- An array never equals the compaction of its own item

  function ArrayDepth(v: Json): nat {
    if v.Arr? then 1 + (if v.items == [] then 0 else ArrayDepth(v.items[0])) else 0
  }

  lemma {:induction false} EqualDepth(a: Json, b: Json)
    requires Equal(a, b)
    ensures ArrayDepth(a) == ArrayDepth(b)
  {
    if a.Arr? && a.items != [] {
      EqualDepth(a.items[0], b.items[0]);
    }
  }

  lemma {:induction false} CompactionDepth(v: Json, vc: Json)
    requires CompactsValue(v, vc)
    ensures ArrayDepth(vc) <= ArrayDepth(v)
  {
    if v.Arr? {
      if vc.Arr? && |vc.items| == |v.items| && CompactsItems(v.items, vc.items) {
        if v.items != [] { CompactionDepth(v.items[0], vc.items[0]); }
      } else {
        CompactionDepth(v.items[0], vc);
      }
    }
  }

  // ----- The patch works exactly when nested arrays were left alone

  lemma {:induction false} FieldsSafeIff(original: seq<Field>, compacted: seq<Field>)
    requires ProperFields(original) && CompactsFields(original, compacted)
    ensures SafeFields(original, PatchFields(original, compacted)) <==> NestedArraysIntact(original, compacted)
    decreases original, 0
  {
    if original != [] {
      var key, value, rest := original[0].key, original[0].value, original[1..];
      if Ignored(key) || value.Null? || !HasKey(compacted, key) {
        PatchFrame(rest, compacted, key);
        FieldsSafeIff(rest, compacted);
      } else {
        var vc := Get(compacted, key);
        ValueSafeIff(value, vc);
        match PatchValue(value, vc)
        case None =>
        case Some(p) =>
          var next := Put(compacted, key, p);
          GetPut(compacted, key, p, key);
          PutElsewhere(rest, compacted, key, p);
          PatchFrame(rest, next, key);
          FieldsSafeIff(rest, next);
      }
    }
  }

  lemma {:induction false} ValueSafeIff(v: Json, vc: Json)
    requires Proper(v) && CompactsValue(v, vc)
    ensures var p := PatchValue(v, vc);
      if p.None? then !SafeValue(v, vc) && !IntactValue(v, vc)
      else SafeValue(v, p.value) <==> IntactValue(v, vc)
    decreases v, 1
  {
    if v.Obj? {
      FieldsSafeIff(v.fields, vc.fields);
    } else if v.Arr? {
      var list := if vc.Arr? then vc.items else [vc];
      if |v.items| == |list| {
        ArrayPairs(v, vc);
        ItemsSafeIff(v.items, list);
      } else {
        CollapsedArrayIsUnsafe(v.items[0], vc);
      }
    }
  }

  /** What the patch pairs up: arrays, or an item with its compaction. */
  ghost predicate Paired(vs: seq<Json>, vcs: seq<Json>)
    requires |vs| == |vcs|
    decreases |vs|
  {
    vs == [] || ((vs[0].Arr? || CompactsValue(vs[0], vcs[0])) && Paired(vs[1..], vcs[1..]))
  }

  lemma {:induction false} CompactedItemsPair(vs: seq<Json>, vcs: seq<Json>)
    requires |vs| == |vcs| && CompactsItems(vs, vcs)
    ensures Paired(vs, vcs)
    decreases |vs|
  {
    if vs != [] { CompactedItemsPair(vs[1..], vcs[1..]); }
  }

  lemma ArrayPairs(v: Json, vc: Json)
    requires v.Arr? && CompactsValue(v, vc)
    requires |v.items| == |if vc.Arr? then vc.items else [vc]|
    ensures Paired(v.items, if vc.Arr? then vc.items else [vc])
  {
    if vc.Arr? && CompactsItems(v.items, vc.items) {
      CompactedItemsPair(v.items, vc.items);
    } else {
      assert v.items[1..] == [] && [vc][1..] == [];
    }
  }

  lemma CollapsedArrayIsUnsafe(item: Json, vc: Json)
    requires item.Arr? && vc.Arr? && CompactsValue(item, vc)
    ensures !SafeItem(item, if vc.items == [] then Null else vc.items[0])
  {
    CompactionDepth(item, vc);
    if vc.items != [] && Equal(item, vc.items[0]) {
      EqualDepth(item, vc.items[0]);
    }
  }

  lemma {:induction false} ItemsSafeIff(vs: seq<Json>, vcs: seq<Json>)
    requires |vs| == |vcs| && ProperItems(vs) && Paired(vs, vcs)
    ensures SafeItems(vs, PatchItems(vs, vcs)) <==> IntactItems(vs, vcs)
    decreases vs, 0
  {
    if vs != [] {
      ItemSafeIff(vs[0], vcs[0]);
      ItemsSafeIff(vs[1..], vcs[1..]);
      var patched := PatchItems(vs, vcs);
      assert patched[0] == PatchItem(vs[0], vcs[0]) && patched[1..] == PatchItems(vs[1..], vcs[1..]);
    }
  }

  lemma {:induction false} ItemSafeIff(v: Json, vc: Json)
    requires Proper(v) && (v.Arr? || CompactsValue(v, vc))
    ensures SafeItem(v, PatchItem(v, vc)) <==> IntactItem(v, vc)
    decreases v, 1
  {
    if v.Obj? { FieldsSafeIff(v.fields, vc.fields); }
  }

  /** The forwarding theorem: whatever document and whatever compacted copy of it, the
      patched copy is safe to forward if and only if no array inside an array was touched. */
  lemma PatchedIsSafeIff(original: seq<Field>, compacted: seq<Field>)
    requires ProperFields(original) && CompactsFields(original, compacted)
    ensures SafeFields(original, PatchFields(original, compacted)) <==> NestedArraysIntact(original, compacted)
  {
    FieldsSafeIff(original, compacted);
  }

  // ----- Documents without arrays of arrays

  predicate Flat(v: Json)
    decreases v, 1
  {
    match v
    case Obj(fields) => FlatFields(fields)
    case Arr(items) => FlatItems(items)
    case _ => true
  }

  predicate FlatFields(fields: seq<Field>)
    decreases fields, 0
  {
    fields == [] || (Flat(fields[0].value) && FlatFields(fields[1..]))
  }

  predicate FlatItems(items: seq<Json>)
    decreases items, 0
  {
    items == [] || (!items[0].Arr? && Flat(items[0]) && FlatItems(items[1..]))
  }

  lemma {:induction false} FlatFieldsIntact(original: seq<Field>, compacted: seq<Field>)
    requires FlatFields(original) && CompactsFields(original, compacted)
    ensures NestedArraysIntact(original, compacted)
    decreases original, 0
  {
    if original != [] {
      var value, vc := original[0].value, Get(compacted, original[0].key);
      if !Ignored(original[0].key) && HasKey(compacted, original[0].key) { FlatValueIntact(value, vc); }
      FlatFieldsIntact(original[1..], compacted);
    }
  }

  lemma {:induction false} FlatValueIntact(v: Json, vc: Json)
    requires Flat(v) && CompactsValue(v, vc)
    ensures IntactValue(v, vc)
    decreases v, 1
  {
    if v.Obj? {
      FlatFieldsIntact(v.fields, vc.fields);
    } else if v.Arr? {
      ArrayPairs(v, vc);
      FlatItemsIntact(v.items, if vc.Arr? then vc.items else [vc]);
    }
  }

  lemma {:induction false} FlatItemsIntact(vs: seq<Json>, vcs: seq<Json>)
    requires |vs| == |vcs| && FlatItems(vs) && Paired(vs, vcs)
    ensures IntactItems(vs, vcs)
    decreases vs, 0
  {
    if vs != [] {
      if vs[0].Obj? { FlatFieldsIntact(vs[0].fields, vcs[0].fields); }
      FlatItemsIntact(vs[1..], vcs[1..]);
    }
  }

  // ----- What is safe already is not touched

  lemma {:induction false} SafeFieldsUntouched(original: seq<Field>, compacted: seq<Field>)
    requires SafeFields(original, compacted)
    ensures PatchFields(original, compacted) == compacted
    decreases original, 0
  {
    if original != [] {
      var key, value := original[0].key, original[0].value;
      if !(Ignored(key) || value.Null? || !HasKey(compacted, key)) {
        SafeValueUntouched(value, Get(compacted, key));
        PutSame(compacted, key);
      }
      SafeFieldsUntouched(original[1..], compacted);
    }
  }

  lemma {:induction false} SafeValueUntouched(v: Json, vc: Json)
    requires SafeValue(v, vc)
    ensures PatchValue(v, vc) == None || PatchValue(v, vc) == Some(vc)
    decreases v, 1
  {
    if v.Obj? {
      SafeFieldsUntouched(v.fields, vc.fields);
    } else if v.Arr? && |v.items| == |vc.items| {
      SafeItemsUntouched(v.items, vc.items);
    }
  }

  lemma {:induction false} SafeItemsUntouched(vs: seq<Json>, vcs: seq<Json>)
    requires |vs| == |vcs| && SafeItems(vs, vcs)
    ensures PatchItems(vs, vcs) == vcs
    decreases vs, 0
  {
    if vs != [] {
      if vs[0].Obj? { SafeFieldsUntouched(vs[0].fields, vcs[0].fields); }
      SafeItemsUntouched(vs[1..], vcs[1..]);
    }
  }

  // ----- What a reader that ignores JSON-LD sees

  datatype Selector = Key(key: string) | Index(index: nat)

  /** The value at a path, nil where there is none. */
  function Read(v: Json, path: seq<Selector>): Json
    decreases |path|
  {
    if path == [] then v else
    match path[0]
    case Key(key) => if v.Obj? then Read(Get(v.fields, key), path[1..]) else Null
    case Index(i) => if v.Arr? && i < |v.items| then Read(v.items[i], path[1..]) else Null
  }

  predicate Scalar(v: Json) {
    v.Bool? || v.Num? || v.Str?
  }

  predicate AvoidsIgnored(path: seq<Selector>) {
    forall s | s in path :: s.Key? ==> !Ignored(s.key)
  }

  lemma {:induction false} NothingToRead(path: seq<Selector>)
    ensures Read(Null, path) == Null
  {
  }

  lemma {:induction false} EqualFieldAt(fs: seq<Field>, h: seq<Field>, key: string)
    requires EqualFields(fs, h) && HasKey(fs, key)
    ensures Equal(Get(fs, key), Get(h, key))
    decreases |fs|
  {
    if fs[0].key != key { EqualFieldAt(fs[1..], h, key); }
  }

  lemma {:induction false} EqualItemAt(xs: seq<Json>, ys: seq<Json>, i: nat)
    requires |xs| == |ys| && EqualItems(xs, ys) && i < |xs|
    ensures Equal(xs[i], ys[i])
    decreases i
  {
    if i > 0 { EqualItemAt(xs[1..], ys[1..], i - 1); }
  }

  lemma {:induction false} EqualReads(a: Json, b: Json, path: seq<Selector>)
    requires Equal(a, b) && Scalar(Read(a, path))
    ensures Read(b, path) == Read(a, path)
    decreases |path|
  {
    if path != [] {
      match path[0]
      case Key(key) =>
        if !HasKey(a.fields, key) {
          NothingToRead(path[1..]);
        } else {
          EqualFieldAt(a.fields, b.fields, key);
          EqualReads(Get(a.fields, key), Get(b.fields, key), path[1..]);
        }
      case Index(i) =>
        EqualItemAt(a.items, b.items, i);
        EqualReads(a.items[i], b.items[i], path[1..]);
    }
  }

  lemma {:induction false} SafeFieldAt(original: seq<Field>, compacted: seq<Field>, key: string)
    requires SafeFields(original, compacted) && HasKey(original, key) && !Ignored(key)
    ensures SafeValue(Get(original, key), Get(compacted, key))
    decreases |original|
  {
    if original[0].key != key { SafeFieldAt(original[1..], compacted, key); }
  }

  lemma {:induction false} SafeItemAt(vs: seq<Json>, vcs: seq<Json>, i: nat)
    requires SafeItems(vs, vcs) && i < |vs|
    ensures SafeItem(vs[i], if i < |vcs| then vcs[i] else Null)
    decreases i
  {
    if i > 0 { SafeItemAt(vs[1..], if vcs == [] then [] else vcs[1..], i - 1); }
  }

  /** In a safe copy every path outside the ignored keys that leads to a string, number or
      boolean in the original leads to the same one. */
  lemma {:induction false} SafeValueReads(v: Json, vc: Json, path: seq<Selector>)
    requires SafeValue(v, vc) && AvoidsIgnored(path) && Scalar(Read(v, path))
    ensures Read(vc, path) == Read(v, path)
    decreases |path|
  {
    if path != [] {
      var rest := path[1..];
      assert AvoidsIgnored(rest);
      match path[0]
      case Key(key) =>
        assert path[0] in path;
        if !HasKey(v.fields, key) {
          NothingToRead(rest);
        } else {
          SafeFieldAt(v.fields, vc.fields, key);
          SafeValueReads(Get(v.fields, key), Get(vc.fields, key), rest);
        }
      case Index(i) =>
        SafeItemAt(v.items, vc.items, i);
        var item := if i < |vc.items| then vc.items[i] else Null;
        if v.items[i].Obj? {
          SafeValueReads(v.items[i], item, rest);
        } else {
          EqualReads(v.items[i], item, rest);
        }
        NothingToRead(rest);
    }
  }

  /** So a reader of the forwarded copy of any document without arrays of arrays reads what
      the author wrote, and patching it again changes nothing. */
  lemma ForwardedReadsAsOriginal(original: seq<Field>, compacted: seq<Field>, path: seq<Selector>)
    requires ProperFields(original) && CompactsFields(original, compacted) && FlatFields(original)
    requires AvoidsIgnored(path) && Scalar(Read(Obj(original), path))
    ensures var patched := PatchFields(original, compacted);
      && Read(Obj(patched), path) == Read(Obj(original), path)
      && PatchFields(original, patched) == patched
  {
    var patched := PatchFields(original, compacted);
    FlatFieldsIntact(original, compacted);
    FieldsSafeIff(original, compacted);
    SafeValueReads(Obj(original), Obj(patched), path);
    SafeFieldsUntouched(original, patched);
  }
}
