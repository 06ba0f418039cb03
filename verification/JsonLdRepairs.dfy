/** How a patched document may differ from the compacted one, whatever the two documents are. */
module JsonLdRepairs {
  import opened Options
  import opened JsonLd

  /** `p` is `vc`, or the full Public URI that the original has for `as:Public`, or a hash whose
      fields are so. */
  ghost predicate RepairedItem(v: Json, vc: Json, p: Json)
    decreases v, 2
  {
    || p == vc
    || (v == PUBLIC && vc == AS_PUBLIC && p == PUBLIC)
    || (v.Obj? && vc.Obj? && p.Obj? && RepairedFields(v.fields, vc.fields, p.fields))
  }

  /** The same, or an array item by item, or the item put back into the one-item array that the
      original has. */
  ghost predicate RepairedValue(v: Json, vc: Json, p: Json)
    decreases v, 3
  {
    || RepairedItem(v, vc, p)
    || (v.Arr? && vc.Arr? && p.Arr? && RepairedItems(v.items, vc.items, p.items))
    || (v.Arr? && !vc.Arr? && p.Arr? && |v.items| == 1 && RepairedItems(v.items, [vc], p.items))
  }

  ghost predicate RepairedItems(vs: seq<Json>, vcs: seq<Json>, ps: seq<Json>)
    decreases vs, 1
  {
    |vs| == |vcs| == |ps| && forall i | 0 <= i < |vs| :: RepairedItem(vs[i], vcs[i], ps[i])
  }

  /** The same keys in the same order, and a value changes only towards the original's. */
  ghost predicate RepairedFields(original: seq<Field>, compacted: seq<Field>, patched: seq<Field>)
    decreases original, 1
  {
    |patched| == |compacted| &&
    forall i | 0 <= i < |compacted| ::
      patched[i].key == compacted[i].key &&
      (patched[i].value == compacted[i].value ||
       exists j :: 0 <= j < |original| && RepairedField(original[j], compacted[i], patched[i]))
  }

  ghost predicate RepairedField(field: Field, compacted: Field, patched: Field)
    decreases field, 0
  {
    field.key == compacted.key && !Ignored(field.key) && !field.value.Null?
    && RepairedValue(field.value, compacted.value, patched.value)
  }

  lemma {:induction false} PutAt(h: seq<Field>, key: string, value: Json) returns (i: nat)
    requires HasKey(h, key)
    ensures i < |h| && h[i].key == key && Get(h, key) == h[i].value && Put(h, key, value) == h[i := Field(key, value)]
    decreases |h|
  {
    if h[0].key == key {
      i := 0;
    } else {
      var k := PutAt(h[1..], key, value);
      i := k + 1;
    }
  }

  lemma {:induction false} NoSuchField(h: seq<Field>, key: string)
    requires !HasKey(h, key)
    ensures forall j | 0 <= j < |h| :: h[j].key != key
    decreases |h|
  {
    if h != [] {
      NoSuchField(h[1..], key);
      forall j | 0 <= j < |h| ensures h[j].key != key {
        if j > 0 { assert h[j] == h[1..][j - 1]; }
      }
    }
  }

  /** Whatever the compacted hash is, the patch changes nothing in it but in these ways. */
  lemma {:induction false} PatchRepairs(original: seq<Field>, compacted: seq<Field>)
    requires ProperFields(original)
    ensures RepairedFields(original, compacted, PatchFields(original, compacted))
    decreases original, 0
  {
    if original != [] {
      var key, value, rest := original[0].key, original[0].value, original[1..];
      if Ignored(key) || value.Null? || !HasKey(compacted, key) {
        PatchRepairs(rest, compacted);
        MoreOriginal(original, compacted, PatchFields(original, compacted));
      } else {
        var vc := Get(compacted, key);
        ValueRepairs(value, vc);
        match PatchValue(value, vc)
        case None =>
        case Some(p) =>
          PatchRepairs(rest, Put(compacted, key, p));
          var i := PutAt(compacted, key, p);
          NoSuchField(rest, key);
          FirstRepaired(original, compacted, i, p, PatchFields(original, compacted));
      }
    }
  }

  lemma MoreOriginal(original: seq<Field>, compacted: seq<Field>, patched: seq<Field>)
    requires original != [] && RepairedFields(original[1..], compacted, patched)
    ensures RepairedFields(original, compacted, patched)
  {
    var rest := original[1..];
    forall i | 0 <= i < |compacted| && patched[i].value != compacted[i].value
      ensures exists j :: 0 <= j < |original| && RepairedField(original[j], compacted[i], patched[i])
    {
      var j :| 0 <= j < |rest| && RepairedField(rest[j], compacted[i], patched[i]);
      assert original[j + 1] == rest[j];
    }
  }

  lemma FirstRepaired(original: seq<Field>, compacted: seq<Field>, k: nat, p: Json, patched: seq<Field>)
    requires original != [] && k < |compacted| && compacted[k].key == original[0].key
    requires forall j | 0 <= j < |original[1..]| :: original[1..][j].key != original[0].key
    requires RepairedField(original[0], compacted[k], Field(compacted[k].key, p))
    requires RepairedFields(original[1..], compacted[k := Field(compacted[k].key, p)], patched)
    ensures RepairedFields(original, compacted, patched)
  {
    var rest, next := original[1..], compacted[k := Field(compacted[k].key, p)];
    hide RepairedField;
    forall i | 0 <= i < |compacted|
      ensures patched[i].key == compacted[i].key
      ensures patched[i].value == compacted[i].value ||
        exists j :: 0 <= j < |original| && RepairedField(original[j], compacted[i], patched[i])
    {
      if patched[i].value != next[i].value {
        var j :| 0 <= j < |rest| && RepairedField(rest[j], next[i], patched[i]);
        assert original[j + 1] == rest[j];
        SameKey(rest[j], next[i], patched[i]);
        assert i != k;
      } else if i == k {
        assert patched[i] == Field(compacted[k].key, p);
        assert RepairedField(original[0], compacted[i], patched[i]);
      }
    }
  }

  lemma SameKey(field: Field, compacted: Field, patched: Field)
    requires RepairedField(field, compacted, patched)
    ensures field.key == compacted.key
  {
  }

  lemma {:induction false} ValueRepairs(v: Json, vc: Json)
    requires Proper(v)
    ensures PatchValue(v, vc).Some? ==> RepairedValue(v, vc, PatchValue(v, vc).value)
    decreases v, 1
  {
    if v.Obj? && vc.Obj? {
      PatchRepairs(v.fields, vc.fields);
    } else if v.Arr? {
      var list := if vc.Arr? then vc.items else [vc];
      if |v.items| == |list| { ItemsRepair(v.items, list); }
    }
  }

  lemma {:induction false} ItemsRepair(vs: seq<Json>, vcs: seq<Json>)
    requires ProperItems(vs) && |vs| == |vcs|
    ensures RepairedItems(vs, vcs, PatchItems(vs, vcs))
    decreases vs, 0
  {
    if vs != [] {
      if vs[0].Obj? && vcs[0].Obj? { PatchRepairs(vs[0].fields, vcs[0].fields); }
      ItemsRepair(vs[1..], vcs[1..]);
      var ps := PatchItems(vs, vcs);
      assert ps[0] == PatchItem(vs[0], vcs[0]) && ps[1..] == PatchItems(vs[1..], vcs[1..]);
      forall i | 0 <= i < |vs| ensures RepairedItem(vs[i], vcs[i], ps[i]) {
        if i > 0 { assert vs[i] == vs[1..][i - 1] && vcs[i] == vcs[1..][i - 1] && ps[i] == ps[1..][i - 1]; }
      }
    }
  }

  /** For one: a hash that was replaced by its id is not put back, and the document is not safe. */
  lemma ReplacedHashStays(key: string, fields: seq<Field>, id: string)
    requires !Ignored(key)
    ensures var original, compacted := [Field(key, Obj(fields))], [Field(key, Str(id))];
      PatchFields(original, compacted) == compacted && !SafeFields(original, compacted)
  {
    var original, compacted := [Field(key, Obj(fields))], [Field(key, Str(id))];
    assert original[1..] == [] && compacted[1..] == [];
    PutSame(compacted, key);
    assert PatchFields([], compacted) == compacted;
  }

  /** The context and the signature of a hash play no part, whatever they hold. */
  lemma ContextAndSignatureIgnored(key: string, v: Json, rest: seq<Field>, compacted: seq<Field>)
    requires key == "@context" || key == "signature"
    ensures PatchFields([Field(key, v)] + rest, compacted) == PatchFields(rest, compacted)
    ensures SafeFields([Field(key, v)] + rest, compacted) <==> SafeFields(rest, compacted)
  {
    assert ([Field(key, v)] + rest)[1..] == rest;
  }

  // ----- When two hashes are equal

  function KeySet(h: seq<Field>): set<string> {
    set f | f in h :: f.key
  }

  lemma {:induction false} KeySetIs(h: seq<Field>)
    requires ProperFields(h)
    ensures |KeySet(h)| == |h| && forall key :: key in KeySet(h) <==> HasKey(h, key)
    decreases |h|
  {
    if h != [] {
      KeySetIs(h[1..]);
      assert KeySet(h) == {h[0].key} + KeySet(h[1..]) by {
        forall f | f in h ensures f == h[0] || f in h[1..] {}
        forall f | f in h[1..] ensures f in h {}
      }
    }
  }

  ghost predicate EqualUnderKeys(fs: seq<Field>, gs: seq<Field>) {
    forall key | HasKey(fs, key) :: HasKey(gs, key) && Equal(Get(fs, key), Get(gs, key))
  }

  lemma {:induction false} EqualFieldsIff(fs: seq<Field>, h: seq<Field>)
    requires ProperFields(fs)
    ensures EqualFields(fs, h) <==> EqualUnderKeys(fs, h)
    decreases |fs|
  {
    if fs != [] {
      var first, rest := fs[0], fs[1..];
      EqualFieldsIff(rest, h);
      hide Equal;
      forall key ensures HasKey(fs, key) <==> key == first.key || HasKey(rest, key) {}
      forall key | HasKey(rest, key) ensures Get(fs, key) == Get(rest, key) {}
      assert Get(fs, first.key) == first.value;
    }
  }

  ghost predicate SameKeys(fs: seq<Field>, gs: seq<Field>) {
    forall key :: HasKey(fs, key) <==> HasKey(gs, key)
  }

  /** As many keys, each among the other's, are the same keys. */
  lemma AsManyKeys(fs: seq<Field>, gs: seq<Field>)
    requires ProperFields(fs) && ProperFields(gs)
    ensures SameKeys(fs, gs) ==> |fs| == |gs|
    ensures |fs| == |gs| && (forall key | HasKey(fs, key) :: HasKey(gs, key)) ==> SameKeys(fs, gs)
  {
    KeySetIs(fs);
    KeySetIs(gs);
    var a, b := KeySet(fs), KeySet(gs);
    hide HasKey, KeySet, ProperFields;
    if SameKeys(fs, gs) {
      assert a == b;
    }
    if |fs| == |gs| && forall key | HasKey(fs, key) :: HasKey(gs, key) {
      assert a <= b;
      assert b == a + (b - a) && |b| == |a| + |b - a|;
      assert b - a == {};
    }
  }

  /** Two hashes are equal exactly if they have the same keys, in whatever order, and equal values
      under each. */
  lemma EqualHashesIff(fs: seq<Field>, gs: seq<Field>)
    requires ProperFields(fs) && ProperFields(gs)
    ensures Equal(Obj(fs), Obj(gs)) <==> SameKeys(fs, gs) && EqualUnderKeys(fs, gs)
  {
    EqualFieldsIff(fs, gs);
    EqualHashIs(fs, gs);
    AsManyKeys(fs, gs);
    if EqualUnderKeys(fs, gs) {
      assert forall key | HasKey(fs, key) :: HasKey(gs, key);
    }
    hide *;
  }

  lemma EqualHashIs(fs: seq<Field>, gs: seq<Field>)
    ensures Equal(Obj(fs), Obj(gs)) <==> |fs| == |gs| && EqualFields(fs, gs)
  {
    hide EqualFields;
  }
}
