/** The canonical form of a JSON value in which every object's keys are sorted. */
module StableValue {
  import opened JsonTree
  import opened StableSort

  /** The default sort of strings never finds two different strings equal. */
  ghost predicate Injective(code: string -> real) {
    forall a, b :: code(a) == code(b) ==> a == b
  }

  function ByKey(code: string -> real): Field -> real { (f: Field) => code(f.key) }

  function StableItems(items: seq<Json>, code: string -> real): (r: seq<Json>)
    ensures |r| == |items|
    decreases items
  {
    seq(|items|, i requires 0 <= i < |items| => Stable(items[i], code))
  }

  function StableFields(fields: seq<Field>, code: string -> real): (r: seq<Field>)
    ensures |r| == |fields|
    ensures forall i :: 0 <= i < |fields| ==> r[i].key == fields[i].key
    decreases fields
  {
    seq(|fields|, i requires 0 <= i < |fields| => Field(fields[i].key, Stable(fields[i].value, code)))
  }

  function Stable(j: Json, code: string -> real): Json
    decreases j
  {
    match j
    case Arr(items) => Arr(StableItems(items, code))
    case Obj(fields) => Obj(Sort(StableFields(fields, code), ByKey(code)))
    case _ => j
  }

  /** The same value: the order of an object's keys does not count, all else does. */
  ghost predicate SameValue(a: Json, b: Json)
    decreases a
  {
    match a
    case Arr(xs) => b.Arr? && |xs| == |b.items| && forall i :: 0 <= i < |xs| ==> SameValue(xs[i], b.items[i])
    case Obj(fs) =>
      b.Obj? && |fs| == |b.fields| && forall i :: 0 <= i < |fs| ==> HasTwin(fs[i], b.fields)
    case _ => a == b
  }

  ghost predicate HasTwin(f: Field, gs: seq<Field>)
    decreases f
  {
    exists k :: 0 <= k < |gs| && f.key == gs[k].key && SameValue(f.value, gs[k].value)
  }

  // ---- sequences of fields with distinct keys ----

  lemma DistinctSeparated(fields: seq<Field>, code: string -> real)
    requires DistinctKeys(fields) && Injective(code)
    ensures Separated(fields, ByKey(code))
  {
  }

  lemma SortsAlike(a: seq<Field>, b: seq<Field>, code: string -> real)
    requires DistinctKeys(a) && Injective(code) && |a| == |b|
    requires forall f :: f in a ==> f in b
    ensures Sort(a, ByKey(code)) == Sort(b, ByKey(code))
  {
    forall i, j | 0 <= i < j < |a| ensures a[i] != a[j] {
      assert a[i].key != a[j].key;
    }
    SameElements(a, b);
    DistinctSeparated(a, code);
    SortIgnoresOrder(a, b, ByKey(code));
  }

  lemma Member(a: seq<Field>, b: seq<Field>, i: nat) returns (k: nat)
    requires multiset(a) == multiset(b) && i < |a|
    ensures k < |b| && a[i] == b[k]
  {
    assert a[i] in multiset(a);
    k :| 0 <= k < |b| && b[k] == a[i];
  }

  lemma EqualSorts(a: seq<Field>, b: seq<Field>, code: string -> real)
    requires Sort(a, ByKey(code)) == Sort(b, ByKey(code))
    ensures multiset(a) == multiset(b) && |a| == |b|
  {
  }

  // ---- the canonical form decides sameness ----

  /** Two well-formed values have one canonical form exactly when they are the same
      value, at any depth. */
  lemma {:induction false} StableDecides(a: Json, b: Json, code: string -> real)
    requires WellFormed(a) && WellFormed(b) && Injective(code)
    ensures Stable(a, code) == Stable(b, code) <==> SameValue(a, b)
    decreases a
  {
    match a
    case Arr(xs) =>
      if b.Arr? && |xs| == |b.items| {
        ItemsDecide(xs, b.items, code);
      } else if b.Arr? {
        assert |StableItems(xs, code)| != |StableItems(b.items, code)|;
      }
    case Obj(fs) =>
      if b.Obj? {
        FieldsDecide(fs, b.fields, code);
      }
    case _ =>
  }

  lemma {:induction false} ItemsDecide(xs: seq<Json>, ys: seq<Json>, code: string -> real)
    requires |xs| == |ys| && Injective(code)
    requires forall i :: 0 <= i < |xs| ==> WellFormed(xs[i]) && WellFormed(ys[i])
    ensures StableItems(xs, code) == StableItems(ys, code) <==> forall i :: 0 <= i < |xs| ==> SameValue(xs[i], ys[i])
    decreases xs
  {
    forall i | 0 <= i < |xs| ensures StableItems(xs, code)[i] == StableItems(ys, code)[i] <==> SameValue(xs[i], ys[i]) {
      StableDecides(xs[i], ys[i], code);
    }
  }

  /** The fields with their values in canonical form are equal exactly when key and value are the same. */
  ghost predicate Agree(fs: seq<Field>, gs: seq<Field>, a: seq<Field>, b: seq<Field>) {
    && |a| == |fs| && |b| == |gs|
    && forall i, k :: 0 <= i < |fs| && 0 <= k < |gs| ==>
         (a[i] == b[k] <==> fs[i].key == gs[k].key && SameValue(fs[i].value, gs[k].value))
  }

  lemma SameThenSorted(fs: seq<Field>, gs: seq<Field>, a: seq<Field>, b: seq<Field>, code: string -> real)
    requires Agree(fs, gs, a, b) && DistinctKeys(a) && Injective(code) && SameValue(Obj(fs), Obj(gs))
    ensures Sort(a, ByKey(code)) == Sort(b, ByKey(code))
  {
    forall f | f in a ensures f in b {
      var i :| 0 <= i < |a| && a[i] == f;
      assert HasTwin(fs[i], gs);
      var k :| 0 <= k < |gs| && fs[i].key == gs[k].key && SameValue(fs[i].value, gs[k].value);
      assert b[k] == f;
    }
    SortsAlike(a, b, code);
  }

  lemma EqualThenSame(fs: seq<Field>, gs: seq<Field>, a: seq<Field>, b: seq<Field>)
    requires Agree(fs, gs, a, b) && multiset(a) == multiset(b) && |a| == |b|
    ensures SameValue(Obj(fs), Obj(gs))
  {
    forall i | 0 <= i < |fs| ensures HasTwin(fs[i], gs) {
      var k := Member(a, b, i);
    }
  }

  lemma {:induction false} FieldsDecide(fs: seq<Field>, gs: seq<Field>, code: string -> real)
    requires WellFormed(Obj(fs)) && WellFormed(Obj(gs)) && Injective(code)
    ensures Sort(StableFields(fs, code), ByKey(code)) == Sort(StableFields(gs, code), ByKey(code)) <==>
            SameValue(Obj(fs), Obj(gs))
    decreases fs
  {
    var a, b := StableFields(fs, code), StableFields(gs, code);
    forall i, k | 0 <= i < |fs| && 0 <= k < |gs|
      ensures a[i] == b[k] <==> fs[i].key == gs[k].key && SameValue(fs[i].value, gs[k].value)
    {
      StableDecides(fs[i].value, gs[k].value, code);
    }
    if SameValue(Obj(fs), Obj(gs)) {
      SameThenSorted(fs, gs, a, b, code);
    } else if Sort(a, ByKey(code)) == Sort(b, ByKey(code)) {
      EqualSorts(a, b, code);
      EqualThenSame(fs, gs, a, b);
    }
  }

  // ---- what the canonical form is ----

  /** Every object's keys are in order, at any depth. */
  ghost predicate KeysSorted(j: Json, code: string -> real) {
    match j
    case Arr(items) => forall i :: 0 <= i < |items| ==> KeysSorted(items[i], code)
    case Obj(fields) => IsSorted(fields, ByKey(code)) && forall i :: 0 <= i < |fields| ==> KeysSorted(fields[i].value, code)
    case _ => true
  }

  /** The canonical form is the same value with the keys in order. */
  lemma {:induction false} StableIsSorted(j: Json, code: string -> real)
    ensures KeysSorted(Stable(j, code), code)
    decreases j
  {
    match j
    case Arr(items) =>
      forall i | 0 <= i < |items| ensures KeysSorted(StableItems(items, code)[i], code) {
        StableIsSorted(items[i], code);
      }
    case Obj(fields) =>
      var raw := StableFields(fields, code);
      var sorted := Sort(raw, ByKey(code));
      SortSorted(raw, ByKey(code));
      forall k | 0 <= k < |fields| ensures KeysSorted(raw[k].value, code) {
        StableIsSorted(fields[k].value, code);
      }
      forall i | 0 <= i < |sorted| ensures KeysSorted(sorted[i].value, code) {
        var k := Member(sorted, raw, i);
      }
    case _ =>
  }

  lemma {:induction false} StableIsSame(j: Json, code: string -> real)
    ensures SameValue(j, Stable(j, code))
    decreases j
  {
    match j
    case Arr(items) =>
      forall i | 0 <= i < |items| ensures SameValue(items[i], StableItems(items, code)[i]) {
        StableIsSame(items[i], code);
      }
    case Obj(fields) =>
      var raw := StableFields(fields, code);
      var sorted := Sort(raw, ByKey(code));
      assert |sorted| == |raw| && multiset(sorted) == multiset(raw);
      forall i | 0 <= i < |fields| ensures HasTwin(fields[i], sorted) {
        StableIsSame(fields[i].value, code);
        var k := Member(raw, sorted, i);
      }
    case _ =>
  }
}
