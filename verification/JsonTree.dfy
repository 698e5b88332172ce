/** JSON values as the workbench walks them: an object is the sequence of its
    entries in enumeration order, with no key twice. */
module JsonTree {
  import opened Basics

  datatype Json =
    | Null
    | Bool(flag: bool)
    | Num(number: real)
    | Str(text: string)
    | Arr(items: seq<Json>)
    | Obj(fields: seq<Field>)

  datatype Field = Field(key: string, value: Json)

  ghost predicate DistinctKeys(fields: seq<Field>) {
    forall i, j :: 0 <= i < j < |fields| ==> fields[i].key != fields[j].key
  }

  /** No object anywhere in the tree has the same key twice. */
  ghost predicate WellFormed(j: Json) {
    match j
    case Arr(items) => forall i :: 0 <= i < |items| ==> WellFormed(items[i])
    case Obj(fields) =>
      DistinctKeys(fields) && forall i :: 0 <= i < |fields| ==> WellFormed(fields[i].value)
    case _ => true
  }

  function Get(fields: seq<Field>, key: string): Option<Json> {
    if fields == [] then None
    else if fields[0].key == key then Some(fields[0].value)
    else Get(fields[1..], key)
  }

  /** Assignment to a property: in place when the key is there, at the end otherwise. */
  function Put(fields: seq<Field>, key: string, value: Json): seq<Field> {
    if fields == [] then [Field(key, value)]
    else if fields[0].key == key then [Field(key, value)] + fields[1..]
    else [fields[0]] + Put(fields[1..], key, value)
  }

  lemma {:induction false} GetFinds(fields: seq<Field>, i: nat)
    requires DistinctKeys(fields) && i < |fields|
    ensures Get(fields, fields[i].key) == Some(fields[i].value)
  {
    if i == 0 {
    } else {
      GetFinds(fields[1..], i - 1);
    }
  }

  lemma {:induction false} GetIndex(fields: seq<Field>, key: string) returns (i: nat)
    requires Get(fields, key).Some?
    ensures i < |fields| && fields[i] == Field(key, Get(fields, key).value)
  {
    if fields[0].key == key {
      i := 0;
    } else {
      var k := GetIndex(fields[1..], key);
      i := k + 1;
    }
  }

  lemma {:induction false} GetPut(fields: seq<Field>, key: string, value: Json, other: string)
    ensures Get(Put(fields, key, value), other) == if other == key then Some(value) else Get(fields, other)
  {
    if fields == [] || fields[0].key == key {
    } else {
      GetPut(fields[1..], key, value, other);
    }
  }

  lemma {:induction false} PutGet(fields: seq<Field>, key: string)
    requires Get(fields, key).Some?
    ensures Put(fields, key, Get(fields, key).value) == fields
  {
    if fields[0].key == key {
    } else {
      PutGet(fields[1..], key);
    }
  }

  lemma {:induction false} PutPut(fields: seq<Field>, key: string, a: Json, b: Json)
    ensures Put(Put(fields, key, a), key, b) == Put(fields, key, b)
  {
    if fields == [] || fields[0].key == key {
    } else {
      PutPut(fields[1..], key, a, b);
    }
  }

  lemma {:induction false} PutMembers(fields: seq<Field>, key: string, value: Json)
    ensures forall f :: f in Put(fields, key, value) ==> f == Field(key, value) || f in fields
  {
    if fields == [] || fields[0].key == key {
    } else {
      PutMembers(fields[1..], key, value);
    }
  }

  /** An assignment keeps the keys distinct and touches no other entry. */
  lemma {:induction false} PutShape(fields: seq<Field>, key: string, value: Json)
    requires DistinctKeys(fields)
    ensures DistinctKeys(Put(fields, key, value))
    ensures forall f :: f in Put(fields, key, value) ==> f == Field(key, value) || f in fields
    ensures Get(fields, key).Some? ==> |Put(fields, key, value)| == |fields|
  {
    PutMembers(fields, key, value);
    if fields == [] || fields[0].key == key {
    } else {
      PutShape(fields[1..], key, value);
      var rest := Put(fields[1..], key, value);
      assert forall j :: 0 <= j < |rest| ==> rest[j] in rest;
    }
  }

  /** An assignment keeps the place of a key that is there, and appends one that is not. */
  lemma {:induction false} PutPlace(fields: seq<Field>, key: string, value: Json)
    ensures Get(fields, key).None? ==> Put(fields, key, value) == fields + [Field(key, value)]
    ensures Get(fields, key).Some? ==>
              |Put(fields, key, value)| == |fields| && forall i :: 0 <= i < |fields| ==> Put(fields, key, value)[i].key == fields[i].key
  {
    if fields == [] || fields[0].key == key {
    } else {
      PutPlace(fields[1..], key, value);
      assert fields == [fields[0]] + fields[1..];
    }
  }
}
