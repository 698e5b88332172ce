/** Reading and writing through a JSON pointer, and the visitor that emits
    pointers: a lens over an arbitrary JSON tree. */
module JsonPointer {
  import opened Basics
  import opened JsonTree
  import opened PointerText

  /** One step down: an own property, or an array index spelled canonically. */
  function Child(j: Json, token: string): (r: Option<Json>)
    ensures r.Some? ==> r.value < j
  {
    match j
    case Arr(items) =>
      var index := ArrayIndex(token, |items|);
      if index.Some? then Some(items[index.value]) else None
    case Obj(fields) =>
      ChildIsSmaller(fields, token);
      Get(fields, token)
    case _ => None
  }

  lemma {:induction false} ChildIsSmaller(fields: seq<Field>, token: string)
    ensures Get(fields, token).Some? ==> Get(fields, token).value < Obj(fields)
  {
    if Get(fields, token).Some? {
      var i := GetIndex(fields, token);
      assert fields[i] < Obj(fields);
    }
  }

  function Walk(j: Json, path: seq<string>): Option<Json> {
    if path == [] then Some(j)
    else
      var child := Child(j, path[0]);
      if child.None? then None else Walk(child.value, path[1..])
  }

  function Exists(root: Json, pointer: string): bool {
    pointer != "" && pointer[0] == '/' && Walk(root, Tokens(pointer)).Some?
  }

  lemma {:induction false} WalkAppend(j: Json, p: seq<string>, q: seq<string>)
    ensures Walk(j, p + q) == var mid := Walk(j, p); if mid.Some? then Walk(mid.value, q) else None
  {
    if p == [] {
      assert p + q == q;
    } else {
      assert (p + q)[1..] == p[1..] + q;
      var child := Child(j, p[0]);
      if child.Some? {
        WalkAppend(child.value, p[1..], q);
      }
    }
  }

  /** The walk from one token on. */
  lemma WalkFrom(j: Json, tokens: seq<string>, i: nat)
    requires i < |tokens|
    ensures Walk(j, tokens[i..]) ==
            var child := Child(j, tokens[i]); if child.None? then None else Walk(child.value, tokens[i + 1..])
  {
    assert tokens[i..][0] == tokens[i] && tokens[i..][1..] == tokens[i + 1..];
  }

  method PointerExists(root: Json, pointer: string) returns (ok: bool)
    ensures ok == Exists(root, pointer)
    ensures ok <==> pointer != "" && pointer[0] == '/' && Walk(root, Tokens(pointer)).Some?
  {
    if pointer == "" || pointer[0] != '/' {
      return false;
    }
    var tokens := Tokens(pointer);
    var current := root;
    for i := 0 to |tokens|
      invariant Walk(root, tokens) == Walk(current, tokens[i..])
    {
      var next := Child(current, tokens[i]);
      WalkFrom(current, tokens, i);
      if next.None? {
        return false;
      }
      current := next.value;
    }
    return true;
  }

  method ReadPointer(root: Json, pointer: string) returns (value: Json)
    requires Exists(root, pointer)
    ensures Walk(root, Tokens(pointer)) == Some(value)
  {
    var tokens := Tokens(pointer);
    value := root;
    for i := 0 to |tokens|
      invariant Walk(root, tokens) == Walk(value, tokens[i..])
    {
      WalkFrom(value, tokens, i);
      value := Child(value, tokens[i]).value;
    }
  }

  /** The tree after an assignment at the end of the path. None: a step before
      the last one is missing, or the last one cannot be assigned in its parent. */
  function SetAt(j: Json, path: seq<string>, v: Json): Option<Json>
    requires path != []
    decreases |path|
  {
    if |path| == 1 then
      match j
      case Obj(fields) => Some(Obj(Put(fields, path[0], v)))
      case Arr(items) =>
        var index := ArrayIndex(path[0], |items|);
        if index.Some? then Some(Arr(items[index.value := v])) else None
      case _ => None
    else
      var child := Child(j, path[0]);
      if child.None? then None
      else
        var inner := SetAt(child.value, path[1..], v);
        if inner.None? then None else ReplaceChild(j, path[0], inner.value)
  }

  function ReplaceChild(j: Json, token: string, v: Json): Option<Json> {
    match j
    case Obj(fields) => Some(Obj(Put(fields, token, v)))
    case Arr(items) =>
      var index := ArrayIndex(token, |items|);
      if index.Some? then Some(Arr(items[index.value := v])) else None
    case _ => None
  }

  function SetPointer(root: Json, pointer: string, v: Json): Option<Json> {
    SetAt(root, Tokens(pointer), v)
  }

  lemma ReplaceChildChild(j: Json, token: string, v: Json, other: string)
    requires Child(j, token).Some?
    ensures ReplaceChild(j, token, v).Some?
    ensures Child(ReplaceChild(j, token, v).value, other)
         == if other == token then Some(v) else Child(j, other)
  {
    if j.Obj? {
      GetPut(j.fields, token, v, other);
    }
  }

  /** Writing at a place that exists, or whose parent is an object, succeeds. */
  lemma {:induction false} SetAtSucceeds(j: Json, path: seq<string>, v: Json)
    requires path != []
    requires Walk(j, path).Some? ||
             (Walk(j, path[..|path| - 1]).Some? && Walk(j, path[..|path| - 1]).value.Obj?)
    ensures SetAt(j, path, v).Some?
    decreases |path|
  {
    if |path| <= 1 {
    } else {
      var parent := path[..|path| - 1];
      assert parent[1..] == path[1..][..|path[1..]| - 1];
      var child := Child(j, path[0]).value;
      SetAtSucceeds(child, path[1..], v);
    }
  }

  /** The whole effect of a successful write, for every other path: inside the
      written place it reads the new value, above it the written subtree, and
      anywhere else what was there. */
  lemma {:induction false} SetAtReads(j: Json, path: seq<string>, v: Json, q: seq<string>)
    requires path != [] && SetAt(j, path, v).Some?
    ensures Walk(SetAt(j, path, v).value, q) ==
            if path <= q then Walk(v, q[|path|..])
            else if q <= path then
              var here := Walk(j, q);
              if here.Some? then SetAt(here.value, path[|q|..], v) else None
            else Walk(j, q)
    decreases |path|
  {
    var after := SetAt(j, path, v).value;
    if q == [] {
      assert path[0..] == path;
    } else if |path| == 1 {
      if j.Obj? {
        GetPut(j.fields, path[0], v, q[0]);
      }
      if q[0] == path[0] {
        assert path <= q;
      }
    } else {
      var child := Child(j, path[0]).value;
      var inner := SetAt(child, path[1..], v).value;
      ReplaceChildChild(j, path[0], inner, q[0]);
      if q[0] == path[0] {
        SetAtReads(child, path[1..], v, q[1..]);
        assert path <= q <==> path[1..] <= q[1..];
        assert q <= path <==> q[1..] <= path[1..];
        if path <= q {
          assert q[1..][|path[1..]|..] == q[|path|..];
        } else if q <= path {
          assert path[1..][|q[1..]|..] == path[|q|..];
        }
      }
    }
  }

  /** Put then get. */
  lemma PutThenGet(root: Json, pointer: string, v: Json)
    requires Exists(root, pointer)
    ensures SetPointer(root, pointer, v).Some?
    ensures Exists(SetPointer(root, pointer, v).value, pointer)
    ensures Walk(SetPointer(root, pointer, v).value, Tokens(pointer)) == Some(v)
  {
    var path := Tokens(pointer);
    SetAtSucceeds(root, path, v);
    SetAtReads(root, path, v, path);
    assert path[|path|..] == [];
  }

  /** Get then put: writing back the value that is there changes nothing. */
  lemma {:induction false} GetThenPut(j: Json, path: seq<string>)
    requires path != [] && Walk(j, path).Some?
    ensures SetAt(j, path, Walk(j, path).value) == Some(j)
    decreases |path|
  {
    var child := Child(j, path[0]).value;
    if |path| > 1 {
      GetThenPut(child, path[1..]);
    }
    if j.Obj? {
      PutGet(j.fields, path[0]);
    } else {
      var i := ArrayIndex(path[0], |j.items|).value;
      assert j.items[i := j.items[i]] == j.items;
    }
  }

  /** Put twice: the second write wins, the first leaves no trace. */
  lemma {:induction false} PutThenPut(j: Json, path: seq<string>, a: Json, b: Json)
    requires path != [] && SetAt(j, path, a).Some?
    ensures SetAt(SetAt(j, path, a).value, path, b) == SetAt(j, path, b)
    decreases |path|
  {
    if |path| == 1 {
      if j.Obj? {
        PutPut(j.fields, path[0], a, b);
      } else {
        var i := ArrayIndex(path[0], |j.items|).value;
        assert j.items[i := a][i := b] == j.items[i := b];
      }
    } else {
      var child := Child(j, path[0]).value;
      PutThenPut(child, path[1..], a, b);
      var first := SetAt(child, path[1..], a).value;
      ReplaceChildChild(j, path[0], first, path[0]);
      var second := SetAt(first, path[1..], b);
      if second.Some? {
        if j.Obj? {
          PutPut(j.fields, path[0], first, second.value);
        } else {
          var i := ArrayIndex(path[0], |j.items|).value;
          assert j.items[i := first][i := second.value] == j.items[i := second.value];
        }
      }
    }
  }

  /** A pointer that is neither above nor below the written one keeps both its
      existence and its value. */
  lemma SetPointerFrame(root: Json, pointer: string, v: Json, other: string)
    requires SetPointer(root, pointer, v).Some?
    requires !(Tokens(pointer) <= Tokens(other)) && !(Tokens(other) <= Tokens(pointer))
    ensures Exists(SetPointer(root, pointer, v).value, other) == Exists(root, other)
    ensures Walk(SetPointer(root, pointer, v).value, Tokens(other)) == Walk(root, Tokens(other))
  {
    SetAtReads(root, Tokens(pointer), v, Tokens(other));
  }

  lemma {:induction false} SetAtWellFormed(j: Json, path: seq<string>, v: Json)
    requires path != [] && SetAt(j, path, v).Some? && WellFormed(j) && WellFormed(v)
    ensures WellFormed(SetAt(j, path, v).value)
    decreases |path|
  {
    var written := v;
    if |path| > 1 {
      var child := Child(j, path[0]).value;
      ChildWellFormed(j, path[0]);
      SetAtWellFormed(child, path[1..], v);
      written := SetAt(child, path[1..], v).value;
    }
    if j.Obj? {
      PutShape(j.fields, path[0], written);
      var fields := Put(j.fields, path[0], written);
      forall i | 0 <= i < |fields|
        ensures WellFormed(fields[i].value)
      {
        assert fields[i] in fields;
      }
    }
  }

  lemma ChildWellFormed(j: Json, token: string)
    requires WellFormed(j) && Child(j, token).Some?
    ensures WellFormed(Child(j, token).value)
  {
    if j.Obj? {
      var i := GetIndex(j.fields, token);
    }
  }

  /** A write succeeds exactly on a place that exists, or on a new property of an object that does. */
  lemma {:induction false} SetAtSucceedsIff(j: Json, path: seq<string>, v: Json)
    requires path != []
    ensures var parent := Walk(j, path[..|path| - 1]);
            SetAt(j, path, v).Some? <==> Walk(j, path).Some? || (parent.Some? && parent.value.Obj?)
    decreases |path|
  {
    if |path| == 1 {
      assert path[..0] == [] && path[1..] == [];
    } else {
      var child := Child(j, path[0]);
      assert path[..|path| - 1][1..] == path[1..][..|path[1..]| - 1];
      if child.Some? {
        SetAtSucceedsIff(child.value, path[1..], v);
      }
    }
  }
}
