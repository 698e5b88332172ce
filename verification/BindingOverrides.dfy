/** Declaring new inputs over places of the patch and settings. */
module BindingOverrides {
  import opened Basics
  import opened JsonTree
  import opened PointerText
  import opened JsonPointer
  import opened LocalPaths

  datatype Input = Input(id: string, declaration: string)
  datatype Target = DefaultModel | Value(pointer: string)
  datatype Binding = Binding(input: string, target: Target)
  datatype Override = Override(pointer: string, input: Input)

  /** What the overrides are applied to, and what they return. */
  datatype Draft = Draft(patch: Json, settings: Json, inputs: seq<Input>, bindings: seq<Binding>)

  /** The loop's own state: `root` is a local object through which the two sections are
      written. It holds them at first, but a section can be cut out of it. */
  datatype Work = Work(root: Json, draft: Draft)

  datatype Error = PathMissing(pointer: string) | AlreadyDeclared(id: string)

  predicate DeclaresInput(inputs: seq<Input>, id: string) {
    exists i :: 0 <= i < |inputs| && inputs[i].id == id
  }

  /** `bindings.find(item => item.input === id)`. */
  function FindBinding(bindings: seq<Binding>, id: string): (r: Option<Binding>)
    ensures r.None? <==> forall b :: b in bindings ==> b.input != id
    ensures r.Some? ==> r.value in bindings && r.value.input == id
  {
    if bindings == [] then None
    else if bindings[0].input == id then Some(bindings[0])
    else FindBinding(bindings[1..], id)
  }

  /** What a section becomes when null is written through the root at a place that
      exists: a place strictly below the section is inside it, any other is not. */
  function WriteSection(section: Json, base: seq<string>, path: seq<string>): Json {
    if base < path && SetAt(section, path[|base|..], Null).Some? then SetAt(section, path[|base|..], Null).value
    else section
  }

  function WriteThrough(w: Work, o: Override): Work
    requires Exists(w.root, o.pointer)
  {
    PutThenGet(w.root, o.pointer, Null);
    var path := Tokens(o.pointer);
    Work(SetPointer(w.root, o.pointer, Null).value,
         Draft(WriteSection(w.draft.patch, BasePath(Patch), path), WriteSection(w.draft.settings, BasePath(Settings), path),
               w.draft.inputs + [o.input], w.draft.bindings + [Binding(o.input.id, Value(o.pointer))]))
  }

  function ApplyOverride(w: Work, o: Override): Result<Work, Error> {
    if !Exists(w.root, o.pointer) then Err(PathMissing(o.pointer))
    else
      var existing := FindBinding(w.draft.bindings, o.input.id);
      if existing.Some? then
        if existing.value.target == Value(o.pointer) then Ok(w) else Err(AlreadyDeclared(o.input.id))
      else if DeclaresInput(w.draft.inputs, o.input.id) then Err(AlreadyDeclared(o.input.id))
      else Ok(WriteThrough(w, o))
  }

  function RunOverrides(w: Work, overrides: seq<Override>): Result<Work, Error>
    decreases |overrides|
  {
    if overrides == [] then Ok(w)
    else
      var first := ApplyOverride(w, overrides[0]);
      if first.Err? then first else RunOverrides(first.value, overrides[1..])
  }

  function Opened(draft: Draft): Work { Work(Root(draft.patch, draft.settings), draft) }

  /** The local root is thrown away. */
  function ApplyOverrides(draft: Draft, overrides: seq<Override>): Result<Draft, Error> {
    var r := RunOverrides(Opened(draft), overrides);
    if r.Ok? then Ok(r.value.draft) else Err(r.error)
  }

  /** The loop over the overrides; the first failing one ends it. */
  method ApplyBindingOverrides(draft: Draft, overrides: seq<Override>) returns (r: Result<Draft, Error>)
    ensures r == ApplyOverrides(draft, overrides)
  {
    var w := Opened(draft);
    for k := 0 to |overrides|
      invariant RunOverrides(Opened(draft), overrides) == RunOverrides(w, overrides[k..])
    {
      var o := overrides[k];
      assert overrides[k..][1..] == overrides[k + 1..];
      var there := PointerExists(w.root, o.pointer);
      if !there {
        return Err(PathMissing(o.pointer));
      }
      var existing := FindBinding(w.draft.bindings, o.input.id);
      if existing.Some? {
        if existing.value.target == Value(o.pointer) {
          continue;
        }
        return Err(AlreadyDeclared(o.input.id));
      }
      if DeclaresInput(w.draft.inputs, o.input.id) {
        return Err(AlreadyDeclared(o.input.id));
      }
      w := WriteThrough(w, o);
    }
    return Ok(w.draft);
  }

  // ---- null written at places in turn ----

  /** Null written at each place in turn, every one existing when it is written. */
  ghost predicate Nulled(before: Json, paths: seq<seq<string>>, after: Json)
    decreases |paths|
  {
    if paths == [] then before == after
    else
      && paths[0] != [] && Walk(before, paths[0]).Some?
      && SetAt(before, paths[0], Null).Some?
      && Nulled(SetAt(before, paths[0], Null).value, paths[1..], after)
  }

  predicate Apart(p: seq<string>, q: seq<string>) { !(p <= q) && !(q <= p) }

  /** A place beside every written one is unchanged. */
  lemma {:induction false} NulledBeside(before: Json, paths: seq<seq<string>>, after: Json, path: seq<string>)
    requires Nulled(before, paths, after) && forall p :: p in paths ==> Apart(p, path)
    ensures Walk(after, path) == Walk(before, path)
    decreases |paths|
  {
    if paths == [] {
    } else {
      assert paths[0] in paths;
      SetAtReads(before, paths[0], Null, path);
      NulledBeside(SetAt(before, paths[0], Null).value, paths[1..], after, path);
    }
  }

  /** A place that is gone stays gone. */
  lemma {:induction false} NulledStaysGone(before: Json, paths: seq<seq<string>>, after: Json, path: seq<string>)
    requires Nulled(before, paths, after) && Walk(before, path).None?
    ensures Walk(after, path).None?
    decreases |paths|
  {
    if paths == [] {
    } else {
      var written := paths[0];
      SetAtReads(before, written, Null, path);
      if path <= written {
        assert path + written[|path|..] == written;
        WalkAppend(before, path, written[|path|..]);
      } else if written <= path {
        assert path[|written|..] != [];
      }
      NulledStaysGone(SetAt(before, written, Null).value, paths[1..], after, path);
    }
  }

  /** None of the paths is strictly above the place. */
  predicate NoneOver(paths: seq<seq<string>>, place: seq<string>) {
    paths == [] || (!(paths[0] < place) && NoneOver(paths[1..], place))
  }

  /** A null place stays null exactly until a place strictly above it is written. */
  lemma {:induction false} NulledStaysNull(before: Json, paths: seq<seq<string>>, after: Json, path: seq<string>)
    requires Nulled(before, paths, after) && Walk(before, path) == Some(Null)
    ensures Walk(after, path) == Some(Null) <==> NoneOver(paths, path)
    ensures Walk(after, path) == Some(Null) || Walk(after, path).None?
    decreases |paths|
  {
    if paths == [] {
    } else {
      var written := paths[0];
      var mid := SetAt(before, written, Null).value;
      SetAtReads(before, written, Null, path);
      if written < path {
        assert path[|written|..] != [];
        assert Walk(mid, path).None?;
        NulledStaysGone(mid, paths[1..], after, path);
      } else {
        if written == path {
          assert path[|written|..] == [];
        } else if path <= written {
          assert path + written[|path|..] == written;
          WalkAppend(before, path, written[|path|..]);
        }
        NulledStaysNull(mid, paths[1..], after, path);
      }
    }
  }

  // ---- a section and its place in the root ----

  /** The root holds the section, or nothing is left of it there. */
  ghost predicate Linked(root: Json, base: seq<string>, section: Json) {
    Walk(root, base) == Some(section) || CutOut(root, base)
  }

  ghost predicate CutOut(root: Json, base: seq<string>) {
    Walk(root, base).None? || Walk(root, base) == Some(Null)
  }

  /** In a root the section is cut out of, nothing lies strictly below its place. */
  lemma NothingBelow(root: Json, base: seq<string>, path: seq<string>)
    requires CutOut(root, base) && base < path
    ensures Walk(root, path).None?
  {
    WalkAppend(root, base, path[|base|..]);
    assert base + path[|base|..] == path;
  }

  /** A write strictly below the section is the same write in the section. */
  lemma InsideWrite(root: Json, base: seq<string>, section: Json, path: seq<string>)
    requires Walk(root, base) == Some(section) && base < path && Walk(root, path).Some?
    ensures Walk(section, path[|base|..]) == Walk(root, path)
    ensures SetAt(section, path[|base|..], Null).Some? && SetAt(root, path, Null).Some?
    ensures Walk(SetAt(root, path, Null).value, base) == Some(WriteSection(section, base, path))
  {
    var rest := path[|base|..];
    assert base + rest == path;
    WalkAppend(root, base, rest);
    SetAtSucceeds(section, rest, Null);
    SetAtSucceeds(root, path, Null);
    SetAtReads(root, path, Null, base);
  }

  lemma LinkKept(root: Json, base: seq<string>, section: Json, path: seq<string>)
    requires Linked(root, base, section) && path != [] && Walk(root, path).Some? && SetAt(root, path, Null).Some?
    ensures Linked(SetAt(root, path, Null).value, base, WriteSection(section, base, path))
    ensures path <= base || CutOut(root, base) ==> CutOut(SetAt(root, path, Null).value, base)
  {
    SetAtReads(root, path, Null, base);
    if base < path {
      if CutOut(root, base) {
        NothingBelow(root, base, path);
      } else {
        InsideWrite(root, base, section, path);
      }
    }
  }

  /** The written places strictly inside the section, as paths from its top. */
  function Inside(base: seq<string>, paths: seq<seq<string>>): seq<seq<string>> {
    if paths == [] then []
    else (if base < paths[0] then [paths[0][|base|..]] else []) + Inside(base, paths[1..])
  }

  /** The section after the writes. */
  function AfterWrites(section: Json, base: seq<string>, paths: seq<seq<string>>): Json
    decreases |paths|
  {
    if paths == [] then section else AfterWrites(WriteSection(section, base, paths[0]), base, paths[1..])
  }

  /** Written through the root, the section has null written at exactly the places inside it. */
  lemma {:induction false} SectionNulled(root: Json, base: seq<string>, section: Json, paths: seq<seq<string>>, after: Json)
    requires Linked(root, base, section) && Nulled(root, paths, after)
    ensures Nulled(section, Inside(base, paths), AfterWrites(section, base, paths))
    decreases |paths|
  {
    if paths == [] {
    } else {
      var path := paths[0];
      LinkKept(root, base, section, path);
      SectionNulled(SetAt(root, path, Null).value, base, WriteSection(section, base, path), paths[1..], after);
      if base < path {
        if CutOut(root, base) {
          NothingBelow(root, base, path);
        } else {
          InsideWrite(root, base, section, path);
          var rest := Inside(base, paths[1..]);
          assert ([path[|base|..]] + rest)[1..] == rest;
        }
      } else {
        assert Inside(base, paths) == Inside(base, paths[1..]);
      }
    }
  }

  /** Once cut out, a section keeps the value it then has. */
  lemma {:induction false} CutOutKeeps(root: Json, base: seq<string>, section: Json, paths: seq<seq<string>>, after: Json)
    requires CutOut(root, base) && Nulled(root, paths, after)
    ensures AfterWrites(section, base, paths) == section
    decreases |paths|
  {
    if paths == [] {
    } else {
      if base < paths[0] {
        NothingBelow(root, base, paths[0]);
      }
      LinkKept(root, base, section, paths[0]);
      CutOutKeeps(SetAt(root, paths[0], Null).value, base, section, paths[1..], after);
    }
  }

  lemma {:induction false} InsideMembers(base: seq<string>, paths: seq<seq<string>>)
    ensures forall r :: r in Inside(base, paths) <==> exists i :: 0 <= i < |paths| && base < paths[i] && r == paths[i][|base|..]
  {
    if paths == [] {
    } else {
      var rest := paths[1..];
      InsideMembers(base, rest);
      assert forall i :: 0 <= i < |rest| ==> rest[i] == paths[i + 1];
      assert forall i :: 0 < i < |paths| ==> paths[i] == rest[i - 1];
    }
  }

  /** None of the paths is both inside the section and strictly above the place. */
  predicate NoneOverInside(base: seq<string>, paths: seq<seq<string>>, place: seq<string>) {
    paths == [] || (!(base < paths[0] < place) && NoneOverInside(base, paths[1..], place))
  }

  lemma {:induction false} NoneOverInsideMeans(base: seq<string>, paths: seq<seq<string>>, place: seq<string>)
    ensures NoneOverInside(base, paths, place) <==> forall j :: 0 <= j < |paths| && base < paths[j] ==> !(paths[j] < place)
  {
    if paths == [] {
    } else {
      var rest := paths[1..];
      NoneOverInsideMeans(base, rest, place);
      assert forall j :: 0 <= j < |rest| ==> rest[j] == paths[j + 1];
      assert forall j :: 0 < j < |paths| ==> paths[j] == rest[j - 1];
    }
  }

  /** Above a place inside the section, the places inside it and their paths from the root agree. */
  lemma {:induction false} AboveInside(base: seq<string>, paths: seq<seq<string>>, path: seq<string>)
    requires base < path
    ensures NoneOver(Inside(base, paths), path[|base|..]) <==> NoneOverInside(base, paths, path)
  {
    if paths == [] {
    } else {
      AboveInside(base, paths[1..], path);
      var rest, first := Inside(base, paths[1..]), paths[0];
      if base < first {
        assert ([first[|base|..]] + rest)[1..] == rest;
        PrefixFromBase(base, first, path);
      } else {
        assert Inside(base, paths) == rest;
      }
    }
  }

  lemma PrefixFromBase(base: seq<string>, p: seq<string>, q: seq<string>)
    requires base <= p && base <= q
    ensures p < q <==> p[|base|..] < q[|base|..]
    ensures p <= q <==> p[|base|..] <= q[|base|..]
  {
    assert p == base + p[|base|..] && q == base + q[|base|..];
  }

  /** A written place inside the section ends as null exactly when no place inside the
      section and strictly above it is written later; otherwise it is gone. */
  lemma {:induction false} InsideEndsNull(root: Json, base: seq<string>, section: Json, paths: seq<seq<string>>, after: Json, i: nat)
    requires Linked(root, base, section) && Nulled(root, paths, after) && i < |paths| && base < paths[i]
    ensures var end := Walk(AfterWrites(section, base, paths), paths[i][|base|..]);
            (end == Some(Null) <==> NoneOverInside(base, paths[i + 1..], paths[i])) && (end == Some(Null) || end.None?)
    decreases i
  {
    var path, rest := paths[0], paths[1..];
    var mid := SetAt(root, path, Null).value;
    LinkKept(root, base, section, path);
    if i == 0 {
      if CutOut(root, base) {
        NothingBelow(root, base, path);
      }
      FirstWriteEnds(root, base, section, path, rest, after);
    } else {
      InsideEndsNull(mid, base, WriteSection(section, base, path), rest, after, i - 1);
      assert rest[i..] == paths[i + 1..];
    }
  }

  lemma FirstWriteEnds(root: Json, base: seq<string>, section: Json, path: seq<string>, rest: seq<seq<string>>, after: Json)
    requires Walk(root, base) == Some(section) && base < path && Walk(root, path).Some? && SetAt(root, path, Null).Some?
    requires Nulled(SetAt(root, path, Null).value, rest, after)
    ensures var end := Walk(AfterWrites(WriteSection(section, base, path), base, rest), path[|base|..]);
            (end == Some(Null) <==> NoneOverInside(base, rest, path)) && (end == Some(Null) || end.None?)
  {
    var inner := WriteSection(section, base, path);
    WrittenReadsNull(root, base, section, path);
    SectionNulled(SetAt(root, path, Null).value, base, inner, rest, after);
    NulledStaysNull(inner, Inside(base, rest), AfterWrites(inner, base, rest), path[|base|..]);
    AboveInside(base, rest, path);
  }

  lemma WrittenReadsNull(root: Json, base: seq<string>, section: Json, path: seq<string>)
    requires Walk(root, base) == Some(section) && base < path && Walk(root, path).Some? && SetAt(root, path, Null).Some?
    ensures Linked(SetAt(root, path, Null).value, base, WriteSection(section, base, path))
    ensures Walk(WriteSection(section, base, path), path[|base|..]) == Some(Null)
  {
    var place := path[|base|..];
    InsideWrite(root, base, section, path);
    SetAtReads(section, place, Null, place);
    assert place[|place|..] == [];
  }

  /** A place of the section beside every written one is unchanged. */
  lemma InsideBeside(root: Json, base: seq<string>, section: Json, paths: seq<seq<string>>, after: Json, path: seq<string>)
    requires Linked(root, base, section) && Nulled(root, paths, after) && base <= path
    requires forall p :: p in paths ==> Apart(p, path)
    ensures Walk(AfterWrites(section, base, paths), path[|base|..]) == Walk(section, path[|base|..])
  {
    var place := path[|base|..];
    InsideMembers(base, paths);
    forall r | r in Inside(base, paths) ensures Apart(r, place) {
      var i :| 0 <= i < |paths| && base < paths[i] && r == paths[i][|base|..];
      assert paths[i] in paths;
      PrefixFromBase(base, paths[i], path);
      PrefixFromBase(base, path, paths[i]);
    }
    SectionNulled(root, base, section, paths, after);
    NulledBeside(section, Inside(base, paths), AfterWrites(section, base, paths), place);
  }

  /** Writing inside a section does not make it null. */
  lemma {:induction false} StaysSection(section: Json, base: seq<string>, paths: seq<seq<string>>)
    requires section != Null
    ensures AfterWrites(section, base, paths) != Null
    decreases |paths|
  {
    if paths == [] {
    } else {
      StaysSection(WriteSection(section, base, paths[0]), base, paths[1..]);
    }
  }

  // ---- what a successful run did ----

  ghost predicate UniqueIds(inputs: seq<Input>) {
    forall i, j :: 0 <= i < j < |inputs| ==> inputs[i].id != inputs[j].id
  }

  ghost predicate BindingsDeclared(draft: Draft) {
    forall b :: b in draft.bindings ==> DeclaresInput(draft.inputs, b.input)
  }

  ghost predicate SameTargets(inputs: seq<Input>, bindings: seq<Binding>, pointers: seq<string>) {
    && |inputs| == |bindings| == |pointers|
    && forall i :: 0 <= i < |pointers| ==> bindings[i] == Binding(inputs[i].id, Value(pointers[i]))
  }

  function Paths(pointers: seq<string>): seq<seq<string>> {
    seq(|pointers|, i requires 0 <= i < |pointers| => Tokens(pointers[i]))
  }

  /** A run only appends: one input and one value binding for each place it newly
      bound; ids stay unique and every binding's input stays declared. */
  ghost predicate Appended(before: Draft, after: Draft, pointers: seq<string>) {
    && before.inputs <= after.inputs && before.bindings <= after.bindings
    && SameTargets(after.inputs[|before.inputs|..], after.bindings[|before.bindings|..], pointers)
    && (UniqueIds(before.inputs) ==> UniqueIds(after.inputs))
    && (BindingsDeclared(before) ==> BindingsDeclared(after))
  }

  /** Null is written in the root at those places in turn, and each section follows. */
  ghost predicate Wrote(before: Work, after: Work, paths: seq<seq<string>>) {
    && Nulled(before.root, paths, after.root)
    && after.draft.patch == AfterWrites(before.draft.patch, BasePath(Patch), paths)
    && after.draft.settings == AfterWrites(before.draft.settings, BasePath(Settings), paths)
  }

  ghost predicate FromOverrides(pointers: seq<string>, overrides: seq<Override>) {
    forall p :: p in pointers ==> exists o :: o in overrides && o.pointer == p
  }

  lemma FromCons(rest: seq<string>, overrides: seq<Override>)
    requires overrides != [] && FromOverrides(rest, overrides[1..])
    ensures FromOverrides(rest, overrides) && FromOverrides([overrides[0].pointer] + rest, overrides)
  {
    assert forall o :: o in overrides[1..] ==> o in overrides;
    assert overrides[0] in overrides;
  }

  lemma {:induction false} RunAppends(w: Work, overrides: seq<Override>) returns (pointers: seq<string>)
    requires RunOverrides(w, overrides).Ok?
    ensures Appended(w.draft, RunOverrides(w, overrides).value.draft, pointers)
    ensures Wrote(w, RunOverrides(w, overrides).value, Paths(pointers))
    ensures FromOverrides(pointers, overrides)
    decreases |overrides|
  {
    if overrides == [] {
      pointers := [];
    } else {
      var o, mid := overrides[0], ApplyOverride(w, overrides[0]).value;
      var after := RunOverrides(w, overrides).value;
      var rest := RunAppends(mid, overrides[1..]);
      FromCons(rest, overrides);
      if FindBinding(w.draft.bindings, o.input.id).Some? {
        pointers := rest;  // the override repeats a binding that is there
      } else {
        pointers := [o.pointer] + rest;
        RunCons(w, o, after, rest);
      }
    }
  }

  lemma RunCons(w: Work, o: Override, after: Work, rest: seq<string>)
    requires Exists(w.root, o.pointer) && !DeclaresInput(w.draft.inputs, o.input.id)
    requires Appended(WriteThrough(w, o).draft, after.draft, rest) && Wrote(WriteThrough(w, o), after, Paths(rest))
    ensures Appended(w.draft, after.draft, [o.pointer] + rest) && Wrote(w, after, Paths([o.pointer] + rest))
  {
    OneMoreBinding(w, o);
    AppendedCons(w, o, after, rest);
    WroteCons(w, o, after, rest);
  }

  lemma OneMoreBinding(w: Work, o: Override)
    requires Exists(w.root, o.pointer) && !DeclaresInput(w.draft.inputs, o.input.id)
    ensures var before, after := w.draft, WriteThrough(w, o).draft;
            && (UniqueIds(before.inputs) ==> UniqueIds(after.inputs))
            && (BindingsDeclared(before) ==> BindingsDeclared(after))
  {
    var before, after := w.draft, WriteThrough(w, o).draft;
    if BindingsDeclared(before) {
      forall b | b in after.bindings
        ensures DeclaresInput(after.inputs, b.input)
      {
        if b in before.bindings {
          var i :| 0 <= i < |before.inputs| && before.inputs[i].id == b.input;
          assert after.inputs[i].id == b.input;
        } else {
          assert after.inputs[|before.inputs|].id == b.input;
        }
      }
    }
  }

  lemma SuffixCons<T>(a: seq<T>, x: T, c: seq<T>)
    requires a + [x] <= c
    ensures c[|a|..] == [x] + c[|a| + 1..]
  {
  }

  lemma SameTargetsCons(inputs: seq<Input>, bindings: seq<Binding>, pointers: seq<string>, input: Input, pointer: string)
    requires SameTargets(inputs, bindings, pointers)
    ensures SameTargets([input] + inputs, [Binding(input.id, Value(pointer))] + bindings, [pointer] + pointers)
  {
  }

  lemma AppendedCons(w: Work, o: Override, after: Work, rest: seq<string>)
    requires Exists(w.root, o.pointer) && Appended(WriteThrough(w, o).draft, after.draft, rest)
    requires UniqueIds(w.draft.inputs) ==> UniqueIds(WriteThrough(w, o).draft.inputs)
    requires BindingsDeclared(w.draft) ==> BindingsDeclared(WriteThrough(w, o).draft)
    ensures Appended(w.draft, after.draft, [o.pointer] + rest)
  {
    var draft, mid := w.draft, WriteThrough(w, o).draft;
    var inputs, bindings := after.draft.inputs, after.draft.bindings;
    SuffixCons(draft.inputs, o.input, inputs);
    SuffixCons(draft.bindings, Binding(o.input.id, Value(o.pointer)), bindings);
    SameTargetsCons(inputs[|mid.inputs|..], bindings[|mid.bindings|..], rest, o.input, o.pointer);
  }

  lemma WroteCons(w: Work, o: Override, after: Work, rest: seq<string>)
    requires Exists(w.root, o.pointer) && Wrote(WriteThrough(w, o), after, Paths(rest))
    ensures Wrote(w, after, Paths([o.pointer] + rest))
  {
    PutThenGet(w.root, o.pointer, Null);
    var paths := Paths([o.pointer] + rest);
    assert paths[0] == Tokens(o.pointer) && paths[1..] == Paths(rest);
  }

  // ---- what is returned ----

  /** A place of the patch or of the settings, not a section itself. */
  ghost predicate InSection(path: seq<string>) { exists section :: BasePath(section) < path }

  /** The places newly bound, as paths. */
  ghost function BoundPaths(before: Draft, after: Draft): seq<seq<string>>
    requires before.bindings <= after.bindings
    requires forall i :: |before.bindings| <= i < |after.bindings| ==> after.bindings[i].target.Value?
  {
    seq(|after.bindings| - |before.bindings|, i requires 0 <= i < |after.bindings| - |before.bindings| =>
      Tokens(after.bindings[|before.bindings| + i].target.pointer))
  }

  lemma NewlyBound(draft: Draft, after: Draft, pointers: seq<string>)
    requires Appended(draft, after, pointers)
    ensures forall i :: |draft.bindings| <= i < |after.bindings| ==> after.bindings[i].target.Value?
    ensures BoundPaths(draft, after) == Paths(pointers) && |pointers| == |after.bindings| - |draft.bindings|
  {
    var added := after.bindings[|draft.bindings|..];
    assert forall i :: |draft.bindings| <= i < |after.bindings| ==> after.bindings[i] == added[i - |draft.bindings|];
  }

  /** Success only appends: bindings of values, with unique ids and declared inputs;
      every newly bound place is that of an override. */
  lemma OverridesAppend(draft: Draft, overrides: seq<Override>) returns (pointers: seq<string>)
    requires ApplyOverrides(draft, overrides).Ok?
    ensures Appended(draft, ApplyOverrides(draft, overrides).value, pointers)
    ensures FromOverrides(pointers, overrides)
    ensures forall i :: |draft.bindings| <= i < |ApplyOverrides(draft, overrides).value.bindings| ==>
              ApplyOverrides(draft, overrides).value.bindings[i].target.Value?
    ensures BoundPaths(draft, ApplyOverrides(draft, overrides).value) == Paths(pointers)
    ensures Wrote(Opened(draft), RunOverrides(Opened(draft), overrides).value, Paths(pointers))
  {
    pointers := RunAppends(Opened(draft), overrides);
    NewlyBound(draft, ApplyOverrides(draft, overrides).value, pointers);
  }

  /** The returned sections, looked at from where their pointers start. */
  function Returned(draft: Draft): Json { Root(draft.patch, draft.settings) }

  lemma SectionRead(patch: Json, settings: Json, section: Section, path: seq<string>)
    requires BasePath(section) <= path
    ensures Walk(Root(patch, settings), path) == Walk(Part(patch, settings, section), path[|BasePath(section)|..])
  {
    var base := BasePath(section);
    BasePathWalk(patch, settings, section);
    WalkAppend(Root(patch, settings), base, path[|base|..]);
    assert base + path[|base|..] == path;
  }

  /** Outside the sections nothing of the returned parts is null. */
  lemma NoNullOutside(patch: Json, settings: Json, path: seq<string>)
    requires patch != Null && settings != Null && !InSection(path)
    ensures Walk(Root(patch, settings), path) != Some(Null)
  {
    if section :| BasePath(section) <= path {
      SectionRead(patch, settings, section, path);
      assert !(BasePath(section) < path);
      assert path[|BasePath(section)|..] == [];
    } else {
      assert !(BasePath(Patch) <= path) && !(BasePath(Settings) <= path);
      FewPlaces("profile", Name(Patch), Name(Settings), patch, settings, path);
    }
  }

  lemma NeitherKey(b: string, c: string, x: Json, y: Json, key: string)
    requires key != b && key != c
    ensures Get([Field(b, x), Field(c, y)], key).None?
  {
    var tail := [Field(c, y)];
    assert tail[1..] == [] && Get(tail, key) == Get([], key);
    assert [Field(b, x), Field(c, y)][1..] == tail;
  }

  lemma FewPlaces(a: string, b: string, c: string, x: Json, y: Json, path: seq<string>)
    requires !([a, b] <= path) && !([a, c] <= path)
    ensures Walk(Obj([Field(a, Obj([Field(b, x), Field(c, y)]))]), path) != Some(Null)
  {
    var fields := [Field(b, x), Field(c, y)];
    var top := [Field(a, Obj(fields))];
    assert top[1..] == [];
    if path != [] && path[0] != a {
      assert Get(top, path[0]) == Get([], path[0]);
    } else if |path| >= 2 {
      assert path[..2] == [a, path[1]] && path[..2] <= path;
      NeitherKey(b, c, x, y, path[1]);
      assert path[1..][0] == path[1];
      assert Walk(Obj(fields), path[1..]).None?;
    }
  }

  /** Place k ends as null in what is returned exactly when it lies strictly inside
      the patch or the settings and no later place strictly above it is also inside;
      inside, it is gone otherwise. */
  ghost predicate EndsAsBound(after: Draft, paths: seq<seq<string>>, k: nat)
    requires k < |paths|
  {
    var end := Walk(Returned(after), paths[k]);
    && (end == Some(Null) <==>
          InSection(paths[k]) && forall j :: k < j < |paths| && InSection(paths[j]) ==> !(paths[j] < paths[k]))
    && (InSection(paths[k]) ==> end == Some(Null) || end.None?)
  }

  /** How every newly bound place ends in what is returned. */
  lemma BoundPlaceEndsNull(draft: Draft, overrides: seq<Override>, i: nat)
    requires ApplyOverrides(draft, overrides).Ok? && draft.patch != Null && draft.settings != Null
    requires |draft.bindings| <= i < |ApplyOverrides(draft, overrides).value.bindings|
    ensures var after := ApplyOverrides(draft, overrides).value;
            && draft.bindings <= after.bindings
            && (forall k :: |draft.bindings| <= k < |after.bindings| ==> after.bindings[k].target.Value?)
            && EndsAsBound(after, BoundPaths(draft, after), i - |draft.bindings|)
  {
    var pointers := RunAppends(Opened(draft), overrides);
    var after := RunOverrides(Opened(draft), overrides).value;
    NewlyBound(draft, after.draft, pointers);
    BoundPathEnds(draft, after, Paths(pointers), i - |draft.bindings|);
  }

  lemma BoundPathEnds(draft: Draft, after: Work, paths: seq<seq<string>>, k: nat)
    requires draft.patch != Null && draft.settings != Null && Wrote(Opened(draft), after, paths) && k < |paths|
    ensures EndsAsBound(after.draft, paths, k)
  {
    if section :| BasePath(section) < paths[k] {
      SectionEndsNull(draft, section, paths, after.root, k);
      SectionRead(after.draft.patch, after.draft.settings, section, paths[k]);
      SameSection(section, paths, k);
    } else {
      StaysSection(draft.patch, BasePath(Patch), paths);
      StaysSection(draft.settings, BasePath(Settings), paths);
      NoNullOutside(after.draft.patch, after.draft.settings, paths[k]);
    }
  }

  lemma SectionEndsNull(draft: Draft, section: Section, paths: seq<seq<string>>, root: Json, k: nat)
    requires Nulled(Root(draft.patch, draft.settings), paths, root) && k < |paths| && BasePath(section) < paths[k]
    ensures var base := BasePath(section);
            var end := Walk(AfterWrites(Part(draft.patch, draft.settings, section), base, paths), paths[k][|base|..]);
            (end == Some(Null) <==> NoneOverInside(base, paths[k + 1..], paths[k])) && (end == Some(Null) || end.None?)
  {
    BasePathWalk(draft.patch, draft.settings, section);
    InsideEndsNull(Root(draft.patch, draft.settings), BasePath(section), Part(draft.patch, draft.settings, section), paths, root, k);
  }

  /** Inside the same section is what counts as above inside a section. */
  lemma SameSection(section: Section, paths: seq<seq<string>>, k: nat)
    requires k < |paths| && BasePath(section) < paths[k]
    ensures NoneOverInside(BasePath(section), paths[k + 1..], paths[k]) <==>
            forall j :: k < j < |paths| && InSection(paths[j]) ==> !(paths[j] < paths[k])
  {
    var base, later := BasePath(section), paths[k + 1..];
    NoneOverInsideMeans(base, later, paths[k]);
    forall j | k < j < |paths| && paths[j] < paths[k] ensures InSection(paths[j]) <==> base < paths[j] {
      OneSection(section, paths[j], paths[k]);
    }
    assert forall j :: k < j < |paths| ==> paths[j] == later[j - k - 1];
    assert forall i :: 0 <= i < |later| ==> later[i] == paths[i + k + 1];
  }

  lemma OneSection(section: Section, above: seq<string>, path: seq<string>)
    requires BasePath(section) < path && above < path
    ensures InSection(above) <==> BasePath(section) < above
  {
    if other :| BasePath(other) < above {
      assert above[1] == path[1] == BasePath(section)[1] && BasePath(other)[1] == above[1];
      assert BasePath(other) == BasePath(section);
    }
  }

  /** A section that is bound as a whole, or with the profile, is returned as it was
      just before, whatever comes later. */
  lemma CutOutSectionKept(draft: Draft, before: seq<Override>, o: Override, rest: seq<Override>, section: Section)
    requires ApplyOverrides(draft, before + [o] + rest).Ok? && Tokens(o.pointer) <= BasePath(section)
    requires ApplyOverrides(draft, before).Ok? ==>
               FindBinding(ApplyOverrides(draft, before).value.bindings, o.input.id).None?
    ensures ApplyOverrides(draft, before).Ok?
    ensures var mid, after := ApplyOverrides(draft, before).value, ApplyOverrides(draft, before + [o] + rest).value;
            Part(after.patch, after.settings, section) == Part(mid.patch, mid.settings, section)
  {
    var base := BasePath(section);
    assert before + [o] + rest == before + ([o] + rest) && ([o] + rest)[1..] == rest;
    RunSplits(Opened(draft), before, [o] + rest);
    var w := RunOverrides(Opened(draft), before).value;
    var cut := WriteThrough(w, o);
    var earlier := RunAppends(Opened(draft), before);
    var later := RunAppends(cut, rest);
    BasePathWalk(draft.patch, draft.settings, section);
    LinkStays(Root(draft.patch, draft.settings), base, Part(draft.patch, draft.settings, section), Paths(earlier), w.root);
    PutThenGet(w.root, o.pointer, Null);
    LinkKept(w.root, base, Part(w.draft.patch, w.draft.settings, section), Tokens(o.pointer));
    CutOutKeeps(cut.root, base, Part(cut.draft.patch, cut.draft.settings, section), Paths(later),
                RunOverrides(cut, rest).value.root);
  }

  lemma {:induction false} LinkStays(root: Json, base: seq<string>, section: Json, paths: seq<seq<string>>, after: Json)
    requires Linked(root, base, section) && Nulled(root, paths, after)
    ensures Linked(after, base, AfterWrites(section, base, paths))
    decreases |paths|
  {
    if paths == [] {
    } else {
      LinkKept(root, base, section, paths[0]);
      LinkStays(SetAt(root, paths[0], Null).value, base, WriteSection(section, base, paths[0]), paths[1..], after);
    }
  }

  lemma {:induction false} RunSplits(w: Work, a: seq<Override>, b: seq<Override>)
    requires RunOverrides(w, a + b).Ok?
    ensures RunOverrides(w, a).Ok? && RunOverrides(w, a + b) == RunOverrides(RunOverrides(w, a).value, b)
    decreases |a|
  {
    if a == [] {
      assert a + b == b;
    } else {
      assert (a + b)[1..] == a[1..] + b;
      RunSplits(ApplyOverride(w, a[0]).value, a[1..], b);
    }
  }

  /** A section's own pointer names the section in the opened root. */
  lemma SectionPointer(draft: Draft, section: Section)
    ensures Tokens(BasePointer(section)) == BasePath(section)
    ensures Exists(Opened(draft).root, BasePointer(section))
  {
    BasePointerRendered(section);
    TokensOfRender(BasePath(section));
    BasePathWalk(draft.patch, draft.settings, section);
  }

  lemma NotInside(section: Json, base: seq<string>, path: seq<string>)
    requires |path| == |base|
    ensures WriteSection(section, base, path) == section
  {
    assert !(base < path);
  }

  lemma OneOverride(draft: Draft, o: Override)
    requires FindBinding(draft.bindings, o.input.id).None? && !DeclaresInput(draft.inputs, o.input.id)
    requires Exists(Opened(draft).root, o.pointer)
    ensures ApplyOverrides(draft, [o]) == Ok(WriteThrough(Opened(draft), o).draft)
  {
    var w, after := Opened(draft), WriteThrough(Opened(draft), o);
    assert ApplyOverride(w, o) == Ok(after) && RunOverrides(after, []) == Ok(after);
    assert [o][1..] == [];
  }

  /** In particular binding "/profile/settings" or "/profile/patch" succeeds and
      declares its input, but the section is returned untouched. */
  lemma WholeSectionUntouched(draft: Draft, input: Input, section: Section)
    requires FindBinding(draft.bindings, input.id).None? && !DeclaresInput(draft.inputs, input.id)
    ensures ApplyOverrides(draft, [Override(BasePointer(section), input)])
         == Ok(draft.(inputs := draft.inputs + [input],
                      bindings := draft.bindings + [Binding(input.id, Value(BasePointer(section)))]))
  {
    SectionPointer(draft, section);
    OneOverride(draft, Override(BasePointer(section), input));
    NotInside(draft.patch, BasePath(Patch), BasePath(section));
    NotInside(draft.settings, BasePath(Settings), BasePath(section));
  }

  ghost predicate NoneAbove(paths: seq<seq<string>>) {
    forall p, q :: p in paths && q in paths ==> !(p < q)
  }

  /** When no override pointer is above another, every newly bound place inside a
      section is returned as null, and every place of the patch and the settings
      beside all the pointers is returned as it was. */
  lemma PrefixFreeOverrides(draft: Draft, overrides: seq<Override>)
    requires ApplyOverrides(draft, overrides).Ok? && draft.patch != Null && draft.settings != Null
    requires forall a, b :: a in overrides && b in overrides ==> !(Tokens(a.pointer) < Tokens(b.pointer))
    ensures var after := ApplyOverrides(draft, overrides).value;
            && draft.bindings <= after.bindings
            && (forall i :: |draft.bindings| <= i < |after.bindings| ==>
                  after.bindings[i].target.Value? &&
                  (Walk(Returned(after), Tokens(after.bindings[i].target.pointer)) == Some(Null)
                   <==> InSection(Tokens(after.bindings[i].target.pointer))))
            && (forall path, section: Section ::
                  BasePath(section) <= path && (forall o :: o in overrides ==> Apart(Tokens(o.pointer), path))
                  ==> Walk(Returned(after), path) == Walk(Returned(draft), path))
  {
    var after := ApplyOverrides(draft, overrides).value;
    var pointers := OverridesAppend(draft, overrides);
    var paths := Paths(pointers);
    PathsOfOverrides(pointers, overrides);
    forall i | |draft.bindings| <= i < |after.bindings|
      ensures after.bindings[i].target.Value?
      ensures Walk(Returned(after), Tokens(after.bindings[i].target.pointer)) == Some(Null)
         <==> InSection(Tokens(after.bindings[i].target.pointer))
    {
      PrefixFreePlace(draft, overrides, paths, i);
    }
    forall path, section: Section |
      BasePath(section) <= path && (forall o :: o in overrides ==> Apart(Tokens(o.pointer), path))
      ensures Walk(Returned(after), path) == Walk(Returned(draft), path)
    {
      ReturnedBeside(draft, overrides, paths, section, path);
    }
  }

  lemma PathsOfOverrides(pointers: seq<string>, overrides: seq<Override>)
    requires FromOverrides(pointers, overrides)
    ensures forall path :: path in Paths(pointers) ==> exists o :: o in overrides && Tokens(o.pointer) == path
  {
    var paths := Paths(pointers);
    forall path | path in paths ensures exists o :: o in overrides && Tokens(o.pointer) == path {
      var i :| 0 <= i < |paths| && paths[i] == path;
      assert pointers[i] in pointers;
    }
  }

  lemma PrefixFreePlace(draft: Draft, overrides: seq<Override>, paths: seq<seq<string>>, i: nat)
    requires ApplyOverrides(draft, overrides).Ok? && draft.patch != Null && draft.settings != Null
    requires |draft.bindings| <= i < |ApplyOverrides(draft, overrides).value.bindings|
    requires draft.bindings <= ApplyOverrides(draft, overrides).value.bindings
    requires forall k :: |draft.bindings| <= k < |ApplyOverrides(draft, overrides).value.bindings| ==>
               ApplyOverrides(draft, overrides).value.bindings[k].target.Value?
    requires paths == BoundPaths(draft, ApplyOverrides(draft, overrides).value) && NoneAbove(paths)
    ensures var after := ApplyOverrides(draft, overrides).value;
            var path := Tokens(after.bindings[i].target.pointer);
            Walk(Returned(after), path) == Some(Null) <==> InSection(path)
  {
    BoundPlaceEndsNull(draft, overrides, i);
    assert forall j :: 0 <= j < |paths| ==> paths[j] in paths;
    assert paths[i - |draft.bindings|] == Tokens(ApplyOverrides(draft, overrides).value.bindings[i].target.pointer);
  }

  lemma ReturnedBeside(draft: Draft, overrides: seq<Override>, paths: seq<seq<string>>, section: Section, path: seq<string>)
    requires ApplyOverrides(draft, overrides).Ok? && BasePath(section) <= path
    requires Wrote(Opened(draft), RunOverrides(Opened(draft), overrides).value, paths)
    requires forall p :: p in paths ==> Apart(p, path)
    ensures Walk(Returned(ApplyOverrides(draft, overrides).value), path) == Walk(Returned(draft), path)
  {
    var after := ApplyOverrides(draft, overrides).value;
    BasePathWalk(draft.patch, draft.settings, section);
    InsideBeside(Root(draft.patch, draft.settings), BasePath(section), Part(draft.patch, draft.settings, section), paths,
                 RunOverrides(Opened(draft), overrides).value.root, path);
    SectionRead(draft.patch, draft.settings, section, path);
    SectionRead(after.patch, after.settings, section, path);
  }

  // ---- when an override is taken, and what it does ----

  ghost predicate FirstBinding(bindings: seq<Binding>, id: string, i: nat) {
    i < |bindings| && bindings[i].input == id && forall j :: 0 <= j < i ==> bindings[j].input != id
  }

  lemma {:induction false} FindsFirst(bindings: seq<Binding>, id: string)
    ensures FindBinding(bindings, id).Some? ==>
              exists i: nat :: FirstBinding(bindings, id, i) && bindings[i] == FindBinding(bindings, id).value
  {
    if bindings == [] {
    } else if bindings[0].input == id {
      assert FirstBinding(bindings, id, 0);
    } else {
      FindsFirst(bindings[1..], id);
      if FindBinding(bindings, id).Some? {
        var i: nat :| FirstBinding(bindings[1..], id, i) && bindings[1..][i] == FindBinding(bindings, id).value;
        assert FirstBinding(bindings, id, i + 1);
      }
    }
  }

  ghost predicate PlaceExists(root: Json, pointer: string) {
    pointer != "" && pointer[0] == '/' && Walk(root, Tokens(pointer)).Some?
  }

  ghost predicate BoundElsewhere(bindings: seq<Binding>, o: Override) {
    exists i: nat :: FirstBinding(bindings, o.input.id, i) && bindings[i].target != Value(o.pointer)
  }

  ghost predicate BoundAlready(bindings: seq<Binding>, o: Override) {
    exists i: nat :: FirstBinding(bindings, o.input.id, i) && bindings[i].target == Value(o.pointer)
  }

  ghost predicate InputTaken(draft: Draft, o: Override) {
    && (forall b :: b in draft.bindings ==> b.input != o.input.id)
    && exists x :: x in draft.inputs && x.id == o.input.id
  }

  /** It fails on a place that is not there, then on an input that is bound elsewhere or
      declared without a binding; it changes nothing if it repeats the input's first
      binding; and else it declares, binds and writes null. */
  lemma OverrideExactly(w: Work, o: Override)
    ensures var r, there := ApplyOverride(w, o), PlaceExists(w.root, o.pointer);
            && (r == Err(PathMissing(o.pointer)) <==> !there)
            && (r == Err(AlreadyDeclared(o.input.id)) <==>
                  there && (BoundElsewhere(w.draft.bindings, o) || InputTaken(w.draft, o)))
            && (r.Ok? <==> there && !BoundElsewhere(w.draft.bindings, o) && !InputTaken(w.draft, o))
            && (r.Ok? && BoundAlready(w.draft.bindings, o) ==> r.value == w)
            && (r.Ok? && !BoundAlready(w.draft.bindings, o) ==>
                  && r.value.draft.inputs == w.draft.inputs + [o.input]
                  && r.value.draft.bindings == w.draft.bindings + [Binding(o.input.id, Value(o.pointer))]
                  && Walk(r.value.root, Tokens(o.pointer)) == Some(Null))
  {
    FindsFirst(w.draft.bindings, o.input.id);
    if PlaceExists(w.root, o.pointer) {
      PutThenGet(w.root, o.pointer, Null);
    }
    InputIsDeclared(w.draft.inputs, o.input.id);
  }

  lemma InputIsDeclared(inputs: seq<Input>, id: string)
    ensures DeclaresInput(inputs, id) <==> exists x :: x in inputs && x.id == id
  {
    if x :| x in inputs && x.id == id {
      var i :| 0 <= i < |inputs| && inputs[i] == x;
      assert inputs[i].id == id;
    }
  }

  /** The overrides are taken in turn, and the first that fails ends it. */
  lemma {:induction false} RunsInTurn(w: Work, a: seq<Override>, b: seq<Override>, o: Override)
    ensures RunOverrides(w, []) == Ok(w) && RunOverrides(w, [o]) == ApplyOverride(w, o)
    ensures RunOverrides(w, a + b) ==
            if RunOverrides(w, a).Ok? then RunOverrides(RunOverrides(w, a).value, b) else RunOverrides(w, a)
    decreases |a|
  {
    assert [o][1..] == [];
    if a == [] {
      assert a + b == b;
    } else {
      assert (a + b)[1..] == a[1..] + b && (a + b)[0] == a[0];
      if ApplyOverride(w, a[0]).Ok? {
        RunsInTurn(ApplyOverride(w, a[0]).value, a[1..], b, o);
      }
    }
  }
}
