/** The JSON visitor and the search for local paths that no binding declares. */
module LocalPaths {
  import opened Basics
  import opened JsonTree
  import opened PointerText
  import opened JsonPointer

  datatype Visit = Visit(value: Json, pointer: string, key: Option<string>)

  /** Everything `visitJson` reports, in order. A property is reported twice:
      by the recursive call without its key, then again with it. */
  function VisitJson(v: Json, pointer: string): seq<Visit>
    decreases v, 0
  {
    [Visit(v, pointer, None)] +
    match v
    case Arr(items) => VisitItems(items, 0, pointer)
    case Obj(fields) => VisitFields(fields, pointer)
    case _ => []
  }

  function VisitItems(items: seq<Json>, from: nat, pointer: string): seq<Visit>
    requires from <= |items|
    decreases items, |items| - from
  {
    if from == |items| then []
    else VisitJson(items[from], pointer + "/" + Decimal(from)) + VisitItems(items, from + 1, pointer)
  }

  function VisitFields(fields: seq<Field>, pointer: string): seq<Visit>
    decreases fields, |fields|
  {
    if fields == [] then []
    else
      var below := pointer + "/" + JsonPointerToken(fields[0].key);
      VisitJson(fields[0].value, below)
      + [Visit(fields[0].value, below, Some(fields[0].key))]
      + VisitFields(fields[1..], pointer)
  }

  /** The report names a place of `root` at or below `base`, and carries exactly
      the value found there. */
  ghost predicate Names(visit: Visit, root: Json, base: seq<string>) {
    exists path :: base <= path && visit.pointer == Render(path) && Walk(root, path) == Some(visit.value)
  }

  lemma NamesBelow(visit: Visit, root: Json, base: seq<string>, step: string)
    requires Names(visit, root, base + [step])
    ensures Names(visit, root, base)
  {
  }

  /** Every emitted pointer exists and reads exactly the visited value. */
  lemma {:induction false} VisitSound(v: Json, root: Json, base: seq<string>)
    requires WellFormed(v) && Walk(root, base) == Some(v)
    ensures forall e :: e in VisitJson(v, Render(base)) ==> Names(e, root, base)
    decreases v, 0
  {
    assert Names(Visit(v, Render(base), None), root, base);
    match v
    case Arr(items) => VisitItemsSound(items, 0, root, base);
    case Obj(fields) => VisitFieldsSound(fields, 0, root, base);
    case _ =>
  }

  lemma {:induction false} VisitItemsSound(items: seq<Json>, from: nat, root: Json, base: seq<string>)
    requires WellFormed(Arr(items)) && Walk(root, base) == Some(Arr(items)) && from <= |items|
    ensures forall e :: e in VisitItems(items, from, Render(base)) ==> Names(e, root, base)
    decreases items, |items| - from
  {
    if from == |items| {
    } else {
      var step := Decimal(from);
      ArrayIndexOfDecimal(from, |items|);
      WalkAppend(root, base, [step]);
      RenderIndex(base, from);
      VisitSound(items[from], root, base + [step]);
      forall e | e in VisitJson(items[from], Render(base + [step]))
        ensures Names(e, root, base)
      {
        NamesBelow(e, root, base, step);
      }
      VisitItemsSound(items, from + 1, root, base);
    }
  }

  lemma {:induction false} VisitFieldsSound(fields: seq<Field>, from: nat, root: Json, base: seq<string>)
    requires WellFormed(Obj(fields)) && Walk(root, base) == Some(Obj(fields)) && from <= |fields|
    ensures forall e :: e in VisitFields(fields[from..], Render(base)) ==> Names(e, root, base)
    decreases fields, |fields| - from
  {
    if from == |fields| {
    } else {
      var field := fields[from];
      GetFinds(fields, from);
      WalkAppend(root, base, [field.key]);
      RenderKey(base, field.key);
      var below := Render(base + [field.key]);
      VisitSound(field.value, root, base + [field.key]);
      forall e | e in VisitJson(field.value, below) || e == Visit(field.value, below, Some(field.key))
        ensures Names(e, root, base)
      {
        if e !in VisitJson(field.value, below) {
          assert Names(e, root, base + [field.key]);
        }
        NamesBelow(e, root, base, field.key);
      }
      VisitFieldsSound(fields, from + 1, root, base);
      assert fields[from..][1..] == fields[from + 1..];
    }
  }

  /** Every place below the start is reported, at its own pointer. */
  lemma {:induction false} VisitComplete(v: Json, base: seq<string>, path: seq<string>)
    requires Walk(v, path).Some?
    ensures Visit(Walk(v, path).value, Render(base + path), None) in VisitJson(v, Render(base))
    decreases |path|
  {
    if path == [] {
      assert base + path == base;
    } else {
      var child := Child(v, path[0]).value;
      VisitComplete(child, base + [path[0]], path[1..]);
      assert base + [path[0]] + path[1..] == base + path;
      match v {
        case Arr(items) =>
          var i := ArrayIndex(path[0], |items|).value;
          RenderIndex(base, i);
          VisitItemsInclude(items, 0, Render(base), i);
        case Obj(fields) =>
          RenderKey(base, path[0]);
          VisitFieldsInclude(fields, Render(base), path[0]);
      }
    }
  }

  lemma {:induction false} VisitItemsInclude(items: seq<Json>, from: nat, pointer: string, i: nat)
    requires from <= i < |items|
    ensures forall e :: e in VisitJson(items[i], pointer + "/" + Decimal(i)) ==> e in VisitItems(items, from, pointer)
    decreases i - from
  {
    if from == i {
    } else {
      VisitItemsInclude(items, from + 1, pointer, i);
    }
  }

  lemma {:induction false} VisitFieldsInclude(fields: seq<Field>, pointer: string, key: string)
    requires Get(fields, key).Some?
    ensures forall e :: e in VisitJson(Get(fields, key).value, pointer + "/" + JsonPointerToken(key))
                    ==> e in VisitFields(fields, pointer)
  {
    if fields[0].key == key {
    } else {
      VisitFieldsInclude(fields[1..], pointer, key);
    }
  }

  // ---- local paths ----

  predicate IsLetter(c: char) { 'A' <= c <= 'Z' || 'a' <= c <= 'z' }

  predicate StartsWith(text: string, prefix: string) { prefix <= text }

  /** A drive letter, a colon and one of the given slashes at the start. */
  predicate DriveAt(text: string, i: nat, forward: bool) {
    i + 3 <= |text| && IsLetter(text[i]) && text[i + 1] == ':' &&
    (text[i + 2] == '\\' || (forward && text[i + 2] == '/'))
  }

  predicate LooksLikeLocalPath(text: string) {
    || StartsWith(text, "file:")
    || DriveAt(text, 0, true)
    || (StartsWith(text, "/") && !StartsWith(text, "//") && |text| > 1)
    || ('\\' in text && exists i :: 0 <= i < |text| && DriveAt(text, i, false))
  }

  predicate IsLocal(v: Json) { v.Str? && LooksLikeLocalPath(v.text) }

  function LocalPointersIn(visits: seq<Visit>): (pointers: seq<string>)
    ensures forall p :: p in pointers <==> exists e :: e in visits && e.pointer == p && IsLocal(e.value)
  {
    if visits == [] then []
    else (if IsLocal(visits[0].value) then [visits[0].pointer] else []) + LocalPointersIn(visits[1..])
  }

  function FindLocalPointers(v: Json, pointer: string): seq<string> {
    LocalPointersIn(VisitJson(v, pointer))
  }

  /** `found.find(item => !bound.has(item.pointer))`. */
  function FirstUnbound(found: seq<string>, bound: set<string>): (r: Option<string>)
    ensures r.None? <==> forall p :: p in found ==> p in bound
    ensures r.Some? ==> r.value in found && r.value !in bound
  {
    if found == [] then None
    else if found[0] !in bound then Some(found[0])
    else FirstUnbound(found[1..], bound)
  }

  // ---- the two searched sections of a blueprint profile ----

  datatype Section = Patch | Settings

  function Name(section: Section): string {
    if section.Patch? then "patch" else "settings"
  }

  function Part(patch: Json, settings: Json, section: Section): Json {
    if section.Patch? then patch else settings
  }

  /** The object the pointers are relative to. */
  function Root(patch: Json, settings: Json): Json {
    Obj([Field("profile", Obj([Field(Name(Patch), patch), Field(Name(Settings), settings)]))])
  }

  function BasePath(section: Section): seq<string> { ["profile", Name(section)] }

  function BasePointer(section: Section): string { "/" + "profile" + ("/" + Name(section)) }

  function FindUndeclaredLocals(patch: Json, settings: Json, bound: set<string>): Option<string> {
    FirstUnbound(FindLocalPointers(patch, BasePointer(Patch)) + FindLocalPointers(settings, BasePointer(Settings)), bound)
  }

  /** A key that needs no escape. */
  ghost predicate Plain(key: string) { '~' !in key && '/' !in key }

  lemma RenderPlainPair(a: string, b: string)
    requires Plain(a) && Plain(b)
    ensures Render([a, b]) == "/" + a + ("/" + b)
  {
    ReplaceCharAbsent(a, '~', "~0");
    ReplaceCharAbsent(a, '/', "~1");
    ReplaceCharAbsent(b, '~', "~0");
    ReplaceCharAbsent(b, '/', "~1");
    assert [] + [a] == [a] && [a] + [b] == [a, b];
    RenderKey([], a);
    RenderKey([a], b);
    assert Render([]) == "";
  }

  lemma BasePointerRendered(section: Section)
    ensures Render(BasePath(section)) == BasePointer(section)
  {
    assert Plain("profile") && Plain(Name(section));
    RenderPlainPair("profile", Name(section));
  }

  lemma BasePathWalk(patch: Json, settings: Json, section: Section)
    ensures Walk(Root(patch, settings), BasePath(section)) == Some(Part(patch, settings, section))
  {
    var root := Root(patch, settings);
    var profile := root.fields[0].value;
    GetFinds(root.fields, 0);
    GetFinds(profile.fields, if section.Patch? then 0 else 1);
    assert BasePath(section)[1..] == [Name(section)] && [Name(section)][1..] == [];
    assert Walk(profile, [Name(section)]) == Child(profile, Name(section));
  }

  ghost predicate HoldsLocal(root: Json, path: seq<string>) {
    Walk(root, path).Some? && IsLocal(Walk(root, path).value)
  }

  /** A place of the patch or the settings that holds a local path. */
  ghost predicate LocalPlace(patch: Json, settings: Json, path: seq<string>) {
    && (exists section :: BasePath(section) <= path)
    && HoldsLocal(Root(patch, settings), path)
  }

  /** Below any base, the pointers found are exactly those of the local places there. */
  lemma FoundBelowBase(part: Json, root: Json, base: seq<string>, pointer: string)
    requires WellFormed(part) && Walk(root, base) == Some(part)
    ensures pointer in FindLocalPointers(part, Render(base))
       <==> exists path :: base <= path && pointer == Render(path) && HoldsLocal(root, path)
  {
    if path :| base <= path && pointer == Render(path) && HoldsLocal(root, path) {
      var rest := path[|base|..];
      assert base + rest == path;
      WalkAppend(root, base, rest);
      VisitComplete(part, base, rest);
    }
    if pointer in FindLocalPointers(part, Render(base)) {
      VisitSound(part, root, base);
      var e :| e in VisitJson(part, Render(base)) && e.pointer == pointer && IsLocal(e.value);
      assert Names(e, root, base);
      var path :| base <= path && e.pointer == Render(path) && Walk(root, path) == Some(e.value);
      assert HoldsLocal(root, path);
    }
  }

  lemma FoundIffLocalPlace(patch: Json, settings: Json, section: Section, pointer: string)
    requires WellFormed(patch) && WellFormed(settings)
    ensures pointer in FindLocalPointers(Part(patch, settings, section), BasePointer(section))
       <==> exists path :: BasePath(section) <= path && LocalPlace(patch, settings, path) && pointer == Render(path)
  {
    BasePathWalk(patch, settings, section);
    BasePointerRendered(section);
    FoundBelowBase(Part(patch, settings, section), Root(patch, settings), BasePath(section), pointer);
  }

  lemma FoundAnywhereIffLocalPlace(patch: Json, settings: Json, pointer: string)
    requires WellFormed(patch) && WellFormed(settings)
    ensures (pointer in FindLocalPointers(patch, BasePointer(Patch)) ||
             pointer in FindLocalPointers(settings, BasePointer(Settings)))
       <==> exists path :: LocalPlace(patch, settings, path) && pointer == Render(path)
  {
    FoundIffLocalPlace(patch, settings, Patch, pointer);
    FoundIffLocalPlace(patch, settings, Settings, pointer);
    if path :| LocalPlace(patch, settings, path) && pointer == Render(path) {
      var section :| BasePath(section) <= path;
    }
  }

  /** No leftover is reported exactly when every local path sits at a bound
      pointer; a reported leftover reads back an unbound local path. */
  lemma UndeclaredLocalsExact(patch: Json, settings: Json, bound: set<string>)
    requires WellFormed(patch) && WellFormed(settings)
    ensures FindUndeclaredLocals(patch, settings, bound).None?
       <==> forall path :: LocalPlace(patch, settings, path) ==> Render(path) in bound
    ensures var r := FindUndeclaredLocals(patch, settings, bound);
            r.Some? ==> r.value !in bound && Exists(Root(patch, settings), r.value) &&
                        IsLocal(Walk(Root(patch, settings), Tokens(r.value)).value)
  {
    var r := FindUndeclaredLocals(patch, settings, bound);
    if r.None? {
      forall path | LocalPlace(patch, settings, path)
        ensures Render(path) in bound
      {
        FoundAnywhereIffLocalPlace(patch, settings, Render(path));
      }
    } else {
      FoundAnywhereIffLocalPlace(patch, settings, r.value);
      var path :| LocalPlace(patch, settings, path) && r.value == Render(path);
      TokensOfRender(path);
    }
  }

  // ---- what a local path is, and which one is reported ----

  ghost predicate FileUrl(text: string) { exists rest: string :: text == "file:" + rest }

  ghost predicate DriveFirst(text: string) {
    exists letter, slash, rest: string ::
      text == [letter, ':', slash] + rest && ('A' <= letter <= 'Z' || 'a' <= letter <= 'z') && (slash == '/' || slash == '\\')
  }

  ghost predicate OneSlash(text: string) { exists second, rest: string :: text == ['/', second] + rest && second != '/' }

  ghost predicate DriveInside(text: string) {
    exists head: string, letter, rest: string ::
      text == head + [letter, ':', '\\'] + rest && ('A' <= letter <= 'Z' || 'a' <= letter <= 'z')
  }

  lemma PrefixIff(text: string, prefix: string)
    ensures prefix <= text <==> exists rest: string :: text == prefix + rest
  {
    if prefix <= text {
      assert text == prefix + text[|prefix|..];
    }
  }

  lemma DriveFirstIff(text: string)
    ensures DriveAt(text, 0, true) <==> DriveFirst(text)
  {
    if DriveAt(text, 0, true) {
      assert text == [text[0], ':', text[2]] + text[3..];
    }
  }

  lemma OneSlashIff(text: string)
    ensures StartsWith(text, "/") && !StartsWith(text, "//") && |text| > 1 <==> OneSlash(text)
  {
    if |text| > 1 {
      assert text == [text[0], text[1]] + text[2..];
      assert StartsWith(text, "/") <==> text[0] == '/';
      assert StartsWith(text, "//") <==> text[0] == '/' && text[1] == '/';
    }
  }

  lemma DriveInsideIff(text: string)
    ensures '\\' in text && (exists i :: 0 <= i < |text| && DriveAt(text, i, false)) <==> DriveInside(text)
  {
    if i :| 0 <= i < |text| && DriveAt(text, i, false) {
      assert text == text[..i] + [text[i], ':', '\\'] + text[i + 3..];
    }
    if head: string, letter, rest: string :| text == head + [letter, ':', '\\'] + rest && IsLetter(letter) {
      assert text[|head|] == letter && text[|head| + 1] == ':' && text[|head| + 2] == '\\';
      assert DriveAt(text, |head|, false);
    }
  }

  /** The four forms: a file URL, a drive with either slash at the start, one leading
      slash that is not alone or doubled, and a drive with a backslash anywhere. */
  lemma LocalForms(text: string)
    ensures LooksLikeLocalPath(text) <==> FileUrl(text) || DriveFirst(text) || OneSlash(text) || DriveInside(text)
  {
    PrefixIff(text, "file:");
    DriveFirstIff(text);
    OneSlashIff(text);
    DriveInsideIff(text);
  }

  /** Only strings are local paths. */
  lemma LocalValues(v: Json)
    ensures IsLocal(v) <==>
              v.Str? && (FileUrl(v.text) || DriveFirst(v.text) || OneSlash(v.text) || DriveInside(v.text))
  {
    if v.Str? {
      LocalForms(v.text);
    }
  }

  /** The first place with an unbound local path, going through arrays by index and
      through objects in their order, each value before what is below it. */
  function FirstLeft(v: Json, path: seq<string>, bound: set<string>): Option<string>
    decreases v, 0
  {
    if IsLocal(v) && Render(path) !in bound then Some(Render(path))
    else match v
      case Arr(items) => FirstLeftItem(items, 0, path, bound)
      case Obj(fields) => FirstLeftField(fields, path, bound)
      case _ => None
  }

  function FirstLeftItem(items: seq<Json>, from: nat, path: seq<string>, bound: set<string>): Option<string>
    requires from <= |items|
    decreases items, |items| - from
  {
    if from == |items| then None
    else
      var here := FirstLeft(items[from], path + [Decimal(from)], bound);
      if here.Some? then here else FirstLeftItem(items, from + 1, path, bound)
  }

  function FirstLeftField(fields: seq<Field>, path: seq<string>, bound: set<string>): Option<string>
    decreases fields, |fields|
  {
    if fields == [] then None
    else
      var here := FirstLeft(fields[0].value, path + [fields[0].key], bound);
      if here.Some? then here else FirstLeftField(fields[1..], path, bound)
  }

  function FirstIn(visits: seq<Visit>, bound: set<string>): Option<string> {
    FirstUnbound(LocalPointersIn(visits), bound)
  }

  lemma {:induction false} FirstInConcat(a: seq<Visit>, b: seq<Visit>, bound: set<string>)
    ensures FirstIn(a + b, bound) == if FirstIn(a, bound).Some? then FirstIn(a, bound) else FirstIn(b, bound)
  {
    if a == [] {
      assert a + b == b;
    } else {
      assert (a + b)[1..] == a[1..] + b;
      FirstInConcat(a[1..], b, bound);
      FirstInCons(a[0], a[1..], bound);
      FirstInCons(a[0], a[1..] + b, bound);
      assert a == [a[0]] + a[1..] && a + b == [a[0]] + (a[1..] + b);
    }
  }

  lemma FirstInCons(v: Visit, rest: seq<Visit>, bound: set<string>)
    ensures FirstIn([v] + rest, bound) ==
            if IsLocal(v.value) && v.pointer !in bound then Some(v.pointer) else FirstIn(rest, bound)
  {
    assert ([v] + rest)[1..] == rest;
    var found := LocalPointersIn(rest);
    if IsLocal(v.value) {
      assert ([v.pointer] + found)[1..] == found;
    } else {
      assert [] + found == found;
    }
  }

  lemma {:induction false} VisitFindsFirst(v: Json, path: seq<string>, bound: set<string>)
    ensures FirstIn(VisitJson(v, Render(path)), bound) == FirstLeft(v, path, bound)
    decreases v, 0
  {
    var below := match v
      case Arr(items) => VisitItems(items, 0, Render(path))
      case Obj(fields) => VisitFields(fields, Render(path))
      case _ => [];
    FirstInCons(Visit(v, Render(path), None), below, bound);
    match v
    case Arr(items) => ItemsFindFirst(items, 0, path, bound);
    case Obj(fields) => FieldsFindFirst(fields, path, bound);
    case _ =>
  }

  lemma {:induction false} ItemsFindFirst(items: seq<Json>, from: nat, path: seq<string>, bound: set<string>)
    requires from <= |items|
    ensures FirstIn(VisitItems(items, from, Render(path)), bound) == FirstLeftItem(items, from, path, bound)
    decreases items, |items| - from
  {
    if from == |items| {
    } else {
      RenderIndex(path, from);
      VisitFindsFirst(items[from], path + [Decimal(from)], bound);
      ItemsFindFirst(items, from + 1, path, bound);
      FirstInConcat(VisitJson(items[from], Render(path) + "/" + Decimal(from)), VisitItems(items, from + 1, Render(path)), bound);
    }
  }

  /** A property is visited twice, but the second visit reports nothing new. */
  lemma {:induction false} FieldsFindFirst(fields: seq<Field>, path: seq<string>, bound: set<string>)
    ensures FirstIn(VisitFields(fields, Render(path)), bound) == FirstLeftField(fields, path, bound)
    decreases fields, |fields|
  {
    if fields == [] {
    } else {
      var f, inner := fields[0], path + [fields[0].key];
      RenderKey(path, f.key);
      VisitFindsFirst(f.value, inner, bound);
      FieldsFindFirst(fields[1..], path, bound);
      var again, rest := Visit(f.value, Render(inner), Some(f.key)), VisitFields(fields[1..], Render(path));
      var first := VisitJson(f.value, Render(inner));
      FirstInConcat(first, [again] + rest, bound);
      assert first + [again] + rest == first + ([again] + rest);
      FirstInCons(again, rest, bound);
    }
  }

  /** What is reported is the first unbound local path in that order, in the patch if it
      has one and else in the settings. */
  lemma ReportedIsFirst(patch: Json, settings: Json, bound: set<string>)
    ensures FindUndeclaredLocals(patch, settings, bound) ==
            var left := FirstLeft(patch, BasePath(Patch), bound);
            if left.Some? then left else FirstLeft(settings, BasePath(Settings), bound)
  {
    BasePointerRendered(Patch);
    BasePointerRendered(Settings);
    VisitFindsFirst(patch, BasePath(Patch), bound);
    VisitFindsFirst(settings, BasePath(Settings), bound);
    var a, b := VisitJson(patch, BasePointer(Patch)), VisitJson(settings, BasePointer(Settings));
    FirstInConcat(a, b, bound);
    PointersConcat(a, b);
  }

  lemma {:induction false} PointersConcat(a: seq<Visit>, b: seq<Visit>)
    ensures LocalPointersIn(a + b) == LocalPointersIn(a) + LocalPointersIn(b)
  {
    if a == [] {
      assert a + b == b;
    } else {
      assert (a + b)[1..] == a[1..] + b && (a + b)[0] == a[0];
      PointersConcat(a[1..], b);
    }
  }
}
