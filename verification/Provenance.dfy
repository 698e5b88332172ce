/** Finding a recorded binding again in the current patch and settings. */
module Provenance {
  import opened Basics
  import opened JsonTree
  import opened PointerText
  import opened JsonPointer
  import opened LocalPaths
  import opened PatchEntries

  /** A recorded value binding; the optional fields are "" when absent. */
  datatype Recorded = Recorded(pointer: string, entryId: string, entryName: string)

  /** Where the binding was found, and the tree after a missing leaf was added. */
  datatype Location = Missing | At(root: Json, pointer: string)

  // ---- pointer text helpers ----

  /** `text.indexOf(pattern)` from a position on, `|text|` for none. */
  function IndexOf(text: string, pattern: string, from: nat): (i: nat)
    requires from <= |text|
    ensures from <= i <= |text|
    ensures i < |text| ==> pattern <= text[i..]
    ensures forall k :: from <= k < i ==> !(pattern <= text[k..])
    decreases |text| - from
  {
    if from == |text| || pattern <= text[from..] then from else IndexOf(text, pattern, from + 1)
  }

  function ConfigBindingSuffix(pointer: string): (r: Option<string>)
    ensures r.Some? ==> r.value == "/config" || "/config/" <= r.value
  {
    var i := IndexOf(pointer, "/config/", 0);
    if i < |pointer| then Some(pointer[i..])
    else if |pointer| >= 7 && pointer[|pointer| - 7..] == "/config" then Some("/config")
    else None
  }

  /** `text.lastIndexOf("/")`. */
  function LastSlash(text: string): (i: int)
    ensures -1 <= i < |text|
    ensures i >= 0 ==> text[i] == '/'
    ensures forall k :: i < k < |text| ==> text[k] != '/'
  {
    if text == "" then -1
    else if text[|text| - 1] == '/' then |text| - 1
    else LastSlash(text[..|text| - 1])
  }

  function ParentJsonPointer(pointer: string): Option<string> {
    var i := LastSlash(pointer);
    if i <= 0 then None else Some(pointer[..i])
  }

  function LastJsonPointerToken(pointer: string): Option<string> {
    var i := LastSlash(pointer);
    if i < 0 || i == |pointer| - 1 then None else Some(DecodePointerToken(pointer[i + 1..]))
  }

  lemma {:induction false} SplitConcat(head: string, rest: string)
    ensures Split(head + "/" + rest) == Split(head) + Split(rest)
  {
    if head == "" {
      SplitCons('/', rest);
      assert head + "/" + rest == ['/'] + rest;
    } else {
      var c, tail := head[0], head[1..];
      SplitConcat(tail, rest);
      SplitCons(c, tail);
      SplitCons(c, tail + "/" + rest);
      GrownConcat(c, Split(tail), Split(rest));
      assert head == [c] + tail;
      assert head + "/" + rest == [c] + (tail + "/" + rest);
    }
  }

  lemma DecodeAllAppend(a: seq<string>, b: seq<string>)
    ensures DecodeAll(a + b) == DecodeAll(a) + DecodeAll(b)
  {
  }

  lemma {:induction false} DecodeEmptyOnly(text: string, d: char, c: char)
    ensures ReplaceEscape(text, d, c) == "" <==> text == ""
  {
  }

  /** Cutting a pointer at its last slash cuts its token path at the last token. */
  lemma ParentAndLeaf(pointer: string)
    requires ParentJsonPointer(pointer).Some? && pointer[0] == '/'
    ensures var path := Tokens(pointer);
            && |path| >= 2
            && Tokens(ParentJsonPointer(pointer).value) == path[..|path| - 1]
            && LastJsonPointerToken(pointer) ==
               (if path[|path| - 1] == "" then None else Some(path[|path| - 1]))
  {
    var i := LastSlash(pointer);
    var part := pointer[i + 1..];
    var head := pointer[1..i];
    assert pointer[1..] == head + "/" + part;
    assert pointer[..i][1..] == head;
    SplitConcat(head, part);
    SplitPart(part, "");
    DecodeAllAppend(Split(head), [part]);
    assert DecodeAll([part]) == [DecodePointerToken(part)];
    DecodeEmptyOnly(part, '1', '/');
    DecodeEmptyOnly(ReplaceEscape(part, '1', '/'), '0', '~');
  }

  /** A suffix appended to a rendered path adds its tokens below that path. */
  lemma SuffixTokens(path: seq<string>, suffix: string)
    requires path != [] && suffix != "" && suffix[0] == '/'
    ensures Tokens(Render(path) + suffix) == path + Tokens(suffix)
  {
    SplitRender(path);
    TokensOfRender(path);
    var head := Render(path)[1..];
    assert (Render(path) + suffix)[1..] == head + "/" + suffix[1..];
    SplitConcat(head, suffix[1..]);
    DecodeAllAppend(Split(head), Split(suffix[1..]));
  }

  // ---- the location itself ----

  /** A pointer whose place exists, or is a missing property of an object that
      exists, which is then added as null. */
  function EnsureLeaf(root: Json, pointer: string): Location {
    if Exists(root, pointer) then At(root, pointer)
    else
      var parent := ParentJsonPointer(pointer);
      if parent.None? || !Exists(root, parent.value) then Missing
      else
        var path := Tokens(parent.value);
        var leaf := LastJsonPointerToken(pointer);
        if !Walk(root, path).value.Obj? || leaf.None? || leaf.value == "" then Missing
        else
          var added := SetAt(root, path + [leaf.value], Null);
          if added.Some? then At(added.value, pointer) else Missing
  }

  /** The property a pointer names can be added: its parent is an object. */
  predicate CanAddLeaf(root: Json, pointer: string) {
    var path := Tokens(pointer);
    && pointer != "" && pointer[0] == '/'
    && |path| >= 2 && path[|path| - 1] != ""
    && Walk(root, path[..|path| - 1]).Some? && Walk(root, path[..|path| - 1]).value.Obj?
  }

  /** Exactly when a place is found, and what the tree is then: untouched if the
      place was there, otherwise with one null added at that place. */
  lemma EnsureLeafExact(root: Json, pointer: string)
    ensures EnsureLeaf(root, pointer).At? <==> Exists(root, pointer) || CanAddLeaf(root, pointer)
    ensures var r := EnsureLeaf(root, pointer);
            r.At? ==>
              && r.pointer == pointer && Exists(r.root, pointer)
              && (Exists(root, pointer) ==> r.root == root)
              && (!Exists(root, pointer) ==> SetAt(root, Tokens(pointer), Null) == Some(r.root))
  {
    if pointer == "" || pointer[0] != '/' {
      NoSlashNoPlace(root, pointer);
    } else if !Exists(root, pointer) {
      SlashFree(pointer);
      MissingLeafExact(root, pointer);
    }
  }

  lemma NoSlashNoPlace(root: Json, pointer: string)
    requires pointer == "" || pointer[0] != '/'
    ensures !Exists(root, pointer) && !CanAddLeaf(root, pointer) && EnsureLeaf(root, pointer) == Missing
  {
  }

  lemma MissingLeafExact(root: Json, pointer: string)
    requires pointer != "" && pointer[0] == '/' && !Exists(root, pointer)
    requires ParentJsonPointer(pointer).None? ==> |Tokens(pointer)| == 1
    ensures EnsureLeaf(root, pointer).At? <==> CanAddLeaf(root, pointer)
    ensures var r := EnsureLeaf(root, pointer);
            r.At? ==>
              r.pointer == pointer && Exists(r.root, pointer) && SetAt(root, Tokens(pointer), Null) == Some(r.root)
  {
    var path := Tokens(pointer);
    var parent := ParentJsonPointer(pointer);
    if parent.Some? {
      ParentAndLeaf(pointer);
      assert parent.value[0] == '/';
      assert path[..|path| - 1] + [path[|path| - 1]] == path;
      if CanAddLeaf(root, pointer) {
        SetAtSucceeds(root, path, Null);
        SetAtReads(root, path, Null, path);
      }
    }
  }

  /** A pointer without a parent has a single token. */
  lemma SlashFree(pointer: string)
    requires pointer != "" && pointer[0] == '/'
    ensures ParentJsonPointer(pointer).None? ==> |Tokens(pointer)| == 1
  {
    if ParentJsonPointer(pointer).None? {
      SplitPart(pointer[1..], "");
    }
  }

  predicate Matches(entry: Json, recorded: Recorded) {
    && Child(entry, "id") == Some(Str(recorded.entryId))
    && (recorded.entryName != "" ==> Child(entry, "name") == Some(Str(recorded.entryName)))
  }

  function MatchPointers(found: seq<Located>, recorded: Recorded, suffix: string): (r: seq<string>)
    ensures forall p :: p in r <==> exists l :: l in found && Matches(l.entry, recorded) && p == Render(l.path) + suffix
  {
    if found == [] then []
    else (if Matches(found[0].entry, recorded) then [Render(found[0].path) + suffix] else [])
         + MatchPointers(found[1..], recorded, suffix)
  }

  /** `unique`: the first occurrence of every value, in order. */
  function Unique(values: seq<string>, seen: set<string>): (out: seq<string>)
    ensures forall v :: v in out <==> v in values && v !in seen
    ensures forall i, j :: 0 <= i < j < |out| ==> out[i] != out[j]
  {
    if values == [] then []
    else if values[0] in seen then Unique(values[1..], seen)
    else [values[0]] + Unique(values[1..], seen + {values[0]})
  }

  const SETTINGS_BASE := "/profile/settings"

  function LocateEntry(root: Json, patch: Json, recorded: Recorded): Location {
    var suffix := ConfigBindingSuffix(recorded.pointer);
    if suffix.None? then Missing
    else
      var matches := Unique(
        MatchPointers(WalkAllPatchEntries(patch, BasePath(Patch)), recorded, suffix.value), {});
      if |matches| == 1 then EnsureLeaf(root, matches[0]) else Missing
  }

  function LocateProvenancePointer(patch: Json, settings: Json, recorded: Recorded): Location {
    var root := Root(patch, settings);
    if recorded.pointer == "" then Missing
    else if SETTINGS_BASE <= recorded.pointer then EnsureLeaf(root, recorded.pointer)
    else if recorded.entryId != "" then LocateEntry(root, patch, recorded)
    else if Exists(root, recorded.pointer) then At(root, recorded.pointer)
    else Missing
  }

  /** The one entry of the patch with the recorded id (and name, when recorded). */
  ghost predicate OnlyMatch(patch: Json, recorded: Recorded, path: seq<string>) {
    MatchesAt(patch, recorded, path) && forall other :: MatchesAt(patch, recorded, other) ==> other == path
  }

  ghost predicate MatchesAt(patch: Json, recorded: Recorded, path: seq<string>) {
    EntryAt(patch, path).Some? && Matches(EntryAt(patch, path).value, recorded)
  }

  lemma MatchIsEntry(patch: Json, base: seq<string>, recorded: Recorded, suffix: string, pointer: string)
    returns (path: seq<string>)
    requires pointer in MatchPointers(WalkAllPatchEntries(patch, base), recorded, suffix)
    ensures MatchesAt(patch, recorded, path) && pointer == Render(base + path) + suffix
  {
    var found := WalkAllPatchEntries(patch, base);
    WalkIsExact(patch, base);
    var at := path => EntryAt(patch, path);
    var l :| l in found && Matches(l.entry, recorded) && pointer == Render(l.path) + suffix;
    assert Sound(found, base, at);
    path := l.path[|base|..];
    assert at(path) == Some(l.entry) && base + path == l.path;
  }

  lemma EntryIsMatch(patch: Json, base: seq<string>, recorded: Recorded, suffix: string, path: seq<string>)
    requires MatchesAt(patch, recorded, path)
    ensures Render(base + path) + suffix in MatchPointers(WalkAllPatchEntries(patch, base), recorded, suffix)
  {
    var found := WalkAllPatchEntries(patch, base);
    WalkIsExact(patch, base);
    var at := path => EntryAt(patch, path);
    assert Complete(found, base, at) && at(path).Some?;
    assert Located(at(path).value, base + path) in found;
  }

  /** All matches sit at one place if they all give one pointer. */
  lemma SameRenderedPlace(base: seq<string>, p: seq<string>, q: seq<string>, suffix: string)
    requires Render(base + p) + suffix == Render(base + q) + suffix
    ensures p == q
  {
    DropSuffix(Render(base + p), Render(base + q), suffix);
    RenderInjective(base + p, base + q);
    assert p == (base + p)[|base|..] && q == (base + q)[|base|..];
  }

  lemma SinglePointerIsOnlyMatch(patch: Json, base: seq<string>, recorded: Recorded, suffix: string) returns (path: seq<string>)
    requires |Unique(MatchPointers(WalkAllPatchEntries(patch, base), recorded, suffix), {})| == 1
    ensures OnlyMatch(patch, recorded, path)
    ensures Unique(MatchPointers(WalkAllPatchEntries(patch, base), recorded, suffix), {})[0] == Render(base + path) + suffix
  {
    var matches := Unique(MatchPointers(WalkAllPatchEntries(patch, base), recorded, suffix), {});
    assert matches[0] in matches;
    path := MatchIsEntry(patch, base, recorded, suffix, matches[0]);
    forall other | MatchesAt(patch, recorded, other) ensures other == path {
      EntryIsMatch(patch, base, recorded, suffix, other);
      assert Render(base + other) + suffix in matches;
      SameRenderedPlace(base, other, path, suffix);
    }
  }

  lemma OnlyMatchIsSinglePointer(patch: Json, base: seq<string>, recorded: Recorded, suffix: string, path: seq<string>)
    requires OnlyMatch(patch, recorded, path)
    ensures Unique(MatchPointers(WalkAllPatchEntries(patch, base), recorded, suffix), {}) == [Render(base + path) + suffix]
  {
    var matches := Unique(MatchPointers(WalkAllPatchEntries(patch, base), recorded, suffix), {});
    var only := Render(base + path) + suffix;
    EntryIsMatch(patch, base, recorded, suffix, path);
    assert only in matches;
    forall i | 0 <= i < |matches| ensures matches[i] == only {
      assert matches[i] in matches;
      var other := MatchIsEntry(patch, base, recorded, suffix, matches[i]);
    }
    assert matches[|matches| - 1] == matches[0];
  }

  lemma OneMatchPointer(patch: Json, base: seq<string>, recorded: Recorded, suffix: string)
    ensures var matches := Unique(MatchPointers(WalkAllPatchEntries(patch, base), recorded, suffix), {});
            && (|matches| == 1 ==>
                  exists path :: OnlyMatch(patch, recorded, path) && matches[0] == Render(base + path) + suffix)
            && (forall path :: OnlyMatch(patch, recorded, path) ==>
                  matches == [Render(base + path) + suffix])
  {
    var matches := Unique(MatchPointers(WalkAllPatchEntries(patch, base), recorded, suffix), {});
    if |matches| == 1 {
      var path := SinglePointerIsOnlyMatch(patch, base, recorded, suffix);
    }
    forall path | OnlyMatch(patch, recorded, path) ensures matches == [Render(base + path) + suffix] {
      OnlyMatchIsSinglePointer(patch, base, recorded, suffix, path);
    }
  }

  /** With exactly one matching entry the search is for the recorded suffix
      below that entry, wherever it sits; with none or several it never succeeds. */
  lemma LocateEntryExact(root: Json, patch: Json, recorded: Recorded)
    ensures ConfigBindingSuffix(recorded.pointer).None? ==> LocateEntry(root, patch, recorded).Missing?
    ensures (forall path :: !OnlyMatch(patch, recorded, path)) ==> LocateEntry(root, patch, recorded).Missing?
    ensures forall path :: OnlyMatch(patch, recorded, path) && ConfigBindingSuffix(recorded.pointer).Some? ==>
      LocateEntry(root, patch, recorded)
      == EnsureLeaf(root, Render(BasePath(Patch) + path) + ConfigBindingSuffix(recorded.pointer).value)
  {
    var suffix := ConfigBindingSuffix(recorded.pointer);
    if suffix.Some? {
      OneMatchPointer(patch, BasePath(Patch), recorded, suffix.value);
    }
  }

  lemma {:induction false} ReplaceEscapeAbsent(text: string, d: char, c: char)
    requires '~' !in text
    ensures ReplaceEscape(text, d, c) == text
  {
    if |text| >= 2 {
      ReplaceEscapeAbsent(text[1..], d, c);
    }
  }

  lemma FirstToken(word: string, suffix: string)
    requires Plain(word) && ("/" + word == suffix || "/" + word + "/" <= suffix)
    ensures suffix[0] == '/' && Tokens(suffix)[0] == word
  {
    ReplaceEscapeAbsent(word, '1', '/');
    ReplaceEscapeAbsent(word, '0', '~');
    SplitPart(word, "");
    if "/" + word != suffix {
      var rest := suffix[|word| + 2..];
      assert suffix[1..] == word + "/" + rest;
      SplitPart(word, rest);
    } else {
      assert suffix[1..] == word;
    }
  }

  /** Writing below `config` leaves the entry matching as before. */
  lemma WriteKeepsMatch(entry: Json, path: seq<string>, v: Json, recorded: Recorded)
    requires path != [] && path[0] == "config" && SetAt(entry, path, v).Some? && Matches(entry, recorded)
    ensures Matches(SetAt(entry, path, v).value, recorded)
  {
    var written := SetAt(entry, path, v).value;
    forall key | key != "config"
      ensures Child(written, key) == Child(entry, key)
    {
      SetAtReads(entry, path, v, [key]);
      assert [key][1..] == [] && [key][0] == key;
      assert Walk(entry, [key]) == Child(entry, key) && Walk(written, [key]) == Child(written, key);
    }
  }

  /** The place found is the recorded suffix inside the entry, which still
      matches; everything beside that place is as before. */
  ghost predicate InsideEntry(root: Json, r: Location, entryPath: seq<string>, suffix: string, recorded: Recorded) {
    && r.At? && r.pointer == Render(entryPath) + suffix
    && Tokens(r.pointer) == entryPath + Tokens(suffix)
    && Exists(r.root, r.pointer)
    && Walk(r.root, entryPath).Some? && Matches(Walk(r.root, entryPath).value, recorded)
    && Beside(root, r)
  }

  ghost predicate Beside(root: Json, r: Location)
    requires r.At?
  {
    forall q :: !(Tokens(r.pointer) <= q) && !(q <= Tokens(r.pointer)) ==> Walk(r.root, q) == Walk(root, q)
  }

  lemma EnsureLeafBeside(root: Json, pointer: string)
    requires EnsureLeaf(root, pointer).At?
    ensures Beside(root, EnsureLeaf(root, pointer))
  {
    EnsureLeafExact(root, pointer);
    var r := EnsureLeaf(root, pointer);
    if !Exists(root, pointer) {
      forall q | !(Tokens(r.pointer) <= q) && !(q <= Tokens(r.pointer))
        ensures Walk(r.root, q) == Walk(root, q)
      {
        SetAtReads(root, Tokens(pointer), Null, q);
      }
    }
  }

  lemma EntryKeepsMatching(root: Json, entryPath: seq<string>, below: seq<string>, v: Json, recorded: Recorded)
    requires Walk(root, entryPath).Some? && Matches(Walk(root, entryPath).value, recorded)
    requires below != [] && below[0] == "config" && SetAt(root, entryPath + below, v).Some?
    ensures var after := SetAt(root, entryPath + below, v).value;
            Walk(after, entryPath).Some? && Matches(Walk(after, entryPath).value, recorded)
  {
    var path := entryPath + below;
    assert path[|entryPath|..] == below;
    SetAtReads(root, path, v, entryPath);
    SetInside(root, entryPath, below, v);
    WriteKeepsMatch(Walk(root, entryPath).value, below, v, recorded);
  }

  lemma {:induction false} SetInside(root: Json, entryPath: seq<string>, below: seq<string>, v: Json)
    requires Walk(root, entryPath).Some? && below != [] && SetAt(root, entryPath + below, v).Some?
    ensures SetAt(Walk(root, entryPath).value, below, v).Some?
  {
    if entryPath == [] {
      assert entryPath + below == below;
    } else {
      assert (entryPath + below)[1..] == entryPath[1..] + below;
      SetInside(Child(root, entryPath[0]).value, entryPath[1..], below, v);
    }
  }

  lemma EnsureLeafInside(root: Json, entryPath: seq<string>, suffix: string, recorded: Recorded)
    requires entryPath != [] && Walk(root, entryPath).Some? && Matches(Walk(root, entryPath).value, recorded)
    requires suffix != "" && suffix[0] == '/' && Tokens(suffix)[0] == "config"
    requires EnsureLeaf(root, Render(entryPath) + suffix).At?
    ensures InsideEntry(root, EnsureLeaf(root, Render(entryPath) + suffix), entryPath, suffix, recorded)
  {
    var pointer := Render(entryPath) + suffix;
    EnsureLeafExact(root, pointer);
    EnsureLeafBeside(root, pointer);
    SuffixTokens(entryPath, suffix);
    if !Exists(root, pointer) {
      EntryKeepsMatching(root, entryPath, Tokens(suffix), Null, recorded);
    }
  }

  lemma ConfigSuffix(pointer: string)
    requires ConfigBindingSuffix(pointer).Some?
    ensures var suffix := ConfigBindingSuffix(pointer).value;
            suffix != "" && suffix[0] == '/' && Tokens(suffix)[0] == "config"
  {
    ConfigWord("config", ConfigBindingSuffix(pointer).value);
  }

  lemma ConfigShape(word: string, suffix: string)
    requires word == "config" && (suffix == "/config" || "/config/" <= suffix)
    ensures Plain(word) && suffix != "" && ("/" + word == suffix || "/" + word + "/" <= suffix)
  {
  }

  lemma ConfigWord(word: string, suffix: string)
    requires word == "config" && (suffix == "/config" || "/config/" <= suffix)
    ensures suffix != "" && suffix[0] == '/' && Tokens(suffix)[0] == word
  {
    ConfigShape(word, suffix);
    FirstToken(word, suffix);
  }

  lemma EntryInRoot(patch: Json, settings: Json, path: seq<string>)
    requires EntryAt(patch, path).Some?
    ensures Walk(Root(patch, settings), BasePath(Patch) + path) == EntryAt(patch, path)
  {
    BasePathWalk(patch, settings, Patch);
    WalkAppend(Root(patch, settings), BasePath(Patch), path);
    EntryAtWalks(patch, path);
  }

  /** A successful search for a binding of a patch entry ends inside the one
      entry with the recorded id and name, at the recorded suffix. */
  lemma LocatedInsideEntry(patch: Json, settings: Json, recorded: Recorded)
    requires recorded.entryId != "" && !(SETTINGS_BASE <= recorded.pointer)
    requires LocateProvenancePointer(patch, settings, recorded).At?
    ensures exists path ::
      && OnlyMatch(patch, recorded, path)
      && ConfigBindingSuffix(recorded.pointer).Some?
      && InsideEntry(Root(patch, settings), LocateProvenancePointer(patch, settings, recorded),
                     BasePath(Patch) + path, ConfigBindingSuffix(recorded.pointer).value, recorded)
  {
    var root := Root(patch, settings);
    LocateEntryExact(root, patch, recorded);
    var suffix := ConfigBindingSuffix(recorded.pointer).value;
    var path :| OnlyMatch(patch, recorded, path);
    EntryInRoot(patch, settings, path);
    ConfigSuffix(recorded.pointer);
    EnsureLeafInside(root, BasePath(Patch) + path, suffix, recorded);
  }

  // ---- the suffix taken from a recorded pointer ----

  /** A token between slashes is the word exactly when the text there is. */
  lemma WordBetweenSlashes(word: string, token: string, rest: string)
    requires '/' !in word && '/' !in token && rest != "" && rest[0] == '/'
    ensures "/" + word + "/" <= "/" + token + rest <==> token == word
  {
    var pattern, text := "/" + word + "/", "/" + token + rest;
    assert text[1 + |token|] == '/' && pattern[1 + |word|] == '/';
    assert forall i :: 0 <= i < |token| ==> text[1 + i] == token[i] != '/';
    assert forall i :: 0 <= i < |word| ==> pattern[1 + i] == word[i] != '/';
    if pattern <= text {
      assert forall i :: 0 <= i < |pattern| ==> pattern[i] == text[i];
      assert |word| == |token|;
      assert word == pattern[1..1 + |word|] && token == text[1..1 + |token|];
    }
    if token == word {
      assert text == pattern + rest[1..];
    }
  }

  lemma TokenIsWord(key: string, word: string)
    requires Plain(word)
    ensures JsonPointerToken(key) == word <==> key == word
  {
    ReplaceCharAbsent(word, '~', "~0");
    ReplaceCharAbsent(word, '/', "~1");
    TokenRoundTrip(key);
    TokenRoundTrip(word);
  }

  lemma RenderHead(path: seq<string>, suffix: string)
    requires path != []
    ensures Render(path) + suffix == "/" + JsonPointerToken(path[0]) + (Render(path[1..]) + suffix)
  {
    var head, below := "/" + JsonPointerToken(path[0]), Render(path[1..]);
    assert Render(path) == head + below;
    Regroup(head, below, suffix);
  }

  /** The pattern at the start of a rendered path is its first token being the word. */
  lemma PatternAtStart(path: seq<string>, word: string, suffix: string)
    requires path != [] && Plain(word) && suffix != "" && suffix[0] == '/'
    ensures "/" + word + "/" <= Render(path) + suffix <==> path[0] == word
  {
    var token, rest := JsonPointerToken(path[0]), Render(path[1..]) + suffix;
    TokenHasNoSlash(path[0]);
    RenderHead(path, suffix);
    assert rest[0] == '/';
    WordBetweenSlashes(word, token, rest);
    TokenIsWord(path[0], word);
  }

  /** The text of a rendered path from one position on, past its first slash. */
  lemma PastFirstSlash(path: seq<string>, suffix: string, k: nat)
    requires path != [] && 0 < k < |Render(path)|
    ensures var token := JsonPointerToken(path[0]);
            if k <= |token| then (Render(path) + suffix)[k] != '/'
            else (Render(path) + suffix)[k..] == (Render(path[1..]) + suffix)[k - 1 - |token|..]
  {
    var token, rest := JsonPointerToken(path[0]), Render(path[1..]) + suffix;
    TokenHasNoSlash(path[0]);
    RenderHead(path, suffix);
    PastSlash(token, rest, k);
  }

  lemma PastSlash(token: string, rest: string, k: nat)
    requires '/' !in token && 0 < k < 1 + |token| + |rest|
    ensures var text := "/" + token + rest;
            if k <= |token| then text[k] != '/' else text[k..] == rest[k - 1 - |token|..]
  {
    var text := "/" + token + rest;
    if k <= |token| {
      assert text[k] == token[k - 1];
    }
  }

  lemma {:induction false} NoWordInside(path: seq<string>, word: string, suffix: string, k: nat)
    requires word !in path && Plain(word) && suffix != "" && suffix[0] == '/' && k < |Render(path)|
    ensures !("/" + word + "/" <= (Render(path) + suffix)[k..])
    decreases |path|
  {
    if k == 0 {
      PatternAtStart(path, word, suffix);
      assert (Render(path) + suffix)[0..] == Render(path) + suffix;
    } else {
      PastFirstSlash(path, suffix, k);
      var token := JsonPointerToken(path[0]);
      if k > |token| {
        NoWordInside(path[1..], word, suffix, k - 1 - |token|);
      } else {
        assert (Render(path) + suffix)[k..][0] == (Render(path) + suffix)[k];
        assert ("/" + word + "/")[0] == '/';
      }
    }
  }

  lemma {:induction false} WordInside(path: seq<string>, word: string, suffix: string) returns (k: nat)
    requires word in path && Plain(word) && suffix != "" && suffix[0] == '/'
    ensures k < |Render(path)| && "/" + word + "/" <= (Render(path) + suffix)[k..]
    decreases |path|
  {
    if path[0] == word {
      k := 0;
      PatternAtStart(path, word, suffix);
      assert (Render(path) + suffix)[0..] == Render(path) + suffix;
    } else {
      var below := WordInside(path[1..], word, suffix);
      k := below + 1 + |JsonPointerToken(path[0])|;
      PastFirstSlash(path, suffix, k);
    }
  }

  predicate IsConfigSuffix(suffix: string) { suffix == "/config" || "/config/" <= suffix }

  /** The suffix taken from a pointer is the one below its entry exactly when the
      entry is not inside a group: of a grouped row's pointer the part below the
      outermost group is taken. */
  lemma SuffixIsBelowEntry(path: seq<string>, suffix: string)
    requires IsConfigSuffix(suffix)
    ensures ConfigBindingSuffix(Render(path) + suffix) == Some(suffix) <==> "config" !in path
  {
    SuffixByWord("config", "/config/", path, suffix);
  }

  lemma SuffixByWord(word: string, pattern: string, path: seq<string>, suffix: string)
    requires word == "config" && pattern == "/config/" && IsConfigSuffix(suffix)
    ensures ConfigBindingSuffix(Render(path) + suffix) == Some(suffix) <==> word !in path
  {
    ConfigShape(word, suffix);
    assert pattern == "/" + word + "/";
    var text, top := Render(path) + suffix, |Render(path)|;
    var i := IndexOf(text, pattern, 0);
    assert text[top..] == suffix;
    if word in path {
      var k := WordInside(path, word, suffix);
      assert i < top && |text[i..]| > |suffix|;
    } else {
      forall k | 0 <= k < top ensures !(pattern <= text[k..]) {
        NoWordInside(path, word, suffix, k);
      }
      if pattern <= suffix {
        assert i == top;
      } else {
        assert |suffix| == 7 && |pattern| == 8;
        assert i == |text|;
        assert text[|text| - 7..] == suffix;
      }
    }
  }

  lemma NotSettings(rest: string)
    ensures !(SETTINGS_BASE <= BasePointer(Patch) + rest)
  {
    var text := BasePointer(Patch) + rest;
    assert BasePointer(Patch)[9] == 'p' && text[9] == 'p' && SETTINGS_BASE[9] == 's';
  }

  lemma NoConfigAbove(path: seq<string>)
    requires "config" !in path
    ensures "config" !in BasePath(Patch) + path
  {
    assert "config"[0] == 'c' && "patch"[0] == 'p';
  }

  lemma RecordedPointer(path: seq<string>, suffix: string)
    requires IsConfigSuffix(suffix) && "config" !in path
    ensures var pointer := Render(BasePath(Patch) + path) + suffix;
            ConfigBindingSuffix(pointer) == Some(suffix) && !(SETTINGS_BASE <= pointer)
  {
    NoConfigAbove(path);
    SuffixIsBelowEntry(BasePath(Patch) + path, suffix);
    BasePointerRendered(Patch);
    RenderAppend(BasePath(Patch), path);
    NotSettings(Render(path) + suffix);
    Regroup(BasePointer(Patch), Render(path), suffix);
  }

  lemma EntrySearch(patch: Json, settings: Json, recorded: Recorded)
    requires ConfigBindingSuffix(recorded.pointer).Some? && !(SETTINGS_BASE <= recorded.pointer) && recorded.entryId != ""
    ensures LocateProvenancePointer(patch, settings, recorded) == LocateEntry(Root(patch, settings), patch, recorded)
  {
    assert ConfigBindingSuffix("").None? by {
      assert IndexOf("", "/config/", 0) == 0;
    }
  }

  /** Recorded below an entry outside any group, and located after any reordering or
      move of the entries: the pointer found is the same suffix below the entry's new
      place. */
  lemma RecordThenLocate(patch: Json, settings: Json, recorded: Recorded, recordedPath: seq<string>,
                         path: seq<string>, suffix: string)
    requires IsConfigSuffix(suffix) && "config" !in recordedPath && recorded.entryId != ""
    requires recorded.pointer == Render(BasePath(Patch) + recordedPath) + suffix
    requires OnlyMatch(patch, recorded, path)
    ensures LocateProvenancePointer(patch, settings, recorded)
         == EnsureLeaf(Root(patch, settings), Render(BasePath(Patch) + path) + suffix)
  {
    RecordedPointer(recordedPath, suffix);
    EntrySearch(patch, settings, recorded);
    LocateEntryExact(Root(patch, settings), patch, recorded);
  }

  // ---- the whole search, in what the paths read ----

  /** The pointer is found exactly when its place exists, or can be added to an object
      that does; the tree is then untouched, or has one null more, at that place. */
  ghost predicate FoundAt(root: Json, pointer: string, r: Location) {
    if pointer == "" || pointer[0] != '/' then r == Missing
    else
      var path := Tokens(pointer);
      var last := |path| - 1;
      if Walk(root, path).Some? then r == At(root, pointer)
      else if last >= 1 && path[last] != "" && Walk(root, path[..last]).Some? && Walk(root, path[..last]).value.Obj? then
        && r.At? && r.pointer == pointer && Walk(r.root, path) == Some(Null)
        && forall q :: !(path <= q) && !(q <= path) ==> Walk(r.root, q) == Walk(root, q)
      else r == Missing
  }

  lemma EnsureLeafFinds(root: Json, pointer: string)
    ensures FoundAt(root, pointer, EnsureLeaf(root, pointer))
  {
    EnsureLeafExact(root, pointer);
    if pointer != "" && pointer[0] == '/' {
      var path := Tokens(pointer);
      var r := EnsureLeaf(root, pointer);
      if r.At? && !Exists(root, pointer) {
        SetAtReads(root, path, Null, path);
        assert path[|path|..] == [];
        forall q | !(path <= q) && !(q <= path) ensures Walk(r.root, q) == Walk(root, q) {
          SetAtReads(root, path, Null, q);
        }
      }
    }
  }

  /** The entry at the path has the recorded id, and the recorded name if there is one. */
  ghost predicate IsRecordedEntry(patch: Json, recorded: Recorded, path: seq<string>) {
    && EntryAt(patch, path).Some?
    && Walk(patch, path + ["id"]) == Some(Str(recorded.entryId))
    && (recorded.entryName != "" ==> Walk(patch, path + ["name"]) == Some(Str(recorded.entryName)))
  }

  lemma MatchesRead(patch: Json, recorded: Recorded, path: seq<string>)
    ensures MatchesAt(patch, recorded, path) <==> IsRecordedEntry(patch, recorded, path)
  {
    if EntryAt(patch, path).Some? {
      EntryAtWalks(patch, path);
      WalkAppend(patch, path, ["id"]);
      WalkAppend(patch, path, ["name"]);
      assert ["id"][1..] == [] && ["name"][1..] == [];
    }
  }

  lemma OnlyMatchReads(patch: Json, recorded: Recorded, path: seq<string>)
    ensures OnlyMatch(patch, recorded, path) <==>
              IsRecordedEntry(patch, recorded, path) &&
              forall other :: IsRecordedEntry(patch, recorded, other) ==> other == path
  {
    MatchesRead(patch, recorded, path);
    forall other ensures MatchesAt(patch, recorded, other) <==> IsRecordedEntry(patch, recorded, other) {
      MatchesRead(patch, recorded, other);
    }
  }

  /** Without an entry: nothing for an empty pointer; under the settings the place, or
      the one that can be added; elsewhere only a place that exists. */
  lemma LocateWithoutEntry(patch: Json, settings: Json, recorded: Recorded)
    requires recorded.pointer == "" || "/profile/settings" <= recorded.pointer || recorded.entryId == ""
    ensures var r, root := LocateProvenancePointer(patch, settings, recorded), Root(patch, settings);
            if recorded.pointer == "" then r == Missing
            else if "/profile/settings" <= recorded.pointer then FoundAt(root, recorded.pointer, r)
            else r == if recorded.pointer[0] == '/' && Walk(root, Tokens(recorded.pointer)).Some?
                      then At(root, recorded.pointer) else Missing
  {
    EnsureLeafFinds(Root(patch, settings), recorded.pointer);
  }

  /** With one: the config suffix of the pointer is searched below the one entry that has
      the recorded id and name; without a suffix, or with no or several such entries,
      nothing is found. */
  lemma LocateByEntry(patch: Json, settings: Json, recorded: Recorded)
    requires recorded.pointer != "" && !("/profile/settings" <= recorded.pointer) && recorded.entryId != ""
    ensures var r, root := LocateProvenancePointer(patch, settings, recorded), Root(patch, settings);
            var suffix := ConfigBindingSuffix(recorded.pointer);
            && (suffix.None? ==> r == Missing)
            && ((forall path :: !OnlyMatch(patch, recorded, path)) ==> r == Missing)
            && (forall path :: suffix.Some? && OnlyMatch(patch, recorded, path) ==>
                  FoundAt(root, Render(BasePath(Patch) + path) + suffix.value, r))
  {
    LocateEntryExact(Root(patch, settings), patch, recorded);
    var suffix := ConfigBindingSuffix(recorded.pointer);
    forall path | suffix.Some? && OnlyMatch(patch, recorded, path)
      ensures FoundAt(Root(patch, settings), Render(BasePath(Patch) + path) + suffix.value,
                      LocateProvenancePointer(patch, settings, recorded))
    {
      EnsureLeafFinds(Root(patch, settings), Render(BasePath(Patch) + path) + suffix.value);
    }
  }
}
