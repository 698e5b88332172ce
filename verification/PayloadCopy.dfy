/** Validation of a payload package and its copy into a new place. */
module PayloadCopy {
  import opened Basics
  import opened PayloadManifest

  /** What reading a regular file of the package yields; `identity` is the name and
      version in it, when it is a package manifest. */
  datatype Content = Content(sha256: string, size: nat, identity: Option<(string, string)>)

  /** A package directory: its payload manifest, when one can be read, and its regular files. */
  datatype Package = Package(manifest: Option<Manifest>, files: map<string, Content>)

  /** The platform's view of paths and versions. */
  datatype Platform = Platform(
    exact: string -> bool, portable: string -> bool, isManifest: string -> bool, fold: string -> string)

  /** One row of the tables that fix the five components. */
  datatype Row = Row(name: string, packageName: string, entry: string, identity: string, required: seq<string>)

  function Table(): seq<Row> {
    [Row("supervisor", "@dsh-spaces/supervisor", "lib/supervisor/index.js", "lib/supervisor/package.json",
         ["lib/supervisor/package.json", "lib/supervisor/index.js", "lib/supervisor/launcher.mjs"]),
     Row("manager-plugin", "@dsh-spaces/plugin", "lib/index.js", "package.json",
         ["package.json", "cordis.patch.yml", "lib/index.js", "lib/typert.host.js", "lib/typert.remote-client.js",
          "lib/client.js"]),
     Row("view-bridge", "@dsh-spaces/view-bridge", "lib/view-bridge/lib/index.js", "lib/view-bridge/package.json",
         ["lib/view-bridge/package.json", "lib/view-bridge/cordis.patch.yml", "lib/view-bridge/lib/index.js",
          "lib/view-bridge/lib/client.js", "lib/view-bridge/lib/settings.js"]),
     Row("llm-bridge", "@dsh-spaces/llm-bridge", "lib/llm-bridge/lib/index.js", "lib/llm-bridge/package.json",
         ["lib/llm-bridge/package.json", "lib/llm-bridge/cordis.patch.yml", "lib/llm-bridge/lib/index.js"]),
     Row("installation-worker", "@dsh-spaces/supervisor", "lib/supervisor/snapshot-worker.mjs",
         "lib/supervisor/package.json", ["lib/supervisor/snapshot-worker.mjs"])]
  }

  /** Each identity file is among the files some component must list. */
  predicate GoodTable(table: seq<Row>) {
    |table| == COUNT && forall i :: 0 <= i < COUNT ==> IdentityRequired(table, i)
  }

  predicate IdentityRequired(table: seq<Row>, i: nat)
    requires i < |table|
  {
    exists k :: 0 <= k < |table| && table[i].identity in table[k].required
  }

  lemma SourceTableGood()
    ensures GoodTable(Table())
  {
    var t := Table();
    assert t[0].identity == t[0].required[0] == t[4].identity;
    assert t[1].identity == t[1].required[0];
    assert t[2].identity == t[2].required[0];
    assert t[3].identity == t[3].required[0];
  }

  predicate FileShape(f: File, p: Platform) {
    p.portable(f.path) && f.path != "lib/supervisor/manifest.json" && HexDigest(f.sha256)
  }

  predicate ComponentShape(c: Component, row: Row, p: Platform) {
    && c.name == row.name && c.packageName == row.packageName && c.entry == row.entry
    && c.source == "bundled" && c.protocolVersion == VERSION && p.exact(c.version)
    && c.files != [] && forall f :: f in c.files ==> FileShape(f, p)
  }

  /** What parsing a manifest requires. */
  predicate Shape(m: Manifest, table: seq<Row>, p: Platform) {
    && m.schemaVersion == VERSION && m.protocolVersion == VERSION && m.entry == "index.js" && p.exact(m.version)
    && |m.components| == COUNT == |table|
    && (forall i :: 0 <= i < COUNT ==> ComponentShape(m.components[i], table[i], p))
    && m.version == m.components[0].version
  }

  lemma ShapeOfNormal(m: Manifest, table: seq<Row>, p: Platform, collation: string -> real)
    requires Shape(m, table, p)
    ensures Shape(NormalizeManifest(m, collation), table, p)
  {
    var n := NormalizeManifest(m, collation);
    forall i | 0 <= i < COUNT ensures ComponentShape(n.components[i], table[i], p) {
      var c, d := m.components[i], n.components[i];
      assert |multiset(d.files)| == |multiset(c.files)|;
      forall f | f in d.files ensures FileShape(f, p) {
        assert f in multiset(d.files);
      }
    }
  }

  // ---- the declared files against the disk ----

  /** The file is there, regular, and is what the manifest says. */
  predicate Matches(f: File, files: map<string, Content>, p: Platform) {
    !p.isManifest(f.path) && f.path in files && files[f.path].size == f.size && files[f.path].sha256 == f.sha256
  }

  /** All match, and no path or real file is declared twice. */
  ghost predicate AllMatch(list: seq<File>, files: map<string, Content>, p: Platform) {
    && (forall i :: 0 <= i < |list| ==> Matches(list[i], files, p))
    && forall i, j :: 0 <= i < j < |list| ==>
         list[i].path != list[j].path && p.fold(list[i].path) != p.fold(list[j].path)
  }

  predicate Lists(c: Component, path: string) {
    exists i :: 0 <= i < |c.files| && c.files[i].path == path
  }

  /** The identity on disk is the component's. */
  predicate IdentityMatches(c: Component, row: Row, files: map<string, Content>) {
    row.identity in files && files[row.identity].identity == Some((c.packageName, c.version))
  }

  /** The component lists its entry and all it must. */
  predicate ListsRequired(c: Component, row: Row) {
    (forall path :: path in row.required ==> Lists(c, path)) && Lists(c, c.entry)
  }

  ghost predicate Declared(m: Manifest, table: seq<Row>, files: map<string, Content>, p: Platform)
    requires |m.components| == COUNT == |table|
  {
    && (forall i :: 0 <= i < COUNT ==> IdentityMatches(m.components[i], table[i], files))
    && (forall i :: 0 <= i < COUNT ==> ListsRequired(m.components[i], table[i]))
    && AllMatch(AllFiles(m.components), files, p)
  }

  lemma AllMatchPrefix(list: seq<File>, more: seq<File>, files: map<string, Content>, p: Platform)
    requires AllMatch(list + more, files, p)
    ensures AllMatch(list, files, p)
  {
    forall i | 0 <= i < |list| ensures Matches(list[i], files, p) {
      assert (list + more)[i] == list[i];
    }
    forall i, j | 0 <= i < j < |list| ensures list[i].path != list[j].path && p.fold(list[i].path) != p.fold(list[j].path) {
      assert (list + more)[i] == list[i] && (list + more)[j] == list[j];
    }
  }

  /** The sets of paths and of real files seen so far. */
  ghost predicate Seen(list: seq<File>, seen: set<string>, seenReal: set<string>, p: Platform) {
    && (forall s :: s in seen <==> exists i :: 0 <= i < |list| && list[i].path == s)
    && (forall s :: s in seenReal <==> exists i :: 0 <= i < |list| && p.fold(list[i].path) == s)
  }

  lemma AllMatchStep(list: seq<File>, f: File, seen: set<string>, seenReal: set<string>,
                     files: map<string, Content>, p: Platform)
    requires AllMatch(list, files, p) && Seen(list, seen, seenReal, p)
    ensures AllMatch(list + [f], files, p) <==>
            Matches(f, files, p) && f.path !in seen && p.fold(f.path) !in seenReal
  {
    var longer := list + [f];
    assert forall i :: 0 <= i < |list| ==> longer[i] == list[i];
    if AllMatch(longer, files, p) {
      assert Matches(longer[|list|], files, p);
    }
  }

  lemma SeenStep(list: seq<File>, f: File, seen: set<string>, seenReal: set<string>, p: Platform)
    requires Seen(list, seen, seenReal, p)
    ensures Seen(list + [f], seen + {f.path}, seenReal + {p.fold(f.path)}, p)
  {
    var longer := list + [f];
    assert forall i :: 0 <= i < |list| ==> longer[i] == list[i];
    assert longer[|list|] == f;
  }

  method CheckFiles(list: seq<File>, files: map<string, Content>, p: Platform, seen0: set<string>, seenReal0: set<string>,
                    ghost before: seq<File>)
    returns (ok: bool, seen: set<string>, seenReal: set<string>)
    requires AllMatch(before, files, p) && Seen(before, seen0, seenReal0, p)
    ensures ok <==> AllMatch(before + list, files, p)
    ensures ok ==> Seen(before + list, seen, seenReal, p)
  {
    seen, seenReal := seen0, seenReal0;
    assert before + list[..0] == before;
    for k := 0 to |list|
      invariant AllMatch(before + list[..k], files, p) && Seen(before + list[..k], seen, seenReal, p)
    {
      var f := list[k];
      ghost var soFar := before + list[..k];
      assert before + list[..k + 1] == soFar + [f];
      assert before + list == (soFar + [f]) + list[k + 1..];
      AllMatchStep(soFar, f, seen, seenReal, files, p);
      if f.path in seen || !Matches(f, files, p) || p.fold(f.path) in seenReal {
        if AllMatch(before + list, files, p) {
          AllMatchPrefix(soFar + [f], list[k + 1..], files, p);
        }
        return false, seen, seenReal;
      }
      SeenStep(soFar, f, seen, seenReal, p);
      seen, seenReal := seen + {f.path}, seenReal + {p.fold(f.path)};
    }
    assert before + list[..|list|] == before + list;
    ok := true;
  }

  lemma AllFilesCons(c: Component, rest: seq<Component>)
    ensures AllFiles([c] + rest) == c.files + AllFiles(rest)
  {
    assert ([c] + rest)[1..] == rest;
  }

  lemma {:induction false} AllFilesConcat(a: seq<Component>, b: seq<Component>)
    ensures AllFiles(a + b) == AllFiles(a) + AllFiles(b)
  {
    if a == [] {
      assert a + b == b;
    } else {
      var c, rest := a[0], a[1..];
      AllFilesConcat(rest, b);
      AllFilesCons(c, rest);
      AllFilesCons(c, rest + b);
      assert a == [c] + rest && a + b == [c] + (rest + b);
      Regroup(c.files, AllFiles(rest), AllFiles(b));
    }
  }

  lemma AllFilesAppend(components: seq<Component>, c: Component)
    ensures AllFiles(components + [c]) == AllFiles(components) + c.files
  {
    AllFilesConcat(components, [c]);
    AllFilesCons(c, []);
    assert [c] + [] == [c] && c.files + [] == c.files;
  }

  lemma AllFilesSplit(components: seq<Component>, k: nat)
    requires k < |components|
    ensures AllFiles(components[..k + 1]) == AllFiles(components[..k]) + components[k].files
  {
    AllFilesAppend(components[..k], components[k]);
    assert components[..k + 1] == components[..k] + [components[k]];
  }

  /** The first k components are as declared, and so are their files. */
  ghost predicate DeclaredUpTo(m: Manifest, table: seq<Row>, files: map<string, Content>, p: Platform, k: nat)
    requires |m.components| == COUNT == |table| && k <= COUNT
  {
    && (forall i :: 0 <= i < k ==> IdentityMatches(m.components[i], table[i], files))
    && (forall i :: 0 <= i < k ==> ListsRequired(m.components[i], table[i]))
    && AllMatch(AllFiles(m.components[..k]), files, p)
  }

  lemma DeclaredNeedsPart(m: Manifest, table: seq<Row>, files: map<string, Content>, p: Platform, k: nat)
    requires |m.components| == COUNT == |table| && k <= COUNT && Declared(m, table, files, p)
    ensures DeclaredUpTo(m, table, files, p, k)
  {
    AllFilesConcat(m.components[..k], m.components[k..]);
    assert m.components == m.components[..k] + m.components[k..];
    AllMatchPrefix(AllFiles(m.components[..k]), AllFiles(m.components[k..]), files, p);
  }

  /** One round: identity and listing of the component, then its files. */
  method CheckComponent(m: Manifest, table: seq<Row>, files: map<string, Content>, p: Platform, k: nat,
                        seen0: set<string>, seenReal0: set<string>)
    returns (ok: bool, seen: set<string>, seenReal: set<string>)
    requires |m.components| == COUNT == |table| && k < COUNT && DeclaredUpTo(m, table, files, p, k)
    requires Seen(AllFiles(m.components[..k]), seen0, seenReal0, p)
    ensures ok <==> DeclaredUpTo(m, table, files, p, k + 1)
    ensures ok ==> Seen(AllFiles(m.components[..k + 1]), seen, seenReal, p)
  {
    AllFilesSplit(m.components, k);
    if !IdentityMatches(m.components[k], table[k], files) || !ListsRequired(m.components[k], table[k]) {
      return false, seen0, seenReal0;
    }
    ok, seen, seenReal := CheckFiles(m.components[k].files, files, p, seen0, seenReal0, AllFiles(m.components[..k]));
  }

  /** `assertDeclaredFiles`: it accepts exactly the packages whose disk is as declared. */
  method AssertDeclaredFiles(m: Manifest, table: seq<Row>, files: map<string, Content>, p: Platform) returns (ok: bool)
    requires |m.components| == COUNT == |table|
    ensures ok <==> Declared(m, table, files, p)
  {
    var seen: set<string>, seenReal: set<string> := {}, {};
    assert m.components[..0] == [];
    for k := 0 to COUNT
      invariant DeclaredUpTo(m, table, files, p, k) && Seen(AllFiles(m.components[..k]), seen, seenReal, p)
    {
      ok, seen, seenReal := CheckComponent(m, table, files, p, k, seen, seenReal);
      if !ok {
        if Declared(m, table, files, p) {
          DeclaredNeedsPart(m, table, files, p, k + 1);
        }
        return false;
      }
    }
    assert m.components[..COUNT] == m.components;
    ok := true;
  }

  // ---- validation and copy ----

  datatype Validated = Validated(manifest: Manifest, digest: string, files: seq<File>)

  datatype Setting = Setting(table: seq<Row>, env: Env, platform: Platform, sha256: string -> string)

  ghost predicate IsValid(pkg: Package, s: Setting) {
    && pkg.manifest.Some? && Shape(pkg.manifest.value, s.table, s.platform)
    && Declared(NormalizeManifest(pkg.manifest.value, s.env.collation), s.table, pkg.files, s.platform)
  }

  /** What validation returns for a manifest with all components. */
  function View(pkg: Package, s: Setting): Option<Validated>
    requires GoodKeys(s.env.keys)
  {
    if pkg.manifest.None? || |pkg.manifest.value.components| != COUNT then None
    else
      var n := NormalizeManifest(pkg.manifest.value, s.env.collation);
      Some(Validated(n, s.sha256(DigestText(n, s.env)), DeclaredFiles(n, s.env.collation)))
  }

  method Validate(pkg: Package, s: Setting) returns (r: Option<Validated>)
    requires GoodKeys(s.env.keys)
    ensures r.Some? <==> IsValid(pkg, s)
    ensures r.Some? ==> r == View(pkg, s)
  {
    if pkg.manifest.None? || !Shape(pkg.manifest.value, s.table, s.platform) {
      return None;
    }
    var n := NormalizeManifest(pkg.manifest.value, s.env.collation);
    var ok := AssertDeclaredFiles(n, s.table, pkg.files, s.platform);
    return if ok then View(pkg, s) else None;
  }

  /** The copy has the declared files of the source and nothing else. */
  ghost predicate CopiedFiles(list: seq<File>, source: map<string, Content>, copied: map<string, Content>) {
    && (forall path :: path in copied <==> exists i :: 0 <= i < |list| && list[i].path == path)
    && forall path :: path in copied ==> path in source && copied[path] == source[path]
  }

  lemma {:induction false} AllFilesHas(components: seq<Component>, k: nat, f: File)
    requires k < |components| && f in components[k].files
    ensures f in AllFiles(components)
  {
    if k == 0 {
    } else {
      AllFilesHas(components[1..], k - 1, f);
    }
  }

  /** Every path a component lists, and with it every identity file, is copied. */
  lemma ListedIsCopied(n: Manifest, k: nat, path: string, list: seq<File>, source: map<string, Content>, copied: map<string, Content>)
    requires k < |n.components| && Lists(n.components[k], path)
    requires multiset(list) == multiset(AllFiles(n.components)) && CopiedFiles(list, source, copied)
    ensures path in copied
  {
    var i :| 0 <= i < |n.components[k].files| && n.components[k].files[i].path == path;
    var f := n.components[k].files[i];
    AllFilesHas(n.components, k, f);
    assert f in multiset(list);
  }

  lemma IdentityIsCopied(n: Manifest, i: nat, list: seq<File>, source: map<string, Content>, copied: map<string, Content>,
                         table: seq<Row>)
    requires |n.components| == COUNT && GoodTable(table) && i < COUNT
    requires forall k :: 0 <= k < COUNT ==> ListsRequired(n.components[k], table[k])
    requires multiset(list) == multiset(AllFiles(n.components)) && CopiedFiles(list, source, copied)
    ensures table[i].identity in copied
  {
    assert IdentityRequired(table, i);
    var k :| 0 <= k < COUNT && table[i].identity in table[k].required;
    assert ListsRequired(n.components[k], table[k]);
    ListedIsCopied(n, k, table[i].identity, list, source, copied);
  }

  lemma MatchesCopied(all: seq<File>, list: seq<File>, source: map<string, Content>, copied: map<string, Content>, p: Platform)
    requires multiset(list) == multiset(all) && CopiedFiles(list, source, copied) && AllMatch(all, source, p)
    ensures AllMatch(all, copied, p)
  {
    forall i | 0 <= i < |all| ensures Matches(all[i], copied, p) {
      assert Matches(all[i], source, p);
      assert all[i] in multiset(list);
    }
  }

  /** A full copy is as declared whenever the source is. */
  lemma CopyIsDeclared(n: Manifest, list: seq<File>, source: map<string, Content>, copied: map<string, Content>,
                       table: seq<Row>, p: Platform)
    requires |n.components| == COUNT && GoodTable(table) && Declared(n, table, source, p)
    requires multiset(list) == multiset(AllFiles(n.components)) && CopiedFiles(list, source, copied)
    ensures Declared(n, table, copied, p)
  {
    forall i | 0 <= i < COUNT ensures IdentityMatches(n.components[i], table[i], copied) {
      IdentityIsCopied(n, i, list, source, copied, table);
      assert IdentityMatches(n.components[i], table[i], source);
    }
    MatchesCopied(AllFiles(n.components), list, source, copied, p);
  }

  lemma DeclaredArePresent(n: Manifest, list: seq<File>, source: map<string, Content>, table: seq<Row>, p: Platform)
    requires |n.components| == COUNT == |table| && Declared(n, table, source, p)
    requires multiset(list) == multiset(AllFiles(n.components))
    ensures forall i :: 0 <= i < |list| ==> list[i].path in source
  {
    var all := AllFiles(n.components);
    forall i | 0 <= i < |list| ensures list[i].path in source {
      assert list[i] in multiset(all);
      var k :| 0 <= k < |all| && all[k] == list[i];
      assert Matches(all[k], source, p);
    }
  }

  /** The package a full copy makes is valid and is seen as the source is. */
  lemma CopyIsValid(source: Package, n: Manifest, copied: map<string, Content>, s: Setting)
    requires GoodKeys(s.env.keys) && GoodTable(s.table) && IsValid(source, s)
    requires n == NormalizeManifest(source.manifest.value, s.env.collation)
    requires CopiedFiles(DeclaredFiles(n, s.env.collation), source.files, copied)
    ensures IsValid(Package(Some(n), copied), s)
    ensures View(Package(Some(n), copied), s) == View(source, s)
  {
    NormalizeTwice(source.manifest.value, s.env.collation);
    ShapeOfNormal(source.manifest.value, s.table, s.platform, s.env.collation);
    CopyIsDeclared(n, DeclaredFiles(n, s.env.collation), source.files, copied, s.table, s.platform);
  }

  datatype Fault = SourceInvalid | BadPlace | DifferentContent | NotFinished

  ghost predicate SameDigest(a: Package, b: Package, s: Setting)
    requires GoodKeys(s.env.keys)
  {
    View(a, s).Some? && View(b, s).Some? && View(a, s).value.digest == View(b, s).value.digest
  }

  /** The source is valid, the place is free of it, and either every write happens
      or a valid package with the same digest is already there. */
  ghost predicate CopyGoesThrough(source: Package, dest: Option<Package>, placeOk: bool, writes: nat -> bool, s: Setting)
    requires GoodKeys(s.env.keys)
  {
    && IsValid(source, s) && placeOk && View(source, s).Some?
    && match dest
       case Some(there) => IsValid(there, s) && SameDigest(source, there, s)
       case None => forall k :: 0 <= k <= |View(source, s).value.files| ==> writes(k)
  }

  /** `copyComponentPayload`. Write k happens if `writes(k)`; the manifest comes
      last. A copy that returns has the source's digest; one that is cut short
      leaves a directory that never validates. */
  method CopyPayload(source: Package, dest: Option<Package>, placeOk: bool, writes: nat -> bool, s: Setting)
    returns (r: Result<Validated, Fault>, after: Option<Package>)
    requires GoodKeys(s.env.keys) && GoodTable(s.table)
    ensures r.Ok? ==>
      && IsValid(source, s) && View(source, s).Some? && r.value.digest == View(source, s).value.digest
      && after.Some? && IsValid(after.value, s) && View(after.value, s) == Some(r.value)
    ensures r.Ok? && dest.None? ==>
      r.value == View(source, s).value && CopiedFiles(r.value.files, source.files, after.value.files)
    ensures r.Ok? <==> CopyGoesThrough(source, dest, placeOk, writes, s)
    ensures r == Err(SourceInvalid) <==> !IsValid(source, s)
    ensures r == Err(BadPlace) <==> IsValid(source, s) && !placeOk
    ensures r == Err(DifferentContent) <==>
      IsValid(source, s) && placeOk && dest.Some? && !(IsValid(dest.value, s) && SameDigest(source, dest.value, s))
    ensures dest.Some? ==> after == dest
    ensures r.Err? && dest.None? && after.Some? ==> !IsValid(after.value, s)
  {
    after := dest;
    var checked := Validate(source, s);
    if checked.None? {
      return Err(SourceInvalid), after;
    }
    if !placeOk {
      return Err(BadPlace), after;
    }
    var view := checked.value;
    if dest.Some? {
      var existing := Validate(dest.value, s);
      if existing.Some? && existing.value.digest == view.digest {
        return Ok(existing.value), after;
      }
      return Err(DifferentContent), after;
    }
    ViewFilesPresent(source, view, s);
    var copy, ok := CopyAll(source.files, view, writes);
    after := Some(copy);
    if !ok {
      return Err(NotFinished), after;
    }
    ViewCopyIsValid(source, view, copy.files, s);
    var validated := Validate(copy, s);
    r := Ok(validated.value);
  }

  lemma ViewFilesPresent(source: Package, view: Validated, s: Setting)
    requires GoodKeys(s.env.keys) && IsValid(source, s) && View(source, s) == Some(view)
    ensures forall i :: 0 <= i < |view.files| ==> view.files[i].path in source.files
  {
    DeclaredArePresent(view.manifest, view.files, source.files, s.table, s.platform);
  }

  lemma ViewCopyIsValid(source: Package, view: Validated, copied: map<string, Content>, s: Setting)
    requires GoodKeys(s.env.keys) && GoodTable(s.table) && IsValid(source, s) && View(source, s) == Some(view)
    requires CopiedFiles(view.files, source.files, copied)
    ensures IsValid(Package(Some(view.manifest), copied), s)
    ensures View(Package(Some(view.manifest), copied), s) == Some(view)
  {
    CopyIsValid(source, view.manifest, copied, s);
  }

  /** The declared files one by one, then the manifest. */
  method CopyAll(source: map<string, Content>, view: Validated, writes: nat -> bool) returns (copy: Package, ok: bool)
    requires forall i :: 0 <= i < |view.files| ==> view.files[i].path in source
    ensures ok <==> forall k :: 0 <= k <= |view.files| ==> writes(k)
    ensures ok ==> copy.manifest == Some(view.manifest) && CopiedFiles(view.files, source, copy.files)
    ensures !ok ==> copy.manifest.None?
  {
    var copied, done := CopyFiles(view.files, source, writes);
    ok := done && writes(|view.files|);
    copy := Package(if ok then Some(view.manifest) else None, copied);
  }

  lemma CopiedStep(list: seq<File>, f: File, source: map<string, Content>, copied: map<string, Content>)
    requires CopiedFiles(list, source, copied) && f.path in source
    ensures CopiedFiles(list + [f], source, copied[f.path := source[f.path]])
  {
    var longer := list + [f];
    assert forall i :: 0 <= i < |list| ==> longer[i] == list[i];
    assert longer[|list|] == f;
  }

  method CopyFiles(list: seq<File>, source: map<string, Content>, writes: nat -> bool)
    returns (copied: map<string, Content>, ok: bool)
    requires forall i :: 0 <= i < |list| ==> list[i].path in source
    ensures ok <==> forall k :: 0 <= k < |list| ==> writes(k)
    ensures ok ==> CopiedFiles(list, source, copied)
  {
    copied, ok := map[], false;
    for k := 0 to |list|
      invariant CopiedFiles(list[..k], source, copied) && !ok
      invariant forall i :: 0 <= i < k ==> writes(i)
    {
      if !writes(k) {
        return;
      }
      var f := list[k];
      CopiedStep(list[..k], f, source, copied);
      assert list[..k + 1] == list[..k] + [f];
      copied := copied[f.path := source[f.path]];
    }
    assert list[..|list|] == list;
    ok := true;
  }

  // ---- validity in the fields of manifest, table and files ----

  ghost predicate IdentitiesOnDisk(m: Manifest, table: seq<Row>, files: map<string, Content>)
    requires |m.components| == COUNT == |table|
  {
    forall i :: 0 <= i < COUNT ==>
      table[i].identity in files &&
      files[table[i].identity].identity == Some((m.components[i].packageName, m.components[i].version))
  }

  ghost predicate HasFile(c: Component, path: string) { exists f :: f in c.files && f.path == path }

  ghost predicate FilesListed(m: Manifest, table: seq<Row>)
    requires |m.components| == COUNT == |table|
  {
    forall i, path :: 0 <= i < COUNT && (path in table[i].required || path == m.components[i].entry) ==>
      HasFile(m.components[i], path)
  }

  ghost predicate FilesOnDisk(all: seq<File>, files: map<string, Content>, p: Platform) {
    forall f :: f in all ==>
      !p.isManifest(f.path) && f.path in files && files[f.path].size == f.size && files[f.path].sha256 == f.sha256
  }

  ghost predicate NothingTwice(all: seq<File>, p: Platform) {
    forall i, j :: 0 <= i < j < |all| ==> all[i].path != all[j].path && p.fold(all[i].path) != p.fold(all[j].path)
  }

  /** Declared: identities, listings, and every file at its size and hash, no path and no
      real file twice. */
  lemma DeclaredExactly(m: Manifest, table: seq<Row>, files: map<string, Content>, p: Platform)
    requires |m.components| == COUNT == |table|
    ensures Declared(m, table, files, p) <==>
              IdentitiesOnDisk(m, table, files) && FilesListed(m, table) &&
              FilesOnDisk(AllFiles(m.components), files, p) && NothingTwice(AllFiles(m.components), p)
  {
    IdentitiesIff(m, table, files);
    ListedIff(m, table);
    OnDiskIff(AllFiles(m.components), files, p);
  }

  lemma IdentitiesIff(m: Manifest, table: seq<Row>, files: map<string, Content>)
    requires |m.components| == COUNT == |table|
    ensures IdentitiesOnDisk(m, table, files) <==>
              forall i :: 0 <= i < COUNT ==> IdentityMatches(m.components[i], table[i], files)
  {
  }

  lemma ListsIff(c: Component, path: string)
    ensures Lists(c, path) <==> HasFile(c, path)
  {
    if f :| f in c.files && f.path == path {
      var i :| 0 <= i < |c.files| && c.files[i] == f;
      assert c.files[i].path == path;
    }
  }

  lemma ListedIff(m: Manifest, table: seq<Row>)
    requires |m.components| == COUNT == |table|
    ensures FilesListed(m, table) <==> forall i :: 0 <= i < COUNT ==> ListsRequired(m.components[i], table[i])
  {
    forall i, path | 0 <= i < COUNT ensures Lists(m.components[i], path) <==> HasFile(m.components[i], path) {
      ListsIff(m.components[i], path);
    }
  }

  lemma OnDiskIff(all: seq<File>, files: map<string, Content>, p: Platform)
    ensures FilesOnDisk(all, files, p) <==> forall i :: 0 <= i < |all| ==> Matches(all[i], files, p)
  {
    if forall i :: 0 <= i < |all| ==> Matches(all[i], files, p) {
      forall f | f in all ensures Matches(f, files, p) {
        var i :| 0 <= i < |all| && all[i] == f;
      }
    }
  }

  /** A manifest has the right shape exactly when its fixed members are right, and each
      component is its row's, with files at portable paths, none of them the manifest. */
  lemma ShapeExactly(m: Manifest, table: seq<Row>, p: Platform)
    requires |table| == COUNT
    ensures Shape(m, table, p) <==>
              && m.schemaVersion == m.protocolVersion == 2 && m.entry == "index.js" && p.exact(m.version)
              && |m.components| == 5 && m.components[0].version == m.version
              && forall i :: 0 <= i < |m.components| && i < |table| ==>
                   && m.components[i] == Component(table[i].name, table[i].packageName, m.components[i].version,
                        table[i].entry, "bundled", 2, m.components[i].files)
                   && p.exact(m.components[i].version) && m.components[i].files != []
                   && forall f :: f in m.components[i].files ==>
                        p.portable(f.path) && f.path != "lib/supervisor/manifest.json" && HexDigest(f.sha256)
  {
  }
}
