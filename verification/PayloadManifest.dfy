/** The component payload: its manifest in canonical order, the text its digest is
    taken of, the check of the declared files, and the copy. */
module PayloadManifest {
  import opened Basics
  import opened StableSort
  import opened JsonTree
  import Canonical = StableValue

  datatype File = File(path: string, sha256: string, size: nat)

  datatype Component = Component(
    name: string, packageName: string, version: string, entry: string,
    source: string, protocolVersion: int, files: seq<File>)

  /** The components stand in the fixed order of their names. */
  datatype Manifest = Manifest(
    schemaVersion: int, protocolVersion: int, version: string, entry: string, components: seq<Component>)

  const VERSION := 2
  const COUNT := 5

  /** Paths are compared by a collation key. */
  function ByPath(collation: string -> real): File -> real { (f: File) => collation(f.path) }

  function NormalizeComponent(c: Component, collation: string -> real): Component {
    Component(c.name, c.packageName, c.version, c.entry, "bundled", VERSION, Sort(c.files, ByPath(collation)))
  }

  function NormalizeManifest(m: Manifest, collation: string -> real): (r: Manifest)
    ensures |r.components| == |m.components|
    ensures forall i :: 0 <= i < |m.components| ==>
              multiset(r.components[i].files) == multiset(m.components[i].files)
  {
    Manifest(VERSION, VERSION, m.version, "index.js",
      seq(|m.components|, i requires 0 <= i < |m.components| => NormalizeComponent(m.components[i], collation)))
  }

  /** Normalizing a second time changes nothing, whatever the collation. */
  lemma NormalizeTwice(m: Manifest, collation: string -> real)
    ensures NormalizeManifest(NormalizeManifest(m, collation), collation) == NormalizeManifest(m, collation)
  {
    var n := NormalizeManifest(m, collation);
    forall i | 0 <= i < |m.components|
      ensures NormalizeComponent(n.components[i], collation) == n.components[i]
    {
      var files := m.components[i].files;
      SortSorted(files, ByPath(collation));
      SortOfSorted(Sort(files, ByPath(collation)), ByPath(collation));
    }
    assert NormalizeManifest(n, collation).components == n.components;
  }

  /** The same manifest but for the order in which each component lists its files. */
  ghost predicate Reordered(a: Manifest, b: Manifest) {
    && a.version == b.version && |a.components| == |b.components|
    && forall i :: 0 <= i < |a.components| ==>
         && b.components[i] == a.components[i].(files := b.components[i].files)
         && multiset(a.components[i].files) == multiset(b.components[i].files)
  }

  /** Different files never compare as equal. */
  ghost predicate Told(m: Manifest, collation: string -> real) {
    forall i :: 0 <= i < |m.components| ==> Separated(m.components[i].files, ByPath(collation))
  }

  /** Every reordering has the same normal form exactly when the collation tells the
      files of each component apart; a collation may equate different paths. */
  lemma OrderForgottenExactly(m: Manifest, collation: string -> real)
    ensures (forall p :: Reordered(m, p) ==> NormalizeManifest(p, collation) == NormalizeManifest(m, collation)) <==>
            Told(m, collation)
  {
    if Told(m, collation) {
      forall p | Reordered(m, p) ensures NormalizeManifest(p, collation) == NormalizeManifest(m, collation) {
        ReorderedAlike(m, p, collation);
      }
    } else {
      var p := SeenOrder(m, collation);
    }
  }

  function WithFiles(m: Manifest, i: nat, files: seq<File>): (p: Manifest)
    requires i < |m.components| && multiset(files) == multiset(m.components[i].files)
    ensures Reordered(m, p) && p.components[i].files == files
  {
    m.(components := m.components[i := m.components[i].(files := files)])
  }

  lemma SeenOrder(m: Manifest, collation: string -> real) returns (p: Manifest)
    requires !Told(m, collation)
    ensures Reordered(m, p) && NormalizeManifest(p, collation) != NormalizeManifest(m, collation)
  {
    var i: nat :| i < |m.components| && !Separated(m.components[i].files, ByPath(collation));
    var files := OrderKept(m.components[i].files, ByPath(collation));
    p := WithFiles(m, i, files);
    assert NormalizeManifest(p, collation).components[i].files == Sort(files, ByPath(collation));
    assert NormalizeManifest(m, collation).components[i].files == Sort(m.components[i].files, ByPath(collation));
  }

  lemma ReorderedAlike(m: Manifest, p: Manifest, collation: string -> real)
    requires Reordered(m, p) && Told(m, collation)
    ensures NormalizeManifest(p, collation) == NormalizeManifest(m, collation)
  {
    forall i | 0 <= i < |m.components|
      ensures NormalizeComponent(p.components[i], collation) == NormalizeComponent(m.components[i], collation)
    {
      SortIgnoresOrder(m.components[i].files, p.components[i].files, ByPath(collation));
    }
    assert NormalizeManifest(p, collation).components == NormalizeManifest(m, collation).components;
  }

  // ---- the declared files ----

  function AllFiles(components: seq<Component>): seq<File> {
    if components == [] then [] else components[0].files + AllFiles(components[1..])
  }

  function DeclaredFiles(m: Manifest, collation: string -> real): seq<File> {
    Sort(AllFiles(m.components), ByPath(collation))
  }

  // ---- the text under the digest ----

  /** The member names of the three kinds of object, and the component names. */
  datatype Keys = Keys(file: seq<string>, component: seq<string>, manifest: seq<string>, names: seq<string>)

  function SourceKeys(): Keys {
    Keys(["path", "sha256", "size"],
         ["name", "packageName", "version", "entry", "source", "protocolVersion", "files"],
         ["schemaVersion", "protocolVersion", "version", "entry", "components"],
         ["supervisor", "manager-plugin", "view-bridge", "llm-bridge", "installation-worker"])
  }

  predicate Distinct(names: seq<string>) {
    forall i, j :: 0 <= i < j < |names| ==> names[i] != names[j]
  }

  predicate GoodKeys(keys: Keys) {
    && |keys.file| == 3 && |keys.component| == 7 && |keys.manifest| == 5 && |keys.names| == COUNT
    && Distinct(keys.file) && Distinct(keys.component) && Distinct(keys.manifest) && Distinct(keys.names)
  }

  lemma SourceKeysGood()
    ensures GoodKeys(SourceKeys())
  {
    var k := SourceKeys();
    assert k.file[0][0] == 'p' && k.file[2][0] == 's';
    assert k.component[3][0] == 'e' && k.component[6][0] == 'f';
    assert k.names[0][0] == 's' && k.names[3][0] == 'l';
  }

  function Zip(names: seq<string>, values: seq<Json>): (fields: seq<Field>)
    requires |names| == |values|
  {
    seq(|names|, i requires 0 <= i < |names| => Field(names[i], values[i]))
  }

  function FileJson(f: File, keys: Keys): Json
    requires GoodKeys(keys)
  {
    Obj(Zip(keys.file, [Str(f.path), Str(f.sha256), Num(f.size as real)]))
  }

  function FilesJson(files: seq<File>, keys: Keys): (r: seq<Json>)
    requires GoodKeys(keys)
  {
    seq(|files|, i requires 0 <= i < |files| => FileJson(files[i], keys))
  }

  function ComponentValues(c: Component, keys: Keys): seq<Json>
    requires GoodKeys(keys)
  {
    [Str(c.name), Str(c.packageName), Str(c.version), Str(c.entry), Str(c.source),
     Num(c.protocolVersion as real), Arr(FilesJson(c.files, keys))]
  }

  function ComponentJson(c: Component, keys: Keys): Json
    requires GoodKeys(keys)
  {
    Obj(Zip(keys.component, ComponentValues(c, keys)))
  }

  function ComponentsJson(components: seq<Component>, keys: Keys): seq<Json>
    requires GoodKeys(keys)
  {
    seq(|components|, i requires 0 <= i < |components| => ComponentJson(components[i], keys))
  }

  function ManifestValues(m: Manifest, keys: Keys): seq<Json>
    requires GoodKeys(keys) && |m.components| == COUNT
  {
    [Num(m.schemaVersion as real), Num(m.protocolVersion as real), Str(m.version), Str(m.entry),
     Obj(Zip(keys.names, ComponentsJson(m.components, keys)))]
  }

  function ManifestJson(m: Manifest, keys: Keys): Json
    requires GoodKeys(keys) && |m.components| == COUNT
  {
    Obj(Zip(keys.manifest, ManifestValues(m, keys)))
  }

  function HashLines(files: seq<File>): string {
    if files == [] then ""
    else HashLines(files[..|files| - 1]) + (if |files| == 1 then "" else "\n") +
         files[|files| - 1].path + ":" + files[|files| - 1].sha256
  }

  /** The text layer around the manifest. */
  datatype Env = Env(
    prefix: string, keys: Keys, collation: string -> real, code: string -> real, stringify: Json -> string)

  function CanonicalText(m: Manifest, env: Env): string
    requires GoodKeys(env.keys) && |m.components| == COUNT
  {
    env.stringify(CanonicalJson(m, env))
  }

  function CanonicalJson(m: Manifest, env: Env): Json
    requires GoodKeys(env.keys) && |m.components| == COUNT
  {
    Canonical.Stable(ManifestJson(m, env.keys), env.code)
  }

  /** Compact JSON text tells the values of manifests apart and has no line break. */
  ghost predicate TextLayer(env: Env) {
    && GoodKeys(env.keys) && Canonical.Injective(env.code)
    && (forall m: Manifest, n: Manifest | |m.components| == COUNT && |n.components| == COUNT ::
          CanonicalText(m, env) == CanonicalText(n, env) ==> CanonicalJson(m, env) == CanonicalJson(n, env))
    && (forall m: Manifest | |m.components| == COUNT :: '\n' !in CanonicalText(m, env))
  }

  function DigestText(m: Manifest, env: Env): string
    requires GoodKeys(env.keys) && |m.components| == COUNT
  {
    env.prefix + CanonicalText(NormalizeManifest(m, env.collation), env) + "\n" +
    HashLines(DeclaredFiles(m, env.collation))
  }

  // ---- the text pins the manifest ----

  lemma ZipWellFormed(names: seq<string>, values: seq<Json>)
    requires |names| == |values| && Distinct(names) && forall i :: 0 <= i < |values| ==> WellFormed(values[i])
    ensures WellFormed(Obj(Zip(names, values)))
  {
  }

  lemma FileWellFormed(f: File, keys: Keys)
    requires GoodKeys(keys)
    ensures WellFormed(FileJson(f, keys))
  {
  }

  lemma ComponentWellFormed(c: Component, keys: Keys)
    requires GoodKeys(keys)
    ensures WellFormed(ComponentJson(c, keys))
  {
    forall i | 0 <= i < |c.files| ensures WellFormed(FilesJson(c.files, keys)[i]) {
      FileWellFormed(c.files[i], keys);
    }
    ZipWellFormed(keys.component, ComponentValues(c, keys));
  }

  lemma ManifestWellFormed(m: Manifest, keys: Keys)
    requires GoodKeys(keys) && |m.components| == COUNT
    ensures WellFormed(ManifestJson(m, keys))
  {
    forall i | 0 <= i < COUNT ensures WellFormed(ComponentsJson(m.components, keys)[i]) {
      ComponentWellFormed(m.components[i], keys);
    }
    ZipWellFormed(keys.names, ComponentsJson(m.components, keys));
    ZipWellFormed(keys.manifest, ManifestValues(m, keys));
  }

  /** Under distinct names, same objects have same values throughout. */
  lemma ZipSame(names: seq<string>, vs: seq<Json>, ws: seq<Json>, i: nat)
    requires |names| == |vs| == |ws| && Distinct(names) && i < |vs|
    requires Canonical.SameValue(Obj(Zip(names, vs)), Obj(Zip(names, ws)))
    ensures Canonical.SameValue(vs[i], ws[i])
  {
    assert Canonical.HasTwin(Zip(names, vs)[i], Zip(names, ws));
    var k :| 0 <= k < |ws| && Zip(names, vs)[i].key == Zip(names, ws)[k].key &&
             Canonical.SameValue(Zip(names, vs)[i].value, Zip(names, ws)[k].value);
    assert k == i;
  }

  lemma SameFile(f: File, g: File, keys: Keys)
    requires GoodKeys(keys) && Canonical.SameValue(FileJson(f, keys), FileJson(g, keys))
    ensures f == g
  {
    var vs, ws := [Str(f.path), Str(f.sha256), Num(f.size as real)], [Str(g.path), Str(g.sha256), Num(g.size as real)];
    ZipSame(keys.file, vs, ws, 0);
    ZipSame(keys.file, vs, ws, 1);
    ZipSame(keys.file, vs, ws, 2);
  }

  lemma SameFiles(fs: seq<File>, gs: seq<File>, keys: Keys)
    requires GoodKeys(keys) && Canonical.SameValue(Arr(FilesJson(fs, keys)), Arr(FilesJson(gs, keys)))
    ensures fs == gs
  {
    assert |FilesJson(fs, keys)| == |fs| && |FilesJson(gs, keys)| == |gs|;
    forall i | 0 <= i < |fs| ensures fs[i] == gs[i] {
      assert Canonical.SameValue(FilesJson(fs, keys)[i], FilesJson(gs, keys)[i]);
      SameFile(fs[i], gs[i], keys);
    }
  }

  lemma SameComponent(c: Component, d: Component, keys: Keys)
    requires GoodKeys(keys) && Canonical.SameValue(ComponentJson(c, keys), ComponentJson(d, keys))
    ensures c == d
  {
    var vs, ws := ComponentValues(c, keys), ComponentValues(d, keys);
    ZipSame(keys.component, vs, ws, 0);
    ZipSame(keys.component, vs, ws, 1);
    ZipSame(keys.component, vs, ws, 2);
    ZipSame(keys.component, vs, ws, 3);
    ZipSame(keys.component, vs, ws, 4);
    ZipSame(keys.component, vs, ws, 5);
    ZipSame(keys.component, vs, ws, 6);
    SameFiles(c.files, d.files, keys);
  }

  lemma SameComponents(cs: seq<Component>, ds: seq<Component>, keys: Keys)
    requires GoodKeys(keys) && |cs| == |ds| == COUNT
    requires Canonical.SameValue(Obj(Zip(keys.names, ComponentsJson(cs, keys))), Obj(Zip(keys.names, ComponentsJson(ds, keys))))
    ensures cs == ds
  {
    forall i | 0 <= i < COUNT ensures cs[i] == ds[i] {
      ZipSame(keys.names, ComponentsJson(cs, keys), ComponentsJson(ds, keys), i);
      SameComponent(cs[i], ds[i], keys);
    }
  }

  lemma SameManifest(m: Manifest, n: Manifest, keys: Keys)
    requires GoodKeys(keys) && |m.components| == |n.components| == COUNT
    requires Canonical.SameValue(ManifestJson(m, keys), ManifestJson(n, keys))
    ensures m == n
  {
    var vs, ws := ManifestValues(m, keys), ManifestValues(n, keys);
    ZipSame(keys.manifest, vs, ws, 0);
    ZipSame(keys.manifest, vs, ws, 1);
    ZipSame(keys.manifest, vs, ws, 2);
    ZipSame(keys.manifest, vs, ws, 3);
    ZipSame(keys.manifest, vs, ws, 4);
    SameComponents(m.components, n.components, keys);
  }

  lemma FirstLine(a: string, rest: string, b: string, rest': string)
    requires a + "\n" + rest == b + "\n" + rest' && '\n' !in a && '\n' !in b
    ensures a == b
  {
    var s := a + "\n" + rest;
    assert s[|a|] == '\n' && s[|b|] == '\n';
    assert forall i :: 0 <= i < |a| ==> s[i] == a[i];
    assert forall i :: 0 <= i < |b| ==> s[i] == b[i];
    assert |a| == |b|;
  }

  lemma TextDecides(m: Manifest, n: Manifest, env: Env)
    requires TextLayer(env) && |m.components| == |n.components| == COUNT
    requires CanonicalText(m, env) == CanonicalText(n, env)
    ensures m == n
  {
    assert CanonicalJson(m, env) == CanonicalJson(n, env);
    ManifestWellFormed(m, env.keys);
    ManifestWellFormed(n, env.keys);
    Canonical.StableDecides(ManifestJson(m, env.keys), ManifestJson(n, env.keys), env.code);
    SameManifest(m, n, env.keys);
  }

  lemma SkipPrefix(prefix: string, a: string, b: string, c: string, a': string, b': string, c': string)
    requires prefix + a + b + c == prefix + a' + b' + c'
    ensures a + b + c == a' + b' + c'
  {
    assert a + b + c == (prefix + a + b + c)[|prefix|..];
    assert a' + b' + c' == (prefix + a' + b' + c')[|prefix|..];
  }

  lemma {:induction false} NormalLikes(components: seq<Component>, normal: seq<Component>, x: File, collation: string -> real)
    requires |components| == |normal|
    requires forall i :: 0 <= i < |components| ==> normal[i] == NormalizeComponent(components[i], collation)
    ensures Like(AllFiles(components), x, ByPath(collation)) == Like(AllFiles(normal), x, ByPath(collation))
  {
    if components == [] {
    } else {
      var key := ByPath(collation);
      NormalLikes(components[1..], normal[1..], x, collation);
      SortIsStable(components[0].files, x, key);
      LikeConcat(components[0].files, AllFiles(components[1..]), AllFiles(components), x, key);
      LikeConcat(normal[0].files, AllFiles(normal[1..]), AllFiles(normal), x, key);
    }
  }

  /** Sorting the files of each component first does not show in the declared files,
      even under a collation that finds different paths equal. */
  lemma DeclaredOfNormal(m: Manifest, collation: string -> real)
    ensures DeclaredFiles(NormalizeManifest(m, collation), collation) == DeclaredFiles(m, collation)
  {
    var n, key := NormalizeManifest(m, collation), ByPath(collation);
    forall x ensures Like(AllFiles(m.components), x, key) == Like(AllFiles(n.components), x, key) {
      NormalLikes(m.components, n.components, x, collation);
    }
    SortByLikes(AllFiles(m.components), AllFiles(n.components), key);
  }

  /** So a manifest and its normal form have one digest. */
  lemma DigestOfNormal(m: Manifest, env: Env)
    requires GoodKeys(env.keys) && |m.components| == COUNT
    ensures DigestText(NormalizeManifest(m, env.collation), env) == DigestText(m, env)
  {
    NormalizeTwice(m, env.collation);
    DeclaredOfNormal(m, env.collation);
  }

  /** The text under the digest is the same exactly when the normal forms are: it
      depends on nothing else, and it leaves nothing of the manifest open. */
  lemma DigestTextDecides(a: Manifest, b: Manifest, env: Env)
    requires TextLayer(env) && |a.components| == |b.components| == COUNT
    ensures DigestText(a, env) == DigestText(b, env) <==>
            NormalizeManifest(a, env.collation) == NormalizeManifest(b, env.collation)
  {
    if DigestText(a, env) == DigestText(b, env) {
      EqualTexts(a, b, env);
    } else {
      DigestOfNormal(a, env);
      DigestOfNormal(b, env);
    }
  }

  lemma EqualTexts(a: Manifest, b: Manifest, env: Env)
    requires TextLayer(env) && |a.components| == |b.components| == COUNT
    requires DigestText(a, env) == DigestText(b, env)
    ensures NormalizeManifest(a, env.collation) == NormalizeManifest(b, env.collation)
  {
    var na, nb := NormalizeManifest(a, env.collation), NormalizeManifest(b, env.collation);
    var ta, tb := CanonicalText(na, env), CanonicalText(nb, env);
    var ra, rb := HashLines(DeclaredFiles(a, env.collation)), HashLines(DeclaredFiles(b, env.collation));
    SkipPrefix(env.prefix, ta, "\n", ra, tb, "\n", rb);
    FirstLine(ta, ra, tb, rb);
    TextDecides(na, nb, env);
  }

  /** Reordering the files of each component leaves the text as it is exactly when
      the collation tells the files of each component apart. */
  lemma DigestForgetsOrderExactly(m: Manifest, env: Env)
    requires TextLayer(env) && |m.components| == COUNT
    ensures (forall p :: Reordered(m, p) ==> DigestText(p, env) == DigestText(m, env)) <==> Told(m, env.collation)
  {
    forall p | Reordered(m, p)
      ensures DigestText(p, env) == DigestText(m, env) <==>
              NormalizeManifest(p, env.collation) == NormalizeManifest(m, env.collation)
    {
      DigestTextDecides(p, m, env);
    }
    OrderForgottenExactly(m, env.collation);
  }

  // ---- what the normal form, the JSON and the text under the digest are ----

  /** The normal form keeps versions, names and files, fixes everything else, and sorts
      the files of each component by path. */
  lemma NormalExactly(m: Manifest, collation: string -> real, i: nat)
    requires i < |m.components|
    ensures var n := NormalizeManifest(m, collation);
            && n.schemaVersion == n.protocolVersion == 2 && n.version == m.version && n.entry == "index.js"
            && |n.components| == |m.components|
            && n.components[i] == Component(m.components[i].name, m.components[i].packageName, m.components[i].version,
                 m.components[i].entry, "bundled", 2, n.components[i].files)
            && multiset(n.components[i].files) == multiset(m.components[i].files)
            && IsSorted(n.components[i].files, ByPath(collation))
  {
    SortSorted(m.components[i].files, ByPath(collation));
  }

  lemma ZipReads(names: seq<string>, values: seq<Json>, i: nat)
    requires |names| == |values| && Distinct(names) && i < |names|
    ensures Get(Zip(names, values), names[i]) == Some(values[i])
  {
    assert DistinctKeys(Zip(names, values));
    GetFinds(Zip(names, values), i);
  }

  /** The member of an object. */
  function Member(j: Json, key: string): Option<Json> { if j.Obj? then Get(j.fields, key) else None }

  /** What the JSON of a manifest reads under the source's names. */
  lemma ManifestReads(m: Manifest)
    requires |m.components| == COUNT
    ensures GoodKeys(SourceKeys())
    ensures var j := ManifestJson(m, SourceKeys());
            && Member(j, "schemaVersion") == Some(Num(m.schemaVersion as real))
            && Member(j, "protocolVersion") == Some(Num(m.protocolVersion as real))
            && Member(j, "version") == Some(Str(m.version)) && Member(j, "entry") == Some(Str(m.entry))
            && Member(j, "components") == Some(Obj(Zip(SourceKeys().names, ComponentsJson(m.components, SourceKeys()))))
  {
    SourceKeysGood();
    var keys, values := SourceKeys().manifest, ManifestValues(m, SourceKeys());
    ZipReads(keys, values, 0);
    ZipReads(keys, values, 1);
    ZipReads(keys, values, 2);
    ZipReads(keys, values, 3);
    ZipReads(keys, values, 4);
  }

  /** The components under their names, in the fixed order. */
  lemma ComponentsRead(components: seq<Component>)
    requires |components| == COUNT
    ensures GoodKeys(SourceKeys())
    ensures var j, json := Obj(Zip(SourceKeys().names, ComponentsJson(components, SourceKeys()))), ComponentsJson(components, SourceKeys());
            && Member(j, "supervisor") == Some(json[0]) && Member(j, "manager-plugin") == Some(json[1])
            && Member(j, "view-bridge") == Some(json[2]) && Member(j, "llm-bridge") == Some(json[3])
            && Member(j, "installation-worker") == Some(json[4])
  {
    SourceKeysGood();
    var keys, values := SourceKeys().names, ComponentsJson(components, SourceKeys());
    ZipReads(keys, values, 0);
    ZipReads(keys, values, 1);
    ZipReads(keys, values, 2);
    ZipReads(keys, values, 3);
    ZipReads(keys, values, 4);
  }

  lemma ComponentReads(c: Component)
    ensures GoodKeys(SourceKeys())
    ensures var j := ComponentJson(c, SourceKeys());
            && Member(j, "name") == Some(Str(c.name)) && Member(j, "packageName") == Some(Str(c.packageName))
            && Member(j, "version") == Some(Str(c.version)) && Member(j, "entry") == Some(Str(c.entry))
            && Member(j, "source") == Some(Str(c.source)) && Member(j, "protocolVersion") == Some(Num(c.protocolVersion as real))
            && Member(j, "files") == Some(Arr(FilesJson(c.files, SourceKeys())))
  {
    SourceKeysGood();
    var keys, values := SourceKeys().component, ComponentValues(c, SourceKeys());
    ZipReads(keys, values, 0);
    ZipReads(keys, values, 1);
    ZipReads(keys, values, 2);
    ZipReads(keys, values, 3);
    ZipReads(keys, values, 4);
    ZipReads(keys, values, 5);
    ZipReads(keys, values, 6);
  }

  lemma FileReads(files: seq<File>, i: nat)
    requires i < |files|
    ensures GoodKeys(SourceKeys())
    ensures |FilesJson(files, SourceKeys())| == |files|
    ensures var j := FilesJson(files, SourceKeys())[i];
            && Member(j, "path") == Some(Str(files[i].path)) && Member(j, "sha256") == Some(Str(files[i].sha256))
            && Member(j, "size") == Some(Num(files[i].size as real))
  {
    SourceKeysGood();
    var keys, values := SourceKeys().file, [Str(files[i].path), Str(files[i].sha256), Num(files[i].size as real)];
    ZipReads(keys, values, 0);
    ZipReads(keys, values, 1);
    ZipReads(keys, values, 2);
  }

  function JoinLines(lines: seq<string>): string {
    if lines == [] then "" else if |lines| == 1 then lines[0] else lines[0] + "\n" + JoinLines(lines[1..])
  }

  function Lines(files: seq<File>): (lines: seq<string>)
    ensures |lines| == |files| && forall i :: 0 <= i < |files| ==> lines[i] == files[i].path + ":" + files[i].sha256
  {
    seq(|files|, i requires 0 <= i < |files| => files[i].path + ":" + files[i].sha256)
  }

  lemma {:induction false} JoinAppend(lines: seq<string>, line: string)
    ensures JoinLines(lines + [line]) == if lines == [] then line else JoinLines(lines) + "\n" + line
  {
    if |lines| <= 1 {
      assert lines + [line] == if lines == [] then [line] else [lines[0], line];
    } else {
      assert (lines + [line])[1..] == lines[1..] + [line];
      JoinAppend(lines[1..], line);
      ThreeParts(lines[0], JoinLines(lines[1..]), line);
    }
  }

  lemma ThreeParts(a: string, b: string, c: string)
    ensures a + "\n" + (b + "\n" + c) == a + "\n" + b + "\n" + c
  {
  }

  lemma {:induction false} HashLinesJoin(files: seq<File>)
    ensures HashLines(files) == JoinLines(Lines(files))
  {
    if files == [] {
    } else {
      var n := |files| - 1;
      var front, last := files[..n], files[n].path + ":" + files[n].sha256;
      HashLinesJoin(front);
      assert Lines(files) == Lines(front) + [last];
      JoinAppend(Lines(front), last);
      LineAppended(HashLines(front), files[n].path, files[n].sha256, n == 0);
    }
  }

  lemma LineAppended(before: string, path: string, sha256: string, first: bool)
    ensures before + (if first then "" else "\n") + path + ":" + sha256
         == (if first then before else before + "\n") + (path + ":" + sha256)
  {
  }

  /** The text under the digest: the prefix, the canonical JSON of the normal form, and
      one line for each declared file, of its path and hash, in the order of the paths. */
  lemma DigestTextParts(m: Manifest, env: Env)
    requires GoodKeys(env.keys) && |m.components| == COUNT
    ensures var files, normal := DeclaredFiles(m, env.collation), NormalizeManifest(m, env.collation);
            && multiset(files) == multiset(AllFiles(m.components)) && IsSorted(files, ByPath(env.collation))
            && DigestText(m, env) ==
                 env.prefix + env.stringify(Canonical.Stable(ManifestJson(normal, env.keys), env.code)) + "\n" + JoinLines(Lines(files))
  {
    HashLinesJoin(DeclaredFiles(m, env.collation));
    SortSorted(AllFiles(m.components), ByPath(env.collation));
  }
}
